/** The tape machine the interpreter runs on: a tape of byte cells that grows
    on the right, a cursor that is clamped at 0 on the left, and the bytes that
    standard input will deliver and standard output has received. */
module Interpreter {
  import opened Base

  /** `wrapping_add(1)` on a `u8`. */
  function WrappingInc(x: u8): (r: u8)
    ensures r as int == (x as int + 1) % 256
  {
    if x == 255 then 0 else x + 1
  }

  /** `wrapping_sub(1)` on a `u8`. */
  function WrappingDec(x: u8): (r: u8)
    ensures r as int == (x as int - 1) % 256
  {
    if x == 0 then 255 else x - 1
  }

  /** The value of a `Context`: the specification of its methods.
      `input` is everything standard input will deliver, `output` everything
      written to standard output so far. */
  datatype Machine = Machine(tape: seq<u8>, index: nat, input: seq<u8>, output: seq<u8>)
  {
    /** The invariant of the source: the cursor is a valid tape index. */
    predicate Valid() {
      index < |tape|
    }

    function Cell(): u8
      requires Valid()
    {
      tape[index]
    }

    predicate CellIsZero()
      requires Valid()
    {
      tape[index] == 0
    }

    /** `move_right`: the cursor moves one right; the tape grows by zero cells
        only at its end, and only when the cursor would leave it. */
    function MoveRight(): (m: Machine)
      requires Valid()
      ensures m.Valid() && m.index == index + 1
      ensures |tape| <= |m.tape| <= |tape| + 1 && m.tape[..|tape|] == tape
      ensures forall i :: |tape| <= i < |m.tape| ==> m.tape[i] == 0
      ensures m.input == input && m.output == output
    {
      var t := if index + 1 < |tape| then tape else tape + [0];
      this.(tape := t, index := index + 1)
    }

    /** `move_left`: clamped at 0, the tape never changes. */
    function MoveLeft(): (m: Machine)
      requires Valid()
      ensures m.Valid() && m.tape == tape && m.input == input && m.output == output
      ensures m.index == if index > 0 then index - 1 else 0
    {
      if index > 0 then this.(index := index - 1) else this
    }

    /** `write`: the current cell, and nothing else, becomes `v`. */
    function Write(v: u8): (m: Machine)
      requires Valid()
      ensures m.Valid() && m.Cell() == v && m.index == index && |m.tape| == |tape|
      ensures forall i :: 0 <= i < |tape| && i != index ==> m.tape[i] == tape[i]
      ensures m.input == input && m.output == output
    {
      this.(tape := tape[index := v])
    }

    /** `increment`: the current cell goes up by one modulo 256. */
    function Increment(): (m: Machine)
      requires Valid()
      ensures m.Valid() && m.Cell() as int == (Cell() as int + 1) % 256
      ensures m == Write(m.Cell())
    {
      Write(WrappingInc(Cell()))
    }

    /** `decrement`: the current cell goes down by one modulo 256. */
    function Decrement(): (m: Machine)
      requires Valid()
      ensures m.Valid() && m.Cell() as int == (Cell() as int - 1) % 256
      ensures m == Write(m.Cell())
    {
      Write(WrappingDec(Cell()))
    }

    /** `output`: the current cell is appended to standard output. */
    function Output(): (m: Machine)
      requires Valid()
      ensures m.Valid() && m.output == output + [Cell()]
      ensures m.tape == tape && m.index == index && m.input == input
    {
      this.(output := output + [Cell()])
    }

    /** `input`: the next byte of standard input is written into the current
        cell. When standard input is exhausted the source never returns: None. */
    function Input(): (r: Option<Machine>)
      requires Valid()
      ensures r.Some? <==> |input| > 0
      ensures r.Some? ==> r.value == this.(input := input[1..]).Write(input[0])
    {
      if |input| == 0 then None
      else Some(this.(input := input[1..]).Write(input[0]))
    }
  }

  /** `Context::new`: a tape of one zero cell, the cursor on it. */
  function Fresh(input: seq<u8>): (m: Machine)
    ensures m.Valid() && m.tape == [0] && m.index == 0 && m.CellIsZero()
    ensures m.input == input && m.output == []
  {
    Machine([0], 0, input, [])
  }

  /** Increment undoes decrement and vice versa. */
  lemma IncrementDecrement(m: Machine)
    requires m.Valid()
    ensures m.Increment().Decrement() == m
    ensures m.Decrement().Increment() == m
  {
    assert m.Increment().Decrement().tape == m.tape;
    assert m.Decrement().Increment().tape == m.tape;
  }

  /** Moving right and then left brings the cursor back; the tape keeps its
      old cells. */
  lemma MoveRightThenLeft(m: Machine)
    requires m.Valid()
    ensures m.MoveRight().MoveLeft().index == m.index
    ensures m.MoveRight().MoveLeft().tape[..|m.tape|] == m.tape
  {
  }

  /** `n` increments of the current cell. */
  function Increments(m: Machine, n: nat): (r: Machine)
    requires m.Valid()
    ensures r.Valid()
    decreases n
  {
    if n == 0 then m else Increments(m.Increment(), n - 1)
  }

  /** `n` increments add `n` to the current cell modulo 256 and touch nothing else. */
  lemma {:induction false} IncrementsAdd(m: Machine, n: nat)
    requires m.Valid()
    ensures Increments(m, n) == m.Write(((m.Cell() as int + n) % 256) as u8)
    decreases n
  {
    if n > 0 {
      IncrementsAdd(m.Increment(), n - 1);
      assert m.Increment().Write(((m.Increment().Cell() as int + n - 1) % 256) as u8)
          == m.Write(((m.Cell() as int + n) % 256) as u8);
    } else {
      assert m.Write(m.Cell()) == m;
    }
  }

  /** Writing the value a cell already holds changes nothing. */
  lemma WriteSame(m: Machine)
    requires m.Valid()
    ensures m.Write(m.Cell()) == m
  {
    assert m.Write(m.Cell()).tape == m.tape;
  }

  lemma AddModulus(c: u8)
    ensures ((c as int + 256) % 256) as u8 == c
  {
    var k := c as int;
    assert k + 256 == 1 * 256 + k;
  }

  /** 256 increments restore the cell: cells wrap modulo 256. */
  lemma IncrementsWrap(m: Machine)
    requires m.Valid()
    ensures Increments(m, 256) == m
  {
    IncrementsAdd(m, 256);
    AddModulus(m.Cell());
    WriteSame(m);
  }

  /** The virtual machine state, updated in place, as `Context` in the source.
      `input` stands for the input buffer together with everything standard
      input still holds; `output` for what was printed. */
  class Context {
    var tape: seq<u8>
    var currentIndex: nat
    var input: seq<u8>
    var output: seq<u8>

    ghost predicate Valid()
      reads this
    {
      currentIndex < |tape|
    }

    ghost function State(): Machine
      reads this
    {
      Machine(tape, currentIndex, input, output)
    }

    /** `Context::new`. */
    constructor (stdin: seq<u8>)
      ensures Valid() && State() == Fresh(stdin)
    {
      tape := [0];
      currentIndex := 0;
      input := stdin;
      output := [];
    }

    /** `move_right`: grows the tape with a loop until the cursor is on it. */
    method MoveRight()
      requires Valid()
      modifies this
      ensures Valid() && State() == old(State()).MoveRight()
    {
      currentIndex := currentIndex + 1;
      while currentIndex >= |tape|
        invariant currentIndex == old(currentIndex) + 1
        invariant old(tape) <= tape && |tape| <= |old(tape)| + 1
        invariant |tape| > |old(tape)| ==> |tape| <= currentIndex + 1
        invariant forall i :: |old(tape)| <= i < |tape| ==> tape[i] == 0
        invariant input == old(input) && output == old(output)
        decreases currentIndex + 1 - |tape|
      {
        tape := tape + [0];
      }
      assert tape == if old(currentIndex) + 1 < |old(tape)| then old(tape) else old(tape) + [0];
    }

    /** `move_left`. */
    method MoveLeft()
      requires Valid()
      modifies this
      ensures Valid() && State() == old(State()).MoveLeft()
    {
      if currentIndex > 0 {
        currentIndex := currentIndex - 1;
      }
    }

    /** `write`. */
    method Write(value: u8)
      requires Valid()
      modifies this
      ensures Valid() && State() == old(State()).Write(value)
    {
      tape := tape[currentIndex := value];
    }

    /** `read`. */
    method Read() returns (v: u8)
      requires Valid()
      ensures v == tape[currentIndex]
    {
      v := tape[currentIndex];
    }

    /** `increment`. */
    method Increment()
      requires Valid()
      modifies this
      ensures Valid() && State() == old(State()).Increment()
    {
      var old_ := tape[currentIndex];
      tape := tape[currentIndex := WrappingInc(old_)];
    }

    /** `decrement`. */
    method Decrement()
      requires Valid()
      modifies this
      ensures Valid() && State() == old(State()).Decrement()
    {
      var old_ := tape[currentIndex];
      tape := tape[currentIndex := WrappingDec(old_)];
    }

    /** `current_cell_is_zero`: reads, changes nothing. */
    method CurrentCellIsZero() returns (z: bool)
      requires Valid()
      ensures z <==> tape[currentIndex] == 0
    {
      z := tape[currentIndex] == 0;
    }

    /** `output`: the current cell goes to standard output. */
    method Output()
      requires Valid()
      modifies this
      ensures Valid() && State() == old(State()).Output()
    {
      var v := Read();
      output := output + [v];
    }

    /** `input`: pops the front byte of the input and writes it into the
        current cell; `ok` is false where the source would wait forever. */
    method Input() returns (ok: bool)
      requires Valid()
      modifies this
      ensures Valid()
      ensures ok <==> old(State()).Input().Some?
      ensures ok ==> State() == old(State()).Input().value
      ensures !ok ==> State() == old(State())
    {
      if |input| == 0 {
        return false;
      }
      var b := input[0];
      input := input[1..];
      Write(b);
      ok := true;
    }
  }
}
