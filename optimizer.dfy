/** The peephole pass over bytecode: each maximal run of cell changes
    (`Add`/`Sub`) and each maximal run of pointer moves (`MoveRight`/`MoveLeft`)
    becomes a single operation carrying the signed sum of the run, or nothing
    when the sum is zero. Every other operation is a boundary that passes
    through unchanged. A run that reaches the end of the input is dropped:
    the collecting loop stops there without flushing its sum. */
module Optimizer {
  import opened Bytecode

  /** The two kinds of run. */
  datatype Kind = Cell | Pointer

  /** `op` belongs to a run of `kind`. */
  predicate InRun(kind: Kind, op: ByteCode) {
    match kind
    case Cell => op.Add? || op.Sub?
    case Pointer => op.MoveRight? || op.MoveLeft?
  }

  /** An operation that belongs to no run: a boundary. */
  predicate Boundary(op: ByteCode) {
    !InRun(Cell, op) && !InRun(Pointer, op)
  }

  /** The signed amount `op` contributes to a run of `kind`. */
  function Delta(kind: Kind, op: ByteCode): int {
    if !InRun(kind, op) then 0
    else match op
      case Add(n) => n
      case Sub(n) => -n
      case MoveRight(n) => n
      case MoveLeft(n) => -n
      case _ => 0
  }

  /** The net amount of `kind` over `ops`. */
  function Total(kind: Kind, ops: seq<ByteCode>): int
    decreases |ops|
  {
    if ops == [] then 0 else Delta(kind, ops[0]) + Total(kind, ops[1..])
  }

  lemma {:induction false} TotalAppend(kind: Kind, a: seq<ByteCode>, b: seq<ByteCode>)
    ensures Total(kind, a + b) == Total(kind, a) + Total(kind, b)
    decreases |a|
  {
    if a == [] {
      assert a + b == b;
    } else {
      assert (a + b)[0] == a[0] && (a + b)[1..] == a[1..] + b;
      TotalAppend(kind, a[1..], b);
    }
  }

  /** What a run of `kind` with net amount `sum` becomes. */
  function Flush(kind: Kind, sum: int): (out: seq<ByteCode>)
    ensures |out| <= 1
    ensures forall op :: op in out ==> InRun(kind, op) && op.n > 0
    ensures Total(kind, out) == sum
    ensures forall other :: other != kind ==> Total(other, out) == 0
  {
    match kind
    case Cell => if sum > 0 then [Add(sum)] else if sum < 0 then [Sub(-sum)] else []
    case Pointer => if sum > 0 then [MoveRight(sum)] else if sum < 0 then [MoveLeft(-sum)] else []
  }

  /** The length of the run of `kind` that opens `ops`: every operation before
      it belongs to the run, the one at it (if any) does not. */
  function RunLength(kind: Kind, ops: seq<ByteCode>): (k: nat)
    ensures k <= |ops|
    ensures forall i :: 0 <= i < k ==> InRun(kind, ops[i])
    ensures k < |ops| ==> !InRun(kind, ops[k])
    decreases |ops|
  {
    if ops == [] || !InRun(kind, ops[0]) then 0 else 1 + RunLength(kind, ops[1..])
  }

  /** The run is determined by where it stops. */
  lemma RunLengthIs(kind: Kind, ops: seq<ByteCode>, k: nat)
    requires k <= |ops| && forall i :: 0 <= i < k ==> InRun(kind, ops[i])
    requires k < |ops| ==> !InRun(kind, ops[k])
    ensures RunLength(kind, ops) == k
    decreases k
  {
    if k > 0 {
      RunLengthIs(kind, ops[1..], k - 1);
    }
  }

  /** `optimize_add` (`Cell`) and `optimize_move` (`Pointer`) as a function:
      the operations emitted and the queue left behind. The run opening `ops`
      is consumed; it is flushed with `sum` added when a boundary stops it, and
      dropped when the queue runs out first. The boundary stays in the queue. */
  function Collapse(kind: Kind, ops: seq<ByteCode>, sum: int): (r: (seq<ByteCode>, seq<ByteCode>))
    ensures r.1 == ops[RunLength(kind, ops)..]
  {
    var k := RunLength(kind, ops);
    if k == |ops| then ([], ops[k..]) else (Flush(kind, sum + Total(kind, ops[..k])), ops[k..])
  }

  /** A run stopped by a boundary at `k` is flushed with its net amount. */
  lemma CollapseStopped(kind: Kind, ops: seq<ByteCode>, sum: int, k: nat)
    requires RunLength(kind, ops) == k < |ops|
    ensures Collapse(kind, ops, sum) == (Flush(kind, sum + Total(kind, ops[..k])), ops[k..])
  {
  }

  /** `optimize`: the whole pass as a function of the queue. */
  function Optimized(ops: seq<ByteCode>): seq<ByteCode>
    decreases |ops|
  {
    if ops == [] then []
    else if InRun(Cell, ops[0]) then
      var c := Collapse(Cell, ops[1..], Delta(Cell, ops[0]));
      c.0 + Optimized(c.1)
    else if InRun(Pointer, ops[0]) then
      var c := Collapse(Pointer, ops[1..], Delta(Pointer, ops[0]));
      c.0 + Optimized(c.1)
    else [ops[0]] + Optimized(ops[1..])
  }

  /** One step of the pass at a run of `kind`. */
  lemma OptimizedRunStep(kind: Kind, ops: seq<ByteCode>)
    requires ops != [] && InRun(kind, ops[0])
    ensures var c := Collapse(kind, ops[1..], Delta(kind, ops[0]));
      Optimized(ops) == c.0 + Optimized(c.1)
  {
    if kind == Pointer {
      assert !InRun(Cell, ops[0]);
    }
  }

  /** One step of the pass at a boundary. */
  lemma OptimizedBoundaryStep(ops: seq<ByteCode>)
    requires ops != [] && Boundary(ops[0])
    ensures Optimized(ops) == [ops[0]] + Optimized(ops[1..])
  {
  }

  // ---------------------------------------------------------------------
  // The pass. The `&mut VecDeque` queue is passed in and handed back.

  /** `optimize_add`: pop cell changes into `sum`; at the first other
      operation emit the sum, push that operation back and stop. */
  method OptimizeAdd(byteCode: seq<ByteCode>, sum: int) returns (optimized: seq<ByteCode>, rest: seq<ByteCode>)
    ensures (optimized, rest) == Collapse(Cell, byteCode, sum)
  {
    optimized := [];
    rest := byteCode;
    var s := sum;
    ghost var k: nat := 0;
    while rest != []
      invariant k <= |byteCode| && rest == byteCode[k..] && optimized == []
      invariant forall i :: 0 <= i < k ==> InRun(Cell, byteCode[i])
      invariant s == sum + Total(Cell, byteCode[..k])
      decreases |rest|
    {
      var op := rest[0];
      rest := rest[1..];
      TotalAppend(Cell, byteCode[..k], [op]);
      assert byteCode[..k + 1] == byteCode[..k] + [op];
      if op.Add? {
        s := s + op.n;
      } else if op.Sub? {
        s := s - op.n;
      } else {
        if s > 0 {
          optimized := optimized + [Add(s)];
        } else if s < 0 {
          optimized := optimized + [Sub(-s)];
        }
        rest := [op] + rest;
        assert rest == byteCode[k..];
        RunLengthIs(Cell, byteCode, k);
        assert optimized == Flush(Cell, s);
        return;
      }
      k := k + 1;
    }
    RunLengthIs(Cell, byteCode, k);
  }

  /** `optimize_move`: the same for pointer moves. */
  method OptimizeMove(byteCode: seq<ByteCode>, sum: int) returns (optimized: seq<ByteCode>, rest: seq<ByteCode>)
    ensures (optimized, rest) == Collapse(Pointer, byteCode, sum)
  {
    optimized := [];
    rest := byteCode;
    var s := sum;
    ghost var k: nat := 0;
    while rest != []
      invariant k <= |byteCode| && rest == byteCode[k..] && optimized == []
      invariant forall i :: 0 <= i < k ==> InRun(Pointer, byteCode[i])
      invariant s == sum + Total(Pointer, byteCode[..k])
      decreases |rest|
    {
      var op := rest[0];
      rest := rest[1..];
      TotalAppend(Pointer, byteCode[..k], [op]);
      assert byteCode[..k + 1] == byteCode[..k] + [op];
      if op.MoveRight? {
        s := s + op.n;
      } else if op.MoveLeft? {
        s := s - op.n;
      } else {
        if s > 0 {
          optimized := optimized + [MoveRight(s)];
        } else if s < 0 {
          optimized := optimized + [MoveLeft(-s)];
        }
        rest := [op] + rest;
        assert rest == byteCode[k..];
        RunLengthIs(Pointer, byteCode, k);
        assert optimized == Flush(Pointer, s);
        return;
      }
      k := k + 1;
    }
    RunLengthIs(Pointer, byteCode, k);
  }

  /** `optimize`: pop each operation; a cell change or pointer move starts a
      run handed to `optimize_add`/`optimize_move` with its own amount,
      anything else is copied. */
  method OptimizeOps(byteCode: seq<ByteCode>) returns (optimized: seq<ByteCode>)
    ensures optimized == Optimized(byteCode)
  {
    optimized := [];
    var queue := byteCode;
    while queue != []
      invariant Optimized(byteCode) == optimized + Optimized(queue)
      decreases |queue|
    {
      var op := queue[0];
      var more: seq<ByteCode>;
      ghost var before := queue;
      queue := queue[1..];
      match op {
        case Add(n) =>
          OptimizedRunStep(Cell, before);
          more, queue := OptimizeAdd(queue, n);
          assert Optimized(before) == more + Optimized(queue);
        case Sub(n) =>
          OptimizedRunStep(Cell, before);
          more, queue := OptimizeAdd(queue, -n);
          assert Optimized(before) == more + Optimized(queue);
        case MoveRight(n) =>
          OptimizedRunStep(Pointer, before);
          more, queue := OptimizeMove(queue, n);
          assert Optimized(before) == more + Optimized(queue);
        case MoveLeft(n) =>
          OptimizedRunStep(Pointer, before);
          more, queue := OptimizeMove(queue, -n);
          assert Optimized(before) == more + Optimized(queue);
        case _ =>
          OptimizedBoundaryStep(before);
          more := [op];
          assert Optimized(before) == more + Optimized(queue);
      }
      Associative(optimized, more, Optimized(queue));
      optimized := optimized + more;
    }
  }

  /** `Optimizer`: holds the program the pass consumes. */
  datatype Optimizer = Optimizer(program: ByteProgram)
  {
    /** `Optimizer::optimize`: the pass over the program's operations. */
    method Optimize() returns (p: ByteProgram)
      ensures p.program == Optimized(program.program)
    {
      var ops := OptimizeOps(ToOps(program));
      p := FromOps(ops);
    }
  }

  // ---------------------------------------------------------------------
  // Properties of the pass.

  /** The operations a run of `kind` starting at `ops[0]` takes up, and what
      is left. */
  lemma RunSplit(kind: Kind, ops: seq<ByteCode>)
    requires ops != [] && InRun(kind, ops[0])
    ensures var k := 1 + RunLength(kind, ops[1..]);
      && k <= |ops| && ops == ops[..k] + ops[k..]
      && (forall i :: 0 <= i < k ==> InRun(kind, ops[i]))
      && Collapse(kind, ops[1..], Delta(kind, ops[0])).1 == ops[k..]
      && Total(kind, ops[..k]) == Delta(kind, ops[0]) + Total(kind, ops[1..][..k - 1])
  {
    var k := 1 + RunLength(kind, ops[1..]);
    assert ops[..k][1..] == ops[1..][..k - 1];
  }

  /** The net amount of `kind` over a run of the other kind is zero; the net
      amount of any kind over boundaries is zero. */
  lemma {:induction false} TotalOutside(kind: Kind, ops: seq<ByteCode>)
    requires forall i :: 0 <= i < |ops| ==> !InRun(kind, ops[i])
    ensures Total(kind, ops) == 0
    decreases |ops|
  {
    if ops != [] {
      TotalOutside(kind, ops[1..]);
    }
  }

  /** A maximal run of `kind` stopped by an operation outside it becomes the
      single operation its net amount calls for (nothing for zero); the pass
      goes on from the operation that stopped it. A pointer move thus ends a
      run of cell changes and the other way round. */
  lemma FlushedRun(kind: Kind, ops: seq<ByteCode>, k: nat)
    requires 0 < k < |ops| && (forall i :: 0 <= i < k ==> InRun(kind, ops[i])) && !InRun(kind, ops[k])
    ensures Optimized(ops) == Flush(kind, Total(kind, ops[..k])) + Optimized(ops[k..])
  {
    var tail := ops[1..];
    var sum := Delta(kind, ops[0]);
    RunLengthIs(kind, tail, k - 1);
    CollapseStopped(kind, tail, sum, k - 1);
    assert ops[..k][0] == ops[0] && ops[..k][1..] == tail[..k - 1];
    assert tail[k - 1..] == ops[k..];
    OptimizedRunStep(kind, ops);
  }

  /** A run that reaches the end of the input is dropped: nothing of it is
      emitted. */
  lemma TrailingRunDropped(kind: Kind, run: seq<ByteCode>)
    requires run != [] && forall i :: 0 <= i < |run| ==> InRun(kind, run[i])
    ensures Optimized(run) == []
  {
    RunLengthIs(kind, run[1..], |run| - 1);
    if kind == Pointer {
      assert !InRun(Cell, run[0]);
    }
  }

  /** The boundaries of `ops`, in order. */
  function Boundaries(ops: seq<ByteCode>): seq<ByteCode>
    decreases |ops|
  {
    if ops == [] then [] else (if Boundary(ops[0]) then [ops[0]] else []) + Boundaries(ops[1..])
  }

  lemma {:induction false} BoundariesAppend(a: seq<ByteCode>, b: seq<ByteCode>)
    ensures Boundaries(a + b) == Boundaries(a) + Boundaries(b)
    decreases |a|
  {
    if a == [] {
      assert a + b == b;
    } else {
      var head := if Boundary(a[0]) then [a[0]] else [];
      assert (a + b)[0] == a[0] && (a + b)[1..] == a[1..] + b;
      assert Boundaries(a + b) == head + Boundaries(a[1..] + b);
      BoundariesAppend(a[1..], b);
      Associative(head, Boundaries(a[1..]), Boundaries(b));
    }
  }

  lemma {:induction false} NoBoundaries(ops: seq<ByteCode>)
    requires forall i :: 0 <= i < |ops| ==> !Boundary(ops[i])
    ensures Boundaries(ops) == []
    decreases |ops|
  {
    if ops != [] {
      NoBoundaries(ops[1..]);
    }
  }

  /** `Read`, `Write`, `Jump`, `JumpNotZero` and `Exit` pass through
      unchanged and in their order. */
  lemma {:induction false} BoundariesKept(ops: seq<ByteCode>)
    ensures Boundaries(Optimized(ops)) == Boundaries(ops)
    decreases |ops|
  {
    if ops != [] {
      if InRun(Cell, ops[0]) || InRun(Pointer, ops[0]) {
        var kind := if InRun(Cell, ops[0]) then Cell else Pointer;
        var c := Collapse(kind, ops[1..], Delta(kind, ops[0]));
        assert Optimized(ops) == c.0 + Optimized(c.1);
        RunSplit(kind, ops);
        var k := 1 + RunLength(kind, ops[1..]);
        BoundariesAppend(c.0, Optimized(c.1));
        NoBoundaries(c.0);
        BoundariesKept(c.1);
        BoundariesAppend(ops[..k], ops[k..]);
        NoBoundaries(ops[..k]);
      } else {
        BoundariesKept(ops[1..]);
        assert Optimized(ops) == [ops[0]] + Optimized(ops[1..]);
        BoundariesAppend([ops[0]], Optimized(ops[1..]));
      }
    }
  }

  /** Every cell change and pointer move the pass emits has a positive
      magnitude, and the pass never lengthens the program. */
  lemma {:induction false} OptimizedShape(ops: seq<ByteCode>)
    ensures forall op :: op in Optimized(ops) && !Boundary(op) ==> op.n > 0
    ensures |Optimized(ops)| <= |ops|
    decreases |ops|
  {
    if ops != [] {
      if InRun(Cell, ops[0]) || InRun(Pointer, ops[0]) {
        var kind := if InRun(Cell, ops[0]) then Cell else Pointer;
        var c := Collapse(kind, ops[1..], Delta(kind, ops[0]));
        assert Optimized(ops) == c.0 + Optimized(c.1);
        OptimizedShape(c.1);
      } else {
        OptimizedShape(ops[1..]);
      }
    }
  }

  /** Over an input that ends with a boundary, a run is always stopped by a
      boundary and flushed with its net amount. */
  lemma RunStopped(run: Kind, ops: seq<ByteCode>)
    requires ops != [] && InRun(run, ops[0]) && Boundary(ops[|ops| - 1])
    ensures var k := 1 + RunLength(run, ops[1..]);
      var c := Collapse(run, ops[1..], Delta(run, ops[0]));
      && k < |ops| && ops == ops[..k] + ops[k..] && c.1 == ops[k..]
      && (forall i :: 0 <= i < k ==> InRun(run, ops[i]))
      && c.0 == Flush(run, Total(run, ops[..k]))
      && Boundary(c.1[|c.1| - 1])
  {
    RunSplit(run, ops);
    var k := 1 + RunLength(run, ops[1..]);
    assert !InRun(run, ops[|ops| - 1]);
    assert k < |ops|;
    assert ops[k..][|ops[k..]| - 1] == ops[|ops| - 1];
  }

  /** One run step of the pass over an input that ends with a boundary: the
      rest still ends with it, and the amounts split between what the run
      emits and the rest. */
  lemma RunStepTotals(kind: Kind, run: Kind, ops: seq<ByteCode>)
    requires ops != [] && InRun(run, ops[0]) && Boundary(ops[|ops| - 1])
    ensures var c := Collapse(run, ops[1..], Delta(run, ops[0]));
      && |c.1| < |ops| && c.1 != [] && Boundary(c.1[|c.1| - 1])
      && Total(kind, ops) == Total(kind, c.0) + Total(kind, c.1)
  {
    RunStopped(run, ops);
    var k := 1 + RunLength(run, ops[1..]);
    TotalAppend(kind, ops[..k], ops[k..]);
    if kind != run {
      TotalOutside(kind, ops[..k]);
    }
  }

  /** When the input ends with a boundary, as every compiled program does with
      `Exit`, no amount is lost: the net cell change and the net pointer move
      of the output are those of the input. */
  lemma {:induction false} TotalsKept(kind: Kind, ops: seq<ByteCode>)
    requires ops != [] ==> Boundary(ops[|ops| - 1])
    ensures Total(kind, Optimized(ops)) == Total(kind, ops)
    decreases |ops|
  {
    if ops != [] {
      if InRun(Cell, ops[0]) || InRun(Pointer, ops[0]) {
        var run := if InRun(Cell, ops[0]) then Cell else Pointer;
        var c := Collapse(run, ops[1..], Delta(run, ops[0]));
        OptimizedRunStep(run, ops);
        RunStepTotals(kind, run, ops);
        TotalsKept(kind, c.1);
        TotalAppend(kind, c.0, Optimized(c.1));
      } else {
        OptimizedBoundaryStep(ops);
        TotalAppend(kind, [ops[0]], Optimized(ops[1..]));
        TotalsKept(kind, ops[1..]);
      }
    }
  }

  /** Without a final boundary the last run is lost: `[Add(1)]` optimizes to
      nothing. */
  lemma TrailingAddLost()
    ensures Optimized([Add(1)]) == [] && Total(Cell, [Add(1)]) == 1
  {
    TrailingRunDropped(Cell, [Add(1)]);
  }

  /** The pass is not idempotent: a pointer run that cancels out vanishes on
      the first pass and only then lets the cell changes around it meet, so a
      second pass changes the program again. */
  lemma NotIdempotent(n: int, m: int)
    requires n > 0
    ensures Optimized([Add(n), MoveRight(m), MoveLeft(m), Add(n), Exit]) == [Add(n), Add(n), Exit]
    ensures Optimized([Add(n), Add(n), Exit]) == [Add(2 * n), Exit]
  {
    FirstPass(n, m);
    SecondPass(n);
  }

  lemma FirstPass(n: int, m: int)
    requires n > 0
    ensures Optimized([Add(n), MoveRight(m), MoveLeft(m), Add(n), Exit]) == [Add(n), Add(n), Exit]
  {
    var ops := [Add(n), MoveRight(m), MoveLeft(m), Add(n), Exit];
    FlushedRun(Cell, ops, 1);
    assert ops[..1] == [Add(n)] && ops[1..] == [MoveRight(m), MoveLeft(m), Add(n), Exit];
    assert Flush(Cell, Total(Cell, [Add(n)])) == [Add(n)];
    CancelledMoves(n, m);
  }

  lemma CancelledMoves(n: int, m: int)
    requires n > 0
    ensures Optimized([MoveRight(m), MoveLeft(m), Add(n), Exit]) == [Add(n), Exit]
  {
    var ops := [MoveRight(m), MoveLeft(m), Add(n), Exit];
    FlushedRun(Pointer, ops, 2);
    assert ops[..2] == [MoveRight(m), MoveLeft(m)] && ops[2..] == [Add(n), Exit];
    TotalPair(Pointer, MoveRight(m), MoveLeft(m));
    LastAdd(n);
  }

  lemma LastAdd(n: int)
    requires n > 0
    ensures Optimized([Add(n), Exit]) == [Add(n), Exit]
  {
    var ops := [Add(n), Exit];
    FlushedRun(Cell, ops, 1);
    assert ops[..1] == [Add(n)] && ops[1..] == [Exit];
    assert Flush(Cell, Total(Cell, [Add(n)])) == [Add(n)];
    OptimizedBoundaryStep([Exit]);
  }

  lemma TotalPair(kind: Kind, a: ByteCode, b: ByteCode)
    ensures Total(kind, [a, b]) == Delta(kind, a) + Delta(kind, b)
  {
    assert [b][1..] == [];
    assert Total(kind, [b]) == Delta(kind, b);
    assert [a, b][1..] == [b];
  }

  lemma SecondPass(n: int)
    requires n > 0
    ensures Optimized([Add(n), Add(n), Exit]) == [Add(2 * n), Exit]
  {
    var ops := [Add(n), Add(n), Exit];
    FlushedRun(Cell, ops, 2);
    assert ops[..2] == [Add(n), Add(n)] && ops[2..] == [Exit];
    TotalPair(Cell, Add(n), Add(n));
    OptimizedBoundaryStep([Exit]);
  }
}
