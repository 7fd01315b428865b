/** The bytecode the compiler produces and its translation to assembly text.
    The text is a sequence of lines instead of writes to a sink; a reader of
    that text is the partner that shows the translation loses nothing. */
module Bytecode {
  import opened Base
  import opened Decimal

  /** A jump target; the compiler names them `LOOP<n>`. */
  datatype Label = Label(name: string)

  /** The operations; magnitudes are unbounded integers. */
  datatype ByteCode =
    | Add(n: int)
    | Sub(n: int)
    | MoveRight(n: int)
    | MoveLeft(n: int)
    | Read
    | Write
    | Jump(target: Label)
    | JumpNotZero(target: Label)
    | Exit

  datatype ByteProgram = ByteProgram(program: seq<ByteCode>)

  /** `From<VecDeque<ByteCode>> for ByteProgram`. */
  function FromOps(ops: seq<ByteCode>): (p: ByteProgram)
    ensures p.program == ops
  {
    ByteProgram(ops)
  }

  /** `From<ByteProgram> for VecDeque<ByteCode>`. */
  function ToOps(p: ByteProgram): (ops: seq<ByteCode>)
    ensures FromOps(ops) == p
  {
    p.program
  }

  /** Operation sequences regroup freely when joined. */
  lemma Associative(a: seq<ByteCode>, b: seq<ByteCode>, c: seq<ByteCode>)
    ensures a + (b + c) == (a + b) + c
  {
  }

  /** `emit_prelude`. */
  function Prelude(): (lines: seq<string>)
    ensures |lines| == 6
  {
    ["global start\n", "\n", "section .text\n", "\n", "start:\n", "  mov rsp, tape\n"]
  }

  /** `emit_bss`: room for 10000 quadwords of tape. */
  function Bss(): (lines: seq<string>)
    ensures |lines| == 2
  {
    ["section .bss\n", "tape: resq 10000\n"]
  }

  const ADD_CELL := "  add byte [rsp], "
  const SUB_CELL := "  sub byte [rsp], "
  const ADD_POINTER := "  add rsp, "
  const SUB_POINTER := "  sub rsp, "
  const JUMP := "  jmp _"
  const COMPARE := "  cmp byte [rsp], 0\n"
  const JUMP_NOT_EQUAL := "  jne "

  function ReadLines(): seq<string> {
    ["  mov rax, 0x2000003 ; read\n", "  mov rdi, 0         ; stdin\n", "  mov rsi, rsp\n", "  mov rdx, 1\n", "  syscall\n"]
  }

  function WriteLines(): seq<string> {
    ["  mov rax, 0x2000004 ; write\n", "  mov rdi, 1         ; stdout\n", "  mov rsi, rsp\n", "  mov rdx, 1\n", "  syscall\n"]
  }

  function ExitLines(): seq<string> {
    ["  mov rax, 0x2000001 ; exit\n", "  mov rdi, 0\n", "  syscall\n"]
  }

  /** `compile_to_native_code`: the lines of one operation. */
  function NativeCode(op: ByteCode): (lines: seq<string>)
    ensures 0 < |lines| <= 5
  {
    match op
    case Add(n) => [ADD_CELL + IntToString(n) + "\n"]
    case Sub(n) => [SUB_CELL + IntToString(n) + "\n"]
    case MoveRight(n) => [ADD_POINTER + IntToString(n) + "\n"]
    case MoveLeft(n) => [SUB_POINTER + IntToString(n) + "\n"]
    case Read => ReadLines()
    case Write => WriteLines()
    case Jump(l) => [JUMP + l.name + "\n", l.name + ":\n"]
    case JumpNotZero(l) => ["_" + l.name + ":\n", COMPARE, JUMP_NOT_EQUAL + l.name + "\n"]
    case Exit => ExitLines()
  }

  /** The lines of a sequence of operations, in order. */
  function NativeCodes(ops: seq<ByteCode>): seq<string>
    decreases |ops|
  {
    if ops == [] then [] else NativeCode(ops[0]) + NativeCodes(ops[1..])
  }

  /** The whole text `emit` writes. */
  function Emitted(p: ByteProgram): seq<string>
  {
    Prelude() + NativeCodes(p.program) + Bss()
  }

  /** `ByteProgram::emit`: the prelude, each operation's lines, the trailer. */
  method Emit(p: ByteProgram) returns (out: seq<string>)
    ensures out == Emitted(p)
    ensures out[..6] == Prelude() && out[|out| - 2..] == Bss()
  {
    out := Prelude();
    for i := 0 to |p.program|
      invariant out + NativeCodes(p.program[i..]) == Emitted(p)[..|Emitted(p)| - 2]
    {
      NativeCodesCons(p.program[i..]);
      assert p.program[i..][1..] == p.program[i + 1..];
      out := out + NativeCode(p.program[i]);
    }
    assert p.program[|p.program|..] == [];
    out := out + Bss();
  }

  lemma NativeCodesCons(ops: seq<ByteCode>)
    requires ops != []
    ensures NativeCodes(ops) == NativeCode(ops[0]) + NativeCodes(ops[1..])
  {
  }

  /** `s` is `prefix`, something, and `suffix`; the something. */
  function Between(s: string, prefix: string, suffix: string): Option<string>
  {
    if |prefix| + |suffix| <= |s| && s[..|prefix|] == prefix && s[|s| - |suffix|..] == suffix
    then Some(s[|prefix|..|s| - |suffix|])
    else None
  }

  /** The operation whose lines open `lines`, and how many lines it takes. */
  function DecodeOne(lines: seq<string>): (r: Option<(ByteCode, nat)>)
    requires lines != []
    ensures r.Some? ==> 0 < r.value.1 <= |lines|
  {
    var first := lines[0];
    var more := |lines| - 1;
    if |lines| >= 5 && lines[..5] == ReadLines() then Some((Read, 5))
    else if |lines| >= 5 && lines[..5] == WriteLines() then Some((Write, 5))
    else if |lines| >= 3 && lines[..3] == ExitLines() then Some((Exit, 3))
    else if Between(first, ADD_CELL, "\n").Some? then
      var n := ParseInt(Between(first, ADD_CELL, "\n").value);
      if n.Some? then Some((Add(n.value), 1)) else None
    else if Between(first, SUB_CELL, "\n").Some? then
      var n := ParseInt(Between(first, SUB_CELL, "\n").value);
      if n.Some? then Some((Sub(n.value), 1)) else None
    else if Between(first, ADD_POINTER, "\n").Some? then
      var n := ParseInt(Between(first, ADD_POINTER, "\n").value);
      if n.Some? then Some((MoveRight(n.value), 1)) else None
    else if Between(first, SUB_POINTER, "\n").Some? then
      var n := ParseInt(Between(first, SUB_POINTER, "\n").value);
      if n.Some? then Some((MoveLeft(n.value), 1)) else None
    else if Between(first, JUMP, "\n").Some? then
      var l := Between(first, JUMP, "\n").value;
      if |lines| >= 2 && lines[1] == l + ":\n" then Some((Jump(Label(l)), 2)) else None
    else if Between(first, "_", ":\n").Some? then
      var l := Between(first, "_", ":\n").value;
      if |lines| >= 3 && lines[1] == COMPARE && lines[2] == JUMP_NOT_EQUAL + l + "\n"
      then Some((JumpNotZero(Label(l)), 3)) else None
    else None
  }

  /** The operations whose lines make up `lines` exactly. */
  function DecodeOps(lines: seq<string>): Option<seq<ByteCode>>
    decreases |lines|
  {
    if lines == [] then Some([])
    else match DecodeOne(lines)
      case None => None
      case Some((op, k)) =>
        match DecodeOps(lines[k..])
        case None => None
        case Some(ops) => Some([op] + ops)
  }

  /** The program whose text `emit` would write is `lines`. */
  function Disassemble(lines: seq<string>): Option<ByteProgram>
  {
    if |lines| >= 8 && lines[..6] == Prelude() && lines[|lines| - 2..] == Bss() then
      match DecodeOps(lines[6..|lines| - 2])
      case None => None
      case Some(ops) => Some(ByteProgram(ops))
    else None
  }

  lemma BetweenFramed(prefix: string, m: string, suffix: string)
    ensures Between(prefix + m + suffix, prefix, suffix) == Some(m)
  {
    var s := prefix + m + suffix;
    assert s[..|prefix|] == prefix;
    assert s[|s| - |suffix|..] == suffix;
    assert s[|prefix|..|s| - |suffix|] == m;
  }

  /** A line that starts with `p` does not start with a `q` that differs from
      `p` at position `k`. */
  lemma NotBetween(line: string, p: string, q: string, suffix: string, k: nat)
    requires k < |p| && k < |q| && p[k] != q[k] && |p| <= |line| && line[..|p|] == p
    ensures Between(line, q, suffix).None?
  {
    assert line[k] == p[k];
    assert |q| <= |line| ==> line[..|q|][k] == line[k];
  }

  /** Lines whose first one starts with `p` do not start with `block` when the
      first line of `block` differs from `p` at position `k`. */
  lemma NotBlock(lines: seq<string>, block: seq<string>, p: string, k: nat)
    requires lines != [] && block != [] && k < |p| && k < |block[0]| && p[k] != block[0][k]
    requires |p| <= |lines[0]| && lines[0][..|p|] == p
    ensures !(|lines| >= |block| && lines[..|block|] == block)
  {
    assert lines[0][k] == p[k];
    assert lines[0] != block[0];
    assert |lines| >= |block| ==> lines[..|block|][0] == lines[0];
  }

  /** The first line of `lines` is not one of the three fixed blocks when it
      differs from their first lines at position 2. */
  lemma NotFixed(lines: seq<string>, p: string)
    requires lines != [] && |p| > 2 && p[2] != 'm' && |p| <= |lines[0]| && lines[0][..|p|] == p
    ensures !(|lines| >= 5 && lines[..5] == ReadLines())
    ensures !(|lines| >= 5 && lines[..5] == WriteLines())
    ensures !(|lines| >= 3 && lines[..3] == ExitLines())
  {
    NotBlock(lines, ReadLines(), p, 2);
    NotBlock(lines, WriteLines(), p, 2);
    NotBlock(lines, ExitLines(), p, 2);
  }

  /** What the reader sees of the line of an arithmetic or pointer operation
      written with `prefix`. */
  lemma NumberLine(prefix: string, n: int, rest: seq<string>)
    requires |prefix| > 2 && prefix[2] != 'm'
    ensures var lines := [prefix + IntToString(n) + "\n"] + rest;
      && |prefix| <= |lines[0]| && lines[0][..|prefix|] == prefix
      && Between(lines[0], prefix, "\n") == Some(IntToString(n))
      && ParseInt(IntToString(n)) == Some(n)
      && !(|lines| >= 5 && lines[..5] == ReadLines())
      && !(|lines| >= 5 && lines[..5] == WriteLines())
      && !(|lines| >= 3 && lines[..3] == ExitLines())
  {
    var lines := [prefix + IntToString(n) + "\n"] + rest;
    BetweenFramed(prefix, IntToString(n), "\n");
    ParseIntToString(n);
    assert lines[0][..|prefix|] == prefix;
    NotFixed(lines, prefix);
  }

  lemma DecodeAdd(n: int, rest: seq<string>)
    ensures DecodeOne(NativeCode(Add(n)) + rest) == Some((Add(n), 1))
  {
    NumberLine(ADD_CELL, n, rest);
  }

  lemma DecodeSub(n: int, rest: seq<string>)
    ensures DecodeOne(NativeCode(Sub(n)) + rest) == Some((Sub(n), 1))
  {
    var lines := NativeCode(Sub(n)) + rest;
    NumberLine(SUB_CELL, n, rest);
    NotBetween(lines[0], SUB_CELL, ADD_CELL, "\n", 2);
  }

  lemma DecodeMoveRight(n: int, rest: seq<string>)
    ensures DecodeOne(NativeCode(MoveRight(n)) + rest) == Some((MoveRight(n), 1))
  {
    var lines := NativeCode(MoveRight(n)) + rest;
    NumberLine(ADD_POINTER, n, rest);
    PointerLine(lines[0], ADD_POINTER);
  }

  /** A line that starts with `add rsp, ` starts with neither cell prefix. */
  lemma PointerLine(line: string, p: string)
    requires p == ADD_POINTER && |p| <= |line| && line[..|p|] == p
    ensures Between(line, ADD_CELL, "\n").None? && Between(line, SUB_CELL, "\n").None?
  {
    NotBetween(line, p, ADD_CELL, "\n", 6);
    NotBetween(line, p, SUB_CELL, "\n", 2);
  }

  lemma DecodeMoveLeft(n: int, rest: seq<string>)
    ensures DecodeOne(NativeCode(MoveLeft(n)) + rest) == Some((MoveLeft(n), 1))
  {
    var lines := NativeCode(MoveLeft(n)) + rest;
    NumberLine(SUB_POINTER, n, rest);
    BackLine(lines[0], SUB_POINTER);
  }

  /** A line that starts with `sub rsp, ` starts with no other prefix that is
      tried before it. */
  lemma BackLine(line: string, p: string)
    requires p == SUB_POINTER && |p| <= |line| && line[..|p|] == p
    ensures Between(line, ADD_CELL, "\n").None? && Between(line, SUB_CELL, "\n").None?
    ensures Between(line, ADD_POINTER, "\n").None?
  {
    NotBetween(line, p, ADD_CELL, "\n", 2);
    NotBetween(line, p, SUB_CELL, "\n", 6);
    NotBetween(line, p, ADD_POINTER, "\n", 2);
  }

  lemma DecodeJump(l: Label, rest: seq<string>)
    ensures DecodeOne(NativeCode(Jump(l)) + rest) == Some((Jump(l), 2))
  {
    var lines := NativeCode(Jump(l)) + rest;
    var first := lines[0];
    assert first == JUMP + l.name + "\n";
    BetweenFramed(JUMP, l.name, "\n");
    assert first[..|JUMP|] == JUMP;
    NotFixed(lines, JUMP);
    NotBetween(first, JUMP, ADD_CELL, "\n", 2);
    NotBetween(first, JUMP, SUB_CELL, "\n", 2);
    NotBetween(first, JUMP, ADD_POINTER, "\n", 2);
    NotBetween(first, JUMP, SUB_POINTER, "\n", 2);
  }

  lemma DecodeJumpNotZero(l: Label, rest: seq<string>)
    ensures DecodeOne(NativeCode(JumpNotZero(l)) + rest) == Some((JumpNotZero(l), 3))
  {
    var lines := NativeCode(JumpNotZero(l)) + rest;
    var first := lines[0];
    assert first == "_" + l.name + ":\n";
    BetweenFramed("_", l.name, ":\n");
    assert first[..1] == "_";
    NotBlock(lines, ReadLines(), "_", 0);
    NotBlock(lines, WriteLines(), "_", 0);
    NotBlock(lines, ExitLines(), "_", 0);
    NotBetween(first, "_", ADD_CELL, "\n", 0);
    NotBetween(first, "_", SUB_CELL, "\n", 0);
    NotBetween(first, "_", ADD_POINTER, "\n", 0);
    NotBetween(first, "_", SUB_POINTER, "\n", 0);
    NotBetween(first, "_", JUMP, "\n", 0);
  }

  /** The lines of one operation read back as that operation, whatever follows. */
  lemma DecodeNativeCode(op: ByteCode, rest: seq<string>)
    ensures DecodeOne(NativeCode(op) + rest) == Some((op, |NativeCode(op)|))
  {
    var lines := NativeCode(op) + rest;
    match op {
      case Add(n) => DecodeAdd(n, rest);
      case Sub(n) => DecodeSub(n, rest);
      case MoveRight(n) => DecodeMoveRight(n, rest);
      case MoveLeft(n) => DecodeMoveLeft(n, rest);
      case Jump(l) => DecodeJump(l, rest);
      case JumpNotZero(l) => DecodeJumpNotZero(l, rest);
      case Read =>
        assert lines[..5] == ReadLines();
      case Write =>
        assert lines[..5] == WriteLines();
        assert ReadLines()[0] != WriteLines()[0];
      case Exit =>
        assert lines[..3] == ExitLines();
        assert ReadLines()[0] != ExitLines()[0];
        assert WriteLines()[0] != ExitLines()[0];
    }
  }

  /** Reading back the lines of any sequence of operations gives it back. */
  lemma {:induction false} DecodeNativeCodes(ops: seq<ByteCode>)
    ensures DecodeOps(NativeCodes(ops)) == Some(ops)
    decreases |ops|
  {
    if ops != [] {
      var lines := NativeCodes(ops);
      DecodeNativeCode(ops[0], NativeCodes(ops[1..]));
      assert lines[|NativeCode(ops[0])|..] == NativeCodes(ops[1..]);
      DecodeNativeCodes(ops[1..]);
      assert [ops[0]] + ops[1..] == ops;
    }
  }

  /** The text `emit` writes determines the program: disassembling it gives
      the program back. */
  lemma DisassembleEmitted(p: ByteProgram)
    ensures Disassemble(Emitted(p)) == Some(p)
  {
    var lines := Emitted(p);
    assert lines[..6] == Prelude();
    assert lines[|lines| - 2..] == Bss();
    assert lines[6..|lines| - 2] == NativeCodes(p.program);
    DecodeNativeCodes(p.program);
  }
}
