/** The translation of the syntax tree to bytecode. Every command becomes one
    operation; a loop becomes a `Jump` to a fresh label, its body, and a
    `JumpNotZero` back to the same label. Labels are minted from a counter that
    the compiler owns. */
module Compiler {
  import opened Base
  import opened Decimal
  import opened Bytecode
  import Ast
  import ParsingProps
  import Parsing

  /** `Label(format!("LOOP{}", n))`. */
  function LoopLabel(n: nat): (l: Label)
    ensures |l.name| > 4 && l.name[..4] == "LOOP" && AllDigits(l.name[4..])
  {
    Label("LOOP" + NatToString(n))
  }

  /** Different counter values give different labels. */
  lemma LoopLabelInjective(m: nat, n: nat)
    ensures LoopLabel(m) == LoopLabel(n) <==> m == n
  {
    if LoopLabel(m) == LoopLabel(n) {
      assert LoopLabel(m).name[4..] == NatToString(m);
      assert LoopLabel(n).name[4..] == NatToString(n);
      DigitsValueOfNat(m);
      DigitsValueOfNat(n);
    }
  }

  // ---------------------------------------------------------------------
  // What the compiler produces, as functions of the tree and the counter.

  /** The number of loops in an expression: the labels it uses up. */
  function Loops(e: Ast.Expr): nat
    decreases e
  {
    match e
    case Loop(l) => 1 + LoopsIn(l.block.exprs)
    case _ => 0
  }

  function LoopsIn(s: seq<Ast.Expr>): nat
    decreases s
  {
    if s == [] then 0 else Loops(s[0]) + LoopsIn(s[1..])
  }

  /** The code of `e` when the counter stands at `n`. */
  function CompiledExpr(e: Ast.Expr, n: nat): seq<ByteCode>
    decreases e
  {
    match e
    case MoveRight => [MoveRight(1)]
    case MoveLeft => [MoveLeft(1)]
    case Increment => [Add(1)]
    case Decrement => [Sub(1)]
    case Output => [Write]
    case Input => [Read]
    case Loop(l) => [Jump(LoopLabel(n))] + CompiledSeq(l.block.exprs, n + 1) + [JumpNotZero(LoopLabel(n))]
  }

  /** The code of a block: its expressions' code in order, the counter moving
      on by the loops of each. */
  function CompiledSeq(s: seq<Ast.Expr>, n: nat): seq<ByteCode>
    decreases s
  {
    if s == [] then [] else CompiledExpr(s[0], n) + CompiledSeq(s[1..], n + Loops(s[0]))
  }

  lemma CompiledSeqAt(s: seq<Ast.Expr>, i: nat, n: nat)
    requires i < |s|
    ensures CompiledSeq(s[i..], n) == CompiledExpr(s[i], n) + CompiledSeq(s[i + 1..], n + Loops(s[i]))
    ensures LoopsIn(s[i..]) == Loops(s[i]) + LoopsIn(s[i + 1..])
  {
    assert s[i..][0] == s[i] && s[i..][1..] == s[i + 1..];
  }

  /** The code of a whole program. */
  function CompiledProgram(p: Ast.Program, n: nat): seq<ByteCode>
  {
    CompiledSeq(p.entry.exprs, n) + [Exit]
  }

  // ---------------------------------------------------------------------
  // The compiler.

  class SimpleCompiler {
    var loopCount: nat

    /** `SimpleCompiler::new`. */
    constructor()
      ensures loopCount == 0
    {
      loopCount := 0;
    }

    /** `next_loop_label`: the label of the current count, then one more. */
    method NextLoopLabel() returns (l: Label)
      modifies this
      ensures l == LoopLabel(old(loopCount)) && loopCount == old(loopCount) + 1
    {
      l := Label("LOOP" + NatToString(loopCount));
      loopCount := loopCount + 1;
    }

    /** `compile_expr`. */
    method CompileExpr(e: Ast.Expr) returns (code: seq<ByteCode>)
      modifies this
      ensures code == CompiledExpr(e, old(loopCount))
      ensures loopCount == old(loopCount) + Loops(e)
      decreases e
    {
      code := [];
      match e {
        case MoveRight => code := code + [MoveRight(1)];
        case MoveLeft => code := code + [MoveLeft(1)];
        case Increment => code := code + [Add(1)];
        case Decrement => code := code + [Sub(1)];
        case Output => code := code + [Write];
        case Input => code := code + [Read];
        case Loop(l) =>
          ghost var n := loopCount;
          var target := NextLoopLabel();
          code := code + [Jump(target)];
          var inner := CompileBlock(l.block);
          code := code + inner;
          code := code + [JumpNotZero(target)];
          assert code == [Jump(LoopLabel(n))] + CompiledSeq(l.block.exprs, n + 1) + [JumpNotZero(LoopLabel(n))];
      }
    }

    /** A block's `compile`: its expressions compiled in order and joined. */
    method CompileBlock(b: Ast.Block) returns (code: seq<ByteCode>)
      modifies this
      ensures code == CompiledSeq(b.exprs, old(loopCount))
      ensures loopCount == old(loopCount) + LoopsIn(b.exprs)
      decreases b
    {
      ghost var n0 := loopCount;
      code := [];
      for i := 0 to |b.exprs|
        invariant CompiledSeq(b.exprs, n0) == code + CompiledSeq(b.exprs[i..], loopCount)
        invariant n0 + LoopsIn(b.exprs) == loopCount + LoopsIn(b.exprs[i..])
      {
        CompiledSeqAt(b.exprs, i, loopCount);
        var more := CompileExpr(b.exprs[i]);
        Associative(code, more, CompiledSeq(b.exprs[i + 1..], loopCount));
        code := code + more;
      }
      assert b.exprs[|b.exprs|..] == [];
    }

    /** `compile_program`: the entry block's code, then `Exit`. */
    method CompileProgram(p: Ast.Program) returns (bp: ByteProgram)
      modifies this
      ensures bp.program == CompiledProgram(p, old(loopCount))
      ensures loopCount == old(loopCount) + LoopsIn(p.entry.exprs)
    {
      var code := CompileBlock(p.entry);
      code := code + [Exit];
      bp := FromOps(code);
    }
  }

  // ---------------------------------------------------------------------
  // Properties of the code.

  /** The labels of the `Jump` operations of `code`, in order. */
  function JumpLabels(code: seq<ByteCode>): seq<Label>
    decreases |code|
  {
    if code == [] then []
    else (if code[0].Jump? then [code[0].target] else []) + JumpLabels(code[1..])
  }

  lemma {:induction false} JumpLabelsAppend(a: seq<ByteCode>, b: seq<ByteCode>)
    ensures JumpLabels(a + b) == JumpLabels(a) + JumpLabels(b)
    decreases |a|
  {
    if a == [] {
      assert a + b == b;
    } else {
      assert (a + b)[0] == a[0] && (a + b)[1..] == a[1..] + b;
      JumpLabelsAppend(a[1..], b);
    }
  }

  /** The `k` labels minted from `n` on. */
  function Minted(n: nat, k: nat): (ls: seq<Label>)
    ensures |ls| == k && forall i :: 0 <= i < k ==> ls[i] == LoopLabel(n + i)
  {
    seq(k, i requires 0 <= i < k => LoopLabel(n + i))
  }

  /** The `Jump` labels of a block's code are the labels minted for its loops,
      in order: one per loop, as many as the counter moves on. */
  lemma {:induction false} JumpLabelsCompiled(s: seq<Ast.Expr>, n: nat)
    ensures JumpLabels(CompiledSeq(s, n)) == Minted(n, LoopsIn(s))
    decreases s, 0
  {
    if s != [] {
      JumpLabelsAppend(CompiledExpr(s[0], n), CompiledSeq(s[1..], n + Loops(s[0])));
      JumpLabelsExpr(s[0], n);
      JumpLabelsCompiled(s[1..], n + Loops(s[0]));
    }
  }

  lemma MintedCons(n: nat, k: nat)
    ensures Minted(n, 1 + k) == [LoopLabel(n)] + Minted(n + 1, k)
  {
  }

  lemma {:induction false} JumpLabelsExpr(e: Ast.Expr, n: nat)
    ensures JumpLabels(CompiledExpr(e, n)) == Minted(n, Loops(e))
    decreases e, 1
  {
    match e
    case Loop(l) =>
      var body := CompiledSeq(l.block.exprs, n + 1);
      var open := [Jump(LoopLabel(n))];
      var close := [JumpNotZero(LoopLabel(n))];
      assert CompiledExpr(e, n) == open + body + close;
      JumpLabelsAppend(open, body);
      JumpLabelsAppend(open + body, close);
      assert JumpLabels(close) == [] && JumpLabels(open) == [LoopLabel(n)];
      JumpLabelsCompiled(l.block.exprs, n + 1);
      MintedCons(n, LoopsIn(l.block.exprs));
    case _ =>
  }

  /** The number of `Jump` operations in a block's code is the number of its
      loops, and no two of them share a label. */
  lemma JumpsDistinct(s: seq<Ast.Expr>, n: nat)
    ensures |JumpLabels(CompiledSeq(s, n))| == LoopsIn(s)
    ensures forall i, j :: 0 <= i < j < LoopsIn(s) ==>
      JumpLabels(CompiledSeq(s, n))[i] != JumpLabels(CompiledSeq(s, n))[j]
  {
    JumpLabelsCompiled(s, n);
    forall i, j | 0 <= i < j < LoopsIn(s)
      ensures JumpLabels(CompiledSeq(s, n))[i] != JumpLabels(CompiledSeq(s, n))[j]
    {
      LoopLabelInjective(n + i, n + j);
    }
  }

  /** Reading `code` with a stack of open labels: a `Jump` opens its label, a
      `JumpNotZero` must close the innermost open label. `None` when one does
      not. */
  function Scan(code: seq<ByteCode>, open: seq<Label>): Option<seq<Label>>
    decreases |code|
  {
    if code == [] then Some(open)
    else match code[0]
      case Jump(l) => Scan(code[1..], open + [l])
      case JumpNotZero(l) =>
        if open != [] && open[|open| - 1] == l then Scan(code[1..], open[..|open| - 1]) else None
      case _ => Scan(code[1..], open)
  }

  lemma {:induction false} ScanExpr(e: Ast.Expr, n: nat, rest: seq<ByteCode>, open: seq<Label>)
    ensures Scan(CompiledExpr(e, n) + rest, open) == Scan(rest, open)
    decreases e, 1
  {
    var code := CompiledExpr(e, n) + rest;
    match e
    case Loop(l) =>
      var target := LoopLabel(n);
      var body := CompiledSeq(l.block.exprs, n + 1);
      var tail := [JumpNotZero(target)] + rest;
      assert code == [Jump(target)] + (body + tail);
      assert code[1..] == body + tail;
      ScanSeq(l.block.exprs, n + 1, tail, open + [target]);
      assert tail[1..] == rest;
      assert (open + [target])[..|open|] == open;
    case _ =>
      assert code[1..] == rest;
  }

  lemma {:induction false} ScanSeq(s: seq<Ast.Expr>, n: nat, rest: seq<ByteCode>, open: seq<Label>)
    ensures Scan(CompiledSeq(s, n) + rest, open) == Scan(rest, open)
    decreases s, 0
  {
    if s == [] {
      assert CompiledSeq(s, n) + rest == rest;
    } else {
      var tail := CompiledSeq(s[1..], n + Loops(s[0]));
      assert CompiledSeq(s, n) + rest == CompiledExpr(s[0], n) + (tail + rest);
      ScanExpr(s[0], n, tail + rest, open);
      ScanSeq(s[1..], n + Loops(s[0]), rest, open);
    }
  }

  /** `Jump`/`JumpNotZero` pairs in a block's code nest like brackets: every
      `JumpNotZero` closes the innermost open `Jump` of the same label, and
      none is left open. */
  lemma Balanced(s: seq<Ast.Expr>, n: nat)
    ensures Scan(CompiledSeq(s, n), []) == Some([])
  {
    ScanSeq(s, n, [], []);
    assert CompiledSeq(s, n) + [] == CompiledSeq(s, n);
  }

  /** A block's code never exits; a program's code ends with its only `Exit`. */
  lemma {:induction false} NoExit(s: seq<Ast.Expr>, n: nat)
    ensures Exit !in CompiledSeq(s, n)
    decreases s, 0
  {
    if s != [] {
      NoExitExpr(s[0], n);
      NoExit(s[1..], n + Loops(s[0]));
    }
  }

  lemma {:induction false} NoExitExpr(e: Ast.Expr, n: nat)
    ensures Exit !in CompiledExpr(e, n)
    decreases e, 1
  {
    if e.Loop? {
      NoExit(e.inner.block.exprs, n + 1);
    }
  }

  lemma ProgramExits(p: Ast.Program, n: nat)
    ensures var code := CompiledProgram(p, n);
      |code| > 0 && code[|code| - 1] == Exit && forall i :: 0 <= i < |code| - 1 ==> code[i] != Exit
  {
    NoExit(p.entry.exprs, n);
  }

  /** The command byte an operation stands for, spelt as its expression's
      token; magnitudes are dropped. */
  function EraseOp(op: ByteCode): seq<u8>
  {
    match op
    case MoveRight(_) => [ParsingProps.ExprByte(Ast.Expr.MoveRight)]
    case MoveLeft(_) => [ParsingProps.ExprByte(Ast.Expr.MoveLeft)]
    case Add(_) => [ParsingProps.ExprByte(Ast.Expr.Increment)]
    case Sub(_) => [ParsingProps.ExprByte(Ast.Expr.Decrement)]
    case Write => [ParsingProps.ExprByte(Ast.Expr.Output)]
    case Read => [ParsingProps.ExprByte(Ast.Expr.Input)]
    case Jump(_) => [ParsingProps.OPEN]
    case JumpNotZero(_) => [ParsingProps.CLOSE]
    case Exit => []
  }

  function Erase(code: seq<ByteCode>): seq<u8>
    decreases |code|
  {
    if code == [] then [] else EraseOp(code[0]) + Erase(code[1..])
  }

  lemma {:induction false} EraseAppend(a: seq<ByteCode>, b: seq<ByteCode>)
    ensures Erase(a + b) == Erase(a) + Erase(b)
    decreases |a|
  {
    if a == [] {
      assert a + b == b;
    } else {
      assert (a + b)[0] == a[0] && (a + b)[1..] == a[1..] + b;
      EraseAppend(a[1..], b);
    }
  }

  /** An operation that moves or changes a cell by one step. */
  predicate UnitStep(op: ByteCode) {
    (op.Add? || op.Sub? || op.MoveRight? || op.MoveLeft?) ==> op.n == 1
  }

  /** Each command compiles to exactly its own operation, with magnitude 1, and
      a loop to brackets around its body: erasing labels and magnitudes from a
      block's code gives back the program text of the block. */
  lemma {:induction false} EraseCompiled(s: seq<Ast.Expr>, n: nat)
    ensures Erase(CompiledSeq(s, n)) == ParsingProps.Unparse(s)
    ensures forall op :: op in CompiledSeq(s, n) ==> UnitStep(op)
    decreases s, 0
  {
    if s != [] {
      EraseAppend(CompiledExpr(s[0], n), CompiledSeq(s[1..], n + Loops(s[0])));
      EraseExpr(s[0], n);
      EraseCompiled(s[1..], n + Loops(s[0]));
    }
  }

  lemma {:induction false} EraseExpr(e: Ast.Expr, n: nat)
    ensures Erase(CompiledExpr(e, n)) == ParsingProps.UnparseExpr(e)
    ensures forall op :: op in CompiledExpr(e, n) ==> UnitStep(op)
    decreases e, 1
  {
    match e
    case Loop(l) =>
      var body := CompiledSeq(l.block.exprs, n + 1);
      var open := [Jump(LoopLabel(n))];
      var close := [JumpNotZero(LoopLabel(n))];
      assert CompiledExpr(e, n) == open + body + close;
      EraseAppend(open, body);
      EraseAppend(open + body, close);
      assert Erase(open) == [ParsingProps.OPEN] && Erase(close) == [ParsingProps.CLOSE];
      EraseCompiled(l.block.exprs, n + 1);
      forall op | op in CompiledExpr(e, n)
        ensures UnitStep(op)
      {
        assert op in open || op in body || op in close;
      }
    case _ =>
  }

  /** Compiling and then reading the erased code as program text gives back the
      block that was compiled. */
  lemma CompileThenParse(s: seq<Ast.Expr>, n: nat)
    ensures Parsing.ParseSpec(Parsing.Start(Erase(CompiledSeq(s, n))), false).result == Ok(Ast.Block(s))
  {
    EraseCompiled(s, n);
    ParsingProps.ParseUnparse(s, false);
  }
}
