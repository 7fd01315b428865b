/** The abstract syntax tree of a program and its tree-walking semantics.
    A program is one top-level block; a block is a sequence of expressions in
    program order; a loop owns the block it repeats. */
module Ast {
  import opened Base
  import opened Interpreter

  datatype Expr =
    | MoveRight
    | MoveLeft
    | Increment
    | Decrement
    | Output
    | Input
    | Loop(inner: Loop)
  {
    /** `Expr::run`: each command performs its `Context` operation, a loop
        runs as `Loop::run`. `ok` is false where the source does not return
        within the fuel bound. */
    method Run(ctx: Context, fuel: nat) returns (ok: bool)
      requires ctx.Valid()
      modifies ctx
      ensures ctx.Valid()
      ensures ok <==> ExecExpr(this, old(ctx.State()), fuel).Some?
      ensures ok ==> ctx.State() == ExecExpr(this, old(ctx.State()), fuel).value
      decreases fuel, this
    {
      match this
      case MoveRight => ctx.MoveRight(); ok := true;
      case MoveLeft => ctx.MoveLeft(); ok := true;
      case Increment => ctx.Increment(); ok := true;
      case Decrement => ctx.Decrement(); ok := true;
      case Output => ctx.Output(); ok := true;
      case Input => ok := ctx.Input();
      case Loop(l) => ok := l.Run(ctx, fuel);
    }
  }

  /** A statement enclosing a series of expressions, in insertion order. */
  datatype Block = Block(exprs: seq<Expr>)
  {
    /** `Block::new`. */
    static function New(): (b: Block)
      ensures |b.exprs| == 0
    {
      Block([])
    }

    /** `Block::add_expr`: `e` goes after every expression already there. */
    function AddExpr(e: Expr): (b: Block)
      ensures |b.exprs| == |exprs| + 1
      ensures b.exprs[..|exprs|] == exprs && b.exprs[|exprs|] == e
    {
      Block(exprs + [e])
    }

    /** `Block::run`: every expression, first to last. */
    method Run(ctx: Context, fuel: nat) returns (ok: bool)
      requires ctx.Valid()
      modifies ctx
      ensures ctx.Valid()
      ensures ok <==> ExecExprs(exprs, old(ctx.State()), fuel).Some?
      ensures ok ==> ctx.State() == ExecExprs(exprs, old(ctx.State()), fuel).value
      decreases fuel, this
    {
      ghost var m0 := ctx.State();
      for i := 0 to |exprs|
        invariant ctx.Valid()
        invariant ExecExprs(exprs, m0, fuel) == ExecExprs(exprs[i..], ctx.State(), fuel)
      {
        assert exprs[i..][0] == exprs[i] && exprs[i..][1..] == exprs[i + 1..];
        ok := exprs[i].Run(ctx, fuel);
        if !ok {
          return;
        }
      }
      ok := true;
    }
  }

  /** A loop: the block between a matching `[` and `]`. */
  datatype Loop = Loop(block: Block)
  {
    /** `Loop::run`: while the current cell is not zero, run the block. The
        fuel bounds the number of iterations. */
    method Run(ctx: Context, fuel: nat) returns (ok: bool)
      requires ctx.Valid()
      modifies ctx
      ensures ctx.Valid()
      ensures ok <==> ExecLoop(this, old(ctx.State()), fuel).Some?
      ensures ok ==> ctx.State() == ExecLoop(this, old(ctx.State()), fuel).value
      decreases fuel, this
    {
      ghost var m0 := ctx.State();
      var f := fuel;
      var zero := ctx.CurrentCellIsZero();
      while !zero
        invariant ctx.Valid()
        invariant zero == ctx.State().CellIsZero()
        invariant ExecLoop(this, m0, fuel) == ExecLoop(this, ctx.State(), f)
        decreases f
      {
        if f == 0 {
          return false;
        }
        f := f - 1;
        ok := block.Run(ctx, f);
        if !ok {
          return;
        }
        zero := ctx.CurrentCellIsZero();
      }
      ok := true;
    }
  }

  /** A parsed program: its single top-level block. */
  datatype Program = Program(entry: Block)
  {
    /** `Program::run`: the entry block on a fresh context; the result is what
        the program wrote to standard output. */
    method Run(stdin: seq<u8>, fuel: nat) returns (ok: bool, output: seq<u8>)
      ensures ok <==> ExecProgram(this, stdin, fuel).Some?
      ensures ok ==> output == ExecProgram(this, stdin, fuel).value.output
    {
      var context := new Context(stdin);
      ok := entry.Run(context, fuel);
      output := context.output;
    }
  }

  // ---------------------------------------------------------------------
  // Semantics. `None` means that the source does not come back within the
  // fuel bound: a loop needed more iterations, or input waited forever.

  function ExecExpr(e: Expr, m: Machine, fuel: nat): (r: Option<Machine>)
    requires m.Valid()
    ensures r.Some? ==> r.value.Valid()
    decreases fuel, e
  {
    match e
    case MoveRight => Some(m.MoveRight())
    case MoveLeft => Some(m.MoveLeft())
    case Increment => Some(m.Increment())
    case Decrement => Some(m.Decrement())
    case Output => Some(m.Output())
    case Input => m.Input()
    case Loop(l) => ExecLoop(l, m, fuel)
  }

  function ExecExprs(s: seq<Expr>, m: Machine, fuel: nat): (r: Option<Machine>)
    requires m.Valid()
    ensures r.Some? ==> r.value.Valid()
    decreases fuel, s
  {
    if s == [] then Some(m)
    else
      match ExecExpr(s[0], m, fuel)
      case None => None
      case Some(m') => ExecExprs(s[1..], m', fuel)
  }

  /** A loop runs its body zero times when the current cell is already 0, and
      whenever it finishes, it finishes on a zero cell. */
  function ExecLoop(l: Loop, m: Machine, fuel: nat): (r: Option<Machine>)
    requires m.Valid()
    ensures r.Some? ==> r.value.Valid() && r.value.CellIsZero()
    ensures m.CellIsZero() ==> r == Some(m)
    decreases fuel, l
  {
    if m.CellIsZero() then Some(m)
    else if fuel == 0 then None
    else
      match ExecExprs(l.block.exprs, m, fuel - 1)
      case None => None
      case Some(m') => ExecLoop(l, m', fuel - 1)
  }

  /** `Program::run` starts from a fresh context. */
  function ExecProgram(p: Program, stdin: seq<u8>, fuel: nat): (r: Option<Machine>)
    ensures r.Some? ==> r.value.Valid()
  {
    ExecExprs(p.entry.exprs, Fresh(stdin), fuel)
  }

  /** Sequencing of two results. */
  function Then(r: Option<Machine>, s: seq<Expr>, fuel: nat): Option<Machine>
    requires r.Some? ==> r.value.Valid()
  {
    match r
    case None => None
    case Some(m) => ExecExprs(s, m, fuel)
  }

  // ---------------------------------------------------------------------
  // Properties of the semantics.

  /** A block runs its expressions in stored order: running `a + b` is running
      `a`, then `b` on what `a` left. */
  lemma {:induction false} ExecExprsAppend(a: seq<Expr>, b: seq<Expr>, m: Machine, fuel: nat)
    requires m.Valid()
    ensures ExecExprs(a + b, m, fuel) == Then(ExecExprs(a, m, fuel), b, fuel)
    decreases a
  {
    if a == [] {
      assert a + b == b;
    } else {
      assert (a + b)[0] == a[0] && (a + b)[1..] == a[1..] + b;
      match ExecExpr(a[0], m, fuel)
      case None =>
      case Some(m') => ExecExprsAppend(a[1..], b, m', fuel);
    }
  }

  /** More fuel never changes a result that was reached: fuel is only a bound. */
  lemma {:induction false} ExecExprMonotone(e: Expr, m: Machine, fuel: nat, more: nat)
    requires m.Valid() && fuel <= more && ExecExpr(e, m, fuel).Some?
    ensures ExecExpr(e, m, more) == ExecExpr(e, m, fuel)
    decreases fuel, e
  {
    match e
    case Loop(l) => ExecLoopMonotone(l, m, fuel, more);
    case _ =>
  }

  lemma {:induction false} ExecExprsMonotone(s: seq<Expr>, m: Machine, fuel: nat, more: nat)
    requires m.Valid() && fuel <= more && ExecExprs(s, m, fuel).Some?
    ensures ExecExprs(s, m, more) == ExecExprs(s, m, fuel)
    decreases fuel, s
  {
    if s != [] {
      ExecExprMonotone(s[0], m, fuel, more);
      ExecExprsMonotone(s[1..], ExecExpr(s[0], m, fuel).value, fuel, more);
    }
  }

  lemma {:induction false} ExecLoopMonotone(l: Loop, m: Machine, fuel: nat, more: nat)
    requires m.Valid() && fuel <= more && ExecLoop(l, m, fuel).Some?
    ensures ExecLoop(l, m, more) == ExecLoop(l, m, fuel)
    decreases fuel, l
  {
    if !m.CellIsZero() {
      ExecExprsMonotone(l.block.exprs, m, fuel - 1, more - 1);
      ExecLoopMonotone(l, ExecExprs(l.block.exprs, m, fuel - 1).value, fuel - 1, more - 1);
    }
  }

  /** `n` copies of the `+` command. */
  function Increments(n: nat): (s: seq<Expr>)
    ensures |s| == n && forall i :: 0 <= i < n ==> s[i] == Increment
  {
    seq(n, _ => Increment)
  }

  /** Running `n` increments is adding `n` to the current cell. */
  lemma {:induction false} ExecIncrements(n: nat, m: Machine, fuel: nat)
    requires m.Valid()
    ensures ExecExprs(Increments(n), m, fuel) == Some(Interpreter.Increments(m, n))
    decreases n
  {
    if n > 0 {
      assert Increments(n)[1..] == Increments(n - 1);
      ExecIncrements(n - 1, m.Increment(), fuel);
    }
  }

  /** 256 `+` commands leave the machine as it was. */
  lemma IncrementsWrapAround(m: Machine, fuel: nat)
    requires m.Valid()
    ensures ExecExprs(Increments(256), m, fuel) == Some(m)
  {
    ExecIncrements(256, m, fuel);
    IncrementsWrap(m);
  }

  /** `<` on the first cell leaves the cursor there. */
  lemma MoveLeftClamped(m: Machine, fuel: nat)
    requires m.Valid() && m.index == 0
    ensures ExecExpr(MoveLeft, m, fuel) == Some(m)
  {
  }
}
