/** The other direction of the round trip: whatever `parse` returns from a
    fixed buffer, the command bytes it read are the text of the block it
    built, so a text whose brackets do not match always fails. */
module ParsingBack {
  import opened Base
  import opened Tokens
  import opened Ast
  import opened Parsing
  import opened ParsingProps
  import opened ParsingText

  /** A successful outcome `o` of a parse started at `lx` with `block`
      appended to `block` exactly the expressions whose text is the command
      bytes it read; an inner level also read its closing `]`, and the
      outermost level read the whole buffer. */
  predicate ReadsBack(lx: Lexer, block: Block, o: Outcome)
    requires lx.Valid()
  {
    o.result.Ok? ==>
      var b := o.result.value.exprs;
      o.lexer.code == lx.code && lx.index <= o.lexer.index <= |lx.code|
      && |block.exprs| <= |b| && b[..|block.exprs|] == block.exprs
      && Commands(lx.code[lx.index..o.lexer.index]) == Unparse(b[|block.exprs|..]) + Closing(lx.nesting)
      && (lx.nesting == 0 ==> o.lexer.index == |lx.code|)
  }

  /** The bracket that ends a level entered at nesting `n`: none for the
      outermost level, which ends at the end of the input. */
  function Closing(n: nat): seq<u8>
  {
    if n > 0 then [CLOSE] else []
  }

  /** Parsing from any state of a fixed buffer reads back what it built. */
  lemma {:induction false} ParsedFrom(lx: Lexer, run: bool, block: Block, start: Option<Position>, executed: seq<Expr>)
    requires lx.Valid() && lx.stream.Bounded?
    ensures ReadsBack(lx, block, ParseFrom(lx, run, block, start, executed))
    decreases |lx.code| - lx.index, 1
  {
    if lx.index == |lx.code| {
      StepEnd(lx, run, block, start, executed);
      assert lx.code[lx.index..lx.index] == [];
      assert block.exprs[|block.exprs|..] == [];
      assert block.exprs[..|block.exprs|] == block.exprs;
    } else {
      var t := FromByte(lx.code[lx.index]);
      if t == Comment {
        ParsedComment(lx, run, block, start, executed);
      } else if t == JumpForward {
        ParsedOpen(lx, run, block, start, executed);
      } else if t == JumpBack {
        ParsedClose(lx, run, block, start, executed);
      } else {
        ParsedCommand(lx, run, block, start, executed);
      }
    }
  }

  /** A comment byte is read and nothing is built for it. */
  lemma {:induction false} ParsedComment(lx: Lexer, run: bool, block: Block, start: Option<Position>, executed: seq<Expr>)
    requires lx.Valid() && lx.stream.Bounded? && lx.index < |lx.code| && FromByte(lx.code[lx.index]) == Comment
    ensures ReadsBack(lx, block, ParseFrom(lx, run, block, start, executed))
    decreases |lx.code| - lx.index, 0
  {
    StepComment(lx, run, block, start, executed);
    var lx1 := Consume(lx);
    var o := ParseFrom(lx1, run, block, StartAfter(start, lx.line, lx.column), executed);
    ParsedFrom(lx1, run, block, StartAfter(start, lx.line, lx.column), executed);
    if o.result.Ok? {
      JoinComment(lx.code, lx.index, o.lexer.index);
    }
  }

  /** A command byte that is not a bracket is read and its expression built. */
  lemma {:induction false} ParsedCommand(lx: Lexer, run: bool, block: Block, start: Option<Position>, executed: seq<Expr>)
    requires lx.Valid() && lx.stream.Bounded? && lx.index < |lx.code|
    requires IsSimpleCommand(FromByte(lx.code[lx.index]))
    ensures ReadsBack(lx, block, ParseFrom(lx, run, block, start, executed))
    decreases |lx.code| - lx.index, 0
  {
    var e := CommandExpr(FromByte(lx.code[lx.index]));
    SimpleByte(lx.code[lx.index]);
    assert lx.code[lx.index..lx.index + 1] == [ExprByte(e)];
    StepCommand(lx, run, block, start, executed, e);
    var lx1 := Advance(lx, 1);
    var block1 := block.AddExpr(e);
    var o := ParseFrom(lx1, run, block1, StartAfter(start, lx.line, lx.column), Ran(executed, e, run, lx.nesting));
    ParsedFrom(lx1, run, block1, StartAfter(start, lx.line, lx.column), Ran(executed, e, run, lx.nesting));
    if o.result.Ok? {
      JoinExpr(lx.code, lx.index, lx.index + 1, o.lexer.index, block.exprs, e, o.result.value.exprs, Closing(lx.nesting));
    }
  }

  /** A `]` is read: at level 0 it is an error, otherwise it ends the level
      with nothing more built. */
  lemma ParsedClose(lx: Lexer, run: bool, block: Block, start: Option<Position>, executed: seq<Expr>)
    requires lx.Valid() && lx.stream.Bounded? && lx.index < |lx.code| && FromByte(lx.code[lx.index]) == JumpBack
    ensures ReadsBack(lx, block, ParseFrom(lx, run, block, start, executed))
  {
    assert lx.code[lx.index] == CLOSE;
    assert lx.code[lx.index..lx.index + 1] == [CLOSE];
    StepClose(lx, run, block, start, executed);
    assert block.exprs[|block.exprs|..] == [];
    assert block.exprs[..|block.exprs|] == block.exprs;
  }

  /** A `[` is read: the level one deeper reads the body and its `]`, then
      the loop is built and the parse goes on. */
  lemma {:induction false} ParsedOpen(lx: Lexer, run: bool, block: Block, start: Option<Position>, executed: seq<Expr>)
    requires lx.Valid() && lx.stream.Bounded? && lx.index < |lx.code| && FromByte(lx.code[lx.index]) == JumpForward
    ensures ReadsBack(lx, block, ParseFrom(lx, run, block, start, executed))
    decreases |lx.code| - lx.index, 0
  {
    assert lx.code[lx.index] == OPEN;
    assert lx.code[lx.index..lx.index + 1] == [OPEN];
    StepOpen(lx, run, block, start, executed);
    var lxA := Advance(lx, 1).(nesting := lx.nesting + 1);
    var inner := ParseSpec(lxA, false);
    if inner.result.Ok? {
      ParsedFrom(lxA, false, Block.New(), None, []);
      var bb := inner.result.value;
      var e := Expr.Loop(Loop.Loop(bb));
      var lxB := inner.lexer;
      var start1 := StartAfter(start, lx.line, lx.column);
      var executed1 := Ran(executed, e, run, lxB.nesting);
      var o := ParseFrom(lxB, run, block.AddExpr(e), start1, executed1);
      ParsedFrom(lxB, run, block.AddExpr(e), start1, executed1);
      assert ParseFrom(lx, run, block, start, executed) == o;
      OpenReads(lx, block, inner, o);
    }
  }

  /** What the level opened by a `[` read, then what the rest of the level
      read, is what the level read from the `[` on. */
  lemma OpenReads(lx: Lexer, block: Block, inner: Outcome, o: Outcome)
    requires lx.Valid() && lx.index < |lx.code| && lx.code[lx.index] == OPEN
    requires Advance(lx, 1).(nesting := lx.nesting + 1).Valid()
    requires ReadsBack(Advance(lx, 1).(nesting := lx.nesting + 1), Block.New(), inner)
    requires inner.result.Ok? && inner.lexer.Valid() && inner.lexer.nesting == lx.nesting
    requires ReadsBack(inner.lexer, block.AddExpr(Expr.Loop(Loop.Loop(inner.result.value))), o)
    ensures ReadsBack(lx, block, o)
  {
    if o.result.Ok? {
      var bb := inner.result.value;
      assert bb.exprs[..0] == [] && bb.exprs[0..] == bb.exprs;
      JoinLoop(lx.code, lx.index, inner.lexer.index, o.lexer.index, block.exprs, bb, o.result.value.exprs, Closing(lx.nesting));
    }
  }

  /** The byte of a simple command is the byte of its expression. */
  lemma SimpleByte(b: u8)
    requires IsSimpleCommand(FromByte(b))
    ensures ExprByte(CommandExpr(FromByte(b))) == b
  {
  }

  lemma JoinComment(code: seq<u8>, i: nat, m: nat)
    requires i < m <= |code| && FromByte(code[i]) == Comment
    ensures Commands(code[i..m]) == Commands(code[i + 1..m])
  {
    assert code[i..m] == [code[i]] + code[i + 1..m];
    CommandsCons(code[i], code[i + 1..m]);
  }

  /** The bytes read for an expression, then for the rest of the level. */
  lemma JoinExpr(code: seq<u8>, i: nat, j: nat, m: nat, block: seq<Expr>, e: Expr, b: seq<Expr>, tail: seq<u8>)
    requires i < j <= m <= |code|
    requires Commands(code[i..j]) == UnparseExpr(e)
    requires |block + [e]| <= |b| && b[..|block + [e]|] == block + [e]
    requires Commands(code[j..m]) == Unparse(b[|block + [e]|..]) + tail
    ensures |block| <= |b| && b[..|block|] == block
    ensures Commands(code[i..m]) == Unparse(b[|block|..]) + tail
  {
    assert code[i..m] == code[i..j] + code[j..m];
    CommandsAppend(code[i..j], code[j..m]);
    var rest := b[|block| + 1..];
    assert b[|block|..] == [e] + rest;
    UnparseCons(e, rest);
    assert b[..|block|] == (block + [e])[..|block|] == block;
  }

  /** The bytes read for a loop: its `[`, its body and `]`, then the rest of
      the level. */
  lemma JoinLoop(code: seq<u8>, i: nat, j: nat, m: nat, block: seq<Expr>, bb: Block, b: seq<Expr>, tail: seq<u8>)
    requires i < j <= m <= |code| && code[i] == OPEN
    requires Commands(code[i + 1..j]) == Unparse(bb.exprs) + [CLOSE]
    requires var e := Expr.Loop(Loop.Loop(bb));
             |block + [e]| <= |b| && b[..|block + [e]|] == block + [e]
             && Commands(code[j..m]) == Unparse(b[|block + [e]|..]) + tail
    ensures |block| <= |b| && b[..|block|] == block
    ensures Commands(code[i..m]) == Unparse(b[|block|..]) + tail
  {
    var e := Expr.Loop(Loop.Loop(bb));
    assert code[i..j] == [OPEN] + code[i + 1..j];
    CommandsCons(OPEN, code[i + 1..j]);
    assert UnparseExpr(e) == [OPEN] + (Unparse(bb.exprs) + [CLOSE]);
    JoinExpr(code, i, j, m, block, e, b, tail);
  }

  /** Parsing a whole buffer successfully reads back: the command bytes of
      the input are the text of the block returned. */
  lemma ParsedText(u: seq<u8>, run: bool)
    ensures var o := ParseSpec(Start(u), run);
            o.result.Ok? ==> Commands(u) == Unparse(o.result.value.exprs)
  {
    var lx := Start(u);
    ParsedFrom(lx, run, Block.New(), None, []);
    var o := ParseSpec(lx, run);
    if o.result.Ok? {
      var b := o.result.value.exprs;
      assert u[0..|u|] == u;
      assert b[0..] == b;
    }
  }

  /** A text parses to a block exactly when its command bytes are the text
      of that block. */
  lemma ParseExactly(u: seq<u8>, s: seq<Expr>, run: bool)
    ensures ParseSpec(Start(u), run).result == Ok(Block(s)) <==> Commands(u) == Unparse(s)
  {
    ParsedText(u, run);
    if Commands(u) == Unparse(s) {
      ParseCommented(u, s, run);
    }
  }

  /** A text whose command bytes are the text of no block, such as one with
      a `]` that closes nothing or a `[` that is never closed, fails. */
  lemma UnbalancedFails(u: seq<u8>, run: bool)
    requires forall s :: Commands(u) != Unparse(s)
    ensures ParseSpec(Start(u), run).result.Err?
  {
    ParsedText(u, run);
  }
}
