/** What `parse` does with a program text: one step per byte, then the whole
    text of a block read back into that block, and the two errors with the
    positions they report. */
module ParsingProps {
  import opened Base
  import opened Tokens
  import opened Ast
  import opened Parsing

  /** The token of an expression that is not a loop: the inverse of
      `CommandExpr`. */
  function ExprToken(e: Expr): (t: Token)
    requires !e.Loop?
    ensures IsSimpleCommand(t) && CommandExpr(t) == e
  {
    match e
    case MoveRight => Token.MoveRight
    case MoveLeft => Token.MoveLeft
    case Increment => Token.Increment
    case Decrement => Token.Decrement
    case Output => Token.Output
    case Input => Token.Input
  }

  /** The byte of an expression that is not a loop: the spelling of its token. */
  function ExprByte(e: Expr): (b: u8)
    requires !e.Loop?
    ensures FromByte(b) != Comment && IsSimpleCommand(FromByte(b)) && CommandExpr(FromByte(b)) == e
  {
    FromCommandByte(ExprToken(e));
    CommandByte(ExprToken(e)).value
  }

  /** The brackets of a loop. */
  const OPEN: u8 := '[' as u8
  const CLOSE: u8 := ']' as u8

  /** The brackets are the spellings of the two jump tokens. */
  lemma Brackets()
    ensures CommandByte(JumpForward) == Some(OPEN) && CommandByte(JumpBack) == Some(CLOSE)
  {
  }

  /** The program text of an expression: its command byte, or a loop's body
      between brackets. */
  function UnparseExpr(e: Expr): seq<u8>
    decreases e
  {
    match e
    case Loop(l) => [OPEN] + Unparse(l.block.exprs) + [CLOSE]
    case _ => [ExprByte(e)]
  }

  /** The program text of a sequence of expressions. */
  function Unparse(s: seq<Expr>): seq<u8>
    decreases s
  {
    if s == [] then [] else UnparseExpr(s[0]) + Unparse(s[1..])
  }

  /** `u` lies in the buffer of `lx` from the read index on. */
  predicate Ahead(lx: Lexer, u: seq<u8>)
  {
    lx.index + |u| <= |lx.code| && lx.code[lx.index..lx.index + |u|] == u
  }

  /** `lx` after reading `n` bytes that hold no newline. */
  function Advance(lx: Lexer, n: nat): Lexer
  {
    lx.(index := lx.index + n, column := lx.column + n)
  }

  /** A command byte is read, its expression added to the block and, at the
      outermost level of a running parse, executed. */
  lemma StepCommand(lx: Lexer, run: bool, block: Block, start: Option<Position>, executed: seq<Expr>, e: Expr)
    requires lx.Valid() && !e.Loop? && Ahead(lx, [ExprByte(e)])
    ensures ParseFrom(lx, run, block, start, executed)
            == ParseFrom(Advance(lx, 1), run, block.AddExpr(e), StartAfter(start, lx.line, lx.column),
                         Ran(executed, e, run, lx.nesting))
  {
    assert lx.code[lx.index] == ExprByte(e);
    assert Lex(lx) == Next(Some(MetaToken(FromByte(ExprByte(e)), lx.line, lx.column)), Advance(lx, 1));
  }

  /** A `[` hands the rest of the input to a parse of its own one level deeper
      that executes nothing. */
  lemma StepOpen(lx: Lexer, run: bool, block: Block, start: Option<Position>, executed: seq<Expr>)
    requires lx.Valid() && Ahead(lx, [OPEN])
    ensures ParseFrom(lx, run, block, start, executed)
            == AfterLoop(lx, ParseSpec(Advance(lx, 1).(nesting := lx.nesting + 1), false), run, block,
                         StartAfter(start, lx.line, lx.column), executed)
  {
    assert lx.code[lx.index] == OPEN;
    assert Lex(lx) == Next(Some(MetaToken(JumpForward, lx.line, lx.column)), Advance(lx, 1));
  }

  /** A `]` ends the level it closes; at level 0 it is an error reported at
      its own position. */
  lemma StepClose(lx: Lexer, run: bool, block: Block, start: Option<Position>, executed: seq<Expr>)
    requires lx.Valid() && Ahead(lx, [CLOSE])
    ensures ParseFrom(lx, run, block, start, executed)
            == if lx.nesting == 0 then Outcome(Err(UnmatchedCloseBrace(lx.line, lx.column)), Advance(lx, 1), executed)
               else Outcome(Ok(block), Advance(lx, 1).(nesting := lx.nesting - 1), executed)
  {
    assert lx.code[lx.index] == CLOSE;
    assert Lex(lx) == Next(Some(MetaToken(JumpBack, lx.line, lx.column)), Advance(lx, 1));
  }

  /** The end of a fixed buffer: the block is finished at level 0 and an open
      loop otherwise, reported one column before the first token of its level.
      A level whose first token is the end itself reports column 0 - 1. */
  lemma StepEnd(lx: Lexer, run: bool, block: Block, start: Option<Position>, executed: seq<Expr>)
    requires lx.Valid() && lx.stream.Bounded? && lx.index == |lx.code|
    ensures var p := StartAfter(start, 0, 0).value;
            ParseFrom(lx, run, block, start, executed)
            == if lx.nesting > 0 then Outcome(Err(UnmatchedOpenBrace(p.line, p.column)), lx, executed)
               else Outcome(Ok(block), lx, executed)
  {
    assert Lex(lx) == Next(None, lx);
  }

  /** The end of a streaming buffer with no chunk left: `Ready` is reported
      and the end-of-input token carries the current position. */
  lemma StepEndStream(lx: Lexer, run: bool, block: Block, start: Option<Position>, executed: seq<Expr>)
    requires lx.Valid() && lx.stream.Streaming? && lx.index == |lx.code| && lx.stream.pending == []
    ensures var p := StartAfter(start, lx.line, lx.column).value;
            var lx1 := lx.(stream := Streaming([], lx.stream.status + [Ready]));
            ParseFrom(lx, run, block, start, executed)
            == if lx.nesting > 0 then Outcome(Err(UnmatchedOpenBrace(p.line, p.column)), lx1, executed)
               else Outcome(Ok(block), lx1, executed)
  {
    assert Lex(lx) == Next(Some(MetaToken(Eof, lx.line, lx.column)), lx.(stream := Streaming([], lx.stream.status + [Ready])));
  }

  /** The measure argument of `AfterLoop` does not affect its value. */
  lemma AfterLoopIndependent(lx: Lexer, lx': Lexer, inner: Outcome, run: bool, block: Block, start: Option<Position>, executed: seq<Expr>)
    requires lx.Valid() && inner.lexer.Valid() && lx.Before(inner.lexer)
    requires inner.lexer.stream.Bounded? == lx.stream.Bounded?
    requires lx'.Valid() && lx'.Before(inner.lexer) && lx'.stream.Bounded? == lx.stream.Bounded?
    ensures AfterLoop(lx, inner, run, block, start, executed) == AfterLoop(lx', inner, run, block, start, executed)
  {
  }

  /** A streaming buffer that is exhausted reports `Ready` and continues
      with the next chunk appended: the parse goes on as if the chunk had
      been there all along. */
  lemma StepRefill(lx: Lexer, run: bool, block: Block, start: Option<Position>, executed: seq<Expr>)
    requires lx.Valid() && lx.stream.Streaming? && lx.index == |lx.code| && lx.stream.pending != []
    ensures ParseFrom(lx, run, block, start, executed)
            == ParseFrom(lx.(code := lx.code + lx.stream.pending[0],
                             stream := Streaming(lx.stream.pending[1..], lx.stream.status + [Ready])),
                         run, block, start, executed)
  {
    var lx' := lx.(code := lx.code + lx.stream.pending[0],
                   stream := Streaming(lx.stream.pending[1..], lx.stream.status + [Ready]));
    var next := Lex(lx);
    assert next == Lex(lx');
    if next.token.Some? && next.token.value.token == JumpForward {
      var lx1 := next.lexer;
      var inner := ParseSpec(lx1.(nesting := lx1.nesting + 1), false);
      AfterLoopIndependent(lx, lx', inner, run, block, StartAfter(start, next.token.value.line, next.token.value.character), executed);
    }
  }

  /** Text ahead of the read index splits at any point. */
  lemma AheadSplit(lx: Lexer, a: seq<u8>, b: seq<u8>)
    requires Ahead(lx, a + b)
    ensures Ahead(lx, a) && Ahead(Advance(lx, |a|), b)
  {
    var c := lx.code[lx.index..lx.index + |a| + |b|];
    assert lx.code[lx.index..lx.index + |a|] == c[..|a|] == a;
    assert lx.code[lx.index + |a|..lx.index + |a| + |b|] == c[|a|..] == b;
  }

  lemma AheadNesting(lx: Lexer, u: seq<u8>, n: nat)
    requires Ahead(lx, u)
    ensures Ahead(lx.(nesting := n), u)
  {
  }

  lemma EmptyAppend(s: seq<Expr>, ran: seq<Expr>)
    ensures Block(Block.New().exprs + s) == Block(s) && [] + ran == ran
  {
  }

  lemma AddThenAppend(block: Block, e: Expr, r: seq<Expr>)
    ensures Block(block.AddExpr(e).exprs + r) == Block(block.exprs + ([e] + r))
  {
    assert block.AddExpr(e).exprs == block.exprs + [e];
  }

  lemma RanThenAppend(executed: seq<Expr>, e: Expr, r: seq<Expr>, run: bool, nesting: nat)
    ensures Ran(executed, e, run, nesting) + (if run && nesting == 0 then r else [])
            == executed + if run && nesting == 0 then [e] + r else []
  {
  }

  lemma UnparseCons(e: Expr, s: seq<Expr>)
    ensures Unparse([e] + s) == UnparseExpr(e) + Unparse(s)
  {
    assert ([e] + s)[1..] == s;
  }

  /** A whole level over the text of `s`: its block is `s`, everything in it
      is executed at the outermost level of a running parse, and its start is
      the position of the first byte (unset for an empty text). */
  lemma ParseLevel(lx: Lexer, run: bool, s: seq<Expr>)
    requires lx.Valid() && Ahead(lx, Unparse(s))
    ensures ParseSpec(lx, run)
            == ParseFrom(Advance(lx, |Unparse(s)|), run, Block(s),
                         if s == [] then None else Some(Position(lx.line, lx.column - 1)),
                         if run && lx.nesting == 0 then s else [])
    decreases s, 3
  {
    var ran := if run && lx.nesting == 0 then s else [];
    var lx' := Advance(lx, |Unparse(s)|);
    var start: Option<Position> := if s == [] then None else Some(Position(lx.line, lx.column - 1));
    assert start == if s == [] then None else StartAfter(None, lx.line, lx.column);
    calc {
      ParseSpec(lx, run);
      ParseFrom(lx, run, Block.New(), None, []);
      { ParseThrough(lx, run, Block.New(), None, [], s); }
      ParseFrom(lx', run, Block(Block.New().exprs + s), start, [] + ran);
      { EmptyAppend(s, ran); }
      ParseFrom(lx', run, Block(s), start, ran);
    }
  }

  /** The body of a loop followed by its `]`, read by the parse one level
      deeper: it returns the body as its block, executes nothing and restores
      the nesting counter. */
  lemma ParseBody(lx: Lexer, body: seq<Expr>)
    requires lx.Valid() && lx.nesting > 0 && Ahead(lx, Unparse(body) + [CLOSE])
    ensures ParseSpec(lx, false)
            == Outcome(Ok(Block(body)), Advance(lx, |Unparse(body)| + 1).(nesting := lx.nesting - 1), [])
    decreases body, 4
  {
    var ub := Unparse(body);
    AheadSplit(lx, ub, [CLOSE]);
    ParseLevel(lx, false, body);
    var lxB := Advance(lx, |ub|);
    StepClose(lxB, false, Block(body), if body == [] then None else Some(Position(lx.line, lx.column - 1)), []);
  }

  /** Reading the text of one expression adds exactly that expression to the
      block, executes it at the outermost level of a running parse, and
      moves the position on by the length of the text. */
  lemma {:induction false} ParseOne(lx: Lexer, run: bool, block: Block, start: Option<Position>, executed: seq<Expr>, e: Expr)
    requires lx.Valid() && Ahead(lx, UnparseExpr(e))
    ensures ParseFrom(lx, run, block, start, executed)
            == ParseFrom(Advance(lx, |UnparseExpr(e)|), run, block.AddExpr(e), StartAfter(start, lx.line, lx.column),
                         Ran(executed, e, run, lx.nesting))
    decreases e, 1
  {
    var u := UnparseExpr(e);
    if e.Loop? {
      var body := e.inner.block.exprs;
      var ub := Unparse(body);
      assert u == [OPEN] + (ub + [CLOSE]);
      AheadSplit(lx, [OPEN], ub + [CLOSE]);
      StepOpen(lx, run, block, start, executed);
      var lxA := Advance(lx, 1).(nesting := lx.nesting + 1);
      ParseBody(lxA, body);
      var inner := ParseSpec(lxA, false);
      assert inner.lexer == Advance(lx, |u|);
      assert e == Expr.Loop(Loop.Loop(inner.result.value));
    } else {
      StepCommand(lx, run, block, start, executed, e);
    }
  }

  /** Reading the text of a sequence of expressions appends exactly those
      expressions to the block and executes them all at the outermost level of
      a running parse and none otherwise; the position moves on by the length of
      the text, and the start of the level is fixed by its first expression. */
  lemma {:induction false} ParseThrough(lx: Lexer, run: bool, block: Block, start: Option<Position>, executed: seq<Expr>, s: seq<Expr>)
    requires lx.Valid() && Ahead(lx, Unparse(s))
    ensures ParseFrom(lx, run, block, start, executed)
            == ParseFrom(Advance(lx, |Unparse(s)|), run, Block(block.exprs + s),
                         if s == [] then start else StartAfter(start, lx.line, lx.column),
                         executed + if run && lx.nesting == 0 then s else [])
    decreases s, 2
  {
    if s == [] {
      assert Block(block.exprs + s) == block;
      assert Advance(lx, |Unparse(s)|) == lx;
      assert executed + [] == executed;
    } else {
      var e, r := s[0], s[1..];
      assert s == [e] + r;
      UnparseCons(e, r);
      var ue := UnparseExpr(e);
      AheadSplit(lx, ue, Unparse(r));
      ParseOne(lx, run, block, start, executed, e);
      var lx1 := Advance(lx, |ue|);
      var block1 := block.AddExpr(e);
      var start1 := StartAfter(start, lx.line, lx.column);
      var executed1 := Ran(executed, e, run, lx.nesting);
      ParseThrough(lx1, run, block1, start1, executed1, r);
      assert Advance(lx1, |Unparse(r)|) == Advance(lx, |Unparse(s)|);
      AddThenAppend(block, e, r);
      RanThenAppend(executed, e, r, run, lx.nesting);
    }
  }

  lemma AheadAll(code: seq<u8>)
    ensures Ahead(Start(code), code)
  {
    assert code[0..|code|] == code;
  }

  /** Parsing the text of a block gives back that block, executing all of it
      when run, and leaves the whole buffer read at level 0. */
  lemma ParseUnparse(s: seq<Expr>, run: bool)
    ensures var u := Unparse(s);
            ParseSpec(Start(u), run) == Outcome(Ok(Block(s)), Advance(Start(u), |u|), if run then s else [])
  {
    var u := Unparse(s);
    AheadAll(u);
    ParseLevel(Start(u), run, s);
    var start: Option<Position> := if s == [] then None else Some(Position(1, 0));
    StepEnd(Advance(Start(u), |u|), run, Block(s), start, if run then s else []);
  }

  /** A `]` with no open loop is reported at its own line and column; what
      came before it was executed. */
  lemma UnmatchedClose(s: seq<Expr>, run: bool)
    ensures var u := Unparse(s);
            var o := ParseSpec(Start(u + [CLOSE]), run);
            o.result == Err(UnmatchedCloseBrace(1, |u| + 1)) && o.executed == if run then s else []
  {
    var u := Unparse(s);
    var lx := Start(u + [CLOSE]);
    AheadAll(u + [CLOSE]);
    AheadSplit(lx, u, [CLOSE]);
    ParseLevel(lx, run, s);
    var start: Option<Position> := if s == [] then None else Some(Position(1, 0));
    StepClose(Advance(lx, |u|), run, Block(s), start, if run then s else []);
  }

  /** A level below the outermost that runs to the end of a fixed buffer
      fails with an open loop, reported one column before its first token, or
      at line 0, column 0 - 1 when it has no token before the end. */
  lemma UnclosedLevel(lx: Lexer, t: seq<Expr>)
    requires lx.Valid() && lx.stream.Bounded? && lx.nesting > 0
    requires Ahead(lx, Unparse(t)) && lx.index + |Unparse(t)| == |lx.code|
    ensures ParseSpec(lx, false).result
            == Err(if t == [] then UnmatchedOpenBrace(0, -1) else UnmatchedOpenBrace(lx.line, lx.column - 1))
  {
    ParseLevel(lx, false, t);
    var start: Option<Position> := if t == [] then None else Some(Position(lx.line, lx.column - 1));
    StepEnd(Advance(lx, |Unparse(t)|), false, Block(t), start, []);
  }

  /** A `[` after the text of `s` at the outermost level: if the parse of
      the rest one level deeper fails, its error is the result of the whole,
      after everything in `s` was executed. */
  lemma ParseOpenRest(lx: Lexer, run: bool, s: seq<Expr>, v: seq<u8>)
    requires lx.Valid() && lx.nesting == 0 && Ahead(lx, Unparse(s) + [OPEN] + v)
    ensures var inner := ParseSpec(Advance(lx, |Unparse(s) + [OPEN]|).(nesting := 1), false);
            inner.result.Err? ==> ParseSpec(lx, run) == Outcome(inner.result, inner.lexer, if run then s else [])
  {
    var u := Unparse(s);
    assert u + [OPEN] + v == u + ([OPEN] + v);
    AheadSplit(lx, u, [OPEN] + v);
    ParseLevel(lx, run, s);
    var lxS := Advance(lx, |u|);
    var start: Option<Position> := if s == [] then None else Some(Position(lx.line, lx.column - 1));
    var ran := if run then s else [];
    AheadSplit(lxS, [OPEN], v);
    var lxA := Advance(lxS, 1).(nesting := lxS.nesting + 1);
    assert lxA == Advance(lx, |u + [OPEN]|).(nesting := 1);
    var inner := ParseSpec(lxA, false);
    if inner.result.Err? {
      calc {
        ParseSpec(lx, run);
        ParseFrom(lxS, run, Block(s), start, ran);
        { StepOpen(lxS, run, Block(s), start, ran); }
        AfterLoop(lxS, inner, run, Block(s), StartAfter(start, lxS.line, lxS.column), ran);
        Outcome(inner.result, inner.lexer, ran);
      }
    }
  }

  /** A `[` that is never closed in a fixed buffer: the error carries the
      position one column before the first token after the `[`, which is the
      `[` itself; when the `[` is the last byte that token is the end of input,
      tagged line 0, column 0, and the column is 0 - 1. */
  lemma UnmatchedOpen(s: seq<Expr>, t: seq<Expr>, run: bool)
    ensures var u := Unparse(s);
            var o := ParseSpec(Start(u + [OPEN] + Unparse(t)), run);
            o.result == Err(if t == [] then UnmatchedOpenBrace(0, -1) else UnmatchedOpenBrace(1, |u| + 1))
            && o.executed == if run then s else []
  {
    var u, v := Unparse(s), Unparse(t);
    var lx := Start(u + [OPEN] + v);
    AheadAll(u + [OPEN] + v);
    AheadSplit(lx, u + [OPEN], v);
    var lxA := Advance(lx, |u + [OPEN]|).(nesting := 1);
    AheadNesting(Advance(lx, |u + [OPEN]|), v, 1);
    UnclosedLevel(lxA, t);
    ParseOpenRest(lx, run, s, v);
  }

  /** The state of a streaming parser that has received `code` as its first
      chunk and has nothing more to come. */
  function Received(code: seq<u8>): (lx: Lexer)
    ensures lx.Valid() && Ahead(lx, code) && lx.index + |code| == |lx.code|
  {
    AheadAll(code);
    Start(code).(stream := Streaming([], [Ready]))
  }

  /** A streaming parse starts by reporting `Ready` and taking the first chunk. */
  lemma ReplFirstChunk(code: seq<u8>, run: bool)
    ensures ParseSpec(Start([]).(stream := Streaming([code], [])), run) == ParseSpec(Received(code), run)
  {
    var lx := Start([]).(stream := Streaming([code], []));
    StepRefill(lx, run, Block.New(), None, []);
    assert lx.(code := lx.code + lx.stream.pending[0],
               stream := Streaming(lx.stream.pending[1..], lx.stream.status + [Ready])) == Received(code);
  }

  /** The interactive loop, sent the text of a block and then closed: the
      block comes back, all of it was executed, and `Ready` was reported twice,
      once before the chunk and once when the buffer ran dry. */
  lemma ReplParse(s: seq<Expr>)
    ensures var u := Unparse(s);
            ParseSpec(Start([]).(stream := Streaming([u], [])), true)
            == Outcome(Ok(Block(s)), Advance(Start(u), |u|).(stream := Streaming([], [Ready, Ready])), s)
  {
    var u := Unparse(s);
    var lx := Received(u);
    var lxE := Advance(lx, |u|);
    var start: Option<Position> := if s == [] then None else Some(Position(1, 0));
    calc {
      ParseSpec(Start([]).(stream := Streaming([u], [])), true);
      == { ReplFirstChunk(u, true); }
      ParseSpec(lx, true);
      == { ParseLevel(lx, true, s); }
      ParseFrom(lxE, true, Block(s), start, s);
      == { StepEndStream(lxE, true, Block(s), start, s); }
      Outcome(Ok(Block(s)), lxE.(stream := Streaming([], lxE.stream.status + [Ready])), s);
    }
    assert lxE.(stream := Streaming([], lxE.stream.status + [Ready]))
        == Advance(Start(u), |u|).(stream := Streaming([], [Ready, Ready]));
  }

  /** A level below the outermost that runs to the end of a streaming buffer
      with no chunk left fails with an open loop, reported one column before
      its first token, the end-of-input token included. */
  lemma UnclosedLevelStream(lx: Lexer, t: seq<Expr>)
    requires lx.Valid() && lx.stream.Streaming? && lx.stream.pending == [] && lx.nesting > 0
    requires Ahead(lx, Unparse(t)) && lx.index + |Unparse(t)| == |lx.code|
    ensures ParseSpec(lx, false).result == Err(UnmatchedOpenBrace(lx.line, lx.column - 1))
  {
    ParseLevel(lx, false, t);
    var start: Option<Position> := if t == [] then None else Some(Position(lx.line, lx.column - 1));
    StepEndStream(Advance(lx, |Unparse(t)|), false, Block(t), start, []);
  }

  /** The interactive loop, sent a text with a `[` that is never closed: the
      error points at the `[`, whether or not anything follows it, since the
      end-of-input token of a streaming parser carries the current position;
      what came before the `[` was executed. */
  lemma ReplUnmatchedOpen(s: seq<Expr>, t: seq<Expr>)
    ensures var u := Unparse(s);
            var o := ParseSpec(Start([]).(stream := Streaming([u + [OPEN] + Unparse(t)], [])), true);
            o.result == Err(UnmatchedOpenBrace(1, |u| + 1)) && o.executed == s
  {
    var u, v := Unparse(s), Unparse(t);
    ReplFirstChunk(u + [OPEN] + v, true);
    var lx := Received(u + [OPEN] + v);
    AheadSplit(lx, u + [OPEN], v);
    var lxA := Advance(lx, |u + [OPEN]|).(nesting := 1);
    AheadNesting(Advance(lx, |u + [OPEN]|), v, 1);
    UnclosedLevelStream(lxA, t);
    ParseOpenRest(lx, true, s, v);
  }
}
