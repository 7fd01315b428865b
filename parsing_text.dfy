/** What `parse` does with any program text: every byte that is not one of
    the eight commands is a comment and is skipped, newlines included, so a
    text parses to the block whose own text is its command bytes in order. */
module ParsingText {
  import opened Base
  import opened Tokens
  import opened Ast
  import opened Parsing
  import opened ParsingProps

  /** The command bytes of `u`, in order. */
  function Commands(u: seq<u8>): seq<u8>
  {
    if u == [] then []
    else if FromByte(u[0]) == Comment then Commands(u[1..])
    else [u[0]] + Commands(u[1..])
  }

  /** `lx` after consuming `n` bytes, whatever they are. */
  function Skip(lx: Lexer, n: nat): (r: Lexer)
    requires lx.Valid() && lx.index + n <= |lx.code|
    ensures r.Valid() && r.index == lx.index + n && r.code == lx.code
    ensures r.nesting == lx.nesting && r.stream == lx.stream
    decreases n
  {
    if n == 0 then lx else Skip(Consume(lx), n - 1)
  }

  lemma CommandsCons(b: u8, x: seq<u8>)
    ensures Commands([b] + x) == (if FromByte(b) == Comment then [] else [b]) + Commands(x)
  {
    assert ([b] + x)[1..] == x;
  }

  lemma {:induction false} CommandsAppend(x: seq<u8>, y: seq<u8>)
    ensures Commands(x + y) == Commands(x) + Commands(y)
    decreases |x|
  {
    if x == [] {
      assert x + y == y;
    } else {
      assert x + y == [x[0]] + (x[1..] + y);
      assert x == [x[0]] + x[1..];
      CommandsCons(x[0], x[1..] + y);
      CommandsCons(x[0], x[1..]);
      CommandsAppend(x[1..], y);
    }
  }

  /** A text whose command bytes are `a`, then `c`, then `b` has `c` at some
      index `k`, with the bytes before it carrying `a` and those after it `b`. */
  lemma {:induction false} CommandAt(w: seq<u8>, a: seq<u8>, c: u8, b: seq<u8>) returns (k: nat)
    requires Commands(w) == a + [c] + b
    ensures k < |w| && w[k] == c
    ensures Commands(w[..k]) == a && Commands(w[k + 1..]) == b
    decreases |w|
  {
    assert w != [];
    assert w == [w[0]] + w[1..];
    CommandsCons(w[0], w[1..]);
    if FromByte(w[0]) == Comment {
      var k' := CommandAt(w[1..], a, c, b);
      k := k' + 1;
      assert w[..k] == [w[0]] + w[1..][..k'];
      CommandsCons(w[0], w[1..][..k']);
      assert w[k + 1..] == w[1..][k' + 1..];
    } else if a == [] {
      k := 0;
      var rest := Commands(w[1..]);
      assert [w[0]] + rest == [c] + b;
      assert rest == ([w[0]] + rest)[1..] == ([c] + b)[1..] == b;
      assert w[..k] == [] && w[1..] == w[k + 1..];
    } else {
      var rest := Commands(w[1..]);
      assert [w[0]] + rest == [a[0]] + (a[1..] + [c] + b);
      assert rest == ([w[0]] + rest)[1..] == ([a[0]] + (a[1..] + [c] + b))[1..];
      var k' := CommandAt(w[1..], a[1..], c, b);
      k := k' + 1;
      assert w[..k] == [w[0]] + w[1..][..k'];
      CommandsCons(w[0], w[1..][..k']);
      assert w[k + 1..] == w[1..][k' + 1..];
    }
  }

  lemma {:induction false} SkipNesting(lx: Lexer, n: nat, m: nat)
    requires lx.Valid() && lx.index + n <= |lx.code|
    ensures Skip(lx.(nesting := m), n) == Skip(lx, n).(nesting := m)
    decreases n
  {
    if n > 0 {
      assert Consume(lx.(nesting := m)) == Consume(lx).(nesting := m);
      SkipNesting(Consume(lx), n - 1, m);
    }
  }

  lemma {:induction false} SkipSkip(lx: Lexer, a: nat, b: nat)
    requires lx.Valid() && lx.index + a + b <= |lx.code|
    ensures Skip(lx, a + b) == Skip(Skip(lx, a), b)
    decreases a
  {
    if a > 0 {
      SkipSkip(Consume(lx), a - 1, b);
    }
  }

  lemma SkipRest(lx: Lexer, j: nat, n: nat)
    requires lx.Valid() && j <= n && lx.index + n <= |lx.code|
    ensures Skip(Skip(lx, j), n - j) == Skip(lx, n)
  {
    SkipSkip(lx, j, n - j);
  }

  lemma AheadSkip(lx: Lexer, w: seq<u8>, j: nat)
    requires lx.Valid() && Ahead(lx, w) && j <= |w|
    ensures Ahead(Skip(lx, j), w[j..])
  {
    AheadAt(lx, w, Skip(lx, j), j, |w|);
    assert w[j..|w|] == w[j..];
  }

  /** A byte that is not a command is read and dropped; it can still be the
      first token of the level, which fixes the start position. */
  lemma StepComment(lx: Lexer, run: bool, block: Block, start: Option<Position>, executed: seq<Expr>)
    requires lx.Valid() && lx.index < |lx.code| && FromByte(lx.code[lx.index]) == Comment
    ensures ParseFrom(lx, run, block, start, executed)
            == ParseFrom(Consume(lx), run, block, StartAfter(start, lx.line, lx.column), executed)
  {
    assert Lex(lx) == Next(Some(MetaToken(Comment, lx.line, lx.column)), Consume(lx));
  }

  /** Reading a text whose command bytes are the text of `s` appends exactly
      `s` to the block and executes it at the outermost level of a running
      parse; the position moves over the whole text, newlines included, and
      the first byte of the text, comment or not, fixes the start. The state
      the parse goes on from is named by the last four arguments. */
  lemma {:induction false} ParseText(lx: Lexer, run: bool, block: Block, start: Option<Position>, executed: seq<Expr>,
                                     s: seq<Expr>, w: seq<u8>,
                                     lx2: Lexer, block2: Block, start2: Option<Position>, executed2: seq<Expr>)
    requires lx.Valid() && Ahead(lx, w) && Commands(w) == Unparse(s)
    requires lx2 == Skip(lx, |w|) && block2 == Block(block.exprs + s)
    requires start2 == if w == [] then start else StartAfter(start, lx.line, lx.column)
    requires executed2 == executed + if run && lx.nesting == 0 then s else []
    ensures lx2.Valid()
    ensures ParseFrom(lx, run, block, start, executed) == ParseFrom(lx2, run, block2, start2, executed2)
    decreases |w|, 2
  {
    if w == [] {
      assert s == [];
      assert block2 == block && executed2 == executed;
    } else if FromByte(w[0]) == Comment {
      ParseCommentText(lx, run, block, start, executed, s, w, lx2, block2, start2, executed2);
    } else {
      assert Unparse(s) != [];
      var e, r := s[0], s[1..];
      assert s == [e] + r;
      assert Commands(w) == UnparseExpr(e) + Unparse(r);
      if e.Loop? {
        ParseLoopText(lx, run, block, start, executed, e, r, w, lx2, block2, start2, executed2);
      } else {
        ParseCommandText(lx, run, block, start, executed, e, r, w, lx2, block2, start2, executed2);
      }
    }
  }

  /** A text that starts with a comment byte. */
  lemma {:induction false} ParseCommentText(lx: Lexer, run: bool, block: Block, start: Option<Position>, executed: seq<Expr>,
                                            s: seq<Expr>, w: seq<u8>,
                                            lx2: Lexer, block2: Block, start2: Option<Position>, executed2: seq<Expr>)
    requires lx.Valid() && Ahead(lx, w) && w != [] && FromByte(w[0]) == Comment && Commands(w) == Unparse(s)
    requires lx2 == Skip(lx, |w|) && block2 == Block(block.exprs + s)
    requires start2 == StartAfter(start, lx.line, lx.column)
    requires executed2 == executed + if run && lx.nesting == 0 then s else []
    ensures lx2.Valid()
    ensures ParseFrom(lx, run, block, start, executed) == ParseFrom(lx2, run, block2, start2, executed2)
    decreases |w|, 1
  {
    assert lx.code[lx.index] == w[0];
    StepComment(lx, run, block, start, executed);
    var start1 := StartAfter(start, lx.line, lx.column);
    AheadSkip(lx, w, 1);
    assert w == [w[0]] + w[1..];
    CommandsCons(w[0], w[1..]);
    ParseText(Consume(lx), run, block, start1, executed, s, w[1..], lx2, block2, start2, executed2);
  }

  /** A text that starts with the byte of a command that is not a loop. */
  lemma {:induction false} ParseCommandText(lx: Lexer, run: bool, block: Block, start: Option<Position>, executed: seq<Expr>,
                                            e: Expr, r: seq<Expr>, w: seq<u8>,
                                            lx2: Lexer, block2: Block, start2: Option<Position>, executed2: seq<Expr>)
    requires lx.Valid() && Ahead(lx, w) && !e.Loop? && w != [] && FromByte(w[0]) != Comment
    requires Commands(w) == UnparseExpr(e) + Unparse(r)
    requires lx2 == Skip(lx, |w|) && block2 == Block(block.exprs + ([e] + r))
    requires start2 == StartAfter(start, lx.line, lx.column)
    requires executed2 == executed + if run && lx.nesting == 0 then [e] + r else []
    ensures lx2.Valid()
    ensures ParseFrom(lx, run, block, start, executed) == ParseFrom(lx2, run, block2, start2, executed2)
    decreases |w|, 1
  {
    CommandHead(lx, w, e, r);
    StepCommand(lx, run, block, start, executed, e);
    var start1 := StartAfter(start, lx.line, lx.column);
    var executed1 := Ran(executed, e, run, lx.nesting);
    AddThenAppend(block, e, r);
    RanThenAppend(executed, e, r, run, lx.nesting);
    ParseText(Advance(lx, 1), run, block.AddExpr(e), start1, executed1, r, w[1..], lx2, block2, start2, executed2);
  }

  /** The text of a command `e` that is not a loop, then of `r`, among
      comments: the command's byte first, and the commands of `r` after it. */
  lemma CommandHead(lx: Lexer, w: seq<u8>, e: Expr, r: seq<Expr>)
    requires lx.Valid() && Ahead(lx, w) && !e.Loop? && w != [] && FromByte(w[0]) != Comment
    requires Commands(w) == UnparseExpr(e) + Unparse(r)
    ensures Ahead(lx, [ExprByte(e)]) && Advance(lx, 1) == Consume(lx)
    ensures Ahead(Advance(lx, 1), w[1..]) && Commands(w[1..]) == Unparse(r)
    ensures Skip(lx, |w|) == Skip(Advance(lx, 1), |w| - 1)
  {
    FirstCommand(w, ExprByte(e), Unparse(r));
    FirstByte(lx, w);
  }

  /** A text whose first byte is a command starts the sequence of its
      commands. */
  lemma FirstCommand(w: seq<u8>, b: u8, rest: seq<u8>)
    requires w != [] && FromByte(w[0]) != Comment && Commands(w) == [b] + rest
    ensures w[0] == b && Commands(w[1..]) == rest
  {
    assert w == [w[0]] + w[1..];
    CommandsCons(w[0], w[1..]);
    Cons(w[0], Commands(w[1..]), b, rest);
  }

  /** Reading a command byte at the head of `w` moves one column on. */
  lemma FirstByte(lx: Lexer, w: seq<u8>)
    requires lx.Valid() && Ahead(lx, w) && w != [] && FromByte(w[0]) != Comment
    ensures Ahead(lx, [w[0]]) && Advance(lx, 1) == Consume(lx)
    ensures Ahead(Advance(lx, 1), w[1..])
    ensures Skip(lx, |w|) == Skip(Advance(lx, 1), |w| - 1)
  {
    AheadAt(lx, w, lx, 0, 1);
    assert w[0..1] == [w[0]];
    assert lx.code[lx.index] == w[0];
    AheadAt(lx, w, Advance(lx, 1), 1, |w|);
    assert w[1..|w|] == w[1..];
  }

  /** A text that starts with a `[` whose commands are those of a loop `e`
      and then of `r`: the loop is read up to its matching `]`, one level
      deeper, and the parse goes on with `r` at the level it started from. */
  lemma {:induction false} ParseLoopText(lx: Lexer, run: bool, block: Block, start: Option<Position>, executed: seq<Expr>,
                                         e: Expr, r: seq<Expr>, w: seq<u8>,
                                         lx2: Lexer, block2: Block, start2: Option<Position>, executed2: seq<Expr>)
    requires lx.Valid() && Ahead(lx, w) && e.Loop? && w != [] && FromByte(w[0]) != Comment
    requires Commands(w) == UnparseExpr(e) + Unparse(r)
    requires lx2 == Skip(lx, |w|) && block2 == Block(block.exprs + ([e] + r))
    requires start2 == StartAfter(start, lx.line, lx.column)
    requires executed2 == executed + if run && lx.nesting == 0 then [e] + r else []
    ensures lx2.Valid()
    ensures ParseFrom(lx, run, block, start, executed) == ParseFrom(lx2, run, block2, start2, executed2)
    decreases |w|, 1
  {
    assert UnparseExpr(e) == [OPEN] + Unparse(e.inner.block.exprs) + [CLOSE];
    var body := e.inner.block.exprs;
    var n := lx.nesting;
    var k := LoopBytes(lx, w, body, r);
    // The `[` hands over to a parse one level deeper, which reads the body
    // and stops at the matching `]`; the parse goes on after it.
    var start1 := StartAfter(start, lx.line, lx.column);
    var lxD := Skip(lx, k + 2);
    var executed1 := Ran(executed, e, run, n);
    LoopHead(lx, run, block, start, executed, e, w, k);
    SkipRest(lx, k + 2, |w|);
    AddThenAppend(block, e, r);
    RanThenAppend(executed, e, r, run, n);
    ParseText(lxD, run, block.AddExpr(e), start1, executed1, r, w[k + 2..], lx2, block2, start2, executed2);
  }

  /** Reading a loop whose body lies between the `[` at the head of `w` and
      the `]` at index `k + 1` adds the loop to the block and goes on after
      the `]` at the level the loop started from. */
  lemma {:induction false} LoopHead(lx: Lexer, run: bool, block: Block, start: Option<Position>, executed: seq<Expr>,
                                    e: Expr, w: seq<u8>, k: nat)
    requires lx.Valid() && Ahead(lx, w) && e.Loop? && Ahead(lx, [OPEN])
    requires k + 1 < |w| && w[k + 1] == CLOSE && Commands(w[1..][..k]) == Unparse(e.inner.block.exprs)
    ensures ParseFrom(lx, run, block, start, executed)
            == ParseFrom(Skip(lx, k + 2), run, block.AddExpr(e), StartAfter(start, lx.line, lx.column),
                         Ran(executed, e, run, lx.nesting))
    decreases k + 2, 0
  {
    var body := e.inner.block.exprs;
    var lxA := Advance(lx, 1).(nesting := lx.nesting + 1);
    assert lxA == Consume(lx).(nesting := lx.nesting + 1);
    StepOpen(lx, run, block, start, executed);
    InnerLevel(lx, w, k, body);
    assert ParseSpec(lxA, false) == Outcome(Ok(Block(body)), Skip(lx, k + 2), []);
    assert e == Expr.Loop(Loop.Loop(Block(body)));
  }

  /** The text of a loop with `body`, then of `r`, among comments: a `[`
      first, its matching `]` at index `k + 1`, the body's commands between
      them and those of `r` after. */
  lemma LoopBytes(lx: Lexer, w: seq<u8>, body: seq<Expr>, r: seq<Expr>) returns (k: nat)
    requires lx.Valid() && Ahead(lx, w) && w != [] && FromByte(w[0]) != Comment
    requires Commands(w) == [OPEN] + Unparse(body) + [CLOSE] + Unparse(r)
    ensures Ahead(lx, [OPEN]) && Advance(lx, 1).(nesting := lx.nesting + 1) == Consume(lx).(nesting := lx.nesting + 1)
    ensures k + 1 < |w| && w[k + 1] == CLOSE
    ensures Commands(w[1..][..k]) == Unparse(body) && Commands(w[k + 2..]) == Unparse(r)
    ensures Ahead(Skip(lx, k + 2), w[k + 2..])
  {
    var w1 := w[1..];
    assert [OPEN] + Unparse(body) + [CLOSE] + Unparse(r) == [OPEN] + (Unparse(body) + [CLOSE] + Unparse(r));
    FirstCommand(w, OPEN, Unparse(body) + [CLOSE] + Unparse(r));
    FirstByte(lx, w);
    k := CommandAt(w1, Unparse(body), CLOSE, Unparse(r));
    AheadSkip(lx, w, k + 2);
    assert w[k + 2..] == w1[k + 1..];
  }

  /** The parse one level deeper, started after the `[` at the head of `w`,
      returns the body and restores the nesting counter after the `]` at
      index `k + 1` of `w`. */
  lemma {:induction false} InnerLevel(lx: Lexer, w: seq<u8>, k: nat, body: seq<Expr>)
    requires lx.Valid() && Ahead(lx, w) && k + 1 < |w| && w[k + 1] == CLOSE
    requires Commands(w[1..][..k]) == Unparse(body)
    ensures ParseSpec(Consume(lx).(nesting := lx.nesting + 1), false) == Outcome(Ok(Block(body)), Skip(lx, k + 2), [])
    decreases k + 1, 0
  {
    var lxA := Consume(lx).(nesting := lx.nesting + 1);
    var inner := w[1..][..k];
    InnerBytes(lx, w, k);
    var st: Option<Position> := if inner == [] then None else StartAfter(None, lxA.line, lxA.column);
    EmptyAppend(body, []);
    ParseText(lxA, false, Block.New(), None, [], body, inner, Skip(lxA, k), Block(body), st, []);
    StepClose(Skip(lxA, k), false, Block(body), st, []);
  }

  /** Where the bytes of a loop's text lie for the parse one level deeper:
      its body after the `[`, then the `]`, after which the nesting counter
      is back where it was. */
  lemma InnerBytes(lx: Lexer, w: seq<u8>, k: nat)
    requires lx.Valid() && Ahead(lx, w) && k + 1 < |w| && w[k + 1] == CLOSE
    ensures var lxA := Consume(lx).(nesting := lx.nesting + 1);
            Ahead(lxA, w[1..][..k]) && Ahead(Skip(lxA, k), [CLOSE])
            && Advance(Skip(lxA, k), 1).(nesting := lx.nesting) == Skip(lx, k + 2)
  {
    var lx1 := Consume(lx);
    var lxA := lx1.(nesting := lx.nesting + 1);
    AheadAt(lx, w, lxA, 1, k + 1);
    TailPrefix(w, k);
    AheadAt(lx, w, Skip(lxA, k), k + 1, k + 2);
    assert w[k + 1..k + 2] == [CLOSE];
    CloseAfter(lx1, k, lx.nesting + 1);
  }

  lemma Cons(x: u8, xs: seq<u8>, y: u8, ys: seq<u8>)
    requires [x] + xs == [y] + ys
    ensures x == y && xs == ys
  {
    assert x == ([x] + xs)[0] && xs == ([x] + xs)[1..];
  }

  lemma TailPrefix(w: seq<u8>, k: nat)
    requires k < |w|
    ensures w[1..][..k] == w[1..k + 1]
  {
  }

  /** The bytes of `w` from `i` to `j` lie at those offsets past the read index. */
  lemma Slice(lx: Lexer, w: seq<u8>, i: nat, j: nat)
    requires Ahead(lx, w) && i <= j <= |w|
    ensures lx.index + j <= |lx.code| && lx.code[lx.index + i..lx.index + j] == w[i..j]
  {
    var c := lx.code[lx.index..lx.index + |w|];
    assert lx.code[lx.index + i..lx.index + j] == c[i..j];
  }

  /** The bytes of `w` from `i` to `j` lie ahead of any state of the same
      buffer whose read index is `i` bytes further on. */
  lemma AheadAt(lx: Lexer, w: seq<u8>, x: Lexer, i: nat, j: nat)
    requires Ahead(lx, w) && i <= j <= |w| && x.code == lx.code && x.index == lx.index + i
    ensures Ahead(x, w[i..j])
  {
    Slice(lx, w, i, j);
  }

  /** Reading `k` bytes one level deeper and then a `]` that restores the
      nesting counter is reading `k + 1` bytes at the original level. */
  lemma CloseAfter(lx1: Lexer, k: nat, m: nat)
    requires lx1.Valid() && lx1.index + k < |lx1.code| && lx1.code[lx1.index + k] == CLOSE
    ensures Advance(Skip(lx1.(nesting := m), k), 1).(nesting := lx1.nesting) == Skip(lx1, k + 1)
  {
    SkipNesting(lx1, k, m);
    SkipSkip(lx1, k, 1);
    var x := Skip(lx1, k);
    assert Skip(x, 1) == Consume(x);
  }

  /** Parsing any text whose command bytes, in order, are the text of a block
      gives back that block, executing all of it when run; the comments
      around and between the commands change nothing but the position. */
  lemma ParseCommented(u: seq<u8>, s: seq<Expr>, run: bool)
    requires Commands(u) == Unparse(s)
    ensures ParseSpec(Start(u), run) == Outcome(Ok(Block(s)), Skip(Start(u), |u|), if run then s else [])
  {
    var lx := Start(u);
    var lxE := Skip(lx, |u|);
    var ran := if run then s else [];
    var start: Option<Position> := if u == [] then None else StartAfter(None, 1, 1);
    AheadAll(u);
    EmptyAppend(s, ran);
    ParseText(lx, run, Block.New(), None, [], s, u, lxE, Block(s), start, ran);
    StepEnd(lxE, run, Block(s), start, ran);
  }
}
