/** The lexer and the recursive parser. Bytes are read one at a time and
    tagged with their line and column; `parse` builds a block per nesting
    level, recursing at `[` (as `Loop::new`) and returning at `]`, and fails
    on an unmatched `]` or on the end of input inside an open loop. */
module Parsing {
  import opened Base
  import opened Tokens
  import opened Ast

  /** The two structural errors, with the line and column they report. The
      column is an `int`: the source computes it as `character - 1` in
      unsigned arithmetic, which is -1 here where the source underflows. */
  datatype ParseError =
    | UnmatchedOpenBrace(line: int, column: int)
    | UnmatchedCloseBrace(line: int, column: int)

  datatype Position = Position(line: int, column: int)

  /** What the parser worker reports on the status channel. */
  datatype Status = Ready | Exited

  /** Where bytes come from once the buffer is exhausted: nowhere, or the
      chunks the driver will still send over the data channel. `status` is
      what the worker has sent on the status channel so far. */
  datatype Stream =
    | Bounded
    | Streaming(pending: seq<seq<u8>>, status: seq<Status>)

  const NEWLINE: u8 := '\n' as u8

  /** The value of a token source: the buffer, the read index, the shared
      nesting counter and the position of the next byte. */
  datatype Lexer = Lexer(code: seq<u8>, index: nat, nesting: nat, line: nat, column: nat, stream: Stream)
  {
    predicate Valid() {
      index <= |code|
    }

    /** Chunks still to be sent. */
    function Pending(): nat
    {
      if stream.Streaming? then |stream.pending| else 0
    }

    /** Bytes in the buffer not yet read. */
    function Buffered(): nat
      requires Valid()
    {
      |code| - index
    }

    /** `later` has read no less than this state: fewer chunks are pending,
        or as many and no more bytes are buffered. */
    predicate NotAfter(later: Lexer)
      requires Valid() && later.Valid()
    {
      later.Pending() < Pending() || (later.Pending() == Pending() && later.Buffered() <= Buffered())
    }

    /** `later` has read strictly more than this state. */
    predicate Before(later: Lexer)
      requires Valid() && later.Valid()
    {
      later.Pending() < Pending() || (later.Pending() == Pending() && later.Buffered() < Buffered())
    }
  }

  /** `RawParser::new`. */
  function Start(code: seq<u8>): (lx: Lexer)
    ensures lx.Valid() && lx.index == 0 && lx.nesting == 0 && lx.line == 1 && lx.column == 1
  {
    Lexer(code, 0, 0, 1, 1, Bounded)
  }

  /** The result of asking for the next token. */
  datatype Next = Next(token: Option<MetaToken>, lexer: Lexer)

  /** Consuming one byte: a newline starts the next line at column 1, any
      other byte moves one column on. */
  function Consume(lx: Lexer): (r: Lexer)
    requires lx.Valid() && lx.index < |lx.code|
    ensures r.Valid() && r.index == lx.index + 1 && r.code == lx.code
    ensures r.nesting == lx.nesting && r.stream == lx.stream
    ensures lx.code[lx.index] == NEWLINE ==> r.line == lx.line + 1 && r.column == 1
    ensures lx.code[lx.index] != NEWLINE ==> r.line == lx.line && r.column == lx.column + 1
  {
    if lx.code[lx.index] == NEWLINE then lx.(index := lx.index + 1, line := lx.line + 1, column := 1)
    else lx.(index := lx.index + 1, column := lx.column + 1)
  }

  /** `RawParser::next_token`: the token of the next byte, tagged with the
      position before it is consumed; `None`, changing nothing, once the
      buffer is exhausted. */
  function RawLex(lx: Lexer): (n: Next)
    requires lx.Valid()
    ensures n.lexer.Valid()
    ensures lx.index < |lx.code| ==> n.token == Some(MetaToken(FromByte(lx.code[lx.index]), lx.line, lx.column))
    ensures lx.index < |lx.code| ==> n.lexer == Consume(lx)
    ensures lx.index == |lx.code| ==> n == Next(None, lx)
  {
    if lx.index < |lx.code| then
      Next(Some(MetaToken(FromByte(lx.code[lx.index]), lx.line, lx.column)), Consume(lx))
    else
      Next(None, lx)
  }

  /** `next_token` of either source. A streaming source that has exhausted its
      buffer reports `Ready`, then takes the next chunk; when no chunk is left
      (the driver closed the channel) it yields `Eof` at the current position. */
  function Lex(lx: Lexer): (n: Next)
    requires lx.Valid()
    ensures n.lexer.Valid() && n.lexer.nesting == lx.nesting
    ensures n.lexer.stream.Bounded? == lx.stream.Bounded?
    ensures n.token.None? ==> lx.stream.Bounded? && n == Next(None, lx)
    ensures n.token.Some? && n.token.value.token != Eof ==> lx.Before(n.lexer)
    ensures n.token.Some? && n.token.value.token == Eof ==> n.lexer.Pending() == 0 && n.lexer.Buffered() == 0
    decreases if lx.stream.Streaming? then |lx.stream.pending| else 0
  {
    if lx.index < |lx.code| || lx.stream.Bounded? then RawLex(lx)
    else
      var status := lx.stream.status + [Ready];
      if lx.stream.pending == [] then
        Next(Some(MetaToken(Eof, lx.line, lx.column)), lx.(stream := Streaming([], status)))
      else
        Lex(lx.(code := lx.code + lx.stream.pending[0],
                      stream := Streaming(lx.stream.pending[1..], status)))
  }

  /** The six commands that are expressions of their own. */
  predicate IsSimpleCommand(t: Token) {
    IsCommand(t) && t != JumpForward && t != JumpBack
  }

  /** The expression of a command token. */
  function CommandExpr(t: Token): (e: Expr)
    requires IsSimpleCommand(t)
    ensures !e.Loop?
  {
    match t
    case MoveRight => Expr.MoveRight
    case MoveLeft => Expr.MoveLeft
    case Increment => Expr.Increment
    case Decrement => Expr.Decrement
    case Output => Expr.Output
    case Input => Expr.Input
  }

  /** The expressions handed to the private context: with `run`, those
      completed while the nesting counter is 0. */
  function Ran(executed: seq<Expr>, e: Expr, run: bool, nesting: nat): seq<Expr>
  {
    if nesting == 0 && run then executed + [e] else executed
  }

  /** What one call of `parse` leaves: its result, the token source, and the
      expressions it executed. */
  datatype Outcome = Outcome(result: Result<Block, ParseError>, lexer: Lexer, executed: seq<Expr>)

  /** The rest of one call of `parse` from a point of its loop: `block`,
      `start` and `executed` are its local variables. */
  function ParseFrom(lx: Lexer, run: bool, block: Block, start: Option<Position>, executed: seq<Expr>): (o: Outcome)
    requires lx.Valid()
    ensures o.lexer.Valid() && lx.NotAfter(o.lexer)
    ensures o.lexer.stream.Bounded? == lx.stream.Bounded?
    ensures o.result.Ok? ==> o.lexer.nesting == LevelExit(lx.nesting)
    decreases lx.Pending(), lx.Buffered(), 2
  {
    var next := Lex(lx);
    ParseToken(lx, next.token, next.lexer, run, block, start, executed)
  }

  /** One turn of the loop of `parse` once `next_token` has returned `token`
      and left the source in state `lx1`. */
  function ParseToken(lx: Lexer, token: Option<MetaToken>, lx1: Lexer, run: bool, block: Block,
                      start: Option<Position>, executed: seq<Expr>): (o: Outcome)
    requires lx.Valid() && lx1.Valid() && lx1.stream.Bounded? == lx.stream.Bounded?
    requires token.Some? && token.value.token != Eof ==> lx.Before(lx1)
    requires token.None? || token.value.token == Eof ==> lx.NotAfter(lx1)
    ensures o.lexer.Valid() && lx.NotAfter(o.lexer)
    ensures o.lexer.stream.Bounded? == lx.stream.Bounded?
    ensures o.result.Ok? ==> o.lexer.nesting == LevelExit(lx1.nesting)
    decreases lx.Pending(), lx.Buffered(), 1
  {
    // without a token the source makes one at line 0, column 0
    var metaToken := if token.Some? then token.value else MetaToken(Eof, 0, 0);
    var start1 := StartAfter(start, metaToken.line, metaToken.character);
    if IsSimpleCommand(metaToken.token) then
      var e := CommandExpr(metaToken.token);
      ParseFrom(lx1, run, block.AddExpr(e), start1, Ran(executed, e, run, lx1.nesting))
    else if metaToken.token == Comment then
      ParseFrom(lx1, run, block, start1, executed)
    else if metaToken.token == JumpForward then
      AfterLoop(lx, ParseSpec(lx1.(nesting := lx1.nesting + 1), false), run, block, start1, executed)
    else if metaToken.token == JumpBack then
      if lx1.nesting == 0 then
        Outcome(Err(UnmatchedCloseBrace(metaToken.line, metaToken.character)), lx1, executed)
      else
        Outcome(Ok(block), lx1.(nesting := lx1.nesting - 1), executed)
    else if lx1.nesting > 0 then
      Outcome(Err(UnmatchedOpenBrace(start1.value.line, start1.value.column)), lx1, executed)
    else
      Outcome(Ok(block), lx1, executed)
  }

  /** After the body of a loop was parsed with outcome `inner`: its error is
      the error of the whole, otherwise the loop is the next expression. */
  function AfterLoop(lx: Lexer, inner: Outcome, run: bool, block: Block, start: Option<Position>, executed: seq<Expr>): (o: Outcome)
    requires lx.Valid() && inner.lexer.Valid() && lx.Before(inner.lexer)
    requires inner.lexer.stream.Bounded? == lx.stream.Bounded?
    ensures o.lexer.Valid() && lx.NotAfter(o.lexer)
    ensures o.lexer.stream.Bounded? == lx.stream.Bounded?
    ensures o.result.Ok? ==> o.lexer.nesting == LevelExit(inner.lexer.nesting)
    decreases lx.Pending(), lx.Buffered(), 0
  {
    if inner.result.Err? then Outcome(inner.result, inner.lexer, executed)
    else
      var e := Expr.Loop(Loop.Loop(inner.result.value));
      ParseFrom(inner.lexer, run, block.AddExpr(e), start, Ran(executed, e, run, inner.lexer.nesting))
  }

  /** The nesting counter once a level entered at `n` has ended well: the
      outermost level ends at the end of the input, still at 0; an inner
      level ends at its `]`, one below where it was entered. */
  function LevelExit(n: nat): nat
  {
    if n == 0 then 0 else n - 1
  }

  /** A whole call of `parse` on a token source in state `lx`; when it
      succeeds, every level it opened was closed again. */
  function ParseSpec(lx: Lexer, run: bool): (o: Outcome)
    requires lx.Valid()
    ensures o.lexer.Valid() && lx.NotAfter(o.lexer)
    ensures o.lexer.stream.Bounded? == lx.stream.Bounded?
    ensures o.result.Ok? ==> o.lexer.nesting == LevelExit(lx.nesting)
    decreases lx.Pending(), lx.Buffered(), 3
  {
    ParseFrom(lx, run, Block.New(), None, [])
  }

  /** The position a call of `parse` reports for an unclosed loop: that of the
      first token it reads, one column back. */
  function StartAfter(start: Option<Position>, line: nat, character: nat): (r: Option<Position>)
    ensures r.Some?
    ensures start.Some? ==> r == start
    ensures start.None? ==> r == Some(Position(line, character - 1))
  {
    if start.None? then Some(Position(line, character - 1)) else start
  }

  /** A parser over a fixed byte buffer, updated in place. */
  class RawParser {
    var code: seq<u8>
    var currentIndex: nat
    var nesting: nat
    var lineNum: nat
    var charNum: nat

    ghost predicate Valid()
      reads this
    {
      currentIndex <= |code|
    }

    ghost function State(): Lexer
      reads this
    {
      Lexer(code, currentIndex, nesting, lineNum, charNum, Bounded)
    }

    /** `RawParser::new`. */
    constructor (data: seq<u8>)
      ensures Valid() && State() == Start(data)
    {
      code := data;
      currentIndex := 0;
      nesting := 0;
      lineNum := 1;
      charNum := 1;
    }

    /** `next_token`. */
    method NextToken() returns (t: Option<MetaToken>)
      requires Valid()
      modifies this
      ensures Valid() && Next(t, State()) == RawLex(old(State()))
    {
      if currentIndex < |code| {
        var rawToken := code[currentIndex];
        var token := FromByte(code[currentIndex]);
        t := Some(MetaToken(token, lineNum, charNum));
        currentIndex := currentIndex + 1;
        if rawToken == NEWLINE {
          lineNum := lineNum + 1;
          charNum := 0;
        }
        charNum := charNum + 1;
      } else {
        t := None;
      }
    }

    method IncrementNestLevel()
      modifies this
      ensures State() == old(State()).(nesting := old(nesting) + 1)
    {
      nesting := nesting + 1;
    }

    /** Only called when the nesting counter is above 0. */
    method DecrementNestLevel()
      requires nesting > 0
      modifies this
      ensures State() == old(State()).(nesting := old(nesting) - 1)
    {
      nesting := nesting - 1;
    }

    method NestLevel() returns (n: nat)
      ensures n == nesting
    {
      n := nesting;
    }

    /** `eof_token`: an `Eof` at the current position. */
    method EofToken() returns (t: MetaToken)
      ensures t == MetaToken(Eof, lineNum, charNum)
    {
      t := MetaToken(Eof, lineNum, charNum);
    }

    /** The streaming source appends each chunk it receives to the buffer. */
    method Append(chunk: seq<u8>)
      requires Valid()
      modifies this
      ensures Valid() && State() == old(State()).(code := old(code) + chunk)
    {
      code := code + chunk;
    }

    /** `RawParser::parse`: the whole buffer as a program, nothing executed. */
    method ParseProgram() returns (r: Result<Program, ParseError>)
      requires Valid()
      modifies this
      ensures Valid()
      ensures var o := ParseSpec(old(State()), false);
              State() == o.lexer && r == (if o.result.Ok? then Ok(Program(o.result.value)) else Err(o.result.error))
    {
      var entry, _ := Parse(Raw(this), false);
      if entry.Err? {
        return Err(entry.error);
      }
      r := Ok(Program(entry.value));
    }
  }

  /** The parser of the interactive loop: a raw parser whose buffer is
      refilled with the chunks received on the data channel. */
  class ReplParser {
    const inner: RawParser
    var pending: seq<seq<u8>>
    var status: seq<Status>

    ghost predicate Valid()
      reads this, inner
    {
      inner.Valid()
    }

    ghost function State(): Lexer
      reads this, inner
    {
      inner.State().(stream := Streaming(pending, status))
    }

    /** `ReplParser::new`: an empty buffer; `chunks` is what the driver will send. */
    constructor (chunks: seq<seq<u8>>)
      ensures Valid() && fresh(inner)
      ensures State() == Start([]).(stream := Streaming(chunks, []))
    {
      inner := new RawParser([]);
      pending := chunks;
      status := [];
    }

    /** `next_token`: whenever the buffer is exhausted, report `Ready` and
        append the next chunk; with no chunk left, the end-of-input token. */
    method NextToken() returns (t: Option<MetaToken>)
      requires Valid()
      modifies this, inner
      ensures Valid() && Next(t, State()) == Lex(old(State()))
    {
      ghost var lx0 := State();
      while true
        invariant Valid()
        invariant Lex(lx0) == Lex(State())
        decreases |pending|
      {
        ghost var before := State();
        t := inner.NextToken();
        if t.Some? {
          return;
        }
        status := status + [Ready];
        if pending == [] {
          var eof := inner.EofToken();
          t := Some(eof);
          return;
        }
        inner.Append(pending[0]);
        pending := pending[1..];
        assert State() == before.(code := before.code + before.stream.pending[0],
                                  stream := Streaming(before.stream.pending[1..], before.stream.status + [Ready]));
      }
    }

    method IncrementNestLevel()
      modifies inner
      ensures State() == old(State()).(nesting := old(State()).nesting + 1)
    {
      inner.IncrementNestLevel();
    }

    method DecrementNestLevel()
      requires inner.nesting > 0
      modifies inner
      ensures State() == old(State()).(nesting := old(State()).nesting - 1)
    {
      inner.DecrementNestLevel();
    }

    method NestLevel() returns (n: nat)
      ensures n == inner.nesting
    {
      n := inner.NestLevel();
    }

    /** `parse_and_run`: parse, executing top-level expressions as they are
        completed, then report `Exited`. */
    method ParseAndRun() returns (r: Result<Program, ParseError>, executed: seq<Expr>)
      requires Valid()
      modifies this, inner
      ensures Valid()
      ensures var o := ParseSpec(old(State()), true);
              State() == o.lexer.(stream := Streaming(o.lexer.stream.pending, o.lexer.stream.status + [Exited]))
              && executed == o.executed
              && r == (if o.result.Ok? then Ok(Program(o.result.value)) else Err(o.result.error))
    {
      var entry;
      entry, executed := Parse(Repl(this), true);
      status := status + [Exited];
      r := if entry.Ok? then Ok(Program(entry.value)) else Err(entry.error);
    }
  }

  /** The two token sources `parse` is generic over. */
  datatype Source = Raw(raw: RawParser) | Repl(repl: ReplParser)
  {
    ghost function Repr(): set<object>
    {
      match this
      case Raw(p) => {p}
      case Repl(p) => {p, p.inner}
    }

    ghost predicate Valid()
      reads Repr()
    {
      match this
      case Raw(p) => p.Valid()
      case Repl(p) => p.Valid()
    }

    ghost function State(): Lexer
      reads Repr()
    {
      match this
      case Raw(p) => p.State()
      case Repl(p) => p.State()
    }

    method NextToken() returns (t: Option<MetaToken>)
      requires Valid()
      modifies Repr()
      ensures Valid() && Next(t, State()) == Lex(old(State()))
    {
      match this
      case Raw(p) => t := p.NextToken();
      case Repl(p) => t := p.NextToken();
    }

    method IncrementNestLevel()
      requires Valid()
      modifies Repr()
      ensures Valid() && State() == old(State()).(nesting := old(State()).nesting + 1)
    {
      match this
      case Raw(p) => p.IncrementNestLevel();
      case Repl(p) => p.IncrementNestLevel();
    }

    method DecrementNestLevel()
      requires Valid() && State().nesting > 0
      modifies Repr()
      ensures Valid() && State() == old(State()).(nesting := old(State()).nesting - 1)
    {
      match this
      case Raw(p) => p.DecrementNestLevel();
      case Repl(p) => p.DecrementNestLevel();
    }

    method NestLevel() returns (n: nat)
      requires Valid()
      ensures n == State().nesting
    {
      match this
      case Raw(p) => n := p.NestLevel();
      case Repl(p) => n := p.NestLevel();
    }
  }

  /** `parse`: one nesting level. The private `Context` of the source is not
      kept; `executed` lists the expressions handed to it, in order. */
  method Parse(source: Source, run: bool) returns (r: Result<Block, ParseError>, executed: seq<Expr>)
    requires source.Valid()
    modifies source.Repr()
    ensures source.Valid()
    ensures ParseSpec(old(source.State()), run) == Outcome(r, source.State(), executed)
    decreases source.State().Pending(), source.State().Buffered(), 2
  {
    ghost var lx0 := source.State();
    var block := Block.New();
    executed := [];
    var start: Option<Position> := None;
    while true
      invariant source.Valid()
      invariant lx0.NotAfter(source.State())
      invariant ParseSpec(lx0, run) == ParseFrom(source.State(), run, block, start, executed)
      decreases source.State().Pending(), source.State().Buffered()
    {
      var done;
      done, r, block, start, executed := ParseStep(source, run, block, start, executed);
      if done {
        return;
      }
    }
  }

  /** One turn of the loop of `parse`: read a token and act on it. `done`
      says that `parse` returns `r`; otherwise its local variables are now
      `block'`, `start'` and `executed'`. */
  method ParseStep(source: Source, run: bool, block: Block, start: Option<Position>, executed: seq<Expr>)
    returns (done: bool, r: Result<Block, ParseError>, block': Block, start': Option<Position>, executed': seq<Expr>)
    requires source.Valid()
    modifies source.Repr()
    ensures source.Valid()
    ensures done ==> ParseFrom(old(source.State()), run, block, start, executed) == Outcome(r, source.State(), executed')
    ensures !done ==> old(source.State()).Before(source.State())
    ensures !done ==> ParseFrom(old(source.State()), run, block, start, executed)
                      == ParseFrom(source.State(), run, block', start', executed')
    decreases source.State().Pending(), source.State().Buffered(), 1
  {
    ghost var lx := source.State();
    var next := source.NextToken();
    ghost var lx1 := source.State();
    assert ParseFrom(lx, run, block, start, executed) == ParseToken(lx, next, lx1, run, block, start, executed);
    var metaToken := if next.Some? then next.value else MetaToken(Eof, 0, 0);
    var line, character := metaToken.line, metaToken.character;
    start' := start;
    if start'.None? {
      start' := Some(Position(line, character as int - 1));
    }
    assert start' == StartAfter(start, metaToken.line, metaToken.character);
    block', executed' := block, executed;
    r := Ok(block);
    if IsSimpleCommand(metaToken.token) {
      block', executed' := ParseCommand(source, run, block, start', metaToken, lx, next, start, executed);
      return false, r, block', start', executed';
    } else if metaToken.token == JumpForward {
      done, r, block', executed' := ParseLoop(source, run, block, start, executed, lx, next);
    } else if metaToken.token == Comment {
      assert ParseToken(lx, next, lx1, run, block, start, executed) == ParseFrom(lx1, run, block, start', executed);
      return false, r, block', start', executed';
    } else {
      r := ParseEnd(source, block, start', metaToken, lx, next, start, run, executed);
      return true, r, block', start', executed';
    }
  }

  /** The turn of the loop of `parse` at one of the six commands that are not
      loops: its expression is added to the block and, at level 0 of a running
      parse, executed. */
  method ParseCommand(source: Source, run: bool, block: Block, start': Option<Position>, metaToken: MetaToken,
                      ghost lx: Lexer, ghost next: Option<MetaToken>, ghost start: Option<Position>,
                      executed: seq<Expr>)
    returns (block': Block, executed': seq<Expr>)
    requires source.Valid() && lx.Valid() && Lex(lx) == Next(next, source.State())
    requires metaToken == (if next.Some? then next.value else MetaToken(Eof, 0, 0))
    requires IsSimpleCommand(metaToken.token)
    requires start' == StartAfter(start, metaToken.line, metaToken.character)
    ensures lx.Before(source.State())
    ensures ParseToken(lx, next, source.State(), run, block, start, executed)
            == ParseFrom(source.State(), run, block', start', executed')
  {
    var expr := CommandExpr(metaToken.token);
    var level := source.NestLevel();
    executed' := executed;
    if level == 0 && run {
      executed' := executed + [expr];
    }
    assert executed' == Ran(executed, expr, run, level);
    block' := block.AddExpr(expr);
  }

  /** The turn of the loop of `parse` at a `]` or at the end of the tokens,
      both of which end `parse`: a `]` closes the level (or, at level 0, has
      no `[` to close), the end is an error inside an open level. */
  method ParseEnd(source: Source, block: Block, start': Option<Position>, metaToken: MetaToken,
                  ghost lx: Lexer, ghost next: Option<MetaToken>, ghost start: Option<Position>,
                  ghost run: bool, ghost executed: seq<Expr>)
    returns (r: Result<Block, ParseError>)
    requires source.Valid() && lx.Valid() && Lex(lx) == Next(next, source.State())
    requires metaToken == (if next.Some? then next.value else MetaToken(Eof, 0, 0))
    requires metaToken.token == JumpBack || metaToken.token == Eof
    requires start' == StartAfter(start, metaToken.line, metaToken.character)
    modifies source.Repr()
    ensures source.Valid()
    ensures ParseToken(lx, next, old(source.State()), run, block, start, executed)
            == Outcome(r, source.State(), executed)
  {
    var level := source.NestLevel();
    if metaToken.token == JumpBack {
      if level == 0 {
        return Err(UnmatchedCloseBrace(metaToken.line, metaToken.character));
      }
      source.DecrementNestLevel();
      return Ok(block);
    }
    if level > 0 {
      return Err(UnmatchedOpenBrace(start'.value.line, start'.value.column));
    }
    return Ok(block);
  }

  /** The turn of the loop of `parse` at a `[` already read: `Loop::new`
      parses the body one level deeper; its error ends `parse`, otherwise the
      loop is the next expression. */
  method ParseLoop(source: Source, run: bool, block: Block, start: Option<Position>, executed: seq<Expr>,
                   ghost lx: Lexer, ghost next: Option<MetaToken>)
    returns (done: bool, r: Result<Block, ParseError>, block': Block, executed': seq<Expr>)
    requires source.Valid() && lx.Valid() && Lex(lx) == Next(next, source.State())
    requires next.Some? && next.value.token == JumpForward
    modifies source.Repr()
    ensures source.Valid()
    ensures done ==> ParseToken(lx, next, old(source.State()), run, block, start, executed)
                     == Outcome(r, source.State(), executed')
    ensures !done ==> lx.Before(source.State())
    ensures !done ==> ParseToken(lx, next, old(source.State()), run, block, start, executed)
                      == ParseFrom(source.State(), run, block', StartAfter(start, next.value.line, next.value.character), executed')
    decreases lx.Pending(), lx.Buffered(), 0
  {
    ghost var lx1 := source.State();
    source.IncrementNestLevel();
    ghost var o := ParseSpec(lx1.(nesting := lx1.nesting + 1), false);
    var inner := LoopNew(source);
    assert ParseToken(lx, next, lx1, run, block, start, executed)
        == AfterLoop(lx, o, run, block, StartAfter(start, next.value.line, next.value.character), executed);
    if inner.Err? {
      return true, Err(inner.error), block, executed;
    }
    var expr := Expr.Loop(inner.value);
    var level := source.NestLevel();
    r := Ok(block);
    executed' := executed;
    if level == 0 && run {
      executed' := executed + [expr];
    }
    block' := block.AddExpr(expr);
    done := false;
  }

  /** `Loop::new`: the body after a `[`, parsed without executing anything. */
  method LoopNew(source: Source) returns (r: Result<Loop, ParseError>)
    requires source.Valid()
    modifies source.Repr()
    ensures source.Valid()
    ensures var o := ParseSpec(old(source.State()), false);
            source.State() == o.lexer && r == (if o.result.Ok? then Ok(Loop.Loop(o.result.value)) else Err(o.result.error))
    decreases source.State().Pending(), source.State().Buffered(), 3
  {
    var block, _ := Parse(source, false);
    if block.Err? {
      return Err(block.error);
    }
    r := Ok(Loop.Loop(block.value));
  }
}
