/** The token model: every input byte is one of eight commands or a comment;
    `Eof` is never produced from a byte, only by a parser whose input is exhausted. */
module Tokens {
  import opened Base

  datatype Token =
    | MoveRight
    | MoveLeft
    | Increment
    | Decrement
    | Output
    | Input
    | JumpForward
    | JumpBack
    | Comment
    | Eof

  /** A token tagged with the line and column at which it was read. */
  datatype MetaToken = MetaToken(token: Token, line: nat, character: nat)

  /** `Token::from(u8)`: total over all 256 byte values. */
  function FromByte(b: u8): (t: Token)
    ensures t != Eof
  {
    if b == '>' as u8 then MoveRight
    else if b == '<' as u8 then MoveLeft
    else if b == '+' as u8 then Increment
    else if b == '-' as u8 then Decrement
    else if b == '.' as u8 then Output
    else if b == ',' as u8 then Input
    else if b == '[' as u8 then JumpForward
    else if b == ']' as u8 then JumpBack
    else Comment
  }

  /** A token that stands for one of the eight commands. */
  predicate IsCommand(t: Token) {
    t != Comment && t != Eof
  }

  /** The byte that spells a command token: the reference definition the byte
      mapping is checked against. */
  function CommandByte(t: Token): (b: Option<u8>)
    ensures b.Some? <==> IsCommand(t)
  {
    match t
    case MoveRight => Some('>' as u8)
    case MoveLeft => Some('<' as u8)
    case Increment => Some('+' as u8)
    case Decrement => Some('-' as u8)
    case Output => Some('.' as u8)
    case Input => Some(',' as u8)
    case JumpForward => Some('[' as u8)
    case JumpBack => Some(']' as u8)
    case Comment => None
    case Eof => None
  }

  /** Every command token is read back from the byte that spells it. */
  lemma FromCommandByte(t: Token)
    requires IsCommand(t)
    ensures CommandByte(t).Some? && FromByte(CommandByte(t).value) == t
  {
  }

  /** A byte is a command exactly when it is the spelling of the token it maps to;
      every other byte, `\n` and 255 included, is a comment. */
  lemma CommandByteOfFromByte(b: u8)
    ensures IsCommand(FromByte(b)) <==> CommandByte(FromByte(b)) == Some(b)
    ensures !IsCommand(FromByte(b)) ==> FromByte(b) == Comment
  {
  }

  /** Distinct command bytes map to distinct tokens. */
  lemma FromByteInjectiveOnCommands(a: u8, b: u8)
    requires IsCommand(FromByte(a)) && IsCommand(FromByte(b))
    requires a != b
    ensures FromByte(a) != FromByte(b)
  {
    CommandByteOfFromByte(a);
    CommandByteOfFromByte(b);
  }

  /** The set of the byte values that yield a command token: the eight
      command characters, and no other byte. */
  function CommandBytes(): (s: set<u8>)
    ensures s == {'>' as u8, '<' as u8, '+' as u8, '-' as u8, '.' as u8, ',' as u8, '[' as u8, ']' as u8}
  {
    set b: u8 | 0 <= b as int < 256 && IsCommand(FromByte(b))
  }

  /** Exactly eight byte values yield a command token. */
  lemma EightCommandBytes()
    ensures |CommandBytes()| == 8
  {
  }
}
