/** The token grammar of the `.tres` tokenizer, as functions over the byte stream that
    is still to be read. Each function returns the token and the stream left over; a
    byte the tokenizer pushes back is simply still at the head of that stream. */
module LexerSpec {
  import opened Common
  import opened Decimal
  import opened FloatText
  import GodotData

  datatype Token =
    | CurlyBracketOpen
    | CurlyBracketClose
    | BracketOpen
    | BracketClose
    | ParenthesisOpen
    | ParenthesisClose
    | Identifier(id: string)
    | String(s: string)
    | StringName(s: string)
    | Integer(i: i64)
    | Double(d: GodotData.F64)
    | Color(text: string)
    | Colon
    | Comma
    | Period
    | Equal

  /** A value read from the stream, with the bytes that remain after it. */
  datatype Lexed<+T> = Lexed(item: T, rest: seq<byte>)

  /** A method's result `r` and remaining stream `rest` are those the specification
      `spec` gives (on failure only the error matters: the caller gives up). */
  predicate Agrees<T(==)>(r: Result<T>, spec: Result<Lexed<T>>, rest: seq<byte>) {
    match spec
    case Ok(l) => r == Ok(l.item) && rest == l.rest
    case Err(e) => r == Err(e)
  }

  /** A `;` comment: the stream after its terminating newline, or `None` when the
      file ends inside the comment. */
  function SkipComment(s: seq<byte>): (r: Option<seq<byte>>)
    ensures r.Some? ==> |r.value| < |s|
  {
    if s == [] then None
    else if s[0] == '\n' as byte then Some(s[1..])
    else SkipComment(s[1..])
  }

  /** The `#` colour literal: hex digits are appended to `acc`; the first other byte
      ends it and stays in the stream. End of file inside it yields no token. */
  function LexColor(acc: string, s: seq<byte>): (r: Result<Lexed<Option<Token>>>)
    ensures r.Ok? && r.value.item.None? ==> r.value.rest == []
    ensures r.Ok? ==> |r.value.rest| <= |s|
    decreases |s|
  {
    if s == [] then Ok(Lexed(None, []))
    else if IsHexDigit(s[0]) then LexColor(acc + [Latin1(s[0])], s[1..])
    else Ok(Lexed(Some(Color(acc)), s))
  }

  /** The body of a quoted string after its opening `"`: bytes are kept verbatim
      (escape sequences included) except newlines, which are dropped. */
  function LexString(named: bool, acc: string, s: seq<byte>): (r: Result<Lexed<Option<Token>>>)
    ensures r.Ok? ==> r.value.item.Some? && |r.value.rest| < |s|
    decreases |s|
  {
    if s == [] then Err(UnterminatedString)
    else if s[0] == '"' as byte then
      Ok(Lexed(Some(if named then StringName(acc) else Token.String(acc)), s[1..]))
    else if s[0] == '\n' as byte then LexString(named, acc, s[1..])
    else LexString(named, acc + [Latin1(s[0])], s[1..])
  }

  /** The states of the number scanner. */
  datatype Reading = Int | Dec | Exp | Done

  datatype NumState = NumState(reading: Reading, num: seq<byte>, isFloat: bool, expBegin: bool, expSign: bool)

  /** One turn of the scanner's `match reading` on byte `current`. */
  function Step(st: NumState, current: byte): NumState
  {
    match st.reading
    case Int =>
      if IsDigit(current) then st
      else if current == '.' as byte then st.(reading := Dec, isFloat := true)
      else if current == 'e' as byte then st.(reading := Exp, isFloat := true)
      else st.(reading := Done)
    case Dec =>
      if IsDigit(current) then st
      else if current == 'e' as byte then st.(reading := Exp, isFloat := true)
      else st.(reading := Done)
    case Exp =>
      if IsDigit(current) then st.(expBegin := true)
      else if (current == '-' as byte || current == '+' as byte) && !st.expBegin && !st.expSign then
        st.(expSign := true)
      else st.(reading := Done)
    case Done => st
  }

  /** What the scanner loop ends with: the literal text, whether it is a float, and
      the stream from the first byte it did not take. */
  datatype Scanned = Scanned(num: seq<byte>, isFloat: bool, rest: seq<byte>)

  /** The scanner loop from state `st` on the stream `s` (whose head is the byte the
      loop holds in `next`). */
  function ScanNumber(st: NumState, s: seq<byte>): (r: Scanned)
    requires st.reading != Done
    ensures |r.rest| <= |s|
    decreases |s|
  {
    if s == [] then Scanned(st.num, st.isFloat, [])
    else
      var next := Step(st, s[0]);
      if next.reading == Done then Scanned(st.num, st.isFloat, s)
      else ScanNumber(next.(num := next.num + [s[0]]), s[1..])
  }

  const StartNumber := NumState(Int, [], false, false, false)

  /** The scan of a number literal starting with byte `c` (a `-` or a digit) followed
      by `t`: a leading `-` goes into the text before the loop starts, a digit is the
      first byte the loop holds. */
  function NumberScan(c: byte, t: seq<byte>): (r: Scanned)
    requires c == '-' as byte || IsDigit(c)
    ensures |r.rest| <= |t|
  {
    if c == '-' as byte then ScanNumber(StartNumber.(num := ['-' as byte]), t)
    else
      assert [c] + t == [c] + t[0..] && ([c] + t)[1..] == t;
      ScanNumber(StartNumber, [c] + t)
  }

  /** A number literal: a float when the scan saw `.` or `e`, else an integer. */
  function LexNumber(c: byte, t: seq<byte>): (r: Result<Lexed<Option<Token>>>)
    requires c == '-' as byte || IsDigit(c)
    ensures r.Ok? ==> r.value.item.Some? && |r.value.rest| <= |t|
  {
    var scanned := NumberScan(c, t);
    if scanned.isFloat then
      match ParseF64(scanned.num)
      case Some(x) => Ok(Lexed(Some(Double(GodotData.Finite(x))), scanned.rest))
      case None => Err(BadDouble)
    else
      match ParseI64(scanned.num)
      case Some(n) => Ok(Lexed(Some(Integer(n)), scanned.rest))
      case None => Err(BadInteger)
  }

  /** An identifier: letters, digits and `_` are appended to `acc`; the first other
      byte ends it and stays in the stream. */
  function LexIdentifier(acc: string, s: seq<byte>): (r: Result<Lexed<Option<Token>>>)
    ensures r.Ok? && r.value.item.Some? && |r.value.rest| <= |s|
    decreases |s|
  {
    if s == [] then Ok(Lexed(Some(Identifier(acc)), []))
    else if IsIdentByte(s[0]) then LexIdentifier(acc + [Latin1(s[0])], s[1..])
    else Ok(Lexed(Some(Identifier(acc)), s))
  }

  /** The token that starts with byte `c` (neither whitespace nor `;`), followed by
      `t`. The arms are those of `next_token`'s `match`, which are pairwise disjoint. */
  function LexToken(c: byte, t: seq<byte>): (r: Result<Lexed<Option<Token>>>)
    requires c > 32 && c != ';' as byte
    ensures r.Ok? ==> |r.value.rest| <= |t|
    ensures r.Ok? && r.value.item.None? ==> r.value.rest == []
  {
    if c == '{' as byte then Ok(Lexed(Some(CurlyBracketOpen), t))
    else if c == '}' as byte then Ok(Lexed(Some(CurlyBracketClose), t))
    else if c == '[' as byte then Ok(Lexed(Some(BracketOpen), t))
    else if c == ']' as byte then Ok(Lexed(Some(BracketClose), t))
    else if c == '(' as byte then Ok(Lexed(Some(ParenthesisOpen), t))
    else if c == ')' as byte then Ok(Lexed(Some(ParenthesisClose), t))
    else if c == ':' as byte then Ok(Lexed(Some(Colon), t))
    else if c == ',' as byte then Ok(Lexed(Some(Comma), t))
    else if c == '.' as byte then Ok(Lexed(Some(Period), t))
    else if c == '=' as byte then Ok(Lexed(Some(Equal), t))
    else if c == '#' as byte then LexColor("#", t)
    else if c == '"' as byte then LexString(false, "", t)
    else if c == '@' as byte || c == '&' as byte then
      if t == [] || t[0] != '"' as byte then Err(MissingQuote) else LexString(true, "", t[1..])
    else if c == '-' as byte || IsDigit(c) then LexNumber(c, t)
    else if IsAlpha(c) || c == '_' as byte then LexIdentifier([Latin1(c)], t)
    else Err(UnexpectedCharacter)
  }

  /** The next token of the stream `s`, `None` at end of file: bytes up to 32 and `;`
      comments are skipped. Every token consumes at least one byte, and `None` means
      the whole stream has been read. */
  function Lex(s: seq<byte>): (r: Result<Lexed<Option<Token>>>)
    ensures r.Ok? ==> |r.value.rest| <= |s|
    ensures r.Ok? && r.value.item.Some? ==> |r.value.rest| < |s|
    ensures r.Ok? && r.value.item.None? ==> r.value.rest == []
    decreases |s|
  {
    if s == [] then Ok(Lexed(None, []))
    else if s[0] == ';' as byte then
      (match SkipComment(s[1..])
       case None => Ok(Lexed(None, []))
       case Some(after) => Lex(after))
    else if s[0] <= 32 then Lex(s[1..])
    else LexToken(s[0], s[1..])
  }
}
