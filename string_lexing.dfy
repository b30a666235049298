/** Properties of string literals. */
module StringLexing {
  import opened Common
  import opened LexerSpec
  import LexDispatch

  /** The token text of string-literal bytes: each byte as a Latin-1 character, with
      newline bytes dropped. */
  function StringText(b: seq<byte>): (r: string)
    ensures |r| <= |b|
  {
    if b == [] then ""
    else (if b[0] == '\n' as byte then "" else [Latin1(b[0])]) + StringText(b[1..])
  }

  lemma {:induction false} StringTextAppend(a: seq<byte>, b: seq<byte>)
    ensures StringText(a + b) == StringText(a) + StringText(b)
    decreases |a|
  {
    if a != [] {
      assert (a + b)[0] == a[0] && (a + b)[1..] == a[1..] + b;
      StringTextAppend(a[1..], b);
    } else {
      assert a + b == b;
    }
  }

  function StringToken(named: bool, text: string): Token {
    if named then StringName(text) else Token.String(text)
  }

  /** What a string body lexes to, in closed form: the literal ends at the first `"`;
      the token holds every byte before it verbatim (backslashes included) except
      newlines, and lexing resumes after the quote. Without a closing `"` the literal
      is an error. */
  function QuotedLiteral(named: bool, acc: string, s: seq<byte>): Result<Lexed<Option<Token>>> {
    var k := IndexOf(s, '"' as byte);
    if k == |s| then Err(UnterminatedString)
    else Ok(Lexed(Some(StringToken(named, acc + StringText(s[..k]))), s[k + 1..]))
  }

  /** Taking one byte other than `"` into the accumulator leaves the closed form unchanged. */
  lemma QuotedLiteralStep(named: bool, acc: string, s: seq<byte>)
    requires s != [] && s[0] != '"' as byte
    ensures QuotedLiteral(named, acc, s) ==
      QuotedLiteral(named, if s[0] == '\n' as byte then acc else acc + [Latin1(s[0])], s[1..])
  {
    var acc' := if s[0] == '\n' as byte then acc else acc + [Latin1(s[0])];
    var k := IndexOf(s[1..], '"' as byte);
    assert IndexOf(s, '"' as byte) == k + 1;
    if k < |s[1..]| {
      assert s[..k + 1] == [s[0]] + s[1..][..k];
      StringTextAppend([s[0]], s[1..][..k]);
      assert StringText([s[0]]) == (if s[0] == '\n' as byte then "" else [Latin1(s[0])]);
      assert acc' + StringText(s[1..][..k]) == acc + StringText(s[..k + 1]);
      assert s[k + 2..] == s[1..][k + 1..];
    }
  }

  /** The string-body loop computes `QuotedLiteral`. */
  lemma {:induction false} LexStringBody(named: bool, acc: string, s: seq<byte>)
    ensures LexString(named, acc, s) == QuotedLiteral(named, acc, s)
    decreases |s|
  {
    if s == [] {
    } else if s[0] == '"' as byte {
      assert s[..0] == [] && acc + StringText([]) == acc;
    } else {
      var acc' := if s[0] == '\n' as byte then acc else acc + [Latin1(s[0])];
      LexStringBody(named, acc', s[1..]);
      QuotedLiteralStep(named, acc, s);
    }
  }

  /** `"` opens a string literal. */
  lemma LexPlainString(t: seq<byte>)
    ensures Lex(['"' as byte] + t) == QuotedLiteral(false, "", t)
  {
    LexDispatch.LexAtQuote('"' as byte, t);
    LexStringBody(false, "", t);
  }

  /** `@"` and `&"` open a name-string literal. */
  lemma LexNameString(c: byte, t: seq<byte>)
    requires c == '@' as byte || c == '&' as byte
    ensures Lex([c, '"' as byte] + t) == QuotedLiteral(true, "", t)
  {
    assert [c, '"' as byte] + t == [c] + (['"' as byte] + t);
    LexDispatch.LexAtQuote(c, ['"' as byte] + t);
    assert (['"' as byte] + t)[1..] == t;
    LexStringBody(true, "", t);
  }

  /** An `@` or `&` not followed by `"` is an error. */
  lemma LexMissingQuote(c: byte, t: seq<byte>)
    requires c == '@' as byte || c == '&' as byte
    requires t == [] || t[0] != '"' as byte
    ensures Lex([c] + t) == Err(MissingQuote)
  {
    LexDispatch.LexAtQuote(c, t);
  }
}
