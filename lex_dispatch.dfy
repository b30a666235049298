/** How `Lex` dispatches on the first byte of the stream. */
module LexDispatch {
  import opened Common
  import opened LexerSpec

  /** A stream that starts with a token byte is lexed by `LexToken`. */
  lemma LexIsLexToken(s: seq<byte>)
    requires s != [] && s[0] > 32 && s[0] != ';' as byte
    ensures Lex(s) == LexToken(s[0], s[1..])
  {
  }

  lemma LexTokenAtNumber(c: byte, t: seq<byte>)
    requires c == '-' as byte || IsDigit(c)
    ensures LexToken(c, t) == LexNumber(c, t)
  {
    assert c != '{' as byte && c != '}' as byte && c != '[' as byte && c != ']' as byte;
    assert c != '(' as byte && c != ')' as byte && c != ':' as byte && c != ',' as byte;
    assert c != '.' as byte && c != '=' as byte && c != '#' as byte && c != '"' as byte;
    assert c != '@' as byte && c != '&' as byte;
  }

  lemma LexTokenAtQuote(c: byte, t: seq<byte>)
    requires c == '"' as byte || c == '@' as byte || c == '&' as byte
    ensures LexToken(c, t) ==
      if c == '"' as byte then LexString(false, "", t)
      else if t == [] || t[0] != '"' as byte then Err(MissingQuote)
      else LexString(true, "", t[1..])
  {
  }

  /** `Lex` on a stream starting with a `-` or a digit is the number branch. */
  lemma LexAtNumber(s: seq<byte>)
    requires s != [] && (s[0] == '-' as byte || IsDigit(s[0]))
    ensures Lex(s) == LexNumber(s[0], s[1..])
  {
    LexIsLexToken(s);
    LexTokenAtNumber(s[0], s[1..]);
  }

  /** `Lex` on a stream starting with a quote or a name-string prefix. */
  lemma LexAtQuote(c: byte, t: seq<byte>)
    requires c == '"' as byte || c == '@' as byte || c == '&' as byte
    ensures Lex([c] + t) ==
      if c == '"' as byte then LexString(false, "", t)
      else if t == [] || t[0] != '"' as byte then Err(MissingQuote)
      else LexString(true, "", t[1..])
  {
    assert ([c] + t)[0] == c && ([c] + t)[1..] == t;
    LexIsLexToken([c] + t);
    LexTokenAtQuote(c, t);
  }
}
