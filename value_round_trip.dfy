/** Reading back what the writer writes: integer and plain string values, and the
    `path = value` lines of a tag's assigns. */
module ValueRoundTrip {
  import opened Common
  import opened Decimal
  import opened LexerSpec
  import G = GodotData
  import opened GrammarSpec
  import GrammarFacts
  import Writer
  import IntegerLexing
  import StringLexing

  /** A string the tokenizer keeps verbatim between quotes: ASCII, with no `"` and no
      newline. */
  predicate PlainText(s: string) {
    IsAscii(s) && forall i :: 0 <= i < |s| ==> s[i] != '"' && s[i] != '\n'
  }

  /** The bytes of plain text read back as the same text inside a string literal. */
  lemma {:induction false} StringTextOfPlain(s: string)
    requires PlainText(s)
    ensures StringLexing.StringText(AsciiBytes(s)) == s
  {
    if s != [] {
      var b := AsciiBytes(s);
      assert b[0] as int == s[0] as int && b[1..] == AsciiBytes(s[1..]);
      assert PlainText(s[1..]) by {
        forall i | 0 <= i < |s[1..]| ensures s[1..][i] as int < 0x80 && s[1..][i] != '"' && s[1..][i] != '\n' {
          assert s[1..][i] == s[i + 1];
        }
      }
      StringTextOfPlain(s[1..]);
      assert Latin1(b[0]) == s[0];
      assert s == [s[0]] + s[1..];
    }
  }

  /** A byte up to 32 other than `;` in front of a value is skipped. */
  lemma ValueAfterSpace(b: byte, t: seq<byte>)
    requires b <= 32
    ensures ParseValue([b] + t) == ParseValue(t)
  {
    assert ([b] + t)[0] == b && ([b] + t)[1..] == t;
    assert Lex([b] + t) == Lex(t);
  }

  /** A written integer value reads back as the same integer. */
  lemma IntegerReadsBack(ryu: real -> seq<byte>, n: i64, rest: seq<byte>)
    requires IntegerLexing.EndsInteger(rest)
    ensures ParseValue(Writer.FormatValue(ryu, G.Integer(n)) + rest) == Ok(Lexed(G.Integer(n), rest))
  {
    IntegerLexing.LexIntegerText(n, rest);
  }

  /** A written plain string value reads back as the same string. */
  lemma StringReadsBack(ryu: real -> seq<byte>, s: string, rest: seq<byte>)
    requires PlainText(s)
    ensures ParseValue(Writer.FormatValue(ryu, G.String(s)) + rest) == Ok(Lexed(G.String(s), rest))
  {
    var q: seq<byte> := ['"' as byte];
    var t := AsciiBytes(s) + q + rest;
    QuotedText(ryu, s);
    assert Writer.FormatValue(ryu, G.String(s)) + rest == q + t;
    StringLexing.LexPlainString(t);
    PlainLiteral(s, rest);
    StringToken(q + t, s, rest);
  }

  /** A string value is written as its ASCII bytes between quotes. */
  lemma QuotedText(ryu: real -> seq<byte>, s: string)
    requires IsAscii(s)
    ensures Writer.FormatValue(ryu, G.String(s)) == ['"' as byte] + AsciiBytes(s) + ['"' as byte]
  {
    assert Writer.Utf8("\"") == ['"' as byte];
    Writer.Utf8Ascii(s);
  }

  /** The body of a literal holding plain text ends at the quote after the text. */
  lemma PlainLiteral(s: string, rest: seq<byte>)
    requires PlainText(s)
    ensures var t := AsciiBytes(s) + ['"' as byte] + rest;
      StringLexing.QuotedLiteral(false, "", t) == Ok(Lexed(Some(Token.String(s)), rest))
  {
    var a := AsciiBytes(s);
    NoQuoteByte(s);
    FirstAfter(a, '"' as byte, rest);
    StringTextOfPlain(s);
    assert "" + StringLexing.StringText(a) == s;
  }

  lemma NoQuoteByte(s: string)
    requires PlainText(s)
    ensures '"' as byte !in AsciiBytes(s)
  {
    var a := AsciiBytes(s);
    forall i | 0 <= i < |a| ensures a[i] != '"' as byte {
      assert a[i] as int == s[i] as int;
    }
  }

  /** The first `b` in `a + [b] + rest`, when `a` holds none, is the one after `a`. */
  lemma FirstAfter(a: seq<byte>, b: byte, rest: seq<byte>)
    requires b !in a
    ensures var t := a + [b] + rest;
      IndexOf(t, b) == |a| && t[..|a|] == a && t[|a| + 1..] == rest
  {
    var t := a + [b] + rest;
    assert t[|a|] == b;
    forall i | 0 <= i < |a| ensures t[i] != b {
      assert t[i] == a[i];
    }
  }

  /** A stream whose next token is a string holds that string value. */
  lemma StringToken(x: seq<byte>, s: string, rest: seq<byte>)
    requires Lex(x) == Ok(Lexed(Some(Token.String(s)), rest))
    ensures ParseValue(x) == Ok(Lexed(G.String(s), rest))
  {
  }

  /** A path the writer can print and the reader reads back: non-empty plain ASCII
      text of path bytes. */
  predicate PrintablePath(path: string) {
    path != [] && IsAscii(path) &&
    forall i :: 0 <= i < |path| ==> GrammarFacts.PathByte(path[i] as int as byte)
  }

  lemma {:induction false} PathTextOfAscii(path: string)
    requires IsAscii(path)
    ensures GrammarFacts.PathText(AsciiBytes(path)) == path
  {
    if path != [] {
      var b := AsciiBytes(path);
      assert b[1..] == AsciiBytes(path[1..]);
      assert IsAscii(path[1..]) by {
        forall i | 0 <= i < |path[1..]| ensures path[1..][i] as int < 0x80 {
          assert path[1..][i] == path[i + 1];
        }
      }
      PathTextOfAscii(path[1..]);
      assert Latin1(b[0]) == path[0];
      assert path == [path[0]] + path[1..];
    }
  }

  /** A written `path = value` line reads back as the same assign, provided the value's
      text reads back as the value; the newline stays in the stream. */
  lemma AssignReadsBack(ryu: real -> seq<byte>, a: G.TagAssign, rest: seq<byte>)
    requires PrintablePath(a.assign)
    requires var nl := Writer.Utf8("\n");
      ParseValue(Writer.FormatValue(ryu, a.value) + nl + rest) == Ok(Lexed(a.value, nl + rest))
    ensures ParseAssign("", Writer.AssignText(ryu, a) + rest) ==
      Ok(Lexed(Some(a), Writer.Utf8("\n") + rest))
  {
    var nl := Writer.Utf8("\n");
    var v := Writer.FormatValue(ryu, a.value);
    var sp: seq<byte> := [32];
    var eq: seq<byte> := ['=' as byte];
    assert Writer.Utf8(" = ") == sp + eq + sp;
    Writer.Utf8Ascii(a.assign);
    var p := AsciiBytes(a.assign);
    assert forall i :: 0 <= i < |p| ==> p[i] == a.assign[i] as int as byte;
    var t := sp + (v + nl + rest);
    var line := Writer.AssignText(ryu, a);
    assert line == p + (sp + eq + sp) + v + nl;
    Regroup(p, sp, eq, sp, v, nl, rest);
    assert [] + p == p;
    GrammarFacts.AssignLine([], p, sp, t);
    ValueAfterSpace(32, v + nl + rest);
    PathTextOfAscii(a.assign);
  }

  lemma Regroup<T>(p: seq<T>, x: seq<T>, y: seq<T>, z: seq<T>, v: seq<T>, nl: seq<T>, rest: seq<T>)
    ensures p + (x + y + z) + v + nl + rest == p + x + y + (z + (v + nl + rest))
  {
    calc {
      p + (x + y + z) + v + nl + rest;
      p + x + y + z + v + nl + rest;
      p + x + y + (z + (v + nl + rest));
    }
  }

  /** An assign line of an integer value reads back. */
  lemma IntegerAssignReadsBack(ryu: real -> seq<byte>, path: string, n: i64, rest: seq<byte>)
    requires PrintablePath(path)
    ensures ParseAssign("", Writer.AssignText(ryu, G.TagAssign(path, G.Integer(n))) + rest) ==
      Ok(Lexed(Some(G.TagAssign(path, G.Integer(n))), Writer.Utf8("\n") + rest))
  {
    var nl := Writer.Utf8("\n");
    assert nl == ['\n' as byte];
    IntegerReadsBack(ryu, n, nl + rest);
    assert Writer.FormatValue(ryu, G.Integer(n)) + nl + rest == Writer.FormatValue(ryu, G.Integer(n)) + (nl + rest);
    AssignReadsBack(ryu, G.TagAssign(path, G.Integer(n)), rest);
  }

  /** An assign line of a plain string value reads back. */
  lemma StringAssignReadsBack(ryu: real -> seq<byte>, path: string, s: string, rest: seq<byte>)
    requires PrintablePath(path) && PlainText(s)
    ensures ParseAssign("", Writer.AssignText(ryu, G.TagAssign(path, G.String(s))) + rest) ==
      Ok(Lexed(Some(G.TagAssign(path, G.String(s))), Writer.Utf8("\n") + rest))
  {
    var nl := Writer.Utf8("\n");
    StringReadsBack(ryu, s, nl + rest);
    assert Writer.FormatValue(ryu, G.String(s)) + nl + rest == Writer.FormatValue(ryu, G.String(s)) + (nl + rest);
    AssignReadsBack(ryu, G.TagAssign(path, G.String(s)), rest);
  }
}
