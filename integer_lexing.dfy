/** Lexing the text the `i64` renderer writes. */
module IntegerLexing {
  import opened Common
  import opened Decimal
  import opened LexerSpec
  import LexDispatch

  /** A byte that cannot continue an integer literal. */
  predicate EndsInteger(rest: seq<byte>) {
    rest == [] || !(IsDigit(rest[0]) || rest[0] == '.' as byte || rest[0] == 'e' as byte)
  }

  lemma {:induction false} ScanDigits(st: NumState, d: seq<byte>, rest: seq<byte>)
    requires st.reading == Int && AllDigits(d) && EndsInteger(rest)
    ensures ScanNumber(st, d + rest) == Scanned(st.num + d, st.isFloat, rest)
    decreases |d|
  {
    if d == [] {
      assert d + rest == rest;
    } else {
      assert (d + rest)[0] == d[0] && (d + rest)[1..] == d[1..] + rest;
      ScanDigits(st.(num := st.num + [d[0]]), d[1..], rest);
      assert st.num + [d[0]] + d[1..] == st.num + d;
    }
  }

  /** The scan of an `i64` rendering stops right after its last digit. */
  lemma ScanIntegerText(n: i64, rest: seq<byte>)
    requires EndsInteger(rest)
    ensures var s := DecimalBytes(n as int) + rest;
      s != [] && (s[0] == '-' as byte || IsDigit(s[0])) &&
      NumberScan(s[0], s[1..]) == Scanned(DecimalBytes(n as int), false, rest)
  {
    var text := DecimalBytes(n as int);
    var d := NatDigits(Abs(n as int));
    if n < 0 {
      ScanNegative(d, rest);
      assert text == ['-' as byte] + d;
    } else {
      ScanNonNegative(d, rest);
      assert text == d;
    }
  }

  lemma ScanNegative(d: seq<byte>, rest: seq<byte>)
    requires AllDigits(d) && EndsInteger(rest)
    ensures var s := ['-' as byte] + d + rest;
      s[0] == '-' as byte && NumberScan(s[0], s[1..]) == Scanned(['-' as byte] + d, false, rest)
  {
    var s := ['-' as byte] + d + rest;
    assert s[0] == '-' as byte && s[1..] == d + rest;
    ScanDigits(StartNumber.(num := ['-' as byte]), d, rest);
  }

  lemma ScanNonNegative(d: seq<byte>, rest: seq<byte>)
    requires d != [] && AllDigits(d) && EndsInteger(rest)
    ensures var s := d + rest;
      IsDigit(s[0]) && NumberScan(s[0], s[1..]) == Scanned(d, false, rest)
  {
    var s := d + rest;
    assert s[0] == d[0] && [s[0]] + s[1..] == d + rest;
    ScanDigits(StartNumber, d, rest);
    assert StartNumber.num + d == d;
  }

  lemma LexNumberIntegerText(n: i64, rest: seq<byte>)
    requires EndsInteger(rest)
    ensures var s := DecimalBytes(n as int) + rest;
      s != [] && (s[0] == '-' as byte || IsDigit(s[0])) &&
      LexNumber(s[0], s[1..]) == Ok(Lexed(Some(Integer(n)), rest))
  {
    ScanIntegerText(n, rest);
    DecimalBytesParses(n);
  }

  /** Lexing the rendering of an `i64`, followed by a byte that cannot continue the
      literal, yields an `Integer` token of the same value and leaves that byte. */
  lemma LexIntegerText(n: i64, rest: seq<byte>)
    requires EndsInteger(rest)
    ensures Lex(DecimalBytes(n as int) + rest) == Ok(Lexed(Some(Integer(n)), rest))
  {
    LexNumberIntegerText(n, rest);
    LexDispatch.LexAtNumber(DecimalBytes(n as int) + rest);
  }
}
