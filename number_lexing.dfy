/** Properties of the number scanner's four-state machine. */
module NumberLexing {
  import opened Common
  import opened LexerSpec


  /** No two positions of `s` hold `b`. */
  predicate AtMostOne(s: seq<byte>, b: byte) {
    forall i, j :: 0 <= i < j < |s| && s[i] == b ==> s[j] != b
  }

  /** Every `-` or `+` after the first position comes straight after an `e`. */
  predicate SignsFollowE(s: seq<byte>) {
    forall i :: 1 <= i < |s| && (s[i] == '-' as byte || s[i] == '+' as byte) ==> s[i - 1] == 'e' as byte
  }

  /** What the scanner state records about the text it has accumulated. */
  predicate NumInv(st: NumState) {
    && (st.reading == Int ==> !st.isFloat && '.' as byte !in st.num)
    && (st.reading != Exp ==> 'e' as byte !in st.num && !st.expBegin && !st.expSign)
    && (st.reading == Dec ==> st.isFloat && '.' as byte in st.num)
    && (st.reading == Exp ==> st.isFloat && 'e' as byte in st.num)
    && (st.reading == Exp && !st.expBegin && !st.expSign ==> st.num != [] && st.num[|st.num| - 1] == 'e' as byte)
    && AtMostOne(st.num, '.' as byte)
    && AtMostOne(st.num, 'e' as byte)
    && SignsFollowE(st.num)
  }

  lemma AppendOther(s: seq<byte>, b: byte, c: byte)
    requires AtMostOne(s, b) && c != b
    ensures AtMostOne(s + [c], b)
  {
    assert forall k :: 0 <= k < |s| ==> (s + [c])[k] == s[k];
  }

  lemma AppendFirst(s: seq<byte>, b: byte, c: byte)
    requires b !in s
    ensures AtMostOne(s + [c], b)
  {
    assert forall k :: 0 <= k < |s| ==> (s + [c])[k] == s[k];
  }

  /** One accepted byte keeps the invariant. */
  lemma StepKeepsInv(st: NumState, c: byte)
    requires st.reading != Done && NumInv(st)
    requires Step(st, c).reading != Done
    ensures var next := Step(st, c); NumInv(next.(num := next.num + [c]))
  {
    var next := Step(st, c);
    var num := st.num + [c];
    assert forall x :: x in num <==> x in st.num || x == c;
    if c == '.' as byte {
      assert st.reading == Int;
      AppendFirst(st.num, '.' as byte, c);
    } else {
      AppendOther(st.num, '.' as byte, c);
    }
    if c == 'e' as byte {
      assert st.reading != Exp;
      AppendFirst(st.num, 'e' as byte, c);
    } else {
      AppendOther(st.num, 'e' as byte, c);
    }
    if c == '-' as byte || c == '+' as byte {
      assert st.reading == Exp && !st.expBegin && !st.expSign;
    }
    assert SignsFollowE(num) by {
      forall i | 1 <= i < |num| && (num[i] == '-' as byte || num[i] == '+' as byte)
        ensures num[i - 1] == 'e' as byte
      {
        if i < |st.num| { assert num[i] == st.num[i] && num[i - 1] == st.num[i - 1]; }
      }
    }
  }

  /** The scan loop from any consistent state: the literal text and the unread stream
      together are exactly the text so far and the input; the first unread byte is no
      digit (digits always extend the literal); `isFloat` records exactly whether a `.`
      or an `e` was taken; there is at most one of each, and a sign past the first
      position sits straight after the `e`. */
  lemma {:induction false} ScanNumberFacts(st: NumState, s: seq<byte>)
    requires st.reading != Done && NumInv(st)
    ensures var r := ScanNumber(st, s);
      && r.num + r.rest == st.num + s
      && (r.rest == [] || !IsDigit(r.rest[0]))
      && (r.isFloat <==> '.' as byte in r.num || 'e' as byte in r.num)
      && AtMostOne(r.num, '.' as byte) && AtMostOne(r.num, 'e' as byte)
      && SignsFollowE(r.num)
  {
    ScanNumberText(st, s);
    ScanNumberShape(st, s);
  }

  /** A step never changes the text, and a digit never ends the literal. */
  lemma DigitContinues(st: NumState, c: byte)
    requires st.reading != Done
    ensures Step(st, c).num == st.num
    ensures IsDigit(c) ==> Step(st, c).reading != Done
  {
  }

  /** The literal text and the unread stream together are the text so far and the
      input, and the first unread byte is no digit. */
  lemma {:induction false} ScanNumberText(st: NumState, s: seq<byte>)
    requires st.reading != Done
    ensures var r := ScanNumber(st, s);
      r.num + r.rest == st.num + s && (r.rest == [] || !IsDigit(r.rest[0]))
    decreases |s|
  {
    if s != [] {
      var next := Step(st, s[0]);
      DigitContinues(st, s[0]);
      if next.reading != Done {
        var st' := next.(num := next.num + [s[0]]);
        assert ScanNumber(st, s) == ScanNumber(st', s[1..]);
        ScanNumberText(st', s[1..]);
        assert st'.num + s[1..] == st.num + s by {
          assert st'.num == st.num + [s[0]];
          assert s == [s[0]] + s[1..];
          assert (st.num + [s[0]]) + s[1..] == st.num + ([s[0]] + s[1..]);
        }
      }
    }
  }

  /** The scanner's invariant holds of the finished literal. */
  lemma {:induction false} ScanNumberShape(st: NumState, s: seq<byte>)
    requires st.reading != Done && NumInv(st)
    ensures var r := ScanNumber(st, s);
      && (r.isFloat <==> '.' as byte in r.num || 'e' as byte in r.num)
      && AtMostOne(r.num, '.' as byte) && AtMostOne(r.num, 'e' as byte)
      && SignsFollowE(r.num)
    decreases |s|
  {
    if s != [] {
      var next := Step(st, s[0]);
      if next.reading != Done {
        StepKeepsInv(st, s[0]);
        ScanNumberShape(next.(num := next.num + [s[0]]), s[1..]);
      }
    }
  }

  /** The exponent takes at most one sign: apart from a leading `-`, no two sign bytes. */
  lemma OneExponentSign(num: seq<byte>, i: nat, j: nat)
    requires AtMostOne(num, 'e' as byte) && SignsFollowE(num)
    requires 1 <= i < j < |num|
    requires num[i] == '-' as byte || num[i] == '+' as byte
    ensures num[j] != '-' as byte && num[j] != '+' as byte
  {
    assert num[i - 1] == 'e' as byte;
    assert num[j - 1] != 'e' as byte;
  }

  /** A number literal is lexed as a `Double` exactly when its text holds a `.` or an
      `e`, and as an `Integer` otherwise; a parse failure is reported as the matching
      kind. The text and the bytes left to read together are the input, and the first
      byte left is not a digit. */
  lemma LexNumberKind(c: byte, t: seq<byte>)
    requires c == '-' as byte || IsDigit(c)
    ensures var sc := NumberScan(c, t);
      var float := '.' as byte in sc.num || 'e' as byte in sc.num;
      && sc.num + sc.rest == [c] + t
      && (sc.rest == [] || !IsDigit(sc.rest[0]))
      && (LexNumber(c, t).Ok? ==> LexNumber(c, t).value.rest == sc.rest)
      && (LexNumber(c, t).Ok? ==> (LexNumber(c, t).value.item.value.Double? <==> float))
      && (LexNumber(c, t).Ok? ==> (LexNumber(c, t).value.item.value.Integer? <==> !float))
      && (LexNumber(c, t).Err? ==> LexNumber(c, t).error == (if float then BadDouble else BadInteger))
  {
    if c == '-' as byte {
      ScanNumberFacts(StartNumber.(num := ['-' as byte]), t);
    } else {
      ScanNumberFacts(StartNumber, [c] + t);
    }
  }
}
