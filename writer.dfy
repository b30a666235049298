/** The `.tres` writer: the text each value, tag and document is written as, and the
    `GodotWriter` that appends it to its output. */
module Writer {
  import opened Common
  import opened Decimal
  import G = GodotData

  /** The UTF-8 encoding of one character, as Rust's `Display` for strings writes it. */
  function Utf8Char(c: char): (r: seq<byte>)
    ensures 1 <= |r| <= 4
    ensures c as int < 0x80 <==> |r| == 1
    ensures c as int < 0x80 ==> r[0] as int == c as int
  {
    var n := c as int;
    if n < 0x80 then [n as byte]
    else if n < 0x800 then [(0xC0 + n / 0x40) as byte, (0x80 + n % 0x40) as byte]
    else if n < 0x1_0000 then
      [(0xE0 + n / 0x1000) as byte, (0x80 + n / 0x40 % 0x40) as byte, (0x80 + n % 0x40) as byte]
    else
      [(0xF0 + n / 0x4_0000) as byte, (0x80 + n / 0x1000 % 0x40) as byte,
       (0x80 + n / 0x40 % 0x40) as byte, (0x80 + n % 0x40) as byte]
  }

  /** The UTF-8 bytes of a string. */
  function Utf8(s: string): (r: seq<byte>)
    ensures |r| >= |s|
  {
    if s == [] then [] else Utf8Char(s[0]) + Utf8(s[1..])
  }

  /** On ASCII text the encoding is one byte per character, with the same value. */
  lemma {:induction false} Utf8Ascii(s: string)
    requires IsAscii(s)
    ensures Utf8(s) == AsciiBytes(s)
  {
    if s != [] {
      assert IsAscii(s[1..]) by {
        forall i | 0 <= i < |s[1..]| ensures s[1..][i] as int < 0x80 {
          assert s[1..][i] == s[i + 1];
        }
      }
      Utf8Ascii(s[1..]);
    }
  }

  lemma {:induction false} Utf8Append(a: string, b: string)
    ensures Utf8(a + b) == Utf8(a) + Utf8(b)
  {
    if a == [] {
      assert a + b == b;
    } else {
      assert (a + b)[0] == a[0] && (a + b)[1..] == a[1..] + b;
      Utf8Append(a[1..], b);
      var x := Utf8Char(a[0]);
      assert Utf8(a + b) == x + Utf8(a[1..] + b);
      assert Utf8(a) == x + Utf8(a[1..]);
      assert x + (Utf8(a[1..]) + Utf8(b)) == (x + Utf8(a[1..])) + Utf8(b);
    }
  }

  predicate EndsWith(s: seq<byte>, p: seq<byte>) {
    |p| <= |s| && s[|s| - |p|..] == p
  }

  /** Rust's `str::trim_end_matches` with a fixed pattern: removes trailing copies of
      `p` for as long as there are any. */
  function TrimEndMatches(s: seq<byte>, p: seq<byte>): (r: seq<byte>)
    requires p != []
    ensures |r| <= |s| && s[..|r|] == r
    ensures !EndsWith(r, p)
    ensures Repeats(s[|r|..], p)
    decreases |s|
  {
    if EndsWith(s, p) then
      var r := TrimEndMatches(s[..|s| - |p|], p);
      assert s[..|s| - |p|][..|r|] == s[..|r|];
      assert s[|r|..] == s[..|s| - |p|][|r|..] + p;
      RepeatsAppend(s[..|s| - |p|][|r|..], p);
      r
    else
      assert s[|s|..] == [];
      s
  }

  /** The `f64` renderer (Godot's `rtos_fix`): `0` for both zeros, `nan`, `inf`,
      `neg_inf`, and otherwise the shortest round-trip text `ryu` produces, with
      trailing `.0`s removed. */
  function FormatF64(ryu: real -> seq<byte>, d: G.F64): seq<byte> {
    match d
    case Finite(x) => if x == 0.0 then Utf8("0") else TrimEndMatches(ryu(x), Utf8(".0"))
    case NaN => Utf8("nan")
    case Infinity => Utf8("inf")
    case NegInfinity => Utf8("neg_inf")
  }

  /** A `Value::Double`: the `f64` text, with `.0` appended unless it already has a `.`
      or an `e` or is one of the texts `inf`, `inf_neg` and `nan`. */
  function FormatDouble(ryu: real -> seq<byte>, d: G.F64): seq<byte> {
    var text := FormatF64(ryu, d);
    if text != Utf8("inf") && text != Utf8("inf_neg") && text != Utf8("nan")
       && '.' as byte !in text && 'e' as byte !in text
    then text + Utf8(".0")
    else text
  }

  /** A written double always reads back as a float: its text holds a `.` or an `e`,
      or is `inf` or `nan`. */
  lemma DoubleTextIsFloat(ryu: real -> seq<byte>, d: G.F64)
    ensures var r := FormatDouble(ryu, d);
      '.' as byte in r || 'e' as byte in r || r == Utf8("inf") || r == Utf8("nan")
  {
    var text := FormatF64(ryu, d);
    var point := Utf8(".0");
    assert point[0] == '.' as byte;
    assert (text + point)[|text|] == '.' as byte;
  }

  function FormatVector(v: G.Vector2i): seq<byte> {
    Utf8("Vector2i(") + DecimalBytes(v.x as int) + Utf8(", ") + DecimalBytes(v.y as int) + Utf8(")")
  }

  function FormatColor(ryu: real -> seq<byte>, c: G.Color): seq<byte> {
    match c
    case Rgba(r, g, b, a) =>
      Utf8("Color(") + FormatF64(ryu, r) + Utf8(", ") + FormatF64(ryu, g) + Utf8(", ")
        + FormatF64(ryu, b) + Utf8(", ") + FormatF64(ryu, a) + Utf8(")")
    case Html(text) => Utf8(text)
  }

  /** `GodotFmt for Value`: strings are written between quotes exactly as they are. */
  function FormatValue(ryu: real -> seq<byte>, v: G.Value): seq<byte> {
    match v
    case Null => Utf8("null")
    case Bool(b) => if b then Utf8("true") else Utf8("false")
    case Integer(i) => DecimalBytes(i as int)
    case Double(d) => FormatDouble(ryu, d)
    case String(s) => Utf8("\"") + Utf8(s) + Utf8("\"")
    case StringName(s) => Utf8("&\"") + Utf8(s) + Utf8("\"")
    case Color(c) => FormatColor(ryu, c)
    case Vector2i(x) => FormatVector(x)
    case SubResource(id) => Utf8("SubResource(\"") + Utf8(id) + Utf8("\")")
    case ExtResource(id) => Utf8("ExtResource(\"") + Utf8(id) + Utf8("\")")
  }

  /** ` identifier=value`, one per header field. */
  function FieldText(ryu: real -> seq<byte>, f: G.Field): seq<byte> {
    Utf8(" ") + Utf8(f.identifier) + Utf8("=") + FormatValue(ryu, f.value)
  }

  /** `path = value` and a newline, one per assign. */
  function AssignText(ryu: real -> seq<byte>, a: G.TagAssign): seq<byte> {
    Utf8(a.assign) + Utf8(" = ") + FormatValue(ryu, a.value) + Utf8("\n")
  }

  function FieldsText(ryu: real -> seq<byte>, fields: seq<G.Field>): seq<byte>
    decreases |fields|
  {
    if fields == [] then []
    else FieldsText(ryu, fields[..|fields| - 1]) + FieldText(ryu, fields[|fields| - 1])
  }

  function AssignsText(ryu: real -> seq<byte>, assigns: seq<G.TagAssign>): seq<byte>
    decreases |assigns|
  {
    if assigns == [] then []
    else AssignsText(ryu, assigns[..|assigns| - 1]) + AssignText(ryu, assigns[|assigns| - 1])
  }

  /** `GodotFmt for Tag`: the bracketed header line, then one line per assign. */
  function FormatTag(ryu: real -> seq<byte>, tag: G.Tag): seq<byte> {
    Utf8("[") + Utf8(tag.name) + FieldsText(ryu, tag.fields) + Utf8("]\n") + AssignsText(ryu, tag.assigns)
  }

  /** A written document: the header tag, then each further tag after an empty line. */
  function Document(ryu: real -> seq<byte>, header: G.Tag, tags: seq<G.Tag>): seq<byte>
    decreases |tags|
  {
    if tags == [] then FormatTag(ryu, header)
    else Document(ryu, header, tags[..|tags| - 1]) + Utf8("\n") + FormatTag(ryu, tags[|tags| - 1])
  }

  lemma DocumentSnoc(ryu: real -> seq<byte>, header: G.Tag, tags: seq<G.Tag>, i: nat)
    requires i < |tags|
    ensures Document(ryu, header, tags[..i + 1]) == Document(ryu, header, tags[..i]) + Utf8("\n") + FormatTag(ryu, tags[i])
  {
    assert tags[..i + 1][..i] == tags[..i];
  }

  lemma FieldsTextSnoc(ryu: real -> seq<byte>, fields: seq<G.Field>, i: nat)
    requires i < |fields|
    ensures FieldsText(ryu, fields[..i + 1]) == FieldsText(ryu, fields[..i]) + FieldText(ryu, fields[i])
  {
    assert fields[..i + 1][..i] == fields[..i];
  }

  lemma AssignsTextSnoc(ryu: real -> seq<byte>, assigns: seq<G.TagAssign>, i: nat)
    requires i < |assigns|
    ensures AssignsText(ryu, assigns[..i + 1]) == AssignsText(ryu, assigns[..i]) + AssignText(ryu, assigns[i])
  {
    assert assigns[..i + 1][..i] == assigns[..i];
  }

  /** `TruncDiv` and `TruncRem` by ten, in terms of the magnitude. */
  lemma TruncByTen(n: int)
    ensures Abs(TruncDiv(n, 10)) == Abs(n) / 10
    ensures Abs(TruncRem(n, 10)) == Abs(n) % 10
    ensures TruncDiv(n, 10) == 0 <==> Abs(n) < 10
  {
  }

  /** A prefix that ends in `d` is the next shorter prefix followed by `d`. */
  lemma PrefixStep(s: seq<byte>, m: nat, prefix: seq<byte>, d: byte)
    requires 0 < m <= |s| && s[..m] == prefix + [d]
    ensures s[..m - 1] == prefix && s[m - 1] == d
  {
    assert s[..m - 1] == s[..m][..m - 1];
  }

  /** One turn of the counting loop. */
  lemma CountTurn(n: int)
    ensures DigitCount(Abs(n)) == 1 + (if TruncDiv(n, 10) == 0 then 0 else DigitCount(Abs(TruncDiv(n, 10))))
    ensures TruncDiv(n, 10) != 0 ==> Abs(TruncDiv(n, 10)) < Abs(n)
  {
    TruncByTen(n);
  }

  /** One turn of the filling loop: the last digit of `n` is its remainder. */
  lemma DigitTurn(n: int)
    ensures NatDigits(Abs(n)) ==
      (if TruncDiv(n, 10) == 0 then [] else NatDigits(Abs(TruncDiv(n, 10)))) + [DigitByte(Abs(TruncRem(n, 10)))]
    ensures TruncDiv(n, 10) != 0 ==> Abs(TruncDiv(n, 10)) < Abs(n)
  {
    TruncByTen(n);
  }

  /** The first loop of `GodotFmt for i64`: the buffer size, one byte per `n /= 10`
      until `n` is zero, plus one for a sign. */
  method CountChars(value: i64) returns (chars: nat)
    ensures chars == DigitCount(Abs(value as int)) + (if value < 0 then 1 else 0)
  {
    var n: int := value as int;
    chars := 0;
    while true
      invariant chars + DigitCount(Abs(n)) == DigitCount(Abs(value as int))
      decreases Abs(n)
    {
      CountTurn(n);
      n := TruncDiv(n, 10);
      chars := chars + 1;
      if n == 0 {
        break;
      }
    }
    if value < 0 {
      chars := chars + 1;
    }
  }

  /** A buffer holding the digits of `value` after a sign slot that holds `-` when
      `value` is negative is its rendering. */
  lemma SignedDigits(value: i64, buffer: seq<byte>)
    requires var w := if value < 0 then 1 else 0;
      |buffer| == |NatDigits(Abs(value as int))| + w &&
      (forall k :: w <= k < |buffer| ==> buffer[k] == NatDigits(Abs(value as int))[k - w]) &&
      (value < 0 ==> buffer[0] == '-' as byte)
    ensures buffer == DecimalBytes(value as int)
  {
    var digits := NatDigits(Abs(value as int));
    if value < 0 {
      assert buffer == ['-' as byte] + digits;
    } else {
      assert buffer == digits;
    }
  }

  /** Writes the digit just left of the filled part of the buffer. */
  method StoreDigit(buffer: array<byte>, chars: nat, d: byte, ghost digits: seq<byte>, width: nat)
    requires width < chars <= buffer.Length && |digits| == buffer.Length - width
    requires d == digits[chars - 1 - width]
    requires forall k :: chars <= k < buffer.Length ==> buffer[k] == digits[k - width]
    modifies buffer
    ensures forall k :: chars - 1 <= k < buffer.Length ==> buffer[k] == digits[k - width]
  {
    buffer[chars - 1] := d;
  }

  /** The second loop of `GodotFmt for i64`: fills `buffer` from the back with one
      digit of `value` per turn, the magnitude of the truncated remainder (so that
      `i64::MIN` needs no negation), stopping in front of `width` leading bytes. */
  method FillDigits(buffer: array<byte>, value: i64, width: nat)
    requires buffer.Length == DigitCount(Abs(value as int)) + width
    modifies buffer
    ensures forall k :: width <= k < buffer.Length ==> buffer[k] == NatDigits(Abs(value as int))[k - width]
  {
    ghost var digits := NatDigits(Abs(value as int));
    var chars := buffer.Length;
    var n: int := value as int;
    while true
      invariant width <= chars <= buffer.Length
      invariant NatDigits(Abs(n)) == digits[..chars - width]
      invariant forall k :: chars <= k < buffer.Length ==> buffer[k] == digits[k - width]
      decreases Abs(n)
    {
      DigitTurn(n);
      var modulus := Abs(TruncRem(n, 10)) as nat;
      var q := TruncDiv(n, 10);
      var d := DigitByte(modulus);
      PrefixStep(digits, chars - width, if q == 0 then [] else NatDigits(Abs(q)), d);
      StoreDigit(buffer, chars, d, digits, width);
      chars := chars - 1;
      n := q;
      if n == 0 {
        break;
      }
    }
  }

  /** `GodotFmt for i64`: sizes the buffer, fills in the digits, then writes the `-`. */
  method FormatI64(value: i64) returns (text: seq<byte>)
    ensures text == DecimalBytes(value as int)
  {
    var chars := CountChars(value);
    var buffer := new byte[chars](_ => ' ' as byte);
    FillDigits(buffer, value, if value < 0 then 1 else 0);
    if value < 0 {
      buffer[0] := '-' as byte;
    }
    text := buffer[..];
    SignedDigits(value, text);
  }

  /** The text of a value, with integers rendered by `FormatI64`. */
  method WriteValue(ryu: real -> seq<byte>, v: G.Value) returns (text: seq<byte>)
    ensures text == FormatValue(ryu, v)
  {
    match v
    case Integer(i) =>
      text := FormatI64(i);
    case Vector2i(xy) =>
      var x := FormatI64(xy.x);
      var y := FormatI64(xy.y);
      text := Utf8("Vector2i(") + x + Utf8(", ") + y + Utf8(")");
    case _ =>
      text := FormatValue(ryu, v);
  }

  /** The `for field in &self.fields` loop of `GodotFmt for Tag`. */
  method WriteFields(ryu: real -> seq<byte>, fields: seq<G.Field>) returns (text: seq<byte>)
    ensures text == FieldsText(ryu, fields)
  {
    text := [];
    for i := 0 to |fields|
      invariant text == FieldsText(ryu, fields[..i])
    {
      var value := WriteValue(ryu, fields[i].value);
      var item := Utf8(" ") + Utf8(fields[i].identifier) + Utf8("=") + value;
      assert item == FieldText(ryu, fields[i]);
      FieldsTextSnoc(ryu, fields, i);
      text := text + item;
    }
    assert fields[..|fields|] == fields;
  }

  /** The `for assign in &self.assigns` loop of `GodotFmt for Tag`. */
  method WriteAssigns(ryu: real -> seq<byte>, assigns: seq<G.TagAssign>) returns (text: seq<byte>)
    ensures text == AssignsText(ryu, assigns)
  {
    text := [];
    for i := 0 to |assigns|
      invariant text == AssignsText(ryu, assigns[..i])
    {
      var value := WriteValue(ryu, assigns[i].value);
      var line := Utf8(assigns[i].assign) + Utf8(" = ") + value + Utf8("\n");
      assert line == AssignText(ryu, assigns[i]);
      AssignsTextSnoc(ryu, assigns, i);
      text := text + line;
    }
    assert assigns[..|assigns|] == assigns;
  }

  /** `GodotFmt for Tag`: the header line with its fields, then the assigns. */
  method WriteTagText(ryu: real -> seq<byte>, tag: G.Tag) returns (text: seq<byte>)
    ensures text == FormatTag(ryu, tag)
  {
    var fields := WriteFields(ryu, tag.fields);
    var assigns := WriteAssigns(ryu, tag.assigns);
    text := Utf8("[") + Utf8(tag.name) + fields + Utf8("]\n") + assigns;
  }

  /** `GodotWriter`: a sink that gets the header tag first and then, one by one, the
      further tags, each after an empty line. */
  class GodotWriter {
    /** The `ryu` shortest-representation formatter for finite doubles. */
    const ryu: real -> seq<byte>
    /** Everything written so far. */
    var out: seq<byte>

    /** Appends the text of `tag`. */
    method PutTag(tag: G.Tag)
      modifies this
      ensures out == old(out) + FormatTag(ryu, tag)
    {
      var text := WriteTagText(ryu, tag);
      out := out + text;
    }

    /** `GodotWriter::begin`: a writer whose output so far is the header tag. */
    constructor Begin(ryu: real -> seq<byte>, header: G.Tag)
      ensures this.ryu == ryu && out == Document(ryu, header, [])
    {
      this.ryu := ryu;
      out := [];
      new;
      PutTag(header);
    }

    /** `GodotWriter::write_tag`: an empty line, then the tag. */
    method WriteTag(tag: G.Tag)
      modifies this
      ensures out == old(out) + Utf8("\n") + FormatTag(ryu, tag)
    {
      out := out + Utf8("\n");
      PutTag(tag);
    }
  }

  /** Writing the header and then the tags one after another produces `Document`. */
  method WriteDocument(ryu: real -> seq<byte>, header: G.Tag, tags: seq<G.Tag>) returns (text: seq<byte>)
    ensures text == Document(ryu, header, tags)
  {
    var w := new GodotWriter.Begin(ryu, header);
    for i := 0 to |tags|
      invariant w.ryu == ryu && w.out == Document(ryu, header, tags[..i])
    {
      w.WriteTag(tags[i]);
      DocumentSnoc(ryu, header, tags, i);
    }
    assert tags[..|tags|] == tags;
    text := w.out;
  }
}
