/** Shared vocabulary of the model: optional values, failures, machine integers and bytes. */
module Common {

  /** Rust's `Option`. */
  datatype Option<+T> = None | Some(value: T) {
    predicate IsFailure() { None? }

    function PropagateFailure<U>(): Option<U>
      requires None?
    {
      None
    }

    function Extract(): T
      requires Some?
    {
      value
    }
  }

  /** The kinds of failure the parser, writer and mapper report. The wording of the
      original diagnostics is not modelled, only which kind of failure happened. */
  datatype Error =
    // lexical errors
    | UnexpectedCharacter   // a byte that starts no token
    | MissingQuote          // `@` or `&` not followed by `"`
    | UnterminatedString    // end of file before the closing `"`
    | BadInteger            // the number text does not parse as an i64
    | BadDouble             // the number text does not parse as an f64
    // grammar errors
    | UnexpectedToken       // a token other than the one the grammar needs
    | UnexpectedEnd         // end of file where the grammar needs a token
    | WrongArity            // a constructor with the wrong number of arguments
    | UnsupportedValue      // an identifier that names no value
    | ExpectedString        // a quoted path that is not a string token
    // document errors
    | EmptyFile             // no header tag
    | UnsupportedFormat     // header `format` field other than `3`
    // schema errors of the resource mapper
    | Schema
    // terrain image errors
    | BadFileName           // an image name with more than three `-`-separated parts
    // path errors
    | BadGodotPath          // a Godot path that does not start with `res://`

  /** `anyhow::Result`, with the failure kind in place of the error object. */
  datatype Result<+T> = Ok(value: T) | Err(error: Error) {
    predicate IsFailure() { Err? }

    function PropagateFailure<U>(): Result<U>
      requires Err?
    {
      Err(error)
    }

    function Extract(): T
      requires Ok?
    {
      value
    }
  }

  newtype byte = b: int | 0 <= b < 0x100
  newtype u32 = x: int | 0 <= x < 0x1_0000_0000
  newtype i64 = x: int | -0x8000_0000_0000_0000 <= x < 0x8000_0000_0000_0000

  /** Rust's `b as char` on a byte: the Latin-1 code point with the same value. */
  function Latin1(b: byte): (c: char)
    ensures c as int == b as int
  {
    (b as int) as char
  }

  /** Rust's `x as u32` on an unsigned value: truncation to the low 32 bits. */
  function TruncateU32(x: nat): (r: u32)
    ensures x < 0x1_0000_0000 ==> r as int == x
  {
    (x % 0x1_0000_0000) as u32
  }

  predicate IsDigit(b: byte) { '0' as byte <= b <= '9' as byte }

  predicate IsAlpha(b: byte) {
    ('a' as byte <= b <= 'z' as byte) || ('A' as byte <= b <= 'Z' as byte)
  }

  predicate IsHexDigit(b: byte) {
    IsDigit(b) || ('a' as byte <= b <= 'f' as byte) || ('A' as byte <= b <= 'F' as byte)
  }

  /** Bytes that continue an identifier: ASCII letters, digits and `_`. */
  predicate IsIdentByte(b: byte) { IsAlpha(b) || IsDigit(b) || b == '_' as byte }

  /** A string all of whose characters are ASCII. */
  predicate IsAscii(s: string) { forall i :: 0 <= i < |s| ==> s[i] as int < 0x80 }

  /** The bytes of an ASCII string (its UTF-8 encoding). */
  function AsciiBytes(s: string): (r: seq<byte>)
    requires IsAscii(s)
    ensures |r| == |s|
    ensures forall i :: 0 <= i < |s| ==> r[i] as int == s[i] as int
  {
    if s == [] then [] else [s[0] as int as byte] + AsciiBytes(s[1..])
  }

  lemma AsciiBytesAppend(a: string, b: string)
    requires IsAscii(a) && IsAscii(b)
    ensures IsAscii(a + b) && AsciiBytes(a + b) == AsciiBytes(a) + AsciiBytes(b)
  {
    assert IsAscii(a + b) by {
      forall i | 0 <= i < |a + b| ensures (a + b)[i] as int < 0x80 {
        if i < |a| { assert (a + b)[i] == a[i]; } else { assert (a + b)[i] == b[i - |a|]; }
      }
    }
  }

  /** The position of the first `x` in `s`, or `|s|` when there is none. */
  function IndexOf<T(==)>(s: seq<T>, x: T): (k: nat)
    ensures k <= |s| && (k < |s| ==> s[k] == x)
    ensures forall i :: 0 <= i < k ==> s[i] != x
  {
    if s == [] then 0 else if s[0] == x then 0 else 1 + IndexOf(s[1..], x)
  }

  /** A `find` over a sequence: the index of the first `x` in `s`, `None` exactly when
      `s` holds none. */
  function Position<T(==)>(s: seq<T>, x: T): (r: Option<nat>)
    ensures r.Some? ==> r.value < |s| && s[r.value] == x
    ensures r.Some? ==> forall i :: 0 <= i < r.value ==> s[i] != x
    ensures r.None? <==> forall i :: 0 <= i < |s| ==> s[i] != x
  {
    var k := IndexOf(s, x);
    if k < |s| then Some(k) else None
  }

  /** `s` is a number of copies of `p` laid end to end. */
  predicate Repeats<T(==)>(s: seq<T>, p: seq<T>)
    requires p != []
    decreases |s|
  {
    s == [] || (|p| <= |s| && s[..|p|] == p && Repeats(s[|p|..], p))
  }

  /** One more copy on the end keeps a run of copies a run of copies. */
  lemma {:induction false} RepeatsAppend<T>(s: seq<T>, p: seq<T>)
    requires p != [] && Repeats(s, p)
    ensures Repeats(s + p, p)
    decreases |s|
  {
    if s == [] {
      assert (s + p)[..|p|] == p && (s + p)[|p|..] == [];
    } else {
      assert (s + p)[..|p|] == s[..|p|];
      assert (s + p)[|p|..] == s[|p|..] + p;
      RepeatsAppend(s[|p|..], p);
    }
  }
}
