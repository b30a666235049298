/** Reading the text of a floating-point literal (Rust's `str::parse::<f64>`), as an
    exact decimal. */
module FloatText {
  import opened Common
  import opened Decimal

  /** The exponent part after `e`: an optional sign and at least one digit. */
  function ParseExponent(s: seq<byte>): Option<int>
  {
    var signed := |s| > 0 && (s[0] == '-' as byte || s[0] == '+' as byte);
    var digits := if signed then s[1..] else s;
    if digits == [] || !AllDigits(digits) then None
    else if signed && s[0] == '-' as byte then Some(-(DigitsValue(digits) as int))
    else Some(DigitsValue(digits) as int)
  }

  /** Rust's `<f64 as FromStr>::from_str` on the texts the number scanner can produce
      (an optional sign, digits, at most one `.`, an optional `e` exponent): the
      mantissa needs at least one digit and an exponent at least one digit. The value
      is the exact decimal; rounding to a binary double (and overflow to infinity) is
      not modelled. */
  function ParseF64(text: seq<byte>): (r: Option<real>)
  {
    var negative := |text| > 0 && text[0] == '-' as byte;
    var body := if |text| > 0 && (text[0] == '-' as byte || text[0] == '+' as byte) then text[1..] else text;
    var e := IndexOf(body, 'e' as byte);
    var mantissa := body[..e];
    var dot := IndexOf(mantissa, '.' as byte);
    var whole := mantissa[..dot];
    var fraction := if dot < |mantissa| then mantissa[dot + 1..] else [];
    if !AllDigits(whole) || !AllDigits(fraction) || |whole| + |fraction| == 0 then None
    else
      var exponent :- if e < |body| then ParseExponent(body[e + 1..]) else Some(0);
      AllDigitsAppend(whole, fraction);
      var m := DigitsValue(whole + fraction) as real;
      var scale := exponent - |fraction|;
      var magnitude := if scale >= 0 then m * Pow10(scale) as real else m / Pow10(-scale) as real;
      Some(if negative then -magnitude else magnitude)
  }
}
