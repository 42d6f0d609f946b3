/**
 * The two conversions between numbers and text that the timer relies on:
 * JavaScript's global `parseInt(string)` (no radix argument), used to read the
 * duration field, and the conversion of an integer Number to its decimal text,
 * used when a count is concatenated with "s" for the display.
 * Numbers are unbounded integers here; `None` is parseInt's NaN.
 */
module Numbers {
  import opened Wrappers

  /** WhiteSpace and LineTerminator code points that parseInt skips before the number. */
  predicate IsJsSpace(c: char) {
    c == '\t' || c == '\n' || c == '\U{000B}' || c == '\U{000C}' || c == '\r' || c == ' '
    || c == '\U{00A0}' || c == '\U{1680}' || ('\U{2000}' <= c <= '\U{200A}')
    || c == '\U{2028}' || c == '\U{2029}' || c == '\U{202F}' || c == '\U{205F}'
    || c == '\U{3000}' || c == '\U{FEFF}'
  }

  predicate IsDecimalDigit(c: char) { '0' <= c <= '9' }

  /** Is `c` a digit of the given radix (only 10 and 16 occur in parseInt without a radix)? */
  predicate IsDigitIn(c: char, radix: nat) {
    if radix == 16 then IsDecimalDigit(c) || ('a' <= c <= 'f') || ('A' <= c <= 'F')
    else IsDecimalDigit(c)
  }

  function DigitValue(c: char): (d: nat)
    requires IsDigitIn(c, 16)
    ensures d < 16
    ensures IsDecimalDigit(c) ==> d < 10
  {
    if IsDecimalDigit(c) then c as int - '0' as int
    else if 'a' <= c <= 'f' then c as int - 'a' as int + 10
    else c as int - 'A' as int + 10
  }

  /** The string with its leading whitespace removed. */
  function TrimStart(s: string): (t: string)
    ensures |t| <= |s| && t == s[|s| - |t|..]
    ensures t != [] ==> !IsJsSpace(t[0])
    ensures forall i :: 0 <= i < |s| - |t| ==> IsJsSpace(s[i])
  {
    if s != [] && IsJsSpace(s[0]) then TrimStart(s[1..]) else s
  }

  /** Length of the longest prefix of `s` made of digits of `radix`. */
  function DigitRun(s: string, radix: nat): (k: nat)
    ensures k <= |s|
    ensures forall i :: 0 <= i < k ==> IsDigitIn(s[i], radix)
    ensures k < |s| ==> !IsDigitIn(s[k], radix)
  {
    if s != [] && IsDigitIn(s[0], radix) then 1 + DigitRun(s[1..], radix) else 0
  }

  /** The value of a digit string in the given radix, most significant digit first. */
  function DigitsValue(ds: string, radix: nat): (value: nat)
    requires radix == 10 || radix == 16
    requires forall i :: 0 <= i < |ds| ==> IsDigitIn(ds[i], radix)
  {
    if ds == [] then 0
    else
      var last := ds[|ds| - 1];
      assert IsDigitIn(last, radix);
      DigitsValue(ds[..|ds| - 1], radix) * radix + DigitValue(last)
  }

  /**
   * parseInt(s) with no radix: skip leading whitespace, take one optional sign,
   * read "0x"/"0X" as a switch to radix 16, then read the longest run of digits;
   * no digit at all gives NaN.
   */
  function ParseInt(s: string): (r: Option<int>) {
    ParseSigned(TrimStart(s))
  }

  /** parseInt after the whitespace: one optional sign. */
  function ParseSigned(t: string): (r: Option<int>) {
    if t != [] && t[0] == '-' then
      match ParseUnsigned(t[1..])
      case None => None
      case Some(m) => Some(-(m as int))
    else if t != [] && t[0] == '+' then ParseUnsigned(t[1..])
    else ParseUnsigned(t)
  }

  /** parseInt after the sign: a "0x" or "0X" prefix selects radix 16, otherwise radix 10. */
  function ParseUnsigned(u: string): (r: Option<nat>) {
    if |u| >= 2 && u[0] == '0' && (u[1] == 'x' || u[1] == 'X') then ParseDigits(u[2..], 16)
    else ParseDigits(u, 10)
  }

  /** The value of the longest digit prefix, or NaN when there is none. */
  function ParseDigits(v: string, radix: nat): (r: Option<nat>)
    requires radix == 10 || radix == 16
  {
    var k := DigitRun(v, radix);
    if k == 0 then None else Some(DigitsValue(v[..k], radix))
  }

  function DecimalDigit(d: nat): (c: char)
    requires d < 10
    ensures IsDecimalDigit(c) && DigitValue(c) == d
  {
    ('0' as int + d) as char
  }

  /** The decimal text of a natural number, without leading zeros. */
  function NatToText(n: nat): (s: string)
    ensures s != []
    ensures forall i :: 0 <= i < |s| ==> IsDecimalDigit(s[i])
    ensures s[0] == '0' ==> n == 0
    decreases n
  {
    if n < 10 then [DecimalDigit(n)] else NatToText(n / 10) + [DecimalDigit(n % 10)]
  }

  /** String(n) for an integer-valued Number n. */
  function NumberToText(n: int): (s: string) {
    if n < 0 then "-" + NatToText(-n) else NatToText(n)
  }

  lemma {:induction false} NatToTextValue(n: nat)
    ensures DigitsValue(NatToText(n), 10) == n
    decreases n
  {
    var s := NatToText(n);
    if n >= 10 {
      NatToTextValue(n / 10);
      assert s[..|s| - 1] == NatToText(n / 10);
    }
  }

  /** The digit run of `ds + rest` is `ds` when `rest` does not go on with a digit. */
  lemma {:induction false} DigitRunStops(ds: string, rest: string, radix: nat)
    requires forall i :: 0 <= i < |ds| ==> IsDigitIn(ds[i], radix)
    requires rest == [] || !IsDigitIn(rest[0], radix)
    ensures DigitRun(ds + rest, radix) == |ds|
  {
    if ds != [] {
      assert (ds + rest)[1..] == ds[1..] + rest;
      DigitRunStops(ds[1..], rest, radix);
    }
  }

  /** A text that cannot extend a decimal number: empty, or not a digit and not the "x" of "0x". */
  predicate EndsNumber(suffix: string) {
    suffix == [] || (!IsDecimalDigit(suffix[0]) && suffix[0] != 'x' && suffix[0] != 'X')
  }

  /**
   * Reading back a number's text followed by a suffix that cannot extend it
   * (such as the display's "s") yields the number again.
   */
  lemma ParseNumberText(n: int, suffix: string)
    requires EndsNumber(suffix)
    ensures ParseInt(NumberToText(n) + suffix) == Some(n)
  {
    var m := if n < 0 then -n else n;
    var u := NatToText(m) + suffix;
    ParseNatText(m, suffix);
    var t := NumberToText(n) + suffix;
    if n < 0 {
      assert t == "-" + u;
      ParseNegated(u);
    } else {
      assert t == u;
      assert t[0] == NatToText(m)[0];
    }
    NoSpaceToTrim(t);
  }

  lemma NoSpaceToTrim(t: string)
    requires t != [] && !IsJsSpace(t[0])
    ensures TrimStart(t) == t
  {
  }

  lemma ParseNegated(u: string)
    requires ParseUnsigned(u).Some?
    ensures ParseSigned("-" + u) == Some(-(ParseUnsigned(u).value as int))
  {
    assert ("-" + u)[1..] == u;
  }

  lemma ParseNatText(m: nat, suffix: string)
    requires EndsNumber(suffix)
    ensures ParseUnsigned(NatToText(m) + suffix) == Some(m)
  {
    var ds := NatToText(m);
    var u := ds + suffix;
    if |u| >= 2 && u[0] == '0' {
      assert m == 0 && ds == "0";
      assert u[1] == suffix[0];
    }
    DigitRunStops(ds, suffix, 10);
    assert u[..|ds|] == ds;
    NatToTextValue(m);
    assert ParseDigits(u, 10) == Some(m);
  }

  /** Leading whitespace does not change what parseInt reads. */
  lemma SkipsLeadingSpace(w: string, s: string)
    requires forall i :: 0 <= i < |w| ==> IsJsSpace(w[i])
    ensures ParseInt(w + s) == ParseInt(s)
  {
    TrimStartAfterSpace(w, s);
  }

  lemma {:induction false} TrimStartAfterSpace(w: string, s: string)
    requires forall i :: 0 <= i < |w| ==> IsJsSpace(w[i])
    ensures TrimStart(w + s) == TrimStart(s)
  {
    if w != [] {
      assert (w + s)[0] == w[0];
      assert (w + s)[1..] == w[1..] + s;
      assert TrimStart(w + s) == TrimStart(w[1..] + s);
      TrimStartAfterSpace(w[1..], s);
    } else {
      assert w + s == s;
    }
  }
}
