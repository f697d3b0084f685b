/** ECMAScript `parseInt(string)` with no radix argument, over exact
    integers: skip leading white space, take an optional sign, switch to
    base 16 after a `0x`/`0X` prefix, then read the longest run of digits of
    the base. No digits gives NaN, modelled as `None`. */
module JsParseInt {
  import opened Wrappers
  import opened JsText
  import opened Seqs

  predicate IsDecimalDigit(c: char) {
    '0' <= c <= '9'
  }

  /** The value of `c` as a digit of base `radix` (10 or 16), if it is one. */
  function DigitValue(c: char, radix: nat): (r: Option<nat>)
    requires radix == 10 || radix == 16
    ensures r.Some? ==> r.value < radix
    ensures radix == 10 ==> (r.Some? <==> IsDecimalDigit(c))
  {
    if '0' <= c <= '9' then Some(c as int - '0' as int)
    else if radix == 16 && 'a' <= c <= 'f' then Some(c as int - 'a' as int + 10)
    else if radix == 16 && 'A' <= c <= 'F' then Some(c as int - 'A' as int + 10)
    else None
  }

  predicate AllDigits(s: string, radix: nat)
    requires radix == 10 || radix == 16
  {
    forall i :: 0 <= i < |s| ==> DigitValue(s[i], radix).Some?
  }

  /** The length of the longest prefix of `s` made of digits of `radix`. */
  function DigitRun(s: string, radix: nat): (n: nat)
    requires radix == 10 || radix == 16
    ensures n <= |s|
    ensures AllDigits(s[..n], radix)
    ensures n < |s| ==> DigitValue(s[n], radix).None?
    decreases |s|
  {
    if |s| > 0 && DigitValue(s[0], radix).Some? then 1 + DigitRun(s[1..], radix) else 0
  }

  /** The value of a string of digits in base `radix`, most significant first. */
  function DigitsValue(s: string, radix: nat): nat
    requires radix == 10 || radix == 16
    requires AllDigits(s, radix)
    decreases |s|
  {
    if |s| == 0 then 0
    else DigitsValue(s[..|s| - 1], radix) * radix + DigitValue(s[|s| - 1], radix).value
  }

  /** `u` starts with `0x` or `0X`. */
  predicate HexPrefix(u: string) {
    |u| >= 2 && u[0] == '0' && (u[1] == 'x' || u[1] == 'X')
  }

  /** The unsigned part: an optional `0x`/`0X` prefix selecting base 16,
      then the longest run of digits; no digits gives NaN. */
  function Magnitude(u: string): Option<nat> {
    var hex := HexPrefix(u);
    var radix := if hex then 16 else 10;
    var v := if hex then u[2..] else u;
    var n := DigitRun(v, radix);
    if n == 0 then None else Some(DigitsValue(v[..n], radix))
  }

  /** The optional sign, then the magnitude. */
  function Signed(t: string): Option<int> {
    if |t| > 0 && t[0] == '-' then
      match Magnitude(t[1..])
      case None => None
      case Some(m) => Some(-(m as int))
    else if |t| > 0 && t[0] == '+' then
      match Magnitude(t[1..])
      case None => None
      case Some(m) => Some(m)
    else
      match Magnitude(t)
      case None => None
      case Some(m) => Some(m)
  }

  /** `parseInt(s)`; `None` stands for NaN. */
  function ParseInt(s: string): Option<int> {
    Signed(TrimStart(s))
  }

  /** `parseInt(s) || 0`: NaN and both zeros become 0. */
  function ParseIntOrZero(s: string): int {
    ParseInt(s).GetOr(0)
  }

  // ---------------------------------------------------------------------
  // The shape of the text after its white space and sign

  /** What follows the leading white space and one optional `+` or `-`. */
  function Unsigned(s: string): string {
    var t := TrimStart(s);
    if |t| > 0 && (t[0] == '+' || t[0] == '-') then t[1..] else t
  }

  /** The first character after the leading white space is `-`. */
  predicate MinusSign(s: string) {
    var t := TrimStart(s);
    |t| > 0 && t[0] == '-'
  }

  /** `m` with the sign written in `s`. */
  function WithSign(s: string, m: nat): int {
    if MinusSign(s) then -(m as int) else m
  }

  /** No decimal digit follows the white space and the sign. */
  predicate NoNumber(s: string) {
    var u := Unsigned(s);
    |u| == 0 || !IsDecimalDigit(u[0])
  }

  /** The value of the longest run of base-`radix` digits at the start of
      `v`; 0 when there is none. */
  function LeadingValue(v: string, radix: nat): nat
    requires radix == 10 || radix == 16
  {
    DigitsValue(v[..DigitRun(v, radix)], radix)
  }

  /** Text with no digit after its white space and sign is NaN, and
      `parseInt(s) || 0` makes that 0: "Fresher", "", "-", "+ 5". */
  lemma ParseIntNoNumber(s: string)
    requires NoNumber(s)
    ensures ParseInt(s) == None
    ensures ParseIntOrZero(s) == 0
  {
    var u := Unsigned(s);
    assert !HexPrefix(u);
    assert DigitRun(u, 10) == 0;
    assert Magnitude(u) == None;
  }

  /** Text with decimal digits after its white space and sign, and no `0x`
      prefix, reads as the longest such digit run with that sign:
      "05 years" is 5, "+5 yrs" is 5, "-3 years" is -3. */
  lemma ParseIntDecimal(s: string)
    requires !NoNumber(s) && !HexPrefix(Unsigned(s))
    ensures ParseInt(s) == Some(WithSign(s, LeadingValue(Unsigned(s), 10)))
  {
    var u := Unsigned(s);
    assert DigitRun(u, 10) > 0;
    assert Magnitude(u) == Some(LeadingValue(u, 10));
  }

  /** After a `0x` prefix the text is read in base 16: "0x1A" is 26, and
      "0x" alone is NaN. */
  lemma ParseIntHex(s: string)
    requires HexPrefix(Unsigned(s))
    ensures var v := Unsigned(s)[2..];
            ParseInt(s) == if DigitRun(v, 16) == 0 then None else Some(WithSign(s, LeadingValue(v, 16)))
    ensures ParseIntOrZero(s) == WithSign(s, LeadingValue(Unsigned(s)[2..], 16))
  {
    var u := Unsigned(s);
    var v := u[2..];
    if DigitRun(v, 16) == 0 {
      assert Magnitude(u) == None;
      assert v[..0] == "";
    } else {
      assert Magnitude(u) == Some(LeadingValue(v, 16));
    }
  }

  /** The character of a decimal digit. */
  function DigitChar(d: nat): (c: char)
    requires d < 10
    ensures IsDecimalDigit(c) && DigitValue(c, 10) == Some(d)
  {
    ('0' as int + d) as char
  }

  /** The decimal numeral of a natural number, without leading zeros. */
  function NatToString(n: nat): (s: string)
    ensures |s| >= 1 && AllDigits(s, 10)
    ensures |s| > 1 ==> s[0] != '0'
    decreases n
  {
    if n < 10 then [DigitChar(n)] else NatToString(n / 10) + [DigitChar(n % 10)]
  }

  /** `String(n)` for an integer `n`. */
  function IntToString(n: int): string {
    if n < 0 then "-" + NatToString(-n) else NatToString(n)
  }

  /** Reading a numeral back gives the number. */
  lemma {:induction false} NatToStringValue(n: nat)
    ensures DigitsValue(NatToString(n), 10) == n
    decreases n
  {
    var s := NatToString(n);
    if n >= 10 {
      NatToStringValue(n / 10);
      assert s[..|s| - 1] == NatToString(n / 10);
    }
  }

  /** The digit run of a digit string followed by a non-digit is the digit string. */
  lemma {:induction false} DigitRunOfPrefix(d: string, rest: string, radix: nat)
    requires radix == 10 || radix == 16
    requires AllDigits(d, radix)
    requires |rest| == 0 || DigitValue(rest[0], radix).None?
    ensures DigitRun(d + rest, radix) == |d|
    decreases |d|
  {
    if |d| > 0 {
      assert (d + rest)[1..] == d[1..] + rest;
      DigitRunOfPrefix(d[1..], rest, radix);
    } else {
      assert d + rest == rest;
    }
  }

  /** A decimal digit string with no `x` after its first character reads
      as its decimal value. */
  lemma MagnitudeOfDigits(d: string, rest: string)
    requires |d| >= 1 && AllDigits(d, 10)
    requires |rest| == 0 || !IsDecimalDigit(rest[0])
    requires |d| == 1 && d[0] == '0' ==> |rest| == 0 || (rest[0] != 'x' && rest[0] != 'X')
    ensures Magnitude(d + rest) == Some(DigitsValue(d, 10))
  {
    var u := d + rest;
    NoHexPrefix(d, rest);
    DigitRunOfPrefix(d, rest, 10);
    assert u[..|d|] == d;
  }

  /** A digit string followed by text that is not `x` after a lone "0"
      does not start with a hexadecimal prefix. */
  lemma NoHexPrefix(d: string, rest: string)
    requires |d| >= 1 && AllDigits(d, 10)
    requires |d| == 1 && d[0] == '0' ==> |rest| == 0 || (rest[0] != 'x' && rest[0] != 'X')
    ensures !HexPrefix(d + rest)
  {
    var u := d + rest;
    if |d| >= 2 {
      assert u[1] == d[1];
      assert DigitValue(d[1], 10).Some?;
    } else if |rest| > 0 {
      assert u[1] == rest[0];
    }
  }

  /** A digit string reads as its own decimal value. */
  lemma ParseDigits(d: string)
    requires AllDigits(d, 10)
    ensures ParseIntOrZero(d) == DigitsValue(d, 10)
  {
    if |d| > 0 {
      assert IsDecimalDigit(d[0]);
      SignedDigit(d);
      MagnitudeOfDigits(d, "");
      assert d + "" == d;
      assert ParseInt(d) == Some(DigitsValue(d, 10) as int);
    }
  }

  /** Text that ends the numeral of `n` when it follows it: it does not
      start with a digit, and after "0" it does not start with `x` or `X`. */
  predicate EndsNumeral(n: int, rest: string) {
    && (|rest| == 0 || !IsDecimalDigit(rest[0]))
    && (n == 0 ==> |rest| == 0 || (rest[0] != 'x' && rest[0] != 'X'))
  }

  /** `parseInt` inverts `String` on integers, even when the numeral is
      followed by text such as " Years of experience" -- unless the text
      starts with a digit, or the number is 0 and the text starts with `x`,
      which turns "0x..." into a hexadecimal literal. */
  lemma ParseIntToString(n: int, rest: string)
    requires EndsNumeral(n, rest)
    ensures ParseInt(IntToString(n) + rest) == Some(n)
  {
    if n < 0 {
      var m: nat := -n;
      var d := NatToString(m);
      assert IntToString(n) == "-" + d;
      assert ("-" + d) + rest == "-" + (d + rest);
      ParseNegative(m, rest);
    } else {
      assert IntToString(n) == NatToString(n);
      ParseNonNegative(n, rest);
    }
  }

  lemma ParseNonNegative(m: nat, rest: string)
    requires |rest| == 0 || !IsDecimalDigit(rest[0])
    requires m == 0 ==> |rest| == 0 || (rest[0] != 'x' && rest[0] != 'X')
    ensures ParseInt(NatToString(m) + rest) == Some(m)
  {
    var d := NatToString(m);
    NatToStringValue(m);
    MagnitudeOfDigits(d, rest);
    assert (d + rest)[0] == d[0];
    SignedDigit(d + rest);
  }

  lemma ParseNegative(m: nat, rest: string)
    requires m > 0
    requires |rest| == 0 || !IsDecimalDigit(rest[0])
    ensures ParseInt("-" + (NatToString(m) + rest)) == Some(-(m as int))
  {
    var d := NatToString(m);
    NatToStringValue(m);
    MagnitudeOfDigits(d, rest);
    SignedNegative(d + rest);
  }

  lemma SignedNegative(x: string)
    ensures Signed("-" + x) == match Magnitude(x) case None => None case Some(m) => Some(-(m as int))
    ensures TrimStart("-" + x) == "-" + x
  {
    assert ("-" + x)[1..] == x;
  }

  lemma SignedDigit(x: string)
    requires |x| > 0 && IsDecimalDigit(x[0])
    ensures Signed(x) == match Magnitude(x) case None => None case Some(m) => Some(m as int)
    ensures TrimStart(x) == x
  {
    assert !IsSpace(x[0]);
    assert x[0] != '-' && x[0] != '+';
  }

  /** `parseInt(x) || 0` of white space, an integer's numeral and text that
      ends it is that integer. */
  lemma ParseNumeralOrZero(w: string, n: int, rest: string)
    requires Blank(w) && EndsNumeral(n, rest)
    ensures ParseIntOrZero(w + IntToString(n) + rest) == n
  {
    var x := IntToString(n) + rest;
    AppendAssoc(w, IntToString(n), rest);
    ParseIntToString(n, rest);
    ParseIntSkipsSpace(w, x);
    assert ParseInt(w + x) == Some(n);
  }

  /** Leading white space is dropped by the trim. */
  lemma {:induction false} TrimStartSkipsSpace(w: string, s: string)
    requires Blank(w)
    ensures TrimStart(w + s) == TrimStart(s)
    decreases |w|
  {
    if |w| > 0 {
      assert (w + s)[1..] == w[1..] + s;
      TrimStartSkipsSpace(w[1..], s);
    } else {
      assert w + s == s;
    }
  }

  /** Leading white space does not change the result. */
  lemma ParseIntSkipsSpace(w: string, s: string)
    requires Blank(w)
    ensures ParseInt(w + s) == ParseInt(s)
  {
    TrimStartSkipsSpace(w, s);
  }
}
