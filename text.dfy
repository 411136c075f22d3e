/** Character classes, `String.prototype.trim`, and the decimal digit strings that the
    validators' `/^\d+$/` test accepts together with their `parseInt(_, 10)` value. */
module Text {

  /** JavaScript's WhiteSpace and LineTerminator code points: the characters `trim()` removes
      and `Number()` ignores around a numeral. */
  predicate IsSpace(c: char) {
    var k := c as int;
    (9 <= k <= 13) || k == 0x20 || k == 0xA0 || k == 0x1680 || (0x2000 <= k <= 0x200A)
    || k == 0x2028 || k == 0x2029 || k == 0x202F || k == 0x205F || k == 0x3000 || k == 0xFEFF
  }

  /** Every character of `s` is white space (the empty string included). */
  predicate IsBlank(s: string) {
    forall i :: 0 <= i < |s| ==> IsSpace(s[i])
  }

  /** Drops leading white space. */
  function TrimStart(s: string): string {
    if s != [] && IsSpace(s[0]) then TrimStart(s[1..]) else s
  }

  /** Drops trailing white space. */
  function TrimEnd(s: string): string {
    if s != [] && IsSpace(s[|s| - 1]) then TrimEnd(s[..|s| - 1]) else s
  }

  /** `TrimStart(s)` is the suffix of `s` that starts at its first non-space character. */
  lemma {:induction false} TrimStartShape(s: string)
    ensures var r := TrimStart(s);
      && |r| <= |s| && r == s[|s| - |r|..]
      && IsBlank(s[..|s| - |r|])
      && (r == [] || !IsSpace(r[0]))
  {
    if s != [] && IsSpace(s[0]) {
      TrimStartShape(s[1..]);
      var r := TrimStart(s);
      assert s[..|s| - |r|] == [s[0]] + s[1..][..|s| - 1 - |r|];
    }
  }

  /** `TrimEnd(s)` is the prefix of `s` that ends at its last non-space character. */
  lemma {:induction false} TrimEndShape(s: string)
    ensures var r := TrimEnd(s);
      && |r| <= |s| && r == s[..|r|]
      && IsBlank(s[|r|..])
      && (r == [] || !IsSpace(r[|r| - 1]))
  {
    if s != [] && IsSpace(s[|s| - 1]) {
      TrimEndShape(s[..|s| - 1]);
      var r := TrimEnd(s);
      assert s[|r|..] == s[..|s| - 1][|r|..] + [s[|s| - 1]];
    }
  }

  /** `s.trim()` */
  function Trim(s: string): string {
    TrimEnd(TrimStart(s))
  }

  /** `s.trim().length !== 0`: the test every "non-empty string" check of the middleware uses. */
  predicate HasText(s: string) {
    |Trim(s)| != 0
  }

  /** A string trims to nothing exactly when it is blank, so `HasText` rejects every
      whitespace-only string and accepts every string with a visible character. */
  lemma TrimEmptyIffBlank(s: string)
    ensures Trim(s) == [] <==> IsBlank(s)
  {
    var t := TrimStart(s);
    TrimStartShape(s);
    TrimEndShape(t);
    if Trim(s) == [] {
      assert IsBlank(t[0..]);
      assert t == [];
      assert s == s[..|s| - |t|];
    } else {
      var r := Trim(s);
      assert r == t[..|r|];
      assert !IsSpace(s[|s| - |t|]);
    }
  }

  predicate IsDigit(c: char) {
    '0' <= c <= '9'
  }

  /** `/^\d+$/.test(s)`: non-empty and made of ASCII digits only. */
  predicate IsDigits(s: string) {
    |s| > 0 && forall i :: 0 <= i < |s| ==> IsDigit(s[i])
  }

  function DigitValue(c: char): (d: nat)
    requires IsDigit(c)
    ensures d < 10
  {
    (c as int) - ('0' as int)
  }

  function DigitChar(d: nat): (c: char)
    requires d < 10
    ensures IsDigit(c) && DigitValue(c) == d
  {
    ('0' as int + d) as char
  }

  /** `parseInt(s, 10)` of a digit string: its value in base ten, leading zeros allowed. */
  function DecimalValue(s: string): nat
    requires forall i :: 0 <= i < |s| ==> IsDigit(s[i])
  {
    if s == [] then 0 else 10 * DecimalValue(s[..|s| - 1]) + DigitValue(s[|s| - 1])
  }

  /** The canonical base-ten spelling of `n`: no leading zero, no exponent. */
  function Show(n: nat): (s: string)
    ensures IsDigits(s)
    ensures |s| > 1 ==> s[0] != '0'
  {
    if n < 10 then [DigitChar(n)] else Show(n / 10) + [DigitChar(n % 10)]
  }

  /** A digit string with no white space around it trims to itself. */
  lemma TrimDigits(s: string)
    requires IsDigits(s)
    ensures Trim(s) == s
  {
    assert !IsSpace(s[0]) && !IsSpace(s[|s| - 1]);
  }

  /** Reading back a number that was spelled out gives the number. */
  lemma {:induction false} DecimalValueOfShow(n: nat)
    ensures DecimalValue(Show(n)) == n
  {
    if n >= 10 {
      var s := Show(n);
      assert s[..|s| - 1] == Show(n / 10);
      DecimalValueOfShow(n / 10);
    }
  }

  /** 10^21: from here on `String(n)` writes a number in exponent form. */
  const ExponentThreshold: nat := 1_000_000_000_000_000_000_000

  /** 10^21 - 2^16: the least integer that `parseInt` rounds to 1e21. Doubles just below
      10^21 lie 2^17 apart and 10^21 is one of them, so every integer within 2^16 under it
      (the tie included, as 10^21 has the even significand) rounds up to it. */
  const PlainDigitsBound: nat := ExponentThreshold - 65536

  /** Drops the zeros at the end of a digit string. */
  function DropTrailingZeros(s: string): string {
    if s != [] && s[|s| - 1] == '0' then DropTrailingZeros(s[..|s| - 1]) else s
  }

  /** The exponent form of `n`: its first digit, its other significant digits after a point,
      then `e+` and the exponent ("1e+21", "1.5e+22"). */
  function ExponentForm(n: nat): string {
    var d := Show(n);
    var rest := DropTrailingZeros(d[1..]);
    [d[0]] + (if rest == [] then "" else "." + rest) + "e+" + Show(|d| - 1)
  }

  /** `String(parseInt(Show(n)))`: the text of the number a validator stores for the digit
      value `n`. Plain digits below `PlainDigitsBound`; "1e+21" from there up to 10^21, as
      those values are stored as the double 1e21; exponent form from 10^21 on. */
  function NumberText(n: nat): string {
    if n < PlainDigitsBound then Show(n)
    else if n < ExponentThreshold then "1e+21"
    else ExponentForm(n)
  }

  /** The text of a stored number passes `/^\d+$/` exactly below `PlainDigitsBound`, and
      then reads back as the number. */
  lemma NumberTextReadsBack(n: nat)
    ensures IsDigits(NumberText(n)) <==> n < PlainDigitsBound
    ensures n < PlainDigitsBound ==> DecimalValue(NumberText(n)) == n
  {
    if n < PlainDigitsBound {
      DecimalValueOfShow(n);
    } else if n < ExponentThreshold {
      assert NumberText(n)[1] == 'e';
    } else {
      var d := Show(n);
      var rest := DropTrailingZeros(d[1..]);
      var m := [d[0]] + (if rest == [] then "" else "." + rest);
      assert NumberText(n) == m + "e+" + Show(|d| - 1);
      assert NumberText(n)[|m|] == 'e';
    }
  }
}
