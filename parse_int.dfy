/** JavaScript's `parseInt(string, 10)`, which the form view applies to the
    `limit` attribute of a sub-view's arch.

    `parseInt` skips leading white space, reads an optional sign, then the
    longest run of decimal digits; with no digit it yields `NaN`. Here `NaN` is
    `None`, and the result is an unbounded integer (`-0` is `0`; both are
    falsy in JavaScript, which is all the callers look at).
 */
module ParseInt {
  import opened JsValues

  /** ECMAScript WhiteSpace and LineTerminator characters, which `parseInt`
      skips before the number. */
  predicate IsJsSpace(c: char) {
    || c == '\t' || c == '\U{000B}' || c == '\U{000C}' || c == ' '
    || c == '\U{00A0}' || c == '\U{FEFF}' || c == '\U{1680}'
    || ('\U{2000}' <= c <= '\U{200A}')
    || c == '\U{202F}' || c == '\U{205F}' || c == '\U{3000}'
    || c == '\n' || c == '\r' || c == '\U{2028}' || c == '\U{2029}'
  }

  predicate IsDigit(c: char) {
    '0' <= c <= '9'
  }

  predicate AllDigits(z: string) {
    forall k :: 0 <= k < |z| ==> IsDigit(z[k])
  }

  predicate AllSpaces(pad: string) {
    forall k :: 0 <= k < |pad| ==> IsJsSpace(pad[k])
  }

  /** The text left after the leading white space. */
  function TrimStart(s: string): (t: string)
    ensures |t| <= |s| && t == s[|s| - |t|..]
    ensures AllSpaces(s[..|s| - |t|])
    ensures t == [] || !IsJsSpace(t[0])
  {
    if s != [] && IsJsSpace(s[0]) then TrimStart(s[1..]) else s
  }

  /** The text after an optional leading sign. */
  function Unsigned(t: string): (u: string)
    ensures |u| <= |t|
  {
    if t != [] && (t[0] == '-' || t[0] == '+') then t[1..] else t
  }

  /** The longest prefix made of decimal digits. */
  function DigitPrefix(s: string): (z: string)
    ensures |z| <= |s| && z == s[..|z|]
    ensures AllDigits(z)
    ensures |z| == |s| || !IsDigit(s[|z|])
  {
    if s != [] && IsDigit(s[0]) then [s[0]] + DigitPrefix(s[1..]) else []
  }

  function DigitValue(c: char): nat
    requires IsDigit(c)
  {
    c as int - '0' as int
  }

  function DigitChar(d: nat): (c: char)
    requires d < 10
    ensures IsDigit(c) && DigitValue(c) == d
  {
    ('0' as int + d) as char
  }

  /** The number a run of decimal digits denotes, most significant first. */
  function DigitsValue(z: string): nat
    requires AllDigits(z)
  {
    if z == [] then 0 else DigitsValue(z[..|z| - 1]) * 10 + DigitValue(z[|z| - 1])
  }

  /** The canonical decimal spelling of a natural number. */
  function Decimal(n: nat): (z: string)
    ensures z != [] && AllDigits(z)
  {
    if n < 10 then [DigitChar(n)] else Decimal(n / 10) + [DigitChar(n % 10)]
  }

  /** `parseInt(s, 10)`; `None` stands for `NaN`. */
  function ParseInt10(s: string): (r: Option<int>)
  {
    ParseSigned(TrimStart(s))
  }

  /** The number at the start of `t`, which has no leading white space. */
  function ParseSigned(t: string): (r: Option<int>)
  {
    var z := DigitPrefix(Unsigned(t));
    if z == [] then None
    else if t[0] == '-' then Some(0 - DigitsValue(z))
    else Some(DigitsValue(z))
  }

  lemma {:induction false} DigitsValueOfDecimal(n: nat)
    ensures DigitsValue(Decimal(n)) == n
  {
    if n >= 10 {
      var z := Decimal(n);
      assert z[..|z| - 1] == Decimal(n / 10);
      DigitsValueOfDecimal(n / 10);
    }
  }

  lemma {:induction false} DigitPrefixOfDigits(z: string, rest: string)
    requires AllDigits(z)
    requires rest == [] || !IsDigit(rest[0])
    ensures DigitPrefix(z + rest) == z
  {
    if z != [] {
      assert (z + rest)[1..] == z[1..] + rest;
      DigitPrefixOfDigits(z[1..], rest);
    }
  }

  lemma {:induction false} TrimStartOfPadded(pad: string, t: string)
    requires AllSpaces(pad)
    requires t == [] || !IsJsSpace(t[0])
    ensures TrimStart(pad + t) == t
  {
    if pad != [] {
      assert (pad + t)[1..] == pad[1..] + t;
      TrimStartOfPadded(pad[1..], t);
    }
  }

  lemma TrimStartOfSigned(pad: string, sign: string, u: string)
    requires AllSpaces(pad)
    requires sign == "" || sign == "+" || sign == "-"
    requires sign == "" && u != [] ==> !IsJsSpace(u[0])
    ensures TrimStart(pad + sign + u) == sign + u
  {
    assert pad + sign + u == pad + (sign + u);
    TrimStartOfPadded(pad, sign + u);
  }

  lemma UnsignedOfSigned(sign: string, u: string)
    requires sign == "" || sign == "+" || sign == "-"
    requires sign == "" && u != [] ==> u[0] != '-' && u[0] != '+'
    ensures Unsigned(sign + u) == u
    ensures (sign + u != [] && (sign + u)[0] == '-') <==> sign == "-"
  {
  }

  lemma ParseIntFromParts(s: string, t: string, z: string)
    requires TrimStart(s) == t && DigitPrefix(Unsigned(t)) == z && z != []
    ensures ParseInt10(s) == Some(if t[0] == '-' then 0 - DigitsValue(z) else DigitsValue(z))
  {
    assert ParseInt10(s) == ParseSigned(t);
  }

  lemma TrimStartOfParts(pad: string, sign: string, z: string, rest: string)
    requires AllSpaces(pad)
    requires sign == "" || sign == "+" || sign == "-"
    requires z != [] && AllDigits(z)
    ensures TrimStart(pad + sign + z + rest) == sign + (z + rest)
  {
    assert pad + sign + z + rest == pad + sign + (z + rest);
    assert IsDigit((z + rest)[0]);
    TrimStartOfSigned(pad, sign, z + rest);
  }

  lemma DigitPrefixOfParts(sign: string, z: string, rest: string)
    requires sign == "" || sign == "+" || sign == "-"
    requires z != [] && AllDigits(z)
    requires rest == [] || !IsDigit(rest[0])
    ensures DigitPrefix(Unsigned(sign + (z + rest))) == z
    ensures (sign + (z + rest))[0] == '-' <==> sign == "-"
  {
    assert IsDigit((z + rest)[0]);
    UnsignedOfSigned(sign, z + rest);
    DigitPrefixOfDigits(z, rest);
  }

  /** `parseInt` reads the value of a digit run that follows any leading
      white space and sign and that is not followed by another digit. */
  lemma ParseIntOfDigits(pad: string, sign: string, z: string, rest: string)
    requires AllSpaces(pad)
    requires sign == "" || sign == "+" || sign == "-"
    requires z != [] && AllDigits(z)
    requires rest == [] || !IsDigit(rest[0])
    ensures ParseInt10(pad + sign + z + rest) == Some(if sign == "-" then 0 - DigitsValue(z) else DigitsValue(z))
  {
    TrimStartOfParts(pad, sign, z, rest);
    DigitPrefixOfParts(sign, z, rest);
    ParseIntFromParts(pad + sign + z + rest, sign + (z + rest), z);
  }

  /** Round trip: `parseInt` reads back a number written in decimal, after any
      leading white space and sign and before any text that does not start
      with a digit. */
  lemma ParseIntOfDecimal(pad: string, sign: string, n: nat, rest: string)
    requires AllSpaces(pad)
    requires sign == "" || sign == "+" || sign == "-"
    requires rest == [] || !IsDigit(rest[0])
    ensures ParseInt10(pad + sign + Decimal(n) + rest) == Some(if sign == "-" then 0 - n else n)
  {
    ParseIntOfDigits(pad, sign, Decimal(n), rest);
    DigitsValueOfDecimal(n);
  }

  /** Without a digit after the white space and the sign, the result is
      `NaN`. */
  lemma ParseIntNoDigit(pad: string, sign: string, rest: string)
    requires AllSpaces(pad)
    requires sign == "" || sign == "+" || sign == "-"
    requires rest == [] || !IsDigit(rest[0])
    requires sign == "" && rest != [] ==> !IsJsSpace(rest[0]) && rest[0] != '-' && rest[0] != '+'
    ensures ParseInt10(pad + sign + rest) == None
  {
    TrimStartOfSigned(pad, sign, rest);
    UnsignedOfSigned(sign, rest);
  }
}
