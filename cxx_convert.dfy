/**
 * The two integer/text conversions of the C++ standard library that carry the
 * size token: `std::to_string(int)` on the encoder side and `std::stoi` (base
 * 10, C locale) on the decoder side. A C++ `int` is 32 bits wide.
 */
module CxxConvert {
  import opened Wrappers

  const INT_MIN: int := -0x8000_0000
  const INT_MAX: int := 0x7fff_ffff

  /** The values of a C++ `int`. */
  type int32 = x: int | INT_MIN <= x <= INT_MAX

  /** The two exceptions `std::stoi` throws. */
  datatype StoiError =
    | InvalidArgument  // std::invalid_argument: no digits to convert
    | OutOfRange       // std::out_of_range: the value does not fit in an int

  /** `isspace` in the C locale: space, \t, \n, \v, \f, \r. */
  predicate IsSpace(c: char) {
    c == ' ' || c == '\t' || c == '\n' || c as int == 0x0B || c as int == 0x0C || c == '\r'
  }

  predicate IsDigit(c: char) {
    '0' <= c <= '9'
  }

  predicate AllDigits(s: string) {
    forall i :: 0 <= i < |s| ==> IsDigit(s[i])
  }

  function DigitValue(c: char): nat
    requires IsDigit(c)
  {
    c as int - '0' as int
  }

  function DigitChar(d: nat): (c: char)
    requires d < 10
    ensures IsDigit(c) && DigitValue(c) == d
  {
    ('0' as int + d) as char
  }

  /** The number of leading white-space characters of `s`. */
  function SpaceRun(s: string): (n: nat)
    ensures n <= |s|
    ensures forall i :: 0 <= i < n ==> IsSpace(s[i])
    ensures n < |s| ==> !IsSpace(s[n])
  {
    if s != [] && IsSpace(s[0]) then 1 + SpaceRun(s[1..]) else 0
  }

  /** The number of leading decimal digits of `s`. */
  function DigitRun(s: string): (n: nat)
    ensures n <= |s|
    ensures AllDigits(s[..n])
    ensures n < |s| ==> !IsDigit(s[n])
  {
    if s != [] && IsDigit(s[0]) then
      var n := 1 + DigitRun(s[1..]);
      assert s[..n] == [s[0]] + s[1..][..n - 1];
      n
    else 0
  }

  /** The value of a string of decimal digits, most significant first. */
  function DigitsValue(ds: string): nat
    requires AllDigits(ds)
  {
    if ds == [] then 0 else 10 * DigitsValue(ds[..|ds| - 1]) + DigitValue(ds[|ds| - 1])
  }

  /**
   * `std::stoi(s)`: skip leading white space, read an optional sign and then
   * the longest run of digits; whatever follows the digits is ignored. No
   * digit at that point throws `invalid_argument`; a value outside the range
   * of `int` throws `out_of_range`.
   */
  function Stoi(s: string): (r: Result<int32, StoiError>)
    ensures (forall i :: 0 <= i < |s| ==> !IsDigit(s[i])) ==> r == Err(InvalidArgument)
    ensures s != [] && !IsSpace(s[0]) && !IsDigit(s[0]) && s[0] != '+' && s[0] != '-' ==>
              r == Err(InvalidArgument)
  {
    var start := SpaceRun(s);
    var negative := start < |s| && s[start] == '-';
    var signed := start < |s| && (s[start] == '+' || s[start] == '-');
    var digits := if signed then s[start + 1..] else s[start..];
    var n := DigitRun(digits);
    if n == 0 then Err(InvalidArgument)
    else
      assert digits[0] == s[if signed then start + 1 else start];
      var magnitude: int := DigitsValue(digits[..n]);
      var v := if negative then -magnitude else magnitude;
      if INT_MIN <= v <= INT_MAX then Ok(v) else Err(OutOfRange)
  }

  /** The decimal digits of `n`, without leading zeros. */
  function NatToDecimal(n: nat): (s: string)
    ensures s != [] && AllDigits(s)
    ensures DigitsValue(s) == n
    ensures n == 0 ==> s == "0"
    ensures n > 0 ==> s[0] != '0'
  {
    if n < 10 then [DigitChar(n)]
    else
      var s := NatToDecimal(n / 10) + [DigitChar(n % 10)];
      assert s[..|s| - 1] == NatToDecimal(n / 10);
      assert s[0] == NatToDecimal(n / 10)[0];
      s
  }

  /** `std::to_string(i)`: a minus sign for negative values, then the decimal digits. */
  function ToString(i: int): (s: string)
    ensures s != []
    ensures s[0] == '-' <==> i < 0
    ensures forall k :: 0 <= k < |s| ==> IsDigit(s[k]) || (k == 0 && s[k] == '-')
  {
    if i < 0 then "-" + NatToDecimal(-i) else NatToDecimal(i)
  }

  /** Characters that are neither digits nor '-' never occur in `to_string`'s output. */
  lemma ToStringAvoids(i: int, c: char)
    requires !IsDigit(c) && c != '-'
    ensures c !in ToString(i)
  {
  }

  lemma {:induction false} DigitRunOfDigits(ds: string, rest: string)
    requires AllDigits(ds)
    requires rest == [] || !IsDigit(rest[0])
    ensures DigitRun(ds + rest) == |ds|
  {
    if ds == [] {
      assert ds + rest == rest;
    } else {
      assert (ds + rest)[1..] == ds[1..] + rest;
      DigitRunOfDigits(ds[1..], rest);
    }
  }

  /**
   * Round trip: `std::stoi` reads back what `std::to_string` wrote, whatever
   * follows the number, as long as it does not start with another digit.
   */
  lemma {:induction false} StoiToString(i: int32, rest: string)
    requires rest == [] || !IsDigit(rest[0])
    ensures Stoi(ToString(i) + rest) == Ok(i)
  {
    var s := ToString(i) + rest;
    var m: int := i;
    var ds := NatToDecimal(if m < 0 then -m else m);
    assert s[0] == ToString(i)[0];
    assert SpaceRun(s) == 0;
    DigitRunOfDigits(ds, rest);
    if i < 0 {
      assert s[1..] == ds + rest;
    } else {
      assert s == ds + rest;
    }
    assert (ds + rest)[..|ds|] == ds;
  }

  /** `std::stoi` skips any run of leading white space. */
  lemma {:induction false} StoiSkipsSpaces(ws: string, t: string)
    requires forall i :: 0 <= i < |ws| ==> IsSpace(ws[i])
    ensures Stoi(ws + t) == Stoi(t)
  {
    if ws == [] {
      assert ws + t == t;
    } else {
      assert ws + t == [ws[0]] + (ws[1..] + t);
      StoiSkipsSpace(ws[0], ws[1..] + t);
      StoiSkipsSpaces(ws[1..], t);
    }
  }

  /**
   * What `std::stoi` yields once the sign is known and `ds` is the whole digit
   * run after it: `invalid_argument` without digits, the signed value when it
   * fits an `int`, `out_of_range` otherwise.
   */
  function DigitsResult(negative: bool, ds: string): Result<int32, StoiError>
    requires AllDigits(ds)
  {
    if ds == [] then Err(InvalidArgument)
    else
      var m: int := DigitsValue(ds);
      var v := if negative then -m else m;
      if INT_MIN <= v <= INT_MAX then Ok(v) else Err(OutOfRange)
  }

  /** `std::stoi` on a digit run and text that does not continue it, with nothing in front. */
  lemma StoiUnsigned(sign: string, ds: string, rest: string)
    requires sign == ""
    requires AllDigits(ds)
    requires rest == [] || !IsDigit(rest[0])
    requires ds == [] ==> rest == [] || (!IsSpace(rest[0]) && rest[0] != '+' && rest[0] != '-')
    ensures Stoi(sign + ds + rest) == DigitsResult(false, ds)
  {
    var t := ds + rest;
    assert sign + ds + rest == t;
    if ds != [] {
      assert t[0] == ds[0];
    } else {
      assert t == rest;
    }
    assert SpaceRun(t) == 0;
    DigitRunOfDigits(ds, rest);
    assert t[..|ds|] == ds;
  }

  /** `std::stoi` on a sign character, a digit run and text that does not continue it. */
  lemma StoiSigned(sign: string, ds: string, rest: string)
    requires sign == "+" || sign == "-"
    requires AllDigits(ds)
    requires rest == [] || !IsDigit(rest[0])
    ensures Stoi(sign + ds + rest) == DigitsResult(sign == "-", ds)
  {
    var t := sign + ds + rest;
    assert t[0] == sign[0];
    assert SpaceRun(t) == 0;
    assert t[1..] == ds + rest;
    DigitRunOfDigits(ds, rest);
    assert (ds + rest)[..|ds|] == ds;
  }

  /**
   * `std::stoi` on any text, split into its leading white space `ws`, an
   * optional sign, the digit run `ds` and whatever follows: the result
   * depends only on the sign and the digits, as `DigitsResult` says.
   */
  lemma StoiOfParts(ws: string, sign: string, ds: string, rest: string)
    requires forall i :: 0 <= i < |ws| ==> IsSpace(ws[i])
    requires sign == "" || sign == "+" || sign == "-"
    requires AllDigits(ds)
    requires rest == [] || !IsDigit(rest[0])
    requires sign == "" && ds == [] ==> rest == [] || (!IsSpace(rest[0]) && rest[0] != '+' && rest[0] != '-')
    ensures Stoi(ws + sign + ds + rest) == DigitsResult(sign == "-", ds)
  {
    var t := sign + ds + rest;
    assert ws + sign + ds + rest == ws + t;
    StoiSkipsSpaces(ws, t);
    if sign == "" {
      StoiUnsigned(sign, ds, rest);
    } else {
      StoiSigned(sign, ds, rest);
    }
  }

  /** A sign followed by no digit is an invalid argument. */
  lemma StoiSignWithoutDigits()
    ensures Stoi("-.5") == Err(InvalidArgument)
  {
    StoiOfParts("", "-", "", ".5");
    assert "" + "-" + "" + ".5" == "-.5";
  }

  /** The decimal text of a value outside the range of `int` is out of range, on either side. */
  lemma StoiOfToStringOutOfRange(i: int)
    requires i < INT_MIN || INT_MAX < i
    ensures Stoi(ToString(i)) == Err(OutOfRange)
  {
    if i < 0 {
      var ds := NatToDecimal(-i);
      StoiOfParts("", "-", ds, "");
      assert "" + "-" + ds + "" == ToString(i);
    } else {
      var ds := NatToDecimal(i);
      StoiOfParts("", "", ds, "");
      assert "" + "" + ds + "" == ToString(i);
    }
  }

  /** `std::stoi` skips a leading white-space character. */
  lemma StoiSkipsSpace(c: char, s: string)
    requires IsSpace(c)
    ensures Stoi([c] + s) == Stoi(s)
  {
    assert ([c] + s)[1..] == s;
    assert SpaceRun([c] + s) == 1 + SpaceRun(s);
    var k := SpaceRun(s);
    assert ([c] + s)[1 + k..] == s[k..];
  }
}
