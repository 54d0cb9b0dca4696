/**
  Port numbers as the scaffolding tool handles them: JavaScript numbers
  that are either integers or `NaN`, written out with `String(n)` and read
  back with `parseInt`.
*/
module Decimal {
  import opened Wrappers
  import opened Text

  /** A port as a JavaScript number: an integer, or `NaN` when no counter could be read. */
  datatype Port = Num(n: int) | NaN

  /** `port + 1`; `NaN + 1` is `NaN`. */
  function Next(p: Port): (r: Port)
    ensures r.Num? <==> p.Num?
    ensures r.Num? ==> r.n == p.n + 1
  {
    match p
    case Num(n) => Num(n + 1)
    case NaN => NaN
  }

  function DigitChar(d: nat): (c: char)
    requires d < 10
    ensures IsDigit(c)
  {
    ('0' as int + d) as char
  }

  /** The value of a character as a digit in bases up to 36, as `parseInt` reads it. */
  function DigitValue(c: char): nat
  {
    if '0' <= c <= '9' then c as int - '0' as int
    else if 'a' <= c <= 'z' then c as int - 'a' as int + 10
    else if 'A' <= c <= 'Z' then c as int - 'A' as int + 10
    else 36
  }

  /** The number a string of base-`radix` digits denotes, most significant first. */
  function ValueIn(s: string, radix: nat): nat
  {
    if |s| == 0 then 0 else ValueIn(s[..|s| - 1], radix) * radix + DigitValue(s[|s| - 1])
  }

  /** `String(n)` for a non-negative integer: decimal digits without leading zeros. */
  function NatToDecimal(n: nat): (s: string)
    ensures |s| >= 1 && AllDigits(s)
    ensures |s| > 1 ==> s[0] != '0'
  {
    if n < 10 then [DigitChar(n)] else NatToDecimal(n / 10) + [DigitChar(n % 10)]
  }

  /** Reading back the decimal text of a number gives the number. */
  lemma {:induction false} DecimalRoundTrip(n: nat)
    ensures ValueIn(NatToDecimal(n), 10) == n
  {
    if n >= 10 {
      var s := NatToDecimal(n);
      assert s[..|s| - 1] == NatToDecimal(n / 10);
      DecimalRoundTrip(n / 10);
    }
  }

  /** `String(port)`: the text a template literal gives for the port. */
  function PortText(p: Port): (s: string)
    ensures p.NaN? <==> s == "NaN"
    ensures p.Num? && p.n >= 0 ==> AllDigits(s)
  {
    match p
    case NaN => "NaN"
    case Num(n) =>
      if n < 0 then
        var d := NatToDecimal(-n);
        assert ("-" + d)[1] == d[0];
        "-" + d
      else NatToDecimal(n)
  }

  /** Longest prefix of `s` made of base-`radix` digits. */
  function DigitPrefix(s: string, radix: nat): (k: nat)
    ensures k <= |s|
    ensures forall i :: 0 <= i < k ==> DigitValue(s[i]) < radix
    ensures k == |s| || DigitValue(s[k]) >= radix
  {
    RunEnd(s, 0, c => DigitValue(c) < radix)
  }

  /**
    `parseInt(s)` with no radix: leading white space is skipped, one sign
    is read, a `0x`/`0X` prefix selects base 16, and the longest run of
    digits that follows is the value; no digits gives `NaN`.
  */
  function ParseInt(s: string): (r: Port)
    ensures (forall i :: 0 <= i < |s| ==> !IsDigit(s[i])) ==> r == NaN
  {
    var t := TrimStart(s);
    var negative := |t| > 0 && t[0] == '-';
    var u := if |t| > 0 && (t[0] == '-' || t[0] == '+') then t[1..] else t;
    var hex := |u| >= 2 && u[0] == '0' && (u[1] == 'x' || u[1] == 'X');
    var radix := if hex then 16 else 10;
    var body := if hex then u[2..] else u;
    var k := DigitPrefix(body, radix);
    if k == 0 then NaN
    else
      var v := ValueIn(body[..k], radix);
      Num(if negative then -(v as int) else v)
  }

  /** `parseInt(process.env.X)`: an unset variable reads as `NaN`. */
  function ParseEnv(v: Option<string>): (r: Port)
    ensures v.None? ==> r == NaN
    ensures v.Some? && |v.value| > 0 && AllDigits(v.value) ==> r == Num(ValueIn(v.value, 10))
  {
    match v
    case None => NaN
    case Some(s) =>
      if |s| > 0 && AllDigits(s) then ParseIntOfDigits(s); ParseInt(s)
      else ParseInt(s)
  }

  /** `parseInt` reads back every port the tool writes. */
  lemma ParseIntOfPortText(n: nat)
    ensures ParseInt(PortText(Num(n))) == Num(n)
  {
    ParseIntOfDigits(NatToDecimal(n));
    DecimalRoundTrip(n);
  }

  /** `parseInt` of a digit string is its non-negative decimal value. */
  lemma ParseIntOfDigits(d: string)
    requires |d| > 0 && AllDigits(d)
    ensures ParseInt(d) == Num(ValueIn(d, 10))
  {
    RunEndExact(d, 0, 0, IsSpace);
    assert TrimStart(d) == d;
    DigitRunIsWhole(d);
    assert d[..|d|] == d;
  }

  /**
    `parseInt` on white space, an optional sign, a run of digits and a rest
    that does not continue the number: the leading white space is skipped,
    the sign is applied, and reading stops where the digits stop. The rest
    must not turn a lone `0` into a `0x` prefix.
  */
  lemma ParseIntOfSignedDigits(ws: string, sign: string, D: string, rest: string)
    requires AllSpace(ws) && sign in {"", "-", "+"}
    requires |D| > 0 && AllDigits(D)
    requires rest == [] || !IsDigit(rest[0])
    requires !(D == "0" && |rest| > 0 && (rest[0] == 'x' || rest[0] == 'X'))
    ensures ParseInt(ws + sign + D + rest) == Num(if sign == "-" then -(ValueIn(D, 10) as int) else ValueIn(D, 10))
  {
    SignedParts(ws, sign, D, rest);
    ParseIntTrimmed(ws + sign + D + rest, sign + (D + rest), D + rest, D);
  }

  /** The pieces `parseInt` sees in white space, a sign, digits and a rest. */
  lemma SignedParts(ws: string, sign: string, D: string, rest: string)
    requires AllSpace(ws) && sign in {"", "-", "+"}
    requires |D| > 0 && AllDigits(D)
    requires rest == [] || !IsDigit(rest[0])
    requires !(D == "0" && |rest| > 0 && (rest[0] == 'x' || rest[0] == 'X'))
    ensures var u := D + rest; var t := sign + u;
            && TrimStart(ws + sign + D + rest) == t
            && u == (if |t| > 0 && (t[0] == '-' || t[0] == '+') then t[1..] else t)
            && (|t| > 0 && t[0] == '-' <==> sign == "-")
            && !(|u| >= 2 && u[0] == '0' && (u[1] == 'x' || u[1] == 'X'))
            && |D| <= |u| && DigitPrefix(u, 10) == |D| && u[..|D|] == D
  {
    var u := D + rest;
    var t := sign + u;
    Associate(ws + sign, D, rest);
    Associate(ws, sign, u);
    StripSign(sign, u);
    SkipSpace(ws, t);
    NotHex(D, rest);
    DigitRunThenStop(D, rest);
    assert u[..|D|] == D;
  }

  /** What `parseInt` reads once the trimmed text, the unsigned rest and its decimal digits are known. */
  lemma ParseIntTrimmed(s: string, t: string, u: string, D: string)
    requires TrimStart(s) == t
    requires u == (if |t| > 0 && (t[0] == '-' || t[0] == '+') then t[1..] else t)
    requires !(|u| >= 2 && u[0] == '0' && (u[1] == 'x' || u[1] == 'X'))
    requires |D| > 0 && |D| <= |u| && DigitPrefix(u, 10) == |D| && u[..|D|] == D
    ensures ParseInt(s) == Num(if |t| > 0 && t[0] == '-' then -(ValueIn(D, 10) as int) else ValueIn(D, 10))
  {
  }

  lemma StripSign(sign: string, u: string)
    requires sign in {"", "-", "+"} && (|u| == 0 || (u[0] != '-' && u[0] != '+' && !IsSpace(u[0])))
    ensures var t := sign + u;
            && u == (if |t| > 0 && (t[0] == '-' || t[0] == '+') then t[1..] else t)
            && (|t| > 0 && t[0] == '-' <==> sign == "-")
            && (|t| == 0 || !IsSpace(t[0]))
  {
    var t := sign + u;
    if sign != "" { assert t[1..] == u; }
  }

  lemma NotHex(D: string, rest: string)
    requires |D| > 0 && AllDigits(D)
    requires !(D == "0" && |rest| > 0 && (rest[0] == 'x' || rest[0] == 'X'))
    ensures var u := D + rest; !(|u| >= 2 && u[0] == '0' && (u[1] == 'x' || u[1] == 'X'))
  {
    var u := D + rest;
    if |D| >= 2 { assert u[1] == D[1]; }
    else if |rest| > 0 { assert u[1] == rest[0]; assert D == [D[0]]; }
  }

  /** `trimStart` of white space followed by a text that does not start with white space. */
  lemma SkipSpace(ws: string, t: string)
    requires AllSpace(ws) && (|t| == 0 || !IsSpace(t[0]))
    ensures TrimStart(ws + t) == t
  {
    var s := ws + t;
    assert s[|s| - |t|..] == t;
    assert s[..|s| - |t|] == ws;
    TrimStartIs(s, t);
  }

  /** The decimal digit prefix of `D + rest` is `D` when `rest` does not start with a digit. */
  lemma DigitRunThenStop(D: string, rest: string)
    requires AllDigits(D) && (rest == [] || !IsDigit(rest[0]))
    ensures DigitPrefix(D + rest, 10) == |D|
  {
    var u := D + rest;
    assert forall q :: 0 <= q < |D| ==> DigitValue(u[q]) < 10 by {
      forall q | 0 <= q < |D| ensures DigitValue(u[q]) < 10 { assert u[q] == D[q]; }
    }
    assert |D| == |u| || DigitValue(u[|D|]) >= 10 by {
      if |D| < |u| { assert u[|D|] == rest[0]; }
    }
    RunEndExact(u, 0, |D|, c => DigitValue(c) < 10);
  }

  lemma DigitRunIsWhole(s: string)
    requires AllDigits(s)
    ensures DigitPrefix(s, 10) == |s|
  {
    RunEndExact(s, 0, |s|, c => DigitValue(c) < 10);
  }
}
