/**
 * The behaviour of `Number.parseInt(s, 10)` as ECMA-262 (section 19.2.5,
 * "parseInt ( string, radix )") defines it for a decimal radix:
 * strip leading white space and line terminators, read an optional sign,
 * take the longest run of decimal digits; no digits means NaN, otherwise
 * the signed value of those digits.
 */
module EcmaParseInt {

  /** The two kinds of result `parseInt` can give: NaN, or an integral number. */
  datatype JsNumber = NaN | Integral(value: int)

  /**
   * WhiteSpace and LineTerminator code points of ECMA-262 (sections 12.2 and
   * 12.3): TAB, VT, FF, ZWNBSP, every space separator (category Zs), LF, CR,
   * LS and PS.
   */
  predicate IsWhiteSpace(c: char) {
    || c == '\t' || c == '\U{000B}' || c == '\U{000C}' || c == '\U{FEFF}'
    || c == ' ' || c == '\U{00A0}' || c == '\U{1680}'
    || ('\U{2000}' <= c <= '\U{200A}')
    || c == '\U{202F}' || c == '\U{205F}' || c == '\U{3000}'
    || c == '\n' || c == '\r' || c == '\U{2028}' || c == '\U{2029}'
  }

  /** A radix-10 digit. */
  predicate IsDigit(c: char) {
    '0' <= c <= '9'
  }

  predicate AllWhiteSpace(s: string) {
    forall i :: 0 <= i < |s| ==> IsWhiteSpace(s[i])
  }

  predicate AllDigits(s: string) {
    forall i :: 0 <= i < |s| ==> IsDigit(s[i])
  }

  /** The numeric value of one digit. */
  function DigitValue(c: char): (v: nat)
    requires IsDigit(c)
    ensures v < 10
  {
    (c as int) - ('0' as int)
  }

  /**
   * ECMA-262's TrimString(s, start): the suffix of `s` that is left once the leading
   * white space is removed.
   */
  function TrimStart(s: string): (t: string)
    ensures |t| <= |s| && t == s[|s| - |t|..]
    ensures forall i :: 0 <= i < |s| - |t| ==> IsWhiteSpace(s[i])
    ensures t == [] || !IsWhiteSpace(t[0])
  {
    if |s| > 0 && IsWhiteSpace(s[0]) then TrimStart(s[1..]) else s
  }

  /** The sign read from the first code unit: -1 for '-', 1 otherwise. */
  function SignOf(s: string): int {
    if |s| > 0 && s[0] == '-' then -1 else 1
  }

  /** `s` without one leading '+' or '-', if it has one. */
  function DropSign(s: string): string {
    if |s| > 0 && (s[0] == '+' || s[0] == '-') then s[1..] else s
  }

  /**
   * The longest prefix of `s` made of radix-10 digits: the part before the
   * first code unit that is not a digit.
   */
  function DigitPrefix(s: string): (d: string)
    ensures |d| <= |s| && d == s[..|d|]
    ensures AllDigits(d)
    ensures |d| == |s| || !IsDigit(s[|d|])
  {
    if |s| > 0 && IsDigit(s[0]) then [s[0]] + DigitPrefix(s[1..]) else []
  }

  /** The mathematical value of a digit string read in radix 10. */
  function DigitsValue(d: string): nat
    requires AllDigits(d)
  {
    if d == [] then 0
    else 10 * DigitsValue(d[..|d| - 1]) + DigitValue(d[|d| - 1])
  }

  /** `Number.parseInt(s, 10)`. */
  function ParseInt(s: string): JsNumber {
    var t := TrimStart(s);
    var sign := SignOf(t);
    var z := DigitPrefix(DropSign(t));
    if z == [] then NaN else Integral(sign * DigitsValue(z))
  }

  // ---------------------------------------------------------------------
  // An independent description of the input: every string splits uniquely
  // enough into white space, an optional sign, digits and the rest.
  // ---------------------------------------------------------------------

  /** The sign a one-character sign string stands for. */
  function SignValue(sg: string): int {
    if sg == "-" then -1 else 1
  }

  /**
   * `ws + sg + d + rest` is read by `parseInt` as white space `ws`, sign `sg`,
   * digits `d` and an ignored tail `rest`: no digit follows `d`, and when
   * there is neither sign nor digit the tail does not start with something
   * that white space or a sign would have absorbed.
   */
  ghost predicate Canonical(ws: string, sg: string, d: string, rest: string) {
    && AllWhiteSpace(ws)
    && (sg == "" || sg == "+" || sg == "-")
    && AllDigits(d)
    && (rest == [] || !IsDigit(rest[0]))
    && (sg == "" && d == [] && rest != [] ==>
          !IsWhiteSpace(rest[0]) && rest[0] != '+' && rest[0] != '-')
  }

  /** `s` is `ws + sg + d + rest`, split as `Canonical` describes. */
  ghost predicate SplitsAs(s: string, ws: string, sg: string, d: string, rest: string) {
    Canonical(ws, sg, d, rest) && s == ws + sg + d + rest
  }

  lemma {:induction false} TrimStartSkips(ws: string, t: string)
    requires AllWhiteSpace(ws)
    requires t == [] || !IsWhiteSpace(t[0])
    ensures TrimStart(ws + t) == t
  {
    if ws != [] {
      assert (ws + t)[1..] == ws[1..] + t;
      TrimStartSkips(ws[1..], t);
    }
  }

  lemma {:induction false} DigitPrefixStops(d: string, rest: string)
    requires AllDigits(d)
    requires rest == [] || !IsDigit(rest[0])
    ensures DigitPrefix(d + rest) == d
  {
    if d != [] {
      assert (d + rest)[1..] == d[1..] + rest;
      DigitPrefixStops(d[1..], rest);
      assert d == [d[0]] + d[1..];
    }
  }

  /** What `parseInt` gives on a string split as `Canonical` describes. */
  lemma ParseIntCanonical(ws: string, sg: string, d: string, rest: string)
    requires Canonical(ws, sg, d, rest)
    ensures ParseInt(ws + sg + d + rest) ==
            if d == [] then NaN else Integral(SignValue(sg) * DigitsValue(d))
  {
    var t := sg + d + rest;
    assert ws + sg + d + rest == ws + t;
    assert t == [] || !IsWhiteSpace(t[0]) by {
      if sg == "" && d != [] { assert t[0] == d[0]; }
      if sg == "" && d == [] { assert t == rest; }
    }
    TrimStartSkips(ws, t);
    SignAndDigits(sg, d, rest);
    DigitPrefixStops(d, rest);
  }

  lemma SignAndDigits(sg: string, d: string, rest: string)
    requires sg == "" || sg == "+" || sg == "-"
    requires AllDigits(d)
    requires sg == "" && d == [] && rest != [] ==> rest[0] != '+' && rest[0] != '-'
    ensures DropSign(sg + d + rest) == d + rest
    ensures SignOf(sg + d + rest) == SignValue(sg)
  {
    var t := sg + d + rest;
    if sg == "" {
      assert t == d + rest;
      if d != [] { assert t[0] == d[0]; }
    } else {
      assert t[0] == sg[0];
      assert t[1..] == d + rest;
    }
  }

  /** The leading '+' or '-' of `s`, or nothing. */
  function SignPart(s: string): (sg: string)
    ensures sg == "" || sg == "+" || sg == "-"
    ensures s == sg + DropSign(s)
  {
    if |s| > 0 && (s[0] == '+' || s[0] == '-') then [s[0]] else ""
  }

  lemma Regroup(a: string, b: string, c: string, e: string)
    ensures a + b + c + e == a + (b + (c + e))
  {
  }

  lemma TrimSplit(s: string)
    ensures AllWhiteSpace(s[..|s| - |TrimStart(s)|])
    ensures s == s[..|s| - |TrimStart(s)|] + TrimStart(s)
  {
  }

  lemma DigitSplit(u: string)
    ensures u == DigitPrefix(u) + u[|DigitPrefix(u)|..]
    ensures u[|DigitPrefix(u)|..] == [] || !IsDigit(u[|DigitPrefix(u)|..][0])
  {
  }

  /** Every string has a split of the form `Canonical` describes. */
  lemma CanonicalExists(s: string)
    ensures exists ws, sg, d, rest :: SplitsAs(s, ws, sg, d, rest)
  {
    var t := TrimStart(s);
    var ws := s[..|s| - |t|];
    var sg := SignPart(t);
    var u := DropSign(t);
    var d := DigitPrefix(u);
    var rest := u[|d|..];
    TrimSplit(s);
    DigitSplit(u);
    assert s == ws + t && t == sg + u && u == d + rest;
    Regroup(ws, sg, d, rest);
    assert sg == "" && d == [] && rest != [] ==>
             !IsWhiteSpace(rest[0]) && rest[0] != '+' && rest[0] != '-' by {
      if sg == "" && d == [] && rest != [] {
        assert rest == t;
      }
    }
    assert SplitsAs(s, ws, sg, d, rest);
    SplitWitness(s, ws, sg, d, rest);
  }

  lemma SplitWitness(s: string, ws: string, sg: string, d: string, rest: string)
    requires SplitsAs(s, ws, sg, d, rest)
    ensures exists ws', sg', d', rest' :: SplitsAs(s, ws', sg', d', rest')
  {
  }

  /** The decimal digits of a natural number, most significant first. */
  function Decimal(n: nat): (s: string)
    ensures |s| > 0 && AllDigits(s) && DigitsValue(s) == n
  {
    var last := ('0' as int + n % 10) as char;
    var s := if n < 10 then [last] else Decimal(n / 10) + [last];
    assert s[..|s| - 1] == if n < 10 then [] else Decimal(n / 10);
    s
  }

  /** The usual rendering of an integer: a '-' for negatives, then its digits. */
  function Show(n: int): string {
    if n < 0 then "-" + Decimal(-n) else Decimal(n)
  }

  /** `parseInt` of a sign followed by nothing but digits. */
  lemma ParseIntSignedDigits(sg: string, d: string)
    requires sg == "" || sg == "-"
    requires d != [] && AllDigits(d)
    ensures ParseInt(sg + d) == Integral(SignValue(sg) * DigitsValue(d))
  {
    assert sg + d == "" + sg + d + "";
    ParseIntCanonical("", sg, d, "");
  }

  /** `parseInt` reads back every integer from its decimal rendering. */
  lemma ParseIntShow(n: int)
    ensures ParseInt(Show(n)) == Integral(n)
  {
    if n < 0 {
      ParseIntSignedDigits("-", Decimal(-n));
    } else {
      ParseIntSignedDigits("", Decimal(n));
      assert Show(n) == "" + Decimal(n);
    }
  }
}
