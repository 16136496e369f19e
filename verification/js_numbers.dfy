/** The two numeric built-ins the core uses: `parseInt(text, 10)`, which
    turns the `--max` option into the iteration budget, and `Math.round`,
    which the status report applies to ratios of story counts. */
module JsNumbers {
  import opened JsValues

  /** ECMAScript white space and line terminators, which `parseInt` skips
      before the number. */
  predicate IsWhiteSpace(c: char) {
    || c == ' ' || c == '\t' || c == '\n' || c == '\r'
    || c == '\U{B}' || c == '\U{C}' || c == '\U{A0}' || c == '\U{1680}'
    || ('\U{2000}' <= c <= '\U{200A}')
    || c == '\U{2028}' || c == '\U{2029}' || c == '\U{202F}' || c == '\U{205F}'
    || c == '\U{3000}' || c == '\U{FEFF}'
  }

  predicate AllWhiteSpace(ws: string) {
    forall k :: 0 <= k < |ws| ==> IsWhiteSpace(ws[k])
  }

  predicate IsDigit(c: char) {
    '0' <= c <= '9'
  }

  predicate AllDigits(d: string) {
    forall k :: 0 <= k < |d| ==> IsDigit(d[k])
  }

  function DigitValue(c: char): (v: nat)
    requires IsDigit(c)
    ensures v < 10
  {
    (c as int) - ('0' as int)
  }

  function DigitChar(v: nat): (c: char)
    requires v < 10
    ensures IsDigit(c) && DigitValue(c) == v
  {
    (('0' as int) + v) as char
  }

  /** The number a run of decimal digits denotes, most significant first. */
  function DigitsValue(d: string): nat
    requires AllDigits(d)
  {
    if |d| == 0 then 0 else 10 * DigitsValue(d[..|d| - 1]) + DigitValue(d[|d| - 1])
  }

  /** The text after the leading white space. */
  function SkipWhiteSpace(s: string): (r: string)
    ensures |r| <= |s| && r == s[|s| - |r|..]
    ensures forall k :: 0 <= k < |s| - |r| ==> IsWhiteSpace(s[k])
    ensures |r| == 0 || !IsWhiteSpace(r[0])
  {
    if |s| > 0 && IsWhiteSpace(s[0]) then SkipWhiteSpace(s[1..]) else s
  }

  /** The length of the longest run of digits `s` starts with. */
  function DigitPrefixLength(s: string): (n: nat)
    ensures n <= |s|
    ensures AllDigits(s[..n])
    ensures n == |s| || !IsDigit(s[n])
  {
    if |s| > 0 && IsDigit(s[0]) then
      var n := 1 + DigitPrefixLength(s[1..]);
      assert forall k :: 1 <= k < n ==> s[..n][k] == s[1..][..n - 1][k - 1];
      n
    else
      0
  }

  /** The text after an optional leading `-` or `+`. */
  function Unsigned(t: string): (r: string)
    ensures |r| <= |t|
  {
    if |t| > 0 && (t[0] == '-' || t[0] == '+') then t[1..] else t
  }

  /** `parseInt(s, 10)`: skip white space, read an optional sign, then the
      longest run of decimal digits; `None` stands for `NaN`, the result
      when no digit follows. Anything after the digits is ignored. */
  function ParseInt(s: string): (r: Option<int>)
    ensures r.None? <==>
      var body := Unsigned(SkipWhiteSpace(s)); |body| == 0 || !IsDigit(body[0])
  {
    var t := SkipWhiteSpace(s);
    var body := Unsigned(t);
    var n := DigitPrefixLength(body);
    assert n > 0 ==> body[..n][0] == body[0];
    if n == 0 then None
    else
      var v: int := DigitsValue(body[..n]);
      if t[0] == '-' then Some(-v) else Some(v)
  }

  /** The decimal digits of a natural number, without leading zeros. */
  function NatToDigits(n: nat): (d: string)
    ensures |d| >= 1 && AllDigits(d)
  {
    if n < 10 then [DigitChar(n)] else NatToDigits(n / 10) + [DigitChar(n % 10)]
  }

  /** The decimal text of an integer, as `String(n)` writes it. */
  function IntToString(n: int): string {
    if n < 0 then "-" + NatToDigits(-n) else NatToDigits(n)
  }

  lemma {:induction false} DigitsValueOfNatToDigits(n: nat)
    ensures DigitsValue(NatToDigits(n)) == n
  {
    if n >= 10 {
      var d := NatToDigits(n);
      assert d[..|d| - 1] == NatToDigits(n / 10);
      DigitsValueOfNatToDigits(n / 10);
    }
  }

  /** `parseInt` reads back what `String` wrote, also with white space in
      front and non-digit text behind (as in `"3 iterations"`). */
  lemma ParseIntOfIntToString(ws: string, n: int, trailer: string)
    requires AllWhiteSpace(ws)
    requires |trailer| == 0 || !IsDigit(trailer[0])
    ensures ParseInt(ws + IntToString(n) + trailer) == Some(n)
  {
    var sign, d := IntToStringParts(n);
    var u := sign + (d + trailer);
    assert ws + IntToString(n) + trailer == ws + u;
    SignedDigits(sign, d, trailer);
    SkipLeadingWhiteSpace(ws, u);
    ParseIntOfDigits(ws + u, sign, d, trailer);
  }

  /** A plain run of digits parses to its value. */
  lemma ParseIntOfDigitString(d: string)
    requires |d| > 0 && AllDigits(d)
    ensures ParseInt(d) == Some(DigitsValue(d))
  {
    assert IsDigit(d[0]);
    SkipLeadingWhiteSpace("", d);
    assert "" + d == d && "" + (d + "") == d;
    ParseIntOfDigits(d, "", d, "");
  }

  /** `String(n)` is a sign (only for negative numbers) and the digits of
      the magnitude. */
  lemma IntToStringParts(n: int) returns (sign: string, d: string)
    ensures sign == "" || sign == "-"
    ensures |d| > 0 && AllDigits(d)
    ensures IntToString(n) == sign + d
    ensures n == if sign == "-" then 0 - DigitsValue(d) else DigitsValue(d)
  {
    var magnitude: nat := if n < 0 then -n else n;
    d := NatToDigits(magnitude);
    sign := if n < 0 then "-" else "";
    DigitsValueOfNatToDigits(magnitude);
  }

  /** Text whose white space is followed by an optional minus sign, digits
      and a non-digit trailer parses to the digits' value with that sign. */
  lemma ParseIntOfDigits(s: string, sign: string, d: string, trailer: string)
    requires sign == "" || sign == "-"
    requires |d| > 0 && AllDigits(d)
    requires |trailer| == 0 || !IsDigit(trailer[0])
    requires SkipWhiteSpace(s) == sign + (d + trailer)
    ensures ParseInt(s) == Some(if sign == "-" then 0 - DigitsValue(d) else DigitsValue(d))
  {
    var body := d + trailer;
    var u := sign + body;
    SignedDigits(sign, d, trailer);
    DigitPrefixOfDigits(d, trailer);
    assert body[..|d|] == d;
    ParseIntOfParts(s, u, body, |d|);
  }

  /** A sign followed by digits neither starts with white space nor
      keeps its sign once `Unsigned` has read it. */
  lemma SignedDigits(sign: string, d: string, trailer: string)
    requires sign == "" || sign == "-"
    requires |d| > 0 && AllDigits(d)
    ensures var u := sign + (d + trailer);
      && !IsWhiteSpace(u[0])
      && (u[0] == '-' <==> sign == "-")
      && Unsigned(u) == d + trailer
  {
    var body := d + trailer;
    var u := sign + body;
    assert IsDigit(d[0]);
    if sign == "-" {
      assert u[1..] == body;
    } else {
      assert u == body;
      assert u[0] == d[0];
    }
  }

  /** How `ParseInt` assembles its result once the pieces are known. */
  lemma ParseIntOfParts(s: string, t: string, body: string, n: nat)
    requires SkipWhiteSpace(s) == t && Unsigned(t) == body
    requires DigitPrefixLength(body) == n > 0
    ensures ParseInt(s) == Some(if t[0] == '-' then 0 - DigitsValue(body[..n]) as int else DigitsValue(body[..n]))
  {
  }

  lemma {:induction false} SkipLeadingWhiteSpace(ws: string, rest: string)
    requires AllWhiteSpace(ws)
    requires |rest| == 0 || !IsWhiteSpace(rest[0])
    ensures SkipWhiteSpace(ws + rest) == rest
    decreases |ws|
  {
    if |ws| > 0 {
      assert (ws + rest)[1..] == ws[1..] + rest;
      SkipLeadingWhiteSpace(ws[1..], rest);
    } else {
      assert ws + rest == rest;
    }
  }

  lemma {:induction false} DigitPrefixOfDigits(d: string, trailer: string)
    requires AllDigits(d)
    requires |trailer| == 0 || !IsDigit(trailer[0])
    ensures DigitPrefixLength(d + trailer) == |d|
    decreases |d|
  {
    if |d| > 0 {
      assert (d + trailer)[1..] == d[1..] + trailer;
      DigitPrefixOfDigits(d[1..], trailer);
    } else {
      assert d + trailer == trailer;
    }
  }

  /** `Math.round(n / d)` computed exactly: the integer nearest to the
      ratio, halves rounded up. */
  function RoundRatio(n: int, d: int): (r: int)
    requires d > 0
    ensures 2 * n - d < 2 * r * d <= 2 * n + d
  {
    var q := (2 * n + d) / (2 * d);
    var m := (2 * n + d) % (2 * d);
    assert 2 * n + d == q * (2 * d) + m;
    assert 0 <= m < 2 * d;
    assert q * (2 * d) == 2 * q * d;
    q
  }
}
