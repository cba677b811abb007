/** Decimals as text: what is printed is read back. */
module InfDecText {
  import opened Divisibility
  import opened InfDec
  import opened Wrappers

  // ---- Integers as text ----

  predicate IsDigit(c: char) { '0' <= c <= '9' }

  predicate AllDigits(s: string) {
    forall i | 0 <= i < |s| :: IsDigit(s[i])
  }

  function DigitValue(c: char): nat
    requires IsDigit(c)
  {
    c as int - '0' as int
  }

  function Digits(n: nat): (s: string)
    ensures s != "" && AllDigits(s)
  {
    var d := ('0' as int + n % 10) as char;
    if n < 10 then [d] else Digits(n / 10) + [d]
  }

  function Value(s: string): nat
    requires AllDigits(s)
  {
    if s == "" then 0 else Value(s[..|s| - 1]) * 10 + DigitValue(s[|s| - 1])
  }

  lemma {:induction false} DigitsRoundTrip(n: nat)
    ensures Value(Digits(n)) == n
  {
    var s := Digits(n);
    if n < 10 {
      assert s[..0] == "" && Value("") == 0;
    } else {
      DigitsRoundTrip(n / 10);
      assert s[..|s| - 1] == Digits(n / 10);
    }
  }

  function IntegerText(n: int): string {
    if n < 0 then "-" + Digits(-n) else Digits(n)
  }

  /** A sign, or none, and at least one digit. */
  function ParseInteger(s: string): Option<int> {
    var d := if s != "" && (s[0] == '+' || s[0] == '-') then s[1..] else s;
    if d == "" || !AllDigits(d) then None
    else Some(if s[0] == '-' then -(Value(d) as int) else Value(d))
  }

  function Zeros(n: nat): (s: string)
    ensures |s| == n && AllDigits(s)
  {
    seq(n, i => '0')
  }

  lemma {:induction false} LeadingZeros(n: nat, s: string)
    requires AllDigits(s)
    ensures AllDigits(Zeros(n) + s) && Value(Zeros(n) + s) == Value(s)
    decreases |s|, n
  {
    var u := Zeros(n) + s;
    if s == "" {
      assert u == Zeros(n);
      if n > 0 {
        assert u[..n - 1] == Zeros(n - 1) == Zeros(n - 1) + "";
        LeadingZeros(n - 1, "");
      }
    } else {
      assert u[..|u| - 1] == Zeros(n) + s[..|s| - 1];
      LeadingZeros(n, s[..|s| - 1]);
    }
  }

  lemma {:induction false} TrailingZeros(s: string, n: nat)
    requires AllDigits(s)
    ensures AllDigits(s + Zeros(n)) && Value(s + Zeros(n)) == Value(s) * Pow(10, n)
  {
    var u := s + Zeros(n);
    if n == 0 {
      assert u == s;
    } else {
      TrailingZeros(s, n - 1);
      assert u[..|u| - 1] == s + Zeros(n - 1);
      TimesTenMore(Value(s), Pow(10, n - 1));
    }
  }

  lemma TimesTenMore(v: int, p: int)
    ensures v * p * 10 == v * (10 * p)
  {
  }

  // ---- Printing ----

  /** The digits of the unscaled value with the point in its place, or zeros for it. */
  function Text(x: Val): string {
    var s := IntegerText(x.unscaled);
    var neg := if x.unscaled < 0 then 1 else 0;
    if x.scale <= 0 then
      if x.scale != 0 && x.unscaled != 0 then s + Zeros(-x.scale) else s
    else if |s| - neg <= x.scale then
      (if neg == 1 then "-" else "") + "0." + Zeros(x.scale - |s| + neg) + s[neg..]
    else
      s[..|s| - x.scale] + "." + s[|s| - x.scale..]
  }

  // ---- Reading ----

  /** What has been read: the sign and the digits, and where among them the point and
      the first digit stand, -1 if they have not come yet. */
  datatype Scan = Scan(unscaled: string, dp: int, dg: int, rest: string)

  function ScanFrom(t: string, u: string, dp: int, dg: int): Scan
    decreases |t|
  {
    if t == "" then Scan(u, dp, dg, t)
    else if t[0] == '+' || t[0] == '-' then
      if |u| > 0 || dp >= 0 then Scan(u, dp, dg, t) else ScanFrom(t[1..], u + [t[0]], dp, dg)
    else if t[0] == '.' then
      if dp >= 0 then Scan(u, dp, dg, t) else ScanFrom(t[1..], u, |u|, dg)
    else if IsDigit(t[0]) then ScanFrom(t[1..], u + [t[0]], dp, if dg == -1 then |u| else dg)
    else Scan(u, dp, dg, t)
  }

  /** The number read, if there was a digit. */
  function Scanned(r: Scan): Option<Val> {
    if r.dg == -1 then None
    else match ParseInteger(r.unscaled)
      case None => None
      case Some(n) => Some(Val(n, if r.dp >= 0 then |r.unscaled| - r.dp else 0))
  }

  /** The whole text as a number. */
  function Parse(t: string): Option<Val> {
    var r := ScanFrom(t, "", -1, -1);
    if r.rest != "" then None else Scanned(r)
  }

  lemma {:induction false} ScanDigits(d: string, t: string, u: string, dp: int, dg: int)
    requires AllDigits(d)
    ensures ScanFrom(d + t, u, dp, dg) == ScanFrom(t, u + d, dp, if dg == -1 && d != "" then |u| else dg)
    decreases |d|
  {
    if d == "" {
      assert d + t == t && u + d == u;
    } else {
      assert (d + t)[1..] == d[1..] + t;
      ScanDigits(d[1..], t, u + [d[0]], dp, if dg == -1 then |u| else dg);
      assert u + [d[0]] + d[1..] == u + d;
    }
  }

  /** A sign, digits, the point and more digits. */
  lemma {:induction false} ScanDecimal(sign: string, a: string, b: string)
    requires (sign == "" || sign == "-") && AllDigits(a) && AllDigits(b) && a != ""
    ensures ScanFrom(sign + a + "." + b, "", -1, -1) == Scan(sign + a + b, |sign + a|, |sign|, "")
    ensures ScanFrom(sign + a, "", -1, -1) == Scan(sign + a, -1, |sign|, "")
  {
    hide ScanFrom;
    ScanSign(sign, a + ("." + b));
    assert sign + a + "." + b == sign + (a + ("." + b));
    ScanDigits(a, "." + b, sign, -1, -1);
    ScanPoint(b, sign + a, |sign|);
    ScanDigits(b, "", sign + a, |sign + a|, |sign|);
    assert b + "" == b && a + "" == a;
    ScanNothing(sign + a + b, |sign + a|, |sign|);
    ScanSign(sign, a);
    ScanDigits(a, "", sign, -1, -1);
    ScanNothing(sign + a, -1, |sign|);
  }

  lemma {:induction false} ScanSign(sign: string, t: string)
    requires sign == "" || sign == "-"
    ensures ScanFrom(sign + t, "", -1, -1) == ScanFrom(t, sign, -1, -1)
  {
    if sign == "" { assert sign + t == t; } else { assert (sign + t)[1..] == t && "" + ['-'] == sign; }
  }

  lemma {:induction false} ScanPoint(b: string, u: string, dg: int)
    ensures ScanFrom("." + b, u, -1, dg) == ScanFrom(b, u, |u|, dg)
  {
    assert ("." + b)[1..] == b;
  }

  lemma {:induction false} ScanNothing(u: string, dp: int, dg: int)
    ensures ScanFrom("", u, dp, dg) == Scan(u, dp, dg, "")
  {
  }

  lemma {:induction false} ParseSigned(sign: string, d: string)
    requires (sign == "" || sign == "-") && AllDigits(d) && d != ""
    ensures ParseInteger(sign + d) == Some(if sign == "-" then -(Value(d) as int) else Value(d))
  {
    if sign == "" { assert sign + d == d; } else { assert (sign + d)[1..] == d; }
  }

  /** Reading what was printed gives back the decimal; one with a negative scale comes
      back with the same value at scale zero. */
  lemma {:induction false} TextRoundTrip(x: Val)
    ensures Parse(Text(x)) == Some(if x.scale >= 0 then x else Val(x.unscaled * Pow(10, -x.scale), 0))
  {
    if x.scale <= 0 { WholeRoundTrip(x); }
    else if |Digits(Abs(x.unscaled))| <= x.scale { SmallRoundTrip(x); }
    else { PointRoundTrip(x); }
  }

  function SignText(n: int): string {
    if n < 0 then "-" else ""
  }

  lemma SignIs(n: int)
    ensures SignText(n) == if n < 0 then "-" else ""
  {
  }

  lemma IntegerParts(n: int)
    ensures IntegerText(n) == SignText(n) + Digits(Abs(n))
    ensures IntegerText(n)[|SignText(n)|..] == Digits(Abs(n)) && Value(Digits(Abs(n))) == Abs(n)
  {
    hide Digits;
    DigitsRoundTrip(Abs(n));
    assert "" + Digits(Abs(n)) == Digits(Abs(n));
  }

  lemma {:induction false} WholeRoundTrip(x: Val)
    requires x.scale <= 0
    ensures Parse(Text(x)) == Some(Val(x.unscaled * Pow(10, -x.scale), 0))
  {
    hide ScanFrom, Digits, Value, ParseInteger, Pow, IntegerText;
    IntegerParts(x.unscaled);
    var sign, d := SignText(x.unscaled), Digits(Abs(x.unscaled));
    var n := if x.scale != 0 && x.unscaled != 0 then -x.scale else 0;
    TrailingZeros(d, n);
    ScanDecimal(sign, d + Zeros(n), "");
    ParseSigned(sign, d + Zeros(n));
    assert Text(x) == sign + (d + Zeros(n));
    ZeroScaled(x, n);
  }

  /** Fewer digits than the scale: zeros stand before them. */
  lemma {:induction false} SmallRoundTrip(x: Val)
    requires x.scale > 0 && |Digits(Abs(x.unscaled))| <= x.scale
    ensures Parse(Text(x)) == Some(x)
  {
    hide ScanFrom, Digits, Value, ParseInteger, IntegerText;
    IntegerParts(x.unscaled);
    var sign, d := SignText(x.unscaled), Digits(Abs(x.unscaled));
    var z := Zeros(x.scale - |d|);
    LeadingZeros(1, z + d);
    LeadingZeros(x.scale - |d|, d);
    assert Zeros(1) == "0";
    ScanDecimal(sign, "0", z + d);
    ParseSigned(sign, "0" + (z + d));
    assert sign + "0" + (z + d) == sign + ("0" + (z + d));
    assert Text(x) == sign + "0" + "." + (z + d);
  }

  lemma {:induction false} PointRoundTrip(x: Val)
    requires 0 < x.scale < |Digits(Abs(x.unscaled))|
    ensures Parse(Text(x)) == Some(x)
  {
    hide ScanFrom, Digits, Value, ParseInteger, IntegerText, SignText;
    IntegerParts(x.unscaled);
    SignIs(x.unscaled);
    var sign, d, s := SignText(x.unscaled), Digits(Abs(x.unscaled)), IntegerText(x.unscaled);
    var k := |d| - x.scale;
    ScanDecimal(sign, d[..k], d[k..]);
    SplitSigned(sign, d, k);
    ParseSigned(sign, d);
    assert Text(x) == sign + d[..k] + "." + d[k..];
  }

  lemma SplitSigned(sign: string, d: string, k: nat)
    requires k <= |d|
    ensures (sign + d)[..|sign| + k] == sign + d[..k] && (sign + d)[|sign| + k..] == d[k..]
    ensures sign + d[..k] + d[k..] == sign + d
  {
    assert d == d[..k] + d[k..];
  }

  lemma {:induction false} ZeroScaled(x: Val, n: nat)
    requires x.scale <= 0 && n == if x.scale != 0 && x.unscaled != 0 then -x.scale else 0
    ensures x.unscaled * Pow(10, -x.scale) == if x.unscaled < 0 then -((Abs(x.unscaled) * Pow(10, n)) as int)
              else Abs(x.unscaled) * Pow(10, n)
  {
    if x.unscaled < 0 { Negated(-x.unscaled, Pow(10, n)); }
  }

  lemma Negated(a: int, p: int)
    ensures (-a) * p == -(a * p)
  {
  }

  /** The value is kept in either case. */
  lemma TextKeepsValue(x: Val)
    ensures Parse(Text(x)).Some? && Number(Parse(Text(x)).value) == Number(x)
  {
    hide Text, Parse, Ten, Pow;
    TextRoundTrip(x);
    if x.scale < 0 { Shifted(x, -x.scale); }
  }

  // ---- The form of the text ----

  lemma DivideTwice(n: nat, p: nat)
    requires p > 0
    ensures n / 10 / p == n / (10 * p)
  {
    var q, r := n / 10, n % 10;
    var a, b := q / p, q % p;
    assert n == 10 * (p * a + b) + r;
    assert 10 * (p * a + b) == 10 * p * a + 10 * b;
    Quotient(n, 10 * p, a, 10 * b + r);
  }

  lemma Quotient(n: nat, d: nat, q: nat, r: nat)
    requires d > 0 && n == d * q + r && r < d
    ensures n / d == q
  {
    var k := n / d - q;
    assert n == d * (n / d) + n % d;
    assert d * (n / d) - d * q == d * k;
    if k > 0 { Times(d, k); }
    if k < 0 { Times(d, -k); }
  }

  lemma Times(d: nat, k: nat)
    requires k >= 1
    ensures d * k >= d
  {
  }

  /** The digits but for the last ones are those of the number divided. */
  lemma {:induction false} DigitsDivided(n: nat, s: nat)
    ensures Pow(10, s) > 0
    ensures |Digits(n)| > s ==> Digits(n)[..|Digits(n)| - s] == Digits(n / Pow(10, s))
    ensures |Digits(n)| <= s ==> n / Pow(10, s) == 0
    decreases s
  {
    var d := Digits(n);
    if s == 0 {
      assert d[..|d|] == d;
    } else {
      DigitsDivided(n / 10, s - 1);
      DivideTwice(n, Pow(10, s - 1));
      if n >= 10 {
        assert d == Digits(n / 10) + [d[|d| - 1]];
        if |d| > s { assert d[..|d| - s] == Digits(n / 10)[..|d| - s]; }
      } else {
        Smaller(n, Pow(10, s - 1));
      }
    }
  }

  lemma Smaller(n: nat, p: nat)
    requires n < 10 && p > 0
    ensures n / (10 * p) == 0
  {
    Quotient(n, 10 * p, 0, n);
  }

  /** In front of the point stand the digits of the whole part and nothing more, and behind
      it as many as the scale says. */
  lemma {:induction false} TextForm(x: Val) returns (part: string)
    requires x.scale > 0
    ensures AllDigits(part) && |part| == x.scale && Pow(10, x.scale) > 0
    ensures Text(x) == SignText(x.unscaled) + Digits(Abs(x.unscaled) / Pow(10, x.scale)) + "." + part
  {
    hide Digits, Value, IntegerText, Pow;
    IntegerParts(x.unscaled);
    var sign, d := SignText(x.unscaled), Digits(Abs(x.unscaled));
    DigitsDivided(Abs(x.unscaled), x.scale);
    if |d| <= x.scale {
      part := Zeros(x.scale - |d|) + d;
      ZeroDigits();
      Chained(sign, "0", ".", part);
    } else {
      part := d[|d| - x.scale..];
      SplitSigned(sign, d, |d| - x.scale);
      Chained(sign, d[..|d| - x.scale], ".", part);
    }
  }

  lemma Chained(a: string, b: string, c: string, d: string)
    ensures a + b + c + d == a + (b + (c + d)) == a + (b + c) + d == a + b + (c + d)
  {
  }

  lemma ZeroDigits()
    ensures Digits(0) == "0"
  {
  }

  /** No number but zero begins with a zero. */
  lemma {:induction false} NoLeadingZero(n: nat)
    requires n > 0
    ensures Digits(n)[0] != '0'
  {
    if n >= 10 { NoLeadingZero(n / 10); }
  }

  // ---- Every text that is a number ----

  /** A sign or none, digits, and perhaps a point and more digits; one digit at least. */
  predicate IsNumber(t: string, sign: string, whole: string, part: Option<string>) {
    && (sign == "" || sign == "+" || sign == "-") && AllDigits(whole) && whole + Fraction(part) != ""
    && AllDigits(Fraction(part))
    && t == sign + (whole + if part.Some? then "." + part.value else "")
  }

  function Fraction(part: Option<string>): string {
    if part.Some? then part.value else ""
  }

  /** The number without its point, and how many digits stand behind that. */
  function Meant(sign: string, whole: string, part: Option<string>): Val
    requires AllDigits(whole + Fraction(part))
  {
    var n := Value(whole + Fraction(part));
    Val(if sign == "-" then -(n as int) else n, |Fraction(part)|)
  }

  lemma {:induction false} SignTaken(sign: string, t: string)
    requires sign == "" || sign == "+" || sign == "-"
    ensures ScanFrom(sign + t, "", -1, -1) == ScanFrom(t, sign, -1, -1)
  {
    if sign == "" { assert sign + t == t; } else { assert (sign + t)[1..] == t && "" + [sign[0]] == sign; }
  }

  lemma {:induction false} SignedParsed(sign: string, d: string)
    requires (sign == "" || sign == "+" || sign == "-") && AllDigits(d) && d != ""
    ensures ParseInteger(sign + d) == Some(if sign == "-" then -(Value(d) as int) else Value(d))
  {
    if sign == "" { assert sign + d == d; } else { assert (sign + d)[1..] == d; }
  }

  lemma {:induction false} NumberParsed(t: string, sign: string, whole: string, part: Option<string>)
    requires IsNumber(t, sign, whole, part)
    ensures Parse(t) == Some(Meant(sign, whole, part))
  {
    hide ScanFrom, Value, ParseInteger;
    var d := Fraction(part);
    SignTaken(sign, whole + if part.Some? then "." + d else "");
    ScanDigits(whole, if part.Some? then "." + d else "", sign, -1, -1);
    var dg := if whole != "" then |sign| else -1;
    assert whole + "" == whole;
    if part.Some? {
      ScanPoint(d, sign + whole, dg);
      assert d + "" == d;
      ScanDigits(d, "", sign + whole, |sign + whole|, dg);
      ScanNothing(sign + whole + d, |sign + whole|, if dg == -1 && d != "" then |sign + whole| else dg);
    } else {
      ScanNothing(sign + whole, -1, dg);
    }
    assert sign + (whole + d) == sign + whole + d;
    SignedParsed(sign, whole + d);
  }

  /** The digits at the front. */
  lemma {:induction false} FrontDigits(t: string) returns (d: string, rest: string)
    ensures AllDigits(d) && t == d + rest && (rest == "" || !IsDigit(rest[0]))
  {
    d, rest := "", t;
    if t != "" && IsDigit(t[0]) {
      d, rest := FrontDigits(t[1..]);
      d := [t[0]] + d;
    }
  }

  /** Scanning stops at what does not go on the number. */
  lemma {:induction false} ScanStops(t: string, u: string, dp: int, dg: int)
    requires t != "" && !IsDigit(t[0]) && (u != "" || dp >= 0) && (t[0] == '.' ==> dp >= 0)
    ensures ScanFrom(t, u, dp, dg) == Scan(u, dp, dg, t)
  {
  }

  lemma {:induction false} OtherStops(t: string)
    requires t != "" && !IsDigit(t[0]) && t[0] != '.' && t[0] != '+' && t[0] != '-'
    ensures forall u, dp, dg :: ScanFrom(t, u, dp, dg) == Scan(u, dp, dg, t)
  {
  }

  lemma {:induction false} NoDigit(t: string)
    requires Parse(t).Some?
    ensures ScanFrom(t, "", -1, -1).rest == "" && ScanFrom(t, "", -1, -1).dg != -1
  {
  }

  lemma {:induction false} NumberOf(t: string) returns (sign: string, whole: string, part: Option<string>)
    requires Parse(t).Some?
    ensures IsNumber(t, sign, whole, part)
  {
    hide ScanFrom, Value, ParseInteger, Parse;
    NoDigit(t);
    if t == "" { ScanNothing("", -1, -1); }
    sign := if t[0] == '+' || t[0] == '-' then t[..1] else "";
    var u := t[|sign|..];
    assert t == sign + u;
    SignTaken(sign, u);
    var rest;
    whole, rest := FrontDigits(u);
    ScanDigits(whole, rest, sign, -1, -1);
    var dg := if whole != "" then |sign| else -1;
    part := None;
    if rest == "" {
      ScanNothing(sign + whole, -1, dg);
      assert whole + "" == whole;
    } else if rest[0] == '.' {
      var d, more := FrontDigits(rest[1..]);
      assert rest == "." + (d + more);
      ScanPoint(d + more, sign + whole, dg);
      ScanDigits(d, more, sign + whole, |sign + whole|, dg);
      var dg' := if dg == -1 && d != "" then |sign + whole| else dg;
      if more != "" { ScanStops(more, sign + whole + d, |sign + whole|, dg'); }
      ScanNothing(sign + whole + d, |sign + whole|, dg');
      assert d + "" == d && u == whole + ("." + d);
      part := Some(d);
    } else {
      if sign + whole == "" { OtherStops(rest); } else { ScanStops(rest, sign + whole, -1, dg); }
      assert false;
    }
  }

  /** A text is read as a decimal if and only if it is a number, and then as that number. */
  lemma ParsesExactly(t: string, x: Val)
    ensures Parse(t) == Some(x) <==>
            exists sign, whole, part :: IsNumber(t, sign, whole, part) && x == Meant(sign, whole, part)
  {
    hide Parse, Value;
    if sign, whole, part :| IsNumber(t, sign, whole, part) && x == Meant(sign, whole, part) {
      NumberParsed(t, sign, whole, part);
    }
    if Parse(t) == Some(x) {
      var sign, whole, part := NumberOf(t);
      NumberParsed(t, sign, whole, part);
    }
  }

  // ---- As it runs ----

  const ZEROS := Zeros(64)

  /** Appends zeros, 64 at a time. */
  method AppendZeros(s: string, n: int) returns (r: string)
    ensures r == s + if n > 0 then Zeros(n) else ""
  {
    r := s;
    var i := 0;
    while i < n
      invariant 0 <= i && r == s + Zeros(if i <= n then i else if n > 0 then n else 0)
      decreases n - i
    {
      if n > i + 64 {
        r := r + ZEROS;
        assert Zeros(i) + ZEROS == Zeros(i + 64);
      } else {
        r := r + ZEROS[..n - i];
        assert Zeros(i) + ZEROS[..n - i] == Zeros(n);
      }
      i := i + 64;
    }
  }

  method String(x: Val) returns (r: string)
    ensures r == Text(x)
  {
    hide Digits;
    var s := IntegerText(x.unscaled);
    if x.scale <= 0 {
      if x.scale != 0 && x.unscaled != 0 { s := AppendZeros(s, -x.scale); }
      return s;
    }
    var negbit := -QuoTwo(Sign(x.unscaled) - 1);
    if |s| - negbit <= x.scale {
      var ss := if negbit == 1 then "-" else "";
      ss := ss + "0.";
      ss := AppendZeros(ss, x.scale - |s| + negbit);
      if x.scale - |s| + negbit == 0 { assert Zeros(0) == ""; }
      r := ss + s[negbit..];
      return;
    }
    r := s[..|s| - x.scale] + ".";
    r := r + s[|s| - x.scale..];
  }

  /** Division by two, truncated. */
  function QuoTwo(n: int): int { Quo(n, 2) }

  method SetString(t: string) returns (r: Option<Val>)
    ensures r == Parse(t)
  {
    var u, dp, dg, i := "", -1, -1, 0;
    assert t[0..] == t;
    while i < |t|
      invariant 0 <= i <= |t| && ScanFrom(t, "", -1, -1) == ScanFrom(t[i..], u, dp, dg)
      invariant -1 <= dp <= |u|
      decreases |t| - i
    {
      var ch := t[i];
      assert t[i..][0] == ch && t[i..][1..] == t[i + 1..];
      if ch == '+' || ch == '-' {
        if |u| > 0 || dp >= 0 { break; }
      } else if ch == '.' {
        if dp >= 0 { break; }
        dp := |u|;
        i := i + 1;
        continue;
      } else if IsDigit(ch) {
        if dg == -1 { dg := |u|; }
      } else {
        break;
      }
      u := u + [ch];
      i := i + 1;
    }
    if dg == -1 { return None; }
    var scale := if dp >= 0 then |u| - dp else 0;
    var n := ParseInteger(u);
    if n.None? { return None; }
    if i < |t| { return None; }
    r := Some(Val(n.value, scale));
  }
}
