/** Decimals of unlimited precision: division with seven rounding modes, and exact division. */
module InfDec {
  import opened Divisibility

  // ---- Meaning ----

  /** A decimal as a value; it denotes unscaled * 10^-scale. The scale is unbounded here. */
  datatype Val = Val(unscaled: int, scale: int)

  /** 10^e, for negative e as well. */
  function Ten(e: int): (r: real)
    ensures r > 0.0
    decreases Abs(e)
  {
    if e == 0 then 1.0 else if e > 0 then 10.0 * Ten(e - 1) else Ten(e + 1) / 10.0
  }

  function Number(v: Val): real {
    v.unscaled as real * Ten(-v.scale)
  }

  lemma TenNext(e: int)
    ensures Ten(e + 1) == 10.0 * Ten(e)
  {
  }

  lemma {:induction false} TenAdd(a: int, b: int)
    ensures Ten(a + b) == Ten(a) * Ten(b)
    decreases Abs(a)
  {
    hide Ten;
    TenNext(a - 1);
    if a == 0 {
      assert Ten(0) == 1.0 by { TenIsPow(0); }
    } else if a > 0 {
      TenAdd(a - 1, b);
      TenNext(a - 1 + b);
      TimesTen(Ten(a - 1 + b), Ten(a - 1), Ten(b), Ten(a));
    } else if a < 0 {
      TenAdd(a + 1, b);
      TenNext(a + b);
      TenNext(a);
      TimesTen(Ten(a + b), Ten(a), Ten(b), Ten(a + 1));
    }
  }

  lemma TimesTen(x: real, y: real, z: real, u: real)
    requires u == 10.0 * y
    ensures 10.0 * x == u * z <==> x == y * z
  {
    Associate(10.0, y, z);
  }

  lemma Associate(a: real, b: real, c: real)
    ensures (a * b) * c == a * (b * c)
  {
  }

  lemma {:induction false} TenIsPow(n: nat)
    ensures Ten(n) == Pow(10, n) as real
  {
    if n > 0 { TenIsPow(n - 1); }
  }

  lemma RealProduct(a: int, b: int)
    ensures (a * b) as real == a as real * b as real
  {
  }

  /** Shifting the unscaled value and the scale together changes nothing. */
  lemma {:induction false} Shifted(v: Val, n: nat)
    ensures Number(Val(v.unscaled * Pow(10, n), v.scale + n)) == Number(v)
  {
    hide Ten, Pow;
    TenIsPow(n);
    TenAdd(n, -v.scale - n);
    assert n + (-v.scale - n) == -v.scale;
    RealProduct(v.unscaled, Pow(10, n));
    Associate(v.unscaled as real, Ten(n), Ten(-v.scale - n));
  }

  // ---- big.Int division ----

  function Sign(n: int): int {
    if n < 0 then -1 else if n == 0 then 0 else 1
  }

  /** Truncated quotient and the remainder that goes with it. */
  function Quo(a: int, b: int): int
    requires b != 0
  {
    Sign(a) * Sign(b) * (Abs(a) / Abs(b))
  }

  function Rem(a: int, b: int): int
    requires b != 0
  {
    Sign(a) * (Abs(a) % Abs(b))
  }

  lemma QuoRemLaw(a: int, b: int)
    requires b != 0
    ensures a == Quo(a, b) * b + Rem(a, b)
    ensures Abs(Rem(a, b)) < Abs(b)
    ensures Rem(a, b) == 0 || Sign(Rem(a, b)) == Sign(a)
    ensures Quo(a, b) == 0 || Sign(Quo(a, b)) == Sign(a) * Sign(b)
  {
    var q, r := Abs(a) / Abs(b), Abs(a) % Abs(b);
    assert Abs(a) == q * Abs(b) + r;
  }

  // ---- The quotient in units of the last place ----

  function Shift(x: Val, y: Val, s: int): int {
    s - (x.scale - y.scale)
  }

  /** x/y is (Dividend/Divisor) * 10^-s, with integers above and below. */
  function Dividend(x: Val, y: Val, s: int): int {
    x.unscaled * if Shift(x, y, s) > 0 then Pow(10, Shift(x, y, s)) else 1
  }

  function Divisor(x: Val, y: Val, s: int): int {
    y.unscaled * if Shift(x, y, s) < 0 then Pow(10, -Shift(x, y, s)) else 1
  }

  lemma DivisorNonzero(x: Val, y: Val, s: int)
    requires y.unscaled != 0
    ensures Divisor(x, y, s) != 0
  {
    var k := -Shift(x, y, s);
    if k > 0 {
      PowPositive(10, k);
      ScaleBound(Pow(10, k), y.unscaled);
    }
  }

  /** A decimal z of scale s times y is x exactly when the integers agree. */
  lemma QuotientInUnits(x: Val, y: Val, z: Val)
    requires y.unscaled != 0
    ensures IsQuotient(z, x, y) <==>
            z.unscaled * Divisor(x, y, z.scale) == Dividend(x, y, z.scale)
  {
    hide Number, Dividend, Divisor, Ten, UnitExponent;
    DividendUnits(x, y, z.scale);
    DivisorUnits(x, y, z);
    CancelReal(z.unscaled * Divisor(x, y, z.scale), Dividend(x, y, z.scale), Ten(UnitExponent(x, y, z.scale)));
  }

  /** The power of ten that both sides of the division are counted in. */
  function UnitExponent(x: Val, y: Val, s: int): int {
    -x.scale - if Shift(x, y, s) > 0 then Shift(x, y, s) else 0
  }

  lemma DividendUnits(x: Val, y: Val, s: int)
    ensures Number(x) == Dividend(x, y, s) as real * Ten(UnitExponent(x, y, s))
  {
    if Shift(x, y, s) > 0 { Shifted(x, Shift(x, y, s)); }
  }

  lemma DivisorUnits(x: Val, y: Val, z: Val)
    ensures Number(z) * Number(y) == (z.unscaled * Divisor(x, y, z.scale)) as real * Ten(UnitExponent(x, y, z.scale))
  {
    hide Ten, Pow, Number;
    var k := -Shift(x, y, z.scale);
    var y' := if k > 0 then Val(y.unscaled * Pow(10, k), y.scale + k) else y;
    if k > 0 { Shifted(y, k); }
    assert Number(y') == Number(y) && y'.unscaled == Divisor(x, y, z.scale);
    assert -z.scale - y'.scale == UnitExponent(x, y, z.scale);
    ProductOfNumbers(z, y');
  }

  lemma ProductOfNumbers(a: Val, b: Val)
    ensures Number(a) * Number(b) == (a.unscaled * b.unscaled) as real * Ten(-a.scale - b.scale)
  {
    hide Ten;
    TenAdd(-a.scale, -b.scale);
    Regroup(a.unscaled, Ten(-a.scale), b.unscaled, Ten(-b.scale));
  }

  lemma Regroup(a: int, s: real, b: int, t: real)
    ensures (a as real * s) * (b as real * t) == (a * b) as real * (s * t)
  {
    RealProduct(a, b);
    Interchange(a as real, s, b as real, t);
  }

  lemma Interchange(a: real, s: real, b: real, t: real)
    ensures (a * s) * (b * t) == (a * b) * (s * t)
  {
    Associate(a, s, b * t);
    Associate(s, b, t);
    Associate(b, s, t);
    Associate(a, b, s * t);
    assert s * (b * t) == b * (s * t);
  }

  lemma CancelReal(a: int, b: int, t: real)
    requires t > 0.0
    ensures a as real * t == b as real * t <==> a == b
  {
    if a as real * t == b as real * t {
      assert (a as real - b as real) * t == 0.0;
    }
  }

  // ---- Rounding, defined by what the result must satisfy ----

  datatype Mode = RoundExact | RoundDown | RoundUp | RoundFloor | RoundCeil
                | RoundHalfDown | RoundHalfUp | RoundHalfEven

  predicate Below(n: int, d: int, r: int) { r * d <= n < r * d + d }   // r = floor(n/d)

  predicate Above(n: int, d: int, r: int) { r * d - d < n <= r * d }   // r = ceil(n/d)

  predicate Nearest(n: int, d: int, r: int) { 2 * Abs(n - r * d) <= d }

  predicate Tie(n: int, d: int, r: int) { 2 * Abs(n - r * d) == d }

  /** `r` is n/d rounded to an integer in the given mode, for d > 0. */
  predicate Rounded(mode: Mode, n: int, d: int, r: int) {
    match mode
    case RoundExact => r * d == n
    case RoundFloor => Below(n, d, r)
    case RoundCeil => Above(n, d, r)
    case RoundDown => if n >= 0 then Below(n, d, r) else Above(n, d, r)
    case RoundUp => if n >= 0 then Above(n, d, r) else Below(n, d, r)
    case RoundHalfDown => Nearest(n, d, r) && (Tie(n, d, r) ==> if n >= 0 then r * d <= n else n <= r * d)
    case RoundHalfUp => Nearest(n, d, r) && (Tie(n, d, r) ==> if n >= 0 then n <= r * d else r * d <= n)
    case RoundHalfEven => Nearest(n, d, r) && (Tie(n, d, r) ==> r % 2 == 0)
  }

  /** The exact quotient of two decimals. */
  function Quotient(x: Val, y: Val): real
    requires y.unscaled != 0
  {
    NonzeroNumber(y);
    Number(x) / Number(y)
  }

  lemma NonzeroNumber(y: Val)
    requires y.unscaled != 0
    ensures Number(y) != 0.0
  {
    ScaleReal(y.unscaled, 0, Ten(-y.scale));
  }

  /** `z`, a multiple of the unit u, is the real number q rounded in the given mode. */
  ghost predicate RoundsTo(mode: Mode, q: real, u: real, z: real) {
    match mode
    case RoundExact => z == q
    case RoundFloor => z <= q < z + u
    case RoundCeil => z - u < q <= z
    case RoundDown => if q >= 0.0 then z <= q < z + u else z - u < q <= z
    case RoundUp => if q >= 0.0 then z - u < q <= z else z <= q < z + u
    case RoundHalfDown => Near(q, u, z) && (Midway(q, u, z) ==> if q >= 0.0 then z <= q else q <= z)
    case RoundHalfUp => Near(q, u, z) && (Midway(q, u, z) ==> if q >= 0.0 then q <= z else z <= q)
    case RoundHalfEven => Near(q, u, z) && (Midway(q, u, z) ==> exists k :: IsDouble(k, u, z))
  }

  predicate IsDouble(k: int, u: real, z: real) { z == k as real * (u + u) }

  predicate Near(q: real, u: real, z: real) { z + z - u <= q + q <= z + z + u }

  predicate Midway(q: real, u: real, z: real) { q + q == z + z - u || q + q == z + z + u }

  lemma ScaleReal(a: int, b: int, e: real)
    requires e > 0.0
    ensures a <= b <==> a as real * e <= b as real * e
    ensures a == b <==> a as real * e == b as real * e
  {
    if a < b { assert (b as real - a as real) * e > 0.0; }
    if b < a { assert (a as real - b as real) * e > 0.0; }
  }

  /** With everything counted in units of e, the two ways to say it agree. */
  lemma SameRounding(mode: Mode, n: int, d: int, r: int, e: real, q: real, u: real, z: real)
    requires d > 0 && e > 0.0 && q == n as real * e && u == d as real * e && z == (r * d) as real * e
    ensures Rounded(mode, n, d, r) <==> RoundsTo(mode, q, u, z)
  {
    hide Rounded, RoundsTo, Near, Midway;
    var p := r * d;
    Order(0, 0, n, e, 0.0, 0.0, q);
    Order(p, 0, n, e, z, 0.0, q);
    Negated(d, e, u);
    Order(p, -d, n, e, z, -u, q);
    Order(p, d, n, e, z, u, q);
    Twice(n, e, q);
    Twice(p, e, z);
    Order(2 * p, -d, 2 * n, e, z + z, -u, q + q);
    Order(2 * p, d, 2 * n, e, z + z, u, q + q);
    SameModes(mode, n, d, r, q, u, z, e);
  }

  lemma Twice(a: int, e: real, x: real)
    requires x == a as real * e
    ensures x + x == (2 * a) as real * e
  {
  }

  lemma Negated(a: int, e: real, x: real)
    requires x == a as real * e
    ensures -x == (-a) as real * e
  {
  }

  /** Comparing integers is comparing them in units of e. */
  lemma Order(a: int, d: int, b: int, e: real, x: real, w: real, y: real)
    requires e > 0.0 && x == a as real * e && w == d as real * e && y == b as real * e
    ensures a + d <= b <==> x + w <= y
    ensures b <= a + d <==> y <= x + w
  {
    ScaleReal(a + d, b, e);
    ScaleReal(b, a + d, e);
    assert (a + d) as real * e == a as real * e + d as real * e;
  }

  lemma SameModes(mode: Mode, n: int, d: int, r: int, q: real, u: real, z: real, e: real)
    requires d > 0 && u == d as real * e && z == (r * d) as real * e && e > 0.0
    requires (0 <= n <==> 0.0 <= q) && (r * d <= n <==> z <= q) && (n <= r * d <==> q <= z)
    requires (n <= r * d - d <==> q <= z - u) && (r * d + d <= n <==> z + u <= q)
    requires (2 * (r * d) - d <= 2 * n <==> z + z - u <= q + q) && (2 * n <= 2 * (r * d) - d <==> q + q <= z + z - u)
    requires (2 * (r * d) + d <= 2 * n <==> z + z + u <= q + q) && (2 * n <= 2 * (r * d) + d <==> q + q <= z + z + u)
    ensures Rounded(mode, n, d, r) <==> RoundsTo(mode, q, u, z)
  {
    if mode.RoundHalfEven? { EvenMultiple(d, r, u, z, e); }
  }

  lemma EvenMultiple(d: int, r: int, u: real, z: real, e: real)
    requires d > 0 && u == d as real * e && z == (r * d) as real * e && e > 0.0
    ensures r % 2 == 0 <==> exists k :: IsDouble(k, u, z)
  {
    if r % 2 == 0 { HalfOf(r / 2, d, r, u, z, e); }
    if exists k :: IsDouble(k, u, z) {
      var k :| IsDouble(k, u, z);
      HalfOf(k, d, r, u, z, e);
    }
  }

  lemma HalfOf(k: int, d: int, r: int, u: real, z: real, e: real)
    requires d > 0 && u == d as real * e && z == (r * d) as real * e && e > 0.0
    ensures IsDouble(k, u, z) <==> r == 2 * k
  {
    Doubled(k, d, e, u);
    ScaleReal(r * d, 2 * k * d, e);
    CancelInt(r, 2 * k, d);
  }

  lemma CancelInt(a: int, b: int, d: int)
    requires d > 0
    ensures a * d == b * d <==> a == b
  {
    assert a * d - b * d == (a - b) * d;
    if a - b > 0 { ScaleBound(d, a - b); } else { ScaleBound(d, b - a); }
  }

  lemma Doubled(k: int, d: int, e: real, u: real)
    requires u == d as real * e
    ensures k as real * (u + u) == (2 * k * d) as real * e
  {
    RealProduct(2 * k, d);
    Associate((2 * k) as real, d as real, e);
    assert k as real * (u + u) == (2 * k) as real * u;
  }

  /** Rounding the integers of the division is rounding the quotient of the numbers. */
  lemma RoundedNumber(mode: Mode, x: Val, y: Val, z: Val)
    requires y.unscaled != 0
    ensures var n, d := Dividend(x, y, z.scale), Divisor(x, y, z.scale);
            d != 0 && (Rounded(mode, Upper(n, d), Abs(d), z.unscaled) <==>
              RoundsTo(mode, Quotient(x, y), Ten(-z.scale), Number(z)))
  {
    hide Dividend, Divisor, UnitExponent, Rounded, RoundsTo, Ten;
    var n, d := Dividend(x, y, z.scale), Divisor(x, y, z.scale);
    DivisorNonzero(x, y, z.scale);
    var u := Ten(-z.scale);
    var e := u / Abs(d) as real;
    QuotientInPlaces(x, y, z.scale, e);
    assert Abs(d) as real * e == u;
    InUnits(z.unscaled, Abs(d), e);
    SameRounding(mode, Upper(n, d), Abs(d), z.unscaled, e, Quotient(x, y), u, Number(z));
  }

  lemma InUnits(r: int, d: int, e: real)
    ensures (r * d) as real * e == r as real * (d as real * e)
  {
    RealProduct(r, d);
    Associate(r as real, d as real, e);
  }

  lemma {:induction false} QuotientInPlaces(x: Val, y: Val, s: int, e: real)
    requires y.unscaled != 0 && Divisor(x, y, s) != 0 && e == Ten(-s) / Abs(Divisor(x, y, s)) as real
    ensures Quotient(x, y) == Upper(Dividend(x, y, s), Divisor(x, y, s)) as real * e && e > 0.0
  {
    hide Dividend, Divisor, UnitExponent, Ten;
    var n, d, u, t := Dividend(x, y, s), Divisor(x, y, s), Ten(-s), Ten(UnitExponent(x, y, s));
    DividendUnits(x, y, s);
    DivisorUnits(x, y, Val(1, s));
    assert Number(Val(1, s)) == u;
    assert u * Number(y) == d as real * t;
    NonzeroNumber(y);
    Quotients(n, d, u, t, Number(x), Number(y), e);
  }

  lemma Quotients(n: int, d: int, u: real, t: real, a: real, b: real, e: real)
    requires d != 0 && u > 0.0 && t > 0.0 && b != 0.0 && a == n as real * t && u * b == d as real * t &&
             e == u / Abs(d) as real
    ensures a / b == Upper(n, d) as real * e && e > 0.0
  {
    var c := if d < 0 then -(e) else e;
    assert e * Abs(d) as real == u;
    assert c * d as real == u;
    // u b = d t and u = c d, so b c = t
    assert d as real * (c * b) == d as real * t by { Associate(c, d as real, b); }
    assert c * b == t by { CancelFactor(d as real, c * b, t); }
    assert n as real * c * b == a by { Associate(n as real, c, b); }
    assert a / b == n as real * c by { DivideBy(a, b, n as real * c); }
  }

  lemma CancelFactor(d: real, a: real, b: real)
    requires d != 0.0 && d * a == d * b
    ensures a == b
  {
    assert d * (a - b) == 0.0;
  }

  lemma DivideBy(a: real, b: real, c: real)
    requires b != 0.0 && c * b == a
    ensures a / b == c
  {
  }

  /** Each mode prescribes at most one result. */
  lemma RoundedUnique(mode: Mode, n: int, d: int, a: int, b: int)
    requires d > 0 && Rounded(mode, n, d, a) && Rounded(mode, n, d, b)
    ensures a == b
  {
    assert a * d - b * d == d * (a - b);
    ScaleBound(d, a - b);
    ScaleBound(d, a - b - 1);
    ScaleBound(d, a - b + 1);
  }

  /** n/d with the sign moved above the bar. */
  function Upper(n: int, d: int): int { if d < 0 then -n else n }

  /** What truncated division leaves, with the sign of the divisor moved above the bar. */
  lemma Truncated(n: int, d: int)
    requires d != 0
    ensures var t := Sign(d) * Rem(n, d);
            Upper(n, d) == Quo(n, d) * Abs(d) + t && Abs(t) == Abs(Rem(n, d)) < Abs(d) &&
            (t == 0 || Sign(t) == Sign(Upper(n, d))) && Sign(t) == Sign(Rem(n, d)) * Sign(d)
  {
    QuoRemLaw(n, d);
    assert Quo(n, d) * -d == -(Quo(n, d) * d);
  }

  lemma Neighbours(q: int, d: int)
    ensures (q + 1) * d == q * d + d && (q - 1) * d == q * d - d
  {
  }

  /** From the truncated quotient q and the remainder t to each directed mode. */
  lemma RoundDirected(n: int, d: int, q: int, t: int)
    requires d > 0 && n == q * d + t && Abs(t) < d && (t == 0 || Sign(t) == Sign(n))
    ensures t == 0 ==> Rounded(RoundExact, n, d, q)
    ensures Rounded(RoundDown, n, d, q)
    ensures Rounded(RoundUp, n, d, q + Sign(t))
    ensures Rounded(RoundFloor, n, d, if t < 0 then q - 1 else q)
    ensures Rounded(RoundCeil, n, d, if t > 0 then q + 1 else q)
  {
    Neighbours(q, d);
  }

  /** The nearest modes: by which half of the unit the remainder is in. */
  lemma RoundNearest(n: int, d: int, q: int, t: int)
    requires d > 0 && n == q * d + t && Abs(t) < d && (t == 0 || Sign(t) == Sign(n))
    ensures forall mode: Mode | mode.RoundHalfDown? || mode.RoundHalfUp? || mode.RoundHalfEven? ::
              Rounded(mode, n, d, if TieBreak(mode, Sign(2 * Abs(t) - d), q % 2) then q + Sign(t) else q)
  {
    Neighbours(q, d);
  }

  lemma CompareHalf(r: int, d: int)
    requires d != 0
    ensures Sign((if Sign(r) * Sign(d) < 0 then -(2 * r) else 2 * r) - d) * Sign(d) == Sign(2 * Abs(r) - Abs(d))
  {
  }

  // ---- Bit lengths ----

  function BitLen(n: nat): nat {
    if n == 0 then 0 else 1 + BitLen(n / 2)
  }

  lemma {:induction false} BitLenBounds(n: nat)
    ensures n < Pow(2, BitLen(n))
    ensures n > 0 ==> Pow(2, BitLen(n) - 1) <= n
  {
    if n > 0 { BitLenBounds(n / 2); }
  }

  lemma {:induction false} PowMonotone(a: nat, b: nat)
    requires a <= b
    ensures 0 < Pow(2, a) <= Pow(2, b)
    decreases b
  {
    if a < b { PowMonotone(a, b - 1); }
    else { PowPositive(2, a); }
  }

  lemma {:induction false} BitLenMonotone(a: nat, b: nat)
    requires a <= b
    ensures BitLen(a) <= BitLen(b)
  {
    if a > 0 { BitLenMonotone(a / 2, b / 2); }
  }

  /** Comparing bit lengths settles which half of the unit a remainder is in. */
  lemma {:induction false} BitLenDecidesHalf(r: nat, d: nat)
    requires r < d
    ensures BitLen(r) <= BitLen(d)
    ensures BitLen(r) < BitLen(d) - 1 ==> 2 * r < d
    ensures BitLen(r) > BitLen(d) - 1 ==> 2 * r > d
  {
    BitLenBounds(r);
    BitLenBounds(d);
    var k, m := BitLen(r), BitLen(d);
    BitLenMonotone(r, d);
    if k < m - 1 { PowMonotone(k + 1, m - 1); }
  }

  // ---- Decimals as objects ----

  class Dec {
    var unscaled: int
    var scale: int

    constructor (unscaled: int, scale: int)
      ensures this.unscaled == unscaled && this.scale == scale
    {
      this.unscaled, this.scale := unscaled, scale;
    }

    function Value(): Val reads this {
      Val(unscaled, scale)
    }

    method Set(x: Dec)
      modifies this
      ensures Value() == old(x.Value())
    {
      if this != x {
        unscaled, scale := x.unscaled, x.scale;
      }
    }

    /** Divides with scale `s`, leaving the remainder for the rounder. */
    method QuoRem(x: Dec, y: Dec, s: int) returns (remNum: int, remDen: int)
      requires y.unscaled != 0
      modifies this
      ensures var a, b := old(x.Value()), old(y.Value());
              remDen == Divisor(a, b, s) != 0 && remNum == Rem(Dividend(a, b, s), remDen) &&
              Value() == Val(Quo(Dividend(a, b, s), remDen), s)
    {
      var shift := s - (x.scale - y.scale);
      var ix, iy := x.unscaled, y.unscaled;
      if shift > 0 {
        ix := x.unscaled * Pow(10, shift);
      } else if shift < 0 {
        iy := y.unscaled * Pow(10, -shift);
      }
      DivisorNonzero(x.Value(), y.Value(), s);
      scale := s;
      unscaled := Quo(ix, iy);
      remNum, remDen := Rem(ix, iy), iy;
    }

    /** Rounds a truncated quotient, given the remainder it left. */
    method Round(mode: Mode, q: Dec, rA: int, rB: int, ghost n: int) returns (ok: bool)
      requires rB != 0 && q.unscaled == Quo(n, rB) && rA == Rem(n, rB)
      modifies this
      ensures ok <==> mode.RoundExact? ==> rA == 0
      ensures ok ==> scale == old(q.scale) && Rounded(mode, Upper(n, rB), Abs(rB), unscaled)
    {
      Truncated(n, rB);
      RoundDirected(Upper(n, rB), Abs(rB), Quo(n, rB), Sign(rB) * rA);
      match mode {
        case RoundExact =>
          if rA != 0 { return false; }
          Set(q);
        case RoundDown =>
          Set(q);
        case RoundUp =>
          Set(q);
          if rA != 0 { unscaled := unscaled + Sign(rA) * Sign(rB); }
        case RoundFloor =>
          Set(q);
          if Sign(rA) * Sign(rB) < 0 { unscaled := unscaled - 1; }
        case RoundCeil =>
          Set(q);
          if Sign(rA) * Sign(rB) > 0 { unscaled := unscaled + 1; }
        case _ =>
          RoundHalf(mode, q, rA, rB, n);
      }
      return true;
    }

    method RoundHalf(mode: Mode, q: Dec, rA: int, rB: int, ghost n: int)
      requires mode.RoundHalfDown? || mode.RoundHalfUp? || mode.RoundHalfEven?
      requires rB != 0 && q.unscaled == Quo(n, rB) && rA == Rem(n, rB)
      modifies this
      ensures scale == old(q.scale) && Rounded(mode, Upper(n, rB), Abs(rB), unscaled)
    {
      Truncated(n, rB);
      RoundNearest(Upper(n, rB), Abs(rB), Quo(n, rB), Sign(rB) * rA);
      BitLenDecidesHalf(Abs(rA), Abs(rB));
      CompareHalf(rA, rB);
      Set(q);
      var brA, brB := BitLen(Abs(rA)), BitLen(Abs(rB));
      if brA < brB - 1 {
        return;
      }
      var roundUp := false;
      var s := Sign(rA) * Sign(rB);
      if brA == brB - 1 {
        var rA2 := 2 * rA;
        if s < 0 { rA2 := -rA2; }
        roundUp := TieBreak(mode, Sign(rA2 - rB) * Sign(rB), unscaled % 2);
      } else {
        roundUp := true;
      }
      if roundUp {
        unscaled := unscaled + s;
      }
    }

    /** The quotient rounded to scale `s`; the receiver may be an operand. */
    method QuoRound(x: Dec, y: Dec, s: int, mode: Mode) returns (ok: bool)
      requires y.unscaled != 0
      modifies this
      ensures var n, d := Dividend(old(x.Value()), old(y.Value()), s), Divisor(old(x.Value()), old(y.Value()), s);
              d != 0 &&
              (ok <==> exists r :: Rounded(mode, Upper(n, d), Abs(d), r)) &&
              (ok ==> scale == s && Rounded(mode, Upper(n, d), Abs(d), unscaled)) &&
              (!ok ==> Value() == old(Value()))
      ensures ok ==> RoundsTo(mode, Quotient(old(x.Value()), old(y.Value())), Ten(-s), Number(Value()))
      ensures !ok ==> forall r :: !RoundsTo(mode, Quotient(old(x.Value()), old(y.Value())), Ten(-s), Number(Val(r, s)))
    {
      hide RoundsTo, Ten, Number, Quotient;
      ghost var a, b := x.Value(), y.Value();
      var zz := new Dec(0, 0);
      var zzz := new Dec(0, 0);
      var rA, rB := zz.QuoRem(x, y, s);
      ghost var n := Dividend(a, b, s);
      ok := zzz.Round(mode, zz, rA, rB, n);
      if !ok {
        forall r ensures !Rounded(mode, Upper(n, rB), Abs(rB), r) &&
          !RoundsTo(mode, Quotient(a, b), Ten(-s), Number(Val(r, s))) {
          ExactMeansEqual(n, rB, r);
          RoundedNumber(mode, a, b, Val(r, s));
        }
        return;
      }
      Set(zzz);
      assert Rounded(mode, Upper(n, rB), Abs(rB), unscaled);
      RoundedNumber(mode, a, b, Value());
    }

    /** Exact division: it succeeds exactly when the quotient is a finite decimal,
        and then with the least scale, from x.scale - y.scale up, that fits. */
    method QuoExact(x: Dec, y: Dec) returns (ok: bool)
      requires y.unscaled != 0
      modifies this
      ensures ok <==> exists z: Val :: IsQuotient(z, old(x.Value()), old(y.Value()))
      ensures ok ==> IsQuotient(Value(), old(x.Value()), old(y.Value()))
      ensures ok ==> scale >= old(x.scale) - old(y.scale)
      ensures ok ==> forall z: Val ::
                IsQuotient(z, old(x.Value()), old(y.Value())) && z.scale >= old(x.scale) - old(y.scale) ==>
                  scale <= z.scale
      ensures !ok ==> Value() == old(Value())
    {
      hide Dividend, Divisor, Rounded, IsQuotient, ExactScaleFactors, Upper, Abs;
      ghost var a, b := x.Value(), y.Value();
      var s, f2, f5 := ScaleQuoExact(x, y);
      ghost var n, d := Dividend(a, b, s), Divisor(a, b, s);
      ok := QuoRound(x, y, s, RoundExact);
      if ok {
        ExactMeansEqual(n, d, unscaled);
        QuotientInUnits(a, b, Value());
      }
      forall z: Val | IsQuotient(z, a, b)
        ensures ok && (z.scale >= a.scale - b.scale ==> s <= z.scale)
      {
        var w := ScaleSuffices(a, b, z, f2, f5);
        ExactMeansEqual(n, d, w);
      }
    }

    /** The scale at which a finite quotient is exact, from the factors of 2 and
        5 in the denominator of the operands' unscaled values in lowest terms. */
    method ScaleQuoExact(x: Dec, y: Dec) returns (s: int, f2: nat, f5: nat)
      requires y.unscaled != 0
      ensures ExactScaleFactors(x.Value(), y.Value(), f2, f5)
      ensures s == x.scale - y.scale + Max(f2, f5)
    {
      LowestTerms(Abs(x.unscaled), Abs(y.unscaled));
      var denom := Abs(y.unscaled) / Gcd(Abs(x.unscaled), Abs(y.unscaled));
      f2 := Factor2(denom);
      f5 := Factor(denom, 5);
      FactorsTogether(denom, f2, f5);
      s := x.scale - y.scale + if f2 > f5 then f2 else f5;
    }
  }

  lemma FactorStep(k: int, p: int, e: int, d: int)
    requires p > 1 && d > 0 && d == p * e
    ensures k * d == (p * k) * e && 0 < e < d
  {
    Regroup3(k, p, e);
    PositiveFactor(p, e, d);
    ScaleBound(e, p - 1);
    assert p * e == e * (p - 1) + e;
  }

  lemma Regroup3(k: int, p: int, e: int)
    ensures k * (p * e) == (p * k) * e
  {
    assert k * (p * e) == (k * p) * e;
  }

  method Factor(n: int, p: int) returns (f: nat)
    requires n > 0 && p > 1
    ensures Pow(p, f) > 0 && n % Pow(p, f) == 0 && (n / Pow(p, f)) % p != 0
  {
    var d := n;
    f := 0;
    while d % p == 0
      invariant d > 0 && n == Pow(p, f) * d
      decreases d
    {
      assert d == p * (d / p);
      FactorStep(Pow(p, f), p, d / p, d);
      d := d / p;
      f := f + 1;
    }
    PowPositive(p, f);
    MultipleIsDivided(Pow(p, f), d);
  }

  /** Bit `f` of a natural number. */
  function Bit(n: nat, f: nat): int {
    (n / Halves(f)) % 2
  }

  function Halves(f: nat): (r: nat)
    ensures r > 0 && r == Pow(2, f)
  {
    if f == 0 then 1 else 2 * Halves(f - 1)
  }

  method Factor2(n: int) returns (f: nat)
    requires n > 0
    ensures Pow(2, f) > 0 && n % Pow(2, f) == 0 && (n / Pow(2, f)) % 2 != 0
  {
    f := 0;
    ghost var d := n;
    while Bit(n, f) == 0
      invariant d > 0 && n == Pow(2, f) * d && n / Pow(2, f) == d
      decreases d
    {
      ghost var e := d / 2;
      assert Pow(2, f) * (2 * e) == Pow(2, f + 1) * e;
      PowPositive(2, f + 1);
      MultipleIsDivided(Pow(2, f + 1), e);
      d := e;
      f := f + 1;
    }
    PowPositive(2, f);
    MultipleIsDivided(Pow(2, f), d);
  }

  // ---- Exact division lemmas ----

  function Max(a: nat, b: nat): nat {
    if a > b then a else b
  }

  /** z * y is x, as numbers. */
  ghost predicate IsQuotient(z: Val, x: Val, y: Val) {
    Number(z) * Number(y) == Number(x)
  }

  ghost predicate ExactScaleFactors(x: Val, y: Val, f2: nat, f5: nat) {
    && y.unscaled != 0
    && Gcd(Abs(x.unscaled), Abs(y.unscaled)) > 0
    && exists rest :: Factored(Abs(y.unscaled) / Gcd(Abs(x.unscaled), Abs(y.unscaled)), f2, f5, rest)
  }

  lemma {:induction false} FactorsTogether(n: int, f2: nat, f5: nat)
    requires n > 0 && Pow(2, f2) > 0 && Pow(5, f5) > 0
    requires n % Pow(2, f2) == 0 && (n / Pow(2, f2)) % 2 != 0
    requires n % Pow(5, f5) == 0 && (n / Pow(5, f5)) % 5 != 0
    ensures exists rest :: Factored(n, f2, f5, rest)
  {
    var t, f := Pow(2, f2), Pow(5, f5);
    assert Combines(5, 2, 1, -2);
    CoprimePower(5, 2, f2);
    CoprimeSymmetric(5, t);
    CoprimePower(t, 5, f5);
    CoprimeSymmetric(t, f);
    var rest := SplitFactors(n, t, f);
    assert Factored(n, f2, f5, rest);
  }

  lemma SplitFactors(n: int, t: int, f: int) returns (rest: int)
    requires n > 0 && t > 0 && f > 0 && Coprime(f, t)
    requires n % t == 0 && (n / t) % 2 != 0 && n % f == 0 && (n / f) % 5 != 0
    ensures n == t * (f * rest) && rest > 0 && rest % 2 == 1 && rest % 5 != 0
  {
    var m := n / t;
    assert n == t * m;
    CoprimeCancels(f, t, m);
    rest := m / f;
    assert m == f * rest;
    assert n == t * (f * rest);
    PositiveFactor(t, m, n);
    PositiveFactor(f, rest, m);
    if rest % 2 == 0 { MultipleOf(f, rest, 2); }
    QuotientOf(n, t, f, rest);
    if rest % 5 == 0 { MultipleOf(t, rest, 5); }
  }

  lemma QuotientOf(n: int, t: int, f: int, rest: int)
    requires f > 0 && n == t * (f * rest)
    ensures n / f == t * rest
  {
    assert t * (f * rest) == f * (t * rest);
    MultipleIsDivided(f, t * rest);
  }

  lemma MultipleOf(k: int, r: int, p: int)
    requires p > 0 && r % p == 0
    ensures (k * r) % p == 0
  {
    assert r == p * (r / p);
    assert k * r == p * (k * (r / p));
    MultipleIsDivided(p, k * (r / p));
  }

  lemma PositiveFactor(k: int, r: int, n: int)
    requires k > 0 && n > 0 && n == k * r
    ensures r > 0
  {
    ScaleBound(k, r);
  }

  lemma ExactMeansEqual(n: int, d: int, r: int)
    requires d != 0
    ensures Rounded(RoundExact, Upper(n, d), Abs(d), r) <==> r * d == n
    ensures r * d == n ==> Rem(n, d) == 0
  {
    assert r * (-d) == -(r * d);
    if r * d == n {
      QuoRemLaw(n, d);
      assert Rem(n, d) == d * (r - Quo(n, d));
      ScaleBound(Abs(d), r - Quo(n, d));
      assert (-d) * (r - Quo(n, d)) == -(d * (r - Quo(n, d)));
    }
  }

  /** A dividend of the right size is divided by |d| exactly when by d. */
  lemma DividesAbs(d: int, n: int, w: int)
    requires d != 0 && w * d == n
    ensures Divides(Abs(d), Abs(n))
  {
    assert n == d * w && -n == d * -w && n == -d * -w && -n == -d * w;
    MultipleIsDivided(Abs(d), w);
    MultipleIsDivided(Abs(d), -w);
  }

  lemma AbsDivides(d: int, n: int) returns (w: int)
    requires d != 0 && Divides(Abs(d), Abs(n))
    ensures w * d == n
  {
    var k := Abs(n) / Abs(d);
    assert Abs(n) == Abs(d) * k;
    w := if (n < 0) == (d < 0) then k else -k;
    assert (-k) * d == -(k * d) && k * (-d) == -(k * d);
  }

  lemma AbsProduct(a: int, p: int)
    requires p > 0
    ensures Abs(a * p) == Abs(a) * p
  {
    assert (-a) * p == -(a * p);
    if a >= 0 { assert a * p >= 0; } else { assert (-a) * p >= 0; }
  }

  /** Whenever some decimal is the quotient, the denominator has no primes but 2
      and 5, the computed scale makes the division come out even, and no smaller
      scale from x.scale - y.scale up does. */
  lemma ScaleSuffices(x: Val, y: Val, z: Val, f2: nat, f5: nat) returns (w: int)
    requires IsQuotient(z, x, y) && ExactScaleFactors(x, y, f2, f5)
    ensures var s := x.scale - y.scale + Max(f2, f5); w * Divisor(x, y, s) == Dividend(x, y, s)
    ensures z.scale >= x.scale - y.scale ==> x.scale - y.scale + Max(f2, f5) <= z.scale
  {
    hide IsQuotient, Factored, Divides;
    var j, v := IntegerQuotient(x, y, z);
    var a, b := Abs(x.unscaled), Abs(y.unscaled);
    EvenDivision(x.unscaled, y.unscaled, j, v);
    ClearsDenominator(a, b, j);
    var rest :| Factored(b / Gcd(a, b), f2, f5, rest);
    DividesPowerOfTen(b / Gcd(a, b), f2, f5, rest, j);
    var f := Max(f2, f5);
    DividesPowerOfTen(b / Gcd(a, b), f2, f5, rest, f);
    ClearsDenominator(a, b, f);
    w := DivideEvenly(x.unscaled, y.unscaled, f);
  }

  /** A decimal quotient makes some shifted dividend an integer multiple. */
  lemma IntegerQuotient(x: Val, y: Val, z: Val) returns (j: nat, v: int)
    requires y.unscaled != 0 && IsQuotient(z, x, y)
    ensures v * y.unscaled == x.unscaled * Pow(10, j)
    ensures j == if Shift(x, y, z.scale) > 0 then Shift(x, y, z.scale) else 0
  {
    hide IsQuotient;
    var e := Shift(x, y, z.scale);
    QuotientInUnits(x, y, z);
    j := if e > 0 then e else 0;
    v := z.unscaled;
    if e < 0 {
      v := z.unscaled * Pow(10, -e);
      assert z.unscaled * (y.unscaled * Pow(10, -e)) == v * y.unscaled;
    }
  }

  lemma {:induction false} EvenDivision(a: int, b: int, j: nat, v: int)
    requires b != 0 && v * b == a * Pow(10, j)
    ensures Divides(Abs(b), Abs(a) * Pow(10, j))
  {
    PowPositive(10, j);
    AbsProduct(a, Pow(10, j));
    DividesAbs(b, a * Pow(10, j), v);
  }

  lemma DivideEvenly(a: int, b: int, j: nat) returns (w: int)
    requires b != 0 && Divides(Abs(b), Abs(a) * Pow(10, j))
    ensures w * b == a * Pow(10, j)
  {
    PowPositive(10, j);
    AbsProduct(a, Pow(10, j));
    w := AbsDivides(b, a * Pow(10, j));
  }

  // ---- Rounding lemmas ----

  predicate TieBreak(mode: Mode, c: int, odd: int) {
    match mode
    case RoundHalfDown => c > 0
    case RoundHalfUp => c >= 0
    case _ => c > 0 || (c == 0 && odd == 1)
  }
}
