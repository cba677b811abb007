/** Powers, divisibility and coprimality, as far as exact decimal division needs them. */
module Divisibility {

  function Pow(b: int, n: nat): int {
    if n == 0 then 1 else b * Pow(b, n - 1)
  }

  function Abs(n: int): nat {
    if n < 0 then -n else n
  }

  /** `d` divides `n`. */
  predicate Divides(d: int, n: int)
    requires d > 0
  {
    n % d == 0
  }

  lemma {:induction false} PowPositive(b: int, n: nat)
    requires b > 0
    ensures Pow(b, n) > 0
  {
    if n > 0 { PowPositive(b, n - 1); }
  }

  lemma {:induction false} PowAdd(b: int, m: nat, n: nat)
    ensures Pow(b, m + n) == Pow(b, m) * Pow(b, n)
  {
    if m > 0 {
      PowAdd(b, m - 1, n);
      assert b * (Pow(b, m - 1) * Pow(b, n)) == b * Pow(b, m - 1) * Pow(b, n);
    }
  }

  lemma Rearrange(a: int, b: int, x: int, y: int)
    ensures (a * b) * (x * y) == (a * x) * (b * y)
  {
    assert (a * b) * (x * y) == a * (b * (x * y));
    assert b * (x * y) == x * (b * y);
    assert (a * x) * (b * y) == a * (x * (b * y));
  }

  lemma {:induction false} PowMul(a: int, b: int, n: nat)
    ensures Pow(a * b, n) == Pow(a, n) * Pow(b, n)
  {
    if n > 0 {
      PowMul(a, b, n - 1);
      Rearrange(a, b, Pow(a, n - 1), Pow(b, n - 1));
    }
  }

  lemma ScaleBound(d: int, m: int)
    requires d > 0
    ensures m >= 1 ==> d * m >= d
    ensures m <= -1 ==> d * m <= -d
  {
    if m >= 1 { assert d * (m - 1) >= 0; }
    if m <= -1 { assert d * (-m - 1) >= 0; }
  }

  lemma MultipleIsDivided(d: int, k: int)
    requires d > 0
    ensures (d * k) % d == 0 && (d * k) / d == k
  {
    var q, r := (d * k) / d, (d * k) % d;
    assert d * (k - q) == r;
    ScaleBound(d, k - q);
    assert k == q;
  }

  lemma DividesMultiple(d: int, n: int, m: int)
    requires d > 0 && Divides(d, n)
    ensures Divides(d, n * m)
  {
    var k := n / d;
    assert n == d * k;
    assert n * m == d * (k * m);
    MultipleIsDivided(d, k * m);
  }

  lemma DividesSum(d: int, a: int, b: int)
    requires d > 0 && Divides(d, a) && Divides(d, b)
    ensures Divides(d, a + b)
  {
    assert a == d * (a / d) && b == d * (b / d);
    assert a + b == d * (a / d + b / d);
    MultipleIsDivided(d, a / d + b / d);
  }

  lemma DividesTransitive(d: int, e: int, n: int)
    requires d > 0 && e > 0 && Divides(d, e) && Divides(e, n)
    ensures Divides(d, n)
  {
    assert n == e * (n / e);
    DividesMultiple(d, e, n / e);
  }

  /** A common positive factor can be cancelled. */
  lemma CancelFactor(g: int, d: int, n: int)
    requires g > 0 && d > 0
    ensures g * d > 0 && (Divides(g * d, g * n) <==> Divides(d, n))
  {
    assert g * d > 0;
    if Divides(g * d, g * n) {
      var k := (g * n) / (g * d);
      assert g * n == (g * d) * k;
      assert g * (n - d * k) == 0;
      assert n == d * k;
      MultipleIsDivided(d, k);
    }
    if Divides(d, n) {
      var k := n / d;
      assert n == d * k;
      assert g * n == (g * d) * k;
      MultipleIsDivided(g * d, k);
    }
  }

  // ---- Coprimality, through the combination that makes one ----

  ghost predicate Combines(a: int, b: int, u: int, v: int) {
    a * u + b * v == 1
  }

  ghost predicate Coprime(a: int, b: int) {
    exists u, v :: Combines(a, b, u, v)
  }

  lemma CoprimeSymmetric(a: int, b: int)
    requires Coprime(a, b)
    ensures Coprime(b, a)
  {
    var u, v :| Combines(a, b, u, v);
    assert Combines(b, a, v, u);
  }

  lemma CoprimeProduct(a: int, b: int, c: int)
    requires Coprime(a, b) && Coprime(a, c)
    ensures Coprime(a, b * c)
  {
    var u, v :| Combines(a, b, u, v);
    var s, t :| Combines(a, c, s, t);
    var w := u * (a * s + c * t) + (b * v) * s;
    assert a * w + (b * c) * (v * t) == (a * u + b * v) * (a * s + c * t) by {
      assert a * w == a * u * (a * s + c * t) + (b * v) * (a * s);
      assert (b * c) * (v * t) == (b * v) * (c * t);
    }
    assert Combines(a, b * c, w, v * t);
  }

  lemma {:induction false} CoprimePower(a: int, b: int, n: nat)
    requires Coprime(a, b)
    ensures Coprime(a, Pow(b, n))
  {
    if n == 0 {
      assert Combines(a, 1, 0, 1);
    } else {
      CoprimePower(a, b, n - 1);
      CoprimeProduct(a, b, Pow(b, n - 1));
    }
  }

  /** A factor coprime to one side of a product divides the other. */
  lemma CoprimeCancels(d: int, a: int, b: int)
    requires d > 0 && Coprime(d, a) && Divides(d, a * b)
    ensures Divides(d, b)
  {
    var u, v :| Combines(d, a, u, v);
    assert b == d * (u * b) + (a * b) * v by {
      assert (d * u + a * v) * b == d * (u * b) + (a * b) * v;
    }
    MultipleIsDivided(d, u * b);
    DividesMultiple(d, a * b, v);
    DividesSum(d, d * (u * b), (a * b) * v);
  }

  lemma OddCoprimeTwo(n: int)
    requires n % 2 == 1
    ensures Coprime(n, 2)
  {
    assert Combines(n, 2, 1, -(n / 2));
  }

  lemma NonMultipleCoprimeFive(n: int)
    requires n % 5 != 0
    ensures Coprime(n, 5)
  {
    var k := n / 5;
    if n % 5 == 1 { assert Combines(n, 5, 1, -k); }
    else if n % 5 == 2 { assert Combines(n, 5, 3, -3 * k - 1); }
    else if n % 5 == 3 { assert Combines(n, 5, 2, -2 * k - 1); }
    else { assert Combines(n, 5, 4, -4 * k - 3); }
  }

  // ---- Lowest terms ----

  /** The greatest common divisor, which big.Rat divides out. */
  function Gcd(a: nat, b: nat): nat
    decreases b
  {
    if b == 0 then a else Gcd(b, a % b)
  }

  lemma {:induction false} GcdCombines(a: nat, b: nat) returns (u: int, v: int)
    requires a > 0 || b > 0
    ensures Gcd(a, b) > 0 && Divides(Gcd(a, b), a) && Divides(Gcd(a, b), b)
    ensures Gcd(a, b) == a * u + b * v
    decreases b
  {
    if b == 0 {
      u, v := 1, 0;
    } else {
      var s, t := GcdCombines(b, a % b);
      var g, q := Gcd(b, a % b), a / b;
      u, v := t, s - q * t;
      assert a == b * q + a % b;
      assert b * s + (a - b * q) * t == a * t + b * (s - q * t);
      DividesMultiple(g, b, q);
      DividesSum(g, b * q, a % b);
    }
  }

  lemma {:induction false} LowestTerms(a: nat, b: nat)
    requires b > 0
    ensures var g := Gcd(a, b); g > 0 && b / g > 0 && a == g * (a / g) && b == g * (b / g) && Coprime(b / g, a / g)
  {
    var u, v := GcdCombines(a, b);
    var g := Gcd(a, b);
    Reduced(g, a / g, b / g, u, v);
    assert Combines(b / g, a / g, v, u);
  }

  lemma Reduced(g: int, x: int, y: int, u: int, v: int)
    requires g > 0 && g == (g * x) * u + (g * y) * v
    ensures x * u + y * v == 1
  {
    assert g * (x * u + y * v) == (g * x) * u + (g * y) * v;
    ScaleBound(g, x * u + y * v - 1);
  }

  // ---- Denominators of finite decimals ----

  /** The exponents of 2 and 5 in `d`, the rest being free of both. */
  ghost predicate Factored(d: int, f2: nat, f5: nat, rest: int) {
    d == Pow(2, f2) * (Pow(5, f5) * rest) && rest > 0 && rest % 2 == 1 && rest % 5 != 0
  }

  lemma {:induction false} SmallPower(p: int, q: int, a: nat, j: nat)
    requires p > 1 && q > 1 && Coprime(p, q)
    requires Pow(p, a) > 0 && Divides(Pow(p, a), Pow(p, j) * Pow(q, j))
    ensures a <= j
  {
    if a > j {
      PowPositive(p, j);
      PowPositive(p, a - j);
      PowAdd(p, j, a - j);
      CancelFactor(Pow(p, j), Pow(p, a - j), Pow(q, j));
      assert Divides(Pow(p, a - j), Pow(q, j));
      var k := a - j - 1;
      assert Pow(p, a - j) == p * Pow(p, k);
      MultipleIsDivided(p, Pow(p, k));
      DividesTransitive(p, Pow(p, a - j), Pow(q, j));
      CoprimePower(p, q, j);
      assert Pow(q, j) * 1 == Pow(q, j);
      CoprimeCancels(p, Pow(q, j), 1);
      assert false;
    }
  }

  /** A divisor of a power of ten has no prime other than 2 and 5. */
  lemma {:induction false} NoOtherPrime(rest: int, j: nat)
    requires rest > 0 && rest % 2 == 1 && rest % 5 != 0
    requires Divides(rest, Pow(2, j) * Pow(5, j))
    ensures rest == 1
  {
    OddCoprimeTwo(rest);
    NonMultipleCoprimeFive(rest);
    CoprimePower(rest, 2, j);
    CoprimePower(rest, 5, j);
    CoprimeCancels(rest, Pow(2, j), Pow(5, j));
    assert Pow(5, j) * 1 == Pow(5, j);
    CoprimeCancels(rest, Pow(5, j), 1);
  }

  lemma {:induction false} LargePowerIsDivided(f2: nat, f5: nat, j: nat)
    requires f2 <= j && f5 <= j
    ensures Pow(2, f2) * Pow(5, f5) > 0
    ensures Divides(Pow(2, f2) * Pow(5, f5), Pow(2, j) * Pow(5, j))
  {
    hide Pow;
    PowPositive(2, f2);
    PowPositive(5, f5);
    PowAdd(2, f2, j - f2);
    PowAdd(5, f5, j - f5);
    ProductDivides(Pow(2, f2), Pow(5, f5), Pow(2, j - f2), Pow(5, j - f5));
  }

  lemma ProductDivides(t: int, f: int, x: int, y: int)
    requires t > 0 && f > 0
    ensures t * f > 0 && Divides(t * f, (t * x) * (f * y))
  {
    Rearrange(t, f, x, y);
    MultipleIsDivided(t * f, x * y);
  }

  /** `d` divides the power of ten 10^j exactly when it has no prime other than
      2 and 5 and neither occurs more than j times. */
  lemma {:induction false} DividesPowerOfTen(d: int, f2: nat, f5: nat, rest: int, j: nat)
    requires d > 0 && Factored(d, f2, f5, rest)
    ensures Divides(d, Pow(10, j)) <==> rest == 1 && f2 <= j && f5 <= j
  {
    PowMul(2, 5, j);
    var t, f := Pow(2, f2), Pow(5, f5);
    PowPositive(2, f2);
    PowPositive(5, f5);
    if Divides(d, Pow(10, j)) {
      Parts(t, f, rest);
      DividesTransitive(rest, d, Pow(10, j));
      NoOtherPrime(rest, j);
      assert Combines(2, 5, -2, 1) && Combines(5, 2, 1, -2);
      DividesTransitive(t, d, Pow(10, j));
      SmallPower(2, 5, f2, j);
      DividesTransitive(f, d, Pow(10, j));
      assert Pow(2, j) * Pow(5, j) == Pow(5, j) * Pow(2, j);
      SmallPower(5, 2, f5, j);
    }
    if rest == 1 && f2 <= j && f5 <= j { LargePowerIsDivided(f2, f5, j); }
  }

  lemma Parts(t: int, f: int, r: int)
    requires t > 0 && f > 0 && r > 0
    ensures t * (f * r) > 0
    ensures Divides(t, t * (f * r)) && Divides(f, t * (f * r)) && Divides(r, t * (f * r))
  {
    assert f * r > 0;
    assert t * (f * r) == f * (t * r) && t * (f * r) == r * (t * f);
    MultipleIsDivided(t, f * r);
    MultipleIsDivided(f, t * r);
    MultipleIsDivided(r, t * f);
  }

  /** For a fraction in lowest terms a power of ten clears the denominator
      exactly when the denominator divides that power. */
  lemma {:induction false} ClearsDenominator(a: nat, b: nat, j: nat)
    requires b > 0
    ensures Gcd(a, b) > 0 && b / Gcd(a, b) > 0
    ensures Divides(b, a * Pow(10, j)) <==> Divides(b / Gcd(a, b), Pow(10, j))
  {
    LowestTerms(a, b);
    var g := Gcd(a, b);
    ClearsReduced(g, a / g, b / g, Pow(10, j));
  }

  lemma ClearsReduced(g: int, x: int, y: int, p: int)
    requires g > 0 && y > 0 && Coprime(y, x)
    ensures g * y > 0
    ensures Divides(g * y, (g * x) * p) <==> Divides(y, p)
  {
    assert (g * x) * p == g * (x * p);
    CancelFactor(g, y, x * p);
    if Divides(y, x * p) { CoprimeCancels(y, x, p); }
    if Divides(y, p) {
      DividesMultiple(y, p, x);
      assert p * x == x * p;
    }
  }
}
