/** Rationals in lowest terms, and the greatest common divisor behind them. */
module Rationals {
  import opened Arithmetic

  predicate Divides(d: nat, n: int)
    requires d > 0
  {
    n % d == 0
  }

  function Gcd(a: nat, b: nat): nat
    decreases b
  {
    if b == 0 then a else Gcd(b, a % b)
  }

  /** The remainder loop of the source. */
  method ComputeGcd(a: nat, b: nat) returns (g: nat)
    ensures g == Gcd(a, b)
  {
    var x, y := a, b;
    while y != 0
      invariant Gcd(x, y) == Gcd(a, b)
      decreases y
    {
      var t := y;
      y := x % y;
      x := t;
    }
    g := x;
  }

  lemma {:induction false} GcdPositive(a: nat, b: nat)
    requires a > 0 || b > 0
    ensures Gcd(a, b) > 0
    decreases b
  {
    if b > 0 { GcdPositive(b, a % b); }
  }

  lemma DividesSum(d: nat, x: int, y: int, p: int, q: int)
    requires d > 0 && Divides(d, x) && Divides(d, y)
    ensures Divides(d, p * x + q * y)
  {
    ExactQuotient(x, d);
    ExactQuotient(y, d);
    var k := p * (x / d) + q * (y / d);
    assert p * x + q * y == k * d by {
      assert p * (x / d * d) == p * (x / d) * d;
      assert q * (y / d * d) == q * (y / d) * d;
      assert (p * (x / d) + q * (y / d)) * d == p * (x / d) * d + q * (y / d) * d;
    }
    MultipleMod(k, d);
  }

  lemma {:induction false} GcdDivides(a: nat, b: nat)
    requires a > 0 || b > 0
    ensures Gcd(a, b) > 0 && Divides(Gcd(a, b), a) && Divides(Gcd(a, b), b)
    decreases b
  {
    GcdPositive(a, b);
    var g := Gcd(a, b);
    if b == 0 {
      MultipleMod(1, a);
      MultipleMod(0, a);
    } else {
      GcdDivides(b, a % b);
      DividesSum(g, b, a % b, a / b, 1);
      assert a / b * b + 1 * (a % b) == a;
    }
  }

  /** Every common divisor divides the one computed: it is the greatest. */
  lemma {:induction false} GcdGreatest(a: nat, b: nat, d: nat)
    requires d > 0 && Divides(d, a) && Divides(d, b)
    ensures Divides(d, Gcd(a, b))
    decreases b
  {
    if b > 0 {
      DividesSum(d, a, b, 1, -(a / b));
      assert 1 * a + -(a / b) * b == a % b;
      GcdGreatest(b, a % b, d);
    }
  }

  lemma {:induction false} Bezout(a: nat, b: nat) returns (x: int, y: int)
    ensures a * x + b * y == Gcd(a, b)
    decreases b
  {
    if b == 0 {
      x, y := 1, 0;
    } else {
      var u, v := Bezout(b, a % b);
      x, y := v, u - a / b * v;
      BezoutStep(a, b, a / b, a % b, u, v);
    }
  }

  lemma BezoutStep(a: int, b: int, q: int, r: int, u: int, v: int)
    requires a == q * b + r
    ensures a * v + b * (u - q * v) == b * u + r * v
  {
    assert a * v == (q * b) * v + r * v;
    assert b * (u - q * v) == b * u - b * (q * v);
    assert b * (q * v) == (q * b) * v;
  }

  lemma BezoutScaled(a: int, b: int, c: int, x: int, y: int)
    requires a * x + b * y == 1
    ensures 1 * ((x * c) * a) + y * (b * c) == c
  {
    assert (x * c) * a == (a * x) * c;
    assert y * (b * c) == (b * y) * c;
    assert (a * x) * c + (b * y) * c == (a * x + b * y) * c;
  }

  /** A divisor of a product that is coprime to one factor divides the other. */
  lemma EuclidLemma(a: nat, b: nat, c: int)
    requires a > 0 && Gcd(a, b) == 1 && Divides(a, b * c)
    ensures Divides(a, c)
  {
    var x, y := Bezout(a, b);
    MultipleMod(x * c, a);
    DividesSum(a, (x * c) * a, b * c, 1, y);
    BezoutScaled(a, b, c, x, y);
  }

  function Abs(n: int): nat {
    if n < 0 then -n else n
  }

  lemma AbsDivides(d: nat, n: int)
    requires d > 0
    ensures Divides(d, Abs(n)) <==> Divides(d, n)
  {
    if Divides(d, n) { DividesSum(d, n, 0, -1, 0); }
    if Divides(d, -n) { DividesSum(d, -n, 0, -1, 0); }
  }

  // ---- Lowest terms --------------------------------------------------------------

  /** Divide both parts by their greatest common divisor. */
  function Lowest(n: int, d: int): (int, int)
    requires d != 0
  {
    GcdPositive(Abs(n), Abs(d));
    var g := Gcd(Abs(n), Abs(d));
    (n / g, d / g)
  }

  lemma LowestParts(n: int, d: int)
    requires d != 0
    ensures var g := Gcd(Abs(n), Abs(d)); var (p, q) := Lowest(n, d);
            g > 0 && n == p * g && d == q * g && q != 0 && (q > 0 <==> d > 0)
  {
    GcdDivides(Abs(n), Abs(d));
    var g := Gcd(Abs(n), Abs(d));
    AbsDivides(g, n);
    AbsDivides(g, d);
    ExactQuotient(n, g);
    ExactQuotient(d, g);
    SignOfProduct(d / g, g);
  }

  lemma SignOfProduct(q: int, g: nat)
    requires g > 0
    ensures q > 0 <==> q * g > 0
    ensures q == 0 <==> q * g == 0
  {
  }

  lemma LowestCoprime(n: int, d: int)
    requires d != 0
    ensures var (p, q) := Lowest(n, d); Gcd(Abs(p), Abs(q)) == 1
  {
    LowestParts(n, d);
    var g := Gcd(Abs(n), Abs(d));
    var (p, q) := Lowest(n, d);
    GcdDivides(Abs(p), Abs(q));
    var h := Gcd(Abs(p), Abs(q));
    ScaledDivides(h, g, p, n);
    ScaledDivides(h, g, q, d);
    SignOfProduct(h, g);
    GcdGreatest(Abs(n), Abs(d), h * g);
    ExactQuotient(g, h * g);
    OneOrMore(g / (h * g), h, g);
  }

  lemma ScaledDivides(h: nat, g: nat, p: int, n: int)
    requires h > 0 && g > 0 && n == p * g && Divides(h, Abs(p))
    ensures h * g > 0 && Divides(h * g, Abs(n))
  {
    SignOfProduct(h, g);
    AbsDivides(h, p);
    ExactQuotient(p, h);
    assert n == p / h * (h * g) by { assert p / h * h * g == p / h * (h * g); }
    MultipleMod(p / h, h * g);
    AbsDivides(h * g, n);
  }

  lemma OneOrMore(k: int, h: nat, g: nat)
    requires h > 0 && g > 0 && g == k * (h * g)
    ensures h == 1
  {
    assert k * (h * g) == (k * h) * g;
    DivModIs(g, g, k * h, 0);
    DivModIs(g, g, 1, 0);
    UnitFactor(k, h);
  }

  lemma UnitFactor(k: int, h: nat)
    requires k * h == 1 && h > 0
    ensures h == 1
  {
    if k <= 0 {
      SignOfProduct(k, h);
    } else if h > 1 {
      AtLeastOne(k, h);
    }
  }

  lemma Rearrange(p: int, q: int, g: nat, p': int, q': int, g': nat)
    ensures (p * g) * (q' * g') == (p * q') * (g * g')
  {
    assert (p * g) * (q' * g') == p * (g * (q' * g'));
    assert g * (q' * g') == q' * (g * g');
    assert p * (q' * (g * g')) == (p * q') * (g * g');
  }

  lemma ReducedEqual(p: int, q: nat, p': int, q': nat)
    requires q > 0 && q' > 0 && Gcd(Abs(p), q) == 1 && Gcd(Abs(p'), q') == 1
    requires p * q' == p' * q
    ensures p == p' && q == q'
  {
    DenominatorDivides(p, q, p', q');
    DenominatorDivides(p', q', p, q);
    ExactQuotient(q', q);
    ExactQuotient(q, q');
    MutualDivisors(q, q');
    MultipleMod(p, q);
    MultipleMod(p', q);
  }

  lemma GcdSymmetric(a: nat, b: nat)
    requires a > 0 || b > 0
    ensures Gcd(a, b) == Gcd(b, a)
  {
    GcdDivides(a, b);
    GcdDivides(b, a);
    GcdGreatest(a, b, Gcd(b, a));
    GcdGreatest(b, a, Gcd(a, b));
    MutualDivisors(Gcd(a, b), Gcd(b, a));
  }

  lemma MutualDivisors(a: nat, b: nat)
    requires a > 0 && b > 0 && Divides(a, b) && Divides(b, a)
    ensures a == b
  {
    ExactQuotient(a, b);
    ExactQuotient(b, a);
    var k, l := a / b, b / a;
    assert a == (k * l) * a by { assert k * (l * a) == (k * l) * a; }
    DivModIs(a, a, k * l, 0);
    DivModIs(a, a, 1, 0);
    SignOfProduct(l, a);
    UnitFactor(k, l);
  }

  lemma DenominatorDivides(p: int, q: nat, p': int, q': nat)
    requires q > 0 && q' > 0 && Gcd(Abs(p), q) == 1
    requires p * q' == p' * q
    ensures Divides(q, q')
  {
    GcdSymmetric(Abs(p), q);
    MultipleMod(p', q);
    AbsDivides(q, p * q');
    assert Abs(p) * q' == Abs(p * q') by { SignOfProduct(p, q'); }
    EuclidLemma(q, Abs(p), q');
  }

  /** With positive denominators, lowest terms agree exactly when the cross products do. */
  lemma LowestIffCrossEqual(n: int, d: int, n': int, d': int)
    requires d > 0 && d' > 0
    ensures Lowest(n, d) == Lowest(n', d') <==> n * d' == n' * d
  {
    LowestParts(n, d);
    LowestParts(n', d');
    LowestCoprime(n, d);
    LowestCoprime(n', d');
    var (p, q) := Lowest(n, d);
    var (p', q') := Lowest(n', d');
    var g, g' := Gcd(Abs(n), Abs(d)), Gcd(Abs(n'), Abs(d'));
    Rearrange(p, q, g, p', q', g');
    Rearrange(p', q', g', p, q, g);
    assert g * g' == g' * g;
    SignOfProduct(g, g');
    if n * d' == n' * d {
      CancelRight(p * q', p' * q, g * g');
      ReducedEqual(p, q, p', q');
    }
  }

  lemma CancelRight(x: int, y: int, m: int)
    requires m > 0 && x * m == y * m
    ensures x == y
  {
    MultipleMod(x, m);
    MultipleMod(y, m);
  }

  lemma LowestNegated(n: int, d: int)
    requires d != 0
    ensures Lowest(-n, -d) == (-Lowest(n, d).0, -Lowest(n, d).1)
  {
    LowestParts(n, d);
    var g := Gcd(Abs(n), Abs(d));
    var (p, q) := Lowest(n, d);
    NegatedQuotient(n, p, g);
    NegatedQuotient(d, q, g);
  }

  lemma NegatedQuotient(n: int, p: int, g: nat)
    requires g > 0 && n == p * g
    ensures -n / g == -p
  {
    assert -n == (-p) * g;
    MultipleMod(-p, g);
  }

  lemma NegatedProduct(x: int, y: int)
    ensures (-x) * (-y) == x * y
  {
  }

  /** For any non-zero denominators, the signs of the denominators must agree as well. */
  lemma LowestIffCrossEqualAndSameSign(n: int, d: int, n': int, d': int)
    requires d != 0 && d' != 0
    ensures Lowest(n, d) == Lowest(n', d') <==> n * d' == n' * d && (d > 0 <==> d' > 0)
  {
    LowestParts(n, d);
    LowestParts(n', d');
    if d > 0 && d' > 0 {
      LowestIffCrossEqual(n, d, n', d');
    } else if d < 0 && d' < 0 {
      LowestNegated(n, d);
      LowestNegated(n', d');
      LowestIffCrossEqual(-n, -d, -n', -d');
      NegatedProduct(n, d');
      NegatedProduct(n', d);
    }
  }

  /** The generator's reduction: an equal pair in lowest terms, never over zero. */
  method ReducedRational(numerator: nat, denominator: nat) returns (p: nat, q: nat)
    requires denominator >= 1
    ensures q > 0 && Gcd(p, q) == 1
    ensures p * denominator == numerator * q
  {
    var g := ComputeGcd(numerator, denominator);
    GcdPositive(numerator, denominator);
    LowestParts(numerator, denominator);
    LowestCoprime(numerator, denominator);
    var divisor := if g > 1 then g else 1;
    p, q := numerator / divisor, denominator / divisor;
    SameValue(p, q, g);
  }

  lemma SameValue(p: nat, q: nat, g: nat)
    ensures p * (q * g) == (p * g) * q
  {
  }
}
