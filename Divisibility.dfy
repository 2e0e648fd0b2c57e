/** Divisibility on the integers, the greatest common divisor computed by Euclid's
    algorithm, and powers of two. Both the binary gcd of the pulse network and the
    congruence arithmetic of the ghost-map solver are proved against these. */
module Divisibility {

  function Abs(n: int): nat { if n < 0 then -n else n }

  ghost predicate Divides(d: int, n: int)
  {
    exists k :: n == d * k
  }

  /** `g` is a greatest common divisor: a common divisor that every common divisor divides. */
  ghost predicate IsGcd(a: int, b: int, g: int)
  {
    Divides(g, a) && Divides(g, b) &&
    forall d :: Divides(d, a) && Divides(d, b) ==> Divides(d, g)
  }

  /** Euclid's algorithm on natural numbers. */
  function Gcd(a: nat, b: nat): nat
    decreases b
  {
    if b == 0 then a else Gcd(b, a % b)
  }

  function Pow2(n: nat): (p: nat)
    ensures p >= 1
  {
    if n == 0 then 1 else 2 * Pow2(n - 1)
  }

  lemma {:induction false} Pow2Add(a: nat, b: nat)
    ensures Pow2(a + b) == Pow2(a) * Pow2(b)
    decreases a
  {
    if a > 0 {
      Pow2Add(a - 1, b);
    }
  }

  lemma Pow2Monotone(a: nat, b: nat)
    requires a <= b
    ensures Pow2(a) <= Pow2(b)
  {
    Pow2Add(a, b - a);
    MulAtLeast(Pow2(a), Pow2(b - a));
  }

  /** 2^32 is the number of values of a 32-bit word. */
  lemma Pow2ThirtyTwo()
    ensures Pow2(32) == 0x1_0000_0000
  {
    assert Pow2(2) == 4;
    assert Pow2(4) == 16;
    Pow2Add(4, 4);
    Pow2Add(8, 8);
    Pow2Add(16, 16);
  }

  // ---------------------------------------------------------------------------------------
  // Divisibility facts

  lemma DividesWitness(d: int, n: int, k: int)
    requires n == d * k
    ensures Divides(d, n)
  {
  }

  lemma DividesSelf(d: int)
    ensures Divides(d, d) && Divides(d, 0) && Divides(1, d)
  {
    DividesWitness(d, d, 1);
    DividesWitness(d, 0, 0);
    DividesWitness(1, d, d);
  }

  lemma DividesTransitive(a: int, b: int, c: int)
    requires Divides(a, b) && Divides(b, c)
    ensures Divides(a, c)
  {
    var k :| b == a * k;
    var l :| c == b * l;
    assert c == a * (k * l);
  }

  lemma DividesMultiple(d: int, n: int, m: int)
    requires Divides(d, n)
    ensures Divides(d, n * m)
  {
    var k :| n == d * k;
    assert n * m == d * (k * m);
  }

  lemma DividesSum(d: int, a: int, b: int)
    requires Divides(d, a) && Divides(d, b)
    ensures Divides(d, a + b) && Divides(d, a - b)
  {
    var k :| a == d * k;
    var l :| b == d * l;
    assert a + b == d * (k + l);
    assert a - b == d * (k - l);
  }

  /** A positive multiple is at least as large as the divisor. */
  lemma DivisorBound(d: nat, n: nat)
    requires n > 0 && Divides(d, n)
    ensures 0 < d <= n
  {
    var k :| n == d * k;
    MulPositive(d, k);
  }

  lemma MulPositive(d: nat, k: int)
    requires d * k > 0
    ensures d >= 1 && k >= 1 && d * k >= d
  {
  }

  lemma MulNonnegative(x: nat, y: nat)
    ensures x * y >= 0
  {
  }

  lemma MulCommutes(x: int, y: int)
    ensures x * y == y * x
  {
  }

  lemma MulAssociates(x: int, y: int, z: int)
    ensures (x * y) * z == x * (y * z)
  {
  }

  lemma MulAtLeast(g: nat, e: int)
    requires g > 0 && e >= 1
    ensures g * e >= g
  {
  }

  /** A multiple of `g` strictly between `-g` and `g` is zero. */
  lemma SmallMultiple(g: nat, d: int)
    requires g > 0 && 0 <= g * d < g
    ensures d == 0
  {
    if d >= 1 {
      MulAtLeast(g, d);
    } else if d <= -1 {
      MulAtLeast(g, -d);
    }
  }

  lemma ExactQuotient(g: nat, j: nat)
    requires g > 0
    ensures (g * j) / g == j
  {
    var b := g * j;
    var q, r := b / g, b % g;
    assert b == g * q + r;
    assert g * (j - q) == r;
    SmallMultiple(g, j - q);
  }

  /** Two non-negative numbers that divide each other are equal. */
  lemma DividesAntisymmetric(x: int, y: int)
    requires 0 <= x && 0 <= y && Divides(x, y) && Divides(y, x)
    ensures x == y
  {
    var k :| y == x * k;
    var l :| x == y * l;
    if x > 0 && y > 0 {
      DivisorBound(x, y);
      DivisorBound(y, x);
    }
  }

  lemma DividesMod(d: int, a: int, b: int)
    requires b > 0 && Divides(d, b)
    ensures Divides(d, a) <==> Divides(d, a % b)
  {
    assert a == b * (a / b) + a % b;
    DividesMultiple(d, b, a / b);
    if Divides(d, a) {
      DividesSum(d, a, b * (a / b));
      assert a % b == a - b * (a / b);
    }
    if Divides(d, a % b) {
      DividesSum(d, b * (a / b), a % b);
    }
  }

  // ---------------------------------------------------------------------------------------
  // Remainders

  lemma SmallDifference(m: int, d: int, k: int)
    requires m > 0 && -m < d < m && d == m * k
    ensures d == 0
  {
    if k > 0 {
      MulAtLeast(m, k);
    } else if k < 0 {
      MulAtLeast(m, -k);
    }
  }

  /** Division with remainder. */
  lemma DivMod(n: int, m: int)
    requires m > 0
    ensures n == m * (n / m) + n % m && 0 <= n % m < m
  {
  }

  /** Division with remainder is unique. */
  lemma ModUnique(n: int, m: int, q: int, r: int)
    requires m > 0 && 0 <= r < m && n == m * q + r
    ensures n % m == r && n / m == q
  {
    var q', r' := n / m, n % m;
    assert m * q' + r' == m * q + r;
    assert m * (q - q') == r' - r by { MulSub(m, q, q'); }
    SmallDifference(m, r' - r, q - q');
    MulZero(m, q - q');
  }

  lemma MulSub(m: int, a: int, b: int)
    ensures m * (a - b) == m * a - m * b
  {
  }

  lemma MulAdd(m: int, a: int, b: int)
    ensures m * (a + b) == m * a + m * b
  {
  }

  lemma MulNeg(m: int, a: int)
    ensures m * (-a) == -(m * a)
  {
  }

  lemma MulZero(m: int, k: int)
    requires m > 0 && m * k == 0
    ensures k == 0
  {
  }

  /** Remainders do not see multiples of the modulus. */
  lemma ShiftRemainder(a: int, m: int, k: int)
    requires m > 0
    ensures (a + m * k) % m == a % m
  {
    var q, r := a / m, a % m;
    MulAdd(m, q, k);
    ModUnique(a + m * k, m, q + k, r);
  }

  /** A multiple of a positive `d` leaves no remainder, and conversely. */
  lemma DividesRemainder(d: int, n: int)
    requires d > 0
    ensures Divides(d, n) <==> n % d == 0
  {
    if Divides(d, n) {
      var k :| n == d * k;
      ShiftRemainder(0, d, k);
    }
    if n % d == 0 {
      DividesWitness(d, n, n / d);
    }
  }

  // ---------------------------------------------------------------------------------------
  // Euclid's algorithm computes the greatest common divisor

  lemma {:induction false} GcdIsGcd(a: nat, b: nat)
    ensures IsGcd(a, b, Gcd(a, b))
    decreases b
  {
    if b == 0 {
      DividesSelf(a);
      assert forall d :: Divides(d, a) && Divides(d, 0) ==> Divides(d, a);
    } else {
      GcdIsGcd(b, a % b);
      var g := Gcd(a, b);
      DividesMod(g, a, b);
      forall d | Divides(d, a) && Divides(d, b) ensures Divides(d, g) {
        DividesMod(d, a, b);
      }
    }
  }

  /** Any greatest common divisor that is not negative is the one Euclid computes. */
  lemma GcdUnique(a: nat, b: nat, g: int)
    requires g >= 0 && IsGcd(a, b, g)
    ensures g == Gcd(a, b)
  {
    GcdIsGcd(a, b);
    DividesAntisymmetric(g, Gcd(a, b));
  }

  lemma GcdZero(a: nat)
    ensures Gcd(a, 0) == a && Gcd(0, a) == a
  {
    if a > 0 {
      assert Gcd(0, a) == Gcd(a, 0 % a);
    }
  }

  lemma GcdSymmetric(a: nat, b: nat)
    ensures Gcd(a, b) == Gcd(b, a)
  {
    GcdIsGcd(b, a);
    GcdUnique(a, b, Gcd(b, a));
  }

  lemma GcdPositive(a: nat, b: nat)
    requires a > 0 || b > 0
    ensures Gcd(a, b) > 0
  {
    GcdIsGcd(a, b);
    if Gcd(a, b) == 0 {
      var k :| a == 0 * k;
      var l :| b == 0 * l;
    }
  }

  lemma GcdSelf(a: nat)
    ensures Gcd(a, a) == a
  {
    DividesSelf(a);
    GcdUnique(a, a, a);
  }

  /** Subtracting the smaller argument keeps the gcd. */
  lemma GcdSubtract(a: nat, b: nat)
    requires a >= b
    ensures Gcd(a - b, b) == Gcd(a, b)
  {
    GcdIsGcd(a, b);
    var g := Gcd(a, b);
    DividesSum(g, a, b);
    forall d | Divides(d, a - b) && Divides(d, b) ensures Divides(d, g) {
      DividesSum(d, a - b, b);
    }
    GcdUnique(a - b, b, g);
  }

  /** An odd divisor of 2x divides x. */
  lemma OddDividesHalf(d: int, x: int)
    requires d % 2 == 1 && Divides(d, 2 * x)
    ensures Divides(d, x)
  {
    var k :| 2 * x == d * k;
    var p, q, r := d / 2, k / 2, k % 2;
    assert d == 2 * p + 1 && k == 2 * q + r;
    assert d * k == (2 * p + 1) * k == 2 * (p * k) + k;
    assert r == 2 * (x - p * k - q);
    assert r == 0;
    assert x == d * q;
  }

  /** A divisor of an odd number is odd. */
  lemma DivisorOfOdd(d: int, b: int)
    requires b % 2 == 1 && Divides(d, b)
    ensures d % 2 == 1
  {
    var k :| b == d * k;
    var p, s := d / 2, d % 2;
    assert d == 2 * p + s;
    assert b == (2 * p + s) * k == 2 * (p * k) + s * k;
    assert (s * k) % 2 == 1;
    assert s * k != 0;
  }

  /** A factor of two that the other argument does not share does not change the gcd. */
  lemma GcdHalve(x: nat, b: nat)
    requires b % 2 == 1
    ensures Gcd(2 * x, b) == Gcd(x, b)
  {
    GcdIsGcd(x, b);
    var g := Gcd(x, b);
    DividesMultiple(g, x, 2);
    forall d | Divides(d, 2 * x) && Divides(d, b) ensures Divides(d, g) {
      DivisorOfOdd(d, b);
      OddDividesHalf(d, x);
    }
    GcdUnique(2 * x, b, g);
  }

  /** An even divisor of 2a has a half that divides a. */
  lemma EvenDividesDouble(d: int, a: int)
    requires d % 2 == 0 && Divides(d, 2 * a)
    ensures Divides(d / 2, a)
  {
    var m :| 2 * a == d * m;
    var h := d / 2;
    assert d == 2 * h;
    assert 2 * a == 2 * (h * m);
  }

  /** A factor of two common to both arguments is a factor of the gcd. */
  lemma GcdDouble(a: nat, b: nat)
    ensures Gcd(2 * a, 2 * b) == 2 * Gcd(a, b)
  {
    GcdIsGcd(a, b);
    var g := Gcd(a, b);
    DoubledDivisor(g, a);
    DoubledDivisor(g, b);
    forall d | Divides(d, 2 * a) && Divides(d, 2 * b) ensures Divides(d, 2 * g) {
      CommonDivisorOfDoubles(a, b, g, d);
    }
    GcdUnique(2 * a, 2 * b, 2 * g);
  }

  lemma DoubledDivisor(g: int, a: int)
    requires Divides(g, a)
    ensures Divides(2 * g, 2 * a)
  {
    var j :| a == g * j;
    assert 2 * a == (2 * g) * j;
  }

  lemma CommonDivisorOfDoubles(a: int, b: int, g: int, d: int)
    requires IsGcd(a, b, g)
    requires Divides(d, 2 * a) && Divides(d, 2 * b)
    ensures Divides(d, 2 * g)
  {
    if d % 2 == 0 {
      var h := d / 2;
      EvenDividesDouble(d, a);
      EvenDividesDouble(d, b);
      assert Divides(h, g);
      var q :| g == h * q;
      assert 2 * g == d * q;
    } else {
      OddDividesHalf(d, a);
      OddDividesHalf(d, b);
      assert Divides(d, g);
      DividesMultiple(d, g, 2);
      assert g * 2 == 2 * g;
    }
  }

  lemma {:induction false} GcdShiftBoth(a: nat, b: nat, n: nat)
    ensures Gcd(Pow2(n) * a, Pow2(n) * b) == Pow2(n) * Gcd(a, b)
  {
    if n > 0 {
      var p := Pow2(n - 1);
      var x, y := p * a, p * b;
      GcdShiftBoth(a, b, n - 1);
      GcdDouble(x, y);
      ScaleTwice(p, a);
      ScaleTwice(p, b);
      ScaleTwice(p, Gcd(a, b));
    }
  }

  lemma ScaleTwice(p: int, a: int)
    ensures (2 * p) * a == 2 * (p * a)
  {
  }

  lemma {:induction false} GcdShiftOne(a: nat, b: nat, n: nat)
    requires b % 2 == 1
    ensures Gcd(Pow2(n) * a, b) == Gcd(a, b)
  {
    if n > 0 {
      var x := Pow2(n - 1) * a;
      GcdShiftOne(a, b, n - 1);
      GcdHalve(x, b);
      ScaleTwice(Pow2(n - 1), a);
    }
  }

  // ---------------------------------------------------------------------------------------
  // Trailing zero bits

  /** `n.trailing_zeros()` for a positive `n`. */
  function TrailingZeros(n: nat): nat
    requires n > 0
  {
    if n % 2 == 1 then 0 else 1 + TrailingZeros(n / 2)
  }

  /** `n >> n.trailing_zeros()`: the odd number left once the trailing zero bits are shifted out. */
  function OddPart(n: nat): (m: nat)
    requires n > 0
    ensures m % 2 == 1 && m <= n
    ensures n == Pow2(TrailingZeros(n)) * m
  {
    if n % 2 == 1 then n
    else
      var m := OddPart(n / 2);
      assert n == 2 * (Pow2(TrailingZeros(n / 2)) * m);
      m
  }
}
