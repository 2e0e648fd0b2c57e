/** Day 8, "Haunted Wasteland": the congruence arithmetic used by part two (src/bin/08.rs).
    The extended Euclidean algorithm, the multiplicative inverse modulo `m` built on it,
    and the Chinese remainder theorem that combines one congruence per ghost. */
module Day08Congruences {
  import opened Wrappers
  import opened Divisibility

  /** `isize::MAX + 1`: the first `usize` that does not convert to `isize`. */
  const ISIZE_LIMIT: int := 0x8000_0000_0000_0000

  /** `n ≡ value (mod modulo)`. */
  datatype Congruence = Congruence(value: nat, modulo: nat)

  /** Rust's `%` on signed integers: the remainder takes the sign of the dividend. */
  function TruncRem(a: int, m: int): (r: int)
    requires m > 0
    ensures a >= 0 ==> r == a % m
    ensures -m < r < m
    ensures r % m == a % m
  {
    if a >= 0 then a % m
    else
      NegatedRemainder(a, m);
      -((-a) % m)
  }

  lemma NegatedRemainder(a: int, m: int)
    requires m > 0
    ensures (-((-a) % m)) % m == a % m
  {
    var q, r := (-a) / m, (-a) % m;
    assert -a == m * q + r;
    MulNeg(m, q);
    assert a == -r + m * (-q);
    ShiftRemainder(-r, m, -q);
  }

  /** Adding the modulus and taking Rust's remainder again gives the Euclidean remainder. */
  lemma TruncRemNormalised(x: int, m: int)
    requires m > 0
    ensures TruncRem(TruncRem(x, m) + m, m) == x % m
  {
    var t := TruncRem(x, m);
    ShiftRemainder(t, m, 1);
  }

  /** `euclid_gcd`: the extended Euclidean algorithm, returning the gcd with its Bézout
      coefficients. With non-negative arguments the truncating `%` and `/` of `isize` agree
      with Dafny's Euclidean ones. */
  function EuclidGcd(modulo: nat, value: nat): (r: (nat, int, int))
    ensures r.0 == Gcd(modulo, value)
    ensures modulo * r.1 + value * r.2 == r.0
    decreases modulo
  {
    if modulo == 0 then
      GcdZero(value);
      (value, 0, 1)
    else
      var q, rem := value / modulo, value % modulo;
      var (g, x, y) := EuclidGcd(rem, modulo);
      DivMod(value, modulo);
      GcdSymmetric(modulo, value);
      GcdSymmetric(rem, modulo);
      BezoutStep(modulo, value, q, rem, g, x, y);
      (g, y - q * x, x)
  }

  /** One step of the extended algorithm keeps the Bézout identity. */
  lemma BezoutStep(modulo: int, value: int, q: int, rem: int, g: int, x: int, y: int)
    requires value == modulo * q + rem
    requires rem * x + modulo * y == g
    ensures modulo * (y - q * x) + value * x == g
  {
    MulSub(modulo, y, q * x);
    MulAdd(x, modulo * q, rem);
    MulAssociates(modulo, q, x);
    MulCommutes(x, modulo * q);
    MulCommutes(x, rem);
  }

  /** `try_into::<isize>()` falling back to 1, as `multiplicative_inverse` converts its operands. */
  function IsizeOrOne(n: nat): (r: nat)
    ensures r == n || r == 1
    ensures n < ISIZE_LIMIT ==> r == n
  {
    if n < ISIZE_LIMIT then n else 1
  }

  /** What `multiplicative_inverse` needs: with a zero modulus and a unit value the gcd is
      1 and `x % modulo` divides by zero. */
  predicate InverseDefined(c: Congruence)
  {
    IsizeOrOne(c.modulo) != 0 || IsizeOrOne(c.value) != 1
  }

  /** `multiplicative_inverse`: the inverse of `value` modulo `modulo` exactly when the two
      are coprime. The final conversion back to `usize` cannot fail, the normalised
      remainder being non-negative. */
  function MultiplicativeInverse(c: Congruence): (r: Option<nat>)
    requires InverseDefined(c)
    ensures var v, m := IsizeOrOne(c.value), IsizeOrOne(c.modulo);
      && (r.Some? <==> Gcd(v, m) == 1)
      && (r.Some? ==> m > 0 && r.value < m && (v * r.value) % m == 1 % m)
  {
    var v, m := IsizeOrOne(c.value), IsizeOrOne(c.modulo);
    var (g, x, y) := EuclidGcd(v, m);
    if g != 1 then None
    else if m == 0 then
      GcdZero(v);
      None
    else
      TruncRemNormalised(x, m);
      InverseFromBezout(v, m, x, y);
      var inv: nat := TruncRem(TruncRem(x, m) + m, m);
      Some(inv)
  }

  /** From `v·x + m·y = 1`, `x mod m` inverts `v` modulo `m`. */
  lemma InverseFromBezout(v: int, m: int, x: int, y: int)
    requires m > 0 && v * x + m * y == 1
    ensures (v * (x % m)) % m == 1 % m
  {
    var k, r := x / m, x % m;
    assert x == m * k + r;
    MulAdd(v, m * k, r);
    MulSwap(v, m, k);
    MulAdd(m, v * k, y);
    assert v * r + m * (v * k + y) == 1;
    ShiftRemainder(v * r, m, v * k + y);
  }

  lemma MulSwap(a: int, b: int, c: int)
    ensures a * (b * c) == b * (a * c)
  {
  }

  /** The inverse is unique below the modulus. */
  lemma InverseUnique(v: int, m: int, a: int, b: int)
    requires m > 0 && 0 <= a < m && 0 <= b < m
    requires (v * a) % m == 1 % m && (v * b) % m == 1 % m
    ensures a == b
  {
    if m > 1 {
      // b ≡ b·(v·a) = a·(v·b) ≡ a
      var p, q := (v * a) / m, (v * b) / m;
      RemainderOne(v * a, m);
      RemainderOne(v * b, m);
      assert b * (v * a) == a * (v * b) by {
        MulSwap(b, v, a);
        MulSwap(a, v, b);
        MulCommutes(b, a);
      }
      Expand(b, m, p);
      Expand(a, m, q);
      assert m * (b * p) + b == m * (a * q) + a;
      MulSub(m, a * q, b * p);
      SmallDifference(m, b - a, a * q - b * p);
    }
  }

  /** A remainder of 1 modulo `m > 1`. */
  lemma RemainderOne(n: int, m: int)
    requires m > 1 && n % m == 1 % m
    ensures n == m * (n / m) + 1
  {
    DivMod(n, m);
    ModUnique(1, m, 0, 1);
  }

  lemma Expand(b: int, m: int, p: int)
    ensures b * (m * p + 1) == m * (b * p) + b
  {
    MulAdd(b, m * p, 1);
    MulSwap(b, m, p);
  }

  /** A common divisor of `v` and `m` divides 1 when `v` has an inverse modulo `m`. */
  lemma InverseNeedsCoprime(v: nat, m: nat, inv: nat, g: nat)
    requires m > 0 && (v * inv) % m == 1 % m
    requires Divides(g, v) && Divides(g, m)
    ensures g == 1
  {
    DividesSelf(g);
    if m > 1 {
      var q := (v * inv) / m;
      RemainderOne(v * inv, m);
      assert v * inv - m * q == 1;
      DividesMultiple(g, v, inv);
      DividesMultiple(g, m, q);
      DividesSum(g, v * inv, m * q);
    }
    DividesAntisymmetric(g, 1);
  }

  /** A congruence with a known inverse: the inverse is the one the function returns. */
  lemma InverseExample(v: nat, m: nat, inv: nat)
    requires 0 < m < ISIZE_LIMIT && v < ISIZE_LIMIT && inv < m
    requires (v * inv) % m == 1 % m
    ensures MultiplicativeInverse(Congruence(v, m)) == Some(inv)
  {
    var g := Gcd(v, m);
    GcdIsGcd(v, m);
    InverseNeedsCoprime(v, m, inv, g);
    var r := MultiplicativeInverse(Congruence(v, m));
    InverseUnique(v, m, r.value, inv);
  }

  /** The inverses of the examples: 3 modulo 5, 11 modulo 13 and 26, 35 modulo 3; 4 has
      none modulo 2. */
  lemma InverseExamples()
    ensures MultiplicativeInverse(Congruence(3, 5)) == Some(2)
    ensures MultiplicativeInverse(Congruence(11, 13)) == Some(6)
    ensures MultiplicativeInverse(Congruence(11, 26)) == Some(19)
    ensures MultiplicativeInverse(Congruence(35, 3)) == Some(2)
    ensures MultiplicativeInverse(Congruence(4, 2)) == None
  {
    InverseExample(3, 5, 2);
    InverseExample(11, 13, 6);
    InverseExample(11, 26, 19);
    InverseExample(35, 3, 2);
    assert Gcd(4, 2) == 2;
  }

  // ---------------------------------------------------------------------------------------
  // Coprimality

  /** Bézout coefficients for 1 make two numbers coprime. */
  lemma BezoutCoprime(a: nat, n: nat, x: int, y: int)
    requires a * x + n * y == 1
    ensures Gcd(a, n) == 1
  {
    var g := Gcd(a, n);
    GcdIsGcd(a, n);
    DividesMultiple(g, a, x);
    DividesMultiple(g, n, y);
    DividesSum(g, a * x, n * y);
    DividesSelf(g);
    DividesAntisymmetric(g, 1);
  }

  /** A product of two numbers coprime to `n` is coprime to `n`. */
  lemma CoprimeMul(a: nat, b: nat, n: nat)
    requires Gcd(a, n) == 1 && Gcd(b, n) == 1
    ensures Gcd(a * b, n) == 1
  {
    var (_, x1, y1) := EuclidGcd(a, n);
    var (_, x2, y2) := EuclidGcd(b, n);
    // (a·x1)(b·x2) = (1 − n·y1)(b·x2) = b·x2 − n·y1·b·x2 = 1 − n·(y2 + y1·b·x2)
    var bx := b * x2;
    assert (a * b) * (x1 * x2) == (a * x1) * bx by {
      MulAssociates(a, b, x1 * x2);
      MulSwap(b, x1, x2);
      MulAssociates(a, x1, b * x2);
    }
    assert (a * x1) * bx == bx - n * (y1 * bx) by {
      assert a * x1 == 1 - n * y1;
      MulCommutes(1 - n * y1, bx);
      MulSub(bx, 1, n * y1);
      MulSwap(bx, n, y1);
      MulCommutes(bx, y1);
    }
    MulAdd(n, y2, y1 * bx);
    BezoutCoprime(a * b, n, x1 * x2, y2 + y1 * bx);
  }

  /** Coprime divisors of `x` divide it together. */
  lemma CoprimeDivides(a: nat, b: nat, x: int)
    requires Gcd(a, b) == 1 && Divides(a, x) && Divides(b, x)
    ensures Divides(a * b, x)
  {
    var (_, u, v) := EuclidGcd(a, b);
    var s :| x == a * s;
    var t :| x == b * t;
    // x = x·(a·u + b·v) = (b·t)·a·u + (a·s)·b·v = a·b·(t·u + s·v)
    var one := a * u + b * v;
    assert one == 1;
    assert x * one == x;
    MulAdd(x, a * u, b * v);
    assert x * (a * u) == (a * b) * (t * u) by {
      MulAssociates(b, t, a * u);
      MulSwap(t, a, u);
      MulAssociates(b, a, t * u);
      MulCommutes(b, a);
    }
    assert x * (b * v) == (a * b) * (s * v) by {
      MulAssociates(a, s, b * v);
      MulSwap(s, b, v);
      MulAssociates(a, b, s * v);
    }
    MulAdd(a * b, t * u, s * v);
    DividesWitness(a * b, x, t * u + s * v);
  }

  /** Equal remainders: the modulus divides the difference. */
  lemma SameRemainder(n: int, r: int, m: int)
    requires m > 0 && n % m == r % m
    ensures Divides(m, n - r)
  {
    var p, q := n / m, r / m;
    assert n - r == m * p - m * q;
    MulSub(m, p, q);
    DividesWitness(m, n - r, p - q);
  }

  /** A remainder modulo a multiple of `d` has the same remainder modulo `d`. */
  lemma RemainderOfRemainder(s: int, m: int, d: int)
    requires d > 0 && m > 0 && Divides(d, m)
    ensures (s % m) % d == s % d
  {
    var k :| m == d * k;
    var q := s / m;
    assert s == m * q + s % m;
    MulAssociates(d, k, q);
    ShiftRemainder(s % m, d, k * q);
  }

  /** Adding a multiple of `d` keeps the remainder. */
  lemma AddMultiple(a: int, b: int, d: int)
    requires d > 0 && b % d == 0
    ensures (a + b) % d == a % d
  {
    assert b == d * (b / d);
    ShiftRemainder(a, d, b / d);
  }

  /** `a·t ≡ a` when `t ≡ 1`. */
  lemma MulModOne(a: int, t: int, m: int)
    requires m > 0 && t % m == 1 % m
    ensures (a * t) % m == a % m
  {
    if m == 1 {
      ModUnique(a * t, 1, a * t, 0);
      ModUnique(a, 1, a, 0);
    } else {
      var k := t / m;
      assert t == m * k + 1;
      MulAdd(a, m * k, 1);
      MulSwap(a, m, k);
      ShiftRemainder(a, m, a * k);
    }
  }

  // ---------------------------------------------------------------------------------------
  // The Chinese remainder theorem

  /** The product of the moduli, `m` in `chinese_remainder_theorem`. */
  function Product(cs: seq<Congruence>): (p: nat)
    ensures PositiveModuli(cs) ==> p > 0
  {
    if cs == [] then 1 else cs[0].modulo * Product(cs[1..])
  }

  lemma {:induction false} ProductConcat(a: seq<Congruence>, b: seq<Congruence>)
    ensures Product(a + b) == Product(a) * Product(b)
    decreases |a|
  {
    if a == [] {
      assert a + b == b;
    } else {
      ProductConcat(a[1..], b);
      assert (a + b)[1..] == a[1..] + b;
      MulAssociates(a[0].modulo, Product(a[1..]), Product(b));
    }
  }

  predicate PositiveModuli(cs: seq<Congruence>)
  {
    forall i :: 0 <= i < |cs| ==> cs[i].modulo > 0
  }

  /** The moduli are pairwise coprime. */
  predicate PairwiseCoprime(cs: seq<Congruence>)
  {
    forall i, j :: 0 <= i < |cs| && 0 <= j < |cs| && i != j ==> Gcd(cs[i].modulo, cs[j].modulo) == 1
  }

  function Without(cs: seq<Congruence>, i: nat): (w: seq<Congruence>)
    requires i < |cs|
    ensures |w| == |cs| - 1
    ensures forall k :: 0 <= k < |w| ==> w[k] == if k < i then cs[k] else cs[k + 1]
  {
    cs[..i] + cs[i + 1..]
  }

  /** The product is one modulus times the product of the others. */
  lemma {:induction false} ProductSplit(cs: seq<Congruence>, i: nat)
    requires i < |cs|
    ensures Product(cs) == cs[i].modulo * Product(Without(cs, i))
    decreases i
  {
    if i == 0 {
      assert Without(cs, 0) == cs[1..];
    } else {
      var t := cs[1..];
      ProductSplit(t, i - 1);
      var w := Without(t, i - 1);
      var c0: int, ci: int, pw: int := cs[0].modulo, cs[i].modulo, Product(w);
      assert t[i - 1] == cs[i];
      assert Product(t) == ci * pw;
      assert Product(cs) == c0 * (ci * pw);
      assert Without(cs, i) == [cs[0]] + w;
      assert ([cs[0]] + w)[1..] == w;
      assert Product(Without(cs, i)) == c0 * pw;
      MulSwap(c0, ci, pw);
    }
  }

  /** Every other modulus divides the product that leaves out modulus `j`. */
  lemma ModulusDividesOthers(cs: seq<Congruence>, i: nat, j: nat)
    requires i < |cs| && j < |cs| && i != j
    ensures Divides(cs[i].modulo, Product(Without(cs, j)))
  {
    var w := Without(cs, j);
    var k := if i < j then i else i - 1;
    assert w[k] == cs[i];
    ProductSplit(w, k);
    DividesWitness(cs[i].modulo, Product(w), Product(Without(w, k)));
  }

  /** Numbers each coprime to `n` have a product coprime to `n`. */
  lemma {:induction false} CoprimeProduct(ds: seq<Congruence>, n: nat)
    requires forall k :: 0 <= k < |ds| ==> Gcd(ds[k].modulo, n) == 1
    ensures Gcd(Product(ds), n) == 1
    decreases |ds|
  {
    if ds == [] {
      BezoutCoprime(1, n, 1, 0);
    } else {
      CoprimeProduct(ds[1..], n);
      CoprimeMul(ds[0].modulo, Product(ds[1..]), n);
    }
  }

  /** Pairwise coprime moduli that all divide `x` divide it together. */
  lemma {:induction false} ProductDivides(cs: seq<Congruence>, x: int)
    requires PairwiseCoprime(cs)
    requires forall k :: 0 <= k < |cs| ==> Divides(cs[k].modulo, x)
    ensures Divides(Product(cs), x)
    decreases |cs|
  {
    if cs == [] {
      DividesSelf(x);
    } else {
      var t := cs[1..];
      assert PairwiseCoprime(t) by {
        forall i, j | 0 <= i < |t| && 0 <= j < |t| && i != j
          ensures Gcd(t[i].modulo, t[j].modulo) == 1
        {
          assert t[i] == cs[i + 1] && t[j] == cs[j + 1];
        }
      }
      ProductDivides(t, x);
      forall k | 0 <= k < |t| ensures Gcd(t[k].modulo, cs[0].modulo) == 1 {
        assert t[k] == cs[k + 1];
      }
      CoprimeProduct(t, cs[0].modulo);
      GcdSymmetric(Product(t), cs[0].modulo);
      CoprimeDivides(cs[0].modulo, Product(t), x);
    }
  }

  /** The summand for one congruence: `value · (m / modulo) · inverse`, or nothing when the
      inverse does not exist (the `filter_map` skips it). */
  function CrtTerm(c: Congruence, m: nat): nat
    requires c.modulo > 0
  {
    var mx := Congruence(m / c.modulo, c.modulo);
    match MultiplicativeInverse(mx)
    case None => 0
    case Some(inv) =>
      MulNonnegative(c.value, mx.value);
      MulNonnegative(c.value * mx.value, inv);
      c.value * mx.value * inv
  }

  function CrtSum(cs: seq<Congruence>, m: nat): nat
    requires PositiveModuli(cs)
  {
    if cs == [] then 0 else CrtTerm(cs[0], m) + CrtSum(cs[1..], m)
  }

  /** The conditions under which the theorem applies: positive, pairwise coprime moduli
      whose product fits in an `isize`. */
  predicate Solvable(cs: seq<Congruence>)
  {
    PositiveModuli(cs) && PairwiseCoprime(cs) && Product(cs) < ISIZE_LIMIT
  }

  /** A summand is congruent to its value when `m / modulo` is coprime to the modulus. */
  lemma TermResidue(c: Congruence, m: nat)
    requires 0 < c.modulo < ISIZE_LIMIT && m / c.modulo < ISIZE_LIMIT
    requires Gcd(m / c.modulo, c.modulo) == 1
    ensures CrtTerm(c, m) % c.modulo == c.value % c.modulo
  {
    DivMod(m, c.modulo);
    var big: nat := m / c.modulo;
    var inv := MultiplicativeInverse(Congruence(big, c.modulo)).value;
    assert CrtTerm(c, m) == c.value * big * inv;
    MulNonnegative(big, inv);
    MulModOne(c.value, big * inv, c.modulo);
    MulAssociates(c.value, big, inv);
  }

  /** A summand is a multiple of every divisor of `m / modulo`. */
  lemma TermDivisible(c: Congruence, m: nat, d: nat)
    requires c.modulo > 0 && d > 0 && Divides(d, m / c.modulo)
    ensures CrtTerm(c, m) % d == 0
  {
    var big := m / c.modulo;
    var t := CrtTerm(c, m);
    var r := MultiplicativeInverse(Congruence(big, c.modulo));
    if r.Some? {
      assert t == c.value * big * r.value;
      DividesMultiple(d, big, c.value * r.value);
      MulSwap(big, c.value, r.value);
      MulAssociates(c.value, big, r.value);
    } else {
      assert t == 0;
      DividesSelf(d);
    }
    DividesRemainder(d, t);
  }

  /** The own summand of congruence `i` is congruent to its value. */
  lemma CrtTermOwn(cs: seq<Congruence>, i: nat)
    requires Solvable(cs) && i < |cs|
    ensures CrtTerm(cs[i], Product(cs)) % cs[i].modulo == cs[i].value % cs[i].modulo
  {
    var m, mi := Product(cs), cs[i].modulo;
    var w := Without(cs, i);
    ProductSplit(cs, i);
    var big := Product(w);
    assert PositiveModuli(w);
    ExactQuotient(mi, big);
    MulAtLeast(big, mi);
    MulCommutes(big, mi);
    MulAtLeast(mi, big);
    forall k | 0 <= k < |w| ensures Gcd(w[k].modulo, mi) == 1 {
    }
    CoprimeProduct(w, mi);
    TermResidue(cs[i], m);
  }

  /** The summand of another congruence is a multiple of modulus `i`. */
  lemma CrtTermOther(cs: seq<Congruence>, i: nat, j: nat)
    requires PositiveModuli(cs) && i < |cs| && j < |cs| && i != j
    ensures CrtTerm(cs[j], Product(cs)) % cs[i].modulo == 0
  {
    ProductSplit(cs, j);
    ExactQuotient(cs[j].modulo, Product(Without(cs, j)));
    ModulusDividesOthers(cs, i, j);
    TermDivisible(cs[j], Product(cs), cs[i].modulo);
  }

  lemma {:induction false} SumOfMultiples(cs: seq<Congruence>, m: nat, d: nat)
    requires PositiveModuli(cs) && d > 0
    requires forall j :: 0 <= j < |cs| ==> CrtTerm(cs[j], m) % d == 0
    ensures CrtSum(cs, m) % d == 0
    decreases |cs|
  {
    if cs != [] {
      SumOfMultiples(cs[1..], m, d);
      AddMultiple(CrtTerm(cs[0], m), CrtSum(cs[1..], m), d);
    }
  }

  /** When every other summand is a multiple of `d`, the sum has summand `i`'s remainder. */
  lemma {:induction false} SumOfOthers(cs: seq<Congruence>, m: nat, d: nat, i: nat)
    requires PositiveModuli(cs) && d > 0 && i < |cs|
    requires forall j :: 0 <= j < |cs| && j != i ==> CrtTerm(cs[j], m) % d == 0
    ensures CrtSum(cs, m) % d == CrtTerm(cs[i], m) % d
    decreases |cs|
  {
    var head, rest := CrtTerm(cs[0], m), CrtSum(cs[1..], m);
    if i == 0 {
      SumOfMultiples(cs[1..], m, d);
      AddMultiple(head, rest, d);
    } else {
      SumOfOthers(cs[1..], m, d, i - 1);
      AddMultiple(rest, head, d);
    }
  }

  /** `chinese_remainder_theorem` as written: the sum reduced modulo the product, where a
      zero sum gives the product itself. A non-zero sum that the product divides still
      gives 0. */
  function ChineseRemainderAsWritten(cs: seq<Congruence>): (r: nat)
    requires PositiveModuli(cs)
    ensures r <= Product(cs)
    ensures r % Product(cs) == CrtSum(cs, Product(cs)) % Product(cs)
  {
    var m := Product(cs);
    var s := CrtSum(cs, m);
    if s == 0 then
      ShiftRemainder(0, m, 1);
      m
    else
      ModUnique(s % m, m, 0, s % m);
      s % m
  }

  /** `3 ≡ 0 (mod 3)`: the sum is 3, a multiple of the product, and the result is 0 where
      3 is the least positive solution. */
  lemma AsWrittenReturnsZero()
    ensures ChineseRemainderAsWritten([Congruence(3, 3)]) == 0
    ensures ChineseRemainder([Congruence(3, 3)]) == 3
  {
    var cs := [Congruence(3, 3)];
    InverseExample(1, 3, 1);
    assert Product(cs) == 3;
    assert CrtTerm(cs[0], 3) == 3;
    assert CrtSum(cs, 3) == 3;
  }

  /** The Chinese remainder theorem as evidently intended: the sum reduced into
      `1..=m`, so that a multiple of the product gives the product itself. */
  function ChineseRemainder(cs: seq<Congruence>): (r: nat)
    requires PositiveModuli(cs)
    ensures 0 < r <= Product(cs)
  {
    var m := Product(cs);
    var s := CrtSum(cs, m);
    if s % m == 0 then m else s % m
  }

  /** The result solves every congruence. */
  lemma CrtSolves(cs: seq<Congruence>)
    requires Solvable(cs)
    ensures forall i :: 0 <= i < |cs| ==> ChineseRemainder(cs) % cs[i].modulo == cs[i].value % cs[i].modulo
  {
    forall i | 0 <= i < |cs| ensures ChineseRemainder(cs) % cs[i].modulo == cs[i].value % cs[i].modulo {
      CrtSolvesOne(cs, i);
    }
  }

  lemma CrtSolvesOne(cs: seq<Congruence>, i: nat)
    requires Solvable(cs) && i < |cs|
    ensures ChineseRemainder(cs) % cs[i].modulo == cs[i].value % cs[i].modulo
  {
    var m, mi := Product(cs), cs[i].modulo;
    var s := CrtSum(cs, m);
    forall j | 0 <= j < |cs| && j != i ensures CrtTerm(cs[j], m) % mi == 0 {
      CrtTermOther(cs, i, j);
    }
    SumOfOthers(cs, m, mi, i);
    CrtTermOwn(cs, i);
    ProductSplit(cs, i);
    DividesWitness(mi, m, Product(Without(cs, i)));
    RemainderOfRemainder(s, m, mi);
    var own := CrtTerm(cs[i], m) % mi;
    assert s % mi == own;
    var r := ChineseRemainder(cs);
    if s % m == 0 {
      assert r == m;
      DividesRemainder(mi, m);
      ModUnique(0, mi, 0, 0);
      assert own == 0;
    } else {
      assert r == s % m;
      assert r % mi == own;
    }
  }

  /** It is the only solution in `1..=m`: the least positive one. */
  lemma CrtUnique(cs: seq<Congruence>, n: nat)
    requires Solvable(cs) && 0 < n <= Product(cs)
    requires forall i :: 0 <= i < |cs| ==> n % cs[i].modulo == cs[i].value % cs[i].modulo
    ensures n == ChineseRemainder(cs)
  {
    var r := ChineseRemainder(cs);
    CrtSolves(cs);
    forall k | 0 <= k < |cs| ensures Divides(cs[k].modulo, n - r) {
      SameRemainder(n, r, cs[k].modulo);
    }
    ProductDivides(cs, n - r);
    var q :| n - r == Product(cs) * q;
    SmallDifference(Product(cs), n - r, q);
  }

  /** 2 mod 3, 3 mod 5 and 2 mod 7 combine to 23. */
  lemma CrtExample()
    ensures ChineseRemainder([Congruence(2, 3), Congruence(3, 5), Congruence(2, 7)]) == 23
  {
    var cs := [Congruence(2, 3), Congruence(3, 5), Congruence(2, 7)];
    ExampleCoprime(cs);
    CrtUnique(cs, 23);
  }

  lemma ExampleCoprime(cs: seq<Congruence>)
    requires cs == [Congruence(2, 3), Congruence(3, 5), Congruence(2, 7)]
    ensures Solvable(cs) && Product(cs) == 105
  {
    assert Gcd(3, 5) == 1 && Gcd(5, 3) == 1 && Gcd(3, 7) == 1;
    assert Gcd(7, 3) == 1 && Gcd(5, 7) == 1 && Gcd(7, 5) == 1;
    assert Product(cs[2..]) == 7;
    assert Product(cs[1..]) == 35;
  }
}
