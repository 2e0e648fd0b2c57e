/** Day 8, part two: splitting the ghosts' loop lengths into prime powers so that the
    Chinese remainder theorem sees pairwise coprime moduli (src/bin/08.rs). */
module Day08Primes {
  import opened Divisibility
  import opened Day08Congruences

  /** `d` divides `n`, for a positive `d`. */
  predicate Factor(d: nat, n: nat)
  {
    d > 0 && n % d == 0
  }

  ghost predicate IsPrime(n: nat)
  {
    n >= 2 && forall d :: 2 <= d < n ==> !Factor(d, n)
  }

  /** `j` has a divisor `d` with `2 <= d < k` and `d·d <= j`: the sieve has struck it out
      once every `ix` below `k` has been processed. */
  ghost predicate Struck(j: nat, k: nat)
  {
    exists d :: 2 <= d < k && d * d <= j && Factor(d, j)
  }

  // ---------------------------------------------------------------------------------------
  // Divisors

  lemma FactorTransitive(a: nat, b: nat, c: nat)
    requires Factor(a, b) && Factor(b, c)
    ensures Factor(a, c)
  {
    DividesRemainder(a, b);
    DividesRemainder(b, c);
    DividesTransitive(a, b, c);
    DividesRemainder(a, c);
  }

  /** A divisor of a positive number is at most that number. */
  lemma FactorBound(d: nat, n: nat)
    requires n > 0 && Factor(d, n)
    ensures d <= n
  {
    DividesRemainder(d, n);
    DivisorBound(d, n);
  }

  /** The cofactor of a divisor. */
  lemma Cofactor(d: nat, n: nat) returns (e: nat)
    requires n > 0 && Factor(d, n)
    ensures d * e == n && Factor(e, n) && e > 0
  {
    DivMod(n, d);
    e := n / d;
    MulPositive(d, e);
    MulCommutes(d, e);
    DivMod(n, e);
    ModUnique(n, e, d, 0);
  }

  lemma SquareMonotone(a: nat, b: nat)
    requires a <= b
    ensures a * a <= b * b
  {
    MulNonnegative(a, b - a);
    MulNonnegative(b, b - a);
    MulSub(a, b, a);
    MulSub(b, b, a);
    MulCommutes(a, b);
  }

  lemma CofactorBelow(d: nat, e: nat, n: nat)
    requires d >= 2 && d * e == n && d * d > n && d < n
    ensures 2 <= e < d
  {
    if e >= d {
      MulMonotone(d, d, e);
    }
  }

  lemma MulMonotone(d: nat, a: nat, b: nat)
    requires a <= b
    ensures d * a <= d * b
  {
    MulNonnegative(d, b - a);
    MulSub(d, b, a);
  }

  /** A composite number has a divisor no larger than its square root. */
  lemma SmallFactor(n: nat, d: nat) returns (s: nat)
    requires 2 <= d < n && Factor(d, n)
    ensures 2 <= s < n && s * s <= n && Factor(s, n)
  {
    var e := Cofactor(d, n);
    if d * d <= n {
      s := d;
    } else {
      // e·e <= e·d = n, since e < d
      CofactorBelow(d, e, n);
      MulNonnegative(e, d - e);
      MulSub(e, d, e);
      s := e;
    }
  }

  /** `j >= 2` is struck below `j` exactly when it is composite. */
  lemma StruckComposite(j: nat)
    requires j >= 2
    ensures Struck(j, j) <==> !IsPrime(j)
  {
    if !IsPrime(j) {
      var d :| 2 <= d < j && Factor(d, j);
      var s := SmallFactor(j, d);
    }
  }

  /** Nothing below 2 is struck, and a number is struck by the time `ix` passes it exactly
      when it is struck at all. */
  lemma StruckLimit(j: nat, k: nat)
    requires j < k
    ensures Struck(j, k) <==> (j >= 2 && Struck(j, j))
  {
    if Struck(j, k) {
      var d :| 2 <= d < k && d * d <= j && Factor(d, j);
      MulMonotone(d, 2, d);
    }
  }

  /** A composite `ix` strikes nothing new: its multiples are struck by its small divisor. */
  lemma CompositeStrikesNothing(ix: nat, j: nat)
    requires ix >= 2 && Struck(ix, ix) && ix * ix <= j && Factor(ix, j)
    ensures Struck(j, ix)
  {
    var d :| 2 <= d < ix && d * d <= ix && Factor(d, ix);
    FactorTransitive(d, ix, j);
    MulAtLeast(ix, ix);
  }

  /** Between two consecutive multiples of `p` there is no other. */
  lemma NoMultipleBetween(p: nat, k: nat, j: nat)
    requires p > 0 && k % p == 0 && k < j < k + p
    ensures !Factor(p, j)
  {
    DivMod(k, p);
    ShiftRemainder(j - k, p, k / p);
    ModUnique(j - k, p, 0, j - k);
  }

  lemma NextMultiple(p: nat, k: nat)
    requires p > 0 && k % p == 0
    ensures (k + p) % p == 0
  {
    ShiftRemainder(k, p, 1);
  }

  // ---------------------------------------------------------------------------------------
  // The sieve of Eratosthenes

  /** `build_prime_sieve`: entry `i` of the result says whether `i` is prime, except that
      0 and 1 are left marked. */
  method BuildPrimeSieve(max: nat) returns (r: seq<bool>)
    ensures |r| == max
    ensures forall i :: 0 <= i < max ==> r[i] == (i < 2 || IsPrime(i))
  {
    var sieve := new bool[max](_ => true);
    var ix := 2;
    while ix < max
      invariant 2 <= ix && (max >= 2 ==> ix <= max)
      invariant forall j :: 0 <= j < max ==> sieve[j] == !Struck(j, ix)
    {
      if sieve[ix] {
        StrikeMultiples(sieve, ix);
      } else {
        forall j | 0 <= j < max ensures Struck(j, ix + 1) == Struck(j, ix) {
          if ix * ix <= j && Factor(ix, j) {
            CompositeStrikesNothing(ix, j);
          }
        }
      }
      ix := ix + 1;
    }
    forall i | 0 <= i < max ensures sieve[i] == (i < 2 || IsPrime(i)) {
      StruckLimit(i, max);
      if i >= 2 {
        StruckComposite(i);
      }
    }
    r := sieve[..];
  }

  /** Striking out the multiples of `ix` from `ix·ix` on. */
  method StrikeMultiples(sieve: array<bool>, ix: nat)
    requires 2 <= ix < sieve.Length
    requires forall j :: 0 <= j < sieve.Length ==> sieve[j] == !Struck(j, ix)
    modifies sieve
    ensures forall j :: 0 <= j < sieve.Length ==> sieve[j] == !Struck(j, ix + 1)
  {
    var k := ix * ix;
    ModUnique(k, ix, ix, 0);
    while k < sieve.Length
      invariant ix * ix <= k && k % ix == 0
      invariant forall j :: 0 <= j < sieve.Length ==>
        sieve[j] == (!Struck(j, ix) && !(ix * ix <= j < k && Factor(ix, j)))
      decreases sieve.Length - k
    {
      forall j | k < j < k + ix ensures !Factor(ix, j) {
        NoMultipleBetween(ix, k, j);
      }
      sieve[k] := false;
      NextMultiple(ix, k);
      k := k + ix;
    }
  }

  /** A positive divisor of a positive number gives a smaller quotient. */
  lemma DivLess(m: nat, p: nat)
    requires m >= 1 && p >= 2
    ensures m / p < m
  {
    DivMod(m, p);
    if m / p >= m {
      MulMonotone(p, m, m / p);
      MulMonotone(m, 2, p);
      MulCommutes(m, p);
    }
  }

  /** `m` is a power of `p`, `p^0 = 1` included. */
  predicate PowerOf(m: nat, p: nat)
    decreases m
  {
    if m <= 1 then m == 1
    else if p >= 2 && m % p == 0 then
      DivLess(m, p);
      PowerOf(m / p, p)
    else false
  }

  lemma PowerStep(current: nat, p: nat)
    requires p >= 2 && PowerOf(current, p)
    ensures PowerOf(current * p, p) && current * p > 1
  {
    MulAtLeast(p, current);
    MulCommutes(p, current);
    ExactQuotient(p, current);
    ModUnique(current * p, p, current, 0);
  }

  // ---------------------------------------------------------------------------------------
  // Factorisation

  /** The inner `while` of `prime_factorise`: every factor `p` divided out of `n`, giving
      what remains and the power of `p` taken out. */
  function DivideOut(n: nat, p: nat): (r: (nat, nat))
    requires n > 0 && p >= 2
    ensures r.0 > 0 && !Factor(p, r.0) && PowerOf(r.1, p)
    ensures r.0 * r.1 == n
    decreases n
  {
    if n % p == 0 then
      DivLess(n, p);
      DivMod(n, p);
      var (rest, current) := DivideOut(n / p, p);
      PowerStep(current, p);
      MulAssociates(rest, current, p);
      MulCommutes(n / p, p);
      (rest, current * p)
    else (n, 1)
  }

  /** The loop of `prime_factorise` from sieve index `ix` on, with `remaining` still to
      split; the `break` once nothing remains ends the list early. */
  function FactorsFrom(value: nat, remaining: nat, sieve: seq<bool>, ix: nat): seq<(nat, Congruence)>
    requires remaining > 0
    decreases |sieve| - ix
  {
    if ix >= |sieve| then
      if remaining > 1 then [(remaining, Congruence(value, remaining))] else []
    else if !(sieve[ix] && ix >= 2) then
      FactorsFrom(value, remaining, sieve, ix + 1)
    else
      var (rest, current) := DivideOut(remaining, ix);
      var here := if current > 1 then [(ix, Congruence(value, current))] else [];
      if rest == 1 then here else here + FactorsFrom(value, rest, sieve, ix + 1)
  }

  /** `prime_factorise`: the factors of a positive modulus, each paired with its prime. */
  function Factorise(c: Congruence, sieve: seq<bool>): seq<(nat, Congruence)>
    requires c.modulo > 0
  {
    FactorsFrom(c.value, c.modulo, sieve, 0)
  }

  /** One prime of the sieve: its power, if any, then the rest. */
  lemma FactorsAtPrime(value: nat, remaining: nat, sieve: seq<bool>, ix: nat)
    requires remaining > 0 && ix < |sieve| && sieve[ix] && ix >= 2
    ensures var (rest, current) := DivideOut(remaining, ix);
      FactorsFrom(value, remaining, sieve, ix)
      == (if current > 1 then [(ix, Congruence(value, current))] else [])
         + (if rest == 1 then [] else FactorsFrom(value, rest, sieve, ix + 1))
  {
  }

  /** `prime_factorise`, dividing `remaining` step by step. A zero modulus would never
      stop dividing. */
  method PrimeFactorise(c: Congruence, sieve: seq<bool>) returns (factors: seq<(nat, Congruence)>)
    requires c.modulo > 0
    ensures factors == Factorise(c, sieve)
  {
    factors := [];
    var remaining := c.modulo;
    var ix := 0;
    while ix < |sieve|
      invariant remaining > 0
      invariant factors + FactorsFrom(c.value, remaining, sieve, ix) == Factorise(c, sieve)
      decreases |sieve| - ix
    {
      if sieve[ix] && ix >= 2 {
        var prime := ix;
        ghost var before := factors;
        ghost var start := remaining;
        var current;
        remaining, current := DivideOutLoop(remaining, prime);
        if current > 1 {
          factors := factors + [(prime, Congruence(c.value, current))];
        }
        FactorsAtPrime(c.value, start, sieve, ix);
        assert factors + (if remaining == 1 then [] else FactorsFrom(c.value, remaining, sieve, ix + 1))
          == before + FactorsFrom(c.value, start, sieve, ix);
        if remaining == 1 {
          assert factors == Factorise(c, sieve);
          break;
        }
      }
      ix := ix + 1;
    }
    if remaining > 1 {
      factors := factors + [(remaining, Congruence(c.value, remaining))];
    }
  }

  /** The inner `while` of `prime_factorise`. */
  method DivideOutLoop(n: nat, prime: nat) returns (remaining: nat, current: nat)
    requires n > 0 && prime >= 2
    ensures (remaining, current) == DivideOut(n, prime)
  {
    remaining, current := n, 1;
    while remaining % prime == 0
      invariant remaining > 0
      invariant DivideOut(n, prime) == (DivideOut(remaining, prime).0, current * DivideOut(remaining, prime).1)
      decreases remaining
    {
      DivLess(remaining, prime);
      var inner := DivideOut(remaining / prime, prime).1;
      MulAssociates(current, inner, prime);
      MulCommutes(inner, prime);
      MulAssociates(current, prime, inner);
      remaining := remaining / prime;
      current := current * prime;
    }
  }

  // ---------------------------------------------------------------------------------------
  // What the factorisation is

  /** The congruences of a factor list. */
  function Moduli(fs: seq<(nat, Congruence)>): (r: seq<Congruence>)
    ensures |r| == |fs| && forall k :: 0 <= k < |fs| ==> r[k] == fs[k].1
  {
    seq(|fs|, k requires 0 <= k < |fs| => fs[k].1)
  }

  lemma ModuliConcat(a: seq<(nat, Congruence)>, b: seq<(nat, Congruence)>)
    ensures Moduli(a + b) == Moduli(a) + Moduli(b)
  {
  }

  /** A power of `p` that is at most 1 is 1. */
  lemma PowerAtMostOne(m: nat, p: nat)
    requires PowerOf(m, p) && m <= 1
    ensures m == 1
  {
  }

  /** The entry for prime `ix`, present when some power of it was divided out. */
  lemma PowerEntry(value: nat, current: nat, ix: nat) returns (here: seq<(nat, Congruence)>)
    requires PowerOf(current, ix)
    ensures here == if current > 1 then [(ix, Congruence(value, current))] else []
    ensures Product(Moduli(here)) == current
  {
    here := if current > 1 then [(ix, Congruence(value, current))] else [];
    if current > 1 {
      assert Moduli(here) == [Congruence(value, current)];
    } else {
      PowerAtMostOne(current, ix);
    }
  }

  lemma SplitProduct(here: seq<(nat, Congruence)>, tail: seq<(nat, Congruence)>, current: int, rest: int)
    requires Product(Moduli(here)) == current && Product(Moduli(tail)) == rest
    ensures Product(Moduli(here + tail)) == rest * current
  {
    ModuliConcat(here, tail);
    ProductConcat(Moduli(here), Moduli(tail));
    MulCommutes(rest, current);
  }

  /** The factors multiply back to what was to be split. */
  lemma {:induction false} FactorsProduct(value: nat, remaining: nat, sieve: seq<bool>, ix: nat)
    requires remaining > 0
    ensures Product(Moduli(FactorsFrom(value, remaining, sieve, ix))) == remaining
    decreases |sieve| - ix
  {
    if ix >= |sieve| {
      if remaining > 1 {
        assert Moduli([(remaining, Congruence(value, remaining))]) == [Congruence(value, remaining)];
      }
    } else if !(sieve[ix] && ix >= 2) {
      FactorsProduct(value, remaining, sieve, ix + 1);
    } else {
      var (rest, current) := DivideOut(remaining, ix);
      FactorsAtPrime(value, remaining, sieve, ix);
      var here := PowerEntry(value, current, ix);
      if rest != 1 {
        var tail := FactorsFrom(value, rest, sieve, ix + 1);
        FactorsProduct(value, rest, sieve, ix + 1);
        SplitProduct(here, tail, current, rest);
      }
    }
  }

  /** Every factor keeps the value of the congruence it came from. */
  lemma {:induction false} FactorsValues(value: nat, remaining: nat, sieve: seq<bool>, ix: nat)
    requires remaining > 0
    ensures forall k :: 0 <= k < |FactorsFrom(value, remaining, sieve, ix)| ==>
      FactorsFrom(value, remaining, sieve, ix)[k].1.value == value
    decreases |sieve| - ix
  {
    if ix < |sieve| {
      if !(sieve[ix] && ix >= 2) {
        FactorsValues(value, remaining, sieve, ix + 1);
      } else {
        var (rest, current) := DivideOut(remaining, ix);
        if rest != 1 {
          FactorsValues(value, rest, sieve, ix + 1);
        }
      }
    }
  }

  /** `prime_factorise` keeps the value and splits the modulus into factors whose product
      is the modulus. */
  lemma FactoriseProduct(c: Congruence, sieve: seq<bool>)
    requires c.modulo > 0
    ensures Product(Moduli(Factorise(c, sieve))) == c.modulo
    ensures forall k :: 0 <= k < |Factorise(c, sieve)| ==> Factorise(c, sieve)[k].1.value == c.value
  {
    FactorsProduct(c.value, c.modulo, sieve, 0);
    FactorsValues(c.value, c.modulo, sieve, 0);
  }

  /** Entry `i` of the sieve says whether `i` is prime, 0 and 1 aside. */
  ghost predicate SieveCorrect(sieve: seq<bool>)
  {
    forall i :: 0 <= i < |sieve| ==> sieve[i] == (i < 2 || IsPrime(i))
  }

  /** No prime below `k` divides `n`. */
  ghost predicate NoPrimeBelow(n: nat, k: nat)
  {
    forall q :: 2 <= q < k && IsPrime(q) ==> !Factor(q, n)
  }

  /** Prime-power factors, each with its own prime of at least `lo`, primes increasing. */
  ghost predicate PrimePowerFactors(fs: seq<(nat, Congruence)>, lo: nat)
  {
    && (forall k :: 0 <= k < |fs| ==>
          lo <= fs[k].0 && IsPrime(fs[k].0) && fs[k].1.modulo > 1 && PowerOf(fs[k].1.modulo, fs[k].0))
    && (forall a, b :: 0 <= a < b < |fs| ==> fs[a].0 < fs[b].0)
  }

  /** Every number from 2 on has a prime divisor. */
  lemma PrimeDivisor(n: nat) returns (q: nat)
    requires n >= 2
    ensures IsPrime(q) && Factor(q, n) && q <= n
    decreases n
  {
    if IsPrime(n) {
      q := n;
      ModUnique(n, n, 1, 0);
    } else {
      var d :| 2 <= d < n && Factor(d, n);
      q := PrimeDivisor(d);
      FactorTransitive(q, d, n);
    }
  }

  /** Once no prime below `s` divides `n < s·s`, `n` is 1 or a prime of at least `s`. */
  lemma LargeFactorPrime(n: nat, s: nat)
    requires 1 < n < s * s && NoPrimeBelow(n, s)
    ensures IsPrime(n) && n >= s
  {
    var q := PrimeDivisor(n);
    if !IsPrime(n) {
      var d :| 2 <= d < n && Factor(d, n);
      var small := SmallFactor(n, d);
      if small >= s {
        SquareMonotone(s, small);
      }
      var r := PrimeDivisor(small);
      FactorTransitive(r, small, n);
    }
  }

  lemma PowerOfSelf(p: nat)
    requires p >= 2
    ensures PowerOf(p, p)
  {
    ModUnique(p, p, 1, 0);
  }

  /** A factor of `rest` is a factor of `remaining = rest · current`. */
  lemma FactorOfPart(q: nat, rest: nat, current: nat)
    requires rest > 0 && current > 0 && Factor(q, rest)
    ensures Factor(q, rest * current)
  {
    MulCommutes(rest, current);
    ModUnique(rest * current, rest, current, 0);
    FactorTransitive(q, rest, rest * current);
  }

  lemma ConcatPrimePowers(here: seq<(nat, Congruence)>, tail: seq<(nat, Congruence)>, ix: nat)
    requires PrimePowerFactors(here, ix) && PrimePowerFactors(tail, ix + 1)
    requires forall k :: 0 <= k < |here| ==> here[k].0 == ix
    requires |here| <= 1
    ensures PrimePowerFactors(here + tail, ix)
  {
  }

  /** With a correct sieve long enough that its square exceeds what remains, the factors
      are prime powers in increasing prime order. */
  lemma {:induction false} FactorsPrimePowers(value: nat, remaining: nat, sieve: seq<bool>, ix: nat)
    requires remaining > 0 && ix <= |sieve| && SieveCorrect(sieve)
    requires remaining == 1 || remaining < |sieve| * |sieve|
    requires NoPrimeBelow(remaining, ix)
    ensures PrimePowerFactors(FactorsFrom(value, remaining, sieve, ix), ix)
    decreases |sieve| - ix
  {
    if ix == |sieve| {
      if remaining > 1 {
        LargeFactorPrime(remaining, |sieve|);
        PowerOfSelf(remaining);
      }
    } else if !(sieve[ix] && ix >= 2) {
      FactorsPrimePowers(value, remaining, sieve, ix + 1);
    } else {
      var (rest, current) := DivideOut(remaining, ix);
      var here := if current > 1 then [(ix, Congruence(value, current))] else [];
      if rest != 1 {
        assert current > 0;
        MulAtLeast(rest, current);
        forall q | 2 <= q < ix + 1 && IsPrime(q) ensures !Factor(q, rest) {
          if q < ix && Factor(q, rest) {
            FactorOfPart(q, rest, current);
          }
        }
        FactorsPrimePowers(value, rest, sieve, ix + 1);
        ConcatPrimePowers(here, FactorsFrom(value, rest, sieve, ix + 1), ix);
      }
    }
  }

  /** `prime_factorise` with a correct sieve whose square exceeds the modulus: prime
      powers, one per prime, in increasing prime order. */
  lemma FactorisePrimePowers(c: Congruence, sieve: seq<bool>)
    requires c.modulo > 0 && SieveCorrect(sieve)
    requires c.modulo == 1 || c.modulo < |sieve| * |sieve|
    ensures PrimePowerFactors(Factorise(c, sieve), 0)
  {
    FactorsPrimePowers(c.value, c.modulo, sieve, 0);
  }

  // ---------------------------------------------------------------------------------------
  // Coprime moduli

  /** `max().unwrap_or(4)` over the moduli. */
  function MaxModulo(cs: seq<Congruence>): (r: nat)
    ensures cs == [] ==> r == 4
    ensures forall i :: 0 <= i < |cs| ==> cs[i].modulo <= r
    ensures cs != [] ==> exists i :: 0 <= i < |cs| && cs[i].modulo == r
  {
    if cs == [] then 4
    else if |cs| == 1 then cs[0].modulo
    else
      var m := MaxModulo(cs[1..]);
      if cs[0].modulo >= m then cs[0].modulo else m
  }

  /** The least `r` from `from` on with `r·r > max`, stopping at `max`. */
  function LeastSquareAbove(max: nat, from: nat): nat
    requires from <= max
    decreases max - from
  {
    if from == max || from * from > max then from else LeastSquareAbove(max, from + 1)
  }

  /** Whatever lies between the square of its predecessor and its own square is the
      least square bound. */
  lemma {:induction false} SquareBoundUnique(max: nat, r: nat, from: nat)
    requires from <= r <= max && (r == max || r * r > max)
    requires r == 0 || (r - 1) * (r - 1) <= max
    ensures LeastSquareAbove(max, from) == r
    decreases r - from
  {
    if from < r {
      SquareMonotone(from, r - 1);
      SquareBoundUnique(max, r, from + 1);
    }
  }

  lemma SquareAboveSelf(max: nat)
    requires max >= 2
    ensures max * max > max
  {
    MulMonotone(max, 2, max);
  }

  /** The binary search of `convert_congruences_to_coprime`: the least `r` with `r·r` above
      `max`, so that a number up to `max` with no prime factor below `r` is prime. */
  method SquareRootBound(max: nat) returns (r: nat)
    ensures r == LeastSquareAbove(max, 0)
    ensures max >= 2 ==> r * r > max && (r - 1) * (r - 1) <= max
  {
    var left, right := 0, max;
    while left < right
      invariant left <= right <= max
      invariant right == max || right * right > max
      invariant left == 0 || (left - 1) * (left - 1) <= max
      decreases right - left
    {
      var candidate := (left + right) / 2;
      if candidate * candidate > max {
        right := candidate;
      } else {
        left := candidate + 1;
      }
    }
    r := right;
    SquareBoundUnique(max, r, 0);
    if max >= 2 && r == max {
      SquareAboveSelf(max);
    }
  }

  /** The sieve `build_prime_sieve` returns. */
  ghost function PrimeSieve(max: nat): (r: seq<bool>)
    ensures SieveCorrect(r) && |r| == max
  {
    seq(max, i => i < 2 || IsPrime(i))
  }

  /** The factors of all congruences in turn, as the `flat_map` yields them. */
  function AllFactors(cs: seq<Congruence>, sieve: seq<bool>): seq<(nat, Congruence)>
    requires PositiveModuli(cs)
  {
    if cs == [] then []
    else AllFactors(cs[..|cs| - 1], sieve) + Factorise(cs[|cs| - 1], sieve)
  }

  /** One factor offered to the map: it goes in when its prime is new or its modulus is
      strictly larger than the one kept so far. */
  function Keep(best: map<nat, Congruence>, e: (nat, Congruence)): map<nat, Congruence>
  {
    if e.0 in best && e.1.modulo <= best[e.0].modulo then best else best[e.0 := e.1]
  }

  /** `best_factor_by_prime` after all the factors. */
  function BestByPrime(es: seq<(nat, Congruence)>): map<nat, Congruence>
  {
    if es == [] then map[] else Keep(BestByPrime(es[..|es| - 1]), es[|es| - 1])
  }

  /** The sieve `convert_congruences_to_coprime` builds: primes below the square-root bound
      of the largest modulus. */
  ghost function CoprimeSieve(cs: seq<Congruence>): seq<bool>
  {
    PrimeSieve(LeastSquareAbove(MaxModulo(cs), 0))
  }

  /** `best_factor_by_prime` as `convert_congruences_to_coprime` fills it: every congruence
      factorised, and per prime the largest power kept. A zero modulus would never finish
      factorising. */
  method BestFactorByPrime(cs: seq<Congruence>) returns (best: map<nat, Congruence>)
    requires PositiveModuli(cs)
    ensures best == BestByPrime(AllFactors(cs, CoprimeSieve(cs)))
  {
    var maxModulo := MaxModulo(cs);
    var bound := SquareRootBound(maxModulo);
    var sieve := BuildPrimeSieve(bound);
    assert sieve == PrimeSieve(bound);
    best := map[];
    var i := 0;
    while i < |cs|
      invariant 0 <= i <= |cs|
      invariant best == BestByPrime(AllFactors(cs[..i], sieve))
    {
      var factors := PrimeFactorise(cs[i], sieve);
      AllFactorsStep(cs, i, sieve);
      best := OfferFactors(best, AllFactors(cs[..i], sieve), factors);
      i := i + 1;
    }
    assert cs[..|cs|] == cs;
  }

  lemma AllFactorsStep(cs: seq<Congruence>, i: nat, sieve: seq<bool>)
    requires PositiveModuli(cs) && i < |cs|
    ensures AllFactors(cs[..i + 1], sieve) == AllFactors(cs[..i], sieve) + Factorise(cs[i], sieve)
  {
    assert cs[..i + 1][..i] == cs[..i];
  }

  lemma BestByPrimeStep(es: seq<(nat, Congruence)>, e: (nat, Congruence))
    ensures BestByPrime(es + [e]) == Keep(BestByPrime(es), e)
  {
    assert (es + [e])[..|es|] == es;
  }

  /** The inner loop of `convert_congruences_to_coprime`: each factor offered to the map in
      turn. */
  method OfferFactors(best0: map<nat, Congruence>, ghost before: seq<(nat, Congruence)>,
                      factors: seq<(nat, Congruence)>) returns (best: map<nat, Congruence>)
    requires best0 == BestByPrime(before)
    ensures best == BestByPrime(before + factors)
  {
    best := best0;
    var j := 0;
    assert before + factors[..0] == before;
    while j < |factors|
      invariant 0 <= j <= |factors|
      invariant best == BestByPrime(before + factors[..j])
    {
      var (prime, congruence) := factors[j];
      if prime in best {
        if congruence.modulo > best[prime].modulo {
          best := best[prime := congruence];
        }
      } else {
        best := best[prime := congruence];
      }
      BestByPrimeStep(before + factors[..j], factors[j]);
      assert before + factors[..j + 1] == before + factors[..j] + [factors[j]];
      j := j + 1;
    }
    assert factors[..j] == factors;
  }

  /** The map holds, for each prime among the factors, a factor of that prime with the
      largest modulus. */
  ghost predicate KeepsLargest(best: map<nat, Congruence>, es: seq<(nat, Congruence)>)
  {
    && (forall k :: 0 <= k < |es| ==> es[k].0 in best && es[k].1.modulo <= best[es[k].0].modulo)
    && (forall p :: p in best ==> (p, best[p]) in es)
  }

  lemma {:induction false} BestKeepsLargest(es: seq<(nat, Congruence)>)
    ensures KeepsLargest(BestByPrime(es), es)
    decreases |es|
  {
    if es != [] {
      var init, e := es[..|es| - 1], es[|es| - 1];
      BestKeepsLargest(init);
      assert es == init + [e];
    }
  }

  // ---------------------------------------------------------------------------------------
  // Prime powers of distinct primes are coprime

  lemma OnlyTrivialFactors(p: nat, g: nat)
    requires IsPrime(p) && Factor(g, p) && g <= p
    ensures g == 1 || g == p
  {
  }

  lemma PrimesCoprime(p: nat, q: nat)
    requires IsPrime(p) && IsPrime(q) && p != q
    ensures Gcd(p, q) == 1
  {
    var g := Gcd(p, q);
    GcdIsGcd(p, q);
    GcdPositive(p, q);
    DividesRemainder(g, p);
    DividesRemainder(g, q);
    assert Factor(g, p) && Factor(g, q);
    FactorBound(g, p);
    FactorBound(g, q);
    OnlyTrivialFactors(p, g);
    OnlyTrivialFactors(q, g);
  }

  lemma {:induction false} PowerCoprime(m: nat, p: nat, n: nat)
    requires PowerOf(m, p) && Gcd(p, n) == 1
    ensures Gcd(m, n) == 1
    decreases m
  {
    if m <= 1 {
      BezoutCoprime(1, n, 1, 0);
    } else {
      DivLess(m, p);
      DivMod(m, p);
      PowerCoprime(m / p, p, n);
      CoprimeMul(p, m / p, n);
    }
  }

  /** Powers of two distinct primes are coprime. */
  lemma PrimePowersCoprime(a: nat, p: nat, b: nat, q: nat)
    requires IsPrime(p) && IsPrime(q) && p != q && PowerOf(a, p) && PowerOf(b, q)
    ensures Gcd(a, b) == 1
  {
    PrimesCoprime(p, q);
    PowerCoprime(a, p, q);
    GcdSymmetric(a, q);
    PowerCoprime(b, q, a);
    GcdSymmetric(b, a);
  }

  // ---------------------------------------------------------------------------------------
  // The converted congruences are pairwise coprime

  /** The linear search stops at a bound or at a square above `max`. */
  lemma {:induction false} LeastSquareStops(max: nat, from: nat)
    requires from <= max
    ensures var r := LeastSquareAbove(max, from); from <= r <= max && (r == max || r * r > max)
    decreases max - from
  {
    if !(from == max || from * from > max) {
      LeastSquareStops(max, from + 1);
    }
  }

  /** Moduli up to `max` fit below the square of the sieve's length. */
  lemma SieveCoversModuli(cs: seq<Congruence>)
    requires PositiveModuli(cs)
    ensures forall i :: 0 <= i < |cs| ==>
      cs[i].modulo == 1 || cs[i].modulo < |CoprimeSieve(cs)| * |CoprimeSieve(cs)|
  {
    var max := MaxModulo(cs);
    LeastSquareStops(max, 0);
    if max >= 2 {
      SquareAboveSelf(max);
    }
  }

  /** Every factor of every congruence is a prime power. */
  lemma {:induction false} AllFactorsPrimePowers(cs: seq<Congruence>, sieve: seq<bool>)
    requires PositiveModuli(cs) && SieveCorrect(sieve)
    requires forall i :: 0 <= i < |cs| ==> cs[i].modulo == 1 || cs[i].modulo < |sieve| * |sieve|
    ensures forall k :: 0 <= k < |AllFactors(cs, sieve)| ==>
      var e := AllFactors(cs, sieve)[k];
      IsPrime(e.0) && e.1.modulo > 1 && PowerOf(e.1.modulo, e.0)
    decreases |cs|
  {
    if cs != [] {
      AllFactorsPrimePowers(cs[..|cs| - 1], sieve);
      FactorisePrimePowers(cs[|cs| - 1], sieve);
    }
  }

  /** `vs` lists the values of `best`, each key once, in the order `keys`. */
  ghost predicate ListsValues(vs: seq<Congruence>, keys: seq<nat>, best: map<nat, Congruence>)
  {
    && |vs| == |keys|
    && (forall k :: 0 <= k < |keys| ==> keys[k] in best && vs[k] == best[keys[k]])
    && (forall p :: p in best ==> p in keys)
    && (forall a, b :: 0 <= a < b < |keys| ==> keys[a] != keys[b])
  }

  /** `into_values().collect()`: the values in the map's iteration order, which is left
      open. */
  method Values(best: map<nat, Congruence>) returns (vs: seq<Congruence>, ghost keys: seq<nat>)
    ensures ListsValues(vs, keys, best)
  {
    var rest := best.Keys;
    vs, keys := [], [];
    while rest != {}
      invariant rest <= best.Keys && |vs| == |keys|
      invariant forall p :: p in best ==> p in keys || p in rest
      invariant forall k :: 0 <= k < |keys| ==> keys[k] in best && keys[k] !in rest && vs[k] == best[keys[k]]
      invariant forall a, b :: 0 <= a < b < |keys| ==> keys[a] != keys[b]
      decreases |rest|
    {
      var p :| p in rest;
      keys, vs := keys + [p], vs + [best[p]];
      rest := rest - {p};
    }
  }

  /** `convert_congruences_to_coprime`: the largest prime power per prime among the
      factors of all congruences, as a list in the map's iteration order. */
  method ConvertToCoprime(cs: seq<Congruence>) returns (coprime: seq<Congruence>, ghost keys: seq<nat>)
    requires PositiveModuli(cs)
    ensures ListsValues(coprime, keys, BestByPrime(AllFactors(cs, CoprimeSieve(cs))))
  {
    var best := BestFactorByPrime(cs);
    coprime, keys := Values(best);
  }

  /** The converted congruences have positive, pairwise coprime moduli, each the largest
      power of its prime among the factors. */
  lemma ConvertedCoprime(cs: seq<Congruence>, coprime: seq<Congruence>, keys: seq<nat>)
    requires PositiveModuli(cs)
    requires ListsValues(coprime, keys, BestByPrime(AllFactors(cs, CoprimeSieve(cs))))
    ensures PositiveModuli(coprime) && PairwiseCoprime(coprime)
    ensures forall k :: 0 <= k < |keys| ==> IsPrime(keys[k]) && PowerOf(coprime[k].modulo, keys[k])
  {
    var es := AllFactors(cs, CoprimeSieve(cs));
    var best := BestByPrime(es);
    SieveCoversModuli(cs);
    AllFactorsPrimePowers(cs, CoprimeSieve(cs));
    BestKeepsLargest(es);
    forall k | 0 <= k < |keys|
      ensures IsPrime(keys[k]) && coprime[k].modulo > 1 && PowerOf(coprime[k].modulo, keys[k])
    {
      var p := keys[k];
      assert (p, best[p]) in es;
      var i :| 0 <= i < |es| && es[i] == (p, best[p]);
    }
    forall a, b | 0 <= a < |coprime| && 0 <= b < |coprime| && a != b
      ensures Gcd(coprime[a].modulo, coprime[b].modulo) == 1
    {
      PrimePowersCoprime(coprime[a].modulo, keys[a], coprime[b].modulo, keys[b]);
    }
  }
}
