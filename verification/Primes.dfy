/** The demo generator of primes: trial division over odd candidates kept in an unsigned integer. */
module Primes {

  predicate Divides(d: nat, n: nat)
    requires d > 0
  {
    n % d == 0
  }

  predicate Prime(n: nat) {
    n >= 2 && forall d: nat :: 2 <= d < n ==> !Divides(d, n)
  }

  /** The primes below `n`, ascending. */
  function PrimesBelow(n: nat): seq<nat> {
    if n == 0 then [] else PrimesBelow(n - 1) + if Prime(n - 1) then [n - 1] else []
  }

  lemma {:induction false} PrimesBelowAreThePrimes(n: nat)
    ensures forall p: nat :: p in PrimesBelow(n) <==> p < n && Prime(p)
    ensures forall i, j :: 0 <= i < j < |PrimesBelow(n)| ==> PrimesBelow(n)[i] < PrimesBelow(n)[j]
  {
    if n > 0 {
      PrimesBelowAreThePrimes(n - 1);
      var init := PrimesBelow(n - 1);
      forall i | 0 <= i < |init| ensures init[i] < n - 1 {
        assert init[i] in init;
      }
    }
  }

  lemma {:induction false} PrimesBelowPrefix(m: nat, n: nat)
    requires m <= n
    ensures PrimesBelow(m) <= PrimesBelow(n)
    decreases n
  {
    if m < n {
      PrimesBelowPrefix(m, n - 1);
    }
  }

  // ---------------------------------------------------------------- trial division

  /** Some candidate divisor up to the square root divides. */
  predicate HasSmallDivisor(n: nat) {
    exists d: nat :: 2 <= d <= n && d * d <= n && Divides(d, n)
  }

  lemma MulMonotone(a: nat, b: nat, c: nat)
    requires a <= b
    ensures a * c <= b * c
  {
  }

  lemma SmallDivisorMeansComposite(n: nat, d: nat)
    requires 2 <= d && d * d <= n && Divides(d, n)
    ensures !Prime(n)
  {
    MulMonotone(2, d, d);
    assert d < n;
  }

  /** A divisor and its quotient cannot both exceed the square root. */
  lemma CompositeHasSmallDivisor(n: nat, d: nat)
    requires 2 <= d < n && Divides(d, n)
    ensures HasSmallDivisor(n)
  {
    var e := n / d;
    assert n == d * e && e != 0 && e != 1;
    if d <= e {
      MulMonotone(d, e, d);
      assert d * d <= n && d <= n;
    } else {
      MulMonotone(e, d, e);
      assert n == e * d && e * e <= n && e <= n;
      QuotientDivides(e, d);
    }
  }

  /** Looking no further than the square root is enough. */
  lemma SmallDivisorsSuffice(n: nat)
    requires n >= 2
    ensures Prime(n) <==> !HasSmallDivisor(n)
  {
    if HasSmallDivisor(n) {
      var d: nat :| 2 <= d <= n && d * d <= n && Divides(d, n);
      SmallDivisorMeansComposite(n, d);
    } else if !Prime(n) {
      var d: nat :| 2 <= d < n && Divides(d, n);
      CompositeHasSmallDivisor(n, d);
    }
  }

  lemma ModUnique(n: nat, e: nat, q: nat, r: nat)
    requires n == q * e + r && r < e
    ensures n % e == r
  {
    var p := n / e;
    assert n == p * e + n % e;
    if p < q {
      MulMonotone(p + 1, q, e);
    } else if q < p {
      MulMonotone(q + 1, p, e);
    }
  }

  lemma QuotientDivides(e: nat, d: nat)
    requires e > 0
    ensures Divides(e, e * d)
  {
    assert e * d == d * e + 0;
    ModUnique(e * d, e, d, 0);
  }

  /** The truncated square root. */
  function Sqrt(n: nat): (r: nat)
    ensures r * r <= n < (r + 1) * (r + 1)
  {
    if n == 0 then 0
    else
      var r := Sqrt(n - 1);
      if (r + 1) * (r + 1) <= n then r + 1 else r
  }

  lemma DivisorUpToRoot(num: nat, limit: nat, d: nat)
    requires limit * limit <= num && 2 <= d <= limit && Divides(d, num)
    ensures HasSmallDivisor(num)
  {
    MulMonotone(d, limit, d);
    MulMonotone(d, limit, limit);
  }

  lemma NoDivisorUpToRoot(num: nat, limit: nat)
    requires num < (limit + 1) * (limit + 1) && forall d: nat :: 2 <= d <= limit ==> !Divides(d, num)
    ensures !HasSmallDivisor(num)
  {
    forall d: nat | 2 <= d && d * d <= num ensures d <= limit {
      if d > limit {
        MulMonotone(limit + 1, d, d);
        MulMonotone(limit + 1, d, limit + 1);
      }
    }
  }

  method PassesTrialDivision(num: nat) returns (isPrime: bool)
    requires num >= 1
    ensures isPrime <==> !HasSmallDivisor(num)
  {
    var limit := Sqrt(num);
    var i := 2;
    while i <= limit
      invariant i >= 2 && forall d: nat :: 2 <= d < i ==> !Divides(d, num)
    {
      if num % i == 0 {
        DivisorUpToRoot(num, limit, i);
        return false;
      }
      i := i + 1;
    }
    NoDivisorUpToRoot(num, limit);
    return true;
  }

  // ---------------------------------------------------------------- the generator

  /** The number of values of the candidates' unsigned type. */
  const UINT_RANGE: nat := 0x1_0000_0000

  lemma PrimesBelow3()
    ensures PrimesBelow(3) == [2]
  {
    assert PrimesBelow(1) == [] && PrimesBelow(2) == [] by {
      assert PrimesBelow(0) == [];
    }
    assert Prime(2);
  }

  /** One more odd candidate; the even one after it is never prime. */
  lemma NextCandidate(num: nat)
    requires num >= 3 && num % 2 == 1
    ensures PrimesBelow(num + 2) == PrimesBelow(num) + if HasSmallDivisor(num) then [] else [num]
  {
    SmallDivisorsSuffice(num);
    assert Divides(2, num + 1);
  }

  lemma OneAndThreePass()
    ensures !HasSmallDivisor(1) && !HasSmallDivisor(3)
  {
    forall d: nat | 2 <= d ensures d * d >= 4 {
      MulMonotone(2, d, 2);
      MulMonotone(2, d, d);
    }
  }

  /** What has been yielded when `num` is the next candidate: the primes below it, or after the first wrap-around all
      primes in range, and 1 once it has come up. */
  ghost predicate Progress(yielded: seq<nat>, num: nat, range: nat, wrapped: bool) {
    && num < range && num % 2 == 1
    && var primes := PrimesBelow(range);
       if !wrapped then num >= 3 && yielded == PrimesBelow(num) && yielded <= primes
       else (num == 1 && yielded == primes) || primes + [1] <= yielded
  }

  /** The candidate after `num`: adding 2 wraps around. */
  function After(num: nat, range: nat): nat
    requires range >= 4
  {
    if num + 2 < range then num + 2 else num + 2 - range
  }

  lemma Advance(yielded: seq<nat>, num: nat, range: nat, wrapped: bool) returns (wrapped': bool)
    requires range >= 4 && range % 2 == 0 && Progress(yielded, num, range, wrapped)
    ensures Progress(yielded + if HasSmallDivisor(num) then [] else [num], After(num, range), range, wrapped')
  {
    wrapped' := wrapped || num + 2 >= range;
    if wrapped {
      OneAndThreePass();
    } else {
      NextCandidate(num);
      if num + 2 >= range {
        PrimesBelowAtRange(num, range);
      } else {
        PrimesBelowPrefix(num + 2, range);
      }
    }
  }

  lemma PrimesBelowAtRange(num: nat, range: nat)
    requires num >= 3 && num + 1 == range && num % 2 == 1
    ensures PrimesBelow(range) == PrimesBelow(num + 2)
  {
    assert Divides(2, range);
  }

  /** `num += 2` in an unsigned type. */
  method Next(num: nat, range: nat) returns (next: nat)
    requires num < range && range >= 4
    ensures next == After(num, range)
  {
    WrapAround(num + 2, range);
    next := (num + 2) % range;
  }

  lemma WrapAround(n: nat, range: nat)
    requires 0 < range && n < 2 * range
    ensures n % range == if n < range then n else n - range
  {
    ModUnique(n, range, if n < range then 0 else 1, if n < range then n else n - range);
  }

  // ---------------------------------------------------------------- how many primes there are

  /** The signed 32-bit counter of the original cannot overflow while the run is still right: it counts primes. */
  lemma CounterFits(range: nat)
    requires 10 <= range <= UINT_RANGE && range % 2 == 0
    ensures |PrimesBelow(range)| < 0x8000_0000
  {
    HalfAreComposite(range);
  }

  lemma {:induction false} HalfAreComposite(n: nat)
    requires n >= 10 && n % 2 == 0
    ensures |PrimesBelow(n)| < n / 2
  {
    if n == 10 {
      PrimesBelow3();
      assert PrimesBelow(5) == PrimesBelow(3) + [3] by { NextCandidate(3); OneAndThreePass(); }
      assert |PrimesBelow(7)| <= 3 by { NextCandidate(5); }
      assert |PrimesBelow(9)| <= 4 by { NextCandidate(7); }
      assert !Prime(9) by { assert Divides(3, 9); }
    } else {
      HalfAreComposite(n - 2);
      assert Divides(2, n - 2);
    }
  }

  function Factorial(n: nat): (f: nat)
    ensures f >= 1
  {
    if n == 0 then 1 else n * Factorial(n - 1)
  }

  lemma {:induction false} FactorialDivisible(n: nat, d: nat)
    requires 1 <= d <= n
    ensures Divides(d, Factorial(n))
  {
    if d == n {
      QuotientDivides(n, Factorial(n - 1));
    } else {
      FactorialDivisible(n - 1, d);
      var q := Factorial(n - 1) / d;
      assert Factorial(n) == (n * q) * d + 0 by {
        assert Factorial(n - 1) == q * d;
        MulAssociative(n, q, d);
      }
      ModUnique(Factorial(n), d, n * q, 0);
    }
  }

  lemma MulAssociative(a: nat, b: nat, c: nat)
    ensures a * (b * c) == (a * b) * c
  {
  }

  lemma DivisorOfDivisor(c: nat, d: nat, n: nat)
    requires c > 0 && d > 0 && Divides(c, d) && Divides(d, n)
    ensures Divides(c, n)
  {
    var x, y := d / c, n / d;
    assert d == x * c && n == y * d;
    MulAssociative(y, x, c);
    ModUnique(n, c, y * x, 0);
  }

  lemma {:induction false} SmallestDivisorIsPrime(n: nat, d: nat) returns (p: nat)
    requires n >= 2 && 2 <= d <= n && forall c: nat :: 2 <= c < d ==> !Divides(c, n)
    ensures Prime(p) && Divides(p, n)
    decreases n - d
  {
    if Divides(d, n) {
      p := d;
      forall c: nat | 2 <= c < d ensures !Divides(c, d) {
        if Divides(c, d) {
          DivisorOfDivisor(c, d, n);
        }
      }
    } else {
      assert d != n by { QuotientDivides(n, 1); }
      p := SmallestDivisorIsPrime(n, d + 1);
    }
  }

  /** There is a prime beyond every number. */
  lemma PrimeBeyond(n: nat) returns (p: nat)
    ensures Prime(p) && p > n
  {
    var f := Factorial(n);
    p := SmallestDivisorIsPrime(f + 1, 2);
    if p <= n {
      FactorialDivisible(n, p);
      var q := f / p;
      ModUnique(f + 1, p, q, 1);
    }
  }

  function EvenAbove(p: nat): (r: nat)
    ensures p < r && r % 2 == 0
  {
    2 * p + 2
  }

  lemma OneMorePrime(n: nat, p: nat, range: nat)
    requires n <= p < range && Prime(p)
    ensures |PrimesBelow(range)| > |PrimesBelow(n)|
  {
    PrimesBelowPrefix(n, p);
    PrimesBelowPrefix(p + 1, range);
  }

  /** So for every count there is an unsigned type wide enough for the generator to be right. */
  lemma {:induction false} WideEnough(count: nat) returns (range: nat)
    ensures range >= 4 && range % 2 == 0 && count <= |PrimesBelow(range)|
    decreases count
  {
    if count == 0 {
      range := 4;
    } else {
      var smaller := WideEnough(count - 1);
      var p := PrimeBeyond(smaller);
      range := EvenAbove(p);
      OneMorePrime(smaller, p, range);
    }
  }
}
