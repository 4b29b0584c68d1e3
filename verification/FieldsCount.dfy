/** Finding how many initializers an aggregate type accepts, by asking for single counts whether they work. */
module FieldsCount {

  /** `p(n)`: the type can be initialized from `n` values. */
  type Constructible = nat -> bool

  ghost predicate Bounded(p: Constructible, n: nat) {
    forall k: nat :: p(k) ==> k <= n
  }

  /** An aggregate whose members are all default-initializable accepts fewer initializers too. */
  ghost predicate DownwardClosed(p: Constructible) {
    forall j: nat, k: nat {:trigger p(j), p(k)} :: j <= k && p(k) ==> p(j)
  }

  ghost predicate IsMaximum(p: Constructible, m: nat) {
    p(m) && forall k: nat :: p(k) ==> k <= m
  }

  // ---------------------------------------------------------------- two-sided search

  function NextUp(begin: nat, middle: nat): nat
    requires begin <= middle
  {
    middle + (middle - begin + 1) / 2
  }

  function NextDown(begin: nat, middle: nat): nat
    requires begin <= middle
  {
    begin + (middle - begin) / 2
  }

  /** The search moves its beginning up to a count that works and halves the gap either way. It stops because a gap
      of one can only move up as far as the bound. */
  function Detect(p: Constructible, ghost n: nat, begin: nat, middle: nat): nat
    requires Bounded(p, n) && begin <= middle
    decreases middle - begin, if begin <= n then n - begin else 0
  {
    if begin == middle then begin
    else if p(middle) then Detect(p, n, middle, NextUp(begin, middle))
    else Detect(p, n, begin, NextDown(begin, middle))
  }

  /** The counts that the search asks about, in order; each costs a template instantiation. */
  function Asked(p: Constructible, ghost n: nat, begin: nat, middle: nat): seq<nat>
    requires Bounded(p, n) && begin <= middle
    decreases middle - begin, if begin <= n then n - begin else 0
  {
    if begin == middle then []
    else
      [middle] + if p(middle) then Asked(p, n, middle, NextUp(begin, middle))
                 else Asked(p, n, begin, NextDown(begin, middle))
  }

  function Calls(p: Constructible, ghost n: nat, begin: nat, middle: nat): nat
    requires Bounded(p, n) && begin <= middle
  {
    |Asked(p, n, begin, middle)|
  }

  /** The answers to these questions decide the result: the last of the counts asked about that works, or where the
      search began. */
  lemma {:induction false} AnswersDecide(p: Constructible, n: nat, begin: nat, middle: nat)
    requires Bounded(p, n) && begin <= middle
    ensures var asked, r := Asked(p, n, begin, middle), Detect(p, n, begin, middle);
      && (asked != [] <==> begin < middle) && (asked != [] ==> asked[0] == middle)
      && (r == begin || (r in asked && p(r))) && r >= begin
      && forall k :: k in asked && p(k) ==> k <= r
    decreases middle - begin, if begin <= n then n - begin else 0
  {
    if begin < middle {
      if p(middle) {
        AnswersDecide(p, n, middle, NextUp(begin, middle));
      } else {
        AnswersDecide(p, n, begin, NextDown(begin, middle));
      }
    }
  }

  /** The answer never leaves the window from `begin` to twice the gap above it. */
  ghost predicate InWindow(p: Constructible, m: nat, begin: nat, middle: nat) {
    DownwardClosed(p) && IsMaximum(p, m) && begin <= m <= begin + 2 * (middle - begin)
  }

  lemma WindowStep(p: Constructible, m: nat, begin: nat, middle: nat)
    requires InWindow(p, m, begin, middle) && begin < middle
    ensures p(middle) ==> InWindow(p, m, middle, NextUp(begin, middle))
    ensures !p(middle) ==> InWindow(p, m, begin, NextDown(begin, middle))
  {
    assert middle <= m ==> p(middle);
  }

  lemma {:induction false} DetectFindsMaximum(p: Constructible, n: nat, begin: nat, middle: nat, m: nat)
    requires Bounded(p, n) && begin <= middle && InWindow(p, m, begin, middle)
    ensures Detect(p, n, begin, middle) == m
    decreases middle - begin, if begin <= n then n - begin else 0
  {
    if begin < middle {
      WindowStep(p, m, begin, middle);
      if p(middle) {
        DetectFindsMaximum(p, n, middle, NextUp(begin, middle), m);
      } else {
        DetectFindsMaximum(p, n, begin, NextDown(begin, middle), m);
      }
    }
  }

  function Log2(n: nat): nat {
    if n <= 1 then 0 else 1 + Log2((n + 1) / 2)
  }

  function Pow2(k: nat): nat {
    if k == 0 then 1 else 2 * Pow2(k - 1)
  }

  lemma {:induction false} Pow2Monotone(a: nat, b: nat)
    requires a <= b
    ensures Pow2(a) <= Pow2(b)
  {
    if a < b {
      Pow2Monotone(a, b - 1);
    }
  }

  /** `Log2` rounds up. */
  lemma {:induction false} Log2Meaning(n: nat)
    requires n >= 1
    ensures n <= Pow2(Log2(n)) && (n > 1 ==> Pow2(Log2(n) - 1) < n)
  {
    if n > 1 {
      Log2Meaning((n + 1) / 2);
    }
  }

  /** The gap can at most be halved by a question, so there are never fewer than its logarithm. */
  lemma {:induction false} CallsAtLeast(p: Constructible, n: nat, begin: nat, middle: nat)
    requires Bounded(p, n) && begin <= middle
    ensures middle - begin < Pow2(Calls(p, n, begin, middle))
    decreases middle - begin, if begin <= n then n - begin else 0
  {
    if begin < middle {
      if p(middle) {
        CallsAtLeast(p, n, middle, NextUp(begin, middle));
      } else {
        CallsAtLeast(p, n, begin, NextDown(begin, middle));
      }
    }
  }

  lemma BelowLog2(calls: nat, n: nat)
    requires n >= 1 && calls <= Log2(n) + 3
    ensures calls > 3 ==> Pow2(calls - 4) < n
  {
    Log2Meaning(n);
    if calls > 3 {
      Pow2Monotone(calls - 4, Log2(n) - 1);
    }
  }

  lemma {:induction false} Log2Monotone(a: nat, b: nat)
    requires a <= b
    ensures Log2(a) <= Log2(b)
  {
    if a > 1 {
      Log2Monotone((a + 1) / 2, (b + 1) / 2);
    }
  }

  lemma {:induction false} CallsAreLogarithmic(p: Constructible, n: nat, begin: nat, middle: nat, m: nat)
    requires Bounded(p, n) && begin < middle && InWindow(p, m, begin, middle)
    ensures Calls(p, n, begin, middle) <= Log2(middle - begin) + if middle - begin == 1 then m - begin + 1 else 3
    decreases middle - begin, if begin <= n then n - begin else 0
  {
    WindowStep(p, m, begin, middle);
    if p(middle) {
      CallsAreLogarithmic(p, n, middle, NextUp(begin, middle), m);
    } else if middle - begin > 1 {
      CallsAreLogarithmic(p, n, begin, NextDown(begin, middle), m);
      Log2Monotone((middle - begin) / 2, (middle - begin + 1) / 2);
    } else {
      assert Asked(p, n, begin, NextDown(begin, middle)) == [];
    }
  }

  // ---------------------------------------------------------------- greedy search

  function Remember(p: Constructible, n: nat): nat {
    if p(n) then n else 0
  }

  function Greedy(p: Constructible, begin: nat, last: nat): nat
    requires begin <= last
    decreases last - begin
  {
    if begin == last then Remember(p, begin)
    else
      var middle := begin + (last - begin) / 2;
      var big := Greedy(p, middle + 1, last);
      var small := Greedy(p, if big != 0 then 0 else begin, if big != 0 then 0 else middle);
      if big != 0 then big else small
  }

  /** The greedy search needs nothing of the type: it returns the largest count in its range that works, if any. */
  lemma {:induction false} GreedyFindsMaximum(p: Constructible, begin: nat, last: nat)
    requires begin <= last
    ensures var g := Greedy(p, begin, last);
      && (forall k :: begin <= k <= last && p(k) ==> k <= g)
      && (g != 0 ==> begin <= g <= last && p(g))
    decreases last - begin
  {
    if begin < last {
      var middle := begin + (last - begin) / 2;
      GreedyFindsMaximum(p, middle + 1, last);
      GreedyFindsMaximum(p, begin, middle);
    }
  }

  // ---------------------------------------------------------------- the choice between them

  /** A type that can be initialized from nothing takes the fast search, others the greedy one. `n` is the size of
      the type in bits. */
  function FieldCount(p: Constructible, n: nat): nat
    requires Bounded(p, n)
  {
    if p(0) then Detect(p, n, 0, n / 2 + 1) else Greedy(p, 0, n)
  }

  /** Both searches return the largest count that works. */
  lemma FieldCountIsMaximum(p: Constructible, n: nat, m: nat)
    requires Bounded(p, n) && IsMaximum(p, m) && (p(0) ==> DownwardClosed(p))
    ensures FieldCount(p, n) == m == Greedy(p, 0, n)
  {
    GreedyFindsMaximum(p, 0, n);
    if p(0) {
      DetectFindsMaximum(p, n, 0, n / 2 + 1, m);
    }
  }

  /** And the fast one asks about logarithmically many. */
  lemma FastSearchIsFast(p: Constructible, n: nat, m: nat)
    requires Bounded(p, n) && IsMaximum(p, m) && p(0) && DownwardClosed(p)
    ensures var calls := Calls(p, n, 0, n / 2 + 1);
      calls <= Log2(n / 2 + 1) + 3 && (calls > 3 ==> Pow2(calls - 4) < n / 2 + 1) && n / 2 + 1 < Pow2(calls)
  {
    CallsAtLeast(p, n, 0, n / 2 + 1);
    CallsAreLogarithmic(p, n, 0, n / 2 + 1, m);
    BelowLog2(Calls(p, n, 0, n / 2 + 1), n / 2 + 1);
  }

  lemma NothingWorks(p: Constructible, n: nat)
    requires Bounded(p, n) && forall k: nat :: !p(k)
    ensures FieldCount(p, n) == 0
  {
    GreedyFindsMaximum(p, 0, n);
  }

  // ---------------------------------------------------------------- the fast search without closure

  /** Whatever the type, the fast search stops at a count that works where one more does not. */
  lemma {:induction false} StopsAtEdge(p: Constructible, n: nat, begin: nat, middle: nat)
    requires Bounded(p, n) && begin <= middle && p(begin) && (begin == middle ==> !p(begin + 1))
    ensures var r := Detect(p, n, begin, middle); r >= begin && p(r) && !p(r + 1)
    decreases middle - begin, if begin <= n then n - begin else 0
  {
    if begin < middle {
      if p(middle) {
        StopsAtEdge(p, n, middle, NextUp(begin, middle));
      } else {
        StopsAtEdge(p, n, begin, NextDown(begin, middle));
      }
    }
  }

  /** The fast search asks about `k` on its way. */
  predicate AsksAbout(p: Constructible, ghost n: nat, begin: nat, middle: nat, k: nat)
    requires Bounded(p, n) && begin <= middle
  {
    k in Asked(p, n, begin, middle)
  }

  /** It finds the largest count that works exactly when it starts from that count or ever asks about it; closure is
      one reason why it would. */
  lemma {:induction false} FindsMaximumExactlyWhen(p: Constructible, n: nat, begin: nat, middle: nat, m: nat)
    requires Bounded(p, n) && IsMaximum(p, m) && begin <= middle && p(begin)
    ensures Detect(p, n, begin, middle) == m <==> begin == m || AsksAbout(p, n, begin, middle, m)
    decreases middle - begin, if begin <= n then n - begin else 0
  {
    if begin < middle {
      if p(middle) {
        FindsMaximumExactlyWhen(p, n, middle, NextUp(begin, middle), m);
        AnswersDecide(p, n, middle, NextUp(begin, middle));
      } else {
        FindsMaximumExactlyWhen(p, n, begin, NextDown(begin, middle), m);
      }
    }
  }

  /** `middle`, half of it, a quarter of it and so on do not work. */
  predicate HalvingsFail(p: Constructible, middle: nat) {
    middle == 0 || (!p(middle) && HalvingsFail(p, middle / 2))
  }

  /** It reports no fields at all exactly when its halvings of the first count all fail, whatever else works. */
  lemma {:induction false} FindsNothingExactlyWhen(p: Constructible, n: nat, middle: nat)
    requires Bounded(p, n)
    ensures Detect(p, n, 0, middle) == 0 <==> HalvingsFail(p, middle)
  {
    if middle > 0 {
      if p(middle) {
        AnswersDecide(p, n, middle, NextUp(0, middle));
      } else {
        FindsNothingExactlyWhen(p, n, middle / 2);
      }
    }
  }

  /** On a type that can be initialized from nothing the two searches agree exactly when the fast one asks about the
      largest count that works, or that is zero. */
  lemma SearchesAgreeExactlyWhen(p: Constructible, n: nat, m: nat)
    requires Bounded(p, n) && IsMaximum(p, m) && p(0)
    ensures FieldCount(p, n) == Greedy(p, 0, n) <==> m == 0 || AsksAbout(p, n, 0, n / 2 + 1, m)
  {
    GreedyFindsMaximum(p, 0, n);
    FindsMaximumExactlyWhen(p, n, 0, n / 2 + 1, m);
  }
}
