/** The demo's prime generator as a coroutine that is resumed for one value at a time. */
module PrimeStream {
  import opened Bodies
  import opened Common
  import Generators
  import opened Primes

  /** Candidates are odd numbers of an unsigned type. */
  predicate Candidate(num: nat, range: nat) {
    range >= 4 && range % 2 == 0 && num < range && num % 2 == 1
  }

  /** The coroutine in its loop, about to look at `num` with `counter` values yielded. The loop ends since the
      candidates 3 and 1 pass the test whenever they come round. */
  function Loop(num: nat, counter: nat, count: nat, range: nat): Body<nat, string>
    requires Candidate(num, range)
    decreases count - counter, Distance(num, range)
  {
    OneAndThreePass();
    if counter >= count then Return
    else if HasSmallDivisor(num) then Loop(Primes.After(num, range), counter, count, range)
    else Yield(num, Loop(Primes.After(num, range), counter + 1, count, range))
  }

  /** How far it is to the next candidate that is sure to pass. */
  function Distance(num: nat, range: nat): nat
    requires Candidate(num, range)
  {
    if num <= 3 then 3 - num else range + 3 - num
  }

  lemma LoopTurn(num: nat, counter: nat, count: nat, range: nat)
    requires Candidate(num, range) && counter < count
    ensures var next := Primes.After(num, range);
      && Candidate(next, range) && (HasSmallDivisor(num) ==> Distance(next, range) < Distance(num, range))
      && Loop(num, counter, count, range)
        == if HasSmallDivisor(num) then Loop(next, counter, count, range)
           else Yield(num, Loop(next, counter + 1, count, range))
  {
    OneAndThreePass();
  }

  function PrimeBody(count: nat, range: nat): Body<nat, string>
    requires Candidate(3, range)
  {
    if count >= 1 then Yield(2, Loop(3, 1, count, range)) else Loop(3, 1, count, range)
  }

  /** The first `count` primes when there are that many in range; else all of them and then 1, which the wrapped
      candidate brings in. */
  ghost predicate FirstPrimes(out: seq<nat>, count: nat, range: nat) {
    && |out| == count
    && var primes := PrimesBelow(range); if count <= |primes| then out == primes[..count] else primes + [1] <= out
  }

  lemma {:induction false} LoopMeans(num: nat, count: nat, range: nat, yielded: seq<nat>, wrapped: bool)
    requires Candidate(num, range) && Progress(yielded, num, range, wrapped) && |yielded| <= count
    ensures var t := Flatten(Loop(num, |yielded|, count, range));
      t.exn.None? && FirstPrimes(yielded + t.values, count, range)
    decreases count - |yielded|, Distance(num, range)
  {
    var next := Primes.After(num, range);
    if |yielded| == count {
      assert yielded + [] == yielded;
    } else {
      LoopTurn(num, |yielded|, count, range);
      var later := Advance(yielded, num, range, wrapped);
      if HasSmallDivisor(num) {
        assert yielded + [] == yielded;
        LoopMeans(next, count, range, yielded, later);
      } else {
        LoopMeans(next, count, range, yielded + [num], later);
        var rest := Flatten(Loop(next, |yielded| + 1, count, range)).values;
        assert yielded + ([num] + rest) == yielded + [num] + rest;
      }
    }
  }

  lemma PrimeBodyMeans(count: nat, range: nat)
    requires Candidate(3, range)
    ensures var t := Flatten(PrimeBody(count, range)); t.exn.None? && FirstPrimes(t.values, count, range)
  {
    if count >= 1 {
      PrimesBelow3();
      PrimesBelowPrefix(3, range);
      LoopMeans(3, count, range, [2], false);
    }
  }

  /** Where the coroutine is suspended. */
  datatype Point = AtStart | AfterFirst | AfterPrime | AtEnd

  /** The coroutine's frame. */
  class PrimeCoroutine {
    const count: nat
    const range: nat
    var point: Point
    var counter: nat
    var num: nat

    ghost predicate Valid()
      reads this
    {
      Candidate(3, range) && Candidate(num, range)
    }

    /** What it will still do. */
    ghost function Suspended(): Body<nat, string>
      requires Valid()
      reads this
    {
      match point
      case AtStart => PrimeBody(count, range)
      case AfterFirst => Loop(3, 1, count, range)
      case AfterPrime => Loop(Primes.After(num, range), counter + 1, count, range)
      case AtEnd => Return
    }

    constructor (count: nat, range: nat)
      requires Candidate(3, range)
      ensures Valid() && Suspended() == PrimeBody(count, range)
    {
      this.count, this.range, point, counter, num := count, range, AtStart, 1, 3;
    }

    /** Runs to the next suspension, looking at as many candidates as it takes. */
    method Resume() returns (v: Option<nat>)
      requires Valid()
      modifies this
      ensures Valid() && old(Suspended()) == if v.Some? then Yield(v.value, Suspended()) else Return
    {
      if point.AtEnd? || (point.AtStart? && count >= 1) {
        v := if point.AtEnd? then None else Some(2);
        point := if point.AtEnd? then AtEnd else AfterFirst;
        return;
      }
      if point.AfterPrime? {
        counter := counter + 1;
        num := Next(num, range);
      } else {
        counter, num := 1, 3;
      }
      v := RunLoop();
    }

    method RunLoop() returns (v: Option<nat>)
      requires Valid()
      modifies this
      ensures Valid()
      ensures old(Loop(num, counter, count, range)) == if v.Some? then Yield(v.value, Suspended()) else Return
    {
      while counter < count
        invariant Valid() && counter == old(counter)
        invariant Loop(num, counter, count, range) == old(Loop(num, counter, count, range))
        decreases Distance(num, range)
      {
        LoopTurn(num, counter, count, range);
        var isPrime := PassesTrialDivision(num);
        if isPrime {
          point := AfterPrime;
          return Some(num);
        }
        num := Next(num, range);
      }
      point := AtEnd;
      return None;
    }
  }

  /** A loop that resumes the coroutine for each value sees exactly the first `count` primes, when there are that many
      in range. */
  method Consume(count: nat, range: nat) returns (out: seq<nat>)
    requires Candidate(3, range)
    ensures FirstPrimes(out, count, range) && Flatten(PrimeBody(count, range)) == Trace(out, None)
  {
    var coroutine := new PrimeCoroutine(count, range);
    out := [];
    var v := coroutine.Resume();
    ghost var rest := PrimeBody(count, range);
    while v.Some?
      invariant coroutine.Valid() && rest == if v.Some? then Yield(v.value, coroutine.Suspended()) else Return
      invariant Flatten(PrimeBody(count, range)) == Prepend(out, Flatten(rest))
      decreases rest
    {
      out := out + [v.value];
      rest := coroutine.Suspended();
      PrependPrepend(out[..|out| - 1], [v.value], Flatten(rest));
      v := coroutine.Resume();
    }
    PrimeBodyMeans(count, range);
  }

  /** So does a range-for loop over a generator with that body. */
  method ConsumeGenerator(count: nat, range: nat) returns (out: seq<nat>)
    requires Candidate(3, range)
    ensures FirstPrimes(out, count, range)
  {
    var thrown;
    out, thrown := Generators.RunBody(PrimeBody(count, range));
    PrimeBodyMeans(count, range);
  }
}
