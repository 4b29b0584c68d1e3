/** Postgres errors becoming C++ exceptions and Postgres errors again, through any nesting of guards. */
module ErrorBridge {
  import opened Common
  import opened ErrorMeaning

  /** A C++ exception, or none. */
  datatype Thrown = Nothing | Caught(exn: PgException) | Std(what: Text) | Other

  /** What the process keeps of captured errors: how often each error context has been deleted or handed over to be
      deleted, the number of the next one, those left behind empty, and the run-time's stack of caught exceptions. */
  datatype Books = Books(fate: multiset<nat>, next: nat, empty: set<nat>, caught: seq<Thrown>)

  // ---------------------------------------------------------------- bookkeeping

  ghost predicate Matches(t: Thrown, e: Option<Exn>) {
    match e
    case None => t == Nothing
    case Some(PgExn(record, _)) => t.Caught? && t.exn.record == record && !record.Missing?
    case Some(StdExn(what)) => t == Std(what)
    case Some(OtherExn) => t == Other
  }

  ghost predicate Alike(ts: seq<Thrown>, es: seq<Exn>) {
    |ts| == |es| && forall i :: 0 <= i < |ts| ==> Matches(ts[i], Some(es[i]))
  }

  /** How often `c` is the error context of `t`, counted when it is spent or when it is not. */
  ghost function Share(c: nat, spent: bool, t: Thrown, e: Option<Exn>): nat {
    if e.Some? && Spent(e.value) == spent && t.Caught? && t.exn.errorContext == c then 1 else 0
  }

  ghost function Shares(c: nat, spent: bool, ts: seq<Thrown>, es: seq<Exn>): nat
    requires |ts| == |es|
  {
    if ts == [] then 0 else Share(c, spent, ts[0], Some(es[0])) + Shares(c, spent, ts[1..], es[1..])
  }

  lemma {:induction false} SharesConcat(c: nat, spent: bool, ts: seq<Thrown>, es: seq<Exn>, us: seq<Thrown>,
                                        ds: seq<Exn>)
    requires |ts| == |es| && |us| == |ds|
    ensures Shares(c, spent, ts + us, es + ds) == Shares(c, spent, ts, es) + Shares(c, spent, us, ds)
  {
    if ts == [] {
      assert ts + us == us && es + ds == ds;
    } else {
      SharesConcat(c, spent, ts[1..], es[1..], us, ds);
      assert (ts + us)[1..] == ts[1..] + us && (es + ds)[1..] == es[1..] + ds;
    }
  }

  /** What is known of error context `c` when there were `floor` of them and then `next`: it belongs to one exception at
      most, or is `empty`, and it has been neither deleted nor handed over just when it is empty or belongs to an
      exception that is not spent. */
  predicate Accounted(c: nat, floor: nat, next: nat, before: nat, now: nat, spent: nat, awaited: nat, wasEmpty: bool,
                      empty: bool) {
    && spent + awaited + (if empty && floor <= c then 1 else 0) <= (if floor <= c < next then 1 else 0)
    && (c < floor ==> now == before && empty == wasEmpty) && (next <= c ==> now == 0)
    && (floor <= c < next ==> (now == 0 <==> awaited == 1 || empty))
  }

  ghost predicate Twice(fate: multiset<nat>, floor: nat, next: nat) {
    exists c: nat :: floor <= c < next && fate[c] >= 2
  }

  /** From `a` to `b` the exceptions `left` have been put on the stack of caught ones, `t`, which looks like `e`, is in
      flight, and the error contexts made are accounted for. */
  ghost predicate Kept(a: Books, b: Books, t: Thrown, e: Option<Exn>, left: seq<Exn>, twice: bool, empty: nat) {
    && a.next <= b.next && |b.caught| == |left| + |a.caught| && b.caught[|left|..] == a.caught
    && Matches(t, e) && Alike(b.caught[..|left|], left)
    && (forall c: nat :: Sound(c, a, b, t, e, b.caught[..|left|], left))
    && (twice <==> Twice(b.fate, a.next, b.next)) && |b.empty| == |a.empty| + empty
  }

  ghost predicate Sound(c: nat, a: Books, b: Books, t: Thrown, e: Option<Exn>, ts: seq<Thrown>, es: seq<Exn>)
    requires |ts| == |es|
  {
    Accounted(c, a.next, b.next, a.fate[c], b.fate[c],
              Share(c, true, t, e) + Shares(c, true, ts, es), Share(c, false, t, e) + Shares(c, false, ts, es),
              c in a.empty, c in b.empty)
  }

  ghost predicate Known(a: Books) {
    forall c: nat :: a.next <= c ==> a.fate[c] == 0 && c !in a.empty
  }

  lemma KeptNone(a: Books)
    requires Known(a)
    ensures Kept(a, a, Nothing, None, [], false, 0)
  {
  }

  lemma KeptThrow(a: Books, t: Thrown, e: Exn)
    requires Known(a) && Matches(t, Some(e)) && !e.PgExn?
    ensures Kept(a, a, t, Some(e), [], false, 0)
  {
  }

  lemma KeptKnown(a: Books, b: Books, t: Thrown, e: Option<Exn>, left: seq<Exn>, twice: bool, empty: nat)
    requires Kept(a, b, t, e, left, twice, empty)
    ensures Known(b)
  {
    forall c: nat | b.next <= c ensures b.fate[c] == 0 && c !in b.empty {
      assert Sound(c, a, b, t, e, b.caught[..|left|], left);
    }
  }

  lemma CaughtNext(a: Books, b: Books, c: Books, left1: seq<Exn>, left2: seq<Exn>)
    requires |b.caught| == |left1| + |a.caught| && b.caught[|left1|..] == a.caught && Alike(b.caught[..|left1|], left1)
    requires |c.caught| == |left2| + |b.caught| && c.caught[|left2|..] == b.caught && Alike(c.caught[..|left2|], left2)
    ensures |c.caught| == |left2 + left1| + |a.caught| && c.caught[|left2 + left1|..] == a.caught
    ensures Alike(c.caught[..|left2 + left1|], left2 + left1)
    ensures c.caught[..|left2 + left1|] == c.caught[..|left2|] + b.caught[..|left1|]
  {
    assert c.caught == c.caught[..|left2|] + b.caught && b.caught == b.caught[..|left1|] + a.caught;
  }

  lemma TwiceNext(a: Books, b: Books, c: Books)
    requires a.next <= b.next <= c.next && forall k: nat :: k < b.next ==> c.fate[k] == b.fate[k]
    ensures Twice(c.fate, a.next, c.next) <==> Twice(b.fate, a.next, b.next) || Twice(c.fate, b.next, c.next)
  {
    if k: nat :| a.next <= k < b.next && b.fate[k] >= 2 {
      assert c.fate[k] >= 2;
    }
    if k: nat :| a.next <= k < c.next && c.fate[k] >= 2 {
      assert k < b.next ==> b.fate[k] >= 2;
    }
  }

  /** One run after another; only one of them throws something. */
  lemma KeptNext(a: Books, b: Books, c: Books, t1: Thrown, e1: Option<Exn>, left1: seq<Exn>, twice1: bool, empty1: nat,
                 t2: Thrown, e2: Option<Exn>, left2: seq<Exn>, twice2: bool, empty2: nat)
    requires Kept(a, b, t1, e1, left1, twice1, empty1) && Kept(b, c, t2, e2, left2, twice2, empty2)
    requires e1.None? || e2.None?
    ensures Kept(a, c, if e1.Some? then t1 else t2, if e1.Some? then e1 else e2, left2 + left1, twice1 || twice2,
                 empty1 + empty2)
  {
    var ts1, ts2 := b.caught[..|left1|], c.caught[..|left2|];
    CaughtNext(a, b, c, left1, left2);
    var t, e := if e1.Some? then t1 else t2, if e1.Some? then e1 else e2;
    forall k: nat ensures Sound(k, a, c, t, e, ts2 + ts1, left2 + left1) {
      assert Sound(k, a, b, t1, e1, ts1, left1) && Sound(k, b, c, t2, e2, ts2, left2);
      SharesConcat(k, true, ts2, left2, ts1, left1);
      SharesConcat(k, false, ts2, left2, ts1, left1);
    }
    forall k: nat | k < b.next ensures c.fate[k] == b.fate[k] {
      assert Sound(k, b, c, t2, e2, ts2, left2);
    }
    TwiceNext(a, b, c);
  }

  /** `t` has been made for a captured error. */
  lemma KeptCapture(a: Books, b: Books, c: Books, left: seq<Exn>, twice: bool, empty: nat, t: Thrown, record: Record)
    requires Kept(a, b, Nothing, None, left, twice, empty)
    requires t.Caught? && t.exn.errorContext == b.next && t.exn.record == record && !record.Missing?
    requires c == b.(next := b.next + 1)
    ensures Kept(a, c, t, Some(PgExn(record, false)), left, twice, empty)
  {
    var ts := b.caught[..|left|];
    forall k: nat ensures Sound(k, a, c, t, Some(PgExn(record, false)), ts, left) {
      assert Sound(k, a, b, Nothing, None, ts, left);
    }
    assert Sound(b.next, a, b, Nothing, None, ts, left);
    if k: nat :| a.next <= k < c.next && c.fate[k] >= 2 {
      assert k != b.next && b.fate[k] >= 2;
    }
    if k: nat :| a.next <= k < b.next && b.fate[k] >= 2 {
      assert c.fate[k] >= 2;
    }
  }

  /** An error context has been made in vain. */
  lemma KeptEmpty(a: Books, b: Books, c: Books, left: seq<Exn>, twice: bool, empty: nat)
    requires Kept(a, b, Nothing, None, left, twice, empty) && c == b.(next := b.next + 1, empty := b.empty + {b.next})
    ensures Kept(a, c, Nothing, None, left, twice, empty + 1)
  {
    var ts := b.caught[..|left|];
    assert Sound(b.next, a, b, Nothing, None, ts, left);
    forall k: nat ensures Sound(k, a, c, Nothing, None, ts, left) {
      assert Sound(k, a, b, Nothing, None, ts, left);
    }
    if k: nat :| a.next <= k < c.next && c.fate[k] >= 2 {
      assert k != b.next && b.fate[k] >= 2;
    }
    if k: nat :| a.next <= k < b.next && b.fate[k] >= 2 {
      assert c.fate[k] >= 2;
    }
  }

  lemma Pushed<T>(s: seq<T>, x: T, n: nat)
    requires n <= |s|
    ensures ([x] + s)[n + 1..] == s[n..] && ([x] + s)[..n + 1] == [x] + s[..n] && ([x] + s)[..n + 1][1..] == s[..n]
  {
    assert ([x] + s[..n])[1..] == s[..n];
  }

  lemma Popped<T>(s: seq<T>, n: nat)
    requires 0 < n <= |s|
    ensures s[1..][n - 1..] == s[n..] && s[1..][..n - 1] == s[..n][1..]
  {
  }

  /** `t` has been caught. */
  lemma KeptBegin(a: Books, b: Books, c: Books, t: Thrown, e: Exn, left: seq<Exn>, twice: bool, empty: nat)
    requires Kept(a, b, t, Some(e), left, twice, empty) && c == b.(caught := [t] + b.caught)
    ensures Kept(a, c, Nothing, None, [e] + left, twice, empty) && Known(c)
  {
    var n := |left|;
    var ts := c.caught[..n + 1];
    Pushed(b.caught, t, n);
    assert ([e] + left)[1..] == left;
    forall k: nat ensures Sound(k, a, c, Nothing, None, ts, [e] + left) {
      assert Sound(k, a, b, t, Some(e), ts[1..], left);
    }
    KeptKnown(a, b, t, Some(e), left, twice, empty);
  }

  /** The latest caught exception has been thrown again. */
  lemma KeptAgain(a: Books, b: Books, c: Books, left: seq<Exn>, twice: bool, empty: nat)
    requires Kept(a, b, Nothing, None, left, twice, empty) && left != [] && c == b.(caught := b.caught[1..])
    ensures Kept(a, c, b.caught[0], Some(left[0]), left[1..], twice, empty)
  {
    var n := |left|;
    var ts := b.caught[..n];
    assert Matches(ts[0], Some(left[0]));
    Popped(b.caught, n);
    forall k: nat ensures Sound(k, a, c, ts[0], Some(left[0]), ts[1..], left[1..]) {
      assert Sound(k, a, b, Nothing, None, ts, left);
    }
  }

  ghost function Context(t: Thrown): multiset<nat> {
    if t.Caught? then multiset{t.exn.errorContext} else multiset{}
  }

  /** Deleting the context of `u`, or handing it over, makes it the second time exactly when `u` is spent. */
  lemma TwiceDeleted(a: Books, b: Books, fate: multiset<nat>, u: Thrown, d: Exn)
    requires Matches(u, Some(d)) && fate == b.fate + Context(u)
    requires u.Caught? ==> a.next <= u.exn.errorContext < b.next && (Spent(d) <==> b.fate[u.exn.errorContext] >= 1)
    ensures Twice(fate, a.next, b.next) <==> Twice(b.fate, a.next, b.next) || Spent(d)
  {
    if u.Caught? && Spent(d) {
      assert fate[u.exn.errorContext] >= 2;
    }
    if k: nat :| a.next <= k < b.next && b.fate[k] >= 2 {
      assert fate[k] >= 2;
    }
    if k: nat :| a.next <= k < b.next && fate[k] >= 2 {
      assert (u.Caught? && k == u.exn.errorContext) || b.fate[k] >= 2;
    }
  }

  /** The latest caught exception has been destroyed. */
  lemma KeptEnd(a: Books, b: Books, c: Books, t: Thrown, e: Option<Exn>, left: seq<Exn>, twice: bool, empty: nat)
    requires Kept(a, b, t, e, left, twice, empty) && left != []
    requires c == b.(caught := b.caught[1..], fate := b.fate + Context(b.caught[0]))
    ensures Kept(a, c, t, e, left[1..], twice || Spent(left[0]), empty)
  {
    var n := |left|;
    var ts := b.caught[..n];
    var u, d := ts[0], left[0];
    assert Matches(u, Some(d));
    Popped(b.caught, n);
    forall k: nat ensures Sound(k, a, c, t, e, ts[1..], left[1..]) {
      assert Sound(k, a, b, t, e, ts, left);
    }
    if u.Caught? {
      assert Sound(u.exn.errorContext, a, b, t, e, ts, left);
    }
    TwiceDeleted(a, b, c.fate, u, d);
  }

  /** The exception in flight has become a Postgres error: it stays caught and its context is handed over. */
  lemma KeptHandOver(a: Books, b: Books, c: Books, t: Thrown, e: Exn, left: seq<Exn>, twice: bool, empty: nat)
    requires Kept(a, b, t, Some(e), left, twice, empty)
    requires c == b.(caught := [t] + b.caught, fate := b.fate + Context(t))
    ensures Kept(a, c, Nothing, None, [Spend(e)] + left, twice || Spent(e), empty)
  {
    var n := |left|;
    var ts, es := c.caught[..n + 1], [Spend(e)] + left;
    Pushed(b.caught, t, n);
    assert es[1..] == left;
    forall k: nat ensures Sound(k, a, c, Nothing, None, ts, es) {
      assert Sound(k, a, b, t, Some(e), ts[1..], left);
    }
    if t.Caught? {
      assert Sound(t.exn.errorContext, a, b, t, Some(e), ts[1..], left);
    }
    TwiceDeleted(a, b, c.fate, t, e);
  }

  // ---------------------------------------------------------------- the process

  lemma OneLess(deleted: seq<nat>, callbacks: seq<nat>)
    requires callbacks != []
    ensures var c, rest := callbacks[|callbacks| - 1], callbacks[..|callbacks| - 1];
      && deleted + Reversed(callbacks) == deleted + [c] + Reversed(rest)
      && multiset(deleted) + multiset(callbacks) == multiset(deleted + [c]) + multiset(rest)
  {
    assert callbacks == callbacks[..|callbacks| - 1] + [callbacks[|callbacks| - 1]];
    ReversedLast(callbacks);
  }

  /** Postgres' error machinery, and the C++ run-time's exceptions. A jump buffer is identified by a number.
      `callbacks` are the reset callbacks registered on `ErrorContext`, each of which deletes an error context; `empty`
      are error contexts that nothing has been captured in. `caught` is the run-time's stack of caught exceptions, the
      latest first; `mixed` is set when a handler ends or throws another exception than its own. */
  class Backend {
    var exceptionStack: nat
    var contextStack: int
    var memoryContext: Place
    var errors: seq<Record>
    var callbacks: seq<nat>
    var deleted: seq<nat>
    var nextContext: nat
    var empty: set<nat>
    var nextBuffer: nat
    var uncaught: nat
    var caught: seq<Thrown>
    var mixed: bool

    constructor ()
      ensures exceptionStack == 0 && memoryContext == Ordinary(0) && errors == [] && callbacks == [] && deleted == []
      ensures Accounts() == Books(multiset{}, 0, {}, []) && uncaught == 0 && !mixed
    {
      exceptionStack, contextStack, memoryContext, errors, callbacks, deleted := 0, 0, Ordinary(0), [], [], [];
      nextContext, empty, nextBuffer, uncaught, caught, mixed := 0, {}, 1, 0, [], false;
    }

    ghost function Accounts(): Books
      reads this`deleted, this`callbacks, this`nextContext, this`empty, this`caught
    {
      Books(multiset(deleted) + multiset(callbacks), nextContext, empty, caught)
    }

    /** No error context has been deleted before it was made. */
    ghost predicate Ready()
      reads this`deleted, this`callbacks, this`nextContext, this`empty, this`caught
    {
      Known(Accounts())
    }

    method CreateContext() returns (c: nat)
      modifies this`nextContext
      ensures c == old(nextContext) && nextContext == c + 1
    {
      c := nextContext;
      nextContext := nextContext + 1;
    }

    /** Deleting a context a second time is an error that nothing here prevents. */
    method DeleteContext(c: nat)
      modifies this`deleted
      ensures deleted == old(deleted) + [c]
    {
      deleted := deleted + [c];
    }

    /** `ereport(ERROR)` and `ReThrowError` put the record on the error stack, before jumping. */
    method PushError(record: Record)
      modifies this`errors
      ensures errors == old(errors) + [record]
    {
      errors := errors + [record];
    }

    /** `FlushErrorState`: the error stack is emptied and `ErrorContext` is reset, which runs and discards its
        callbacks, last registered first. */
    method FlushErrorState()
      modifies this`errors, this`callbacks, this`deleted
      ensures errors == [] && callbacks == [] && deleted == old(deleted) + Reversed(old(callbacks))
      ensures Accounts() == old(Accounts())
    {
      errors := [];
      ghost var all := callbacks;
      assert all == all[..|callbacks|];
      while callbacks != []
        invariant errors == [] && callbacks == all[..|callbacks|] && |callbacks| <= |all|
        invariant old(deleted) + Reversed(all) == deleted + Reversed(callbacks)
        invariant multiset(deleted) + multiset(callbacks) == old(multiset(deleted) + multiset(callbacks))
        decreases |callbacks|
      {
        var c := callbacks[|callbacks| - 1];
        OneLess(deleted, callbacks);
        callbacks := callbacks[..|callbacks| - 1];
        DeleteContext(c);
      }
    }

    /** Control enters a handler for `thrown`, which goes on top of the caught exceptions. */
    method BeginCatch(thrown: Thrown) returns (mark: nat)
      requires uncaught > 0
      modifies this`uncaught, this`caught
      ensures caught == [thrown] + old(caught) && mark == |caught| && uncaught == old(uncaught) - 1
    {
      uncaught, caught := uncaught - 1, [thrown] + caught;
      mark := |caught|;
    }

    /** The handler entered at `mark` ends: the run-time destroys the exception on top, whichever it is. */
    method EndCatch(mark: nat)
      requires caught != []
      modifies this`caught, this`mixed, this`deleted
      ensures mixed == (old(mixed) || mark != |old(caught)|)
      ensures Accounts()
        == old(Accounts()).(caught := old(caught)[1..], fate := old(Accounts()).fate + Context(old(caught)[0]))
    {
      mixed := mixed || mark != |caught|;
      if caught[0].Caught? {
        DeleteContext(caught[0].exn.errorContext);
      }
      caught := caught[1..];
    }

    /** `throw;` in the handler entered at `mark`: the exception on top is in flight again. */
    method ThrowAgain(mark: nat) returns (thrown: Thrown)
      requires caught != []
      modifies this`caught, this`mixed, this`uncaught
      ensures thrown == old(caught[0]) && caught == old(caught)[1..]
      ensures mixed == (old(mixed) || mark != |old(caught)|) && uncaught == old(uncaught) + 1
    {
      mixed := mixed || mark != |caught|;
      thrown, caught, uncaught := caught[0], caught[1..], uncaught + 1;
    }
  }

  /** A captured Postgres error. */
  class PgException {
    const errorContext: nat
    const record: Record

    /** Captures the pending error in a context of its own and flushes it, restoring the memory context. */
    constructor (pg: Backend, context: Place)
      requires pg.errors != []
      modifies pg`errors, pg`callbacks, pg`deleted, pg`nextContext, pg`memoryContext
      ensures record == old(pg.errors[|pg.errors| - 1]) && errorContext == old(pg.nextContext)
      ensures pg.memoryContext == context && pg.errors == [] && pg.callbacks == []
      ensures pg.Accounts() == old(pg.Accounts()).(next := old(pg.nextContext) + 1)
    {
      var c := pg.CreateContext();
      errorContext := c;
      record := pg.errors[|pg.errors| - 1];
      new;
      pg.memoryContext := context;
      pg.FlushErrorState();
    }

    /** Hands the context over to `ErrorContext` and raises the record again; the destructor will not run. */
    method Rethrow(pg: Backend)
      modifies pg`callbacks, pg`errors
      ensures pg.callbacks == old(pg.callbacks) + [errorContext] && pg.errors == old(pg.errors) + [record]
    {
      pg.callbacks := pg.callbacks + [errorContext];
      pg.PushError(record);
    }
  }

  // ---------------------------------------------------------------- running

  /** What is true after a C function: when it does not return, control is at the jump buffer that was on the exception
      stack and its error is the latest. */
  twostate predicate PgLeft(pg: Backend, p: Pg, returned: bool)
    reads pg
  {
    var r := PgRun(p);
    && (returned <==> r.raised.None?)
    && pg.exceptionStack == old(pg.exceptionStack) && pg.uncaught == old(pg.uncaught)
    && (pg.mixed <==> old(pg.mixed) || r.mixed)
    && Kept(old(pg.Accounts()), pg.Accounts(), Nothing, None, r.left, r.twice, r.empty)
    && if returned then
         && Leads(r.current, old(pg.memoryContext), pg.memoryContext)
         && pg.errors == (if r.flushed then [] else old(pg.errors))
         && pg.callbacks == (if r.flushed then [] else old(pg.callbacks))
       else
         Pending(pg, r.raised.value)
  }

  /** The record of the error that is being raised, if it is not missing, is the latest. */
  ghost predicate Pending(pg: Backend, record: Record)
    reads pg
  {
    if pg.errors == [] then record.Missing? else record == pg.errors[|pg.errors| - 1] && !record.Missing?
  }

  /** What is true after a C++ function that comes to `r`, leaving with `thrown`. */
  twostate predicate Left(pg: Backend, new r: Result<Exn>, new thrown: Thrown)
    reads pg
  {
    && pg.exceptionStack == old(pg.exceptionStack) && pg.contextStack == old(pg.contextStack)
    && pg.uncaught == old(pg.uncaught) + (if thrown.Nothing? then 0 else 1)
    && (pg.mixed <==> old(pg.mixed) || r.mixed)
    && Kept(old(pg.Accounts()), pg.Accounts(), thrown, r.raised, r.left, r.twice, r.empty)
    && Leads(r.current, old(pg.memoryContext), pg.memoryContext)
    && pg.errors == (if r.flushed then [] else old(pg.errors))
    && pg.callbacks == (if r.flushed then [] else old(pg.callbacks))
  }

  method RunPg(pg: Backend, p: Pg) returns (returned: bool)
    requires pg.Ready()
    modifies pg
    ensures PgLeft(pg, p, returned)
    decreases p, 1
  {
    match p
    case PgReturn =>
      KeptNone(pg.Accounts());
      returned := true;
    case Report(payload) =>
      KeptNone(pg.Accounts());
      pg.PushError(Reported(payload));
      returned := false;
    case Disturb(memoryContext, contextStack) =>
      KeptNone(pg.Accounts());
      pg.memoryContext, pg.contextStack := Ordinary(memoryContext), contextStack;
      returned := true;
    case PgThen(_, _) =>
      returned := RunPgThen(pg, p);
    case PgCatch(_, _) =>
      returned := RunPgCatch(pg, p);
    case PgCleanup(_, _) =>
      returned := RunPgCleanup(pg, p);
    case Extension(body) =>
      returned := ExceptionGuard(pg, body);
  }

  lemma PgThenMeans(p: Pg)
    requires p.PgThen?
    ensures var x := PgRun(p.first); PgRun(p) == if x.raised.Some? then x else Next(x, PgRun(p.second))
  {
  }

  method RunPgThen(pg: Backend, p: Pg) returns (returned: bool)
    requires pg.Ready() && p.PgThen?
    modifies pg
    ensures PgLeft(pg, p, returned)
    decreases p, 0
  {
    PgThenMeans(p);
    ghost var x, y := PgRun(p.first), PgRun(p.second);
    returned := RunPg(pg, p.first);
    if returned {
      ghost var between := pg.Accounts();
      KeptKnown(old(pg.Accounts()), between, Nothing, None, x.left, x.twice, x.empty);
      ghost var place := pg.memoryContext;
      returned := RunPg(pg, p.second);
      if returned {
        LeadsOver(x.current, y.current, old(pg.memoryContext), place, pg.memoryContext);
      }
      KeptNext(old(pg.Accounts()), between, pg.Accounts(), Nothing, None, x.left, x.twice, x.empty,
               Nothing, None, y.left, y.twice, y.empty);
    }
  }

  /** `PG_TRY`: the attempt runs with a jump buffer of its own. */
  method Try(pg: Backend, attempt: Pg) returns (returned: bool)
    requires pg.Ready()
    modifies pg
    ensures PgLeft(pg, attempt, returned) && pg.Ready()
    decreases attempt, 2
  {
    var saved := pg.exceptionStack;
    pg.exceptionStack := pg.nextBuffer;
    pg.nextBuffer := pg.nextBuffer + 1;
    returned := RunPg(pg, attempt);
    pg.exceptionStack := saved;
    ghost var x := PgRun(attempt);
    KeptKnown(old(pg.Accounts()), pg.Accounts(), Nothing, None, x.left, x.twice, x.empty);
  }

  lemma PgCatchMeans(p: Pg)
    requires p.PgCatch?
    ensures var x := PgRun(p.attempt);
      PgRun(p) == if x.raised.None? then x else Next(x.(current := Unchanged, flushed := true), PgRun(p.handler))
  {
  }

  /** Postgres' own handler: it flushes the error, after restoring the context stack and the memory context. */
  method RunPgCatch(pg: Backend, p: Pg) returns (returned: bool)
    requires pg.Ready() && p.PgCatch?
    modifies pg
    ensures PgLeft(pg, p, returned)
    decreases p, 0
  {
    PgCatchMeans(p);
    ghost var x, y := PgRun(p.attempt), PgRun(p.handler);
    returned := TryAndFlush(pg, p.attempt);
    if !returned {
      ghost var between := pg.Accounts();
      returned := RunPg(pg, p.handler);
      KeptNext(old(pg.Accounts()), between, pg.Accounts(), Nothing, None, x.left, x.twice, x.empty,
               Nothing, None, y.left, y.twice, y.empty);
    }
  }

  /** The attempt, and what comes before such a handler. */
  method TryAndFlush(pg: Backend, attempt: Pg) returns (returned: bool)
    requires pg.Ready()
    modifies pg
    ensures returned ==> PgLeft(pg, attempt, returned)
    ensures !returned ==> var x := PgRun(attempt);
      && x.raised.Some? && pg.Ready() && (pg.mixed <==> old(pg.mixed) || x.mixed)
      && pg.exceptionStack == old(pg.exceptionStack) && pg.uncaught == old(pg.uncaught)
      && pg.memoryContext == old(pg.memoryContext) && pg.errors == [] && pg.callbacks == []
      && Kept(old(pg.Accounts()), pg.Accounts(), Nothing, None, x.left, x.twice, x.empty)
    decreases attempt, 3
  {
    var context, stack := pg.memoryContext, pg.contextStack;
    returned := Try(pg, attempt);
    if !returned {
      Flush(pg, context, stack);
    }
  }

  method Flush(pg: Backend, context: Place, stack: int)
    modifies pg`contextStack, pg`memoryContext, pg`errors, pg`callbacks, pg`deleted
    ensures pg.memoryContext == context && pg.errors == [] && pg.callbacks == [] && pg.Accounts() == old(pg.Accounts())
  {
    pg.contextStack, pg.memoryContext := stack, context;
    pg.FlushErrorState();
  }

  lemma PgCleanupMeans(p: Pg)
    requires p.PgCleanup?
    ensures var x := PgRun(p.attempt); PgRun(p) == if x.raised.None? then x else RaiseAgain(x, PgRun(p.cleanup))
  {
  }

  /** A Postgres handler that cleans up while the error is pending and raises it again. When it has been flushed by
      then, there is none to raise. */
  method RunPgCleanup(pg: Backend, p: Pg) returns (returned: bool)
    requires pg.Ready() && p.PgCleanup?
    modifies pg
    ensures PgLeft(pg, p, returned)
    decreases p, 0
  {
    PgCleanupMeans(p);
    ghost var x, y := PgRun(p.attempt), PgRun(p.cleanup);
    returned := Try(pg, p.attempt);
    if !returned {
      ghost var between := pg.Accounts();
      returned := Cleanup(pg, p.cleanup, x.raised.value);
      KeptNext(old(pg.Accounts()), between, pg.Accounts(), Nothing, None, x.left, x.twice, x.empty,
               Nothing, None, y.left, y.twice, y.empty);
    }
  }

  /** The handler of such a cleanup, for the pending `record`. */
  method Cleanup(pg: Backend, cleanup: Pg, ghost record: Record) returns (returned: bool)
    requires pg.Ready() && Pending(pg, record)
    modifies pg
    ensures var y := PgRun(cleanup);
      && !returned && pg.exceptionStack == old(pg.exceptionStack) && pg.uncaught == old(pg.uncaught)
      && (pg.mixed <==> old(pg.mixed) || y.mixed)
      && Kept(old(pg.Accounts()), pg.Accounts(), Nothing, None, y.left, y.twice, y.empty)
      && Pending(pg, if y.raised.Some? then y.raised.value else if y.flushed then Missing else record)
    decreases cleanup, 2
  {
    returned := RunPg(pg, cleanup);
    returned := false;
  }

  /** `exception_guard`: an exception that leaves the C++ function becomes a Postgres error. The jump to Postgres leaves
      it on the stack of caught exceptions. */
  method ExceptionGuard(pg: Backend, body: Cpp) returns (returned: bool)
    requires pg.Ready()
    modifies pg
    ensures PgLeft(pg, Extension(body), returned)
    decreases body, 3
  {
    ghost var x := CppRun(body);
    assert PgRun(Extension(body)) == HandOver(x);
    var thrown := RunCpp(pg, body);
    returned := thrown.Nothing?;
    if !returned {
      Report(pg, thrown, old(pg.Accounts()), x.raised.value, x.left, x.twice, x.empty);
    }
  }

  /** The handlers of `exception_guard`. */
  method Report(pg: Backend, thrown: Thrown, ghost start: Books, ghost e: Exn, ghost left: seq<Exn>, ghost twice: bool,
                ghost empty: nat)
    requires Kept(start, pg.Accounts(), thrown, Some(e), left, twice, empty) && pg.uncaught > 0
    modifies pg`caught, pg`uncaught, pg`errors, pg`callbacks
    ensures pg.errors == old(pg.errors) + [RecordOf(e)] && pg.uncaught == old(pg.uncaught) - 1
    ensures Kept(start, pg.Accounts(), Nothing, None, [Spend(e)] + left, twice || Spent(e), empty)
  {
    var _ := pg.BeginCatch(thrown);
    match thrown {
      case Caught(e) => e.Rethrow(pg);
      case Std(what) => pg.PushError(StdException(what));
      case Other => pg.PushError(SomeException);
    }
    KeptHandOver(start, old(pg.Accounts()), pg.Accounts(), thrown, e, left, twice, empty);
  }

  /** `ffi_guard`: a Postgres error in the callee becomes a C++ exception. Both Postgres stacks are restored on every
      exit; the memory context when the callee fails with a record. */
  method FfiGuard(pg: Backend, callee: Pg) returns (thrown: Thrown)
    requires pg.Ready()
    modifies pg
    ensures Left(pg, Captured(PgRun(callee)), thrown)
    decreases callee, 4
  {
    var callback := pg.contextStack;
    thrown := TryOrThrow(pg, callee);
    pg.contextStack := callback;
  }

  method TryOrThrow(pg: Backend, callee: Pg) returns (thrown: Thrown)
    requires pg.Ready()
    modifies pg
    ensures var r := Captured(PgRun(callee));
      && pg.exceptionStack == old(pg.exceptionStack)
      && pg.uncaught == old(pg.uncaught) + (if thrown.Nothing? then 0 else 1)
      && (pg.mixed <==> old(pg.mixed) || r.mixed)
      && Kept(old(pg.Accounts()), pg.Accounts(), thrown, r.raised, r.left, r.twice, r.empty)
      && Leads(r.current, old(pg.memoryContext), pg.memoryContext)
      && pg.errors == (if r.flushed then [] else old(pg.errors))
      && pg.callbacks == (if r.flushed then [] else old(pg.callbacks))
    decreases callee, 3
  {
    ghost var x := PgRun(callee);
    var context := pg.memoryContext;
    var returned := Try(pg, callee);
    thrown := Nothing;
    if !returned {
      thrown := Throw(pg, context, old(pg.Accounts()), x.raised.value, x.left, x.twice, x.empty);
    }
  }

  /** `throw pg_exception(mcxt)`. When no record is pending, copying it fails under a guard of its own, and what is
      thrown is the exception for that; the first error context stays behind, and current. */
  method Throw(pg: Backend, context: Place, ghost start: Books, ghost record: Record, ghost left: seq<Exn>,
               ghost twice: bool, ghost empty: nat) returns (thrown: Thrown)
    requires Pending(pg, record) && Kept(start, pg.Accounts(), Nothing, None, left, twice, empty)
    modifies pg`errors, pg`callbacks, pg`deleted, pg`nextContext, pg`empty, pg`memoryContext, pg`uncaught
    ensures Leads(if record.Missing? then Astray else Unchanged, context, pg.memoryContext)
    ensures pg.errors == [] && pg.callbacks == [] && pg.uncaught == old(pg.uncaught) + 1
    ensures Kept(start, pg.Accounts(), thrown, Some(PgExn(Found(record), false)), left, twice,
                 empty + if record.Missing? then 1 else 0)
  {
    if pg.errors == [] {
      var astray := FailToCopy(pg);
      KeptEmpty(start, old(pg.Accounts()), pg.Accounts(), left, twice, empty);
      thrown := Capture(pg, astray, start, left, twice, empty + 1);
    } else {
      thrown := Capture(pg, context, start, left, twice, empty);
    }
  }

  method FailToCopy(pg: Backend) returns (astray: Place)
    modifies pg`errors, pg`nextContext, pg`empty
    ensures pg.errors == old(pg.errors) + [Unstarted] && astray.ErrorCxt?
    ensures pg.Accounts()
      == old(pg.Accounts()).(next := old(pg.nextContext) + 1, empty := old(pg.empty) + {old(pg.nextContext)})
  {
    var c := pg.CreateContext();
    pg.empty := pg.empty + {c};
    pg.PushError(Unstarted);
    astray := ErrorCxt(c);
  }

  method Capture(pg: Backend, context: Place, ghost start: Books, ghost left: seq<Exn>, ghost twice: bool,
                 ghost empty: nat) returns (thrown: Thrown)
    requires pg.errors != [] && !pg.errors[|pg.errors| - 1].Missing?
    requires Kept(start, pg.Accounts(), Nothing, None, left, twice, empty)
    modifies pg`errors, pg`callbacks, pg`deleted, pg`nextContext, pg`memoryContext, pg`uncaught
    ensures pg.memoryContext == context && pg.errors == [] && pg.callbacks == [] && pg.uncaught == old(pg.uncaught) + 1
    ensures Kept(start, pg.Accounts(), thrown, Some(PgExn(old(pg.errors)[|old(pg.errors)| - 1], false)), left, twice,
                 empty)
  {
    var e := new PgException(pg, context);
    pg.uncaught := pg.uncaught + 1;
    thrown := Caught(e);
    KeptCapture(start, old(pg.Accounts()), pg.Accounts(), left, twice, empty, thrown, e.record);
  }

  /** `ffi_guard_noexcept`: a failure of the callee is swallowed. */
  method FfiGuardNoexcept(pg: Backend, callee: Pg)
    requires pg.Ready()
    modifies pg
    ensures Left(pg, Captured(PgRun(callee)).(raised := None), Nothing)
    decreases callee, 5
  {
    ghost var x := PgRun(callee);
    ghost var y := Captured(x);
    var thrown := FfiGuard(pg, callee);
    if !thrown.Nothing? {
      Swallow(pg, thrown, old(pg.Accounts()), PgExn(Found(x.raised.value), false), x.left, y.twice, y.empty);
    }
  }

  /** A handler that does nothing. */
  method Swallow(pg: Backend, thrown: Thrown, ghost start: Books, ghost e: Exn, ghost left: seq<Exn>, ghost twice: bool,
                 ghost empty: nat)
    requires Kept(start, pg.Accounts(), thrown, Some(e), left, twice, empty) && pg.uncaught > 0
    modifies pg`caught, pg`mixed, pg`deleted, pg`uncaught
    ensures pg.uncaught == old(pg.uncaught) - 1 && pg.mixed == old(pg.mixed)
    ensures Kept(start, pg.Accounts(), Nothing, None, left, twice || Spent(e), empty)
  {
    var mark := pg.BeginCatch(thrown);
    ghost var between := pg.Accounts();
    KeptBegin(start, old(pg.Accounts()), between, thrown, e, left, twice, empty);
    pg.EndCatch(mark);
    KeptEnd(start, between, pg.Accounts(), Nothing, None, [e] + left, twice, empty);
    assert ([e] + left)[1..] == left;
  }

  method RunCpp(pg: Backend, p: Cpp) returns (thrown: Thrown)
    requires pg.Ready()
    modifies pg
    ensures Left(pg, CppRun(p), thrown)
    decreases p, 2
  {
    match p
    case Return =>
      KeptNone(pg.Accounts());
      thrown := Nothing;
    case ThrowStd(what) =>
      pg.uncaught := pg.uncaught + 1;
      thrown := Std(what);
      KeptThrow(pg.Accounts(), thrown, StdExn(what));
    case ThrowOther =>
      pg.uncaught := pg.uncaught + 1;
      thrown := Other;
      KeptThrow(pg.Accounts(), thrown, OtherExn);
    case Call(callee) =>
      assert CppRun(p) == Captured(PgRun(callee));
      thrown := FfiGuard(pg, callee);
    case CppThen(_, _) =>
      thrown := RunThen(pg, p);
    case Catch(_, _, _) =>
      thrown := RunCatch(pg, p);
    case Scoped(_, _, _) =>
      thrown := RunScoped(pg, p);
  }

  lemma ThenMeans(p: Cpp)
    requires p.CppThen?
    ensures var x := CppRun(p.first); CppRun(p) == if x.raised.Some? then x else Next(x, CppRun(p.second))
  {
  }

  method RunThen(pg: Backend, p: Cpp) returns (thrown: Thrown)
    requires pg.Ready() && p.CppThen?
    modifies pg
    ensures Left(pg, CppRun(p), thrown)
    decreases p, 0
  {
    ThenMeans(p);
    ghost var x, y := CppRun(p.first), CppRun(p.second);
    thrown := RunCpp(pg, p.first);
    if thrown.Nothing? {
      ghost var between := pg.Accounts();
      KeptKnown(old(pg.Accounts()), between, Nothing, None, x.left, x.twice, x.empty);
      ghost var place := pg.memoryContext;
      thrown := RunCpp(pg, p.second);
      LeadsOver(x.current, y.current, old(pg.memoryContext), place, pg.memoryContext);
      KeptNext(old(pg.Accounts()), between, pg.Accounts(), Nothing, None, x.left, x.twice, x.empty,
               thrown, y.raised, y.left, y.twice, y.empty);
    }
  }

  lemma CatchMeans(p: Cpp)
    requires p.Catch?
    ensures var x := CppRun(p.body); CppRun(p) == if x.raised.None? then x else Handled(x, CppRun(p.handler), p.rethrow)
  {
  }

  method RunCatch(pg: Backend, p: Cpp) returns (thrown: Thrown)
    requires pg.Ready() && p.Catch?
    modifies pg
    ensures Left(pg, CppRun(p), thrown)
    decreases p, 1
  {
    CatchMeans(p);
    ghost var x, y := CppRun(p.body), CppRun(p.handler);
    thrown := RunCpp(pg, p.body);
    if !thrown.Nothing? {
      ghost var place := pg.memoryContext;
      thrown := RunHandler(pg, p.handler, p.rethrow, thrown, old(pg.Accounts()), x.raised.value, x.left, x.twice,
                           x.empty);
      HandledMeans(x, y, p.rethrow);
      LeadsOver(x.current, y.current, old(pg.memoryContext), place, pg.memoryContext);
    }
  }

  /** The handler runs for `thrown`, which looks like `e`. When it ends, the run-time destroys or throws the latest
      caught exception, which is `thrown` unless the handler has left others on top of it. */
  method RunHandler(pg: Backend, handler: Cpp, rethrow: bool, thrown: Thrown, ghost start: Books, ghost e: Exn,
                    ghost left: seq<Exn>, ghost twice: bool, ghost empty: nat) returns (next: Thrown)
    requires pg.uncaught > 0 && Kept(start, pg.Accounts(), thrown, Some(e), left, twice, empty)
    modifies pg
    ensures var y := CppRun(handler);
      var caught, again := y.left + ([e] + left), y.raised.None? && rethrow;
      && Kept(start, pg.Accounts(), next, if again then Some(caught[0]) else y.raised, caught[1..],
              twice || y.twice || (!again && Spent(caught[0])), empty + y.empty)
      && pg.exceptionStack == old(pg.exceptionStack) && pg.contextStack == old(pg.contextStack)
      && pg.uncaught == old(pg.uncaught) - (if next.Nothing? then 1 else 0)
      && (pg.mixed <==> old(pg.mixed) || y.mixed || y.left != [])
      && Leads(y.current, old(pg.memoryContext), pg.memoryContext)
      && pg.errors == (if y.flushed then [] else old(pg.errors))
      && pg.callbacks == (if y.flushed then [] else old(pg.callbacks))
    decreases handler, 3
  {
    ghost var y := CppRun(handler);
    var mark := pg.BeginCatch(thrown);
    ghost var begun := pg.Accounts();
    KeptBegin(start, old(pg.Accounts()), begun, thrown, e, left, twice, empty);
    next := RunCpp(pg, handler);
    KeptNext(start, begun, pg.Accounts(), Nothing, None, [e] + left, twice, empty,
             next, y.raised, y.left, y.twice, y.empty);
    next := LeaveHandler(pg, rethrow, next, mark, start, y.raised, y.left + ([e] + left), twice || y.twice,
                         empty + y.empty);
  }

  /** The handler entered at `mark` is left, with `thrown` if its code has thrown that. */
  method LeaveHandler(pg: Backend, rethrow: bool, thrown: Thrown, mark: nat, ghost start: Books, ghost e: Option<Exn>,
                      ghost left: seq<Exn>, ghost twice: bool, ghost empty: nat) returns (next: Thrown)
    requires Kept(start, pg.Accounts(), thrown, e, left, twice, empty) && left != []
    modifies pg`caught, pg`mixed, pg`deleted, pg`uncaught
    ensures pg.uncaught == old(pg.uncaught) + (if rethrow && e.None? then 1 else 0)
    ensures pg.mixed <==> old(pg.mixed) || mark != |old(pg.caught)|
    ensures Kept(start, pg.Accounts(), next, if e.None? && rethrow then Some(left[0]) else e, left[1..],
                 twice || (!(e.None? && rethrow) && Spent(left[0])), empty)
  {
    if rethrow && thrown.Nothing? {
      next := pg.ThrowAgain(mark);
      KeptAgain(start, old(pg.Accounts()), pg.Accounts(), left, twice, empty);
    } else {
      next := thrown;
      pg.EndCatch(mark);
      KeptEnd(start, old(pg.Accounts()), pg.Accounts(), thrown, e, left, twice, empty);
    }
  }

  lemma HandledMeans(x: Result<Exn>, y: Result<Exn>, rethrow: bool)
    requires x.raised.Some?
    ensures var left, r := y.left + ([x.raised.value] + x.left), Handled(x, y, rethrow);
      var again := y.raised.None? && rethrow;
      && r.left == left[1..] && r.raised == (if again then Some(left[0]) else y.raised)
      && r.twice == (x.twice || y.twice || (!again && Spent(left[0])))
  {
    var caught := y.left + [x.raised.value];
    assert y.left + ([x.raised.value] + x.left) == caught + x.left;
  }

  lemma ScopedMeans(p: Cpp)
    requires p.Scoped?
    ensures var x, y := CppRun(p.body), Captured(PgRun(p.cleanup));
      CppRun(p) == if p.onlyOnFailure && x.raised.None? then x else Next(x, y).(raised := x.raised)
  {
  }

  method RunScoped(pg: Backend, p: Cpp) returns (thrown: Thrown)
    requires pg.Ready() && p.Scoped?
    modifies pg
    ensures Left(pg, CppRun(p), thrown)
    decreases p, 0
  {
    ScopedMeans(p);
    ghost var x, y := CppRun(p.body), Captured(PgRun(p.cleanup));
    var uncaught := pg.uncaught;
    thrown := RunCpp(pg, p.body);
    if !p.onlyOnFailure || pg.uncaught > uncaught {
      ghost var between := pg.Accounts();
      KeptKnown(old(pg.Accounts()), between, thrown, x.raised, x.left, x.twice, x.empty);
      ghost var place := pg.memoryContext;
      FfiGuardNoexcept(pg, p.cleanup);
      LeadsOver(x.current, y.current, old(pg.memoryContext), place, pg.memoryContext);
      KeptNext(old(pg.Accounts()), between, pg.Accounts(), thrown, x.raised, x.left, x.twice, x.empty,
               Nothing, None, y.left, y.twice, y.empty);
    }
  }

  /** A guarded call whose callee succeeds leaves the memory context that the callee made current, whatever was current
      before. */
  method CallDisturbing(pg: Backend, context: int, contextStack: int)
    requires pg.Ready()
    modifies pg
    ensures pg.memoryContext == Ordinary(context) && pg.contextStack == old(pg.contextStack)
    ensures pg.memoryContext == old(pg.memoryContext) <==> old(pg.memoryContext) == Ordinary(context)
  {
    ghost var callee := Disturb(context, contextStack);
    assert PgRun(callee).current == Fixed(context) && PgRun(callee).raised.None?;
    var _ := FfiGuard(pg, Disturb(context, contextStack));
  }

  // ---------------------------------------------------------------- a whole command

  ghost predicate AtMostOnce(deleted: seq<nat>) {
    forall c: nat :: multiset(deleted)[c] <= 1
  }

  ghost predicate ExactlyOnce(deleted: seq<nat>, next: nat) {
    forall c: nat :: multiset(deleted)[c] == if c < next then 1 else 0
  }

  /** `c` is the error context of an exception that is still caught and not spent. */
  ghost predicate StillOwned(caught: seq<Thrown>, left: seq<Exn>, c: nat)
    requires |caught| == |left|
  {
    exists i :: 0 <= i < |left| && Share(c, false, caught[i], Some(left[i])) == 1
  }

  lemma {:induction false} SharesMeaning(caught: seq<Thrown>, left: seq<Exn>, c: nat)
    requires |caught| == |left|
    ensures Shares(c, false, caught, left) >= 1 <==> StillOwned(caught, left, c)
  {
    if left != [] {
      SharesMeaning(caught[1..], left[1..], c);
      if i :| 0 <= i < |left| - 1 && Share(c, false, caught[1..][i], Some(left[1..][i])) == 1 {
        assert Share(c, false, caught[i + 1], Some(left[i + 1])) == 1;
      }
      if i :| 0 <= i < |left| && Share(c, false, caught[i], Some(left[i])) == 1 {
        assert i > 0 ==> Share(c, false, caught[1..][i - 1], Some(left[1..][i - 1])) == 1;
      }
    }
  }

  lemma CommandMeans(b: Books, deleted: seq<nat>, left: seq<Exn>, twice: bool, empty: nat)
    requires Kept(Books(multiset{}, 0, {}, []), b, Nothing, None, left, twice, empty) && b.fate == multiset(deleted)
    ensures Alike(b.caught, left) && (AtMostOnce(deleted) <==> !twice)
    ensures forall c: nat :: c < b.next && c !in deleted <==> StillOwned(b.caught, left, c) || c in b.empty
    ensures ExactlyOnce(deleted, b.next) <==> !twice && NoneLive(left) && empty == 0
  {
    ghost var start, ts := Books(multiset{}, 0, {}, []), b.caught[..|left|];
    assert ts == b.caught;
    forall c: nat
      ensures multiset(deleted)[c] >= 1 ==> c < b.next
      ensures c < b.next && multiset(deleted)[c] == 0 <==> StillOwned(b.caught, left, c) || c in b.empty
    {
      assert Sound(c, start, b, Nothing, None, ts, left);
      SharesMeaning(ts, left, c);
    }
    assert AtMostOnce(deleted) <==> !Twice(b.fate, 0, b.next);
    if i :| 0 <= i < |left| && left[i].PgExn? && !left[i].spent {
      assert Matches(ts[i], Some(left[i]));
      assert Share(ts[i].exn.errorContext, false, ts[i], Some(left[i])) == 1;
      assert StillOwned(b.caught, left, ts[i].exn.errorContext);
    }
    if c :| c in b.empty {
      assert c !in deleted;
    }
  }

  lemma CommandShape(p: Pg)
    ensures var r := PgRun(p);
      && (r.mixed <==> !PgOrderly(p)) && (PgOrderly(p) ==> r.raised == PgRaises(p) && !r.twice && NoneLive(r.left))
      && (PgOnlyCaptured(p) ==> (r.twice <==> !PgOrderly(p))) && (r.empty == 0 <==> PgComplete(p))
  {
    PgShape(p);
    PgMissing(p);
    if PgOrderly(p) {
      PgOrderlyMeans(p);
    }
    if PgOnlyCaptured(p) {
      TwiceExactlyWhenNotOrderly(p);
    }
  }

  method RunToEnd(pg: Backend, p: Pg) returns (reported: Option<Record>)
    requires pg.Ready() && pg.errors == [] && pg.callbacks == []
    modifies pg
    ensures pg.exceptionStack == old(pg.exceptionStack) && pg.errors == [] && pg.callbacks == []
    ensures reported == (if PgRun(p).raised == Some(Missing) then Some(Unstarted) else PgRun(p).raised)
    ensures pg.mixed <==> old(pg.mixed) || PgRun(p).mixed
    ensures Kept(old(pg.Accounts()), pg.Accounts(), Nothing, None, PgRun(p).left, PgRun(p).twice, PgRun(p).empty)
  {
    var returned := RunPg(pg, p);
    reported := None;
    if !returned {
      reported := Some(if pg.errors == [] then Unstarted else pg.errors[|pg.errors| - 1]);
      pg.FlushErrorState();
    }
  }

  /** The server's main loop around a whole command. What arrives is what the command comes to. An error context is
      deleted twice if and only if a spent exception is destroyed or handed over; the ones never deleted are those of
      captured errors that stay caught, and those made in vain for an error whose record was missing. When all C++
      exceptions are captured errors, every error context is deleted exactly once if and only if no exception leaves a
      C++ function while a C++ handler runs and no C++ caller is handed an error without its record. */
  method RunCommand(p: Pg) returns (pg: Backend, reported: Option<Record>)
    ensures fresh(pg) && pg.exceptionStack == 0 && pg.errors == [] && pg.callbacks == []
    ensures reported == (if PgRun(p).raised == Some(Missing) then Some(Unstarted) else PgRun(p).raised)
    ensures pg.mixed <==> !PgOrderly(p)
    ensures Alike(pg.caught, PgRun(p).left) && (AtMostOnce(pg.deleted) <==> !PgRun(p).twice)
    ensures forall c: nat ::
      (c < pg.nextContext && c !in pg.deleted <==> StillOwned(pg.caught, PgRun(p).left, c) || c in pg.empty)
    ensures |pg.empty| == PgRun(p).empty && (pg.empty == {} <==> PgComplete(p))
    ensures ExactlyOnce(pg.deleted, pg.nextContext) <==> !PgRun(p).twice && NoneLive(PgRun(p).left) && pg.empty == {}
    ensures PgOrderly(p) ==>
      && reported == (if PgRaises(p) == Some(Missing) then Some(Unstarted) else PgRaises(p))
      && (ExactlyOnce(pg.deleted, pg.nextContext) <==> PgComplete(p))
    ensures PgOnlyCaptured(p) ==>
      && (AtMostOnce(pg.deleted) <==> PgOrderly(p))
      && (ExactlyOnce(pg.deleted, pg.nextContext) <==> PgOrderly(p) && PgComplete(p))
  {
    pg := new Backend();
    reported := RunToEnd(pg, p);
    CommandMeans(pg.Accounts(), pg.deleted, PgRun(p).left, PgRun(p).twice, PgRun(p).empty);
    CommandShape(p);
  }

  /** A C++ function as a whole command. Unless an exception leaves a C++ function while a handler runs, what arrives is
      the record of the error it captured, the text of the standard exception it throws, or that it throws something
      else. */
  method RunFunction(body: Cpp) returns (pg: Backend, reported: Option<Record>)
    ensures fresh(pg)
    ensures CppOrderly(body) ==>
      && (CppThrows(body) == None ==> reported == None)
      && (forall r, spent :: CppThrows(body) == Some(PgExn(r, spent)) ==> reported == Some(r))
      && (forall what :: CppThrows(body) == Some(StdExn(what)) ==> reported == Some(StdException(what)))
      && (CppThrows(body) == Some(OtherExn) ==> reported == Some(SomeException))
  {
    CppMissing(body);
    assert PgOrderly(Extension(body)) == CppOrderly(body);
    pg, reported := RunCommand(Extension(body));
  }

  /** The same through any number of further layers. */
  method RunLayers(layers: nat, what: Text, payload: Payload)
    returns (std: Option<Record>, other: Option<Record>, error: Option<Record>)
    ensures std == Some(StdException(what)) && other == Some(SomeException) && error == Some(Reported(payload))
  {
    ThrownArrives(layers, payload, what);
    var _, r1 := RunCommand(Layers(layers, Extension(ThrowStd(what))));
    var _, r2 := RunCommand(Layers(layers, Extension(ThrowOther)));
    var _, r3 := RunCommand(Layers(layers, Pg.Report(payload)));
    std, other, error := r1, r2, r3;
  }

  /** A command that fails to delete each error context exactly once: both C++ functions catch everything, and nothing
      is reported, yet some error context is deleted twice and that of the outer handler's own exception never. */
  method SwallowInHandler(r1: Payload, r2: Payload) returns (pg: Backend, e: PgException)
    ensures !AtMostOnce(pg.deleted) && pg.mixed
    ensures pg.caught == [Caught(e)] && e.record == Reported(r1) && e.errorContext < pg.nextContext
    ensures e.errorContext !in pg.deleted
  {
    var reported: Option<Record>;
    pg, reported := RunCommand(Extension(SwallowingProgram(r1, r2)));
    SwallowingProgramMeans(r1, r2);
    ghost var left := [PgExn(Reported(r1), false)];
    assert Matches(pg.caught[0], Some(left[0]));
    e := pg.caught[0].exn;
    assert Share(e.errorContext, false, pg.caught[0], Some(left[0])) == 1;
    assert StillOwned(pg.caught, left, e.errorContext);
    assert PgRun(Extension(SwallowingProgram(r1, r2))).left == left;
  }
}
