/** C and C++ code calling each other, and what it does with errors: what it raises, what it leaves on the C++
    run-time's stack of caught exceptions, and what becomes of the memory contexts that captured errors live in. */
module ErrorMeaning {
  import opened Common

  type Payload(==)
  type Text(==)

  /** An error record. The second and third are how a C++ exception is reported to Postgres. `Missing` is no record: an
      error is raised again after it has been flushed; and `Unstarted` is what Postgres reports when it is then asked
      for the record. */
  datatype Record = Reported(payload: Payload) | StdException(what: Text) | SomeException | Unstarted | Missing

  /** A C function that runs under `ffi_guard`. `Disturb` leaves another current memory context and error context
      stack behind; `Extension` calls a C++ function through `exception_guard`; `PgCatch` is a Postgres handler that
      flushes the error and goes on; `PgCleanup` one that runs `cleanup` with the error pending and raises it again. */
  datatype Pg =
    | PgReturn
    | Report(payload: Payload)
    | Disturb(memoryContext: int, contextStack: int)
    | PgThen(first: Pg, second: Pg)
    | PgCatch(attempt: Pg, handler: Pg)
    | PgCleanup(attempt: Pg, cleanup: Pg)
    | Extension(body: Cpp)

  /** A C++ function. `Call` is `ffi_guard{callee}()`. `Catch` runs its handler for any exception of its body, and then
      either swallows it or throws it again with `throw;`. `Scoped` is `scope_exit` or, when `onlyOnFailure`,
      `scope_fail`. */
  datatype Cpp =
    | Return
    | ThrowStd(what: Text)
    | ThrowOther
    | Call(callee: Pg)
    | CppThen(first: Cpp, second: Cpp)
    | Catch(body: Cpp, handler: Cpp, rethrow: bool)
    | Scoped(onlyOnFailure: bool, cleanup: Pg, body: Cpp)

  // ---------------------------------------------------------------- what one would expect

  /** A C++ exception. A captured Postgres error is `spent` once its error context has been handed over to be deleted
      with `ErrorContext`, or has been deleted. */
  datatype Exn = PgExn(record: Record, spent: bool) | StdExn(what: Text) | OtherExn

  function RecordOf(e: Exn): Record {
    match e
    case PgExn(record, _) => record
    case StdExn(what) => StdException(what)
    case OtherExn => SomeException
  }

  /** What is found when a record is copied. */
  function Found(record: Record): Record {
    if record.Missing? then Unstarted else record
  }

  /** The error that a C function is meant to end with, if any. */
  function PgRaises(p: Pg): Option<Record> {
    match p
    case Report(payload) => Some(Reported(payload))
    case PgThen(first, second) => if PgRaises(first).Some? then PgRaises(first) else PgRaises(second)
    case PgCatch(attempt, handler) => if PgRaises(attempt).Some? then PgRaises(handler) else None
    case PgCleanup(attempt, cleanup) =>
      if PgRaises(attempt).None? then None
      else if PgRaises(cleanup).Some? then PgRaises(cleanup)
      else if PgFlushes(cleanup) then Some(Missing)
      else PgRaises(attempt)
    case Extension(body) => if CppThrows(body).Some? then Some(RecordOf(CppThrows(body).value)) else None
    case _ => None
  }

  /** The exception that a C++ function is meant to end with, if any: a handler throws its own again. */
  function CppThrows(p: Cpp): Option<Exn> {
    match p
    case Return => None
    case ThrowStd(what) => Some(StdExn(what))
    case ThrowOther => Some(OtherExn)
    case Call(callee) => if PgRaises(callee).Some? then Some(PgExn(Found(PgRaises(callee).value), false)) else None
    case CppThen(first, second) => if CppThrows(first).Some? then CppThrows(first) else CppThrows(second)
    case Catch(body, handler, rethrow) =>
      if CppThrows(body).None? || (CppThrows(handler).None? && rethrow) then CppThrows(body) else CppThrows(handler)
    case Scoped(_, _, body) => CppThrows(body)
  }

  predicate CleansUp(p: Cpp)
    requires p.Scoped?
    decreases p, 0
  {
    !p.onlyOnFailure || CppThrows(p.body).Some?
  }

  /** How many exceptions leave a C++ function for Postgres during a run. `exception_guard` jumps out of its handler,
      so each of them stays on the run-time's stack of caught exceptions. */
  function PgStale(p: Pg): nat {
    match p
    case PgThen(first, second) => PgStale(first) + if PgRaises(first).Some? then 0 else PgStale(second)
    case PgCatch(attempt, handler) => PgStale(attempt) + if PgRaises(attempt).Some? then PgStale(handler) else 0
    case PgCleanup(attempt, cleanup) => PgStale(attempt) + if PgRaises(attempt).Some? then PgStale(cleanup) else 0
    case Extension(body) => CppStale(body) + if CppThrows(body).Some? then 1 else 0
    case _ => 0
  }

  function CppStale(p: Cpp): nat {
    match p
    case Call(callee) => PgStale(callee)
    case CppThen(first, second) => CppStale(first) + if CppThrows(first).Some? then 0 else CppStale(second)
    case Catch(body, handler, _) => CppStale(body) + if CppThrows(body).Some? then CppStale(handler) else 0
    case Scoped(_, cleanup, body) => CppStale(body) + if CleansUp(p) then PgStale(cleanup) else 0
    case _ => 0
  }

  /** While a C++ handler runs, no exception leaves a C++ function for Postgres. */
  predicate PgOrderly(p: Pg) {
    match p
    case PgThen(first, second) => PgOrderly(first) && (PgRaises(first).None? ==> PgOrderly(second))
    case PgCatch(attempt, handler) => PgOrderly(attempt) && (PgRaises(attempt).Some? ==> PgOrderly(handler))
    case PgCleanup(attempt, cleanup) => PgOrderly(attempt) && (PgRaises(attempt).Some? ==> PgOrderly(cleanup))
    case Extension(body) => CppOrderly(body)
    case _ => true
  }

  predicate CppOrderly(p: Cpp) {
    match p
    case Call(callee) => PgOrderly(callee)
    case CppThen(first, second) => CppOrderly(first) && (CppThrows(first).None? ==> CppOrderly(second))
    case Catch(body, handler, _) =>
      CppOrderly(body) && (CppThrows(body).Some? ==> CppOrderly(handler) && CppStale(handler) == 0)
    case Scoped(_, cleanup, body) => CppOrderly(body) && (CleansUp(p) ==> PgOrderly(cleanup))
    case _ => true
  }

  /** A run flushes Postgres' error state: it captures an error, or Postgres handles one. */
  predicate PgFlushes(p: Pg) {
    match p
    case PgThen(first, second) => PgFlushes(first) || (PgRaises(first).None? && PgFlushes(second))
    case PgCatch(attempt, _) => PgFlushes(attempt) || PgRaises(attempt).Some?
    case PgCleanup(attempt, cleanup) => PgFlushes(attempt) || (PgRaises(attempt).Some? && PgFlushes(cleanup))
    case Extension(body) => CppFlushes(body)
    case _ => false
  }

  predicate CppFlushes(p: Cpp) {
    match p
    case Call(callee) => PgFlushes(callee) || PgRaises(callee).Some?
    case CppThen(first, second) => CppFlushes(first) || (CppThrows(first).None? && CppFlushes(second))
    case Catch(body, handler, _) => CppFlushes(body) || (CppThrows(body).Some? && CppFlushes(handler))
    case Scoped(_, cleanup, body) =>
      CppFlushes(body) || (CleansUp(p) && (PgFlushes(cleanup) || PgRaises(cleanup).Some?))
    case _ => false
  }

  /** No C++ caller is handed an error whose record is missing. */
  predicate PgComplete(p: Pg) {
    match p
    case PgThen(first, second) => PgComplete(first) && (PgRaises(first).None? ==> PgComplete(second))
    case PgCatch(attempt, handler) => PgComplete(attempt) && (PgRaises(attempt).Some? ==> PgComplete(handler))
    case PgCleanup(attempt, cleanup) => PgComplete(attempt) && (PgRaises(attempt).Some? ==> PgComplete(cleanup))
    case Extension(body) => CppComplete(body)
    case _ => true
  }

  predicate CppComplete(p: Cpp) {
    match p
    case Call(callee) => PgComplete(callee) && PgRaises(callee) != Some(Missing)
    case CppThen(first, second) => CppComplete(first) && (CppThrows(first).None? ==> CppComplete(second))
    case Catch(body, handler, _) => CppComplete(body) && (CppThrows(body).Some? ==> CppComplete(handler))
    case Scoped(_, cleanup, body) =>
      CppComplete(body) && (CleansUp(p) ==> PgComplete(cleanup) && PgRaises(cleanup) != Some(Missing))
    case _ => true
  }

  // ---------------------------------------------------------------- what happens

  /** A memory context; those that captured errors live in have numbers of their own. */
  datatype Place = Ordinary(id: int) | ErrorCxt(c: nat)

  /** What becomes of the current memory context: it is as before, whatever that was, or a given one, or an error
      context that nothing has been captured in. */
  datatype Current = Unchanged | Fixed(context: int) | Astray

  function Over(first: Current, second: Current): Current {
    if second.Unchanged? then first else second
  }

  predicate Leads(c: Current, before: Place, now: Place) {
    match c
    case Unchanged => now == before
    case Fixed(context) => now == Ordinary(context)
    case Astray => now.ErrorCxt?
  }

  /** What a run comes to: what it raises, if anything; the current memory context afterwards, for a C function that
      returns and a C++ function however it ends; the exceptions it leaves on the stack of caught ones, latest first;
      whether it has flushed Postgres' error state; whether some handler has ended or thrown another exception than
      its own; whether some error context has been deleted, or handed over to be deleted, twice; and how many have been
      made in which nothing was captured. */
  datatype Result<+E> = Result(
    raised: Option<E>, current: Current, left: seq<Exn>, flushed: bool, mixed: bool, twice: bool,
    empty: nat)

  function Nothing<E>(): Result<E> {
    Result(None, Unchanged, [], false, false, false, 0)
  }

  /** `y` after `x`. */
  function Next<E, F>(x: Result<E>, y: Result<F>): Result<F> {
    Result(y.raised, Over(x.current, y.current), y.left + x.left, x.flushed || y.flushed, x.mixed || y.mixed,
           x.twice || y.twice, x.empty + y.empty)
  }

  function Spent(e: Exn): bool {
    e.PgExn? && e.spent
  }

  function Spend(e: Exn): Exn {
    if e.PgExn? then e.(spent := true) else e
  }

  function PgRun(p: Pg): Result<Record>
    decreases p, 0
  {
    match p
    case PgReturn => Nothing()
    case Report(payload) => Nothing().(raised := Some(Reported(payload)))
    case Disturb(memoryContext, _) => Nothing().(current := Fixed(memoryContext))
    case PgThen(first, second) => if PgRun(first).raised.Some? then PgRun(first) else Next(PgRun(first), PgRun(second))
    case PgCatch(attempt, handler) =>
      var x := PgRun(attempt);
      if x.raised.None? then x else Next(x.(current := Unchanged, flushed := true), PgRun(handler))
    case PgCleanup(attempt, cleanup) =>
      var x := PgRun(attempt);
      if x.raised.None? then x else RaiseAgain(x, PgRun(cleanup))
    case Extension(body) => HandOver(CppRun(body))
  }

  /** A Postgres handler raises again what `x` raised, after a cleanup that comes to `y`. */
  function RaiseAgain(x: Result<Record>, y: Result<Record>): Result<Record>
    requires x.raised.Some?
  {
    var z := Next(x, y);
    if y.raised.Some? then z
    else z.(raised := if y.flushed then Some(Missing) else x.raised)
  }

  /** An exception that leaves a C++ function goes on as an error; it stays caught, and its error context is handed
      over. */
  function HandOver(x: Result<Exn>): Result<Record> {
    match x.raised
    case None => Result(None, x.current, x.left, x.flushed, x.mixed, x.twice, x.empty)
    case Some(e) =>
      Result(Some(RecordOf(e)), x.current, [Spend(e)] + x.left, x.flushed, x.mixed, x.twice || Spent(e),
             x.empty)
  }

  function CppRun(p: Cpp): Result<Exn>
    decreases p, 0
  {
    match p
    case Return => Nothing()
    case ThrowStd(what) => Nothing().(raised := Some(StdExn(what)))
    case ThrowOther => Nothing().(raised := Some(OtherExn))
    case Call(callee) => Captured(PgRun(callee))
    case CppThen(first, second) =>
      if CppRun(first).raised.Some? then CppRun(first) else Next(CppRun(first), CppRun(second))
    case Catch(body, handler, rethrow) =>
      var x := CppRun(body);
      if x.raised.None? then x else Handled(x, CppRun(handler), rethrow)
    case Scoped(onlyOnFailure, cleanup, body) =>
      var x := CppRun(body);
      if onlyOnFailure && x.raised.None? then x else Next(x, Captured(PgRun(cleanup))).(raised := x.raised)
  }

  /** A guarded call: an error is captured in an error context of its own. When there is no record to copy, that fails,
      which leaves the context behind and current, and what is captured is the failure. */
  function Captured(x: Result<Record>): Result<Exn> {
    match x.raised
    case None => Result(None, x.current, x.left, x.flushed, x.mixed, x.twice, x.empty)
    case Some(record) =>
      var lost := record.Missing?;
      Result(Some(PgExn(Found(record), false)), if lost then Astray else Unchanged, x.left, true, x.mixed, x.twice,
             x.empty + if lost then 1 else 0)
  }

  /** A handler for what `x` raised has come to `y`. The run-time then destroys the latest caught exception, or throws
      it again. */
  function Handled(x: Result<Exn>, y: Result<Exn>, rethrow: bool): Result<Exn>
    requires x.raised.Some?
  {
    var caught := y.left + [x.raised.value];
    var z := Next(x, y).(left := caught[1..] + x.left, mixed := x.mixed || y.mixed || y.left != []);
    if y.raised.None? && rethrow then z.(raised := Some(caught[0]))
    else z.(twice := z.twice || Spent(caught[0]))
  }

  // ---------------------------------------------------------------- expected and actual

  /** Whether something is raised, how much is left, what is flushed and whether handlers get mixed up does not depend
      on which exceptions those are. */
  lemma {:induction false} PgShape(p: Pg)
    ensures var r := PgRun(p);
      && (r.raised.Some? <==> PgRaises(p).Some?) && |r.left| == PgStale(p)
      && (r.flushed <==> PgFlushes(p)) && (r.mixed <==> !PgOrderly(p))
    decreases p
  {
    match p
    case PgThen(first, second) => PgShape(first); PgShape(second);
    case PgCatch(attempt, handler) => PgShape(attempt); PgShape(handler);
    case PgCleanup(attempt, cleanup) => PgShape(attempt); PgShape(cleanup);
    case Extension(body) => CppShape(body);
    case _ =>
  }

  lemma {:induction false} CppShape(p: Cpp)
    ensures var r := CppRun(p);
      && (r.raised.Some? <==> CppThrows(p).Some?) && |r.left| == CppStale(p)
      && (r.flushed <==> CppFlushes(p)) && (r.mixed <==> !CppOrderly(p))
    decreases p
  {
    match p
    case Call(callee) => PgShape(callee);
    case CppThen(first, second) => CppShape(first); CppShape(second);
    case Catch(body, handler, _) => CppShape(body); CppShape(handler);
    case Scoped(_, cleanup, body) => CppShape(body); PgShape(cleanup);
    case _ =>
  }

  predicate Recorded(e: Option<Exn>) {
    e.Some? && e.value.PgExn? ==> !e.value.record.Missing?
  }

  /** Nor does whether a record is missing. A C++ exception always has one. */
  lemma {:induction false} PgMissing(p: Pg)
    ensures var r := PgRun(p);
      && (r.raised == Some(Missing) <==> PgRaises(p) == Some(Missing)) && (r.empty == 0 <==> PgComplete(p))
      && forall i :: 0 <= i < |r.left| ==> Recorded(Some(r.left[i]))
    decreases p
  {
    PgShape(p);
    match p
    case PgThen(first, second) => PgShape(first); PgMissing(first); PgMissing(second);
    case PgCatch(attempt, handler) => PgShape(attempt); PgMissing(attempt); PgMissing(handler);
    case PgCleanup(attempt, cleanup) =>
      PgShape(attempt); PgShape(cleanup); PgMissing(attempt); PgMissing(cleanup);
    case Extension(body) => CppMissing(body);
    case _ =>
  }

  lemma {:induction false} CppMissing(p: Cpp)
    ensures var r := CppRun(p);
      && Recorded(r.raised) && Recorded(CppThrows(p)) && (r.empty == 0 <==> CppComplete(p))
      && forall i :: 0 <= i < |r.left| ==> Recorded(Some(r.left[i]))
    decreases p
  {
    match p
    case Call(callee) => PgMissing(callee);
    case CppThen(first, second) => CppShape(first); CppMissing(first); CppMissing(second);
    case Catch(body, handler, _) => CppShape(body); CppMissing(body); CppMissing(handler);
    case Scoped(_, cleanup, body) => CppShape(body); CppMissing(body); PgMissing(cleanup);
    case _ =>
  }

  /** Exceptions that no destructor has to delete an error context for any more. */
  predicate NoneLive(left: seq<Exn>) {
    forall i :: 0 <= i < |left| ==> left[i].PgExn? ==> left[i].spent
  }

  /** In orderly code every handler ends its own exception, nothing is deleted twice, no exception stays caught whose
      error context is still to be deleted, and what is raised is what one would expect. */
  lemma {:induction false} PgOrderlyMeans(p: Pg)
    requires PgOrderly(p)
    ensures var r := PgRun(p); !r.mixed && !r.twice && NoneLive(r.left) && r.raised == PgRaises(p)
    decreases p
  {
    PgShape(p);
    match p
    case PgThen(first, second) =>
      PgOrderlyMeans(first); PgShape(first);
      if PgRaises(first).None? { PgOrderlyMeans(second); }
    case PgCatch(attempt, handler) =>
      PgOrderlyMeans(attempt); PgShape(attempt);
      if PgRaises(attempt).Some? { PgOrderlyMeans(handler); }
    case PgCleanup(attempt, cleanup) =>
      PgOrderlyMeans(attempt); PgShape(attempt); PgShape(cleanup);
      if PgRaises(attempt).Some? { PgOrderlyMeans(cleanup); }
    case Extension(body) => CppOrderlyMeans(body);
    case _ =>
  }

  lemma {:induction false} CppOrderlyMeans(p: Cpp)
    requires CppOrderly(p)
    ensures var r := CppRun(p);
      && !r.mixed && !r.twice && NoneLive(r.left) && r.raised == CppThrows(p)
      && (r.raised.Some? ==> !Spent(r.raised.value))
    decreases p
  {
    CppShape(p);
    match p
    case Call(callee) => PgOrderlyMeans(callee);
    case CppThen(first, second) =>
      CppOrderlyMeans(first); CppShape(first);
      if CppThrows(first).None? { CppOrderlyMeans(second); }
    case Catch(body, handler, _) =>
      CppOrderlyMeans(body); CppShape(body); CppShape(handler);
      if CppThrows(body).Some? { CppOrderlyMeans(handler); }
    case Scoped(_, cleanup, body) =>
      CppOrderlyMeans(body); CppShape(body);
      if CleansUp(p) { PgOrderlyMeans(cleanup); }
    case _ =>
  }

  /** Every C++ exception is a captured Postgres error. */
  predicate PgOnlyCaptured(p: Pg) {
    match p
    case PgThen(first, second) => PgOnlyCaptured(first) && PgOnlyCaptured(second)
    case PgCatch(attempt, handler) => PgOnlyCaptured(attempt) && PgOnlyCaptured(handler)
    case PgCleanup(attempt, cleanup) => PgOnlyCaptured(attempt) && PgOnlyCaptured(cleanup)
    case Extension(body) => CppOnlyCaptured(body)
    case _ => true
  }

  predicate CppOnlyCaptured(p: Cpp) {
    match p
    case Return => true
    case ThrowStd(_) | ThrowOther => false
    case Call(callee) => PgOnlyCaptured(callee)
    case CppThen(first, second) => CppOnlyCaptured(first) && CppOnlyCaptured(second)
    case Catch(body, handler, _) => CppOnlyCaptured(body) && CppOnlyCaptured(handler)
    case Scoped(_, cleanup, body) => PgOnlyCaptured(cleanup) && CppOnlyCaptured(body)
  }

  predicate AllCaptured(left: seq<Exn>) {
    forall i :: 0 <= i < |left| ==> left[i].PgExn?
  }

  /** When all exceptions are captured errors, a handler that gets another exception than its own always leads to a
      second deletion: what it gets is spent, and is deleted or handed over again before the program ends. */
  lemma {:induction false} PgMixedIsTwice(p: Pg)
    requires PgOnlyCaptured(p)
    ensures var r := PgRun(p); AllCaptured(r.left) && if r.mixed then r.twice else NoneLive(r.left)
    decreases p
  {
    match p
    case PgThen(first, second) => PgMixedIsTwice(first); PgMixedIsTwice(second);
    case PgCatch(attempt, handler) => PgMixedIsTwice(attempt); PgMixedIsTwice(handler);
    case PgCleanup(attempt, cleanup) => PgMixedIsTwice(attempt); PgMixedIsTwice(cleanup);
    case Extension(body) => CppMixedIsTwice(body);
    case _ =>
  }

  lemma {:induction false} CppMixedIsTwice(p: Cpp)
    requires CppOnlyCaptured(p)
    ensures var r := CppRun(p);
      && AllCaptured(r.left) && (r.raised.Some? ==> r.raised.value.PgExn?)
      && if r.mixed then r.twice || (r.raised.Some? && Spent(r.raised.value)) else NoneLive(r.left)
    decreases p
  {
    match p
    case Call(callee) => PgMixedIsTwice(callee);
    case CppThen(first, second) => CppMixedIsTwice(first); CppMixedIsTwice(second);
    case Catch(body, handler, _) => CppMixedIsTwice(body); CppMixedIsTwice(handler);
    case Scoped(_, cleanup, body) => CppMixedIsTwice(body); PgMixedIsTwice(cleanup);
    case _ =>
  }

  /** An error context is deleted twice exactly when some C++ handler runs while an exception leaves a C++ function for
      Postgres, for programs whose exceptions are all captured errors. */
  lemma TwiceExactlyWhenNotOrderly(p: Pg)
    requires PgOnlyCaptured(p)
    ensures PgRun(p).twice <==> !PgOrderly(p)
  {
    PgShape(p);
    PgMixedIsTwice(p);
    if PgOrderly(p) {
      PgOrderlyMeans(p);
    }
  }

  /** For other programs that is not necessary. Here a handler ends another exception than its own, but neither is a
      captured error. */
  function OtherProgram(what: Text): Cpp {
    Catch(ThrowStd(what), Catch(Call(Extension(ThrowStd(what))), Return, false), false)
  }

  lemma OtherProgramMeans(what: Text)
    ensures var r := PgRun(Extension(OtherProgram(what))); r.mixed && !r.twice && r.left == [StdExn(what)]
  {
    var thrown, call := ThrowStd(what), Call(Extension(ThrowStd(what)));
    assert CppRun(thrown).raised == Some(StdExn(what));
    assert PgRun(Extension(thrown)).left == [StdExn(what)];
    assert CppRun(call).left == [StdExn(what)] && CppRun(call).raised.Some?;
    var handler := Catch(call, Return, false);
    assert CppRun(handler) == Handled(CppRun(call), CppRun(Return), false);
    assert CppRun(handler).left == [StdExn(what)] && CppRun(handler).raised.None?;
    assert CppRun(OtherProgram(what)) == Handled(CppRun(thrown), CppRun(handler), false);
  }

  lemma NotOrderlyYetNothingTwice(what: Text)
    ensures var p := Extension(OtherProgram(what)); !PgOrderly(p) && !PgRun(p).twice && NoneLive(PgRun(p).left)
  {
    OtherProgramMeans(what);
    PgShape(Extension(OtherProgram(what)));
  }

  /** A program that catches everything: while a handler runs, it swallows an error that came through another C++
      function. */
  function SwallowingProgram(r1: Payload, r2: Payload): Cpp {
    Catch(Call(Report(r1)), Catch(Call(Extension(Call(Report(r2)))), Return, false), false)
  }

  /** What is left is the outer handler's own exception, its error context never deleted; the inner function's has been
      deleted twice. */
  lemma SwallowingProgramMeans(r1: Payload, r2: Payload)
    ensures var r := PgRun(Extension(SwallowingProgram(r1, r2)));
      r.raised.None? && r.twice && r.left == [PgExn(Reported(r1), false)] && r.empty == 0
  {
    var layer := Call(Extension(Call(Report(r2))));
    assert PgRun(Report(r2)).raised == Some(Reported(r2));
    assert CppRun(Call(Report(r2))) == Captured(PgRun(Report(r2)));
    assert PgRun(Extension(Call(Report(r2)))).left == [PgExn(Reported(r2), true)];
    assert CppRun(layer).raised == Some(PgExn(Reported(r2), false));
    assert CppRun(layer).left == [PgExn(Reported(r2), true)];
    var handler := Catch(layer, Return, false);
    assert CppRun(handler) == Handled(CppRun(layer), CppRun(Return), false);
    assert CppRun(handler).left == [PgExn(Reported(r2), true)] && CppRun(handler).raised.None?;
    assert CppRun(Call(Report(r1))) == Captured(PgRun(Report(r1)));
    assert CppRun(SwallowingProgram(r1, r2)) == Handled(CppRun(Call(Report(r1))), CppRun(handler), false);
  }

  // ---------------------------------------------------------------- what guards are for

  /** An error that passes a Postgres handler with a cleanup arrives exactly when the cleanup neither raises another,
      nor captures an error, nor has Postgres handle one. Otherwise it is the cleanup's own that arrives, or one without
      a record, which a C++ caller gets as the failure to copy it, with an error context made in vain. */
  lemma CleanupArrivesExactlyWhen(attempt: Pg, cleanup: Pg)
    requires PgRun(attempt).raised.Some? && PgRun(attempt).raised != Some(Missing)
    ensures var y, z := PgRun(cleanup), PgRun(PgCleanup(attempt, cleanup));
      && (y.raised.Some? ==> z.raised == y.raised)
      && (y.raised.None? && !PgFlushes(cleanup) ==> z.raised == PgRun(attempt).raised)
      && (y.raised.None? && PgFlushes(cleanup) ==> z.raised == Some(Missing))
    ensures PgRun(cleanup).raised.None? && PgFlushes(cleanup) ==>
      var z, r := PgRun(PgCleanup(attempt, cleanup)), CppRun(Call(PgCleanup(attempt, cleanup)));
      r.raised == Some(PgExn(Unstarted, false)) && r.empty == z.empty + 1 && r.current == Astray
  {
    PgShape(cleanup);
    var z := PgRun(PgCleanup(attempt, cleanup));
    assert z == RaiseAgain(PgRun(attempt), PgRun(cleanup));
    assert CppRun(Call(PgCleanup(attempt, cleanup))) == Captured(z);
  }

  lemma LeadsOver(first: Current, second: Current, before: Place, between: Place, now: Place)
    requires Leads(first, before, between) && Leads(second, between, now)
    ensures Leads(Over(first, second), before, now)
  {
  }

  ghost predicate Restores(c: Current) {
    forall before, now :: Leads(c, before, now) ==> now == before
  }

  lemma RestoresUnchanged(c: Current)
    ensures Restores(c) <==> c.Unchanged?
  {
    match c
    case Unchanged =>
    case Fixed(context) => assert Leads(c, Ordinary(context + 1), Ordinary(context));
    case Astray => assert Leads(c, Ordinary(0), ErrorCxt(0));
  }

  /** A guarded call puts the memory context back, whatever it was, exactly when the callee fails with a record that can
      be copied, or returns and makes no other context current for good. */
  lemma GuardRestoresExactlyWhen(callee: Pg)
    ensures Restores(CppRun(Call(callee)).current)
      <==> if PgRaises(callee).Some? then PgRaises(callee) != Some(Missing) else PgRun(callee).current.Unchanged?
  {
    PgShape(callee);
    PgMissing(callee);
    var current := Captured(PgRun(callee)).current;
    assert CppRun(Call(callee)).current == current;
    RestoresUnchanged(current);
  }

  /** `layers` extension functions, each calling the next under `ffi_guard` and catching nothing. */
  function Layers(layers: nat, core: Pg): Pg {
    if layers == 0 then core else Extension(Call(Layers(layers - 1, core)))
  }

  /** An error that nobody catches arrives with its own record through any number of layers, none of which adds a second
      deletion; each leaves one exception behind, with nothing left to delete. */
  lemma {:induction false} LayersAreTransparent(layers: nat, core: Pg)
    requires PgRun(core).raised != Some(Missing)
    ensures var r, c := PgRun(Layers(layers, core)), PgRun(core);
      && r.raised == c.raised && r.twice == c.twice && r.mixed == c.mixed && r.empty == c.empty
      && |r.left| == |c.left| + (if c.raised.Some? then layers else 0) && (NoneLive(c.left) ==> NoneLive(r.left))
      && (c.raised.None? ==> r.current == c.current)
  {
    if layers > 0 {
      LayersAreTransparent(layers - 1, core);
      assert CppRun(Call(Layers(layers - 1, core))) == Captured(PgRun(Layers(layers - 1, core)));
    }
  }

  /** What is reported for whatever a C++ function throws, the record of a captured error or the text of a standard
      exception included, arrives unchanged through any number of layers. */
  lemma ThrownArrives(layers: nat, payload: Payload, what: Text)
    ensures PgRun(Layers(layers, Report(payload))).raised == Some(Reported(payload))
    ensures PgRun(Layers(layers, Extension(ThrowStd(what)))).raised == Some(StdException(what))
    ensures PgRun(Layers(layers, Extension(ThrowOther))).raised == Some(SomeException)
  {
    var std, other := ThrowStd(what), ThrowOther;
    assert CppRun(std).raised == Some(StdExn(what)) && CppRun(other).raised == Some(OtherExn);
    LayersAreTransparent(layers, Report(payload));
    LayersAreTransparent(layers, Extension(std));
    LayersAreTransparent(layers, Extension(other));
  }

  // ---------------------------------------------------------------- laws of sequences, handlers and scopes

  /** What comes after an error is not run; what comes after no error is, and last. */
  lemma PgSequences(payload: Payload, context: int, stack: int, q: Pg)
    ensures PgRun(PgThen(Report(payload), q)).raised == Some(Reported(payload))
    ensures var y, z := PgRun(q), PgRun(PgThen(Disturb(context, stack), q));
      && z.raised == y.raised && z.left == y.left
      && z.current == if y.current.Unchanged? then Fixed(context) else y.current
  {
    assert PgRun(Report(payload)).raised == Some(Reported(payload));
    var x := PgRun(Disturb(context, stack));
    assert PgRun(PgThen(Disturb(context, stack), q)) == Next(x, PgRun(q));
    assert PgRun(q).left + [] == PgRun(q).left;
  }

  /** A Postgres handler runs exactly after an error, from the memory context there was before the attempt. */
  lemma PgHandles(payload: Payload, context: int, stack: int, handler: Pg)
    ensures PgRun(PgCatch(Disturb(context, stack), handler)) == PgRun(Disturb(context, stack))
    ensures var y, z := PgRun(handler), PgRun(PgCatch(PgThen(Disturb(context, stack), Report(payload)), handler));
      z.raised == y.raised && z.left == y.left && z.current == y.current && z.flushed
  {
    var attempt := PgThen(Disturb(context, stack), Report(payload));
    PgSequences(payload, context, stack, Report(payload));
    assert PgRun(Report(payload)).raised.Some? && PgRun(attempt).raised.Some?;
    assert PgRun(PgCatch(attempt, handler))
      == Next(PgRun(attempt).(current := Unchanged, flushed := true), PgRun(handler));
    assert PgRun(attempt).left == [] && PgRun(handler).left + [] == PgRun(handler).left;
  }

  /** The same of C++ sequences and handlers; a handler that ends normally swallows its exception or throws it again. */
  lemma CppSequences(what: Text, context: int, stack: int, q: Cpp)
    ensures CppRun(CppThen(ThrowStd(what), q)).raised == Some(StdExn(what))
    ensures var y, z := CppRun(q), CppRun(CppThen(Call(Disturb(context, stack)), q));
      && z.raised == y.raised && z.left == y.left
      && z.current == if y.current.Unchanged? then Fixed(context) else y.current
  {
    assert CppRun(ThrowStd(what)).raised == Some(StdExn(what));
    var call := Call(Disturb(context, stack));
    assert CppRun(call) == Captured(PgRun(Disturb(context, stack)));
    assert CppRun(CppThen(call, q)) == Next(CppRun(call), CppRun(q));
    assert CppRun(q).left + [] == CppRun(q).left;
  }

  lemma CppHandles(what: Text, handler: Cpp, rethrow: bool)
    ensures CppRun(Catch(Return, handler, rethrow)).raised == None
    ensures CppRun(Catch(Return, handler, rethrow)).current == Unchanged
    ensures CppRun(handler).left == [] ==> var y, z := CppRun(handler), CppRun(Catch(ThrowStd(what), handler, rethrow));
      && z.raised == (if y.raised.Some? then y.raised else if rethrow then Some(StdExn(what)) else None)
      && z.current == y.current && z.left == []
  {
    assert CppRun(ThrowStd(what)).raised == Some(StdExn(what));
    assert CppRun(Catch(ThrowStd(what), handler, rethrow)) == Handled(CppRun(ThrowStd(what)), CppRun(handler), rethrow);
  }

  /** `scope_exit` runs its cleanup however the scope is left, and `scope_fail` exactly when an exception leaves it;
      after the body, and without any effect on what is thrown. */
  lemma ScopesCleanUp(onlyOnFailure: bool, context: int, stack: int, what: Text, payload: Payload)
    ensures var left := CppRun(Scoped(onlyOnFailure, Disturb(context, stack), Return));
      left.raised.None? && left.current == if onlyOnFailure then Unchanged else Fixed(context)
    ensures var thrown := CppRun(Scoped(onlyOnFailure, Disturb(context, stack), ThrowStd(what)));
      thrown.raised == Some(StdExn(what)) && thrown.current == Fixed(context)
    ensures var failing := CppRun(Scoped(false, Report(payload), Return));
      failing.raised.None? && failing.flushed
    ensures CppRun(Scoped(false, Disturb(context, stack), Call(Disturb(context + 1, stack)))).current == Fixed(context)
  {
    var cleanup, throws, call := Disturb(context, stack), ThrowStd(what), Call(Disturb(context + 1, stack));
    assert PgRun(cleanup).current == Fixed(context);
    assert CppRun(throws).raised == Some(StdExn(what));
    assert PgRun(Report(payload)).raised == Some(Reported(payload));
    assert CppRun(call) == Captured(PgRun(Disturb(context + 1, stack)));
    assert CppRun(Scoped(false, cleanup, call)) == Next(CppRun(call), Captured(PgRun(cleanup))).(raised := None);
  }
}
