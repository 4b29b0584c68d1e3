/** The main-thread worker: a mutex, a condition variable and a task queue, with any number of other threads that
    post tasks or terminate the worker, in every interleaving of their atomic steps. */
module Workers {

  type Task(==)

  // ---------------------------------------------------------------- the object the threads share

  /** The protected fields, as one value. */
  datatype Shared = Shared(tasks: seq<Task>, done: bool, terminated: bool)

  /** What the runner finds when it holds the lock and its wait predicate is true. */
  datatype Found = Exit | Take(task: Task)

  function Push(sh: Shared, task: Task): Shared {
    sh.(tasks := sh.tasks + [task])
  }

  function RequestStop(sh: Shared): Shared {
    if sh.terminated then sh else sh.(done := true)
  }

  predicate Ready(sh: Shared) {
    sh.done || sh.tasks != []
  }

  function Look(sh: Shared): (Found, Shared)
    requires Ready(sh)
  {
    if sh.done && sh.tasks == [] then (Exit, sh)
    else (Take(sh.tasks[0]), sh.(tasks := sh.tasks[1..]))
  }

  /** The worker object; each method is one critical section, or one atomic store. `pushed` and `taken` are the tasks
      ever queued and ever taken out, in order. */
  class Worker {
    var tasks: seq<Task>
    var done: bool
    var terminated: bool
    ghost var pushed: seq<Task>
    ghost var taken: seq<Task>

    constructor ()
      ensures Valid() && View() == Shared([], false, false) && pushed == taken == []
    {
      tasks, done, terminated, pushed, taken := [], false, false, [], [];
    }

    function View(): Shared
      reads this
    {
      Shared(tasks, done, terminated)
    }

    /** The queue is what has been pushed and not been taken. */
    ghost predicate Valid()
      reads this
    {
      taken + tasks == pushed
    }

    /** In `post`, under the lock. */
    method Emplace(task: Task)
      requires Valid()
      modifies this`tasks, this`pushed
      ensures Valid() && pushed == old(pushed) + [task]
      ensures View() == Push(old(View()), task)
    {
      tasks := tasks + [task];
      pushed := pushed + [task];
    }

    /** In `terminate`, under the lock: whether there is anyone left to notify. */
    method Terminate() returns (notify: bool)
      modifies this`done
      ensures notify <==> !terminated
      ensures done == (old(done) || notify) && View() == RequestStop(old(View()))
    {
      if terminated {
        return false;
      }
      done := true;
      notify := true;
    }

    /** In `run`, under the lock: the oldest task that has not been taken, or the order to leave once there is none. */
    method TakeNext() returns (found: Found)
      requires Valid() && Ready(View())
      modifies this`tasks, this`taken
      ensures Valid() && (found, View()) == Look(old(View()))
      ensures found.Exit? <==> done && old(taken) == pushed
      ensures found.Exit? ==> taken == pushed
      ensures found.Take? ==> taken == old(taken) + [found.task] && taken <= pushed
    {
      assert tasks == [] <==> taken == pushed by {
        assert taken == pushed ==> |tasks| == 0;
        assert tasks == [] ==> taken + [] == taken;
      }
      if done && tasks == [] {
        return Exit;
      }
      found := Take(tasks[0]);
      assert taken + tasks == taken + [tasks[0]] + tasks[1..];
      tasks, taken := tasks[1..], taken + [tasks[0]];
    }

    method MarkTerminated()
      modifies this`terminated
      ensures terminated
    {
      terminated := true;
    }
  }

  // ---------------------------------------------------------------- threads and their steps

  datatype Op = Post(task: Task) | Stop

  /** Where a posting or terminating thread is inside its current operation. */
  datatype Pc =
    | Idle        // before the lock of its next operation
    | PostLocked  // in `post`, holding the lock
    | PostPushed  // task queued, still holding the lock
    | PostNotify  // lock released, `notify_one` still to come
    | StopLocked  // in `terminate`, holding the lock
    | StopNotify  // `done` set, holding the lock, `notify_one` still to come
    | StopUnlock  // holding the lock, about to leave

  datatype Thread = Thread(pc: Pc, ops: seq<Op>)

  datatype Runner =
    | Looping             // top of the loop, about to lock
    | Testing             // holding the lock, about to evaluate the wait predicate
    | Asleep              // in the condition variable's wait set, lock released
    | Woken               // out of the wait set, about to lock again
    | Holding             // holding the lock, the predicate was true
    | Running(task: Task) // lock released, executing
    | Leaving             // out of the loop, `terminated` not yet set
    | Stopped

  datatype Owner = Nobody | TheRunner | ThreadNo(i: nat)

  /** `pushed` and `executed` are histories: tasks in the order the lock serialised their posts, tasks in the order
      they were executed. `posters` says which thread posted each. */
  datatype State = State(
    threads: seq<Thread>, runner: Runner, owner: Owner, shared: Shared,
    pushed: seq<Task>, posters: seq<nat>, executed: seq<Task>)

  datatype Action = Step(i: nat) | RunnerStep | SpuriousWake

  predicate HoldsLock(pc: Pc) {
    pc.PostLocked? || pc.PostPushed? || pc.StopLocked? || pc.StopNotify? || pc.StopUnlock?
  }

  /** The thread has changed what the runner waits for and has not yet notified. */
  predicate OwesNotify(pc: Pc) {
    pc.PostPushed? || pc.PostNotify? || pc.StopNotify?
  }

  predicate Enabled(s: State, a: Action) {
    match a
    case Step(i) => i < |s.threads| && s.threads[i].ops != [] && (s.threads[i].pc.Idle? ==> s.owner.Nobody?)
    case RunnerStep =>
      match s.runner {
        case Looping => s.owner.Nobody?
        case Woken => s.owner.Nobody?
        case Asleep => false
        case Stopped => false
        case _ => true
      }
    case SpuriousWake => s.runner.Asleep?
  }

  function Notify(r: Runner): Runner {
    if r.Asleep? then Woken else r
  }

  function SetPc(s: State, i: nat, pc: Pc): State
    requires i < |s.threads|
  {
    s.(threads := s.threads[i := s.threads[i].(pc := pc)])
  }

  function EndOp(s: State, i: nat): State
    requires i < |s.threads| && s.threads[i].ops != []
  {
    s.(threads := s.threads[i := Thread(Idle, s.threads[i].ops[1..])])
  }

  function DoThread(s: State, i: nat): State
    requires Enabled(s, Step(i))
  {
    var op := s.threads[i].ops[0];
    match s.threads[i].pc
    case Idle => SetPc(s.(owner := ThreadNo(i)), i, if op.Post? then PostLocked else StopLocked)
    case PostLocked =>
      if op.Post? then
        SetPc(s.(shared := Push(s.shared, op.task), pushed := s.pushed + [op.task], posters := s.posters + [i]),
              i, PostPushed)
      else s
    case PostPushed => SetPc(s.(owner := Nobody), i, PostNotify)
    case PostNotify => EndOp(s.(runner := Notify(s.runner)), i)
    case StopLocked =>
      SetPc(s.(shared := RequestStop(s.shared)), i, if s.shared.terminated then StopUnlock else StopNotify)
    case StopNotify => SetPc(s.(runner := Notify(s.runner)), i, StopUnlock)
    case StopUnlock => EndOp(s.(owner := Nobody), i)
  }

  function DoRunner(s: State): State
    requires Enabled(s, RunnerStep)
  {
    match s.runner
    case Looping => s.(runner := Testing, owner := TheRunner)
    case Woken => s.(runner := Testing, owner := TheRunner)
    case Testing => if Ready(s.shared) then s.(runner := Holding) else s.(runner := Asleep, owner := Nobody)
    case Holding =>
      if !Ready(s.shared) then s
      else
        var (found, shared) := Look(s.shared);
        s.(runner := if found.Exit? then Leaving else Running(found.task), owner := Nobody, shared := shared)
    case Running(task) => s.(runner := Looping, executed := s.executed + [task])
    case Leaving => s.(runner := Stopped, shared := s.shared.(terminated := true))
    case _ => s
  }

  function Do(s: State, a: Action): State
    requires Enabled(s, a)
  {
    match a
    case Step(i) => DoThread(s, i)
    case RunnerStep => DoRunner(s)
    case SpuriousWake => s.(runner := Woken)
  }

  predicate Feasible(s: State, acts: seq<Action>)
    decreases |acts|
  {
    acts == [] || (Enabled(s, acts[0]) && Feasible(Do(s, acts[0]), acts[1..]))
  }

  function Run(s: State, acts: seq<Action>): State
    requires Feasible(s, acts)
    decreases |acts|
  {
    if acts == [] then s else Run(Do(s, acts[0]), acts[1..])
  }

  /** A fresh worker whose threads have the given programs. */
  function Init(programs: seq<seq<Op>>): State {
    State(seq(|programs|, i requires 0 <= i < |programs| => Thread(Idle, programs[i])), Looping, Nobody,
          Shared([], false, false), [], [], [])
  }

  // ---------------------------------------------------------------- safety

  function InFlight(r: Runner): seq<Task> {
    if r.Running? then [r.task] else []
  }

  predicate PcFits(t: Thread) {
    match t.pc
    case Idle => true
    case PostLocked => t.ops != [] && t.ops[0].Post?
    case PostPushed => t.ops != [] && t.ops[0].Post?
    case PostNotify => t.ops != [] && t.ops[0].Post?
    case _ => t.ops != [] && t.ops[0].Stop?
  }

  /** One owner at a time holds the mutex, and every thread is at a point of its current operation. */
  ghost predicate Locking(s: State) {
    && (forall i :: 0 <= i < |s.threads| ==> PcFits(s.threads[i]))
    && (forall i :: 0 <= i < |s.threads| ==> (HoldsLock(s.threads[i].pc) <==> s.owner == ThreadNo(i)))
    && (s.owner.ThreadNo? ==> s.owner.i < |s.threads|)
    && (s.owner.TheRunner? <==> s.runner.Testing? || s.runner.Holding?)
  }

  /** First in, first out; and the runner leaves only when asked to stop. */
  predicate InOrder(s: State) {
    && s.executed + InFlight(s.runner) + s.shared.tasks == s.pushed
    && (s.runner.Holding? ==> Ready(s.shared))
    && (s.runner.Leaving? || s.runner.Stopped? ==> s.shared.done)
    && (s.shared.terminated <==> s.runner.Stopped?)
  }

  /** A sleeping runner with something to do has a notification coming. */
  ghost predicate WillWake(s: State) {
    s.runner.Asleep? && Ready(s.shared) ==> exists i :: 0 <= i < |s.threads| && OwesNotify(s.threads[i].pc)
  }

  ghost predicate Inv(s: State) {
    Locking(s) && InOrder(s) && WillWake(s)
  }

  lemma InvInit(programs: seq<seq<Op>>)
    ensures Inv(Init(programs))
  {
  }

  lemma ThreadKeepsLocking(s: State, i: nat)
    requires Locking(s) && Enabled(s, Step(i))
    ensures Locking(DoThread(s, i))
  {
  }

  lemma ThreadKeepsOrder(s: State, i: nat)
    requires Locking(s) && InOrder(s) && Enabled(s, Step(i))
    ensures InOrder(DoThread(s, i))
  {
  }

  lemma ThreadKeepsWake(s: State, i: nat)
    requires Locking(s) && InOrder(s) && WillWake(s) && Enabled(s, Step(i))
    ensures WillWake(DoThread(s, i))
  {
    var s' := DoThread(s, i);
    if s'.runner.Asleep? && Ready(s'.shared) {
      if s.threads[i].pc.PostLocked? || s.threads[i].pc.StopLocked? {
        assert OwesNotify(s'.threads[i].pc);
      } else {
        var j :| 0 <= j < |s.threads| && OwesNotify(s.threads[j].pc);
        assert OwesNotify(s'.threads[j].pc);
      }
    }
  }

  lemma InvThread(s: State, i: nat)
    requires Inv(s) && Enabled(s, Step(i))
    ensures Inv(DoThread(s, i))
  {
    ThreadKeepsLocking(s, i);
    ThreadKeepsOrder(s, i);
    ThreadKeepsWake(s, i);
  }

  lemma InvRunner(s: State)
    requires Inv(s) && Enabled(s, RunnerStep)
    ensures Inv(DoRunner(s))
  {
    var s' := DoRunner(s);
    assert s'.threads == s.threads;
    if s.runner.Holding? && s.shared.tasks != [] {
      assert s.shared.tasks == [s.shared.tasks[0]] + s.shared.tasks[1..];
    }
  }

  lemma InvStep(s: State, a: Action)
    requires Inv(s) && Enabled(s, a)
    ensures Inv(Do(s, a))
  {
    match a
    case Step(i) => InvThread(s, i);
    case RunnerStep => InvRunner(s);
    case SpuriousWake =>
  }

  lemma {:induction false} InvRun(s: State, acts: seq<Action>)
    requires Inv(s) && Feasible(s, acts)
    ensures Inv(Run(s, acts))
    decreases |acts|
  {
    if acts != [] {
      InvStep(s, acts[0]);
      InvRun(Do(s, acts[0]), acts[1..]);
    }
  }

  /** `run` leaves its loop only when every task pushed so far has been executed. */
  lemma LeavesOnlyWhenDrained(programs: seq<seq<Op>>, acts: seq<Action>)
    requires Feasible(Init(programs), acts)
    requires var s := Run(Init(programs), acts);
      Enabled(s, RunnerStep) && !s.runner.Leaving? && DoRunner(s).runner.Leaving?
    ensures var s := Run(Init(programs), acts); s.executed == s.pushed && s.shared.done
  {
    InvInit(programs);
    InvRun(Init(programs), acts);
  }

  /** A sleeping runner with something to do has a notification coming. */
  lemma NoLostWakeup(programs: seq<seq<Op>>, acts: seq<Action>)
    requires Feasible(Init(programs), acts)
    ensures var s := Run(Init(programs), acts);
      s.runner.Asleep? && (s.shared.done || s.shared.tasks != []) ==>
        exists i :: 0 <= i < |s.threads| && OwesNotify(s.threads[i].pc)
  {
    InvInit(programs);
    InvRun(Init(programs), acts);
  }

  // ---------------------------------------------------------------- progress

  /** Nothing can move except by a spurious wakeup. */
  ghost predicate Quiescent(s: State) {
    forall a :: Enabled(s, a) ==> a.SpuriousWake?
  }

  /** Whoever holds the lock can move. */
  lemma LockIsReleased(s: State)
    requires Inv(s)
    ensures s.owner.TheRunner? ==> Enabled(s, RunnerStep)
    ensures s.owner.ThreadNo? ==> Enabled(s, Step(s.owner.i))
  {
    if s.owner.ThreadNo? {
      assert PcFits(s.threads[s.owner.i]);
    }
  }

  /** When nothing can move, the worker has stopped, or it sleeps with every task ever pushed executed and no
      termination requested; and no thread is in the middle of an operation. */
  lemma QuiescentMeansDrained(s: State)
    requires Inv(s) && Quiescent(s)
    ensures s.runner.Stopped? || (s.runner.Asleep? && !s.shared.done && s.executed == s.pushed)
    ensures forall i :: 0 <= i < |s.threads| ==> s.threads[i].ops == []
  {
    LockIsReleased(s);
    forall i: nat | i < |s.threads| ensures s.threads[i].ops == [] {
      assert !Enabled(s, Step(i));
    }
    assert !Enabled(s, RunnerStep);
  }

  function RunnerRank(r: Runner): nat {
    match r
    case Asleep => 0
    case Stopped => 0
    case Leaving => 1
    case Holding => 2
    case Testing => 3
    case Looping => 4
    case Woken => 4
    case Running(_) => 5
  }

  function Progress(pc: Pc): nat {
    match pc
    case Idle => 0
    case PostLocked => 1
    case PostPushed => 7
    case PostNotify => 8
    case StopLocked => 1
    case StopNotify => 2
    case StopUnlock => 8
  }

  function ThreadWork(t: Thread): int {
    20 * |t.ops| - Progress(t.pc)
  }

  function TotalWork(ts: seq<Thread>): int {
    if ts == [] then 0 else ThreadWork(ts[0]) + TotalWork(ts[1..])
  }

  lemma {:induction false} TotalWorkUpdate(ts: seq<Thread>, i: nat, t: Thread)
    requires i < |ts|
    ensures TotalWork(ts[i := t]) == TotalWork(ts) - ThreadWork(ts[i]) + ThreadWork(t)
    decreases |ts|
  {
    if i > 0 {
      assert ts[i := t][1..] == ts[1..][i - 1 := t];
      TotalWorkUpdate(ts[1..], i - 1, t);
    } else {
      assert ts[i := t][1..] == ts[1..];
    }
  }

  lemma {:induction false} TotalWorkNonNegative(ts: seq<Thread>)
    requires forall i :: 0 <= i < |ts| ==> PcFits(ts[i])
    ensures TotalWork(ts) >= 0
    decreases |ts|
  {
    if ts != [] {
      assert PcFits(ts[0]);
      forall i | 0 <= i < |ts[1..]| ensures PcFits(ts[1..][i]) { assert PcFits(ts[i + 1]); }
      TotalWorkNonNegative(ts[1..]);
    }
  }

  /** The steps the whole system can still make without spurious wakeups. */
  function Measure(s: State): int {
    TotalWork(s.threads) + 5 * |s.shared.tasks| + RunnerRank(s.runner)
  }

  lemma MeasureStep(s: State, a: Action)
    requires Inv(s) && Enabled(s, a)
    ensures a.SpuriousWake? ==> Measure(Do(s, a)) == Measure(s) + 4
    ensures !a.SpuriousWake? ==> Measure(Do(s, a)) < Measure(s)
  {
    if a.Step? {
      var s' := DoThread(s, a.i);
      TotalWorkUpdate(s.threads, a.i, s'.threads[a.i]);
      assert PcFits(s.threads[a.i]);
      assert s'.threads == s.threads[a.i := s'.threads[a.i]];
    }
  }

  function Spurious(acts: seq<Action>): nat {
    if acts == [] then 0 else (if acts[0].SpuriousWake? then 1 else 0) + Spurious(acts[1..])
  }

  lemma {:induction false} RunLength(s: State, acts: seq<Action>)
    requires Inv(s) && Feasible(s, acts)
    ensures |acts| + Measure(Run(s, acts)) <= Measure(s) + 5 * Spurious(acts)
    decreases |acts|
  {
    if acts != [] {
      MeasureStep(s, acts[0]);
      InvStep(s, acts[0]);
      RunLength(Do(s, acts[0]), acts[1..]);
    }
  }

  /** Once `done` is set the runner never goes back to sleep, so at most one wakeup can still be spurious. */
  lemma {:induction false} FewSpuriousOnceDone(s: State, acts: seq<Action>)
    requires Inv(s) && Feasible(s, acts) && s.shared.done
    ensures Spurious(acts) <= if s.runner.Asleep? then 1 else 0
    decreases |acts|
  {
    if acts != [] {
      InvStep(s, acts[0]);
      FewSpuriousOnceDone(Do(s, acts[0]), acts[1..]);
    }
  }

  /** From any reachable state every run is as short as its measure and its spurious wakeups allow. */
  lemma RunsAreFinite(programs: seq<seq<Op>>, before: seq<Action>, acts: seq<Action>)
    requires Feasible(Init(programs), before)
    requires Feasible(Run(Init(programs), before), acts)
    ensures |acts| <= Measure(Run(Init(programs), before)) + 5 * Spurious(acts)
  {
    InvInit(programs);
    InvRun(Init(programs), before);
    var s := Run(Init(programs), before);
    RunLength(s, acts);
    InvRun(s, acts);
    TotalWorkNonNegative(Run(s, acts).threads);
  }

  /** After a termination request every run is bounded, and it cannot end before `run` has returned. */
  lemma TerminationIsHonoured(programs: seq<seq<Op>>, before: seq<Action>, acts: seq<Action>)
    requires Feasible(Init(programs), before)
    requires Feasible(Run(Init(programs), before), acts)
    requires Run(Init(programs), before).shared.done
    ensures |acts| <= Measure(Run(Init(programs), before)) + 5
    ensures var s := Run(Run(Init(programs), before), acts); Quiescent(s) ==> s.runner.Stopped?
  {
    RunsAreFinite(programs, before, acts);
    var s := Run(Init(programs), before);
    InvInit(programs);
    InvRun(Init(programs), before);
    FewSpuriousOnceDone(s, acts);
    InvRun(s, acts);
    StaysDone(s, acts);
    if Quiescent(Run(s, acts)) {
      QuiescentMeansDrained(Run(s, acts));
    }
  }

  lemma {:induction false} StaysDone(s: State, acts: seq<Action>)
    requires Feasible(s, acts) && s.shared.done
    ensures Run(s, acts).shared.done
    decreases |acts|
  {
    if acts != [] {
      StaysDone(Do(s, acts[0]), acts[1..]);
    }
  }

  // ---------------------------------------------------------------- what the programs ask for

  /** The tasks that `ops` post, in order. */
  function Posts(ops: seq<Op>): seq<Task> {
    if ops == [] then [] else (if ops[0].Post? then [ops[0].task] else []) + Posts(ops[1..])
  }

  /** How often `ops` ask the worker to stop. */
  function Stops(ops: seq<Op>): nat {
    if ops == [] then 0 else (if ops[0].Stop? then 1 else 0) + Stops(ops[1..])
  }

  /** The operations of a thread that have still to take effect: a post does when its task is queued. */
  function Owed(t: Thread): seq<Op> {
    if t.ops != [] && (t.pc.PostPushed? || t.pc.PostNotify? || t.pc.StopNotify? || t.pc.StopUnlock?) then t.ops[1..]
    else t.ops
  }

  /** What thread `i` has pushed. */
  function PushedBy(pushed: seq<Task>, posters: seq<nat>, i: nat): seq<Task>
    requires |pushed| == |posters|
  {
    if pushed == [] then []
    else
      var last := |pushed| - 1;
      PushedBy(pushed[..last], posters[..last], i) + if posters[last] == i then [pushed[last]] else []
  }

  lemma PushedBySnoc(pushed: seq<Task>, posters: seq<nat>, task: Task, poster: nat, i: nat)
    requires |pushed| == |posters|
    ensures PushedBy(pushed + [task], posters + [poster], i)
         == PushedBy(pushed, posters, i) + if poster == i then [task] else []
  {
    assert (pushed + [task])[..|pushed|] == pushed && (posters + [poster])[..|pushed|] == posters;
  }

  /** Thread `i` has pushed, in order, the posts of its program but for those that it still owes. */
  ghost predicate PostsInOrder(s: State, programs: seq<seq<Op>>, i: nat)
    requires i < |s.threads| == |programs| && |s.pushed| == |s.posters|
  {
    PushedBy(s.pushed, s.posters, i) + Posts(Owed(s.threads[i])) == Posts(programs[i])
  }

  /** Thread `i` has got past some request to stop. */
  predicate HasStopped(s: State, programs: seq<seq<Op>>, i: nat)
    requires i < |s.threads| == |programs|
  {
    Stops(Owed(s.threads[i])) < Stops(programs[i])
  }

  /** The threads do what their programs say. */
  ghost predicate Faithful(s: State, programs: seq<seq<Op>>) {
    && |s.threads| == |programs| && |s.pushed| == |s.posters|
    && (forall k :: 0 <= k < |s.posters| ==> s.posters[k] < |programs|)
    && (forall i :: 0 <= i < |programs| ==> PostsInOrder(s, programs, i))
    && (forall i :: 0 <= i < |programs| ==> Stops(Owed(s.threads[i])) <= Stops(programs[i]))
    && (s.shared.done <==> exists i :: 0 <= i < |programs| && HasStopped(s, programs, i))
  }

  /** What a step of thread `i` does to what it owes. */
  lemma StepOwed(s: State, i: nat)
    requires Inv(s) && Enabled(s, Step(i)) && |s.pushed| == |s.posters|
    ensures var s', op, t := DoThread(s, i), s.threads[i].ops[0], s.threads[i];
      && s'.threads == s.threads[i := s'.threads[i]]
      && (t.pc.PostLocked? ==> op.Post? && Owed(t) == [op] + Owed(s'.threads[i]) && s'.shared.done == s.shared.done)
      && (t.pc.StopLocked? ==> op.Stop? && Owed(t) == [op] + Owed(s'.threads[i]) && s'.shared.done)
      && (!t.pc.PostLocked? && !t.pc.StopLocked? ==>
            Owed(t) == Owed(s'.threads[i]) && s'.shared.done == s.shared.done)
      && s'.pushed == s.pushed + (if t.pc.PostLocked? then [op.task] else [])
      && s'.posters == s.posters + (if t.pc.PostLocked? then [i] else [])
  {
    assert PcFits(s.threads[i]);
  }

  /** `op` moves from what is owed to what has been pushed. */
  lemma PostsMove(pushed: seq<Task>, op: Op, rest: seq<Op>)
    ensures op.Post? ==> pushed + Posts([op] + rest) == pushed + [op.task] + Posts(rest)
    ensures op.Stop? ==> Posts([op] + rest) == Posts(rest)
  {
    var all := [op] + rest;
    assert all[1..] == rest && all[0] == op;
    if op.Post? {
      assert pushed + ([op.task] + Posts(rest)) == pushed + [op.task] + Posts(rest);
    } else {
      assert [] + Posts(rest) == Posts(rest);
    }
  }

  lemma OthersKeepOrder(s: State, programs: seq<seq<Op>>, i: nat, j: nat)
    requires Inv(s) && Faithful(s, programs) && Enabled(s, Step(i)) && j < |programs|
    requires i != j || !s.threads[i].pc.PostLocked?
    ensures var s' := DoThread(s, i);
      |s'.threads| == |programs| && |s'.pushed| == |s'.posters| && PostsInOrder(s', programs, j)
  {
    var s', op := DoThread(s, i), s.threads[i].ops[0];
    StepOwed(s, i);
    assert PostsInOrder(s, programs, j);
    if s.threads[i].pc.PostLocked? {
      PushedBySnoc(s.pushed, s.posters, op.task, i, j);
      assert PushedBy(s.pushed, s.posters, j) + [] == PushedBy(s.pushed, s.posters, j);
    } else if i == j && s.threads[i].pc.StopLocked? {
      PostsMove([], op, Owed(s'.threads[i]));
    }
  }

  lemma ThreadPostsInOrder(s: State, programs: seq<seq<Op>>, i: nat, j: nat)
    requires Inv(s) && Faithful(s, programs) && Enabled(s, Step(i)) && j < |programs|
    ensures var s' := DoThread(s, i);
      |s'.threads| == |programs| && |s'.pushed| == |s'.posters| && PostsInOrder(s', programs, j)
  {
    if i != j || !s.threads[i].pc.PostLocked? {
      OthersKeepOrder(s, programs, i, j);
    } else {
      var s', op := DoThread(s, i), s.threads[i].ops[0];
      StepOwed(s, i);
      assert PostsInOrder(s, programs, i);
      PostsMove(PushedBy(s.pushed, s.posters, i), op, Owed(s'.threads[i]));
      PushedBySnoc(s.pushed, s.posters, op.task, i, i);
    }
  }

  lemma ThreadStops(s: State, programs: seq<seq<Op>>, i: nat)
    requires Inv(s) && Faithful(s, programs) && Enabled(s, Step(i))
    ensures var s' := DoThread(s, i);
      && |s'.threads| == |programs|
      && (forall j :: 0 <= j < |programs| ==> Stops(Owed(s'.threads[j])) <= Stops(programs[j]))
      && (s'.shared.done <==> exists j :: 0 <= j < |programs| && HasStopped(s', programs, j))
  {
    var s', t := DoThread(s, i), s.threads[i];
    StepOwed(s, i);
    if t.pc.PostLocked? || t.pc.StopLocked? {
      assert Owed(t)[1..] == Owed(s'.threads[i]);
    }
    forall j | 0 <= j < |programs| && HasStopped(s, programs, j) ensures HasStopped(s', programs, j) {
    }
    if t.pc.StopLocked? {
      assert HasStopped(s', programs, i);
    } else {
      forall j | 0 <= j < |programs| && HasStopped(s', programs, j) ensures HasStopped(s, programs, j) {
      }
    }
  }

  lemma FaithfulStep(s: State, programs: seq<seq<Op>>, a: Action)
    requires Inv(s) && Faithful(s, programs) && Enabled(s, a)
    ensures Faithful(Do(s, a), programs)
  {
    var s' := Do(s, a);
    if a.Step? {
      StepOwed(s, a.i);
      ThreadStops(s, programs, a.i);
      forall j | 0 <= j < |programs| ensures PostsInOrder(s', programs, j) {
        ThreadPostsInOrder(s, programs, a.i, j);
      }
    } else {
      assert s'.threads == s.threads && s'.shared.done == s.shared.done;
      assert forall j :: 0 <= j < |programs| ==> PostsInOrder(s, programs, j) ==> PostsInOrder(s', programs, j);
      assert forall j :: 0 <= j < |programs| ==> HasStopped(s, programs, j) == HasStopped(s', programs, j);
    }
  }

  lemma {:induction false} FaithfulRun(s: State, programs: seq<seq<Op>>, acts: seq<Action>)
    requires Inv(s) && Faithful(s, programs) && Feasible(s, acts)
    ensures Faithful(Run(s, acts), programs)
    decreases |acts|
  {
    if acts != [] {
      InvStep(s, acts[0]);
      FaithfulStep(s, programs, acts[0]);
      FaithfulRun(Do(s, acts[0]), programs, acts[1..]);
    }
  }

  /** In every reachable state each thread has pushed the posts of its program in order, but for those that it still
      owes, and stopping has been requested if and only if some thread has got past a request. */
  lemma ProgramsAreHonoured(programs: seq<seq<Op>>, acts: seq<Action>)
    requires Feasible(Init(programs), acts)
    ensures Faithful(Run(Init(programs), acts), programs)
  {
    var s := Init(programs);
    InvInit(programs);
    forall i | 0 <= i < |programs| ensures PostsInOrder(s, programs, i) {
      assert [] + Posts(programs[i]) == Posts(programs[i]);
    }
    FaithfulRun(s, programs, acts);
  }

  /** In every reachable state the executed tasks, the one in flight and the queue are the tasks posted so far, in lock
      order, which for each thread is the order of its program. */
  lemma FirstInFirstOut(programs: seq<seq<Op>>, acts: seq<Action>)
    requires Feasible(Init(programs), acts)
    ensures var s := Run(Init(programs), acts);
      && s.executed + InFlight(s.runner) + s.shared.tasks == s.pushed
      && |s.threads| == |programs| && |s.pushed| == |s.posters|
      && forall i :: 0 <= i < |programs| ==> PostsInOrder(s, programs, i)
  {
    InvInit(programs);
    InvRun(Init(programs), acts);
    ProgramsAreHonoured(programs, acts);
  }

  // ---------------------------------------------------------------- at rest

  function Joined(lists: seq<seq<Task>>, n: nat): seq<Task>
    requires n <= |lists|
  {
    if n == 0 then [] else Joined(lists, n - 1) + lists[n - 1]
  }

  /** What threads with these programs post, one thread after another. */
  function AllPosts(programs: seq<seq<Op>>): seq<Task> {
    Joined(PostsOfEach(programs), |programs|)
  }

  function PostsOfEach(programs: seq<seq<Op>>): seq<seq<Task>> {
    seq(|programs|, i requires 0 <= i < |programs| => Posts(programs[i]))
  }

  /** How often `task` is in the first `n` of these. */
  function Sum(lists: seq<seq<Task>>, n: nat, task: Task): nat
    requires n <= |lists|
  {
    if n == 0 then 0 else Sum(lists, n - 1, task) + multiset(lists[n - 1])[task]
  }

  lemma CountsAdd(a: seq<Task>, b: seq<Task>, task: Task)
    ensures multiset(a + b)[task] == multiset(a)[task] + multiset(b)[task]
  {
  }

  lemma {:induction false} SumOfJoined(lists: seq<seq<Task>>, n: nat, task: Task)
    requires n <= |lists|
    ensures Sum(lists, n, task) == multiset(Joined(lists, n))[task]
  {
    if n > 0 {
      SumOfJoined(lists, n - 1, task);
      CountsAdd(Joined(lists, n - 1), lists[n - 1], task);
    }
  }

  lemma {:induction false} SumNone(lists: seq<seq<Task>>, n: nat, task: Task)
    requires n <= |lists| && forall i :: 0 <= i < n ==> lists[i] == []
    ensures Sum(lists, n, task) == 0
  {
    if n > 0 {
      SumNone(lists, n - 1, task);
    }
  }

  /** Only list number `k` has more, by `extra`. */
  lemma {:induction false} SumGrows(
      lists: seq<seq<Task>>, longer: seq<seq<Task>>, n: nat, k: nat, extra: nat, task: Task)
    requires n <= |lists| && n <= |longer|
    requires forall i :: 0 <= i < n ==>
      multiset(longer[i])[task] == multiset(lists[i])[task] + if i == k then extra else 0
    ensures Sum(longer, n, task) == Sum(lists, n, task) + if k < n then extra else 0
  {
    if n > 0 {
      SumGrows(lists, longer, n - 1, k, extra, task);
    }
  }

  function PushedByEach(pushed: seq<Task>, posters: seq<nat>, n: nat): seq<seq<Task>>
    requires |pushed| == |posters|
  {
    seq(n, i requires 0 <= i < n => PushedBy(pushed, posters, i))
  }

  lemma OneMore(pushed: seq<Task>, posters: seq<nat>, last: Task, poster: nat, i: nat, task: Task)
    requires |pushed| == |posters|
    ensures multiset(PushedBy(pushed + [last], posters + [poster], i))[task]
         == multiset(PushedBy(pushed, posters, i))[task] + if poster == i && last == task then 1 else 0
  {
    PushedBySnoc(pushed, posters, last, poster, i);
    assert PushedBy(pushed, posters, i) + [] == PushedBy(pushed, posters, i);
  }

  lemma SplitLast(tasks: seq<Task>, task: Task)
    requires tasks != []
    ensures var last := |tasks| - 1;
      && tasks == tasks[..last] + [tasks[last]]
      && multiset(tasks)[task] == multiset(tasks[..last])[task] + if tasks[last] == task then 1 else 0
  {
    var last := |tasks| - 1;
    assert tasks == tasks[..last] + [tasks[last]];
  }

  /** What has been pushed has been pushed by one of the threads. */
  lemma {:induction false} SumOfPushed(pushed: seq<Task>, posters: seq<nat>, n: nat, task: Task)
    requires |pushed| == |posters| && forall k :: 0 <= k < |posters| ==> posters[k] < n
    ensures Sum(PushedByEach(pushed, posters, n), n, task) == multiset(pushed)[task]
    decreases |pushed|
  {
    var each := PushedByEach(pushed, posters, n);
    if pushed == [] {
      SumNone(each, n, task);
    } else {
      var last := |pushed| - 1;
      var before := PushedByEach(pushed[..last], posters[..last], n);
      SumOfPushed(pushed[..last], posters[..last], n, task);
      SplitLast(pushed, task);
      assert posters == posters[..last] + [posters[last]];
      var extra := if pushed[last] == task then 1 else 0;
      forall i | 0 <= i < n
        ensures multiset(each[i])[task] == multiset(before[i])[task] + if i == posters[last] then extra else 0
      {
        OneMore(pushed[..last], posters[..last], pushed[last], posters[last], i, task);
      }
      SumGrows(before, each, n, posters[last], extra, task);
    }
  }

  lemma NothingOwed(s: State, programs: seq<seq<Op>>, i: nat)
    requires Faithful(s, programs) && i < |programs| && s.threads[i].ops == []
    ensures PushedBy(s.pushed, s.posters, i) == Posts(programs[i])
  {
    assert PostsInOrder(s, programs, i);
    var mine := PushedBy(s.pushed, s.posters, i);
    assert mine + [] == mine;
  }

  lemma SameCounts(a: seq<Task>, b: seq<Task>)
    requires forall task: Task :: multiset(a)[task] == multiset(b)[task]
    ensures multiset(a) == multiset(b)
  {
    assert multiset(a) - multiset(b) == multiset{} by {
      if task :| task in multiset(a) - multiset(b) {
        assert false;
      }
    }
    assert multiset(b) - multiset(a) == multiset{} by {
      if task :| task in multiset(b) - multiset(a) {
        assert false;
      }
    }
  }

  lemma PushedIsAllPosts(s: State, programs: seq<seq<Op>>)
    requires Faithful(s, programs) && forall i :: 0 <= i < |s.threads| ==> s.threads[i].ops == []
    ensures multiset(s.pushed) == multiset(AllPosts(programs))
  {
    forall i | 0 <= i < |programs| ensures PushedBy(s.pushed, s.posters, i) == Posts(programs[i]) {
      NothingOwed(s, programs, i);
    }
    assert PushedByEach(s.pushed, s.posters, |programs|) == PostsOfEach(programs);
    forall task: Task ensures multiset(s.pushed)[task] == multiset(AllPosts(programs))[task] {
      SumOfPushed(s.pushed, s.posters, |programs|, task);
      SumOfJoined(PostsOfEach(programs), |programs|, task);
    }
    SameCounts(s.pushed, AllPosts(programs));
  }

  /** When the system is at rest every task of every program has been pushed. If no program asks the worker to stop, it
      sleeps and all of them have been executed; if some program does, it has stopped. */
  lemma NothingForgotten(programs: seq<seq<Op>>, acts: seq<Action>)
    requires Feasible(Init(programs), acts) && Quiescent(Run(Init(programs), acts))
    ensures var s := Run(Init(programs), acts);
      && multiset(s.pushed) == multiset(AllPosts(programs)) && s.executed <= s.pushed
      && (s.runner.Stopped? <==> exists i :: 0 <= i < |programs| && Stops(programs[i]) > 0)
      && (!s.runner.Stopped? ==> s.runner.Asleep? && multiset(s.executed) == multiset(AllPosts(programs)))
  {
    InvInit(programs);
    InvRun(Init(programs), acts);
    var s := Run(Init(programs), acts);
    ProgramsAreHonoured(programs, acts);
    QuiescentMeansDrained(s);
    PushedIsAllPosts(s, programs);
    assert forall i :: 0 <= i < |programs| ==> (HasStopped(s, programs, i) <==> Stops(programs[i]) > 0);
  }

  // ---------------------------------------------------------------- schedules on the object

  /** A worker with the threads that use it, each at its own point. */
  class System {
    const worker: Worker
    var threads: seq<Thread>
    var runner: Runner
    var owner: Owner
    var executed: seq<Task>
    ghost var posters: seq<nat>

    constructor (programs: seq<seq<Op>>)
      ensures fresh(worker) && Valid() && View() == Init(programs)
    {
      worker := new Worker();
      threads := seq(|programs|, i requires 0 <= i < |programs| => Thread(Idle, programs[i]));
      runner, owner, executed, posters := Looping, Nobody, [], [];
    }

    ghost function View(): State
      reads this, worker
    {
      State(threads, runner, owner, worker.View(), worker.pushed, posters, executed)
    }

    /** What has been taken out of the queue has been executed, but for the task in flight. */
    ghost predicate Valid()
      reads this, worker
    {
      worker.Valid() && worker.taken == executed + InFlight(runner) && (runner.Holding? ==> Ready(worker.View()))
    }

    method NotifyOne()
      modifies this`runner
      ensures runner == Notify(old(runner))
    {
      if runner.Asleep? {
        runner := Woken;
      }
    }

    method StepThread(i: nat)
      requires Valid() && Enabled(View(), Step(i))
      modifies this`threads, this`runner, this`owner, this`posters, worker`tasks, worker`pushed, worker`done
      ensures Valid() && View() == DoThread(old(View()), i)
    {
      var op, ops := threads[i].ops[0], threads[i].ops;
      match threads[i].pc
      case Idle =>
        owner := ThreadNo(i);
        threads := threads[i := Thread(if op.Post? then PostLocked else StopLocked, ops)];
      case PostLocked =>
        if op.Post? {
          worker.Emplace(op.task);
          posters := posters + [i];
          threads := threads[i := Thread(PostPushed, ops)];
        }
      case PostPushed =>
        owner := Nobody;
        threads := threads[i := Thread(PostNotify, ops)];
      case PostNotify =>
        NotifyOne();
        threads := threads[i := Thread(Idle, ops[1..])];
      case StopLocked =>
        var notify := worker.Terminate();
        threads := threads[i := Thread(if notify then StopNotify else StopUnlock, ops)];
      case StopNotify =>
        NotifyOne();
        threads := threads[i := Thread(StopUnlock, ops)];
      case StopUnlock =>
        owner := Nobody;
        threads := threads[i := Thread(Idle, ops[1..])];
    }

    method StepRunner()
      requires Valid() && Enabled(View(), RunnerStep)
      modifies this`runner, this`owner, this`executed, worker`tasks, worker`taken, worker`terminated
      ensures Valid() && View() == DoRunner(old(View()))
    {
      match runner
      case Looping => runner, owner := Testing, TheRunner;
      case Woken => runner, owner := Testing, TheRunner;
      case Testing =>
        if worker.done || worker.tasks != [] {
          runner := Holding;
        } else {
          runner, owner := Asleep, Nobody;
        }
      case Holding =>
        var found := worker.TakeNext();
        runner, owner := if found.Exit? then Leaving else Running(found.task), Nobody;
      case Running(task) =>
        executed := executed + [task];
        runner := Looping;
      case Leaving =>
        worker.MarkTerminated();
        runner := Stopped;
      case _ =>
    }
  }

  /** Runs a schedule on a worker object. What comes out is what the state machine says, so it has all the properties
      above; in particular the tasks taken out of the queue are the oldest pushed ones, in order. */
  method RunSchedule(programs: seq<seq<Op>>, acts: seq<Action>) returns (sys: System)
    requires Feasible(Init(programs), acts)
    ensures fresh(sys) && sys.Valid() && sys.View() == Run(Init(programs), acts) && Inv(sys.View())
    ensures Faithful(sys.View(), programs) && sys.executed + InFlight(sys.runner) <= sys.worker.pushed
    ensures sys.runner.Stopped? ==> sys.worker.terminated && sys.worker.done
  {
    sys := new System(programs);
    ghost var rest := acts;
    for k := 0 to |acts|
      invariant fresh(sys) && fresh(sys.worker) && sys.Valid()
      invariant rest == acts[k..] && Feasible(sys.View(), rest) && Run(sys.View(), rest) == Run(Init(programs), acts)
    {
      assert rest[0] == acts[k] && rest[1..] == acts[k + 1..];
      match acts[k] {
        case Step(i) => sys.StepThread(i);
        case RunnerStep => sys.StepRunner();
        case SpuriousWake => sys.runner := Woken;
      }
      rest := rest[1..];
    }
    InvInit(programs);
    InvRun(Init(programs), acts);
    ProgramsAreHonoured(programs, acts);
  }
}
