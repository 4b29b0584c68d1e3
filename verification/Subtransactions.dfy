/** Programs of nested subtransaction scopes, throws, catches and destructors that may finish any enclosing guard
    explicitly, and what running them does to Postgres' stack of subtransactions. */
module Subtransactions {
  type Write(==, !new)

  /** C++ code around `internal_subtransaction`. `Finish(k, ..)` is an explicit `commit()` or `rollback()` on the guard
      of the `k`-th enclosing `Scope`, the innermost one being number 0. `Cleanup` is a local object whose destructor
      runs `second`, during unwinding too, and lets nothing escape. `Switch` changes the current memory context and
      resource owner. */
  datatype Prog =
    | Skip
    | Do(write: Write)
    | Switch(context: int, owner: int)
    | Throw
    | Then(first: Prog, second: Prog)
    | Try(first: Prog, second: Prog)
    | Cleanup(first: Prog, second: Prog)
    | Scope(shouldCommit: bool, body: Prog)
    | Finish(k: nat, commit: bool)

  predicate Compound(p: Prog) {
    p.Then? || p.Try? || p.Cleanup?
  }

  predicate Threw(p: Prog) {
    match p
    case Throw => true
    case Then(a, b) => Threw(a) || Threw(b)
    case Try(a, b) => Threw(a) && Threw(b)
    case Cleanup(a, _) => Threw(a)
    case Scope(_, body) => Threw(body)
    case _ => false
  }

  /** The second part of a compound program runs. */
  predicate RunsSecond(p: Prog)
    requires Compound(p)
  {
    match p
    case Then(a, _) => !Threw(a)
    case Try(a, _) => Threw(a)
    case Cleanup(_, _) => true
  }

  /** A run of `p` finishes the `k`-th enclosing guard explicitly. */
  predicate Finishes(p: Prog, k: nat)
    decreases p
  {
    if Compound(p) then Finishes(p.first, k) || (RunsSecond(p) && Finishes(p.second, k))
    else
      match p
      case Finish(j, _) => j == k
      case Scope(_, body) => Finishes(body, k + 1)
      case _ => false
  }

  /** Which of the enclosing guards are unfinished after `p`, given which are before. */
  function Open(p: Prog, open: seq<bool>): seq<bool> {
    seq(|open|, k requires 0 <= k < |open| => open[k] && !Finishes(p, k))
  }

  /** Only enclosing guards are finished explicitly, each at most once. */
  predicate FinishesOnce(p: Prog, open: seq<bool>)
    decreases p
  {
    if Compound(p) then FinishesOnce(p.first, open) && (RunsSecond(p) ==> FinishesOnce(p.second, Open(p.first, open)))
    else
      match p
      case Finish(k, _) => k < |open| && open[k]
      case Scope(_, body) => FinishesOnce(body, [true] + open)
      case _ => true
  }

  predicate InnermostOpen(open: seq<bool>, k: nat) {
    k < |open| && open[k] && forall j :: 0 <= j < k ==> !open[j]
  }

  /** Every explicit finish names the guard of the innermost subtransaction that is still open. */
  predicate Disciplined(p: Prog, open: seq<bool>)
    decreases p
  {
    if Compound(p) then Disciplined(p.first, open) && (RunsSecond(p) ==> Disciplined(p.second, Open(p.first, open)))
    else
      match p
      case Finish(k, _) => InnermostOpen(open, k)
      case Scope(_, body) => Disciplined(body, [true] + open)
      case _ => true
  }

  /** What the guards decide, in the order in which they do: the explicit calls, and for a guard that is left to its
      destructor, to commit exactly when its flag is set and no exception leaves the scope. */
  function Decisions(p: Prog): seq<bool> {
    if Compound(p) then Decisions(p.first) + if RunsSecond(p) then Decisions(p.second) else []
    else
      match p
      case Finish(_, commit) => [commit]
      case Scope(shouldCommit, body) =>
        Decisions(body) + if Finishes(body, 0) then [] else [shouldCommit && !Threw(body)]
      case _ => []
  }

  // ---------------------------------------------------------------- the machine

  /** An open subtransaction and the writes that were visible when it began. */
  datatype Level = Level(id: nat, saved: seq<Write>)

  /** A guard, with the subtransaction it began and the memory context and resource owner it restores. */
  datatype Guard = Guard(id: nat, home: (int, int), finished: bool)

  /** The guard of subtransaction `guard` ended subtransaction `level`. */
  datatype End = End(guard: nat, level: nat, commit: bool)

  /** Open subtransactions and enclosing guards are listed innermost first. */
  datatype Store = Store(
    levels: seq<Level>, writes: seq<Write>, place: (int, int), begun: nat, ends: seq<End>, guards: seq<Guard>)

  /** `owners` is the resource owner that Postgres makes current for each subtransaction. */
  function Begin(s: Store, owners: nat -> int): Store {
    s.(levels := [Level(s.begun, s.writes)] + s.levels,
       guards := [Guard(s.begun, s.place, false)] + s.guards,
       place := (s.place.0, owners(s.begun)),
       begun := s.begun + 1)
  }

  /** Postgres ends the innermost subtransaction, whichever guard asks; the guard restores its own memory context and
      resource owner. */
  function EndBy(s: Store, k: nat, commit: bool): Store {
    if k >= |s.guards| || s.levels == [] then s
    else
      var g, l := s.guards[k], s.levels[0];
      s.(levels := s.levels[1..],
         writes := if commit then s.writes else l.saved,
         place := g.home,
         ends := s.ends + [End(g.id, l.id, commit)],
         guards := s.guards[k := g.(finished := true)])
  }

  /** The guard's destructor, at the end of its scope. */
  function Leave(s: Store, commit: bool): Store {
    if s.guards == [] then s
    else
      var t := if s.guards[0].finished then s else EndBy(s, 0, commit);
      t.(guards := t.guards[1..])
  }

  function Run(p: Prog, s: Store, owners: nat -> int): Store
    decreases p
  {
    if Compound(p) then
      var t := Run(p.first, s, owners);
      if RunsSecond(p) then Run(p.second, t, owners) else t
    else
      match p
      case Do(w) => s.(writes := s.writes + [w])
      case Switch(context, owner) => s.(place := (context, owner))
      case Scope(shouldCommit, body) => Leave(Run(body, Begin(s, owners), owners), shouldCommit && !Threw(body))
      case Finish(k, commit) => EndBy(s, k, commit)
      case _ => s
  }

  // ---------------------------------------------------------------- what single programs do

  /** What comes after a throw is not run, unless it catches it or is a destructor; which lets the exception go on. */
  lemma ControlFlow(w: Write, v: Write, q: Prog, s: Store, owners: nat -> int)
    ensures Run(Then(Do(w), Do(v)), s, owners).writes == s.writes + [w] + [v]
    ensures Run(Then(Throw, q), s, owners) == s && Threw(Then(Throw, q))
    ensures Run(Try(Do(w), q), s, owners).writes == s.writes + [w] && !Threw(Try(Do(w), q))
    ensures var p := Try(Then(Do(w), Throw), Do(v));
      Run(p, s, owners).writes == s.writes + [w] + [v] && !Threw(p)
    ensures Threw(Try(Throw, Throw))
    ensures var p := Cleanup(Then(Do(w), Throw), Then(Do(v), Throw));
      Run(p, s, owners).writes == s.writes + [w] + [v] && Threw(p)
    ensures !Threw(Cleanup(Do(w), Throw))
  {
    var t := s.(writes := s.writes + [w]);
    assert !Threw(Do(w)) && Run(Do(w), s, owners) == t && Run(Do(v), t, owners).writes == t.writes + [v];
    assert Threw(Throw) && Run(Throw, t, owners) == t;
    assert Threw(Then(Do(w), Throw)) && Run(Then(Do(w), Throw), s, owners) == t;
    assert Run(Then(Do(v), Throw), t, owners).writes == t.writes + [v];
  }

  /** A scope whose guard is left to its destructor keeps the writes inside exactly when its flag is set and nothing is
      thrown; an exception goes on; the memory context and resource owner are those from before. */
  lemma ScopesKeep(shouldCommit: bool, w: Write, context: int, owner: int, s: Store, owners: nat -> int)
    ensures var t := Run(Scope(shouldCommit, Do(w)), s, owners);
      t.writes == (if shouldCommit then s.writes + [w] else s.writes) && t.place == s.place
    ensures var p := Scope(shouldCommit, Then(Do(w), Throw));
      Run(p, s, owners).writes == s.writes && Run(p, s, owners).place == s.place && Threw(p)
    ensures !Threw(Scope(shouldCommit, Do(w)))
    ensures Run(Scope(shouldCommit, Switch(context, owner)), s, owners).place == s.place
    ensures Run(Switch(context, owner), s, owners).place == (context, owner)
  {
    var b := Begin(s, owners);
    var t := b.(writes := b.writes + [w]);
    assert Run(Do(w), b, owners) == t && !Threw(Do(w));
    assert Threw(Throw) && Run(Throw, t, owners) == t;
    assert Run(Then(Do(w), Throw), b, owners) == t && Threw(Then(Do(w), Throw));
  }

  /** An explicit commit keeps them, whatever the flag, and a rollback takes them back; either restores the memory
      context and resource owner too. */
  lemma FinishesKeep(shouldCommit: bool, commit: bool, w: Write, context: int, owner: int, s: Store, owners: nat -> int)
    ensures Run(Scope(shouldCommit, Then(Do(w), Finish(0, commit))), s, owners).writes
         == if commit then s.writes + [w] else s.writes
    ensures Run(Scope(shouldCommit, Then(Switch(context, owner), Finish(0, commit))), s, owners).place == s.place
  {
    var b := Begin(s, owners);
    var t, u := b.(writes := b.writes + [w]), b.(place := (context, owner));
    assert Run(Then(Do(w), Finish(0, commit)), b, owners) == EndBy(t, 0, commit);
    assert Run(Then(Switch(context, owner), Finish(0, commit)), b, owners) == EndBy(u, 0, commit);
  }

  // ---------------------------------------------------------------- what every run keeps

  function OpenOf(guards: seq<Guard>): seq<bool> {
    seq(|guards|, i requires 0 <= i < |guards| => !guards[i].finished)
  }

  /** The subtransactions of the unfinished guards, innermost first. */
  function OpenIds(guards: seq<Guard>): seq<nat> {
    if guards == [] then []
    else (if guards[0].finished then [] else [guards[0].id]) + OpenIds(guards[1..])
  }

  /** There are as many open subtransactions as unfinished guards. */
  predicate Balanced(s: Store) {
    |s.levels| == |OpenIds(s.guards)|
  }

  /** The guards of `t` are those of `s`, apart from being finished or not. */
  predicate SameGuards(s: Store, t: Store) {
    |s.guards| == |t.guards| &&
    forall i :: 0 <= i < |s.guards| ==> t.guards[i].id == s.guards[i].id && t.guards[i].home == s.guards[i].home
  }

  lemma {:induction false} OpenIdsClose(guards: seq<Guard>, k: nat)
    requires k < |guards| && !guards[k].finished
    ensures |OpenIds(guards)| == |OpenIds(guards[k := guards[k].(finished := true)])| + 1
    ensures InnermostOpen(OpenOf(guards), k) ==>
      OpenIds(guards) == [guards[k].id] + OpenIds(guards[k := guards[k].(finished := true)])
  {
    var closed := guards[k := guards[k].(finished := true)];
    if k == 0 {
      assert closed[1..] == guards[1..];
    } else {
      assert closed[1..] == guards[1..][k - 1 := guards[k].(finished := true)];
      OpenIdsClose(guards[1..], k - 1);
      if InnermostOpen(OpenOf(guards), k) {
        assert !OpenOf(guards)[0];
        forall j | 0 <= j < k - 1 ensures !OpenOf(guards[1..])[j] {
          assert !OpenOf(guards)[j + 1];
        }
      }
    }
  }

  /** What a run does to the guards around it. */
  predicate Keeps(p: Prog, s: Store, t: Store) {
    && SameGuards(s, t) && OpenOf(t.guards) == Open(p, OpenOf(s.guards)) && Balanced(t)
    && s.ends <= t.ends && s.begun <= t.begun
  }

  lemma BeginKeeps(s: Store, owners: nat -> int)
    requires Balanced(s)
    ensures Balanced(Begin(s, owners)) && OpenOf(Begin(s, owners).guards) == [true] + OpenOf(s.guards)
  {
    assert Begin(s, owners).guards[1..] == s.guards;
  }

  lemma EndKeeps(s: Store, k: nat, commit: bool)
    requires Balanced(s) && k < |s.guards| && !s.guards[k].finished
    ensures s.levels != [] && Keeps(Finish(k, commit), s, EndBy(s, k, commit))
  {
    OpenIdsClose(s.guards, k);
  }

  lemma LeaveKeeps(s: Store, commit: bool)
    requires Balanced(s) && s.guards != []
    ensures var t := Leave(s, commit);
      && Balanced(t) && t.guards == s.guards[1..] && s.ends <= t.ends && s.begun == t.begun
      && (!s.guards[0].finished ==> s.levels != [])
  {
    if !s.guards[0].finished {
      EndKeeps(s, 0, commit);
    }
  }

  lemma KeepsSecond(p: Prog, s: Store, t: Store, u: Store)
    requires Compound(p) && RunsSecond(p) && Keeps(p.first, s, t) && Keeps(p.second, t, u)
    ensures Keeps(p, s, u)
  {
  }

  lemma KeepsScope(p: Prog, s: Store, u: Store, owners: nat -> int, commit: bool)
    requires p.Scope? && Balanced(s) && Keeps(p.body, Begin(s, owners), u)
    ensures Keeps(p, s, Leave(u, commit)) && (!u.guards[0].finished ==> u.levels != [])
    ensures u.guards[0].finished <==> Finishes(p.body, 0)
  {
    BeginKeeps(s, owners);
    LeaveKeeps(u, commit);
    assert OpenOf(u.guards)[0] == !u.guards[0].finished;
    assert OpenOf(u.guards[1..]) == OpenOf(u.guards)[1..];
  }

  lemma {:induction false} RunKeeps(p: Prog, s: Store, owners: nat -> int)
    requires Balanced(s) && FinishesOnce(p, OpenOf(s.guards))
    ensures Keeps(p, s, Run(p, s, owners))
    decreases p
  {
    if Compound(p) {
      RunKeeps(p.first, s, owners);
      if RunsSecond(p) {
        var t := Run(p.first, s, owners);
        RunKeeps(p.second, t, owners);
        KeepsSecond(p, s, t, Run(p.second, t, owners));
      }
    } else if p.Scope? {
      BeginKeeps(s, owners);
      RunKeeps(p.body, Begin(s, owners), owners);
      KeepsScope(p, s, Run(p.body, Begin(s, owners), owners), owners, p.shouldCommit && !Threw(p.body));
    } else if p.Finish? {
      assert OpenOf(s.guards)[p.k];
      EndKeeps(s, p.k, p.commit);
    }
  }

  /** Guards and subtransactions decide in the same order, whoever ends what. */
  function Commits(ends: seq<End>): seq<bool> {
    seq(|ends|, i requires 0 <= i < |ends| => ends[i].commit)
  }

  /** The decisions taken between `before` and `after`. */
  predicate Decided(before: seq<End>, after: seq<End>, decisions: seq<bool>) {
    Commits(after) == Commits(before) + decisions
  }

  lemma DecidedTwice(a: seq<End>, b: seq<End>, c: seq<End>, first: seq<bool>, second: seq<bool>)
    requires Decided(a, b, first) && Decided(b, c, second)
    ensures Decided(a, c, first + second)
  {
    assert Commits(a) + first + second == Commits(a) + (first + second);
  }

  lemma LeaveDecides(s: Store, commit: bool)
    requires Balanced(s) && s.guards != []
    ensures Decided(s.ends, Leave(s, commit).ends, if s.guards[0].finished then [] else [commit])
  {
    LeaveKeeps(s, commit);
  }

  lemma {:induction false} RunDecides(p: Prog, s: Store, owners: nat -> int)
    requires Balanced(s) && FinishesOnce(p, OpenOf(s.guards))
    ensures Decided(s.ends, Run(p, s, owners).ends, Decisions(p))
    decreases p
  {
    if Compound(p) {
      var t := Run(p.first, s, owners);
      RunDecides(p.first, s, owners);
      if RunsSecond(p) {
        RunKeeps(p.first, s, owners);
        RunDecides(p.second, t, owners);
        DecidedTwice(s.ends, t.ends, Run(p.second, t, owners).ends, Decisions(p.first), Decisions(p.second));
      } else {
        DecidedTwice(s.ends, t.ends, t.ends, Decisions(p.first), []);
      }
    } else if p.Scope? {
      var b, commit := Begin(s, owners), p.shouldCommit && !Threw(p.body);
      BeginKeeps(s, owners);
      RunDecides(p.body, b, owners);
      RunKeeps(p.body, b, owners);
      var u := Run(p.body, b, owners);
      KeepsScope(p, s, u, owners, commit);
      LeaveDecides(u, commit);
      DecidedTwice(s.ends, u.ends, Leave(u, commit).ends, Decisions(p.body),
                   if Finishes(p.body, 0) then [] else [commit]);
    } else if p.Finish? {
      assert OpenOf(s.guards)[p.k];
      EndKeeps(s, p.k, p.commit);
    }
  }

  // ---------------------------------------------------------------- each subtransaction ends once

  function LevelIds(levels: seq<Level>): seq<nat> {
    seq(|levels|, i requires 0 <= i < |levels| => levels[i].id)
  }

  function EndedIds(ends: seq<End>): seq<nat> {
    seq(|ends|, i requires 0 <= i < |ends| => ends[i].level)
  }

  /** Each of the first `begun` subtransactions is either open, once, or has ended, once. */
  ghost predicate Accounted(s: Store) {
    forall id: nat ::
      multiset(LevelIds(s.levels))[id] + multiset(EndedIds(s.ends))[id] == if id < s.begun then 1 else 0
  }

  lemma BeginAccounts(s: Store, owners: nat -> int)
    requires Accounted(s)
    ensures Accounted(Begin(s, owners))
  {
    assert LevelIds(Begin(s, owners).levels) == [s.begun] + LevelIds(s.levels);
  }

  lemma EndAccounts(s: Store, k: nat, commit: bool)
    requires Accounted(s)
    ensures Accounted(EndBy(s, k, commit))
  {
    var t := EndBy(s, k, commit);
    if k < |s.guards| && s.levels != [] {
      assert LevelIds(s.levels) == [s.levels[0].id] + LevelIds(t.levels);
      assert EndedIds(t.ends) == EndedIds(s.ends) + [s.levels[0].id];
    }
  }

  lemma {:induction false} RunAccounts(p: Prog, s: Store, owners: nat -> int)
    requires Accounted(s)
    ensures Accounted(Run(p, s, owners))
    decreases p
  {
    if Compound(p) {
      RunAccounts(p.first, s, owners);
      if RunsSecond(p) {
        RunAccounts(p.second, Run(p.first, s, owners), owners);
      }
    } else if p.Scope? {
      BeginAccounts(s, owners);
      RunAccounts(p.body, Begin(s, owners), owners);
      EndAccounts(Run(p.body, Begin(s, owners), owners), 0, p.shouldCommit && !Threw(p.body));
    } else if p.Finish? {
      EndAccounts(s, p.k, p.commit);
    }
  }

  /** The state of a fresh session. */
  function Fresh(place: (int, int)): Store {
    Store([], [], place, 0, [], [])
  }

  /** A whole program ends every subtransaction it began exactly once, whichever guards it finishes explicitly. */
  lemma EachEndsOnce(p: Prog, place: (int, int), owners: nat -> int)
    requires FinishesOnce(p, [])
    ensures var t := Run(p, Fresh(place), owners);
      && t.levels == []
      && (forall id: nat :: multiset(EndedIds(t.ends))[id] == if id < t.begun then 1 else 0)
      && Commits(t.ends) == Decisions(p)
  {
    assert OpenOf(Fresh(place).guards) == [];
    RunKeeps(p, Fresh(place), owners);
    assert Commits([]) == [] && LevelIds([]) == [] && EndedIds([]) == [];
    RunAccounts(p, Fresh(place), owners);
    RunDecides(p, Fresh(place), owners);
  }

  // ---------------------------------------------------------------- whose subtransaction a guard ends

  /** The open subtransactions are those of the unfinished guards, in order, and each has its own number. */
  predicate Aligned(s: Store) {
    && LevelIds(s.levels) == OpenIds(s.guards)
    && (forall i :: 0 <= i < |s.guards| ==> s.guards[i].id < s.begun)
    && (forall i, j :: 0 <= i < j < |s.guards| ==> s.guards[i].id != s.guards[j].id)
  }

  /** From `from` on, every guard has ended its own subtransaction. */
  predicate OwnEnds(ends: seq<End>, from: nat) {
    forall i :: from <= i < |ends| ==> ends[i].guard == ends[i].level
  }

  lemma BeginAligns(s: Store, owners: nat -> int)
    requires Aligned(s)
    ensures Aligned(Begin(s, owners))
  {
    var t := Begin(s, owners);
    assert t.guards[1..] == s.guards;
    assert LevelIds(t.levels) == [s.begun] + LevelIds(s.levels);
  }

  lemma {:induction false} FirstOpenId(guards: seq<Guard>, k: nat)
    requires InnermostOpen(OpenOf(guards), k)
    ensures OpenIds(guards) != [] && OpenIds(guards)[0] == guards[k].id
  {
    OpenIdsClose(guards, k);
  }

  lemma {:induction false} SomeInnermostOpen(guards: seq<Guard>) returns (k: nat)
    requires OpenIds(guards) != []
    ensures InnermostOpen(OpenOf(guards), k)
  {
    if guards[0].finished {
      var j := SomeInnermostOpen(guards[1..]);
      k := j + 1;
      forall i | 0 <= i < k ensures !OpenOf(guards)[i] {
        assert i > 0 ==> !OpenOf(guards[1..])[i - 1];
      }
      assert OpenOf(guards[1..])[j] == OpenOf(guards)[k];
    } else {
      k := 0;
    }
  }

  /** The subtransaction that is ended is the innermost open guard's. */
  lemma EndedLevel(s: Store, k: nat, j: nat, commit: bool)
    requires Aligned(s) && k < |s.guards| && InnermostOpen(OpenOf(s.guards), j)
    ensures s.levels != []
    ensures EndBy(s, k, commit).ends == s.ends + [End(s.guards[k].id, s.guards[j].id, commit)]
  {
    FirstOpenId(s.guards, j);
    assert LevelIds(s.levels)[0] == s.levels[0].id;
  }

  lemma LevelIdsTail(levels: seq<Level>, ids: seq<nat>, first: nat)
    requires levels != [] && LevelIds(levels) == [first] + ids
    ensures LevelIds(levels[1..]) == ids && levels[0].id == first
  {
    assert LevelIds(levels)[0] == first;
    forall i | 0 <= i < |ids| ensures LevelIds(levels[1..])[i] == ids[i] {
      assert LevelIds(levels)[i + 1] == ids[i];
    }
  }

  lemma OwnEndAligns(s: Store, k: nat, commit: bool)
    requires Aligned(s) && InnermostOpen(OpenOf(s.guards), k)
    ensures Aligned(EndBy(s, k, commit))
  {
    var closed := s.guards[k := s.guards[k].(finished := true)];
    OpenIdsClose(s.guards, k);
    LevelIdsTail(s.levels, OpenIds(closed), s.guards[k].id);
    assert EndBy(s, k, commit).guards == closed;
  }

  /** An explicit finish ends the guard's own subtransaction exactly when no inner one is open. */
  lemma EndIsOwn(s: Store, k: nat, commit: bool)
    requires Aligned(s) && k < |s.guards| && !s.guards[k].finished
    ensures OwnEnds(EndBy(s, k, commit).ends, |s.ends|) <==> InnermostOpen(OpenOf(s.guards), k)
    ensures InnermostOpen(OpenOf(s.guards), k) ==> Aligned(EndBy(s, k, commit))
  {
    OpenIdsClose(s.guards, k);
    var j := SomeInnermostOpen(s.guards);
    EndedLevel(s, k, j, commit);
    if InnermostOpen(OpenOf(s.guards), k) {
      OwnEndAligns(s, k, commit);
    } else {
      var end := EndBy(s, k, commit).ends[|s.ends|];
      assert end.guard != end.level;
    }
  }

  /** Every guard ends its own subtransaction exactly when the program is disciplined. */
  lemma {:induction false} OwnEndsExactlyWhen(p: Prog, s: Store, owners: nat -> int)
    requires Aligned(s) && Balanced(s) && FinishesOnce(p, OpenOf(s.guards))
    ensures OwnEnds(Run(p, s, owners).ends, |s.ends|) <==> Disciplined(p, OpenOf(s.guards))
    ensures Disciplined(p, OpenOf(s.guards)) ==> Aligned(Run(p, s, owners))
    decreases p
  {
    if Compound(p) {
      OwnEndsExactlyWhen(p.first, s, owners);
      RunKeeps(p.first, s, owners);
      if RunsSecond(p) {
        var t := Run(p.first, s, owners);
        RunKeeps(p.second, t, owners);
        OwnEndsSplit(s.ends, t.ends, Run(p.second, t, owners).ends);
        if Disciplined(p.first, OpenOf(s.guards)) {
          OwnEndsExactlyWhen(p.second, t, owners);
        }
      }
    } else if p.Scope? {
      OwnEndsOfScope(p, s, owners);
    } else if p.Finish? {
      assert OpenOf(s.guards)[p.k];
      EndIsOwn(s, p.k, p.commit);
    }
  }

  lemma OwnEndsSplit(a: seq<End>, b: seq<End>, c: seq<End>)
    requires a <= b <= c
    ensures OwnEnds(c, |a|) <==> OwnEnds(b, |a|) && OwnEnds(c, |b|)
  {
    assert forall i :: 0 <= i < |b| ==> c[i] == b[i];
  }

  lemma {:induction false} OwnEndsOfScope(p: Prog, s: Store, owners: nat -> int)
    requires p.Scope? && Aligned(s) && Balanced(s) && FinishesOnce(p, OpenOf(s.guards))
    ensures OwnEnds(Run(p, s, owners).ends, |s.ends|) <==> Disciplined(p, OpenOf(s.guards))
    ensures Disciplined(p, OpenOf(s.guards)) ==> Aligned(Run(p, s, owners))
    decreases p, 0
  {
    var b, commit := Begin(s, owners), p.shouldCommit && !Threw(p.body);
    BeginAligns(s, owners);
    BeginKeeps(s, owners);
    OwnEndsExactlyWhen(p.body, b, owners);
    RunKeeps(p.body, b, owners);
    var u := Run(p.body, b, owners);
    KeepsScope(p, s, u, owners, commit);
    OwnEndsSplit(s.ends, u.ends, Leave(u, commit).ends);
    if Disciplined(p.body, OpenOf(b.guards)) {
      LeaveAligns(u, commit);
    }
  }

  lemma LeaveAligns(u: Store, commit: bool)
    requires Aligned(u) && u.guards != []
    ensures Aligned(Leave(u, commit)) && OwnEnds(Leave(u, commit).ends, |u.ends|)
  {
    if !u.guards[0].finished {
      EndIsOwn(u, 0, commit);
      assert InnermostOpen(OpenOf(u.guards), 0);
    }
  }

  /** Finishing an outer guard while an inner subtransaction is open ends the inner one: here the outer scope's
      explicitly committed write is lost, although each guard is finished once. */
  lemma OuterCommitEndsInner(w: Write, place: (int, int), owners: nat -> int)
    ensures var p := Scope(true, Then(Do(w), Scope(false, Finish(1, true))));
      var t := Run(p, Fresh(place), owners);
      && FinishesOnce(p, []) && !Disciplined(p, [])
      && t.ends == [End(0, 1, true), End(1, 0, false)] && t.writes == []
  {
    var inner, start := Scope(false, Finish(1, true)), Begin(Fresh(place), owners);
    OuterCommitRuns(w, start, owners);
    assert Run(Then(Do(w), inner), start, owners) == Run(inner, start.(writes := [w]), owners);
    OuterFirst(w);
  }

  lemma OuterFirst(w: Write)
    ensures var p := Scope(true, Then(Do(w), Scope(false, Finish(1, true)))); FinishesOnce(p, []) && !Disciplined(p, [])
  {
    var before := [true] + [];
    var open := [true] + Open(Do(w), before);
    assert open[0] && open[1] && !InnermostOpen(open, 1);
    assert !Disciplined(Scope(false, Finish(1, true)), Open(Do(w), before));
  }

  lemma OuterCommitRuns(w: Write, start: Store, owners: nat -> int)
    requires start.guards != [] && !start.guards[0].finished && start.levels != []
    ensures var t := Run(Scope(false, Finish(1, true)), start.(writes := [w]), owners);
      && t.levels == start.levels[1..] && t.writes == start.levels[0].saved
      && t.guards == start.guards[0 := start.guards[0].(finished := true)]
      && t.ends
        == start.ends + [End(start.guards[0].id, start.begun, true), End(start.begun, start.levels[0].id, false)]
  {
    var inner := Begin(start.(writes := [w]), owners);
    var u := EndBy(inner, 1, true);
    assert Run(Scope(false, Finish(1, true)), start.(writes := [w]), owners) == Leave(u, false);
    assert u.levels == start.levels && u.guards[0] == inner.guards[0];
    assert u.guards[1..] == start.guards[0 := start.guards[0].(finished := true)];
  }

  // ---------------------------------------------------------------- the memory context and resource owner

  /** What sets the current memory context and resource owner last in a run, if anything does. `AnOwner` is the
      resource owner that Postgres makes current when a subtransaction begins. */
  datatype Setter = Nobody | ASwitch(context: int, owner: int) | AFinish(k: nat) | AnOwner

  /** A scope's destructor puts back what the scope found, unless its guard has been finished explicitly; then the
      last setter inside decides. */
  function LastSetter(p: Prog): Setter
    decreases p
  {
    if Compound(p) then
      if RunsSecond(p) && LastSetter(p.second) != Nobody then LastSetter(p.second) else LastSetter(p.first)
    else
      match p
      case Switch(context, owner) => ASwitch(context, owner)
      case Finish(k, _) => AFinish(k)
      case Scope(_, body) => if Finishes(body, 0) then Outside(LastSetter(body)) else Nobody
      case _ => Nobody
  }

  /** Seen from outside a scope: its own guard puts back what was there before. */
  function Outside(setter: Setter): Setter {
    match setter
    case Nobody => AnOwner
    case AFinish(k) => if k == 0 then Nobody else AFinish(k - 1)
    case _ => setter
  }

  /** From `s` to `t`, the memory context and resource owner have been set by `setter`. */
  ghost predicate SetBy(setter: Setter, s: Store, t: Store, owners: nat -> int) {
    match setter
    case Nobody => t.place == s.place
    case ASwitch(context, owner) => t.place == (context, owner)
    case AFinish(k) => k < |s.guards| && t.place == s.guards[k].home
    case AnOwner => exists id :: t.place.1 == owners(id)
  }

  lemma SetByScope(p: Prog, s: Store, u: Store, owners: nat -> int, commit: bool)
    requires p.Scope? && Balanced(s) && Keeps(p.body, Begin(s, owners), u)
    requires SetBy(LastSetter(p.body), Begin(s, owners), u, owners)
    ensures SetBy(LastSetter(p), s, Leave(u, commit), owners)
  {
    var b := Begin(s, owners);
    KeepsScope(p, s, u, owners, commit);
    assert b.guards[0].home == s.place && b.place.1 == owners(s.begun);
    if LastSetter(p.body).AFinish? && LastSetter(p.body).k > 0 {
      assert b.guards[LastSetter(p.body).k] == s.guards[LastSetter(p.body).k - 1];
    }
  }

  lemma {:induction false} LastSetterDecides(p: Prog, s: Store, owners: nat -> int)
    requires Balanced(s) && FinishesOnce(p, OpenOf(s.guards))
    ensures SetBy(LastSetter(p), s, Run(p, s, owners), owners)
    decreases p
  {
    if Compound(p) {
      LastSetterDecides(p.first, s, owners);
      if RunsSecond(p) {
        RunKeeps(p.first, s, owners);
        LastSetterDecides(p.second, Run(p.first, s, owners), owners);
      }
    } else if p.Scope? {
      var b := Begin(s, owners);
      BeginKeeps(s, owners);
      RunKeeps(p.body, b, owners);
      LastSetterDecides(p.body, b, owners);
      SetByScope(p, s, Run(p.body, b, owners), owners, p.shouldCommit && !Threw(p.body));
    } else if p.Finish? {
      assert OpenOf(s.guards)[p.k];
      EndKeeps(s, p.k, p.commit);
    }
  }

  /** `p` leaves the memory context and resource owner as it found them, whatever they were, and whatever the
      enclosing guards restore and Postgres makes current. */
  ghost predicate Restores(p: Prog, open: seq<bool>) {
    forall s: Store, owners: nat -> int ::
      Balanced(s) && OpenOf(s.guards) == open ==> Run(p, s, owners).place == s.place
  }

  /** Some state in which the guards are open or finished as given, and the place is none that `setter` could set. */
  function Elsewhere(open: seq<bool>, setter: Setter): (r: (Store, nat -> int))
    ensures Balanced(r.0) && OpenOf(r.0.guards) == open
    ensures setter != Nobody ==> forall t :: SetBy(setter, r.0, t, r.1) ==> t.place != r.0.place
  {
    var place := if setter.ASwitch? then (setter.context + 1, setter.owner) else (0, 0);
    var guards := seq(|open|, i requires 0 <= i < |open| => Guard(i, (1, 1), !open[i]));
    assert OpenOf(guards) == open;
    var s := Store(seq(|OpenIds(guards)|, i => Level(0, [])), [], place, 0, [], guards);
    (s, _ => 1)
  }

  /** The comment on the guard promises this on every path. It holds exactly for the programs in which no `Switch`,
      outer guard or Postgres call has the last word. */
  lemma RestoresExactlyWhen(p: Prog, open: seq<bool>)
    requires FinishesOnce(p, open)
    ensures Restores(p, open) <==> LastSetter(p) == Nobody
  {
    forall s: Store, owners: nat -> int | Balanced(s) && OpenOf(s.guards) == open
      ensures SetBy(LastSetter(p), s, Run(p, s, owners), owners)
    {
      LastSetterDecides(p, s, owners);
    }
    var (s, owners) := Elsewhere(open, LastSetter(p));
    assert SetBy(LastSetter(p), s, Run(p, s, owners), owners);
  }

  /** For a scope: exactly when its guard is left to its destructor, or nothing is set after the explicit finish. */
  lemma ScopeRestoresExactlyWhen(shouldCommit: bool, body: Prog, open: seq<bool>)
    requires FinishesOnce(Scope(shouldCommit, body), open)
    ensures Restores(Scope(shouldCommit, body), open) <==> !Finishes(body, 0) || LastSetter(body) == AFinish(0)
  {
    RestoresExactlyWhen(Scope(shouldCommit, body), open);
  }

  /** A body that finishes its guard explicitly and then changes them leaves them changed. */
  lemma PlaceOutlivesExplicitFinish(shouldCommit: bool, commit: bool, context: int, owner: int, s: Store,
                                    owners: nat -> int)
    ensures var p := Scope(shouldCommit, Then(Finish(0, commit), Switch(context, owner)));
      Run(p, s, owners).place == (context, owner)
  {
    var b := Begin(s, owners);
    assert Run(Then(Finish(0, commit), Switch(context, owner)), b, owners)
        == EndBy(b, 0, commit).(place := (context, owner));
  }
}
