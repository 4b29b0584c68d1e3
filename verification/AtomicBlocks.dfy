/** Subtransaction scopes as atomic blocks: those that the stack of subtransactions implements, and those one means. */
module AtomicBlocks {
  import opened Subtransactions

  /** What a program added to an enclosing block that it then ended explicitly, and whether that was kept. */
  datatype Part = Part(writes: seq<Write>, commit: bool)

  /** What a program does to the blocks around it, with no stack in sight: the enclosing blocks it ends, innermost
      first, and the writes after the last of them. */
  datatype Effect = Effect(ended: seq<Part>, writes: seq<Write>)

  function After(writes: seq<Write>, e: Effect): Effect {
    if e.ended == [] then Effect([], writes + e.writes)
    else Effect([Part(writes + e.ended[0].writes, e.ended[0].commit)] + e.ended[1..], e.writes)
  }

  function Sequence(e: Effect, f: Effect): Effect {
    var g := After(e.writes, f);
    Effect(e.ended + g.ended, g.writes)
  }

  /** The end of a block ends the innermost one still open. */
  function Ending(commits: bool): Effect {
    Effect([Part([], commits)], [])
  }

  /** Inside a block, the first that is ended is that block: the one around it gets all of its writes or none. */
  function Inside(e: Effect): Effect {
    if e.ended == [] then e
    else After(if e.ended[0].commit then e.ended[0].writes else [], Effect(e.ended[1..], e.writes))
  }

  /** What any program does: every scope begins a block and ends one, unless its guard has been finished by then; which
      guard asks does not matter. */
  function Blocks(p: Prog): Effect {
    if Compound(p) then if RunsSecond(p) then Sequence(Blocks(p.first), Blocks(p.second)) else Blocks(p.first)
    else
      match p
      case Do(w) => Effect([], [w])
      case Finish(_, commit) => Ending(commit)
      case Scope(shouldCommit, body) =>
        Inside(if Finishes(body, 0) then Blocks(body) else Sequence(Blocks(body), Ending(shouldCommit && !Threw(body))))
      case _ => Effect([], [])
  }

  /** All of a block's writes or none, decided by the explicit finish if there is one, else by how it is left. */
  function Atomic(commits: bool, e: Effect): Effect {
    if e.ended == [] then Effect([], if commits then e.writes else []) else Inside(e)
  }

  /** What a program means: each scope is a block of its own, which ends by itself or by a finish inside. */
  function Meaning(p: Prog): Effect {
    if Compound(p) then if RunsSecond(p) then Sequence(Meaning(p.first), Meaning(p.second)) else Meaning(p.first)
    else
      match p
      case Do(w) => Effect([], [w])
      case Finish(_, commit) => Effect([Part([], commit)], [])
      case Scope(shouldCommit, body) => Atomic(shouldCommit && !Threw(body), Meaning(body))
      case _ => Effect([], [])
  }

  /** A scope whose body finishes nothing explicitly is all or nothing: everything inside survives iff no exception
      leaves it and the commit flag is set, whatever was committed further in. */
  lemma {:induction false} ScopeIsAtomic(shouldCommit: bool, body: Prog)
    requires Disciplined(body, [true]) && !Finishes(body, 0)
    ensures Meaning(Scope(shouldCommit, body))
         == Effect([], if shouldCommit && !Threw(body) then Meaning(body).writes else [])
  {
    EndsInnermost(body, [true]);
    assert Open(body, [true])[0];
  }

  /** `open` with the `n` innermost open guards finished. */
  function CloseFirst(open: seq<bool>, n: nat): seq<bool> {
    if open == [] then []
    else if open[0] && n > 0 then [false] + CloseFirst(open[1..], n - 1)
    else [open[0]] + CloseFirst(open[1..], n)
  }

  lemma {:induction false} CloseNone(open: seq<bool>)
    ensures CloseFirst(open, 0) == open
  {
    if open != [] {
      CloseNone(open[1..]);
    }
  }

  lemma {:induction false} CloseTwice(open: seq<bool>, m: nat, n: nat)
    ensures CloseFirst(CloseFirst(open, m), n) == CloseFirst(open, m + n)
  {
    if open != [] {
      CloseTwice(open[1..], if open[0] && m > 0 then m - 1 else m, if open[0] && m == 0 && n > 0 then n - 1 else n);
    }
  }

  lemma {:induction false} CloseInnermost(open: seq<bool>, k: nat)
    requires InnermostOpen(open, k)
    ensures CloseFirst(open, 1) == open[k := false]
  {
    if k == 0 {
      CloseNone(open[1..]);
    } else {
      assert !open[0];
      CloseInnermost(open[1..], k - 1);
    }
  }

  lemma OpenOfParts(p: Prog, open: seq<bool>)
    requires Compound(p) || p.Scope?
    ensures Compound(p) ==>
      Open(p, open) == if RunsSecond(p) then Open(p.second, Open(p.first, open)) else Open(p.first, open)
    ensures p.Scope? ==> Open(p, open) == Open(p.body, [true] + open)[1..]
  {
  }

  /** A disciplined program ends enclosing blocks from the innermost one out. */
  lemma {:induction false} EndsInnermost(p: Prog, open: seq<bool>)
    requires Disciplined(p, open)
    ensures Open(p, open) == CloseFirst(open, |Meaning(p).ended|)
    decreases p
  {
    if Compound(p) {
      OpenOfParts(p, open);
      EndsInnermost(p.first, open);
      if RunsSecond(p) {
        EndsInnermost(p.second, Open(p.first, open));
        CloseTwice(open, |Meaning(p.first).ended|, |Meaning(p.second).ended|);
      }
    } else if p.Scope? {
      OpenOfParts(p, open);
      EndsInnermost(p.body, [true] + open);
      assert ([true] + open)[1..] == open;
    } else if p.Finish? {
      CloseInnermost(open, p.k);
      assert Open(p, open) == open[p.k := false];
    } else {
      CloseNone(open);
      assert Open(p, open) == open;
    }
  }

  /** The stack and the visible writes once the blocks have been ended. */
  function Settle(levels: seq<Level>, writes: seq<Write>, ended: seq<Part>): (seq<Level>, seq<Write>)
    requires |ended| <= |levels|
    decreases |ended|
  {
    if ended == [] then (levels, writes)
    else Settle(levels[1..], if ended[0].commit then writes + ended[0].writes else levels[0].saved, ended[1..])
  }

  lemma {:induction false} SettleLength(levels: seq<Level>, writes: seq<Write>, ended: seq<Part>)
    requires |ended| <= |levels|
    ensures |Settle(levels, writes, ended).0| == |levels| - |ended|
    decreases |ended|
  {
    if ended != [] {
      SettleLength(levels[1..], if ended[0].commit then writes + ended[0].writes else levels[0].saved, ended[1..]);
    }
  }

  lemma {:induction false} SettleTwice(levels: seq<Level>, writes: seq<Write>, a: seq<Part>, b: seq<Part>)
    requires |a| + |b| <= |levels|
    ensures |Settle(levels, writes, a).0| == |levels| - |a|
    ensures Settle(levels, writes, a + b) == Settle(Settle(levels, writes, a).0, Settle(levels, writes, a).1, b)
    decreases |a|
  {
    SettleLength(levels, writes, a);
    if a == [] {
      assert a + b == b;
    } else {
      assert (a + b)[1..] == a[1..] + b;
      SettleTwice(levels[1..], if a[0].commit then writes + a[0].writes else levels[0].saved, a[1..], b);
    }
  }

  /** From the stack and writes of `s` to those of `t` by `e`. */
  predicate Follows(levels: seq<Level>, writes: seq<Write>, t: Store, e: Effect) {
    |e.ended| <= |levels| &&
    var (rest, settled) := Settle(levels, writes, e.ended);
    t.levels == rest && t.writes == settled + e.writes
  }

  lemma FollowsAfter(levels: seq<Level>, writes: seq<Write>, more: seq<Write>, t: Store, e: Effect)
    requires Follows(levels, writes + more, t, e)
    ensures Follows(levels, writes, t, After(more, e))
  {
    if e.ended == [] {
      assert writes + more + e.writes == writes + (more + e.writes);
    } else {
      assert After(more, e).ended[1..] == e.ended[1..];
      assert writes + more + e.ended[0].writes == writes + (more + e.ended[0].writes);
    }
  }

  lemma FollowsSequence(levels: seq<Level>, writes: seq<Write>, t: Store, u: Store, e: Effect, f: Effect)
    requires Follows(levels, writes, t, e) && Follows(t.levels, t.writes, u, f)
    ensures Follows(levels, writes, u, Sequence(e, f))
  {
    var (rest, settled) := Settle(levels, writes, e.ended);
    FollowsAfter(rest, settled, e.writes, u, f);
    SettleLength(levels, writes, e.ended);
    SettleTwice(levels, writes, e.ended, After(e.writes, f).ended);
  }

  /** From the state just after a block's beginning to `u`, by what ends that block, to the state around the block. */
  lemma FollowsInside(s: Store, owners: nat -> int, u: Store, e: Effect)
    requires Follows(Begin(s, owners).levels, s.writes, u, e) && e.ended != []
    ensures Follows(s.levels, s.writes, u, Inside(e))
  {
    var b := Begin(s, owners);
    assert b.levels[1..] == s.levels && b.levels[0].saved == s.writes;
    var kept := if e.ended[0].commit then e.ended[0].writes else [];
    assert s.writes + kept == if e.ended[0].commit then s.writes + e.ended[0].writes else s.writes;
    FollowsAfter(s.levels, s.writes, kept, u, Effect(e.ended[1..], e.writes));
  }

  lemma FollowsEnd(u: Store, k: nat, commit: bool)
    requires u.levels != [] && k < |u.guards|
    ensures Follows(u.levels, u.writes, EndBy(u, k, commit), Ending(commit))
  {
    assert Settle(u.levels, u.writes, [Part([], commit)])
      == Settle(u.levels[1..], if commit then u.writes + [] else u.levels[0].saved, []);
  }

  lemma {:induction false} FewerOpenIds(a: seq<Guard>, b: seq<Guard>)
    requires |a| == |b| && forall i :: 0 <= i < |a| ==> a[i].finished ==> b[i].finished
    ensures |OpenIds(b)| <= |OpenIds(a)|
  {
    if a != [] {
      FewerOpenIds(a[1..], b[1..]);
    }
  }

  /** A body that finishes the guard of its scope has ended at least one block. */
  lemma FinishedMeansEnded(p: Prog, b: Store, u: Store, e: Effect)
    requires Balanced(b) && b.guards != [] && !b.guards[0].finished && Keeps(p, b, u) && u.guards[0].finished
    requires Follows(b.levels, b.writes, u, e)
    ensures e.ended != []
  {
    SettleLength(b.levels, b.writes, e.ended);
    forall i | 0 <= i < |b.guards| && b.guards[i].finished ensures u.guards[i].finished {
      assert OpenOf(u.guards)[i] == Open(p, OpenOf(b.guards))[i];
    }
    FewerOpenIds(b.guards[1..], u.guards[1..]);
  }

  /** The stack machine does to the stack and the writes what the blocks say, for every program. */
  lemma {:induction false} RunIsBlocks(p: Prog, s: Store, owners: nat -> int)
    requires Balanced(s) && FinishesOnce(p, OpenOf(s.guards))
    ensures Follows(s.levels, s.writes, Run(p, s, owners), Blocks(p))
    decreases p
  {
    if Compound(p) {
      var t := Run(p.first, s, owners);
      RunIsBlocks(p.first, s, owners);
      if RunsSecond(p) {
        RunKeeps(p.first, s, owners);
        RunIsBlocks(p.second, t, owners);
        FollowsSequence(s.levels, s.writes, t, Run(p.second, t, owners), Blocks(p.first), Blocks(p.second));
      }
    } else if p.Scope? {
      ScopeIsBlock(p, s, owners);
    } else if p.Finish? {
      assert OpenOf(s.guards)[p.k];
      EndKeeps(s, p.k, p.commit);
      FollowsEnd(s, p.k, p.commit);
    }
  }

  lemma {:induction false} ScopeIsBlock(p: Prog, s: Store, owners: nat -> int)
    requires p.Scope? && Balanced(s) && FinishesOnce(p, OpenOf(s.guards))
    ensures Follows(s.levels, s.writes, Run(p, s, owners), Blocks(p))
    decreases p, 0
  {
    var b := Begin(s, owners);
    BeginKeeps(s, owners);
    RunIsBlocks(p.body, b, owners);
    RunKeeps(p.body, b, owners);
    var u, commits := Run(p.body, b, owners), p.shouldCommit && !Threw(p.body);
    var e := Blocks(p.body);
    KeepsScope(p, s, u, owners, commits);
    if u.guards[0].finished {
      FinishedMeansEnded(p.body, b, u, e);
      FollowsInside(s, owners, u, e);
    } else {
      FollowsEnd(u, 0, commits);
      var t := EndBy(u, 0, commits);
      FollowsSequence(b.levels, b.writes, u, t, e, Ending(commits));
      FollowsInside(s, owners, t, Sequence(e, Ending(commits)));
    }
  }

  /** Disciplined programs do what they mean. */
  lemma {:induction false} BlocksAreMeaning(p: Prog, open: seq<bool>)
    requires Disciplined(p, open)
    ensures Blocks(p) == Meaning(p)
    decreases p
  {
    if Compound(p) {
      BlocksAreMeaning(p.first, open);
      if RunsSecond(p) {
        BlocksAreMeaning(p.second, Open(p.first, open));
      }
    } else if p.Scope? {
      BlocksAreMeaning(p.body, [true] + open);
      EndsInnermost(p.body, [true] + open);
      assert Open(p.body, [true] + open)[0] == !Finishes(p.body, 0);
      var e, commits := Meaning(p.body), p.shouldCommit && !Threw(p.body);
      if e.ended == [] {
        assert e.writes + [] == e.writes;
        assert Sequence(e, Ending(commits)) == Effect([Part(e.writes, commits)], []);
      }
    }
  }

  /** Others need not: committing the outer guard in here is meant to keep the write. */
  lemma OuterCommitLosesWrite(w: Write)
    ensures var p := Scope(true, Then(Do(w), Scope(false, Finish(1, true))));
      Meaning(p).writes == [w] && Blocks(p).writes == []
  {
    var inner := Scope(false, Finish(1, true));
    assert !Threw(inner) && !Threw(Then(Do(w), inner)) && RunsSecond(Then(Do(w), inner));
    assert Meaning(inner) == Effect([], []);
    assert Meaning(Then(Do(w), inner)) == Effect([], [w]);
    assert Blocks(inner) == Inside(Sequence(Ending(true), Ending(false))) == Ending(false);
    assert Blocks(Then(Do(w), inner)) == Effect([Part([w], false)], []);
  }
}
