/** The RAII guard and the process state it works on, as objects. */
module SubtransactionGuard {
  import opened AtomicBlocks
  import opened Subtransactions

  /** The process-wide Postgres and C++ run-time state the guard works on. Nothing is assumed about which memory
      context and resource owner the transaction calls leave behind. */
  class Process {
    const owners: nat -> int
    var memoryContext: int
    var resourceOwner: int
    var levels: seq<Level>
    var writes: seq<Write>
    var begun: nat
    var uncaught: nat              // std::uncaught_exceptions()
    ghost var ends: seq<End>

    constructor (place: (int, int), owners: nat -> int)
      ensures ViewOf(this, []) == Fresh(place) && uncaught == 0 && this.owners == owners
    {
      this.owners := owners;
      memoryContext, resourceOwner, levels, writes, begun, uncaught, ends := place.0, place.1, [], [], 0, 0, [];
    }

    method BeginInternalSubTransaction()
      modifies this`memoryContext, this`resourceOwner, this`levels, this`begun
      ensures levels == [Level(old(begun), writes)] + old(levels) && begun == old(begun) + 1
      ensures resourceOwner == owners(old(begun))
    {
      levels := [Level(begun, writes)] + levels;
      memoryContext, resourceOwner, begun := *, owners(begun), begun + 1;
    }

    /** Ends the innermost subtransaction; `guard` is whose guard asked. */
    method ReleaseCurrentSubTransaction(ghost guard: nat)
      requires levels != []
      modifies this`memoryContext, this`resourceOwner, this`levels, this`ends
      ensures levels == old(levels[1..]) && ends == old(ends) + [End(guard, old(levels[0].id), true)]
    {
      ends := ends + [End(guard, levels[0].id, true)];
      levels, memoryContext, resourceOwner := levels[1..], *, *;
    }

    method RollbackAndReleaseCurrentSubTransaction(ghost guard: nat)
      requires levels != []
      modifies this`memoryContext, this`resourceOwner, this`levels, this`writes, this`ends
      ensures levels == old(levels[1..]) && ends == old(ends) + [End(guard, old(levels[0].id), false)]
      ensures writes == old(levels[0].saved)
    {
      ends := ends + [End(guard, levels[0].id, false)];
      levels, writes, memoryContext, resourceOwner := levels[1..], levels[0].saved, *, *;
    }
  }

  class InternalSubtransaction {
    const context: int
    const owner: int
    const shouldCommit: bool
    const uncaught: nat
    ghost const id: nat
    var finished: bool

    constructor (pg: Process, commit: bool, ghost gs: seq<InternalSubtransaction>)
      modifies pg`memoryContext, pg`resourceOwner, pg`levels, pg`begun
      ensures ViewOf(pg, [this] + gs) == Begin(old(ViewOf(pg, gs)), pg.owners)
      ensures shouldCommit == commit && uncaught == pg.uncaught
    {
      context, owner := pg.memoryContext, pg.resourceOwner;
      shouldCommit, uncaught, finished := commit, pg.uncaught, false;
      id := pg.begun;
      new;
      pg.BeginInternalSubTransaction();
      pg.memoryContext := context;
      assert GuardsOf([this] + gs) == [GuardOf(this)] + GuardsOf(gs);
    }

    method Restore(pg: Process)
      modifies pg`memoryContext, pg`resourceOwner
      ensures pg.memoryContext == context && pg.resourceOwner == owner
    {
      pg.memoryContext := context;
      pg.resourceOwner := owner;
    }

    method Commit(pg: Process, ghost gs: seq<InternalSubtransaction>, ghost k: nat)
      requires pg.levels != [] && Distinct(gs) && k < |gs| && gs[k] == this
      modifies pg`memoryContext, pg`resourceOwner, pg`levels, pg`ends, this`finished
      ensures ViewOf(pg, gs) == EndBy(old(ViewOf(pg, gs)), k, true)
    {
      pg.ReleaseCurrentSubTransaction(id);
      Restore(pg);
      finished := true;
      assert GuardsOf(gs) == old(GuardsOf(gs))[k := GuardOf(this)];
    }

    method Rollback(pg: Process, ghost gs: seq<InternalSubtransaction>, ghost k: nat)
      requires pg.levels != [] && Distinct(gs) && k < |gs| && gs[k] == this
      modifies pg`memoryContext, pg`resourceOwner, pg`levels, pg`writes, pg`ends, this`finished
      ensures ViewOf(pg, gs) == EndBy(old(ViewOf(pg, gs)), k, false)
    {
      pg.RollbackAndReleaseCurrentSubTransaction(id);
      Restore(pg);
      finished := true;
      assert GuardsOf(gs) == old(GuardsOf(gs))[k := GuardOf(this)];
    }

    /** Ends a subtransaction if no explicit call on this guard has; rolls back when more exceptions are in flight
        than there were at construction, or when asked to. */
    method Destroy(pg: Process, ghost gs: seq<InternalSubtransaction>)
      requires (!finished ==> pg.levels != []) && gs != [] && gs[0] == this
      modifies pg`memoryContext, pg`resourceOwner, pg`levels, pg`writes, pg`ends
      ensures ViewOf(pg, gs[1..]) == Leave(old(ViewOf(pg, gs)), !(pg.uncaught > uncaught) && shouldCommit)
    {
      assert GuardsOf(gs[1..]) == GuardsOf(gs)[1..];
      if finished {
        return;
      }
      if pg.uncaught > uncaught || !shouldCommit {
        pg.RollbackAndReleaseCurrentSubTransaction(id);
      } else {
        pg.ReleaseCurrentSubTransaction(id);
      }
      Restore(pg);
    }
  }

  predicate Distinct(gs: seq<InternalSubtransaction>) {
    forall i, j :: 0 <= i < j < |gs| ==> gs[i] != gs[j]
  }

  ghost function GuardOf(g: InternalSubtransaction): Guard
    reads g
  {
    Guard(g.id, (g.context, g.owner), g.finished)
  }

  ghost function GuardsOf(gs: seq<InternalSubtransaction>): seq<Guard>
    reads gs
  {
    seq(|gs|, i requires 0 <= i < |gs| reads gs => GuardOf(gs[i]))
  }

  /** The machine state that the objects represent; `gs` are the guards in scope, innermost first. */
  ghost function ViewOf(pg: Process, gs: seq<InternalSubtransaction>): Store
    reads pg, gs
  {
    Store(pg.levels, pg.writes, (pg.memoryContext, pg.resourceOwner), pg.begun, pg.ends, GuardsOf(gs))
  }

  /** Runs `p` the way C++ does, with destructors and exception counts; an exception that leaves `p` is in flight
      afterwards. */
  method Exec(pg: Process, gs: seq<InternalSubtransaction>, p: Prog) returns (threw: bool)
    requires Distinct(gs) && Balanced(ViewOf(pg, gs)) && FinishesOnce(p, OpenOf(GuardsOf(gs)))
    modifies pg, gs
    ensures ViewOf(pg, gs) == Run(p, old(ViewOf(pg, gs)), pg.owners)
    ensures threw == Threw(p) && pg.uncaught == old(pg.uncaught) + if threw then 1 else 0
    decreases p, 1
  {
    RunKeeps(p, ViewOf(pg, gs), pg.owners);
    if Compound(p) {
      threw := ExecCompound(pg, gs, p);
    } else if p.Scope? {
      threw := ExecScope(pg, gs, p);
    } else {
      threw := ExecSimple(pg, gs, p);
    }
  }

  method ExecCompound(pg: Process, gs: seq<InternalSubtransaction>, p: Prog) returns (threw: bool)
    requires Compound(p)
    requires Distinct(gs) && Balanced(ViewOf(pg, gs)) && FinishesOnce(p, OpenOf(GuardsOf(gs)))
    modifies pg, gs
    ensures ViewOf(pg, gs) == Run(p, old(ViewOf(pg, gs)), pg.owners)
    ensures threw == Threw(p) && pg.uncaught == old(pg.uncaught) + if threw then 1 else 0
    decreases p, 0
  {
    RunKeeps(p.first, ViewOf(pg, gs), pg.owners);
    threw := Exec(pg, gs, p.first);
    match p
    case Then(_, second) =>
      if !threw {
        threw := Exec(pg, gs, second);
      }
    case Try(_, handler) =>
      if threw {
        pg.uncaught := pg.uncaught - 1;
        threw := Exec(pg, gs, handler);
      }
    case Cleanup(_, destructor) =>
      var escaped := Exec(pg, gs, destructor);
      if escaped {
        pg.uncaught := pg.uncaught - 1;
      }
  }

  method ExecSimple(pg: Process, gs: seq<InternalSubtransaction>, p: Prog) returns (threw: bool)
    requires !Compound(p) && !p.Scope?
    requires Distinct(gs) && Balanced(ViewOf(pg, gs)) && FinishesOnce(p, OpenOf(GuardsOf(gs)))
    modifies pg, gs
    ensures ViewOf(pg, gs) == Run(p, old(ViewOf(pg, gs)), pg.owners)
    ensures threw == Threw(p) && pg.uncaught == old(pg.uncaught) + if threw then 1 else 0
    decreases p, 0
  {
    threw := false;
    if p.Do? {
      pg.writes := pg.writes + [p.write];
    } else if p.Switch? {
      pg.memoryContext, pg.resourceOwner := p.context, p.owner;
    } else if p.Throw? {
      pg.uncaught := pg.uncaught + 1;
      threw := true;
    } else if p.Finish? {
      assert OpenOf(GuardsOf(gs))[p.k] && !GuardsOf(gs)[p.k].finished;
      EndKeeps(ViewOf(pg, gs), p.k, p.commit);
      if p.commit {
        gs[p.k].Commit(pg, gs, p.k);
      } else {
        gs[p.k].Rollback(pg, gs, p.k);
      }
    }
  }

  method ExecScope(pg: Process, gs: seq<InternalSubtransaction>, p: Prog) returns (threw: bool)
    requires p.Scope?
    requires Distinct(gs) && Balanced(ViewOf(pg, gs)) && FinishesOnce(p, OpenOf(GuardsOf(gs)))
    modifies pg, gs
    ensures ViewOf(pg, gs) == Run(p, old(ViewOf(pg, gs)), pg.owners)
    ensures threw == Threw(p) && pg.uncaught == old(pg.uncaught) + if threw then 1 else 0
    ensures !Finishes(p.body, 0) || LastSetter(p.body) == AFinish(0) ==>
      pg.memoryContext == old(pg.memoryContext) && pg.resourceOwner == old(pg.resourceOwner)
    decreases p, 0
  {
    ghost var s := ViewOf(pg, gs);
    BeginKeeps(s, pg.owners);
    LastSetterDecides(p, s, pg.owners);
    var sub := new InternalSubtransaction(pg, p.shouldCommit, gs);
    ghost var b := ViewOf(pg, [sub] + gs);
    RunKeeps(p.body, b, pg.owners);
    threw := Exec(pg, [sub] + gs, p.body);
    ghost var u := ViewOf(pg, [sub] + gs);
    KeepsScope(p, s, u, pg.owners, p.shouldCommit && !Threw(p.body));
    assert u.guards[0] == GuardOf(sub) && ([sub] + gs)[1..] == gs;
    sub.Destroy(pg, [sub] + gs);
  }

  /** A whole program in a fresh session: every subtransaction it began has ended exactly once, by the decisions it
      makes; the surviving writes are those of its blocks; and each guard has ended its own subtransaction exactly when
      the program is disciplined, in which case the blocks are the ones it means. */
  method RunSession(p: Prog, place: (int, int), owners: nat -> int) returns (pg: Process, threw: bool)
    requires FinishesOnce(p, [])
    ensures fresh(pg) && pg.levels == [] && threw == Threw(p)
    ensures forall id: nat :: multiset(EndedIds(pg.ends))[id] == if id < pg.begun then 1 else 0
    ensures Commits(pg.ends) == Decisions(p)
    ensures OwnEnds(pg.ends, 0) <==> Disciplined(p, [])
    ensures pg.writes == Blocks(p).writes && (Disciplined(p, []) ==> pg.writes == Meaning(p).writes)
  {
    pg := new Process(place, owners);
    ghost var s := Fresh(place);
    EachEndsOnce(p, place, owners);
    assert OpenOf(s.guards) == [];
    OwnEndsExactlyWhen(p, s, owners);
    RunIsBlocks(p, s, owners);
    assert Follows([], [], Run(p, s, owners), Blocks(p));
    if Disciplined(p, []) {
      BlocksAreMeaning(p, []);
    }
    threw := Exec(pg, [], p);
  }
}
