/** Memory contexts, the C++ objects constructed in them, and who deletes which context. */
module Memory {
  import opened Common
  import opened ContextTree

  /** Postgres' side. */
  class Server {
    var callbacks: map<nat, seq<nat>>
    var parent: map<nat, nat>
    var nextContext: nat
    var nextObject: nat
    ghost var home: map<nat, nat>
    ghost var older: map<nat, seq<nat>>
    ghost var deleted: seq<nat>
    ghost var destroyed: seq<nat>

    ghost function View(): Tree
      reads this
    {
      Tree(callbacks, nextContext, nextObject, parent, home, older, deleted, destroyed)
    }

    ghost predicate Valid()
      reads this
    {
      Sound(View())
    }

    constructor ()
      ensures Valid() && View() == Initial()
    {
      callbacks, parent, nextContext, nextObject := map[0 := []], map[], 1, 0;
      home, older, deleted, destroyed := map[], map[], [], [];
      new;
      InitialSound();
    }

    /** `AllocSetContextCreate`. */
    method CreateContext(under: nat) returns (c: nat)
      requires Valid() && under in callbacks
      modifies this`callbacks, this`parent, this`nextContext
      ensures Valid() && View() == Create(old(View()), under) && c == old(nextContext)
    {
      CreateSound(View(), under);
      c := nextContext;
      nextContext := nextContext + 1;
      callbacks := callbacks[c := []];
      parent := parent[c := under];
    }

    /** `abstract_memory_context::construct`: the destructor is registered only once the object exists, so an object
        whose constructor throws is never destroyed. */
    method Construct(c: nat, constructorThrows: bool) returns (o: Option<nat>)
      requires Valid() && c in callbacks
      modifies this`callbacks, this`nextObject, this`home, this`older
      ensures Valid()
      ensures if constructorThrows then o == None && View() == old(View())
              else o == Some(old(nextObject)) && View() == ContextTree.Construct(old(View()), c)
      ensures callbacks == if o.None? then old(callbacks) else old(callbacks)[c := old(callbacks[c]) + [o.value]]
    {
      if constructorThrows {
        return None;
      }
      ConstructSound(View(), c);
      o := Some(nextObject);
      home, older := home[nextObject := c], older[nextObject := callbacks[c]];
      callbacks := callbacks[c := callbacks[c] + [nextObject]];
      nextObject := nextObject + 1;
    }

    /** Runs and discards a context's callbacks, last registered first. */
    method RunCallbacks(c: nat)
      requires c in callbacks
      modifies this`callbacks, this`destroyed
      ensures View() == RunAll(old(View()), c)
    {
      while callbacks[c] != []
        invariant c in callbacks && RunAll(View(), c) == RunAll(old(View()), c)
        decreases |callbacks[c]|
      {
        var cbs := callbacks[c];
        destroyed := destroyed + [cbs[|cbs| - 1]];
        callbacks := callbacks[c := cbs[..|cbs| - 1]];
      }
    }

    /** `MemoryContextDeleteChildren`: the latest child first, each with all that is below it. */
    method DeleteChildren(c: nat)
      modifies this`callbacks, this`deleted, this`destroyed
      ensures View() == ContextTree.DeleteChildren(old(View()), c, nextContext, nextContext)
      decreases nextContext - c, 0
    {
      var d: nat := nextContext;
      while d > c + 1
        invariant d <= nextContext
        invariant ContextTree.DeleteChildren(View(), c, d, nextContext)
               == ContextTree.DeleteChildren(old(View()), c, nextContext, nextContext)
      {
        d := d - 1;
        if d in callbacks && d in parent && parent[d] == c {
          DeleteTree(d);
        }
      }
    }

    method DeleteTree(c: nat)
      requires c < nextContext
      modifies this`callbacks, this`deleted, this`destroyed
      ensures View() == ContextTree.Delete(old(View()), c, nextContext)
      decreases nextContext - c, 1
    {
      DeleteChildren(c);
      if c in callbacks {
        RunCallbacks(c);
        callbacks := callbacks - {c};
        deleted := deleted + [c];
      }
    }

    /** `MemoryContextReset`. */
    method Reset(c: nat)
      requires Valid() && c in callbacks
      modifies this`callbacks, this`deleted, this`destroyed
      ensures Valid() && View() == ContextTree.Reset(old(View()), c)
      ensures callbacks == old(Without(View(), c))[c := []]
    {
      ResetSound(View(), c);
      DeleteChildren(c);
      if c in callbacks {
        RunCallbacks(c);
      }
    }

    /** `MemoryContextDelete`. */
    method Delete(c: nat)
      requires Valid() && c in callbacks && c != 0
      modifies this`callbacks, this`deleted, this`destroyed
      ensures Valid() && View() == ContextTree.Delete(old(View()), c, nextContext)
      ensures callbacks == old(Without(View(), c))
    {
      DeleteSound(View(), c, nextContext);
      DeleteTree(c);
    }
  }

  // ---------------------------------------------------------------- owners

  /** `owned_memory_context`. */
  class Owner {
    var context: nat
    var moved: bool

    constructor (context: nat, moved: bool)
      ensures this.context == context && this.moved == moved
    {
      this.context, this.moved := context, moved;
    }
  }

  /** All owned-context objects of a program, over one server. */
  class Program {
    const server: Server
    ghost var owners: set<Owner>
    ghost var ownerOf: map<nat, Owner>
    ghost var handedOver: set<nat>

    /** Each context but the top one has exactly one owner that has not been moved from, or was handed over. */
    ghost predicate Valid()
      reads this, server, owners
    {
      && server.Valid() && 0 in server.callbacks
      && (forall c :: c in ownerOf ==>
            ownerOf[c] in owners && !ownerOf[c].moved && ownerOf[c].context == c && c in server.callbacks && c != 0)
      && (forall o :: o in owners && !o.moved ==> o.context in ownerOf && ownerOf[o.context] == o)
      && (forall c :: c in server.callbacks && c != 0 ==> c in ownerOf || c in handedOver)
    }

    /** Parents outlive children: nothing that is owned is below `c`. */
    ghost predicate Childless(c: nat)
      reads this, server
    {
      forall d :: d in ownerOf && d != c ==> !Under(server.parent, c, d)
    }

    /** What the server comes to when `c` and everything below it goes. */
    ghost function Deleted(c: nat): Tree
      requires c < server.nextContext
      reads this, server
    {
      ContextTree.Delete(server.View(), c, server.nextContext)
    }

    constructor ()
      ensures Valid() && fresh(server) && server.View() == Initial() && owners == {} && handedOver == {}
    {
      server := new Server();
      owners, ownerOf, handedOver := {}, map[], {};
    }

    /** `alloc_set_memory_context()`, under the current context. */
    method Create(current: nat) returns (o: Owner)
      requires Valid() && current in server.callbacks
      modifies this`owners, this`ownerOf, server`callbacks, server`parent, server`nextContext
      ensures Valid() && fresh(o) && owners == old(owners) + {o} && !o.moved
      ensures o.context == old(server.nextContext) && server.View() == ContextTree.Create(old(server.View()), current)
      ensures server.callbacks == old(server.callbacks)[o.context := []]
      ensures forall c ::
        (Under(server.parent, c, o.context) <==> c == o.context || old(Under(server.parent, c, current)))
    {
      ghost var s := server.View();
      forall c ensures Under(ContextTree.Create(s, current).parent, c, s.nextContext)
          <==> c == s.nextContext || Under(s.parent, c, current)
      {
        CreatePlaces(s, current, c, s.nextContext);
      }
      var c := server.CreateContext(current);
      o := new Owner(c, false);
      owners, ownerOf := owners + {o}, ownerOf[c := o];
    }

    /** The move constructor: ownership, if `other` had it, passes on. */
    method MoveConstruct(other: Owner) returns (o: Owner)
      requires Valid() && other in owners
      modifies this`owners, this`ownerOf, other
      ensures Valid() && fresh(o) && owners == old(owners) + {o}
      ensures o.context == old(other.context) == other.context && o.moved == old(other.moved) && other.moved
    {
      o := new Owner(other.context, other.moved);
      if !other.moved {
        ownerOf := ownerOf[other.context := o];
      }
      other.moved := true;
      owners := owners + {o};
    }

    /** The move assignment: what the target owned is deleted first. */
    method MoveAssign(o: Owner, other: Owner)
      requires Valid() && o in owners && other in owners && (!o.moved ==> Childless(o.context))
      modifies this`ownerOf, o, other, server`callbacks, server`deleted, server`destroyed
      ensures Valid()
      ensures o != other ==>
        o.context == old(other.context) == other.context && o.moved == old(other.moved) && other.moved
      ensures o == other ==> o.moved == old(o.moved) && o.context == old(o.context)
      ensures server.View() == old(if o == other || o.moved then server.View() else Deleted(o.context))
    {
      if o != other {
        if !o.moved {
          DeleteOwned(o);
          o.moved := true;  // for the moment: it is overwritten next
        }
        TakeOver(o, other);
      }
    }

    /** An object that owns nothing takes over from another. */
    method TakeOver(o: Owner, other: Owner)
      requires Valid() && o in owners && other in owners && o != other && o.moved
      modifies this`ownerOf, o, other
      ensures Valid() && other.moved
      ensures o.context == old(other.context) == other.context && o.moved == old(other.moved)
    {
      o.context := other.context;
      o.moved := other.moved;
      if !other.moved {
        ownerOf := ownerOf[other.context := o];
      }
      other.moved := true;
    }

    /** `memory_context(owned_memory_context &&)`: the plain context lives on without an owner. */
    method HandOver(o: Owner) returns (c: nat)
      requires Valid() && o in owners
      modifies this`ownerOf, this`handedOver, o
      ensures Valid() && o.moved && c == o.context == old(o.context)
      ensures handedOver == old(handedOver) + if old(o.moved) then {} else {c}
    {
      c := o.context;
      if !o.moved {
        handedOver, ownerOf := handedOver + {c}, ownerOf - {c};
      }
      o.moved := true;
    }

    /** The destructor. */
    method Destroy(o: Owner)
      requires Valid() && o in owners && (!o.moved ==> Childless(o.context))
      modifies this`owners, this`ownerOf, server`callbacks, server`deleted, server`destroyed
      ensures Valid() && owners == old(owners) - {o}
      ensures server.View() == old(if o.moved then server.View() else Deleted(o.context))
    {
      if !o.moved {
        DeleteOwned(o);
      }
      owners := owners - {o};
    }

    /** `reset()` on a context, through any handle. */
    method Reset(c: nat)
      requires Valid() && c in server.callbacks && Childless(c)
      modifies server`callbacks, server`deleted, server`destroyed
      ensures Valid() && server.View() == ContextTree.Reset(old(server.View()), c)
    {
      server.Reset(c);
    }

    /** `delete_context()` through a plain handle, on a context that nothing owns. */
    method DeleteHandedOver(c: nat)
      requires Valid() && c in server.callbacks && c != 0 && c !in ownerOf && Childless(c)
      modifies server`callbacks, server`deleted, server`destroyed
      ensures Valid() && server.View() == old(Deleted(c)) && c in handedOver
    {
      server.Delete(c);
    }

    /** Deletes the context of `o`, which for the moment owns nothing although it has not been moved from. */
    method DeleteOwned(o: Owner)
      requires Valid() && o in owners && !o.moved && Childless(o.context)
      modifies this`ownerOf, server`callbacks, server`deleted, server`destroyed
      ensures server.Valid() && ownerOf == old(ownerOf) - {o.context}
      ensures server.View() == old(Deleted(o.context)) && o.context !in server.callbacks
      ensures forall c :: c in ownerOf ==> c in server.callbacks
      ensures forall c :: c in server.callbacks ==> c in old(server.callbacks)
      ensures 0 in server.callbacks
    {
      server.Delete(o.context);
      ownerOf := ownerOf - {o.context};
    }
  }

  // ---------------------------------------------------------------- runs

  datatype Op =
    | DoCreate(current: nat)
    | DoMoveConstruct(i: nat)
    | DoMoveAssign(i: nat, j: nat)
    | DoHandOver(i: nat)
    | DoDestroy(i: nat)
    | DoConstruct(c: nat, constructorThrows: bool)
    | DoReset(c: nat)
    | DoDelete(c: nat)

  /** Nothing that one of `os` owns is below `c`. */
  predicate NothingBelow(os: seq<Owner>, parent: map<nat, nat>, c: nat)
    reads os
  {
    forall o :: o in os && !o.moved && o.context != c ==> !Under(parent, c, o.context)
  }

  predicate Unowned(os: seq<Owner>, c: nat)
    reads os
  {
    forall o :: o in os && !o.moved ==> o.context != c
  }

  /** One moment of a run: the contexts, the owners in the order in which they were made, and what was handed over. */
  datatype Owning = Owning(context: nat, moved: bool)

  datatype Moment = Moment(tree: Tree, owners: seq<Owning>, handedOver: set<nat>)

  ghost function OwningsOf(os: seq<Owner>): seq<Owning>
    reads os
  {
    seq(|os|, i requires 0 <= i < |os| reads os => Owning(os[i].context, os[i].moved))
  }

  ghost function MomentOf(p: Program, os: seq<Owner>): Moment
    reads p, p.server, os
  {
    Moment(p.server.View(), OwningsOf(os), p.handedOver)
  }

  /** Deleting what the `i`-th owner owns, if anything, would leave no child behind. */
  predicate MayGo(m: Moment, c: nat) {
    forall o :: o in m.owners && !o.moved && o.context != c ==> !Under(m.tree.parent, c, o.context)
  }

  function Going(m: Moment, i: nat): Tree
    requires i < |m.owners|
  {
    var o := m.owners[i];
    if o.moved || o.context >= m.tree.nextContext then m.tree else Delete(m.tree, o.context, m.tree.nextContext)
  }

  predicate Known(m: Moment, i: nat) {
    i < |m.owners| && (m.owners[i].moved || MayGo(m, m.owners[i].context))
  }

  lemma SameGuards(p: Program, os: seq<Owner>, c: nat)
    ensures MayGo(MomentOf(p, os), c) <==> NothingBelow(os, p.server.parent, c)
    ensures (forall o :: o in OwningsOf(os) && !o.moved ==> o.context != c) <==> Unowned(os, c)
  {
    forall o | o in os ensures Owning(o.context, o.moved) in OwningsOf(os) {
      var i :| 0 <= i < |os| && os[i] == o;
      assert OwningsOf(os)[i] == Owning(o.context, o.moved);
    }
  }

  lemma GoingMeans(p: Program, os: seq<Owner>, i: nat)
    requires p.Valid() && i < |os| && os[i] in p.owners && (!os[i].moved ==> os[i].context < p.server.nextContext)
    ensures Going(MomentOf(p, os), i) == if os[i].moved then p.server.View() else p.Deleted(os[i].context)
  {
  }

  lemma OwningsWithout(os: seq<Owner>, i: nat)
    requires i < |os|
    ensures OwningsOf(os[..i] + os[i + 1..]) == OwningsOf(os)[..i] + OwningsOf(os)[i + 1..]
  {
  }

  lemma Passed(was: seq<Owning>, now: seq<Owning>, i: nat, j: nat)
    requires i < |was| == |now| && j < |was| && i != j
    requires forall k :: 0 <= k < |was| && k != i && k != j ==> now[k] == was[k]
    requires now[i] == was[j] && now[j] == Owning(was[j].context, true)
    ensures now == was[i := was[j]][j := was[j].(moved := true)]
  {
  }

  /** What an operation does. */
  function Apply(op: Op, m: Moment): Moment {
    match op
    case DoCreate(current) =>
      if current !in m.tree.callbacks then m
      else m.(tree := ContextTree.Create(m.tree, current), owners := m.owners + [Owning(m.tree.nextContext, false)])
    case DoMoveConstruct(i) =>
      if i >= |m.owners| then m
      else m.(owners := m.owners[i := m.owners[i].(moved := true)] + [m.owners[i]])
    case DoMoveAssign(i, j) =>
      if j >= |m.owners| || i == j || !Known(m, i) then m
      else m.(tree := Going(m, i), owners := m.owners[i := m.owners[j]][j := m.owners[j].(moved := true)])
    case DoHandOver(i) =>
      if i >= |m.owners| || m.owners[i].moved then m
      else m.(owners := m.owners[i := m.owners[i].(moved := true)], handedOver := m.handedOver + {m.owners[i].context})
    case DoDestroy(i) =>
      if !Known(m, i) then m else m.(tree := Going(m, i), owners := m.owners[..i] + m.owners[i + 1..])
    case DoConstruct(c, constructorThrows) =>
      if c !in m.tree.callbacks || constructorThrows then m else m.(tree := ContextTree.Construct(m.tree, c))
    case DoReset(c) =>
      if c in m.tree.callbacks && MayGo(m, c) then m.(tree := ContextTree.Reset(m.tree, c)) else m
    case DoDelete(c) =>
      if 0 < c < m.tree.nextContext && c in m.tree.callbacks && MayGo(m, c)
         && forall o :: o in m.owners && !o.moved ==> o.context != c
      then m.(tree := Delete(m.tree, c, m.tree.nextContext)) else m
  }

  function ApplyAll(ops: seq<Op>): Moment {
    if ops == [] then Moment(Initial(), [], {}) else Apply(ops[|ops| - 1], ApplyAll(ops[..|ops| - 1]))
  }

  /** What creating and moving do to who owns what: ownership is passed on, never copied. */
  lemma OwnersAfter(m: Moment, current: nat, i: nat, j: nat)
    requires current in m.tree.callbacks && i < |m.owners| && j < |m.owners| && i != j
    requires m.owners[i].moved || forall o :: o in m.owners && !o.moved && o.context != m.owners[i].context ==>
      !Under(m.tree.parent, m.owners[i].context, o.context)
    ensures Apply(DoCreate(current), m).owners == m.owners + [Owning(m.tree.nextContext, false)]
    ensures var t := Apply(DoMoveConstruct(i), m);
      && t.tree == m.tree && |t.owners| == |m.owners| + 1 && t.owners[|m.owners|] == m.owners[i]
      && t.owners[i] == Owning(m.owners[i].context, true)
      && forall k :: 0 <= k < |m.owners| && k != i ==> t.owners[k] == m.owners[k]
    ensures var t := Apply(DoMoveAssign(i, j), m);
      && |t.owners| == |m.owners| && t.owners[i] == m.owners[j] && t.owners[j] == Owning(m.owners[j].context, true)
      && forall k :: 0 <= k < |m.owners| && k != i && k != j ==> t.owners[k] == m.owners[k]
    ensures var t := Apply(DoHandOver(i), m);
      && t.tree == m.tree && |t.owners| == |m.owners| && t.owners[i] == Owning(m.owners[i].context, true)
      && (!m.owners[i].moved ==> t.handedOver == m.handedOver + {m.owners[i].context})
    ensures Apply(DoDestroy(i), m).owners == m.owners[..i] + m.owners[i + 1..]
  {
  }

  /** A new context is below where it was created, and whatever that is below. */
  lemma CreatedBelow(m: Moment, c: nat, d: nat)
    requires Sound(m.tree) && c in m.tree.callbacks
    ensures var t, n := Apply(DoCreate(c), m).tree, m.tree.nextContext;
      t.callbacks == m.tree.callbacks[n := []] && (Under(t.parent, d, n) <==> d == n || Under(m.tree.parent, d, c))
  {
    CreatePlaces(m.tree, c, d, m.tree.nextContext);
  }

  /** What destroying, assigning over and deleting do to the contexts: just what was owned goes, with all that is below
      it. */
  lemma ContextsAfter(m: Moment, i: nat, j: nat, c: nat)
    requires Sound(m.tree) && c in m.tree.callbacks && c != 0 && i < |m.owners| && j < |m.owners|
    requires forall o :: o in m.owners && !o.moved && o.context != c ==> !Under(m.tree.parent, c, o.context)
    ensures m.owners[i] == Owning(c, false) ==> Apply(DoDestroy(i), m).tree.callbacks == Without(m.tree, c)
    ensures m.owners[i] == Owning(c, false) && i != j ==>
      Apply(DoMoveAssign(i, j), m).tree.callbacks == Without(m.tree, c)
    ensures (forall o :: o in m.owners && !o.moved ==> o.context != c) ==>
      Apply(DoDelete(c), m).tree.callbacks == Without(m.tree, c)
  {
    DeleteSound(m.tree, c, m.tree.nextContext);
  }

  /** A reset leaves the context itself, without objects; an object is registered once it has been constructed. */
  lemma ObjectsAfter(m: Moment, c: nat)
    requires Sound(m.tree) && c in m.tree.callbacks
    requires forall o :: o in m.owners && !o.moved && o.context != c ==> !Under(m.tree.parent, c, o.context)
    ensures Apply(DoReset(c), m).tree.callbacks == Without(m.tree, c)[c := []]
    ensures Apply(DoConstruct(c, false), m).tree.callbacks
         == m.tree.callbacks[c := m.tree.callbacks[c] + [m.tree.nextObject]]
    ensures Apply(DoConstruct(c, true), m) == m
  {
    ResetSound(m.tree, c);
  }

  /** Any run in which parents outlive children; operations that would break that, or on objects that do not exist,
      are skipped. Afterwards each existing context has one owner or was handed over, each other one has been deleted
      once, and each object constructed is registered or has been destroyed once, after all objects that were
      constructed in its context while it was there. */
  method RunOps(ops: seq<Op>) returns (p: Program, os: seq<Owner>)
    ensures fresh(p) && p.Valid() && forall o :: o in os <==> o in p.owners
    ensures MomentOf(p, os) == ApplyAll(ops)
    ensures Once(p.server.View()) && LastFirst(p.server.View())
    ensures forall o, o' :: o in os && o' in os && !o.moved && !o'.moved && o.context == o'.context ==> o == o'
    ensures (forall o :: o in os ==> o.moved) ==> forall c: nat ::
      0 < c < p.server.nextContext && c !in p.handedOver ==> multiset(p.server.deleted)[c] == 1
  {
    p, os := RunEach(ops);
  }

  method RunEach(ops: seq<Op>) returns (p: Program, os: seq<Owner>)
    ensures fresh(p) && p.Valid() && forall o :: o in os <==> o in p.owners
    ensures MomentOf(p, os) == ApplyAll(ops)
  {
    p := new Program();
    os := [];
    for k := 0 to |ops|
      invariant fresh(p) && fresh(p.server) && fresh(p.owners) && p.Valid()
      invariant forall o :: o in os <==> o in p.owners
      invariant forall i, j :: 0 <= i < j < |os| ==> os[i] != os[j]
      invariant MomentOf(p, os) == ApplyAll(ops[..k])
    {
      assert ops[..k + 1][..k] == ops[..k];
      p, os := RunOp(p, os, ops[k]);
    }
    assert ops[..|ops|] == ops;
  }

  lemma WithoutOne(os: seq<Owner>, i: nat)
    requires i < |os| && forall j, k :: 0 <= j < k < |os| ==> os[j] != os[k]
    ensures var rest := os[..i] + os[i + 1..];
      && (forall o :: o in rest <==> o in os && o != os[i])
      && (forall j, k :: 0 <= j < k < |rest| ==> rest[j] != rest[k])
  {
    assert os == os[..i] + [os[i]] + os[i + 1..];
  }

  method RunOp(p: Program, os: seq<Owner>, op: Op) returns (q: Program, os': seq<Owner>)
    requires p.Valid() && (forall o :: o in os <==> o in p.owners)
    requires forall i, j :: 0 <= i < j < |os| ==> os[i] != os[j]
    modifies p, p.server, p.owners
    ensures q == p && p.Valid() && (forall o :: o in os' <==> o in p.owners) && fresh(p.owners - old(p.owners))
    ensures MomentOf(p, os') == Apply(op, old(MomentOf(p, os)))
    ensures forall i, j :: 0 <= i < j < |os'| ==> os'[i] != os'[j]
  {
    q, os' := p, os;
    match op
    case DoCreate(current) =>
      os' := RunCreate(p, os, current);
    case DoMoveConstruct(i) =>
      os' := RunMoveConstruct(p, os, i);
    case DoDestroy(i) =>
      os' := RunDestroy(p, os, i);
    case _ =>
      RunInPlace(p, os, op);
  }

  method RunCreate(p: Program, os: seq<Owner>, current: nat) returns (os': seq<Owner>)
    requires p.Valid() && (forall o :: o in os <==> o in p.owners)
    requires forall j, k :: 0 <= j < k < |os| ==> os[j] != os[k]
    modifies p, p.server
    ensures p.Valid() && (forall o :: o in os' <==> o in p.owners) && fresh(p.owners - old(p.owners))
    ensures forall j, k :: 0 <= j < k < |os'| ==> os'[j] != os'[k]
    ensures MomentOf(p, os') == Apply(DoCreate(current), old(MomentOf(p, os)))
  {
    os' := os;
    if current in p.server.callbacks {
      var o := p.Create(current);
      os' := os + [o];
      assert OwningsOf(os') == OwningsOf(os) + [Owning(o.context, o.moved)];
    }
  }

  method RunMoveConstruct(p: Program, os: seq<Owner>, i: nat) returns (os': seq<Owner>)
    requires p.Valid() && (forall o :: o in os <==> o in p.owners)
    requires forall j, k :: 0 <= j < k < |os| ==> os[j] != os[k]
    modifies p, p.owners
    ensures p.Valid() && (forall o :: o in os' <==> o in p.owners) && fresh(p.owners - old(p.owners))
    ensures forall j, k :: 0 <= j < k < |os'| ==> os'[j] != os'[k]
    ensures MomentOf(p, os') == Apply(DoMoveConstruct(i), old(MomentOf(p, os)))
  {
    os' := os;
    if i < |os| {
      assert os[i] in os;
      var o := p.MoveConstruct(os[i]);
      os' := os + [o];
      assert OwningsOf(os') == OwningsOf(os) + [Owning(o.context, o.moved)];
      assert OwningsOf(os) == old(OwningsOf(os))[i := Owning(os[i].context, true)];
    }
  }

  method RunDestroy(p: Program, os: seq<Owner>, i: nat) returns (os': seq<Owner>)
    requires p.Valid() && (forall o :: o in os <==> o in p.owners)
    requires forall j, k :: 0 <= j < k < |os| ==> os[j] != os[k]
    modifies p, p.server
    ensures p.Valid() && (forall o :: o in os' <==> o in p.owners) && p.owners <= old(p.owners)
    ensures forall j, k :: 0 <= j < k < |os'| ==> os'[j] != os'[k]
    ensures MomentOf(p, os') == Apply(DoDestroy(i), old(MomentOf(p, os)))
  {
    os' := os;
    if i < |os| {
      SameGuards(p, os, os[i].context);
      if os[i].moved || NothingBelow(os, p.server.parent, os[i].context) {
        assert os[i] in os;
        GoingMeans(p, os, i);
        os' := DestroyAt(p, os, i);
      }
    }
  }

  method DestroyAt(p: Program, os: seq<Owner>, i: nat) returns (rest: seq<Owner>)
    requires p.Valid() && (forall o :: o in os <==> o in p.owners) && i < |os|
    requires forall j, k :: 0 <= j < k < |os| ==> os[j] != os[k]
    requires !os[i].moved ==> p.Childless(os[i].context)
    modifies p, p.server
    ensures p.Valid() && (forall o :: o in rest <==> o in p.owners) && p.owners <= old(p.owners)
    ensures forall j, k :: 0 <= j < k < |rest| ==> rest[j] != rest[k]
    ensures p.handedOver == old(p.handedOver) && OwningsOf(rest) == old(OwningsOf(os)[..i] + OwningsOf(os)[i + 1..])
    ensures p.server.View() == old(if os[i].moved then p.server.View() else p.Deleted(os[i].context))
  {
    OwningsWithout(os, i);
    WithoutOne(os, i);
    rest := os[..i] + os[i + 1..];
    DestroyOne(p, os[i], rest);
  }

  method DestroyOne(p: Program, o: Owner, rest: seq<Owner>)
    requires p.Valid() && o in p.owners && (!o.moved ==> p.Childless(o.context))
    modifies p, p.server
    ensures p.Valid() && p.owners == old(p.owners) - {o}
    ensures MomentOf(p, rest)
      == old(Moment(if o.moved then p.server.View() else p.Deleted(o.context), OwningsOf(rest), p.handedOver))
  {
    p.Destroy(o);
  }

  method RunMoveAssign(p: Program, os: seq<Owner>, i: nat, j: nat)
    requires p.Valid() && (forall o :: o in os <==> o in p.owners)
    requires forall j, k :: 0 <= j < k < |os| ==> os[j] != os[k]
    modifies p, p.server, p.owners
    ensures p.Valid() && p.owners == old(p.owners)
    ensures MomentOf(p, os) == Apply(DoMoveAssign(i, j), old(MomentOf(p, os)))
  {
    if i < |os| && j < |os| {
      SameGuards(p, os, os[i].context);
      if os[i].moved || NothingBelow(os, p.server.parent, os[i].context) {
        assert os[i] in os && os[j] in os;
        GoingMeans(p, os, i);
        AssignOne(p, os, i, j);
      }
    }
  }

  method AssignOne(p: Program, os: seq<Owner>, i: nat, j: nat)
    requires p.Valid() && i < |os| && j < |os| && os[i] in p.owners && os[j] in p.owners
    requires forall j, k :: 0 <= j < k < |os| ==> os[j] != os[k]
    requires !os[i].moved ==> p.Childless(os[i].context)
    modifies p, p.server, os[i], os[j]
    ensures p.Valid() && p.owners == old(p.owners) && p.handedOver == old(p.handedOver)
    ensures p.server.View() == old(if i == j || os[i].moved then p.server.View() else p.Deleted(os[i].context))
    ensures OwningsOf(os) == old(if i == j then OwningsOf(os)
                                 else OwningsOf(os)[i := OwningsOf(os)[j]][j := Owning(os[j].context, true)])
  {
    ghost var was := OwningsOf(os);
    p.MoveAssign(os[i], os[j]);
    if i == j {
      assert OwningsOf(os) == was;
    } else {
      Passed(was, OwningsOf(os), i, j);
    }
  }

  method RunHandOver(p: Program, os: seq<Owner>, i: nat)
    requires p.Valid() && (forall o :: o in os <==> o in p.owners)
    requires forall j, k :: 0 <= j < k < |os| ==> os[j] != os[k]
    modifies p, p.owners
    ensures p.Valid() && p.owners == old(p.owners)
    ensures MomentOf(p, os) == Apply(DoHandOver(i), old(MomentOf(p, os)))
  {
    if i < |os| {
      assert os[i] in os;
      var _ := p.HandOver(os[i]);
    }
  }

  method RunInPlace(p: Program, os: seq<Owner>, op: Op)
    requires p.Valid() && (forall o :: o in os <==> o in p.owners)
    requires forall i, j :: 0 <= i < j < |os| ==> os[i] != os[j]
    requires !op.DoCreate? && !op.DoMoveConstruct? && !op.DoDestroy?
    modifies p, p.server, p.owners
    ensures p.Valid() && p.owners == old(p.owners)
    ensures MomentOf(p, os) == Apply(op, old(MomentOf(p, os)))
  {
    match op
    case DoMoveAssign(i, j) => RunMoveAssign(p, os, i, j);
    case DoHandOver(i) => RunHandOver(p, os, i);
    case DoConstruct(_, _) | DoReset(_) => RunOnServer(p, os, op);
    case DoDelete(c) => RunDelete(p, os, c);
    case _ =>
  }

  method RunOnServer(p: Program, os: seq<Owner>, op: Op)
    requires p.Valid() && (forall o :: o in os <==> o in p.owners) && (op.DoConstruct? || op.DoReset?)
    modifies p.server
    ensures p.Valid() && MomentOf(p, os) == Apply(op, old(MomentOf(p, os)))
  {
    match op
    case DoConstruct(c, constructorThrows) =>
      if c in p.server.callbacks {
        var _ := p.server.Construct(c, constructorThrows);
      }
    case DoReset(c) =>
      SameGuards(p, os, c);
      if c in p.server.callbacks && NothingBelow(os, p.server.parent, c) {
        p.Reset(c);
      }
    case _ =>
  }

  method RunDelete(p: Program, os: seq<Owner>, c: nat)
    requires p.Valid() && (forall o :: o in os <==> o in p.owners)
    modifies p.server
    ensures p.Valid() && MomentOf(p, os) == Apply(DoDelete(c), old(MomentOf(p, os)))
  {
    SameGuards(p, os, c);
    if c in p.server.callbacks && c != 0 && Unowned(os, c) && NothingBelow(os, p.server.parent, c) {
      p.DeleteHandedOver(c);
    }
  }
}
