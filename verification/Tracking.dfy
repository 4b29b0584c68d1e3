/** Memory contexts whose resets are observed through a shared counter, and values that live in them. */
module Tracking {
  import opened Common
  import opened TrackedMemory

  /** A reset callback, in the memory of the context it is registered on. It tracks a counter's state, or has been
      neutralised. */
  class Callback {
    const context: nat
    var tracks: CallbackState?

    constructor (context: nat, state: CallbackState)
      ensures this.context == context && tracks == state
    {
      this.context, tracks := context, state;
    }
  }

  /** What all copies of a tracking context share. `owners` is the use count; the state is freed when it drops to
      zero. */
  class CallbackState {
    const context: nat
    ghost const since: nat   // how often the context had been reset when tracking began
    var counter: nat
    var callback: Callback?
    var owners: nat
    var freed: bool
    ghost var sharers: set<Tracker>   // the live tracking contexts that point here

    constructor (context: nat, ghost since: nat)
      ensures this.context == context && this.since == since
      ensures counter == 0 && callback == null && owners == 0 && !freed && sharers == {}
    {
      this.context, this.since, counter, callback, owners, freed := context, since, 0, null, 0, false;
      sharers := {};
    }
  }

  /** A tracking context. `holder` is the number of the value it is a member of, or 0 when it stands alone. */
  class Tracker {
    const context: nat
    var state: CallbackState?
    ghost const since: nat    // how often the context had been reset when its state's tracking began
    ghost const holder: nat

    constructor (context: nat, ghost since: nat, ghost holder: nat)
      ensures this.context == context && state == null && this.since == since && this.holder == holder
    {
      this.context, this.state, this.since, this.holder := context, null, since, holder;
    }
  }

  lemma SameSize(ts: set<Tracker>, out: Tracker, into: Tracker)
    requires out in ts && into !in ts
    ensures |ts - {out} + {into}| == |ts|
  {
  }

  /** The memory contexts, with the number of times each has been reset, and the callbacks registered on them. */
  class World {
    var resets: map<nat, nat>
    var pending: set<Callback>
    ghost var trackers: set<Tracker>
    ghost var states: set<CallbackState>

    /** A callback that will run has a live state as argument, or none. */
    ghost predicate Safe(b: Callback)
      reads this, b, states
    {
      b.tracks != null ==>
        b.tracks in states && !b.tracks.freed && b.tracks.callback == b && b.tracks.context == b.context
    }

    /** A state that is still owned knows whether its context has been reset since tracking began. */
    ghost predicate Accurate(s: CallbackState)
      reads this, s, pending
    {
      && s.context in resets
      && (if s.callback == null then s.counter == 1 && s.since < resets[s.context]
          else s.counter == 0 && s.since == resets[s.context] && s.callback in pending && s.callback.tracks == s)
    }

    /** Between a reset and the callback that reports it. */
    ghost predicate Stale(s: CallbackState)
      reads this, s, pending
    {
      && s.callback != null && s.callback in pending && s.callback.tracks == s
      && s.counter == 0 && s.context in resets && s.since < resets[s.context]
    }

    /** The use count is right, and the state goes with its last owner. */
    ghost predicate Counted(s: CallbackState)
      reads s
    {
      s.owners == |s.sharers| && (s.freed <==> s.owners == 0)
    }

    ghost predicate Sharing(s: CallbackState)
      reads this, s, trackers
    {
      forall t :: t in s.sharers ==> t in trackers && t.state == s
    }

    ghost predicate Valid()
      reads this, trackers, states, pending
    {
      && (forall b :: b in pending ==> Safe(b))
      && (forall s :: s in states ==> Counted(s) && Sharing(s) && (!s.freed ==> Accurate(s)))
      && (forall t :: t in trackers && t.state != null ==>
            t.state in states && t.state.context == t.context && t.state.since == t.since && t in t.state.sharers)
    }

    constructor (contexts: set<nat>)
      ensures Valid() && resets == (map c | c in contexts :: 0) && trackers == {} && states == {} && pending == {}
    {
      resets := map c | c in contexts :: 0;
      pending, trackers, states := {}, {}, {};
    }

    /** A tracking context that shares no state yet. */
    method Allocate(context: nat, ghost since: nat, ghost holder: nat) returns (t: Tracker)
      requires Valid()
      modifies this`trackers
      ensures Valid() && fresh(t) && trackers == old(trackers) + {t}
      ensures t.context == context && t.state == null && t.since == since && t.holder == holder
    {
      t := new Tracker(context, since, holder);
      trackers := trackers + {t};
    }

    /** `tracking_memory_context(C ctx)`. */
    method Track(context: nat, ghost holder: nat) returns (t: Tracker)
      requires Valid() && context in resets
      modifies this`pending, this`trackers, this`states
      ensures Valid() && fresh(t) && trackers == old(trackers) + {t}
      ensures t.state != null && fresh(t.state) && states == old(states) + {t.state}
      ensures t.state.callback != null && fresh(t.state.callback) && pending == old(pending) + {t.state.callback}
      ensures t.context == context && t.since == resets[context] && t.holder == holder
    {
      t := Allocate(context, resets[context], holder);
      Attach(t);
    }

    /** A new state, with a callback registered for it. */
    method Attach(t: Tracker)
      requires Valid() && t in trackers && t.state == null && t.context in resets && t.since == resets[t.context]
      modifies this`pending, this`states, t`state
      ensures Valid()
      ensures t.state != null && fresh(t.state) && states == old(states) + {t.state}
      ensures t.state.callback != null && fresh(t.state.callback) && pending == old(pending) + {t.state.callback}
    {
      var s := new CallbackState(t.context, resets[t.context]);
      var b := new Callback(t.context, s);
      s.callback := b;
      s.owners := 1;
      s.sharers := {t};
      t.state := s;
      pending, states := pending + {b}, states + {s};
    }

    /** The copy constructor: one more owner of the same state. */
    method Copy(other: Tracker, ghost holder: nat) returns (t: Tracker)
      requires Valid() && other in trackers
      modifies this`trackers, states
      ensures Valid() && fresh(t) && trackers == old(trackers) + {t}
      ensures t.context == other.context && t.since == other.since && t.holder == holder && t.state == other.state
    {
      t := Allocate(other.context, other.since, holder);
      if other.state != null {
        Share(t, other.state);
      }
    }

    method Share(t: Tracker, s: CallbackState)
      requires Valid() && t in trackers && t.state == null
      requires s in states && !s.freed && s.context == t.context && s.since == t.since
      modifies t`state, s`owners, s`sharers
      ensures Valid() && t.state == s
    {
      s.owners := s.owners + 1;
      s.sharers := s.sharers + {t};
      t.state := s;
    }

    /** The move constructor: the state changes hands. */
    method Move(other: Tracker, ghost holder: nat) returns (t: Tracker)
      requires Valid() && other in trackers
      modifies this`trackers, states, other`state
      ensures Valid() && fresh(t) && trackers == old(trackers) + {t}
      ensures t.context == other.context && t.since == other.since && t.holder == holder
      ensures t.state == old(other.state) && other.state == null
    {
      t := Allocate(other.context, other.since, holder);
      if other.state != null {
        Take(t, other, other.state);
      }
    }

    method Take(t: Tracker, other: Tracker, s: CallbackState)
      requires Valid() && t in trackers && t.state == null && other in trackers && other.state == s
      requires t.context == other.context && t.since == other.since
      modifies t`state, other`state, s`sharers
      ensures Valid() && t.state == s && other.state == null
    {
      SameSize(s.sharers, other, t);
      s.sharers := s.sharers - {other} + {t};
      t.state := s;
      other.state := null;
      forall u | u in states ensures Sharing(u) {
        assert old(Sharing(u));
      }
    }

    /** The destructor: the last owner neutralises the callback, if it has not run, before the state goes. */
    method Destroy(t: Tracker)
      requires Valid() && t in trackers
      modifies this`trackers, states, pending, t`state
      ensures Valid() && trackers == old(trackers) - {t}
    {
      var s := t.state;
      if s != null {
        if s.owners == 1 {
          ReleaseLast(t, s);
        } else {
          ReleaseShared(t, s);
        }
      }
      trackers := trackers - {t};
    }

    method ReleaseLast(t: Tracker, s: CallbackState)
      requires Valid() && t in trackers && t.state == s && s.owners == 1
      modifies t`state, s`callback, s`owners, s`sharers, s`freed, s.callback
      ensures Valid() && t.state == null && s.freed
    {
      if s.callback != null {
        s.callback.tracks := null;
        s.callback := null;
      }
      s.owners := s.owners - 1;
      s.sharers := s.sharers - {t};
      s.freed := true;
      t.state := null;
    }

    method ReleaseShared(t: Tracker, s: CallbackState)
      requires Valid() && t in trackers && t.state == s && s.owners != 1
      modifies t`state, s`owners, s`sharers
      ensures Valid() && t.state == null
    {
      s.owners := s.owners - 1;
      s.sharers := s.sharers - {t};
      t.state := null;
    }

    /** `resets()`: 1 once the context has been reset since tracking began, however often, as the callback runs once. */
    method Resets(t: Tracker) returns (n: nat)
      requires Valid() && t in trackers
      ensures n == if t.state != null && resets[t.context] > t.since then 1 else 0
    {
      n := if t.state == null then 0 else t.state.counter;
    }

    /** A context has been reset and the callbacks in `todo` have still to report it. */
    ghost predicate Resetting(context: nat, todo: set<Callback>)
      reads this, trackers, states, pending
    {
      && todo <= pending && (forall b :: b in pending ==> Safe(b) && (b.context == context ==> b in todo))
      && (forall s :: s in states ==> Counted(s) && Sharing(s))
      && (forall s :: s in states && !s.freed ==>
            if s.callback != null && s.callback in todo then Stale(s) else Accurate(s))
      && (forall t :: t in trackers && t.state != null ==>
            t.state in states && t.state.context == t.context && t.state.since == t.since && t in t.state.sharers)
    }

    /** Postgres resets or deletes a context: its callbacks run, in whatever order, and are discarded. */
    method Reset(context: nat)
      requires Valid() && context in resets
      modifies this`pending, this`resets, states
      ensures Valid() && resets == old(resets)[context := old(resets)[context] + 1]
      ensures pending == set b | b in old(pending) && b.context != context
    {
      var todo := set b | b in pending && b.context == context;
      resets := resets[context := resets[context] + 1];
      while todo != {}
        invariant resets == old(resets)[context := old(resets)[context] + 1]
        invariant Resetting(context, todo)
        invariant pending == set b | b in old(pending) && (b.context != context || b in todo)
        decreases todo
      {
        var b :| b in todo;
        RunCallback(context, todo, b);
        todo := todo - {b};
      }
    }

    method RunCallback(context: nat, ghost todo: set<Callback>, b: Callback)
      requires Resetting(context, todo) && b in todo
      modifies this`pending, states
      ensures Resetting(context, todo - {b}) && pending == old(pending) - {b}
    {
      pending := pending - {b};
      if b.tracks != null {
        TrackReset(b.tracks);
      }
    }

    /** `track_reset`. */
    method TrackReset(s: CallbackState)
      requires !s.freed
      modifies s`counter, s`callback
      ensures s.counter == old(s.counter) + 1 && s.callback == null
    {
      s.counter := s.counter + 1;
      s.callback := null;
    }
  }

  // ---------------------------------------------------------------- values

  /** `t` has been tracking `p`'s context since `p` was allocated. */
  ghost predicate Guards(w: World, t: Tracker, p: Chunk)
    reads w, w.trackers
  {
    t in w.trackers && t.state != null && t.since == p.epoch && t.context == p.context
  }

  method CopyMember(w: World, member: Option<Tracker>, ghost holder: nat) returns (t: Option<Tracker>)
    requires w.Valid() && (member.Some? ==> member.value in w.trackers)
    modifies w`trackers, w.states
    ensures w.Valid() && t.Some? == member.Some?
    ensures t.Some? ==> fresh(t.value) && t.value.holder == holder
    ensures t.Some? ==> t.value.context == member.value.context && t.value.since == member.value.since
    ensures t.Some? ==> t.value.state == member.value.state
    ensures w.trackers == old(w.trackers) + if t.Some? then {t.value} else {}
  {
    t := None;
    if member.Some? {
      var u := w.Copy(member.value, holder);
      t := Some(u);
    }
  }

  method MoveMember(w: World, member: Option<Tracker>, ghost holder: nat) returns (t: Option<Tracker>)
    requires w.Valid() && (member.Some? ==> member.value in w.trackers)
    modifies w`trackers, w.states, (if member.Some? then {member.value} else {})`state
    ensures w.Valid() && t.Some? == member.Some?
    ensures t.Some? ==> fresh(t.value) && t.value.holder == holder
    ensures t.Some? ==> t.value.context == member.value.context && t.value.since == member.value.since
    ensures t.Some? ==> t.value.state == old(member.value.state) && member.value.state == null
    ensures w.trackers == old(w.trackers) + if t.Some? then {t.value} else {}
  {
    t := None;
    if member.Some? {
      var u := w.Move(member.value, holder);
      t := Some(u);
    }
  }

  /** What an access to a value yields, given the copy that detoasting its datum would make, if any. */
  function Yield(v: Thing, resets: map<nat, nat>, copy: Option<Chunk>): Option<Chunk>
    requires v.Value?
  {
    if v.detoasted.Some? then if Live(resets, v.detoasted.value) then v.detoasted else None
    else if !Live(resets, v.datum) then None
    else if copy.Some? then copy
    else Some(v.datum)
  }

  /** The value after an access that has yielded `p`. */
  function After(v: Thing, p: Option<Chunk>): Thing
    requires v.Value?
  {
    if p.Some? then v.(detoasted := p) else v
  }

  /** A variable-length value: the datum, and once it has been used, its detoasted form. */
  class Varlena {
    var datum: Chunk
    var ctx: Tracker
    var detoasted: Option<Chunk>
    var detoastedCtx: Option<Tracker>
    ghost const id: nat

    /** The tracking contexts that are members of this value. */
    ghost function Members(): set<Tracker>
      reads this
    {
      {ctx} + if detoastedCtx.Some? then {detoastedCtx.value} else {}
    }

    /** They exist and belong to nothing else; this is also true of a value that has been moved from. */
    ghost predicate Held(w: World)
      reads this, w
    {
      && ctx in w.trackers && ctx.holder == id
      && (detoastedCtx.Some? ==>
            detoastedCtx.value in w.trackers && detoastedCtx.value.holder == id && detoastedCtx.value != ctx)
    }

    ghost predicate Valid(w: World)
      reads this, w, w.trackers
    {
      && Held(w) && Guards(w, ctx, datum)
      && (detoasted.Some? <==> detoastedCtx.Some?)
      && (detoasted.Some? ==> Guards(w, detoastedCtx.value, detoasted.value))
    }

    /** The datum lives in the context it is given. */
    constructor (w: World, datum: Chunk, ghost id: nat)
      requires w.Valid() && Live(w.resets, datum)
      modifies w`pending, w`trackers, w`states
      ensures w.Valid() && Valid(w) && this.datum == datum && detoasted == None && this.id == id
      ensures fresh(Members()) && w.trackers == old(w.trackers) + Members()
      ensures fresh(w.states - old(w.states)) && fresh(w.pending - old(w.pending))
    {
      var t := w.Track(datum.context, id);
      this.datum, ctx, detoasted, detoastedCtx := datum, t, None, None;
      this.id := id;
    }

    /** The copy constructor. */
    constructor Copy(w: World, other: Varlena, ghost id: nat)
      requires w.Valid() && other.Valid(w)
      modifies w`trackers, w.states
      ensures w.Valid() && Valid(w) && datum == other.datum && detoasted == other.detoasted && this.id == id
      ensures fresh(Members()) && w.trackers == old(w.trackers) + Members()
    {
      var t := w.Copy(other.ctx, id);
      var u := CopyMember(w, other.detoastedCtx, id);
      datum, ctx, detoasted, detoastedCtx, this.id := other.datum, t, other.detoasted, u, id;
    }

    /** The move constructor: the tracking contexts of `other` keep no state, so it must not be accessed any more. */
    constructor Move(w: World, other: Varlena, ghost id: nat)
      requires w.Valid() && other.Valid(w)
      modifies w`trackers, w.states, other.Members()`state
      ensures w.Valid() && Valid(w) && datum == other.datum && detoasted == other.detoasted && this.id == id
      ensures other.Held(w) && other.ctx.state == null
      ensures other.detoastedCtx.Some? ==> other.detoastedCtx.value.state == null
      ensures fresh(Members()) && w.trackers == old(w.trackers) + Members()
    {
      var t := w.Move(other.ctx, id);
      var u := MoveMember(w, other.detoastedCtx, id);
      assert Guards(w, t, other.datum);
      datum, ctx, detoasted, detoastedCtx, this.id := other.datum, t, other.detoasted, u, id;
    }

    /** The destructor: the members go, last first. */
    method Destroy(w: World)
      requires w.Valid() && Held(w)
      modifies w`trackers, w.states, w.pending, Members()`state
      ensures w.Valid() && w.trackers == old(w.trackers) - Members()
    {
      if detoastedCtx.Some? {
        w.Destroy(detoastedCtx.value);
      }
      w.Destroy(ctx);
    }

    /** `non_by_value_type::ptr`; `None` is `pointer_gone_exception`. */
    method Ptr(w: World) returns (p: Option<Chunk>)
      requires w.Valid() && Valid(w)
      ensures p == if Live(w.resets, datum) then Some(datum) else None
    {
      var n := w.Resets(ctx);
      p := if n > 0 then None else Some(datum);
    }

    /** `varlena::detoasted_ptr`: `copy` is the chunk that detoasting would allocate in the current memory context,
        if the datum is toasted at all. An access yields memory that is still there, or throws, and it throws exactly
        when the memory it goes by is gone. */
    method DetoastedPtr(w: World, copy: Option<Chunk>) returns (p: Option<Chunk>)
      requires w.Valid() && Valid(w) && (copy.Some? ==> Live(w.resets, copy.value))
      modifies this`detoasted, this`detoastedCtx, w`pending, w`trackers, w`states, w.states
      ensures w.Valid() && Valid(w)
      ensures old(detoasted).Some? ==> p == if old(Live(w.resets, detoasted.value)) then old(detoasted) else None
      ensures old(detoasted).None? ==>
        p == if !old(Live(w.resets, datum)) then None else if copy.Some? then copy else Some(old(datum))
      ensures detoasted == if p.Some? then p else old(detoasted)
      ensures p.Some? ==> Live(w.resets, p.value)
      ensures detoastedCtx == old(detoastedCtx) || (detoastedCtx.Some? && fresh(detoastedCtx.value))
      ensures w.trackers == old(w.trackers) + if detoastedCtx.Some? then {detoastedCtx.value} else {}
      ensures fresh(w.states - old(w.states)) && fresh(w.pending - old(w.pending))
    {
      if detoasted.Some? {
        p := Detoasted(w);
      } else {
        p := Ptr(w);
        if p.Some? {
          Detoast(w, if copy.Some? then copy.value else p.value);
          p := detoasted;
        }
      }
    }

    method Access(w: World, copy: Option<Chunk>) returns (p: Option<Chunk>)
      requires w.Valid() && Valid(w) && (copy.Some? ==> Live(w.resets, copy.value))
      modifies this`detoasted, this`detoastedCtx, w`pending, w`trackers, w`states, w.states
      ensures w.Valid() && Valid(w) && p == Yield(old(Value(datum, detoasted)), w.resets, copy)
      ensures Value(datum, detoasted) == After(old(Value(datum, detoasted)), p)
      ensures detoastedCtx == old(detoastedCtx) || (detoastedCtx.Some? && fresh(detoastedCtx.value))
      ensures w.trackers == old(w.trackers) + if detoastedCtx.Some? then {detoastedCtx.value} else {}
      ensures forall s :: s in w.states ==> s in old(w.states) || fresh(s)
      ensures forall b :: b in w.pending ==> b in old(w.pending) || fresh(b)
    {
      p := DetoastedPtr(w, copy);
    }

    method Detoasted(w: World) returns (p: Option<Chunk>)
      requires w.Valid() && Valid(w) && detoasted.Some?
      ensures p == if Live(w.resets, detoasted.value) then detoasted else None
    {
      var n := w.Resets(detoastedCtx.value);
      p := if n > 0 then None else detoasted;
    }

    /** Remembers the detoasted form, and tracks its context. */
    method Detoast(w: World, result: Chunk)
      requires w.Valid() && Valid(w) && Live(w.resets, datum) && Live(w.resets, result) && detoasted.None?
      modifies this`detoasted, this`detoastedCtx, w`pending, w`trackers, w`states, w.states
      ensures w.Valid() && Valid(w) && detoasted == Some(result) && fresh(detoastedCtx.value)
      ensures w.trackers == old(w.trackers) + {detoastedCtx.value}
      ensures fresh(w.states - old(w.states)) && fresh(w.pending - old(w.pending))
    {
      var t := TrackerFor(w, result);
      detoasted, detoastedCtx := Some(result), Some(t);
    }

    /** A copy of the datum's own tracking context if detoasting made no new memory. */
    method TrackerFor(w: World, result: Chunk) returns (t: Tracker)
      requires w.Valid() && Guards(w, ctx, datum) && Live(w.resets, datum) && Live(w.resets, result)
      modifies w`pending, w`trackers, w`states, w.states
      ensures w.Valid() && fresh(t) && t.holder == id && Guards(w, t, result) && w.trackers == old(w.trackers) + {t}
      ensures fresh(w.states - old(w.states)) && fresh(w.pending - old(w.pending))
    {
      if result == datum {
        t := w.Copy(ctx, id);
      } else {
        t := w.Track(result.context, id);
      }
    }
  }

  // ---------------------------------------------------------------- runs

  /** What a program holds: a tracking context, a value, or a value that has been moved from and can only go. */
  datatype Item = Alone(t: Tracker) | Whole(v: Varlena) | Husk(v: Varlena)

  lemma YieldMeans(s: Ideal, access: Op)
    requires access.DoAccess? && IsValue(s, access.h) && access.context in s.resets
    ensures var made := Chunk(access.context, s.resets[access.context], access.address);
      var p := Yield(s.things[access.h], s.resets, if access.toasted then Some(made) else None);
      && Shows(s, access) == Yielded(p)
      && Step(s, access) == s.(things := s.things[access.h := After(s.things[access.h], p)])
  {
  }

  /** Everything a program holds, by number. `things` says what each item should look like to the program. */
  class Session {
    const world: World
    var items: map<nat, Item>
    var next: nat
    ghost var varlenas: set<Varlena>
    ghost var things: map<nat, Thing>

    ghost function View(): Ideal
      reads this, world
    {
      Ideal(world.resets, things, next)
    }

    /** Item `h` is what it should be; a value that may be accessed has been tracking its memory since that was
        allocated. */
    ghost predicate Has(h: nat)
      requires h in items
      reads this, world, world.trackers, if items[h].Alone? then {} else {items[h].v}
    {
      && h < next && h in things
      && match items[h] {
           case Alone(t) =>
             t in world.trackers && t.holder == h && things[h] == Watch(t.context, t.since, t.state == null)
           case Whole(v) => v.id == h && v.Valid(world) && things[h] == Value(v.datum, v.detoasted)
           case Husk(v) => v.id == h && v.Held(world) && things[h] == Gone
         }
    }

    ghost predicate Valid()
      reads this, world, world.trackers, world.states, world.pending, varlenas
    {
      && world.Valid() && things.Keys == items.Keys
      && forall h :: h in items ==> (items[h].Alone? || items[h].v in varlenas) && Has(h)
    }

    constructor (contexts: set<nat>)
      ensures Valid() && fresh(world) && View() == Start(contexts) && varlenas == {}
      ensures world.trackers == {} && world.states == {} && world.pending == {}
    {
      world := new World(contexts);
      items, next, varlenas, things := map[], 0, {}, map[];
    }

    /** The members of item `h`, if it has any, still exist and have the state they had. */
    twostate predicate Untouched(h: nat)
      reads this, world, world.trackers
    {
      forall t :: t in old(world.trackers) && t.holder == h ==> t in world.trackers && t.state == old(t.state)
    }

    twostate lemma Kept(h: nat)
      requires h in items && old(h in items) && items[h] == old(items[h]) && old(Has(h)) && old(next) <= next
      requires h in things && things[h] == old(things[h])
      requires Untouched(h) && (items[h].Alone? || unchanged(items[h].v))
      ensures Has(h)
    {
    }

    /** Only the members of `h` and the value itself have changed. */
    twostate lemma KeptOthers(h: nat)
      requires old(Valid()) && items == old(items) && next == old(next) && varlenas == old(varlenas)
      requires things == old(things)
      requires forall t :: t in old(world.trackers) && t.holder != h ==> t in world.trackers && t.state == old(t.state)
      requires forall v :: v in varlenas && v.id != h ==> unchanged(v)
      ensures forall g :: g in items && g != h ==> (items[g].Alone? || items[g].v in varlenas) && Has(g)
    {
      forall g | g in items && g != h ensures Has(g) {
        assert old(Has(g));
        Kept(g);
      }
    }

    /** Whatever is new in the session has been allocated since. */
    twostate predicate Grows()
      reads this, world
    {
      && (forall t :: t in world.trackers ==> t in old(world.trackers) || fresh(t))
      && (forall t :: t in world.states ==> t in old(world.states) || fresh(t))
      && (forall b :: b in world.pending ==> b in old(world.pending) || fresh(b))
      && (forall v :: v in varlenas ==> v in old(varlenas) || fresh(v))
    }

    method AddTracker(t: Tracker)
      requires Valid() && t in world.trackers && t.holder == next
      modifies this`items, this`next, this`things
      ensures Valid() && next == old(next) + 1
      ensures things == old(things)[old(next) := Watch(t.context, t.since, t.state == null)]
    {
      things := things[next := Watch(t.context, t.since, t.state == null)];
      items, next := items[next := Alone(t)], next + 1;
      forall g | g in old(items) ensures Has(g) {
        Kept(g);
      }
    }

    method AddValue(v: Varlena)
      requires Valid() && v.id == next && v.Valid(world)
      modifies this`items, this`next, this`varlenas, this`things
      ensures Valid() && varlenas == old(varlenas) + {v} && next == old(next) + 1
      ensures things == old(things)[old(next) := Value(v.datum, v.detoasted)]
    {
      things := things[next := Value(v.datum, v.detoasted)];
      items, next, varlenas := items[next := Whole(v)], next + 1, varlenas + {v};
      forall g | g in old(items) ensures Has(g) {
        Kept(g);
      }
    }

    method Reset(context: nat)
      requires Valid() && context in world.resets
      modifies world`pending, world`resets, world.states
      ensures Valid() && world.pending <= old(world.pending)
      ensures world.resets == old(world.resets)[context := old(world.resets)[context] + 1]
    {
      world.Reset(context);
      KeptOthers(next);
    }

    method Track(context: nat)
      requires Valid() && context in world.resets
      modifies this`items, this`next, this`things, world`pending, world`trackers, world`states
      ensures Valid() && fresh(world.trackers - old(world.trackers))
      ensures fresh(world.states - old(world.states)) && fresh(world.pending - old(world.pending))
      ensures View() == Add(old(View()), Watch(context, world.resets[context], false))
    {
      var t := world.Track(context, next);
      KeptOthers(next);
      AddTracker(t);
    }

    method Copy(h: nat)
      requires Valid() && h in items && items[h].Alone?
      modifies this`items, this`next, this`things, world`trackers, world.states
      ensures Valid() && fresh(world.trackers - old(world.trackers))
      ensures h in old(things) && View() == Add(old(View()), old(things)[h])
    {
      var t := CopyTracker(h);
      AddTracker(t);
    }

    method CopyTracker(h: nat) returns (t: Tracker)
      requires Valid() && h in items && items[h].Alone?
      modifies world`trackers, world.states
      ensures Valid() && fresh(world.trackers - old(world.trackers))
      ensures t in world.trackers && t.holder == next && h in things
      ensures Watch(t.context, t.since, t.state == null) == things[h]
    {
      assert Has(h);
      t := world.Copy(items[h].t, next);
      KeptOthers(next);
    }

    method Move(h: nat)
      requires Valid() && h in items && items[h].Alone?
      modifies this`items, this`next, this`things, world`trackers, world.states, items[h].t`state
      ensures Valid() && fresh(world.trackers - old(world.trackers)) && h in old(things) && old(things)[h].Watch?
      ensures View() == Add(old(View()).(things := old(things)[h := old(things)[h].(lost := true)]), old(things)[h])
    {
      var t := MoveOut(h);
      AddTracker(t);
    }

    method MoveOut(h: nat) returns (t: Tracker)
      requires Valid() && h in items && items[h].Alone?
      modifies this`things, world`trackers, world.states, items[h].t`state
      ensures Valid() && fresh(world.trackers - old(world.trackers)) && h in old(things) && old(things)[h].Watch?
      ensures t in world.trackers && t.holder == next && Watch(t.context, t.since, t.state == null) == old(things)[h]
      ensures things == old(things)[h := old(things)[h].(lost := true)]
    {
      assert Has(h);
      t := world.Move(items[h].t, next);
      things := things[h := things[h].(lost := true)];
      forall g | g in items && g != h ensures Has(g) {
        Kept(g);
      }
    }

    method Destroy(h: nat)
      requires Valid() && h in items && items[h].Alone?
      modifies this`items, this`things, world`trackers, world.states, world.pending, items[h].t`state
      ensures Valid() && world.trackers <= old(world.trackers) && things == old(things) - {h}
    {
      assert Has(h);
      var t := items[h].t;
      Drop(h);
      DestroyDropped(t);
    }

    method DestroyDropped(t: Tracker)
      requires Valid() && t in world.trackers && t.holder !in items
      modifies world`trackers, world.states, world.pending, t`state
      ensures Valid() && world.trackers <= old(world.trackers)
    {
      world.Destroy(t);
      KeptOthers(t.holder);
    }

    /** The program lets go of item `h`. */
    method Drop(h: nat)
      requires Valid() && h in items
      modifies this`items, this`things
      ensures Valid() && items == old(items) - {h} && things == old(things) - {h}
    {
      items, things := items - {h}, things - {h};
      forall g | g in items ensures Has(g) {
        assert old(Has(g));
      }
    }

    /** `resets()`. */
    method Count(h: nat) returns (sight: Sight)
      requires Valid() && h in items && items[h].Alone?
      ensures sight == Shows(View(), DoCount(h))
    {
      assert Has(h);
      var n := world.Resets(items[h].t);
      sight := Resets(n);
    }

    method NewValue(context: nat, address: nat)
      requires Valid() && context in world.resets
      modifies this`items, this`next, this`varlenas, this`things, world`pending, world`trackers, world`states
      ensures Valid() && fresh(world.trackers - old(world.trackers)) && fresh(varlenas - old(varlenas))
      ensures fresh(world.states - old(world.states)) && fresh(world.pending - old(world.pending))
      ensures View() == Add(old(View()), Value(Chunk(context, world.resets[context], address), None))
    {
      var v := new Varlena(world, Chunk(context, world.resets[context], address), next);
      forall g | g in items ensures Has(g) {
        Kept(g);
      }
      AddValue(v);
    }

    method CopyValue(h: nat)
      requires Valid() && h in items && items[h].Whole?
      modifies this`items, this`next, this`varlenas, this`things, world`trackers, world.states
      ensures Valid() && fresh(world.trackers - old(world.trackers)) && fresh(varlenas - old(varlenas))
      ensures h in old(things) && View() == Add(old(View()), old(things)[h])
    {
      var v := CopyFrom(h);
      AddValue(v);
    }

    method CopyFrom(h: nat) returns (v: Varlena)
      requires Valid() && h in items && items[h].Whole?
      modifies world`trackers, world.states
      ensures Valid() && fresh(v) && v.id == next && v.Valid(world)
      ensures fresh(world.trackers - old(world.trackers)) && things[h] == Value(v.datum, v.detoasted)
    {
      assert Has(h);
      v := new Varlena.Copy(world, items[h].v, next);
      KeptOthers(next);
    }

    /** The old value keeps its place, but only to be destroyed; the new one is not among the items yet. */
    method MoveValue(h: nat) returns (v: Varlena)
      requires Valid() && h in items && items[h].Whole?
      modifies this`items, this`things, world`trackers, world.states, world.trackers
      ensures Valid() && fresh(v) && v.id == next && v.Valid(world) && Grows()
      ensures h in old(things) && old(things)[h] == Value(v.datum, v.detoasted) && things == old(things)[h := Gone]
    {
      v := MoveFrom(h);
      Retire(h);
    }

    /** All other items are as they were. */
    ghost predicate Others(h: nat)
      reads this, world, world.trackers, varlenas
    {
      forall g :: g in items && g != h ==> (items[g].Alone? || items[g].v in varlenas) && Has(g)
    }

    method MoveFrom(h: nat) returns (v: Varlena)
      requires Valid() && h in items && items[h].Whole?
      modifies world`trackers, world.states, world.trackers
      ensures fresh(v) && v.id == next && v.Valid(world) && items[h].v.Held(world)
      ensures world.Valid() && fresh(world.trackers - old(world.trackers)) && Others(h)
      ensures things[h] == Value(v.datum, v.detoasted)
    {
      assert Has(h);
      v := MoveVarlena(items[h].v);
      KeptOthers(h);
    }

    method MoveVarlena(other: Varlena) returns (v: Varlena)
      requires world.Valid() && other.Valid(world)
      modifies world`trackers, world.states, other.Members()`state
      ensures world.Valid() && fresh(v) && v.id == next && v.Valid(world) && other.Held(world)
      ensures world.trackers == old(world.trackers) + v.Members() && fresh(v.Members())
      ensures v.datum == other.datum && v.detoasted == other.detoasted
    {
      v := new Varlena.Move(world, other, next);
    }

    method Retire(h: nat)
      requires h in items && items[h].Whole? && items[h].v in varlenas && items[h].v.id == h && items[h].v.Held(world)
      requires h < next && world.Valid() && Others(h) && things.Keys == items.Keys
      modifies this`items, this`things
      ensures Valid() && items == old(items)[h := Husk(old(items[h].v))] && things == old(things)[h := Gone]
    {
      items, things := items[h := Husk(items[h].v)], things[h := Gone];
      forall g | g in items && g != h ensures Has(g) {
        assert old(Has(g));
      }
    }

    method DestroyValue(h: nat)
      requires Valid() && h in items && !items[h].Alone?
      modifies this`items, this`things, world`trackers, world.states, world.pending, world.trackers
      ensures Valid() && world.trackers <= old(world.trackers) && things == old(things) - {h}
    {
      assert Has(h);
      var v := items[h].v;
      Drop(h);
      DestroyDetached(v);
    }

    /** Destroys a value that is not among the items any more. */
    method DestroyDetached(v: Varlena)
      requires Valid() && v.Held(world) && v.id !in items
      modifies world`trackers, world.states, world.pending, v.Members()`state
      ensures Valid() && world.trackers <= old(world.trackers)
    {
      v.Destroy(world);
      KeptOthers(v.id);
    }

    method AccessValue(h: nat, copy: Option<Chunk>) returns (p: Option<Chunk>)
      requires Valid() && h in items && items[h].Whole? && (copy.Some? ==> Live(world.resets, copy.value))
      modifies this`things, items[h].v, world`pending, world`trackers, world`states, world.states
      ensures Valid() && Grows()
      ensures h in old(things) && old(things)[h].Value? && p == Yield(old(things)[h], old(world.resets), copy)
      ensures View() == old(View()).(things := old(things)[h := After(old(things)[h], p)])
    {
      assert Has(h);
      p := Use(h, copy);
      Note(h, p);
    }

    method Show(access: Op) returns (sight: Sight)
      requires Valid() && access.DoAccess? && access.context in world.resets
      requires access.h in items && items[access.h].Whole?
      modifies this`things, items[access.h].v, world`pending, world`trackers, world`states, world.states
      ensures Valid() && Grows()
      ensures sight == Shows(old(View()), access) && View() == Step(old(View()), access)
    {
      ghost var was := View();
      var made := Chunk(access.context, world.resets[access.context], access.address);
      var p := AccessValue(access.h, if access.toasted then Some(made) else None);
      YieldMeans(was, access);
      sight := Yielded(p);
    }

    method Use(h: nat, copy: Option<Chunk>) returns (p: Option<Chunk>)
      requires Valid() && h in items && items[h].Whole? && items[h].v.Valid(world) && items[h].v.id == h
      requires h in things && things[h] == Value(items[h].v.datum, items[h].v.detoasted)
      requires copy.Some? ==> Live(world.resets, copy.value)
      modifies items[h].v`detoasted, items[h].v`detoastedCtx, world`pending, world`trackers, world`states, world.states
      ensures Grows()
      ensures world.Valid() && Others(h) && items[h].v.Valid(world)
      ensures p == Yield(things[h], world.resets, copy) && things[h].Value?
      ensures Value(items[h].v.datum, items[h].v.detoasted) == After(things[h], p)
    {
      p := items[h].v.Access(world, copy);
      KeptOthers(h);
    }

    /** Item `h` looks different now. */
    ghost method Note(h: nat, p: Option<Chunk>)
      requires h in items && items[h].Whole? && items[h].v in varlenas && items[h].v.id == h && items[h].v.Valid(world)
      requires h < next && world.Valid() && Others(h) && things.Keys == items.Keys && things[h].Value?
      requires Value(items[h].v.datum, items[h].v.detoasted) == After(things[h], p)
      modifies this`things
      ensures Valid()
      ensures things == old(things)[h := After(old(things)[h], p)]
    {
      things := things[h := After(things[h], p)];
      forall g | g in items && g != h ensures Has(g) {
        assert old(Has(g));
      }
    }
  }

  lemma Kind(s: Session, h: nat)
    requires s.Valid()
    ensures h in s.items <==> h in s.things
    ensures h in s.items ==>
      && (s.items[h].Alone? <==> s.things[h].Watch?) && (s.items[h].Whole? <==> s.things[h].Value?)
      && (s.items[h].Alone? ==> s.items[h].t in s.world.trackers) && (!s.items[h].Alone? ==> s.items[h].v in s.varlenas)
  {
    if h in s.items {
      assert s.Has(h);
    }
  }

  method RunTrack(s: Session, context: nat)
    requires s.Valid()
    modifies s, s.world
    ensures s.Valid() && s.Grows() && s.View() == Step(old(s.View()), DoTrack(context))
  {
    if context in s.world.resets {
      s.Track(context);
    }
  }

  method RunCopy(s: Session, h: nat)
    requires s.Valid()
    modifies s, s.world, s.world.states
    ensures s.Valid() && s.Grows() && s.View() == Step(old(s.View()), DoCopy(h))
  {
    Kind(s, h);
    if h in s.items && s.items[h].Alone? {
      s.Copy(h);
    }
  }

  method RunMove(s: Session, h: nat)
    requires s.Valid()
    modifies s, s.world, s.world.trackers, s.world.states
    ensures s.Valid() && s.Grows() && s.View() == Step(old(s.View()), DoMove(h))
  {
    Kind(s, h);
    if h in s.items && s.items[h].Alone? {
      s.Move(h);
    }
  }

  method RunDestroy(s: Session, h: nat)
    requires s.Valid()
    modifies s, s.world, s.world.trackers, s.world.states, s.world.pending
    ensures s.Valid() && s.Grows() && s.View() == Step(old(s.View()), DoDestroy(h))
  {
    Kind(s, h);
    if h in s.items && s.items[h].Alone? {
      s.Destroy(h);
    }
  }

  method RunReset(s: Session, context: nat)
    requires s.Valid()
    modifies s.world, s.world.states
    ensures s.Valid() && s.Grows() && s.View() == Step(old(s.View()), DoReset(context))
  {
    if context in s.world.resets {
      s.Reset(context);
    }
  }

  method RunCount(s: Session, h: nat) returns (sight: Sight)
    requires s.Valid()
    ensures sight == Shows(s.View(), DoCount(h))
  {
    Kind(s, h);
    sight := Nothing;
    if h in s.items && s.items[h].Alone? {
      sight := s.Count(h);
    }
  }

  method RunNewValue(s: Session, context: nat, address: nat)
    requires s.Valid()
    modifies s, s.world
    ensures s.Valid() && s.Grows() && s.View() == Step(old(s.View()), DoNewValue(context, address))
  {
    if context in s.world.resets {
      s.NewValue(context, address);
    }
  }

  method RunCopyValue(s: Session, h: nat)
    requires s.Valid()
    modifies s, s.world, s.world.states
    ensures s.Valid() && s.Grows() && s.View() == Step(old(s.View()), DoCopyValue(h))
  {
    Kind(s, h);
    if h in s.items && s.items[h].Whole? {
      s.CopyValue(h);
    }
  }

  method RunMoveValue(s: Session, h: nat)
    requires s.Valid()
    modifies s, s.world, s.world.trackers, s.world.states
    ensures s.Valid() && s.Grows() && s.View() == Step(old(s.View()), DoMoveValue(h))
  {
    Kind(s, h);
    if h in s.items && s.items[h].Whole? {
      var v := s.MoveValue(h);
      s.AddValue(v);
    }
  }

  method RunDestroyValue(s: Session, h: nat)
    requires s.Valid()
    modifies s, s.world, s.world.trackers, s.world.states, s.world.pending
    ensures s.Valid() && s.Grows() && s.View() == Step(old(s.View()), DoDestroyValue(h))
  {
    Kind(s, h);
    if h in s.items && !s.items[h].Alone? {
      s.DestroyValue(h);
    }
  }

  method RunAccess(s: Session, op: Op) returns (sight: Sight)
    requires s.Valid() && op.DoAccess?
    modifies s, s.world, s.world.states, s.varlenas
    ensures s.Valid() && s.Grows() && s.View() == Step(old(s.View()), op) && sight == Shows(old(s.View()), op)
  {
    Kind(s, op.h);
    sight := Nothing;
    if op.h in s.items && op.context in s.world.resets {
      if s.items[op.h].Whole? {
        sight := s.Show(op);
      }
    }
  }

  method RunOp(s: Session, op: Op) returns (sight: Sight)
    requires s.Valid()
    modifies s, s.world, s.world.trackers, s.world.states, s.world.pending, s.varlenas
    ensures s.Valid() && s.Grows() && s.View() == Step(old(s.View()), op) && sight == Shows(old(s.View()), op)
  {
    sight := Nothing;
    match op
    case DoTrack(context) => RunTrack(s, context);
    case DoCopy(h) => RunCopy(s, h);
    case DoMove(h) => RunMove(s, h);
    case DoDestroy(h) => RunDestroy(s, h);
    case DoCount(h) => sight := RunCount(s, h);
    case DoReset(context) => RunReset(s, context);
    case DoNewValue(context, address) => RunNewValue(s, context, address);
    case DoCopyValue(h) => RunCopyValue(s, h);
    case DoMoveValue(h) => RunMoveValue(s, h);
    case DoDestroyValue(h) => RunDestroyValue(s, h);
    case DoAccess(_, _, _, _) => sight := RunAccess(s, op);
  }

  /** Any run of the operations; those on things that do not exist do nothing. What it shows, and what is there
      afterwards, is what a program should observe. Afterwards each tracking context that has not been moved from knows
      whether its context has been reset since its tracking began, all that share a state agree, no callback still
      registered has a freed state as argument, and every value that has not been moved from still tracks the memory it
      goes by. */
  method RunOps(contexts: set<nat>, ops: seq<Op>) returns (s: Session, sights: seq<Sight>)
    ensures fresh(s) && s.Valid()
    ensures s.View() == Run(Start(contexts), ops) && sights == Sights(Start(contexts), ops)
    ensures forall t :: t in s.world.trackers && t.state != null ==>
      t.context in s.world.resets && (t.state.counter > 0 <==> s.world.resets[t.context] > t.state.since)
    ensures forall b :: b in s.world.pending && b.tracks != null ==> !b.tracks.freed
    ensures forall h :: h in s.items && s.items[h].Whole? ==> s.items[h].v.Valid(s.world)
  {
    s := new Session(contexts);
    sights := [];
    for k := 0 to |ops|
      invariant fresh(s) && fresh(s.world) && s.Valid()
      invariant fresh(s.world.trackers) && fresh(s.world.states) && fresh(s.world.pending) && fresh(s.varlenas)
      invariant s.View() == Run(Start(contexts), ops[..k]) && sights == Sights(Start(contexts), ops[..k])
    {
      assert ops[..k + 1][..k] == ops[..k];
      var sight := RunOp(s, ops[k]);
      sights := sights + [sight];
    }
    assert ops[..|ops|] == ops;
    assert forall h :: h in s.items ==> s.Has(h);
  }
}
