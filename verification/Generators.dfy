/** The promise and coroutine machinery of the in-tree generator: a chain of suspended frames in which the
    root's `parentOrLeaf` is the leaf and every nested frame's `parentOrLeaf` is its parent. */
module Generators {
  import opened Bodies
  import opened Common

  /** Storage whose lifetime is managed by hand. */
  datatype Slot<+T> = Raw | Live(value: T)

  /** Where a coroutine is suspended. `Blocked` is suspended inside the yield-sequence awaiter. */
  datatype Point<V, !E> =
    | Ready(body: Body<V, E>)
    | Blocked(kont: Kont<V, E>)
    | Finished
    | Destroyed

  /** What `resume` did from the consumer's point of view. */
  datatype Outcome<+E> = Suspended | Threw(exn: E) {
    function Exception(): Option<E> {
      match this
      case Suspended => None
      case Threw(e) => Some(e)
    }
  }

  /** A coroutine frame with its promise. */
  class Frame<V, E(==)> {
    var root: Frame<V, E>
    var parentOrLeaf: Frame<V, E>
    var exception: Slot<Option<E>>
    var value: Slot<V>
    var point: Point<V, E>
    var awaiting: Frame?<V, E>  // the nested generator owned by the awaiter in this frame
    ghost var depth: nat        // the number of enclosing frames

    constructor (body: Body<V, E>)
      ensures root == this && parentOrLeaf == this && exception == Raw && value == Raw
      ensures point == Ready(body) && awaiting == null && depth == 0
    {
      root, parentOrLeaf, exception, value := this, this, Raw, Raw;
      point, awaiting, depth := Ready(body), null, 0;
    }

    /** Frame `i` of `chain`, outermost first, knows the root, its parent, and the child it waits for. */
    static ghost predicate At(chain: seq<Frame<V, E>>, i: nat)
      requires i < |chain|
      reads chain
    {
      var f := chain[i];
      && f.root == chain[0] && f.depth == i
      && (if i == 0 then f.exception.Raw? else f.exception.Live? && f.value.Raw? && f.parentOrLeaf == chain[i - 1])
      && (if i == |chain| - 1 then f.awaiting == null
          else f.awaiting == chain[i + 1] && f.point.Blocked? && (i > 0 ==> f.exception == Live(None)))
    }

    /** The frames of `chain` are linked, and the root records `leaf`. */
    static ghost predicate Links(chain: seq<Frame<V, E>>, leaf: Frame<V, E>)
      reads chain
    {
      && chain != [] && chain[0].parentOrLeaf == leaf
      && (forall i {:trigger chain[i].root} {:trigger chain[i].depth} {:trigger chain[i].exception}
                   {:trigger chain[i].value} {:trigger chain[i].parentOrLeaf} {:trigger chain[i].awaiting}
                   {:trigger chain[i].point} :: 0 <= i < |chain| ==> At(chain, i))
    }

    /** The shape kept between any two steps: the recorded leaf is the innermost frame. */
    static ghost predicate Chain(chain: seq<Frame<V, E>>)
      reads chain
    {
      && chain != []
      && Links(chain, chain[|chain| - 1])
      && (|chain| > 1 ==> chain[|chain| - 1].exception == Live(None))
    }

    /** Following `parentOrLeaf` from the leaf that the root records visits every active frame once and ends at
        the root. */
    static ghost function Climb(chain: seq<Frame<V, E>>, k: nat): (f: Frame<V, E>)
      requires Chain(chain) && k < |chain|
      reads chain
      ensures f == chain[|chain| - 1 - k]
    {
      if k == 0 then chain[0].parentOrLeaf else Climb(chain, k - 1).parentOrLeaf
    }

    /** `yield_value`: the value goes to the root's slot, whatever the depth. */
    method YieldValue(ghost chain: seq<Frame<V, E>>, v: V, next: Body<V, E>)
      requires Chain(chain) && chain[|chain| - 1] == this && chain[0].value.Raw?
      modifies root`value, this`point
      ensures Chain(chain) && chain[0].value == Live(v) && point == Ready(next)
    {
      root.value := Live(v);
      point := Ready(next);
      forall i | 0 <= i < |chain| ensures At(chain, i) {
        assert old(At(chain, i)) && chain[i].depth == i;
      }
    }

    /** `__yield_sequence_awaiter::await_suspend`: adopt the nested generator and make it the leaf. */
    method AwaitSuspend(ghost chain: seq<Frame<V, E>>, nested: Frame<V, E>, kont: Kont<V, E>)
      requires Chain(chain) && chain[|chain| - 1] == this
      requires nested !in chain && nested.awaiting == null && nested.exception.Raw? && nested.value.Raw?
      modifies this`point, this`awaiting, root`parentOrLeaf
      modifies nested`root, nested`parentOrLeaf, nested`exception, nested`depth
      ensures Chain(chain + [nested]) && point == Blocked(kont)
      ensures nested.exception == Live(None)
    {
      point := Blocked(kont);
      awaiting := nested;
      nested.root := root;
      nested.parentOrLeaf := this;
      nested.exception := Live(None);
      root.parentOrLeaf := nested;
      nested.depth := |chain|;
      ghost var longer := chain + [nested];
      assert forall i :: 0 <= i < |chain| ==> chain[i] != nested && longer[i] == chain[i];
    }

    /** `unhandled_exception`: a nested frame keeps it for its parent, the root lets it out. */
    method UnhandledException(ghost chain: seq<Frame<V, E>>, e: E) returns (rethrown: bool)
      requires Chain(chain) && chain[|chain| - 1] == this
      modifies this`exception
      ensures Links(chain, this) && (rethrown <==> this == chain[0])
      ensures !rethrown ==> exception == Live(Some(e))
    {
      if root != this {
        exception := Live(Some(e));
        rethrown := false;
      } else {
        rethrown := true;
      }
      forall i | 0 <= i < |chain| ensures At(chain, i) { assert old(At(chain, i)) && chain[i].depth == i; }
    }

    /** `__final_awaiter::await_suspend`: hand control to the parent, which becomes the leaf; the root just stops. */
    method FinalSuspend(ghost chain: seq<Frame<V, E>>) returns (next: Frame?<V, E>)
      requires Links(chain, this) && chain[|chain| - 1] == this
      modifies this`point, root`parentOrLeaf
      ensures point == Finished
      ensures if |chain| == 1 then next == null && Chain(chain)
              else next == chain[|chain| - 2] && Links(chain, chain[|chain| - 2])
    {
      point := Finished;
      if root != this {
        var parent := parentOrLeaf;
        root.parentOrLeaf := parent;
        next := parent;
      } else {
        next := null;
      }
      forall i | 0 <= i < |chain| ensures At(chain, i) { assert old(At(chain, i)) && chain[i].depth == i; }
    }

    /** `__yield_sequence_awaiter::await_resume` and the end of the awaiter's life: take the child's stored
        exception, destroy the child, and go on after the `co_yield`. */
    method AwaitResume(ghost chain: seq<Frame<V, E>>)
      requires |chain| > 1 && Links(chain, this) && chain[|chain| - 2] == this
      requires chain[|chain| - 1].point.Finished?
      modifies this`point, this`awaiting, chain[|chain| - 1]
      ensures Chain(chain[..|chain| - 1])
      ensures point == Ready(After(old(point.kont), old(chain[|chain| - 1].exception.value)))
      ensures chain[|chain| - 1].point == Destroyed && chain[|chain| - 1].exception.Raw?
      ensures chain[|chain| - 1].value.Raw?
    {
      var nested := awaiting;
      var exn := nested.exception.value;
      nested.exception := Live(None);
      point := Ready(After(point.kont, exn));
      ghost var _ := nested.Destroy([nested], nested.root);
      awaiting := null;
      ghost var shorter := chain[..|chain| - 1];
      forall i | 0 <= i < |shorter| ensures At(shorter, i) {
        assert old(At(chain, i)) && chain[i].depth == i && shorter[i] == chain[i];
      }
    }

    /** `coroutine_handle::destroy`: the frame's own locals go first, among them the awaiter that owns the nested
        generator, so a chain is destroyed from the leaf back; then the promise, which owns an exception slot only
        when it was nested. Each slot is live when it is destructed. */
    method Destroy(ghost chain: seq<Frame<V, E>>, ghost top: Frame<V, E>) returns (ghost order: seq<Frame<V, E>>)
      requires chain != [] && chain[0] == this && chain[|chain| - 1].awaiting == null
      requires forall i :: 0 <= i < |chain| ==> chain[i].depth == depth + i
      requires forall i {:trigger chain[i].awaiting} :: 0 <= i < |chain| - 1 ==> chain[i].awaiting == chain[i + 1]
      requires forall i :: 0 <= i < |chain| ==> chain[i].root == top && !chain[i].point.Destroyed?
      requires forall i :: 0 <= i < |chain| ==> (chain[i].exception.Live? <==> chain[i] != top)
      requires forall i :: 0 <= i < |chain| ==> chain[i].value.Raw?
      modifies chain
      ensures forall f :: f in chain ==> f.point == Destroyed && f.exception.Raw? && f.value.Raw?
      ensures order == Reversed(chain)
      decreases |chain|
    {
      order := [];
      if awaiting != null {
        ghost var inner := chain[1..];
        assert forall i :: 0 < i < |chain| ==> chain[i] == inner[i - 1];
        assert this !in inner;
        order := awaiting.Destroy(inner, top);
      }
      if root != this {
        exception := Raw;
      }
      point := Destroyed;
      order := order + [this];
    }
  }

  /** A consumer's generator object together with its single iterator. */
  class Generator<V, E(==)> {
    var coro: Frame?<V, E>
    var started: bool
    ghost var chain: seq<Frame<V, E>>      // the active frames, outermost first
    ghost var konts: seq<Kont<V, E>>       // what each frame but the last is waiting to do
    ghost var made: nat                    // how many frames were ever created for this generator
    ghost var ended: nat                   // how many of them have been destroyed

    /** The active frames form a chain whose leaf can run or has finished. */
    ghost predicate Linked()
      reads this, chain
    {
      && made == ended + |chain|
      && (coro == null <==> chain == [])
      && (coro != null ==>
            && chain[0] == coro
            && Frame.Chain(chain)
            && |konts| == |chain| - 1
            && (forall i {:trigger chain[i].point} :: 0 <= i < |chain| - 1 ==> chain[i].point == Blocked(konts[i]))
            && !chain[|chain| - 1].point.Destroyed? && !chain[|chain| - 1].point.Blocked?
            && (chain[|chain| - 1].point.Finished? ==> |chain| == 1))
    }

    /** What the consumer is still going to see after the value it is looking at. */
    ghost function Remaining(): Trace<V, E>
      reads this, chain
    {
      if chain != [] && chain[|chain| - 1].point.Ready?
      then Unwind(Flatten(chain[|chain| - 1].point.body), konts)
      else Trace([], None)
    }

    ghost function WorkLeft(): nat
      reads this, chain
    {
      if chain != [] && chain[|chain| - 1].point.Ready? then Work(chain[|chain| - 1].point.body, konts) else 0
    }

    /** A value is live exactly while the consumer looks at one. */
    ghost predicate Valid()
      reads this, chain
    {
      && Linked()
      && (coro != null && !started ==> |chain| == 1 && coro.point.Ready? && coro.value.Raw?)
      && (coro != null && started ==> (coro.value.Live? <==> chain[|chain| - 1].point.Ready?))
    }

    constructor (body: Body<V, E>)
      ensures Valid() && fresh(coro) && chain == [coro] && coro != null && !started && Remaining() == Flatten(body)
    {
      coro := new Frame(body);
      started := false;
      new;
      chain, konts, made, ended := [coro], [], 1, 0;
    }

    predicate Done()
      requires coro != null
      reads this, coro
    {
      coro.point.Finished?
    }

    /** The innermost frame is running and no value is live. */
    ghost predicate Running(h: Frame<V, E>)
      reads this, chain
    {
      Linked() && coro != null && h == chain[|chain| - 1] && h.point.Ready? && coro.value.Raw?
    }

    method OnYield(h: Frame<V, E>)
      requires Running(h) && h.point.body.Yield?
      modifies chain
      ensures unchanged(this)
      ensures Linked() && coro.value == Live(old(h.point.body.value)) && h.point.Ready?
      ensures old(Remaining()) == Prepend([old(h.point.body.value)], Remaining())
    {
      var v, next := h.point.body.value, h.point.body.next;
      h.YieldValue(chain, v, next);
      UnwindPrepend([v], Flatten(next), konts);
    }

    /** Makes `nested` the leaf. */
    method Push(h: Frame<V, E>, nested: Frame<V, E>, kont: Kont<V, E>)
      requires Running(h) && nested !in chain && nested.awaiting == null
      requires nested.exception.Raw? && nested.value.Raw? && nested.point.Ready?
      modifies this`chain, this`konts, this`made, chain
      modifies nested`root, nested`parentOrLeaf, nested`exception, nested`depth
      ensures coro == old(coro) && ended == old(ended)
      ensures chain == old(chain) + [nested] && konts == old(konts) + [kont]
      ensures Running(nested)
    {
      h.AwaitSuspend(chain, nested, kont);
      chain, konts, made := chain + [nested], konts + [kont], made + 1;
    }

    method OnNest(h: Frame<V, E>) returns (nested: Frame<V, E>)
      requires Running(h) && h.point.body.Nest?
      modifies this`chain, this`konts, this`made, chain
      ensures coro == old(coro) && fresh(nested) && chain == old(chain) + [nested] && ended == old(ended)
      ensures Running(nested) && Remaining() == old(Remaining())
      ensures WorkLeft() < old(WorkLeft())
    {
      var body, kont := h.point.body, Kont(h.point.body.rest, h.point.body.handler);
      DelegateStep(body, konts, kont);
      nested := new Frame(body.child);
      Push(h, nested, kont);
    }

    /** The child of `parent` has finished and control is back in `parent`. */
    ghost predicate Returning(parent: Frame<V, E>)
      reads this, chain
    {
      && made == ended + |chain| && |chain| > 1 && parent == chain[|chain| - 2]
      && Frame.Links(chain, parent)
      && chain[|chain| - 1].point.Finished?
      && coro == chain[0] && coro.value.Raw?
      && |konts| == |chain| - 1
      && (forall i {:trigger chain[i].point} :: 0 <= i < |chain| - 1 ==> chain[i].point == Blocked(konts[i]))
    }

    /** A body ends, normally or by an exception: control goes to the parent frame, or to the consumer. */
    method OnEnd(h: Frame<V, E>) returns (parent: Frame?<V, E>, o: Outcome<E>)
      requires Running(h) && (h.point.body.Return? || h.point.body.Raise?)
      modifies chain
      ensures unchanged(this)
      ensures if |chain| > 1 then parent != null && Returning(parent) else parent == null && Linked() && Done()
      ensures h.exception.Live? ==> h.exception.value == old(Flatten(h.point.body).exn)
      ensures coro.value.Raw?
      ensures parent == null ==> o.Exception() == old(Flatten(h.point.body)).exn
    {
      var body := h.point.body;
      o := Suspended;
      if body.Raise? {
        var rethrown := h.UnhandledException(chain, body.exn);
        if rethrown {
          o := Threw(body.exn);
        }
      }
      parent := h.FinalSuspend(chain);
    }

    method OnReturn(parent: Frame<V, E>)
      requires Returning(parent)
      modifies this`chain, this`konts, this`ended, chain
      ensures coro == old(coro) && made == old(made)
      ensures old(chain[|chain| - 1]).point == Destroyed && old(chain[|chain| - 1]).exception.Raw?
      ensures Running(parent)
      ensures parent.point.body == After(old(konts[|konts| - 1]), old(chain[|chain| - 1].exception.value))
      ensures konts == old(konts[..|konts| - 1]) && chain == old(chain[..|chain| - 1])
    {
      parent.AwaitResume(chain);
      ended := ended + 1;
      chain := chain[..|chain| - 1];
      konts := konts[..|konts| - 1];
    }

    /** What the consumer is still going to see, the value it is looking at included. */
    ghost function Pending(): Trace<V, E>
      reads this, chain
    {
      if chain != [] && chain[0].value.Live? then Prepend([chain[0].value.value], Remaining()) else Remaining()
    }

    /** Control is back with a consumer that was still to see `t`: it looks at the next value, or the generator
        is done and any exception has come out. */
    ghost predicate Delivered(t: Trace<V, E>, o: Outcome<E>)
      reads this, chain
    {
      && chain != []
      && if t.values != [] then
           && o == Suspended && chain[|chain| - 1].point.Ready?
           && chain[0].value.Live? && Pending() == t
         else
           && chain[0].point.Finished? && chain[0].value.Raw?
           && o.Exception() == t.exn
    }

    /** A body ends and, unless it was the root's, its parent goes on. */
    method OnFinish(h: Frame<V, E>) returns (next: Frame?<V, E>, o: Outcome<E>)
      requires Running(h) && (h.point.body.Return? || h.point.body.Raise?)
      modifies this`chain, this`konts, this`ended, chain
      ensures coro == old(coro) && made == old(made)
      ensures next == null ==> Linked() && chain == old(chain) && Delivered(old(Remaining()), o)
      ensures next != null ==> Running(next) && Remaining() == old(Remaining()) && WorkLeft() < old(WorkLeft())
      ensures next != null ==> chain == old(chain[..|chain| - 1]) && h.point == Destroyed && h.exception.Raw?
    {
      ghost var body := h.point.body;
      next, o := OnEnd(h);
      if next != null {
        UnwindPop(body, konts);
        WorkPop(body, konts);
        OnReturn(next);
      }
    }

    /** Runs coroutines from `leaf` until control is back with the consumer. */
    method Resume(leaf: Frame<V, E>) returns (o: Outcome<E>)
      requires Running(leaf)
      modifies this`chain, this`konts, this`made, this`ended, chain
      ensures Linked() && coro == old(coro) && Delivered(old(Remaining()), o)
      ensures forall i :: 0 <= i < |chain| ==> (i < old(|chain|) && chain[i] == old(chain[i])) || fresh(chain[i])
    {
      var h: Frame<V, E> := leaf;
      while true
        invariant Running(h) && coro == old(coro)
        invariant forall i :: 0 <= i < |chain| ==> (i < old(|chain|) && chain[i] == old(chain[i])) || fresh(chain[i])
        invariant Remaining() == old(Remaining())
        decreases WorkLeft()
      {
        if h.point.body.Yield? {
          OnYield(h);
          return Suspended;
        } else if h.point.body.Nest? {
          h := OnNest(h);
        } else {
          var next, outcome := OnFinish(h);
          if next == null {
            return outcome;
          }
          h := next;
        }
      }
    }

    /** `begin()`: starts the root coroutine. */
    method Begin() returns (o: Outcome<E>)
      requires Valid() && coro != null && !started
      modifies this`started, this`chain, this`konts, this`made, this`ended, chain
      ensures Valid() && started && coro == old(coro) && Delivered(old(Remaining()), o)
      ensures forall i :: 0 <= i < |chain| ==> (i < old(|chain|) && chain[i] == old(chain[i])) || fresh(chain[i])
    {
      started := true;
      o := Resume(coro);
    }

    /** `++it`: drops the current value and resumes the leaf the root has recorded. */
    method Increment() returns (o: Outcome<E>)
      requires Valid() && coro != null && started && !Done()
      modifies this`chain, this`konts, this`made, this`ended, chain
      ensures Valid() && coro == old(coro) && Delivered(old(Remaining()), o)
      ensures forall i :: 0 <= i < |chain| ==> (i < old(|chain|) && chain[i] == old(chain[i])) || fresh(chain[i])
    {
      coro.value := Raw;
      forall i | 0 <= i < |chain| ensures Frame.At(chain, i) { assert old(Frame.At(chain, i)) && chain[i].depth == i; }
      o := Resume(coro.parentOrLeaf);
    }

    /** `*it`. */
    method Current() returns (v: V)
      requires Valid() && coro != null && started && !Done()
      ensures coro.value == Live(v)
    {
      v := coro.value.value;
    }

    /** A consumer that was to see `all` has seen `seen`; `o` is what the last resumption did. */
    ghost predicate Watched(all: Trace<V, E>, seen: seq<V>, o: Outcome<E>)
      reads this, chain
    {
      && Valid() && coro != null && started
      && if Done() then all == Trace(seen, o.Exception()) else all == Prepend(seen, Pending())
    }

    lemma WatchedLength(all: Trace<V, E>, seen: seq<V>, o: Outcome<E>)
      requires Watched(all, seen, o)
      ensures |seen| <= |all.values| && (|seen| == |all.values| <==> Done()) && seen <= all.values
    {
    }

    /** What a loop does between two values: reads the current one and moves on. */
    method Next(ghost all: Trace<V, E>, ghost seen: seq<V>, ghost last: Outcome<E>) returns (v: V, o: Outcome<E>)
      requires Watched(all, seen, last) && !Done()
      modifies this`chain, this`konts, this`made, this`ended, chain
      ensures Watched(all, seen + [v], o)
      ensures forall i :: 0 <= i < |chain| ==> chain[i] in old(chain) || fresh(chain[i])
    {
      v := Current();
      PrependPrepend(seen, [v], Remaining());
      ghost var rest := Remaining();
      o := Increment();
      DeliveredWatched(all, seen + [v], rest, o);
    }

    lemma DeliveredWatched(all: Trace<V, E>, seen: seq<V>, rest: Trace<V, E>, o: Outcome<E>)
      requires Valid() && coro != null && started && all == Prepend(seen, rest) && Delivered(rest, o)
      ensures Watched(all, seen, o)
    {
    }

    /** `~generator()`, at any point of the generator's life: the live value goes, then every frame. */
    method Drop() returns (ghost order: seq<Frame<V, E>>)
      requires Valid()
      modifies this, chain
      ensures Valid() && coro == null && ended == made == old(made)
      ensures order == Reversed(old(chain))
      ensures forall i :: 0 <= i < old(|chain|) ==>
        old(chain[i]).point == Destroyed && old(chain[i]).exception.Raw? && old(chain[i]).value.Raw?
    {
      order := [];
      if coro != null {
        if started && !Done() {
          coro.value := Raw;
        }
        order := coro.Destroy(chain, coro);
      }
      coro, chain, konts, ended := null, [], [], made;
    }
  }

  /** A range-for loop over a generator that has not been started. */
  method Collect<V, E>(g: Generator<V, E>) returns (out: seq<V>, thrown: Option<E>)
    requires g.Valid() && g.coro != null && !g.started
    modifies g, g.chain
    ensures g.Valid() && g.coro != null && g.Done()
    ensures forall i :: 0 <= i < |g.chain| ==> g.chain[i] in old(g.chain) || fresh(g.chain[i])
    ensures Trace(out, thrown) == old(g.Remaining())
  {
    out := [];
    ghost var all := g.Remaining();
    var o := g.Begin();
    g.DeliveredWatched(all, [], all, o);
    while !g.Done()
      invariant g.Watched(all, out, o)
      invariant forall i :: 0 <= i < |g.chain| ==> g.chain[i] in old(g.chain) || fresh(g.chain[i])
      decreases |all.values| - |out|
    {
      g.WatchedLength(all, out, o);
      var v, o' := g.Next(all, out, o);
      out, o := out + [v], o';
    }
    thrown := o.Exception();
  }

  /** A consumer that looks at no more than `limit` values and then drops the generator. */
  method TakeAndDrop<V, E>(g: Generator<V, E>, limit: nat) returns (out: seq<V>)
    requires g.Valid() && g.coro != null && !g.started
    modifies g, g.chain
    ensures var all := old(g.Remaining()).values; out == if |all| <= limit then all else all[..limit]
    ensures g.Valid() && g.coro == null && g.ended == g.made
  {
    out := [];
    if limit > 0 {
      ghost var all := g.Remaining();
      var o := g.Begin();
      g.DeliveredWatched(all, [], all, o);
      while |out| < limit && !g.Done()
        invariant g.Watched(all, out, o) && |out| <= limit
        invariant forall i :: 0 <= i < |g.chain| ==> g.chain[i] in old(g.chain) || fresh(g.chain[i])
      {
        var v, o' := g.Next(all, out, o);
        out, o := out + [v], o';
      }
      g.WatchedLength(all, out, o);
    }
    ghost var _ := g.Drop();
  }

  /** From a body to what the loop sees: values in order, and the exception exactly when no level caught it. */
  method RunBody<V, E>(body: Body<V, E>) returns (out: seq<V>, thrown: Option<E>)
    ensures Trace(out, thrown) == Flatten(body)
  {
    var g := new Generator(body);
    out, thrown := Collect(g);
    ghost var _ := g.Drop();
  }
}
