/** What a generator coroutine does, seen from its promise, and what a consumer should observe. */
module Bodies {
  import opened Common

  /** The rest of a coroutine body, up to its next suspension point.
      `Nest` is `co_yield elements_of(child)`: when the child is exhausted the body goes on with `rest`;
      when it raised `e`, the body goes on with `handler[e]`, or lets `e` escape when it does not catch it. */
  datatype Body<V, !E> =
    | Return
    | Raise(exn: E)
    | Yield(value: V, next: Body<V, E>)
    | Nest(child: Body<V, E>, rest: Body<V, E>, handler: map<E, Body<V, E>>)

  /** The values delivered before the end, and the exception that ended the run, if any. */
  datatype Trace<V, E> = Trace(values: seq<V>, exn: Option<E>)

  /** A body waiting for the generator it delegated to. */
  datatype Kont<V, !E> = Kont(rest: Body<V, E>, handler: map<E, Body<V, E>>)

  /** How a waiting body goes on once its child has ended with `exn`. */
  function After<V, E>(k: Kont<V, E>, exn: Option<E>): Body<V, E> {
    match exn
    case None => k.rest
    case Some(e) => if e in k.handler then k.handler[e] else Raise(e)
  }

  function Prepend<V, E>(values: seq<V>, t: Trace<V, E>): Trace<V, E> {
    Trace(values + t.values, t.exn)
  }

  lemma PrependPrepend<V, E>(vs: seq<V>, ws: seq<V>, t: Trace<V, E>)
    ensures Prepend(vs, Prepend(ws, t)) == Prepend(vs + ws, t)
  {
    assert vs + (ws + t.values) == vs + ws + t.values;
  }

  /** The recursive meaning: the left-to-right flattening of the tree of generators. */
  function Flatten<V, E>(b: Body<V, E>): Trace<V, E> {
    match b
    case Return => Trace([], None)
    case Raise(e) => Trace([], Some(e))
    case Yield(v, next) => Prepend([v], Flatten(next))
    case Nest(child, rest, handler) =>
      var t := Flatten(child);
      match t.exn {
        case None => Prepend(t.values, Flatten(rest))
        case Some(e) => if e in handler then Prepend(t.values, Flatten(handler[e])) else t
      }
  }

  /** The meaning of a whole stack of waiting bodies, innermost last, whose leaf will produce `t`. */
  function Unwind<V, E>(t: Trace<V, E>, ks: seq<Kont<V, E>>): Trace<V, E>
    decreases |ks|
  {
    if ks == [] then t
    else Unwind(Prepend(t.values, Flatten(After(ks[|ks| - 1], t.exn))), ks[..|ks| - 1])
  }

  lemma {:induction false} UnwindPrepend<V, E>(vs: seq<V>, t: Trace<V, E>, ks: seq<Kont<V, E>>)
    ensures Unwind(Prepend(vs, t), ks) == Prepend(vs, Unwind(t, ks))
    decreases |ks|
  {
    if ks != [] {
      var u := Flatten(After(ks[|ks| - 1], t.exn));
      assert Prepend(vs + t.values, u) == Prepend(vs, Prepend(t.values, u));
      UnwindPrepend(vs, Prepend(t.values, u), ks[..|ks| - 1]);
    }
  }

  /** Delegating pushes a waiting body: nothing about the remaining values changes. */
  lemma UnwindNest<V, E>(b: Body<V, E>, ks: seq<Kont<V, E>>)
    requires b.Nest?
    ensures Unwind(Flatten(b), ks) == Unwind(Flatten(b.child), ks + [Kont(b.rest, b.handler)])
  {
    var k := Kont(b.rest, b.handler);
    assert (ks + [k])[..|ks|] == ks;
    var t := Flatten(b.child);
    assert Flatten(b) == Prepend(t.values, Flatten(After(k, t.exn)));
  }

  /** Finishing pops one: the parent goes on after its child. */
  lemma UnwindPop<V, E>(b: Body<V, E>, ks: seq<Kont<V, E>>)
    requires b.Return? || b.Raise?
    requires ks != []
    ensures Unwind(Flatten(b), ks) == Unwind(Flatten(After(ks[|ks| - 1], Flatten(b).exn)), ks[..|ks| - 1])
  {
    var u := Flatten(After(ks[|ks| - 1], Flatten(b).exn));
    assert Prepend([], u) == u;
  }

  /** The number of coroutine transfers a body still causes, its nested generators included. */
  function Steps<V, E>(b: Body<V, E>): nat {
    match b
    case Return => 1
    case Raise(_) => 1
    case Yield(_, next) => 1 + Steps(next)
    case Nest(child, rest, handler) =>
      1 + Steps(child) +
      match Flatten(child).exn {
        case None => Steps(rest)
        case Some(e) => if e in handler then Steps(handler[e]) else 1
      }
  }

  function StepsAfter<V, E>(exn: Option<E>, ks: seq<Kont<V, E>>): nat
    decreases |ks|
  {
    if ks == [] then 0
    else
      var b := After(ks[|ks| - 1], exn);
      Steps(b) + StepsAfter(Flatten(b).exn, ks[..|ks| - 1])
  }

  /** The transfers left on the whole stack; `Resume` terminates because each one lowers it. */
  function Work<V, E>(b: Body<V, E>, ks: seq<Kont<V, E>>): nat {
    Steps(b) + StepsAfter(Flatten(b).exn, ks)
  }

  lemma WorkNest<V, E>(b: Body<V, E>, ks: seq<Kont<V, E>>)
    requires b.Nest?
    ensures Work(b.child, ks + [Kont(b.rest, b.handler)]) < Work(b, ks)
  {
    assert (ks + [Kont(b.rest, b.handler)])[..|ks|] == ks;
  }

  lemma WorkPop<V, E>(b: Body<V, E>, ks: seq<Kont<V, E>>)
    requires b.Return? || b.Raise?
    requires ks != []
    ensures Work(After(ks[|ks| - 1], Flatten(b).exn), ks[..|ks| - 1]) < Work(b, ks)
  {
  }

  lemma DelegateStep<V, E>(b: Body<V, E>, ks: seq<Kont<V, E>>, k: Kont<V, E>)
    requires b.Nest? && k == Kont(b.rest, b.handler)
    ensures Unwind(Flatten(b), ks) == Unwind(Flatten(b.child), ks + [k])
    ensures Work(b.child, ks + [k]) < Work(b, ks)
  {
    UnwindNest(b, ks);
    WorkNest(b, ks);
  }

  /** The same body with every delegation replaced by a loop that re-yields the child's values one level up,
      the way a consumer without `elements_of` would write it. */
  function Inline<V, E>(b: Body<V, E>): Body<V, E> {
    match b
    case Return => b
    case Raise(_) => b
    case Yield(v, next) => Yield(v, Inline(next))
    case Nest(child, rest, handler) =>
      Splice(Inline(child), Inline(rest), map e | e in handler :: Inline(handler[e]))
  }

  /** `try { for (auto &&x : child) co_yield x; } catch ...` followed by `rest`, for a child that never delegates. */
  function Splice<V, E>(child: Body<V, E>, rest: Body<V, E>, handler: map<E, Body<V, E>>): Body<V, E> {
    match child
    case Return => rest
    case Raise(e) => if e in handler then handler[e] else child
    case Yield(v, next) => Yield(v, Splice(next, rest, handler))
    case Nest(_, _, _) => child
  }

  predicate Flat<V, E>(b: Body<V, E>) {
    match b
    case Return => true
    case Raise(_) => true
    case Yield(_, next) => Flat(next)
    case Nest(_, _, _) => false
  }

  lemma {:induction false} SpliceMeaning<V, E>(child: Body<V, E>, rest: Body<V, E>, handler: map<E, Body<V, E>>)
    requires Flat(child) && Flat(rest) && forall e | e in handler :: Flat(handler[e])
    ensures Flat(Splice(child, rest, handler))
    ensures Flatten(Splice(child, rest, handler)) == Flatten(Nest(child, rest, handler))
    ensures var t, all := Flatten(child), Flatten(Splice(child, rest, handler));
      && (t.exn.None? ==> all == Prepend(t.values, Flatten(rest)))
      && (t.exn.Some? ==>
            var e := t.exn.value; all == if e in handler then Prepend(t.values, Flatten(handler[e])) else t)
    decreases child
  {
    match child
    case Yield(v, next) =>
      SpliceMeaning(next, rest, handler);
    case _ =>
  }

  /** `elements_of` means exactly the re-yielding loop: same values, same exception, at any nesting depth. */
  lemma {:induction false} InlineMeaning<V, E>(b: Body<V, E>)
    ensures Flat(Inline(b)) && Flatten(Inline(b)) == Flatten(b)
  {
    match b
    case Return =>
    case Raise(_) =>
    case Yield(_, next) => InlineMeaning(next);
    case Nest(child, rest, handler) =>
      InlineMeaning(child);
      InlineMeaning(rest);
      var handler' := map e | e in handler :: Inline(handler[e]);
      forall e | e in handler ensures Flat(handler'[e]) && Flatten(handler'[e]) == Flatten(handler[e]) {
        InlineMeaning(handler[e]);
      }
      SpliceMeaning(Inline(child), Inline(rest), handler');
  }

  // ---------------------------------------------------------------- exceptions climbing

  /** A generator that first yields some values, then delegates; and how it goes on after its child. */
  datatype Level<V, !E> = Level(before: seq<V>, rest: Body<V, E>, handler: map<E, Body<V, E>>)

  function YieldAll<V, E>(values: seq<V>, last: Body<V, E>): Body<V, E> {
    if values == [] then last else Yield(values[0], YieldAll(values[1..], last))
  }

  /** Nested generators, outermost first, the innermost of which delegates to `core`. */
  function Stack<V, E>(levels: seq<Level<V, E>>, core: Body<V, E>): Body<V, E> {
    if levels == [] then core
    else YieldAll(levels[0].before, Nest(Stack(levels[1..], core), levels[0].rest, levels[0].handler))
  }

  /** What the levels yield on the way in. */
  function Before<V, E>(levels: seq<Level<V, E>>): seq<V> {
    if levels == [] then [] else levels[0].before + Before(levels[1..])
  }

  ghost predicate NoneCatches<V, E>(levels: seq<Level<V, E>>, e: E) {
    forall i :: 0 <= i < |levels| ==> e !in levels[i].handler
  }

  lemma {:induction false} YieldAllMeaning<V, E>(values: seq<V>, last: Body<V, E>)
    ensures Flatten(YieldAll(values, last)) == Prepend(values, Flatten(last))
  {
    if values == [] {
      assert [] + Flatten(last).values == Flatten(last).values;
    } else {
      YieldAllMeaning(values[1..], last);
      PrependPrepend([values[0]], values[1..], Flatten(last));
      assert [values[0]] + values[1..] == values;
    }
  }

  lemma PrependNothing<V, E>(t: Trace<V, E>)
    ensures Prepend(t.values, Trace([], t.exn)) == t && Prepend([], t) == t
  {
    assert t.values + [] == t.values && [] + t.values == t.values;
  }

  /** What a stack means, from the outermost level in: its own values, those of the generator it delegates to, and then
      what it goes on with when that has ended, normally or with an exception. */
  lemma StackMeaning<V, E>(levels: seq<Level<V, E>>, core: Body<V, E>)
    requires levels != []
    ensures var inner, l, t := Flatten(Stack(levels[1..], core)), levels[0], Flatten(Stack(levels, core));
      && (inner.exn.None? ==> t == Prepend(l.before, Prepend(inner.values, Flatten(l.rest))))
      && (inner.exn.Some? ==>
            var e := inner.exn.value;
            t == if e in l.handler then Prepend(l.before, Prepend(inner.values, Flatten(l.handler[e])))
                 else Trace(l.before + inner.values, Some(e)))
  {
    var l, inner := levels[0], Flatten(Stack(levels[1..], core));
    YieldAllMeaning(l.before, Nest(Stack(levels[1..], core), l.rest, l.handler));
    PrependNothing(inner);
  }

  /** What the levels yield on the way out, the innermost first. */
  function Afterwards<V, E>(levels: seq<Level<V, E>>): seq<V> {
    if levels == [] then [] else Afterwards(levels[1..]) + Flatten(levels[0].rest).values
  }

  ghost predicate RestsEnd<V, E>(levels: seq<Level<V, E>>) {
    forall i :: 0 <= i < |levels| ==> Flatten(levels[i].rest).exn.None?
  }

  lemma Associates<V>(a: seq<V>, b: seq<V>, c: seq<V>)
    ensures a + (b + c) == a + b + c
  {
  }

  lemma Around<V>(a: seq<V>, b: seq<V>, c: seq<V>, d: seq<V>, e: seq<V>)
    ensures a + (b + c + d + e) == a + b + c + (d + e)
  {
    Associates(a, b + c + d, e);
    Associates(a, b + c, d);
    Associates(a, b, c);
    Associates(a + b + c, d, e);
  }

  /** A generator that ends normally gives control back to the one that delegated to it, and so on outwards: what is
      delivered is what the levels yield on the way in, what it yields, and what each level yields afterwards. */
  lemma {:induction false} EndsThrough<V, E>(levels: seq<Level<V, E>>, core: Body<V, E>)
    requires RestsEnd(levels) && Flatten(core).exn.None?
    ensures Flatten(Stack(levels, core)) == Trace(Before(levels) + Flatten(core).values + Afterwards(levels), None)
  {
    var vs := Flatten(core).values;
    if levels == [] {
      assert [] + vs + [] == vs;
    } else {
      assert RestsEnd(levels[1..]);
      EndsThrough(levels[1..], core);
      StackMeaning(levels, core);
      Around(levels[0].before, Before(levels[1..]), vs, Afterwards(levels[1..]), Flatten(levels[0].rest).values);
    }
  }

  /** So the values of a nested generator that ends normally are followed by those of the rest of its parent. */
  lemma NestedThenRest<V, E>(values: seq<V>, rest: Body<V, E>, handler: map<E, Body<V, E>>)
    ensures Flatten(YieldAll<V, E>(values, Return)) == Trace(values, None)
    ensures Flatten(Nest(YieldAll(values, Return), rest, handler))
         == Trace(values + Flatten(rest).values, Flatten(rest).exn)
  {
    YieldAllMeaning<V, E>(values, Return);
    assert values + [] == values;
  }

  /** An exception raised under any number of levels, none of which catches it, comes out at the top unchanged, after
      exactly the values produced before it. */
  lemma {:induction false} ClimbsThrough<V, E>(levels: seq<Level<V, E>>, e: E)
    requires NoneCatches(levels, e)
    ensures Flatten(Stack(levels, Raise(e))) == Trace(Before(levels), Some(e))
  {
    if levels != [] {
      assert NoneCatches(levels[1..], e);
      ClimbsThrough(levels[1..], e);
      StackMeaning(levels, Raise(e));
    }
  }

  /** The innermost level that catches it, wherever it is, goes on with its handler right after those values; to the
      levels around it nothing else has happened. */
  lemma {:induction false} CaughtInnermost<V, E>(
      outer: seq<Level<V, E>>, catcher: Level<V, E>, inner: seq<Level<V, E>>, e: E)
    requires e in catcher.handler && NoneCatches(inner, e)
    ensures Flatten(Stack(outer + [catcher] + inner, Raise(e)))
         == Flatten(Stack(outer, YieldAll(Before([catcher] + inner), catcher.handler[e])))
    decreases |outer|
  {
    var levels, handled := outer + [catcher] + inner, catcher.handler[e];
    StackMeaning(levels, Raise(e));
    if outer == [] {
      assert levels == [catcher] + inner && levels[1..] == inner;
      ClimbsThrough(inner, e);
      YieldAllMeaning(Before([catcher] + inner), handled);
      assert ([catcher] + inner)[1..] == inner;
      PrependPrepend(catcher.before, Before(inner), Flatten(handled));
    } else {
      assert levels[1..] == outer[1..] + [catcher] + inner && levels[0] == outer[0];
      CaughtInnermost(outer[1..], catcher, inner, e);
      StackMeaning(outer, YieldAll(Before([catcher] + inner), handled));
    }
  }

  /** Levels whose own code raises nothing. */
  ghost predicate Peaceful<V, E>(levels: seq<Level<V, E>>) {
    forall i :: 0 <= i < |levels| ==>
      && Flatten(levels[i].rest).exn.None?
      && forall e :: e in levels[i].handler ==> Flatten(levels[i].handler[e]).exn.None?
  }

  lemma {:induction false} PeacefulAfter<V, E>(levels: seq<Level<V, E>>, core: Body<V, E>)
    requires Peaceful(levels) && Flatten(core).exn.None?
    ensures Flatten(Stack(levels, core)).exn.None?
  {
    if levels != [] {
      assert Peaceful(levels[1..]);
      PeacefulAfter(levels[1..], core);
      StackMeaning(levels, core);
    }
  }

  /** So an exception reaches the consumer exactly when no level catches it, unless their own code raises others. */
  lemma {:induction false} ReachesConsumerExactlyWhen<V, E>(levels: seq<Level<V, E>>, e: E)
    requires Peaceful(levels)
    ensures Flatten(Stack(levels, Raise(e))).exn == Some(e) <==> NoneCatches(levels, e)
    ensures Flatten(Stack(levels, Raise(e))).exn == None <==> !NoneCatches(levels, e)
  {
    if NoneCatches(levels, e) {
      ClimbsThrough(levels, e);
    } else {
      var k := InnermostCatcher(levels, e);
      var outer, catcher, inner := levels[..k], levels[k], levels[k + 1..];
      assert levels == outer + [catcher] + inner;
      CaughtInnermost(outer, catcher, inner, e);
      YieldAllMeaning(Before([catcher] + inner), catcher.handler[e]);
      assert Peaceful(outer) by {
        assert forall i :: 0 <= i < k ==> outer[i] == levels[i];
      }
      PeacefulAfter(outer, YieldAll(Before([catcher] + inner), catcher.handler[e]));
    }
  }

  lemma {:induction false} InnermostCatcher<V, E>(levels: seq<Level<V, E>>, e: E) returns (k: nat)
    requires !NoneCatches(levels, e)
    ensures k < |levels| && e in levels[k].handler && NoneCatches(levels[k + 1..], e)
    decreases |levels|
  {
    if NoneCatches(levels[1..], e) {
      k := 0;
    } else {
      var j := InnermostCatcher(levels[1..], e);
      k := j + 1;
      assert levels[1..][j + 1..] == levels[k + 1..];
    }
  }
}
