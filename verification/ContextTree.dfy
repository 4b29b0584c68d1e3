/** Postgres' memory contexts as a tree, with the objects constructed in them, as a value. */
module ContextTree {
  import opened Common

  /** `callbacks` holds the contexts that exist, each with the objects whose destructors are registered on it, oldest
      first. Contexts and objects are numbered as they are made. The rest is history: the parent of each context ever
      made, the context each object was constructed in and the objects that were registered there before it, and the
      order in which contexts were deleted and objects destroyed. */
  datatype Tree = Tree(
    callbacks: map<nat, seq<nat>>, nextContext: nat, nextObject: nat,
    parent: map<nat, nat>, home: map<nat, nat>, older: map<nat, seq<nat>>, deleted: seq<nat>, destroyed: seq<nat>)

  /** The top context exists from the start. */
  function Initial(): Tree {
    Tree(map[0 := []], 1, 0, map[], map[], map[], [], [])
  }

  function Create(s: Tree, under: nat): Tree {
    s.(callbacks := s.callbacks[s.nextContext := []], parent := s.parent[s.nextContext := under],
       nextContext := s.nextContext + 1)
  }

  function Construct(s: Tree, c: nat): Tree
    requires c in s.callbacks
  {
    s.(callbacks := s.callbacks[c := s.callbacks[c] + [s.nextObject]],
       home := s.home[s.nextObject := c], older := s.older[s.nextObject := s.callbacks[c]],
       nextObject := s.nextObject + 1)
  }

  /** The last registered callback runs and is discarded. */
  function RunLast(s: Tree, c: nat): Tree
    requires c in s.callbacks && s.callbacks[c] != []
  {
    var cbs := s.callbacks[c];
    s.(callbacks := s.callbacks[c := cbs[..|cbs| - 1]], destroyed := s.destroyed + [cbs[|cbs| - 1]])
  }

  function RunAll(s: Tree, c: nat): Tree
    requires c in s.callbacks
    decreases |s.callbacks[c]|
  {
    if s.callbacks[c] == [] then s else RunAll(RunLast(s, c), c)
  }

  function Remove(s: Tree, c: nat): Tree {
    s.(callbacks := s.callbacks - {c}, deleted := s.deleted + [c])
  }

  /** `d` is an existing child of `c`. */
  predicate IsChild(s: Tree, c: nat, d: nat) {
    d in s.callbacks && d in s.parent && s.parent[d] == c
  }

  /** `n` is more than any context's number. */
  function DeleteChild(s: Tree, c: nat, d: nat, n: nat): Tree
    requires c < d < n
    decreases n - c, 0
  {
    if IsChild(s, c, d) then Delete(s, d, n) else s
  }

  /** The children of `c` numbered below `hi` go, the latest first, each with all that is below it. */
  function DeleteChildren(s: Tree, c: nat, hi: nat, n: nat): Tree
    requires hi <= n
    decreases n - c, 1, hi
  {
    if hi <= c + 1 then s else DeleteChildren(DeleteChild(s, c, hi - 1, n), c, hi - 1, n)
  }

  /** `MemoryContextDelete`: the children first. */
  function Delete(s: Tree, c: nat, n: nat): Tree
    requires c < n
    decreases n - c, 2
  {
    var t := DeleteChildren(s, c, n, n);
    if c in t.callbacks then Remove(RunAll(t, c), c) else t
  }

  /** `MemoryContextReset`. */
  function Reset(s: Tree, c: nat): Tree {
    var t := DeleteChildren(s, c, s.nextContext, s.nextContext);
    if c in t.callbacks then RunAll(t, c) else t
  }

  // ---------------------------------------------------------------- what every operation keeps

  predicate HasParent(s: Tree, c: nat) {
    c in s.parent && s.parent[c] in s.callbacks
  }

  /** Each context ever made exists below one that exists, or has been deleted once. */
  ghost predicate Contexts(s: Tree) {
    && 0 in s.callbacks && 0 !in s.parent
    && (forall c :: c in s.callbacks ==> c < s.nextContext)
    && (forall c :: c in s.parent ==> s.parent[c] < c < s.nextContext)
    && (forall c {:trigger HasParent(s, c)} :: c in s.callbacks && c != 0 ==> HasParent(s, c))
    && (forall c: nat :: multiset(s.deleted)[c] == if c < s.nextContext && c !in s.callbacks then 1 else 0)
  }

  predicate Alive(s: Tree, o: nat) {
    o in s.home && s.home[o] in s.callbacks && o in s.callbacks[s.home[o]]
  }

  /** Object number `i` on context `c` was constructed there, after those registered before it. */
  predicate Registered(s: Tree, c: nat, i: nat)
    requires c in s.callbacks && i < |s.callbacks[c]|
  {
    var o := s.callbacks[c][i];
    o < s.nextObject && o in s.home && s.home[o] == c && o in s.older && s.older[o] == s.callbacks[c][..i]
  }

  /** Each object ever constructed is registered, or has been destroyed, once. */
  ghost predicate Once(s: Tree) {
    forall o: nat :: multiset(s.destroyed)[o] == if o < s.nextObject && !Alive(s, o) then 1 else 0
  }

  ghost predicate Numbered(s: Tree) {
    && (forall o :: o in s.home ==> o < s.nextObject)
    && (forall o, p :: o in s.older && p in s.older[o] ==> o < s.nextObject && p < s.nextObject)
  }

  ghost predicate Objects(s: Tree) {
    && (forall c, i :: c in s.callbacks && 0 <= i < |s.callbacks[c]| ==> Registered(s, c, i))
    && Once(s) && Numbered(s)
  }

  /** Last constructed, first destroyed: when an object is destroyed, every object that was constructed in its context
      while it was there has been destroyed before. */
  ghost predicate LastFirst(s: Tree) {
    forall j, o :: 0 <= j < |s.destroyed| && o in s.older && s.destroyed[j] in s.older[o] ==> o in s.destroyed[..j]
  }

  ghost predicate Sound(s: Tree) {
    Contexts(s) && Objects(s) && LastFirst(s)
  }

  lemma RegisteredAlive(s: Tree, c: nat, o: nat) returns (i: nat)
    requires Objects(s) && c in s.callbacks && o in s.callbacks[c]
    ensures i < |s.callbacks[c]| && s.callbacks[c][i] == o && Registered(s, c, i) && Alive(s, o)
  {
    i :| 0 <= i < |s.callbacks[c]| && s.callbacks[c][i] == o;
    assert Registered(s, c, i);
  }

  /** It follows that no object is registered twice. */
  lemma RegisteredOnce(s: Tree, c: nat, i: nat, j: nat)
    requires Objects(s) && c in s.callbacks && i < j < |s.callbacks[c]|
    ensures s.callbacks[c][i] != s.callbacks[c][j]
  {
    assert Registered(s, c, i) && Registered(s, c, j);
  }

  lemma CountedIn(destroyed: seq<nat>, o: nat)
    ensures multiset(destroyed)[o] > 0 <==> o in destroyed
  {
  }

  lemma InitialSound()
    ensures Sound(Initial())
  {
  }

  // ---------------------------------------------------------------- constructing

  lemma CreateSound(s: Tree, under: nat)
    requires Sound(s) && under in s.callbacks
    ensures Sound(Create(s, under))
  {
    var t := Create(s, under);
    forall c, i | c in t.callbacks && 0 <= i < |t.callbacks[c]| ensures Registered(t, c, i) {
      assert c in s.callbacks && Registered(s, c, i);
    }
    assert forall o: nat :: Alive(t, o) <==> Alive(s, o);
    forall c | c in t.callbacks && c != 0 ensures HasParent(t, c) {
      assert c != s.nextContext ==> HasParent(s, c);
    }
  }

  lemma ConstructSound(s: Tree, c: nat)
    requires Sound(s) && c in s.callbacks
    ensures Sound(Construct(s, c))
  {
    var t := Construct(s, c);
    ConstructRegisters(s, c);
    ConstructOnce(s, c);
    forall d | d in t.callbacks && d != 0 ensures HasParent(t, d) {
      assert HasParent(s, d);
    }
    forall j, o | 0 <= j < |t.destroyed| && o in t.older && t.destroyed[j] in t.older[o] ensures o in t.destroyed[..j] {
      if o == s.nextObject {
        var _ := RegisteredAlive(s, c, t.destroyed[j]);
        CountedIn(s.destroyed, t.destroyed[j]);
        assert false;
      }
    }
  }

  lemma ConstructRegisters(s: Tree, c: nat)
    requires Objects(s) && c in s.callbacks
    ensures var t := Construct(s, c);
      Numbered(t) && forall d, i :: d in t.callbacks && 0 <= i < |t.callbacks[d]| ==> Registered(t, d, i)
  {
    var t := Construct(s, c);
    forall d, i | d in t.callbacks && 0 <= i < |t.callbacks[d]| ensures Registered(t, d, i) {
      if d != c || i < |s.callbacks[c]| {
        assert Registered(s, d, i) && t.callbacks[d][..i] == s.callbacks[d][..i];
      }
    }
    forall p | p in s.callbacks[c] ensures p < s.nextObject {
      var _ := RegisteredAlive(s, c, p);
    }
  }

  lemma ConstructOnce(s: Tree, c: nat)
    requires Objects(s) && c in s.callbacks
    ensures Once(Construct(s, c))
  {
    var t := Construct(s, c);
    forall o: nat ensures Alive(t, o) <==> Alive(s, o) || o == s.nextObject {
      if o == s.nextObject {
        assert t.callbacks[c][|s.callbacks[c]|] == o;
      }
    }
  }

  // ---------------------------------------------------------------- destroying

  lemma RunLastSound(s: Tree, c: nat)
    requires Sound(s) && c in s.callbacks && s.callbacks[c] != []
    ensures Sound(RunLast(s, c))
  {
    var t, o := RunLast(s, c), s.callbacks[c][|s.callbacks[c]| - 1];
    forall d, i | d in t.callbacks && 0 <= i < |t.callbacks[d]| ensures Registered(t, d, i) {
      assert Registered(s, d, i) && t.callbacks[d][..i] == s.callbacks[d][..i];
    }
    RunLastOnce(s, c);
    forall d | d in t.callbacks && d != 0 ensures HasParent(t, d) {
      assert HasParent(s, d);
    }
    forall j, x | 0 <= j < |t.destroyed| && x in t.older && t.destroyed[j] in t.older[x] ensures x in t.destroyed[..j] {
      if j < |s.destroyed| {
        assert t.destroyed[..j] == s.destroyed[..j];
      } else {
        YoungerGone(s, c, x);
        CountedIn(s.destroyed, x);
        assert t.destroyed[..j] == s.destroyed;
      }
    }
  }

  /** What was constructed after the last registered object, while that was there, is not there any more. */
  lemma YoungerGone(s: Tree, c: nat, x: nat)
    requires Objects(s) && c in s.callbacks && s.callbacks[c] != []
    requires x in s.older && s.callbacks[c][|s.callbacks[c]| - 1] in s.older[x]
    ensures !Alive(s, x) && x < s.nextObject
  {
    var last := |s.callbacks[c]| - 1;
    var o := s.callbacks[c][last];
    assert Registered(s, c, last);
    if Alive(s, x) {
      var h := s.home[x];
      var i := RegisteredAlive(s, h, x);
      var k :| 0 <= k < |s.older[x]| && s.older[x][k] == o;
      assert s.callbacks[h][k] == o && Registered(s, h, k);
      RegisteredOnce(s, c, k, last);
      assert false;
    }
  }

  lemma RunLastOnce(s: Tree, c: nat)
    requires Objects(s) && c in s.callbacks && s.callbacks[c] != []
    ensures Once(RunLast(s, c))
  {
    var t, last := RunLast(s, c), |s.callbacks[c]| - 1;
    var o := s.callbacks[c][last];
    assert Registered(s, c, last);
    forall x: nat ensures Alive(t, x) <==> Alive(s, x) && x != o {
      if Alive(s, x) && s.home[x] == c {
        var i := RegisteredAlive(s, c, x);
        if i < last {
          RegisteredOnce(s, c, i, last);
          assert t.callbacks[c][i] == x;
        }
      }
      if Alive(t, x) && t.home[x] == c {
        var i :| 0 <= i < |t.callbacks[c]| && t.callbacks[c][i] == x;
        assert s.callbacks[c][i] == x;
        RegisteredOnce(s, c, i, last);
      }
    }
  }

  /** What running callbacks leaves as it was. */
  predicate SameShape(s: Tree, t: Tree) {
    t == s.(callbacks := t.callbacks, deleted := t.deleted, destroyed := t.destroyed)
  }

  lemma {:induction false} RunAllSound(s: Tree, c: nat)
    requires Sound(s) && c in s.callbacks
    ensures Sound(RunAll(s, c)) && SameShape(s, RunAll(s, c))
    decreases |s.callbacks[c]|
  {
    if s.callbacks[c] != [] {
      RunLastSound(s, c);
      RunAllSound(RunLast(s, c), c);
    }
  }

  /** The context's objects are destroyed, last constructed first. */
  lemma {:induction false} RunAllDestroys(s: Tree, c: nat)
    requires c in s.callbacks
    ensures RunAll(s, c).callbacks == s.callbacks[c := []] && RunAll(s, c).deleted == s.deleted
    ensures RunAll(s, c).destroyed == s.destroyed + Reversed(s.callbacks[c])
    decreases |s.callbacks[c]|
  {
    var cbs := s.callbacks[c];
    if cbs != [] {
      var t := RunLast(s, c);
      RunAllDestroys(t, c);
      assert t.callbacks[c := []] == s.callbacks[c := []];
      ReversedLast(cbs);
      var last, rest := cbs[|cbs| - 1], Reversed(cbs[..|cbs| - 1]);
      assert s.destroyed + ([last] + rest) == s.destroyed + [last] + rest;
    } else {
      assert s.callbacks[c := []] == s.callbacks && s.destroyed + [] == s.destroyed;
    }
  }

  lemma RemoveSound(s: Tree, c: nat)
    requires Sound(s) && c in s.callbacks && c != 0 && s.callbacks[c] == []
    requires forall d :: d in s.callbacks ==> !IsChild(s, c, d)
    ensures Sound(Remove(s, c))
  {
    var t := Remove(s, c);
    forall d, i | d in t.callbacks && 0 <= i < |t.callbacks[d]| ensures Registered(t, d, i) {
      assert Registered(s, d, i);
    }
    assert forall o: nat :: Alive(t, o) <==> Alive(s, o);
    forall d | d in t.callbacks && d != 0 ensures HasParent(t, d) {
      assert HasParent(s, d) && !IsChild(s, c, d);
    }
  }

  // ---------------------------------------------------------------- deleting

  /** `d` is `c` or below it. */
  predicate Under(parent: map<nat, nat>, c: nat, d: nat)
    decreases d
  {
    d == c || (d in parent && parent[d] < d && Under(parent, c, parent[d]))
  }

  /** A new context is below exactly what it was created under, and what that is below. */
  lemma {:induction false} CreatePlaces(s: Tree, under: nat, c: nat, d: nat)
    requires Contexts(s) && under in s.callbacks
    ensures var t := Create(s, under);
      && (d in t.callbacks <==> d in s.callbacks || d == s.nextContext)
      && (Under(t.parent, c, d) <==>
            if d == s.nextContext then c == d || Under(s.parent, c, under) else Under(s.parent, c, d))
    decreases d
  {
    var t := Create(s, under);
    if d == s.nextContext {
      assert under < d;
      CreatePlaces(s, under, c, under);
    } else if d in s.parent && s.parent[d] < d {
      CreatePlaces(s, under, c, s.parent[d]);
    }
  }

  /** The child of `c` on the way to `d`; 0 when `d` is not below `c`. */
  function Branch(parent: map<nat, nat>, c: nat, d: nat): nat
    decreases d
  {
    if d !in parent || parent[d] >= d then 0 else if parent[d] == c then d else Branch(parent, c, parent[d])
  }

  /** The contexts that are not below `c` by way of a child numbered below `hi`. */
  function Spared(s: Tree, c: nat, hi: nat): map<nat, seq<nat>> {
    map d | d in s.callbacks && !(0 < Branch(s.parent, c, d) < hi) :: s.callbacks[d]
  }

  /** The contexts that are neither `c` nor below it. */
  function Without(s: Tree, c: nat): map<nat, seq<nat>> {
    map d | d in s.callbacks && !Under(s.parent, c, d) :: s.callbacks[d]
  }

  lemma {:induction false} BranchBounds(parent: map<nat, nat>, c: nat, d: nat)
    ensures Branch(parent, c, d) <= d
    ensures Branch(parent, c, d) != 0 ==> c < Branch(parent, c, d)
    ensures Under(parent, c, d) <==> d == c || Branch(parent, c, d) != 0
    decreases d
  {
    if d in parent && parent[d] < d {
      BranchBounds(parent, c, parent[d]);
    }
  }

  lemma {:induction false} UnderChild(parent: map<nat, nat>, c: nat, k: nat, d: nat)
    requires k in parent && parent[k] == c < k && 0 !in parent
    ensures Under(parent, k, d) <==> Branch(parent, c, d) == k
    decreases d
  {
    BranchBounds(parent, c, d);
    BranchBounds(parent, k, d);
    if d in parent && parent[d] < d {
      UnderChild(parent, c, k, parent[d]);
      BranchBounds(parent, k, parent[d]);
    }
  }

  /** What exists is below contexts that exist. */
  lemma {:induction false} UnderExists(s: Tree, k: nat, d: nat)
    requires Contexts(s) && d in s.callbacks && Under(s.parent, k, d)
    ensures k in s.callbacks
    decreases d
  {
    if d != k {
      assert HasParent(s, d);
      UnderExists(s, k, s.parent[d]);
    }
  }

  lemma {:induction false} DeleteChildSound(s: Tree, c: nat, d: nat, n: nat)
    requires Sound(s) && c in s.callbacks && c < d < n == s.nextContext
    ensures var t := DeleteChild(s, c, d, n);
      Sound(t) && SameShape(s, t) && c in t.callbacks && Spared(t, c, d) == Spared(s, c, d + 1)
    decreases n - c, 0
  {
    if IsChild(s, c, d) {
      DeleteSound(s, d, n);
      NotUnderChild(s, c, d);
      SparedStep(s, Delete(s, d, n), c, d);
    } else {
      SparedSame(s, c, d);
    }
  }

  lemma {:induction false} DeleteChildrenSound(s: Tree, c: nat, hi: nat, n: nat)
    requires Sound(s) && c in s.callbacks && hi <= n == s.nextContext
    ensures var t := DeleteChildren(s, c, hi, n); Sound(t) && SameShape(s, t) && t.callbacks == Spared(s, c, hi)
    decreases n - c, 1, hi
  {
    if hi <= c + 1 {
      SparedAll(s, c, hi);
    } else {
      DeleteChildSound(s, c, hi - 1, n);
      DeleteChildrenSound(DeleteChild(s, c, hi - 1, n), c, hi - 1, n);
    }
  }

  lemma SparedAll(s: Tree, c: nat, hi: nat)
    requires hi <= c + 1
    ensures Spared(s, c, hi) == s.callbacks
  {
    forall d | d in s.callbacks ensures !(0 < Branch(s.parent, c, d) < hi) {
      BranchBounds(s.parent, c, d);
    }
  }

  lemma NotUnderChild(s: Tree, c: nat, k: nat)
    requires c in s.callbacks && c < k
    ensures c in Without(s, k)
  {
    BranchBounds(s.parent, k, c);
  }

  lemma SparedStep(s: Tree, u: Tree, c: nat, k: nat)
    requires Contexts(s) && IsChild(s, c, k) && u.parent == s.parent && u.callbacks == Without(s, k)
    ensures Spared(u, c, k) == Spared(s, c, k + 1)
  {
    forall d ensures Under(s.parent, k, d) <==> Branch(s.parent, c, d) == k {
      UnderChild(s.parent, c, k, d);
    }
  }

  lemma SparedSame(s: Tree, c: nat, k: nat)
    requires Contexts(s) && !IsChild(s, c, k) && c < k
    ensures Spared(s, c, k) == Spared(s, c, k + 1)
  {
    forall d | d in s.callbacks ensures Branch(s.parent, c, d) != k {
      if Branch(s.parent, c, d) == k {
        BranchIsChild(s.parent, c, d);
        UnderChild(s.parent, c, k, d);
        UnderExists(s, k, d);
        assert false;
      }
    }
  }

  lemma {:induction false} BranchIsChild(parent: map<nat, nat>, c: nat, d: nat)
    requires Branch(parent, c, d) != 0
    ensures Branch(parent, c, d) in parent && parent[Branch(parent, c, d)] == c
    decreases d
  {
    if parent[d] != c {
      BranchIsChild(parent, c, parent[d]);
    }
  }

  lemma {:induction false} DeleteSound(s: Tree, c: nat, n: nat)
    requires Sound(s) && c in s.callbacks && c != 0 && n == s.nextContext
    ensures var t := Delete(s, c, n); Sound(t) && SameShape(s, t) && t.callbacks == Without(s, c)
    decreases n - c, 2
  {
    DeleteChildrenSound(s, c, n, n);
    var t := DeleteChildren(s, c, n, n);
    BranchBounds(s.parent, c, c);
    forall d | d in t.callbacks ensures !IsChild(t, c, d) {
    }
    RunAllSound(t, c);
    RunAllDestroys(t, c);
    RemoveSound(RunAll(t, c), c);
    SparedWithout(s, c);
  }

  lemma SparedWithout(s: Tree, c: nat)
    requires Contexts(s)
    ensures Spared(s, c, s.nextContext) - {c} == Without(s, c)
    ensures Spared(s, c, s.nextContext)[c := []] == Without(s, c)[c := []]
  {
    forall d | d in s.callbacks
      ensures Under(s.parent, c, d) <==> d == c || 0 < Branch(s.parent, c, d) < s.nextContext
    {
      BranchBounds(s.parent, c, d);
    }
  }

  lemma ResetSound(s: Tree, c: nat)
    requires Sound(s) && c in s.callbacks
    ensures var t := Reset(s, c); Sound(t) && SameShape(s, t) && t.callbacks == Without(s, c)[c := []]
  {
    DeleteChildrenSound(s, c, s.nextContext, s.nextContext);
    var t := DeleteChildren(s, c, s.nextContext, s.nextContext);
    BranchBounds(s.parent, c, c);
    RunAllSound(t, c);
    RunAllDestroys(t, c);
    SparedWithout(s, c);
  }

  /** A new context, with what is constructed in it, goes when the one it was created under, or any above that, is
      deleted or reset. */
  lemma GoesWithParent(s: Tree, under: nat, c: nat)
    requires Sound(s) && under in s.callbacks && c in s.callbacks && Under(s.parent, c, under)
    ensures var n, o, t := s.nextContext, s.nextObject, Construct(Create(s, under), s.nextContext);
      && (c != 0 ==> var u := Delete(t, c, t.nextContext); n !in u.callbacks && o in u.destroyed)
      && var u := Reset(t, c); n !in u.callbacks && o in u.destroyed
  {
    var n, o, t := s.nextContext, s.nextObject, Construct(Create(s, under), s.nextContext);
    CreateSound(s, under);
    CreatePlaces(s, under, c, n);
    ConstructSound(Create(s, under), n);
    if c != 0 {
      DeleteSound(t, c, t.nextContext);
      DestroyedWithHome(Delete(t, c, t.nextContext), o, n);
    }
    ResetSound(t, c);
    DestroyedWithHome(Reset(t, c), o, n);
  }

  lemma DestroyedWithHome(u: Tree, o: nat, n: nat)
    requires Once(u) && o < u.nextObject && o in u.home && u.home[o] == n && n !in u.callbacks
    ensures o in u.destroyed
  {
    assert !Alive(u, o);
    CountedIn(u.destroyed, o);
  }
}
