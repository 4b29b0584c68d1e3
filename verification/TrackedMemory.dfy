/** What a program should observe of memory contexts that it tracks and of values that live in them, with no callbacks,
    counters or shared states in sight. */
module TrackedMemory {
  import opened Common

  /** A chunk of memory in a context, allocated after the context's `epoch`-th reset; it is gone after the next. */
  datatype Chunk = Chunk(context: nat, epoch: nat, address: nat)

  /** A tracking context, with the number of resets when tracking began, which no longer tells anything once it has been
      moved from; a value with its detoasted form, if there is one yet; a value that has been moved from. */
  datatype Thing =
    | Watch(context: nat, since: nat, lost: bool)
    | Value(datum: Chunk, detoasted: Option<Chunk>)
    | Gone

  /** How often each context has been reset, and what the program holds, by number. */
  datatype Ideal = Ideal(resets: map<nat, nat>, things: map<nat, Thing>, next: nat)

  datatype Op =
    | DoTrack(context: nat)
    | DoCopy(h: nat)
    | DoMove(h: nat)
    | DoDestroy(h: nat)
    | DoCount(h: nat)
    | DoReset(context: nat)
    | DoNewValue(context: nat, address: nat)
    | DoCopyValue(h: nat)
    | DoMoveValue(h: nat)
    | DoDestroyValue(h: nat)
    | DoAccess(h: nat, toasted: bool, context: nat, address: nat)

  /** What an operation shows: the `resets()` of a tracking context, or what an access to a value yields, `None` when it
      throws. */
  datatype Sight = Nothing | Resets(n: nat) | Yielded(result: Option<Chunk>)

  predicate Live(resets: map<nat, nat>, p: Chunk) {
    p.context in resets && resets[p.context] == p.epoch
  }

  predicate IsWatch(s: Ideal, h: nat) {
    h in s.things && s.things[h].Watch?
  }

  predicate IsValue(s: Ideal, h: nat) {
    h in s.things && s.things[h].Value?
  }

  function Add(s: Ideal, thing: Thing): Ideal {
    s.(things := s.things[s.next := thing], next := s.next + 1)
  }

  /** Operations on things that do not exist do nothing. */
  function Step(s: Ideal, op: Op): Ideal {
    match op
    case DoTrack(c) => if c in s.resets then Add(s, Watch(c, s.resets[c], false)) else s
    case DoCopy(h) => if IsWatch(s, h) then Add(s, s.things[h]) else s
    case DoMove(h) =>
      if IsWatch(s, h) then Add(s.(things := s.things[h := s.things[h].(lost := true)]), s.things[h]) else s
    case DoDestroy(h) => if IsWatch(s, h) then s.(things := s.things - {h}) else s
    case DoCount(_) => s
    case DoReset(c) => if c in s.resets then s.(resets := s.resets[c := s.resets[c] + 1]) else s
    case DoNewValue(c, address) =>
      if c in s.resets then Add(s, Value(Chunk(c, s.resets[c], address), None)) else s
    case DoCopyValue(h) => if IsValue(s, h) then Add(s, s.things[h]) else s
    case DoMoveValue(h) => if IsValue(s, h) then Add(s.(things := s.things[h := Gone]), s.things[h]) else s
    case DoDestroyValue(h) => if h in s.things && !s.things[h].Watch? then s.(things := s.things - {h}) else s
    case DoAccess(h, _, _, _) =>
      if Shows(s, op).Yielded? && Shows(s, op).result.Some?
      then s.(things := s.things[h := s.things[h].(detoasted := Shows(s, op).result)]) else s
  }

  /** A tracking context tells whether its context has been reset since tracking began. An access yields the detoasted
      form, which it makes the first time, and throws if the memory it goes by is gone; `toasted` says whether
      detoasting the datum would make a copy, in a context and at an address of its own. */
  function Shows(s: Ideal, op: Op): Sight {
    match op
    case DoCount(h) =>
      if !IsWatch(s, h) then Nothing
      else
        var t := s.things[h];
        Resets(if !t.lost && t.context in s.resets && s.resets[t.context] > t.since then 1 else 0)
    case DoAccess(h, toasted, context, address) =>
      if !IsValue(s, h) || context !in s.resets then Nothing
      else
        var v := s.things[h];
        match v.detoasted {
          case Some(p) => Yielded(if Live(s.resets, p) then Some(p) else None)
          case None =>
            Yielded(if !Live(s.resets, v.datum) then None
                    else if toasted then Some(Chunk(context, s.resets[context], address))
                    else Some(v.datum))
        }
    case _ => Nothing
  }

  function Start(contexts: set<nat>): Ideal {
    Ideal(map c | c in contexts :: 0, map[], 0)
  }

  function Run(s: Ideal, ops: seq<Op>): Ideal {
    if ops == [] then s else Step(Run(s, ops[..|ops| - 1]), ops[|ops| - 1])
  }

  /** What each operation of a run shows. */
  function Sights(s: Ideal, ops: seq<Op>): (r: seq<Sight>)
    ensures |r| == |ops|
  {
    if ops == [] then []
    else Sights(s, ops[..|ops| - 1]) + [Shows(Run(s, ops[..|ops| - 1]), ops[|ops| - 1])]
  }

  // ---------------------------------------------------------------- what that amounts to

  /** How often `ops` reset context `c`. */
  function ResetsOf(ops: seq<Op>, c: nat): nat {
    if ops == [] then 0 else ResetsOf(ops[..|ops| - 1], c) + if ops[|ops| - 1] == DoReset(c) then 1 else 0
  }

  /** `op` moves, destroys or may detoast thing `h`. */
  predicate Touches(op: Op, h: nat) {
    match op
    case DoMove(k) => k == h
    case DoDestroy(k) => k == h
    case DoMoveValue(k) => k == h
    case DoDestroyValue(k) => k == h
    case DoAccess(k, _, _, _) => k == h
    case _ => false
  }

  predicate LeaveAlone(ops: seq<Op>, h: nat) {
    forall i :: 0 <= i < |ops| ==> !Touches(ops[i], h)
  }

  predicate Numbered(s: Ideal) {
    forall h :: h in s.things ==> h < s.next
  }

  /** Contexts have been reset as often as the operations say. */
  lemma {:induction false} ResetsCounted(s: Ideal, ops: seq<Op>)
    requires Numbered(s)
    ensures var t := Run(s, ops);
      && Numbered(t) && t.resets.Keys == s.resets.Keys
      && forall c :: c in s.resets ==> t.resets[c] == s.resets[c] + ResetsOf(ops, c)
  {
    if ops != [] {
      ResetsCounted(s, ops[..|ops| - 1]);
    }
  }

  lemma {:induction false} LeftAlone(s: Ideal, ops: seq<Op>, h: nat)
    requires Numbered(s) && h in s.things && LeaveAlone(ops, h)
    ensures h in Run(s, ops).things && Run(s, ops).things[h] == s.things[h]
  {
    if ops != [] {
      var init := ops[..|ops| - 1];
      LeftAlone(s, init, h);
      ResetsCounted(s, init);
      assert !Touches(ops[|ops| - 1], h);
    }
  }

  /** An access yields memory that is there, and throws exactly when the memory it goes by is gone: the detoasted form
      once there is one, else the datum. */
  lemma AccessesAreSafe(s: Ideal, access: Op)
    requires access.DoAccess? && IsValue(s, access.h) && access.context in s.resets
    ensures var v, sight := s.things[access.h], Shows(s, access);
      && sight.Yielded?
      && (sight.result.Some? ==> Live(s.resets, sight.result.value))
      && (v.detoasted.Some? ==> (sight.result.None? <==> !Live(s.resets, v.detoasted.value)))
      && (v.detoasted.None? ==> (sight.result.None? <==> !Live(s.resets, v.datum)))
  {
  }

  lemma NotYetAccessed(s: Ideal, h: nat, ops: seq<Op>, toasted: bool, d: nat, place: nat)
    requires Numbered(s) && IsValue(s, h) && s.things[h].detoasted.None? && Live(s.resets, s.things[h].datum)
    requires d in s.resets && LeaveAlone(ops, h)
    ensures var p := s.things[h].datum;
      Shows(Run(s, ops), DoAccess(h, toasted, d, place))
        == Yielded(if ResetsOf(ops, p.context) > 0 then None
                   else if toasted then Some(Chunk(d, s.resets[d] + ResetsOf(ops, d), place))
                   else Some(p))
  {
    ResetsCounted(s, ops);
    LeftAlone(s, ops, h);
  }

  lemma NewValueIs(s: Ideal, c: nat, address: nat, u: Ideal)
    requires Numbered(s) && c in s.resets && u == Step(s, DoNewValue(c, address))
    ensures Numbered(u) && u.resets == s.resets && IsValue(u, s.next)
    ensures u.things[s.next] == Value(Chunk(c, s.resets[c], address), None)
  {
  }

  /** A value in a context's memory, whatever has gone on before: after any operations that leave it alone an access
      throws if and only if the context has been reset among them. Otherwise it yields the datum, or the copy if the
      datum is toasted. */
  lemma FirstAccess(s: Ideal, c: nat, address: nat, u: Ideal, ops: seq<Op>, toasted: bool, d: nat, place: nat)
    requires Numbered(s) && c in s.resets && d in s.resets && LeaveAlone(ops, s.next)
    requires u == Step(s, DoNewValue(c, address))
    ensures Shows(Run(u, ops), DoAccess(s.next, toasted, d, place))
        == Yielded(if ResetsOf(ops, c) > 0 then None
                   else if toasted then Some(Chunk(d, s.resets[d] + ResetsOf(ops, d), place))
                   else Some(Chunk(c, s.resets[c], address)))
  {
    NewValueIs(s, c, address, u);
    NotYetAccessed(u, s.next, ops, toasted, d, place);
  }

  /** Further accesses go by the detoasted form, and throw if and only if its context has been reset since. */
  lemma LaterAccess(s: Ideal, h: nat, first: Op, ops: seq<Op>, access: Op)
    requires Numbered(s) && IsValue(s, h) && first.DoAccess? && access.DoAccess? && first.h == access.h == h
    requires Shows(s, first).Yielded? && Shows(s, first).result.Some? && LeaveAlone(ops, h)
    requires access.context in s.resets
    ensures var p := Shows(s, first).result.value;
      Shows(Run(Step(s, first), ops), access) == Yielded(if ResetsOf(ops, p.context) > 0 then None else Some(p))
  {
    var u := Step(s, first);
    ResetsCounted(u, ops);
    LeftAlone(u, ops, h);
  }

  /** A tracking context tells whether its context has been reset since tracking began. */
  lemma Counts(s: Ideal, c: nat, ops: seq<Op>)
    requires Numbered(s) && c in s.resets && LeaveAlone(ops, s.next)
    ensures var t := Run(Step(s, DoTrack(c)), ops);
      && Numbered(t) && t.next > s.next && c in t.resets && t.resets[c] == s.resets[c] + ResetsOf(ops, c)
      && s.next in t.things && t.things[s.next] == Watch(c, s.resets[c], false)
      && Shows(t, DoCount(s.next)) == Resets(if ResetsOf(ops, c) > 0 then 1 else 0)
  {
    var u := Step(s, DoTrack(c));
    NextGrows(u, ops);
    ResetsCounted(u, ops);
    LeftAlone(u, ops, s.next);
  }

  lemma {:induction false} NextGrows(s: Ideal, ops: seq<Op>)
    ensures Run(s, ops).next >= s.next
  {
    if ops != [] {
      NextGrows(s, ops[..|ops| - 1]);
    }
  }

  /** So do its copies and what it is moved to; what has been moved from always tells that it has not. */
  lemma CountsPassOn(s: Ideal, c: nat, before: seq<Op>, after: seq<Op>)
    requires Numbered(s) && c in s.resets && LeaveAlone(before, s.next)
    ensures var h, t := s.next, Run(Step(s, DoTrack(c)), before);
      var reset := ResetsOf(before, c) + ResetsOf(after, c) > 0;
      && (LeaveAlone(after, t.next) ==>
            Shows(Run(Step(t, DoCopy(h)), after), DoCount(t.next)) == Resets(if reset then 1 else 0))
      && (LeaveAlone(after, t.next) ==>
            Shows(Run(Step(t, DoMove(h)), after), DoCount(t.next)) == Resets(if reset then 1 else 0))
      && (LeaveAlone(after, h) ==> Shows(Run(Step(t, DoMove(h)), after), DoCount(h)) == Resets(0))
  {
    Counts(s, c, before);
    var h, t := s.next, Run(Step(s, DoTrack(c)), before);
    Watched(Step(t, DoCopy(h)), t.next, after);
    Watched(Step(t, DoMove(h)), t.next, after);
    Watched(Step(t, DoMove(h)), h, after);
  }

  lemma Watched(s: Ideal, h: nat, ops: seq<Op>)
    requires Numbered(s) && IsWatch(s, h) && s.things[h].context in s.resets
    ensures LeaveAlone(ops, h) ==> var w := s.things[h];
      Shows(Run(s, ops), DoCount(h))
        == Resets(if !w.lost && s.resets[w.context] + ResetsOf(ops, w.context) > w.since then 1 else 0)
  {
    if LeaveAlone(ops, h) {
      ResetsCounted(s, ops);
      LeftAlone(s, ops, h);
    }
  }

  /** Values that are the same, in two runs or one, yield the same. */
  lemma SameValues(s: Ideal, h: nat, t: Ideal, k: nat, ops: seq<Op>, access: Op)
    requires Numbered(s) && IsValue(s, h) && LeaveAlone(ops, h)
    requires Numbered(t) && IsValue(t, k) && LeaveAlone(ops, k)
    requires s.resets == t.resets && s.things[h] == t.things[k] && access.DoAccess?
    ensures Shows(Run(s, ops), access.(h := h)) == Shows(Run(t, ops), access.(h := k))
  {
    LeftAlone(s, ops, h);
    LeftAlone(t, ops, k);
    ResetsCounted(s, ops);
    ResetsCounted(t, ops);
    assert Run(s, ops).resets == Run(t, ops).resets;
  }

  /** Copies of a value, and what it is moved to, go by the same memory. */
  lemma CopiesGoBySame(s: Ideal, h: nat, ops: seq<Op>, access: Op)
    requires Numbered(s) && IsValue(s, h) && access.DoAccess? && LeaveAlone(ops, h) && LeaveAlone(ops, s.next)
    ensures var t := Run(Step(s, DoCopyValue(h)), ops); Shows(t, access.(h := s.next)) == Shows(t, access.(h := h))
    ensures Shows(Run(Step(s, DoMoveValue(h)), ops), access.(h := s.next)) == Shows(Run(s, ops), access.(h := h))
  {
    var copied, moved := Step(s, DoCopyValue(h)), Step(s, DoMoveValue(h));
    SameValues(copied, s.next, copied, h, ops, access);
    SameValues(moved, s.next, s, h, ops, access);
  }
}
