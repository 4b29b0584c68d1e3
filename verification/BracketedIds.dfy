/** Nested types as bracketed id sequences: what the encoder writes, what the decoder reads, and when they agree. */
module BracketedIds {
  import opened Common

  const TUPLE_BEGIN: nat := 24
  const TUPLE_END: nat := 25

  /** A field type. `size` is `sizeof`; a structure is at least as large as its fields together. */
  datatype Type =
    | Scalar(id: nat, size: nat)
    | Struct(fields: seq<Type>, size: nat)

  /** What the decoder makes of it: a scalar id, or a tuple of field types. */
  datatype Tree = Leaf(id: nat) | Tuple(items: seq<Tree>)

  predicate IsScalarId(id: nat) {
    id != 0 && id != TUPLE_BEGIN && id != TUPLE_END
  }

  function TotalSize(fields: seq<Type>): nat {
    if fields == [] then 0 else TotalSize(fields[..|fields| - 1]) + fields[|fields| - 1].size
  }

  /** A type the library accepts: registered scalars and non-empty structures without bit fields. */
  predicate WellFormed(t: Type) {
    match t
    case Scalar(id, size) => IsScalarId(id) && size >= 1
    case Struct(fields, size) =>
      fields != [] && size >= TotalSize(fields) && forall f | f in fields :: WellFormed(f)
  }

  predicate AllWellFormed(fields: seq<Type>) {
    forall f | f in fields :: WellFormed(f)
  }

  // ---------------------------------------------------------------- trees and their ids

  function Ids(t: Tree): (s: seq<nat>)
    ensures s != []
    decreases t, 1
  {
    match t
    case Leaf(id) => [id]
    case Tuple(items) => [TUPLE_BEGIN] + IdsAll(items) + [TUPLE_END]
  }

  function IdsAll(ts: seq<Tree>): seq<nat>
    decreases ts, 0
  {
    if ts == [] then [] else IdsAll(ts[..|ts| - 1]) + Ids(ts[|ts| - 1])
  }

  predicate Proper(t: Tree) {
    match t
    case Leaf(id) => IsScalarId(id)
    case Tuple(items) => items != [] && forall i | i in items :: Proper(i)
  }

  predicate AllProper(ts: seq<Tree>) {
    forall t | t in ts :: Proper(t)
  }

  /** The tree of a field type. A structure whose only content is one scalar is deliberately taken for that scalar. */
  function Collapse(t: Type): Tree
    decreases t, 1
  {
    match t
    case Scalar(id, _) => Leaf(id)
    case Struct(fields, _) =>
      var ts := CollapseAll(fields);
      if |ts| == 1 && ts[0].Leaf? then ts[0] else Tuple(ts)
  }

  function CollapseAll(fields: seq<Type>): (ts: seq<Tree>)
    ensures |ts| == |fields|
    decreases fields, 0
  {
    if fields == [] then [] else CollapseAll(fields[..|fields| - 1]) + [Collapse(fields[|fields| - 1])]
  }

  // ---------------------------------------------------------------- what the encoder writes

  /** The ids a field of type `t` contributes, zeros dropped: a nested structure is bracketed inside a buffer of
      three slots per byte. `None` when the buffer is too small by two or more; when it is too small by one, the
      closing bracket overwrites the last id. */
  function FieldIds(t: Type): Option<seq<nat>>
    decreases t, 1
  {
    match t
    case Scalar(id, _) => Some([id])
    case Struct(fields, size) =>
      match FlatIds(fields) {
        case None => None
        case Some(ids) => Bracketed(ids, 3 * size)
      }
  }

  function Bracketed(ids: seq<nat>, slots: nat): Option<seq<nat>> {
    if |ids| == 1 then Some(ids)
    else if |ids| + 1 > slots then None
    else if |ids| + 1 == slots && ids != [] then Some([TUPLE_BEGIN] + ids[..|ids| - 1] + [TUPLE_END])
    else Some([TUPLE_BEGIN] + ids + [TUPLE_END])
  }

  function FlatIds(fields: seq<Type>): Option<seq<nat>>
    decreases fields, 0
  {
    if fields == [] then Some([])
    else
      match (FlatIds(fields[..|fields| - 1]), FieldIds(fields[|fields| - 1])) {
        case (Some(a), Some(b)) => Some(a + b)
        case _ => None
      }
  }

  /** The encoding of every structure used as a field fits the three slots per byte reserved for it. */
  predicate Fits(t: Type)
    decreases t, 1
  {
    match t
    case Scalar(_, _) => true
    case Struct(fields, size) => AllFit(fields) && |Ids(Collapse(t))| <= 3 * size
  }

  predicate AllFit(fields: seq<Type>)
    decreases fields, 0
  {
    fields == [] || (AllFit(fields[..|fields| - 1]) && Fits(fields[|fields| - 1]))
  }

  // ---------------------------------------------------------------- brackets

  function Weight(id: nat): int {
    if id == TUPLE_BEGIN then 1 else if id == TUPLE_END then -1 else 0
  }

  /** Opening minus closing brackets. */
  function Excess(s: seq<nat>): int {
    if s == [] then 0 else Excess(s[..|s| - 1]) + Weight(s[|s| - 1])
  }

  lemma {:induction false} ExcessConcat(s: seq<nat>, t: seq<nat>)
    ensures Excess(s + t) == Excess(s) + Excess(t)
    decreases |t|
  {
    if t == [] {
      assert s + t == s;
    } else {
      assert (s + t)[..|s + t| - 1] == s + t[..|t| - 1];
      ExcessConcat(s, t[..|t| - 1]);
    }
  }

  /** The length of the shortest balanced prefix of `s` that is at least `c` long. */
  function FindMatch(s: seq<nat>, c: nat): Option<nat>
    decreases |s| + 1 - c
  {
    if c > |s| then None else if Excess(s[..c]) == 0 then Some(c) else FindMatch(s, c + 1)
  }

  /** For `s` starting with an opening bracket: the length up to and with the matching closing one. */
  function MatchLength(s: seq<nat>): Option<nat> {
    FindMatch(s, 1)
  }

  lemma {:induction false} FindMatchMeaning(s: seq<nat>, c: nat, d: nat)
    requires c <= d <= |s| && (forall k :: c <= k < d ==> Excess(s[..k]) != 0)
    ensures FindMatch(s, c) == FindMatch(s, d)
    decreases d - c
  {
    if c < d {
      FindMatchMeaning(s, c + 1, d);
    }
  }

  lemma {:induction false} FindMatchBounds(s: seq<nat>, c: nat)
    requires FindMatch(s, c).Some?
    ensures var m := FindMatch(s, c).value; c <= m <= |s| && Excess(s[..m]) == 0
    ensures forall k :: c <= k < FindMatch(s, c).value ==> Excess(s[..k]) != 0
    decreases |s| + 1 - c
  {
    if Excess(s[..c]) != 0 {
      FindMatchBounds(s, c + 1);
    }
  }

  lemma ExcessOfOne(id: nat)
    ensures Excess([id]) == Weight(id)
  {
    assert [id][..0] == [];
  }

  lemma BracketsBalance(inner: seq<nat>)
    requires Excess(inner) == 0 && forall k :: 0 <= k <= |inner| ==> Excess(inner[..k]) >= 0
    ensures var all := [TUPLE_BEGIN] + inner + [TUPLE_END];
      Excess(all) == 0 && forall k :: 0 < k < |all| ==> Excess(all[..k]) > 0
  {
    var all := [TUPLE_BEGIN] + inner + [TUPLE_END];
    ExcessOfOne(TUPLE_BEGIN);
    forall k | 0 < k < |all| ensures Excess(all[..k]) > 0 {
      assert all[..k] == [TUPLE_BEGIN] + inner[..k - 1];
      ExcessConcat([TUPLE_BEGIN], inner[..k - 1]);
    }
    assert all[..|all| - 1] == [TUPLE_BEGIN] + inner;
    ExcessConcat([TUPLE_BEGIN], inner);
  }

  /** No prefix of `s` closes more than it opens, and `s` closes all it opens; `strictly` when no proper prefix does. */
  ghost predicate Balances(s: seq<nat>, strictly: bool) {
    && Excess(s) == 0
    && (forall k :: 0 <= k <= |s| ==> Excess(s[..k]) >= 0)
    && (strictly ==> forall k :: 0 < k < |s| ==> Excess(s[..k]) > 0)
  }

  lemma StrictlyBalances(s: seq<nat>)
    requires Excess(s) == 0 && forall k :: 0 < k < |s| ==> Excess(s[..k]) > 0
    ensures Balances(s, true)
  {
    forall k | 0 <= k <= |s| ensures Excess(s[..k]) >= 0 {
      if k == |s| {
        assert s[..k] == s;
      }
    }
  }

  /** A tree's ids are balanced and no proper prefix of a bracketed one is. */
  lemma {:induction false} Balanced(t: Tree)
    requires Proper(t)
    ensures Balances(Ids(t), t.Tuple?)
    decreases t, 1
  {
    match t
    case Leaf(id) =>
      ExcessOfOne(id);
      StrictlyBalances([id]);
    case Tuple(items) =>
      AllBalanced(items);
      BracketsBalance(IdsAll(items));
      StrictlyBalances(Ids(t));
  }

  lemma {:induction false} AllBalanced(ts: seq<Tree>)
    requires AllProper(ts)
    ensures Balances(IdsAll(ts), false)
    decreases ts, 0
  {
    if ts == [] {
      StrictlyBalances([]);
    } else {
      AllBalanced(ts[..|ts| - 1]);
      Balanced(ts[|ts| - 1]);
      BalancesConcat(IdsAll(ts[..|ts| - 1]), Ids(ts[|ts| - 1]));
    }
  }

  lemma BalancesConcat(s: seq<nat>, t: seq<nat>)
    requires Balances(s, false) && Balances(t, false)
    ensures Balances(s + t, false)
  {
    ExcessConcat(s, t);
    forall k | 0 <= k <= |s + t| ensures Excess((s + t)[..k]) >= 0 {
      if k <= |s| {
        assert (s + t)[..k] == s[..k];
      } else {
        assert (s + t)[..k] == s + t[..k - |s|];
        ExcessConcat(s, t[..k - |s|]);
      }
    }
  }

  // ---------------------------------------------------------------- when the encoding is right

  lemma BracketedExcess(ids: seq<nat>, slots: nat)
    requires ids != [] && Bracketed(ids, slots).Some?
    ensures var b := Bracketed(ids, slots).value;
      Excess(b) == Excess(ids) - if |ids| > 1 && |ids| + 1 == slots then Weight(ids[|ids| - 1]) else 0
  {
    if |ids| > 1 {
      var inner := if |ids| + 1 == slots then ids[..|ids| - 1] else ids;
      ExcessOfOne(TUPLE_BEGIN);
      ExcessOfOne(TUPLE_END);
      ExcessConcat([TUPLE_BEGIN], inner);
      ExcessConcat([TUPLE_BEGIN] + inner, [TUPLE_END]);
    }
  }

  lemma {:induction false} IdsAllLength(ts: seq<Tree>)
    ensures |IdsAll(ts)| >= |ts|
    ensures |IdsAll(ts)| == 1 <==> |ts| == 1 && ts[0].Leaf?
    decreases |ts|
  {
    if ts != [] {
      IdsAllLength(ts[..|ts| - 1]);
    }
  }

  /** What can be said of a field's ids whether or not they fit. */
  ghost predicate Plausible(ids: seq<nat>, slots: nat) {
    && 1 <= |ids| <= slots
    && (|ids| == 1 ==> Weight(ids[0]) == 0)
    && (ids[|ids| - 1] != TUPLE_END ==> |ids| + 2 <= slots)
    && Excess(ids) >= 0
  }

  lemma BracketedPlausible(ids: seq<nat>, total: nat, size: nat)
    requires Plausible(ids, 3 * total) && total <= size && Bracketed(ids, 3 * size).Some?
    ensures var b := Bracketed(ids, 3 * size).value;
      Plausible(b, 3 * size) && Excess(b) >= Excess(ids) && (|ids| > 1 && |ids| + 2 > 3 * size ==> Excess(b) > 0)
  {
    BracketedExcess(ids, 3 * size);
  }

  lemma PlausibleConcat(a: seq<nat>, m: nat, b: seq<nat>, n: nat)
    requires (a == [] && m == 0) || Plausible(a, m)
    requires Plausible(b, n)
    ensures Plausible(a + b, m + n)
  {
    ExcessConcat(a, b);
    if a == [] {
      assert a + b == b;
    }
  }

  lemma {:induction false} FieldIdsAre(t: Type)
    requires WellFormed(t)
    ensures FieldIds(t).Some? ==> Plausible(FieldIds(t).value, 3 * t.size)
    ensures Fits(t) ==> FieldIds(t) == Some(Ids(Collapse(t)))
    ensures !Fits(t) && FieldIds(t).Some? ==> Excess(FieldIds(t).value) > 0
    decreases t, 1
  {
    match t
    case Scalar(id, size) =>
      ExcessOfOne(id);
    case Struct(fields, size) =>
      FlatIdsAre(fields);
      IdsAllLength(CollapseAll(fields));
      if FlatIds(fields).Some? && Bracketed(FlatIds(fields).value, 3 * size).Some? {
        BracketedPlausible(FlatIds(fields).value, TotalSize(fields), size);
      }
  }

  lemma {:induction false} FlatIdsAre(fields: seq<Type>)
    requires AllWellFormed(fields)
    ensures FlatIds(fields).Some? && fields != [] ==> Plausible(FlatIds(fields).value, 3 * TotalSize(fields))
    ensures AllFit(fields) ==> FlatIds(fields) == Some(IdsAll(CollapseAll(fields)))
    ensures !AllFit(fields) && FlatIds(fields).Some? ==> Excess(FlatIds(fields).value) > 0
    decreases fields, 0
  {
    if fields != [] {
      var init, last := fields[..|fields| - 1], fields[|fields| - 1];
      FlatIdsAre(init);
      FieldIdsAre(last);
      if FlatIds(init).Some? && FieldIds(last).Some? {
        var a, b := FlatIds(init).value, FieldIds(last).value;
        assert FlatIds(fields) == Some(a + b);
        PlausibleConcat(a, 3 * TotalSize(init), b, 3 * last.size);
        ExcessConcat(a, b);
        PlausibleExcess(init, a);
      }
      CollapseAllSnoc(init, last);
    }
  }

  lemma PlausibleExcess(init: seq<Type>, a: seq<nat>)
    requires FlatIds(init) == Some(a) && (init != [] ==> Plausible(a, 3 * TotalSize(init)))
    ensures Excess(a) >= 0
  {
  }

  lemma CollapseAllSnoc(init: seq<Type>, last: Type)
    ensures IdsAll(CollapseAll(init + [last])) == IdsAll(CollapseAll(init)) + Ids(Collapse(last))
  {
    assert (init + [last])[..|init|] == init;
    var ts := CollapseAll(init + [last]);
    assert ts[..|ts| - 1] == CollapseAll(init);
  }

  lemma {:induction false} CollapseProper(t: Type)
    requires WellFormed(t)
    ensures Proper(Collapse(t))
    decreases t, 1
  {
    match t
    case Scalar(_, _) =>
    case Struct(fields, _) => CollapseAllProper(fields);
  }

  lemma {:induction false} CollapseAllProper(fields: seq<Type>)
    requires AllWellFormed(fields)
    ensures AllProper(CollapseAll(fields))
    decreases fields, 0
  {
    if fields != [] {
      CollapseAllProper(fields[..|fields| - 1]);
      CollapseProper(fields[|fields| - 1]);
    }
  }

  // ---------------------------------------------------------------- a simple sufficient condition

  /** Every structure has at least two fields, or a single scalar. */
  predicate Roomy(t: Type)
    decreases t, 1
  {
    match t
    case Scalar(_, _) => true
    case Struct(fields, _) => AllRoomy(fields) && (|fields| >= 2 || (|fields| == 1 && fields[0].Scalar?))
  }

  predicate AllRoomy(fields: seq<Type>)
    decreases fields, 0
  {
    fields == [] || (AllRoomy(fields[..|fields| - 1]) && Roomy(fields[|fields| - 1]))
  }

  lemma {:induction false} RoomyFits(t: Type)
    requires WellFormed(t) && Roomy(t)
    ensures Fits(t) && |Ids(Collapse(t))| + 2 <= 3 * t.size
    decreases t, 1
  {
    if t.Struct? {
      AllRoomyFit(t.fields);
      IdsAllLength(CollapseAll(t.fields));
      if |t.fields| == 1 {
        assert CollapseAll(t.fields) == [Collapse(t.fields[0])];
      }
    }
  }

  lemma {:induction false} AllRoomyFit(fields: seq<Type>)
    requires AllWellFormed(fields) && AllRoomy(fields)
    ensures AllFit(fields) && |IdsAll(CollapseAll(fields))| + 2 * |fields| <= 3 * TotalSize(fields)
    decreases fields, 0
  {
    if fields != [] {
      var ts := CollapseAll(fields);
      assert ts[..|ts| - 1] == CollapseAll(fields[..|fields| - 1]);
      AllRoomyFit(fields[..|fields| - 1]);
      RoomyFits(fields[|fields| - 1]);
    }
  }

  // ---------------------------------------------------------------- reading ids back

  function ItemLength(s: seq<nat>): Option<nat>
    requires s != []
    ensures ItemLength(s).Some? ==> 1 <= ItemLength(s).value <= |s|
  {
    if s[0] == TUPLE_BEGIN then
      (if MatchLength(s).Some? then FindMatchBounds(s, 1); MatchLength(s) else None)
    else Some(1)
  }

  /** The field types that a bracketed id sequence stands for, if it is well bracketed. */
  function Parse(s: seq<nat>): Option<seq<Tree>>
    decreases |s|, 1
  {
    if s == [] then Some([])
    else
      match ItemLength(s) {
        case None => None
        case Some(c) => Join(ParseItem(s[..c]), Parse(s[c..]))
      }
  }

  function ParseItem(s: seq<nat>): Option<Tree>
    requires s != []
    decreases |s|, 0
  {
    if s[0] == TUPLE_BEGIN then
      if |s| <= 2 then None
      else
        match Parse(s[1..|s| - 1]) {
          case None => None
          case Some(items) => Some(Tuple(items))
        }
    else if s[0] == TUPLE_END || s[0] == 0 then None
    else Some(Leaf(s[0]))
  }

  function Join(head: Option<Tree>, tail: Option<seq<Tree>>): Option<seq<Tree>> {
    if head.Some? && tail.Some? then Some([head.value] + tail.value) else None
  }

  lemma {:induction false} IdsAllConcat(ts: seq<Tree>, us: seq<Tree>)
    ensures IdsAll(ts + us) == IdsAll(ts) + IdsAll(us)
    decreases |us|
  {
    if us == [] {
      assert ts + us == ts;
    } else {
      assert (ts + us)[..|ts + us| - 1] == ts + us[..|us| - 1];
      IdsAllConcat(ts, us[..|us| - 1]);
      var init, last := IdsAll(us[..|us| - 1]), Ids(us[|us| - 1]);
      assert IdsAll(ts) + (init + last) == IdsAll(ts) + init + last;
    }
  }

  /** The tags 24 and 25 enclose the ids of the items, which follow one another in order. */
  lemma TupleIds(ts: seq<Tree>, i: nat)
    requires i < |ts|
    ensures Ids(Tuple(ts)) == [24] + IdsAll(ts[..i]) + Ids(ts[i]) + IdsAll(ts[i + 1..]) + [25]
  {
    var init := ts[..i + 1];
    assert init[..|init| - 1] == ts[..i];
    assert ts == init + ts[i + 1..];
    IdsAllConcat(init, ts[i + 1..]);
  }

  /** A structure becomes the tuple of what its fields become, in order, unless its only field becomes a scalar. */
  lemma {:induction false} StructureIsTuple(fields: seq<Type>, size: nat, i: nat)
    requires i < |fields|
    ensures |fields| == 1 && Collapse(fields[0]).Leaf? ==> Collapse(Struct(fields, size)) == Collapse(fields[0])
    ensures |fields| > 1 || Collapse(fields[0]).Tuple? ==>
      var t := Collapse(Struct(fields, size));
      t.Tuple? && |t.items| == |fields| && t.items[i] == Collapse(fields[i])
  {
    CollapsedAt(fields, i);
    CollapsedAt(fields, 0);
  }

  lemma {:induction false} CollapsedAt(fields: seq<Type>, i: nat)
    requires i < |fields|
    ensures CollapseAll(fields)[i] == Collapse(fields[i])
    decreases |fields|
  {
    if i < |fields| - 1 {
      CollapsedAt(fields[..|fields| - 1], i);
    }
  }

  lemma ItemLengthOf(t: Tree, rest: seq<nat>)
    requires Proper(t)
    ensures ItemLength(Ids(t) + rest) == Some(|Ids(t)|)
  {
    var s := Ids(t) + rest;
    if t.Tuple? {
      Balanced(t);
      forall k | 1 <= k < |Ids(t)| ensures Excess(s[..k]) != 0 {
        assert s[..k] == Ids(t)[..k];
      }
      FindMatchMeaning(s, 1, |Ids(t)|);
      assert s[..|Ids(t)|] == Ids(t);
    }
  }

  /** Reading undoes writing. */
  lemma {:induction false} ParseIds(ts: seq<Tree>)
    requires AllProper(ts)
    ensures Parse(IdsAll(ts)) == Some(ts)
    decreases ts, 1
  {
    if ts != [] {
      var head, tail := ts[0], ts[1..];
      assert ts == [head] + tail;
      IdsAllConcat([head], tail);
      assert IdsAll([head]) == Ids(head) by { assert [head][..0] == []; }
      ItemLengthOf(head, IdsAll(tail));
      var s := IdsAll(ts);
      assert s[..|Ids(head)|] == Ids(head) && s[|Ids(head)|..] == IdsAll(tail);
      ParseIds(tail);
      ParseItemIds(head);
    }
  }

  lemma {:induction false} ParseItemIds(t: Tree)
    requires Proper(t)
    ensures ParseItem(Ids(t)) == Some(t)
    decreases t, 0
  {
    if t.Tuple? {
      ParseIds(t.items);
      assert Ids(t)[1..|Ids(t)| - 1] == IdsAll(t.items);
      IdsAllLength(t.items);
    }
  }

  lemma MatchOfPrefix(s: seq<nat>)
    requires MatchLength(s).Some?
    ensures var c := MatchLength(s).value; c <= |s| && MatchLength(s[..c]) == Some(c)
  {
    FindMatchBounds(s, 1);
    var c := MatchLength(s).value;
    forall k | 1 <= k < c ensures Excess(s[..c][..k]) != 0 {
      assert s[..c][..k] == s[..k];
    }
    FindMatchMeaning(s[..c], 1, c);
    assert s[..c][..c] == s[..c];
  }

  /** And only what was written is read. */
  lemma {:induction false} ParseSound(s: seq<nat>)
    requires Parse(s).Some?
    ensures AllProper(Parse(s).value) && IdsAll(Parse(s).value) == s
    decreases |s|, 1
  {
    if s != [] {
      var c := ItemLength(s).value;
      var head, tail := ParseItem(s[..c]).value, Parse(s[c..]).value;
      if s[0] == TUPLE_BEGIN {
        MatchOfPrefix(s);
      }
      ParseItemSound(s[..c]);
      ParseSound(s[c..]);
      IdsAllConcat([head], tail);
      assert IdsAll([head]) == Ids(head) by { assert [head][..0] == []; }
      assert s == s[..c] + s[c..];
    }
  }

  lemma {:induction false} ParseItemSound(s: seq<nat>)
    requires s != [] && ParseItem(s).Some?
    requires if s[0] == TUPLE_BEGIN then MatchLength(s) == Some(|s|) else |s| == 1
    ensures Proper(ParseItem(s).value) && Ids(ParseItem(s).value) == s
    decreases |s|, 0
  {
    if s[0] == TUPLE_BEGIN {
      ParseSound(s[1..|s| - 1]);
      LastClosesMatch(s);
      assert s == [TUPLE_BEGIN] + s[1..|s| - 1] + [TUPLE_END];
    } else {
      assert s == [s[0]];
    }
  }

  /** A bracket can only be closed by a closing bracket. */
  lemma LastClosesMatch(s: seq<nat>)
    requires |s| > 1 && s[0] == TUPLE_BEGIN && MatchLength(s) == Some(|s|)
    ensures s[|s| - 1] == TUPLE_END
  {
    FindMatchBounds(s, 1);
    PositiveBeforeMatch(s, |s| - 1);
    assert s[..|s|] == s;
  }

  lemma {:induction false} PositiveBeforeMatch(s: seq<nat>, k: nat)
    requires s != [] && s[0] == TUPLE_BEGIN && 1 <= k <= |s|
    requires forall j :: 1 <= j <= k ==> Excess(s[..j]) != 0
    ensures Excess(s[..k]) > 0
    decreases k
  {
    assert s[..k][..k - 1] == s[..k - 1];
    if k == 1 {
      ExcessOfOne(TUPLE_BEGIN);
      assert s[..1] == [TUPLE_BEGIN];
    } else {
      PositiveBeforeMatch(s, k - 1);
    }
  }

  /** A sequence with unclosed brackets is not read at all. */
  lemma UnbalancedIsRejected(s: seq<nat>)
    requires Excess(s) != 0
    ensures Parse(s).None?
  {
    if Parse(s).Some? {
      ParseSound(s);
      AllBalanced(Parse(s).value);
    }
  }

  /** Decoding undoes encoding exactly when every nested structure fits its buffer; otherwise the encoding or the
      decoding is rejected, never silently wrong. */
  lemma DecodingUndoesEncoding(fields: seq<Type>)
    requires AllWellFormed(fields)
    ensures (if FlatIds(fields).None? then None else Parse(FlatIds(fields).value))
         == if AllFit(fields) then Some(CollapseAll(fields)) else None
  {
    FlatIdsAre(fields);
    if AllFit(fields) {
      CollapseAllProper(fields);
      ParseIds(CollapseAll(fields));
    } else if FlatIds(fields).Some? {
      UnbalancedIsRejected(FlatIds(fields).value);
    }
  }

  // ---------------------------------------------------------------- a type that does not fit

  /** A structure of three two-byte scalars, wrapped `depth` times in a structure of one field. */
  function Wrapped(depth: nat): Type {
    if depth == 0 then Struct([Scalar(7, 2), Scalar(7, 2), Scalar(7, 2)], 6) else Struct([Wrapped(depth - 1)], 6)
  }

  lemma FieldAppended(init: seq<Type>, last: Type)
    ensures CollapseAll(init + [last]) == CollapseAll(init) + [Collapse(last)]
    ensures IdsAll(CollapseAll(init + [last])) == IdsAll(CollapseAll(init)) + Ids(Collapse(last))
    ensures AllFit(init + [last]) <==> AllFit(init) && Fits(last)
    ensures TotalSize(init + [last]) == TotalSize(init) + last.size
  {
    assert (init + [last])[..|init|] == init;
    CollapseAllSnoc(init, last);
  }

  lemma CollapseOne(t: Type)
    ensures CollapseAll([t]) == [Collapse(t)] && IdsAll([Collapse(t)]) == Ids(Collapse(t))
    ensures (AllFit([t]) <==> Fits(t)) && TotalSize([t]) == t.size
    ensures FlatIds([t]) == FieldIds(t)
  {
    FieldAppended([], t);
    assert [] + [t] == [t] && [t][..0] == [];
    if FieldIds(t).Some? {
      assert [] + FieldIds(t).value == FieldIds(t).value;
    }
  }

  /** Each wrapping adds two brackets to the eighteen slots of the six bytes, so six wrappings fit and no more. */
  lemma {:induction false} WrappedFits(depth: nat)
    ensures WellFormed(Wrapped(depth)) && Collapse(Wrapped(depth)).Tuple?
    ensures |Ids(Collapse(Wrapped(depth)))| == 5 + 2 * depth
    ensures Fits(Wrapped(depth)) <==> depth <= 6
  {
    if depth == 0 {
      var s := Scalar(7, 2);
      CollapseOne(s);
      FieldAppended([s], s);
      FieldAppended([s] + [s], s);
      assert [s] + [s] + [s] == [s, s, s];
    } else {
      WrappedFits(depth - 1);
      CollapseOne(Wrapped(depth - 1));
    }
  }

  /** At the seventh the closing tag overwrites the last id, which closed the wrapping before. */
  lemma SeventhWrappingOverwrites()
    ensures var inner := Ids(Collapse(Wrapped(6)));
      && |inner| == 17 && inner[16] == TUPLE_END
      && FieldIds(Wrapped(7)) == Some([TUPLE_BEGIN] + inner[..16] + [TUPLE_END])
      && Excess(FieldIds(Wrapped(7)).value) > 0
  {
    WrappedFits(6);
    WrappedFits(7);
    FieldIdsAre(Wrapped(6));
    FieldIdsAre(Wrapped(7));
    CollapseOne(Wrapped(6));
  }
}
