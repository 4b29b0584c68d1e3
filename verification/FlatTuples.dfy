/** Turning a flat bracketed id array back into a tree of field types, by bracket matching, removal of the inside of
    subtuples, and skip counting. */
module FlatTuples {
  import opened BracketedIds
  import opened Common
  import opened FlatTypes

  /** Every opening bracket of `s` is closed inside `s`. */
  ghost predicate Matched(s: seq<nat>) {
    forall k :: 0 <= k < |s| && s[k] == TUPLE_BEGIN ==> MatchLength(s[k..]).Some?
  }

  lemma MatchExtends(s: seq<nat>, t: seq<nat>)
    requires MatchLength(s).Some?
    ensures MatchLength(s + t) == MatchLength(s)
  {
    FindMatchBounds(s, 1);
    var c := MatchLength(s).value;
    forall k | 1 <= k < c ensures Excess((s + t)[..k]) != 0 {
      assert (s + t)[..k] == s[..k];
    }
    FindMatchMeaning(s + t, 1, c);
    assert (s + t)[..c] == s[..c];
  }

  lemma MatchShrinks(s: seq<nat>, n: nat)
    requires n <= |s| && MatchLength(s).Some? && MatchLength(s).value <= n
    ensures MatchLength(s[..n]) == MatchLength(s)
  {
    MatchOfPrefix(s);
    var c := MatchLength(s).value;
    assert s[..n] == s[..c] + s[c..n];
    MatchExtends(s[..c], s[c..n]);
  }

  lemma SuffixInside(s: seq<nat>, c: nat, k: nat)
    requires 0 < k < c - 1 < |s|
    ensures var inner := s[..c][1..c - 1]; inner[k - 1] == s[k] && s[k..] == inner[k - 1..] + s[c - 1..]
  {
    assert s[..c][1..c - 1] == s[1..c - 1];
  }

  lemma {:induction false} ReadableIsMatched(s: seq<nat>)
    requires Parse(s).Some?
    ensures Matched(s)
    decreases |s|
  {
    if s != [] {
      var c := ItemLength(s).value;
      ReadableIsMatched(s[c..]);
      if s[0] == TUPLE_BEGIN {
        MatchOfPrefix(s);
        LastClosesMatch(s[..c]);
        ReadableIsMatched(s[..c][1..c - 1]);
      }
      forall k | 0 <= k < |s| && s[k] == TUPLE_BEGIN ensures MatchLength(s[k..]).Some? {
        if k >= c {
          assert s[k..] == s[c..][k - c..] && s[k] == s[c..][k - c];
        } else if k > 0 {
          var inner := s[..c][1..c - 1];
          assert s[..c][c - 1] == s[c - 1] && k < c - 1;
          SuffixInside(s, c, k);
          MatchExtends(inner[k - 1..], s[c - 1..]);
        }
      }
    }
  }

  // ---------------------------------------------------------------- where the items start

  function Starts(s: seq<nat>, i: nat): seq<nat>
    requires Matched(s) && i <= |s|
    decreases |s| - i
  {
    if i == |s| then [] else [i] + Starts(s, i + ItemAt(s, i))
  }

  /** The length of the item at `i`. */
  function ItemAt(s: seq<nat>, i: nat): (c: nat)
    requires Matched(s) && i < |s|
    ensures 1 <= c <= |s| - i && ItemLength(s[i..]) == Some(c)
    ensures s[i] == TUPLE_BEGIN ==> c >= 2 && MatchLength(s[i..]) == Some(c) && s[i + c - 1] == TUPLE_END
    ensures s[i] != TUPLE_BEGIN ==> c == 1
  {
    assert s[i..][0] == s[i];
    if s[i] == TUPLE_BEGIN then
      OpeningItem(s, i);
      MatchLength(s[i..]).value
    else 1
  }

  lemma OpeningItem(s: seq<nat>, i: nat)
    requires i < |s| && s[i] == TUPLE_BEGIN && MatchLength(s[i..]).Some?
    ensures var c := MatchLength(s[i..]).value; 2 <= c <= |s| - i && s[i + c - 1] == TUPLE_END
  {
    var r := s[i..];
    FindMatchBounds(r, 1);
    var c := MatchLength(r).value;
    assert r[..1] == [TUPLE_BEGIN];
    ExcessOfOne(TUPLE_BEGIN);
    MatchOfPrefix(r);
    LastClosesMatch(r[..c]);
    assert r[..c][c - 1] == s[i + c - 1];
  }

  /** Where item `k` starts; the sequence ends where item number `|starts|` would. */
  function Edge(s: seq<nat>, starts: seq<nat>, k: nat): nat {
    if k < |starts| then starts[k] else |s|
  }

  /** The items starting at `starts` cover `s` from `i` on, each beginning where the one before ends. */
  ghost predicate Tiles(s: seq<nat>, starts: seq<nat>, i: nat)
    requires Matched(s)
  {
    && Edge(s, starts, 0) == i
    && forall k {:trigger ItemAt(s, starts[k])} :: 0 <= k < |starts| ==>
         starts[k] < |s| && Edge(s, starts, k + 1) == starts[k] + ItemAt(s, starts[k])
  }

  lemma NextTile(s: seq<nat>, starts: seq<nat>, i: nat, k: nat)
    requires Matched(s) && Tiles(s, starts, i) && k < |starts|
    ensures starts[k] < |s| && Edge(s, starts, k + 1) == starts[k] + ItemAt(s, starts[k])
  {
  }

  lemma TilesEnd(s: seq<nat>, starts: seq<nat>, i: nat, k: nat)
    requires Matched(s) && Tiles(s, starts, i) && k <= |starts| && Edge(s, starts, k) == |s|
    ensures k == |starts|
  {
    if k < |starts| {
      NextTile(s, starts, i, k);
    }
  }

  lemma {:induction false} StartsTile(s: seq<nat>, i: nat)
    requires Matched(s) && i <= |s|
    ensures Tiles(s, Starts(s, i), i)
    decreases |s| - i
  {
    if i < |s| {
      var rest := Starts(s, i + ItemAt(s, i));
      StartsTile(s, i + ItemAt(s, i));
      var starts := [i] + rest;
      forall k | 0 <= k < |starts|
        ensures starts[k] < |s| && Edge(s, starts, k + 1) == starts[k] + ItemAt(s, starts[k])
      {
        if k > 0 {
          NextTile(s, rest, i + ItemAt(s, i), k - 1);
        }
      }
    }
  }

  // ---------------------------------------------------------------- the passes

  /** Subtuple lengths: the length of the bracketed item at each opening bracket, zero elsewhere. */
  ghost predicate LengthsOf(s: seq<nat>, lengths: seq<nat>) {
    && |lengths| == |s|
    && Matched(s)
    && forall k :: 0 <= k < |s| ==> lengths[k] == if s[k] == TUPLE_BEGIN then ItemAt(s, k) else 0
  }

  /** The bracket at `k` of a range is closed at the same place in the range as in the whole array, or not closed in
      the range at all. */
  lemma LengthInside(a: seq<nat>, first: nat, count: nat, k: nat, c: Option<nat>)
    requires first + count <= |a| && k < count
    requires c == if a[first + k] == TUPLE_BEGIN then MatchLength(a[first + k..]) else Some(0)
    ensures var s := a[first..first + count];
      if c.None? || k + c.value > count then Parse(s).None?
      else s[k] == TUPLE_BEGIN ==> MatchLength(s[k..]) == c
  {
    var s := a[first..first + count];
    assert a[first + k..] == s[k..] + a[first + count..];
    if c.None? || k + c.value > count {
      Unmatched(s, k, a[first + count..]);
    } else if s[k] == TUPLE_BEGIN {
      MatchShrinks(a[first + k..], count - k);
      assert a[first + k..][..count - k] == s[k..];
    }
  }

  lemma Unmatched(s: seq<nat>, k: nat, rest: seq<nat>)
    requires k < |s| && s[k] == TUPLE_BEGIN
    requires MatchLength(s[k..] + rest).None? || MatchLength(s[k..] + rest).value > |s| - k
    ensures Parse(s).None?
  {
    if Parse(s).Some? {
      ReadableIsMatched(s);
      MatchExtends(s[k..], rest);
      FindMatchBounds(s[k..], 1);
    }
  }

  /** Fails when some bracket is not closed inside the range; such a sequence has no reading. */
  method SubtupleLengths(a: seq<nat>, first: nat, count: nat) returns (lengths: Option<seq<nat>>)
    requires first + count <= |a|
    ensures lengths.Some? ==> LengthsOf(a[first..first + count], lengths.value)
    ensures lengths.None? ==> Parse(a[first..first + count]).None?
  {
    ghost var s := a[first..first + count];
    var data := new nat[count](_ => 0);
    for k := 0 to count
      invariant forall j :: 0 <= j < k && s[j] == TUPLE_BEGIN ==> MatchLength(s[j..]) == Some(data[j])
      invariant forall j :: 0 <= j < k && s[j] != TUPLE_BEGIN ==> data[j] == 0
    {
      var c := CountTillMatchingParenthesis(a, first + k);
      LengthInside(a, first, count, k, c);
      if c.None? || k + c.value > count {
        return None;
      }
      data[k] := c.value;
    }
    assert forall k :: 0 <= k < |s| && s[k] == TUPLE_BEGIN ==> ItemAt(s, k) == data[k];
    return Some(data[..]);
  }

  function PlusOne(s: seq<nat>): seq<nat> {
    seq(|s|, i requires 0 <= i < |s| => s[i] + 1)
  }

  method ZeroInside(data: array<nat>, i: nat, skips: nat)
    requires 1 <= skips && i + skips <= data.Length
    modifies data
    ensures AllZeros(data[i + 1..i + skips])
    ensures forall k :: 0 <= k < data.Length && !(i < k < i + skips) ==> data[k] == old(data[k])
  {
    for j := i + 1 to skips + i
      invariant forall k :: i < k < j ==> data[k] == 0
      invariant forall k :: 0 <= k < data.Length && !(i < k < j) ==> data[k] == old(data[k])
    {
      data[j] := 0;
    }
  }

  lemma MarkStep(starts: seq<nat>, k: nat, done: seq<nat>, marks: seq<nat>)
    requires k < |starts| && DropZeros(done) == PlusOne(starts[..k]) && |done| == starts[k] < |marks|
    requires done <= marks && marks[|done|] == starts[k] + 1 && AllZeros(marks[|done| + 1..])
    ensures DropZeros(marks) == PlusOne(starts[..k + 1])
  {
    var zeros := marks[|done| + 1..];
    assert marks == done + [starts[k] + 1] + zeros;
    MarkItem(done, starts[k] + 1, zeros);
    PlusOneNext(starts, k);
  }

  lemma PlusOneNext(s: seq<nat>, k: nat)
    requires k < |s|
    ensures PlusOne(s[..k + 1]) == PlusOne(s[..k]) + [s[k] + 1]
  {
  }

  /** Zeroes the entries inside each outermost subtuple: what is left marks the starts of the items. */
  method RemoveSubtuples(indexes: seq<nat>, lengths: seq<nat>, ghost s: seq<nat>, ghost starts: seq<nat>)
    returns (marks: seq<nat>)
    requires LengthsOf(s, lengths) && |indexes| == |s| && forall k :: 0 <= k < |s| ==> indexes[k] == k + 1
    requires Tiles(s, starts, 0)
    ensures |marks| == |s| && DropZeros(marks) == PlusOne(starts)
  {
    var data := new nat[|indexes|](k requires 0 <= k < |indexes| => indexes[k]);
    var i: nat := 0;
    ghost var k: nat := 0;
    while i < |lengths|
      invariant k <= |starts| && i == Edge(s, starts, k) <= |s|
      invariant (forall j :: i <= j < |s| ==> data[j] == j + 1) && DropZeros(data[..i]) == PlusOne(starts[..k])
    {
      ghost var before := data[..i];
      assert starts[k] == i;
      NextTile(s, starts, 0, k);
      if lengths[i] != 0 {
        var skips := lengths[i];
        ZeroInside(data, i, skips);
        i := i + skips - 1;
      }
      i := i + 1;
      MarkStep(starts, k, before, data[..i]);
      k := k + 1;
    }
    TilesEnd(s, starts, 0, k);
    assert data[..i] == data[..] && starts[..k] == starts;
    marks := data[..];
  }

  lemma MarkItem(before: seq<nat>, mark: nat, zeros: seq<nat>)
    requires mark != 0 && AllZeros(zeros)
    ensures DropZeros(before + [mark] + zeros) == DropZeros(before) + [mark]
  {
    var front, kept := before + [mark], DropZeros(before) + [mark];
    assert DropZeros(front) == kept by {
      DropZerosConcat(before, [mark]);
      DropZerosNone([mark]);
    }
    DropZerosConcat(front, zeros);
    DropZerosAll(zeros);
    assert kept + [] == kept;
  }

  method ResizeDroppingZerosAndDecrementing(a: seq<nat>) returns (r: seq<nat>)
    ensures PlusOne(r) == DropZeros(a)
  {
    r := [];
    for i := 0 to |a|
      invariant PlusOne(r) == DropZeros(a[..i])
    {
      assert a[..i + 1][..i] == a[..i];
      if a[i] != 0 {
        assert PlusOne(r + [a[i] - 1]) == PlusOne(r) + [a[i]];
        r := r + [a[i] - 1];
      }
    }
    assert a[..|a|] == a;
  }

  /** The length of a bracketed item is the same in the whole array `a`. */
  lemma OpeningInside(s: seq<nat>, a: seq<nat>, begin: nat, at: nat)
    requires begin + |s| <= |a| && s == a[begin..begin + |s|] && Matched(s) && at < |s| && s[at] == TUPLE_BEGIN
    ensures MatchLength(a[begin + at..]) == Some(ItemAt(s, at))
  {
    assert a[begin + at..] == s[at..] + a[begin + |s|..];
    MatchExtends(s[at..], a[begin + |s|..]);
  }

  /** How many of the positions from `begin` to `end` are not items of their own. After a bracketed item the scan is
      at its closing bracket; the last position is never examined. */
  method CountSkips(begin: nat, end: nat, a: seq<nat>, ghost starts: seq<nat>) returns (skips: nat)
    requires begin <= end < |a| && Matched(a[begin..end + 1]) && Tiles(a[begin..end + 1], starts, 0)
    ensures 1 + (end - begin) - skips == |starts|
  {
    ghost var s := a[begin..end + 1];
    ghost var k, at: nat := 0, 0;
    skips := 0;
    var i: nat := begin;
    while i < end
      invariant begin <= i <= end
      invariant k <= |starts| && at == Edge(s, starts, k) && skips == at - k
      invariant at == i - begin || (at == i - begin + 1 && s[i - begin] == TUPLE_END)
    {
      assert s[i - begin] == a[i];
      if at == i - begin {
        assert starts[k] == at;
        NextTile(s, starts, 0, k);
        k := k + 1;
      }
      if a[i] == TUPLE_BEGIN {
        var size := CountTillMatchingParenthesis(a, i);
        OpeningInside(s, a, begin, at);
        var thisTupleSize := size.value - 1;
        skips := skips + thisTupleSize;
        i := i + thisTupleSize - 1;
      }
      i := i + 1;
      at := Edge(s, starts, k);
    }
    if at == |s| - 1 {
      assert starts[k] == at;
      NextTile(s, starts, 0, k);
      k := k + 1;
    }
    TilesEnd(s, starts, 0, k);
  }

  // ---------------------------------------------------------------- the tuple

  function Glue(ts: seq<Tree>, rest: Option<seq<Tree>>): Option<seq<Tree>> {
    if rest.Some? then Some(ts + rest.value) else None
  }

  lemma GlueNothing(s: seq<nat>)
    ensures Glue([], Parse(s[0..])) == Parse(s)
  {
    assert s[0..] == s;
    if Parse(s).Some? {
      assert [] + Parse(s).value == Parse(s).value;
    }
  }

  lemma GlueItem(s: seq<nat>, i: nat, ts: seq<Tree>)
    requires Matched(s) && i < |s|
    ensures var c := ItemAt(s, i); var item := ParseItem(s[i..i + c]);
      Glue(ts, Parse(s[i..])) == if item.None? then None else Glue(ts + [item.value], Parse(s[i + c..]))
  {
    var c := ItemAt(s, i);
    assert s[i..][..c] == s[i..i + c] && s[i..][c..] == s[i + c..];
    var item, rest := ParseItem(s[i..i + c]), Parse(s[i + c..]);
    if item.Some? && rest.Some? {
      assert ts + ([item.value] + rest.value) == ts + [item.value] + rest.value;
    }
  }

  /** `as_flat_tuple_impl`: the range of ids from `first` is read as a tuple of field types; `None` when an assertion
      or a constant expression fails. */
  method AsFlatTuple(a: seq<nat>, first: nat, count: nat) returns (r: Option<seq<Tree>>)
    requires first + count <= |a|
    ensures r == Parse(a[first..first + count])
    decreases count, 2
  {
    if count == 0 {
      return Some([]);
    }
    ghost var s := a[first..first + count];
    var lengths := SubtupleLengths(a, first, count);
    if lengths.None? {
      return None;
    }
    ghost var all := Starts(s, 0);
    StartsTile(s, 0);
    var skips := CountSkips(first, first + count - 1, a, all);
    var marks := RemoveSubtuples(seq(count, k => k + 1), lengths.value, s, all);
    var starts := ResizeDroppingZerosAndDecrementing(marks);
    PlusOneInjective(starts, all);
    r := BuildTuple(a, first, count, lengths.value, starts, count - skips);
  }

  /** `ts` are the items before `at`, `starts` the starts of those from `at` on, and `whole` is what they make. */
  ghost predicate Building(s: seq<nat>, whole: Option<seq<Tree>>, ts: seq<Tree>, starts: seq<nat>, at: nat)
    requires Matched(s)
  {
    at <= |s| && starts == Starts(s, at) && Glue(ts, Parse(s[at..])) == whole
  }

  lemma BuildNext(s: seq<nat>, whole: Option<seq<Tree>>, ts: seq<Tree>, starts: seq<nat>, at: nat)
    requires Matched(s) && Building(s, whole, ts, starts, at) && starts != []
    ensures starts[0] == at < |s|
  {
  }

  lemma BuildStep(s: seq<nat>, whole: Option<seq<Tree>>, ts: seq<Tree>, starts: seq<nat>, at: nat,
                  item: Option<Tree>)
    returns (next: nat)
    requires Matched(s) && Building(s, whole, ts, starts, at) && starts != [] && at < |s|
    requires item == ParseItem(s[at..at + ItemAt(s, at)])
    ensures item.None? ==> whole.None?
    ensures item.Some? ==> Building(s, whole, ts + [item.value], starts[1..], next)
  {
    GlueItem(s, at, ts);
    next := at + ItemAt(s, at);
  }

  lemma BuildDone(s: seq<nat>, whole: Option<seq<Tree>>, ts: seq<Tree>, at: nat)
    requires Matched(s) && Building(s, whole, ts, [], at)
    ensures whole == Some(ts)
  {
    assert s[at..] == [] && ts + [] == ts;
  }

  /** One element of the tuple per item. */
  method BuildTuple(a: seq<nat>, first: nat, count: nat, lengths: seq<nat>, starts: seq<nat>, n: nat)
    returns (r: Option<seq<Tree>>)
    requires first + count <= |a| && LengthsOf(a[first..first + count], lengths)
    requires starts == Starts(a[first..first + count], 0) && n == |starts|
    ensures r == Parse(a[first..first + count])
    decreases count, 1
  {
    ghost var s := a[first..first + count];
    var ts: seq<Tree> := [];
    ghost var at: nat, rest, whole := 0, starts, Parse(s);
    GlueNothing(s);
    for k := 0 to n
      invariant rest == starts[k..] && Building(s, whole, ts, rest, at)
    {
      BuildNext(s, whole, ts, rest, at);
      var item := ReadItem(a, first, count, lengths, starts[k]);
      ghost var next := BuildStep(s, whole, ts, rest, at, item);
      if item.None? {
        return None;
      }
      ts := ts + [item.value];
      at, rest := next, rest[1..];
    }
    BuildDone(s, whole, ts, at);
    return Some(ts);
  }

  method ReadItem(a: seq<nat>, first: nat, count: nat, lengths: seq<nat>, at: nat) returns (item: Option<Tree>)
    requires first + count <= |a| && LengthsOf(a[first..first + count], lengths) && at < count
    ensures var s := a[first..first + count]; item == ParseItem(s[at..at + ItemAt(s, at)])
    decreases count, 0, 1
  {
    ghost var s := a[first..first + count];
    SliceOfSlice(a, first, count, at, ItemAt(s, at));
    item := PrepareSubtuple(a, first + at, lengths[at]);
  }

  lemma SliceOfSlice(a: seq<nat>, first: nat, count: nat, at: nat, c: nat)
    requires first + count <= |a| && at + c <= count
    ensures a[first..first + count][at..at + c] == a[first + at..first + at + c]
  {
    var s, t := a[first..first + count][at..at + c], a[first + at..first + at + c];
    forall k | 0 <= k < c ensures s[k] == t[k] {
      assert a[first..first + count][at + k] == a[first + (at + k)];
    }
  }

  lemma PlusOneInjective(s: seq<nat>, t: seq<nat>)
    requires PlusOne(s) == PlusOne(t)
    ensures s == t
  {
    forall i | 0 <= i < |s| ensures s[i] == t[i] {
      assert PlusOne(s)[i] == PlusOne(t)[i];
    }
  }

  /** `prepare_subtuples`: a scalar id, a bracketed range of the given length, or an assertion failure. */
  method PrepareSubtuple(a: seq<nat>, i: nat, length: nat) returns (r: Option<Tree>)
    requires i < |a| && if a[i] == TUPLE_BEGIN then 2 <= length <= |a| - i else length == 0
    ensures r == ParseItem(a[i..i + if length == 0 then 1 else length])
    decreases length, 0, 0
  {
    if a[i] == TUPLE_BEGIN {
      if length <= 2 {
        return None;
      }
      SliceOfSlice(a, i, length, 1, length - 2);
      var items := AsFlatTuple(a, i + 1, length - 2);
      if items.None? {
        return None;
      }
      return Some(Tuple(items.value));
    }
    if a[i] == TUPLE_END || a[i] == 0 {
      return None;
    }
    return Some(Leaf(a[i]));
  }

  /** `internal_tuple_with_same_alignment`: a structure's ids are computed and read back. The result is the tree of
      field types exactly when every nested structure's encoding fits; otherwise the type is rejected. */
  method Reflect(t: Type) returns (r: Option<seq<Tree>>)
    requires WellFormed(t) && t.Struct?
    ensures r == if AllFit(t.fields) then Some(CollapseAll(t.fields)) else None
  {
    DecodingUndoesEncoding(t.fields);
    var ids := FlatArrayOfTypeIds(t.fields, t.size);
    if ids.None? {
      return None;
    }
    r := AsFlatTuple(ids.value, 0, |ids.value|);
    assert ids.value[0..0 + |ids.value|] == ids.value;
  }
}
