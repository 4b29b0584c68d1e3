/** The loops over id buffers: writing a type's ids into three slots per byte, and turning them back into a tree. */
module FlatTypes {
  import opened BracketedIds
  import opened Common

  function DropZeros(s: seq<nat>): seq<nat> {
    if s == [] then []
    else DropZeros(s[..|s| - 1]) + if s[|s| - 1] == 0 then [] else [s[|s| - 1]]
  }

  predicate NoZeros(s: seq<nat>) {
    forall i :: 0 <= i < |s| ==> s[i] != 0
  }

  predicate AllZeros(s: seq<nat>) {
    forall i :: 0 <= i < |s| ==> s[i] == 0
  }

  lemma {:induction false} DropZerosConcat(s: seq<nat>, t: seq<nat>)
    ensures DropZeros(s + t) == DropZeros(s) + DropZeros(t)
    decreases |t|
  {
    if t == [] {
      assert s + t == s;
    } else {
      assert (s + t)[..|s + t| - 1] == s + t[..|t| - 1];
      DropZerosConcat(s, t[..|t| - 1]);
    }
  }

  lemma {:induction false} DropZerosNone(s: seq<nat>)
    requires NoZeros(s)
    ensures DropZeros(s) == s
    decreases |s|
  {
    if s != [] {
      DropZerosNone(s[..|s| - 1]);
    }
  }

  lemma {:induction false} DropZerosAll(s: seq<nat>)
    requires AllZeros(s)
    ensures DropZeros(s) == []
    decreases |s|
  {
    if s != [] {
      DropZerosAll(s[..|s| - 1]);
    }
  }

  lemma {:induction false} DropZerosLeavesNone(s: seq<nat>)
    ensures NoZeros(DropZeros(s))
    decreases |s|
  {
    if s != [] {
      DropZerosLeavesNone(s[..|s| - 1]);
    }
  }

  // ---------------------------------------------------------------- size_array

  method CountNonzeros(a: seq<nat>) returns (count: nat)
    ensures count == |DropZeros(a)|
  {
    count := 0;
    for i := 0 to |a|
      invariant count == |DropZeros(a[..i])|
    {
      assert a[..i + 1][..i] == a[..i];
      if a[i] != 0 {
        count := count + 1;
      }
    }
    assert a[..|a|] == a;
  }

  /** `None` when the scan runs off the end, which a constant expression may not do. */
  method CountTillMatchingParenthesis(a: seq<nat>, from: nat) returns (r: Option<nat>)
    requires from < |a|
    ensures r == if a[from] == TUPLE_BEGIN then MatchLength(a[from..]) else Some(0)
  {
    if a[from] != TUPLE_BEGIN {
      return Some(0);
    }
    ghost var s := a[from..];
    var unclosed, count, i := 0, 0, from;
    while i < |a|
      invariant i == from + count <= |a|
      invariant unclosed == Excess(s[..count])
      invariant FindMatch(s, 1) == FindMatch(s, count + 1)
    {
      assert s[..count + 1][..count] == s[..count];
      if a[i] == TUPLE_BEGIN {
        unclosed := unclosed + 1;
      } else if a[i] == TUPLE_END {
        unclosed := unclosed - 1;
      }
      count := count + 1;
      if unclosed == 0 {
        return Some(count);
      }
      i := i + 1;
    }
    return None;
  }

  // ---------------------------------------------------------------- encoding

  function Slots(t: Type): nat {
    if t.Scalar? then 1 else 3 * t.size
  }

  function SumOfSizes(sizes: seq<nat>): nat {
    if sizes == [] then 0 else SumOfSizes(sizes[..|sizes| - 1]) + sizes[|sizes| - 1]
  }

  /** Offsets without alignment: each is the sum of the sizes before it. */
  method GetTypeOffsets(fields: seq<Type>) returns (offsets: seq<nat>)
    ensures |offsets| == |fields|
    ensures forall i :: 0 <= i < |fields| ==> offsets[i] == TotalSize(fields[..i])
  {
    var data := new nat[|fields|];
    for i := 0 to |fields|
      invariant forall k :: 0 <= k < i ==> data[k] == TotalSize(fields[..k])
    {
      if i == 0 {
        data[0] := 0;
      } else {
        assert fields[..i][..i - 1] == fields[..i - 1];
        data[i] := data[i - 1] + fields[i - 1].size;
      }
    }
    offsets := data[..];
  }

  /** `ubiq_val::assign`: copies `ids` to `types` from `at` on. */
  method Assign(types: array<nat>, at: nat, ids: seq<nat>)
    requires at + |ids| <= types.Length
    modifies types
    ensures types[..] == old(types[..at]) + ids + old(types[at + |ids|..])
  {
    for i := 0 to |ids|
      invariant types[..] == old(types[..at]) + ids[..i] + old(types[at + i..])
    {
      types[at + i] := ids[i];
    }
  }

  lemma {:induction false} TotalSizePrefix(fields: seq<Type>, i: nat)
    requires i <= |fields|
    ensures TotalSize(fields[..i]) <= TotalSize(fields)
    decreases |fields|
  {
    if i < |fields| {
      assert fields[..|fields| - 1][..i] == fields[..i];
      TotalSizePrefix(fields[..|fields| - 1], i);
    } else {
      assert fields[..i] == fields;
    }
  }

  lemma {:induction false} FlatIdsPrefix(fields: seq<Type>, i: nat)
    requires i <= |fields| && FlatIds(fields[..i]).None?
    ensures FlatIds(fields).None?
    decreases |fields|
  {
    if i < |fields| {
      assert fields[..|fields| - 1][..i] == fields[..i];
      FlatIdsPrefix(fields[..|fields| - 1], i);
    } else {
      assert fields[..i] == fields;
    }
  }

  /** The first `used` slots hold the ids of `fields`, zeros apart, and the rest is untouched. */
  ghost predicate Written(fields: seq<Type>, types: seq<nat>, used: nat) {
    && used == 3 * TotalSize(fields) <= |types|
    && FlatIds(fields) == Some(DropZeros(types[..used]))
    && AllZeros(types[used..])
  }

  /** Writing each field's ids at three times its offset: no field's ids reach into the next field's slots. */
  method FieldsCountAndTypeIdsWithZeros(fields: seq<Type>, size: nat) returns (r: Option<seq<nat>>)
    requires AllWellFormed(fields) && TotalSize(fields) <= size
    ensures r.Some? <==> FlatIds(fields).Some?
    ensures r.Some? ==> |r.value| == 3 * size && Written(fields, r.value, 3 * TotalSize(fields))
    decreases fields, 0
  {
    var types := new nat[3 * size](_ => 0);
    var offsets := GetTypeOffsets(fields);
    ghost var used: nat := 0;
    for i := 0 to |fields|
      invariant Written(fields[..i], types[..], used)
    {
      var ids := TypeToId(fields[i]);
      if ids.None? {
        NoIdsAt(fields, i);
        return None;
      }
      TotalSizePrefix(fields, i + 1);
      used := WriteField(fields, i, types[..], used, ids.value);
      Assign(types, 3 * offsets[i], ids.value);
    }
    assert fields[..|fields|] == fields;
    return Some(types[..]);
  }

  /** Dropping the zeros leaves the concatenation of the fields' ids. */
  method FlatArrayOfTypeIds(fields: seq<Type>, size: nat) returns (r: Option<seq<nat>>)
    requires AllWellFormed(fields) && TotalSize(fields) <= size
    ensures r == FlatIds(fields)
    ensures r.Some? ==> NoZeros(r.value)
    decreases fields, 1
  {
    var types := FieldsCountAndTypeIdsWithZeros(fields, size);
    if types.None? {
      return None;
    }
    ghost var used := 3 * TotalSize(fields);
    assert types.value == types.value[..used] + types.value[used..];
    DropZerosConcat(types.value[..used], types.value[used..]);
    DropZerosAll(types.value[used..]);
    DropZerosLeavesNone(types.value);
    var flat := ResizeDroppingZeros(types.value);
    assert flat == DropZeros(types.value[..used]);
    return Some(flat);
  }

  lemma NoIdsAt(fields: seq<Type>, i: nat)
    requires i < |fields| && FieldIds(fields[i]).None?
    ensures FlatIds(fields).None?
  {
    assert fields[..i + 1][..i] == fields[..i];
    FlatIdsPrefix(fields, i + 1);
  }

  lemma WriteField(fields: seq<Type>, i: nat, types: seq<nat>, used: nat, ids: seq<nat>) returns (next: nat)
    requires i < |fields| && Written(fields[..i], types, used) && 3 * TotalSize(fields[..i + 1]) <= |types|
    requires |ids| <= 3 * fields[i].size && FieldIds(fields[i]) == Some(DropZeros(ids))
    ensures used + |ids| <= |types|
    ensures Written(fields[..i + 1], types[..used] + ids + types[used + |ids|..], next)
  {
    assert fields[..i + 1][..i] == fields[..i];
    next := used + 3 * fields[i].size;
    PlaceField(types[..used], ids, types[used..], 3 * fields[i].size);
    assert types[used..][|ids|..] == types[used + |ids|..];
  }

  /** One field's ids, placed at the start of zeros, take no more than the field's own slots. */
  lemma PlaceField(before: seq<nat>, ids: seq<nat>, zeros: seq<nat>, slots: nat)
    requires |ids| <= slots <= |zeros| && AllZeros(zeros)
    ensures var after := before + ids + zeros[|ids|..];
      && DropZeros(after[..|before| + slots]) == DropZeros(before) + DropZeros(ids)
      && after[|before| + slots..] == zeros[slots..]
  {
    var pad := zeros[|ids|..slots];
    assert (before + ids + zeros[|ids|..])[..|before| + slots] == before + ids + pad;
    DropZerosConcat(before + ids, pad);
    DropZerosConcat(before, ids);
    DropZerosAll(pad);
  }

  method ResizeDroppingZeros(a: seq<nat>) returns (res: seq<nat>)
    ensures res == DropZeros(a)
  {
    var count := CountNonzeros(a);
    var data := new nat[count];
    var j := 0;
    for i := 0 to |a|
      invariant j == |DropZeros(a[..i])| <= count
      invariant data[..j] == DropZeros(a[..i])
    {
      assert a[..i + 1][..i] == a[..i];
      DropZerosConcat(a[..i + 1], a[i + 1..]);
      assert a[..i + 1] + a[i + 1..] == a;
      if a[i] != 0 {
        data[j] := a[i];
        j := j + 1;
      }
    }
    assert a[..|a|] == a;
    res := data[..];
  }

  /** A scalar is one id; a structure is its fields' ids, bracketed unless they are a single scalar, in a buffer of
      three slots per byte. */
  method TypeToId(t: Type) returns (r: Option<seq<nat>>)
    requires WellFormed(t)
    ensures r.Some? <==> FieldIds(t).Some?
    ensures r.Some? ==> DropZeros(r.value) == FieldIds(t).value && |r.value| == Slots(t) <= 3 * t.size
    decreases t, 1
  {
    match t
    case Scalar(id, _) =>
      DropZerosNone([id]);
      r := Some([id]);
    case Struct(fields, size) =>
      var flat := FlatArrayOfTypeIds(fields, size);
      FlatIdsAre(fields);
      if flat.None? {
        return None;
      }
      r := Tuplen(flat.value, size);
  }

  method Tuplen(t: seq<nat>, size: nat) returns (r: Option<seq<nat>>)
    requires NoZeros(t) && Plausible(t, 3 * size)
    ensures r.Some? <==> Bracketed(t, 3 * size).Some?
    ensures r.Some? ==> DropZeros(r.value) == Bracketed(t, 3 * size).value && |r.value| == 3 * size
  {
    var nonzeros := CountNonzeros(t);
    DropZerosNone(t);
    var whole := Some(0);
    if nonzeros == 1 {
      whole := CountTillMatchingParenthesis(t, 0);
    }
    var result := new nat[3 * size](_ => 0);
    result[0] := TUPLE_BEGIN;
    if nonzeros != 1 || Some(nonzeros) == whole {
      var fits := WriteBracketed(t, result);
      return if fits then Some(result[..]) else None;
    } else {
      WritePlain(t, result);
      return Some(result[..]);
    }
  }

  /** The ids go behind the opening bracket, which may run off the end; then the last slot is overwritten. */
  method WriteBracketed(t: seq<nat>, result: array<nat>) returns (fits: bool)
    requires NoZeros(t) && |t| > 1 && result.Length > 0
    requires result[0] == TUPLE_BEGIN && AllZeros(result[1..])
    modifies result
    ensures fits <==> Bracketed(t, result.Length).Some?
    ensures fits ==> DropZeros(result[..]) == Bracketed(t, result.Length).value
  {
    for i := 0 to |t|
      invariant i < result.Length && result[0] == TUPLE_BEGIN
      invariant result[1..i + 1] == t[..i] && AllZeros(result[i + 1..])
    {
      if i + 1 >= result.Length {
        return false;
      }
      result[i + 1] := t[i];
    }
    ghost var zeros := result[|t| + 1..];
    assert result[..] == [TUPLE_BEGIN] + t + zeros;
    TuplenIds(t, zeros);
    result[result.Length - 1] := TUPLE_END;
    return true;
  }

  method WritePlain(t: seq<nat>, result: array<nat>)
    requires NoZeros(t) && |t| == 1 && result.Length > 0 && AllZeros(result[1..])
    modifies result
    ensures DropZeros(result[..]) == t
  {
    for i := 0 to |t|
      invariant result[..i] == t[..i] && AllZeros(result[1..])
    {
      result[i] := t[i];
    }
    assert result[..] == t + result[1..];
    DropZerosNone(t);
    DropZerosConcat(t, result[1..]);
    DropZerosAll(result[1..]);
  }

  /** Setting the last slot closes the bracket when zeros are left, and replaces the last id when none is. */
  lemma TuplenIds(t: seq<nat>, zeros: seq<nat>)
    requires NoZeros(t) && |t| > 1 && AllZeros(zeros)
    ensures var buffer := [TUPLE_BEGIN] + t + zeros;
      DropZeros(buffer[|buffer| - 1 := TUPLE_END]) == Bracketed(t, |buffer|).value
  {
    var buffer := [TUPLE_BEGIN] + t + zeros;
    if zeros == [] {
      var all := [TUPLE_BEGIN] + t[..|t| - 1] + [TUPLE_END];
      assert buffer[|buffer| - 1 := TUPLE_END] == all;
      DropZerosNone(all);
    } else {
      TuplenPadded([TUPLE_BEGIN] + t, zeros);
    }
  }

  lemma TuplenPadded(front: seq<nat>, zeros: seq<nat>)
    requires NoZeros(front) && zeros != [] && AllZeros(zeros)
    ensures DropZeros((front + zeros)[|front + zeros| - 1 := TUPLE_END]) == front + [TUPLE_END]
  {
    var pad := zeros[..|zeros| - 1];
    assert (front + zeros)[|front + zeros| - 1 := TUPLE_END] == front + pad + [TUPLE_END];
    DropZerosConcat(front + pad, [TUPLE_END]);
    DropZerosConcat(front, pad);
    DropZerosNone(front);
    DropZerosAll(pad);
    DropZerosNone([TUPLE_END]);
  }
}
