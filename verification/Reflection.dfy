/** Reflection of whole structures: pointer chains and native types as ids, nested structures as bracketed ids, and back
    to the types. */
module Reflection {
  import opened Common
  import B = BracketedIds
  import FlatTuples
  import P = PointerIds

  /** A field's type: a native type under any pointer qualifiers, or a structure. */
  datatype Field = Scalar(t: P.Type, size: nat) | Struct(fields: seq<Field>, size: nat)

  /** What reflection makes of it. */
  datatype Shape = Leaf(t: P.Type) | Tuple(items: seq<Shape>)

  function TotalSize(fields: seq<Field>): nat {
    if fields == [] then 0 else TotalSize(fields[..|fields| - 1]) + fields[|fields| - 1].size
  }

  predicate WellFormed(f: Field) {
    match f
    case Scalar(t, size) => P.WellFormed(t) && size >= 1
    case Struct(fields, size) =>
      fields != [] && size >= TotalSize(fields) && forall g | g in fields :: WellFormed(g)
  }

  predicate AllWellFormed(fields: seq<Field>) {
    forall g | g in fields :: WellFormed(g)
  }

  /** The shape of a field type; a structure whose only content is one scalar is taken for that scalar. */
  function ShapeOf(f: Field): Shape
    decreases f, 1
  {
    match f
    case Scalar(t, _) => Leaf(t)
    case Struct(fields, _) =>
      var shapes := ShapesOf(fields);
      if |shapes| == 1 && shapes[0].Leaf? then shapes[0] else Tuple(shapes)
  }

  function ShapesOf(fields: seq<Field>): (shapes: seq<Shape>)
    ensures |shapes| == |fields|
    decreases fields, 0
  {
    if fields == [] then [] else ShapesOf(fields[..|fields| - 1]) + [ShapeOf(fields[|fields| - 1])]
  }

  /** No chain has too many qualifiers. */
  predicate ChainsFit(fields: seq<Field>)
    decreases fields, 0
  {
    fields == [] || (ChainsFit(fields[..|fields| - 1]) && ChainFits(fields[|fields| - 1]))
  }

  predicate ChainFits(f: Field)
    decreases f, 1
  {
    match f
    case Scalar(t, _) => P.Fits(t)
    case Struct(fields, _) => ChainsFit(fields)
  }

  predicate AnyRef(fields: seq<Field>)
    decreases fields, 0
  {
    fields != [] && (AnyRef(fields[..|fields| - 1]) || HasRef(fields[|fields| - 1]))
  }

  predicate HasRef(f: Field)
    decreases f, 1
  {
    match f
    case Scalar(t, _) => P.HasRef(t)
    case Struct(fields, _) => AnyRef(fields)
  }

  /** Shapes are those of the fields, in order; all fields, at any depth, decide whether chains fit and whether there
      is a reference. */
  lemma {:induction false} FieldByField(fields: seq<Field>)
    ensures forall i :: 0 <= i < |fields| ==> ShapesOf(fields)[i] == ShapeOf(fields[i])
    ensures ChainsFit(fields) <==> forall g | g in fields :: ChainFits(g)
    ensures AnyRef(fields) <==> exists g | g in fields :: HasRef(g)
    decreases |fields|
  {
    if fields != [] {
      var init, last := fields[..|fields| - 1], fields[|fields| - 1];
      FieldByField(init);
      assert fields == init + [last];
      assert last in fields && forall g :: g in fields <==> g in init || g == last;
    }
  }

  /** A structure has the shape of a tuple unless its only field has the shape of a scalar. */
  lemma StructureShape(fields: seq<Field>, size: nat)
    requires fields != []
    ensures ShapeOf(Struct(fields, size)) ==
      if |fields| == 1 && ShapeOf(fields[0]).Leaf? then ShapeOf(fields[0]) else Tuple(ShapesOf(fields))
  {
    FieldByField(fields);
  }

  // ---------------------------------------------------------------- ids

  const WORDS: nat := 0x1_0000_0000_0000_0000

  function Word(id: nat): bv64 {
    if id < WORDS then id as bv64 else 0
  }

  lemma WordOfId(id: bv64)
    ensures Word(id as nat) == id && (id != 0 && id != 24 && id != 25 ==> B.IsScalarId(id as nat))
  {
  }

  /** The type with its scalars replaced by their ids; `None` when an overflow assertion fails. */
  function Number(f: Field): Option<B.Type>
    decreases f, 1
  {
    match f
    case Scalar(t, size) => if P.TypeToId(t).None? then None else Some(B.Scalar(P.TypeToId(t).value as nat, size))
    case Struct(fields, size) => if NumberAll(fields).None? then None else Some(B.Struct(NumberAll(fields).value, size))
  }

  function NumberAll(fields: seq<Field>): Option<seq<B.Type>>
    decreases fields, 0
  {
    if fields == [] then Some([])
    else
      var init, last := NumberAll(fields[..|fields| - 1]), Number(fields[|fields| - 1]);
      if init.None? || last.None? then None else Some(init.value + [last.value])
  }

  lemma {:induction false} NumberExactlyWhen(f: Field)
    requires WellFormed(f)
    ensures Number(f).Some? <==> ChainFits(f)
    ensures Number(f).Some? ==> B.WellFormed(Number(f).value) && Number(f).value.size == f.size
    decreases f, 1
  {
    match f
    case Scalar(t, size) => NumberScalar(t, size);
    case Struct(fields, _) => NumberAllExactlyWhen(fields);
  }

  lemma NumberScalar(t: P.Type, size: nat)
    requires P.WellFormed(t) && size >= 1
    ensures P.TypeToId(t).Some? <==> P.Fits(t)
    ensures P.TypeToId(t).Some? ==> B.WellFormed(B.Scalar(P.TypeToId(t).value as nat, size))
  {
    P.EncodesExactlyWhen(t);
    if P.TypeToId(t).Some? {
      P.NeverATag(t);
      WordOfId(P.TypeToId(t).value);
    }
  }

  lemma {:induction false} NumberAllExactlyWhen(fields: seq<Field>)
    requires AllWellFormed(fields)
    ensures NumberAll(fields).Some? <==> ChainsFit(fields)
    ensures NumberAll(fields).Some? ==>
      var ns := NumberAll(fields).value;
      B.AllWellFormed(ns) && |ns| == |fields| && B.TotalSize(ns) == TotalSize(fields)
    decreases fields, 0
  {
    if fields != [] {
      NumberAllExactlyWhen(fields[..|fields| - 1]);
      NumberExactlyWhen(fields[|fields| - 1]);
      if NumberAll(fields).Some? {
        var ns := NumberAll(fields).value;
        assert ns[..|ns| - 1] == NumberAll(fields[..|fields| - 1]).value;
      }
    }
  }

  // ---------------------------------------------------------------- and back

  function Decode(t: B.Tree): Option<Shape>
    decreases t, 1
  {
    match t
    case Leaf(id) => if P.IdToType(Word(id), 20).None? then None else Some(Leaf(P.IdToType(Word(id), 20).value))
    case Tuple(items) => if DecodeAll(items).None? then None else Some(Tuple(DecodeAll(items).value))
  }

  function DecodeAll(ts: seq<B.Tree>): Option<seq<Shape>>
    decreases ts, 0
  {
    if ts == [] then Some([])
    else
      var init, last := DecodeAll(ts[..|ts| - 1]), Decode(ts[|ts| - 1]);
      if init.None? || last.None? then None else Some(init.value + [last.value])
  }

  lemma {:induction false} DecodeUndoesNumber(f: Field)
    requires WellFormed(f) && Number(f).Some?
    ensures Decode(B.Collapse(Number(f).value)) == if HasRef(f) then None else Some(ShapeOf(f))
    ensures B.Collapse(Number(f).value).Leaf? <==> ShapeOf(f).Leaf?
    decreases f, 1
  {
    match f
    case Scalar(t, _) =>
      DecodeScalar(t);
    case Struct(fields, size) =>
      NumberAllExactlyWhen(fields);
      DecodeAllUndoesNumberAll(fields);
      if |fields| == 1 {
        OnlyField(fields);
      }
      StructDecodes(fields, size);
  }

  lemma DecodeScalar(t: P.Type)
    requires P.WellFormed(t) && P.TypeToId(t).Some?
    ensures Decode(B.Leaf(P.TypeToId(t).value as nat)) == if P.HasRef(t) then None else Some(Leaf(t))
  {
    P.EncodesExactlyWhen(t);
    WordOfId(P.TypeToId(t).value);
    P.RoundTrip(t, 20);
  }

  lemma StructDecodes(fields: seq<Field>, size: nat)
    requires NumberAll(fields).Some? && |NumberAll(fields).value| == |fields|
    requires DecodeAll(B.CollapseAll(NumberAll(fields).value))
          == if AnyRef(fields) then None else Some(ShapesOf(fields))
    requires |fields| == 1 ==>
      && B.CollapseAll(NumberAll(fields).value) == [B.Collapse(Number(fields[0]).value)]
      && ShapesOf(fields) == [ShapeOf(fields[0])]
      && (B.Collapse(Number(fields[0]).value).Leaf? <==> ShapeOf(fields[0]).Leaf?)
    ensures var n := B.Struct(NumberAll(fields).value, size);
      && Decode(B.Collapse(n)) == (if AnyRef(fields) then None else Some(ShapeOf(Struct(fields, size))))
      && (B.Collapse(n).Leaf? <==> ShapeOf(Struct(fields, size)).Leaf?)
  {
    var ts := B.CollapseAll(NumberAll(fields).value);
    if |fields| == 1 {
      assert DecodeAll([ts[0]]) == if Decode(ts[0]).None? then None else Some([] + [Decode(ts[0]).value]) by {
        assert [ts[0]][..0] == [];
      }
    }
  }

  lemma {:induction false} OnlyField(fields: seq<Field>)
    requires |fields| == 1 && AllWellFormed(fields) && NumberAll(fields).Some?
    requires forall g | g in fields :: Number(g).Some? ==>
      B.Collapse(Number(g).value).Leaf? <==> ShapeOf(g).Leaf?
    ensures B.CollapseAll(NumberAll(fields).value) == [B.Collapse(Number(fields[0]).value)]
    ensures ShapesOf(fields) == [ShapeOf(fields[0])] && (AnyRef(fields) <==> HasRef(fields[0]))
    ensures Number(fields[0]).Some? && NumberAll(fields).value == [Number(fields[0]).value]
  {
    assert fields[..0] == [];
    B.CollapseOne(Number(fields[0]).value);
  }

  lemma {:induction false} DecodeAllUndoesNumberAll(fields: seq<Field>)
    requires AllWellFormed(fields) && NumberAll(fields).Some?
    ensures DecodeAll(B.CollapseAll(NumberAll(fields).value)) == if AnyRef(fields) then None else Some(ShapesOf(fields))
    ensures forall g | g in fields :: Number(g).Some? && (B.Collapse(Number(g).value).Leaf? <==> ShapeOf(g).Leaf?)
    decreases fields, 0
  {
    if fields != [] {
      var init, last := fields[..|fields| - 1], fields[|fields| - 1];
      DecodeAllUndoesNumberAll(init);
      DecodeUndoesNumber(last);
      var ns := NumberAll(fields).value;
      assert ns[..|ns| - 1] == NumberAll(init).value && ns[|ns| - 1] == Number(last).value;
      var ts := B.CollapseAll(ns);
      assert ts[..|ts| - 1] == B.CollapseAll(ns[..|ns| - 1]) && ts[|ts| - 1] == B.Collapse(ns[|ns| - 1]);
    }
  }

  /** A structure is reflected as the shapes of its fields, each native and pointer type exactly recovered, if and only
      if no chain has too many qualifiers, every nested structure fits its buffer, and there is no reference;
      otherwise the type is rejected. */
  method ReflectType(f: Field) returns (r: Option<seq<Shape>>)
    requires WellFormed(f) && f.Struct?
    ensures r ==
      if ChainsFit(f.fields) && NumberAll(f.fields).Some? && B.AllFit(NumberAll(f.fields).value) && !AnyRef(f.fields)
      then Some(ShapesOf(f.fields)) else None
  {
    var n := Number(f);
    NumberExactlyWhen(f);
    if n.None? {
      return None;
    }
    var trees := FlatTuples.Reflect(n.value);
    if trees.None? {
      return None;
    }
    DecodeAllUndoesNumberAll(f.fields);
    r := DecodeAll(trees.value);
  }
}
