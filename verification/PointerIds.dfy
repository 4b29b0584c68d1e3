/** Types as 64-bit ids: a native type in the low five bits and up to twenty pointer qualifiers, three bits each,
    from the top down. */
module PointerIds {
  import opened Common

  datatype Qualifier = Ptr | ConstPtr | ConstVolatilePtr | VolatilePtr | Ref

  /** A pointer chain, outermost qualifier first. */
  datatype Type = Native(id: bv64) | Qualified(q: Qualifier, pointee: Type)

  const NATIVE_TYPES_MASK: bv64 := 31
  const EXTENSION_MASK: bv64 := 0xE000_0000_0000_0000
  const MAX_NATIVE: bv64 := 23

  function Extension(q: Qualifier): bv64 {
    match q
    case Ptr => 0x2000_0000_0000_0000
    case ConstPtr => 0x4000_0000_0000_0000
    case ConstVolatilePtr => 0x6000_0000_0000_0000
    case VolatilePtr => 0x8000_0000_0000_0000
    case Ref => 0xA000_0000_0000_0000
  }

  /** `type_to_id_extension_apply`; `None` is its overflow assertion failing. */
  function Apply(unptr: bv64, ext: bv64): Option<bv64> {
    var native := unptr & NATIVE_TYPES_MASK;
    var extensions := unptr & !NATIVE_TYPES_MASK;
    if (extensions >> 3) & NATIVE_TYPES_MASK != 0 then None
    else Some((extensions >> 3) | native | ext)
  }

  function Remove1Ext(index: bv64): bv64 {
    ((index & !NATIVE_TYPES_MASK) << 3) | (index & NATIVE_TYPES_MASK)
  }

  function TypeToId(t: Type): Option<bv64> {
    match t
    case Native(id) => Some(id)
    case Qualified(q, pointee) =>
      match TypeToId(pointee) {
        case None => None
        case Some(unptr) => Apply(unptr, Extension(q))
      }
  }

  predicate WellFormed(t: Type) {
    match t
    case Native(id) => 1 <= id <= MAX_NATIVE
    case Qualified(_, pointee) => WellFormed(pointee)
  }

  lemma RemoveUndoesApply(unptr: bv64, q: Qualifier)
    requires Apply(unptr, Extension(q)).Some?
    ensures var id := Apply(unptr, Extension(q)).value;
      && Remove1Ext(id) == unptr
      && id & EXTENSION_MASK == Extension(q)
      && id & NATIVE_TYPES_MASK == unptr & NATIVE_TYPES_MASK
  {
  }

  /** The five codes, in the top three bits; the outermost qualifier is the one found there and the qualifiers of what
      it points to follow. */
  lemma PointerCodes(id: bv64, q: Qualifier)
    requires 1 <= id <= 23
    ensures TypeToId(Qualified(Ptr, Native(id))) == Some(0x2000_0000_0000_0000 | id)
    ensures TypeToId(Qualified(ConstPtr, Native(id))) == Some(0x4000_0000_0000_0000 | id)
    ensures TypeToId(Qualified(ConstVolatilePtr, Native(id))) == Some(0x6000_0000_0000_0000 | id)
    ensures TypeToId(Qualified(VolatilePtr, Native(id))) == Some(0x8000_0000_0000_0000 | id)
    ensures TypeToId(Qualified(Ref, Native(id))) == Some(0xA000_0000_0000_0000 | id)
    ensures TypeToId(Qualified(Ptr, Qualified(q, Native(id)))) == Some(0x2000_0000_0000_0000 | (Extension(q) >> 3) | id)
  {
    SmallApply(id, Ptr);
    SmallApply(id, ConstPtr);
    SmallApply(id, ConstVolatilePtr);
    SmallApply(id, VolatilePtr);
    SmallApply(id, Ref);
    SmallApplyTwice(id, q);
  }

  lemma SmallApply(id: bv64, q: Qualifier)
    requires id <= 31
    ensures Apply(id, Extension(q)) == Some(Extension(q) | id)
  {
  }

  lemma SmallApplyTwice(id: bv64, q: Qualifier)
    requires id <= 31
    ensures Apply(Extension(q) | id, Extension(Ptr)) == Some(0x2000_0000_0000_0000 | (Extension(q) >> 3) | id)
  {
  }

  /** `id_to_type`: the top three bits choose the overload; a word without qualifiers must be a registered native
      type; references and the two unused patterns are rejected. `fuel` bounds the template recursion. */
  function IdToType(index: bv64, fuel: nat): Option<Type>
    decreases fuel
  {
    if index & EXTENSION_MASK == 0 then
      if 1 <= index <= MAX_NATIVE then Some(Native(index)) else None
    else if fuel == 0 then None
    else
      match QualifierOf(index & EXTENSION_MASK) {
        case None => None
        case Some(q) =>
          match IdToType(Remove1Ext(index), fuel - 1) {
            case None => None
            case Some(pointee) => Some(Qualified(q, pointee))
          }
      }
  }

  function QualifierOf(ext: bv64): Option<Qualifier> {
    if ext == Extension(Ptr) then Some(Ptr)
    else if ext == Extension(ConstPtr) then Some(ConstPtr)
    else if ext == Extension(ConstVolatilePtr) then Some(ConstVolatilePtr)
    else if ext == Extension(VolatilePtr) then Some(VolatilePtr)
    else None
  }

  /** Words without qualifiers: the registered native types are 1 to 23. */
  lemma NativeCodes(id: bv64, fuel: nat)
    requires id <= 31
    ensures IdToType(id, fuel) == if 1 <= id <= 23 then Some(Native(id)) else None
  {
    assert id & EXTENSION_MASK == 0;
  }

  /** References, code 5, and the patterns 6 and 7 are not read back. */
  lemma UnreadableCodes(index: bv64, fuel: nat)
    ensures index & 0xE000_0000_0000_0000 == 0xA000_0000_0000_0000 ==> IdToType(index, fuel).None?
    ensures index & 0xC000_0000_0000_0000 == 0xC000_0000_0000_0000 ==> IdToType(index, fuel).None?
  {
    TopBits(index);
  }

  lemma TopBits(index: bv64)
    ensures index & 0xC000_0000_0000_0000 == 0xC000_0000_0000_0000 ==>
      index & EXTENSION_MASK == 0xC000_0000_0000_0000 || index & EXTENSION_MASK == 0xE000_0000_0000_0000
  {
  }

  function Length(t: Type): nat {
    match t
    case Native(_) => 0
    case Qualified(_, pointee) => 1 + Length(pointee)
  }

  predicate HasRef(t: Type) {
    match t
    case Native(_) => false
    case Qualified(q, pointee) => q.Ref? || HasRef(pointee)
  }

  lemma DecodeStep(index: bv64, q: Qualifier, fuel: nat)
    requires fuel > 0 && index & EXTENSION_MASK == Extension(q)
    ensures IdToType(index, fuel) ==
      if q.Ref? || IdToType(Remove1Ext(index), fuel - 1).None? then None
      else Some(Qualified(q, IdToType(Remove1Ext(index), fuel - 1).value))
  {
  }

  /** Decoding an id gives back the whole chain; references encode but are rejected on the way back. */
  lemma {:induction false} RoundTrip(t: Type, fuel: nat)
    requires WellFormed(t) && TypeToId(t).Some? && fuel >= Length(t)
    ensures IdToType(TypeToId(t).value, fuel) == if HasRef(t) then None else Some(t)
  {
    match t
    case Native(id) => assert id <= 23 ==> id & EXTENSION_MASK == 0;
    case Qualified(q, pointee) =>
      RemoveUndoesApply(TypeToId(pointee).value, q);
      DecodeStep(TypeToId(t).value, q, fuel);
      RoundTrip(pointee, fuel - 1);
  }

  /** Different types have different ids, references included. */
  lemma {:induction false} Injective(t: Type, u: Type)
    requires WellFormed(t) && WellFormed(u) && TypeToId(t).Some? && TypeToId(t) == TypeToId(u)
    ensures t == u
  {
    match (t, u)
    case (Native(a), Native(b)) =>
    case (Qualified(q, p), Qualified(r, o)) =>
      RemoveUndoesApply(TypeToId(p).value, q);
      RemoveUndoesApply(TypeToId(o).value, r);
      Injective(p, o);
    case (Native(a), Qualified(r, o)) =>
      RemoveUndoesApply(TypeToId(o).value, r);
      NativeHasNoExtension(a);
    case (Qualified(q, p), Native(b)) =>
      RemoveUndoesApply(TypeToId(p).value, q);
      NativeHasNoExtension(b);
  }

  lemma NativeHasNoExtension(id: bv64)
    requires id <= MAX_NATIVE
    ensures id & EXTENSION_MASK == 0 && id & !NATIVE_TYPES_MASK == 0
  {
  }

  // ---------------------------------------------------------------- how long a chain may be

  function Innermost(t: Type): Qualifier
    requires t.Qualified?
  {
    if t.pointee.Native? then t.q else Innermost(t.pointee)
  }

  /** Extension bits that no id of a chain of length `k` uses. */
  function Free(k: nat): bv64 {
    if k == 0 then !NATIVE_TYPES_MASK else (Free(k - 1) >> 3) & !NATIVE_TYPES_MASK
  }

  /** Where the innermost qualifier of a chain of length `k + 1` sits, and its bits there. */
  function Place(k: nat): bv64 {
    if k == 0 then EXTENSION_MASK else Place(k - 1) >> 3
  }

  function Bits(q: Qualifier, k: nat): bv64 {
    if k == 0 then Extension(q) else Bits(q, k - 1) >> 3
  }

  lemma ApplyKeepsFree(unptr: bv64, free: bv64, q: Qualifier)
    requires unptr & !NATIVE_TYPES_MASK & free == 0 && Apply(unptr, Extension(q)).Some?
    ensures Apply(unptr, Extension(q)).value & !NATIVE_TYPES_MASK & ((free >> 3) & !NATIVE_TYPES_MASK) == 0
  {
  }

  /** The bits of qualifier `q` are the ones found at place `k`. */
  ghost predicate PlacedAt(id: bv64, q: Qualifier, k: nat) {
    id & Place(k) & !NATIVE_TYPES_MASK == Bits(q, k) & !NATIVE_TYPES_MASK
  }

  lemma ApplyKeepsBits(unptr: bv64, place: bv64, bits: bv64, q: Qualifier)
    requires unptr & place & !NATIVE_TYPES_MASK == bits & !NATIVE_TYPES_MASK
    requires Apply(unptr, Extension(q)).Some?
    ensures Apply(unptr, Extension(q)).value & (place >> 3) & !NATIVE_TYPES_MASK == (bits >> 3) & !NATIVE_TYPES_MASK
  {
  }

  lemma ApplyMovesPlace(unptr: bv64, innermost: Qualifier, k: nat, q: Qualifier)
    requires PlacedAt(unptr, innermost, k) && Apply(unptr, Extension(q)).Some?
    ensures PlacedAt(Apply(unptr, Extension(q)).value, innermost, k + 1)
  {
    ApplyKeepsBits(unptr, Place(k), Bits(innermost, k), q);
  }

  lemma ApplyPlacesBits(unptr: bv64, q: Qualifier)
    requires Apply(unptr, Extension(q)).Some?
    ensures PlacedAt(Apply(unptr, Extension(q)).value, q, 0)
  {
  }

  /** No qualifier of a chain of length `k` uses the free bits. */
  ghost predicate Unused(id: bv64, k: nat) {
    id & !NATIVE_TYPES_MASK & Free(k) == 0
  }

  lemma ApplyKeepsUnused(unptr: bv64, k: nat, q: Qualifier)
    requires Unused(unptr, k) && Apply(unptr, Extension(q)).Some?
    ensures Unused(Apply(unptr, Extension(q)).value, k + 1)
  {
    ApplyKeepsFree(unptr, Free(k), q);
  }

  lemma {:induction false} FreeBits(t: Type)
    requires WellFormed(t) && TypeToId(t).Some?
    ensures Unused(TypeToId(t).value, Length(t))
  {
    match t
    case Native(id) => NativeHasNoExtension(id);
    case Qualified(q, pointee) =>
      FreeBits(pointee);
      ApplyKeepsUnused(TypeToId(pointee).value, Length(pointee), q);
  }

  lemma {:induction false} InnermostBits(t: Type)
    requires WellFormed(t) && TypeToId(t).Some? && t.Qualified?
    ensures PlacedAt(TypeToId(t).value, Innermost(t), Length(t) - 1)
  {
    var unptr := TypeToId(t.pointee).value;
    if t.pointee.Qualified? {
      InnermostBits(t.pointee);
      ApplyMovesPlace(unptr, Innermost(t), Length(t.pointee) - 1, t.q);
    } else {
      ApplyPlacesBits(unptr, t.q);
    }
  }

  /** The three lowest extension bits, which the next qualifier shifts out, are free. */
  ghost predicate LowFree(unptr: bv64) {
    unptr & 0xE0 == 0
  }

  lemma AppliesExactlyWhen(unptr: bv64, q: Qualifier)
    ensures Apply(unptr, Extension(q)).Some? <==> LowFree(unptr)
  {
  }

  /** Up to eighteen qualifiers leave them free. */
  lemma FreeFor18(k: nat)
    requires k <= 18
    ensures Free(k) & 0xE0 == 0xE0
  {
    assert Free(0) & 0xE0 == 0xE0 && Free(1) & 0xE0 == 0xE0 && Free(2) & 0xE0 == 0xE0 && Free(3) & 0xE0 == 0xE0;
    assert Free(4) & 0xE0 == 0xE0 && Free(5) & 0xE0 == 0xE0 && Free(6) & 0xE0 == 0xE0 && Free(7) & 0xE0 == 0xE0;
    assert Free(8) & 0xE0 == 0xE0 && Free(9) & 0xE0 == 0xE0 && Free(10) & 0xE0 == 0xE0 && Free(11) & 0xE0 == 0xE0;
    assert Free(12) & 0xE0 == 0xE0 && Free(13) & 0xE0 == 0xE0 && Free(14) & 0xE0 == 0xE0 && Free(15) & 0xE0 == 0xE0;
    assert Free(16) & 0xE0 == 0xE0 && Free(17) & 0xE0 == 0xE0 && Free(18) & 0xE0 == 0xE0;
  }

  lemma FreeAt19()
    ensures Free(19) == 0x60
  {
    assert Free(2) == 0x3FFFFFFFFFFFFE0 && Free(4) == 0xFFFFFFFFFFFE0 && Free(6) == 0x3FFFFFFFFFE0;
    assert Free(8) == 0xFFFFFFFFE0 && Free(10) == 0x3FFFFFFE0 && Free(12) == 0xFFFFFE0;
    assert Free(14) == 0x3FFFE0 && Free(16) == 0xFFE0 && Free(18) == 0x3E0;
  }

  lemma PlaceAt18()
    ensures Place(18) == 0x380
  {
    assert Place(2) == 0x380000000000000 && Place(4) == 0xE000000000000 && Place(6) == 0x380000000000;
    assert Place(8) == 0xE000000000;
    assert Place(10) == 0x380000000 && Place(12) == 0xE000000 && Place(14) == 0x380000 && Place(16) == 0xE000;
  }

  lemma BitsAt18(q: Qualifier)
    ensures Bits(q, 18) == Extension(q) >> 54
  {
    assert Bits(q, 2) == Extension(q) >> 6 && Bits(q, 4) == Extension(q) >> 12 && Bits(q, 6) == Extension(q) >> 18;
    assert Bits(q, 8) == Extension(q) >> 24 && Bits(q, 10) == Extension(q) >> 30 && Bits(q, 12) == Extension(q) >> 36;
    assert Bits(q, 14) == Extension(q) >> 42 && Bits(q, 16) == Extension(q) >> 48;
  }

  /** After nineteen qualifiers two of the three are free and the third is the innermost qualifier's lowest bit. */
  lemma AtNineteen(unptr: bv64, q: Qualifier)
    requires Unused(unptr, 19) && PlacedAt(unptr, q, 18)
    ensures LowFree(unptr) <==> q.ConstPtr? || q.VolatilePtr?
  {
    FreeAt19();
    PlaceAt18();
    BitsAt18(q);
  }

  lemma AtTwenty(unptr: bv64, q: Qualifier)
    requires PlacedAt(unptr, q, 19) && (q.ConstPtr? || q.VolatilePtr?)
    ensures !LowFree(unptr)
  {
    PlaceAt18();
    BitsAt18(q);
  }

  lemma UpToEighteen(unptr: bv64, k: nat)
    requires Unused(unptr, k) && k <= 18
    ensures LowFree(unptr)
  {
    FreeFor18(k);
  }

  predicate Fits(t: Type) {
    Length(t) <= 19 || (Length(t) == 20 && (Innermost(t).ConstPtr? || Innermost(t).VolatilePtr?))
  }

  lemma LowFreeAbove18(id: bv64, length: nat, q: Qualifier)
    requires 19 <= length <= 20 && Unused(id, length) && PlacedAt(id, q, length - 1)
    requires length == 20 ==> q.ConstPtr? || q.VolatilePtr?
    ensures LowFree(id) <==> length == 19 && (q.ConstPtr? || q.VolatilePtr?)
  {
    if length == 19 {
      AtNineteen(id, q);
    } else {
      AtTwenty(id, q);
    }
  }

  lemma LowFreeExactlyWhen(t: Type)
    requires WellFormed(t) && TypeToId(t).Some? && Fits(t)
    ensures LowFree(TypeToId(t).value)
      <==> Length(t) <= 18 || (Length(t) == 19 && (Innermost(t).ConstPtr? || Innermost(t).VolatilePtr?))
  {
    var id := TypeToId(t).value;
    FreeBits(t);
    if Length(t) <= 18 {
      UpToEighteen(id, Length(t));
    } else {
      InnermostBits(t);
      LowFreeAbove18(id, Length(t), Innermost(t));
    }
  }

  /** The overflow assertion passes exactly for chains of at most nineteen qualifiers, or twenty when the innermost
      one is `const` or `volatile` alone. */
  lemma {:induction false} EncodesExactlyWhen(t: Type)
    requires WellFormed(t)
    ensures TypeToId(t).Some? <==> Fits(t)
  {
    if t.Qualified? {
      EncodesExactlyWhen(t.pointee);
      if TypeToId(t.pointee).Some? {
        AppliesExactlyWhen(TypeToId(t.pointee).value, t.q);
        LowFreeExactlyWhen(t.pointee);
      }
    }
  }

  /** So every reference-free chain that fits comes back from its id, within twenty template instantiations. */
  lemma FittingChainsRoundTrip(t: Type)
    requires WellFormed(t) && Fits(t) && !HasRef(t)
    ensures TypeToId(t).Some? && IdToType(TypeToId(t).value, 20) == Some(t)
  {
    EncodesExactlyWhen(t);
    RoundTrip(t, 20);
  }

  function NativeOf(t: Type): bv64 {
    match t
    case Native(id) => id
    case Qualified(_, pointee) => NativeOf(pointee)
  }

  /** The native type is always in the low five bits, so no pointer's id is zero or one of the two tuple tags. */
  lemma {:induction false} NeverATag(t: Type)
    requires WellFormed(t) && TypeToId(t).Some?
    ensures TypeToId(t).value & NATIVE_TYPES_MASK == NativeOf(t)
    ensures TypeToId(t).value != 0 && TypeToId(t).value != 24 && TypeToId(t).value != 25
  {
    match t
    case Native(id) => LowBits(id, id);
    case Qualified(q, pointee) =>
      NeverATag(pointee);
      RemoveUndoesApply(TypeToId(pointee).value, q);
      NativeInRange(pointee);
      LowBits(TypeToId(t).value, NativeOf(t));
  }

  lemma {:induction false} NativeInRange(t: Type)
    requires WellFormed(t)
    ensures 1 <= NativeOf(t) <= MAX_NATIVE
  {
    if t.Qualified? {
      NativeInRange(t.pointee);
    }
  }

  lemma LowBits(id: bv64, native: bv64)
    requires 1 <= native <= MAX_NATIVE && (id == native || id & NATIVE_TYPES_MASK == native)
    ensures id & NATIVE_TYPES_MASK == native && id != 0 && id != 24 && id != 25
  {
  }
}
