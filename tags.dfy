/** The `extractable_enum!` codecs: an integer tag looked up in a closed table.
    A value outside the table is a failure, never a default. */
module Tags {
  import opened Bytes
  import opened Primitives

  // SyncState: a u8 tag, 0..2.

  datatype SyncState = Unsynced | Synced | ChangedAfterSync

  /** The discriminant the enum declares for each variant. */
  function SyncStateTag(st: SyncState): u8
  {
    match st
    case Unsynced => 0
    case Synced => 1
    case ChangedAfterSync => 2
  }

  /** `From<u8> for SyncState`. */
  function SyncStateFrom(v: int): (r: Result<SyncState>)
    ensures r.Ok? <==> 0 <= v <= 2
    ensures r.Ok? ==> SyncStateTag(r.value) == v
    ensures r.Err? ==> r.error == UnknownTag(SyncStateTable, v)
  {
    match v
    case 0 => Ok(Unsynced)
    case 1 => Ok(Synced)
    case 2 => Ok(ChangedAfterSync)
    case _ => Err(UnknownTag(SyncStateTable, v))
  }

  function ParseSyncState(s: seq<u8>): (r: Result<Decoded<SyncState>>)
    ensures |s| == 0 ==> r == Err(OutOfData)
    ensures 1 <= |s| ==> (r.Ok? <==> s[0] <= 2)
    ensures 1 <= |s| && 2 < s[0] ==> r == Err(UnknownTag(SyncStateTable, s[0]))
    ensures r.Ok? ==> SyncStateTag(r.value.value) == s[0] && r.value.rest == s[1..]
  {
    var b :- ParseU8(s);
    var st :- SyncStateFrom(b.value);
    Ok(Decoded(st, b.rest))
  }

  lemma SyncStateRoundTrip(st: SyncState, t: seq<u8>)
    ensures ParseSyncState([SyncStateTag(st)] + t) == Ok(Decoded(st, t))
  {
  }

  // ComponentType: a u16 tag, 0..247. The 248 variant names are data only; every
  // value below 248 has one, including the "Deleted" placeholders.

  const ComponentTypeCount := 248

  type ComponentType = t: int | 0 <= t < ComponentTypeCount

  const Program8_1Kind: ComponentType := 64
  const Program8_4Kind: ComponentType := 68
  const CustomKind: ComponentType := 92
  const ProgramKind: ComponentType := 94

  /** The placeholder tags `Deleted0` .. `Deleted11`. */
  const DeletedKinds: set<int> := {19, 20, 41, 42, 53, 57, 58, 66, 67, 82, 83, 91}

  /** `From<u16> for ComponentType`. */
  function ComponentTypeFrom(v: int): (r: Result<ComponentType>)
    ensures r.Ok? <==> 0 <= v < ComponentTypeCount
    ensures r.Ok? ==> r.value == v
    ensures r.Err? ==> r.error == UnknownTag(ComponentTypeTable, v)
  {
    if 0 <= v < ComponentTypeCount then Ok(v) else Err(UnknownTag(ComponentTypeTable, v))
  }

  function ParseComponentType(s: seq<u8>): (r: Result<Decoded<ComponentType>>)
    ensures |s| < 2 ==> r == Err(OutOfData)
    ensures 2 <= |s| ==> (r.Ok? <==> LittleEndian(s[..2]) < ComponentTypeCount)
    ensures 2 <= |s| && LittleEndian(s[..2]) >= ComponentTypeCount ==>
      r == Err(UnknownTag(ComponentTypeTable, LittleEndian(s[..2])))
    ensures r.Ok? ==> r.value.value == LittleEndian(s[..2]) && r.value.rest == s[2..]
  {
    var v :- ParseU16(s);
    var kind :- ComponentTypeFrom(v.value);
    Ok(Decoded(kind, v.rest))
  }

  /** Every tag of the table, placeholders included, reads back as itself. */
  lemma ComponentTypeRoundTrip(kind: ComponentType, t: seq<u8>)
    ensures ParseComponentType(EncodeU16(kind) + t) == Ok(Decoded(kind, t))
  {
    U16RoundTrip(kind, t);
  }

  lemma DeletedKindsAreTags()
    ensures forall v :: v in DeletedKinds ==> ComponentTypeFrom(v) == Ok(v)
  {
  }

  // WireKind: a u8 tag, 0..4.

  datatype WireKind = Width1 | Width8 | Width16 | Width32 | Width64

  function WireKindTag(k: WireKind): u8
  {
    match k
    case Width1 => 0
    case Width8 => 1
    case Width16 => 2
    case Width32 => 3
    case Width64 => 4
  }

  /** `From<u8> for WireKind`. */
  function WireKindFrom(v: int): (r: Result<WireKind>)
    ensures r.Ok? <==> 0 <= v <= 4
    ensures r.Ok? ==> WireKindTag(r.value) == v
    ensures r.Err? ==> r.error == UnknownTag(WireKindTable, v)
  {
    match v
    case 0 => Ok(Width1)
    case 1 => Ok(Width8)
    case 2 => Ok(Width16)
    case 3 => Ok(Width32)
    case 4 => Ok(Width64)
    case _ => Err(UnknownTag(WireKindTable, v))
  }

  function ParseWireKind(s: seq<u8>): (r: Result<Decoded<WireKind>>)
    ensures |s| == 0 ==> r == Err(OutOfData)
    ensures 1 <= |s| ==> (r.Ok? <==> s[0] <= 4)
    ensures 1 <= |s| && 4 < s[0] ==> r == Err(UnknownTag(WireKindTable, s[0]))
    ensures r.Ok? ==> WireKindTag(r.value.value) == s[0] && r.value.rest == s[1..]
  {
    var b :- ParseU8(s);
    var k :- WireKindFrom(b.value);
    Ok(Decoded(k, b.rest))
  }

  lemma WireKindRoundTrip(k: WireKind, t: seq<u8>)
    ensures ParseWireKind([WireKindTag(k)] + t) == Ok(Decoded(k, t))
  {
  }

  lemma SyncStateExtends(s: seq<u8>, t: seq<u8>)
    ensures ExtendsAt(ParseSyncState, s, t)
  {
    U8Extends(s, t);
  }

  lemma ComponentTypeExtends(s: seq<u8>, t: seq<u8>)
    ensures ExtendsAt(ParseComponentType, s, t)
  {
    U16Extends(s, t);
  }

  lemma WireKindExtends(s: seq<u8>, t: seq<u8>)
    ensures ExtendsAt(ParseWireKind, s, t)
  {
    U8Extends(s, t);
  }
}
