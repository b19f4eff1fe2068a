/** The record codecs of `extractable_struct!`: each field decoded in declaration
    order from where the previous one stopped. `Component` adds a three-way
    dispatch on its `kind`. */
module Records {
  import opened Bytes
  import opened Primitives
  import opened Tags
  import opened Sequences

  // Header

  datatype Header = Header(
    saveId: u64,
    hubId: u32,
    gate: u64,
    delay: u64,
    menuVisible: bool,
    clockSpeed: u32,
    dependencies: seq<u64>,
    description: Utf8,
    cameraPosition: Point,
    synced: SyncState,
    campaignBound: bool,
    archScore: u16,
    playerData: seq<u8>,
    hubDescription: Utf8)

  function ParseHeader(s: seq<u8>): (r: Result<Decoded<Header>>)
  {
    var saveId :- ParseU64(s);
    var hubId :- ParseU32(saveId.rest);
    var gate :- ParseU64(hubId.rest);
    var delay :- ParseU64(gate.rest);
    var menuVisible :- ParseBool(delay.rest);
    var clockSpeed :- ParseU32(menuVisible.rest);
    var dependencies :- ParseShortVec(ParseU64, clockSpeed.rest);
    var description :- ParseString(dependencies.rest);
    var cameraPosition :- ParsePoint(description.rest);
    var synced :- ParseSyncState(cameraPosition.rest);
    var campaignBound :- ParseBool(synced.rest);
    var archScore :- ParseU16(campaignBound.rest);
    var playerData :- ParseShortVec(ParseU8, archScore.rest);
    var hubDescription :- ParseString(playerData.rest);
    Ok(Decoded(
      Header(saveId.value, hubId.value, gate.value, delay.value, menuVisible.value, clockSpeed.value,
             dependencies.value, description.value, cameraPosition.value, synced.value,
             campaignBound.value, archScore.value, playerData.value, hubDescription.value),
      hubDescription.rest))
  }

  /** The header's variable-length fields fit their u16 length prefixes. */
  predicate HeaderEncodable(h: Header)
  {
    && |h.dependencies| < 0x1_0000
    && |h.description| < 0x1_0000
    && |h.playerData| < 0x1_0000
    && |h.hubDescription| < 0x1_0000
  }

  /** The 14 fields in declaration order, each at its own width. */
  function EncodeHeader(h: Header): seq<u8>
    requires HeaderEncodable(h)
  {
    EncodeU64(h.saveId) + (EncodeU32(h.hubId) + (EncodeU64(h.gate) + (EncodeU64(h.delay)
    + (EncodeBool(h.menuVisible) + (EncodeU32(h.clockSpeed)
    + (EncodeVec(2, EncodeU64, h.dependencies) + (EncodeString(h.description)
    + (EncodePoint(h.cameraPosition) + ([SyncStateTag(h.synced)] + (EncodeBool(h.campaignBound)
    + (EncodeU16(h.archScore) + (EncodeVec(2, EncodeU8, h.playerData) + EncodeString(h.hubDescription)))))))))))))
  }

  lemma U64Inverts()
    ensures Inverts(ParseU64, EncodeU64)
  {
    forall v: u64, t: seq<u8> ensures ParseU64(EncodeU64(v) + t) == Ok(Decoded(v, t)) {
      U64RoundTrip(v, t);
    }
  }

  lemma U8Inverts()
    ensures Inverts(ParseU8, EncodeU8)
  {
    forall v: u8, t: seq<u8> ensures ParseU8(EncodeU8(v) + t) == Ok(Decoded(v, t)) {
      U8RoundTrip(v, t);
    }
  }

  lemma HeaderRoundTrip(h: Header, t: seq<u8>)
    requires HeaderEncodable(h)
    ensures ParseHeader(EncodeHeader(h) + t) == Ok(Decoded(h, t))
  {
    // r_i: the encoding of the fields after the i-th one.
    var r13 := EncodeString(h.hubDescription);
    var r12 := EncodeVec(2, EncodeU8, h.playerData) + r13;
    var r11 := EncodeU16(h.archScore) + r12;
    var r10 := EncodeBool(h.campaignBound) + r11;
    var r9 := [SyncStateTag(h.synced)] + r10;
    var r8 := EncodePoint(h.cameraPosition) + r9;
    var r7 := EncodeString(h.description) + r8;
    var r6 := EncodeVec(2, EncodeU64, h.dependencies) + r7;
    var r5 := EncodeU32(h.clockSpeed) + r6;
    var r4 := EncodeBool(h.menuVisible) + r5;
    var r3 := EncodeU64(h.delay) + r4;
    var r2 := EncodeU64(h.gate) + r3;
    var r1 := EncodeU32(h.hubId) + r2;
    assert EncodeHeader(h) == EncodeU64(h.saveId) + r1;
    assert ParseU64(EncodeHeader(h) + t) == Ok(Decoded(h.saveId, r1 + t)) by {
      AppendAssoc(EncodeU64(h.saveId), r1, t);
      U64RoundTrip(h.saveId, r1 + t);
    }
    HeaderFrontReadsBack(h, r1, r2, r3, r4, r5, r6, r7, t);
    HeaderBackReadsBack(h, r7, r8, r9, r10, r11, r12, r13, t);
    HeaderFieldByField(h, EncodeHeader(h) + t, r1 + t, r2 + t, r3 + t, r4 + t, r5 + t, r6 + t,
                       r7 + t, r8 + t, r9 + t, r10 + t, r11 + t, r12 + t, r13 + t, t);
  }

  /** Fields 2 to 7 of a header encoding read back, each leaving the next. */
  lemma HeaderFrontReadsBack(h: Header, r1: seq<u8>, r2: seq<u8>, r3: seq<u8>, r4: seq<u8>, r5: seq<u8>,
                             r6: seq<u8>, r7: seq<u8>, t: seq<u8>)
    requires |h.dependencies| < 0x1_0000
    requires r1 == EncodeU32(h.hubId) + r2 && r2 == EncodeU64(h.gate) + r3 && r3 == EncodeU64(h.delay) + r4
    requires r4 == EncodeBool(h.menuVisible) + r5 && r5 == EncodeU32(h.clockSpeed) + r6
    requires r6 == EncodeVec(2, EncodeU64, h.dependencies) + r7
    ensures ParseU32(r1 + t) == Ok(Decoded(h.hubId, r2 + t))
    ensures ParseU64(r2 + t) == Ok(Decoded(h.gate, r3 + t))
    ensures ParseU64(r3 + t) == Ok(Decoded(h.delay, r4 + t))
    ensures ParseBool(r4 + t) == Ok(Decoded(h.menuVisible, r5 + t))
    ensures ParseU32(r5 + t) == Ok(Decoded(h.clockSpeed, r6 + t))
    ensures ParseShortVec(ParseU64, r6 + t) == Ok(Decoded(h.dependencies, r7 + t))
  {
    AppendAssoc(EncodeU32(h.hubId), r2, t);
    U32RoundTrip(h.hubId, r2 + t);
    AppendAssoc(EncodeU64(h.gate), r3, t);
    U64RoundTrip(h.gate, r3 + t);
    AppendAssoc(EncodeU64(h.delay), r4, t);
    U64RoundTrip(h.delay, r4 + t);
    AppendAssoc(EncodeBool(h.menuVisible), r5, t);
    BoolRoundTrip(h.menuVisible, r5 + t);
    AppendAssoc(EncodeU32(h.clockSpeed), r6, t);
    U32RoundTrip(h.clockSpeed, r6 + t);
    AppendAssoc(EncodeVec(2, EncodeU64, h.dependencies), r7, t);
    U64Inverts();
    VecRoundTrip(2, ParseU64, EncodeU64, h.dependencies, r7 + t);
  }

  /** Fields 8 to 14 of a header encoding read back, each leaving the next. */
  lemma HeaderBackReadsBack(h: Header, r7: seq<u8>, r8: seq<u8>, r9: seq<u8>, r10: seq<u8>, r11: seq<u8>,
                            r12: seq<u8>, r13: seq<u8>, t: seq<u8>)
    requires |h.description| < 0x1_0000 && |h.playerData| < 0x1_0000 && |h.hubDescription| < 0x1_0000
    requires r7 == EncodeString(h.description) + r8 && r8 == EncodePoint(h.cameraPosition) + r9
    requires r9 == [SyncStateTag(h.synced)] + r10 && r10 == EncodeBool(h.campaignBound) + r11
    requires r11 == EncodeU16(h.archScore) + r12 && r12 == EncodeVec(2, EncodeU8, h.playerData) + r13
    requires r13 == EncodeString(h.hubDescription)
    ensures ParseString(r7 + t) == Ok(Decoded(h.description, r8 + t))
    ensures ParsePoint(r8 + t) == Ok(Decoded(h.cameraPosition, r9 + t))
    ensures ParseSyncState(r9 + t) == Ok(Decoded(h.synced, r10 + t))
    ensures ParseBool(r10 + t) == Ok(Decoded(h.campaignBound, r11 + t))
    ensures ParseU16(r11 + t) == Ok(Decoded(h.archScore, r12 + t))
    ensures ParseShortVec(ParseU8, r12 + t) == Ok(Decoded(h.playerData, r13 + t))
    ensures ParseString(r13 + t) == Ok(Decoded(h.hubDescription, t))
  {
    AppendAssoc(EncodeString(h.description), r8, t);
    StringRoundTrip(h.description, r8 + t);
    AppendAssoc(EncodePoint(h.cameraPosition), r9, t);
    PointRoundTrip(h.cameraPosition, r9 + t);
    AppendAssoc([SyncStateTag(h.synced)], r10, t);
    SyncStateRoundTrip(h.synced, r10 + t);
    AppendAssoc(EncodeBool(h.campaignBound), r11, t);
    BoolRoundTrip(h.campaignBound, r11 + t);
    AppendAssoc(EncodeU16(h.archScore), r12, t);
    U16RoundTrip(h.archScore, r12 + t);
    AppendAssoc(EncodeVec(2, EncodeU8, h.playerData), r13, t);
    U8Inverts();
    VecRoundTrip(2, ParseU8, EncodeU8, h.playerData, r13 + t);
    StringRoundTrip(h.hubDescription, t);
  }

  /** `ParseHeader` succeeds with `h` when each field decodes, in order, to `h`'s. */
  lemma HeaderFieldByField(h: Header, s: seq<u8>, r1: seq<u8>, r2: seq<u8>, r3: seq<u8>, r4: seq<u8>,
                           r5: seq<u8>, r6: seq<u8>, r7: seq<u8>, r8: seq<u8>, r9: seq<u8>, r10: seq<u8>,
                           r11: seq<u8>, r12: seq<u8>, r13: seq<u8>, t: seq<u8>)
    requires ParseU64(s) == Ok(Decoded(h.saveId, r1))
    requires ParseU32(r1) == Ok(Decoded(h.hubId, r2))
    requires ParseU64(r2) == Ok(Decoded(h.gate, r3))
    requires ParseU64(r3) == Ok(Decoded(h.delay, r4))
    requires ParseBool(r4) == Ok(Decoded(h.menuVisible, r5))
    requires ParseU32(r5) == Ok(Decoded(h.clockSpeed, r6))
    requires ParseShortVec(ParseU64, r6) == Ok(Decoded(h.dependencies, r7))
    requires ParseString(r7) == Ok(Decoded(h.description, r8))
    requires ParsePoint(r8) == Ok(Decoded(h.cameraPosition, r9))
    requires ParseSyncState(r9) == Ok(Decoded(h.synced, r10))
    requires ParseBool(r10) == Ok(Decoded(h.campaignBound, r11))
    requires ParseU16(r11) == Ok(Decoded(h.archScore, r12))
    requires ParseShortVec(ParseU8, r12) == Ok(Decoded(h.playerData, r13))
    requires ParseString(r13) == Ok(Decoded(h.hubDescription, t))
    ensures ParseHeader(s) == Ok(Decoded(h, t))
  {
  }

  // ComponentData, CustomData

  datatype ComponentData = ComponentData(
    kind: ComponentType,
    position: Point,
    rotation: u8,
    permanentId: u64,
    customString: Utf8,
    setting1: u64,
    setting2: u64,
    uiOrder: i16)

  function ParseComponentData(s: seq<u8>): (r: Result<Decoded<ComponentData>>)
  {
    var kind :- ParseComponentType(s);
    var position :- ParsePoint(kind.rest);
    var rotation :- ParseU8(position.rest);
    var permanentId :- ParseU64(rotation.rest);
    var customString :- ParseString(permanentId.rest);
    var setting1 :- ParseU64(customString.rest);
    var setting2 :- ParseU64(setting1.rest);
    var uiOrder :- ParseI16(setting2.rest);
    Ok(Decoded(
      ComponentData(kind.value, position.value, rotation.value, permanentId.value,
                    customString.value, setting1.value, setting2.value, uiOrder.value),
      uiOrder.rest))
  }

  function EncodeComponentData(d: ComponentData): seq<u8>
    requires |d.customString| < 0x1_0000
  {
    EncodeU16(d.kind) + (EncodePoint(d.position) + (EncodeU8(d.rotation) + (EncodeU64(d.permanentId)
    + (EncodeString(d.customString) + (EncodeU64(d.setting1) + (EncodeU64(d.setting2) + EncodeI16(d.uiOrder)))))))
  }

  lemma ComponentDataRoundTrip(d: ComponentData, t: seq<u8>)
    requires |d.customString| < 0x1_0000
    ensures ParseComponentData(EncodeComponentData(d) + t) == Ok(Decoded(d, t))
  {
    var r7 := EncodeI16(d.uiOrder);
    var r6 := EncodeU64(d.setting2) + r7;
    var r5 := EncodeU64(d.setting1) + r6;
    var r4 := EncodeString(d.customString) + r5;
    var r3 := EncodeU64(d.permanentId) + r4;
    var r2 := EncodeU8(d.rotation) + r3;
    var r1 := EncodePoint(d.position) + r2;
    assert EncodeComponentData(d) == EncodeU16(d.kind) + r1;
    AppendAssoc(EncodeU16(d.kind), r1, t);
    ComponentTypeRoundTrip(d.kind, r1 + t);
    AppendAssoc(EncodePoint(d.position), r2, t);
    PointRoundTrip(d.position, r2 + t);
    AppendAssoc(EncodeU8(d.rotation), r3, t);
    U8RoundTrip(d.rotation, r3 + t);
    AppendAssoc(EncodeU64(d.permanentId), r4, t);
    U64RoundTrip(d.permanentId, r4 + t);
    AppendAssoc(EncodeString(d.customString), r5, t);
    StringRoundTrip(d.customString, r5 + t);
    AppendAssoc(EncodeU64(d.setting1), r6, t);
    U64RoundTrip(d.setting1, r6 + t);
    AppendAssoc(EncodeU64(d.setting2), r7, t);
    U64RoundTrip(d.setting2, r7 + t);
    I16RoundTrip(d.uiOrder, t);
  }

  datatype CustomData = CustomData(customId: u64, customDisplacement: Point)

  /** A u64 identifier and a displacement point: exactly 12 bytes. */
  function ParseCustomData(s: seq<u8>): (r: Result<Decoded<CustomData>>)
    ensures r.Ok? <==> 12 <= |s|
    ensures r.Err? ==> r.error == OutOfData
    ensures r.Ok? ==> r.value.rest == s[12..]
  {
    var customId :- ParseU64(s);
    var customDisplacement :- ParsePoint(customId.rest);
    Ok(Decoded(CustomData(customId.value, customDisplacement.value), customDisplacement.rest))
  }

  function EncodeCustomData(c: CustomData): seq<u8>
  {
    EncodeU64(c.customId) + EncodePoint(c.customDisplacement)
  }

  lemma CustomDataRoundTrip(c: CustomData, t: seq<u8>)
    ensures ParseCustomData(EncodeCustomData(c) + t) == Ok(Decoded(c, t))
  {
    assert EncodeCustomData(c) + t == EncodeU64(c.customId) + (EncodePoint(c.customDisplacement) + t);
    U64RoundTrip(c.customId, EncodePoint(c.customDisplacement) + t);
    PointRoundTrip(c.customDisplacement, t);
  }

  // Program slots: a `ShortVec<(u64, String)>` collected into a `HashMap`.

  function ParseProgramSlot(s: seq<u8>): (r: Result<Decoded<(u64, Utf8)>>)
  {
    ParsePair(ParseU64, ParseString, s)
  }

  lemma ProgramSlotRoundTrip(slot: u64, text: Utf8, t: seq<u8>)
    requires |text| < 0x1_0000
    ensures ParseProgramSlot(EncodeU64(slot) + EncodeString(text) + t) == Ok(Decoded((slot, text), t))
  {
    assert EncodeU64(slot) + EncodeString(text) + t == EncodeU64(slot) + (EncodeString(text) + t);
    U64RoundTrip(slot, EncodeString(text) + t);
    StringRoundTrip(text, t);
  }

  /** `collect()` into a map: each pair inserted in order, a later pair with the
      same key overwriting the earlier value. */
  function PairsToMap(pairs: seq<(u64, Utf8)>): (m: map<u64, Utf8>)
    ensures m.Keys == set i | 0 <= i < |pairs| :: pairs[i].0
  {
    if pairs == [] then map[]
    else
      var init := pairs[..|pairs| - 1];
      var last := pairs[|pairs| - 1];
      var m := PairsToMap(init);
      assert (set i | 0 <= i < |pairs| :: pairs[i].0) == (set i | 0 <= i < |init| :: init[i].0) + {last.0};
      m[last.0 := last.1]
  }

  /** The value kept for a key is the one of the last pair that has it. */
  lemma {:induction false} PairsToMapLastWins(pairs: seq<(u64, Utf8)>, i: nat)
    requires i < |pairs|
    requires forall j :: i < j < |pairs| ==> pairs[j].0 != pairs[i].0
    ensures pairs[i].0 in PairsToMap(pairs) && PairsToMap(pairs)[pairs[i].0] == pairs[i].1
  {
    if i < |pairs| - 1 {
      PairsToMapLastWins(pairs[..|pairs| - 1], i);
    }
  }

  // Component

  datatype Component =
    | Normal(common: ComponentData)
    | Custom(common: ComponentData, custom: CustomData)
    | Program(common: ComponentData, program: map<u64, Utf8>)

  predicate IsProgramKind(kind: ComponentType)
  {
    kind == Program8_1Kind || kind == Program8_4Kind || kind == ProgramKind
  }

  /** `Component::extract_new`: the common fields, then what `kind` selects. */
  function ParseComponent(s: seq<u8>): (r: Result<Decoded<Component>>)
    ensures ParseComponentData(s).Err? ==> r == Err(ParseComponentData(s).error)
    ensures r.Ok? ==> ParseComponentData(s).Ok? && r.value.value.common == ParseComponentData(s).value.value
    ensures r.Ok? ==> (r.value.value.Custom? <==> r.value.value.common.kind == CustomKind)
    ensures r.Ok? ==> (r.value.value.Program? <==> IsProgramKind(r.value.value.common.kind))
  {
    var common :- ParseComponentData(s);
    if common.value.kind == CustomKind then
      var custom :- ParseCustomData(common.rest);
      Ok(Decoded(Custom(common.value, custom.value), custom.rest))
    else if IsProgramKind(common.value.kind) then
      var slots :- ParseShortVec(ParseProgramSlot, common.rest);
      Ok(Decoded(Program(common.value, PairsToMap(slots.value)), slots.rest))
    else
      Ok(Decoded(Normal(common.value), common.rest))
  }

  /** What a component consumes after its common fields: 12 bytes for `Custom`,
      a program-slot vector for the three program kinds, nothing otherwise. */
  lemma ComponentLayout(s: seq<u8>)
    requires ParseComponentData(s).Ok?
    ensures
      var d := ParseComponentData(s).value;
      && (d.value.kind == CustomKind ==>
            if 12 <= |d.rest| then
              ParseComponent(s) == Ok(Decoded(Custom(d.value, ParseCustomData(d.rest).value.value), d.rest[12..]))
            else ParseComponent(s) == Err(OutOfData))
      && (IsProgramKind(d.value.kind) ==>
            var slots := ParseShortVec(ParseProgramSlot, d.rest);
            && (slots.Err? ==> ParseComponent(s) == Err(slots.error))
            && (slots.Ok? ==> ParseComponent(s) == Ok(Decoded(Program(d.value, PairsToMap(slots.value.value)), slots.value.rest))))
      && (d.value.kind != CustomKind && !IsProgramKind(d.value.kind) ==>
            ParseComponent(s) == Ok(Decoded(Normal(d.value), d.rest)))
  {
  }

  // Stored components: a component as written, with its program slots in the
  // order they were written (the decoded map no longer has that order).

  /** A program slot whose text fits its u16 length prefix. */
  type EncodableSlot = p: (u64, Utf8) | |p.1| < 0x1_0000 witness (0, EmptyText)

  function EncodeSlot(p: EncodableSlot): seq<u8>
  {
    EncodeU64(p.0) + EncodeString(p.1)
  }

  function SlotOf(p: EncodableSlot): (u64, Utf8)
  {
    p
  }

  lemma SlotRepresents()
    ensures Represents<EncodableSlot, (u64, Utf8)>(ParseProgramSlot, EncodeSlot, SlotOf)
  {
    forall p: EncodableSlot, t: seq<u8> ensures ParseProgramSlot(EncodeSlot(p) + t) == Ok(Decoded(p, t)) {
      ProgramSlotRoundTrip(p.0, p.1, t);
    }
  }

  datatype StoredComponent =
    | StoredNormal(common: ComponentData)
    | StoredCustom(common: ComponentData, custom: CustomData)
    | StoredProgram(common: ComponentData, slots: seq<EncodableSlot>)

  /** The tail a stored component carries is the one its kind selects, and its
      lengths fit their prefixes. */
  predicate ValidStoredComponent(c: StoredComponent)
  {
    && |c.common.customString| < 0x1_0000
    && match c
       case StoredNormal(d) => d.kind != CustomKind && !IsProgramKind(d.kind)
       case StoredCustom(d, _) => d.kind == CustomKind
       case StoredProgram(d, slots) => IsProgramKind(d.kind) && |slots| < 0x1_0000
  }

  type EncodableComponent = c: StoredComponent | ValidStoredComponent(c)
    witness StoredNormal(ComponentData(0, Point(0, 0), 0, 0, EmptyText, 0, 0, 0))

  /** The common fields, then the tail: nothing, 12 bytes of custom data, or the
      slot vector. */
  function EncodeComponent(c: EncodableComponent): seq<u8>
  {
    EncodeComponentData(c.common) +
      match c
      case StoredNormal(_) => []
      case StoredCustom(_, custom) => EncodeCustomData(custom)
      case StoredProgram(_, slots) => EncodeVec(2, EncodeSlot, slots)
  }

  /** The component a stored component decodes to: the slots collected into a map. */
  function ComponentOf(c: EncodableComponent): Component
  {
    match c
    case StoredNormal(d) => Normal(d)
    case StoredCustom(d, custom) => Custom(d, custom)
    case StoredProgram(d, slots) => Program(d, PairsToMap(slots))
  }

  /** The common fields read back, leaving the tail and what follows it. */
  lemma CommonReadsBack(d: ComponentData, tail: seq<u8>, t: seq<u8>)
    requires |d.customString| < 0x1_0000
    ensures ParseComponentData(EncodeComponentData(d) + tail + t) == Ok(Decoded(d, tail + t))
  {
    AppendAssoc(EncodeComponentData(d), tail, t);
    ComponentDataRoundTrip(d, tail + t);
  }

  /** A slot vector reads back as the slots, in the order written. */
  lemma SlotsRoundTrip(slots: seq<EncodableSlot>, t: seq<u8>)
    requires |slots| < 0x1_0000
    ensures ParseShortVec(ParseProgramSlot, EncodeVec(2, EncodeSlot, slots) + t) == Ok(Decoded(slots, t))
  {
    SlotRepresents();
    VecRepresents<EncodableSlot, (u64, Utf8)>(2, ParseProgramSlot, EncodeSlot, SlotOf, slots, t);
    var vs := Meanings(SlotOf, slots);
    assert vs == slots;
    var s := EncodeVec(2, EncodeSlot, slots) + t;
    assert ParseVec(2, ParseProgramSlot, s) == Ok(Decoded(vs, t));
    assert ParseShortVec(ParseProgramSlot, s) == ParseVec(2, ParseProgramSlot, s);
  }

  lemma ComponentRoundTrip(c: EncodableComponent, t: seq<u8>)
    ensures ParseComponent(EncodeComponent(c) + t) == Ok(Decoded(ComponentOf(c), t))
  {
    var d := c.common;
    match c
    case StoredNormal(_) =>
      CommonReadsBack(d, [], t);
      assert EncodeComponent(c) + t == EncodeComponentData(d) + [] + t;
      assert [] + t == t;
    case StoredCustom(_, custom) =>
      var tail := EncodeCustomData(custom);
      CommonReadsBack(d, tail, t);
      assert EncodeComponent(c) + t == EncodeComponentData(d) + tail + t;
      CustomDataRoundTrip(custom, t);
    case StoredProgram(_, slots) =>
      var tail := EncodeVec(2, EncodeSlot, slots);
      CommonReadsBack(d, tail, t);
      assert EncodeComponent(c) + t == EncodeComponentData(d) + tail + t;
      SlotsRoundTrip(slots, t);
  }

  lemma ComponentRepresents()
    ensures Represents(ParseComponent, EncodeComponent, ComponentOf)
  {
    forall c: EncodableComponent, t: seq<u8> ensures ParseComponent(EncodeComponent(c) + t) == Ok(Decoded(ComponentOf(c), t)) {
      ComponentRoundTrip(c, t);
    }
  }

  // Extension

  lemma HeaderExtends(s: seq<u8>, t: seq<u8>)
    ensures ExtendsAt(ParseHeader, s, t)
  {
    if ParseHeader(s).Ok? {
      U64DecoderExtends();
      U8DecoderExtends();
      var saveId := ParseU64(s).value;                  U64Extends(s, t);
      var hubId := ParseU32(saveId.rest).value;         U32Extends(saveId.rest, t);
      var gate := ParseU64(hubId.rest).value;           U64Extends(hubId.rest, t);
      var delay := ParseU64(gate.rest).value;           U64Extends(gate.rest, t);
      var menuVisible := ParseBool(delay.rest).value;   BoolExtends(delay.rest, t);
      var clockSpeed := ParseU32(menuVisible.rest).value;   U32Extends(menuVisible.rest, t);
      var dependencies := ParseShortVec(ParseU64, clockSpeed.rest).value;
      VecExtends(2, ParseU64, clockSpeed.rest, t);
      var description := ParseString(dependencies.rest).value;   StringExtends(dependencies.rest, t);
      var cameraPosition := ParsePoint(description.rest).value;  PointExtends(description.rest, t);
      var synced := ParseSyncState(cameraPosition.rest).value;   SyncStateExtends(cameraPosition.rest, t);
      var campaignBound := ParseBool(synced.rest).value;         BoolExtends(synced.rest, t);
      var archScore := ParseU16(campaignBound.rest).value;       U16Extends(campaignBound.rest, t);
      var playerData := ParseShortVec(ParseU8, archScore.rest).value;
      VecExtends(2, ParseU8, archScore.rest, t);
      StringExtends(playerData.rest, t);
    }
  }

  lemma U64DecoderExtends()
    ensures Extends(ParseU64)
  {
    forall s, t ensures ExtendsAt(ParseU64, s, t) {
      U64Extends(s, t);
    }
  }

  lemma ComponentDataExtends(s: seq<u8>, t: seq<u8>)
    ensures ExtendsAt(ParseComponentData, s, t)
  {
    if ParseComponentData(s).Ok? {
      var kind := ParseComponentType(s).value;              ComponentTypeExtends(s, t);
      var position := ParsePoint(kind.rest).value;          PointExtends(kind.rest, t);
      var rotation := ParseU8(position.rest).value;         U8Extends(position.rest, t);
      var permanentId := ParseU64(rotation.rest).value;     U64Extends(rotation.rest, t);
      var customString := ParseString(permanentId.rest).value;   StringExtends(permanentId.rest, t);
      var setting1 := ParseU64(customString.rest).value;    U64Extends(customString.rest, t);
      var setting2 := ParseU64(setting1.rest).value;        U64Extends(setting1.rest, t);
      I16Extends(setting2.rest, t);
    }
  }

  lemma ProgramSlotDecoderExtends()
    ensures Extends(ParseProgramSlot)
  {
    forall s, t ensures ExtendsAt(ParseProgramSlot, s, t) {
      U64DecoderExtends();
      assert Extends(ParseString) by {
        forall s', t' ensures ExtendsAt(ParseString, s', t') {
          StringExtends(s', t');
        }
      }
      PairExtends(ParseU64, ParseString, s, t);
    }
  }

  lemma CustomDataExtends(s: seq<u8>, t: seq<u8>)
    ensures ExtendsAt(ParseCustomData, s, t)
  {
    if 12 <= |s| {
      assert (s + t)[12..] == s[12..] + t;
      U64Extends(s, t);
      PointExtends(s[8..], t);
    }
  }

  lemma ComponentExtends(s: seq<u8>, t: seq<u8>)
    ensures ExtendsAt(ParseComponent, s, t)
  {
    if ParseComponent(s).Ok? {
      ComponentDataExtends(s, t);
      var common := ParseComponentData(s).value;
      assert ParseComponentData(s + t) == Ok(Decoded(common.value, common.rest + t));
      if common.value.kind == CustomKind {
        CustomDataExtends(common.rest, t);
        var custom := ParseCustomData(common.rest).value;
        assert ParseComponent(s + t) == Ok(Decoded(Custom(common.value, custom.value), custom.rest + t));
      } else if IsProgramKind(common.value.kind) {
        var slots := ParseShortVec(ParseProgramSlot, common.rest).value;
        assert ParseShortVec(ParseProgramSlot, common.rest + t) == Ok(Decoded(slots.value, slots.rest + t)) by {
          ProgramSlotDecoderExtends();
          VecExtends(2, ParseProgramSlot, common.rest, t);
        }
        assert ParseComponent(s + t) == Ok(Decoded(Program(common.value, PairsToMap(slots.value)), slots.rest + t));
      } else {
        assert ParseComponent(s + t) == Ok(Decoded(Normal(common.value), common.rest + t));
      }
    }
  }

  lemma ComponentDecoderExtends()
    ensures Extends(ParseComponent)
  {
    forall s, t ensures ExtendsAt(ParseComponent, s, t) {
      ComponentExtends(s, t);
    }
  }
}
