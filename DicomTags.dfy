/**
 * The DICOM tag dictionary: a table from 32-bit tag identifiers to the tag's
 * stored identifier, implicit value representation and human-readable name,
 * filled by a static initializer of successive puts and extended by custom
 * entries at run time, with lookups by identifier and by name.
 */
module DicomTags {
  import opened Wrappers

  /** A Java int: tags at and above 0x80000000 are negative. */
  type Int32 = x: int | -0x8000_0000 <= x < 0x8000_0000

  /** The Java int with the 32-bit pattern u. */
  function AsInt32(u: nat): (r: Int32)
    requires u < 0x1_0000_0000
    ensures (r - u) % 0x1_0000_0000 == 0
    ensures r < 0 <==> u >= 0x8000_0000
  {
    if u < 0x8000_0000 then u else u - 0x1_0000_0000
  }

  /** The value representations that occur in the modelled table. */
  datatype VR = AE | AT | CS | DA | DL | DS | IS | LO | LT | OX | SH | SQ | SS | TM | UI | UL | US

  /** A table entry: the tag it names (not always its key), the implicit VR and the name. */
  datatype TagInfo = TagInfo(tag: Int32, implicitVR: VR, name: string)

  /** One put of the static initializer. */
  datatype Put = Put(key: Int32, info: TagInfo)

  const ROWS: Int32 := 0x00280010
  const COLUMNS: Int32 := 0x00280011
  const BITS_ALLOCATED: Int32 := 0x00280100
  const NUMBER_OF_FRAMES: Int32 := 0x00280008
  const PLANAR_CONFIGURATION: Int32 := 0x00280006
  const PIXEL_SPACING: Int32 := 0x00280030
  const SLICE_THICKNESS: Int32 := 0x00180050
  const STUDY_ID: Int32 := 0x00200010
  const PIXEL_DATA: Int32 := 0x7FE00010
  const ITEM: Int32 := AsInt32(0xFFFEE000)
  const ITEM_DELIMINATION: Int32 := AsInt32(0xFFFEE00D)
  const SEQUENCE_DELIMINATION: Int32 := AsInt32(0xFFFEE0DD)

  /**
   * A subset of the static initializer's puts, in source order: the entries
   * whose key and stored tag differ and their neighbours, the keys put twice,
   * the entries the lemmas below name, 13 of the 54 group-0028 puts, 4 of the
   * 24 group-6000 puts, both group-7FE0 puts and the 3 item puts. Of the 7
   * names shared by several keys it keeps 4 (Rows, Columns, Bits Allocated,
   * Compression Code (RET)). 14 of the 39 public constants have their entry;
   * 12 are declared as constants here (BITS_STORED and HIGH_BIT appear only
   * as puts).
   */
  const STATIC_PUTS: seq<Put> := [
    Put(0x00000000, TagInfo(0x00000000, UL, "Group 0000 Length")),
    Put(0x00180050, TagInfo(0x00180050, DS, "Slice Thickness")),
    Put(0x00181030, TagInfo(0x00181030, LO, "Protocol Name")),
    Put(0x00181046, TagInfo(0x00181050, DS, "Contrast Flow Rate")),
    Put(0x00181047, TagInfo(0x00181050, DS, "Contrast Flow Duration")),
    Put(0x00181048, TagInfo(0x00181050, CS, "Contrast/Bolus Ingredient")),
    Put(0x00181049, TagInfo(0x00181050, DS, "Contrast/Bolus Ingredient Concentration")),
    Put(0x00181050, TagInfo(0x00181050, DS, "Spatial Resolution")),
    Put(0x00181030, TagInfo(0x00181030, DS, "Table Height")),
    Put(0x00181151, TagInfo(0x00181151, IS, "X-ray Tube Current")),
    Put(0x00181160, TagInfo(0x00181160, SH, "Filter Type")),
    Put(0x00181250, TagInfo(0x00181250, SH, "Receiving Coil")),
    Put(0x00181251, TagInfo(0x00181151, SH, "Transmitting Coil")),
    Put(0x00181160, TagInfo(0x00181160, SH, "Screen Type")),
    Put(0x00200010, TagInfo(0x00200010, SH, "Study ID")),
    Put(0x00280006, TagInfo(0x00280006, US, "Planar Configuration")),
    Put(0x00280008, TagInfo(0x00280008, IS, "Number of Frames")),
    Put(0x00280010, TagInfo(0x00280010, US, "Rows")),
    Put(0x00280011, TagInfo(0x00280011, US, "Columns")),
    Put(0x00280030, TagInfo(0x00280030, DS, "Pixel Spacing")),
    Put(0x00280060, TagInfo(0x00280060, SH, "Compression Code (RET)")),
    Put(0x00280100, TagInfo(0x00280100, US, "Bits Allocated")),
    Put(0x00280101, TagInfo(0x00280101, US, "Bits Stored")),
    Put(0x00280102, TagInfo(0x00280102, US, "High Bit")),
    Put(0x00281203, TagInfo(0x00281203, US, "Blue Palette Color Lookup Table Data")),
    Put(0x00282110, TagInfo(0x00281203, CS, "Lossy Image Compression")),
    Put(0x00282112, TagInfo(0x00281203, DS, "Lossy Image Compression Ratio")),
    Put(0x00282114, TagInfo(0x00281203, CS, "Lossy Image Compression Method")),
    Put(0x60000010, TagInfo(0x60000010, US, "Rows")),
    Put(0x60000011, TagInfo(0x60000011, US, "Columns")),
    Put(0x60000060, TagInfo(0x60000060, SH, "Compression Code (RET)")),
    Put(0x60000100, TagInfo(0x60000100, US, "Bits Allocated")),
    Put(0x7FE00000, TagInfo(0x7FE00000, UL, "Group 7FE0 Length")),
    Put(0x7FE00010, TagInfo(0x7FE00010, OX, "Pixel Data")),
    Put(-0x12000, TagInfo(-0x12000, DL, "Item")),                               // 0xFFFEE000
    Put(-0x11FF3, TagInfo(-0x11FF3, DL, "Item Delimitation Item")),             // 0xFFFEE00D
    Put(-0x11F23, TagInfo(-0x11F23, DL, "Sequence Delimitation Item"))          // 0xFFFEE0DD
  ]

  /** The map after the puts, applied in order to m. */
  function PutAll(m: map<Int32, TagInfo>, puts: seq<Put>): map<Int32, TagInfo>
  {
    if puts == [] then m
    else PutAll(m, puts[..|puts| - 1])[puts[|puts| - 1].key := puts[|puts| - 1].info]
  }

  /** The table as the static initializer leaves it. */
  function StaticTable(): map<Int32, TagInfo>
  {
    PutAll(map[], STATIC_PUTS)
  }

  /** The keys after the puts are the keys before and the keys put. */
  lemma {:induction false} PutAllKeys(m: map<Int32, TagInfo>, puts: seq<Put>, k: Int32)
    ensures k in PutAll(m, puts) <==> k in m || exists i :: 0 <= i < |puts| && puts[i].key == k
  {
    if puts != [] {
      var init := puts[..|puts| - 1];
      PutAllKeys(m, init, k);
      if exists i :: 0 <= i < |init| && init[i].key == k {
        var i :| 0 <= i < |init| && init[i].key == k;
        assert puts[i].key == k;
      }
      if exists i :: 0 <= i < |puts| && puts[i].key == k {
        var i :| 0 <= i < |puts| && puts[i].key == k;
        if i < |init| {
          assert init[i].key == k;
        }
      }
    }
  }

  /** A put that no later put overwrites determines the final entry of its key. */
  lemma {:induction false} LastPutWins(m: map<Int32, TagInfo>, puts: seq<Put>, i: nat)
    requires i < |puts|
    requires forall j :: i < j < |puts| ==> puts[j].key != puts[i].key
    ensures puts[i].key in PutAll(m, puts) && PutAll(m, puts)[puts[i].key] == puts[i].info
  {
    if i < |puts| - 1 {
      var init := puts[..|puts| - 1];
      LastPutWins(m, init, i);
    }
  }

  /** Every entry after the puts was in m or was put. */
  lemma {:induction false} PutAllEntry(m: map<Int32, TagInfo>, puts: seq<Put>, k: Int32)
    requires k in PutAll(m, puts)
    ensures (k in m && PutAll(m, puts)[k] == m[k]) ||
            exists i :: 0 <= i < |puts| && puts[i].key == k && PutAll(m, puts)[k] == puts[i].info
  {
    if puts != [] {
      var init := puts[..|puts| - 1];
      var last := |puts| - 1;
      if puts[last].key != k {
        PutAllEntry(m, init, k);
        if !(k in m && PutAll(m, puts)[k] == m[k]) {
          var i :| 0 <= i < |init| && init[i].key == k && PutAll(m, init)[k] == init[i].info;
          assert puts[i] == init[i];
        }
      }
    }
  }

  /** getImplicitVR: the stored VR, or None (null) for a tag not in the table. */
  function ImplicitVROf(m: map<Int32, TagInfo>, tagId: Int32): Option<VR>
  {
    if tagId in m then Some(m[tagId].implicitVR) else None
  }

  /** getName: the stored name, or None (null) for a tag not in the table. */
  function NameOf(m: map<Int32, TagInfo>, tagId: Int32): Option<string>
  {
    if tagId in m then Some(m[tagId].name) else None
  }

  /** Character.toLowerCase restricted to ASCII letters. */
  function ToLowerAscii(c: char): char
  {
    if 'A' <= c <= 'Z' then (c as int + 32) as char else c
  }

  /** String.equalsIgnoreCase for ASCII text: same length, equal letters up to case. */
  predicate EqualsIgnoreCase(a: string, b: string)
  {
    |a| == |b| && forall i :: 0 <= i < |a| ==> ToLowerAscii(a[i]) == ToLowerAscii(b[i])
  }

  /** Case-insensitive equality is an equivalence. */
  lemma EqualsIgnoreCaseEquivalence(a: string, b: string, c: string)
    ensures EqualsIgnoreCase(a, a)
    ensures EqualsIgnoreCase(a, b) ==> EqualsIgnoreCase(b, a)
    ensures EqualsIgnoreCase(a, b) && EqualsIgnoreCase(b, c) ==> EqualsIgnoreCase(a, c)
  {
  }

  /** Equal strings up to case share their length and their first and last letters up to case. */
  predicate SameLengthAndInitial(a: string, b: string)
  {
    |a| == |b| &&
    (|a| > 0 ==> ToLowerAscii(a[0]) == ToLowerAscii(b[0]) && ToLowerAscii(a[|a| - 1]) == ToLowerAscii(b[|b| - 1]))
  }

  /** Strings that differ, up to case, at one position are not equal ignoring case. */
  lemma DifferAt(a: string, b: string, i: nat)
    requires i < |a| && i < |b| && ToLowerAscii(a[i]) != ToLowerAscii(b[i])
    ensures !EqualsIgnoreCase(a, b)
  {
  }

  lemma EqualsIgnoreCaseFilter(a: string, b: string)
    ensures EqualsIgnoreCase(a, b) ==> SameLengthAndInitial(a, b)
  {
  }

  /** The possible results of getTagId(name) on table m, whatever its iteration order. */
  ghost predicate TagIdOutcome(m: map<Int32, TagInfo>, name: string, r: int)
  {
    if exists k :: k in m && EqualsIgnoreCase(name, m[k].name)
    then exists k :: k in m && EqualsIgnoreCase(name, m[k].name) && r == m[k].tag
    else r == -1
  }

  /** Every put whose name could equal name up to case has key k. */
  predicate OnlyKeyNamed(puts: seq<Put>, name: string, k: Int32)
  {
    forall i :: 0 <= i < |puts| && SameLengthAndInitial(puts[i].info.name, name) ==> puts[i].key == k
  }

  /** When only the puts of key k can carry name, at most the entry of k matches it. */
  lemma OnlyKeyMatches(puts: seq<Put>, name: string, k: Int32, k': Int32)
    requires OnlyKeyNamed(puts, name, k)
    requires k' in PutAll(map[], puts) && EqualsIgnoreCase(name, PutAll(map[], puts)[k'].name)
    ensures k' == k
  {
    PutAllEntry(map[], puts, k');
    var i :| 0 <= i < |puts| && puts[i].key == k' && PutAll(map[], puts)[k'] == puts[i].info;
    EqualsIgnoreCaseFilter(puts[i].info.name, name);
    EqualsIgnoreCaseEquivalence(name, puts[i].info.name, name);
  }

  lemma OnlyKeyNamedProtocolName()
    ensures OnlyKeyNamed(STATIC_PUTS, "Protocol Name", 0x00181030)
  {
  }

  lemma OnlyKeyNamedFilterType()
    ensures OnlyKeyNamed(STATIC_PUTS, "Filter Type", 0x00181160)
  {
  }

  lemma OnlyKeyNamedTransmittingCoil()
    ensures OnlyKeyNamed(STATIC_PUTS, "Transmitting Coil", 0x00181251)
  {
  }

  /** The later put wins for a key put twice: Table Height replaces Protocol Name, Screen Type replaces Filter Type. */
  lemma DuplicateKeysLaterWins()
    ensures 0x00181030 in StaticTable() && StaticTable()[0x00181030] == TagInfo(0x00181030, DS, "Table Height")
    ensures 0x00181160 in StaticTable() && StaticTable()[0x00181160] == TagInfo(0x00181160, SH, "Screen Type")
  {
    TableHeightPut();
    ScreenTypePut();
  }

  /** Key 0x00181030 keeps the Table Height put. */
  lemma TableHeightPut()
    ensures 0x00181030 in StaticTable() && StaticTable()[0x00181030] == STATIC_PUTS[8].info
  {
    LastPutWins(map[], STATIC_PUTS, 8);
  }

  /** Key 0x00181160 keeps the Screen Type put. */
  lemma ScreenTypePut()
    ensures 0x00181160 in StaticTable() && StaticTable()[0x00181160] == STATIC_PUTS[13].info
  {
    LastPutWins(map[], STATIC_PUTS, 13);
  }

  /** The overwritten names are no longer found: getTagId returns -1 for them. */
  lemma OverwrittenNamesNotFound(r: int)
    ensures TagIdOutcome(StaticTable(), "Protocol Name", r) ==> r == -1
    ensures TagIdOutcome(StaticTable(), "Filter Type", r) ==> r == -1
  {
    DuplicateKeysLaterWins();
    DifferAt("Filter Type", "Screen Type", 0);
    OnlyKeyNamedProtocolName();
    OnlyKeyNamedFilterType();
    forall k | k in StaticTable()
      ensures !EqualsIgnoreCase("Protocol Name", StaticTable()[k].name)
      ensures !EqualsIgnoreCase("Filter Type", StaticTable()[k].name)
    {
      if EqualsIgnoreCase("Protocol Name", StaticTable()[k].name) {
        OnlyKeyMatches(STATIC_PUTS, "Protocol Name", 0x00181030, k);
        assert false;
      }
      if EqualsIgnoreCase("Filter Type", StaticTable()[k].name) {
        OnlyKeyMatches(STATIC_PUTS, "Filter Type", 0x00181160, k);
        assert false;
      }
    }
  }

  /**
   * The stored tag can differ from the key: getTagId("Transmitting Coil") can
   * only return 0x00181151, whose name is "X-ray Tube Current", so looking the
   * name up again does not give the name back.
   */
  lemma StoredTagDiffersFromKey(r: int)
    requires TagIdOutcome(StaticTable(), "Transmitting Coil", r)
    ensures r == 0x00181151
    ensures NameOf(StaticTable(), r) == Some("X-ray Tube Current")
    ensures NameOf(StaticTable(), r) != Some("Transmitting Coil")
  {
    TransmittingCoilEntries();
    OnlyKeyNamedTransmittingCoil();
    var k :| k in StaticTable() && EqualsIgnoreCase("Transmitting Coil", StaticTable()[k].name) && r == StaticTable()[k].tag;
    OnlyKeyMatches(STATIC_PUTS, "Transmitting Coil", 0x00181251, k);
  }

  /** The entries of Transmitting Coil and of the tag it stores. */
  lemma TransmittingCoilEntries()
    ensures 0x00181251 in StaticTable() && StaticTable()[0x00181251] == TagInfo(0x00181151, SH, "Transmitting Coil")
    ensures 0x00181151 in StaticTable() && StaticTable()[0x00181151] == TagInfo(0x00181151, IS, "X-ray Tube Current")
    ensures EqualsIgnoreCase("Transmitting Coil", StaticTable()[0x00181251].name)
  {
    TransmittingCoilPut();
    TubeCurrentPut();
  }

  /** Key 0x00181251 keeps the Transmitting Coil put: no later put uses that key. */
  lemma TransmittingCoilPut()
    ensures 0x00181251 in StaticTable() && StaticTable()[0x00181251] == TagInfo(0x00181151, SH, "Transmitting Coil")
  {
    LastPutWins(map[], STATIC_PUTS, 12);
  }

  /** Key 0x00181151 keeps the X-ray Tube Current put: no later put uses that key. */
  lemma TubeCurrentPut()
    ensures 0x00181151 in StaticTable() && StaticTable()[0x00181151] == TagInfo(0x00181151, IS, "X-ray Tube Current")
  {
    LastPutWins(map[], STATIC_PUTS, 9);
  }

  /**
   * Names shared by several keys leave the choice to the iteration order:
   * both tags named "Rows" and both named "Bits Allocated" are possible
   * results, and matching ignores case.
   */
  lemma SharedNamesAmbiguous()
    ensures TagIdOutcome(StaticTable(), "Rows", ROWS) && TagIdOutcome(StaticTable(), "Rows", 0x60000010)
    ensures TagIdOutcome(StaticTable(), "Bits Allocated", BITS_ALLOCATED) && TagIdOutcome(StaticTable(), "Bits Allocated", 0x60000100)
    ensures TagIdOutcome(StaticTable(), "PIXEL DATA", PIXEL_DATA)
  {
    RowsPut();
    OverlayRowsPut();
    BitsAllocatedPut();
    OverlayBitsAllocatedPut();
    PixelDataPut();
    assert EqualsIgnoreCase("Rows", StaticTable()[ROWS].name);
    assert EqualsIgnoreCase("Rows", StaticTable()[0x60000010].name);
    assert EqualsIgnoreCase("Bits Allocated", StaticTable()[BITS_ALLOCATED].name);
    assert EqualsIgnoreCase("Bits Allocated", StaticTable()[0x60000100].name);
    assert EqualsIgnoreCase("PIXEL DATA", StaticTable()[PIXEL_DATA].name);
  }

  /** The public constants have table entries. */
  lemma ConstantsHaveEntries()
    ensures NameOf(StaticTable(), ROWS) == Some("Rows") && ImplicitVROf(StaticTable(), ROWS) == Some(US)
    ensures NameOf(StaticTable(), PIXEL_DATA) == Some("Pixel Data") && ImplicitVROf(StaticTable(), PIXEL_DATA) == Some(OX)
    ensures NameOf(StaticTable(), ITEM) == Some("Item") && ImplicitVROf(StaticTable(), ITEM) == Some(DL)
    ensures ITEM == -0x12000 && ITEM_DELIMINATION == -0x11FF3 && SEQUENCE_DELIMINATION == -0x11F23
  {
    RowsPut();
    PixelDataPut();
    ItemPut();
  }

  /** Key ROWS keeps its put. */
  lemma RowsPut()
    ensures ROWS in StaticTable() && StaticTable()[ROWS] == STATIC_PUTS[17].info
  {
    LastPutWins(map[], STATIC_PUTS, 17);
  }

  /** Key BITS_ALLOCATED keeps its put. */
  lemma BitsAllocatedPut()
    ensures BITS_ALLOCATED in StaticTable() && StaticTable()[BITS_ALLOCATED] == STATIC_PUTS[21].info
  {
    LastPutWins(map[], STATIC_PUTS, 21);
  }

  /** Key 0x60000010 (overlay Rows) keeps its put. */
  lemma OverlayRowsPut()
    ensures 0x60000010 in StaticTable() && StaticTable()[0x60000010] == STATIC_PUTS[28].info
  {
    LastPutWins(map[], STATIC_PUTS, 28);
  }

  /** Key 0x60000100 (overlay Bits Allocated) keeps its put. */
  lemma OverlayBitsAllocatedPut()
    ensures 0x60000100 in StaticTable() && StaticTable()[0x60000100] == STATIC_PUTS[31].info
  {
    LastPutWins(map[], STATIC_PUTS, 31);
  }

  /** Key PIXEL_DATA keeps its put. */
  lemma PixelDataPut()
    ensures PIXEL_DATA in StaticTable() && StaticTable()[PIXEL_DATA] == STATIC_PUTS[33].info
  {
    LastPutWins(map[], STATIC_PUTS, 33);
  }

  /** Key ITEM keeps its put. */
  lemma ItemPut()
    ensures ITEM in StaticTable() && StaticTable()[ITEM] == STATIC_PUTS[34].info
  {
    LastPutWins(map[], STATIC_PUTS, 34);
  }

  /** A tag no put names has no entry: getName and getImplicitVR give null. */
  lemma UnknownTagHasNoEntry()
    ensures NameOf(StaticTable(), 0x00181001) == None && ImplicitVROf(StaticTable(), 0x00181001) == None
  {
    PutAllKeys(map[], STATIC_PUTS, 0x00181001);
  }

  /** The shared tag table: the static map and its operations. */
  class DicomTagTable {
    var tagInfoMap: map<Int32, TagInfo>

    /** The static initializer: the puts, in order, on an empty map. */
    constructor ()
      ensures tagInfoMap == StaticTable()
    {
      tagInfoMap := map[];
      new;
      for i := 0 to |STATIC_PUTS|
        invariant tagInfoMap == PutAll(map[], STATIC_PUTS[..i])
      {
        assert STATIC_PUTS[..i + 1][..i] == STATIC_PUTS[..i];
        tagInfoMap := tagInfoMap[STATIC_PUTS[i].key := STATIC_PUTS[i].info];
      }
      assert STATIC_PUTS[..|STATIC_PUTS|] == STATIC_PUTS;
    }

    /** getImplicitVR(tagId): the stored VR, or None (Java's null) for a tag not in the table. */
    function GetImplicitVR(tagId: Int32): (r: Option<VR>)
      reads this
      ensures r.None? <==> tagId !in tagInfoMap
      ensures r.Some? ==> tagInfoMap[tagId].implicitVR == r.value
    {
      ImplicitVROf(tagInfoMap, tagId)
    }

    /** getName(tagId): the stored name, or None (Java's null) for a tag not in the table. */
    function GetName(tagId: Int32): (r: Option<string>)
      reads this
      ensures r.None? <==> tagId !in tagInfoMap
      ensures r.Some? ==> tagInfoMap[tagId].name == r.value
    {
      NameOf(tagInfoMap, tagId)
    }

    /**
     * getTagId(name): scans the entries in an order the model leaves open and
     * returns the stored tag of the first whose name equals name ignoring case,
     * or -1 when none does.
     */
    method GetTagId(name: string) returns (r: int)
      ensures TagIdOutcome(tagInfoMap, name, r)
    {
      var unvisited := tagInfoMap.Keys;
      while unvisited != {}
        invariant unvisited <= tagInfoMap.Keys
        invariant forall k :: k in tagInfoMap && k !in unvisited ==> !EqualsIgnoreCase(name, tagInfoMap[k].name)
        decreases unvisited
      {
        var k :| k in unvisited;
        if EqualsIgnoreCase(name, tagInfoMap[k].name) {
          return tagInfoMap[k].tag;
        }
        unvisited := unvisited - {k};
      }
      return -1;
    }

    /** setTagInfo(tagId, name, vr): adds or replaces the entry of tagId; every other entry is kept. */
    method SetTagInfo(tagId: Int32, name: string, vr: VR)
      modifies this
      ensures tagInfoMap == old(tagInfoMap)[tagId := TagInfo(tagId, vr, name)]
      ensures GetName(tagId) == Some(name) && GetImplicitVR(tagId) == Some(vr)
      ensures forall t :: t != tagId ==> GetName(t) == old(GetName(t)) && GetImplicitVR(t) == old(GetImplicitVR(t))
    {
      tagInfoMap := tagInfoMap[tagId := TagInfo(tagId, vr, name)];
    }
  }

  /** A custom entry set by setTagInfo is found by its name and round-trips through getName. */
  lemma SetTagInfoFindable(m: map<Int32, TagInfo>, tagId: Int32, name: string, vr: VR)
    ensures NameOf(m[tagId := TagInfo(tagId, vr, name)], tagId) == Some(name)
    ensures TagIdOutcome(m[tagId := TagInfo(tagId, vr, name)], name, tagId)
    ensures forall t :: t != tagId ==> NameOf(m[tagId := TagInfo(tagId, vr, name)], t) == NameOf(m, t)
  {
    var m' := m[tagId := TagInfo(tagId, vr, name)];
    EqualsIgnoreCaseEquivalence(name, name, name);
    assert tagId in m' && EqualsIgnoreCase(name, m'[tagId].name) && tagId == m'[tagId].tag;
  }
}
