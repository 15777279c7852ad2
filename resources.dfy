/** The Win32 resource section: the three-level directory tree (type, name,
    language), the data entries at its leaves, and the special decoding of
    GROUP_ICON, GROUP_CURSOR and STRINGTABLE resources.

    Layouts follow "The .rsrc Section" of the Microsoft PE/COFF
    specification and the Windows SDK's icon and cursor resource headers;
    those struct declarations are not part of this model.  An entry's `ID`
    is taken to be the low 16 bits of its Name field, `IsNamedEntry` its
    bit 31 and `NameOffset` its low 31 bits; `DataIsDirectory` is bit 31 of
    OffsetToData and `OffsetToDirectory` its low 31 bits. */
module Resources {
  import opened Results
  import opened Bytes
  import opened Inventory

  const RESOURCE_DIRECTORY_SIZE: nat := 16        // IMAGE_RESOURCE_DIRECTORY
  const RESOURCE_DIRECTORY_ENTRY_SIZE: nat := 8   // IMAGE_RESOURCE_DIRECTORY_ENTRY
  const RESOURCE_DATA_ENTRY_SIZE: nat := 16       // IMAGE_RESOURCE_DATA_ENTRY
  const NEWHEADER_SIZE: nat := 6                  // group header: reserved, type, count
  const RESDIR_SIZE: nat := 14                    // ICONRESDIR / CURSORRESDIR entry
  const MAX_DEPTH: nat := 2                       // type, name and language levels

  // Win32ResourceType values, as RT_* in the Windows SDK
  const RT_CURSOR: U16 := 1
  const RT_ICON: U16 := 3
  const RT_STRING: U16 := 6
  const RT_GROUP_CURSOR: U16 := 12
  const RT_GROUP_ICON: U16 := 14

  const LANG_NEUTRAL_NAME: string := "LANG_NEUTRAL"
  const UNKNOWN_LANGUAGE_NAME: string := "Unknown language"

  /** Enum.IsDefined(typeof(Win32ResourceType), id): the standard resource
      types RT_CURSOR (1) through RT_MANIFEST (24); 13, 15 and 18 are unused. */
  predicate IsDefinedType(id: int) {
    1 <= id <= 24 && id != 13 && id != 15 && id != 18
  }

  // ------------------------------------------------------------------
  // Structures read from the section
  // ------------------------------------------------------------------

  datatype DirectoryEntry = DirectoryEntry(name: U32, offsetToData: U32)
  {
    predicate IsNamedEntry() { name >= TWO_31 }
    function NameOffset(): nat { name % TWO_31 }
    function Id(): U16 { name % TWO_16 }
    predicate DataIsDirectory() { offsetToData >= TWO_31 }
    function OffsetToDirectory(): nat { offsetToData % TWO_31 }
  }

  datatype DataEntry = DataEntry(offsetToData: U32, size: U32)

  /** ICONRESDIR and CURSORRESDIR share a layout apart from the first four
      bytes: one byte each of width and height for icons, one word each for
      cursors. */
  datatype GroupDirEntry = GroupDirEntry(firstWord: U16, secondWord: U16, bitCount: U16, bytesInRes: U32, id: U16)

  /** The number of named and of ID entries that follow a directory. */
  function ReadDirectoryCount(image: seq<Byte>, rva: int): (r: Result<nat, Error>)
    ensures r.Ok? <==> InBounds(image, rva, RESOURCE_DIRECTORY_SIZE)
    ensures r.Ok? ==> r.value == U16At(image, rva + 12) + U16At(image, rva + 14)
  {
    if InBounds(image, rva, RESOURCE_DIRECTORY_SIZE) then Ok(U16At(image, rva + 12) + U16At(image, rva + 14))
    else Err(OutOfRange(rva, RESOURCE_DIRECTORY_SIZE))
  }

  function ReadDirectoryEntry(image: seq<Byte>, rva: int): (r: Result<DirectoryEntry, Error>)
    ensures r.Ok? <==> InBounds(image, rva, RESOURCE_DIRECTORY_ENTRY_SIZE)
    ensures r.Ok? ==> r.value == DirectoryEntry(U32At(image, rva), U32At(image, rva + 4))
  {
    if InBounds(image, rva, RESOURCE_DIRECTORY_ENTRY_SIZE) then Ok(DirectoryEntry(U32At(image, rva), U32At(image, rva + 4)))
    else Err(OutOfRange(rva, RESOURCE_DIRECTORY_ENTRY_SIZE))
  }

  function ReadDataEntry(image: seq<Byte>, rva: int): (r: Result<DataEntry, Error>)
    ensures r.Ok? <==> InBounds(image, rva, RESOURCE_DATA_ENTRY_SIZE)
    ensures r.Ok? ==> r.value == DataEntry(U32At(image, rva), U32At(image, rva + 4))
  {
    if InBounds(image, rva, RESOURCE_DATA_ENTRY_SIZE) then Ok(DataEntry(U32At(image, rva), U32At(image, rva + 4)))
    else Err(OutOfRange(rva, RESOURCE_DATA_ENTRY_SIZE))
  }

  function GroupDirEntryAt(image: seq<Byte>, rva: int): GroupDirEntry
    requires InBounds(image, rva, RESDIR_SIZE)
  {
    GroupDirEntry(U16At(image, rva), U16At(image, rva + 2), U16At(image, rva + 6), U32At(image, rva + 8), U16At(image, rva + 12))
  }

  /** The name of a directory entry: the length-prefixed UTF-16 string at
      NameOffset into the section for a named entry, otherwise its ID.  How
      an ID is rendered as text is not part of this model. */
  datatype EntryLabel = NameText(units: seq<U16>) | IdLabel(id: U16)

  /** A length-prefixed UTF-16 string: a u16 count, then that many units. */
  function ReadPrefixedString(image: seq<Byte>, rva: nat): (r: Result<seq<U16>, Error>)
    ensures r.Ok? <==> InBounds(image, rva, 2) && InBounds(image, rva + 2, 2 * U16At(image, rva))
    ensures r.Ok? ==> r.value == UnitsAt(image, rva + 2, U16At(image, rva))
  {
    var n :- ReadU16(image, rva);
    if InBounds(image, rva + 2, 2 * n) then Ok(UnitsAt(image, rva + 2, n)) else Err(OutOfRange(rva + 2, 2 * n))
  }

  function ReadEntryLabel(image: seq<Byte>, rsrcStart: U32, entry: DirectoryEntry): (r: Result<EntryLabel, Error>)
    ensures !entry.IsNamedEntry() ==> r == Ok(IdLabel(entry.Id()))
    ensures entry.IsNamedEntry() ==> (r.Ok? <==> ReadPrefixedString(image, rsrcStart + entry.NameOffset()).Ok?)
    ensures entry.IsNamedEntry() && r.Ok? ==>
      r == Ok(NameText(ReadPrefixedString(image, rsrcStart + entry.NameOffset()).value))
  {
    if entry.IsNamedEntry() then
      var units :- ReadPrefixedString(image, rsrcStart + entry.NameOffset());
      Ok(NameText(units))
    else Ok(IdLabel(entry.Id()))
  }

  // ------------------------------------------------------------------
  // Resource type of a subtree
  // ------------------------------------------------------------------

  datatype ResourceType = Defined(id: U16) | UserNamedResource | Unknown

  /** `rsrcTypeName`: the enum member's name, or the type entry's own name. */
  datatype TypeName = EnumName(rtype: ResourceType) | EntryName(entryLabel: EntryLabel)

  /** What every node of a subtree is labelled with. */
  datatype DirectoryInfo = DirectoryInfo(rtype: ResourceType, typeName: TypeName, depth1Name: Option<EntryLabel>)

  /** The type of the subtree below the depth-0 entry `depth0`: a defined
      type from its ID, else UserNamedResource for a named entry, else
      Unknown; the top-level directory is Unknown. */
  function SelectType(image: seq<Byte>, rsrcStart: U32, depth0: Option<DirectoryEntry>)
    : (r: Result<(ResourceType, TypeName), Error>)
    ensures depth0.None? ==> r == Ok((Unknown, EnumName(Unknown)))
    ensures depth0.Some? && IsDefinedType(depth0.value.Id()) ==>
      r == Ok((Defined(depth0.value.Id()), EnumName(Defined(depth0.value.Id()))))
    ensures r.Ok? && r.value.0.Defined? ==> depth0.Some? && r.value.0.id == depth0.value.Id() && IsDefinedType(r.value.0.id)
    ensures r.Ok? && r.value.0 == UserNamedResource ==> depth0.Some? && depth0.value.IsNamedEntry()
    ensures depth0.Some? && !IsDefinedType(depth0.value.Id()) ==>
      (r.Ok? <==> ReadEntryLabel(image, rsrcStart, depth0.value).Ok?)
    ensures depth0.Some? && !IsDefinedType(depth0.value.Id()) && r.Ok? ==>
      r.value.1 == EntryName(ReadEntryLabel(image, rsrcStart, depth0.value).value)
  {
    match depth0
    case None => Ok((Unknown, EnumName(Unknown)))
    case Some(e) =>
      if IsDefinedType(e.Id()) then Ok((Defined(e.Id()), EnumName(Defined(e.Id()))))
      else
        var entryLabel :- ReadEntryLabel(image, rsrcStart, e);
        Ok((if e.IsNamedEntry() then UserNamedResource else Unknown, EntryName(entryLabel)))
  }

  function ReadDepth1Name(image: seq<Byte>, rsrcStart: U32, depth1: Option<DirectoryEntry>)
    : (r: Result<Option<EntryLabel>, Error>)
    ensures depth1.None? ==> r == Ok(None)
    ensures depth1.Some? ==> (r.Ok? <==> ReadEntryLabel(image, rsrcStart, depth1.value).Ok?)
    ensures depth1.Some? && r.Ok? ==> r.value == Some(ReadEntryLabel(image, rsrcStart, depth1.value).value)
  {
    match depth1
    case None => Ok(None)
    case Some(e) =>
      var entryLabel :- ReadEntryLabel(image, rsrcStart, e);
      Ok(Some(entryLabel))
  }

  /** `depth1NameAsStringWithFallback`. */
  datatype ResourceName = Named(entryLabel: EntryLabel) | UnknownResourceName

  function WithFallback(name: Option<EntryLabel>): ResourceName {
    if name.Some? then Named(name.value) else UnknownResourceName
  }

  /** The display name of a language ID: "LANG_NEUTRAL" for 0, otherwise the
      culture's display name, or "Unknown language" for an ID no culture
      has.  `cultures` stands for CultureInfo.GetCultureInfo. */
  function LanguageName(cultures: map<U16, string>, id: U16): string {
    if id == 0 then LANG_NEUTRAL_NAME
    else if id in cultures then cultures[id]
    else UNKNOWN_LANGUAGE_NAME
  }

  // ------------------------------------------------------------------
  // Symbols
  // ------------------------------------------------------------------

  datatype IconSymbol = IconSymbol(rva: U32, size: U32, language: string, id: U16, width: nat, height: nat, bitCount: U16)

  datatype CursorSymbol = CursorSymbol(rva: U32, size: U32, language: string, id: U16, width: nat, height: nat, bitCount: U16)

  datatype StringTable = StringTable(rva: U32, size: U32, language: string, name: ResourceName, strings: seq<seq<U16>>)
  {
    /** RVAEnd: the first RVA after the table, in uint arithmetic. */
    function End(): U32 { Wrap32(rva + size) }
  }

  /** The entries of `RsrcSymbols`.  A group symbol's RVA is taken to be the
      RVA of its first member, the start of the range it covers. */
  datatype RsrcSymbol =
    | DirectorySymbol(rva: U32, size: nat, depth: nat, rtype: ResourceType, typeName: TypeName, depth1Name: Option<EntryLabel>)
    | StringSymbol(rva: U32, size: nat, text: seq<U16>)
    | DataEntrySymbol(rva: U32, size: nat, depth: nat, language: string, rtype: ResourceType, typeName: TypeName,
                      name: ResourceName, index: nat)
    | DataSymbol(rva: U32, size: nat, language: string, rtype: ResourceType, typeName: TypeName, name: ResourceName)
    | GroupIconSymbol(rva: U32, size: nat, language: string, name: ResourceName, icons: seq<IconSymbol>)
    | GroupCursorSymbol(rva: U32, size: nat, language: string, name: ResourceName, cursors: seq<CursorSymbol>)
    | GroupStringTablesSymbol(rva: U32, tables: seq<StringTable>)

  /** What CreateRsrcDataSymbol hands back for a leaf: nothing (an ICON or
      CURSOR, accounted for by its group), a string table, or a symbol. */
  datatype LeafData = Suppressed | TableOf(table: StringTable) | SymbolOf(symbol: RsrcSymbol)

  // ------------------------------------------------------------------
  // GROUP_ICON and GROUP_CURSOR
  // ------------------------------------------------------------------

  /** The sum of the rounded sizes of entries `from..` of a group: the bytes
      of those members, laid out before the group header. */
  function SuffixSize(entries: seq<GroupDirEntry>, from: nat): nat
    requires from <= |entries|
    decreases |entries| - from
  {
    if from == |entries| then 0
    else RoundUpTo8ByteAlignment(entries[from].bytesInRes) + SuffixSize(entries, from + 1)
  }

  /** The count of a group header and its entries, header and entries in
      bounds.  The entries are read from the last back, so a table that runs
      past the image fails at its last entry. */
  function ReadGroupEntries(image: seq<Byte>, rva: U32): (r: Result<seq<GroupDirEntry>, Error>)
    ensures r.Ok? <==> (InBounds(image, rva, NEWHEADER_SIZE)
                        && InBounds(image, rva + NEWHEADER_SIZE, RESDIR_SIZE * U16At(image, rva + 4)))
    ensures r.Ok? ==> |r.value| == U16At(image, rva + 4)
    ensures r.Ok? ==> forall i :: 0 <= i < |r.value| ==>
      InBounds(image, rva + NEWHEADER_SIZE + RESDIR_SIZE * i, RESDIR_SIZE)
      && r.value[i] == GroupDirEntryAt(image, rva + NEWHEADER_SIZE + RESDIR_SIZE * i)
  {
    if !InBounds(image, rva, NEWHEADER_SIZE) then Err(OutOfRange(rva, NEWHEADER_SIZE))
    else
      var n := U16At(image, rva + 4);
      if !InBounds(image, rva + NEWHEADER_SIZE, RESDIR_SIZE * n) then
        Err(OutOfRange(rva + NEWHEADER_SIZE + RESDIR_SIZE * (n - 1), RESDIR_SIZE))
      else Ok(seq(n, i requires 0 <= i < n => GroupDirEntryAt(image, rva + NEWHEADER_SIZE + RESDIR_SIZE * i)))
  }

  /** `bWidth`/`bHeight` of an icon: one byte, where 0 stands for 256. */
  function IconDimension(b: nat): (d: nat)
    ensures b != 0 ==> d == b
    ensures b == 0 ==> d == 256
  {
    if b == 0 then 256 else b
  }

  /** An icon entry's width (`bWidth`, the low byte of its first word) and
      height (`bHeight`, the high byte). */
  function IconWidth(e: GroupDirEntry): nat {
    IconDimension(e.firstWord % TWO_8)
  }

  function IconHeight(e: GroupDirEntry): nat {
    IconDimension(e.firstWord / TWO_8)
  }

  /** Member `i` of an icon group whose header starts at `start`. */
  function IconOf(entries: seq<GroupDirEntry>, i: nat, start: U32, language: string): (s: IconSymbol)
    requires i < |entries|
    ensures s.rva == Wrap32(start - SuffixSize(entries, i))
    ensures s.size == entries[i].bytesInRes && s.id == entries[i].id && s.bitCount == entries[i].bitCount
    ensures s.width == IconWidth(entries[i]) && s.height == IconHeight(entries[i])
  {
    var e := entries[i];
    IconSymbol(Wrap32(start - SuffixSize(entries, i)), e.bytesInRes, language, e.id,
               IconWidth(e), IconHeight(e), e.bitCount)
  }

  /** Member `i` of a cursor group: the stored height is twice the image's,
      since the image rows are followed by as many mask rows. */
  function CursorOf(entries: seq<GroupDirEntry>, i: nat, start: U32, language: string): (s: CursorSymbol)
    requires i < |entries|
    ensures s.rva == Wrap32(start - SuffixSize(entries, i))
    ensures s.size == entries[i].bytesInRes && s.id == entries[i].id && s.bitCount == entries[i].bitCount
    ensures s.width == entries[i].firstWord && s.height == entries[i].secondWord / 2
  {
    var e := entries[i];
    CursorSymbol(Wrap32(start - SuffixSize(entries, i)), e.bytesInRes, language, e.id,
                 e.firstWord, e.secondWord / 2, e.bitCount)
  }

  /** The group size: header, entries and every member rounded up to 8. */
  function GroupSize(entries: seq<GroupDirEntry>): U32 {
    Wrap32(NEWHEADER_SIZE + RESDIR_SIZE * |entries| + SuffixSize(entries, 0))
  }

  /** The members of an icon group, in the order of its entries. */
  function IconMembers(entries: seq<GroupDirEntry>, start: U32, language: string): (icons: seq<IconSymbol>)
    ensures |icons| == |entries|
    ensures forall i :: 0 <= i < |entries| ==> icons[i] == IconOf(entries, i, start, language)
  {
    seq(|entries|, i requires 0 <= i < |entries| => IconOf(entries, i, start, language))
  }

  function CursorMembers(entries: seq<GroupDirEntry>, start: U32, language: string): (cursors: seq<CursorSymbol>)
    ensures |cursors| == |entries|
    ensures forall i :: 0 <= i < |entries| ==> cursors[i] == CursorOf(entries, i, start, language)
  {
    seq(|entries|, i requires 0 <= i < |entries| => CursorOf(entries, i, start, language))
  }

  /** CreateGroupIconSymbol, stated by where each member lies rather than by
      the reverse walk that computes it. */
  function GroupIcon(image: seq<Byte>, language: string, name: ResourceName, data: DataEntry): Result<RsrcSymbol, Error> {
    var entries :- ReadGroupEntries(image, data.offsetToData);
    Ok(GroupIconSymbol(Wrap32(data.offsetToData - SuffixSize(entries, 0)), GroupSize(entries), language, name,
                       IconMembers(entries, data.offsetToData, language)))
  }

  function GroupCursor(image: seq<Byte>, language: string, name: ResourceName, data: DataEntry): Result<RsrcSymbol, Error> {
    var entries :- ReadGroupEntries(image, data.offsetToData);
    Ok(GroupCursorSymbol(Wrap32(data.offsetToData - SuffixSize(entries, 0)), GroupSize(entries), language, name,
                         CursorMembers(entries, data.offsetToData, language)))
  }

  // ------------------------------------------------------------------
  // STRINGTABLE blocks
  // ------------------------------------------------------------------

  /** The strings of a STRINGTABLE block from byte `p` while `p < end`: each
      is a u16 length and that many UTF-16 units; a length of 0 stands for an
      absent string and yields nothing.  A string is read in full even when
      it runs past `end`. */
  function DecodeStrings(image: seq<Byte>, p: nat, end: nat): (r: Result<seq<seq<U16>>, Error>)
    ensures r.Ok? ==> forall k :: 0 <= k < |r.value| ==> 0 < |r.value[k]| < TWO_16
    decreases end - p
  {
    if p >= end then Ok([])
    else
      var n :- ReadU16(image, p);
      if n == 0 then DecodeStrings(image, p + 2, end)
      else if !InBounds(image, p + 2, 2 * n) then Err(OutOfRange(p + 2, 2 * n))
      else
        var rest :- DecodeStrings(image, p + 2 + 2 * n, end);
        Ok([UnitsAt(image, p + 2, n)] + rest)
  }

  /** `strings` followed by the strings of `rest`, or the error of `rest`. */
  function Preceded(strings: seq<seq<U16>>, rest: Result<seq<seq<U16>>, Error>): Result<seq<seq<U16>>, Error> {
    match rest
    case Ok(ss) => Ok(strings + ss)
    case Err(e) => Err(e)
  }

  function StringTableOf(image: seq<Byte>, language: string, name: ResourceName, data: DataEntry): Result<StringTable, Error> {
    var strings :- DecodeStrings(image, data.offsetToData, data.offsetToData + data.size);
    Ok(StringTable(data.offsetToData, data.size, language, name, strings))
  }

  /** CreateRsrcDataSymbol: the dispatch on the subtree's resource type. */
  function CreateDataSymbol(image: seq<Byte>, language: string, rtype: ResourceType, typeName: TypeName,
                            name: ResourceName, data: DataEntry): (r: Result<LeafData, Error>)
    ensures rtype == Defined(RT_ICON) || rtype == Defined(RT_CURSOR) ==> r == Ok(Suppressed)
    ensures r.Ok? && r.value.TableOf? ==>
      && rtype == Defined(RT_STRING)
      && r.value.table.rva == data.offsetToData && r.value.table.size == data.size && r.value.table.language == language
    ensures rtype == Defined(RT_GROUP_ICON) && r.Ok? ==> r.value.SymbolOf? && r.value.symbol.GroupIconSymbol?
    ensures rtype == Defined(RT_GROUP_CURSOR) && r.Ok? ==> r.value.SymbolOf? && r.value.symbol.GroupCursorSymbol?
    ensures rtype !in {Defined(RT_ICON), Defined(RT_CURSOR), Defined(RT_STRING), Defined(RT_GROUP_ICON), Defined(RT_GROUP_CURSOR)} ==>
      r == Ok(SymbolOf(DataSymbol(data.offsetToData, data.size, language, rtype, typeName, name)))
  {
    if rtype == Defined(RT_GROUP_ICON) then
      var s :- GroupIcon(image, language, name, data); Ok(SymbolOf(s))
    else if rtype == Defined(RT_ICON) then Ok(Suppressed)
    else if rtype == Defined(RT_STRING) then
      var t :- StringTableOf(image, language, name, data); Ok(TableOf(t))
    else if rtype == Defined(RT_CURSOR) then Ok(Suppressed)
    else if rtype == Defined(RT_GROUP_CURSOR) then
      var s :- GroupCursor(image, language, name, data); Ok(SymbolOf(s))
    else Ok(SymbolOf(DataSymbol(data.offsetToData, data.size, language, rtype, typeName, name)))
  }

  // ------------------------------------------------------------------
  // The directory walk
  // ------------------------------------------------------------------

  /** `RsrcSymbols` and the `stringTables` accumulator, both keyed by RVA. */
  datatype RsrcState = RsrcState(symbols: map<U32, RsrcSymbol>, tables: map<U32, StringTable>)

  /** What the walk reads: the image, the section's RVA and the culture
      names it resolves language IDs with. */
  datatype Walker = Walker(image: seq<Byte>, rsrcStart: U32, cultures: map<U16, string>)

  /** Both inventories only grow, and string tables stay keyed by their
      own RVA. */
  ghost predicate Grows(st: RsrcState, st': RsrcState) {
    && Extends(st.symbols, st'.symbols) && Extends(st.tables, st'.tables)
    && (KeyedByRva(st.tables) ==> KeyedByRva(st'.tables))
  }

  ghost predicate KeyedByRva(tables: map<U32, StringTable>) {
    forall k :: k in tables ==> tables[k].rva == k
  }

  /** A named entry's name string is recorded at RsrcStart + NameOffset with
      its length prefix, unless that RVA is already taken. */
  function RecordEntryName(w: Walker, entry: DirectoryEntry, symbols: map<U32, RsrcSymbol>)
    : (r: Result<map<U32, RsrcSymbol>, Error>)
    ensures !entry.IsNamedEntry() ==> r == Ok(symbols)
    ensures r.Ok? ==> Extends(symbols, r.value)
    ensures entry.IsNamedEntry() && r.Ok? ==>
      var rva := Wrap32(w.rsrcStart + entry.NameOffset());
      var units := ReadPrefixedString(w.image, w.rsrcStart + entry.NameOffset());
      && units.Ok?
      && r.value.Keys == symbols.Keys + {rva}
      && (rva !in symbols ==> r.value[rva] == StringSymbol(rva, 2 + 2 * |units.value|, units.value))
  {
    if entry.IsNamedEntry() then
      var units :- ReadPrefixedString(w.image, w.rsrcStart + entry.NameOffset());
      var rva := Wrap32(w.rsrcStart + entry.NameOffset());
      Ok(TryAdd(symbols, rva, StringSymbol(rva, 2 + 2 * |units|, units)))
    else Ok(symbols)
  }

  /** The data a leaf describes, as CreateRsrcDataSymbol makes it, is in the
      inventory for its type: a string table in the accumulator of string
      tables, any other symbol in `RsrcSymbols` under its own RVA, and an
      ICON or CURSOR nowhere. */
  ghost predicate LeafDataRecorded(w: Walker, entry: DirectoryEntry, info: DirectoryInfo, st: RsrcState, st': RsrcState) {
    && LeafDataKept(w, entry, info, st')
    && (LeafDataOf(w, entry, info).value.Suppressed? ==>
          st'.symbols.Keys == st.symbols.Keys + {Wrap32(w.rsrcStart + entry.offsetToData)} && st'.tables == st.tables)
  }

  ghost predicate LeafDataKept(w: Walker, entry: DirectoryEntry, info: DirectoryInfo, st': RsrcState) {
    && LeafDataOf(w, entry, info).Ok?
    && var leaf := LeafDataOf(w, entry, info).value;
       && (leaf.TableOf? ==> leaf.table.rva in st'.tables && st'.tables[leaf.table.rva] == leaf.table)
       && (leaf.SymbolOf? ==> leaf.symbol.rva in st'.symbols && st'.symbols[leaf.symbol.rva] == leaf.symbol)
  }

  /** What CreateRsrcDataSymbol makes of a leaf entry's data. */
  ghost function LeafDataOf(w: Walker, entry: DirectoryEntry, info: DirectoryInfo): Result<LeafData, Error> {
    var data :- ReadDataEntry(w.image, Wrap32(w.rsrcStart + entry.offsetToData));
    CreateDataSymbol(w.image, LanguageName(w.cultures, entry.Id()), info.rtype, info.typeName, WithFallback(info.depth1Name), data)
  }

  /** A leaf: the data entry at RsrcStart + OffsetToData is recorded as a
      16-byte data entry symbol labelled with the language of the entry's
      ID, and the data it describes is recorded by type. */
  function RecordLeaf(w: Walker, depth: nat, entry: DirectoryEntry, index: nat, info: DirectoryInfo, st: RsrcState)
    : (r: Result<RsrcState, Error>)
    ensures r.Ok? ==> Grows(st, r.value)
    ensures r.Ok? ==>
      var rva := Wrap32(w.rsrcStart + entry.offsetToData);
      && rva !in st.symbols && rva in r.value.symbols
      && r.value.symbols[rva] == DataEntrySymbol(rva, RESOURCE_DATA_ENTRY_SIZE, depth, LanguageName(w.cultures, entry.Id()),
                                               info.rtype, info.typeName, WithFallback(info.depth1Name), index)
    ensures r.Ok? ==> LeafDataRecorded(w, entry, info, st, r.value)
  {
    var rva := Wrap32(w.rsrcStart + entry.offsetToData);
    var data :- ReadDataEntry(w.image, rva);
    var language := LanguageName(w.cultures, entry.Id());
    var name := WithFallback(info.depth1Name);
    var symbols :- Add(st.symbols, rva, DataEntrySymbol(rva, RESOURCE_DATA_ENTRY_SIZE, depth, language, info.rtype, info.typeName, name, index));
    var leaf :- CreateDataSymbol(w.image, language, info.rtype, info.typeName, name, data);
    match leaf
    case Suppressed => Ok(RsrcState(symbols, st.tables))
    case TableOf(t) =>
      var tables :- Add(st.tables, t.rva, t);
      Ok(RsrcState(symbols, tables))
    case SymbolOf(s) =>
      var symbols' :- Add(symbols, s.rva, s);
      Ok(RsrcState(symbols', st.tables))
  }

  /** The part of WalkResourceDirectory before its entry loop: the
      directory's entry count, the labels of its subtree, and its own
      symbol, of size 16 + 8 * (NumberOfNamedEntries + NumberOfIdEntries). */
  function OpenDirectory(w: Walker, rva: U32, depth: nat, depth0: Option<DirectoryEntry>, depth1: Option<DirectoryEntry>,
                         st: RsrcState): (r: Result<(nat, DirectoryInfo, RsrcState), Error>)
    ensures r.Ok? ==>
      var (n, info, st') := r.value;
      && InBounds(w.image, rva, RESOURCE_DIRECTORY_SIZE)
      && n == U16At(w.image, rva + 12) + U16At(w.image, rva + 14)
      && SelectType(w.image, w.rsrcStart, depth0).Ok? && info.rtype == SelectType(w.image, w.rsrcStart, depth0).value.0
      && info.typeName == SelectType(w.image, w.rsrcStart, depth0).value.1
      && ReadDepth1Name(w.image, w.rsrcStart, depth1).Ok? && info.depth1Name == ReadDepth1Name(w.image, w.rsrcStart, depth1).value
      && Grows(st, st') && st'.tables == st.tables && st'.symbols.Keys == st.symbols.Keys + {rva} && rva !in st.symbols
      && st'.symbols[rva] == DirectorySymbol(rva, RESOURCE_DIRECTORY_SIZE + RESOURCE_DIRECTORY_ENTRY_SIZE * n, depth,
                                             info.rtype, info.typeName, info.depth1Name)
  {
    var n :- ReadDirectoryCount(w.image, rva);
    var typeInfo :- SelectType(w.image, w.rsrcStart, depth0);
    var depth1Name :- ReadDepth1Name(w.image, w.rsrcStart, depth1);
    var info := DirectoryInfo(typeInfo.0, typeInfo.1, depth1Name);
    var symbols :- Add(st.symbols, rva, DirectorySymbol(rva, RESOURCE_DIRECTORY_SIZE + RESOURCE_DIRECTORY_ENTRY_SIZE * n,
                                                        depth, info.rtype, info.typeName, depth1Name));
    Ok((n, info, RsrcState(symbols, st.tables)))
  }

  /** WalkResourceDirectory: nothing below depth 2; otherwise the directory
      symbol, then its entries in order. */
  function WalkDirectory(w: Walker, rva: U32, depth: nat, depth0: Option<DirectoryEntry>, depth1: Option<DirectoryEntry>,
                         st: RsrcState): (r: Result<RsrcState, Error>)
    ensures depth > MAX_DEPTH ==> r == Ok(st)
    ensures r.Ok? ==> Grows(st, r.value)
    decreases MAX_DEPTH + 1 - depth, 2, 0
  {
    if depth > MAX_DEPTH then Ok(st)
    else
      var (n, info, st1) :- OpenDirectory(w, rva, depth, depth0, depth1, st);
      WalkEntries(w, depth, 0, n, Wrap32(rva + RESOURCE_DIRECTORY_SIZE), depth0, depth1, info, st1)
  }

  /** The loop's `depth0` after an entry: a subdirectory entry at depth 0
      replaces it, and later siblings see the replacement. */
  function NextDepth0(depth: nat, entry: DirectoryEntry, depth0: Option<DirectoryEntry>): Option<DirectoryEntry> {
    if entry.DataIsDirectory() && depth == 0 then Some(entry) else depth0
  }

  /** The loop's `depth1` after an entry, likewise at depth 1. */
  function NextDepth1(depth: nat, entry: DirectoryEntry, depth1: Option<DirectoryEntry>): Option<DirectoryEntry> {
    if entry.DataIsDirectory() && depth == 1 then Some(entry) else depth1
  }

  /** The body of the entry loop for entry `i`: its name string, then its
      subdirectory (with the updated context) or its leaf. */
  function EntryStep(w: Walker, depth: nat, entry: DirectoryEntry, i: nat, depth0: Option<DirectoryEntry>,
                     depth1: Option<DirectoryEntry>, info: DirectoryInfo, st: RsrcState): (r: Result<RsrcState, Error>)
    requires depth <= MAX_DEPTH
    ensures r.Ok? ==> Grows(st, r.value)
    decreases MAX_DEPTH + 1 - depth, 0, 0
  {
    var symbols :- RecordEntryName(w, entry, st.symbols);
    var st1 := RsrcState(symbols, st.tables);
    if entry.DataIsDirectory() then
      WalkDirectory(w, Wrap32(w.rsrcStart + entry.OffsetToDirectory()), depth + 1,
                    NextDepth0(depth, entry, depth0), NextDepth1(depth, entry, depth1), st1)
    else RecordLeaf(w, depth, entry, i, info, st1)
  }

  /** The entry loop: entry `i` of `n` at `entryRva`. */
  function WalkEntries(w: Walker, depth: nat, i: nat, n: nat, entryRva: U32, depth0: Option<DirectoryEntry>,
                       depth1: Option<DirectoryEntry>, info: DirectoryInfo, st: RsrcState): (r: Result<RsrcState, Error>)
    requires depth <= MAX_DEPTH
    ensures r.Ok? ==> Grows(st, r.value)
    decreases MAX_DEPTH + 1 - depth, 1, n - i
  {
    if i >= n then Ok(st)
    else
      var entry :- ReadDirectoryEntry(w.image, entryRva);
      var st1 :- EntryStep(w, depth, entry, i, depth0, depth1, info, st);
      WalkEntries(w, depth, i + 1, n, Wrap32(entryRva + RESOURCE_DIRECTORY_ENTRY_SIZE),
                  NextDepth0(depth, entry, depth0), NextDepth1(depth, entry, depth1), info, st1)
  }

  // ------------------------------------------------------------------
  // What the walk records
  // ------------------------------------------------------------------

  /** A directory at depth 0, 1 or 2 is recorded under its own RVA, at its
      depth, with size 16 + 8 * (NumberOfNamedEntries + NumberOfIdEntries)
      and the type of its subtree. */
  lemma DirectoryNodeRecorded(w: Walker, rva: U32, depth: nat, depth0: Option<DirectoryEntry>,
                              depth1: Option<DirectoryEntry>, st: RsrcState)
    requires depth <= MAX_DEPTH
    requires WalkDirectory(w, rva, depth, depth0, depth1, st).Ok?
    ensures InBounds(w.image, rva, RESOURCE_DIRECTORY_SIZE) && SelectType(w.image, w.rsrcStart, depth0).Ok?
    ensures var r := WalkDirectory(w, rva, depth, depth0, depth1, st).value;
            var n := U16At(w.image, rva + 12) + U16At(w.image, rva + 14);
            && rva !in st.symbols && rva in r.symbols
            && r.symbols[rva].DirectorySymbol?
            && r.symbols[rva].size == RESOURCE_DIRECTORY_SIZE + RESOURCE_DIRECTORY_ENTRY_SIZE * n
            && r.symbols[rva].depth == depth
            && r.symbols[rva].rtype == SelectType(w.image, w.rsrcStart, depth0).value.0
  {
    var (n, info, st1) := OpenDirectory(w, rva, depth, depth0, depth1, st).value;
    var r := WalkEntries(w, depth, 0, n, Wrap32(rva + RESOURCE_DIRECTORY_SIZE), depth0, depth1, info, st1);
    assert WalkDirectory(w, rva, depth, depth0, depth1, st) == r;
    assert rva in st1.symbols;
  }

  /** One turn of the entry loop: the entry's step, then its later siblings. */
  lemma EntryUnfolds(w: Walker, depth: nat, i: nat, n: nat, entryRva: U32, depth0: Option<DirectoryEntry>,
                     depth1: Option<DirectoryEntry>, info: DirectoryInfo, st: RsrcState)
    requires depth <= MAX_DEPTH && i < n
    requires WalkEntries(w, depth, i, n, entryRva, depth0, depth1, info, st).Ok?
    ensures InBounds(w.image, entryRva, RESOURCE_DIRECTORY_ENTRY_SIZE)
    ensures var entry := DirectoryEntry(U32At(w.image, entryRva), U32At(w.image, entryRva + 4));
            && EntryStep(w, depth, entry, i, depth0, depth1, info, st).Ok?
            && Grows(EntryStep(w, depth, entry, i, depth0, depth1, info, st).value,
                     WalkEntries(w, depth, i, n, entryRva, depth0, depth1, info, st).value)
  {
  }
  /** A named entry's string is in the inventory after the walk, and is the
      entry's own length-prefixed name when no earlier symbol had its RVA. */
  lemma EntryNameRecorded(w: Walker, depth: nat, i: nat, n: nat, entryRva: U32, depth0: Option<DirectoryEntry>,
                          depth1: Option<DirectoryEntry>, info: DirectoryInfo, st: RsrcState)
    requires depth <= MAX_DEPTH && i < n
    requires WalkEntries(w, depth, i, n, entryRva, depth0, depth1, info, st).Ok?
    ensures InBounds(w.image, entryRva, RESOURCE_DIRECTORY_ENTRY_SIZE)
    ensures var entry := DirectoryEntry(U32At(w.image, entryRva), U32At(w.image, entryRva + 4));
            var r := WalkEntries(w, depth, i, n, entryRva, depth0, depth1, info, st).value;
            var rva := Wrap32(w.rsrcStart + entry.NameOffset());
            var units := ReadPrefixedString(w.image, w.rsrcStart + entry.NameOffset());
            entry.IsNamedEntry() ==>
              && units.Ok? && rva in r.symbols
              && (rva !in st.symbols ==> r.symbols[rva] == StringSymbol(rva, 2 + 2 * |units.value|, units.value))
  {
    EntryUnfolds(w, depth, i, n, entryRva, depth0, depth1, info, st);
    var entry := DirectoryEntry(U32At(w.image, entryRva), U32At(w.image, entryRva + 4));
    var symbols := RecordEntryName(w, entry, st.symbols).value;
    var st2 := EntryStep(w, depth, entry, i, depth0, depth1, info, st).value;
    assert Extends(symbols, st2.symbols);
  }

  /** A leaf entry's data entry is recorded under RsrcStart + OffsetToData
      as a 16-byte symbol carrying its depth, its index among its siblings,
      the subtree's type and name, and its language; language 0 is
      "LANG_NEUTRAL". */
  lemma LeafRecorded(w: Walker, depth: nat, i: nat, n: nat, entryRva: U32, depth0: Option<DirectoryEntry>,
                     depth1: Option<DirectoryEntry>, info: DirectoryInfo, st: RsrcState)
    requires depth <= MAX_DEPTH && i < n
    requires WalkEntries(w, depth, i, n, entryRva, depth0, depth1, info, st).Ok?
    ensures InBounds(w.image, entryRva, RESOURCE_DIRECTORY_ENTRY_SIZE)
    ensures var entry := DirectoryEntry(U32At(w.image, entryRva), U32At(w.image, entryRva + 4));
            var r := WalkEntries(w, depth, i, n, entryRva, depth0, depth1, info, st).value;
            var rva := Wrap32(w.rsrcStart + entry.offsetToData);
            !entry.DataIsDirectory() ==>
              && rva in r.symbols
              && r.symbols[rva] == DataEntrySymbol(rva, RESOURCE_DATA_ENTRY_SIZE, depth, LanguageName(w.cultures, entry.Id()),
                                                 info.rtype, info.typeName, WithFallback(info.depth1Name), i)
              && (entry.Id() == 0 ==> r.symbols[rva].language == LANG_NEUTRAL_NAME)
              && LeafDataKept(w, entry, info, r)
  {
    EntryUnfolds(w, depth, i, n, entryRva, depth0, depth1, info, st);
    var entry := DirectoryEntry(U32At(w.image, entryRva), U32At(w.image, entryRva + 4));
    var st2 := EntryStep(w, depth, entry, i, depth0, depth1, info, st).value;
    var rva := Wrap32(w.rsrcStart + entry.offsetToData);
    if !entry.DataIsDirectory() {
      assert rva in st2.symbols;
      var leaf := LeafDataOf(w, entry, info).value;
      if leaf.TableOf? {
        assert leaf.table.rva in st2.tables;
      }
      if leaf.SymbolOf? {
        assert leaf.symbol.rva in st2.symbols;
      }
    }
  }

  // ------------------------------------------------------------------
  // The keys the walk adds
  // ------------------------------------------------------------------

  /** The RVA of entry `i` of the directory at `rva`: the entries follow the
      16-byte header, 8 bytes each, in uint arithmetic. */
  function EntryRvaAt(rva: U32, i: nat): U32 {
    Wrap32(rva + RESOURCE_DIRECTORY_SIZE + RESOURCE_DIRECTORY_ENTRY_SIZE * i)
  }

  function EntryAt(image: seq<Byte>, rva: int): DirectoryEntry
    requires InBounds(image, rva, RESOURCE_DIRECTORY_ENTRY_SIZE)
  {
    DirectoryEntry(U32At(image, rva), U32At(image, rva + 4))
  }

  /** The labels a directory with this context passes to its leaves, when
      they can be read. */
  ghost function InfoOf(w: Walker, depth0: Option<DirectoryEntry>, depth1: Option<DirectoryEntry>): Option<DirectoryInfo> {
    var t := SelectType(w.image, w.rsrcStart, depth0);
    var d := ReadDepth1Name(w.image, w.rsrcStart, depth1);
    if t.Ok? && d.Ok? then Some(DirectoryInfo(t.value.0, t.value.1, d.value)) else None
  }

  /** The context the entry loop carries agrees with the directory's own
      wherever it is used: only depth 0 replaces `depth0` and only depth 1
      replaces `depth1`. */
  predicate Agrees(depth: nat, c0: Option<DirectoryEntry>, c1: Option<DirectoryEntry>,
                   d0: Option<DirectoryEntry>, d1: Option<DirectoryEntry>) {
    (depth != 0 ==> c0 == d0) && (depth != 1 ==> c1 == d1)
  }

  /** A key a leaf adds: its data entry, and the symbol its data makes
      unless that is a string table or is suppressed. */
  ghost predicate LeafKey(w: Walker, entry: DirectoryEntry, info: DirectoryInfo, k: U32) {
    || k == Wrap32(w.rsrcStart + entry.offsetToData)
    || (&& LeafDataOf(w, entry, info).Ok? && LeafDataOf(w, entry, info).value.SymbolOf?
        && k == LeafDataOf(w, entry, info).value.symbol.rva)
  }

  /** A key the walk of the directory at `rva` adds: none below depth 2;
      otherwise the directory's own RVA and the keys of its entries. */
  ghost predicate DirectoryKey(w: Walker, rva: U32, depth: nat, depth0: Option<DirectoryEntry>,
                               depth1: Option<DirectoryEntry>, k: U32)
    decreases MAX_DEPTH + 1 - depth, 2
  {
    && depth <= MAX_DEPTH
    && InBounds(w.image, rva, RESOURCE_DIRECTORY_SIZE)
    && InfoOf(w, depth0, depth1).Some?
    && (|| k == rva
        || EntriesKey(w, rva, depth, depth0, depth1, 0, U16At(w.image, rva + 12) + U16At(w.image, rva + 14), k))
  }

  /** A key one of entries `i` to `n - 1` of the directory at `rva` adds. */
  ghost predicate EntriesKey(w: Walker, rva: U32, depth: nat, depth0: Option<DirectoryEntry>,
                             depth1: Option<DirectoryEntry>, i: nat, n: nat, k: U32)
    requires depth <= MAX_DEPTH && InfoOf(w, depth0, depth1).Some?
    decreases MAX_DEPTH + 1 - depth, 1, 1
  {
    exists j :: i <= j < n && EntryKeyAt(w, rva, depth, depth0, depth1, j, k)
  }

  /** A key entry `i` of the directory at `rva` adds. */
  ghost predicate EntryKeyAt(w: Walker, rva: U32, depth: nat, depth0: Option<DirectoryEntry>,
                             depth1: Option<DirectoryEntry>, i: nat, k: U32)
    requires depth <= MAX_DEPTH && InfoOf(w, depth0, depth1).Some?
    decreases MAX_DEPTH + 1 - depth, 1, 0
  {
    && InBounds(w.image, EntryRvaAt(rva, i), RESOURCE_DIRECTORY_ENTRY_SIZE)
    && EntryKey(w, depth, EntryAt(w.image, EntryRvaAt(rva, i)), depth0, depth1, InfoOf(w, depth0, depth1).value, k)
  }

  /** A key an entry adds: its name string when it is named, then the keys
      of its subdirectory or of its leaf. */
  ghost predicate EntryKey(w: Walker, depth: nat, entry: DirectoryEntry, depth0: Option<DirectoryEntry>,
                           depth1: Option<DirectoryEntry>, info: DirectoryInfo, k: U32)
    requires depth <= MAX_DEPTH
    decreases MAX_DEPTH + 1 - depth, 0
  {
    || (entry.IsNamedEntry() && k == Wrap32(w.rsrcStart + entry.NameOffset()))
    || (&& entry.DataIsDirectory()
        && DirectoryKey(w, Wrap32(w.rsrcStart + entry.OffsetToDirectory()), depth + 1,
                        NextDepth0(depth, entry, depth0), NextDepth1(depth, entry, depth1), k))
    || (!entry.DataIsDirectory() && LeafKey(w, entry, info, k))
  }

  /** A leaf adds exactly its data entry and the symbol its data makes. */
  lemma RecordLeafKeys(w: Walker, depth: nat, entry: DirectoryEntry, index: nat, info: DirectoryInfo, st: RsrcState)
    requires RecordLeaf(w, depth, entry, index, info, st).Ok?
    ensures forall k :: k in RecordLeaf(w, depth, entry, index, info, st).value.symbols <==>
                        k in st.symbols || LeafKey(w, entry, info, k)
  {
  }

  /** Where the carried context agrees with the directory's, an entry adds
      the same keys under either. */
  lemma EntryKeyContext(w: Walker, depth: nat, entry: DirectoryEntry, c0: Option<DirectoryEntry>, c1: Option<DirectoryEntry>,
                        d0: Option<DirectoryEntry>, d1: Option<DirectoryEntry>, info: DirectoryInfo)
    requires depth <= MAX_DEPTH && Agrees(depth, c0, c1, d0, d1)
    ensures forall k :: EntryKey(w, depth, entry, c0, c1, info, k) <==> EntryKey(w, depth, entry, d0, d1, info, k)
  {
    assert entry.DataIsDirectory() ==>
      NextDepth0(depth, entry, c0) == NextDepth0(depth, entry, d0) && NextDepth1(depth, entry, c1) == NextDepth1(depth, entry, d1);
  }

  /** WalkResourceDirectory adds exactly the directories at depth 0 to 2
      below `rva`, the name strings of their named entries, the data
      entries of their leaves and the symbols those leaves' data make. */
  lemma WalkDirectoryKeys(w: Walker, rva: U32, depth: nat, depth0: Option<DirectoryEntry>,
                          depth1: Option<DirectoryEntry>, st: RsrcState)
    requires WalkDirectory(w, rva, depth, depth0, depth1, st).Ok?
    ensures forall k :: k in WalkDirectory(w, rva, depth, depth0, depth1, st).value.symbols <==>
                        k in st.symbols || DirectoryKey(w, rva, depth, depth0, depth1, k)
    decreases MAX_DEPTH + 1 - depth, 2
  {
    if depth <= MAX_DEPTH {
      var (n, info, st1) := OpenDirectory(w, rva, depth, depth0, depth1, st).value;
      assert InfoOf(w, depth0, depth1) == Some(info);
      assert Wrap32(rva + RESOURCE_DIRECTORY_SIZE) == EntryRvaAt(rva, 0);
      WalkEntriesKeys(w, rva, depth, 0, n, depth0, depth1, depth0, depth1, info, st1);
    }
  }

  /** The entry loop from entry `i` adds exactly the keys of entries `i`
      to `n - 1`. */
  lemma WalkEntriesKeys(w: Walker, rva: U32, depth: nat, i: nat, n: nat, c0: Option<DirectoryEntry>,
                        c1: Option<DirectoryEntry>, d0: Option<DirectoryEntry>, d1: Option<DirectoryEntry>,
                        info: DirectoryInfo, st: RsrcState)
    requires depth <= MAX_DEPTH && InfoOf(w, d0, d1) == Some(info) && Agrees(depth, c0, c1, d0, d1)
    requires WalkEntries(w, depth, i, n, EntryRvaAt(rva, i), c0, c1, info, st).Ok?
    ensures forall k :: k in WalkEntries(w, depth, i, n, EntryRvaAt(rva, i), c0, c1, info, st).value.symbols <==>
                        k in st.symbols || EntriesKey(w, rva, depth, d0, d1, i, n, k)
    decreases MAX_DEPTH + 1 - depth, 1, n - i
  {
    if i < n {
      var entry, st1 := EntryLoopTurn(w, rva, depth, i, n, c0, c1, info, st);
      EntryStepKeys(w, depth, entry, i, c0, c1, info, st);
      EntryKeyContext(w, depth, entry, c0, c1, d0, d1, info);
      WalkEntriesKeys(w, rva, depth, i + 1, n, NextDepth0(depth, entry, c0), NextDepth1(depth, entry, c1), d0, d1, info, st1);
      var r := WalkEntries(w, depth, i + 1, n, EntryRvaAt(rva, i + 1), NextDepth0(depth, entry, c0), NextDepth1(depth, entry, c1), info, st1).value;
      forall k
        ensures k in r.symbols <==> k in st.symbols || EntriesKey(w, rva, depth, d0, d1, i, n, k)
      {
        assert k in r.symbols <==> k in st1.symbols || EntriesKey(w, rva, depth, d0, d1, i + 1, n, k);
        assert k in st1.symbols <==> k in st.symbols || EntryKey(w, depth, entry, c0, c1, info, k);
        EntriesKeySplit(w, rva, depth, d0, d1, i, n, k);
      }
    }
  }

  /** The first of entries `i` to `n - 1`, then the rest. */
  lemma EntriesKeySplit(w: Walker, rva: U32, depth: nat, d0: Option<DirectoryEntry>, d1: Option<DirectoryEntry>,
                        i: nat, n: nat, k: U32)
    requires depth <= MAX_DEPTH && InfoOf(w, d0, d1).Some? && i < n
    requires InBounds(w.image, EntryRvaAt(rva, i), RESOURCE_DIRECTORY_ENTRY_SIZE)
    ensures EntriesKey(w, rva, depth, d0, d1, i, n, k) <==>
            EntryKey(w, depth, EntryAt(w.image, EntryRvaAt(rva, i)), d0, d1, InfoOf(w, d0, d1).value, k) ||
            EntriesKey(w, rva, depth, d0, d1, i + 1, n, k)
  {
    assert EntriesKey(w, rva, depth, d0, d1, i, n, k) <==>
           EntryKeyAt(w, rva, depth, d0, d1, i, k) || EntriesKey(w, rva, depth, d0, d1, i + 1, n, k);
  }

  lemma SubdirectoryEntryKey(w: Walker, depth: nat, entry: DirectoryEntry, d0: Option<DirectoryEntry>,
                             d1: Option<DirectoryEntry>, info: DirectoryInfo, k: U32)
    requires depth <= MAX_DEPTH && entry.DataIsDirectory()
    ensures EntryKey(w, depth, entry, d0, d1, info, k) <==>
            || (entry.IsNamedEntry() && k == Wrap32(w.rsrcStart + entry.NameOffset()))
            || DirectoryKey(w, Wrap32(w.rsrcStart + entry.OffsetToDirectory()), depth + 1,
                            NextDepth0(depth, entry, d0), NextDepth1(depth, entry, d1), k)
  {
  }

  lemma LeafEntryKey(w: Walker, depth: nat, entry: DirectoryEntry, d0: Option<DirectoryEntry>,
                     d1: Option<DirectoryEntry>, info: DirectoryInfo, k: U32)
    requires depth <= MAX_DEPTH && !entry.DataIsDirectory()
    ensures EntryKey(w, depth, entry, d0, d1, info, k) <==>
            (entry.IsNamedEntry() && k == Wrap32(w.rsrcStart + entry.NameOffset())) || LeafKey(w, entry, info, k)
  {
  }

  /** One turn of the entry loop, with the next entry's RVA in closed form. */
  lemma EntryLoopTurn(w: Walker, rva: U32, depth: nat, i: nat, n: nat, c0: Option<DirectoryEntry>,
                      c1: Option<DirectoryEntry>, info: DirectoryInfo, st: RsrcState) returns (entry: DirectoryEntry, st1: RsrcState)
    requires depth <= MAX_DEPTH && i < n
    requires WalkEntries(w, depth, i, n, EntryRvaAt(rva, i), c0, c1, info, st).Ok?
    ensures InBounds(w.image, EntryRvaAt(rva, i), RESOURCE_DIRECTORY_ENTRY_SIZE) && entry == EntryAt(w.image, EntryRvaAt(rva, i))
    ensures EntryStep(w, depth, entry, i, c0, c1, info, st) == Ok(st1)
    ensures WalkEntries(w, depth, i + 1, n, EntryRvaAt(rva, i + 1), NextDepth0(depth, entry, c0), NextDepth1(depth, entry, c1), info, st1)
            == WalkEntries(w, depth, i, n, EntryRvaAt(rva, i), c0, c1, info, st)
  {
    var er := EntryRvaAt(rva, i);
    entry := EntryAt(w.image, er);
    st1 := EntryStep(w, depth, entry, i, c0, c1, info, st).value;
    Wrap32Add(rva + RESOURCE_DIRECTORY_SIZE + RESOURCE_DIRECTORY_ENTRY_SIZE * i, RESOURCE_DIRECTORY_ENTRY_SIZE);
    assert Wrap32(er + RESOURCE_DIRECTORY_ENTRY_SIZE) == EntryRvaAt(rva, i + 1);
  }

  /** An entry adds exactly its name string and the keys of its
      subdirectory or leaf. */
  lemma EntryStepKeys(w: Walker, depth: nat, entry: DirectoryEntry, i: nat, c0: Option<DirectoryEntry>,
                      c1: Option<DirectoryEntry>, info: DirectoryInfo, st: RsrcState)
    requires depth <= MAX_DEPTH
    requires EntryStep(w, depth, entry, i, c0, c1, info, st).Ok?
    ensures forall k :: k in EntryStep(w, depth, entry, i, c0, c1, info, st).value.symbols <==>
                        k in st.symbols || EntryKey(w, depth, entry, c0, c1, info, k)
    decreases MAX_DEPTH + 1 - depth, 0, 1
  {
    var st1 := RsrcState(RecordEntryName(w, entry, st.symbols).value, st.tables);
    if entry.DataIsDirectory() {
      assert EntryStep(w, depth, entry, i, c0, c1, info, st) ==
             WalkDirectory(w, Wrap32(w.rsrcStart + entry.OffsetToDirectory()), depth + 1,
                           NextDepth0(depth, entry, c0), NextDepth1(depth, entry, c1), st1);
      SubdirectoryStepKeys(w, depth, entry, c0, c1, info, st);
    } else {
      assert EntryStep(w, depth, entry, i, c0, c1, info, st) == RecordLeaf(w, depth, entry, i, info, st1);
      LeafStepKeys(w, depth, entry, i, c0, c1, info, st);
    }
  }

  /** The name string of an entry, as the entry step records it first. */
  lemma EntryNameKeys(w: Walker, entry: DirectoryEntry, st: RsrcState)
    requires RecordEntryName(w, entry, st.symbols).Ok?
    ensures forall k :: k in RecordEntryName(w, entry, st.symbols).value <==>
                        k in st.symbols || (entry.IsNamedEntry() && k == Wrap32(w.rsrcStart + entry.NameOffset()))
  {
  }

  lemma SubdirectoryStepKeys(w: Walker, depth: nat, entry: DirectoryEntry, c0: Option<DirectoryEntry>,
                             c1: Option<DirectoryEntry>, info: DirectoryInfo, st: RsrcState)
    requires depth <= MAX_DEPTH && entry.DataIsDirectory() && RecordEntryName(w, entry, st.symbols).Ok?
    requires WalkDirectory(w, Wrap32(w.rsrcStart + entry.OffsetToDirectory()), depth + 1, NextDepth0(depth, entry, c0),
                           NextDepth1(depth, entry, c1), RsrcState(RecordEntryName(w, entry, st.symbols).value, st.tables)).Ok?
    ensures forall k :: k in WalkDirectory(w, Wrap32(w.rsrcStart + entry.OffsetToDirectory()), depth + 1, NextDepth0(depth, entry, c0),
                                           NextDepth1(depth, entry, c1), RsrcState(RecordEntryName(w, entry, st.symbols).value, st.tables)).value.symbols
                        <==> k in st.symbols || EntryKey(w, depth, entry, c0, c1, info, k)
    decreases MAX_DEPTH + 1 - depth, 0, 0
  {
    var st1 := RsrcState(RecordEntryName(w, entry, st.symbols).value, st.tables);
    EntryNameKeys(w, entry, st);
    WalkDirectoryKeys(w, Wrap32(w.rsrcStart + entry.OffsetToDirectory()), depth + 1,
                      NextDepth0(depth, entry, c0), NextDepth1(depth, entry, c1), st1);
    forall k {
      SubdirectoryEntryKey(w, depth, entry, c0, c1, info, k);
    }
  }

  lemma LeafStepKeys(w: Walker, depth: nat, entry: DirectoryEntry, i: nat, c0: Option<DirectoryEntry>,
                     c1: Option<DirectoryEntry>, info: DirectoryInfo, st: RsrcState)
    requires depth <= MAX_DEPTH && !entry.DataIsDirectory() && RecordEntryName(w, entry, st.symbols).Ok?
    requires RecordLeaf(w, depth, entry, i, info, RsrcState(RecordEntryName(w, entry, st.symbols).value, st.tables)).Ok?
    ensures forall k :: k in RecordLeaf(w, depth, entry, i, info, RsrcState(RecordEntryName(w, entry, st.symbols).value, st.tables)).value.symbols
                        <==> k in st.symbols || EntryKey(w, depth, entry, c0, c1, info, k)
  {
    var st1 := RsrcState(RecordEntryName(w, entry, st.symbols).value, st.tables);
    EntryNameKeys(w, entry, st);
    RecordLeafKeys(w, depth, entry, i, info, st1);
    forall k {
      LeafEntryKey(w, depth, entry, c0, c1, info, k);
    }
  }

  // ------------------------------------------------------------------
  // Layout of icon and cursor groups
  // ------------------------------------------------------------------

  /** Member `i` of a group ends, rounded up to 8, where member `i + 1`
      starts; the last one ends where the group header starts. */
  lemma MemberEndsAtNext(entries: seq<GroupDirEntry>, start: U32, i: nat)
    requires i < |entries|
    ensures Wrap32(Wrap32(start - SuffixSize(entries, i)) + RoundUpTo8ByteAlignment(entries[i].bytesInRes))
            == Wrap32(start - SuffixSize(entries, i + 1))
    ensures i + 1 == |entries| ==> Wrap32(start - SuffixSize(entries, i + 1)) == start
  {
    Wrap32Add(start - SuffixSize(entries, i), RoundUpTo8ByteAlignment(entries[i].bytesInRes));
  }

  /** The group covers its members and then its header and entries. */
  lemma GroupEndsAfterHeader(entries: seq<GroupDirEntry>, start: U32)
    ensures Wrap32(Wrap32(start - SuffixSize(entries, 0)) + GroupSize(entries))
            == Wrap32(start + NEWHEADER_SIZE + RESDIR_SIZE * |entries|)
  {
    var a := start - SuffixSize(entries, 0);
    var b := NEWHEADER_SIZE + RESDIR_SIZE * |entries| + SuffixSize(entries, 0);
    Wrap32Add(a, Wrap32(b));
    Wrap32Add(b, a);
  }

  /** Member `i` of an icon group ends where member i + 1 starts, or, for
      the last one, where the GROUP_ICON data starts. */
  lemma IconEndsAtNext(entries: seq<GroupDirEntry>, start: U32, language: string, i: nat)
    requires i < |entries|
    ensures var icons := IconMembers(entries, start, language);
            Wrap32(icons[i].rva + RoundUpTo8ByteAlignment(icons[i].size))
            == if i + 1 < |icons| then icons[i + 1].rva else start
  {
    MemberEndsAtNext(entries, start, i);
  }

  /** The icons of a group lie back to back in the order of its entries,
      each taking its size rounded up to 8, and the last one ends where the
      GROUP_ICON data starts. */
  lemma IconsBackToBack(entries: seq<GroupDirEntry>, start: U32, language: string)
    ensures var icons := IconMembers(entries, start, language);
            && (forall i :: 0 <= i < |icons| - 1 ==>
                  Wrap32(icons[i].rva + RoundUpTo8ByteAlignment(icons[i].size)) == icons[i + 1].rva)
            && (|icons| > 0 ==> Wrap32(icons[|icons| - 1].rva + RoundUpTo8ByteAlignment(icons[|icons| - 1].size)) == start)
  {
    var icons := IconMembers(entries, start, language);
    forall i | 0 <= i < |icons| - 1
      ensures Wrap32(icons[i].rva + RoundUpTo8ByteAlignment(icons[i].size)) == icons[i + 1].rva
    {
      IconEndsAtNext(entries, start, language, i);
    }
    if |icons| > 0 {
      IconEndsAtNext(entries, start, language, |icons| - 1);
    }
  }

  lemma CursorEndsAtNext(entries: seq<GroupDirEntry>, start: U32, language: string, i: nat)
    requires i < |entries|
    ensures var cursors := CursorMembers(entries, start, language);
            Wrap32(cursors[i].rva + RoundUpTo8ByteAlignment(cursors[i].size))
            == if i + 1 < |cursors| then cursors[i + 1].rva else start
  {
    MemberEndsAtNext(entries, start, i);
  }

  /** The cursors of a group lie back to back in the same way. */
  lemma CursorsBackToBack(entries: seq<GroupDirEntry>, start: U32, language: string)
    ensures var cursors := CursorMembers(entries, start, language);
            && (forall i :: 0 <= i < |cursors| - 1 ==>
                  Wrap32(cursors[i].rva + RoundUpTo8ByteAlignment(cursors[i].size)) == cursors[i + 1].rva)
            && (|cursors| > 0 ==> Wrap32(cursors[|cursors| - 1].rva + RoundUpTo8ByteAlignment(cursors[|cursors| - 1].size)) == start)
  {
    var cursors := CursorMembers(entries, start, language);
    forall i | 0 <= i < |cursors| - 1
      ensures Wrap32(cursors[i].rva + RoundUpTo8ByteAlignment(cursors[i].size)) == cursors[i + 1].rva
    {
      CursorEndsAtNext(entries, start, language, i);
    }
    if |cursors| > 0 {
      CursorEndsAtNext(entries, start, language, |cursors| - 1);
    }
  }


  /** A GROUP_ICON symbol holds one icon per entry of the group header, and
      runs from its first icon to the end of its header's entries. */
  lemma IconGroupSpan(image: seq<Byte>, language: string, name: ResourceName, data: DataEntry)
    requires GroupIcon(image, language, name, data).Ok?
    ensures ReadGroupEntries(image, data.offsetToData).Ok?
    ensures var entries := ReadGroupEntries(image, data.offsetToData).value;
            var g := GroupIcon(image, language, name, data).value;
            && g.icons == IconMembers(entries, data.offsetToData, language)
            && (|entries| > 0 ==> g.rva == g.icons[0].rva)
            && (|entries| == 0 ==> g.rva == data.offsetToData)
            && Wrap32(g.rva + g.size) == Wrap32(data.offsetToData + NEWHEADER_SIZE + RESDIR_SIZE * |entries|)
  {
    var entries := ReadGroupEntries(image, data.offsetToData).value;
    GroupEndsAfterHeader(entries, data.offsetToData);
  }

  lemma CursorGroupSpan(image: seq<Byte>, language: string, name: ResourceName, data: DataEntry)
    requires GroupCursor(image, language, name, data).Ok?
    ensures ReadGroupEntries(image, data.offsetToData).Ok?
    ensures var entries := ReadGroupEntries(image, data.offsetToData).value;
            var g := GroupCursor(image, language, name, data).value;
            && g.cursors == CursorMembers(entries, data.offsetToData, language)
            && (|entries| > 0 ==> g.rva == g.cursors[0].rva)
            && (|entries| == 0 ==> g.rva == data.offsetToData)
            && Wrap32(g.rva + g.size) == Wrap32(data.offsetToData + NEWHEADER_SIZE + RESDIR_SIZE * |entries|)
  {
    var entries := ReadGroupEntries(image, data.offsetToData).value;
    GroupEndsAfterHeader(entries, data.offsetToData);
  }

  /** Two icons of 100 and 37 bytes, in that order, before a group at
      0x1000: the 37-byte icon takes the 40 bytes just below the group and
      the 100-byte icon the 104 bytes below that; a width or height byte of
      0 means 256. */
  lemma TwoIconExample()
    ensures var entries := [GroupDirEntry(0, 32, 32, 100, 1), GroupDirEntry(0x1010, 32, 32, 37, 2)];
            && IconOf(entries, 0, 0x1000, "") == IconSymbol(0xF70, 100, "", 1, 256, 256, 32)
            && IconOf(entries, 1, 0x1000, "") == IconSymbol(0xFD8, 37, "", 2, 16, 16, 32)
            && GroupSize(entries) == NEWHEADER_SIZE + 2 * RESDIR_SIZE + 104 + 40
  {
    var entries := [GroupDirEntry(0, 32, 32, 100, 1), GroupDirEntry(0x1010, 32, 32, 37, 2)];
    assert SuffixSize(entries, 1) == 40;
    assert SuffixSize(entries, 0) == 144;
    Wrap32Small(0x1000 - 144);
    Wrap32Small(0x1000 - 40);
  }

  // ------------------------------------------------------------------
  // STRINGTABLE layout
  // ------------------------------------------------------------------

  /** The bytes a STRINGTABLE block holding `ss` takes: a 2-byte length per
      string and 2 bytes per unit. */
  function BlockLength(ss: seq<seq<U16>>): nat {
    if ss == [] then 0 else 2 + 2 * |ss[0]| + BlockLength(ss[1..])
  }

  /** The block at `p` holds the strings `ss`, each as its u16 length and
      then its units; an empty string is a lone 0. */
  ghost predicate BlockHolds(image: seq<Byte>, p: nat, ss: seq<seq<U16>>)
    decreases |ss|
  {
    ss != [] ==>
      && InBounds(image, p, 2) && U16At(image, p) == |ss[0]|
      && InBounds(image, p + 2, 2 * |ss[0]|) && UnitsAt(image, p + 2, |ss[0]|) == ss[0]
      && BlockHolds(image, p + 2 + 2 * |ss[0]|, ss[1..])
  }

  /** The strings of `ss` that are not empty, in order. */
  function NonEmpty(ss: seq<seq<U16>>): seq<seq<U16>> {
    if ss == [] then [] else (if ss[0] == [] then [] else [ss[0]]) + NonEmpty(ss[1..])
  }

  /** CreateStringTableSymbol reads back the strings of a block: every
      non-empty string with exactly its units, and nothing for an empty
      one. */
  lemma {:induction false} DecodeBlock(image: seq<Byte>, p: nat, ss: seq<seq<U16>>)
    requires BlockHolds(image, p, ss)
    ensures DecodeStrings(image, p, p + BlockLength(ss)) == Ok(NonEmpty(ss))
    decreases |ss|
  {
    if ss != [] {
      var end := p + BlockLength(ss);
      var p' := p + 2 + 2 * |ss[0]|;
      assert end == p' + BlockLength(ss[1..]);
      DecodeBlock(image, p', ss[1..]);
      if ss[0] != [] {
        assert DecodeStrings(image, p, end) == Ok([ss[0]] + DecodeStrings(image, p', end).value);
      } else {
        assert DecodeStrings(image, p, end) == DecodeStrings(image, p', end);
        assert NonEmpty(ss) == [] + NonEmpty(ss[1..]) == NonEmpty(ss[1..]);
      }
    }
  }

  // ------------------------------------------------------------------
  // Grouping adjacent string tables
  // ------------------------------------------------------------------

  /** The test that lets a table join the current run: it starts at the
      previous table's end rounded up to 8, in the same language. */
  predicate Continues(prev: StringTable, next: StringTable) {
    RoundUpTo8ByteAlignment(prev.End()) == next.rva && prev.language == next.language
  }

  /** The grouping loop of ParseRsrcSymbols: from table `i` on, with the
      open run `current`.  A table that cannot join the run closes it, and
      is itself discarded with the old run's list; the table after it opens
      the next run. */
  function GroupAsWritten(tables: seq<StringTable>, i: nat, current: seq<StringTable>): seq<seq<StringTable>>
    requires i <= |tables|
    decreases |tables| - i
  {
    if i == |tables| then (if |current| > 0 then [current] else [])
    else if |current| == 0 || Continues(current[|current| - 1], tables[i]) then
      GroupAsWritten(tables, i + 1, current + [tables[i]])
    else [current] + GroupAsWritten(tables, i + 1, [])
  }

  /** The groups ParseRsrcSymbols forms from the string tables, taken in
      ascending RVA order. */
  function GroupStringTables(tables: seq<StringTable>): seq<seq<StringTable>> {
    GroupAsWritten(tables, 0, [])
  }

  function Flatten(groups: seq<seq<StringTable>>): seq<StringTable> {
    if groups == [] then [] else groups[0] + Flatten(groups[1..])
  }

  /** Consecutive members of `g` continue each other. */
  ghost predicate IsRun(g: seq<StringTable>) {
    forall k :: 0 <= k < |g| - 1 ==> Continues(g[k], g[k + 1])
  }

  /** Every group is a non-empty run. */
  ghost predicate Runs(groups: seq<seq<StringTable>>) {
    forall k :: 0 <= k < |groups| ==> |groups[k]| > 0 && IsRun(groups[k])
  }

  /** Non-empty runs, none of which could have been continued by the next. */
  ghost predicate MaximalRuns(groups: seq<seq<StringTable>>) {
    && Runs(groups)
    && (forall k :: 0 <= k < |groups| - 1 ==> !Continues(groups[k][|groups[k]| - 1], groups[k + 1][0]))
  }

  ghost predicate AscendingRvas(g: seq<StringTable>) {
    forall a, b :: 0 <= a < b < |g| ==> g[a].rva < g[b].rva
  }

  ghost predicate EachAscends(groups: seq<seq<StringTable>>) {
    forall k :: 0 <= k < |groups| ==> AscendingRvas(groups[k])
  }

  lemma RunExtends(current: seq<StringTable>, t: StringTable)
    requires IsRun(current)
    requires |current| == 0 || Continues(current[|current| - 1], t)
    ensures IsRun(current + [t])
  {
    var c := current + [t];
    forall k | 0 <= k < |c| - 1
      ensures Continues(c[k], c[k + 1])
    {
      if k < |current| - 1 {
        assert c[k] == current[k] && c[k + 1] == current[k + 1];
      }
    }
  }

  /** Groups whose concatenation ascends ascend one by one. */
  lemma {:induction false} FlattenAscends(groups: seq<seq<StringTable>>)
    requires AscendingRvas(Flatten(groups))
    ensures EachAscends(groups)
    decreases |groups|
  {
    if groups != [] {
      var f := Flatten(groups);
      var g := groups[0];
      var rest := groups[1..];
      assert f == g + Flatten(rest);
      forall a, b | 0 <= a < b < |g|
        ensures g[a].rva < g[b].rva
      {
        assert g[a] == f[a] && g[b] == f[b];
      }
      forall a, b | 0 <= a < b < |Flatten(rest)|
        ensures Flatten(rest)[a].rva < Flatten(rest)[b].rva
      {
        assert Flatten(rest)[a] == f[|g| + a] && Flatten(rest)[b] == f[|g| + b];
      }
      FlattenAscends(rest);
      forall k | 0 <= k < |groups|
        ensures AscendingRvas(groups[k])
      {
        if k > 0 {
          assert groups[k] == rest[k - 1];
        }
      }
    }
  }

  // ------------------------------------------------------------------
  // The grouping as written: which tables it keeps
  // ------------------------------------------------------------------

  /** Whether the loop discards table `i`: a run is open (the table before
      it was kept) and table `i` cannot continue it. */
  ghost predicate DroppedAt(tables: seq<StringTable>, i: nat)
    requires i < |tables|
    decreases i
  {
    i > 0 && !DroppedAt(tables, i - 1) && !Continues(tables[i - 1], tables[i])
  }

  /** The tables from `i` on that the loop does not discard, in order. */
  ghost function KeptFrom(tables: seq<StringTable>, i: nat): seq<StringTable>
    requires i <= |tables|
    decreases |tables| - i
  {
    if i == |tables| then []
    else (if DroppedAt(tables, i) then [] else [tables[i]]) + KeptFrom(tables, i + 1)
  }

  /** The loop's state before table `i`: `current` is a run, open exactly
      when the table before `i` was kept, and then ending with it. */
  ghost predicate OpenRun(tables: seq<StringTable>, i: nat, current: seq<StringTable>)
    requires i <= |tables|
  {
    && IsRun(current)
    && (|current| > 0 <==> 0 < i && !DroppedAt(tables, i - 1))
    && (|current| > 0 ==> current[|current| - 1] == tables[i - 1])
  }

  /** A table that can join the run is kept, and the run grows by it. */
  lemma RunContinues(tables: seq<StringTable>, i: nat, current: seq<StringTable>)
    requires i < |tables| && OpenRun(tables, i, current)
    requires |current| == 0 || Continues(current[|current| - 1], tables[i])
    ensures !DroppedAt(tables, i) && OpenRun(tables, i + 1, current + [tables[i]])
    ensures GroupAsWritten(tables, i, current) == GroupAsWritten(tables, i + 1, current + [tables[i]])
  {
    RunExtends(current, tables[i]);
  }

  /** A table that cannot join the open run closes it and is discarded. */
  lemma RunBreaks(tables: seq<StringTable>, i: nat, current: seq<StringTable>)
    requires i < |tables| && OpenRun(tables, i, current)
    requires |current| > 0 && !Continues(current[|current| - 1], tables[i])
    ensures DroppedAt(tables, i) && OpenRun(tables, i + 1, [])
    ensures GroupAsWritten(tables, i, current) == [current] + GroupAsWritten(tables, i + 1, [])
  {
  }

  /** From any loop state, the groups still to be closed are non-empty runs
      that hold the open run and then exactly the tables kept. */
  lemma {:induction false} GroupAsWrittenKeeps(tables: seq<StringTable>, i: nat, current: seq<StringTable>)
    requires i <= |tables| && OpenRun(tables, i, current)
    ensures var r := GroupAsWritten(tables, i, current);
            Flatten(r) == current + KeptFrom(tables, i) && Runs(r)
    decreases |tables| - i
  {
    if i == |tables| {
      if |current| > 0 {
        assert Flatten([current]) == current + Flatten([]);
      }
    } else {
      var t := tables[i];
      if |current| == 0 || Continues(current[|current| - 1], t) {
        RunContinues(tables, i, current);
        GroupAsWrittenKeeps(tables, i + 1, current + [t]);
        assert KeptFrom(tables, i) == [t] + KeptFrom(tables, i + 1);
      } else {
        RunBreaks(tables, i, current);
        GroupAsWrittenKeeps(tables, i + 1, []);
        var rest := GroupAsWritten(tables, i + 1, []);
        var r := [current] + rest;
        assert r[1..] == rest;
        assert KeptFrom(tables, i) == KeptFrom(tables, i + 1);
        forall k | 0 <= k < |r|
          ensures |r[k]| > 0 && IsRun(r[k])
        {
          if k > 0 {
            assert r[k] == rest[k - 1];
          }
        }
      }
    }
  }

  /** The kept tables of ascending tables ascend, and none lies below
      table `i`. */
  lemma {:induction false} KeptBelow(tables: seq<StringTable>, i: nat)
    requires i <= |tables| && AscendingRvas(tables)
    ensures AscendingRvas(KeptFrom(tables, i))
    ensures forall k :: 0 <= k < |KeptFrom(tables, i)| ==> i < |tables| && tables[i].rva <= KeptFrom(tables, i)[k].rva
    decreases |tables| - i
  {
    if i < |tables| {
      KeptBelow(tables, i + 1);
      var head := if DroppedAt(tables, i) then [] else [tables[i]];
      var rest := KeptFrom(tables, i + 1);
      var kf := KeptFrom(tables, i);
      assert kf == head + rest;
      forall k | 0 <= k < |rest|
        ensures tables[i].rva < rest[k].rva
      {
        assert tables[i].rva < tables[i + 1].rva;
      }
      forall a, b | 0 <= a < b < |kf|
        ensures kf[a].rva < kf[b].rva
      {
        if a < |head| {
          assert kf[b] == rest[b - |head|];
        } else {
          assert kf[a] == rest[a - |head|] && kf[b] == rest[b - |head|];
        }
      }
      forall k | 0 <= k < |kf|
        ensures tables[i].rva <= kf[k].rva
      {
        if k >= |head| {
          assert kf[k] == rest[k - |head|];
        }
      }
    }
  }

  /** Among ascending tables, table `j` is kept exactly when it is not
      discarded. */
  lemma {:induction false} KeptMembers(tables: seq<StringTable>, i: nat, j: nat)
    requires AscendingRvas(tables) && i <= j < |tables|
    ensures tables[j] in KeptFrom(tables, i) <==> !DroppedAt(tables, j)
    decreases j - i
  {
    var rest := KeptFrom(tables, i + 1);
    KeptBelow(tables, i + 1);
    assert KeptFrom(tables, i) == (if DroppedAt(tables, i) then [] else [tables[i]]) + rest;
    if i == j {
      forall k | 0 <= k < |rest|
        ensures rest[k] != tables[j]
      {
        assert tables[j].rva < tables[j + 1].rva <= rest[k].rva;
      }
    } else {
      assert tables[i].rva < tables[j].rva;
      KeptMembers(tables, i + 1, j);
    }
  }

  /** What ParseRsrcSymbols's grouping makes of any list of string tables:
      non-empty runs of adjacent same-language tables that hold, in order,
      exactly the tables the loop keeps; by ascending RVA, every group
      ascends, the groups follow one another, and a table is in a group
      exactly when the loop does not discard it. */
  lemma StringTableGrouping(tables: seq<StringTable>)
    ensures var groups := GroupStringTables(tables);
            && Runs(groups)
            && Flatten(groups) == KeptFrom(tables, 0)
            && (AscendingRvas(tables) ==>
                  && AscendingRvas(Flatten(groups)) && EachAscends(groups)
                  && forall j :: 0 <= j < |tables| ==> (tables[j] in Flatten(groups) <==> !DroppedAt(tables, j)))
  {
    GroupAsWrittenKeeps(tables, 0, []);
    if AscendingRvas(tables) {
      KeptBelow(tables, 0);
      FlattenAscends(GroupStringTables(tables));
      forall j | 0 <= j < |tables|
        ensures tables[j] in KeptFrom(tables, 0) <==> !DroppedAt(tables, j)
      {
        KeptMembers(tables, 0, j);
      }
    }
  }

  /** When every table continues the one before it, nothing is discarded
      and all of them form one group. */
  lemma {:induction false} AdjacentTablesOneGroup(tables: seq<StringTable>, i: nat, current: seq<StringTable>)
    requires i <= |tables| && OpenRun(tables, i, current) && (i == 0 <==> |current| == 0)
    requires forall j :: 0 < j < |tables| ==> Continues(tables[j - 1], tables[j])
    ensures GroupAsWritten(tables, i, current) == if |current + tables[i..]| > 0 then [current + tables[i..]] else []
    decreases |tables| - i
  {
    if i < |tables| {
      RunContinues(tables, i, current);
      AdjacentTablesOneGroup(tables, i + 1, current + [tables[i]]);
      assert current + [tables[i]] + tables[i + 1..] == current + tables[i..];
    } else {
      assert current + tables[i..] == current;
    }
  }

  lemma AdjacentTablesGrouped(tables: seq<StringTable>)
    requires forall j :: 0 < j < |tables| ==> Continues(tables[j - 1], tables[j])
    ensures GroupStringTables(tables) == if |tables| > 0 then [tables] else []
  {
    AdjacentTablesOneGroup(tables, 0, []);
    assert [] + tables[0..] == tables;
  }

  // ------------------------------------------------------------------
  // The grouping as intended
  // ------------------------------------------------------------------

  /** The grouping as intended: a table that cannot join the run closes it
      and opens the next one. */
  function GroupFrom(tables: seq<StringTable>, i: nat, current: seq<StringTable>): seq<seq<StringTable>>
    requires i <= |tables|
    decreases |tables| - i
  {
    if i == |tables| then (if |current| > 0 then [current] else [])
    else if |current| == 0 || Continues(current[|current| - 1], tables[i]) then
      GroupFrom(tables, i + 1, current + [tables[i]])
    else [current] + GroupFrom(tables, i + 1, [tables[i]])
  }

  /** Closing the run `current` before a run that starts with `t`. */
  lemma CloseRun(current: seq<StringTable>, t: StringTable, rest: seq<seq<StringTable>>)
    requires |current| > 0 && IsRun(current) && !Continues(current[|current| - 1], t)
    requires MaximalRuns(rest) && |rest| > 0 && |rest[0]| > 0 && rest[0][0] == t
    ensures MaximalRuns([current] + rest)
    ensures Flatten([current] + rest) == current + Flatten(rest)
  {
    var r := [current] + rest;
    assert r[1..] == rest;
    forall k | 0 <= k < |r|
      ensures |r[k]| > 0 && IsRun(r[k])
    {
      if k > 0 {
        assert r[k] == rest[k - 1];
      }
    }
    forall k | 0 <= k < |r| - 1
      ensures !Continues(r[k][|r[k]| - 1], r[k + 1][0])
    {
      if k > 0 {
        assert r[k] == rest[k - 1] && r[k + 1] == rest[k];
      }
    }
  }

  lemma {:induction false} GroupFromCorrect(tables: seq<StringTable>, i: nat, current: seq<StringTable>)
    requires i <= |tables|
    requires IsRun(current)
    ensures var r := GroupFrom(tables, i, current);
            && Flatten(r) == current + tables[i..]
            && MaximalRuns(r)
            && (|current| > 0 ==> |r| > 0 && |r[0]| > 0 && r[0][0] == current[0])
    decreases |tables| - i
  {
    if i == |tables| {
      if |current| > 0 {
        assert Flatten([current]) == current + Flatten([]);
      }
    } else {
      var t := tables[i];
      assert tables[i..] == [t] + tables[i + 1..];
      if |current| == 0 || Continues(current[|current| - 1], t) {
        RunExtends(current, t);
        GroupFromCorrect(tables, i + 1, current + [t]);
        assert GroupFrom(tables, i, current) == GroupFrom(tables, i + 1, current + [t]);
      } else {
        var rest := GroupFrom(tables, i + 1, [t]);
        GroupFromCorrect(tables, i + 1, [t]);
        CloseRun(current, t, rest);
        assert GroupFrom(tables, i, current) == [current] + rest;
      }
    }
  }

  /** As intended, every table is in exactly one group, in order, and the
      groups are the maximal runs of adjacent same-language tables. */
  lemma GroupingPartitions(tables: seq<StringTable>)
    ensures Flatten(GroupFrom(tables, 0, [])) == tables
    ensures MaximalRuns(GroupFrom(tables, 0, []))
    ensures AscendingRvas(tables) ==> EachAscends(GroupFrom(tables, 0, []))
  {
    GroupFromCorrect(tables, 0, []);
    assert [] + tables[0..] == tables;
    if AscendingRvas(tables) {
      FlattenAscends(GroupFrom(tables, 0, []));
    }
  }

  /** Tables at 0 and 64 do not adjoin, while the one at 80 follows the one
      at 64: as written, the table at 64 ends the first run and is lost with
      it, and the table at 80 is grouped alone; as intended, 64 and 80 form
      the second group. */
  lemma GroupAsWrittenDropsTable()
    ensures var a := StringTable(0, 16, "", UnknownResourceName, []);
            var b := StringTable(64, 16, "", UnknownResourceName, []);
            var c := StringTable(80, 16, "", UnknownResourceName, []);
            && GroupStringTables([a, b, c]) == [[a], [c]]
            && GroupFrom([a, b, c], 0, []) == [[a], [b, c]]
  {
    var a := StringTable(0, 16, "", UnknownResourceName, []);
    var b := StringTable(64, 16, "", UnknownResourceName, []);
    var c := StringTable(80, 16, "", UnknownResourceName, []);
    Wrap32Small(16);
    Wrap32Small(80);
    assert a.End() == 16 && b.End() == 80;
    assert !Continues(a, b) && Continues(b, c);
    var ts := [a, b, c];
    assert [] + [ts[2]] == [c] && [] + [ts[0]] == [a] && [b] + [ts[2]] == [b, c];
    assert GroupAsWritten(ts, 3, [c]) == [[c]];
    assert GroupAsWritten(ts, 2, []) == GroupAsWritten(ts, 3, [c]);
    assert GroupAsWritten(ts, 1, [a]) == [[a]] + GroupAsWritten(ts, 2, []);
    assert GroupAsWritten(ts, 0, []) == GroupAsWritten(ts, 1, [a]);
    assert GroupFrom(ts, 3, [b, c]) == [[b, c]];
    assert GroupFrom(ts, 2, [b]) == GroupFrom(ts, 3, [b, c]);
    assert GroupFrom(ts, 1, [a]) == [[a]] + GroupFrom(ts, 2, [b]);
    assert GroupFrom(ts, 0, []) == GroupFrom(ts, 1, [a]);
  }

  // ------------------------------------------------------------------
  // The group symbols
  // ------------------------------------------------------------------

  /** The RVAs the groups are recorded under: each group's first table's. */
  ghost function FirstRvas(groups: seq<seq<StringTable>>): set<U32>
    requires Runs(groups)
  {
    set k | 0 <= k < |groups| :: groups[k][0].rva
  }

  /** Each closed group is added to `RsrcSymbols` under its first table's
      RVA. */
  function AddGroups(symbols: map<U32, RsrcSymbol>, groups: seq<seq<StringTable>>): (r: Result<map<U32, RsrcSymbol>, Error>)
    requires forall k :: 0 <= k < |groups| ==> |groups[k]| > 0
    ensures r.Ok? ==> Extends(symbols, r.value)
    ensures r.Ok? ==> forall k :: 0 <= k < |groups| ==>
      groups[k][0].rva in r.value && r.value[groups[k][0].rva] == GroupStringTablesSymbol(groups[k][0].rva, groups[k])
    decreases |groups|
  {
    if groups == [] then Ok(symbols)
    else
      var g := groups[0];
      var s1 :- Add(symbols, g[0].rva, GroupStringTablesSymbol(g[0].rva, g));
      var r :- AddGroups(s1, groups[1..]);
      assert forall k :: 1 <= k < |groups| ==> groups[k] == groups[1..][k - 1];
      Ok(r)
  }

  /** The group symbols are the only keys AddGroups adds. */
  lemma {:induction false} AddGroupsKeys(symbols: map<U32, RsrcSymbol>, groups: seq<seq<StringTable>>)
    requires Runs(groups)
    requires AddGroups(symbols, groups).Ok?
    ensures AddGroups(symbols, groups).value.Keys == symbols.Keys + FirstRvas(groups)
    decreases |groups|
  {
    if groups != [] {
      var g := groups[0];
      var s1 := Add(symbols, g[0].rva, GroupStringTablesSymbol(g[0].rva, g)).value;
      FirstRvasSplit(groups);
      AddGroupsKeys(s1, groups[1..]);
      assert AddGroups(symbols, groups) == AddGroups(s1, groups[1..]);
    }
  }

  /** The first RVAs of the groups are the first group's and the rest's. */
  lemma FirstRvasSplit(groups: seq<seq<StringTable>>)
    requires Runs(groups) && groups != []
    ensures Runs(groups[1..])
    ensures FirstRvas(groups) == {groups[0][0].rva} + FirstRvas(groups[1..])
  {
    var rest := groups[1..];
    assert Runs(rest) by {
      forall k | 0 <= k < |rest|
        ensures |rest[k]| > 0 && IsRun(rest[k])
      {
        assert rest[k] == groups[k + 1];
      }
    }
    forall x
      ensures x in FirstRvas(groups) <==> x == groups[0][0].rva || x in FirstRvas(rest)
    {
      if x in FirstRvas(groups) {
        var k :| 0 <= k < |groups| && groups[k][0].rva == x;
        if k > 0 {
          assert rest[k - 1] == groups[k];
        }
      }
      if x in FirstRvas(rest) {
        var k :| 0 <= k < |rest| && rest[k][0].rva == x;
        assert groups[k + 1] == rest[k];
      }
    }
  }

  /** Enumerating the string tables in key order visits them by ascending
      RVA, since each is keyed by its own RVA. */
  lemma InKeyOrderAscends(tables: map<U32, StringTable>)
    requires KeyedByRva(tables)
    ensures AscendingRvas(InKeyOrder(tables))
  {
    var ks := SortedSet(tables.Keys);
    var vs := InKeyOrder(tables);
    forall a, b | 0 <= a < b < |vs|
      ensures vs[a].rva < vs[b].rva
    {
      assert ks[a] in tables.Keys && ks[b] in tables.Keys;
      assert vs[a] == tables[ks[a]] && vs[b] == tables[ks[b]];
    }
  }

  /** One group symbol per group of adjacent string tables. */
  function AddStringTableGroups(symbols: map<U32, RsrcSymbol>, tables: seq<StringTable>): (r: Result<map<U32, RsrcSymbol>, Error>)
    ensures r.Ok? ==> Extends(symbols, r.value)
  {
    StringTableGrouping(tables);
    AddGroups(symbols, GroupStringTables(tables))
  }

  /** ParseRsrcSymbols: nothing when the section is absent; otherwise the
      walk from its root, then one group symbol per group of adjacent
      string tables, in ascending RVA order. */
  function ParseRsrcSymbols(image: seq<Byte>, rsrcStart: U32, cultures: map<U16, string>, symbols: map<U32, RsrcSymbol>)
    : (r: Result<map<U32, RsrcSymbol>, Error>)
    ensures rsrcStart == 0 ==> r == Ok(symbols)
    ensures r.Ok? ==> Extends(symbols, r.value)
  {
    if rsrcStart == 0 then Ok(symbols)
    else
      var st :- WalkDirectory(Walker(image, rsrcStart, cultures), rsrcStart, 0, None, None, RsrcState(symbols, map[]));
      AddStringTableGroups(st.symbols, InKeyOrder(st.tables))
  }

  /** After ParseRsrcSymbols the string tables the walk found, by ascending
      RVA, are grouped into non-empty runs of adjacent same-language tables,
      each ascending and each recorded as a symbol at its first table's RVA;
      a table is in a group exactly when the loop does not discard it. */
  lemma StringTablesGrouped(image: seq<Byte>, rsrcStart: U32, cultures: map<U16, string>, symbols: map<U32, RsrcSymbol>)
    requires rsrcStart != 0
    requires ParseRsrcSymbols(image, rsrcStart, cultures, symbols).Ok?
    ensures var st := WalkDirectory(Walker(image, rsrcStart, cultures), rsrcStart, 0, None, None, RsrcState(symbols, map[]));
            && st.Ok?
            && var tables := InKeyOrder(st.value.tables);
               var groups := GroupStringTables(tables);
               var r := ParseRsrcSymbols(image, rsrcStart, cultures, symbols).value;
               && |tables| == |st.value.tables.Keys|
               && AscendingRvas(tables)
               && Runs(groups)
               && EachAscends(groups)
               && AscendingRvas(Flatten(groups))
               && (forall j :: 0 <= j < |tables| ==> (tables[j] in Flatten(groups) <==> !DroppedAt(tables, j)))
               && forall k :: 0 <= k < |groups| ==>
                    groups[k][0].rva in r && r[groups[k][0].rva] == GroupStringTablesSymbol(groups[k][0].rva, groups[k])
  {
    var st := WalkDirectory(Walker(image, rsrcStart, cultures), rsrcStart, 0, None, None, RsrcState(symbols, map[])).value;
    assert KeyedByRva(map[]);
    InKeyOrderAscends(st.tables);
    StringTableGrouping(InKeyOrder(st.tables));
  }

  /** The keys ParseRsrcSymbols adds: those of the walk from the section's
      root at depth 0, then one group symbol at the first RVA of each group
      of string tables. */
  lemma RsrcSymbolKeys(image: seq<Byte>, rsrcStart: U32, cultures: map<U16, string>, symbols: map<U32, RsrcSymbol>)
    requires rsrcStart != 0
    requires ParseRsrcSymbols(image, rsrcStart, cultures, symbols).Ok?
    ensures var w := Walker(image, rsrcStart, cultures);
            var st := WalkDirectory(w, rsrcStart, 0, None, None, RsrcState(symbols, map[]));
            && st.Ok?
            && var groups := GroupStringTables(InKeyOrder(st.value.tables));
               && Runs(groups)
               && forall k :: k in ParseRsrcSymbols(image, rsrcStart, cultures, symbols).value <==>
                    k in symbols || DirectoryKey(w, rsrcStart, 0, None, None, k) || k in FirstRvas(groups)
  {
    var w := Walker(image, rsrcStart, cultures);
    var st := WalkDirectory(w, rsrcStart, 0, None, None, RsrcState(symbols, map[])).value;
    var groups := GroupStringTables(InKeyOrder(st.tables));
    WalkDirectoryKeys(w, rsrcStart, 0, None, None, RsrcState(symbols, map[]));
    StringTableGrouping(InKeyOrder(st.tables));
    AddGroupsKeys(st.symbols, groups);
  }
}
