/** The PEFile class: the state the constructor of PEFile fills in from a
    loaded image, and the walks that fill it, written as the loops they are.

    Each walk is proved against the recursive function of its module: the
    loop invariant says that what the function would still compute from the
    current cursor and inventory is what it computes from the start, so that
    on leaving the loop the inventory is the function's result, and a read
    or an insertion that fails returns the function's error.  The
    properties of the walks are stated and proved about those functions. */
module PE {
  import opened Results
  import opened Bytes
  import opened IntSets
  import opened Inventory
  import opened Headers
  import opened PESymbols
  import opened Imports
  import opened DebugDir
  import opened Resources
  import opened Ranges
  import opened GroupWalks

  /** The outcome of a step that can fail: `None` when it completed, and the
      error otherwise.  `Outcome` relates it to the function's result. */
  ghost predicate Outcome<T>(err: Option<Error>, value: T, spec: Result<T, Error>) {
    if err.None? then spec == Ok(value) else spec == Err(err.value)
  }

  /** A nonempty import table is walked from its first descriptor up to
      VirtualAddress + Size. */
  lemma ImportTableWalk(image: Image, ws: nat, importTable: DataDirectory, syms: Symbols)
    requires WordSize(ws) && importTable.size != 0
    ensures Imports.ParseImportTable(image, ws, importTable, syms)
            == DescriptorsFrom(image, ws, importTable.virtualAddress,
                               Wrap32(importTable.virtualAddress + importTable.size), syms)
  {
  }

  /** The descriptor loop from the pointer `at`, an offset from the image
      base that does not wrap: the walk from the descriptor there while `at`
      is below 2^32, and `PastImage` beyond. */
  ghost function DescriptorsAt(image: Image, ws: nat, at: int, end: U32, syms: Symbols): Result<Symbols, Error>
    requires WordSize(ws) && at >= 0
  {
    if at < TWO_32 then DescriptorsFrom(image, ws, at, end, syms) else PastImage(image, at, end, syms)
  }

  /** A descriptor whose Name can be read lies below 2^32, where the
      pointer and the uint RVA agree. */
  lemma DescriptorInImage(image: Image, ws: nat, at: int, end: U32, syms: Symbols)
    requires WordSize(ws) && at >= 0 && InBounds(image, at + NAME_OFFSET, 4)
    ensures at < TWO_32 && Wrap32(at) == at
    ensures DescriptorsAt(image, ws, at, end, syms) == DescriptorsFrom(image, ws, at, end, syms)
  {
    Wrap32Small(at);
  }

  /** The loop test fails on the wrapped RVA: the walk has ended. */
  lemma DescriptorsDoneAt(image: Image, ws: nat, at: int, end: U32, syms: Symbols)
    requires WordSize(ws) && at >= 0 && Wrap32(at) >= end
    ensures DescriptorsAt(image, ws, at, end, syms) == Ok(syms)
  {
    if at < TWO_32 {
      Wrap32Small(at);
    }
  }

  /** The loop test passes and Name cannot be read through the pointer:
      the walk fails with that read's error. */
  lemma DescriptorUnreadableAt(image: Image, ws: nat, at: int, end: U32, syms: Symbols)
    requires WordSize(ws) && at >= 0 && Wrap32(at) < end && ReadU32(image, at + NAME_OFFSET).Err?
    ensures DescriptorsAt(image, ws, at, end, syms) == Err(ReadU32(image, at + NAME_OFFSET).error)
  {
    if at < TWO_32 {
      Wrap32Small(at);
      DescriptorUnreadable(image, ws, at, end, syms);
    }
  }

  /** The descriptor loop ends at the end of the import table. */
  lemma DescriptorsDone(image: Image, ws: nat, rva: U32, end: U32, syms: Symbols)
    requires WordSize(ws) && rva >= end
    ensures DescriptorsFrom(image, ws, rva, end, syms) == Ok(syms)
  {
  }

  /** The descriptor loop at a descriptor whose Name cannot be read. */
  lemma DescriptorUnreadable(image: Image, ws: nat, rva: U32, end: U32, syms: Symbols)
    requires WordSize(ws) && rva < end && !InBounds(image, rva + NAME_OFFSET, 4)
    ensures DescriptorsFrom(image, ws, rva, end, syms) == Err(OutOfRange(rva + NAME_OFFSET, 4))
  {
  }

  /** A descriptor with Name 0 or OriginalFirstThunk 0 ends the walk as the
      null terminator. */
  lemma DescriptorEndsWalk(image: Image, ws: nat, rva: U32, end: U32, syms: Symbols)
    requires WordSize(ws) && rva < end && InBounds(image, rva + NAME_OFFSET, 4) && !LiveDescriptorAt(image, rva)
    ensures DescriptorsFrom(image, ws, rva, end, syms) == Add(syms, rva, ImportDescriptorSymbol(rva, NULL_TERMINATOR_NAME))
  {
  }

  /** A live descriptor: its record, then the walk from the descriptor
      20 bytes further on, read there while that is below 2^32 and past the
      end of the address space otherwise. */
  lemma LiveDescriptorIs(image: Image, ws: nat, rva: U32, end: U32, syms: Symbols)
    requires WordSize(ws) && rva < end && LiveDescriptorAt(image, rva)
    ensures var after := DescriptorSteps(image, ws, rva, U32At(image, rva + NAME_OFFSET),
                                         U32At(image, rva + ORIGINAL_FIRST_THUNK_OFFSET), syms);
            DescriptorsFrom(image, ws, rva, end, syms)
            == if after.Err? then Err(after.error)
               else DescriptorsAt(image, ws, rva + IMAGE_IMPORT_DESCRIPTOR_SIZE, end, after.value)
  {
    LiveDescriptorUnfolds(image, ws, rva, end, syms);
    RecordDescriptorUnfolds(image, ws, rva, U32At(image, rva + NAME_OFFSET),
                            U32At(image, rva + ORIGINAL_FIRST_THUNK_OFFSET), syms);
  }

  /** A thunk that cannot be read ends the thunk loop with that error. */
  lemma ThunkUnreadable(image: Image, ws: nat, moduleName: string, rva: U32, syms: Symbols)
    requires WordSize(ws) && ReadThunk(image, ws, rva).Err?
    ensures ThunksFrom(image, ws, moduleName, rva, syms) == Err(ReadThunk(image, ws, rva).error)
  {
  }

  /** A zero ordinal is the chain's null terminator, recorded as the last
      thunk. */
  lemma ThunkEndsChain(image: Image, ws: nat, moduleName: string, rva: U32, syms: Symbols, thunk: U64)
    requires WordSize(ws) && ReadThunk(image, ws, rva) == Ok(thunk) && thunk % TWO_16 == 0
    ensures ThunksFrom(image, ws, moduleName, rva, syms)
            == Add(syms, rva, ImportThunkSymbol(rva, ws, 0, moduleName, Some(NULL_TERMINATOR_NAME)))
  {
  }

  /** Any other thunk is recorded; a failure ends the loop, otherwise the
      walk goes on at the next word, which starts inside the image. */
  lemma ThunkWalkGoesOn(image: Image, ws: nat, moduleName: string, rva: U32, syms: Symbols, thunk: U64,
                       err: Option<Error>, s1: Symbols)
    requires WordSize(ws) && ReadThunk(image, ws, rva) == Ok(thunk) && thunk % TWO_16 != 0
    requires Outcome(err, s1, RecordThunk(image, ws, moduleName, rva, thunk, syms))
    ensures rva + ws <= |image| && Wrap32(rva + ws) == rva + ws
    ensures err.Some? ==> ThunksFrom(image, ws, moduleName, rva, syms) == Err(err.value)
    ensures err.None? ==> ThunksFrom(image, ws, moduleName, rva, syms) == ThunksFrom(image, ws, moduleName, Wrap32(rva + ws), s1)
  {
    Wrap32Small(rva + ws);
  }

  /** A debug record that cannot be read ends the record loop. */
  lemma DebugRecordUnreadable(image: Image, va: nat, count: nat, acc: DebugWalk)
    requires |acc.records| < count
    requires ReadDebugRecord(image, va + IMAGE_DEBUG_DIRECTORY_SIZE * |acc.records|).Err?
    ensures WalkDebugRecords(image, va, count, acc)
            == Err(ReadDebugRecord(image, va + IMAGE_DEBUG_DIRECTORY_SIZE * |acc.records|).error)
  {
  }

  /** A record that is read is handed to RecordStep: its failure ends the
      loop, otherwise the loop goes on from the new state. */
  lemma DebugRecordTaken(image: Image, va: nat, count: nat, acc: DebugWalk, rec: DebugRecord,
                         err: Option<Error>, acc': DebugWalk)
    requires |acc.records| < count
    requires ReadDebugRecord(image, va + IMAGE_DEBUG_DIRECTORY_SIZE * |acc.records|) == Ok(rec)
    requires Outcome(err, acc', RecordStep(acc, rec))
    ensures err.Some? ==> WalkDebugRecords(image, va, count, acc) == Err(err.value)
    ensures err.None? ==> |acc'.records| == |acc.records| + 1
                          && WalkDebugRecords(image, va, count, acc) == WalkDebugRecords(image, va, count, acc')
  {
  }

  /** One non-empty string of a STRINGTABLE block moves from what is left
      to decode onto the strings read so far. */
  lemma StringTableStep(image: Image, p: nat, end: nat, strings: seq<seq<U16>>)
    requires p < end && InBounds(image, p, 2) && U16At(image, p) != 0
    requires InBounds(image, p + 2, 2 * U16At(image, p))
    ensures var n: nat := U16At(image, p);
            Preceded(strings, DecodeStrings(image, p, end))
            == Preceded(strings + [UnitsAt(image, p + 2, n)], DecodeStrings(image, p + 2 + 2 * n, end))
  {
    var n: nat := U16At(image, p);
    var rest := DecodeStrings(image, p + 2 + 2 * n, end);
    if rest.Ok? {
      assert strings + ([UnitsAt(image, p + 2, n)] + rest.value) == strings + [UnitsAt(image, p + 2, n)] + rest.value;
    }
  }

  /** An entry whose name cannot be read stops the walk there. */
  lemma EntryNameUnreadable(w: Walker, depth: nat, entry: DirectoryEntry, index: nat, depth0: Option<DirectoryEntry>,
                            depth1: Option<DirectoryEntry>, info: DirectoryInfo, st: RsrcState)
    requires depth <= MAX_DEPTH
    requires entry.IsNamedEntry() && ReadPrefixedString(w.image, w.rsrcStart + entry.NameOffset()).Err?
    ensures EntryStep(w, depth, entry, index, depth0, depth1, info, st)
            == Err(ReadPrefixedString(w.image, w.rsrcStart + entry.NameOffset()).error)
  {
  }

  /** Past its name, a subdirectory entry is the walk of its subdirectory,
      with the entry as the context of its level. */
  lemma EntryDescends(w: Walker, depth: nat, entry: DirectoryEntry, index: nat, depth0: Option<DirectoryEntry>,
                      depth1: Option<DirectoryEntry>, info: DirectoryInfo, st: RsrcState, symbols: map<U32, RsrcSymbol>,
                      err: Option<Error>, st': RsrcState)
    requires depth <= MAX_DEPTH && entry.DataIsDirectory()
    requires RecordEntryName(w, entry, st.symbols) == Ok(symbols)
    requires Outcome(err, st', WalkDirectory(w, Wrap32(w.rsrcStart + entry.OffsetToDirectory()), depth + 1,
                                             NextDepth0(depth, entry, depth0), NextDepth1(depth, entry, depth1), RsrcState(symbols, st.tables)))
    ensures Outcome(err, st', EntryStep(w, depth, entry, index, depth0, depth1, info, st))
  {
  }

  /** Past its name, any other entry is a leaf. */
  lemma EntryIsLeaf(w: Walker, depth: nat, entry: DirectoryEntry, index: nat, depth0: Option<DirectoryEntry>,
                    depth1: Option<DirectoryEntry>, info: DirectoryInfo, st: RsrcState, symbols: map<U32, RsrcSymbol>)
    requires depth <= MAX_DEPTH && !entry.DataIsDirectory()
    requires RecordEntryName(w, entry, st.symbols) == Ok(symbols)
    ensures EntryStep(w, depth, entry, index, depth0, depth1, info, st) == RecordLeaf(w, depth, entry, index, info, RsrcState(symbols, st.tables))
  {
  }

  /** A directory that does not open ends the walk with that error; one
      that opens is walked entry by entry from just after its header. */
  lemma DirectoryOpens(w: Walker, rva: U32, depth: nat, depth0: Option<DirectoryEntry>, depth1: Option<DirectoryEntry>,
                       st: RsrcState, err: Option<Error>, n: nat, info: DirectoryInfo, current: RsrcState)
    requires depth <= MAX_DEPTH
    requires Outcome(err, (n, info, current), OpenDirectory(w, rva, depth, depth0, depth1, st))
    ensures err.Some? ==> WalkDirectory(w, rva, depth, depth0, depth1, st) == Err(err.value)
    ensures err.None? ==> WalkDirectory(w, rva, depth, depth0, depth1, st)
                          == WalkEntries(w, depth, 0, n, Wrap32(rva + RESOURCE_DIRECTORY_SIZE), depth0, depth1, info, current)
  {
  }

  /** Past the walk from the root, ParseRsrcSymbols is the grouping of the
      string tables found. */
  lemma RsrcSectionWalked(image: Image, rsrcStart: U32, cultures: map<U16, string>, symbols: map<U32, RsrcSymbol>,
                          err: Option<Error>, st: RsrcState)
    requires rsrcStart != 0
    requires Outcome(err, st, WalkDirectory(Walker(image, rsrcStart, cultures), rsrcStart, 0, None, None, RsrcState(symbols, map[])))
    ensures err.Some? ==> Resources.ParseRsrcSymbols(image, rsrcStart, cultures, symbols) == Err(err.value)
    ensures err.None? ==> Resources.ParseRsrcSymbols(image, rsrcStart, cultures, symbols)
                          == AddStringTableGroups(st.symbols, InKeyOrder(st.tables))
  {
  }

  /** One turn of the entry loop: an entry that fails ends the walk with its
      error, one that succeeds hands its state to the next entry. */
  lemma EntriesAdvance(w: Walker, depth: nat, i: nat, n: nat, entryRva: U32, depth0: Option<DirectoryEntry>,
                       depth1: Option<DirectoryEntry>, info: DirectoryInfo, st: RsrcState, entry: DirectoryEntry,
                       err: Option<Error>, st': RsrcState)
    requires depth <= MAX_DEPTH && i < n
    requires ReadDirectoryEntry(w.image, entryRva) == Ok(entry)
    requires Outcome(err, st', EntryStep(w, depth, entry, i, depth0, depth1, info, st))
    ensures err.Some? ==> WalkEntries(w, depth, i, n, entryRva, depth0, depth1, info, st) == Err(err.value)
    ensures err.None? ==> WalkEntries(w, depth, i, n, entryRva, depth0, depth1, info, st)
                          == WalkEntries(w, depth, i + 1, n, Wrap32(entryRva + RESOURCE_DIRECTORY_ENTRY_SIZE),
                                         NextDepth0(depth, entry, depth0), NextDepth1(depth, entry, depth1), info, st')
  {
  }

  lemma EntriesDone(w: Walker, depth: nat, n: nat, entryRva: U32, depth0: Option<DirectoryEntry>,
                    depth1: Option<DirectoryEntry>, info: DirectoryInfo, st: RsrcState)
    requires depth <= MAX_DEPTH
    ensures WalkEntries(w, depth, n, n, entryRva, depth0, depth1, info, st) == Ok(st)
  {
  }

  /** The first of the groups is added first. */
  lemma FirstGroupAdded(symbols: map<U32, RsrcSymbol>, groups: seq<seq<StringTable>>)
    requires groups != [] && forall k :: 0 <= k < |groups| ==> |groups[k]| > 0
    ensures var g := groups[0];
            AddGroups(symbols, groups)
            == match Add(symbols, g[0].rva, GroupStringTablesSymbol(g[0].rva, g))
               case Err(e) => Err(e)
               case Ok(s1) => AddGroups(s1, groups[1..])
  {
  }

  // ------------------------------------------------------------------
  // The constructor as a whole
  // ------------------------------------------------------------------

  /** What a successfully constructed PEFile holds. */
  datatype Loaded = Loaded(
    headers: Headers,
    otherSymbols: map<U32, PESymbol>,
    rsrcSymbols: map<U32, RsrcSymbol>,
    debugDirectories: seq<DebugRecord>,
    debugSignature: DebugSignature,
    otherSymbolRanges: seq<RvaRange>)

  /** The constructor's parse, in its order: the headers, the import table,
      the resources, the base relocation directory, the debug directory,
      then the ranges of the collected symbols.  The first failure
      abandons the parse. */
  function LoadImage(image: Image, cultures: map<U16, string>, debugDirectoryFound: bool): (r: Result<Loaded, Error>)
    ensures ReadHeaders(image).Err? ==> r == Err(ReadHeaders(image).error)
    ensures r.Ok? ==> ReadHeaders(image) == Ok(r.value.headers)
    ensures r.Ok? ==> r.value.otherSymbolRanges == SymbolRanges(r.value.otherSymbols)
  {
    var h :- ReadHeaders(image);
    var imported :- Imports.ParseImportTable(image, h.bytesPerWord, h.importTable, map[]);
    var rsrc :- Resources.ParseRsrcSymbols(image, h.resourceTable.virtualAddress, cultures, map[]);
    var relocated :- AddDirectorySymbolIfPresent(imported, h.baseRelocationTable, "Base Relocation Table");
    var debug :- DebugDir.ParseDebugDirectory(image, h.debug, debugDirectoryFound,
                                              DebugDirectoryState(relocated, [], DefaultSignature()));
    Ok(Loaded(h, debug.symbols, rsrc, debug.records, debug.signature, SymbolRanges(debug.symbols)))
  }

  /** A constructed PEFile keeps every symbol of the import walk and holds
      the Base Relocation Table and Debug directory symbols of the present
      directories. */
  lemma LoadedInventory(image: Image, cultures: map<U16, string>, debugDirectoryFound: bool)
    requires LoadImage(image, cultures, debugDirectoryFound).Ok?
    ensures var l := LoadImage(image, cultures, debugDirectoryFound).value;
            && Imports.ParseImportTable(image, l.headers.bytesPerWord, l.headers.importTable, map[]).Ok?
            && Extends(Imports.ParseImportTable(image, l.headers.bytesPerWord, l.headers.importTable, map[]).value,
                       l.otherSymbols)
    ensures var l := LoadImage(image, cultures, debugDirectoryFound).value;
            DirectoryRecorded(l.otherSymbols, l.headers.baseRelocationTable, "Base Relocation Table")
    ensures var l := LoadImage(image, cultures, debugDirectoryFound).value;
            DirectoryRecorded(l.otherSymbols, l.headers.debug, "Debug")
  {
    var h := ReadHeaders(image).value;
    var imported := Imports.ParseImportTable(image, h.bytesPerWord, h.importTable, map[]).value;
    var relocated := AddDirectorySymbolIfPresent(imported, h.baseRelocationTable, "Base Relocation Table").value;
    var debug := DebugDir.ParseDebugDirectory(image, h.debug, debugDirectoryFound,
                                              DebugDirectoryState(relocated, [], DefaultSignature())).value;
    assert LoadImage(image, cultures, debugDirectoryFound).value.otherSymbols == debug.symbols;
    DebugDirectoryKeepsSymbols(image, h.debug, debugDirectoryFound, DebugDirectoryState(relocated, [], DefaultSignature()));
    ExtendsTransitive(imported, relocated, debug.symbols);
    assert DirectoryRecorded(relocated, h.baseRelocationTable, "Base Relocation Table");
  }

  /** The directory symbol `name` of a present directory is in `symbols`. */
  ghost predicate DirectoryRecorded(symbols: map<U32, PESymbol>, directory: DataDirectory, name: string) {
    directory.virtualAddress != 0 ==>
      && directory.virtualAddress in symbols
      && symbols[directory.virtualAddress]
         == PEDirectorySymbol(directory.virtualAddress, directory.size, Label(DirectoryLabel(name)))
  }

  /** The debug walk starts by adding the Debug directory symbol and then
      only adds more. */
  lemma DebugDirectoryKeepsSymbols(image: Image, debug: DataDirectory, found: bool, st: DebugDirectoryState)
    requires DebugDir.ParseDebugDirectory(image, debug, found, st).Ok?
    ensures AddDirectorySymbolIfPresent(st.symbols, debug, "Debug").Ok?
    ensures var r := DebugDir.ParseDebugDirectory(image, debug, found, st).value;
            && Extends(AddDirectorySymbolIfPresent(st.symbols, debug, "Debug").value, r.symbols)
            && DirectoryRecorded(r.symbols, debug, "Debug")
  {
    var withDebug := AddDirectorySymbolIfPresent(st.symbols, debug, "Debug").value;
    assert DirectoryRecorded(withDebug, debug, "Debug");
  }

  class PEFile {
    /** The image as the loader laid it out, indexed by RVA. */
    const image: Image
    /** The display names CultureInfo gives language IDs (absent: not found). */
    const cultures: map<U16, string>
    /** Whether ImageDirectoryEntryToDataEx finds a debug directory. */
    const debugDirectoryFound: bool

    var headers: Option<Headers>
    var otherSymbols: map<U32, PESymbol>
    var rsrcSymbols: map<U32, RsrcSymbol>
    var debugDirectories: seq<DebugRecord>
    var debugSignature: DebugSignature
    /** The ranges handed to RVARangeSet for OtherPESymbolsRVARanges. */
    var otherSymbolRanges: seq<RvaRange>

    /** The field initialisers: empty inventories, no debug records and the
        default signature. */
    constructor(image: Image, cultures: map<U16, string>, debugDirectoryFound: bool)
      ensures this.image == image && this.cultures == cultures && this.debugDirectoryFound == debugDirectoryFound
      ensures headers == None && otherSymbols == map[] && rsrcSymbols == map[]
      ensures debugDirectories == [] && debugSignature == DefaultSignature() && otherSymbolRanges == []
    {
      this.image := image;
      this.cultures := cultures;
      this.debugDirectoryFound := debugDirectoryFound;
      headers := None;
      otherSymbols := map[];
      rsrcSymbols := map[];
      debugDirectories := [];
      debugSignature := DefaultSignature();
      otherSymbolRanges := [];
    }

    function BytesPerWord(): nat
      reads this
      requires headers.Some?
    {
      headers.value.bytesPerWord
    }

    /** The header decisions of the constructor. */
    method LoadHeaders() returns (err: Option<Error>)
      modifies this
      ensures otherSymbolRanges == old(otherSymbolRanges)
      ensures err.None? <==> ReadHeaders(image).Ok?
      ensures err.None? ==> headers == Some(ReadHeaders(image).value)
      ensures err.Some? ==> ReadHeaders(image) == Err(err.value)
      ensures otherSymbols == old(otherSymbols) && rsrcSymbols == old(rsrcSymbols)
      ensures debugDirectories == old(debugDirectories) && debugSignature == old(debugSignature)
    {
      var h := ReadHeaders(image);
      if h.Err? {
        return Some(h.error);
      }
      headers := Some(h.value);
      return None;
    }

    /** AddDirectorySymbolIfPresent. */
    method AddDirectorySymbol(directory: DataDirectory, name: string) returns (err: Option<Error>)
      modifies this
      ensures otherSymbolRanges == old(otherSymbolRanges)
      ensures Outcome(err, otherSymbols, PESymbols.AddDirectorySymbolIfPresent(old(otherSymbols), directory, name))
      ensures headers == old(headers) && rsrcSymbols == old(rsrcSymbols)
      ensures debugDirectories == old(debugDirectories) && debugSignature == old(debugSignature)
    {
      if directory.virtualAddress != 0 {
        var added := Add(otherSymbols, directory.virtualAddress,
                         PEDirectorySymbol(directory.virtualAddress, directory.size, Label(DirectoryLabel(name))));
        if added.Err? {
          return Some(added.error);
        }
        otherSymbols := added.value;
      }
      return None;
    }

    /** ParseImportTable: the descriptor loop, and inside it the thunk loop
        of each live descriptor, adding to OtherPESymbols. */
    method ParseImportTable() returns (err: Option<Error>)
      requires headers.Some? && WordSize(headers.value.bytesPerWord)
      modifies this
      ensures otherSymbolRanges == old(otherSymbolRanges)
      ensures headers == old(headers) && rsrcSymbols == old(rsrcSymbols)
      ensures debugDirectories == old(debugDirectories) && debugSignature == old(debugSignature)
      ensures Outcome(err, otherSymbols,
                      Imports.ParseImportTable(image, BytesPerWord(), headers.value.importTable, old(otherSymbols)))
    {
      var syms;
      err, syms := WalkImports(headers.value.bytesPerWord, headers.value.importTable, otherSymbols);
      if err.None? {
        otherSymbols := syms;
      }
    }

    /** The loops of ParseImportTable, on the inventory `syms`. */
    method WalkImports(ws: nat, importTable: DataDirectory, syms: Symbols) returns (err: Option<Error>, syms': Symbols)
      requires WordSize(ws)
      ensures Outcome(err, syms', Imports.ParseImportTable(image, ws, importTable, syms))
    {
      syms' := syms;
      if importTable.size == 0 {
        return None, syms';
      }
      var end := Wrap32(importTable.virtualAddress + importTable.size);
      ImportTableWalk(image, ws, importTable, syms);
      err, syms' := WalkDescriptors(ws, importTable.virtualAddress, end, syms);
    }

    /** The descriptor loop, from the first descriptor to the end of the
        import table. */
    method WalkDescriptors(ws: nat, start: U32, end: U32, syms: Symbols) returns (err: Option<Error>, syms': Symbols)
      requires WordSize(ws)
      ensures Outcome(err, syms', DescriptorsFrom(image, ws, start, end, syms))
    {
      syms' := syms;
      // The pointer the fields are read through, as an offset from the
      // image base, and the uint RVA of the loop test and the keys.
      var descriptor: int := start;
      var descriptorRva: U32 := start;
      Wrap32Small(start);
      ghost var total := DescriptorsAt(image, ws, descriptor, end, syms');
      assert total == DescriptorsFrom(image, ws, start, end, syms);
      while descriptorRva < end
        invariant start <= descriptor && descriptorRva == Wrap32(descriptor)
        invariant DescriptorsAt(image, ws, descriptor, end, syms') == total
        decreases TWO_32 - |syms'.Keys|
      {
        KeyCount(syms');
        ghost var s0 := syms';
        var nameRead := ReadU32(image, descriptor + NAME_OFFSET);
        if nameRead.Err? {
          DescriptorUnreadableAt(image, ws, descriptor, end, s0);
          return Some(nameRead.error), syms';
        }
        var name := nameRead.value;
        DescriptorInImage(image, ws, descriptor, end, s0);
        // Below 2^32 the pointer and the uint RVA agree.
        assert descriptorRva == descriptor;
        // The descriptor's first field lies before Name, so it is in bounds.
        var oft: U32 := U32At(image, descriptor + ORIGINAL_FIRST_THUNK_OFFSET);
        if name == 0 || oft == 0 {
          DescriptorEndsWalk(image, ws, descriptorRva, end, s0);
          var added := Add(syms', descriptorRva, ImportDescriptorSymbol(descriptorRva, NULL_TERMINATOR_NAME));
          if added.Err? {
            return Some(added.error), syms';
          }
          return None, added.value;
        }
        LiveDescriptorIs(image, ws, descriptorRva, end, s0);
        err, syms' := RecordImportDescriptor(ws, descriptorRva, name, oft, syms');
        if err.Some? {
          return err, syms';
        }
        descriptor := descriptor + IMAGE_IMPORT_DESCRIPTOR_SIZE;
        descriptorRva := Wrap32(descriptorRva + IMAGE_IMPORT_DESCRIPTOR_SIZE);
      }
      DescriptorsDoneAt(image, ws, descriptor, end, syms');
      return None, syms';
    }

    /** One live descriptor: its module name, the descriptor, the name
        string, and its thunk chain. */
    method RecordImportDescriptor(ws: nat, descriptorRva: U32, name: U32, oft: U32, syms: Symbols)
      returns (err: Option<Error>, syms': Symbols)
      requires WordSize(ws)
      ensures Outcome(err, syms', DescriptorSteps(image, ws, descriptorRva, name, oft, syms))
      ensures err.None? ==> |syms.Keys| < |syms'.Keys|
    {
      syms' := syms;
      var moduleRead := ReadAnsiString(image, name);
      if moduleRead.Err? {
        return Some(moduleRead.error), syms';
      }
      var moduleName := AnsiText(moduleRead.value);
      var added := Add(syms', descriptorRva, ImportDescriptorSymbol(descriptorRva, moduleName));
      if added.Err? {
        return Some(added.error), syms';
      }
      var described := added.value;
      assert |described.Keys| == |syms.Keys| + 1;
      added := Add(described, name, PEDirectorySymbol(name, |moduleRead.value| + 1, Label(StringLiteralLabel(moduleName))));
      if added.Err? {
        return Some(added.error), syms';
      }
      var named := added.value;
      assert DescriptorSteps(image, ws, descriptorRva, name, oft, syms) == ThunksFrom(image, ws, moduleName, oft, named);
      err, syms' := WalkThunks(ws, moduleName, oft, named);
      if err.None? {
        assert Extends(named, syms');
        SubsetSize(named.Keys, syms'.Keys);
      }
    }

    /** The thunk loop of one descriptor, from OriginalFirstThunk. */
    method WalkThunks(ws: nat, moduleName: string, firstThunk: U32, syms: Symbols) returns (err: Option<Error>, syms': Symbols)
      requires WordSize(ws)
      ensures Outcome(err, syms', ThunksFrom(image, ws, moduleName, firstThunk, syms))
    {
      syms' := syms;
      var thunkRva: U32 := firstThunk;
      ghost var total := ThunksFrom(image, ws, moduleName, thunkRva, syms');
      while true
        invariant ThunksFrom(image, ws, moduleName, thunkRva, syms') == total
        decreases |image| - thunkRva
      {
        var thunkRead := ReadThunk(image, ws, thunkRva);
        if thunkRead.Err? {
          ThunkUnreadable(image, ws, moduleName, thunkRva, syms');
          return Some(thunkRead.error), syms';
        }
        var thunk := thunkRead.value;
        if thunk % TWO_16 == 0 {
          ThunkEndsChain(image, ws, moduleName, thunkRva, syms', thunk);
          var added := Add(syms', thunkRva, ImportThunkSymbol(thunkRva, ws, 0, moduleName, Some(NULL_TERMINATOR_NAME)));
          if added.Err? {
            return Some(added.error), syms';
          }
          return None, added.value;
        }
        ghost var s0 := syms';
        err, syms' := RecordImportThunk(ws, moduleName, thunkRva, thunk, syms');
        ThunkWalkGoesOn(image, ws, moduleName, thunkRva, s0, thunk, err, syms');
        if err.Some? {
          return err, syms';
        }
        thunkRva := Wrap32(thunkRva + ws);
      }
    }

    /** One thunk that does not end the chain: an import by ordinal, or by
        name with its hint and the IMAGE_IMPORT_BY_NAME entry. */
    method RecordImportThunk(ws: nat, moduleName: string, thunkRva: U32, thunk: U64, syms: Symbols)
      returns (err: Option<Error>, syms': Symbols)
      requires WordSize(ws)
      ensures Outcome(err, syms', RecordThunk(image, ws, moduleName, thunkRva, thunk, syms))
    {
      syms' := syms;
      var ordinal := thunk % TWO_16;
      var addressOfData := thunk % TWO_32;
      if IsOrdinalOnly(thunk, ws) {
        var added := Add(syms', thunkRva, ImportThunkSymbol(thunkRva, ws, ordinal, moduleName, None));
        if added.Err? {
          return Some(added.error), syms';
        }
        return None, added.value;
      }
      var hintRead := ReadU16(image, addressOfData);
      if hintRead.Err? {
        return Some(hintRead.error), syms';
      }
      var hint := hintRead.value;
      var nameRead := ReadAnsiString(image, addressOfData + 2);
      if nameRead.Err? {
        return Some(nameRead.error), syms';
      }
      var thunkName := AnsiText(nameRead.value);
      var added := Add(syms', thunkRva, ImportThunkSymbol(thunkRva, ws, hint, moduleName, Some(thunkName)));
      if added.Err? {
        return Some(added.error), syms';
      }
      added := Add(added.value, addressOfData, ImportByNameSymbol(addressOfData, |nameRead.value| + 3, hint, moduleName, thunkName));
      if added.Err? {
        return Some(added.error), syms';
      }
      return None, added.value;
    }

    /** ParseDebugDirectory: the Debug directory symbol, then, when the
        loader finds a debug directory, its records and the signature. */
    method ParseDebugDirectory() returns (err: Option<Error>)
      requires headers.Some?
      modifies this
      ensures otherSymbolRanges == old(otherSymbolRanges)
      ensures headers == old(headers) && rsrcSymbols == old(rsrcSymbols)
      ensures Outcome(err, DebugDirectoryState(otherSymbols, debugDirectories, debugSignature),
                      DebugDir.ParseDebugDirectory(image, headers.value.debug, debugDirectoryFound,
                        DebugDirectoryState(old(otherSymbols), old(debugDirectories), old(debugSignature))))
    {
      var st;
      err, st := WalkDebugDirectory(headers.value.debug,
                                    DebugDirectoryState(otherSymbols, debugDirectories, debugSignature));
      if err.None? {
        otherSymbols, debugDirectories, debugSignature := st.symbols, st.records, st.signature;
      }
    }

    /** The steps of ParseDebugDirectory on the state `st`. */
    method WalkDebugDirectory(debugDirectory: DataDirectory, st: DebugDirectoryState)
      returns (err: Option<Error>, st': DebugDirectoryState)
      ensures Outcome(err, st', DebugDir.ParseDebugDirectory(image, debugDirectory, debugDirectoryFound, st))
    {
      st' := st;
      var added := AddDirectorySymbolIfPresent(st.symbols, debugDirectory, "Debug");
      if added.Err? {
        return Some(added.error), st';
      }
      if !debugDirectoryFound {
        return None, DebugDirectoryState(added.value, st.records, st.signature);
      }
      var w;
      err, w := ReadDebugRecords(debugDirectory.virtualAddress, RecordCount(debugDirectory), added.value);
      if err.Some? {
        return err, st';
      }
      var signature;
      err, signature := FindSignature(st.records + w.records, st.signature);
      if err.Some? {
        return err, st';
      }
      return None, DebugDirectoryState(w.symbols, st.records + w.records, signature);
    }

    /** The record loop: the first record is read and recorded whatever the
        directory's size, then records 1 to count - 1, each recorded only
        when its SizeOfData is nonzero. */
    method ReadDebugRecords(va: nat, count: nat, symbols: Symbols) returns (err: Option<Error>, w: DebugWalk)
      requires count >= 1
      ensures Outcome(err, w, WalkDebugRecords(image, va, count, DebugWalk(symbols, [])))
    {
      w := DebugWalk(symbols, []);
      ghost var total := WalkDebugRecords(image, va, count, w);
      var first := ReadDebugRecord(image, va);
      if first.Err? {
        DebugRecordUnreadable(image, va, count, w);
        return Some(first.error), w;
      }
      var rec := first.value;
      var added := Add(w.symbols, rec.addressOfRawData, DebugSymbol(rec));
      if added.Err? {
        DebugRecordTaken(image, va, count, w, rec, Some(added.error), w);
        return Some(added.error), w;
      }
      assert w.records + [rec] == [rec];
      DebugRecordTaken(image, va, count, w, rec, None, DebugWalk(added.value, [rec]));
      w := DebugWalk(added.value, [rec]);
      var i := 1;
      while i < count
        invariant 1 <= i <= count && |w.records| == i
        invariant WalkDebugRecords(image, va, count, w) == total
      {
        var read := ReadDebugRecord(image, va + IMAGE_DEBUG_DIRECTORY_SIZE * i);
        if read.Err? {
          DebugRecordUnreadable(image, va, count, w);
          return Some(read.error), w;
        }
        rec := read.value;
        var syms := w.symbols;
        if rec.sizeOfData != 0 {
          added := Add(syms, rec.addressOfRawData, DebugSymbol(rec));
          if added.Err? {
            DebugRecordTaken(image, va, count, w, rec, Some(added.error), w);
            return Some(added.error), w;
          }
          syms := added.value;
        }
        DebugRecordTaken(image, va, count, w, rec, None, DebugWalk(syms, w.records + [rec]));
        w := DebugWalk(syms, w.records + [rec]);
        i := i + 1;
      }
      return None, w;
    }

    /** The CodeView search: the first CodeView record is examined, and if
        its data starts with the RSDS magic the signature is read from it;
        the search stops there either way. */
    method FindSignature(records: seq<DebugRecord>, current: DebugSignature)
      returns (err: Option<Error>, signature: DebugSignature)
      ensures Outcome(err, signature, FindDebugSignature(image, records, current))
    {
      signature := current;
      for j := 0 to |records|
        invariant forall k :: 0 <= k < j ==> records[k].debugType != IMAGE_DEBUG_TYPE_CODEVIEW
      {
        if records[j].debugType == IMAGE_DEBUG_TYPE_CODEVIEW {
          assert FirstCodeView(records) == Some(j);
          var rsds := records[j].addressOfRawData;
          var magic := ReadU32(image, rsds);
          if magic.Err? {
            return Some(magic.error), signature;
          }
          if magic.value == RSDS_SIGNATURE {
            if !InBounds(image, rsds, RSDS_DEBUG_FORMAT_SIZE) {
              return Some(OutOfRange(rsds, RSDS_DEBUG_FORMAT_SIZE)), signature;
            }
            var path := ReadAnsiString(image, rsds + RSDS_DEBUG_FORMAT_SIZE);
            if path.Err? {
              return Some(path.error), signature;
            }
            signature := DebugSignature(image[rsds + 4..rsds + 4 + GUID_SIZE], U32At(image, rsds + 20), AnsiText(path.value));
          }
          return None, signature;
        }
      }
      return None, signature;
    }

    /** One pass of CreateGroupIconSymbol's reverse loop: entry `idx` read,
        its icon placed just before the icons after it. */
    method ReadIconEntry(language: string, name: ResourceName, data: DataEntry, idx: nat,
                        iconRva: U32, totalSize: U32, icons: seq<IconSymbol>)
      returns (err: Option<Error>, iconRva': U32, totalSize': U32, icons': seq<IconSymbol>)
      requires InBounds(image, data.offsetToData, NEWHEADER_SIZE) && idx < U16At(image, data.offsetToData + 4)
      requires IconLoop(image, data.offsetToData, language, idx + 1, iconRva, totalSize, icons)
      ensures err.Some? ==> GroupIcon(image, language, name, data) == Err(err.value)
      ensures err.None? ==> IconLoop(image, data.offsetToData, language, idx, iconRva', totalSize', icons')
    {
      var start := data.offsetToData;
      var at := start + NEWHEADER_SIZE + RESDIR_SIZE * idx;
      if !InBounds(image, at, RESDIR_SIZE) {
        IconLoopOutOfRange(image, language, name, data, idx, iconRva, totalSize, icons);
        return Some(OutOfRange(at, RESDIR_SIZE)), iconRva, totalSize, icons;
      }
      var e := GroupDirEntryAt(image, at);
      var rounded := RoundUpTo8ByteAlignment(e.bytesInRes);
      var icon := IconSymbol(Wrap32(iconRva - rounded), e.bytesInRes, language, e.id,
                             IconWidth(e), IconHeight(e), e.bitCount);
      IconLoopStep(image, start, language, idx, iconRva, totalSize, icons, e, icon);
      return None, icon.rva, Wrap32(totalSize + rounded), [icon] + icons;
    }

    /** CreateGroupIconSymbol: the group header, then its entries from the
        last back, each icon lying just before the one after it, rounded up
        to 8 bytes. */
    method CreateGroupIconSymbol(language: string, name: ResourceName, data: DataEntry) returns (r: Result<RsrcSymbol, Error>)
      ensures r == GroupIcon(image, language, name, data)
    {
      var start := data.offsetToData;
      if !InBounds(image, start, NEWHEADER_SIZE) {
        GroupHeaderOutOfRange(image, language, name, data);
        return Err(OutOfRange(start, NEWHEADER_SIZE));
      }
      var count := U16At(image, start + 4);
      var iconRva: U32 := start;
      var totalSize: U32 := Wrap32(NEWHEADER_SIZE + RESDIR_SIZE * count);
      var icons: seq<IconSymbol> := [];
      var idx: nat := count;
      while idx > 0
        invariant IconLoop(image, start, language, idx, iconRva, totalSize, icons)
      {
        idx := idx - 1;
        var err;
        err, iconRva, totalSize, icons := ReadIconEntry(language, name, data, idx, iconRva, totalSize, icons);
        if err.Some? {
          return Err(err.value);
        }
      }
      r := Ok(GroupIconSymbol(iconRva, totalSize, language, name, icons));
      IconLoopDone(image, language, name, data, iconRva, totalSize, icons, r);
    }

    /** One pass of CreateGroupCursorSymbol's reverse loop: entry `idx` read,
        its cursor placed just before the cursors after it. */
    method ReadCursorEntry(language: string, name: ResourceName, data: DataEntry, idx: nat,
                        cursorRva: U32, totalSize: U32, cursors: seq<CursorSymbol>)
      returns (err: Option<Error>, cursorRva': U32, totalSize': U32, cursors': seq<CursorSymbol>)
      requires InBounds(image, data.offsetToData, NEWHEADER_SIZE) && idx < U16At(image, data.offsetToData + 4)
      requires CursorLoop(image, data.offsetToData, language, idx + 1, cursorRva, totalSize, cursors)
      ensures err.Some? ==> GroupCursor(image, language, name, data) == Err(err.value)
      ensures err.None? ==> CursorLoop(image, data.offsetToData, language, idx, cursorRva', totalSize', cursors')
    {
      var start := data.offsetToData;
      var at := start + NEWHEADER_SIZE + RESDIR_SIZE * idx;
      if !InBounds(image, at, RESDIR_SIZE) {
        CursorLoopOutOfRange(image, language, name, data, idx, cursorRva, totalSize, cursors);
        return Some(OutOfRange(at, RESDIR_SIZE)), cursorRva, totalSize, cursors;
      }
      var e := GroupDirEntryAt(image, at);
      var rounded := RoundUpTo8ByteAlignment(e.bytesInRes);
      var cursor := CursorSymbol(Wrap32(cursorRva - rounded), e.bytesInRes, language, e.id,
                               e.firstWord, e.secondWord / 2, e.bitCount);
      CursorLoopStep(image, start, language, idx, cursorRva, totalSize, cursors, e, cursor);
      return None, cursor.rva, Wrap32(totalSize + rounded), [cursor] + cursors;
    }

    /** CreateGroupCursorSymbol: as for icons, with a cursor's width and
        height read from two words, the height halved. */
    method CreateGroupCursorSymbol(language: string, name: ResourceName, data: DataEntry) returns (r: Result<RsrcSymbol, Error>)
      ensures r == GroupCursor(image, language, name, data)
    {
      var start := data.offsetToData;
      if !InBounds(image, start, NEWHEADER_SIZE) {
        GroupHeaderOutOfRange(image, language, name, data);
        return Err(OutOfRange(start, NEWHEADER_SIZE));
      }
      var count := U16At(image, start + 4);
      var cursorRva: U32 := start;
      var totalSize: U32 := Wrap32(NEWHEADER_SIZE + RESDIR_SIZE * count);
      var cursors: seq<CursorSymbol> := [];
      var idx: nat := count;
      while idx > 0
        invariant CursorLoop(image, start, language, idx, cursorRva, totalSize, cursors)
      {
        idx := idx - 1;
        var err;
        err, cursorRva, totalSize, cursors := ReadCursorEntry(language, name, data, idx, cursorRva, totalSize, cursors);
        if err.Some? {
          return Err(err.value);
        }
      }
      r := Ok(GroupCursorSymbol(cursorRva, totalSize, language, name, cursors));
      CursorLoopDone(image, language, name, data, cursorRva, totalSize, cursors, r);
    }

    /** CreateStringTableSymbol: the strings of a STRINGTABLE block, read
        while the cursor is before the block's end. */
    method CreateStringTableSymbol(language: string, name: ResourceName, data: DataEntry) returns (r: Result<StringTable, Error>)
      ensures r == StringTableOf(image, language, name, data)
    {
      var p := data.offsetToData as nat;
      var end := data.offsetToData + data.size;
      var strings: seq<seq<U16>> := [];
      ghost var total := DecodeStrings(image, p, end);
      assert total.Ok? ==> strings + total.value == total.value;
      while p < end
        invariant Preceded(strings, DecodeStrings(image, p, end)) == total
        decreases end - p
      {
        var units :- ReadU16(image, p);
        var n := units as nat;
        if n == 0 {
          p := p + 2;
        } else {
          if !InBounds(image, p + 2, 2 * n) {
            return Err(OutOfRange(p + 2, 2 * n));
          }
          StringTableStep(image, p, end, strings);
          strings := strings + [UnitsAt(image, p + 2, n)];
          p := p + 2 + 2 * n;
        }
      }
      assert strings + [] == strings;
      return Ok(StringTable(data.offsetToData, data.size, language, name, strings));
    }
    /** CreateRsrcDataSymbol: ICON and CURSOR leaves are left to their
        groups, STRINGTABLE blocks become string tables, the two group types
        are parsed, and any other leaf is a plain data symbol. */
    method CreateRsrcDataSymbol(language: string, rtype: ResourceType, typeName: TypeName, name: ResourceName, data: DataEntry)
      returns (r: Result<LeafData, Error>)
      ensures r == CreateDataSymbol(image, language, rtype, typeName, name, data)
    {
      if rtype == Defined(RT_GROUP_ICON) {
        var s :- CreateGroupIconSymbol(language, name, data);
        return Ok(SymbolOf(s));
      } else if rtype == Defined(RT_ICON) || rtype == Defined(RT_CURSOR) {
        return Ok(Suppressed);
      } else if rtype == Defined(RT_STRING) {
        var t :- CreateStringTableSymbol(language, name, data);
        return Ok(TableOf(t));
      } else if rtype == Defined(RT_GROUP_CURSOR) {
        var s :- CreateGroupCursorSymbol(language, name, data);
        return Ok(SymbolOf(s));
      }
      return Ok(SymbolOf(DataSymbol(data.offsetToData, data.size, language, rtype, typeName, name)));
    }
    /** The leaf branch of WalkResourceDirectory: the data entry symbol,
        then what CreateRsrcDataSymbol makes of the data, filed by type. */
    method RecordResourceLeaf(rsrcStart: U32, depth: nat, entry: DirectoryEntry, index: nat, info: DirectoryInfo, st: RsrcState)
      returns (err: Option<Error>, st': RsrcState)
      ensures Outcome(err, st', RecordLeaf(Walker(image, rsrcStart, cultures), depth, entry, index, info, st))
    {
      var rva := Wrap32(rsrcStart + entry.offsetToData);
      var read := ReadDataEntry(image, rva);
      if read.Err? {
        return Some(read.error), st;
      }
      var language := LanguageName(cultures, entry.Id());
      var name := WithFallback(info.depth1Name);
      var added := Add(st.symbols, rva, DataEntrySymbol(rva, RESOURCE_DATA_ENTRY_SIZE, depth, language, info.rtype, info.typeName, name, index));
      if added.Err? {
        return Some(added.error), st;
      }
      var leaf := CreateRsrcDataSymbol(language, info.rtype, info.typeName, name, read.value);
      if leaf.Err? {
        return Some(leaf.error), st;
      }
      match leaf.value
      case Suppressed =>
        return None, RsrcState(added.value, st.tables);
      case TableOf(t) =>
        var tables := Add(st.tables, t.rva, t);
        if tables.Err? {
          return Some(tables.error), st;
        }
        return None, RsrcState(added.value, tables.value);
      case SymbolOf(s) =>
        var symbols := Add(added.value, s.rva, s);
        if symbols.Err? {
          return Some(symbols.error), st;
        }
        return None, RsrcState(symbols.value, st.tables);
    }

    /** One turn of the entry loop of WalkResourceDirectory: the entry's
        name string, then its subdirectory or its leaf. */
    method WalkResourceEntry(rsrcStart: U32, depth: nat, entry: DirectoryEntry, index: nat, depth0: Option<DirectoryEntry>,
                             depth1: Option<DirectoryEntry>, info: DirectoryInfo, st: RsrcState)
      returns (err: Option<Error>, st': RsrcState)
      requires depth <= MAX_DEPTH
      ensures Outcome(err, st', EntryStep(Walker(image, rsrcStart, cultures), depth, entry, index, depth0, depth1, info, st))
      decreases MAX_DEPTH + 1 - depth, 1
    {
      var symbols := st.symbols;
      if entry.IsNamedEntry() {
        var units := ReadPrefixedString(image, rsrcStart + entry.NameOffset());
        if units.Err? {
          EntryNameUnreadable(Walker(image, rsrcStart, cultures), depth, entry, index, depth0, depth1, info, st);
          return Some(units.error), st;
        }
        var stringRva := Wrap32(rsrcStart + entry.NameOffset());
        symbols := TryAdd(symbols, stringRva, StringSymbol(stringRva, 2 + 2 * |units.value|, units.value));
      }
      assert RecordEntryName(Walker(image, rsrcStart, cultures), entry, st.symbols) == Ok(symbols);
      if entry.DataIsDirectory() {
        err, st' := DescendInto(rsrcStart, depth, entry, index, depth0, depth1, info, st, symbols);
      } else {
        err, st' := RecordResourceLeaf(rsrcStart, depth, entry, index, info, RsrcState(symbols, st.tables));
        EntryIsLeaf(Walker(image, rsrcStart, cultures), depth, entry, index, depth0, depth1, info, st, symbols);
      }
    }

    /** A subdirectory entry: the walk of its subdirectory one level down,
        the entry replacing the context of its own level. */
    method DescendInto(rsrcStart: U32, depth: nat, entry: DirectoryEntry, index: nat, depth0: Option<DirectoryEntry>,
                       depth1: Option<DirectoryEntry>, info: DirectoryInfo, st: RsrcState, symbols: map<U32, RsrcSymbol>)
      returns (err: Option<Error>, st': RsrcState)
      requires depth <= MAX_DEPTH && entry.DataIsDirectory()
      requires RecordEntryName(Walker(image, rsrcStart, cultures), entry, st.symbols) == Ok(symbols)
      ensures Outcome(err, st', EntryStep(Walker(image, rsrcStart, cultures), depth, entry, index, depth0, depth1, info, st))
      decreases MAX_DEPTH + 1 - depth, 0
    {
      var below0 := depth0;
      var below1 := depth1;
      if depth == 0 {
        below0 := Some(entry);
      } else if depth == 1 {
        below1 := Some(entry);
      }
      assert below0 == NextDepth0(depth, entry, depth0) && below1 == NextDepth1(depth, entry, depth1);
      err, st' := WalkResourceDirectory(rsrcStart, Wrap32(rsrcStart + entry.OffsetToDirectory()), depth + 1, below0, below1,
                                        RsrcState(symbols, st.tables));
      EntryDescends(Walker(image, rsrcStart, cultures), depth, entry, index, depth0, depth1, info, st, symbols, err, st');
    }

    /** The opening of a directory: its entry count, the type and name of
        its subtree, and its own symbol. */
    method OpenResourceDirectory(rsrcStart: U32, rva: U32, depth: nat, depth0: Option<DirectoryEntry>,
                                 depth1: Option<DirectoryEntry>, st: RsrcState)
      returns (err: Option<Error>, n: nat, info: DirectoryInfo, current: RsrcState)
      ensures Outcome(err, (n, info, current), OpenDirectory(Walker(image, rsrcStart, cultures), rva, depth, depth0, depth1, st))
    {
      n, info, current := 0, DirectoryInfo(Unknown, EnumName(Unknown), None), st;
      var count := ReadDirectoryCount(image, rva);
      if count.Err? {
        return Some(count.error), n, info, current;
      }
      n := count.value;
      var typeInfo := SelectType(image, rsrcStart, depth0);
      if typeInfo.Err? {
        return Some(typeInfo.error), n, info, current;
      }
      var depth1Name := ReadDepth1Name(image, rsrcStart, depth1);
      if depth1Name.Err? {
        return Some(depth1Name.error), n, info, current;
      }
      info := DirectoryInfo(typeInfo.value.0, typeInfo.value.1, depth1Name.value);
      var added := Add(st.symbols, rva, DirectorySymbol(rva, RESOURCE_DIRECTORY_SIZE + RESOURCE_DIRECTORY_ENTRY_SIZE * n,
                                                        depth, info.rtype, info.typeName, info.depth1Name));
      if added.Err? {
        return Some(added.error), n, info, current;
      }
      current := RsrcState(added.value, st.tables);
      return None, n, info, current;
    }

    /** WalkResourceDirectory: nothing below depth 2; otherwise the
        directory symbol, labelled with its subtree's type and name, then its
        entries in order, a subdirectory entry at depth 0 or 1 becoming the
        context of the later ones. */
    method WalkResourceDirectory(rsrcStart: U32, rva: U32, depth: nat, depth0: Option<DirectoryEntry>,
                                 depth1: Option<DirectoryEntry>, st: RsrcState)
      returns (err: Option<Error>, st': RsrcState)
      ensures Outcome(err, st', WalkDirectory(Walker(image, rsrcStart, cultures), rva, depth, depth0, depth1, st))
      decreases MAX_DEPTH + 1 - depth, 2
    {
      if depth > MAX_DEPTH {
        return None, st;
      }
      var n, info, current;
      err, n, info, current := OpenResourceDirectory(rsrcStart, rva, depth, depth0, depth1, st);
      ghost var w := Walker(image, rsrcStart, cultures);
      DirectoryOpens(w, rva, depth, depth0, depth1, st, err, n, info, current);
      if err.Some? {
        return err, st;
      }
      var entryRva: U32 := Wrap32(rva + RESOURCE_DIRECTORY_SIZE);
      var d0, d1 := depth0, depth1;
      ghost var total := WalkEntries(w, depth, 0, n, entryRva, d0, d1, info, current);
      var i := 0;
      while i < n
        invariant i <= n
        invariant WalkEntries(w, depth, i, n, entryRva, d0, d1, info, current) == total
      {
        var read := ReadDirectoryEntry(image, entryRva);
        if read.Err? {
          return Some(read.error), st;
        }
        var entry := read.value;
        ghost var old_d0, old_d1 := d0, d1;
        var e, next := WalkResourceEntry(rsrcStart, depth, entry, i, d0, d1, info, current);
        EntriesAdvance(w, depth, i, n, entryRva, d0, d1, info, current, entry, e, next);
        if e.Some? {
          return e, st;
        }
        current := next;
        if entry.DataIsDirectory() {
          if depth == 0 {
            d0 := Some(entry);
          } else if depth == 1 {
            d1 := Some(entry);
          }
        }
        assert d0 == NextDepth0(depth, entry, old_d0) && d1 == NextDepth1(depth, entry, old_d1);
        entryRva := Wrap32(entryRva + RESOURCE_DIRECTORY_ENTRY_SIZE);
        i := i + 1;
      }
      EntriesDone(w, depth, n, entryRva, d0, d1, info, current);
      return None, current;
    }
    /** The grouping loop of ParseRsrcSymbols: a table that cannot continue
        the open run closes it and is discarded with it. */
    method GroupStringTableSymbols(tables: seq<StringTable>, symbols: map<U32, RsrcSymbol>)
      returns (err: Option<Error>, symbols': map<U32, RsrcSymbol>)
      ensures Outcome(err, symbols', AddStringTableGroups(symbols, tables))
    {
      symbols' := symbols;
      if |tables| == 0 {
        return None, symbols';
      }
      ghost var total := AddStringTableGroups(symbols, tables);
      var current: seq<StringTable> := [];
      GroupAsWrittenKeeps(tables, 0, current);
      var i := 0;
      while i < |tables|
        invariant i <= |tables| && OpenRun(tables, i, current)
        invariant Runs(GroupAsWritten(tables, i, current))
        invariant AddGroups(symbols', GroupAsWritten(tables, i, current)) == total
      {
        var t := tables[i];
        if |current| == 0 || Continues(current[|current| - 1], t) {
          RunContinues(tables, i, current);
          current := current + [t];
        } else {
          RunBreaks(tables, i, current);
          ghost var groups := GroupAsWritten(tables, i, current);
          assert groups[0] == current && groups[1..] == GroupAsWritten(tables, i + 1, []);
          FirstGroupAdded(symbols', groups);
          var added := Add(symbols', current[0].rva, GroupStringTablesSymbol(current[0].rva, current));
          if added.Err? {
            return Some(added.error), symbols';
          }
          symbols' := added.value;
          current := [];
        }
        GroupAsWrittenKeeps(tables, i + 1, current);
        i := i + 1;
      }
      if |current| > 0 {
        assert [current][1..] == [];
        FirstGroupAdded(symbols', [current]);
        var added := Add(symbols', current[0].rva, GroupStringTablesSymbol(current[0].rva, current));
        if added.Err? {
          return Some(added.error), symbols';
        }
        symbols' := added.value;
      }
      return None, symbols';
    }

    /** ParseRsrcSymbols: when the section is present, the walk from its
        root, then the grouping of the string tables it found by ascending
        RVA. */
    method ParseRsrcSymbols() returns (err: Option<Error>)
      requires headers.Some?
      modifies this
      ensures otherSymbolRanges == old(otherSymbolRanges)
      ensures headers == old(headers) && otherSymbols == old(otherSymbols)
      ensures debugDirectories == old(debugDirectories) && debugSignature == old(debugSignature)
      ensures Outcome(err, rsrcSymbols, Resources.ParseRsrcSymbols(image, headers.value.resourceTable.virtualAddress, cultures, old(rsrcSymbols)))
    {
      var symbols;
      err, symbols := CollectRsrcSymbols(headers.value.resourceTable.virtualAddress, rsrcSymbols);
      if err.Some? {
        return;
      }
      rsrcSymbols := symbols;
    }

    /** The body of ParseRsrcSymbols on the symbols collected so far; the
        field is assigned by the caller. */
    method CollectRsrcSymbols(rsrcStart: U32, symbols: map<U32, RsrcSymbol>)
      returns (err: Option<Error>, symbols': map<U32, RsrcSymbol>)
      ensures Outcome(err, symbols', Resources.ParseRsrcSymbols(image, rsrcStart, cultures, symbols))
    {
      symbols' := symbols;
      if rsrcStart == 0 {
        return None, symbols';
      }
      var st;
      err, st := WalkResourceDirectory(rsrcStart, rsrcStart, 0, None, None, RsrcState(symbols, map[]));
      RsrcSectionWalked(image, rsrcStart, cultures, symbols, err, st);
      if err.Some? {
        return err, symbols';
      }
      symbols' := st.symbols;
      if |st.tables.Keys| > 0 {
        err, symbols' := GroupStringTableSymbols(InKeyOrder(st.tables), symbols');
      }
    }

    /** The state the constructor leaves behind once the headers are read. */
    function State(): Loaded
      reads this
      requires headers.Some?
    {
      Loaded(headers.value, otherSymbols, rsrcSymbols, debugDirectories, debugSignature, otherSymbolRanges)
    }

    /** The state the field initialisers leave. */
    predicate Unloaded()
      reads this
    {
      && headers == None && otherSymbols == map[] && rsrcSymbols == map[]
      && debugDirectories == [] && debugSignature == DefaultSignature() && otherSymbolRanges == []
    }

    /** The constructor's body after the field initialisers. */
    method Load() returns (err: Option<Error>)
      requires Unloaded()
      modifies this
      ensures err.Some? ==> LoadImage(image, cultures, debugDirectoryFound) == Err(err.value)
      ensures err.None? ==> headers.Some? && LoadImage(image, cultures, debugDirectoryFound) == Ok(State())
    {
      err := LoadHeaders();
      if err.Some? {
        return;
      }
      var h := headers.value;
      err := ParseImportTable();
      if err.Some? {
        return;
      }
      ghost var imported := otherSymbols;
      err := ParseRsrcSymbols();
      if err.Some? {
        return;
      }
      err := AddDirectorySymbol(h.baseRelocationTable, "Base Relocation Table");
      if err.Some? {
        return;
      }
      assert AddDirectorySymbolIfPresent(imported, h.baseRelocationTable, "Base Relocation Table") == Ok(otherSymbols);
      err := ParseDebugDirectory();
      if err.Some? {
        return;
      }
      CollectOtherSymbolRanges();
    }

    /** The loop over OtherPESymbols collecting one range per symbol. */
    method CollectOtherSymbolRanges()
      modifies this
      ensures otherSymbolRanges == SymbolRanges(otherSymbols)
      ensures headers == old(headers) && otherSymbols == old(otherSymbols) && rsrcSymbols == old(rsrcSymbols)
      ensures debugDirectories == old(debugDirectories) && debugSignature == old(debugSignature)
    {
      otherSymbolRanges := CollectRanges(InKeyOrder(otherSymbols));
    }

    /** The `foreach` of CollectOtherSymbolRanges over the symbols in order. */
    static method CollectRanges(symbols: seq<PESymbol>) returns (ranges: seq<RvaRange>)
      ensures ranges == RangesOf(symbols)
    {
      ranges := [];
      var i := 0;
      while i < |symbols|
        invariant i <= |symbols| && |ranges| == i
        invariant forall j :: 0 <= j < i ==> ranges[j] == RangeOf(symbols[j])
      {
        ranges := ranges + [RangeOf(symbols[i])];
        i := i + 1;
      }
    }

    /** CompareData: the bytes at the two RVAs, up to the first difference. */
    method CompareData(rva1: int, rva2: int, length: U32) returns (same: bool)
      requires InBounds(image, rva1, length) && InBounds(image, rva2, length)
      ensures same <==> image[rva1..rva1 + length] == image[rva2..rva2 + length]
    {
      var i := 0;
      while i < length
        invariant i <= length
        invariant image[rva1..rva1 + i] == image[rva2..rva2 + i]
      {
        if image[rva1 + i] != image[rva2 + i] {
          assert image[rva1..rva1 + length][i] != image[rva2..rva2 + length][i];
          return false;
        }
        assert image[rva1..rva1 + i + 1] == image[rva1..rva1 + i] + [image[rva1 + i]];
        assert image[rva2..rva2 + i + 1] == image[rva2..rva2 + i] + [image[rva2 + i]];
        i := i + 1;
      }
      return true;
    }

    /** CompareSimilarityOfBytesInBinary up to the final division: the
        counters bytesSame and bytesCompared. */
    method CompareSimilarityOfBytesInBinary(ranges1: seq<RvaRange>, ranges2: seq<RvaRange>)
      returns (r: Result<(nat, nat), Error>)
      requires |ranges1| == |ranges2| ==> PairsInBounds(image, ranges1, ranges2)
      ensures r == Similarity(image, ranges1, ranges2)
    {
      if |ranges1| != |ranges2| {
        return Err(RangeCountMismatch);
      }
      var bytesSame := 0;
      var bytesCompared := 0;
      var i := 0;
      while i < |ranges1|
        invariant i <= |ranges1|
        invariant bytesSame == SameBytes(image, ranges1, ranges2, i)
        invariant bytesCompared == ComparedBytes(ranges1, ranges2, i)
      {
        var p1 := ranges1[i].rvaStart;
        var p2 := ranges2[i].rvaStart;
        var lengthToCompare := Min(ranges1[i].size, ranges2[i].size);
        assert InBounds(image, p1, lengthToCompare) && InBounds(image, p2, lengthToCompare);
        var byteIndex := 0;
        while byteIndex < lengthToCompare
          invariant byteIndex <= lengthToCompare
          invariant bytesSame == SameBytes(image, ranges1, ranges2, i) + MatchCount(image, p1, p2, byteIndex)
        {
          if image[p1 + byteIndex] == image[p2 + byteIndex] {
            bytesSame := bytesSame + 1;
          }
          byteIndex := byteIndex + 1;
        }
        bytesCompared := bytesCompared + Max(ranges1[i].size, ranges2[i].size);
        i := i + 1;
      }
      return Ok((bytesSame, bytesCompared));
    }

    /** LoadUInt32ByRVAThatIsPreferredBaseRelative: the uint at `rva`, less
        the preferred load address. */
    method LoadUInt32ByRVAThatIsPreferredBaseRelative(rva: int) returns (r: U32)
      requires headers.Some? && InBounds(image, rva, 4)
      ensures r == Rebase(U32At(image, rva), headers.value.preferredLoadAddress)
    {
      var retVal := U32At(image, rva);
      r := Wrap32(retVal - headers.value.preferredLoadAddress);
    }
  }
}
