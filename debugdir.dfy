/** The debug directory walk of ParseDebugDirectory (section "The .debug
    Section" of the PE/COFF specification): the array of
    IMAGE_DEBUG_DIRECTORY records, the PEDirectorySymbol each non-empty
    record's raw data becomes, and the PDB signature in the RSDS block of the
    first CodeView record. */
module DebugDir {
  import opened Results
  import opened Bytes
  import opened Inventory
  import opened Headers
  import opened PESymbols

  type Symbols = map<U32, PESymbol>

  const IMAGE_DEBUG_DIRECTORY_SIZE: nat := 28
  const IMAGE_DEBUG_TYPE_CODEVIEW: U32 := 2
  /** 'RSDS' read as a little-endian 32-bit value. */
  const RSDS_SIGNATURE: U32 := 0x5344_5352
  /** Signature, Guid and Age; the PDB path follows. */
  const RSDS_DEBUG_FORMAT_SIZE: nat := 24
  const GUID_SIZE: nat := 16

  /** IMAGE_DEBUG_DIRECTORY. */
  datatype DebugRecord = DebugRecord(
    characteristics: U32,
    timeDateStamp: U32,
    majorVersion: U16,
    minorVersion: U16,
    debugType: U32,
    sizeOfData: U32,
    addressOfRawData: U32,
    pointerToRawData: U32)

  function DebugRecordAt(image: seq<Byte>, rva: int): DebugRecord
    requires InBounds(image, rva, IMAGE_DEBUG_DIRECTORY_SIZE)
  {
    DebugRecord(U32At(image, rva), U32At(image, rva + 4), U16At(image, rva + 8), U16At(image, rva + 10),
                U32At(image, rva + 12), U32At(image, rva + 16), U32At(image, rva + 20), U32At(image, rva + 24))
  }

  /** Marshal.PtrToStructure of a record: all 28 bytes must lie in the image. */
  function ReadDebugRecord(image: seq<Byte>, rva: int): (r: Result<DebugRecord, Error>)
    ensures r.Ok? <==> InBounds(image, rva, IMAGE_DEBUG_DIRECTORY_SIZE)
    ensures r.Ok? ==> r.value == DebugRecordAt(image, rva)
  {
    if InBounds(image, rva, IMAGE_DEBUG_DIRECTORY_SIZE) then Ok(DebugRecordAt(image, rva))
    else Err(OutOfRange(rva, IMAGE_DEBUG_DIRECTORY_SIZE))
  }

  /** The symbol for a record's raw data, `[Debug Directory] <Type>`. */
  function DebugSymbol(rec: DebugRecord): PESymbol {
    PEDirectorySymbol(rec.addressOfRawData, rec.sizeOfData, DebugDirectoryType(rec.debugType))
  }

  /** The number of records read: Size / 28, except that the first record is
      read even when the directory is smaller than one record. */
  function RecordCount(debugDirectory: DataDirectory): (n: nat)
    ensures n >= 1
    ensures debugDirectory.size >= IMAGE_DEBUG_DIRECTORY_SIZE ==> n == debugDirectory.size / IMAGE_DEBUG_DIRECTORY_SIZE
  {
    var n := debugDirectory.size / IMAGE_DEBUG_DIRECTORY_SIZE;
    if n >= 1 then n else 1
  }

  /** Whether the walk records the k-th record: the first always, the others
      only when their SizeOfData is nonzero. */
  predicate Recorded(k: nat, rec: DebugRecord) {
    k == 0 || rec.sizeOfData != 0
  }

  datatype DebugWalk = DebugWalk(symbols: Symbols, records: seq<DebugRecord>)

  /** One record: appended to the list, and its raw data recorded when
      `Recorded` says so. */
  function RecordStep(acc: DebugWalk, rec: DebugRecord): (r: Result<DebugWalk, Error>)
    ensures r.Ok? ==> r.value.records == acc.records + [rec] && Extends(acc.symbols, r.value.symbols)
    ensures r.Ok? ==> r.value.symbols.Keys
                      == acc.symbols.Keys + (if Recorded(|acc.records|, rec) then {rec.addressOfRawData} else {})
    ensures r.Ok? && Recorded(|acc.records|, rec) ==> r.value.symbols[rec.addressOfRawData] == DebugSymbol(rec)
    ensures Recorded(|acc.records|, rec) ==> (r.Err? <==> rec.addressOfRawData in acc.symbols)
    ensures !Recorded(|acc.records|, rec) ==> r.Ok?
  {
    var symbols :- if Recorded(|acc.records|, rec) then Add(acc.symbols, rec.addressOfRawData, DebugSymbol(rec))
                   else Ok(acc.symbols);
    Ok(DebugWalk(symbols, acc.records + [rec]))
  }

  /** The record loop from record |acc.records| up to `count`. */
  function WalkDebugRecords(image: seq<Byte>, va: nat, count: nat, acc: DebugWalk): (r: Result<DebugWalk, Error>)
    requires |acc.records| <= count
    ensures r.Ok? ==> Extends(acc.symbols, r.value.symbols)
    ensures r.Ok? ==> |r.value.records| == count && r.value.records[..|acc.records|] == acc.records
    decreases count - |acc.records|
  {
    if |acc.records| == count then Ok(acc)
    else
      var k := |acc.records|;
      var rec :- ReadDebugRecord(image, va + IMAGE_DEBUG_DIRECTORY_SIZE * k);
      var acc' :- RecordStep(acc, rec);
      var r :- WalkDebugRecords(image, va, count, acc');
      assert r.records[..k] == (r.records[..k + 1])[..k];
      Ok(r)
  }

  /** The walk past one record, for the lemmas below. */
  lemma WalkStep(image: seq<Byte>, va: nat, count: nat, acc: DebugWalk)
    requires |acc.records| < count
    requires WalkDebugRecords(image, va, count, acc).Ok?
    ensures InBounds(image, va + IMAGE_DEBUG_DIRECTORY_SIZE * |acc.records|, IMAGE_DEBUG_DIRECTORY_SIZE)
    ensures var rec := DebugRecordAt(image, va + IMAGE_DEBUG_DIRECTORY_SIZE * |acc.records|);
            && RecordStep(acc, rec).Ok?
            && WalkDebugRecords(image, va, count, acc) == WalkDebugRecords(image, va, count, RecordStep(acc, rec).value)
  {
  }

  /** The keys the walk from record `from` adds to the inventory. */
  ghost function RecordedKeys(records: seq<DebugRecord>, from: nat): set<U32> {
    set k | from <= k < |records| && Recorded(k, records[k]) :: records[k].addressOfRawData
  }

  /** The records read are the table: record k from VirtualAddress + 28k. */
  lemma {:induction false} WalkReadsTable(image: seq<Byte>, va: nat, count: nat, acc: DebugWalk)
    requires |acc.records| <= count
    requires WalkDebugRecords(image, va, count, acc).Ok?
    ensures var recs := WalkDebugRecords(image, va, count, acc).value.records;
            forall k :: |acc.records| <= k < count ==>
              InBounds(image, va + IMAGE_DEBUG_DIRECTORY_SIZE * k, IMAGE_DEBUG_DIRECTORY_SIZE)
              && recs[k] == DebugRecordAt(image, va + IMAGE_DEBUG_DIRECTORY_SIZE * k)
    decreases count - |acc.records|
  {
    if |acc.records| < count {
      var k := |acc.records|;
      WalkStep(image, va, count, acc);
      var rec := DebugRecordAt(image, va + IMAGE_DEBUG_DIRECTORY_SIZE * k);
      var acc' := RecordStep(acc, rec).value;
      WalkReadsTable(image, va, count, acc');
      var recs := WalkDebugRecords(image, va, count, acc').value.records;
      assert recs[..k + 1] == acc.records + [rec];
      assert recs[k] == (recs[..k + 1])[k];
    }
  }

  /** The walk adds exactly the raw-data RVAs of the recorded records. */
  lemma {:induction false} WalkRecordsKeys(image: seq<Byte>, va: nat, count: nat, acc: DebugWalk)
    requires |acc.records| <= count
    requires WalkDebugRecords(image, va, count, acc).Ok?
    ensures var w := WalkDebugRecords(image, va, count, acc).value;
            w.symbols.Keys == acc.symbols.Keys + RecordedKeys(w.records, |acc.records|)
    decreases count - |acc.records|
  {
    var w := WalkDebugRecords(image, va, count, acc).value;
    var k := |acc.records|;
    if k < count {
      WalkStep(image, va, count, acc);
      var rec := DebugRecordAt(image, va + IMAGE_DEBUG_DIRECTORY_SIZE * k);
      var acc' := RecordStep(acc, rec).value;
      WalkRecordsKeys(image, va, count, acc');
      assert w.records[..k + 1] == acc.records + [rec];
      assert w.records[k] == (w.records[..k + 1])[k] == rec;
      RecordedKeysSplit(w.records, k);
    } else {
      assert RecordedKeys(w.records, k) == {};
    }
  }

  lemma RecordedKeysSplit(records: seq<DebugRecord>, k: nat)
    requires k < |records|
    ensures RecordedKeys(records, k)
            == (if Recorded(k, records[k]) then {records[k].addressOfRawData} else {}) + RecordedKeys(records, k + 1)
  {
  }

  /** Each recorded record's raw data carries that record's symbol. */
  lemma {:induction false} WalkRecordsSymbols(image: seq<Byte>, va: nat, count: nat, acc: DebugWalk)
    requires |acc.records| <= count
    requires WalkDebugRecords(image, va, count, acc).Ok?
    ensures var w := WalkDebugRecords(image, va, count, acc).value;
            forall k :: |acc.records| <= k < count && Recorded(k, w.records[k]) ==>
              w.records[k].addressOfRawData in w.symbols
              && w.symbols[w.records[k].addressOfRawData] == DebugSymbol(w.records[k])
    decreases count - |acc.records|
  {
    var w := WalkDebugRecords(image, va, count, acc).value;
    var k := |acc.records|;
    if k < count {
      WalkStep(image, va, count, acc);
      var rec := DebugRecordAt(image, va + IMAGE_DEBUG_DIRECTORY_SIZE * k);
      var acc' := RecordStep(acc, rec).value;
      WalkRecordsSymbols(image, va, count, acc');
      assert w == WalkDebugRecords(image, va, count, acc').value;
      assert w.records[..k + 1] == acc.records + [rec];
      assert w.records[k] == (w.records[..k + 1])[k] == rec;
      if Recorded(k, rec) {
        assert rec.addressOfRawData in acc'.symbols;
        assert w.symbols[rec.addressOfRawData] == acc'.symbols[rec.addressOfRawData];
      }
    }
  }

  // ------------------------------------------------------------------
  // The PDB signature
  // ------------------------------------------------------------------

  /** PEFileDebugSignature: the PDB's GUID (16 bytes), age and path. */
  datatype DebugSignature = DebugSignature(guid: seq<Byte>, age: U32, pdbPath: string)

  /** Guid.Empty, age 0 and the empty path. */
  function DefaultSignature(): (s: DebugSignature)
    ensures |s.guid| == GUID_SIZE && (forall k :: 0 <= k < GUID_SIZE ==> s.guid[k] == 0)
    ensures s.age == 0 && s.pdbPath == ""
  {
    DebugSignature(seq(GUID_SIZE, _ => 0), 0, "")
  }

  /** The index of the first CodeView record, if any. */
  function FirstCodeView(records: seq<DebugRecord>): (r: Option<nat>)
    ensures r.Some? ==> r.value < |records| && records[r.value].debugType == IMAGE_DEBUG_TYPE_CODEVIEW
    ensures r.Some? ==> forall k :: 0 <= k < r.value ==> records[k].debugType != IMAGE_DEBUG_TYPE_CODEVIEW
    ensures r.None? ==> forall k :: 0 <= k < |records| ==> records[k].debugType != IMAGE_DEBUG_TYPE_CODEVIEW
  {
    if records == [] then None
    else if records[0].debugType == IMAGE_DEBUG_TYPE_CODEVIEW then Some(0)
    else
      match FirstCodeView(records[1..])
      case None => None
      case Some(i) => Some(i + 1)
  }

  /** The RSDS block at `rva`, when it starts with the RSDS magic: the GUID
      at +4, the age at +20 and the ANSI path at +24. */
  function ReadRsds(image: seq<Byte>, rva: U32): (r: Result<Option<DebugSignature>, Error>)
    ensures r.Ok? ==> InBounds(image, rva, 4)
    ensures r.Ok? && r.value.Some? ==>
      && U32At(image, rva) == RSDS_SIGNATURE && InBounds(image, rva, RSDS_DEBUG_FORMAT_SIZE)
      && ReadAnsiString(image, rva + RSDS_DEBUG_FORMAT_SIZE).Ok?
      && r.value.value == DebugSignature(image[rva + 4..rva + 4 + GUID_SIZE], U32At(image, rva + 20),
                                         AnsiText(ReadAnsiString(image, rva + RSDS_DEBUG_FORMAT_SIZE).value))
    ensures r.Ok? && r.value.None? ==> U32At(image, rva) != RSDS_SIGNATURE
    ensures InBounds(image, rva, 4) && U32At(image, rva) != RSDS_SIGNATURE ==> r == Ok(None)
  {
    var magic :- ReadU32(image, rva);
    if magic != RSDS_SIGNATURE then Ok(None)
    else if !InBounds(image, rva, RSDS_DEBUG_FORMAT_SIZE) then Err(OutOfRange(rva, RSDS_DEBUG_FORMAT_SIZE))
    else
      var path :- ReadAnsiString(image, rva + RSDS_DEBUG_FORMAT_SIZE);
      Ok(Some(DebugSignature(image[rva + 4..rva + 4 + GUID_SIZE], U32At(image, rva + 20), AnsiText(path))))
  }

  /** The signature search: only the first CodeView record is examined, and
      the signature is replaced only if that record's data is an RSDS block. */
  function FindDebugSignature(image: seq<Byte>, records: seq<DebugRecord>, current: DebugSignature)
    : (r: Result<DebugSignature, Error>)
    ensures FirstCodeView(records).None? ==> r == Ok(current)
    ensures r.Ok? && r.value != current ==>
      && FirstCodeView(records).Some?
      && var rva := records[FirstCodeView(records).value].addressOfRawData;
         InBounds(image, rva, 4) && U32At(image, rva) == RSDS_SIGNATURE
  {
    match FirstCodeView(records)
    case None => Ok(current)
    case Some(i) =>
      var found :- ReadRsds(image, records[i].addressOfRawData);
      Ok(if found.Some? then found.value else current)
  }

  datatype DebugDirectoryState = DebugDirectoryState(
    symbols: Symbols,
    records: seq<DebugRecord>,
    signature: DebugSignature)

  /** ParseDebugDirectory: the Debug directory symbol, then, when the loader
      finds a debug directory (`found`), the records and the signature. */
  function ParseDebugDirectory(image: seq<Byte>, debugDirectory: DataDirectory, found: bool, st: DebugDirectoryState)
    : (r: Result<DebugDirectoryState, Error>)
    ensures r.Ok? ==> Extends(st.symbols, r.value.symbols)
    ensures r.Ok? && !found ==> r.value.records == st.records && r.value.signature == st.signature
    ensures r.Ok? && found ==>
      && |r.value.records| == |st.records| + RecordCount(debugDirectory)
      && r.value.records[..|st.records|] == st.records
  {
    var symbols :- AddDirectorySymbolIfPresent(st.symbols, debugDirectory, "Debug");
    if !found then Ok(DebugDirectoryState(symbols, st.records, st.signature))
    else
      var w :- WalkDebugRecords(image, debugDirectory.virtualAddress, RecordCount(debugDirectory), DebugWalk(symbols, []));
      var signature :- FindDebugSignature(image, st.records + w.records, st.signature);
      Ok(DebugDirectoryState(w.symbols, st.records + w.records, signature))
  }

  /** The signature comes from the first CodeView record's RSDS block. */
  lemma RsdsSignatureRead(image: seq<Byte>, records: seq<DebugRecord>, current: DebugSignature, i: nat)
    requires FirstCodeView(records) == Some(i)
    requires var rva := records[i].addressOfRawData;
             && InBounds(image, rva, RSDS_DEBUG_FORMAT_SIZE) && U32At(image, rva) == RSDS_SIGNATURE
             && ReadAnsiString(image, rva + RSDS_DEBUG_FORMAT_SIZE).Ok?
    ensures var rva := records[i].addressOfRawData;
            FindDebugSignature(image, records, current)
            == Ok(DebugSignature(image[rva + 4..rva + 4 + GUID_SIZE], U32At(image, rva + 20),
                                 AnsiText(ReadAnsiString(image, rva + RSDS_DEBUG_FORMAT_SIZE).value)))
  {
  }

  /** The search ends at the first CodeView record even when that record's
      data is not an RSDS block: a later CodeView record is not examined. */
  lemma SearchStopsAtFirstCodeView(image: seq<Byte>, records: seq<DebugRecord>, current: DebugSignature, i: nat)
    requires FirstCodeView(records) == Some(i)
    requires InBounds(image, records[i].addressOfRawData, 4)
    requires U32At(image, records[i].addressOfRawData) != RSDS_SIGNATURE
    ensures FindDebugSignature(image, records, current) == Ok(current)
  {
  }

  /** The walk ParseDebugDirectory runs over the table, from an inventory
      that already holds the Debug directory symbol. */
  ghost function TableWalk(image: seq<Byte>, debugDirectory: DataDirectory, st: DebugDirectoryState)
    : Result<DebugWalk, Error>
    requires AddDirectorySymbolIfPresent(st.symbols, debugDirectory, "Debug").Ok?
  {
    WalkDebugRecords(image, debugDirectory.virtualAddress, RecordCount(debugDirectory),
                     DebugWalk(AddDirectorySymbolIfPresent(st.symbols, debugDirectory, "Debug").value, []))
  }

  lemma ParseUnfolds(image: seq<Byte>, debugDirectory: DataDirectory, st: DebugDirectoryState)
    requires ParseDebugDirectory(image, debugDirectory, true, st).Ok?
    ensures AddDirectorySymbolIfPresent(st.symbols, debugDirectory, "Debug").Ok?
    ensures TableWalk(image, debugDirectory, st).Ok?
    ensures var r := ParseDebugDirectory(image, debugDirectory, true, st).value;
            var w := TableWalk(image, debugDirectory, st).value;
            r.records[|st.records|..] == w.records && r.symbols == w.symbols
  {
    var r := ParseDebugDirectory(image, debugDirectory, true, st).value;
    var w := TableWalk(image, debugDirectory, st).value;
    assert r.records == st.records + w.records;
  }

  /** With a debug directory, the records read are the table from its
      VirtualAddress, one record at least. */
  lemma DebugRecordsRead(image: seq<Byte>, debugDirectory: DataDirectory, st: DebugDirectoryState)
    requires ParseDebugDirectory(image, debugDirectory, true, st).Ok?
    ensures var r := ParseDebugDirectory(image, debugDirectory, true, st).value;
            var va := debugDirectory.virtualAddress;
            var recs := r.records[|st.records|..];
            && |recs| == RecordCount(debugDirectory)
            && forall k :: 0 <= k < |recs| ==>
                 InBounds(image, va + IMAGE_DEBUG_DIRECTORY_SIZE * k, IMAGE_DEBUG_DIRECTORY_SIZE)
                 && recs[k] == DebugRecordAt(image, va + IMAGE_DEBUG_DIRECTORY_SIZE * k)
  {
    ParseUnfolds(image, debugDirectory, st);
    var symbols := AddDirectorySymbolIfPresent(st.symbols, debugDirectory, "Debug").value;
    WalkReadsTable(image, debugDirectory.virtualAddress, RecordCount(debugDirectory), DebugWalk(symbols, []));
    var r := ParseDebugDirectory(image, debugDirectory, true, st).value;
    var w := TableWalk(image, debugDirectory, st).value;
    assert r.records[|st.records|..] == w.records;
    assert |w.records| == RecordCount(debugDirectory);
  }

  /** The inventory gains the Debug directory symbol and the raw data of the
      first record and of every later record whose SizeOfData is nonzero,
      and nothing else. */
  lemma DebugRecordsRecorded(image: seq<Byte>, debugDirectory: DataDirectory, st: DebugDirectoryState)
    requires ParseDebugDirectory(image, debugDirectory, true, st).Ok?
    ensures var r := ParseDebugDirectory(image, debugDirectory, true, st).value;
            var va := debugDirectory.virtualAddress;
            var recs := r.records[|st.records|..];
            && r.symbols.Keys == st.symbols.Keys + (if va != 0 then {va} else {}) + RecordedKeys(recs, 0)
            && (forall k :: 0 <= k < |recs| && Recorded(k, recs[k]) ==>
                  r.symbols[recs[k].addressOfRawData] == DebugSymbol(recs[k]))
  {
    ParseUnfolds(image, debugDirectory, st);
    var symbols := AddDirectorySymbolIfPresent(st.symbols, debugDirectory, "Debug").value;
    var acc := DebugWalk(symbols, []);
    WalkRecordsKeys(image, debugDirectory.virtualAddress, RecordCount(debugDirectory), acc);
    WalkRecordsSymbols(image, debugDirectory.virtualAddress, RecordCount(debugDirectory), acc);
  }

  /** The first record is recorded even when the directory is smaller than
      one record or the record's SizeOfData is 0. */
  lemma FirstRecordAlwaysRecorded(image: seq<Byte>, debugDirectory: DataDirectory, st: DebugDirectoryState)
    requires ParseDebugDirectory(image, debugDirectory, true, st).Ok?
    ensures var r := ParseDebugDirectory(image, debugDirectory, true, st).value;
            var first := r.records[|st.records|];
            first == DebugRecordAt(image, debugDirectory.virtualAddress)
            && first.addressOfRawData in r.symbols
            && r.symbols[first.addressOfRawData] == DebugSymbol(first)
  {
    DebugRecordsRead(image, debugDirectory, st);
    DebugRecordsRecorded(image, debugDirectory, st);
    var r := ParseDebugDirectory(image, debugDirectory, true, st).value;
    var recs := r.records[|st.records|..];
    assert recs[0] == r.records[|st.records|];
    assert Recorded(0, recs[0]);
    assert recs[0].addressOfRawData in RecordedKeys(recs, 0);
  }

  /** When the loader finds no debug directory, PEFile.DebugSignature keeps
      its default of Guid.Empty, age 0 and the empty path. */
  lemma NoDebugDirectoryKeepsDefault(image: seq<Byte>, debugDirectory: DataDirectory, symbols: Symbols)
    requires ParseDebugDirectory(image, debugDirectory, false, DebugDirectoryState(symbols, [], DefaultSignature())).Ok?
    ensures var r := ParseDebugDirectory(image, debugDirectory, false, DebugDirectoryState(symbols, [], DefaultSignature())).value;
            r.signature == DefaultSignature() && r.records == []
  {
  }
}
