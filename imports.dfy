/** The import directory walk of ParseImportTable (section "The .idata
    Section" of the PE/COFF specification): the array of import descriptors,
    and for each live descriptor the chain of thunks its OriginalFirstThunk
    points to.

    `DescriptorsFrom` and `ThunksFrom` are the loops as recursive functions,
    one call per iteration; the PEFile class runs them as loops.  The lemmas
    say, by position rather than by step, which symbols the walk records. */
module Imports {
  import opened Results
  import opened Bytes
  import opened IntSets
  import opened Inventory
  import opened Headers
  import opened PESymbols

  type Symbols = map<U32, PESymbol>

  /** Offsets within IMAGE_IMPORT_DESCRIPTOR. */
  const ORIGINAL_FIRST_THUNK_OFFSET: nat := 0
  const NAME_OFFSET: nat := 12

  predicate WordSize(ws: nat) {
    ws == 4 || ws == 8
  }

  /** IMAGE_THUNK_DATA64 or IMAGE_THUNK_DATA32 at `rva`. */
  function ReadThunk(image: seq<Byte>, ws: nat, rva: int): (r: Result<U64, Error>)
    requires WordSize(ws)
    ensures r.Ok? <==> InBounds(image, rva, ws)
    ensures r.Ok? ==> r.value == ThunkValue(image, ws, rva)
  {
    if ws == 8 then ReadU64(image, rva)
    else
      var t :- ReadU32(image, rva);
      Ok(t)
  }

  function ThunkValue(image: seq<Byte>, ws: nat, rva: int): U64
    requires WordSize(ws) && InBounds(image, rva, ws)
  {
    if ws == 8 then U64At(image, rva) else U32At(image, rva)
  }

  /** The high bit (bit 63 or bit 31) marks an import by ordinal only. */
  predicate IsOrdinalOnly(thunk: U64, ws: nat) {
    if ws == 8 then thunk >= TWO_63 else thunk >= TWO_31
  }

  /** The thunk chain from `rva`: a thunk whose low 16 bits are zero (the
      "ordinal" of the source) records a terminator and ends the chain; an
      ordinal-only thunk records its ordinal; any other thunk records its hint
      and name, and an ImportByName symbol at AddressOfData (the low 32 bits
      of the thunk) sized for the hint, the name and its NUL. */
  function ThunksFrom(image: Image, ws: nat, moduleName: string, rva: U32, syms: Symbols)
    : (r: Result<Symbols, Error>)
    requires WordSize(ws)
    ensures r.Ok? ==> Extends(syms, r.value)
    decreases |image| - rva
  {
    var thunk :- ReadThunk(image, ws, rva);
    if thunk % TWO_16 == 0 then
      Add(syms, rva, ImportThunkSymbol(rva, ws, 0, moduleName, Some(NULL_TERMINATOR_NAME)))
    else
      var s1 :- RecordThunk(image, ws, moduleName, rva, thunk, syms);
      ThunksFrom(image, ws, moduleName, Wrap32(rva + ws), s1)
  }

  /** One thunk that does not end the chain. */
  function RecordThunk(image: seq<Byte>, ws: nat, moduleName: string, rva: U32, thunk: U64, syms: Symbols)
    : (r: Result<Symbols, Error>)
    requires WordSize(ws)
    ensures r.Ok? ==> Extends(syms, r.value)
  {
    var ordinal := thunk % TWO_16;
    var addressOfData := thunk % TWO_32;
    if IsOrdinalOnly(thunk, ws) then
      Add(syms, rva, ImportThunkSymbol(rva, ws, ordinal, moduleName, None))
    else
      var hint :- ReadU16(image, addressOfData);
      var nameBytes :- ReadAnsiString(image, addressOfData + 2);
      var name := AnsiText(nameBytes);
      var s1 :- Add(syms, rva, ImportThunkSymbol(rva, ws, hint, moduleName, Some(name)));
      Add(s1, addressOfData, ImportByNameSymbol(addressOfData, |nameBytes| + 3, hint, moduleName, name))
  }

  /** What RecordThunk records: the thunk's ordinal, or its hint and name
      with the ImportByName entry. */
  lemma RecordThunkEntry(image: seq<Byte>, ws: nat, moduleName: string, rva: U32, thunk: U64, syms: Symbols)
    requires WordSize(ws)
    requires RecordThunk(image, ws, moduleName, rva, thunk, syms).Ok?
    ensures ThunkEntry(image, ws, moduleName, rva, thunk, RecordThunk(image, ws, moduleName, rva, thunk, syms).value)
  {
  }

  /** The descriptor array from `rva` up to `end`: a descriptor with Name 0
      or OriginalFirstThunk 0 records a terminator and ends the walk; any
      other records itself under the module name, the module name string,
      and its thunk chain.  The source moves two cursors 20 bytes on after
      a live descriptor: the pointer the fields are read through, which
      does not wrap, and the uint `descriptorRva`, which does and serves
      only as the loop test and the key.  While the pointer is below 2^32
      the two agree; once it passes 2^32 the walk goes on in `PastImage`.
      The walk ends because every step records a fresh key. */
  function DescriptorsFrom(image: Image, ws: nat, rva: U32, end: U32, syms: Symbols)
    : (r: Result<Symbols, Error>)
    requires WordSize(ws)
    ensures r.Ok? ==> Extends(syms, r.value)
    decreases TWO_32 - |syms.Keys|
  {
    if rva >= end then Ok(syms)
    else
      var name :- ReadU32(image, rva + NAME_OFFSET);
      var oft :- if name == 0 then Ok(0) else ReadU32(image, rva + ORIGINAL_FIRST_THUNK_OFFSET);
      if name == 0 || oft == 0 then
        Add(syms, rva, ImportDescriptorSymbol(rva, NULL_TERMINATOR_NAME))
      else
        var s1 :- RecordDescriptor(image, ws, rva, name, oft, syms);
        KeyCount(s1);
        FreshKeyGrows(syms, s1, rva);
        var next := rva + IMAGE_IMPORT_DESCRIPTOR_SIZE;
        if next < TWO_32 then DescriptorsFrom(image, ws, next, end, s1)
        else PastImage(image, next, end, s1)
  }

  /** The descriptor loop once its pointer `next` has passed 2^32, while
      `descriptorRva` has wrapped to `next` modulo 2^32: the wrapped loop
      test ends the walk, or the next turn reads Name through the pointer,
      outside every image. */
  function PastImage(image: Image, next: int, end: U32, syms: Symbols): (r: Result<Symbols, Error>)
    requires next >= TWO_32
    ensures r.Ok? <==> Wrap32(next) >= end
    ensures r.Ok? ==> r.value == syms
    ensures r.Err? ==> ReadU32(image, next + NAME_OFFSET) == Err(r.error)
  {
    if Wrap32(next) < end then Err(OutOfRange(next + NAME_OFFSET, 4)) else Ok(syms)
  }

  /** One live descriptor: the descriptor under its module name, the module
      name string, and the thunk chain from OriginalFirstThunk. */
  function RecordDescriptor(image: Image, ws: nat, rva: U32, name: U32, oft: U32, syms: Symbols)
    : (r: Result<Symbols, Error>)
    requires WordSize(ws)
    ensures r.Ok? ==> Extends(syms, r.value) && rva !in syms && rva in r.value
  {
    var moduleBytes :- ReadAnsiString(image, name);
    var moduleName := AnsiText(moduleBytes);
    var s1 :- Add(syms, rva, ImportDescriptorSymbol(rva, moduleName));
    var s2 :- Add(s1, name, PEDirectorySymbol(name, |moduleBytes| + 1, Label(StringLiteralLabel(moduleName))));
    var s3 :- ThunksFrom(image, ws, moduleName, oft, s2);
    Ok(s3)
  }

  /** A live descriptor's record as the steps the loop takes: its module
      name, the descriptor, the name string, then the thunk chain. */
  ghost function DescriptorSteps(image: Image, ws: nat, rva: U32, name: U32, oft: U32, syms: Symbols)
    : Result<Symbols, Error>
    requires WordSize(ws)
  {
    var moduleBytes :- ReadAnsiString(image, name);
    var moduleName := AnsiText(moduleBytes);
    var s1 :- Add(syms, rva, ImportDescriptorSymbol(rva, moduleName));
    var s2 :- Add(s1, name, PEDirectorySymbol(name, |moduleBytes| + 1, Label(StringLiteralLabel(moduleName))));
    ThunksFrom(image, ws, moduleName, oft, s2)
  }

  lemma RecordDescriptorUnfolds(image: Image, ws: nat, rva: U32, name: U32, oft: U32, syms: Symbols)
    requires WordSize(ws)
    ensures RecordDescriptor(image, ws, rva, name, oft, syms) == DescriptorSteps(image, ws, rva, name, oft, syms)
  {
  }

  /** What a live descriptor's record holds: the descriptor under its module
      name, the name string, and every thunk its chain reaches. */
  lemma RecordDescriptorContents(image: Image, ws: nat, rva: U32, name: U32, oft: U32, syms: Symbols)
    requires WordSize(ws)
    requires RecordDescriptor(image, ws, rva, name, oft, syms).Ok?
    ensures var m := RecordDescriptor(image, ws, rva, name, oft, syms).value;
      && ReadAnsiString(image, name).Ok?
      && var text := AnsiText(ReadAnsiString(image, name).value);
         && rva in m && m[rva] == ImportDescriptorSymbol(rva, text)
         && name in m && m[name] == PEDirectorySymbol(name, |text| + 1, Label(StringLiteralLabel(text)))
         && forall p :: ContinuesTo(image, ws, oft, p) ==> p < TWO_32 && ThunkRecordedAt(image, ws, text, p, m)
  {
    var moduleBytes := ReadAnsiString(image, name).value;
    var moduleName := AnsiText(moduleBytes);
    var s1 := Add(syms, rva, ImportDescriptorSymbol(rva, moduleName)).value;
    var s2 := Add(s1, name, PEDirectorySymbol(name, |moduleBytes| + 1, Label(StringLiteralLabel(moduleName)))).value;
    var s3 := ThunksFrom(image, ws, moduleName, oft, s2).value;
    RecordDescriptorUnfolds(image, ws, rva, name, oft, syms);
    assert ReadAnsiString(image, name) == Ok(moduleBytes);
    assert RecordDescriptor(image, ws, rva, name, oft, syms).value == s3;
    assert s3[rva] == s1[rva] && s3[name] == s2[name];
    AllThunksRecorded(image, ws, moduleName, oft, s2);
  }

  /** ParseImportTable: nothing for an empty table, else the descriptor walk
      up to VirtualAddress + Size (a uint sum). */
  function ParseImportTable(image: Image, ws: nat, importTable: DataDirectory, syms: Symbols)
    : (r: Result<Symbols, Error>)
    requires WordSize(ws)
    ensures importTable.size == 0 ==> r == Ok(syms)
    ensures r.Ok? ==> Extends(syms, r.value)
  {
    if importTable.size == 0 then Ok(syms)
    else DescriptorsFrom(image, ws, importTable.virtualAddress,
                         Wrap32(importTable.virtualAddress + importTable.size), syms)
  }

  // ------------------------------------------------------------------
  // Thunks by position
  // ------------------------------------------------------------------

  /** The thunk at `rva` does not end the chain. */
  ghost predicate ThunkContinues(image: seq<Byte>, ws: nat, rva: int)
    requires WordSize(ws)
  {
    InBounds(image, rva, ws) && ThunkValue(image, ws, rva) % TWO_16 != 0
  }

  /** What a thunk of value `t` at `at` that does not end the chain
      records: its ordinal, or its hint and name together with the
      ImportByName entry at AddressOfData. */
  ghost predicate ThunkEntry(image: seq<Byte>, ws: nat, moduleName: string, at: U32, t: U64, m: Symbols) {
    if IsOrdinalOnly(t, ws) then
      at in m && m[at] == ImportThunkSymbol(at, ws, t % TWO_16, moduleName, None)
    else
      NamedImportRecorded(image, ws, moduleName, at, t % TWO_32, m)
  }

  ghost predicate NamedImportRecorded(image: seq<Byte>, ws: nat, moduleName: string, at: U32, a: U32, m: Symbols) {
    && InBounds(image, a, 2) && ReadAnsiString(image, a + 2).Ok?
    && var name := ReadAnsiString(image, a + 2).value;
       var hint := U16At(image, a);
       && at in m && m[at] == ImportThunkSymbol(at, ws, hint, moduleName, Some(AnsiText(name)))
       && a in m && m[a] == ImportByNameSymbol(a, |name| + 3, hint, moduleName, AnsiText(name))
  }

  /** What the walk records for the thunk at `at`, read off the image. */
  ghost predicate ThunkRecordedAt(image: seq<Byte>, ws: nat, moduleName: string, at: U32, m: Symbols)
    requires WordSize(ws)
  {
    && InBounds(image, at, ws)
    && (ThunkValue(image, ws, at) % TWO_16 == 0 ==>
          at in m && m[at] == ImportThunkSymbol(at, ws, 0, moduleName, Some(NULL_TERMINATOR_NAME)))
    && (ThunkValue(image, ws, at) % TWO_16 != 0 ==>
          ThunkEntry(image, ws, moduleName, at, ThunkValue(image, ws, at), m))
  }

  lemma ThunkRecordedPersists(image: seq<Byte>, ws: nat, moduleName: string, at: U32, m: Symbols, m': Symbols)
    requires WordSize(ws)
    requires ThunkRecordedAt(image, ws, moduleName, at, m) && Extends(m, m')
    ensures ThunkRecordedAt(image, ws, moduleName, at, m')
  {
    var t := ThunkValue(image, ws, at);
    if t % TWO_16 != 0 {
      if IsOrdinalOnly(t, ws) {
      } else {
        assert NamedImportRecorded(image, ws, moduleName, at, t % TWO_32, m);
      }
    }
  }

  /** The first thunk of a chain is recorded. */
  lemma FirstThunkRecorded(image: Image, ws: nat, moduleName: string, rva: U32, syms: Symbols)
    requires WordSize(ws)
    requires ThunksFrom(image, ws, moduleName, rva, syms).Ok?
    ensures ThunkRecordedAt(image, ws, moduleName, rva, ThunksFrom(image, ws, moduleName, rva, syms).value)
  {
    var t := ThunkValue(image, ws, rva);
    if t % TWO_16 != 0 {
      var s1 := RecordThunk(image, ws, moduleName, rva, t, syms).value;
      RecordThunkEntry(image, ws, moduleName, rva, t, syms);
      assert ThunkRecordedAt(image, ws, moduleName, rva, s1);
      ThunkRecordedPersists(image, ws, moduleName, rva, s1, ThunksFrom(image, ws, moduleName, rva, syms).value);
    }
  }

  /** A thunk that does not end the chain passes to the next one. */
  lemma ThunkStep(image: Image, ws: nat, moduleName: string, rva: U32, syms: Symbols)
    requires WordSize(ws)
    requires ThunksFrom(image, ws, moduleName, rva, syms).Ok? && ThunkContinues(image, ws, rva)
    ensures rva + ws < TWO_32
    ensures RecordThunk(image, ws, moduleName, rva, ThunkValue(image, ws, rva), syms).Ok?
    ensures ThunksFrom(image, ws, moduleName, rva, syms)
            == ThunksFrom(image, ws, moduleName, rva + ws, RecordThunk(image, ws, moduleName, rva, ThunkValue(image, ws, rva), syms).value)
  {
    Wrap32Small(rva + ws);
  }

  /** Every thunk from `rva` up to, not including, `at` continues the
      chain, `at` being reached from `rva` in steps of the word size. */
  ghost predicate ContinuesTo(image: seq<Byte>, ws: nat, rva: int, at: int)
    requires WordSize(ws)
    decreases at - rva
  {
    rva == at || (rva < at && ThunkContinues(image, ws, rva) && ContinuesTo(image, ws, rva + ws, at))
  }

  lemma {:induction false} ContinuesToPositions(image: seq<Byte>, ws: nat, rva: int, k: nat)
    requires WordSize(ws)
    requires forall j :: 0 <= j < k ==> ThunkContinues(image, ws, rva + ws * j)
    ensures ContinuesTo(image, ws, rva, rva + ws * k)
    decreases k
  {
    if k > 0 {
      assert ThunkContinues(image, ws, rva + ws * 0);
      forall j | 0 <= j < k - 1
        ensures ThunkContinues(image, ws, rva + ws + ws * j)
      {
        assert rva + ws + ws * j == rva + ws * (j + 1);
      }
      ContinuesToPositions(image, ws, rva + ws, k - 1);
      assert rva + ws + ws * (k - 1) == rva + ws * k;
    }
  }

  /** The walk reaches every thunk the chain continues to and records it,
      by kind, as `ThunkRecordedAt` reads it off the image. */
  lemma {:induction false} ThunkRecordedWhenReached(image: Image, ws: nat, moduleName: string, rva: U32, at: int, syms: Symbols)
    requires WordSize(ws)
    requires ThunksFrom(image, ws, moduleName, rva, syms).Ok?
    requires ContinuesTo(image, ws, rva, at)
    ensures at < TWO_32
    ensures ThunkRecordedAt(image, ws, moduleName, at, ThunksFrom(image, ws, moduleName, rva, syms).value)
    decreases at - rva
  {
    if rva == at {
      FirstThunkRecorded(image, ws, moduleName, rva, syms);
    } else {
      ThunkStep(image, ws, moduleName, rva, syms);
      var s1 := RecordThunk(image, ws, moduleName, rva, ThunkValue(image, ws, rva), syms).value;
      ThunkRecordedWhenReached(image, ws, moduleName, rva + ws, at, s1);
    }
  }

  lemma AllThunksRecorded(image: Image, ws: nat, moduleName: string, rva: U32, syms: Symbols)
    requires WordSize(ws)
    requires ThunksFrom(image, ws, moduleName, rva, syms).Ok?
    ensures forall p :: ContinuesTo(image, ws, rva, p) ==>
              p < TWO_32 && ThunkRecordedAt(image, ws, moduleName, p, ThunksFrom(image, ws, moduleName, rva, syms).value)
  {
    forall p | ContinuesTo(image, ws, rva, p)
      ensures p < TWO_32 && ThunkRecordedAt(image, ws, moduleName, p, ThunksFrom(image, ws, moduleName, rva, syms).value)
    {
      ThunkRecordedWhenReached(image, ws, moduleName, rva, p, syms);
    }
  }

  /** The chain advances by the word size (8 bytes in PE32+, 4 in PE32):
      while the thunks before it do not end the chain, the k-th thunk is
      recorded. */
  lemma ThunkRecorded(image: Image, ws: nat, moduleName: string, rva: U32, syms: Symbols, k: nat)
    requires WordSize(ws)
    requires ThunksFrom(image, ws, moduleName, rva, syms).Ok?
    requires forall j :: 0 <= j < k ==> ThunkContinues(image, ws, rva + ws * j)
    ensures rva + ws * k < TWO_32
    ensures ThunkRecordedAt(image, ws, moduleName, rva + ws * k, ThunksFrom(image, ws, moduleName, rva, syms).value)
  {
    ContinuesToPositions(image, ws, rva, k);
    var at := rva + ws * k;
    var m := ThunksFrom(image, ws, moduleName, rva, syms).value;
    ThunkRecordedWhenReached(image, ws, moduleName, rva, at, syms);
    assert ThunkRecordedAt(image, ws, moduleName, at, m);
  }

  /** A named import whose AddressOfData has zero low 16 bits is taken for
      the terminator: the low 16 bits of every thunk are tested, not only
      those of ordinal imports. */
  lemma NamedThunkAt64KiBEndsChain()
    ensures ThunksFrom(LE32(0x1_0000), 4, "m", 0, map[])
            == Ok(map[0 := ImportThunkSymbol(0, 4, 0, "m", Some(NULL_TERMINATOR_NAME))])
  {
    U32RoundTrip([], 0x1_0000, []);
    assert [] + LE32(0x1_0000) + [] == LE32(0x1_0000);
  }

  // ------------------------------------------------------------------
  // Descriptors by position
  // ------------------------------------------------------------------

  /** A descriptor with nonzero Name and OriginalFirstThunk. */
  ghost predicate LiveDescriptorAt(image: seq<Byte>, at: int) {
    && InBounds(image, at + NAME_OFFSET, 4) && U32At(image, at + NAME_OFFSET) != 0
    && InBounds(image, at + ORIGINAL_FIRST_THUNK_OFFSET, 4) && U32At(image, at + ORIGINAL_FIRST_THUNK_OFFSET) != 0
  }

  /** The module name of a live descriptor, when the string can be read. */
  ghost predicate ModuleNameReadable(image: seq<Byte>, at: int) {
    LiveDescriptorAt(image, at) && ReadAnsiString(image, U32At(image, at + NAME_OFFSET)).Ok?
  }

  ghost function ModuleNameAt(image: seq<Byte>, at: int): string
    requires ModuleNameReadable(image, at)
  {
    AnsiText(ReadAnsiString(image, U32At(image, at + NAME_OFFSET)).value)
  }

  /** A live descriptor recorded under its module name, together with the
      name string (its length plus the NUL). */
  ghost predicate ModuleRecorded(image: seq<Byte>, at: U32, m: Symbols) {
    && ModuleNameReadable(image, at)
    && var name: U32 := U32At(image, at + NAME_OFFSET);
       var text := ModuleNameAt(image, at);
       && at in m && m[at] == ImportDescriptorSymbol(at, text)
       && name in m && m[name] == PEDirectorySymbol(name, |text| + 1, Label(StringLiteralLabel(text)))
  }

  /** What the walk records for the descriptor at `at`: a live descriptor
      as `ModuleRecorded` says, any other as the null terminator. */
  ghost predicate DescriptorRecordedAt(image: seq<Byte>, at: U32, m: Symbols) {
    && (LiveDescriptorAt(image, at) ==> ModuleRecorded(image, at, m))
    && (!LiveDescriptorAt(image, at) ==> at in m && m[at] == ImportDescriptorSymbol(at, NULL_TERMINATOR_NAME))
  }

  lemma DescriptorRecordedPersists(image: seq<Byte>, at: U32, m: Symbols, m': Symbols)
    requires DescriptorRecordedAt(image, at, m) && Extends(m, m')
    ensures DescriptorRecordedAt(image, at, m')
  {
    if LiveDescriptorAt(image, at) {
      assert ModuleRecorded(image, at, m);
    }
  }

  /** The map a live descriptor at `rva` leaves for the rest of the walk. */
  ghost function AfterDescriptor(image: Image, ws: nat, rva: U32, syms: Symbols): Result<Symbols, Error>
    requires WordSize(ws) && LiveDescriptorAt(image, rva)
  {
    RecordDescriptor(image, ws, rva, U32At(image, rva + NAME_OFFSET), U32At(image, rva + ORIGINAL_FIRST_THUNK_OFFSET), syms)
  }

  /** The rest of the walk after a live descriptor at `rva`. */
  ghost function DescriptorsAfter(image: Image, ws: nat, rva: U32, end: U32, syms: Symbols): Result<Symbols, Error>
    requires WordSize(ws) && LiveDescriptorAt(image, rva)
  {
    var s1 :- AfterDescriptor(image, ws, rva, syms);
    KeyCount(s1);
    var next := rva + IMAGE_IMPORT_DESCRIPTOR_SIZE;
    if next < TWO_32 then DescriptorsFrom(image, ws, next, end, s1)
    else PastImage(image, next, end, s1)
  }

  lemma LiveDescriptorUnfolds(image: Image, ws: nat, rva: U32, end: U32, syms: Symbols)
    requires WordSize(ws)
    requires rva < end && LiveDescriptorAt(image, rva)
    ensures DescriptorsFrom(image, ws, rva, end, syms) == DescriptorsAfter(image, ws, rva, end, syms)
  {
  }

  lemma LiveDescriptorSucceeds(image: Image, ws: nat, rva: U32, end: U32, syms: Symbols)
    requires WordSize(ws)
    requires rva < end && LiveDescriptorAt(image, rva)
    requires DescriptorsFrom(image, ws, rva, end, syms).Ok?
    ensures AfterDescriptor(image, ws, rva, syms).Ok?
  {
  }

  /** One step of the descriptor walk past a live descriptor: the next
      descriptor is read 20 bytes further on, without wrapping; a walk that
      succeeds and whose pointer passes 2^32 has ended there, the wrapped
      `descriptorRva` having failed the loop test. */
  lemma LiveDescriptorStep(image: Image, ws: nat, rva: U32, end: U32, syms: Symbols)
    requires WordSize(ws)
    requires rva < end && LiveDescriptorAt(image, rva)
    requires DescriptorsFrom(image, ws, rva, end, syms).Ok?
    ensures AfterDescriptor(image, ws, rva, syms).Ok?
    ensures rva + IMAGE_IMPORT_DESCRIPTOR_SIZE < TWO_32 ==>
              DescriptorsFrom(image, ws, rva, end, syms)
              == DescriptorsFrom(image, ws, rva + IMAGE_IMPORT_DESCRIPTOR_SIZE, end, AfterDescriptor(image, ws, rva, syms).value)
    ensures rva + IMAGE_IMPORT_DESCRIPTOR_SIZE >= TWO_32 ==>
              && Wrap32(rva + IMAGE_IMPORT_DESCRIPTOR_SIZE) >= end
              && DescriptorsFrom(image, ws, rva, end, syms).value == AfterDescriptor(image, ws, rva, syms).value
  {
    LiveDescriptorSucceeds(image, ws, rva, end, syms);
    LiveDescriptorUnfolds(image, ws, rva, end, syms);
  }

  /** A live descriptor in the last 20 bytes below 2^32, in a table whose
      end the wrapped RVA has not reached: the pointer has left the address
      space and the next Name read fails there, 2^32 bytes past where the
      wrapped RVA would point. */
  lemma PointerPastAddressSpace(image: Image, ws: nat, rva: U32, end: U32, syms: Symbols)
    requires WordSize(ws)
    requires rva < end && LiveDescriptorAt(image, rva) && AfterDescriptor(image, ws, rva, syms).Ok?
    requires rva + IMAGE_IMPORT_DESCRIPTOR_SIZE >= TWO_32 && Wrap32(rva + IMAGE_IMPORT_DESCRIPTOR_SIZE) < end
    ensures DescriptorsFrom(image, ws, rva, end, syms)
            == Err(OutOfRange(rva + IMAGE_IMPORT_DESCRIPTOR_SIZE + NAME_OFFSET, 4))
    ensures rva + IMAGE_IMPORT_DESCRIPTOR_SIZE + NAME_OFFSET
            == Wrap32(rva + IMAGE_IMPORT_DESCRIPTOR_SIZE) + NAME_OFFSET + TWO_32
  {
    LiveDescriptorUnfolds(image, ws, rva, end, syms);
  }

  lemma RecordDescriptorRecords(image: Image, ws: nat, rva: U32, syms: Symbols)
    requires WordSize(ws) && LiveDescriptorAt(image, rva)
    requires AfterDescriptor(image, ws, rva, syms).Ok?
    ensures DescriptorRecordedAt(image, rva, AfterDescriptor(image, ws, rva, syms).value)
  {
    RecordDescriptorContents(image, ws, rva, U32At(image, rva + NAME_OFFSET), U32At(image, rva + ORIGINAL_FIRST_THUNK_OFFSET), syms);
    assert ModuleRecorded(image, rva, AfterDescriptor(image, ws, rva, syms).value);
  }

  /** A descriptor that is not live ends the walk as the null terminator. */
  lemma DeadDescriptorRecorded(image: Image, ws: nat, rva: U32, end: U32, syms: Symbols)
    requires WordSize(ws)
    requires rva < end && !LiveDescriptorAt(image, rva)
    requires DescriptorsFrom(image, ws, rva, end, syms).Ok?
    ensures DescriptorsFrom(image, ws, rva, end, syms).value
            == syms[rva := ImportDescriptorSymbol(rva, NULL_TERMINATOR_NAME)]
  {
  }

  lemma FirstDescriptorRecorded(image: Image, ws: nat, rva: U32, end: U32, syms: Symbols)
    requires WordSize(ws)
    requires rva < end
    requires DescriptorsFrom(image, ws, rva, end, syms).Ok?
    ensures DescriptorRecordedAt(image, rva, DescriptorsFrom(image, ws, rva, end, syms).value)
  {
    var m := DescriptorsFrom(image, ws, rva, end, syms).value;
    if LiveDescriptorAt(image, rva) {
      LiveDescriptorStep(image, ws, rva, end, syms);
      RecordDescriptorRecords(image, ws, rva, syms);
      DescriptorRecordedPersists(image, rva, AfterDescriptor(image, ws, rva, syms).value, m);
    } else {
      DeadDescriptorRecorded(image, ws, rva, end, syms);
    }
  }

  /** Every descriptor from `rva` up to, not including, `at` is live, `at`
      being reached from `rva` in steps of 20 bytes. */
  ghost predicate LiveTo(image: seq<Byte>, rva: int, at: int)
    decreases at - rva
  {
    rva == at || (rva < at && LiveDescriptorAt(image, rva) && LiveTo(image, rva + IMAGE_IMPORT_DESCRIPTOR_SIZE, at))
  }

  lemma {:induction false} LiveToPositions(image: seq<Byte>, rva: int, k: nat)
    requires forall j :: 0 <= j < k ==> LiveDescriptorAt(image, rva + IMAGE_IMPORT_DESCRIPTOR_SIZE * j)
    ensures LiveTo(image, rva, rva + IMAGE_IMPORT_DESCRIPTOR_SIZE * k)
    decreases k
  {
    if k > 0 {
      assert LiveDescriptorAt(image, rva + IMAGE_IMPORT_DESCRIPTOR_SIZE * 0);
      var next := rva + IMAGE_IMPORT_DESCRIPTOR_SIZE;
      forall j | 0 <= j < k - 1
        ensures LiveDescriptorAt(image, next + IMAGE_IMPORT_DESCRIPTOR_SIZE * j)
      {
        assert next + IMAGE_IMPORT_DESCRIPTOR_SIZE * j == rva + IMAGE_IMPORT_DESCRIPTOR_SIZE * (j + 1);
      }
      LiveToPositions(image, next, k - 1);
      assert next + IMAGE_IMPORT_DESCRIPTOR_SIZE * (k - 1) == rva + IMAGE_IMPORT_DESCRIPTOR_SIZE * k;
    }
  }

  /** The walk reaches every descriptor below the table end that the live
      descriptors lead to, and records it. */
  lemma {:induction false} DescriptorRecordedWhenReached(image: Image, ws: nat, rva: U32, end: U32, at: int, syms: Symbols)
    requires WordSize(ws)
    requires DescriptorsFrom(image, ws, rva, end, syms).Ok?
    requires LiveTo(image, rva, at) && at < end
    ensures DescriptorRecordedAt(image, at, DescriptorsFrom(image, ws, rva, end, syms).value)
    decreases at - rva
  {
    if rva == at {
      FirstDescriptorRecorded(image, ws, rva, end, syms);
    } else {
      LiveDescriptorStep(image, ws, rva, end, syms);
      DescriptorRecordedWhenReached(image, ws, rva + IMAGE_IMPORT_DESCRIPTOR_SIZE, end, at, AfterDescriptor(image, ws, rva, syms).value);
    }
  }

  lemma RecordDescriptorThunks(image: Image, ws: nat, rva: U32, syms: Symbols, p: int)
    requires WordSize(ws) && LiveDescriptorAt(image, rva)
    requires AfterDescriptor(image, ws, rva, syms).Ok?
    requires ContinuesTo(image, ws, U32At(image, rva + ORIGINAL_FIRST_THUNK_OFFSET), p)
    ensures ModuleNameReadable(image, rva) && p < TWO_32
    ensures ThunkRecordedAt(image, ws, ModuleNameAt(image, rva), p, AfterDescriptor(image, ws, rva, syms).value)
  {
    RecordDescriptorContents(image, ws, rva, U32At(image, rva + NAME_OFFSET), U32At(image, rva + ORIGINAL_FIRST_THUNK_OFFSET), syms);
  }

  /** Thunk chains by position: for a live descriptor the walk reaches,
      every thunk its chain reaches is recorded under the descriptor's
      module name. */
  lemma {:induction false} DescriptorThunksRecordedWhenReached(image: Image, ws: nat, rva: U32, end: U32, at: int, syms: Symbols, p: int)
    requires WordSize(ws)
    requires DescriptorsFrom(image, ws, rva, end, syms).Ok?
    requires LiveTo(image, rva, at) && at < end && LiveDescriptorAt(image, at)
    requires ContinuesTo(image, ws, U32At(image, at + ORIGINAL_FIRST_THUNK_OFFSET), p)
    ensures ModuleNameReadable(image, at) && p < TWO_32
    ensures ThunkRecordedAt(image, ws, ModuleNameAt(image, at), p, DescriptorsFrom(image, ws, rva, end, syms).value)
    decreases at - rva
  {
    LiveDescriptorStep(image, ws, rva, end, syms);
    var s1 := AfterDescriptor(image, ws, rva, syms).value;
    var m := DescriptorsFrom(image, ws, rva, end, syms).value;
    if rva == at {
      RecordDescriptorThunks(image, ws, rva, syms, p);
      ThunkRecordedPersists(image, ws, ModuleNameAt(image, rva), p, s1, m);
    } else {
      DescriptorThunksRecordedWhenReached(image, ws, rva + IMAGE_IMPORT_DESCRIPTOR_SIZE, end, at, s1, p);
      assert m == DescriptorsFrom(image, ws, rva + IMAGE_IMPORT_DESCRIPTOR_SIZE, end, s1).value;
    }
  }

  // ------------------------------------------------------------------
  // The keys the walk adds
  // ------------------------------------------------------------------

  /** A key the thunk at `p` contributes: its own RVA and, for a named
      import, the AddressOfData of its ImportByName entry. */
  ghost predicate ThunkKey(image: seq<Byte>, ws: nat, p: int, k: int)
    requires WordSize(ws)
  {
    || k == p
    || (&& ThunkContinues(image, ws, p) && !IsOrdinalOnly(ThunkValue(image, ws, p), ws)
        && k == ThunkValue(image, ws, p) % TWO_32)
  }

  /** RecordThunk adds the thunk and, for a named import, its ImportByName
      entry, and no other key. */
  lemma RecordThunkKeys(image: seq<Byte>, ws: nat, moduleName: string, rva: U32, thunk: U64, syms: Symbols)
    requires WordSize(ws)
    requires RecordThunk(image, ws, moduleName, rva, thunk, syms).Ok?
    ensures RecordThunk(image, ws, moduleName, rva, thunk, syms).value.Keys
            == syms.Keys + {rva} + (if IsOrdinalOnly(thunk, ws) then {} else {thunk % TWO_32})
  {
  }

  /** Every key the thunk walk adds belongs to a thunk it reaches. */
  lemma {:induction false} ThunkKeysOnly(image: Image, ws: nat, moduleName: string, rva: U32, syms: Symbols, k: U32)
    returns (p: int)
    requires WordSize(ws)
    requires ThunksFrom(image, ws, moduleName, rva, syms).Ok?
    requires k in ThunksFrom(image, ws, moduleName, rva, syms).value && k !in syms
    ensures rva <= p && ContinuesTo(image, ws, rva, p) && ThunkKey(image, ws, p, k)
    decreases |image| - rva
  {
    var t := ThunkValue(image, ws, rva);
    if t % TWO_16 == 0 {
      p := rva;
    } else {
      ThunkStep(image, ws, moduleName, rva, syms);
      var s1 := RecordThunk(image, ws, moduleName, rva, t, syms).value;
      RecordThunkKeys(image, ws, moduleName, rva, t, syms);
      if k in s1 {
        p := rva;
      } else {
        p := ThunkKeysOnly(image, ws, moduleName, rva + ws, s1, k);
      }
    }
  }

  /** A key of a thunk that the walk recorded is in the inventory. */
  lemma ThunkKeyRecorded(image: seq<Byte>, ws: nat, moduleName: string, p: U32, k: int, m: Symbols)
    requires WordSize(ws)
    requires ThunkRecordedAt(image, ws, moduleName, p, m) && ThunkKey(image, ws, p, k)
    ensures k in m
  {
    var t := ThunkValue(image, ws, p);
    if t % TWO_16 != 0 && !IsOrdinalOnly(t, ws) {
      assert NamedImportRecorded(image, ws, moduleName, p, t % TWO_32, m);
    }
  }

  /** The walk from `rva` reaches the descriptor at `at` after `n` live
      descriptors, each step 20 bytes on, below 2^32 and below the table
      end. */
  ghost predicate DescriptorReached(image: seq<Byte>, rva: U32, end: U32, n: nat, at: U32)
    decreases n
  {
    && rva < end
    && if n == 0 then at == rva
       else && LiveDescriptorAt(image, rva) && rva + IMAGE_IMPORT_DESCRIPTOR_SIZE < TWO_32
            && DescriptorReached(image, rva + IMAGE_IMPORT_DESCRIPTOR_SIZE, end, n - 1, at)
  }

  lemma ReachedAfterLive(image: seq<Byte>, rva: U32, end: U32, n: nat, at: U32) returns (n': nat)
    requires rva < end && LiveDescriptorAt(image, rva) && rva + IMAGE_IMPORT_DESCRIPTOR_SIZE < TWO_32
    requires DescriptorReached(image, rva + IMAGE_IMPORT_DESCRIPTOR_SIZE, end, n, at)
    ensures n' == n + 1 && DescriptorReached(image, rva, end, n', at)
  {
    n' := n + 1;
  }

  /** A key the descriptor at `at` contributes: its own RVA and, for a live
      descriptor, its module name string and the keys of the thunks its
      chain reaches (`p` being one of them). */
  ghost predicate DescriptorKey(image: seq<Byte>, ws: nat, at: U32, p: int, k: int)
    requires WordSize(ws)
  {
    || k == at
    || (&& LiveDescriptorAt(image, at)
        && (|| k == U32At(image, at + NAME_OFFSET)
            || (ContinuesTo(image, ws, U32At(image, at + ORIGINAL_FIRST_THUNK_OFFSET), p) && ThunkKey(image, ws, p, k))))
  }

  /** A key the descriptor walk from `rva` to `end` adds. */
  ghost predicate WalkKey(image: seq<Byte>, ws: nat, rva: U32, end: U32, k: int)
    requires WordSize(ws)
  {
    exists n: nat, at: U32, p: int :: DescriptorReached(image, rva, end, n, at) && DescriptorKey(image, ws, at, p, k)
  }

  /** The keys a live descriptor adds: its own, its module name's and its
      thunks'. */
  lemma RecordDescriptorKeysOnly(image: Image, ws: nat, rva: U32, name: U32, oft: U32, syms: Symbols, k: U32)
    returns (p: int)
    requires WordSize(ws)
    requires RecordDescriptor(image, ws, rva, name, oft, syms).Ok?
    requires k in RecordDescriptor(image, ws, rva, name, oft, syms).value && k !in syms
    ensures k == rva || k == name || (ContinuesTo(image, ws, oft, p) && ThunkKey(image, ws, p, k))
  {
    var moduleBytes := ReadAnsiString(image, name).value;
    var moduleName := AnsiText(moduleBytes);
    var s1 := Add(syms, rva, ImportDescriptorSymbol(rva, moduleName)).value;
    var s2 := Add(s1, name, PEDirectorySymbol(name, |moduleBytes| + 1, Label(StringLiteralLabel(moduleName)))).value;
    RecordDescriptorUnfolds(image, ws, rva, name, oft, syms);
    assert ReadAnsiString(image, name) == Ok(moduleBytes);
    var s3 := ThunksFrom(image, ws, moduleName, oft, s2).value;
    assert RecordDescriptor(image, ws, rva, name, oft, syms).value == s3;
    assert s2.Keys == syms.Keys + {rva, name};
    p := 0;
    if k != rva && k != name {
      p := ThunkKeysOnly(image, ws, moduleName, oft, s2, k);
    }
  }

  /** Every key the descriptor walk adds belongs to a descriptor it
      reaches. */
  lemma {:induction false} DescriptorKeysOnly(image: Image, ws: nat, rva: U32, end: U32, syms: Symbols, k: U32)
    returns (n: nat, at: U32, p: int)
    requires WordSize(ws)
    requires DescriptorsFrom(image, ws, rva, end, syms).Ok?
    requires k in DescriptorsFrom(image, ws, rva, end, syms).value && k !in syms
    ensures DescriptorReached(image, rva, end, n, at) && DescriptorKey(image, ws, at, p, k)
    decreases TWO_32 - |syms.Keys|, 1
  {
    if rva >= end {
      assert false;
    } else if !LiveDescriptorAt(image, rva) {
      DeadDescriptorRecorded(image, ws, rva, end, syms);
      return 0, rva, 0;
    } else {
      n, at, p := LiveDescriptorKeysOnly(image, ws, rva, end, syms, k);
    }
  }

  /** A key a live descriptor's own record adds is one of its keys. */
  lemma OwnDescriptorKey(image: Image, ws: nat, rva: U32, end: U32, syms: Symbols, k: U32)
    returns (n: nat, at: U32, p: int)
    requires WordSize(ws)
    requires rva < end && LiveDescriptorAt(image, rva)
    requires AfterDescriptor(image, ws, rva, syms).Ok?
    requires k in AfterDescriptor(image, ws, rva, syms).value && k !in syms
    ensures DescriptorReached(image, rva, end, n, at) && DescriptorKey(image, ws, at, p, k)
  {
    p := RecordDescriptorKeysOnly(image, ws, rva, U32At(image, rva + NAME_OFFSET),
                                  U32At(image, rva + ORIGINAL_FIRST_THUNK_OFFSET), syms, k);
    return 0, rva, p;
  }

  /** DescriptorKeysOnly past a live descriptor: the key is the
      descriptor's own, or one the rest of the walk adds. */
  lemma {:induction false} LiveDescriptorKeysOnly(image: Image, ws: nat, rva: U32, end: U32, syms: Symbols, k: U32)
    returns (n: nat, at: U32, p: int)
    requires WordSize(ws)
    requires rva < end && LiveDescriptorAt(image, rva)
    requires DescriptorsFrom(image, ws, rva, end, syms).Ok?
    requires k in DescriptorsFrom(image, ws, rva, end, syms).value && k !in syms
    ensures DescriptorReached(image, rva, end, n, at) && DescriptorKey(image, ws, at, p, k)
    decreases TWO_32 - |syms.Keys|, 0
  {
    LiveDescriptorStep(image, ws, rva, end, syms);
    var s1 := AfterDescriptor(image, ws, rva, syms).value;
    if k in s1 {
      n, at, p := OwnDescriptorKey(image, ws, rva, end, syms, k);
    } else {
      KeyCount(s1);
      FreshKeyGrows(syms, s1, rva);
      assert rva + IMAGE_IMPORT_DESCRIPTOR_SIZE < TWO_32;
      n, at, p := DescriptorKeysOnly(image, ws, rva + IMAGE_IMPORT_DESCRIPTOR_SIZE, end, s1, k);
      n := ReachedAfterLive(image, rva, end, n, at);
    }
  }

  /** Every descriptor the walk reaches is recorded. */
  lemma {:induction false} DescriptorRecordedAfter(image: Image, ws: nat, rva: U32, end: U32, syms: Symbols, n: nat, at: U32)
    requires WordSize(ws)
    requires DescriptorsFrom(image, ws, rva, end, syms).Ok?
    requires DescriptorReached(image, rva, end, n, at)
    ensures DescriptorRecordedAt(image, at, DescriptorsFrom(image, ws, rva, end, syms).value)
    decreases n
  {
    if n == 0 {
      FirstDescriptorRecorded(image, ws, rva, end, syms);
    } else {
      LiveDescriptorStep(image, ws, rva, end, syms);
      DescriptorRecordedAfter(image, ws, rva + IMAGE_IMPORT_DESCRIPTOR_SIZE, end,
                              AfterDescriptor(image, ws, rva, syms).value, n - 1, at);
    }
  }

  /** Every thunk of every live descriptor the walk reaches is recorded
      under that descriptor's module name. */
  lemma {:induction false} DescriptorThunksRecordedAfter(image: Image, ws: nat, rva: U32, end: U32, syms: Symbols,
                                                         n: nat, at: U32, p: int)
    requires WordSize(ws)
    requires DescriptorsFrom(image, ws, rva, end, syms).Ok?
    requires DescriptorReached(image, rva, end, n, at) && LiveDescriptorAt(image, at)
    requires ContinuesTo(image, ws, U32At(image, at + ORIGINAL_FIRST_THUNK_OFFSET), p)
    ensures ModuleNameReadable(image, at) && p < TWO_32
    ensures ThunkRecordedAt(image, ws, ModuleNameAt(image, at), p, DescriptorsFrom(image, ws, rva, end, syms).value)
    decreases n
  {
    LiveDescriptorStep(image, ws, rva, end, syms);
    var s1 := AfterDescriptor(image, ws, rva, syms).value;
    if n == 0 {
      RecordDescriptorThunks(image, ws, rva, syms, p);
      ThunkRecordedPersists(image, ws, ModuleNameAt(image, rva), p, s1, DescriptorsFrom(image, ws, rva, end, syms).value);
    } else {
      DescriptorThunksRecordedAfter(image, ws, rva + IMAGE_IMPORT_DESCRIPTOR_SIZE, end, s1, n - 1, at, p);
    }
  }

  /** The descriptor walk adds exactly the keys of the descriptors it
      reaches: each descriptor, the terminator included; each live one's
      module name string; each thunk of its chain, the terminator included;
      and each named thunk's ImportByName entry. */
  lemma DescriptorWalkKeys(image: Image, ws: nat, rva: U32, end: U32, syms: Symbols)
    requires WordSize(ws)
    requires DescriptorsFrom(image, ws, rva, end, syms).Ok?
    ensures forall k: U32 :: k in DescriptorsFrom(image, ws, rva, end, syms).value <==> k in syms || WalkKey(image, ws, rva, end, k)
  {
    var m := DescriptorsFrom(image, ws, rva, end, syms).value;
    forall k: U32
      ensures k in m <==> k in syms || WalkKey(image, ws, rva, end, k)
    {
      if k in m && k !in syms {
        var n, at, p := DescriptorKeysOnly(image, ws, rva, end, syms, k);
        assert DescriptorReached(image, rva, end, n, at) && DescriptorKey(image, ws, at, p, k);
      }
      if k !in syms && WalkKey(image, ws, rva, end, k) {
        var n: nat, at: U32, p: int :| DescriptorReached(image, rva, end, n, at) && DescriptorKey(image, ws, at, p, k);
        DescriptorRecordedAfter(image, ws, rva, end, syms, n, at);
        if k != at {
          assert ModuleRecorded(image, at, m);
          if k != U32At(image, at + NAME_OFFSET) {
            DescriptorThunksRecordedAfter(image, ws, rva, end, syms, n, at, p);
            ThunkKeyRecorded(image, ws, ModuleNameAt(image, at), p, k, m);
          }
        }
      }
    }
  }

  /** ParseImportTable adds nothing for an empty table and otherwise
      exactly the keys of the descriptor walk from VirtualAddress to
      VirtualAddress + Size. */
  lemma ImportTableKeys(image: Image, ws: nat, importTable: DataDirectory, syms: Symbols)
    requires WordSize(ws)
    requires ParseImportTable(image, ws, importTable, syms).Ok?
    ensures forall k: U32 :: k in ParseImportTable(image, ws, importTable, syms).value <==>
              || k in syms
              || (&& importTable.size != 0
                  && WalkKey(image, ws, importTable.virtualAddress, Wrap32(importTable.virtualAddress + importTable.size), k))
  {
    if importTable.size != 0 {
      DescriptorWalkKeys(image, ws, importTable.virtualAddress, Wrap32(importTable.virtualAddress + importTable.size), syms);
    }
  }
}
