# SizeBench PE walker and template-name genericiser, in Dafny

SizeBench explains what takes up space in a Windows binary.  This project
models two parts of its analysis engine and proves properties of them:

- **`PEFile`**, the walker over a loaded PE image.  It reads the NT headers
  (32- or 64-bit layout, a whitelist of machine types) and the import table:
  the descriptors, each module name string and each thunk chain with its
  hint/name entries.  It also walks the debug directory (its records and the
  RSDS CodeView signature) and the whole resource tree: directories, named
  entries' strings, data entries, GROUP_ICON and GROUP_CURSOR members, and
  STRINGTABLE blocks grouped into runs of adjacent tables.  The result is two
  inventories of symbols keyed by RVA, `OtherPESymbols` and `RsrcSymbols`.
  Further operations compare byte ranges of the image, rebase a pointer
  stored relative to the preferred load address, and strip the
  FORCE_INTEGRITY bit from a copy of the file.
- **`SymbolNameHelper`**, which turns a concrete template name such as
  `ns::Foo<int,Bar>::f` into its generic form `ns::Foo<T1,T2>::f`.  For a
  function it then lists the argument types: each anonymised concrete name
  in them is replaced by its placeholder, and " const" and " volatile" are
  appended when the function type has them.

## How the model is built

- **The image.**  It is a `seq<Byte>` indexed by RVA, so reading a structure
  at an RVA is reading bytes at that index.  Every read in a walk is
  checked.  A read past the end is the error `OutOfRange(rva, size)`, which
  stands for the access violation the native code would raise.
  `ReadU16`/`ReadU32`/`ReadU64` decode little-endian values, and round-trip
  lemmas tie them to the encoders `LE16`/`LE32`/`LE64`.
- **Unsigned arithmetic.**  The source's `uint` RVA arithmetic wraps.  It is
  written explicitly as `Wrap32` in these places:
  - the import table end `VirtualAddress + Size`;
  - the uint `descriptorRva`, which is only the descriptor loop's test and
    the key;
  - the thunk cursor `thunkRva`, which never wraps after a read that
    succeeds, because that read ends inside an image shorter than 2^32
    bytes;
  - the icon/cursor RVAs walked backwards;
  - `RoundUpTo8ByteAlignment`;
  - the rebasing cast.
- **Pointers.**  The descriptor fields are read through the pointer
  `descriptor`, which `descriptor++` moves on 20 bytes and which does not
  wrap.  The model reads them at the unwrapped offset, and
  `Imports.PastImage` is the walk once that offset has passed 2^32: there
  the wrapped loop test ends the walk, or the Name read fails.
- **The symbol inventories.**  Both are `SortedList<uint, …>` in the source,
  here `map<U32, …>`:
  - `Inventory.Add` fails with `DuplicateKey` where `SortedList.Add` throws,
    and the error aborts the whole parse.
  - `Inventory.TryAdd` keeps the existing entry.
  - `Inventory.InKeyOrder` is the enumeration in ascending key order.
  - `Extends(m, m')` ("`m'` keeps every entry of `m`") is the invariant
    every walk preserves.
- **The walkers as functions and as methods.**  Each walker is written
  twice:
  - as a recursive specification function in a module of its own (`Imports`,
    `DebugDir`, `Resources`);
  - as a method of the class `PE.PEFile` with the source's loops, proved
    against that function.  The predicate `Outcome(err, state, spec)` says
    the method's error or result is the function's.

  Lemmas then state what the functions record:
  - every descriptor and thunk reached on the walk, the debug records read
    and kept, the CodeView signature found;
  - every directory, name string and leaf of the resource tree;
  - the layout of group icon and cursor members;
  - the string-table grouping.
- **The genericiser.**  `SymbolNames.Genericize` is the scanning loop of
  `GenericizeNamespaceAndTypeName` as a function.  The method is proved
  against it and keeps the source's dictionary and counter variables.
  `SymbolNames.Reference` is an independent, structural reading of a
  balanced name (text, `::` separators, closed template lists), and
  `GenericizeMatchesPieces` proves the two agree.
  - The genericiser is total: the source never throws on any input.  This
    includes unbalanced `<`/`>`: `templateParamStartIndex` is always set
    before it is used, and `concreteNames` only ever receives keys it does
    not hold.
  - The lemmas that give the result a meaning require a balanced name.
  - A name is a Dafny `string`, and `Trim` removes the characters
    `Char.IsWhiteSpace` accepts.
  - The anonymised-name dictionary is a sequence of pairs in insertion
    order, the order in which `Dictionary` enumerates entries that were
    never removed.

Behaviour followed exactly, although it may surprise:

- A thunk chain ends at the first thunk whose low 16 bits (the "ordinal") are
  zero.  A named import whose hint/name entry lies at a multiple of 64 KiB
  therefore ends the chain and is recorded as the null terminator
  (`Imports.NamedThunkAt64KiBEndsChain`).
- The first debug directory record is always read and recorded, even when
  the directory is smaller than one record.  Later records are recorded
  only when their SizeOfData is nonzero.
- A string table that cannot continue the open run closes that run and is
  itself discarded: the next run starts with the table after it
  (`Resources.StringTableGrouping`; see Findings).
- A comma at template depth 0 is dropped from the generic name.
- A string-table block is read in full even when its strings run past the
  block's end: the source only asserts this in debug builds.

Outside inputs are parameters:

- `cultures: map<U16, string>` stands for `CultureInfo.GetCultureInfo(id).DisplayName`.
- `debugDirectoryFound: bool` stands for whether `ImageDirectoryEntryToDataEx`
  found a debug directory.
- The loaded image itself is the `image` field.

Structure layouts (IMAGE_IMPORT_DESCRIPTOR, IMAGE_DEBUG_DIRECTORY,
IMAGE_RESOURCE_DIRECTORY and its entries, NEWHEADER/ICONRESDIR), machine
type values (I386 0x14C, ARM 0x1C0, AMD64 0x8664, ARM64 0xAA64), the
FORCE_INTEGRITY flag 0x80 of DllCharacteristics, and the RT_* type values
with the set `Enum.IsDefined` accepts (1..24 except 13, 15 and 18) are taken
from the Microsoft PE/COFF specification and the Windows SDK headers.

Files:

| file | module | contents |
|---|---|---|
| results.dfy | Results | Result, Option, Error |
| bytes.dfy | Bytes | bytes and reads |
| inventory.dfy | IntSets, Inventory | symbol maps |
| headers.dfy | Headers | NT headers and FORCE_INTEGRITY |
| symbols.dfy | PESymbols | PE symbols and AddDirectorySymbolIfPresent |
| imports.dfy | Imports | import walk |
| debugdir.dfy | DebugDir | debug directory |
| resources.dfy | Resources | resource walk, groups, string tables |
| groupwalk.dfy | GroupWalks | invariants of the icon/cursor loops |
| compare.dfy | Ranges | ranges and comparisons |
| pefile.dfy | PE | the class `PEFile` and lemmas joining its methods to the walks |
| names.dfy | SymbolNames | genericiser |

## Model

| member | source | states |
|---|---|---|
| Bytes.Wrap32 | src/SizeBench.AnalysisEngine/PE/PEFile.cs:289 | the uint result of an addition is the sum modulo 2^32 |
| Bytes.LE16 | src/SizeBench.AnalysisEngine/PE/PEFile.cs:786 | a 16-bit value is stored in two bytes |
| Bytes.LE32 | src/SizeBench.AnalysisEngine/PE/PEFile.cs:786 | a 32-bit value is stored in four bytes |
| Bytes.LE64 | src/SizeBench.AnalysisEngine/PE/PEFile.cs:786 | a 64-bit value is stored in eight bytes |
| Bytes.U16RoundTrip | src/SizeBench.AnalysisEngine/PE/PEFile.cs:786 | reading a u16 at an RVA gives back the value encoded there, whatever surrounds it |
| Bytes.U32RoundTrip | src/SizeBench.AnalysisEngine/PE/PEFile.cs:786 | reading a u32 at an RVA gives back the value encoded there |
| Bytes.U64RoundTrip | src/SizeBench.AnalysisEngine/PE/PEFile.cs:786 | reading a u64 at an RVA gives back the value encoded there |
| Bytes.ReadU16 | src/SizeBench.AnalysisEngine/PE/PEFile.cs:786 | a read succeeds exactly when both bytes lie in the image, and then yields their value |
| Bytes.ReadU32 | src/SizeBench.AnalysisEngine/PE/PEFile.cs:786 | a read succeeds exactly when all four bytes lie in the image, and then yields their value |
| Bytes.ReadU64 | src/SizeBench.AnalysisEngine/PE/PEFile.cs:786 | a read succeeds exactly when all eight bytes lie in the image, and then yields their value |
| Bytes.ReadAnsiString | src/SizeBench.AnalysisEngine/PE/PEFile.cs:243 | the string is the non-NUL bytes from the RVA up to a NUL; it fails only when no NUL follows in the image |
| Bytes.AnsiStringUpToNul | src/SizeBench.AnalysisEngine/PE/PEFile.cs:243 | when the first NUL after the RVA is n bytes on, the string read is exactly those n bytes |
| Bytes.AnsiStringRoundTrip | src/SizeBench.AnalysisEngine/PE/PEFile.cs:284 | a NUL-terminated text placed anywhere reads back as that text |
| Bytes.AnsiText | src/SizeBench.AnalysisEngine/PE/PEFile.cs:243 | the ANSI string has one character per byte with the byte's code |
| Bytes.UnitsAt | src/SizeBench.AnalysisEngine/PE/PEFile.cs:766 | n UTF-16 units are the n consecutive u16 values from the RVA |
| Bytes.RoundUpTo8ByteAlignment | src/SizeBench.AnalysisEngine/PE/PEFile.cs:774-782 | the result is a multiple of 8 and a multiple of 8 is unchanged; otherwise it is the next multiple of 8, which wraps to 0 above 0xFFFFFFF8 |
| Bytes.RoundUpIdempotent | src/SizeBench.AnalysisEngine/PE/PEFile.cs:774-782 | rounding twice is rounding once |
| Bytes.RoundUpIsLeast | src/SizeBench.AnalysisEngine/PE/PEFile.cs:774-782 | the rounded value is at most any multiple of 8 at or above the input |
| Inventory.Add | src/SizeBench.AnalysisEngine/PE/PEFile.cs:214 | SortedList.Add: fails exactly when the key is present; otherwise adds exactly that entry and keeps every other one |
| Inventory.TryAdd | src/SizeBench.AnalysisEngine/PE/PEFile.cs:580 | TryAdd: the key is present afterwards, every existing entry is kept, and a new key maps to the value |
| Inventory.KeyCount | src/SizeBench.AnalysisEngine/PE/PEFile.cs:234 | an inventory keyed by uint has at most 2^32 entries, which bounds the descriptor walk |
| Inventory.FreshKeyGrows | src/SizeBench.AnalysisEngine/PE/PEFile.cs:234 | an extension that gains a new key has strictly more entries |
| Inventory.SortedSet | src/SizeBench.AnalysisEngine/PE/PEFile.cs:202 | the keys listed strictly ascending, each exactly once |
| Inventory.InKeyOrder | src/SizeBench.AnalysisEngine/PE/PEFile.cs:202 | the Values of a SortedList: one value per key |
| Inventory.InKeyOrderHas | src/SizeBench.AnalysisEngine/PE/PEFile.cs:202 | every entry's value appears in the enumeration |
| Inventory.InKeyOrderFrom | src/SizeBench.AnalysisEngine/PE/PEFile.cs:506 | every value enumerated is some entry's value |
| Headers.NtHeadersAt | src/SizeBench.AnalysisEngine/PE/PEFile.cs:111 | the NT headers are at e_lfanew and start with the PE signature |
| Headers.ReadHeaders | src/SizeBench.AnalysisEngine/PE/PEFile.cs:113-142 | a successful read has a whitelisted machine, a word size of 8 exactly for the PE32+ magic (4 otherwise), and a machine rejection names an unsupported machine |
| Headers.MachineWhitelist | src/SizeBench.AnalysisEngine/PE/PEFile.cs:115-122 | an image is rejected for its machine type exactly when that type is not AMD64, I386, ARM or ARM64 |
| Headers.HeadersFromMatchingLayout | src/SizeBench.AnalysisEngine/PE/PEFile.cs:124-142 | the preferred load address, alignments and the import, resource and debug directories come from the 64-bit optional header for PE32+ and from the 32-bit one otherwise |
| Headers.WithoutForceIntegrity | src/SizeBench.AnalysisEngine/PE/PEFile.cs:412 | clearing the flag leaves it unset and keeps every other bit of DllCharacteristics |
| Headers.WithoutForceIntegrityValue | src/SizeBench.AnalysisEngine/PE/PEFile.cs:412 | the value drops by 0x80 when the flag was set and is unchanged otherwise |
| Headers.HeaderProbe | src/SizeBench.AnalysisEngine/PE/PEFile.cs:68-72 | the 4096-byte buffer holds the file's first bytes, the rest left zero |
| Headers.HasForceIntegrityBitSet | src/SizeBench.AnalysisEngine/PE/PEFile.cs:74-82 | the flag can be read exactly when the 32-bit NT headers at e_lfanew fit in the 4 KiB probe |
| Headers.StripForceIntegrityBit | src/SizeBench.AnalysisEngine/PE/PEFile.cs:396-414 | the file keeps its length and every byte except DllCharacteristics, whose flag is cleared |
| Headers.StripClearsForceIntegrity | src/SizeBench.AnalysisEngine/PE/PEFile.cs:80-82 | after stripping, the constructor's probe finds the flag unset |
| Headers.StripIdempotent | src/SizeBench.AnalysisEngine/PE/PEFile.cs:412 | stripping a stripped file changes nothing |
| PESymbols.AddDirectorySymbolIfPresent | src/SizeBench.AnalysisEngine/PE/PEFile.cs:210-216 | a directory at RVA 0 adds nothing; otherwise exactly its "[PE Directory] name" symbol with its size is added, failing exactly when the RVA is taken |
| Imports.ReadThunk | src/SizeBench.AnalysisEngine/PE/PEFile.cs:261-262 | a thunk of the image's word size is read exactly when it lies in the image |
| Imports.ThunksFrom | src/SizeBench.AnalysisEngine/PE/PEFile.cs:255-290 | the thunk walk keeps every symbol already recorded |
| Imports.RecordThunk | src/SizeBench.AnalysisEngine/PE/PEFile.cs:274-287 | recording one thunk keeps every symbol already recorded |
| Imports.RecordThunkEntry | src/SizeBench.AnalysisEngine/PE/PEFile.cs:265-287 | an ordinal-only thunk is recorded with its low 16 bits as ordinal; any other one with its hint and name, plus an ImportByName symbol at AddressOfData sized for hint, name and NUL |
| Imports.DescriptorsFrom | src/SizeBench.AnalysisEngine/PE/PEFile.cs:234-296 | the descriptor walk keeps every symbol already recorded |
| Imports.PastImage | src/SizeBench.AnalysisEngine/PE/PEFile.cs:232-236 | once the descriptor pointer has passed 2^32, the walk ends unchanged exactly when the wrapped RVA fails the loop test, and otherwise fails with the error of reading Name through the pointer |
| Imports.RecordDescriptor | src/SizeBench.AnalysisEngine/PE/PEFile.cs:243-291 | a live descriptor is recorded under its own, previously free, RVA |
| Imports.RecordDescriptorUnfolds | src/SizeBench.AnalysisEngine/PE/PEFile.cs:243-291 | the descriptor body is: the descriptor symbol, the module-name string symbol, then the thunk walk from OriginalFirstThunk |
| Imports.RecordDescriptorContents | src/SizeBench.AnalysisEngine/PE/PEFile.cs:243-291 | after a live descriptor, its symbol, its string-literal name symbol of length+1 bytes and every thunk on its chain are recorded |
| Imports.ParseImportTable | src/SizeBench.AnalysisEngine/PE/PEFile.cs:222-227 | an empty import table adds nothing; any walk keeps the symbols already recorded |
| Imports.ThunkRecordedPersists | src/SizeBench.AnalysisEngine/PE/PEFile.cs:255-290 | what is recorded for a thunk stays recorded as the inventory grows |
| Imports.FirstThunkRecorded | src/SizeBench.AnalysisEngine/PE/PEFile.cs:257-289 | the first thunk of a chain is recorded as the source reads it |
| Imports.ThunkStep | src/SizeBench.AnalysisEngine/PE/PEFile.cs:274-289 | a thunk that does not end the chain is recorded and the walk goes on wordSize bytes further |
| Imports.ContinuesToPositions | src/SizeBench.AnalysisEngine/PE/PEFile.cs:289 | k continuing thunks in a row reach the thunk at rva + wordSize·k |
| Imports.ThunkRecordedWhenReached | src/SizeBench.AnalysisEngine/PE/PEFile.cs:255-290 | every thunk the walk reaches is recorded in the final inventory |
| Imports.AllThunksRecorded | src/SizeBench.AnalysisEngine/PE/PEFile.cs:255-290 | all reachable thunks of the chain are recorded |
| Imports.ThunkRecorded | src/SizeBench.AnalysisEngine/PE/PEFile.cs:255-290 | after k continuing thunks, the thunk at rva + wordSize·k is recorded |
| Imports.NamedThunkAt64KiBEndsChain | src/SizeBench.AnalysisEngine/PE/PEFile.cs:265-273 | a named thunk whose AddressOfData is 0x10000 is taken for the chain's null terminator |
| Imports.DescriptorRecordedPersists | src/SizeBench.AnalysisEngine/PE/PEFile.cs:234-296 | what is recorded for a descriptor stays recorded as the inventory grows |
| Imports.LiveDescriptorUnfolds | src/SizeBench.AnalysisEngine/PE/PEFile.cs:236-295 | a descriptor with nonzero Name and OriginalFirstThunk is processed and the walk moves on |
| Imports.LiveDescriptorSucceeds | src/SizeBench.AnalysisEngine/PE/PEFile.cs:243-291 | a successful walk processed every live descriptor it met successfully |
| Imports.LiveDescriptorStep | src/SizeBench.AnalysisEngine/PE/PEFile.cs:234-295 | after a live descriptor the walk reads the next descriptor 20 bytes further on, unwrapped; a successful walk whose pointer passes 2^32 has ended there, the wrapped RVA having reached the table end |
| Imports.PointerPastAddressSpace | src/SizeBench.AnalysisEngine/PE/PEFile.cs:234-295 | a live descriptor in the last 20 bytes below 2^32, while the wrapped RVA is still below the table end, makes the walk fail reading Name 2^32 bytes past the wrapped RVA |
| Imports.RecordDescriptorRecords | src/SizeBench.AnalysisEngine/PE/PEFile.cs:243-246 | processing a live descriptor records its module symbol and name string |
| Imports.DeadDescriptorRecorded | src/SizeBench.AnalysisEngine/PE/PEFile.cs:236-240 | a descriptor with zero Name or OriginalFirstThunk adds the null-terminator symbol and ends the walk |
| Imports.FirstDescriptorRecorded | src/SizeBench.AnalysisEngine/PE/PEFile.cs:234-296 | the first descriptor inside the table is recorded, live or terminator |
| Imports.LiveToPositions | src/SizeBench.AnalysisEngine/PE/PEFile.cs:294-295 | k live descriptors in a row reach the descriptor at rva + 20·k |
| Imports.DescriptorRecordedWhenReached | src/SizeBench.AnalysisEngine/PE/PEFile.cs:234-296 | every descriptor the walk reaches before the table end is recorded in the final inventory |
| Imports.RecordDescriptorThunks | src/SizeBench.AnalysisEngine/PE/PEFile.cs:255-291 | every thunk on a live descriptor's chain is recorded with that descriptor's module name |
| Imports.DescriptorThunksRecordedWhenReached | src/SizeBench.AnalysisEngine/PE/PEFile.cs:234-296 | every thunk of every reached live descriptor is in the final inventory, labelled with its module |
| Imports.RecordThunkKeys | src/SizeBench.AnalysisEngine/PE/PEFile.cs:269-287 | recording one thunk adds exactly its RVA and, for a named import, its AddressOfData |
| Imports.ThunkKeysOnly | src/SizeBench.AnalysisEngine/PE/PEFile.cs:255-290 | every key the thunk walk adds is the RVA, or the AddressOfData of a named import, of a thunk the chain reaches |
| Imports.ThunkKeyRecorded | src/SizeBench.AnalysisEngine/PE/PEFile.cs:274-287 | the keys of a recorded thunk are in the inventory |
| Imports.ReachedAfterLive | src/SizeBench.AnalysisEngine/PE/PEFile.cs:294-295 | a descriptor reached from the one after a live descriptor is reached from that descriptor one step later |
| Imports.RecordDescriptorKeysOnly | src/SizeBench.AnalysisEngine/PE/PEFile.cs:243-291 | every key a live descriptor adds is its RVA, its Name RVA, or a key of a thunk on its OriginalFirstThunk chain |
| Imports.DescriptorKeysOnly | src/SizeBench.AnalysisEngine/PE/PEFile.cs:234-296 | every key the descriptor walk adds belongs to a descriptor it reaches, live or terminator |
| Imports.OwnDescriptorKey | src/SizeBench.AnalysisEngine/PE/PEFile.cs:243-291 | a key added by a live descriptor's own processing belongs to that reached descriptor |
| Imports.LiveDescriptorKeysOnly | src/SizeBench.AnalysisEngine/PE/PEFile.cs:243-295 | past a live descriptor, a key belongs to it or to a descriptor reached after it |
| Imports.DescriptorRecordedAfter | src/SizeBench.AnalysisEngine/PE/PEFile.cs:234-296 | every descriptor reached before the table end is recorded |
| Imports.DescriptorThunksRecordedAfter | src/SizeBench.AnalysisEngine/PE/PEFile.cs:255-295 | every thunk on the chain of every live descriptor reached is recorded with its module name |
| Imports.DescriptorWalkKeys | src/SizeBench.AnalysisEngine/PE/PEFile.cs:234-296 | the descriptor walk adds exactly the reached descriptors (live ones and the terminator), their name strings, every thunk of their chains including the terminator, and each named thunk's AddressOfData |
| Imports.ImportTableKeys | src/SizeBench.AnalysisEngine/PE/PEFile.cs:222-296 | an empty import table adds no key; otherwise the keys added are exactly those of the descriptor walk from VirtualAddress to VirtualAddress + Size |
| DebugDir.ReadDebugRecord | src/SizeBench.AnalysisEngine/PE/PEFile.cs:321-331 | a 28-byte IMAGE_DEBUG_DIRECTORY is read exactly when it lies in the image |
| DebugDir.RecordCount | src/SizeBench.AnalysisEngine/PE/PEFile.cs:316-327 | Size/28 records, but at least the first one |
| DebugDir.RecordStep | src/SizeBench.AnalysisEngine/PE/PEFile.cs:320-338 | each record is appended to the list; its raw data is recorded exactly when it is the first record or SizeOfData is nonzero, failing only on a taken RVA |
| DebugDir.WalkDebugRecords | src/SizeBench.AnalysisEngine/PE/PEFile.cs:320-339 | the walk reads exactly the remaining records and keeps the symbols and records already held |
| DebugDir.WalkStep | src/SizeBench.AnalysisEngine/PE/PEFile.cs:327-339 | a successful walk read the next record at VirtualAddress + 28·k, and processed it |
| DebugDir.WalkReadsTable | src/SizeBench.AnalysisEngine/PE/PEFile.cs:321-331 | record k of the list is the structure at VirtualAddress + 28·k |
| DebugDir.WalkRecordsKeys | src/SizeBench.AnalysisEngine/PE/PEFile.cs:325-338 | the symbols added are exactly the raw-data RVAs of the recorded records |
| DebugDir.RecordedKeysSplit | src/SizeBench.AnalysisEngine/PE/PEFile.cs:335-338 | the recorded RVAs from k on are record k's (if kept) and those after it |
| DebugDir.WalkRecordsSymbols | src/SizeBench.AnalysisEngine/PE/PEFile.cs:325-338 | each kept record's raw data is recorded with its size and debug type |
| DebugDir.DefaultSignature | src/SizeBench.AnalysisEngine/PE/PEFile.cs:39 | the signature before any CodeView record: an all-zero GUID, age 0 and an empty path |
| DebugDir.FirstCodeView | src/SizeBench.AnalysisEngine/PE/PEFile.cs:341-343 | the index of the first CODEVIEW record, or none when no record is CODEVIEW |
| DebugDir.ReadRsds | src/SizeBench.AnalysisEngine/PE/PEFile.cs:347-357 | data starting with "RSDS" yields its GUID, age and PDB path; other data yields no signature |
| DebugDir.FindDebugSignature | src/SizeBench.AnalysisEngine/PE/PEFile.cs:341-363 | without a CODEVIEW record the signature is kept; it changes only through RSDS data at the first CODEVIEW record |
| DebugDir.ParseDebugDirectory | src/SizeBench.AnalysisEngine/PE/PEFile.cs:299-365 | the walk keeps the symbols held; without a debug directory records and signature are kept, with one exactly RecordCount records are appended |
| DebugDir.RsdsSignatureRead | src/SizeBench.AnalysisEngine/PE/PEFile.cs:349-357 | RSDS data at the first CODEVIEW record becomes the signature |
| DebugDir.SearchStopsAtFirstCodeView | src/SizeBench.AnalysisEngine/PE/PEFile.cs:361 | a first CODEVIEW record without RSDS data keeps the signature: later records are not looked at |
| DebugDir.ParseUnfolds | src/SizeBench.AnalysisEngine/PE/PEFile.cs:301-339 | a found debug directory is processed as the Debug directory symbol, then the record walk |
| DebugDir.DebugRecordsRead | src/SizeBench.AnalysisEngine/PE/PEFile.cs:316-331 | the records appended are the RecordCount structures of the table, in order |
| DebugDir.DebugRecordsRecorded | src/SizeBench.AnalysisEngine/PE/PEFile.cs:301-338 | the symbols added are exactly the Debug directory and the raw data of the kept records, each with its size and type |
| DebugDir.FirstRecordAlwaysRecorded | src/SizeBench.AnalysisEngine/PE/PEFile.cs:320-325 | the first record's raw data is recorded whatever its SizeOfData |
| DebugDir.NoDebugDirectoryKeepsDefault | src/SizeBench.AnalysisEngine/PE/PEFile.cs:304-312 | without a debug directory the signature stays the default and no record is read |
| Resources.ReadDirectoryCount | src/SizeBench.AnalysisEngine/PE/PEFile.cs:543-545 | a directory is read exactly when it lies in the image and has its named plus ID entries |
| Resources.ReadDirectoryEntry | src/SizeBench.AnalysisEngine/PE/PEFile.cs:572 | an 8-byte entry is read exactly when it lies in the image |
| Resources.ReadDataEntry | src/SizeBench.AnalysisEngine/PE/PEFile.cs:599 | a data entry is read exactly when it lies in the image |
| Resources.ReadPrefixedString | src/SizeBench.AnalysisEngine/PE/PEFile.cs:575-580 | a length-prefixed string is read exactly when prefix and units lie in the image, and is those units |
| Resources.ReadEntryLabel | src/SizeBench.AnalysisEngine/PE/PEFile.cs:565 | an ID entry is labelled by its ID; a named entry by its string at RsrcStart + NameOffset, failing exactly when that cannot be read |
| Resources.SelectType | src/SizeBench.AnalysisEngine/PE/PEFile.cs:547-563 | no depth-0 entry gives Unknown; a defined RT_* ID gives that type; only a named entry gives a user-named type; an undefined ID is named by its label |
| Resources.ReadDepth1Name | src/SizeBench.AnalysisEngine/PE/PEFile.cs:565 | without a depth-1 entry there is no name; otherwise it is that entry's label |
| Resources.ReadGroupEntries | src/SizeBench.AnalysisEngine/PE/PEFile.cs:674-687 | a group is read exactly when its header and all idCount entries lie in the image; entry i is the structure at header + 6 + 14·i |
| Resources.IconDimension | src/SizeBench.AnalysisEngine/PE/PEFile.cs:693-703 | a width or height byte of 0 means 256 |
| Resources.IconOf | src/SizeBench.AnalysisEngine/PE/PEFile.cs:685-707 | icon i lies the rounded sizes of icons i.. before the header and carries its entry's size, ID, bit count and dimensions |
| Resources.CursorOf | src/SizeBench.AnalysisEngine/PE/PEFile.cs:728-743 | cursor i lies like an icon; its height is half the stored one |
| Resources.IconMembers | src/SizeBench.AnalysisEngine/PE/PEFile.cs:685-709 | one icon per entry, in entry order |
| Resources.CursorMembers | src/SizeBench.AnalysisEngine/PE/PEFile.cs:728-745 | one cursor per entry, in entry order |
| Resources.DecodeStrings | src/SizeBench.AnalysisEngine/PE/PEFile.cs:757-769 | every string a block yields is non-empty |
| Resources.CreateDataSymbol | src/SizeBench.AnalysisEngine/PE/PEFile.cs:659-669 | ICON and CURSOR give nothing, STRING a table over the data, GROUP_ICON and GROUP_CURSOR a group, anything else a plain data symbol |
| Resources.RecordEntryName | src/SizeBench.AnalysisEngine/PE/PEFile.cs:573-581 | an ID entry adds nothing; a named entry's string is present afterwards and, when new, recorded with size 2 + 2·length |
| Resources.RecordLeaf | src/SizeBench.AnalysisEngine/PE/PEFile.cs:596-642 | a leaf adds a new 16-byte data-entry symbol with its language and index, and keeps its data by type |
| Resources.OpenDirectory | src/SizeBench.AnalysisEngine/PE/PEFile.cs:541-567 | a directory is recorded under its new RVA with size 16 + 8·entries, its depth, type and depth-1 name, and nothing else |
| Resources.WalkDirectory | src/SizeBench.AnalysisEngine/PE/PEFile.cs:532-646 | below depth 2 nothing is added; any walk keeps what is recorded |
| Resources.EntryStep | src/SizeBench.AnalysisEngine/PE/PEFile.cs:572-642 | one entry keeps what is recorded |
| Resources.WalkEntries | src/SizeBench.AnalysisEngine/PE/PEFile.cs:569-645 | the entry loop keeps what is recorded |
| Resources.DirectoryNodeRecorded | src/SizeBench.AnalysisEngine/PE/PEFile.cs:543-567 | a walked directory ends up recorded with its size, depth and type |
| Resources.EntryUnfolds | src/SizeBench.AnalysisEngine/PE/PEFile.cs:570-645 | each entry is read from the image and what it records survives the rest of the loop |
| Resources.EntryNameRecorded | src/SizeBench.AnalysisEngine/PE/PEFile.cs:573-581 | every named entry's string ends up in the inventory |
| Resources.LeafRecorded | src/SizeBench.AnalysisEngine/PE/PEFile.cs:598-641 | every leaf ends up with its data-entry symbol (LANG_NEUTRAL for ID 0) and its data |
| Resources.RecordLeafKeys | src/SizeBench.AnalysisEngine/PE/PEFile.cs:598-641 | a leaf adds exactly its data entry and, unless its data is a string table or an ICON or CURSOR, the symbol its data makes |
| Resources.EntryKeyContext | src/SizeBench.AnalysisEngine/PE/PEFile.cs:583-595 | the depth-0 and depth-1 entries carried by the loop agree with the directory's own wherever they are used, so an entry adds the same keys under either |
| Resources.SubdirectoryEntryKey | src/SizeBench.AnalysisEngine/PE/PEFile.cs:572-595 | a subdirectory entry's keys are its name string and the keys of the subdirectory one level down |
| Resources.LeafEntryKey | src/SizeBench.AnalysisEngine/PE/PEFile.cs:572-642 | a leaf entry's keys are its name string and its leaf's keys |
| Resources.WalkDirectoryKeys | src/SizeBench.AnalysisEngine/PE/PEFile.cs:532-646 | the walk adds exactly the directories at depth 0 to 2, the name strings of named entries (whether new or already present), the data entries and the symbols of non-string, non-ICON/CURSOR leaf data |
| Resources.WalkEntriesKeys | src/SizeBench.AnalysisEngine/PE/PEFile.cs:569-645 | the entry loop from entry i adds exactly the keys of entries i to n-1 at RVA + 16 + 8·j |
| Resources.EntriesKeySplit | src/SizeBench.AnalysisEngine/PE/PEFile.cs:569-645 | the keys of entries i to n-1 are those of entry i and those of the rest |
| Resources.EntryLoopTurn | src/SizeBench.AnalysisEngine/PE/PEFile.cs:570-645 | one turn of the entry loop reads entry i at RVA + 16 + 8·i and hands its state to entry i+1 |
| Resources.EntryStepKeys | src/SizeBench.AnalysisEngine/PE/PEFile.cs:572-644 | one entry adds exactly its name string and its subdirectory's or its leaf's keys |
| Resources.EntryNameKeys | src/SizeBench.AnalysisEngine/PE/PEFile.cs:573-581 | a named entry adds exactly its name string's RVA, an ID entry nothing |
| Resources.SubdirectoryStepKeys | src/SizeBench.AnalysisEngine/PE/PEFile.cs:583-595 | descending into a subdirectory adds exactly the entry's keys |
| Resources.LeafStepKeys | src/SizeBench.AnalysisEngine/PE/PEFile.cs:596-642 | a leaf step adds exactly the entry's keys |
| Resources.MemberEndsAtNext | src/SizeBench.AnalysisEngine/PE/PEFile.cs:689-691 | a member's rounded size takes its RVA to the next member, and the last one to the header |
| Resources.GroupEndsAfterHeader | src/SizeBench.AnalysisEngine/PE/PEFile.cs:677-708 | the group's size takes its first member to the end of its header and entries |
| Resources.IconEndsAtNext | src/SizeBench.AnalysisEngine/PE/PEFile.cs:685-708 | each icon, rounded up to 8 bytes, ends where the next one starts, the last one at the header |
| Resources.IconsBackToBack | src/SizeBench.AnalysisEngine/PE/PEFile.cs:685-709 | the icons of a group lie back to back and end at the header |
| Resources.CursorEndsAtNext | src/SizeBench.AnalysisEngine/PE/PEFile.cs:728-745 | each cursor, rounded up to 8 bytes, ends where the next one starts |
| Resources.CursorsBackToBack | src/SizeBench.AnalysisEngine/PE/PEFile.cs:728-745 | the cursors of a group lie back to back and end at the header |
| Resources.IconGroupSpan | src/SizeBench.AnalysisEngine/PE/PEFile.cs:672-712 | a group icon symbol covers its icons, header and entries: it starts at its first icon and ends after its entries |
| Resources.CursorGroupSpan | src/SizeBench.AnalysisEngine/PE/PEFile.cs:715-747 | a group cursor symbol covers its cursors, header and entries |
| Resources.TwoIconExample | src/SizeBench.AnalysisEngine/PE/PEFile.cs:685-708 | a worked two-icon group: placement by rounded sizes, 0 read as 256 |
| Resources.DecodeBlock | src/SizeBench.AnalysisEngine/PE/PEFile.cs:757-771 | a block of length-prefixed strings reads back as its non-empty strings, each exactly |
| Resources.FlattenAscends | src/SizeBench.AnalysisEngine/PE/PEFile.cs:503-527 | groups whose concatenation ascends each ascend |
| Resources.RunContinues | src/SizeBench.AnalysisEngine/PE/PEFile.cs:508-513 | a table that continues the open run joins it, and the open run is then the tables kept since the last break |
| Resources.RunBreaks | src/SizeBench.AnalysisEngine/PE/PEFile.cs:514-519 | a table that breaks a non-empty run is discarded and the next run starts empty at the following table |
| Resources.GroupAsWrittenKeeps | src/SizeBench.AnalysisEngine/PE/PEFile.cs:503-527 | the loop from table i with an open run emits non-empty runs that concatenate to the open run followed by the tables kept from i on |
| Resources.KeptBelow | src/SizeBench.AnalysisEngine/PE/PEFile.cs:503-527 | the tables kept from i on ascend and lie at or above table i |
| Resources.KeptMembers | src/SizeBench.AnalysisEngine/PE/PEFile.cs:514-519 | a table is among those kept exactly when the loop does not discard it, i.e. it is not the first table after a run it cannot continue |
| Resources.StringTableGrouping | src/SizeBench.AnalysisEngine/PE/PEFile.cs:503-527 | the loop as written emits non-empty runs whose concatenation is exactly the tables not discarded; for ascending tables it ascends, each group ascends, and a table is grouped exactly when it is not discarded |
| Resources.AdjacentTablesOneGroup | src/SizeBench.AnalysisEngine/PE/PEFile.cs:506-513 | when every table continues the previous one, the open run absorbs all remaining tables |
| Resources.AdjacentTablesGrouped | src/SizeBench.AnalysisEngine/PE/PEFile.cs:503-527 | tables that each continue the previous one form a single group |
| Resources.RunExtends | src/SizeBench.AnalysisEngine/PE/PEFile.cs:508-513 | a table that continues the run at its rounded end, in the same language, extends the run |
| Resources.CloseRun | src/SizeBench.AnalysisEngine/PE/PEFile.cs:514-519 | for the intended grouping (see Findings): closing a run before a table that cannot continue it keeps the runs maximal and loses no table |
| Resources.GroupFromCorrect | src/SizeBench.AnalysisEngine/PE/PEFile.cs:503-527 | for the intended grouping (see Findings): the tables are split into maximal runs that hold all of them in order |
| Resources.GroupingPartitions | src/SizeBench.AnalysisEngine/PE/PEFile.cs:503-527 | for the intended grouping (see Findings): the groups concatenate to the tables, each is a maximal run, and each ascends when the tables do |
| Resources.GroupAsWrittenDropsTable | src/SizeBench.AnalysisEngine/PE/PEFile.cs:514-519 | tables at 0, 64 and 80 (16 bytes, one language) are grouped [[0], [80]] by the loop as written and [[0], [64, 80]] by the intended grouping |
| Resources.AddGroups | src/SizeBench.AnalysisEngine/PE/PEFile.cs:516-525 | one group symbol per run is added under its first table's RVA, keeping what is recorded |
| Resources.AddGroupsKeys | src/SizeBench.AnalysisEngine/PE/PEFile.cs:516-525 | adding the groups adds exactly the first RVA of each group |
| Resources.InKeyOrderAscends | src/SizeBench.AnalysisEngine/PE/PEFile.cs:506 | the tables enumerated from their RVA-keyed list ascend |
| Resources.AddStringTableGroups | src/SizeBench.AnalysisEngine/PE/PEFile.cs:503-527 | grouping the string tables, as the loop is written, keeps what is recorded |
| Resources.ParseRsrcSymbols | src/SizeBench.AnalysisEngine/PE/PEFile.cs:489-530 | an image without a resource section adds nothing; any parse keeps what is recorded |
| Resources.StringTablesGrouped | src/SizeBench.AnalysisEngine/PE/PEFile.cs:496-527 | after the parse, the tables found ascend, the groups the loop as written emits are non-empty ascending runs whose concatenation ascends, a table is grouped exactly when the loop does not discard it, and each group is recorded under its first RVA |
| Resources.RsrcSymbolKeys | src/SizeBench.AnalysisEngine/PE/PEFile.cs:489-530 | the parse adds exactly the keys of the walk from RsrcStart and the first RVA of each group of string tables |
| Ranges.FromBounds | src/SizeBench.AnalysisEngine/PE/PEFile.cs:204 | the range [start, end) starts at start and ends at end |
| Ranges.RangeOf | src/SizeBench.AnalysisEngine/PE/PEFile.cs:204 | a symbol's range is its RVA and size |
| Ranges.RangesOf | src/SizeBench.AnalysisEngine/PE/PEFile.cs:200-205 | one range per symbol |
| Ranges.SymbolRangeListed | src/SizeBench.AnalysisEngine/PE/PEFile.cs:200-205 | every symbol's range is on the list |
| Ranges.SymbolRangeOwned | src/SizeBench.AnalysisEngine/PE/PEFile.cs:200-205 | every range on the list is some symbol's |
| Ranges.SymbolRangesCover | src/SizeBench.AnalysisEngine/PE/PEFile.cs:200-205 | the list has one range per symbol and holds exactly the symbols' ranges |
| Ranges.MatchCount | src/SizeBench.AnalysisEngine/PE/PEFile.cs:874-885 | the equal bytes of two spans are at most their length |
| Ranges.AllMatchIffEqual | src/SizeBench.AnalysisEngine/PE/PEFile.cs:874-885 | all bytes match exactly when the two spans are equal |
| Ranges.SameWithinCompared | src/SizeBench.AnalysisEngine/PE/PEFile.cs:900-915 | bytesSame never exceeds bytesCompared |
| Ranges.Similarity | src/SizeBench.AnalysisEngine/PE/PEFile.cs:890-916 | lists of different lengths are rejected and only they are; otherwise bytesSame ≤ bytesCompared |
| Ranges.SelfSameBytes | src/SizeBench.AnalysisEngine/PE/PEFile.cs:900-915 | comparing ranges with themselves finds every byte the same |
| Ranges.SelfSimilar | src/SizeBench.AnalysisEngine/PE/PEFile.cs:890-916 | a range list is fully similar to itself |
| Ranges.Rebase | src/SizeBench.AnalysisEngine/PE/PEFile.cs:798 | adding the preferred base back to the result gives the stored value modulo 2^32 |
| Ranges.RebaseUndoesRelocation | src/SizeBench.AnalysisEngine/PE/PEFile.cs:788-799 | a pointer stored as base + RVA rebases to that RVA |
| GroupWalks.IconWalkBegins | src/SizeBench.AnalysisEngine/PE/PEFile.cs:676-684 | the reverse loop starts at the header with the header and entries' size and no icons |
| GroupWalks.IconWalkStep | src/SizeBench.AnalysisEngine/PE/PEFile.cs:687-708 | one turn steps back by the rounded size, prepends the icon and adds the rounded size |
| GroupWalks.IconWalkEnds | src/SizeBench.AnalysisEngine/PE/PEFile.cs:712 | after the last turn the loop's values are the group icon symbol |
| GroupWalks.CursorWalkBegins | src/SizeBench.AnalysisEngine/PE/PEFile.cs:719-727 | the cursor loop starts like the icon loop |
| GroupWalks.CursorWalkStep | src/SizeBench.AnalysisEngine/PE/PEFile.cs:730-745 | one cursor turn steps back and prepends the cursor |
| GroupWalks.CursorWalkEnds | src/SizeBench.AnalysisEngine/PE/PEFile.cs:747 | after the last turn the loop's values are the group cursor symbol |
| GroupWalks.GroupHeaderOutOfRange | src/SizeBench.AnalysisEngine/PE/PEFile.cs:674 | a group whose header is outside the image fails at the header |
| GroupWalks.IconLoopStep | src/SizeBench.AnalysisEngine/PE/PEFile.cs:687-708 | the icon loop's invariant holds one entry further down |
| GroupWalks.IconLoopOutOfRange | src/SizeBench.AnalysisEngine/PE/PEFile.cs:687 | an entry outside the image makes the group fail at that entry |
| GroupWalks.IconLoopDone | src/SizeBench.AnalysisEngine/PE/PEFile.cs:712 | the finished icon loop returns the group icon symbol |
| GroupWalks.CursorLoopStep | src/SizeBench.AnalysisEngine/PE/PEFile.cs:730-745 | the cursor loop's invariant holds one entry further down |
| GroupWalks.CursorLoopOutOfRange | src/SizeBench.AnalysisEngine/PE/PEFile.cs:730 | an entry outside the image makes the group fail at that entry |
| GroupWalks.CursorLoopDone | src/SizeBench.AnalysisEngine/PE/PEFile.cs:747 | the finished cursor loop returns the group cursor symbol |
| PE.ImportTableWalk | src/SizeBench.AnalysisEngine/PE/PEFile.cs:224-234 | a nonempty import table is walked from VirtualAddress up to VirtualAddress + Size |
| PE.DescriptorsDone | src/SizeBench.AnalysisEngine/PE/PEFile.cs:234 | the descriptor walk stops at the table end |
| PE.DescriptorUnreadable | src/SizeBench.AnalysisEngine/PE/PEFile.cs:236 | a descriptor whose Name field is outside the image fails there |
| PE.DescriptorEndsWalk | src/SizeBench.AnalysisEngine/PE/PEFile.cs:236-240 | a descriptor with zero Name or OriginalFirstThunk adds the null terminator and ends the walk |
| PE.LiveDescriptorIs | src/SizeBench.AnalysisEngine/PE/PEFile.cs:243-295 | a live descriptor is processed, then the walk continues through the pointer 20 bytes further on: at that descriptor below 2^32, and as `PastImage` beyond |
| PE.DescriptorInImage | src/SizeBench.AnalysisEngine/PE/PEFile.cs:232-236 | a descriptor whose Name can be read through the pointer lies below 2^32, where the pointer and the uint RVA agree |
| PE.DescriptorsDoneAt | src/SizeBench.AnalysisEngine/PE/PEFile.cs:234 | the loop ends without change when the wrapped RVA reaches the table end, wherever the pointer is |
| PE.DescriptorUnreadableAt | src/SizeBench.AnalysisEngine/PE/PEFile.cs:234-236 | when the loop test passes and Name cannot be read through the pointer, the walk fails with that read's error |
| PE.ThunkUnreadable | src/SizeBench.AnalysisEngine/PE/PEFile.cs:261-262 | a thunk outside the image fails the walk |
| PE.ThunkEndsChain | src/SizeBench.AnalysisEngine/PE/PEFile.cs:269-273 | a thunk with a zero ordinal adds the null terminator and ends the chain |
| PE.ThunkWalkGoesOn | src/SizeBench.AnalysisEngine/PE/PEFile.cs:274-289 | any other thunk is recorded and the chain goes on one word further |
| PE.DebugRecordUnreadable | src/SizeBench.AnalysisEngine/PE/PEFile.cs:330 | a debug record outside the image fails the walk |
| PE.DebugRecordTaken | src/SizeBench.AnalysisEngine/PE/PEFile.cs:330-338 | a debug record read is processed and the walk continues |
| PE.StringTableStep | src/SizeBench.AnalysisEngine/PE/PEFile.cs:759-768 | a non-empty string is kept and the read moves past its units |
| PE.EntryNameUnreadable | src/SizeBench.AnalysisEngine/PE/PEFile.cs:575 | a named entry whose string is outside the image fails |
| PE.EntryDescends | src/SizeBench.AnalysisEngine/PE/PEFile.cs:583-595 | a directory entry descends one level with the depth-0/depth-1 context updated |
| PE.EntryIsLeaf | src/SizeBench.AnalysisEngine/PE/PEFile.cs:596-642 | a non-directory entry is a leaf |
| PE.DirectoryOpens | src/SizeBench.AnalysisEngine/PE/PEFile.cs:541-569 | a directory is opened, then its entries are walked from just after its header |
| PE.RsrcSectionWalked | src/SizeBench.AnalysisEngine/PE/PEFile.cs:493-527 | the resource parse is the tree walk from RsrcStart, then the grouping loop as written over the tables found |
| PE.EntriesAdvance | src/SizeBench.AnalysisEngine/PE/PEFile.cs:570-645 | after one entry the loop goes on 8 bytes further with the context updated |
| PE.EntriesDone | src/SizeBench.AnalysisEngine/PE/PEFile.cs:570 | the entry loop stops after the last entry |
| PE.LoadImage | src/SizeBench.AnalysisEngine/PE/PEFile.cs:113-207 | loading fails with the header error when headers cannot be read, keeps the headers read, and lists the range of every symbol |
| PE.LoadedInventory | src/SizeBench.AnalysisEngine/PE/PEFile.cs:151-167 | a loaded file keeps every import symbol and records the Base Relocation Table and Debug directories when present |
| PE.DebugDirectoryKeepsSymbols | src/SizeBench.AnalysisEngine/PE/PEFile.cs:301 | the debug walk records the Debug directory first and then only adds |
| PE.PEFile.constructor | src/SizeBench.AnalysisEngine/PE/PEFile.cs:37-44 | a fresh file has empty inventories and record list and the default signature |
| PE.PEFile.LoadHeaders | src/SizeBench.AnalysisEngine/PE/PEFile.cs:113-142 | the headers are set exactly when they can be read; nothing else changes |
| PE.PEFile.AddDirectorySymbol | src/SizeBench.AnalysisEngine/PE/PEFile.cs:210-216 | OtherPESymbols becomes AddDirectorySymbolIfPresent of the old one; nothing else changes |
| PE.PEFile.ParseImportTable | src/SizeBench.AnalysisEngine/PE/PEFile.cs:218-297 | OtherPESymbols becomes the import walk of the old one; nothing else changes |
| PE.PEFile.WalkImports | src/SizeBench.AnalysisEngine/PE/PEFile.cs:222-234 | the method returns the import walk |
| PE.PEFile.WalkDescriptors | src/SizeBench.AnalysisEngine/PE/PEFile.cs:232-296 | the descriptor loop, keeping the pointer and the uint RVA as two cursors, returns the descriptor walk |
| PE.PEFile.RecordImportDescriptor | src/SizeBench.AnalysisEngine/PE/PEFile.cs:243-291 | one descriptor's body, which adds at least one symbol |
| PE.PEFile.WalkThunks | src/SizeBench.AnalysisEngine/PE/PEFile.cs:255-290 | the thunk loop returns the thunk walk |
| PE.PEFile.RecordImportThunk | src/SizeBench.AnalysisEngine/PE/PEFile.cs:274-287 | one thunk is recorded as RecordThunk says |
| PE.PEFile.ParseDebugDirectory | src/SizeBench.AnalysisEngine/PE/PEFile.cs:299-365 | symbols, records and signature become the debug walk of the old ones; headers and resources stay |
| PE.PEFile.WalkDebugDirectory | src/SizeBench.AnalysisEngine/PE/PEFile.cs:299-363 | the method returns the debug walk |
| PE.PEFile.ReadDebugRecords | src/SizeBench.AnalysisEngine/PE/PEFile.cs:316-339 | the record loop returns the record walk |
| PE.PEFile.FindSignature | src/SizeBench.AnalysisEngine/PE/PEFile.cs:341-363 | the CodeView search returns FindDebugSignature |
| PE.PEFile.ReadIconEntry | src/SizeBench.AnalysisEngine/PE/PEFile.cs:687-708 | one turn of the icon loop keeps the invariant or fails as the group does |
| PE.PEFile.CreateGroupIconSymbol | src/SizeBench.AnalysisEngine/PE/PEFile.cs:672-713 | the loop's result is the group icon symbol |
| PE.PEFile.ReadCursorEntry | src/SizeBench.AnalysisEngine/PE/PEFile.cs:730-744 | one turn of the cursor loop keeps the invariant or fails as the group does |
| PE.PEFile.CreateGroupCursorSymbol | src/SizeBench.AnalysisEngine/PE/PEFile.cs:715-748 | the loop's result is the group cursor symbol |
| PE.PEFile.CreateStringTableSymbol | src/SizeBench.AnalysisEngine/PE/PEFile.cs:750-772 | the loop's result is the table of the block's strings |
| PE.PEFile.CreateRsrcDataSymbol | src/SizeBench.AnalysisEngine/PE/PEFile.cs:648-670 | the dispatch returns CreateDataSymbol |
| PE.PEFile.RecordResourceLeaf | src/SizeBench.AnalysisEngine/PE/PEFile.cs:596-642 | a leaf is recorded as RecordLeaf says |
| PE.PEFile.WalkResourceEntry | src/SizeBench.AnalysisEngine/PE/PEFile.cs:572-644 | one entry is processed as EntryStep says |
| PE.PEFile.DescendInto | src/SizeBench.AnalysisEngine/PE/PEFile.cs:583-595 | a subdirectory is walked as EntryStep says |
| PE.PEFile.OpenResourceDirectory | src/SizeBench.AnalysisEngine/PE/PEFile.cs:541-567 | the directory prelude returns OpenDirectory |
| PE.PEFile.WalkResourceDirectory | src/SizeBench.AnalysisEngine/PE/PEFile.cs:532-646 | the recursive walk with its entry loop returns WalkDirectory |
| PE.PEFile.GroupStringTableSymbols | src/SizeBench.AnalysisEngine/PE/PEFile.cs:503-527 | the grouping loop, which discards a table that breaks the open run, returns AddStringTableGroups, or the error of the Add that fails |
| PE.PEFile.ParseRsrcSymbols | src/SizeBench.AnalysisEngine/PE/PEFile.cs:489-530 | RsrcSymbols becomes the resource parse of the old one; nothing else changes |
| PE.PEFile.CollectRsrcSymbols | src/SizeBench.AnalysisEngine/PE/PEFile.cs:493-527 | the method returns the resource parse |
| PE.PEFile.Load | src/SizeBench.AnalysisEngine/PE/PEFile.cs:113-207 | the loaded state is LoadImage, and an error is LoadImage's error |
| PE.PEFile.CollectOtherSymbolRanges | src/SizeBench.AnalysisEngine/PE/PEFile.cs:199-205 | the range list is one range per symbol, in RVA order; nothing else changes |
| PE.PEFile.CollectRanges | src/SizeBench.AnalysisEngine/PE/PEFile.cs:200-205 | the loop returns the symbols' ranges |
| PE.PEFile.CompareData | src/SizeBench.AnalysisEngine/PE/PEFile.cs:868-886 | true exactly when the two spans hold the same bytes |
| PE.PEFile.CompareSimilarityOfBytesInBinary | src/SizeBench.AnalysisEngine/PE/PEFile.cs:888-916 | the two counters of Similarity, or the length-mismatch error |
| PE.PEFile.LoadUInt32ByRVAThatIsPreferredBaseRelative | src/SizeBench.AnalysisEngine/PE/PEFile.cs:788-799 | the stored uint rebased against the preferred load address |
| SymbolNames.TrimStartIsSuffix | src/SizeBench.AnalysisEngine/SymbolNameHelper.cs:129 | TrimStart drops exactly the leading white space |
| SymbolNames.TrimEndIsPrefix | src/SizeBench.AnalysisEngine/SymbolNameHelper.cs:129 | TrimEnd drops exactly the trailing white space |
| SymbolNames.TrimIsCore | src/SizeBench.AnalysisEngine/SymbolNameHelper.cs:169 | Trim is the slice between leading and trailing white space and neither begins nor ends with any |
| SymbolNames.DigitChar | src/SizeBench.AnalysisEngine/SymbolNameHelper.cs:152 | a digit's character is a decimal digit |
| SymbolNames.DecimalString | src/SizeBench.AnalysisEngine/SymbolNameHelper.cs:152 | a number's text is a non-empty run of digits |
| SymbolNames.Placeholders | src/SizeBench.AnalysisEngine/SymbolNameHelper.cs:132-158 | one placeholder per template parameter |
| SymbolNames.Step | src/SizeBench.AnalysisEngine/SymbolNameHelper.cs:111-187 | one turn advances the index and keeps templateParamStartIndex valid while a list is open |
| SymbolNames.FindClose | src/SizeBench.AnalysisEngine/SymbolNameHelper.cs:124-127 | a list opened at depth 0 is closed by a '>' that brings the depth back to 0 |
| SymbolNames.InnerStep | src/SizeBench.AnalysisEngine/SymbolNameHelper.cs:165-173 | inside a list a turn only collects parameters at depth-1 commas |
| SymbolNames.InnerScan | src/SizeBench.AnalysisEngine/SymbolNameHelper.cs:114-164 | scanning through a list closes it with exactly its depth-1 parameters |
| SymbolNames.ScanThroughList | src/SizeBench.AnalysisEngine/SymbolNameHelper.cs:114-164 | a list from '<' to its '>' is one step of the scan |
| SymbolNames.ScanTemplate | src/SizeBench.AnalysisEngine/SymbolNameHelper.cs:114-164 | a template list is rendered as the structural reading says |
| SymbolNames.ScanPlainStep | src/SizeBench.AnalysisEngine/SymbolNameHelper.cs:165-186 | text and "::" outside lists are rendered as the structural reading says |
| SymbolNames.ScanMatchesPieces | src/SizeBench.AnalysisEngine/SymbolNameHelper.cs:111-187 | the scan loop computes the structural reading of a balanced name |
| SymbolNames.GenericizeMatchesPieces | src/SizeBench.AnalysisEngine/SymbolNameHelper.cs:101-204 | for a balanced name the genericiser's result is the reference's |
| SymbolNames.LookupSome | src/SizeBench.AnalysisEngine/SymbolNameHelper.cs:143-146 | a lookup succeeds exactly when the key was recorded, and yields a recorded value |
| SymbolNames.LookupExtend | src/SizeBench.AnalysisEngine/SymbolNameHelper.cs:143-153 | later additions never change an existing lookup |
| SymbolNames.LookupAppendNew | src/SizeBench.AnalysisEngine/SymbolNameHelper.cs:149-153 | a newly recorded name is found with its placeholder |
| SymbolNames.AssignOneFacts | src/SizeBench.AnalysisEngine/SymbolNameHelper.cs:141-157 | each parameter reuses its placeholder or gets the next number; an empty one gets "" and a number; the dictionary only grows |
| SymbolNames.PlaceholderNames | src/SizeBench.AnalysisEngine/SymbolNameHelper.cs:141-157 | the dictionary grows by parameters of the list and the counter counts new names plus empty parameters |
| SymbolNames.PlaceholderTexts | src/SizeBench.AnalysisEngine/SymbolNameHelper.cs:141-157 | an empty parameter becomes "" and any other becomes its recorded placeholder |
| SymbolNames.PlaceholdersConsistent | src/SizeBench.AnalysisEngine/SymbolNameHelper.cs:141-157 | both the numbering and the placeholder texts of one list |
| SymbolNames.PlaceholdersAppend | src/SizeBench.AnalysisEngine/SymbolNameHelper.cs:131-159 | the placeholders of two lists in a row are those of their concatenation |
| SymbolNames.PlaceholderReuse | src/SizeBench.AnalysisEngine/SymbolNameHelper.cs:143-146 | a name seen before keeps its placeholder, and equal names get equal placeholders |
| SymbolNames.FirstOccurrenceNumber | src/SizeBench.AnalysisEngine/SymbolNameHelper.cs:149-153 | a new name's first occurrence gets "T" with the next number |
| SymbolNames.RenderThreadsNumbering | src/SizeBench.AnalysisEngine/SymbolNameHelper.cs:107-163 | the counter and dictionary are threaded across all lists of the name |
| SymbolNames.GenericNumbering | src/SizeBench.AnalysisEngine/SymbolNameHelper.cs:101-204 | the dictionary numbers the name's parameters in order of first occurrence; every non-empty one is recorded; one segment per "::" plus one |
| SymbolNames.RejoinJoins | src/SizeBench.AnalysisEngine/SymbolNameHelper.cs:191-200 | the segments are joined with "::", except that a leading empty segment in a two-segment name is dropped |
| SymbolNames.PlainStep | src/SizeBench.AnalysisEngine/SymbolNameHelper.cs:174-186 | outside template syntax each turn copies characters or cuts a segment |
| SymbolNames.PlainScan | src/SizeBench.AnalysisEngine/SymbolNameHelper.cs:174-189 | a name without template syntax is cut into segments that rejoin to it |
| SymbolNames.PlainNameRoundTrip | src/SizeBench.AnalysisEngine/SymbolNameHelper.cs:174-204 | a name without template syntax rejoins to itself and records no names |
| SymbolNames.PlainNoSeparatorScan | src/SizeBench.AnalysisEngine/SymbolNameHelper.cs:183-186 | without "::" the scan only copies characters |
| SymbolNames.PlainNameUnchanged | src/SizeBench.AnalysisEngine/SymbolNameHelper.cs:94-99 | a name with no template syntax and no "::" is returned unchanged |
| SymbolNames.ScanKeepsNamesWellFormed | src/SizeBench.AnalysisEngine/SymbolNameHelper.cs:143-153 | the dictionary never holds an empty or repeated name |
| SymbolNames.GenericNamesWellFormed | src/SizeBench.AnalysisEngine/SymbolNameHelper.cs:101-204 | the genericiser's dictionary has distinct non-empty keys, so Add never throws |
| SymbolNames.NumberingStep | src/SizeBench.AnalysisEngine/SymbolNameHelper.cs:132-158 | one turn of the inner loop keeps its invariant |
| SymbolNames.JoinStep | src/SizeBench.AnalysisEngine/SymbolNameHelper.cs:134-137 | a comma before every placeholder but the first gives the comma-joined list |
| SymbolNames.AnonymizeOne | src/SizeBench.AnalysisEngine/SymbolNameHelper.cs:139-157 | one concrete name is anonymised as AssignOne says |
| SymbolNames.AppendAnonymizedNames | src/SizeBench.AnalysisEngine/SymbolNameHelper.cs:131-159 | the inner loop appends the comma-joined placeholders and returns the updated dictionary and counter |
| SymbolNames.GenericizeNamespaceAndTypeName | src/SizeBench.AnalysisEngine/SymbolNameHelper.cs:101-205 | the method computes Genericize: name, dictionary and segments |
| SymbolNames.JoinSegmentsBeforeLast | src/SizeBench.AnalysisEngine/SymbolNameHelper.cs:33-42 | the segments before the last, joined with "::" |
| SymbolNames.UserDefinedTypeToGenericTemplatedName | src/SizeBench.AnalysisEngine/SymbolNameHelper.cs:94-99 | a type's generic name is the genericiser's name |
| SymbolNames.ReplaceWithoutOccurrence | src/SizeBench.AnalysisEngine/SymbolNameHelper.cs:70 | String.Replace leaves a string without the pattern unchanged |
| SymbolNames.GenericArgumentNames | src/SizeBench.AnalysisEngine/SymbolNameHelper.cs:50-76 | one rewritten argument per argument, in order |
| SymbolNames.ArgumentWithoutRecordedNames | src/SizeBench.AnalysisEngine/SymbolNameHelper.cs:58-74 | an argument mentioning no recorded name is kept as written |
| SymbolNames.RecordedUntouched | src/SizeBench.AnalysisEngine/SymbolNameHelper.cs:64-74 | the replacement loop leaves a string with no recorded name unchanged |
| SymbolNames.ReplaceAllRecorded | src/SizeBench.AnalysisEngine/SymbolNameHelper.cs:64-74 | the loop replaces each recorded name in insertion order |
| SymbolNames.FunctionToGenericTemplatedName | src/SizeBench.AnalysisEngine/SymbolNameHelper.cs:8-92 | the generic function name is the genericised parent-and-name followed by the rewritten argument list |
| SymbolNames.GenericArgumentsText | src/SizeBench.AnalysisEngine/SymbolNameHelper.cs:50-76 | the argument loop joins the rewritten arguments with ", " |

## Left out

- Platform calls are not modelled: `LoadLibraryEx`,
  `ImageDirectoryEntryToDataEx`, the handle masking, the file copy,
  `MapFileAndCheckSum`, `Dispose`, and the task log.  The loaded image is
  the `image` field, and whether a debug directory was found is
  `debugDirectoryFound`.
- `ImageNtHeader` is modelled by `Headers.NtHeadersAt`, which reads
  e_lfanew and checks the PE signature; the platform call itself is not.
- `StripForceIntegrityBit` is modelled on the file's bytes; the file I/O
  and the checksum rewrite are left out.
- `CultureInfo.GetCultureInfo(id).DisplayName` is the `cultures` map; an ID
  absent from it stands for the CultureNotFoundException branch.
- `LoadStringByRVA` is not modelled: it is a public helper the constructor
  does not call, and it rests on the foreign call `IsTextUnicode`.
- Resources.ReadEntryLabel: an ID entry is labelled by its number, not by
  the text `NameString` would format for it.  Enum names and labels stay
  structured values rather than formatted strings.
- Resources.IconOf: the group symbols' own classes (RsrcGroupIconDataSymbol,
  RsrcGroupCursorDataSymbol, RsrcGroupStringTablesDataSymbol) are not part of
  this model.  Their RVA is taken to be the first member's RVA, the start of
  the range they cover; an empty icon or cursor group is placed at its
  header.
- A walk that fails leaves the class state unchanged in the model.  The
  source's exception can leave the part already added in the inventory;
  after a failure the object is not used again.
- `RVARangeSet.FromListOfRVARanges` (the merging of neighbouring ranges) is
  not modelled, because RVARangeSet is not part of this model; its input
  list is.
- PE.PEFile.CompareSimilarityOfBytesInBinary: returns the two counters, not
  their float quotient, because floating point is not modelled (nothing
  compared gives NaN in the source).
- PE.PEFile.CompareData: requires both spans to be in the image, because the
  source has no error path there.  The same goes for
  CompareSimilarityOfBytesInBinary and
  LoadUInt32ByRVAThatIsPreferredBaseRelative.
- The `int` loop counters of CompareData and CompareSimilarityOfBytesInBinary,
  and the `long` counters of the latter, are unbounded in the model.
- Bytes.AnsiText: `Marshal.PtrToStringAnsi` decodes with the system ANSI
  code page; the model takes it to be single-byte Latin-1, one character per
  byte.  Under a code page such as cp1252 the characters themselves differ,
  and under a double-byte code page the character count differs too, which
  changes the sizes `descriptorName.Length + 1` and `thunkName.Length + 3`
  (PEFile.cs:246 and :285).  Bytes.ReadAnsiString and the descriptor and
  thunk name sizes in Imports rest on this assumption.
- Ranges.RangeOf and Resources.StringTable.End: `RVAEnd` is taken to be the
  exclusive end RVA + Size.  ISymbol is not part of this model and only
  declares the property.
- Resources.IsDefinedType: the `Win32ResourceType` enum is not part of this
  model.  Its defined values are taken to be the RT_* types 1..24 except 13,
  15 and 18.  `Unknown` and `UserNamedResource` (PEFile.cs:556 and 561) are
  modelled as constructors of their own, taken not to collide with those
  values.
- PE.LoadImage: `RvaRange.FromRVAAndSize` is not part of this model.
  RsrcRange.RVAStart is taken to be the resource table's VirtualAddress.
- `Debug.Assert` lines are not modelled (they are off in release builds).
- PE.PEFile.Load: the constructor's parse is a method run after the
  constructor, because a Dafny constructor cannot return the error the
  source throws.
- The EH-data parsing and the other members of `PEFile` that the
  constructor does not call are not part of this model.

## Findings

| source | as written | input that shows it | evidently intended | confidence | as-written member | corrected member |
|---|---|---|---|---|---|---|
| src/SizeBench.AnalysisEngine/PE/PEFile.cs:514-519 | a table that cannot continue the current run closes the run, but is itself dropped: the new run starts empty | three string tables of one language at RVA 0, 64 and 80, 16 bytes each: the loop groups them as [[0], [80]] | the table starts the next run: [[0], [64, 80]] | not executed | Resources.GroupStringTables, Resources.StringTableGrouping, Resources.GroupAsWrittenDropsTable (used by Resources.ParseRsrcSymbols and PE.PEFile.GroupStringTableSymbols) | Resources.GroupFrom, Resources.GroupingPartitions |

The resource parse and the class follow the loop as written.  The intended
grouping `Resources.GroupFrom` is defined beside it, with its properties
proved, and is not used by the parse.
