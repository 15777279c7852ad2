/** The NT headers of a PE image: the decisions the PEFile constructor takes
    from them, and the DllCharacteristics patch that clears
    IMAGE_DLLCHARACTERISTICS_FORCE_INTEGRITY before the image is loaded.

    Offsets and constants are those of the Microsoft PE/COFF specification:
    the DOS header holds `e_lfanew` at 0x3C; the NT headers are the 4-byte
    signature, the 20-byte file header (Machine first) and the optional header,
    whose data directory array starts at offset 96 (PE32) or 112 (PE32+). */
module Headers {
  import opened Results
  import opened Bytes

  const IMAGE_DOS_SIGNATURE: U16 := 0x5A4D           // "MZ"
  const IMAGE_DOS_HEADER_SIZE: nat := 64
  const E_LFANEW_OFFSET: nat := 0x3C
  const IMAGE_NT_SIGNATURE: U32 := 0x0000_4550       // "PE\0\0"
  const MACHINE_OFFSET: nat := 4                      // FileHeader.Machine
  const OPTIONAL_HEADER_OFFSET: nat := 24
  const IMAGE_NT_HEADERS32_SIZE: nat := 248
  const IMAGE_NT_HEADERS64_SIZE: nat := 264
  const IMAGE_NT_OPTIONAL_HDR64_MAGIC: U16 := 0x20B

  const MACHINE_I386: U16 := 0x014C
  const MACHINE_ARM: U16 := 0x01C0
  const MACHINE_AMD64: U16 := 0x8664
  const MACHINE_ARM64: U16 := 0xAA64

  // Data directory indices
  const IMPORT_TABLE: nat := 1
  const RESOURCE_TABLE: nat := 2
  const BASE_RELOCATION_TABLE: nat := 5
  const DEBUG: nat := 6
  const NUMBER_OF_DIRECTORIES: nat := 16

  /** The machine types SizeBench accepts: x64, I386, ARM and ARM64. */
  predicate SupportedMachine(m: U16) {
    m == MACHINE_AMD64 || m == MACHINE_I386 || m == MACHINE_ARM || m == MACHINE_ARM64
  }

  datatype DataDirectory = DataDirectory(virtualAddress: U32, size: U32)

  /** What the constructor keeps from the headers.  `resourceTable` is
      RsrcRange. */
  datatype Headers = Headers(
    machine: U16,
    magic: U16,
    bytesPerWord: nat,
    preferredLoadAddress: U64,
    fileAlignment: U32,
    sectionAlignment: U32,
    importTable: DataDirectory,
    resourceTable: DataDirectory,
    baseRelocationTable: DataDirectory,
    debug: DataDirectory)

  /** Where ImageNtHeader finds the NT headers: at `e_lfanew`, provided the
      DOS and NT signatures are present. */
  function NtHeadersAt(image: seq<Byte>): (r: Result<nat, Error>)
    ensures r.Ok? ==> InBounds(image, r.value, 4) && U32At(image, r.value) == IMAGE_NT_SIGNATURE
    ensures r.Ok? ==> InBounds(image, 0, IMAGE_DOS_HEADER_SIZE) && r.value == U32At(image, E_LFANEW_OFFSET)
  {
    if !InBounds(image, 0, IMAGE_DOS_HEADER_SIZE) || U16At(image, 0) != IMAGE_DOS_SIGNATURE then
      Err(MalformedHeaders)
    else
      var nt := U32At(image, E_LFANEW_OFFSET);
      if !InBounds(image, nt, 4) || U32At(image, nt) != IMAGE_NT_SIGNATURE then Err(MalformedHeaders)
      else Ok(nt)
  }

  /** Offset of the data directory array within the optional header. */
  function DataDirectoriesOffset(magic: U16): nat {
    if magic == IMAGE_NT_OPTIONAL_HDR64_MAGIC then 112 else 96
  }

  function DirectoryAt(image: seq<Byte>, directories: nat, index: nat): DataDirectory
    requires index < NUMBER_OF_DIRECTORIES
    requires InBounds(image, directories, 8 * NUMBER_OF_DIRECTORIES)
  {
    DataDirectory(U32At(image, directories + 8 * index), U32At(image, directories + 8 * index + 4))
  }

  /** The header decisions of the constructor.  The 32-bit layout is read
      first; an unsupported machine is rejected before the magic is looked
      at; the PE32+ magic selects the 64-bit layout and a word of 8 bytes,
      anything else the 32-bit layout and a word of 4 bytes. */
  function ReadHeaders(image: seq<Byte>): (r: Result<Headers, Error>)
    ensures r.Ok? ==> SupportedMachine(r.value.machine)
    ensures r.Ok? ==> (r.value.bytesPerWord == 8 <==> r.value.magic == IMAGE_NT_OPTIONAL_HDR64_MAGIC)
    ensures r.Ok? ==> r.value.bytesPerWord == 4 || r.value.bytesPerWord == 8
    ensures r.Err? && r.error.UnsupportedMachine? ==> !SupportedMachine(r.error.machine)
  {
    var nt :- NtHeadersAt(image);
    if !InBounds(image, nt, IMAGE_NT_HEADERS32_SIZE) then Err(OutOfRange(nt, IMAGE_NT_HEADERS32_SIZE))
    else
      var machine := U16At(image, nt + MACHINE_OFFSET);
      if !SupportedMachine(machine) then Err(UnsupportedMachine(machine))
      else
        var oh := nt + OPTIONAL_HEADER_OFFSET;
        var magic := U16At(image, oh);
        if magic == IMAGE_NT_OPTIONAL_HDR64_MAGIC && !InBounds(image, nt, IMAGE_NT_HEADERS64_SIZE) then
          Err(OutOfRange(nt, IMAGE_NT_HEADERS64_SIZE))
        else
          var dirs := oh + DataDirectoriesOffset(magic);
          var imageBase: U64 := if magic == IMAGE_NT_OPTIONAL_HDR64_MAGIC then U64At(image, oh + 24) else U32At(image, oh + 28);
          Ok(Headers(machine, magic,
                     if magic == IMAGE_NT_OPTIONAL_HDR64_MAGIC then 8 else 4,
                     imageBase,
                     U32At(image, oh + 36), U32At(image, oh + 32),
                     DirectoryAt(image, dirs, IMPORT_TABLE),
                     DirectoryAt(image, dirs, RESOURCE_TABLE),
                     DirectoryAt(image, dirs, BASE_RELOCATION_TABLE),
                     DirectoryAt(image, dirs, DEBUG)))
  }

  /** A machine type outside the whitelist is rejected, and only such a
      machine is rejected as unsupported. */
  lemma MachineWhitelist(image: seq<Byte>)
    requires NtHeadersAt(image).Ok?
    requires InBounds(image, NtHeadersAt(image).value, IMAGE_NT_HEADERS32_SIZE)
    ensures var machine := U16At(image, NtHeadersAt(image).value + MACHINE_OFFSET);
            ReadHeaders(image) == Err(UnsupportedMachine(machine)) <==> !SupportedMachine(machine)
  {
  }

  /** Both layouts are read at the offsets of the chosen one: the image base
      is a u64 at 24 in PE32+ and a u32 at 28 in PE32, the alignments sit at
      32 and 36 in both, and the data directories follow at 112 or 96. */
  lemma HeadersFromMatchingLayout(image: seq<Byte>)
    requires ReadHeaders(image).Ok?
    ensures var h := ReadHeaders(image).value;
            var oh := NtHeadersAt(image).value + OPTIONAL_HEADER_OFFSET;
            var dirs := oh + (if h.bytesPerWord == 8 then 112 else 96);
            InBounds(image, dirs, 8 * NUMBER_OF_DIRECTORIES) &&
            h.preferredLoadAddress == (if h.bytesPerWord == 8 then U64At(image, oh + 24) else U32At(image, oh + 28)) &&
            h.sectionAlignment == U32At(image, oh + 32) &&
            h.fileAlignment == U32At(image, oh + 36) &&
            h.resourceTable == DirectoryAt(image, dirs, RESOURCE_TABLE) &&
            h.importTable == DirectoryAt(image, dirs, IMPORT_TABLE) &&
            h.debug == DirectoryAt(image, dirs, DEBUG)
  {
  }

  // ------------------------------------------------------------------
  // IMAGE_DLLCHARACTERISTICS_FORCE_INTEGRITY
  // ------------------------------------------------------------------

  /** IMAGE_DLLCHARACTERISTICS_FORCE_INTEGRITY is bit 7 (0x80). */
  const IMAGE_DLLCHARACTERISTICS_FORCE_INTEGRITY: U16 := 0x80
  /** DllCharacteristics sits at the same offset of both optional header layouts. */
  const DLL_CHARACTERISTICS_OFFSET: nat := 70
  /** The constructor looks at the first 4 KiB of the file only. */
  const HEADER_PROBE_SIZE: nat := 4096

  predicate HasForceIntegrity(dc: U16) {
    (dc / IMAGE_DLLCHARACTERISTICS_FORCE_INTEGRITY) % 2 == 1
  }

  /** `dc & ~FORCE_INTEGRITY` on 16 bits, written with arithmetic: bits 8..15
      and bits 0..6 are kept, bit 7 is dropped. */
  function WithoutForceIntegrity(dc: U16): (r: U16)
    ensures !HasForceIntegrity(r)
    ensures r % 0x80 == dc % 0x80 && r / 0x100 == dc / 0x100
  {
    (dc / 0x100) * 0x100 + dc % 0x80
  }

  /** Clearing the bit removes exactly 0x80 when it is set, and nothing
      otherwise. */
  lemma WithoutForceIntegrityValue(dc: U16)
    ensures WithoutForceIntegrity(dc) == if HasForceIntegrity(dc) then dc - 0x80 else dc
  {
  }

  /** The first 4 KiB of the file, zero-filled past its end. */
  function HeaderProbe(file: seq<Byte>): (probe: seq<Byte>)
    ensures |probe| == HEADER_PROBE_SIZE
    ensures forall k :: 0 <= k < HEADER_PROBE_SIZE ==> probe[k] == if k < |file| then file[k] else 0
  {
    seq(HEADER_PROBE_SIZE, k requires 0 <= k < HEADER_PROBE_SIZE => if k < |file| then file[k] else 0)
  }

  /** Offset of DllCharacteristics in a file whose DOS header holds `e_lfanew`. */
  function DllCharacteristicsOffset(e_lfanew: nat): nat {
    e_lfanew + OPTIONAL_HEADER_OFFSET + DLL_CHARACTERISTICS_OFFSET
  }

  /** Whether the constructor decides to strip the bit: the 32-bit NT
      headers at `e_lfanew` in the 4 KiB probe carry FORCE_INTEGRITY. */
  function HasForceIntegrityBitSet(file: seq<Byte>): (r: Result<bool, Error>)
    ensures r.Ok? <==> InBounds(HeaderProbe(file), U32At(HeaderProbe(file), E_LFANEW_OFFSET), IMAGE_NT_HEADERS32_SIZE)
  {
    var probe := HeaderProbe(file);
    var e_lfanew := U32At(probe, E_LFANEW_OFFSET);
    if !InBounds(probe, e_lfanew, IMAGE_NT_HEADERS32_SIZE) then Err(OutOfRange(e_lfanew, IMAGE_NT_HEADERS32_SIZE))
    else
      var dc := U16At(probe, DllCharacteristicsOffset(e_lfanew));
      Ok(HasForceIntegrity(dc))
  }

  /** StripForceIntegrityBit on the file's bytes: the two bytes of
      DllCharacteristics are rewritten without FORCE_INTEGRITY; nothing else
      changes.  The checksum rewrite that follows is not part of this model. */
  function StripForceIntegrityBit(file: seq<Byte>): (r: Result<seq<Byte>, Error>)
    ensures r.Ok? ==> InBounds(file, 0, IMAGE_DOS_HEADER_SIZE)
    ensures r.Ok? ==> var off := DllCharacteristicsOffset(U32At(file, E_LFANEW_OFFSET));
      && InBounds(file, off, 2)
      && |r.value| == |file|
      && (forall k :: 0 <= k < |file| && k != off && k != off + 1 ==> r.value[k] == file[k])
      && U16At(r.value, off) == WithoutForceIntegrity(U16At(file, off))
  {
    if !InBounds(file, 0, IMAGE_DOS_HEADER_SIZE) then Err(OutOfRange(0, IMAGE_DOS_HEADER_SIZE))
    else
      var e_lfanew := U32At(file, E_LFANEW_OFFSET);
      if !InBounds(file, e_lfanew, IMAGE_NT_HEADERS32_SIZE) then Err(OutOfRange(e_lfanew, IMAGE_NT_HEADERS32_SIZE))
      else
        var off := DllCharacteristicsOffset(e_lfanew);
        var cleared := WithoutForceIntegrity(U16At(file, off));
        U16RoundTrip(file[..off], cleared, file[off + 2..]);
        Ok(file[..off] + LE16(cleared) + file[off + 2..])
  }

  /** After the patch, the constructor's probe no longer sees the bit. */
  lemma StripClearsForceIntegrity(file: seq<Byte>)
    requires StripForceIntegrityBit(file).Ok?
    requires U32At(file, E_LFANEW_OFFSET) + IMAGE_NT_HEADERS32_SIZE <= HEADER_PROBE_SIZE
    ensures HasForceIntegrityBitSet(StripForceIntegrityBit(file).value) == Ok(false)
  {
    var patched := StripForceIntegrityBit(file).value;
    var e_lfanew := U32At(file, E_LFANEW_OFFSET);
    var off := DllCharacteristicsOffset(e_lfanew);
    var probe := HeaderProbe(patched);
    assert U32At(probe, E_LFANEW_OFFSET) == e_lfanew by {
      assert forall k :: E_LFANEW_OFFSET <= k < E_LFANEW_OFFSET + 4 ==> probe[k] == file[k];
    }
    assert U16At(probe, off) == U16At(patched, off);
  }

  /** Stripping twice is stripping once. */
  lemma StripIdempotent(file: seq<Byte>)
    requires StripForceIntegrityBit(file).Ok?
    ensures StripForceIntegrityBit(StripForceIntegrityBit(file).value) == StripForceIntegrityBit(file)
  {
    var once := StripForceIntegrityBit(file).value;
    var off := DllCharacteristicsOffset(U32At(file, E_LFANEW_OFFSET));
    assert U32At(once, E_LFANEW_OFFSET) == U32At(file, E_LFANEW_OFFSET);
    var twice := StripForceIntegrityBit(once).value;
    WithoutForceIntegrityValue(U16At(once, off));
    assert U16At(twice, off) == U16At(once, off);
    assert twice == once;
  }
}
