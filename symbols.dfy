/** The symbols the PE walker records in `OtherPESymbols`: directory
    symbols, import descriptors, import thunks and import-by-name entries.

    The symbol classes themselves are not part of this model; a symbol here
    holds the constructor arguments the walker passes, and its end is taken
    to be RVA + Size. */
module PESymbols {
  import opened Results
  import opened Bytes
  import opened Inventory
  import opened Headers

  /** The display name of a PEDirectorySymbol: a literal label, or the
      `[Debug Directory] <Type>` label of a debug record, kept as the type
      value rather than formatted. */
  datatype DirectoryName = Label(text: string) | DebugDirectoryType(debugType: U32)

  datatype PESymbol =
    | PEDirectorySymbol(rva: U32, size: nat, name: DirectoryName)
    | ImportDescriptorSymbol(rva: U32, moduleName: string)
    | ImportThunkSymbol(rva: U32, size: nat, ordinalOrHint: U16, moduleName: string, thunkName: Option<string>)
    | ImportByNameSymbol(rva: U32, size: nat, hint: U16, moduleName: string, importName: string)
  {
    function Size(): nat {
      match this
      case ImportDescriptorSymbol(_, _) => IMAGE_IMPORT_DESCRIPTOR_SIZE
      case PEDirectorySymbol(_, size, _) => size
      case ImportThunkSymbol(_, size, _, _, _) => size
      case ImportByNameSymbol(_, size, _, _, _) => size
    }

    function End(): int {
      rva + Size()
    }
  }

  const IMAGE_IMPORT_DESCRIPTOR_SIZE: nat := 20

  /** The label AddDirectorySymbolIfPresent gives a data directory. */
  function DirectoryLabel(name: string): string {
    "[PE Directory] " + name
  }

  /** The label of an import module's name string. */
  function StringLiteralLabel(text: string): string {
    "`string': \"" + text + "\""
  }

  const NULL_TERMINATOR_NAME: string := "null terminator"

  /** AddDirectorySymbolIfPresent: a directory whose RVA is nonzero is
      recorded under that RVA with its size and `[PE Directory] <name>`. */
  function AddDirectorySymbolIfPresent(syms: map<U32, PESymbol>, directory: DataDirectory, name: string)
    : (r: Result<map<U32, PESymbol>, Error>)
    ensures directory.virtualAddress == 0 ==> r == Ok(syms)
    ensures directory.virtualAddress != 0 ==> (r.Ok? <==> directory.virtualAddress !in syms)
    ensures directory.virtualAddress != 0 && r.Ok? ==>
      && r.value.Keys == syms.Keys + {directory.virtualAddress}
      && r.value[directory.virtualAddress]
         == PEDirectorySymbol(directory.virtualAddress, directory.size, Label(DirectoryLabel(name)))
      && Extends(syms, r.value)
  {
    if directory.virtualAddress != 0 then
      Add(syms, directory.virtualAddress,
          PEDirectorySymbol(directory.virtualAddress, directory.size, Label(DirectoryLabel(name))))
    else
      Ok(syms)
  }
}
