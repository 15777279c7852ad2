/** The reverse walks of CreateGroupIconSymbol and CreateGroupCursorSymbol
    over a group's directory entries, and the loop invariants that tie each
    turn of those loops to Resources.GroupIcon and Resources.GroupCursor. */
module GroupWalks {
  import opened Results
  import opened Bytes
  import opened Resources
  /** The reverse walk's state before entry `idx` of a group: the RVA of
      the member read last, the total size so far and the members from
      `idx` on. */
  ghost predicate IconWalkAt(entries: seq<GroupDirEntry>, idx: nat, start: U32, language: string,
                             iconRva: U32, totalSize: U32, icons: seq<IconSymbol>)
  {
    && idx <= |entries|
    && iconRva == Wrap32(start - SuffixSize(entries, idx))
    && totalSize == Wrap32(NEWHEADER_SIZE + RESDIR_SIZE * |entries| + SuffixSize(entries, idx))
    && icons == IconMembers(entries, start, language)[idx..]
  }

  lemma IconWalkBegins(entries: seq<GroupDirEntry>, start: U32, language: string)
    ensures IconWalkAt(entries, |entries|, start, language, start, Wrap32(NEWHEADER_SIZE + RESDIR_SIZE * |entries|), [])
  {
    Wrap32Small(start);
  }

  /** One turn backwards: entry `idx - 1` becomes member `icon`, placed
      just below the member read before it. */
  lemma IconWalkStep(entries: seq<GroupDirEntry>, idx: nat, start: U32, language: string,
                     iconRva: U32, totalSize: U32, icons: seq<IconSymbol>, e: GroupDirEntry, icon: IconSymbol)
    requires 0 < idx && IconWalkAt(entries, idx, start, language, iconRva, totalSize, icons)
    requires e == entries[idx - 1]
    requires icon == IconSymbol(Wrap32(iconRva - RoundUpTo8ByteAlignment(e.bytesInRes)), e.bytesInRes, language, e.id,
                                IconWidth(e), IconHeight(e), e.bitCount)
    ensures IconWalkAt(entries, idx - 1, start, language, icon.rva, Wrap32(totalSize + RoundUpTo8ByteAlignment(e.bytesInRes)),
                       [icon] + icons)
  {
    var rounded := RoundUpTo8ByteAlignment(e.bytesInRes);
    Wrap32Add(start - SuffixSize(entries, idx), -(rounded as int));
    Wrap32Add(NEWHEADER_SIZE + RESDIR_SIZE * |entries| + SuffixSize(entries, idx), rounded);
    var all := IconMembers(entries, start, language);
    assert icon == IconOf(entries, idx - 1, start, language) == all[idx - 1];
    assert all[idx - 1..] == [all[idx - 1]] + all[idx..];
  }

  /** The reverse walk past the first entry has built the group. */
  lemma IconWalkEnds(image: Image, language: string, name: ResourceName, data: DataEntry,
                     iconRva: U32, totalSize: U32, icons: seq<IconSymbol>)
    requires ReadGroupEntries(image, data.offsetToData).Ok?
    requires IconWalkAt(ReadGroupEntries(image, data.offsetToData).value, 0, data.offsetToData, language, iconRva, totalSize, icons)
    ensures GroupIcon(image, language, name, data) == Ok(GroupIconSymbol(iconRva, totalSize, language, name, icons))
  {
    var entries := ReadGroupEntries(image, data.offsetToData).value;
    assert IconMembers(entries, data.offsetToData, language)[0..] == IconMembers(entries, data.offsetToData, language);
  }

  /** The same reverse walk over a cursor group. */
  ghost predicate CursorWalkAt(entries: seq<GroupDirEntry>, idx: nat, start: U32, language: string,
                               cursorRva: U32, totalSize: U32, cursors: seq<CursorSymbol>)
  {
    && idx <= |entries|
    && cursorRva == Wrap32(start - SuffixSize(entries, idx))
    && totalSize == Wrap32(NEWHEADER_SIZE + RESDIR_SIZE * |entries| + SuffixSize(entries, idx))
    && cursors == CursorMembers(entries, start, language)[idx..]
  }

  lemma CursorWalkBegins(entries: seq<GroupDirEntry>, start: U32, language: string)
    ensures CursorWalkAt(entries, |entries|, start, language, start, Wrap32(NEWHEADER_SIZE + RESDIR_SIZE * |entries|), [])
  {
    Wrap32Small(start);
  }

  lemma CursorWalkStep(entries: seq<GroupDirEntry>, idx: nat, start: U32, language: string,
                       cursorRva: U32, totalSize: U32, cursors: seq<CursorSymbol>, e: GroupDirEntry, cursor: CursorSymbol)
    requires 0 < idx && CursorWalkAt(entries, idx, start, language, cursorRva, totalSize, cursors)
    requires e == entries[idx - 1]
    requires cursor == CursorSymbol(Wrap32(cursorRva - RoundUpTo8ByteAlignment(e.bytesInRes)), e.bytesInRes, language, e.id,
                                    e.firstWord, e.secondWord / 2, e.bitCount)
    ensures CursorWalkAt(entries, idx - 1, start, language, cursor.rva, Wrap32(totalSize + RoundUpTo8ByteAlignment(e.bytesInRes)),
                         [cursor] + cursors)
  {
    var rounded := RoundUpTo8ByteAlignment(e.bytesInRes);
    Wrap32Add(start - SuffixSize(entries, idx), -(rounded as int));
    Wrap32Add(NEWHEADER_SIZE + RESDIR_SIZE * |entries| + SuffixSize(entries, idx), rounded);
    var all := CursorMembers(entries, start, language);
    assert cursor == CursorOf(entries, idx - 1, start, language) == all[idx - 1];
    assert all[idx - 1..] == [all[idx - 1]] + all[idx..];
  }

  lemma CursorWalkEnds(image: Image, language: string, name: ResourceName, data: DataEntry,
                       cursorRva: U32, totalSize: U32, cursors: seq<CursorSymbol>)
    requires ReadGroupEntries(image, data.offsetToData).Ok?
    requires CursorWalkAt(ReadGroupEntries(image, data.offsetToData).value, 0, data.offsetToData, language, cursorRva, totalSize, cursors)
    ensures GroupCursor(image, language, name, data) == Ok(GroupCursorSymbol(cursorRva, totalSize, language, name, cursors))
  {
    var entries := ReadGroupEntries(image, data.offsetToData).value;
    assert CursorMembers(entries, data.offsetToData, language)[0..] == CursorMembers(entries, data.offsetToData, language);
  }

  /** A group header that runs past the image fails either group. */
  lemma GroupHeaderOutOfRange(image: Image, language: string, name: ResourceName, data: DataEntry)
    requires !InBounds(image, data.offsetToData, NEWHEADER_SIZE)
    ensures GroupIcon(image, language, name, data) == Err(OutOfRange(data.offsetToData, NEWHEADER_SIZE))
    ensures GroupCursor(image, language, name, data) == Err(OutOfRange(data.offsetToData, NEWHEADER_SIZE))
  {
  }

  /** The invariant of CreateGroupIconSymbol's loop at `idx`: before any
      entry is read, the walk's starting values; afterwards, the entries from
      `idx` on walked back from the group header. */
  ghost predicate IconLoop(image: Image, start: U32, language: string, idx: nat,
                           iconRva: U32, totalSize: U32, icons: seq<IconSymbol>)
    requires InBounds(image, start, NEWHEADER_SIZE)
  {
    var count := U16At(image, start + 4);
    && idx <= count
    && (idx == count ==> iconRva == start && totalSize == Wrap32(NEWHEADER_SIZE + RESDIR_SIZE * count) && icons == [])
    && (idx < count ==> ReadGroupEntries(image, start).Ok?
                        && IconWalkAt(ReadGroupEntries(image, start).value, idx, start, language, iconRva, totalSize, icons))
  }

  lemma IconLoopStep(image: Image, start: U32, language: string, idx: nat,
                     iconRva: U32, totalSize: U32, icons: seq<IconSymbol>, e: GroupDirEntry, icon: IconSymbol)
    requires InBounds(image, start, NEWHEADER_SIZE) && idx < U16At(image, start + 4)
    requires IconLoop(image, start, language, idx + 1, iconRva, totalSize, icons)
    requires InBounds(image, start + NEWHEADER_SIZE + RESDIR_SIZE * idx, RESDIR_SIZE)
    requires e == GroupDirEntryAt(image, start + NEWHEADER_SIZE + RESDIR_SIZE * idx)
    requires icon == IconSymbol(Wrap32(iconRva - RoundUpTo8ByteAlignment(e.bytesInRes)), e.bytesInRes, language, e.id,
                                IconWidth(e), IconHeight(e), e.bitCount)
    ensures IconLoop(image, start, language, idx, icon.rva, Wrap32(totalSize + RoundUpTo8ByteAlignment(e.bytesInRes)),
                     [icon] + icons)
  {
    GroupEntriesInBounds(image, start, idx);
    var entries := ReadGroupEntries(image, start).value;
    assert e == entries[idx];
    IconLoopWalk(image, start, language, idx + 1, iconRva, totalSize, icons, entries);
    IconWalkStep(entries, idx + 1, start, language, iconRva, totalSize, icons, e, icon);
    var total' := Wrap32(totalSize + RoundUpTo8ByteAlignment(e.bytesInRes));
    IconWalkLoop(image, start, language, idx, icon.rva, total', [icon] + icons, entries);
  }

  lemma IconWalkLoop(image: Image, start: U32, language: string, idx: nat,
                    iconRva: U32, totalSize: U32, icons: seq<IconSymbol>, entries: seq<GroupDirEntry>)
    requires InBounds(image, start, NEWHEADER_SIZE) && ReadGroupEntries(image, start) == Ok(entries)
    requires idx < |entries| && IconWalkAt(entries, idx, start, language, iconRva, totalSize, icons)
    ensures IconLoop(image, start, language, idx, iconRva, totalSize, icons)
  {
  }

  /** Once the entries are read, the loop invariant is the walk's. */
  lemma IconLoopWalk(image: Image, start: U32, language: string, idx: nat,
                    iconRva: U32, totalSize: U32, icons: seq<IconSymbol>, entries: seq<GroupDirEntry>)
    requires InBounds(image, start, NEWHEADER_SIZE) && ReadGroupEntries(image, start) == Ok(entries)
    requires IconLoop(image, start, language, idx, iconRva, totalSize, icons)
    ensures IconWalkAt(entries, idx, start, language, iconRva, totalSize, icons)
  {
    if idx == |entries| {
      IconWalkBegins(entries, start, language);
    }
  }

  lemma IconLoopOutOfRange(image: Image, language: string, name: ResourceName, data: DataEntry, idx: nat,
                           iconRva: U32, totalSize: U32, icons: seq<IconSymbol>)
    requires InBounds(image, data.offsetToData, NEWHEADER_SIZE) && idx < U16At(image, data.offsetToData + 4)
    requires IconLoop(image, data.offsetToData, language, idx + 1, iconRva, totalSize, icons)
    requires !InBounds(image, data.offsetToData + NEWHEADER_SIZE + RESDIR_SIZE * idx, RESDIR_SIZE)
    ensures GroupIcon(image, language, name, data)
            == Err(OutOfRange(data.offsetToData + NEWHEADER_SIZE + RESDIR_SIZE * idx, RESDIR_SIZE))
  {
    LastGroupEntryOutOfRange(image, data.offsetToData, idx);
  }

  lemma IconLoopDone(image: Image, language: string, name: ResourceName, data: DataEntry,
                     iconRva: U32, totalSize: U32, icons: seq<IconSymbol>, r: Result<RsrcSymbol, Error>)
    requires InBounds(image, data.offsetToData, NEWHEADER_SIZE)
    requires IconLoop(image, data.offsetToData, language, 0, iconRva, totalSize, icons)
    requires r == Ok(GroupIconSymbol(iconRva, totalSize, language, name, icons))
    ensures r == GroupIcon(image, language, name, data)
  {
    if U16At(image, data.offsetToData + 4) == 0 {
      NoGroupEntries(image, data.offsetToData);
      IconWalkBegins([], data.offsetToData, language);
    }
    IconWalkEnds(image, language, name, data, iconRva, totalSize, icons);
  }

  /** The same invariant for CreateGroupCursorSymbol. */
  ghost predicate CursorLoop(image: Image, start: U32, language: string, idx: nat,
                             cursorRva: U32, totalSize: U32, cursors: seq<CursorSymbol>)
    requires InBounds(image, start, NEWHEADER_SIZE)
  {
    var count := U16At(image, start + 4);
    && idx <= count
    && (idx == count ==> cursorRva == start && totalSize == Wrap32(NEWHEADER_SIZE + RESDIR_SIZE * count) && cursors == [])
    && (idx < count ==> ReadGroupEntries(image, start).Ok?
                        && CursorWalkAt(ReadGroupEntries(image, start).value, idx, start, language, cursorRva, totalSize, cursors))
  }

  lemma CursorLoopStep(image: Image, start: U32, language: string, idx: nat,
                       cursorRva: U32, totalSize: U32, cursors: seq<CursorSymbol>, e: GroupDirEntry, cursor: CursorSymbol)
    requires InBounds(image, start, NEWHEADER_SIZE) && idx < U16At(image, start + 4)
    requires CursorLoop(image, start, language, idx + 1, cursorRva, totalSize, cursors)
    requires InBounds(image, start + NEWHEADER_SIZE + RESDIR_SIZE * idx, RESDIR_SIZE)
    requires e == GroupDirEntryAt(image, start + NEWHEADER_SIZE + RESDIR_SIZE * idx)
    requires cursor == CursorSymbol(Wrap32(cursorRva - RoundUpTo8ByteAlignment(e.bytesInRes)), e.bytesInRes, language, e.id,
                                    e.firstWord, e.secondWord / 2, e.bitCount)
    ensures CursorLoop(image, start, language, idx, cursor.rva, Wrap32(totalSize + RoundUpTo8ByteAlignment(e.bytesInRes)),
                       [cursor] + cursors)
  {
    GroupEntriesInBounds(image, start, idx);
    var entries := ReadGroupEntries(image, start).value;
    assert e == entries[idx];
    CursorLoopWalk(image, start, language, idx + 1, cursorRva, totalSize, cursors, entries);
    CursorWalkStep(entries, idx + 1, start, language, cursorRva, totalSize, cursors, e, cursor);
    var total' := Wrap32(totalSize + RoundUpTo8ByteAlignment(e.bytesInRes));
    CursorWalkLoop(image, start, language, idx, cursor.rva, total', [cursor] + cursors, entries);
  }

  lemma CursorWalkLoop(image: Image, start: U32, language: string, idx: nat,
                    cursorRva: U32, totalSize: U32, cursors: seq<CursorSymbol>, entries: seq<GroupDirEntry>)
    requires InBounds(image, start, NEWHEADER_SIZE) && ReadGroupEntries(image, start) == Ok(entries)
    requires idx < |entries| && CursorWalkAt(entries, idx, start, language, cursorRva, totalSize, cursors)
    ensures CursorLoop(image, start, language, idx, cursorRva, totalSize, cursors)
  {
  }

  /** Once the entries are read, the loop invariant is the walk's. */
  lemma CursorLoopWalk(image: Image, start: U32, language: string, idx: nat,
                    cursorRva: U32, totalSize: U32, cursors: seq<CursorSymbol>, entries: seq<GroupDirEntry>)
    requires InBounds(image, start, NEWHEADER_SIZE) && ReadGroupEntries(image, start) == Ok(entries)
    requires CursorLoop(image, start, language, idx, cursorRva, totalSize, cursors)
    ensures CursorWalkAt(entries, idx, start, language, cursorRva, totalSize, cursors)
  {
    if idx == |entries| {
      CursorWalkBegins(entries, start, language);
    }
  }

  lemma CursorLoopOutOfRange(image: Image, language: string, name: ResourceName, data: DataEntry, idx: nat,
                             cursorRva: U32, totalSize: U32, cursors: seq<CursorSymbol>)
    requires InBounds(image, data.offsetToData, NEWHEADER_SIZE) && idx < U16At(image, data.offsetToData + 4)
    requires CursorLoop(image, data.offsetToData, language, idx + 1, cursorRva, totalSize, cursors)
    requires !InBounds(image, data.offsetToData + NEWHEADER_SIZE + RESDIR_SIZE * idx, RESDIR_SIZE)
    ensures GroupCursor(image, language, name, data)
            == Err(OutOfRange(data.offsetToData + NEWHEADER_SIZE + RESDIR_SIZE * idx, RESDIR_SIZE))
  {
    LastGroupEntryOutOfRange(image, data.offsetToData, idx);
  }

  lemma CursorLoopDone(image: Image, language: string, name: ResourceName, data: DataEntry,
                       cursorRva: U32, totalSize: U32, cursors: seq<CursorSymbol>, r: Result<RsrcSymbol, Error>)
    requires InBounds(image, data.offsetToData, NEWHEADER_SIZE)
    requires CursorLoop(image, data.offsetToData, language, 0, cursorRva, totalSize, cursors)
    requires r == Ok(GroupCursorSymbol(cursorRva, totalSize, language, name, cursors))
    ensures r == GroupCursor(image, language, name, data)
  {
    if U16At(image, data.offsetToData + 4) == 0 {
      NoGroupEntries(image, data.offsetToData);
      CursorWalkBegins([], data.offsetToData, language);
    }
    CursorWalkEnds(image, language, name, data, cursorRva, totalSize, cursors);
  }

  /** Entry `idx` of a group lies in the image exactly when all of the
      entries up to it do; the last one decides whether all of them do. */
  lemma GroupEntriesInBounds(image: Image, start: U32, idx: nat)
    requires InBounds(image, start, NEWHEADER_SIZE) && idx < U16At(image, start + 4)
    requires InBounds(image, start + NEWHEADER_SIZE + RESDIR_SIZE * idx, RESDIR_SIZE)
    requires idx + 1 < U16At(image, start + 4) ==> ReadGroupEntries(image, start).Ok?
    ensures ReadGroupEntries(image, start).Ok?
    ensures GroupDirEntryAt(image, start + NEWHEADER_SIZE + RESDIR_SIZE * idx) == ReadGroupEntries(image, start).value[idx]
  {
  }

  lemma LastGroupEntryOutOfRange(image: Image, start: U32, idx: nat)
    requires InBounds(image, start, NEWHEADER_SIZE) && idx < U16At(image, start + 4)
    requires !InBounds(image, start + NEWHEADER_SIZE + RESDIR_SIZE * idx, RESDIR_SIZE)
    requires idx + 1 < U16At(image, start + 4) ==> ReadGroupEntries(image, start).Ok?
    ensures idx + 1 == U16At(image, start + 4)
    ensures ReadGroupEntries(image, start) == Err(OutOfRange(start + NEWHEADER_SIZE + RESDIR_SIZE * idx, RESDIR_SIZE))
  {
  }

  lemma NoGroupEntries(image: Image, start: U32)
    requires InBounds(image, start, NEWHEADER_SIZE) && U16At(image, start + 4) == 0
    ensures ReadGroupEntries(image, start) == Ok([])
  {
  }
}
