/** RVA ranges and the byte comparisons SizeBench makes between ranges of
    one image: exact comparison (CompareData), the byte counts behind the
    similarity score (CompareSimilarityOfBytesInBinary) and the rebasing of
    a 32-bit pointer stored relative to the preferred load address. */
module Ranges {
  import opened Results
  import opened Bytes
  import opened Inventory
  import opened PESymbols

  /** RVARange: a start RVA and a size in bytes. */
  datatype RvaRange = RvaRange(rvaStart: U32, size: nat)

  /** `new RVARange(start, end)`: the half-open range [start, end). */
  function FromBounds(start: U32, end: int): (r: RvaRange)
    requires start <= end
    ensures r.rvaStart == start && r.rvaStart + r.size == end
  {
    RvaRange(start, end - start)
  }

  function Min(a: nat, b: nat): nat {
    if a <= b then a else b
  }

  function Max(a: nat, b: nat): nat {
    if a <= b then b else a
  }

  /** The range a symbol of the inventory occupies: [RVA, RVAEnd). */
  function RangeOf(s: PESymbol): (r: RvaRange)
    ensures r.rvaStart == s.rva && r.size == s.Size()
  {
    FromBounds(s.rva, s.End())
  }

  /** The ranges of the symbols `vs`, one each, in their order. */
  function RangesOf(vs: seq<PESymbol>): (rs: seq<RvaRange>)
    ensures |rs| == |vs|
  {
    seq(|vs|, i requires 0 <= i < |vs| => RangeOf(vs[i]))
  }

  /** The list the constructor hands to RVARangeSet: one range per symbol of
      OtherPESymbols, in ascending RVA order. */
  function SymbolRanges(symbols: map<U32, PESymbol>): seq<RvaRange> {
    RangesOf(InKeyOrder(symbols))
  }

  /** Every symbol of the inventory has its range on the list ... */
  lemma SymbolRangeListed(symbols: map<U32, PESymbol>, k: U32)
    requires k in symbols
    ensures RangeOf(symbols[k]) in SymbolRanges(symbols)
  {
    var i := InKeyOrderHas(symbols, k);
    assert SymbolRanges(symbols)[i] == RangeOf(InKeyOrder(symbols)[i]);
  }

  /** ... and every range on the list is some symbol's. */
  lemma SymbolRangeOwned(symbols: map<U32, PESymbol>, i: nat) returns (k: U32)
    requires i < |SymbolRanges(symbols)|
    ensures k in symbols && SymbolRanges(symbols)[i] == RangeOf(symbols[k])
  {
    k := InKeyOrderFrom(symbols, i);
  }

  /** One range per symbol, and the list holds exactly the symbols' ranges. */
  lemma SymbolRangesCover(symbols: map<U32, PESymbol>)
    ensures |SymbolRanges(symbols)| == |symbols.Keys|
    ensures forall k :: k in symbols ==> RangeOf(symbols[k]) in SymbolRanges(symbols)
    ensures forall i :: 0 <= i < |SymbolRanges(symbols)| ==>
              exists k :: k in symbols && SymbolRanges(symbols)[i] == RangeOf(symbols[k])
  {
    forall k | k in symbols
      ensures RangeOf(symbols[k]) in SymbolRanges(symbols)
    {
      SymbolRangeListed(symbols, k);
    }
    forall i | 0 <= i < |SymbolRanges(symbols)|
      ensures exists k :: k in symbols && SymbolRanges(symbols)[i] == RangeOf(symbols[k])
    {
      var k := SymbolRangeOwned(symbols, i);
    }
  }

  // ------------------------------------------------------------------
  // Counting equal bytes
  // ------------------------------------------------------------------

  /** The number of offsets k < len at which the byte at a + k equals the
      byte at b + k. */
  function MatchCount(image: seq<Byte>, a: nat, b: nat, len: nat): (n: nat)
    requires a + len <= |image| && b + len <= |image|
    ensures n <= len
  {
    if len == 0 then 0
    else MatchCount(image, a, b, len - 1) + (if image[a + len - 1] == image[b + len - 1] then 1 else 0)
  }

  /** Every byte matches exactly when the two spans hold the same bytes. */
  lemma {:induction false} AllMatchIffEqual(image: seq<Byte>, a: nat, b: nat, len: nat)
    requires a + len <= |image| && b + len <= |image|
    ensures MatchCount(image, a, b, len) == len <==> image[a..a + len] == image[b..b + len]
  {
    if len > 0 {
      AllMatchIffEqual(image, a, b, len - 1);
      assert image[a..a + len] == image[a..a + len - 1] + [image[a + len - 1]];
      assert image[b..b + len] == image[b..b + len - 1] + [image[b + len - 1]];
      if image[a..a + len] == image[b..b + len] {
        assert image[a..a + len][..len - 1] == image[a..a + len - 1];
        assert image[b..b + len][..len - 1] == image[b..b + len - 1];
        assert image[a..a + len][len - 1] == image[a + len - 1];
        assert image[b..b + len][len - 1] == image[b + len - 1];
      }
    }
  }

  // ------------------------------------------------------------------
  // Similarity counts
  // ------------------------------------------------------------------

  /** The shorter of each pair of ranges lies in the image at both starts:
      those are the bytes the comparison reads. */
  ghost predicate PairsInBounds(image: seq<Byte>, r1: seq<RvaRange>, r2: seq<RvaRange>)
    requires |r1| == |r2|
  {
    forall i :: 0 <= i < |r1| ==>
      && InBounds(image, r1[i].rvaStart, Min(r1[i].size, r2[i].size))
      && InBounds(image, r2[i].rvaStart, Min(r1[i].size, r2[i].size))
  }

  /** bytesSame after the first `k` pairs. */
  function SameBytes(image: seq<Byte>, r1: seq<RvaRange>, r2: seq<RvaRange>, k: nat): nat
    requires |r1| == |r2| && k <= |r1| && PairsInBounds(image, r1, r2)
  {
    if k == 0 then 0
    else SameBytes(image, r1, r2, k - 1)
         + MatchCount(image, r1[k - 1].rvaStart, r2[k - 1].rvaStart, Min(r1[k - 1].size, r2[k - 1].size))
  }

  /** bytesCompared after the first `k` pairs. */
  function ComparedBytes(r1: seq<RvaRange>, r2: seq<RvaRange>, k: nat): nat
    requires |r1| == |r2| && k <= |r1|
  {
    if k == 0 then 0
    else ComparedBytes(r1, r2, k - 1) + Max(r1[k - 1].size, r2[k - 1].size)
  }

  /** The equal bytes never outnumber the bytes compared, so the score lies
      in [0, 1] whenever anything is compared. */
  lemma {:induction false} SameWithinCompared(image: seq<Byte>, r1: seq<RvaRange>, r2: seq<RvaRange>, k: nat)
    requires |r1| == |r2| && k <= |r1| && PairsInBounds(image, r1, r2)
    ensures SameBytes(image, r1, r2, k) <= ComparedBytes(r1, r2, k)
  {
    if k > 0 {
      SameWithinCompared(image, r1, r2, k - 1);
    }
  }

  /** CompareSimilarityOfBytesInBinary's counters (bytesSame, bytesCompared);
      lists of different lengths are rejected before any byte is read. */
  function Similarity(image: seq<Byte>, r1: seq<RvaRange>, r2: seq<RvaRange>): (r: Result<(nat, nat), Error>)
    requires |r1| == |r2| ==> PairsInBounds(image, r1, r2)
    ensures r.Err? <==> |r1| != |r2|
    ensures r.Err? ==> r.error == RangeCountMismatch
    ensures r.Ok? ==> r.value.0 <= r.value.1
  {
    if |r1| != |r2| then Err(RangeCountMismatch)
    else
      SameWithinCompared(image, r1, r2, |r1|);
      Ok((SameBytes(image, r1, r2, |r1|), ComparedBytes(r1, r2, |r1|)))
  }

  /** A range list compared with itself: every byte is the same, and both
      counters are the total size. */
  lemma {:induction false} SelfSameBytes(image: seq<Byte>, rs: seq<RvaRange>, k: nat)
    requires k <= |rs| && PairsInBounds(image, rs, rs)
    ensures SameBytes(image, rs, rs, k) == ComparedBytes(rs, rs, k)
  {
    if k > 0 {
      SelfSameBytes(image, rs, k - 1);
      var x := rs[k - 1];
      AllMatchIffEqual(image, x.rvaStart, x.rvaStart, x.size);
    }
  }

  lemma SelfSimilar(image: seq<Byte>, rs: seq<RvaRange>)
    requires PairsInBounds(image, rs, rs)
    ensures Similarity(image, rs, rs).Ok?
    ensures Similarity(image, rs, rs).value.0 == Similarity(image, rs, rs).value.1
  {
    SelfSameBytes(image, rs, |rs|);
  }

  // ------------------------------------------------------------------
  // Preferred-base-relative values
  // ------------------------------------------------------------------

  /** LoadUInt32ByRVAThatIsPreferredBaseRelative on the loaded uint: the
      ulong difference from the preferred load address, cast to uint, is
      the difference modulo 2^32. */
  function Rebase(value: U32, preferred: U64): (r: U32)
    ensures (r + preferred) % TWO_32 == value
  {
    Wrap32Add(value - preferred, preferred);
    Wrap32Small(value);
    Wrap32(value - preferred)
  }

  /** A pointer the linker stored as (the low 32 bits of) preferred base +
      RVA rebases to that RVA. */
  lemma RebaseUndoesRelocation(preferred: U64, rva: U32)
    ensures Rebase(Wrap32(preferred + rva), preferred) == rva
  {
    Wrap32Add(preferred + rva, -(preferred as int));
    Wrap32Small(rva);
  }
}
