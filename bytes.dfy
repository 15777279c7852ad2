/** Bytes of a loaded PE image and the fixed-width integers read from it.

    An image is modelled as the sequence of its bytes indexed by RVA, the way
    `GetDataMemberPtrByRVA` turns an RVA into a pointer into the mapped image.
    Every multi-byte read is little-endian.  Unsigned 32-bit arithmetic of
    the source (`uint`) is written out with `Wrap32`. */
module Bytes {
  import opened Results

  const TWO_8: int := 0x100
  const TWO_16: int := 0x1_0000
  const TWO_31: int := 0x8000_0000
  const TWO_32: int := 0x1_0000_0000
  const TWO_63: int := 0x8000_0000_0000_0000
  const TWO_64: int := 0x1_0000_0000_0000_0000

  type Byte = x: int | 0 <= x < 0x100
  type U16 = x: int | 0 <= x < 0x1_0000
  type U32 = x: int | 0 <= x < 0x1_0000_0000
  type U64 = x: int | 0 <= x < 0x1_0000_0000_0000_0000

  /** RVAs are 32-bit, so a mapped image is smaller than 4 GiB. */
  type Image = s: seq<Byte> | |s| < 0x1_0000_0000

  /** The ways a parse can fail.  In the source each of these is an exception
      (an access violation, `ArgumentException`, `InvalidOperationException`)
      that abandons the whole operation. */
  datatype Error =
    | OutOfRange(rva: int, length: nat)   // a read past the end of the image
    | DuplicateKey(key: int)              // SortedList.Add of a key already present
    | UnsupportedMachine(machine: U16)    // a machine type SizeBench does not handle
    | MalformedHeaders                    // no DOS/NT header where the loader expects one
    | RangeCountMismatch                  // two range lists of different lengths

  /** uint arithmetic: the mathematical value reduced modulo 2^32. */
  function Wrap32(x: int): (r: U32)
    ensures r % TWO_32 == x % TWO_32
  {
    x % TWO_32
  }

  lemma Wrap32Small(x: int)
    requires 0 <= x < TWO_32
    ensures Wrap32(x) == x
  {
  }

  /** Reducing an operand first does not change a uint sum. */
  lemma Wrap32Add(a: int, b: int)
    ensures Wrap32(Wrap32(a) + b) == Wrap32(a + b)
  {
    var q := a / TWO_32;
    assert a == q * TWO_32 + Wrap32(a);
    assert a + b == q * TWO_32 + (Wrap32(a) + b);
    ModShift(Wrap32(a) + b, q);
  }

  lemma ModShift(x: int, q: int)
    ensures (x + q * TWO_32) % TWO_32 == x % TWO_32
  {
    var y := x + q * TWO_32;
    var r := x % TWO_32;
    assert y == (x / TWO_32 + q) * TWO_32 + r;
    assert 0 <= r < TWO_32;
  }

  // ------------------------------------------------------------------
  // Little-endian reads
  // ------------------------------------------------------------------

  predicate InBounds(image: seq<Byte>, rva: int, n: nat) {
    0 <= rva && rva + n <= |image|
  }

  function U16At(image: seq<Byte>, rva: int): U16
    requires InBounds(image, rva, 2)
  {
    image[rva] + TWO_8 * image[rva + 1]
  }

  function U32At(image: seq<Byte>, rva: int): U32
    requires InBounds(image, rva, 4)
  {
    U16At(image, rva) + TWO_16 * U16At(image, rva + 2)
  }

  function U64At(image: seq<Byte>, rva: int): U64
    requires InBounds(image, rva, 8)
  {
    U32At(image, rva) + TWO_32 * U32At(image, rva + 4)
  }

  /** The encodings the reads undo. */
  function LE16(v: U16): (b: seq<Byte>)
    ensures |b| == 2
  {
    [v % TWO_8, v / TWO_8]
  }

  function LE32(v: U32): (b: seq<Byte>)
    ensures |b| == 4
  {
    LE16(v % TWO_16) + LE16(v / TWO_16)
  }

  function LE64(v: U64): (b: seq<Byte>)
    ensures |b| == 8
  {
    LE32(v % TWO_32) + LE32(v / TWO_32)
  }

  lemma U16RoundTrip(before: seq<Byte>, v: U16, after: seq<Byte>)
    ensures U16At(before + LE16(v) + after, |before|) == v
  {
    var s := before + LE16(v) + after;
    assert s[|before|] == v % TWO_8 && s[|before| + 1] == v / TWO_8;
  }

  lemma U32RoundTrip(before: seq<Byte>, v: U32, after: seq<Byte>)
    ensures U32At(before + LE32(v) + after, |before|) == v
  {
    var lo, hi := LE16(v % TWO_16), LE16(v / TWO_16);
    assert before + LE32(v) + after == before + lo + (hi + after);
    assert before + LE32(v) + after == (before + lo) + hi + after;
    U16RoundTrip(before, v % TWO_16, hi + after);
    U16RoundTrip(before + lo, v / TWO_16, after);
  }

  lemma U64RoundTrip(before: seq<Byte>, v: U64, after: seq<Byte>)
    ensures U64At(before + LE64(v) + after, |before|) == v
  {
    var lo, hi := LE32(v % TWO_32), LE32(v / TWO_32);
    assert before + LE64(v) + after == before + lo + (hi + after);
    assert before + LE64(v) + after == (before + lo) + hi + after;
    U32RoundTrip(before, v % TWO_32, hi + after);
    U32RoundTrip(before + lo, v / TWO_32, after);
  }

  /** Checked reads: a read past the end of the image is an error. */
  function ReadU16(image: seq<Byte>, rva: int): (r: Result<U16, Error>)
    ensures r.Ok? <==> InBounds(image, rva, 2)
    ensures r.Ok? ==> r.value == U16At(image, rva)
  {
    if InBounds(image, rva, 2) then Ok(U16At(image, rva)) else Err(OutOfRange(rva, 2))
  }

  function ReadU32(image: seq<Byte>, rva: int): (r: Result<U32, Error>)
    ensures r.Ok? <==> InBounds(image, rva, 4)
    ensures r.Ok? ==> r.value == U32At(image, rva)
  {
    if InBounds(image, rva, 4) then Ok(U32At(image, rva)) else Err(OutOfRange(rva, 4))
  }

  function ReadU64(image: seq<Byte>, rva: int): (r: Result<U64, Error>)
    ensures r.Ok? <==> InBounds(image, rva, 8)
    ensures r.Ok? ==> r.value == U64At(image, rva)
  {
    if InBounds(image, rva, 8) then Ok(U64At(image, rva)) else Err(OutOfRange(rva, 8))
  }

  // ------------------------------------------------------------------
  // Strings stored in the image
  // ------------------------------------------------------------------

  /** Marshal.PtrToStringAnsi: the bytes from `rva` up to, not including, the
      first NUL.  With no NUL before the end of the image the read runs off
      the image. */
  function ReadAnsiString(image: seq<Byte>, rva: nat): (r: Result<seq<Byte>, Error>)
    ensures r.Ok? ==> rva + |r.value| < |image| && image[rva + |r.value|] == 0
    ensures r.Ok? ==> forall k :: 0 <= k < |r.value| ==> r.value[k] == image[rva + k] && r.value[k] != 0
    ensures r.Err? ==> forall k :: rva <= k < |image| ==> image[k] != 0
    decreases |image| - rva
  {
    if rva >= |image| then Err(OutOfRange(rva, 1))
    else if image[rva] == 0 then Ok([])
    else
      var rest :- ReadAnsiString(image, rva + 1);
      Ok([image[rva]] + rest)
  }

  /** The string read at `rva` is exactly the bytes before the first NUL. */
  lemma {:induction false} AnsiStringUpToNul(image: seq<Byte>, rva: nat, n: nat)
    requires rva + n < |image| && image[rva + n] == 0
    requires forall k :: rva <= k < rva + n ==> image[k] != 0
    ensures ReadAnsiString(image, rva) == Ok(image[rva..rva + n])
    decreases n
  {
    if n > 0 {
      AnsiStringUpToNul(image, rva + 1, n - 1);
      assert [image[rva]] + image[rva + 1..rva + n] == image[rva..rva + n];
    }
  }

  lemma AnsiStringRoundTrip(before: seq<Byte>, text: seq<Byte>, after: seq<Byte>)
    requires forall k :: 0 <= k < |text| ==> text[k] != 0
    ensures ReadAnsiString(before + text + [0] + after, |before|) == Ok(text)
  {
    var image := before + text + [0] + after;
    assert image[|before|..|before| + |text|] == text;
    AnsiStringUpToNul(image, |before|, |text|);
  }

  /** ANSI text as characters, one character per byte. */
  function AnsiText(b: seq<Byte>): (s: string)
    ensures |s| == |b|
    ensures forall k :: 0 <= k < |b| ==> s[k] as int == b[k]
  {
    seq(|b|, k requires 0 <= k < |b| => b[k] as char)
  }

  /** `n` UTF-16 code units starting at `rva` (Marshal.PtrToStringUni with a
      length). */
  function UnitsAt(image: seq<Byte>, rva: int, n: nat): (u: seq<U16>)
    requires InBounds(image, rva, 2 * n)
    ensures |u| == n
    ensures forall k :: 0 <= k < n ==> u[k] == U16At(image, rva + 2 * k)
  {
    seq(n, k requires 0 <= k < n => U16At(image, rva + 2 * k))
  }

  // ------------------------------------------------------------------
  // Alignment
  // ------------------------------------------------------------------

  /** RoundUpTo8ByteAlignment, in uint arithmetic: an unaligned value above
      0xFFFF_FFF8 wraps to 0. */
  function RoundUpTo8ByteAlignment(v: U32): (r: U32)
    ensures r % 8 == 0
    ensures v % 8 == 0 ==> r == v
    ensures v <= 0xFFFF_FFF8 ==> v <= r < v + 8
    ensures v > 0xFFFF_FFF8 ==> r == 0
  {
    if v % 8 == 0 then v else Wrap32(v + (8 - v % 8))
  }

  lemma RoundUpIdempotent(v: U32)
    ensures RoundUpTo8ByteAlignment(RoundUpTo8ByteAlignment(v)) == RoundUpTo8ByteAlignment(v)
  {
  }

  /** The rounded value is the least multiple of 8 at or above `v`. */
  lemma RoundUpIsLeast(v: U32, m: U32)
    requires v <= m && m % 8 == 0
    ensures RoundUpTo8ByteAlignment(v) <= m
  {
  }
}
