/**
 Orientation of clipboard bitmaps: an image and the same image stored the other
 way up, height negated and rows reversed (linrdp/src/clipboard.rs: `decode_dib`).
 */
module DibTwins {
  import opened Prelude
  import opened Geometry
  import opened Dib

  function Flipped(h: Header): Header { h.(topDown := !h.topDown) }

  ghost predicate RowsReversed(a: seq<byte>, b: seq<byte>, h: Header) {
    && Holds(a, h) && Holds(b, h)
    && forall i :: 0 <= i < h.height ==> StoredRow(b, h, i) == StoredRow(a, h, h.height - 1 - i)
  }

  lemma FlippedStoredRow(t: seq<byte>, h: Header, i: nat)
    requires Holds(t, h) && i < h.height
    ensures Holds(t, Flipped(h)) && StoredRow(t, Flipped(h), i) == StoredRow(t, h, i)
  {
  }

  lemma {:induction false} FlippedRows(a: seq<byte>, b: seq<byte>, h: Header, n: nat)
    requires RowsReversed(a, b, h) && n <= h.height
    ensures Holds(b, Flipped(h)) && ImageRgb(a, h, n) == ImageRgb(b, Flipped(h), n)
    decreases n
  {
    if n > 0 {
      FlippedRows(a, b, h, n - 1);
      FlippedStoredRow(b, h, SourceRow(Flipped(h), n - 1));
      assert StoredRow(b, Flipped(h), SourceRow(Flipped(h), n - 1)) == StoredRow(a, h, SourceRow(h, n - 1));
    }
  }

  // ----- The twin -----

  /** The height field of the other orientation. */
  function Negated(dib: seq<byte>): nat
    requires |dib| >= 40
  {
    (0x1_0000_0000 - Read32(dib, 8).value) % 0x1_0000_0000
  }

  function PixelsEnd(h: Header): nat { h.off + h.rowBytes * h.height }

  /** The same bytes outside the height field and the pixels. */
  ghost predicate SameAround(dib: seq<byte>, t: seq<byte>, from: int, to: int) {
    && |t| == |dib| && 0 <= from <= to <= |dib|
    && (forall k :: 0 <= k < from && !(8 <= k < 12) ==> t[k] == dib[k])
    && forall k :: to <= k < |dib| ==> t[k] == dib[k]
  }

  /** `t` is `dib` with its height negated and its rows reversed. */
  ghost predicate IsTwin(dib: seq<byte>, t: seq<byte>, h: Header) {
    && |dib| >= 40 && Read32(t, 8) == Some(Negated(dib)) && RowsReversed(dib, t, h)
    && SameAround(dib, t, h.off, PixelsEnd(h))
  }

  /** Every accepted image with these header fields decodes like its twin. */
  ghost predicate AlwaysAlike(f: Fields) {
    forall dib, t, h ::
      |dib| >= 40 && ReadFields(dib) == f && ParseHeader(dib) == Some(h) && IsTwin(dib, t, h) ==> Decoded(t) == Decoded(dib)
  }

  /** The masks, if any are read, end before the pixels, or there is one row. */
  predicate MasksSafe(f: Fields) {
    f.compression != 3 || PixelsOff(f.size, f.clrUsed, f.compression) >= 52 || Height(f) == 1
  }

  // ----- Safe headers -----

  lemma ReadSame(a: seq<byte>, b: seq<byte>, at: nat)
    requires at + 4 <= |a| == |b| && forall k :: at <= k < at + 4 ==> a[k] == b[k]
    ensures Read32(a, at) == Read32(b, at)
  {
  }

  lemma NegatedReads(dib: seq<byte>)
    requires |dib| >= 40
    ensures Signed(Read32(dib, 8).value) > -0x8000_0000 ==> Signed(Negated(dib)) == -Signed(Read32(dib, 8).value)
  {
  }

  lemma TwinFields(dib: seq<byte>, t: seq<byte>, h: Header)
    requires IsTwin(dib, t, h)
    ensures ReadFields(t) == ReadFields(dib).(rawHeight := Signed(Negated(dib)))
  {
    ReadSame(dib, t, 0);
    ReadSame(dib, t, 4);
    ReadSame(dib, t, 16);
    ReadSame(dib, t, 32);
  }

  lemma OneRowSame(dib: seq<byte>, t: seq<byte>, h: Header, k: nat)
    requires Holds(dib, h) && Holds(t, h) && h.height == 1 && StoredRow(t, h, 0) == StoredRow(dib, h, 0)
    requires SameAround(dib, t, h.off, h.off + h.rowBytes) && 12 <= k < |dib|
    ensures t[k] == dib[k]
  {
    if h.off <= k < h.off + h.rowBytes {
      RowByte(dib, h, k - h.off);
      RowByte(t, h, k - h.off);
    }
  }

  /** A byte of the first row. */
  lemma RowByte(dib: seq<byte>, h: Header, c: nat)
    requires Holds(dib, h) && h.height > 0 && c < h.rowBytes
    ensures h.off + c < |dib| && StoredRow(dib, h, 0)[c] == dib[h.off + c]
  {
    MulMono(h.rowBytes, 1, h.height);
  }
  lemma OneRow(dib: seq<byte>, t: seq<byte>, h: Header)
    requires RowsReversed(dib, t, h) && h.height == 1
    ensures StoredRow(t, h, 0) == StoredRow(dib, h, 0)
  {
  }

  lemma OneRowEnd(h: Header)
    requires h.height == 1
    ensures PixelsEnd(h) == h.off + h.rowBytes
  {
  }

  lemma OneRowTwin(dib: seq<byte>, t: seq<byte>, h: Header)
    requires IsTwin(dib, t, h) && h.height == 1
    ensures StoredRow(t, h, 0) == StoredRow(dib, h, 0) && SameAround(dib, t, h.off, h.off + h.rowBytes)
  {
    OneRow(dib, t, h);
    OneRowEnd(h);
  }

  lemma MaskByteSame(dib: seq<byte>, t: seq<byte>, h: Header, k: nat)
    requires IsTwin(dib, t, h) && (h.off >= 52 || h.height == 1) && 40 <= k < 52 && k < |dib|
    ensures t[k] == dib[k]
  {
    if h.off < 52 {
      OneRowTwin(dib, t, h);
      OneRowSame(dib, t, h, k);
    }
  }

  lemma MasksSame(dib: seq<byte>, t: seq<byte>)
    requires |t| == |dib| && forall k :: 40 <= k < 52 && k < |dib| ==> t[k] == dib[k]
    ensures ReadMasks(t) == ReadMasks(dib)
  {
    if |dib| >= 52 {
      ReadSame(dib, t, 40);
      ReadSame(dib, t, 44);
      ReadSame(dib, t, 48);
    }
  }

  lemma MasksSurvive(dib: seq<byte>, t: seq<byte>, h: Header)
    requires IsTwin(dib, t, h) && (h.off >= 52 || h.height == 1)
    ensures ReadMasks(t) == ReadMasks(dib)
  {
    forall k | 40 <= k < 52 && k < |dib| ensures t[k] == dib[k] {
      MaskByteSame(dib, t, h, k);
    }
    MasksSame(dib, t);
  }

  lemma NegatedAccept(f: Fields, m: Option<Masks>, length: nat, h: Header)
    requires Accept(f, m, length) == Some(h)
    ensures Accept(f.(rawHeight := -f.rawHeight), m, length) == Some(Flipped(h))
  {
  }

  lemma AcceptedShape(f: Fields, m: Option<Masks>, length: nat, h: Header)
    requires Accept(f, m, length) == Some(h)
    ensures h.off == PixelsOff(f.size, f.clrUsed, f.compression) && h.height == Height(f)
    ensures -MAX_DIM <= f.rawHeight <= MAX_DIM && FieldsOk(f, length)
  {
  }

  lemma ParsesTo(dib: seq<byte>, f: Fields, m: Option<Masks>)
    requires |dib| >= 40 && ReadFields(dib) == f && MasksOf(dib, f) == m
    ensures ParseHeader(dib) == Accept(f, m, |dib|)
  {
  }

  lemma TwinReads(dib: seq<byte>, t: seq<byte>, h: Header, f: Fields)
    requires IsTwin(dib, t, h) && ReadFields(dib) == f && f.rawHeight > -0x8000_0000
    requires f.compression == 3 ==> h.off >= 52 || h.height == 1
    ensures ReadFields(t) == f.(rawHeight := -f.rawHeight) && MasksOf(t, ReadFields(t)) == MasksOf(dib, f)
  {
    TwinFields(dib, t, h);
    NegatedReads(dib);
    if f.compression == 3 {
      MasksSurvive(dib, t, h);
    }
  }

  lemma TwinParses(dib: seq<byte>, t: seq<byte>, h: Header)
    requires ParseHeader(dib) == Some(h) && IsTwin(dib, t, h) && MasksSafe(ReadFields(dib))
    ensures ParseHeader(t) == Some(Flipped(h))
  {
    var f := ReadFields(dib);
    var m := MasksOf(dib, f);
    ParsesTo(dib, f, m);
    AcceptedShape(f, m, |dib|, h);
    TwinReads(dib, t, h, f);
    NegatedAccept(f, m, |dib|, h);
    ParsesTo(t, f.(rawHeight := -f.rawHeight), m);
  }

  lemma TwinDecodesAlike(dib: seq<byte>, t: seq<byte>, h: Header)
    requires ParseHeader(dib) == Some(h) && IsTwin(dib, t, h) && MasksSafe(ReadFields(dib))
    ensures Decoded(t) == Decoded(dib)
  {
    TwinParses(dib, t, h);
    DecodedIs(dib, h);
    DecodedIs(t, Flipped(h));
    FlippedRows(dib, t, h, h.height);
  }

  // ----- Every image has a twin -----

  function Bytes32(n: nat): (b: seq<byte>)
    requires n < 0x1_0000_0000
    ensures |b| == 4
  {
    [n % 256, n / 256 % 256, n / 0x1_0000 % 256, n / 0x100_0000]
  }

  lemma WordOfBytes32(n: nat)
    requires n < 0x1_0000_0000
    ensures var b := Bytes32(n); Word32(b[0], b[1], b[2], b[3]) == n
  {
    assert n == n / 256 * 256 + n % 256;
    assert n / 256 == n / 0x1_0000 * 256 + n / 256 % 256;
    assert n / 0x1_0000 == n / 0x100_0000 * 256 + n / 0x1_0000 % 256;
  }

  lemma ReadWord(dib: seq<byte>, at: nat, n: nat)
    requires n < 0x1_0000_0000 && at + 4 <= |dib|
    requires forall j :: 0 <= j < 4 ==> dib[at + j] == Bytes32(n)[j]
    ensures Read32(dib, at) == Some(n)
  {
    WordOfBytes32(n);
    assert dib[at + 0] == Bytes32(n)[0] && dib[at + 1] == Bytes32(n)[1];
    assert dib[at + 2] == Bytes32(n)[2] && dib[at + 3] == Bytes32(n)[3];
  }

  function ReversedRows(dib: seq<byte>, h: Header, n: nat): seq<byte>
    requires Holds(dib, h) && n <= h.height
  {
    if n == 0 then [] else ReversedRows(dib, h, n - 1) + StoredRow(dib, h, h.height - n)
  }

  lemma {:induction false} ReversedLength(dib: seq<byte>, h: Header, n: nat)
    requires Holds(dib, h) && n <= h.height
    ensures |ReversedRows(dib, h, n)| == h.rowBytes * n
    decreases n
  {
    if n > 0 {
      ReversedLength(dib, h, n - 1);
      assert h.rowBytes * n == h.rowBytes * (n - 1) + h.rowBytes;
    }
  }

  lemma SliceOfFront(front: seq<byte>, last: seq<byte>, at: nat, n: nat)
    requires at + n <= |front|
    ensures (front + last)[at..at + n] == front[at..at + n]
  {
  }

  lemma SliceOfLast(front: seq<byte>, last: seq<byte>)
    ensures (front + last)[|front|..|front| + |last|] == last
  {
  }

  lemma {:induction false} ReversedRow(dib: seq<byte>, h: Header, n: nat, i: nat)
    requires Holds(dib, h) && i < n <= h.height
    ensures h.rowBytes * i + h.rowBytes <= |ReversedRows(dib, h, n)|
    ensures ReversedRows(dib, h, n)[h.rowBytes * i..h.rowBytes * i + h.rowBytes] == StoredRow(dib, h, h.height - 1 - i)
    decreases n
  {
    ReversedLength(dib, h, n - 1);
    MulMono(h.rowBytes, 0, i);
    var front, last, at := ReversedRows(dib, h, n - 1), StoredRow(dib, h, h.height - n), h.rowBytes * i;
    if i < n - 1 {
      ReversedRow(dib, h, n - 1, i);
      SliceOfFront(front, last, at, h.rowBytes);
    } else {
      SliceOfLast(front, last);
    }
  }

  function Head(dib: seq<byte>, off: nat): (head: seq<byte>)
    requires 40 <= off <= |dib|
    ensures |head| == off && head[8..12] == Bytes32(Negated(dib))
    ensures forall k :: 0 <= k < off && !(8 <= k < 12) ==> head[k] == dib[k]
  {
    dib[..8] + Bytes32(Negated(dib)) + dib[12..off]
  }

  ghost predicate Assembled(t: seq<byte>, head: seq<byte>, rows: seq<byte>, tail: seq<byte>) {
    t == head + rows + tail
  }

  lemma SliceOfRows(t: seq<byte>, head: seq<byte>, rows: seq<byte>, tail: seq<byte>, at: nat, n: nat)
    requires Assembled(t, head, rows, tail) && at + n <= |rows|
    ensures t[|head| + at..|head| + at + n] == rows[at..at + n]
  {
    var left, right := t[|head| + at..|head| + at + n], rows[at..at + n];
    forall j | 0 <= j < n ensures left[j] == right[j] {
      assert t[|head| + (at + j)] == rows[at + j];
    }
  }

  lemma StoredRowIs(dib: seq<byte>, h: Header, i: nat, at: int)
    requires Holds(dib, h) && i < h.height && at == h.rowBytes * i
    ensures 0 <= at && h.off + at + h.rowBytes <= |dib| && StoredRow(dib, h, i) == dib[h.off + at..h.off + at + h.rowBytes]
  {
    MulMono(h.rowBytes, i + 1, h.height);
  }

  lemma AssembledRow(t: seq<byte>, h: Header, head: seq<byte>, rows: seq<byte>, tail: seq<byte>, i: nat, at: int,
                     row: seq<byte>)
    requires Holds(t, h) && i < h.height && Assembled(t, head, rows, tail) && |head| == h.off
    requires 0 <= at == h.rowBytes * i && at + h.rowBytes <= |rows| && rows[at..at + h.rowBytes] == row
    ensures StoredRow(t, h, i) == row
  {
    StoredRowIs(t, h, i, at);
    SliceOfRows(t, head, rows, tail, at, h.rowBytes);
  }

  lemma AssembledAround(dib: seq<byte>, h: Header, t: seq<byte>, end: nat, rows: seq<byte>)
    requires 40 <= h.off <= end <= |dib|
    requires |rows| == end - h.off && Assembled(t, Head(dib, h.off), rows, dib[end..])
    ensures SameAround(dib, t, h.off, end) && Read32(t, 8) == Some(Negated(dib))
  {
    var head := Head(dib, h.off);
    assert forall k :: 0 <= k < h.off ==> t[k] == head[k];
    assert forall j :: 0 <= j < 4 ==> t[8 + j] == head[8..12][j];
    ReadWord(t, 8, Negated(dib));
    assert forall k :: end <= k < |dib| ==> t[k] == dib[end..][k - end];
  }

  lemma TwinRow(dib: seq<byte>, h: Header, t: seq<byte>, head: seq<byte>, rows: seq<byte>, tail: seq<byte>, i: nat)
    requires Holds(dib, h) && Holds(t, h) && i < h.height && |head| == h.off
    requires rows == ReversedRows(dib, h, h.height) && Assembled(t, head, rows, tail)
    ensures StoredRow(t, h, i) == StoredRow(dib, h, h.height - 1 - i)
  {
    ReversedRow(dib, h, h.height, i);
    AssembledRow(t, h, head, rows, tail, i, h.rowBytes * i, StoredRow(dib, h, h.height - 1 - i));
  }

  lemma AssembledHolds(dib: seq<byte>, h: Header, t: seq<byte>)
    requires Holds(dib, h) && |t| == |dib|
    ensures Holds(t, h)
  {
  }

  lemma EndInside(dib: seq<byte>, h: Header)
    requires Holds(dib, h)
    ensures 40 <= h.off <= PixelsEnd(h) <= |dib|
  {
    MulMono(h.rowBytes, 0, h.height);
  }

  /** Every image has a twin. */
  lemma TwinExists(dib: seq<byte>, h: Header) returns (t: seq<byte>)
    requires Holds(dib, h)
    ensures IsTwin(dib, t, h)
  {
    EndInside(dib, h);
    var head, rows, tail := Head(dib, h.off), ReversedRows(dib, h, h.height), dib[PixelsEnd(h)..];
    t := head + rows + tail;
    ReversedLength(dib, h, h.height);
    AssembledAround(dib, h, t, PixelsEnd(h), rows);
    AssembledHolds(dib, h, t);
    forall i | 0 <= i < h.height ensures StoredRow(t, h, i) == StoredRow(dib, h, h.height - 1 - i) {
      TwinRow(dib, h, t, head, rows, tail, i);
    }
  }

  // ----- Unsafe headers -----

  /** Fields some image is accepted with. */
  predicate Acceptable(f: Fields) { FieldsOk(f, f.size) }

  function Off(f: Fields): nat { PixelsOff(f.size, f.clrUsed, f.compression) }

  predicate Unsafe(f: Fields) { Acceptable(f) && !MasksSafe(f) }

  lemma UnsafeShape(f: Fields)
    requires Unsafe(f)
    ensures f.compression == 3 && f.bpp == 32 && 41 <= Off(f) <= 51 && f.clrUsed <= 2 && f.size <= 51
    ensures Height(f) >= 2 && f.width >= 1 && RowBytes(f.bpp, f.width) == 4 * f.width
  {
  }

  function RawWord(v: int): nat
    requires -0x8000_0000 <= v < 0x8000_0000
  {
    if v < 0 then v + 0x1_0000_0000 else v
  }

  /** Where the mask word that holds byte `k` starts. */
  function MaskAt(k: nat): nat { if k < 44 then 40 else if k < 48 then 44 else if k < 52 then 48 else 52 }

  /** The mask words: each has one byte set, the one cut by the pixels its first
      byte in there. */
  function Mark(off: nat, k: nat): byte {
    if k == off then 2
    else if MaskAt(k) == MaskAt(off) then 0
    else if k == 40 then 1
    else if k == 44 || k == 48 then 4
    else 0
  }

  function WitnessByte(f: Fields, k: nat): byte
    requires Unsafe(f)
  {
    if k < 4 then Bytes32(f.size)[k]
    else if k < 8 then Bytes32(f.width)[k - 4]
    else if k < 12 then Bytes32(RawWord(f.rawHeight))[k - 8]
    else if k < 40 then (if k == 14 then 32 else if k == 16 then 3 else if k == 32 then f.clrUsed % 256 else 0)
    else Mark(Off(f), k)
  }

  function WitnessLength(f: Fields): nat { Max(52, Off(f) + RowBytes(f.bpp, Max(f.width, 0)) * Height(f)) }

  function Witness(f: Fields): seq<byte>
    requires Unsafe(f)
  {
    seq(WitnessLength(f), k requires 0 <= k => WitnessByte(f, k))
  }

  lemma WitnessWord(f: Fields, at: nat, n: nat)
    requires Unsafe(f) && n < 0x1_0000_0000 && at <= 48
    requires forall j :: 0 <= j < 4 ==> WitnessByte(f, at + j) == Bytes32(n)[j]
    ensures Read32(Witness(f), at) == Some(n)
  {
    var dib := Witness(f);
    forall j | 0 <= j < 4 ensures dib[at + j] == Bytes32(n)[j] {
      assert dib[at + j] == WitnessByte(f, at + j);
    }
    ReadWord(dib, at, n);
  }

  lemma FieldsFrom(dib: seq<byte>, size: nat, width: nat, height: nat, bpp: nat, compression: nat, clrUsed: nat)
    requires Read32(dib, 0) == Some(size) && Read32(dib, 4) == Some(width) && Read32(dib, 8) == Some(height)
    requires Read16(dib, 14) == Some(bpp) && Read32(dib, 16) == Some(compression) && Read32(dib, 32) == Some(clrUsed)
    requires |dib| >= 40
    ensures ReadFields(dib) == Fields(size, Signed(width), Signed(height), bpp, compression, clrUsed)
  {
  }

  lemma WitnessDepth(f: Fields)
    requires Unsafe(f)
    ensures Read16(Witness(f), 14) == Some(32)
  {
    var dib := Witness(f);
    assert dib[14] == WitnessByte(f, 14) && dib[15] == WitnessByte(f, 15);
  }

  lemma WitnessShape(f: Fields)
    requires Unsafe(f)
    ensures Read32(Witness(f), 0) == Some(f.size) && Read32(Witness(f), 4) == Some(f.width)
    ensures Read32(Witness(f), 8) == Some(RawWord(f.rawHeight))
  {
    UnsafeShape(f);
    WitnessWord(f, 0, f.size);
    WitnessWord(f, 4, f.width);
    WitnessWord(f, 8, RawWord(f.rawHeight));
  }

  lemma SmallBytes32(n: nat)
    requires n < 256
    ensures Bytes32(n) == [n, 0, 0, 0]
  {
  }

  lemma WitnessCoding(f: Fields)
    requires Unsafe(f)
    ensures Read32(Witness(f), 16) == Some(3) && Read32(Witness(f), 32) == Some(f.clrUsed)
  {
    UnsafeShape(f);
    SmallBytes32(3);
    SmallBytes32(f.clrUsed);
    WitnessWord(f, 16, 3);
    WitnessWord(f, 32, f.clrUsed);
  }

  lemma WitnessFields(f: Fields)
    requires Unsafe(f)
    ensures ReadFields(Witness(f)) == f
  {
    UnsafeShape(f);
    WitnessShape(f);
    WitnessCoding(f);
    WitnessDepth(f);
    FieldsFrom(Witness(f), f.size, f.width, RawWord(f.rawHeight), 32, 3, f.clrUsed);
  }

  /** Behind the first 40 bytes there are the marks only. */
  ghost predicate Marked(dib: seq<byte>, off: nat) { forall k :: 40 <= k < |dib| ==> dib[k] == Mark(off, k) }

  lemma WitnessMarked(f: Fields)
    requires Unsafe(f)
    ensures Marked(Witness(f), Off(f)) && |Witness(f)| >= 52
  {
  }

  lemma WitnessMask(f: Fields, at: nat)
    requires Unsafe(f) && (at == 40 || at == 44 || at == 48)
    ensures Read32(Witness(f), at).Some? && Read32(Witness(f), at).value > 0
  {
    UnsafeShape(f);
    var dib := Witness(f);
    assert dib[at] == Mark(Off(f), at) && dib[at + 1] == Mark(Off(f), at + 1);
    assert dib[at + 2] == Mark(Off(f), at + 2) && dib[at + 3] == Mark(Off(f), at + 3);
  }

  lemma WitnessAccepted(f: Fields) returns (h: Header)
    requires Unsafe(f)
    ensures ParseHeader(Witness(f)) == Some(h)
    ensures h.off == Off(f) && h.rowBytes == 4 * f.width && h.height == Height(f) && Holds(Witness(f), h)
  {
    UnsafeShape(f);
    WitnessFields(f);
    WitnessMask(f, 40);
    WitnessMask(f, 44);
    WitnessMask(f, 48);
    var m := ReadMasks(Witness(f));
    h := HeaderOf(f, m.value);
    ParsesTo(Witness(f), f, m);
    AcceptedHolds(Witness(f));
  }

  // ----- A twin that is refused -----

  /** The one header whose witness keeps its masks, exchanged. */
  predicate Exchanges(f: Fields) { Off(f) == 44 && f.width == 1 && Height(f) == 2 }

  lemma MarkGone(off: nat, rb: nat, rows: nat, j: nat)
    requires 41 <= off <= 51 && rb >= 4 && rows >= 1 && MaskAt(off + j) == MaskAt(off)
    requires !(off == 44 && rb == 4 && rows == 1)
    requires rb % 4 == 0
    ensures Mark(off, off + rb * rows + j) == 0
  {
    MulMono(rb, 1, rows);
    if rb > 4 || rows > 1 {
      assert rb * rows >= 8 by {
        MulMono(rows, 4, rb);
        MulMono(rb, 2, rows);
      }
    }
  }

  lemma MarkedRow(dib: seq<byte>, h: Header, i: nat, at: int, j: nat)
    requires Holds(dib, h) && Marked(dib, h.off) && i < h.height && at == h.rowBytes * i && j < h.rowBytes
    ensures 0 <= at && StoredRow(dib, h, i)[j] == Mark(h.off, h.off + at + j)
  {
    StoredRowIs(dib, h, i, at);
    assert dib[h.off + at..h.off + at + h.rowBytes][j] == dib[h.off + at + j];
  }

  lemma TwinFirstRow(dib: seq<byte>, t: seq<byte>, h: Header)
    requires RowsReversed(dib, t, h) && h.height > 0
    ensures StoredRow(t, h, 0) == StoredRow(dib, h, h.height - 1)
  {
  }

  lemma TwinFirstBytes(dib: seq<byte>, t: seq<byte>, h: Header, j: nat)
    requires RowsReversed(dib, t, h) && Marked(dib, h.off) && h.height > 0 && j < h.rowBytes
    ensures h.off + j < |t| && t[h.off + j] == Mark(h.off, h.off + h.rowBytes * (h.height - 1) + j)
  {
    TwinFirstRow(dib, t, h);
    RowByte(t, h, j);
    MarkedRow(dib, h, h.height - 1, h.rowBytes * (h.height - 1), j);
  }

  /** A mask is cut by the pixels and its mark does not come back. */
  predicate Cut(h: Header) {
    && 41 <= h.off <= 51 && h.height >= 2 && h.rowBytes >= 4 && h.rowBytes % 4 == 0
    && !(h.off == 44 && h.rowBytes == 4 && h.height == 2)
  }

  /** In the twin the cut mask is zero. */
  lemma CutMaskByte(dib: seq<byte>, h: Header, t: seq<byte>, k: nat)
    requires IsTwin(dib, t, h) && Marked(dib, h.off) && Cut(h)
    requires 40 <= k && MaskAt(k) == MaskAt(h.off)
    ensures k < |t| && t[k] == 0
  {
    if k >= h.off {
      TwinFirstBytes(dib, t, h, k - h.off);
      MarkGone(h.off, h.rowBytes, h.height - 1, k - h.off);
    } else {
      assert t[k] == dib[k] == Mark(h.off, k);
    }
  }

  lemma ZeroWord(t: seq<byte>, at: nat)
    requires at + 4 <= |t| && forall k :: at <= k < at + 4 ==> t[k] == 0
    ensures Read32(t, at) == Some(0)
  {
  }

  lemma RefusedWithout(t: seq<byte>, at: nat)
    requires |t| >= 52 && ReadFields(t).compression == 3 && (at == 40 || at == 44 || at == 48) && Read32(t, at) == Some(0)
    ensures ParseHeader(t) == None
  {
    ParsesTo(t, ReadFields(t), ReadMasks(t));
  }

  lemma CutMaskZero(dib: seq<byte>, h: Header, t: seq<byte>, at: nat)
    requires IsTwin(dib, t, h) && Marked(dib, h.off) && Cut(h) && |dib| >= 52
    requires at == MaskAt(h.off)
    ensures |t| >= 52 && (at == 40 || at == 44 || at == 48) && Read32(t, at) == Some(0)
  {
    forall k | at <= k < at + 4 ensures t[k] == 0 {
      CutMaskByte(dib, h, t, k);
    }
    ZeroWord(t, at);
  }

  lemma RefusedTwin(dib: seq<byte>, h: Header, t: seq<byte>)
    requires IsTwin(dib, t, h) && Marked(dib, h.off) && Cut(h) && |dib| >= 52 && ReadFields(dib).compression == 3
    ensures ParseHeader(t) == None
  {
    CutMaskZero(dib, h, t, MaskAt(h.off));
    TwinFields(dib, t, h);
    RefusedWithout(t, MaskAt(h.off));
  }

  lemma UnsafeCuts(f: Fields, h: Header)
    requires Unsafe(f) && !Exchanges(f) && h.off == Off(f) && h.rowBytes == 4 * f.width && h.height == Height(f)
    ensures Cut(h)
  {
    UnsafeShape(f);
  }

  lemma TwinRefused(f: Fields, h: Header, t: seq<byte>)
    requires Unsafe(f) && !Exchanges(f) && IsTwin(Witness(f), t, h)
    requires h.off == Off(f) && h.rowBytes == 4 * f.width && h.height == Height(f)
    ensures ParseHeader(t) == None
  {
    UnsafeCuts(f, h);
    WitnessMarked(f);
    WitnessFields(f);
    RefusedTwin(Witness(f), h, t);
  }

  // ----- A twin with its masks exchanged -----

  function ExchangedHeader(topDown: bool, green: nat, blue: nat): Header {
    Header(1, 2, topDown, 4, 44, 4, Masks(1, green, blue))
  }

  ghost predicate TwoRows(dib: seq<byte>, h: Header, first: byte, second: byte) {
    && Holds(dib, h) && h.height == 2 && h.rowBytes == 4 && h.off == 44 && |dib| >= 52
    && StoredRow(dib, h, 0) == [first, 0, 0, 0] && StoredRow(dib, h, 1) == [second, 0, 0, 0]
  }

  lemma MarkedRows(dib: seq<byte>, h: Header)
    requires Holds(dib, h) && Marked(dib, 44) && h.height == 2 && h.rowBytes == 4 && h.off == 44
    ensures TwoRows(dib, h, 2, 4)
  {
    forall j | 0 <= j < 4
      ensures StoredRow(dib, h, 0)[j] == [2, 0, 0, 0][j] && StoredRow(dib, h, 1)[j] == [4, 0, 0, 0][j]
    {
      MarkedRow(dib, h, 0, 0, j);
      MarkedRow(dib, h, 1, 4, j);
    }
  }

  lemma TwoRowMasks(dib: seq<byte>, h: Header, first: byte, second: byte)
    requires TwoRows(dib, h, first, second) && Read32(dib, 40) == Some(1)
    ensures ReadMasks(dib) == Some(Masks(1, first, second))
  {
    StoredRowIs(dib, h, 0, 0);
    StoredRowIs(dib, h, 1, 4);
    assert forall j :: 0 <= j < 4 ==> dib[44 + j] == StoredRow(dib, h, 0)[j];
    assert forall j :: 0 <= j < 4 ==> dib[48 + j] == StoredRow(dib, h, 1)[j];
    assert Word32(dib[44], dib[45], dib[46], dib[47]) == first;
    assert Word32(dib[48], dib[49], dib[50], dib[51]) == second;
  }

  lemma TwoRowParses(dib: seq<byte>, rawHeight: int, first: byte, second: byte)
    requires |dib| >= 52 && first > 0 && second > 0 && (rawHeight == 2 || rawHeight == -2)
    requires ReadFields(dib) == Fields(44, 1, rawHeight, 32, 3, 0) && ReadMasks(dib) == Some(Masks(1, first, second))
    ensures ParseHeader(dib) == Some(ExchangedHeader(rawHeight < 0, first, second))
  {
    ParsesTo(dib, ReadFields(dib), ReadMasks(dib));
  }

  /** The green byte of the pixel on top. */
  lemma TopGreen(dib: seq<byte>, topDown: bool, first: byte, second: byte)
    requires TwoRows(dib, ExchangedHeader(topDown, first, second), first, second)
    ensures var h := ExchangedHeader(topDown, first, second);
            |ImageRgb(dib, h, 2)| == 6 && ImageRgb(dib, h, 2)[1] == ScaleChannel(if topDown then first else second, first)
  {
    var h := ExchangedHeader(topDown, first, second);
    ImagePixel(dib, h, 0, 0, 1);
  }

  lemma SmallChannels()
    ensures ScaleChannel(4, 2) == 0 && ScaleChannel(4, 4) == 255 && ScaleChannel(2, 2) == 255 && ScaleChannel(2, 4) == 0
  {
  }

  lemma ExchangeShape(f: Fields)
    requires Unsafe(f) && Exchanges(f)
    ensures f == Fields(44, 1, f.rawHeight, 32, 3, 0) && (f.rawHeight == 2 || f.rawHeight == -2)
  {
  }

  lemma SameRows(t: seq<byte>, h: Header, g: Header, first: byte, second: byte)
    requires TwoRows(t, h, first, second) && g.off == h.off && g.rowBytes == h.rowBytes && g.height == h.height
    requires Holds(t, g)
    ensures TwoRows(t, g, first, second)
  {
    StoredRowIs(t, h, 0, 0);
    StoredRowIs(t, h, 1, 4);
    StoredRowIs(t, g, 0, 0);
    StoredRowIs(t, g, 1, 4);
  }

  lemma WitnessRed(f: Fields, t: seq<byte>, h: Header)
    requires Unsafe(f) && Exchanges(f) && IsTwin(Witness(f), t, h) && h.off == 44
    ensures Read32(Witness(f), 40) == Some(1) && Read32(t, 40) == Some(1)
  {
    WitnessMarked(f);
    SmallBytes32(1);
    WitnessWord(f, 40, 1);
    ReadSame(Witness(f), t, 40);
  }

  lemma ExchangedRows(dib: seq<byte>, h: Header, t: seq<byte>)
    requires IsTwin(dib, t, h) && TwoRows(dib, h, 2, 4)
    ensures TwoRows(t, h, 4, 2)
  {
    assert StoredRow(t, h, 0) == StoredRow(dib, h, 1) && StoredRow(t, h, 1) == StoredRow(dib, h, 0);
  }

  lemma ExchangedWitness(f: Fields, h: Header, t: seq<byte>)
    requires Unsafe(f) && Exchanges(f) && ParseHeader(Witness(f)) == Some(h) && IsTwin(Witness(f), t, h)
    requires h.off == 44 && h.rowBytes == 4 && h.height == 2
    ensures TwoRows(Witness(f), h, 2, 4) && h == ExchangedHeader(f.rawHeight < 0, 2, 4)
  {
    ExchangeShape(f);
    WitnessMarked(f);
    MarkedRows(Witness(f), h);
    WitnessRed(f, t, h);
    TwoRowMasks(Witness(f), h, 2, 4);
    WitnessFields(f);
    TwoRowParses(Witness(f), f.rawHeight, 2, 4);
  }

  lemma NegatedFields(f: Fields, h: Header, t: seq<byte>)
    requires Unsafe(f) && IsTwin(Witness(f), t, h)
    ensures |t| >= 52 && ReadFields(t) == f.(rawHeight := -f.rawHeight)
  {
    WitnessMarked(f);
    WitnessFields(f);
    TwinFields(Witness(f), t, h);
    NegatedReads(Witness(f));
  }

  lemma ExchangedTwin(f: Fields, h: Header, t: seq<byte>)
    requires Unsafe(f) && Exchanges(f) && IsTwin(Witness(f), t, h) && TwoRows(Witness(f), h, 2, 4)
    ensures TwoRows(t, h, 4, 2) && ParseHeader(t) == Some(ExchangedHeader(f.rawHeight > 0, 4, 2))
  {
    ExchangeShape(f);
    ExchangedRows(Witness(f), h, t);
    WitnessRed(f, t, h);
    TwoRowMasks(t, h, 4, 2);
    NegatedFields(f, h, t);
    TwoRowParses(t, -f.rawHeight, 4, 2);
  }

  lemma ExchangeDiffers(f: Fields, h: Header, t: seq<byte>)
    requires Unsafe(f) && Exchanges(f) && ParseHeader(Witness(f)) == Some(h) && IsTwin(Witness(f), t, h)
    requires h.off == 44 && h.rowBytes == 4 && h.height == 2
    ensures Decoded(t) != Decoded(Witness(f))
  {
    ExchangeShape(f);
    ExchangedWitness(f, h, t);
    ExchangedTwin(f, h, t);
    var g := ExchangedHeader(f.rawHeight > 0, 4, 2);
    DecodedIs(Witness(f), h);
    DecodedIs(t, g);
    SameRows(t, h, g, 4, 2);
    TopGreen(Witness(f), f.rawHeight < 0, 2, 4);
    TopGreen(t, f.rawHeight > 0, 4, 2);
    SmallChannels();
  }

  /** Every unsafe header has an image that its twin does not decode like. */
  lemma UnsafeDiffers(f: Fields) returns (h: Header, t: seq<byte>)
    requires Unsafe(f)
    ensures ReadFields(Witness(f)) == f && ParseHeader(Witness(f)) == Some(h) && IsTwin(Witness(f), t, h)
    ensures Decoded(t) != Decoded(Witness(f))
  {
    h := WitnessAccepted(f);
    t := TwinExists(Witness(f), h);
    WitnessFields(f);
    DecodedIs(Witness(f), h);
    if Exchanges(f) {
      ExchangeDiffers(f, h, t);
    } else {
      TwinRefused(f, h, t);
    }
  }

  /** For instance: a 44-byte header, one column, two rows. */
  lemma TwinDiffers() returns (dib: seq<byte>, h: Header, t: seq<byte>)
    ensures |dib| >= 40 && ReadFields(dib) == Fields(44, 1, 2, 32, 3, 0)
    ensures ParseHeader(dib) == Some(h) && IsTwin(dib, t, h) && Decoded(t) != Decoded(dib)
  {
    var f := Fields(44, 1, 2, 32, 3, 0);
    dib := Witness(f);
    WitnessMarked(f);
    h, t := UnsafeDiffers(f);
  }

  /** For accepted header fields, every image with them decodes like its twin if
      and only if its masks cannot lie in its pixels, or it has a single row. */
  lemma AlwaysAlikeIff(f: Fields)
    requires Acceptable(f)
    ensures AlwaysAlike(f) <==> MasksSafe(f)
  {
    if MasksSafe(f) {
      forall dib, t, h |
        |dib| >= 40 && ReadFields(dib) == f && ParseHeader(dib) == Some(h) && IsTwin(dib, t, h)
        ensures Decoded(t) == Decoded(dib)
      {
        TwinDecodesAlike(dib, t, h);
      }
    } else {
      var h, t := UnsafeDiffers(f);
      WitnessMarked(f);
    }
  }
}
