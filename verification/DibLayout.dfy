/**
 The layout of device-independent bitmaps, byte by byte: which byte strings
 `decode_dib` accepts and where each byte of the picture comes from.
 */
module DibLayout {
  import opened Prelude
  import opened Geometry
  import opened Dib

  /** Two bytes from `at`, little endian. */
  function U16(dib: seq<byte>, at: nat): nat
    requires at + 2 <= |dib|
  {
    dib[at] as int + 0x100 * dib[at + 1] as int
  }

  /** Four bytes from `at`, little endian. */
  function U32(dib: seq<byte>, at: nat): nat
    requires at + 4 <= |dib|
  {
    dib[at] as int + 0x100 * dib[at + 1] as int + 0x1_0000 * dib[at + 2] as int + 0x100_0000 * dib[at + 3] as int
  }

  /** Four bytes from `at` as a two's complement number. */
  function I32(dib: seq<byte>, at: nat): int
    requires at + 4 <= |dib|
  {
    U32(dib, at) - if dib[at + 3] >= 128 then 0x1_0000_0000 else 0
  }

  // The fields of a BITMAPINFOHEADER.

  function Size(dib: seq<byte>): nat
    requires |dib| >= 40
  {
    U32(dib, 0)
  }

  function Width(dib: seq<byte>): int
    requires |dib| >= 40
  {
    I32(dib, 4)
  }

  function Rows(dib: seq<byte>): nat
    requires |dib| >= 40
  {
    if I32(dib, 8) < 0 then -I32(dib, 8) else I32(dib, 8)
  }

  function Depth(dib: seq<byte>): nat
    requires |dib| >= 40
  {
    U16(dib, 14)
  }

  function Compression(dib: seq<byte>): nat
    requires |dib| >= 40
  {
    U32(dib, 16)
  }

  function Colours(dib: seq<byte>): nat
    requires |dib| >= 40
  {
    U32(dib, 32)
  }

  /** Bytes of a stored row of `w` pixels: 24 or 32 bits each, in whole 32-bit
      words. */
  function Stride(depth: nat, w: int): int { if depth == 24 then 4 * ((24 * w + 31) / 32) else 4 * w }

  /** The first byte of pixels: behind the header, the colour table, and the
      masks when they follow a 40-byte header. */
  function Start(dib: seq<byte>): nat
    requires |dib| >= 40
  {
    Size(dib) + 4 * Colours(dib) + if Compression(dib) == 3 && Size(dib) == 40 then 12 else 0
  }

  /** What `decode_dib` takes: the header in numbers, with the masks it names. */
  ghost predicate Takes(size: nat, w: int, rows: nat, depth: nat, compression: nat, start: nat, masks: bool, length: nat) {
    && 40 <= size <= 124 && size <= length
    && 1 <= w <= 16384 && 1 <= rows <= 16384
    && ((compression == 0 && (depth == 24 || depth == 32)) || (compression == 3 && depth == 32 && masks))
    && start + Stride(depth, w) * rows <= length
  }

  ghost predicate HasMasks(dib: seq<byte>) {
    |dib| >= 52 && U32(dib, 40) > 0 && U32(dib, 44) > 0 && U32(dib, 48) > 0
  }

  ghost predicate Accepted(dib: seq<byte>) {
    && |dib| >= 40
    && Takes(Size(dib), Width(dib), Rows(dib), Depth(dib), Compression(dib), Start(dib), HasMasks(dib), |dib|)
  }

  /** Red, green and blue sit in the third, second and first byte of a pixel. */
  ghost predicate PlainMasks(dib: seq<byte>)
    requires Accepted(dib)
  {
    Compression(dib) == 3 ==> U32(dib, 40) == 0xFF_0000 && U32(dib, 44) == 0xFF00 && U32(dib, 48) == 0xFF
  }

  /** Where the stored word of the pixel shown at column `x` of row `r` starts. */
  function PixelAt(dib: seq<byte>, r: nat, x: nat): int
    requires |dib| >= 40 && Width(dib) >= 0
  {
    var row := if I32(dib, 8) < 0 then r else Rows(dib) - 1 - r;
    Start(dib) + Stride(Depth(dib), Width(dib)) * row + if Depth(dib) == 24 then 3 * x else 4 * x
  }

  // ----- The parser reads these fields -----

  function RawFields(dib: seq<byte>): Fields
    requires |dib| >= 40
  {
    Fields(Size(dib), Width(dib), I32(dib, 8), Depth(dib), Compression(dib), Colours(dib))
  }

  function RawMasks(dib: seq<byte>): Option<Masks>
    requires |dib| >= 40
  {
    if Compression(dib) != 3 then Some(Masks(0xFF_0000, 0xFF00, 0xFF))
    else if |dib| >= 52 then Some(Masks(U32(dib, 40), U32(dib, 44), U32(dib, 48))) else None
  }

  lemma FieldsAreRead(dib: seq<byte>)
    requires |dib| >= 40
    ensures ReadFields(dib) == RawFields(dib)
  {
  }

  lemma MasksAreRead(dib: seq<byte>)
    requires |dib| >= 40
    ensures MasksOf(dib, RawFields(dib)) == RawMasks(dib)
    ensures Compression(dib) == 3 ==> (MasksOk(RawMasks(dib)) <==> HasMasks(dib))
  {
  }

  lemma StrideIs(bpp: nat, w: nat)
    requires bpp == 24 || bpp == 32
    ensures RowBytes(bpp, w) == Stride(bpp, w)
  {
  }

  /** The header the parser makes of an accepted bitmap. */
  ghost function Layout(dib: seq<byte>): Header
    requires Accepted(dib)
  {
    Header(Width(dib), Rows(dib), I32(dib, 8) < 0, if Depth(dib) == 24 then 3 else 4, Start(dib), Stride(Depth(dib), Width(dib)),
           if Compression(dib) == 3 then Masks(U32(dib, 40), U32(dib, 44), U32(dib, 48))
           else Masks(0xFF_0000, 0xFF00, 0xFF))
  }

  /** The parser's checks, on numbers alone. */
  lemma AcceptIs(size: nat, w: int, raw: int, depth: nat, compression: nat, colours: nat, m: Option<Masks>, length: nat)
    requires compression != 3 ==> m == Some(STANDARD)
    ensures var rows := if raw < 0 then -raw else raw;
            var start := size + 4 * colours + if compression == 3 && size == 40 then 12 else 0;
            Accept(Fields(size, w, raw, depth, compression, colours), m, length) ==
              if Takes(size, w, rows, depth, compression, start, MasksOk(m), length)
              then Some(Header(w, rows, raw < 0, if depth == 24 then 3 else 4, start, Stride(depth, w), m.value)) else None
  {
    if w >= 0 && (depth == 24 || depth == 32) { StrideIs(depth, w); }
  }

  lemma AcceptsLayout(dib: seq<byte>)
    requires |dib| >= 40
    ensures Accept(RawFields(dib), RawMasks(dib), |dib|) == if Accepted(dib) then Some(Layout(dib)) else None
  {
    MasksAreRead(dib);
    AcceptIs(Size(dib), Width(dib), I32(dib, 8), Depth(dib), Compression(dib), Colours(dib), RawMasks(dib), |dib|);
  }

  lemma ParsesLayout(dib: seq<byte>)
    ensures ParseHeader(dib) == if Accepted(dib) then Some(Layout(dib)) else None
  {
    if |dib| >= 40 {
      FieldsAreRead(dib);
      MasksAreRead(dib);
      AcceptsLayout(dib);
    }
  }

  /** What an accepted bitmap is decoded to. */
  lemma DecodesLayout(dib: seq<byte>) returns (h: Header)
    requires Accepted(dib)
    ensures h == Layout(dib) && Holds(dib, h) && h.width == Width(dib) && h.height == Rows(dib)
    ensures Decoded(dib) == Some(Image(h.width, h.height, ImageRgb(dib, h, h.height)))
  {
    h := Layout(dib);
    ParsesLayout(dib);
    DecodedIs(dib, h);
  }

  /** A bitmap is decoded if and only if it is accepted, to a picture of its own
      width and height. */
  lemma DecodesIff(dib: seq<byte>)
    ensures Decoded(dib).Some? <==> Accepted(dib)
    ensures Accepted(dib) ==>
              var image := Decoded(dib).value;
              image.width == Width(dib) && image.height == Rows(dib) && |image.rgb| == 3 * Width(dib) * Rows(dib)
  {
    ParsesLayout(dib);
    if Accepted(dib) {
      DecodedIs(dib, Layout(dib));
      ImageLength(dib, Layout(dib), Rows(dib));
    }
  }

  /** Channel `c` of the pixel at (x, r) in a `w` wide picture. */
  function PictureAt(w: nat, r: nat, x: nat, c: nat): nat { 3 * (r * w + x) + c }

  lemma PictureIndex(w: nat, r: nat, x: nat, c: nat)
    ensures PictureAt(w, r, x, c) == 3 * w * r + (3 * x + c)
  {
  }

  /** Where a byte of a stored row lies in the bitmap. */
  lemma RowByte(dib: seq<byte>, h: Header, i: nat, k: nat, at: int)
    requires Holds(dib, h) && i < h.height && k < h.rowBytes && at == h.off + h.rowBytes * i + k
    ensures 0 <= at < |dib| && StoredRow(dib, h, i)[k] == dib[at]
  {
    MulMono(h.rowBytes, i + 1, h.height);
    assert h.rowBytes * (i + 1) == h.rowBytes * i + h.rowBytes;
  }

  /** The stored word of a pixel, by header. */
  function WordOf(h: Header, r: nat, x: nat): int
    requires r < h.height
  {
    h.off + h.rowBytes * SourceRow(h, r) + if h.bytesPerPx == 3 then 3 * x else 4 * x
  }

  /** Channel `c` of the pixel at (x, r) of a `w` wide picture is byte `at`. */
  ghost predicate TakenFrom(dib: seq<byte>, at: int, rgb: seq<byte>, w: nat, r: nat, x: nat, c: nat) {
    PictureAt(w, r, x, c) < |rgb| && 0 <= at < |dib| && rgb[PictureAt(w, r, x, c)] == dib[at]
  }

  lemma ShownByte(dib: seq<byte>, h: Header, rgb: seq<byte>, r: nat, x: nat, c: nat, at: int)
    requires Holds(dib, h) && r < h.height && x < h.width && c < 3 && ShowsByte(dib, h, rgb, r, x, c)
    requires at == WordOf(h, r, x) + (2 - c)
    ensures TakenFrom(dib, at, rgb, h.width, r, x, c)
  {
    PictureIndex(h.width, r, x, c);
    RowByte(dib, h, SourceRow(h, r), (if h.bytesPerPx == 3 then 3 * x else 4 * x) + (2 - c), at);
  }

  lemma LayoutWord(dib: seq<byte>, r: nat, x: nat)
    requires Accepted(dib) && r < Rows(dib)
    ensures WordOf(Layout(dib), r, x) == PixelAt(dib, r, x)
  {
  }

  lemma StoredByte(dib: seq<byte>, h: Header, r: nat, x: nat, c: nat, at: int)
    requires Holds(dib, h) && Standard(h.masks) && r < h.height && x < h.width && c < 3
    requires at == WordOf(h, r, x) + (2 - c)
    ensures TakenFrom(dib, at, ImageRgb(dib, h, h.height), h.width, r, x, c)
  {
    StandardRowShows(StoredRow(dib, h, SourceRow(h, r)), h, x, c);
    PixelsShowBytes(dib, h, r, x, c);
    ShownByte(dib, h, ImageRgb(dib, h, h.height), r, x, c, at);
  }

  lemma PlainIsStandard(dib: seq<byte>)
    requires Accepted(dib) && PlainMasks(dib)
    ensures Standard(Layout(dib).masks)
  {
    StandardMasks(Layout(dib).masks, 0, 8, 16);
  }

  /** With plain masks channel `c` of the pixel shown at (x, r) is the byte the
      format stores for it. */
  lemma PictureBytes(dib: seq<byte>, r: nat, x: nat, c: nat)
    requires Accepted(dib) && PlainMasks(dib) && r < Rows(dib) && x < Width(dib) && c < 3
    ensures Decoded(dib).Some?
    ensures TakenFrom(dib, PixelAt(dib, r, x) + 2 - c, Decoded(dib).value.rgb, Width(dib), r, x, c)
  {
    var h := DecodesLayout(dib);
    PlainIsStandard(dib);
    LayoutWord(dib, r, x);
    StoredByte(dib, h, r, x, c, PixelAt(dib, r, x) + 2 - c);
  }

  /** The stored word of a pixel. */
  function WordAt(dib: seq<byte>, depth: nat, at: int): nat
    requires 0 <= at && at + (if depth == 24 then 3 else 4) <= |dib|
  {
    dib[at] as int + 0x100 * dib[at + 1] as int + 0x1_0000 * dib[at + 2] as int
    + if depth == 24 then 0 else 0x100_0000 * dib[at + 3] as int
  }

  ghost predicate IsChannel(rgb: seq<byte>, i: nat, word: nat, mask: nat) {
    i < |rgb| && rgb[i] == ScaleChannel(word, mask)
  }

  /** Channel `c` of the pixel at (x, r) is its masked word, scaled. */
  ghost predicate MaskedFrom(dib: seq<byte>, depth: nat, at: int, mask: nat, rgb: seq<byte>, w: nat, r: nat, x: nat, c: nat) {
    && 0 <= at && at + (if depth == 24 then 3 else 4) <= |dib|
    && IsChannel(rgb, PictureAt(w, r, x, c), WordAt(dib, depth, at), mask)
  }

  /** Where a pixel word of a stored row lies in the bitmap. */
  lemma RowWord(dib: seq<byte>, h: Header, i: nat, x: nat, depth: nat, at: int)
    requires Holds(dib, h) && i < h.height && x < h.width && (depth == 24 <==> h.bytesPerPx == 3)
    requires at == h.off + h.rowBytes * i + (if depth == 24 then 3 * x else 4 * x)
    ensures 0 <= at && at + (if depth == 24 then 3 else 4) <= |dib|
    ensures Raw(StoredRow(dib, h, i), h.bytesPerPx, x) == WordAt(dib, depth, at)
  {
    var k := if depth == 24 then 3 * x else 4 * x;
    RowByte(dib, h, i, k, at);
    RowByte(dib, h, i, k + 1, at + 1);
    RowByte(dib, h, i, k + 2, at + 2);
    if depth != 24 { RowByte(dib, h, i, k + 3, at + 3); }
  }

  function Through(m: Masks, c: nat): nat { if c == 0 then m.red else if c == 1 then m.green else m.blue }

  lemma ChannelIs(rgb: seq<byte>, i: nat, word: nat, m: Masks, c: nat)
    requires c < 3 && i < |rgb| && rgb[i] == Rgb(word, m)[c]
    ensures IsChannel(rgb, i, word, Through(m, c))
  {
  }

  lemma ChannelWord(dib: seq<byte>, h: Header, r: nat, x: nat, c: nat) returns (word: nat)
    requires Holds(dib, h) && r < h.height && x < h.width && c < 3
    ensures word == Raw(StoredRow(dib, h, SourceRow(h, r)), h.bytesPerPx, x)
    ensures IsChannel(ImageRgb(dib, h, h.height), PictureAt(h.width, r, x, c), word, Through(h.masks, c))
  {
    word := Raw(StoredRow(dib, h, SourceRow(h, r)), h.bytesPerPx, x);
    ImagePixel(dib, h, r, x, c);
    PictureIndex(h.width, r, x, c);
    ChannelIs(ImageRgb(dib, h, h.height), PictureAt(h.width, r, x, c), word, h.masks, c);
  }

  lemma MaskedByte(dib: seq<byte>, h: Header, depth: nat, r: nat, x: nat, c: nat, at: int)
    requires Holds(dib, h) && r < h.height && x < h.width && c < 3 && (depth == 24 <==> h.bytesPerPx == 3)
    requires at == WordOf(h, r, x)
    ensures MaskedFrom(dib, depth, at, Through(h.masks, c), ImageRgb(dib, h, h.height), h.width, r, x, c)
  {
    var word := ChannelWord(dib, h, r, x, c);
    RowWord(dib, h, SourceRow(h, r), x, depth, at);
  }

  /** The mask of a channel: named at byte 40, 44 or 48, or plain. */
  ghost function MaskOf(dib: seq<byte>, c: nat): nat
    requires Accepted(dib) && c < 3
  {
    if Compression(dib) != 3 then (if c == 0 then 0xFF_0000 else if c == 1 then 0xFF00 else 0xFF)
    else if c == 0 then U32(dib, 40) else if c == 1 then U32(dib, 44) else U32(dib, 48)
  }

  lemma LayoutMask(dib: seq<byte>, c: nat)
    requires Accepted(dib) && c < 3
    ensures Through(Layout(dib).masks, c) == MaskOf(dib, c)
  {
  }

  /** Whatever the masks, channel `c` of the pixel shown at (x, r) is the word
      the format stores for that pixel, through the mask of the channel. */
  lemma PictureWords(dib: seq<byte>, r: nat, x: nat, c: nat)
    requires Accepted(dib) && r < Rows(dib) && x < Width(dib) && c < 3
    ensures Decoded(dib).Some?
    ensures MaskedFrom(dib, Depth(dib), PixelAt(dib, r, x), MaskOf(dib, c), Decoded(dib).value.rgb, Width(dib), r, x, c)
  {
    var h := DecodesLayout(dib);
    LayoutWord(dib, r, x);
    LayoutMask(dib, c);
    MaskedByte(dib, h, Depth(dib), r, x, c, PixelAt(dib, r, x));
  }
}
