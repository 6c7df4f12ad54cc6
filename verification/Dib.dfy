/** Clipboard bitmaps (linrdp/src/clipboard.rs: `decode_dib`, `scale_channel`). */
module Dib {
  import opened Prelude
  import opened Geometry

  const MAX_DIM: int := 16384

  // ----- Channel extraction -----

  function And(a: nat, b: nat): nat
    decreases a
  {
    if a == 0 || b == 0 then 0 else 2 * And(a / 2, b / 2) + (if a % 2 == 1 && b % 2 == 1 then 1 else 0)
  }

  function CountOnes(n: nat): nat { if n == 0 then 0 else n % 2 + CountOnes(n / 2) }

  function TrailingZeros(n: nat): nat
    requires n > 0
  {
    if n % 2 == 1 then 0 else 1 + TrailingZeros(n / 2)
  }

  function ShiftRight(n: nat, k: nat): nat
    decreases k
  {
    if k == 0 then n else ShiftRight(n / 2, k - 1)
  }

  function Pow2(n: nat): (p: nat)
    ensures p >= 1
  {
    if n == 0 then 1 else 2 * Pow2(n - 1)
  }

  lemma {:induction false} SomeOnes(n: nat)
    requires n > 0
    ensures CountOnes(n) > 0
  {
    if n % 2 == 0 { SomeOnes(n / 2); }
  }

  lemma MaxPositive(mask: nat)
    requires mask > 0
    ensures Pow2(CountOnes(mask)) >= 2
  {
    SomeOnes(mask);
  }

  function Quotient(n: nat, d: nat): nat
    requires d > 0
  {
    n / d
  }

  /** A channel of `bits` bits widened to eight. */
  function Widen(value: nat, bits: nat, max: nat): byte
    requires max > 0
  {
    Min(if bits >= 8 then Quotient(value * 255, max) else Quotient(value * 255 + max / 2, max), 255)
  }

  /** `scale_channel`; a mask without bits is answered before. */
  function ScaleChannel(raw: nat, mask: nat): byte {
    if mask == 0 then 0
    else
      MaxPositive(mask);
      Widen(ShiftRight(And(raw, mask), TrailingZeros(mask)), CountOnes(mask), Pow2(CountOnes(mask)) - 1)
  }

  lemma AndEven(x: nat, m: nat)
    ensures And(x, 2 * m) == 2 * And(x / 2, m)
  {
    var b := 2 * m;
    assert b / 2 == m && b % 2 == 0;
  }

  lemma AndOdd(x: nat, m: nat)
    ensures And(x, 2 * m + 1) == 2 * And(x / 2, m) + x % 2
  {
    var b := 2 * m + 1;
    assert b / 2 == m && b % 2 == 1;
  }

  lemma AndPair(x: nat, m: nat)
    ensures And(x, 4 * m + 3) == 4 * And(x / 4, m) + x % 4
  {
    AndOdd(x, 2 * m + 1);
    AndOdd(x / 2, m);
  }

  lemma AndNibble(x: nat, m: nat)
    ensures And(x, 16 * m + 15) == 16 * And(x / 16, m) + x % 16
  {
    AndPair(x, 4 * m + 3);
    AndPair(x / 4, m);
  }

  lemma NibbleSplit(x: nat)
    ensures 16 * (x / 16 % 16) + x % 16 == x % 256
  {
  }

  lemma And255(x: nat, m: nat)
    requires m == 15
    ensures And(x, 16 * m + 15) == x % 256
  {
    AndNibble(x, m);
    AndNibble(x / 16, m - 15);
    NibbleSplit(x);
  }

  function ShiftLeft(m: nat, n: nat): nat { if n == 0 then m else 2 * ShiftLeft(m, n - 1) }

  lemma Doubled(x: nat, m: nat)
    requires m > 0
    ensures CountOnes(2 * m) == CountOnes(m) && TrailingZeros(2 * m) == 1 + TrailingZeros(m)
    ensures And(x, 2 * m) / 2 == And(x / 2, m)
  {
    AndEven(x, m);
    var d := 2 * m;
    assert d / 2 == m && d % 2 == 0;
  }

  /** A mask shifted by `n` bits sees the word shifted back. */
  lemma {:induction false} ShiftedMask(x: nat, m: nat, n: nat)
    requires m > 0
    ensures ShiftLeft(m, n) > 0 && CountOnes(ShiftLeft(m, n)) == CountOnes(m)
    ensures TrailingZeros(ShiftLeft(m, n)) == n + TrailingZeros(m)
    ensures ShiftRight(And(x, ShiftLeft(m, n)), n) == And(ShiftRight(x, n), m)
    decreases n
  {
    if n > 0 {
      ShiftedMask(x / 2, m, n - 1);
      Doubled(x, ShiftLeft(m, n - 1));
    }
  }

  lemma EightOnes()
    ensures TrailingZeros(255) == 0 && CountOnes(255) == 8 && Pow2(8) == 256
  {
    assert CountOnes(15) == 4;
    assert Pow2(4) == 16;
  }

  lemma WidenByte(value: nat)
    requires value < 256
    ensures Widen(value, 8, 255) == value
  {
  }

  /** A mask of eight ones anywhere reproduces those eight bits. */
  lemma EightBitMask(raw: nat, n: nat)
    ensures ScaleChannel(raw, ShiftLeft(255, n)) == ShiftRight(raw, n) % 256
  {
    EightOnes();
    ShiftedMask(raw, 255, n);
    And255(ShiftRight(raw, n), 15);
    WidenByte(ShiftRight(raw, n) % 256);
  }

  // ----- Masks of any width -----

  lemma ModTwice(x: nat, m: nat)
    requires m > 0
    ensures x % (2 * m) == 2 * (x / 2 % m) + x % 2
  {
    var h := x / 2;
    var q, r := h / m, h % m;
    assert h == q * m + r;
    assert x == q * (2 * m) + (2 * r + x % 2);
    ModIs(x, 2 * m, q, 2 * r + x % 2);
  }

  lemma ModIs(n: nat, d: nat, q: nat, r: nat)
    requires r < d && n == q * d + r
    ensures n % d == r
  {
    var q' := n / d;
    assert n == q' * d + n % d;
    MulMono(d, q + 1, q');
    MulMono(d, q' + 1, q);
    assert d * (q + 1) == q * d + d && d * (q' + 1) == q' * d + d;
  }

  /** `n` ones: as many bits, none of them behind a zero, and they keep the
      remainder by 2^n. */
  lemma {:induction false} OnesMask(x: nat, n: nat)
    requires n > 0
    ensures Pow2(n) >= 2 && CountOnes(Pow2(n) - 1) == n && TrailingZeros(Pow2(n) - 1) == 0
    ensures And(x, Pow2(n) - 1) == x % Pow2(n)
    decreases n
  {
    var rest := Pow2(n - 1) - 1;
    assert Pow2(n) - 1 == 2 * rest + 1;
    AndOdd(x, rest);
    ModTwice(x, rest + 1);
    OddNumber(rest);
    if n > 1 { OnesMask(x / 2, n - 1); }
  }

  lemma OddNumber(m: nat)
    ensures (2 * m + 1) % 2 == 1 && (2 * m + 1) / 2 == m
  {
  }

  /** `v` is `value` of `max` on a scale of 255: rounded down from eight bits on,
      to the nearest below. */
  predicate Scaled(v: int, value: int, bits: int, max: int) {
    if bits >= 8 then 0 <= 255 * value - max * v < max else -max <= 2 * (255 * value - max * v) <= max
  }

  lemma WidenScales(value: nat, bits: nat, max: nat)
    requires 0 < max && value <= max
    ensures Scaled(Widen(value, bits, max), value, bits, max)
  {
    var up := if bits >= 8 then 0 else max / 2;
    var n := value * 255 + up;
    var q := Quotient(n, max);
    assert max * q <= n < max * q + max by { DivBelow(n, max); assert n == max * (n / max) + n % max; }
    MulMono(max, 256, q);
  }

  /** What `ScaleChannel` reads through `n` ones, `k` bits up. */
  lemma ShiftedFacts(raw: nat, ones: nat, k: nat) returns (mask: nat, value: nat)
    requires ones > 0 && TrailingZeros(ones) == 0
    ensures mask == ShiftLeft(ones, k) > 0 && CountOnes(mask) == CountOnes(ones)
    ensures value == And(ShiftRight(raw, k), ones) == ShiftRight(And(raw, mask), TrailingZeros(mask))
  {
    ShiftedMask(raw, ones, k);
    mask, value := ShiftLeft(ones, k), And(ShiftRight(raw, k), ones);
  }

  lemma ScaleIs(raw: nat, mask: nat, value: nat, bits: nat)
    requires mask > 0 && ShiftRight(And(raw, mask), TrailingZeros(mask)) == value && CountOnes(mask) == bits
    requires Pow2(bits) >= 2
    ensures ScaleChannel(raw, mask) == Widen(value, bits, Pow2(bits) - 1)
  {
  }

  lemma ModBelow(a: nat, m: nat)
    requires m > 0
    ensures 0 <= a % m <= m - 1
  {
  }

  lemma ThroughOnes(raw: nat, n: nat, k: nat, max: nat)
    requires max > 0 && Pow2(n) == max + 1 && CountOnes(max) == n && TrailingZeros(max) == 0
    requires And(ShiftRight(raw, k), max) <= max
    ensures Scaled(ScaleChannel(raw, ShiftLeft(max, k)), And(ShiftRight(raw, k), max), n, max)
  {
    var mask, value := ShiftedFacts(raw, max, k);
    ScaleIs(raw, mask, value, n);
    WidenScales(value, n, max);
  }

  /** A mask of `n` ones, `k` bits up, takes the `n` bits there and scales them
      to eight. */
  lemma ContiguousMask(raw: nat, n: nat, k: nat)
    requires n > 0
    ensures Scaled(ScaleChannel(raw, ShiftLeft(Pow2(n) - 1, k)), ShiftRight(raw, k) % Pow2(n), n, Pow2(n) - 1)
  {
    OnesMask(ShiftRight(raw, k), n);
    ModBelow(ShiftRight(raw, k), Pow2(n));
    ThroughOnes(raw, n, k, Pow2(n) - 1);
  }

  // ----- The header -----

  function Word32(a: int, b: int, c: int, d: int): int { a + 256 * b + 0x1_0000 * c + 0x100_0000 * d }

  function Read32(dib: seq<byte>, at: nat): Option<nat> {
    if at + 4 <= |dib| then Some(Word32(dib[at], dib[at + 1], dib[at + 2], dib[at + 3])) else None
  }

  function Read16(dib: seq<byte>, at: nat): Option<nat> {
    if at + 2 <= |dib| then Some(Word32(dib[at], dib[at + 1], 0, 0)) else None
  }

  /** `as i32`. */
  function Signed(n: nat): int { if n < 0x8000_0000 then n else n - 0x1_0000_0000 }

  datatype Masks = Masks(red: nat, green: nat, blue: nat)

  const STANDARD: Masks := Masks(0xFF_0000, 0xFF00, 0xFF)

  datatype Header = Header(width: nat, height: nat, topDown: bool, bytesPerPx: nat, off: nat, rowBytes: nat,
                           masks: Masks)

  function ReadMasks(dib: seq<byte>): Option<Masks> {
    var red, green, blue := Read32(dib, 40), Read32(dib, 44), Read32(dib, 48);
    if red.Some? && green.Some? && blue.Some? then Some(Masks(red.value, green.value, blue.value)) else None
  }

  /** Where the pixels start. */
  function PixelsOff(headerSize: nat, clrUsed: nat, compression: nat): nat {
    headerSize + 4 * clrUsed + if compression == 3 && headerSize == 40 then 12 else 0
  }

  /** Rows are padded to 32 bits. */
  function RowBytes(bpp: nat, width: nat): (n: nat)
    ensures bpp == 24 ==> n >= 3 * width
    ensures bpp == 32 ==> n == 4 * width
  {
    if bpp == 24 then CeilDiv(24 * width, 32) * 4 else CeilDiv(32 * width, 32) * 4
  }

  predicate Supported(compression: nat, bpp: nat) {
    (compression == 0 && (bpp == 24 || bpp == 32)) || (compression == 3 && bpp == 32)
  }

  /** The header fields `decode_dib` reads. */
  datatype Fields = Fields(size: nat, width: int, rawHeight: int, bpp: nat, compression: nat, clrUsed: nat)

  function ReadFields(dib: seq<byte>): Fields
    requires |dib| >= 40
  {
    Fields(Read32(dib, 0).value, Signed(Read32(dib, 4).value), Signed(Read32(dib, 8).value), Read16(dib, 14).value,
           Read32(dib, 16).value, Read32(dib, 32).value)
  }

  function Height(f: Fields): nat { if f.rawHeight < 0 then -f.rawHeight else f.rawHeight }

  predicate FieldsOk(f: Fields, length: nat) {
    && 40 <= f.size <= 124 && f.size <= length
    && 1 <= f.width <= MAX_DIM && 1 <= Height(f) <= MAX_DIM && Supported(f.compression, f.bpp)
  }

  predicate MasksOk(m: Option<Masks>) { m.Some? && m.value.red > 0 && m.value.green > 0 && m.value.blue > 0 }

  function HeaderOf(f: Fields, m: Masks): Header
    requires f.width >= 0
  {
    Header(f.width, Height(f), f.rawHeight < 0, if f.bpp == 24 then 3 else 4, PixelsOff(f.size, f.clrUsed, f.compression),
           RowBytes(f.bpp, f.width), m)
  }

  function Accept(f: Fields, m: Option<Masks>, length: nat): Option<Header> {
    if FieldsOk(f, length) && MasksOk(m) then
      var h := HeaderOf(f, m.value);
      if length < h.off + h.rowBytes * h.height then None else Some(h)
    else None
  }

  function MasksOf(dib: seq<byte>, f: Fields): Option<Masks> {
    if f.compression == 3 then ReadMasks(dib) else Some(STANDARD)
  }

  /** The checks of `decode_dib`. */
  function ParseHeader(dib: seq<byte>): Option<Header> {
    if |dib| < 40 then None else Accept(ReadFields(dib), MasksOf(dib, ReadFields(dib)), |dib|)
  }

  // ----- The pixels -----

  /** What an accepted header promises about the bytes behind it. */
  ghost predicate Holds(dib: seq<byte>, h: Header) {
    && |dib| >= h.off + h.rowBytes * h.height && h.off >= 40
    && (h.bytesPerPx == 3 || h.bytesPerPx == 4) && h.rowBytes >= (if h.bytesPerPx == 3 then 3 * h.width else 4 * h.width)
  }

  lemma AcceptedHolds(dib: seq<byte>)
    ensures ParseHeader(dib).Some? ==> Holds(dib, ParseHeader(dib).value)
  {
  }

  /** Stored row `i`, counted from the first byte of pixels. */
  function StoredRow(dib: seq<byte>, h: Header, i: nat): (row: seq<byte>)
    requires Holds(dib, h) && i < h.height
    ensures |row| == h.rowBytes
  {
    MulMono(h.rowBytes, i + 1, h.height);
    dib[h.off + h.rowBytes * i..h.off + h.rowBytes * i + h.rowBytes]
  }

  /** The stored row shown as row `i` from the top. */
  function SourceRow(h: Header, i: nat): nat
    requires i < h.height
  {
    if h.topDown then i else h.height - 1 - i
  }

  /** One pixel word of a stored row. */
  function Raw(row: seq<byte>, bytesPerPx: nat, x: nat): nat
    requires if bytesPerPx == 3 then 3 * x + 3 <= |row| else 4 * x + 4 <= |row|
  {
    if bytesPerPx == 3 then Word32(row[3 * x], row[3 * x + 1], row[3 * x + 2], 0)
    else Word32(row[4 * x], row[4 * x + 1], row[4 * x + 2], row[4 * x + 3])
  }

  function Rgb(raw: nat, masks: Masks): seq<byte> {
    [ScaleChannel(raw, masks.red), ScaleChannel(raw, masks.green), ScaleChannel(raw, masks.blue)]
  }

  /** The first `n` pixels of a row, decoded. */
  function RowRgb(row: seq<byte>, bytesPerPx: nat, masks: Masks, n: nat): (rgb: seq<byte>)
    requires if bytesPerPx == 3 then 3 * n <= |row| else 4 * n <= |row|
    ensures |rgb| == 3 * n
  {
    if n == 0 then [] else RowRgb(row, bytesPerPx, masks, n - 1) + Rgb(Raw(row, bytesPerPx, n - 1), masks)
  }

  /** The first `n` rows from the top, decoded. */
  function ImageRgb(dib: seq<byte>, h: Header, n: nat): seq<byte>
    requires Holds(dib, h) && n <= h.height
  {
    if n == 0 then []
    else ImageRgb(dib, h, n - 1) + RowRgb(StoredRow(dib, h, SourceRow(h, n - 1)), h.bytesPerPx, h.masks, h.width)
  }

  datatype Image = Image(width: nat, height: nat, rgb: seq<byte>)

  function Decoded(dib: seq<byte>): Option<Image> {
    AcceptedHolds(dib);
    match ParseHeader(dib)
    case None => None
    case Some(h) => Some(Image(h.width, h.height, ImageRgb(dib, h, h.height)))
  }

  method DecodeRow(row: seq<byte>, bytesPerPx: nat, masks: Masks, width: nat) returns (rgb: seq<byte>)
    requires if bytesPerPx == 3 then 3 * width <= |row| else 4 * width <= |row|
    ensures rgb == RowRgb(row, bytesPerPx, masks, width)
  {
    rgb := [];
    for x := 0 to width
      invariant rgb == RowRgb(row, bytesPerPx, masks, x)
    {
      var raw := Raw(row, bytesPerPx, x);
      rgb := rgb + [ScaleChannel(raw, masks.red), ScaleChannel(raw, masks.green), ScaleChannel(raw, masks.blue)];
    }
  }

  method DecodePixels(dib: seq<byte>, h: Header) returns (rgb: seq<byte>)
    requires Holds(dib, h)
    ensures rgb == ImageRgb(dib, h, h.height)
  {
    rgb := [];
    for row := 0 to h.height
      invariant rgb == ImageRgb(dib, h, row)
    {
      var pixels := DecodeRow(StoredRow(dib, h, SourceRow(h, row)), h.bytesPerPx, h.masks, h.width);
      rgb := rgb + pixels;
    }
  }

  /** `decode_dib`. */
  method DecodeDib(dib: seq<byte>) returns (image: Option<Image>)
    ensures image == Decoded(dib)
  {
    var header := ParseHeader(dib);
    AcceptedHolds(dib);
    if header.None? {
      return None;
    }
    var rgb := DecodePixels(dib, header.value);
    return Some(Image(header.value.width, header.value.height, rgb));
  }

  // ----- What comes out -----

  lemma {:induction false} ImageLength(dib: seq<byte>, h: Header, n: nat)
    requires Holds(dib, h) && n <= h.height
    ensures |ImageRgb(dib, h, n)| == 3 * h.width * n
    decreases n
  {
    if n > 0 {
      ImageLength(dib, h, n - 1);
      assert 3 * h.width * n == 3 * h.width * (n - 1) + 3 * h.width;
    }
  }

  lemma {:induction false} RowPixel(row: seq<byte>, bytesPerPx: nat, masks: Masks, n: nat, x: nat, c: nat)
    requires if bytesPerPx == 3 then 3 * n <= |row| else 4 * n <= |row|
    requires x < n && c < 3
    ensures RowRgb(row, bytesPerPx, masks, n)[3 * x + c] == Rgb(Raw(row, bytesPerPx, x), masks)[c]
    decreases n
  {
    if x < n - 1 {
      RowPixel(row, bytesPerPx, masks, n - 1, x, c);
    }
  }

  lemma {:induction false} ImageRow(dib: seq<byte>, h: Header, n: nat, r: nat, k: nat)
    requires Holds(dib, h) && r < n <= h.height && k < 3 * h.width
    ensures 3 * h.width * r + k < |ImageRgb(dib, h, n)|
    ensures ImageRgb(dib, h, n)[3 * h.width * r + k]
            == RowRgb(StoredRow(dib, h, SourceRow(h, r)), h.bytesPerPx, h.masks, h.width)[k]
    decreases n
  {
    ImageLength(dib, h, n - 1);
    if r < n - 1 {
      ImageRow(dib, h, n - 1, r, k);
    }
  }

  lemma ImagePixel(dib: seq<byte>, h: Header, r: nat, x: nat, c: nat)
    requires Holds(dib, h) && r < h.height && x < h.width && c < 3
    ensures var rgb := ImageRgb(dib, h, h.height);
            && |rgb| == 3 * h.width * h.height && 3 * h.width * r + 3 * x + c < |rgb|
            && rgb[3 * h.width * r + (3 * x + c)]
               == Rgb(Raw(StoredRow(dib, h, SourceRow(h, r)), h.bytesPerPx, x), h.masks)[c]
  {
    ImageLength(dib, h, h.height);
    ImageRow(dib, h, h.height, r, 3 * x + c);
    RowPixel(StoredRow(dib, h, SourceRow(h, r)), h.bytesPerPx, h.masks, h.width, x, c);
  }

  /** The masks take the third, second and first byte of a word. */
  ghost predicate Standard(m: Masks) {
    && (forall raw: nat :: ScaleChannel(raw, m.red) == raw / 256 / 256 % 256)
    && (forall raw: nat :: ScaleChannel(raw, m.green) == raw / 256 % 256)
    && (forall raw: nat :: ScaleChannel(raw, m.blue) == raw % 256)
  }

  lemma ShiftLeftByte(m: nat, n: nat, k: nat)
    requires k == n + 8
    ensures ShiftLeft(m, k) == 256 * ShiftLeft(m, n)
  {
    assert ShiftLeft(m, k - 4) == 16 * ShiftLeft(m, n) by {
      assert ShiftLeft(m, k - 6) == 4 * ShiftLeft(m, n);
    }
    assert ShiftLeft(m, k - 2) == 4 * ShiftLeft(m, k - 4);
  }

  /** Masks one byte, or two bytes, up from 0xFF. */
  lemma ByteMasks(raw: nat, none: nat, one: nat, two: nat)
    requires none == 0 && one == 8 && two == 16
    ensures ScaleChannel(raw, ShiftLeft(255, none)) == raw % 256
    ensures ScaleChannel(raw, ShiftLeft(255, one)) == raw / 256 % 256
    ensures ScaleChannel(raw, ShiftLeft(255, two)) == raw / 256 / 256 % 256
  {
    EightBitMask(raw, none);
    EightBitMask(raw, one);
    EightBitMask(raw, two);
    ShiftByte(raw, none, one);
    ShiftByte(raw, one, two);
    ShiftByte(raw / 256, none, one);
  }

  lemma StandardMasks(m: Masks, none: nat, one: nat, two: nat)
    requires m == STANDARD && none == 0 && one == 8 && two == 16
    ensures Standard(m)
  {
    ShiftLeftByte(255, none, one);
    ShiftLeftByte(255, one, two);
    assert m.blue == ShiftLeft(255, none) && m.green == ShiftLeft(255, one) && m.red == ShiftLeft(255, two);
    forall raw: nat
      ensures ScaleChannel(raw, m.red) == raw / 256 / 256 % 256
      ensures ScaleChannel(raw, m.green) == raw / 256 % 256 && ScaleChannel(raw, m.blue) == raw % 256
    {
      ByteMasks(raw, none, one, two);
    }
  }

  lemma Digit(q: nat, b: byte)
    ensures (256 * q + b) / 256 == q && (256 * q + b) % 256 == b
  {
  }

  lemma WordDigits(b0: byte, b1: byte, b2: byte, b3: byte)
    ensures var raw := Word32(b0, b1, b2, b3); raw % 256 == b0 && raw / 256 % 256 == b1 && raw / 256 / 256 % 256 == b2
  {
    Digit(b1 + 256 * (b2 + 256 * b3), b0);
    Digit(b2 + 256 * b3, b1);
    Digit(b3, b2);
  }

  /** The standard masks give the stored bytes back, red last. */
  lemma StandardChannels(b0: byte, b1: byte, b2: byte, b3: byte, m: Masks)
    requires Standard(m)
    ensures Rgb(Word32(b0, b1, b2, b3), m) == [b2, b1, b0]
  {
    WordDigits(b0, b1, b2, b3);
  }

  lemma ShiftByte(raw: nat, n: nat, k: nat)
    requires k == n + 8
    ensures ShiftRight(raw, k) == ShiftRight(raw / 256, n)
  {
    assert ShiftRight(raw, k) == ShiftRight(raw / 4, k - 2);
    assert ShiftRight(raw / 4, k - 2) == ShiftRight(raw / 16, k - 4);
    assert ShiftRight(raw / 16, k - 4) == ShiftRight(raw / 64, k - 6);
    assert ShiftRight(raw / 64, k - 6) == ShiftRight(raw / 256, k - 8);
  }

  /** 3*w*h bytes, and channel `c` of the pixel shown at (x, r) is the byte
      stored for it, in the row the orientation says. */
  ghost predicate ShowsByte(dib: seq<byte>, h: Header, rgb: seq<byte>, r: nat, x: nat, c: nat)
    requires Holds(dib, h) && r < h.height && x < h.width && c < 3
  {
    && |rgb| == 3 * h.width * h.height && 3 * h.width * r + (3 * x + c) < |rgb|
    && rgb[3 * h.width * r + (3 * x + c)]
       == StoredRow(dib, h, SourceRow(h, r))[(if h.bytesPerPx == 3 then 3 * x else 4 * x) + (2 - c)]
  }

  ghost predicate RowShows(row: seq<byte>, h: Header, x: nat, c: nat)
    requires if h.bytesPerPx == 3 then 3 * x + 3 <= |row| else 4 * x + 4 <= |row|
    requires c < 3
  {
    Rgb(Raw(row, h.bytesPerPx, x), h.masks)[c] == row[(if h.bytesPerPx == 3 then 3 * x else 4 * x) + (2 - c)]
  }

  lemma StandardRowShows(row: seq<byte>, h: Header, x: nat, c: nat)
    requires if h.bytesPerPx == 3 then 3 * x + 3 <= |row| else 4 * x + 4 <= |row|
    requires c < 3 && Standard(h.masks)
    ensures RowShows(row, h, x, c)
  {
    if h.bytesPerPx == 3 {
      StandardChannels(row[3 * x], row[3 * x + 1], row[3 * x + 2], 0, h.masks);
    } else {
      StandardChannels(row[4 * x], row[4 * x + 1], row[4 * x + 2], row[4 * x + 3], h.masks);
    }
  }

  lemma PixelsShowBytes(dib: seq<byte>, h: Header, r: nat, x: nat, c: nat)
    requires Holds(dib, h) && r < h.height && x < h.width && c < 3
    requires RowShows(StoredRow(dib, h, SourceRow(h, r)), h, x, c)
    ensures ShowsByte(dib, h, ImageRgb(dib, h, h.height), r, x, c)
  {
    ImagePixel(dib, h, r, x, c);
  }

  lemma DecodedIs(dib: seq<byte>, h: Header)
    requires ParseHeader(dib) == Some(h)
    ensures Holds(dib, h) && Decoded(dib) == Some(Image(h.width, h.height, ImageRgb(dib, h, h.height)))
  {
    AcceptedHolds(dib);
  }

  /** Every accepted image with standard masks shows its stored bytes. */
  lemma DecodesStoredBytes(dib: seq<byte>, h: Header, r: nat, x: nat, c: nat)
    requires ParseHeader(dib) == Some(h) && h.masks == STANDARD && r < h.height && x < h.width && c < 3
    ensures Holds(dib, h) && Decoded(dib).Some? && ShowsByte(dib, h, Decoded(dib).value.rgb, r, x, c)
  {
    DecodedIs(dib, h);
    StandardMasks(h.masks, 0, 8, 16);
    StandardRowShows(StoredRow(dib, h, SourceRow(h, r)), h, x, c);
    PixelsShowBytes(dib, h, r, x, c);
  }
}
