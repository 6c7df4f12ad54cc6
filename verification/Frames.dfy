/** Tightly packed BGRX frames and the crop that feeds ClearCodec. */
module Frames {
  import opened Prelude
  import opened Geometry

  /** A displayed colour; the fourth byte of a BGRX pixel carries none. */
  datatype Colour = Colour(b: byte, g: byte, r: byte)

  /** Byte offset of pixel (x, y) in rows of `w` pixels. */
  function Off(w: nat, x: int, y: int): int { 4 * (y * w + x) }

  predicate IsFrame(data: seq<byte>, w: nat, h: nat) { |data| == 4 * (w * h) }

  lemma OffBounds(w: nat, h: nat, x: int, y: int, n: nat)
    requires 0 <= x && x + n <= w && 0 <= y < h
    ensures 0 <= Off(w, x, y)
    ensures Off(w, x + n, y) == Off(w, x, y) + 4 * n <= 4 * (w * h)
  {
    MulMono(w, 0, y);
    MulMono(w, y + 1, h);
    assert w * (y + 1) == y * w + w;
  }

  /** `n` pixels of row `y` from column `x`. */
  function Run(data: seq<byte>, w: nat, h: nat, x: int, y: int, n: nat): (s: seq<byte>)
    requires IsFrame(data, w, h) && 0 <= x && x + n <= w && 0 <= y < h
    ensures |s| == 4 * n
  {
    OffBounds(w, h, x, y, n);
    data[Off(w, x, y)..Off(w, x, y) + 4 * n]
  }

  function PixelAt(data: seq<byte>, w: nat, h: nat, p: Px): seq<byte>
    requires IsFrame(data, w, h) && 0 <= p.x < w && 0 <= p.y < h
  {
    Run(data, w, h, p.x, p.y, 1)
  }

  function ColourAt(data: seq<byte>, w: nat, h: nat, p: Px): Colour
    requires IsFrame(data, w, h) && 0 <= p.x < w && 0 <= p.y < h
  {
    var px := PixelAt(data, w, h, p);
    Colour(px[0], px[1], px[2])
  }

  lemma SliceOfSlice(s: seq<byte>, a: nat, n: nat, k: nat)
    requires a + n <= |s| && k + 4 <= n
    ensures s[a..a + n][k..k + 4] == s[a + k..a + k + 4]
  {
    var inner, direct := s[a..a + n][k..k + 4], s[a + k..a + k + 4];
    forall i | 0 <= i < |inner|
      ensures inner[i] == direct[i]
    {
      assert s[a..a + n][k + i] == s[a + k + i];
    }
  }

  lemma PixelOfRun(data: seq<byte>, w: nat, h: nat, x: int, y: int, n: nat, px: int)
    requires IsFrame(data, w, h) && 0 <= x <= px < x + n <= w && 0 <= y < h
    ensures PixelAt(data, w, h, Px(px, y)) == Run(data, w, h, x, y, n)[4 * (px - x)..4 * (px - x) + 4]
  {
    OffBounds(w, h, x, y, n);
    OffBounds(w, h, x, y, px - x);
    SliceOfSlice(data, Off(w, x, y), 4 * n, 4 * (px - x));
  }

  /** Equal runs hold equal pixels. */
  lemma EqualRunPixel(a: seq<byte>, b: seq<byte>, w: nat, h: nat, x: int, y: int, n: nat, px: int)
    requires IsFrame(a, w, h) && IsFrame(b, w, h)
    requires 0 <= x <= px < x + n <= w && 0 <= y < h
    requires Run(a, w, h, x, y, n) == Run(b, w, h, x, y, n)
    ensures PixelAt(a, w, h, Px(px, y)) == PixelAt(b, w, h, Px(px, y))
  {
    PixelOfRun(a, w, h, x, y, n, px);
    PixelOfRun(b, w, h, x, y, n, px);
  }

  /** Where byte `k` of a frame lives. */
  lemma ByteHome(k: nat, w: nat, h: nat) returns (p: Px, c: nat)
    requires k < 4 * (w * h)
    ensures 0 <= p.x < w && 0 <= p.y < h && c < 4 && k == Off(w, p.x, p.y) + c
  {
    assert h * w == w * h;
    var y, x := SplitIndex(k / 4, w, h);
    p, c := Px(x, y), k % 4;
  }

  /** Frames with equal pixels are equal. */
  lemma FramesEqual(a: seq<byte>, b: seq<byte>, w: nat, h: nat)
    requires IsFrame(a, w, h) && IsFrame(b, w, h)
    requires forall p: Px {:trigger PixelAt(a, w, h, p)} {:trigger PixelAt(b, w, h, p)} ::
               0 <= p.x < w && 0 <= p.y < h ==> PixelAt(a, w, h, p) == PixelAt(b, w, h, p)
    ensures a == b
  {
    forall k: nat | k < |a|
      ensures a[k] == b[k]
    {
      var p, c := ByteHome(k, w, h);
      OffBounds(w, h, p.x, p.y, 1);
      assert PixelAt(a, w, h, p)[c] == a[k] && PixelAt(b, w, h, p)[c] == b[k];
    }
  }

  // ----- crop_bgra -----

  predicate RectInFrame(r: Rect, w: nat, h: nat) { r.x + r.w <= w && r.y + r.h <= h }

  /** What a decoder of the packed `w`-wide payload shows at (x, y). */
  function PayloadColour(payload: seq<byte>, w: nat, x: int, y: int): Colour
    requires 0 <= Off(w, x, y) && Off(w, x, y) + 4 <= |payload|
  {
    var k := Off(w, x, y);
    Colour(payload[k], payload[k + 1], payload[k + 2])
  }

  /** Every pixel of the crop shows the frame's colour at its own position,
      opaque; there is nothing else in the payload. */
  ghost predicate IsCrop(out: seq<byte>, data: seq<byte>, w: nat, h: nat, r: Rect)
    requires IsFrame(data, w, h) && RectInFrame(r, w, h)
  {
    && |out| == 4 * (r.w * r.h)
    && forall p: Px {:trigger Within(p, r)} :: Within(p, r) ==> CropPixel(out, data, w, h, r, p)
  }

  ghost predicate CropPixel(out: seq<byte>, data: seq<byte>, w: nat, h: nat, r: Rect, p: Px)
    requires IsFrame(data, w, h) && RectInFrame(r, w, h) && Within(p, r)
  {
    var k := Off(r.w, p.x - r.x, p.y - r.y);
    && 0 <= k && k + 4 <= |out|
    && PayloadColour(out, r.w, p.x - r.x, p.y - r.y) == ColourAt(data, w, h, p)
    && out[k + 3] == 0xFF
  }

  /** The payload sent for `r`: opaque BGRA, row by row. */
  method CropBgra(data: seq<byte>, w: nat, h: nat, r: Rect) returns (out: seq<byte>)
    requires IsFrame(data, w, h) && RectInFrame(r, w, h)
    ensures IsCrop(out, data, w, h, r)
  {
    out := [];
    var row := 0;
    while row < r.h
      invariant 0 <= row <= r.h && |out| == 4 * (r.w * row)
      invariant forall p: Px {:trigger Within(p, r)} ::
                  Within(p, r) && p.y < r.y + row ==> CropPixel(out, data, w, h, r, p)
    {
      ghost var before := out;
      var line := Run(data, w, h, r.x, r.y + row, r.w);
      var opaqueLine := MakeOpaque(line);
      out := out + opaqueLine;
      assert r.w * (row + 1) == r.w * row + r.w;
      forall p: Px | Within(p, r) && p.y < r.y + row + 1
        ensures CropPixel(out, data, w, h, r, p)
      {
        if p.y < r.y + row {
          assert CropPixel(before, data, w, h, r, p);
        } else {
          CropLine(before, line, opaqueLine, data, w, h, r, row, p);
        }
      }
      row := row + 1;
    }
  }

  lemma CropLine(before: seq<byte>, line: seq<byte>, opaqueLine: seq<byte>,
                 data: seq<byte>, w: nat, h: nat, r: Rect, row: nat, p: Px)
    requires IsFrame(data, w, h) && RectInFrame(r, w, h) && row < r.h
    requires |before| == 4 * (r.w * row) && line == Run(data, w, h, r.x, r.y + row, r.w)
    requires |opaqueLine| == |line| && forall k {:trigger opaqueLine[k]} :: 0 <= k < |line| ==>
               opaqueLine[k] == (if k % 4 == 3 then 0xFF else line[k])
    requires Within(p, r) && p.y == r.y + row
    ensures CropPixel(before + opaqueLine, data, w, h, r, p)
  {
    var i := p.x - r.x;
    PixelOfRun(data, w, h, r.x, p.y, r.w, p.x);
    assert Off(r.w, i, row) == |before| + 4 * i;
    OpaqueLineShows(before, line, opaqueLine, i);
  }

  lemma OpaqueLineShows(before: seq<byte>, line: seq<byte>, opaqueLine: seq<byte>, i: nat)
    requires |opaqueLine| == |line| && forall k {:trigger opaqueLine[k]} :: 0 <= k < |line| ==>
               opaqueLine[k] == (if k % 4 == 3 then 0xFF else line[k])
    requires 4 * i + 4 <= |line|
    ensures var out, k := before + opaqueLine, |before| + 4 * i;
            && out[k] == line[4 * i..4 * i + 4][0] && out[k + 1] == line[4 * i..4 * i + 4][1]
            && out[k + 2] == line[4 * i..4 * i + 4][2] && out[k + 3] == 0xFF
  {
    assert (before + opaqueLine)[|before| + 4 * i] == opaqueLine[4 * i];
    assert (before + opaqueLine)[|before| + 4 * i + 1] == opaqueLine[4 * i + 1];
    assert (before + opaqueLine)[|before| + 4 * i + 2] == opaqueLine[4 * i + 2];
    assert (before + opaqueLine)[|before| + 4 * i + 3] == opaqueLine[4 * i + 3];
  }

  /** Force every fourth byte to 0xFF, in place on the copied line. */
  method MakeOpaque(line: seq<byte>) returns (out: seq<byte>)
    requires |line| % 4 == 0
    ensures |out| == |line|
    ensures forall k {:trigger out[k]} :: 0 <= k < |line| ==> out[k] == (if k % 4 == 3 then 0xFF else line[k])
  {
    out := line;
    var i := 0;
    while i < |line|
      invariant 0 <= i <= |line| && i % 4 == 0 && |out| == |line|
      invariant forall k {:trigger out[k]} :: 0 <= k < i ==> out[k] == (if k % 4 == 3 then 0xFF else line[k])
      invariant forall k {:trigger out[k]} :: i <= k < |line| ==> out[k] == line[k]
    {
      out := out[i + 3 := 0xFF];
      i := i + 4;
    }
  }

  /** A full-frame paint only forces the alpha bytes: it is the crop of the
      whole frame. */
  lemma FullFrameIsCrop(out: seq<byte>, data: seq<byte>, w: u16, h: u16)
    requires IsFrame(data, w, h) && |out| == |data|
    requires forall k {:trigger out[k]} :: 0 <= k < |data| ==> out[k] == (if k % 4 == 3 then 0xFF else data[k])
    ensures IsCrop(out, data, w, h, Rect(0, 0, w, h))
  {
    var r := Rect(0, 0, w, h);
    forall p: Px | Within(p, r)
      ensures CropPixel(out, data, w, h, r, p)
    {
      OffBounds(w, h, p.x, p.y, 1);
    }
  }
}
