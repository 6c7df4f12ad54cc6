/**
 Full-range BT.709 in numbers, and the bytes of a BGRX frame: what the converted
 planes are measured against.
 */
module Bt709 {
  import opened Prelude
  import opened Geometry
  import opened Frames

  /** `v` is the luma of `r`, `g`, `b`, rounded down or one less. */
  predicate IsY(v: int, r: int, g: int, b: int) {
    0 <= 2126 * r + 7152 * g + 722 * b - 10000 * v < 20000
  }

  /** `v` is the blue difference of the mean of `n` pixels with these sums, less
      than `slack` off. */
  predicate IsCb(v: int, n: int, slack: int, r: int, g: int, b: int) {
    -10000 * n * slack < 10000 * n * (v - 128) - (5000 * b - 1146 * r - 3854 * g) < 10000 * n * slack
  }

  /** And the red difference. */
  predicate IsCr(v: int, n: int, slack: int, r: int, g: int, b: int) {
    -10000 * n * slack < 10000 * n * (v - 128) - (5000 * r - 4542 * g - 458 * b) < 10000 * n * slack
  }

  // Where the planes of a `pw` by `ph` I420 buffer hold column `x` of row `y`.

  function YAt(pw: nat, x: nat, y: nat): nat { y * pw + x }

  function UAt(pw: nat, ph: nat, x: nat, y: nat): nat { pw * ph + y * (pw / 2) + x }

  function VAt(pw: nat, ph: nat, x: nat, y: nat): nat { pw * ph + (ph / 2) * (pw / 2) + y * (pw / 2) + x }

  /** Byte `c` of the pixel at (x, y): 0 blue, 1 green, 2 red. */
  function Stored(src: seq<byte>, w: nat, h: nat, x: nat, y: nat, c: nat): byte
    requires IsFrame(src, w, h) && x < w && y < h && c < 3
  {
    OffBounds(w, h, x, y, 1);
    src[4 * (y * w + x) + c]
  }

  /** The same with black around the frame. */
  function Dark(src: seq<byte>, w: nat, h: nat, x: nat, y: nat, c: nat): byte
    requires IsFrame(src, w, h) && c < 3
  {
    if x < w && y < h then Stored(src, w, h, x, y, c) else 0
  }

  /** The same with the frame's edge repeated around it. */
  function Edged(src: seq<byte>, w: nat, h: nat, x: nat, y: nat, c: nat): byte
    requires IsFrame(src, w, h) && w > 0 && h > 0 && c < 3
  {
    Stored(src, w, h, if x < w then x else w - 1, if y < h then y else h - 1, c)
  }

  /** Sum over the 2x2 block (i, j). */
  function DarkBlock(src: seq<byte>, w: nat, h: nat, i: nat, j: nat, c: nat): int
    requires IsFrame(src, w, h) && c < 3
  {
    Dark(src, w, h, 2 * i, 2 * j, c) + Dark(src, w, h, 2 * i + 1, 2 * j, c)
    + Dark(src, w, h, 2 * i, 2 * j + 1, c) + Dark(src, w, h, 2 * i + 1, 2 * j + 1, c)
  }

  function EdgedBlock(src: seq<byte>, w: nat, h: nat, i: nat, j: nat, c: nat): int
    requires IsFrame(src, w, h) && w > 0 && h > 0 && c < 3
  {
    Edged(src, w, h, 2 * i, 2 * j, c) + Edged(src, w, h, 2 * i + 1, 2 * j, c)
    + Edged(src, w, h, 2 * i, 2 * j + 1, c) + Edged(src, w, h, 2 * i + 1, 2 * j + 1, c)
  }

  lemma ColourIsStored(src: seq<byte>, w: nat, h: nat, x: nat, y: nat)
    requires IsFrame(src, w, h) && x < w && y < h
    ensures ColourAt(src, w, h, Px(x, y))
         == Colour(Stored(src, w, h, x, y, 0), Stored(src, w, h, x, y, 1), Stored(src, w, h, x, y, 2))
  {
    OffBounds(w, h, x, y, 1);
  }
}
