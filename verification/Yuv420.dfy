/**
 BGRX to I420, full-range BT.709, split across workers
 (linrdp/src/gfx_display.rs, `bgrx_to_yuv420`, `convert_rows`).
 */
module Yuv420 {
  import opened Prelude
  import opened Geometry
  import opened Frames
  import opened Planes
  import opened Bt709

  datatype Rgb = Rgb(r: int, g: int, b: int)

  // ----- Full-range BT.709; `/ 256` on int is the arithmetic shift `>> 8` -----

  function RawLuma(p: Rgb): int { (54 * p.r + 183 * p.g + 18 * p.b) / 256 }

  function RawCb(p: Rgb): int { (-29 * p.r - 99 * p.g + 128 * p.b) / 256 + 128 }

  function RawCr(p: Rgb): int { (128 * p.r - 116 * p.g - 12 * p.b) / 256 + 128 }

  function Luma(p: Rgb): byte { Clamp(RawLuma(p), 0, 255) }

  function Cb(p: Rgb): byte { Clamp(RawCb(p), 0, 255) }

  function Cr(p: Rgb): byte { Clamp(RawCr(p), 0, 255) }

  predicate Is8Bit(p: Rgb) { 0 <= p.r < 256 && 0 <= p.g < 256 && 0 <= p.b < 256 }

  /** On 8-bit components no clamp ever changes a value. */
  lemma ClampsAreIdle(p: Rgb)
    requires Is8Bit(p)
    ensures Luma(p) == RawLuma(p) && Cb(p) == RawCb(p) && Cr(p) == RawCr(p)
  {
  }

  /** Grey stays grey: equal components give neutral chroma. */
  lemma GreyIsNeutral(v: byte)
    ensures Cb(Rgb(v, v, v)) == 128 && Cr(Rgb(v, v, v)) == 128
  {
  }

  /** The integer coefficients are the matrix of BT.709. */
  lemma LumaIsBt709(p: Rgb)
    requires Is8Bit(p)
    ensures IsY(Luma(p), p.r, p.g, p.b)
  {
  }

  lemma ChromaIsBt709(p: Rgb)
    requires Is8Bit(p)
    ensures IsCb(Cb(p), 1, 2, p.r, p.g, p.b) && IsCr(Cr(p), 1, 2, p.r, p.g, p.b)
  {
  }

  /** `q` is the blue difference of the whole part of a mean. */
  lemma CbOfMean(q: int, r: nat, g: nat, b: nat, dr: nat, dg: nat, db: nat)
    requires r < 256 && g < 256 && b < 256 && dr < 4 && dg < 4 && db < 4
    requires 256 * q <= -29 * r - 99 * g + 128 * b < 256 * q + 256
    ensures -80000 < 40000 * q - (5000 * (4 * b + db) - 1146 * (4 * r + dr) - 3854 * (4 * g + dg)) < 80000
  {
  }

  lemma CrOfMean(q: int, r: nat, g: nat, b: nat, dr: nat, dg: nat, db: nat)
    requires r < 256 && g < 256 && b < 256 && dr < 4 && dg < 4 && db < 4
    requires 256 * q <= 128 * r - 116 * g - 12 * b < 256 * q + 256
    ensures -80000 < 40000 * q - (5000 * (4 * r + dr) - 4542 * (4 * g + dg) - 458 * (4 * b + db)) < 80000
  {
  }

  lemma Quarter(n: nat)
    ensures n == 4 * (n / 4) + n % 4 && 0 <= n % 4 < 4
  {
  }

  /** The chroma of a mean rounded down in each component. */
  lemma MeanChromaIsBt709(r: nat, g: nat, b: nat)
    requires r <= 1020 && g <= 1020 && b <= 1020
    ensures var p := Rgb(r / 4, g / 4, b / 4);
            IsCb(Cb(p), 4, 2, r, g, b) && IsCr(Cr(p), 4, 2, r, g, b)
  {
    var p := Rgb(r / 4, g / 4, b / 4);
    ClampsAreIdle(p);
    Quarter(r);
    Quarter(g);
    Quarter(b);
    CbOfMean(RawCb(p) - 128, r / 4, g / 4, b / 4, r % 4, g % 4, b % 4);
    CrOfMean(RawCr(p) - 128, r / 4, g / 4, b / 4, r % 4, g % 4, b % 4);
  }

  /** The pixel inside the frame, black in the padding. */
  function PixelOrBlack(src: seq<byte>, w: nat, h: nat, x: nat, y: nat): (p: Rgb)
    requires IsFrame(src, w, h)
    ensures Is8Bit(p)
  {
    if x < w && y < h then
      var c := ColourAt(src, w, h, Px(x, y));
      Rgb(c.r, c.g, c.b)
    else Rgb(0, 0, 0)
  }

  /** Component-wise mean of the 2x2 block (i, j), rounded down. */
  function BlockMean(src: seq<byte>, w: nat, h: nat, i: nat, j: nat): (p: Rgb)
    requires IsFrame(src, w, h)
    ensures Is8Bit(p)
  {
    var p00 := PixelOrBlack(src, w, h, 2 * i, 2 * j);
    var p01 := PixelOrBlack(src, w, h, 2 * i, 2 * j + 1);
    var p10 := PixelOrBlack(src, w, h, 2 * i + 1, 2 * j);
    var p11 := PixelOrBlack(src, w, h, 2 * i + 1, 2 * j + 1);
    Rgb((p00.r + p01.r + p10.r + p11.r) / 4, (p00.g + p01.g + p10.g + p11.g) / 4, (p00.b + p01.b + p10.b + p11.b) / 4)
  }

  function LumaAt(src: seq<byte>, w: nat, h: nat, x: nat, y: nat): byte
    requires IsFrame(src, w, h)
  {
    Luma(PixelOrBlack(src, w, h, x, y))
  }

  /** What the encoder should see of source rows `2j` and `2j + 1`. */
  function Plan420(src: seq<byte>, w: nat, h: nat): nat -> PairRows
    requires IsFrame(src, w, h)
  {
    (j: nat) => PairRows(x => LumaAt(src, w, h, x, 2 * j), x => LumaAt(src, w, h, x, 2 * j + 1),
                         i => Cb(BlockMean(src, w, h, i, j)), i => Cr(BlockMean(src, w, h, i, j)))
  }

  /** Progress on the four rows of a pair: `i` chroma and `2 * i` luma bytes. */
  ghost predicate PairUpTo(s: seq<byte>, pw: nat, y0: nat, u0: nat, v0: nat, i: nat, rows: PairRows) {
    && RowIs(s, y0, 2 * i, rows.even) && RowIs(s, y0 + pw, 2 * i, rows.odd)
    && RowIs(s, u0, i, rows.cb) && RowIs(s, v0, i, rows.cr)
  }

  /** The six bytes of block `i`. */
  function PutBlock(s: seq<byte>, pw: nat, y0: nat, u0: nat, v0: nat, i: nat, rows: PairRows): (t: seq<byte>)
    requires BlockFits(|s|, pw, y0, u0, v0, i)
    ensures |t| == |s|
  {
    PutLumas(s[u0 + i := rows.cb(i)][v0 + i := rows.cr(i)], pw, y0, i, rows)
  }

  function PutLumas(s: seq<byte>, pw: nat, y0: nat, i: nat, rows: PairRows): (t: seq<byte>)
    requires i < pw / 2 && y0 + 2 * pw <= |s|
    ensures |t| == |s|
  {
    s[y0 + 2 * i := rows.even(2 * i)][y0 + pw + 2 * i := rows.odd(2 * i)]
     [y0 + 2 * i + 1 := rows.even(2 * i + 1)][y0 + pw + 2 * i + 1 := rows.odd(2 * i + 1)]
  }

  lemma PutBlockExtends(s: seq<byte>, pw: nat, y0: nat, u0: nat, v0: nat, i: nat, rows: PairRows)
    requires BlockFits(|s|, pw, y0, u0, v0, i)
    requires PairUpTo(s, pw, y0, u0, v0, i, rows)
    ensures PairUpTo(PutBlock(s, pw, y0, u0, v0, i, rows), pw, y0, u0, v0, i + 1, rows)
  {
    var t := PutBlock(s, pw, y0, u0, v0, i, rows);
    assert RowIs(t, u0, i + 1, rows.cb);
    assert RowIs(t, v0, i + 1, rows.cr);
    assert RowIs(t, y0, 2 * (i + 1), rows.even);
    assert RowIs(t, y0 + pw, 2 * (i + 1), rows.odd);
  }

  /** A byte of the first `i` blocks of a pair. */
  predicate InBlocks(k: int, pw: nat, y0: nat, u0: nat, v0: nat, i: nat) {
    || y0 <= k < y0 + 2 * i || y0 + pw <= k < y0 + pw + 2 * i || u0 <= k < u0 + i || v0 <= k < v0 + i
  }

  /** One more store for each byte of the first `i` blocks. */
  ghost predicate BlocksHit(now: seq<nat>, was: seq<nat>, pw: nat, y0: nat, u0: nat, v0: nat, i: nat) {
    && |now| == |was|
    && forall k :: 0 <= k < |was| ==> now[k] == was[k] + if InBlocks(k, pw, y0, u0, v0, i) then 1 else 0
  }

  predicate BlockFits(len: nat, pw: nat, y0: nat, u0: nat, v0: nat, i: nat) {
    i < pw / 2 && y0 + 2 * pw <= u0 && u0 + pw / 2 <= v0 && v0 + pw / 2 <= len
  }

  function HitBlock(hits: seq<nat>, pw: nat, y0: nat, u0: nat, v0: nat, i: nat): seq<nat>
    requires BlockFits(|hits|, pw, y0, u0, v0, i)
  {
    HitLumas(Hit(Hit(hits, u0 + i), v0 + i), pw, y0, i)
  }

  function HitLumas(hits: seq<nat>, pw: nat, y0: nat, i: nat): seq<nat>
    requires i < pw / 2 && y0 + 2 * pw <= |hits|
  {
    Hit(Hit(Hit(Hit(hits, y0 + 2 * i), y0 + pw + 2 * i), y0 + 2 * i + 1), y0 + pw + 2 * i + 1)
  }

  /** The six stores of a block go to six bytes. */
  lemma HitBlockAt(hits: seq<nat>, pw: nat, y0: nat, u0: nat, v0: nat, i: nat, k: int)
    requires BlockFits(|hits|, pw, y0, u0, v0, i) && 0 <= k < |hits|
    ensures |HitBlock(hits, pw, y0, u0, v0, i)| == |hits|
    ensures var here := k == u0 + i || k == v0 + i || y0 + 2 * i <= k <= y0 + 2 * i + 1
                        || y0 + pw + 2 * i <= k <= y0 + pw + 2 * i + 1;
            HitBlock(hits, pw, y0, u0, v0, i)[k] == hits[k] + if here then 1 else 0
  {
  }

  lemma BlocksHitNext(now: seq<nat>, was: seq<nat>, pw: nat, y0: nat, u0: nat, v0: nat, i: nat)
    requires BlockFits(|now|, pw, y0, u0, v0, i) && BlocksHit(now, was, pw, y0, u0, v0, i)
    ensures BlocksHit(HitBlock(now, pw, y0, u0, v0, i), was, pw, y0, u0, v0, i + 1)
  {
    var next := HitBlock(now, pw, y0, u0, v0, i);
    forall k | 0 <= k < |now|
      ensures next[k] == was[k] + if InBlocks(k, pw, y0, u0, v0, i + 1) then 1 else 0
    {
      HitBlockAt(now, pw, y0, u0, v0, i, k);
    }
  }

  lemma AllBlocksHit(now: seq<nat>, was: seq<nat>, pw: nat, y0: nat, u0: nat, v0: nat)
    requires pw % 2 == 0 && BlocksHit(now, was, pw, y0, u0, v0, pw / 2)
    ensures PairHit(now, was, y0, 2 * pw, u0, v0, pw / 2)
  {
  }

  method WriteLumas(buf: array<byte>, pw: nat, y0: nat, i: nat, rows: PairRows, ghost hits: seq<nat>)
    returns (ghost now: seq<nat>)
    requires i < pw / 2 && y0 + 2 * pw <= buf.Length == |hits|
    modifies buf
    ensures buf[..] == PutLumas(old(buf[..]), pw, y0, i, rows) && now == HitLumas(hits, pw, y0, i)
  {
    now := Store(buf, y0 + 2 * i, rows.even(2 * i), hits);
    now := Store(buf, y0 + pw + 2 * i, rows.odd(2 * i), now);
    now := Store(buf, y0 + 2 * i + 1, rows.even(2 * i + 1), now);
    now := Store(buf, y0 + pw + 2 * i + 1, rows.odd(2 * i + 1), now);
  }

  method WriteBlock(buf: array<byte>, pw: nat, y0: nat, u0: nat, v0: nat, i: nat, rows: PairRows, ghost hits: seq<nat>)
    returns (ghost now: seq<nat>)
    requires BlockFits(buf.Length, pw, y0, u0, v0, i) && |hits| == buf.Length
    modifies buf
    ensures buf[..] == PutBlock(old(buf[..]), pw, y0, u0, v0, i, rows)
    ensures now == HitBlock(hits, pw, y0, u0, v0, i)
  {
    now := Store(buf, u0 + i, rows.cb(i), hits);
    now := Store(buf, v0 + i, rows.cr(i), now);
    now := WriteLumas(buf, pw, y0, i, rows, now);
  }

  /** The inner loop of `convert_rows`: one row pair, block by block. */
  method FillPair(buf: array<byte>, pw: nat, y0: nat, u0: nat, v0: nat, rows: PairRows, ghost hits: seq<nat>)
    returns (ghost now: seq<nat>)
    requires pw % 2 == 0 && |hits| == buf.Length
    requires y0 + 2 * pw <= u0 && u0 + pw / 2 <= v0 && v0 + pw / 2 <= buf.Length
    modifies buf
    ensures PairIs(buf[..], pw, y0, u0, v0, rows)
    ensures OnlyIn(buf[..], old(buf[..]), y0, 2 * pw, u0, v0, pw / 2)
    ensures PairHit(now, hits, y0, 2 * pw, u0, v0, pw / 2)
  {
    now := hits;
    var half := pw / 2;
    var i := 0;
    while i < half
      invariant 0 <= i <= half
      invariant PairUpTo(buf[..], pw, y0, u0, v0, i, rows)
      invariant OnlyIn(buf[..], old(buf[..]), y0, 2 * pw, u0, v0, half)
      invariant BlocksHit(now, hits, pw, y0, u0, v0, i)
    {
      PutBlockExtends(buf[..], pw, y0, u0, v0, i, rows);
      BlocksHitNext(now, hits, pw, y0, u0, v0, i);
      now := WriteBlock(buf, pw, y0, u0, v0, i, rows, now);
      i := i + 1;
    }
    AllBlocksHit(now, hits, pw, y0, u0, v0);
  }

  /** One worker: row pairs `j0..j1`, in the chunks that start at the bases. */
  method ConvertRows(src: seq<byte>, w: nat, h: nat, pw: nat, ph: nat, buf: array<byte>, j0: nat, j1: nat,
                     yBase: nat, uBase: nat, vBase: nat, ghost hits: seq<nat>) returns (ghost now: seq<nat>)
    requires IsFrame(src, w, h) && pw % 2 == 0 && ph % 2 == 0 && j0 <= j1 <= ph / 2
    requires buf.Length == BufLen(pw, ph) == |hits|
    requires yBase == YOff(pw, j0) && uBase == UOff(pw, ph, j0) && vBase == VOff(pw, ph, j0)
    modifies buf
    ensures RowsDone(buf[..], old(buf[..]), pw, ph, Plan420(src, w, h), j0, j1)
    ensures RowsHit(now, hits, pw, ph, j0, j1)
  {
    var plan := Plan420(src, w, h);
    now := hits;
    NoRowsHit(hits, buf[..], pw, ph, plan, j0);
    var j := j0;
    while j < j1
      invariant j0 <= j <= j1
      invariant RowsDone(buf[..], old(buf[..]), pw, ph, plan, j0, j)
      invariant RowsHit(now, hits, pw, ph, j0, j)
    {
      ghost var was, before := buf[..], now;
      LocalOffsets(pw, ph, j0, j - j0);
      now := ConvertPair(buf, pw, ph, j, yBase + (j - j0) * (2 * pw), uBase + (j - j0) * (pw / 2),
                         vBase + (j - j0) * (pw / 2), plan, now);
      RowsDoneNext(old(buf[..]), was, buf[..], pw, ph, plan, j0, j);
      RowsHitNext(hits, before, now, pw, ph, j0, j);
      j := j + 1;
    }
  }

  /** Row pair `j` of the buffer. */
  method ConvertPair(buf: array<byte>, pw: nat, ph: nat, j: nat, y0: nat, u0: nat, v0: nat, plan: nat -> PairRows,
                     ghost hits: seq<nat>) returns (ghost now: seq<nat>)
    requires pw % 2 == 0 && ph % 2 == 0 && j < ph / 2 && buf.Length == BufLen(pw, ph) == |hits|
    requires y0 == YOff(pw, j) && u0 == UOff(pw, ph, j) && v0 == VOff(pw, ph, j)
    modifies buf
    ensures RowsDone(buf[..], old(buf[..]), pw, ph, plan, j, j + 1) && RowsHit(now, hits, pw, ph, j, j + 1)
  {
    OffsetsOrdered(pw, ph, j);
    now := FillPair(buf, pw, y0, u0, v0, plan(j), hits);
    OnePairDone(buf[..], old(buf[..]), pw, ph, plan, j);
    OnePairHit(now, hits, pw, ph, j);
  }

  /** Each chunk of the plan once, in the order the threads finish. */
  ghost predicate IsOrder(order: seq<nat>, count: nat) {
    && (forall c: nat :: c in order <==> c < count)
    && forall i, j :: 0 <= i < j < |order| ==> order[i] != order[j]
  }

  lemma OrderNext(order: seq<nat>, count: nat, n: nat)
    requires IsOrder(order, count) && n < |order|
    ensures order[n] < count && order[n] !in order[..n] && order[..n + 1] == order[..n] + [order[n]]
    ensures forall i :: 0 <= i < n ==> order[..n][i] < count
  {
    assert order[n] in order;
    assert forall i :: 0 <= i < n ==> order[..n][i] == order[i] && order[i] in order;
  }

  lemma ChunksStart(order: seq<nat>, per: nat, pairs: nat)
    requires per > 0 && forall i :: 0 <= i < |order| ==> order[i] < ChunkCount(per, pairs)
    ensures forall i :: 0 <= i < |order| ==> order[i] * per <= pairs
  {
    forall i | 0 <= i < |order| ensures order[i] * per <= pairs {
      ChunkStarts(order[i], per, pairs);
    }
  }

  /** One thread on chunk `c`. */
  method RunChunk(src: seq<byte>, w: nat, h: nat, pw: nat, ph: nat, buf: array<byte>, per: nat, c: nat, s: Slices,
                  ghost hits: seq<nat>) returns (ghost now: seq<nat>)
    requires IsFrame(src, w, h) && pw % 2 == 0 && ph % 2 == 0 && per > 0 && c < ChunkCount(per, ph / 2)
    requires buf.Length == BufLen(pw, ph) == |hits| && AreSlices(s, pw, ph, per, c)
    modifies buf
    ensures c * per <= ph / 2
    ensures RowsDone(buf[..], old(buf[..]), pw, ph, Plan420(src, w, h), c * per, ChunkEnd(per, ph / 2, c))
    ensures RowsHit(now, hits, pw, ph, c * per, ChunkEnd(per, ph / 2, c))
  {
    var j0, j1, y, u, v := ChunkBases(s, pw, ph, per, c);
    now := ConvertRows(src, w, h, pw, ph, buf, j0, j1, y, u, v, hits);
  }

  /** The threads finish their chunks in any `order`. */
  method RunChunks(src: seq<byte>, w: nat, h: nat, pw: nat, ph: nat, buf: array<byte>, per: nat, order: seq<nat>,
                   slices: seq<Slices>, ghost hits: seq<nat>) returns (ghost now: seq<nat>)
    requires IsFrame(src, w, h) && pw % 2 == 0 && ph % 2 == 0 && per > 0 && buf.Length == BufLen(pw, ph)
    requires |slices| == ChunkCount(per, ph / 2) && IsOrder(order, |slices|)
    requires forall c :: 0 <= c < |slices| ==> AreSlices(slices[c], pw, ph, per, c)
    requires ChunksHit(hits, pw, ph, per, [])
    modifies buf
    ensures ChunksDone(buf[..], pw, ph, Plan420(src, w, h), per, order) && ChunksHit(now, pw, ph, per, order)
  {
    ghost var plan := Plan420(src, w, h);
    now := hits;
    var done := 0;
    assert order[..0] == [];
    while done < |order|
      invariant 0 <= done <= |order|
      invariant ChunksDone(buf[..], pw, ph, plan, per, order[..done]) && ChunksHit(now, pw, ph, per, order[..done])
    {
      ghost var was, before := buf[..], now;
      OrderNext(order, |slices|, done);
      ChunksStart(order[..done], per, ph / 2);
      var c := order[done];
      now := RunChunk(src, w, h, pw, ph, buf, per, c, slices[c], now);
      ChunksDoneNext(buf[..], was, pw, ph, plan, per, order[..done], c);
      ChunksHitNext(now, before, pw, ph, per, order[..done], c);
      done := done + 1;
    }
    assert order[..done] == order;
  }

  // ----- The buffer in numbers -----

  ghost predicate LumaShown(buf: seq<byte>, src: seq<byte>, w: nat, h: nat, pw: nat, x: nat, y: nat)
    requires IsFrame(src, w, h)
  {
    && YAt(pw, x, y) < |buf|
    && IsY(buf[YAt(pw, x, y)], Dark(src, w, h, x, y, 2), Dark(src, w, h, x, y, 1), Dark(src, w, h, x, y, 0))
  }

  ghost predicate ChromaShown(buf: seq<byte>, src: seq<byte>, w: nat, h: nat, pw: nat, ph: nat, i: nat, j: nat)
    requires IsFrame(src, w, h)
  {
    var r, g, b := DarkBlock(src, w, h, i, j, 2), DarkBlock(src, w, h, i, j, 1), DarkBlock(src, w, h, i, j, 0);
    var u, v := UAt(pw, ph, i, j), VAt(pw, ph, i, j);
    && u < |buf| && v < |buf|
    && IsCb(buf[u], 4, 2, r, g, b) && IsCr(buf[v], 4, 2, r, g, b)
  }

  /** The buffer is the frame in I420: a luma byte for each pixel, black beyond
      the frame, then the blue and the red differences of each 2x2 block. */
  ghost predicate IsI420(buf: seq<byte>, src: seq<byte>, w: nat, h: nat, pw: nat, ph: nat)
    requires IsFrame(src, w, h)
  {
    && (forall x: nat, y: nat :: x < pw && y < ph ==> LumaShown(buf, src, w, h, pw, x, y))
    && (forall i: nat, j: nat :: i < pw / 2 && j < ph / 2 ==> ChromaShown(buf, src, w, h, pw, ph, i, j))
  }

  lemma PixelIsDark(src: seq<byte>, w: nat, h: nat, x: nat, y: nat)
    requires IsFrame(src, w, h)
    ensures PixelOrBlack(src, w, h, x, y)
         == Rgb(Dark(src, w, h, x, y, 2), Dark(src, w, h, x, y, 1), Dark(src, w, h, x, y, 0))
  {
    if x < w && y < h { ColourIsStored(src, w, h, x, y); }
  }

  lemma BlockIsDark(src: seq<byte>, w: nat, h: nat, i: nat, j: nat)
    requires IsFrame(src, w, h)
    ensures BlockMean(src, w, h, i, j)
         == Rgb(DarkBlock(src, w, h, i, j, 2) / 4, DarkBlock(src, w, h, i, j, 1) / 4, DarkBlock(src, w, h, i, j, 0) / 4)
  {
    PixelIsDark(src, w, h, 2 * i, 2 * j);
    PixelIsDark(src, w, h, 2 * i + 1, 2 * j);
    PixelIsDark(src, w, h, 2 * i, 2 * j + 1);
    PixelIsDark(src, w, h, 2 * i + 1, 2 * j + 1);
  }

  lemma PlannedLuma(src: seq<byte>, w: nat, h: nat, x: nat, y: nat)
    requires IsFrame(src, w, h)
    ensures (if y % 2 == 0 then Plan420(src, w, h)(y / 2).even(x) else Plan420(src, w, h)(y / 2).odd(x)) == LumaAt(src, w, h, x, y)
  {
  }

  lemma LumaByte(buf: seq<byte>, src: seq<byte>, w: nat, h: nat, pw: nat, ph: nat, x: nat, y: nat)
    requires IsFrame(src, w, h) && ph % 2 == 0 && Converted(buf, pw, ph, Plan420(src, w, h)) && x < pw && y < ph
    ensures LumaShown(buf, src, w, h, pw, x, y)
  {
    LumaOfPlan(buf, pw, ph, Plan420(src, w, h), x, y);
    PlannedLuma(src, w, h, x, y);
    PixelIsDark(src, w, h, x, y);
    LumaIsBt709(PixelOrBlack(src, w, h, x, y));
  }

  lemma ChromaBytes(buf: seq<byte>, src: seq<byte>, w: nat, h: nat, pw: nat, ph: nat, i: nat, j: nat)
    requires IsFrame(src, w, h) && Converted(buf, pw, ph, Plan420(src, w, h)) && i < pw / 2 && j < ph / 2
    ensures ChromaShown(buf, src, w, h, pw, ph, i, j)
  {
    ChromaOfPlan(buf, pw, ph, Plan420(src, w, h), i, j);
    BlockIsDark(src, w, h, i, j);
    MeanChromaIsBt709(DarkBlock(src, w, h, i, j, 2), DarkBlock(src, w, h, i, j, 1), DarkBlock(src, w, h, i, j, 0));
  }

  /** The planned buffer is the frame in I420. */
  lemma ConvertedIsI420(buf: seq<byte>, src: seq<byte>, w: nat, h: nat, pw: nat, ph: nat)
    requires IsFrame(src, w, h) && ph % 2 == 0 && Converted(buf, pw, ph, Plan420(src, w, h))
    ensures IsI420(buf, src, w, h, pw, ph)
  {
    forall x: nat, y: nat | x < pw && y < ph
      ensures LumaShown(buf, src, w, h, pw, x, y)
    {
      LumaByte(buf, src, w, h, pw, ph, x, y);
    }
    forall i: nat, j: nat | i < pw / 2 && j < ph / 2
      ensures ChromaShown(buf, src, w, h, pw, ph, i, j)
    {
      ChromaBytes(buf, src, w, h, pw, ph, i, j);
    }
  }

  /** The whole conversion. Whatever the number of workers and the order they
      finish in, the buffer is the converted one, each byte stored once. */
  method Bgrx420(src: seq<byte>, w: nat, h: nat, pw: nat, ph: nat, workers: nat, order: seq<nat>)
    returns (buf: array<byte>, ghost hits: seq<nat>)
    requires IsFrame(src, w, h) && pw % 2 == 0 && ph % 2 == 0 && ph > 0 && workers > 0
    requires IsOrder(order, ChunkCount(PerWorker(workers, ph / 2), ph / 2))
    ensures fresh(buf) && Converted(buf[..], pw, ph, Plan420(src, w, h))
    ensures IsI420(buf[..], src, w, h, pw, ph)
    ensures |hits| == buf.Length && forall k :: 0 <= k < |hits| ==> hits[k] == 1
  {
    var per := PerWorker(workers, ph / 2);
    buf := new byte[BufLen(pw, ph)](_ => 0);
    hits := seq(BufLen(pw, ph), _ => 0);
    var slices := PlanSlices(pw, ph, per);
    hits := RunChunks(src, w, h, pw, ph, buf, per, order, slices, hits);
    AllChunksAllPairs(buf[..], pw, ph, Plan420(src, w, h), per, order);
    ConvertedIsI420(buf[..], src, w, h, pw, ph);
    AllBytesHit(hits, pw, ph, per, order);
  }
}
