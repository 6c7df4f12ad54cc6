/**
 The AVC444v2 two-view layout (section 3.3.8.3.3 of MS-RDPEGFX): encoder side in
 linrdp/src/gfx_display.rs, `bgrx_to_yuv444v2` and `convert_rows_v2`, against a
 decoder that recombines the views.
 */
module Yuv444v2 {
  import opened Prelude
  import opened Geometry
  import opened Frames
  import opened Planes
  import opened Bt709
  import opened Yuv420

  /** The nearest real pixel: the padding replicates the frame's edge. */
  function NearestPixel(src: seq<byte>, w: nat, h: nat, x: nat, y: nat): (p: Rgb)
    requires IsFrame(src, w, h) && w > 0 && h > 0
    ensures Is8Bit(p)
  {
    var c := ColourAt(src, w, h, Px(Min(x, w - 1), Min(y, h - 1)));
    Rgb(c.r, c.g, c.b)
  }

  /** Full-resolution samples of a frame, by column and row. */
  datatype Yuv = Yuv(y: (nat, nat) -> byte, u: (nat, nat) -> byte, v: (nat, nat) -> byte)

  /** `yuv_at`: the padded frame in Y, U and V. */
  function YuvOf(src: seq<byte>, w: nat, h: nat): Yuv
    requires IsFrame(src, w, h) && w > 0 && h > 0
  {
    Yuv((x, y) => Luma(NearestPixel(src, w, h, x, y)),
        (x, y) => Cb(NearestPixel(src, w, h, x, y)),
        (x, y) => Cr(NearestPixel(src, w, h, x, y)))
  }

  /** Mean of four samples, rounded down (`u_sum / 4`, `v8_mean`). */
  function Mean4(a: byte, b: byte, c: byte, d: byte): byte { (a + b + c + d) / 4 }

  function BlockMeans(f: (nat, nat) -> byte, j: nat): nat -> byte {
    (i: nat) => Mean4(f(2 * i, 2 * j), f(2 * i + 1, 2 * j), f(2 * i, 2 * j + 1), f(2 * i + 1, 2 * j + 1))
  }

  function SampleRow(f: (nat, nat) -> byte, y: nat): nat -> byte { (x: nat) => f(x, y) }

  /** The luma view: full-resolution Y and 2x2 means of U and V. */
  function LumaView(p: Yuv): nat -> PairRows {
    (j: nat) => PairRows(SampleRow(p.y, 2 * j), SampleRow(p.y, 2 * j + 1), BlockMeans(p.u, j), BlockMeans(p.v, j))
  }

  /** Odd columns of row `y`: U in the left half, V in the right. */
  function OddColumns(p: Yuv, q: nat, y: nat): nat -> byte {
    (c: nat) => if c < 2 * q then p.u(2 * c + 1, y) else p.v(2 * (c - 2 * q) + 1, y)
  }

  /** Every fourth column of row `y` from `first`: U left, V right. */
  function FourthColumns(p: Yuv, q: nat, first: nat, y: nat): nat -> byte {
    (c: nat) => if c < q then p.u(4 * c + first, y) else p.v(4 * (c - q) + first, y)
  }

  /** The chroma view of a `4 * q` wide frame: odd columns of both rows in its Y
      plane, the even columns of the odd row in its U (0, 4, 8, ...) and V
      (2, 6, 10, ...) planes. */
  function ChromaView(p: Yuv, q: nat): nat -> PairRows {
    (j: nat) => PairRows(OddColumns(p, q, 2 * j), OddColumns(p, q, 2 * j + 1),
                         FourthColumns(p, q, 0, 2 * j + 1), FourthColumns(p, q, 2, 2 * j + 1))
  }

  // ----- Writing the chroma view -----

  /** The first `n` bytes of both halves of a row are done. */
  ghost predicate HalvesAre(s: seq<byte>, at: int, half: int, n: int, f: nat -> byte) {
    && 0 <= at && at + half + n <= |s| && n <= half
    && forall c: nat {:trigger f(c)} :: c < n || half <= c < half + n ==> s[at + c] == f(c)
  }

  /** Byte `n` of both halves. */
  function PutHalves(s: seq<byte>, at: int, half: int, n: nat, f: nat -> byte): (t: seq<byte>)
    requires 0 <= at && n < half && at + 2 * half <= |s|
    ensures |t| == |s|
  {
    s[at + n := f(n)][at + half + n := f(half + n)]
  }

  lemma PutHalvesExtends(s: seq<byte>, at: int, half: int, n: nat, f: nat -> byte)
    requires HalvesAre(s, at, half, n, f) && n < half && at + 2 * half <= |s|
    ensures HalvesAre(PutHalves(s, at, half, n, f), at, half, n + 1, f)
  {
  }

  /** Writing the halves of one row keeps what is known of another. */
  lemma PutHalvesElsewhere(s: seq<byte>, at: int, half: int, n: nat, f: nat -> byte, at': int, half': int, n': int, f': nat -> byte)
    requires 0 <= at && n < half && at + 2 * half <= |s|
    requires HalvesAre(s, at', half', n', f') && (at + 2 * half <= at' || at' + 2 * half' <= at)
    ensures HalvesAre(PutHalves(s, at, half, n, f), at', half', n', f')
  {
  }

  /** Progress on one pair of a `4 * q` wide frame: `x2` column pairs done. */
  ghost predicate ChromaUpTo(s: seq<byte>, q: nat, y0: nat, u0: nat, v0: nat, x2: nat, rows: PairRows) {
    && HalvesAre(s, y0, 2 * q, x2, rows.even) && HalvesAre(s, y0 + 4 * q, 2 * q, x2, rows.odd)
    && HalvesAre(s, u0, q, (x2 + 1) / 2, rows.cb) && HalvesAre(s, v0, q, x2 / 2, rows.cr)
  }

  predicate PairFits(len: nat, q: nat, y0: nat, u0: nat, v0: nat) {
    y0 + 8 * q <= u0 && u0 + 2 * q <= v0 && v0 + 2 * q <= len
  }

  /** The chroma-view bytes of column pair `x2`: two in each Y row, two in the U
      plane (even `x2`) or the V plane (odd `x2`). */
  function PutChroma(s: seq<byte>, q: nat, y0: nat, u0: nat, v0: nat, x2: nat, rows: PairRows): (t: seq<byte>)
    requires x2 < 2 * q && PairFits(|s|, q, y0, u0, v0)
    ensures |t| == |s|
  {
    PutPlane(PutLumaRows(s, q, y0, x2, rows), q, y0, u0, v0, x2, rows)
  }

  function PutLumaRows(s: seq<byte>, q: nat, y0: nat, x2: nat, rows: PairRows): (t: seq<byte>)
    requires x2 < 2 * q && y0 + 8 * q <= |s|
    ensures |t| == |s|
  {
    PutHalves(PutHalves(s, y0, 2 * q, x2, rows.even), y0 + 4 * q, 2 * q, x2, rows.odd)
  }

  function PutPlane(s: seq<byte>, q: nat, y0: nat, u0: nat, v0: nat, x2: nat, rows: PairRows): (t: seq<byte>)
    requires x2 < 2 * q && PairFits(|s|, q, y0, u0, v0)
    ensures |t| == |s|
  {
    if x2 % 2 == 0 then PutHalves(s, u0, q, x2 / 2, rows.cb) else PutHalves(s, v0, q, x2 / 2, rows.cr)
  }

  // Each row of a pair, through the three steps of `PutChroma`.

  lemma EvenRowNext(s: seq<byte>, q: nat, y0: nat, u0: nat, v0: nat, x2: nat, rows: PairRows)
    requires x2 < 2 * q && PairFits(|s|, q, y0, u0, v0) && HalvesAre(s, y0, 2 * q, x2, rows.even)
    ensures HalvesAre(PutChroma(s, q, y0, u0, v0, x2, rows), y0, 2 * q, x2 + 1, rows.even)
  {
    var a := PutHalves(s, y0, 2 * q, x2, rows.even);
    var b := PutHalves(a, y0 + 4 * q, 2 * q, x2, rows.odd);
    PutHalvesExtends(s, y0, 2 * q, x2, rows.even);
    PutHalvesElsewhere(a, y0 + 4 * q, 2 * q, x2, rows.odd, y0, 2 * q, x2 + 1, rows.even);
    PutPlaneElsewhere(b, q, y0, u0, v0, x2, rows, y0, rows.even);
  }

  lemma OddRowNext(s: seq<byte>, q: nat, y0: nat, u0: nat, v0: nat, x2: nat, rows: PairRows)
    requires x2 < 2 * q && PairFits(|s|, q, y0, u0, v0) && HalvesAre(s, y0 + 4 * q, 2 * q, x2, rows.odd)
    ensures HalvesAre(PutChroma(s, q, y0, u0, v0, x2, rows), y0 + 4 * q, 2 * q, x2 + 1, rows.odd)
  {
    var a := PutHalves(s, y0, 2 * q, x2, rows.even);
    var b := PutHalves(a, y0 + 4 * q, 2 * q, x2, rows.odd);
    PutHalvesElsewhere(s, y0, 2 * q, x2, rows.even, y0 + 4 * q, 2 * q, x2, rows.odd);
    PutHalvesExtends(a, y0 + 4 * q, 2 * q, x2, rows.odd);
    PutPlaneElsewhere(b, q, y0, u0, v0, x2, rows, y0 + 4 * q, rows.odd);
  }

  /** The last step leaves the luma rows alone. */
  lemma PutPlaneElsewhere(b: seq<byte>, q: nat, y0: nat, u0: nat, v0: nat, x2: nat, rows: PairRows, at: int, f: nat -> byte)
    requires x2 < 2 * q && PairFits(|b|, q, y0, u0, v0) && HalvesAre(b, at, 2 * q, x2 + 1, f) && at + 4 * q <= u0
    ensures HalvesAre(PutPlane(b, q, y0, u0, v0, x2, rows), at, 2 * q, x2 + 1, f)
  {
    if x2 % 2 == 0 {
      PutHalvesElsewhere(b, u0, q, x2 / 2, rows.cb, at, 2 * q, x2 + 1, f);
    } else {
      PutHalvesElsewhere(b, v0, q, x2 / 2, rows.cr, at, 2 * q, x2 + 1, f);
    }
  }

  /** The first two steps leave the chroma rows alone. */
  lemma LumaStepsKeep(s: seq<byte>, q: nat, y0: nat, x2: nat, rows: PairRows, at: int, n: int, f: nat -> byte)
    requires x2 < 2 * q && y0 + 8 * q <= at <= |s| && HalvesAre(s, at, q, n, f)
    ensures HalvesAre(PutLumaRows(s, q, y0, x2, rows), at, q, n, f)
  {
    PutHalvesElsewhere(s, y0, 2 * q, x2, rows.even, at, q, n, f);
    PutHalvesElsewhere(PutHalves(s, y0, 2 * q, x2, rows.even), y0 + 4 * q, 2 * q, x2, rows.odd, at, q, n, f);
  }

  lemma CbRowNext(s: seq<byte>, q: nat, y0: nat, u0: nat, v0: nat, x2: nat, rows: PairRows)
    requires x2 < 2 * q && PairFits(|s|, q, y0, u0, v0) && HalvesAre(s, u0, q, (x2 + 1) / 2, rows.cb)
    ensures HalvesAre(PutChroma(s, q, y0, u0, v0, x2, rows), u0, q, (x2 + 2) / 2, rows.cb)
  {
    var b, n := PutLumaRows(s, q, y0, x2, rows), x2 / 2;
    LumaStepsKeep(s, q, y0, x2, rows, u0, (x2 + 1) / 2, rows.cb);
    if x2 % 2 == 0 {
      assert (x2 + 1) / 2 == n && (x2 + 2) / 2 == n + 1;
      PutHalvesExtends(b, u0, q, n, rows.cb);
    } else {
      assert (x2 + 1) / 2 == n + 1 && (x2 + 2) / 2 == n + 1;
      PutHalvesElsewhere(b, v0, q, n, rows.cr, u0, q, n + 1, rows.cb);
    }
  }

  lemma CrRowNext(s: seq<byte>, q: nat, y0: nat, u0: nat, v0: nat, x2: nat, rows: PairRows)
    requires x2 < 2 * q && PairFits(|s|, q, y0, u0, v0) && HalvesAre(s, v0, q, x2 / 2, rows.cr)
    ensures HalvesAre(PutChroma(s, q, y0, u0, v0, x2, rows), v0, q, (x2 + 1) / 2, rows.cr)
  {
    var b, n := PutLumaRows(s, q, y0, x2, rows), x2 / 2;
    LumaStepsKeep(s, q, y0, x2, rows, v0, n, rows.cr);
    if x2 % 2 == 0 {
      assert (x2 + 1) / 2 == n;
      PutHalvesElsewhere(b, u0, q, n, rows.cb, v0, q, n, rows.cr);
    } else {
      assert (x2 + 1) / 2 == n + 1;
      PutHalvesExtends(b, v0, q, n, rows.cr);
    }
  }

  lemma PutChromaExtends(s: seq<byte>, q: nat, y0: nat, u0: nat, v0: nat, x2: nat, rows: PairRows)
    requires x2 < 2 * q && PairFits(|s|, q, y0, u0, v0) && ChromaUpTo(s, q, y0, u0, v0, x2, rows)
    ensures ChromaUpTo(PutChroma(s, q, y0, u0, v0, x2, rows), q, y0, u0, v0, x2 + 1, rows)
  {
    EvenRowNext(s, q, y0, u0, v0, x2, rows);
    OddRowNext(s, q, y0, u0, v0, x2, rows);
    CbRowNext(s, q, y0, u0, v0, x2, rows);
    CrRowNext(s, q, y0, u0, v0, x2, rows);
  }

  lemma PutHalvesInside(was: seq<byte>, s: seq<byte>, at: int, half: int, n: nat, f: nat -> byte, y0: int, yn: int, u0: int, v0: int, m: int)
    requires 0 <= at && n < half && at + 2 * half <= |s| && OnlyIn(s, was, y0, yn, u0, v0, m)
    requires InPair(at + n, y0, yn, u0, v0, m) && InPair(at + half + n, y0, yn, u0, v0, m)
    ensures OnlyIn(PutHalves(s, at, half, n, f), was, y0, yn, u0, v0, m)
  {
  }

  /** Both writers stay inside the rows of the pair. */
  lemma ChromaStaysInside(was: seq<byte>, s: seq<byte>, q: nat, y0: nat, u0: nat, v0: nat, x2: nat, rows: PairRows)
    requires x2 < 2 * q && PairFits(|s|, q, y0, u0, v0) && OnlyIn(s, was, y0, 8 * q, u0, v0, 2 * q)
    ensures OnlyIn(PutChroma(s, q, y0, u0, v0, x2, rows), was, y0, 8 * q, u0, v0, 2 * q)
  {
    var a := PutHalves(s, y0, 2 * q, x2, rows.even);
    var b := PutHalves(a, y0 + 4 * q, 2 * q, x2, rows.odd);
    PutHalvesInside(was, s, y0, 2 * q, x2, rows.even, y0, 8 * q, u0, v0, 2 * q);
    PutHalvesInside(was, a, y0 + 4 * q, 2 * q, x2, rows.odd, y0, 8 * q, u0, v0, 2 * q);
    if x2 % 2 == 0 {
      PutHalvesInside(was, b, u0, q, x2 / 2, rows.cb, y0, 8 * q, u0, v0, 2 * q);
    } else {
      PutHalvesInside(was, b, v0, q, x2 / 2, rows.cr, y0, 8 * q, u0, v0, 2 * q);
    }
  }

  lemma BlockStaysInside(was: seq<byte>, s: seq<byte>, q: nat, y0: nat, u0: nat, v0: nat, x2: nat, rows: PairRows)
    requires x2 < 2 * q && PairFits(|s|, q, y0, u0, v0) && OnlyIn(s, was, y0, 8 * q, u0, v0, 2 * q)
    ensures OnlyIn(PutBlock(s, 4 * q, y0, u0, v0, x2, rows), was, y0, 8 * q, u0, v0, 2 * q)
  {
  }

  lemma ChromaDone(s: seq<byte>, q: nat, y0: nat, u0: nat, v0: nat, rows: PairRows)
    requires ChromaUpTo(s, q, y0, u0, v0, 2 * q, rows)
    ensures PairIs(s, 4 * q, y0, u0, v0, rows)
  {
  }

  // ----- Counting the stores of the chroma view -----

  predicate InHalves(k: int, at: int, half: int, n: int) { at <= k < at + n || at + half <= k < at + half + n }

  /** A chroma-view byte of the first `x2` column pairs. */
  predicate InChroma(k: int, q: nat, y0: nat, u0: nat, v0: nat, x2: nat) {
    || InHalves(k, y0, 2 * q, x2) || InHalves(k, y0 + 4 * q, 2 * q, x2)
    || InHalves(k, u0, q, (x2 + 1) / 2) || InHalves(k, v0, q, x2 / 2)
  }

  /** One more store for each byte of the first `x2` column pairs. */
  ghost predicate ChromaHit(now: seq<nat>, was: seq<nat>, q: nat, y0: nat, u0: nat, v0: nat, x2: nat) {
    && |now| == |was|
    && forall k :: 0 <= k < |was| ==> now[k] == was[k] + if InChroma(k, q, y0, u0, v0, x2) then 1 else 0
  }

  function HitHalves(hits: seq<nat>, at: int, half: int, n: nat): (now: seq<nat>)
    requires 0 <= at && n < half && at + 2 * half <= |hits|
    ensures |now| == |hits|
  {
    Hit(Hit(hits, at + n), at + half + n)
  }

  function HitColumns(hits: seq<nat>, q: nat, y0: nat, u0: nat, v0: nat, x2: nat): (now: seq<nat>)
    requires x2 < 2 * q && PairFits(|hits|, q, y0, u0, v0)
    ensures |now| == |hits|
  {
    var rows := HitHalves(HitHalves(hits, y0, 2 * q, x2), y0 + 4 * q, 2 * q, x2);
    HitHalves(rows, if x2 % 2 == 0 then u0 else v0, q, x2 / 2)
  }

  /** The six stores of a column pair go to six bytes. */
  lemma HitColumnsAt(hits: seq<nat>, q: nat, y0: nat, u0: nat, v0: nat, x2: nat, k: int)
    requires x2 < 2 * q && PairFits(|hits|, q, y0, u0, v0) && 0 <= k < |hits|
    ensures var p0 := if x2 % 2 == 0 then u0 else v0;
            var here := k == y0 + x2 || k == y0 + 2 * q + x2 || k == y0 + 4 * q + x2 || k == y0 + 6 * q + x2
                        || k == p0 + x2 / 2 || k == p0 + q + x2 / 2;
            HitColumns(hits, q, y0, u0, v0, x2)[k] == hits[k] + if here then 1 else 0
  {
  }

  /** They are the bytes column pair `x2` adds, and new ones. */
  lemma ColumnsAt(q: nat, y0: nat, u0: nat, v0: nat, x2: nat, k: int)
    requires x2 < 2 * q && y0 + 8 * q <= u0 && u0 + 2 * q <= v0
    ensures var p0 := if x2 % 2 == 0 then u0 else v0;
            var here := k == y0 + x2 || k == y0 + 2 * q + x2 || k == y0 + 4 * q + x2 || k == y0 + 6 * q + x2
                        || k == p0 + x2 / 2 || k == p0 + q + x2 / 2;
            && (InChroma(k, q, y0, u0, v0, x2 + 1) <==> InChroma(k, q, y0, u0, v0, x2) || here)
            && !(InChroma(k, q, y0, u0, v0, x2) && here)
  {
    var n := x2 / 2;
    if x2 % 2 == 0 {
      assert (x2 + 1) / 2 == n && (x2 + 2) / 2 == n + 1;
    } else {
      assert (x2 + 1) / 2 == n + 1 && (x2 + 2) / 2 == n + 1;
    }
  }

  lemma ChromaHitNext(now: seq<nat>, was: seq<nat>, q: nat, y0: nat, u0: nat, v0: nat, x2: nat)
    requires x2 < 2 * q && PairFits(|now|, q, y0, u0, v0) && ChromaHit(now, was, q, y0, u0, v0, x2)
    ensures ChromaHit(HitColumns(now, q, y0, u0, v0, x2), was, q, y0, u0, v0, x2 + 1)
  {
    var next := HitColumns(now, q, y0, u0, v0, x2);
    forall k | 0 <= k < |now|
      ensures next[k] == was[k] + if InChroma(k, q, y0, u0, v0, x2 + 1) then 1 else 0
    {
      HitColumnsAt(now, q, y0, u0, v0, x2, k);
      ColumnsAt(q, y0, u0, v0, x2, k);
    }
  }

  lemma AllChromaHit(now: seq<nat>, was: seq<nat>, q: nat, y0: nat, u0: nat, v0: nat)
    requires ChromaHit(now, was, q, y0, u0, v0, 2 * q)
    ensures PairHit(now, was, y0, 8 * q, u0, v0, 2 * q)
  {
    forall k | 0 <= k < |was| ensures InChroma(k, q, y0, u0, v0, 2 * q) <==> InPair(k, y0, 8 * q, u0, v0, 2 * q) {
      AllColumns(q, y0, u0, v0, k);
    }
  }

  lemma AllColumns(q: nat, y0: nat, u0: nat, v0: nat, k: int)
    ensures InChroma(k, q, y0, u0, v0, 2 * q) <==> InPair(k, y0, 8 * q, u0, v0, 2 * q)
  {
    assert (2 * q + 1) / 2 == q && (2 * q) / 2 == q;
  }

  // ----- Writing -----

  method StoreHalves(buf: array<byte>, at: int, half: int, n: nat, f: nat -> byte, ghost hits: seq<nat>)
    returns (ghost now: seq<nat>)
    requires 0 <= at && n < half && at + 2 * half <= buf.Length == |hits|
    modifies buf
    ensures buf[..] == PutHalves(old(buf[..]), at, half, n, f) && now == HitHalves(hits, at, half, n)
  {
    now := Store(buf, at + n, f(n), hits);
    now := Store(buf, at + half + n, f(half + n), now);
  }

  method WriteChroma(buf: array<byte>, q: nat, y0: nat, u0: nat, v0: nat, x2: nat, rows: PairRows, ghost hits: seq<nat>)
    returns (ghost now: seq<nat>)
    requires x2 < 2 * q && PairFits(buf.Length, q, y0, u0, v0) && |hits| == buf.Length
    modifies buf
    ensures buf[..] == PutChroma(old(buf[..]), q, y0, u0, v0, x2, rows)
    ensures now == HitColumns(hits, q, y0, u0, v0, x2)
  {
    now := StoreHalves(buf, y0, 2 * q, x2, rows.even, hits);
    now := StoreHalves(buf, y0 + 4 * q, 2 * q, x2, rows.odd, now);
    now := StorePlane(buf, q, y0, u0, v0, x2, rows, now);
  }

  method StorePlane(buf: array<byte>, q: nat, y0: nat, u0: nat, v0: nat, x2: nat, rows: PairRows, ghost hits: seq<nat>)
    returns (ghost now: seq<nat>)
    requires x2 < 2 * q && PairFits(buf.Length, q, y0, u0, v0) && |hits| == buf.Length
    modifies buf
    ensures buf[..] == PutPlane(old(buf[..]), q, y0, u0, v0, x2, rows)
    ensures now == HitHalves(hits, if x2 % 2 == 0 then u0 else v0, q, x2 / 2)
  {
    if x2 % 2 == 0 {
      now := StoreHalves(buf, u0, q, x2 / 2, rows.cb, hits);
    } else {
      now := StoreHalves(buf, v0, q, x2 / 2, rows.cr, hits);
    }
  }

  /** Store counts of the two views. */
  datatype Hits = Hits(luma: seq<nat>, chroma: seq<nat>)

  /** Progress on one row pair of a view: its bytes, nothing outside touched,
      its store counts. */
  ghost predicate LumaProgress(l: seq<byte>, was: seq<byte>, hits: seq<nat>, hitsWas: seq<nat>, q: nat, y0: nat, u0: nat,
                               v0: nat, x2: nat, rows: PairRows) {
    && PairUpTo(l, 4 * q, y0, u0, v0, x2, rows) && OnlyIn(l, was, y0, 8 * q, u0, v0, 2 * q)
    && BlocksHit(hits, hitsWas, 4 * q, y0, u0, v0, x2)
  }

  ghost predicate ChromaProgress(c: seq<byte>, was: seq<byte>, hits: seq<nat>, hitsWas: seq<nat>, q: nat, y0: nat, u0: nat,
                                 v0: nat, x2: nat, rows: PairRows) {
    && ChromaUpTo(c, q, y0, u0, v0, x2, rows) && OnlyIn(c, was, y0, 8 * q, u0, v0, 2 * q)
    && ChromaHit(hits, hitsWas, q, y0, u0, v0, x2)
  }

  lemma LumaNext(l: seq<byte>, was: seq<byte>, hits: seq<nat>, hitsWas: seq<nat>, q: nat, y0: nat, u0: nat, v0: nat,
                 x2: nat, rows: PairRows)
    requires x2 < 2 * q && PairFits(|l|, q, y0, u0, v0) && |hits| == |l|
    requires LumaProgress(l, was, hits, hitsWas, q, y0, u0, v0, x2, rows)
    ensures LumaProgress(PutBlock(l, 4 * q, y0, u0, v0, x2, rows), was, HitBlock(hits, 4 * q, y0, u0, v0, x2), hitsWas,
                         q, y0, u0, v0, x2 + 1, rows)
  {
    PutBlockExtends(l, 4 * q, y0, u0, v0, x2, rows);
    BlockStaysInside(was, l, q, y0, u0, v0, x2, rows);
    BlocksHitNext(hits, hitsWas, 4 * q, y0, u0, v0, x2);
  }

  lemma ChromaNext(c: seq<byte>, was: seq<byte>, hits: seq<nat>, hitsWas: seq<nat>, q: nat, y0: nat, u0: nat, v0: nat,
                   x2: nat, rows: PairRows)
    requires x2 < 2 * q && PairFits(|c|, q, y0, u0, v0) && |hits| == |c|
    requires ChromaProgress(c, was, hits, hitsWas, q, y0, u0, v0, x2, rows)
    ensures ChromaProgress(PutChroma(c, q, y0, u0, v0, x2, rows), was, HitColumns(hits, q, y0, u0, v0, x2), hitsWas,
                           q, y0, u0, v0, x2 + 1, rows)
  {
    PutChromaExtends(c, q, y0, u0, v0, x2, rows);
    ChromaStaysInside(was, c, q, y0, u0, v0, x2, rows);
    ChromaHitNext(hits, hitsWas, q, y0, u0, v0, x2);
  }

  /** One iteration (j, x2) of the inner loop of `convert_rows_v2`. */
  method WriteBoth(luma: array<byte>, chroma: array<byte>, q: nat, y0: nat, u0: nat, v0: nat, x2: nat, l: PairRows,
                   c: PairRows, ghost hits: Hits) returns (ghost now: Hits)
    requires luma != chroma && x2 < 2 * q && PairFits(luma.Length, q, y0, u0, v0)
    requires luma.Length == chroma.Length == |hits.luma| == |hits.chroma|
    modifies luma, chroma
    ensures luma[..] == PutBlock(old(luma[..]), 4 * q, y0, u0, v0, x2, l)
    ensures chroma[..] == PutChroma(old(chroma[..]), q, y0, u0, v0, x2, c)
    ensures now == Hits(HitBlock(hits.luma, 4 * q, y0, u0, v0, x2), HitColumns(hits.chroma, q, y0, u0, v0, x2))
  {
    ghost var lumaNow := WriteBlock(luma, 4 * q, y0, u0, v0, x2, l, hits.luma);
    ghost var chromaNow := WriteChroma(chroma, q, y0, u0, v0, x2, c, hits.chroma);
    now := Hits(lumaNow, chromaNow);
  }

  /** The inner loop of `convert_rows_v2`: one row pair of both views. */
  method FillPairV2(luma: array<byte>, chroma: array<byte>, q: nat, y0: nat, u0: nat, v0: nat, l: PairRows, c: PairRows,
                    ghost hits: Hits) returns (ghost now: Hits)
    requires luma != chroma && PairFits(luma.Length, q, y0, u0, v0)
    requires luma.Length == chroma.Length == |hits.luma| == |hits.chroma|
    modifies luma, chroma
    ensures LumaProgress(luma[..], old(luma[..]), now.luma, hits.luma, q, y0, u0, v0, 2 * q, l)
    ensures ChromaProgress(chroma[..], old(chroma[..]), now.chroma, hits.chroma, q, y0, u0, v0, 2 * q, c)
  {
    ghost var lumaWas, chromaWas := luma[..], chroma[..];
    now := hits;
    var x2 := 0;
    while x2 < 2 * q
      invariant 0 <= x2 <= 2 * q
      invariant LumaProgress(luma[..], lumaWas, now.luma, hits.luma, q, y0, u0, v0, x2, l)
      invariant ChromaProgress(chroma[..], chromaWas, now.chroma, hits.chroma, q, y0, u0, v0, x2, c)
    {
      LumaNext(luma[..], lumaWas, now.luma, hits.luma, q, y0, u0, v0, x2, l);
      ChromaNext(chroma[..], chromaWas, now.chroma, hits.chroma, q, y0, u0, v0, x2, c);
      now := WriteBoth(luma, chroma, q, y0, u0, v0, x2, l, c, now);
      x2 := x2 + 1;
    }
  }

  /** Row pairs `j0..j1` of a view are done, and only they. */
  ghost predicate Finished(now: seq<byte>, was: seq<byte>, hits: seq<nat>, hitsWas: seq<nat>, q: nat, ph: nat,
                           plan: nat -> PairRows, j0: nat, j1: nat) {
    RowsDone(now, was, 4 * q, ph, plan, j0, j1) && RowsHit(hits, hitsWas, 4 * q, ph, j0, j1)
  }

  lemma LumaPairDone(now: seq<byte>, was: seq<byte>, hits: seq<nat>, hitsWas: seq<nat>, q: nat, ph: nat,
                     plan: nat -> PairRows, j: nat)
    requires LumaProgress(now, was, hits, hitsWas, q, YOff(4 * q, j), UOff(4 * q, ph, j), VOff(4 * q, ph, j), 2 * q, plan(j))
    ensures Finished(now, was, hits, hitsWas, q, ph, plan, j, j + 1)
  {
    AllBlocksHit(hits, hitsWas, 4 * q, YOff(4 * q, j), UOff(4 * q, ph, j), VOff(4 * q, ph, j));
    OnePairDone(now, was, 4 * q, ph, plan, j);
    OnePairHit(hits, hitsWas, 4 * q, ph, j);
  }

  lemma ChromaPairDone(now: seq<byte>, was: seq<byte>, hits: seq<nat>, hitsWas: seq<nat>, q: nat, ph: nat,
                       plan: nat -> PairRows, j: nat)
    requires ChromaProgress(now, was, hits, hitsWas, q, YOff(4 * q, j), UOff(4 * q, ph, j), VOff(4 * q, ph, j), 2 * q, plan(j))
    ensures Finished(now, was, hits, hitsWas, q, ph, plan, j, j + 1)
  {
    ChromaDone(now, q, YOff(4 * q, j), UOff(4 * q, ph, j), VOff(4 * q, ph, j), plan(j));
    AllChromaHit(hits, hitsWas, q, YOff(4 * q, j), UOff(4 * q, ph, j), VOff(4 * q, ph, j));
    OnePairDone(now, was, 4 * q, ph, plan, j);
    OnePairHit(hits, hitsWas, 4 * q, ph, j);
  }

  lemma FinishedNext(start: seq<byte>, was: seq<byte>, now: seq<byte>, hitsStart: seq<nat>, hitsWas: seq<nat>,
                     hits: seq<nat>, q: nat, ph: nat, plan: nat -> PairRows, j0: nat, j: nat)
    requires ph % 2 == 0 && j0 <= j < ph / 2
    requires Finished(was, start, hitsWas, hitsStart, q, ph, plan, j0, j)
    requires Finished(now, was, hits, hitsWas, q, ph, plan, j, j + 1)
    ensures Finished(now, start, hits, hitsStart, q, ph, plan, j0, j + 1)
  {
    RowsDoneNext(start, was, now, 4 * q, ph, plan, j0, j);
    RowsHitNext(hitsStart, hitsWas, hits, 4 * q, ph, j0, j);
  }

  /** Row pair `j` of both views. */
  method ConvertPairV2(luma: array<byte>, chroma: array<byte>, q: nat, ph: nat, j: nat, y0: nat, u0: nat, v0: nat,
                       lumaPlan: nat -> PairRows, chromaPlan: nat -> PairRows, ghost hits: Hits) returns (ghost now: Hits)
    requires luma != chroma && luma.Length == chroma.Length == BufLen(4 * q, ph) && ph % 2 == 0 && j < ph / 2
    requires luma.Length == |hits.luma| == |hits.chroma|
    requires y0 == YOff(4 * q, j) && u0 == UOff(4 * q, ph, j) && v0 == VOff(4 * q, ph, j)
    modifies luma, chroma
    ensures Finished(luma[..], old(luma[..]), now.luma, hits.luma, q, ph, lumaPlan, j, j + 1)
    ensures Finished(chroma[..], old(chroma[..]), now.chroma, hits.chroma, q, ph, chromaPlan, j, j + 1)
  {
    OffsetsOrdered(4 * q, ph, j);
    now := FillPairV2(luma, chroma, q, y0, u0, v0, lumaPlan(j), chromaPlan(j), hits);
    LumaPairDone(luma[..], old(luma[..]), now.luma, hits.luma, q, ph, lumaPlan, j);
    ChromaPairDone(chroma[..], old(chroma[..]), now.chroma, hits.chroma, q, ph, chromaPlan, j);
  }

  /** One worker on row pairs `j0..j1` of both views of a `4 * q` wide frame. */
  method ConvertRowsV2(src: seq<byte>, w: nat, h: nat, q: nat, ph: nat, luma: array<byte>, chroma: array<byte>,
                       j0: nat, j1: nat, yBase: nat, uBase: nat, vBase: nat, ghost hits: Hits) returns (ghost now: Hits)
    requires IsFrame(src, w, h) && w > 0 && h > 0 && ph % 2 == 0 && j0 <= j1 <= ph / 2
    requires luma != chroma && luma.Length == chroma.Length == BufLen(4 * q, ph) == |hits.luma| == |hits.chroma|
    requires yBase == YOff(4 * q, j0) && uBase == UOff(4 * q, ph, j0) && vBase == VOff(4 * q, ph, j0)
    modifies luma, chroma
    ensures Finished(luma[..], old(luma[..]), now.luma, hits.luma, q, ph, LumaView(YuvOf(src, w, h)), j0, j1)
    ensures Finished(chroma[..], old(chroma[..]), now.chroma, hits.chroma, q, ph, ChromaView(YuvOf(src, w, h), q), j0, j1)
  {
    var lumaPlan, chromaPlan := LumaView(YuvOf(src, w, h)), ChromaView(YuvOf(src, w, h), q);
    ghost var lumaStart, chromaStart := luma[..], chroma[..];
    now := hits;
    NoRowsHit(hits.luma, luma[..], 4 * q, ph, lumaPlan, j0);
    NoRowsHit(hits.chroma, chroma[..], 4 * q, ph, chromaPlan, j0);
    var j := j0;
    while j < j1
      invariant j0 <= j <= j1
      invariant Finished(luma[..], lumaStart, now.luma, hits.luma, q, ph, lumaPlan, j0, j)
      invariant Finished(chroma[..], chromaStart, now.chroma, hits.chroma, q, ph, chromaPlan, j0, j)
    {
      ghost var lumaWas, chromaWas, was := luma[..], chroma[..], now;
      LocalOffsets(4 * q, ph, j0, j - j0);
      now := ConvertPairV2(luma, chroma, q, ph, j, yBase + (j - j0) * (2 * (4 * q)), uBase + (j - j0) * (4 * q / 2),
                           vBase + (j - j0) * (4 * q / 2), lumaPlan, chromaPlan, now);
      FinishedNext(lumaStart, lumaWas, luma[..], hits.luma, was.luma, now.luma, q, ph, lumaPlan, j0, j);
      FinishedNext(chromaStart, chromaWas, chroma[..], hits.chroma, was.chroma, now.chroma, q, ph, chromaPlan, j0, j);
      j := j + 1;
    }
  }

  /** One thread on chunk `c` of both views. */
  method RunChunkV2(src: seq<byte>, w: nat, h: nat, q: nat, ph: nat, luma: array<byte>, chroma: array<byte>,
                    per: nat, c: nat, s: Slices, ghost hits: Hits) returns (ghost now: Hits)
    requires IsFrame(src, w, h) && w > 0 && h > 0 && ph % 2 == 0 && per > 0 && c < ChunkCount(per, ph / 2)
    requires luma != chroma && luma.Length == chroma.Length == BufLen(4 * q, ph) == |hits.luma| == |hits.chroma|
    requires AreSlices(s, 4 * q, ph, per, c)
    modifies luma, chroma
    ensures c * per <= ph / 2
    ensures Finished(luma[..], old(luma[..]), now.luma, hits.luma, q, ph, LumaView(YuvOf(src, w, h)), c * per,
                     ChunkEnd(per, ph / 2, c))
    ensures Finished(chroma[..], old(chroma[..]), now.chroma, hits.chroma, q, ph, ChromaView(YuvOf(src, w, h), q), c * per,
                     ChunkEnd(per, ph / 2, c))
  {
    var j0, j1, y, u, v := ChunkBases(s, 4 * q, ph, per, c);
    now := ConvertRowsV2(src, w, h, q, ph, luma, chroma, j0, j1, y, u, v, hits);
  }

  /** The chunks of a view finished so far. */
  ghost predicate ViewDone(s: seq<byte>, hits: seq<nat>, q: nat, ph: nat, plan: nat -> PairRows, per: nat, order: seq<nat>) {
    ChunksDone(s, 4 * q, ph, plan, per, order) && ChunksHit(hits, 4 * q, ph, per, order)
  }

  lemma ViewDoneNext(now: seq<byte>, was: seq<byte>, hits: seq<nat>, hitsWas: seq<nat>, q: nat, ph: nat,
                     plan: nat -> PairRows, per: nat, order: seq<nat>, c: nat)
    requires ph % 2 == 0 && per > 0 && c * per <= ph / 2 && c !in order && ViewDone(was, hitsWas, q, ph, plan, per, order)
    requires forall i :: 0 <= i < |order| ==> order[i] < ChunkCount(per, ph / 2)
    requires Finished(now, was, hits, hitsWas, q, ph, plan, c * per, ChunkEnd(per, ph / 2, c))
    ensures ViewDone(now, hits, q, ph, plan, per, order + [c])
  {
    ChunksStart(order, per, ph / 2);
    ChunksDoneNext(now, was, 4 * q, ph, plan, per, order, c);
    ChunksHitNext(hits, hitsWas, 4 * q, ph, per, order, c);
  }

  method RunChunksV2(src: seq<byte>, w: nat, h: nat, q: nat, ph: nat, luma: array<byte>, chroma: array<byte>,
                     per: nat, order: seq<nat>, slices: seq<Slices>, ghost hits: Hits) returns (ghost now: Hits)
    requires IsFrame(src, w, h) && w > 0 && h > 0 && ph % 2 == 0 && per > 0
    requires luma != chroma && luma.Length == chroma.Length == BufLen(4 * q, ph)
    requires |slices| == ChunkCount(per, ph / 2) && IsOrder(order, |slices|)
    requires forall c :: 0 <= c < |slices| ==> AreSlices(slices[c], 4 * q, ph, per, c)
    requires ChunksHit(hits.luma, 4 * q, ph, per, []) && ChunksHit(hits.chroma, 4 * q, ph, per, [])
    modifies luma, chroma
    ensures ViewDone(luma[..], now.luma, q, ph, LumaView(YuvOf(src, w, h)), per, order)
    ensures ViewDone(chroma[..], now.chroma, q, ph, ChromaView(YuvOf(src, w, h), q), per, order)
  {
    ghost var lumaPlan, chromaPlan := LumaView(YuvOf(src, w, h)), ChromaView(YuvOf(src, w, h), q);
    now := hits;
    var done := 0;
    assert order[..0] == [];
    while done < |order|
      invariant 0 <= done <= |order|
      invariant ViewDone(luma[..], now.luma, q, ph, lumaPlan, per, order[..done])
      invariant ViewDone(chroma[..], now.chroma, q, ph, chromaPlan, per, order[..done])
    {
      ghost var lumaWas, chromaWas, was := luma[..], chroma[..], now;
      OrderNext(order, |slices|, done);
      var c := order[done];
      now := RunChunkV2(src, w, h, q, ph, luma, chroma, per, c, slices[c], now);
      ViewDoneNext(luma[..], lumaWas, now.luma, was.luma, q, ph, lumaPlan, per, order[..done], c);
      ViewDoneNext(chroma[..], chromaWas, now.chroma, was.chroma, q, ph, chromaPlan, per, order[..done], c);
      done := done + 1;
    }
    assert order[..done] == order;
  }

  lemma ViewComplete(s: seq<byte>, hits: seq<nat>, q: nat, ph: nat, plan: nat -> PairRows, per: nat, order: seq<nat>)
    requires ph % 2 == 0 && per > 0 && ViewDone(s, hits, q, ph, plan, per, order)
    requires IsOrder(order, ChunkCount(per, ph / 2))
    ensures Converted(s, 4 * q, ph, plan) && |hits| == |s| && forall k :: 0 <= k < |hits| ==> hits[k] == 1
  {
    AllChunksAllPairs(s, 4 * q, ph, plan, per, order);
    AllBytesHit(hits, 4 * q, ph, per, order);
  }

  // ----- The two views in numbers -----

  /** `v` holds the blue (or with `right` the red) difference of the pixel. */
  ghost predicate Difference(v: byte, src: seq<byte>, w: nat, h: nat, x: nat, y: nat, right: bool)
    requires IsFrame(src, w, h) && w > 0 && h > 0
  {
    var r, g, b := Edged(src, w, h, x, y, 2), Edged(src, w, h, x, y, 1), Edged(src, w, h, x, y, 0);
    if right then IsCr(v, 1, 2, r, g, b) else IsCb(v, 1, 2, r, g, b)
  }

  ghost predicate MainLuma(s: seq<byte>, src: seq<byte>, w: nat, h: nat, pw: nat, x: nat, y: nat)
    requires IsFrame(src, w, h) && w > 0 && h > 0
  {
    && YAt(pw, x, y) < |s|
    && IsY(s[YAt(pw, x, y)], Edged(src, w, h, x, y, 2), Edged(src, w, h, x, y, 1), Edged(src, w, h, x, y, 0))
  }

  ghost predicate MainChroma(s: seq<byte>, src: seq<byte>, w: nat, h: nat, pw: nat, ph: nat, i: nat, j: nat)
    requires IsFrame(src, w, h) && w > 0 && h > 0
  {
    var r, g, b := EdgedBlock(src, w, h, i, j, 2), EdgedBlock(src, w, h, i, j, 1), EdgedBlock(src, w, h, i, j, 0);
    && UAt(pw, ph, i, j) < |s| && VAt(pw, ph, i, j) < |s|
    && IsCb(s[UAt(pw, ph, i, j)], 4, 3, r, g, b) && IsCr(s[VAt(pw, ph, i, j)], 4, 3, r, g, b)
  }

  /** The luma view: a luma byte for each pixel, the edge repeated beyond the
      frame, and the mean differences of each 2x2 block. */
  ghost predicate IsMainView(s: seq<byte>, src: seq<byte>, w: nat, h: nat, pw: nat, ph: nat)
    requires IsFrame(src, w, h) && w > 0 && h > 0
  {
    && (forall x: nat, y: nat :: x < pw && y < ph ==> MainLuma(s, src, w, h, pw, x, y))
    && (forall i: nat, j: nat :: i < pw / 2 && j < ph / 2 ==> MainChroma(s, src, w, h, pw, ph, i, j))
  }

  /** Its Y plane: odd columns, blue differences left, red ones right. */
  ghost predicate OddShown(s: seq<byte>, src: seq<byte>, w: nat, h: nat, q: nat, c: nat, y: nat)
    requires IsFrame(src, w, h) && w > 0 && h > 0
  {
    && YAt(4 * q, c, y) < |s| && YAt(4 * q, 2 * q + c, y) < |s|
    && Difference(s[YAt(4 * q, c, y)], src, w, h, 2 * c + 1, y, false)
    && Difference(s[YAt(4 * q, 2 * q + c, y)], src, w, h, 2 * c + 1, y, true)
  }

  /** Its U and V planes: columns 0, 4, 8, ... and 2, 6, 10, ... of odd rows. */
  ghost predicate FourthShown(s: seq<byte>, src: seq<byte>, w: nat, h: nat, q: nat, ph: nat, c: nat, j: nat)
    requires IsFrame(src, w, h) && w > 0 && h > 0
  {
    && UAt(4 * q, ph, c, j) < |s| && UAt(4 * q, ph, q + c, j) < |s|
    && VAt(4 * q, ph, c, j) < |s| && VAt(4 * q, ph, q + c, j) < |s|
    && Difference(s[UAt(4 * q, ph, c, j)], src, w, h, 4 * c, 2 * j + 1, false)
    && Difference(s[UAt(4 * q, ph, q + c, j)], src, w, h, 4 * c, 2 * j + 1, true)
    && Difference(s[VAt(4 * q, ph, c, j)], src, w, h, 4 * c + 2, 2 * j + 1, false)
    && Difference(s[VAt(4 * q, ph, q + c, j)], src, w, h, 4 * c + 2, 2 * j + 1, true)
  }

  /** The chroma view of a `4 * q` wide frame. */
  ghost predicate IsAuxView(s: seq<byte>, src: seq<byte>, w: nat, h: nat, q: nat, ph: nat)
    requires IsFrame(src, w, h) && w > 0 && h > 0
  {
    && (forall c: nat, y: nat :: c < 2 * q && y < ph ==> OddShown(s, src, w, h, q, c, y))
    && (forall c: nat, j: nat :: c < q && j < ph / 2 ==> FourthShown(s, src, w, h, q, ph, c, j))
  }

  /** The samples are the BT.709 values of the nearest real pixel. */
  lemma SampleShows(src: seq<byte>, w: nat, h: nat, x: nat, y: nat)
    requires IsFrame(src, w, h) && w > 0 && h > 0
    ensures IsY(YuvOf(src, w, h).y(x, y), Edged(src, w, h, x, y, 2), Edged(src, w, h, x, y, 1), Edged(src, w, h, x, y, 0))
    ensures Difference(YuvOf(src, w, h).u(x, y), src, w, h, x, y, false)
    ensures Difference(YuvOf(src, w, h).v(x, y), src, w, h, x, y, true)
  {
    ColourIsStored(src, w, h, Min(x, w - 1), Min(y, h - 1));
    LumaIsBt709(NearestPixel(src, w, h, x, y));
    ChromaIsBt709(NearestPixel(src, w, h, x, y));
  }

  /** Four differences, each less than 2 off, have a mean less than 3 off. */
  lemma MeanOfFour(a: byte, b: byte, c: byte, d: byte, ta: int, tb: int, tc: int, td: int)
    requires -20000 < 10000 * (a - 128) - ta < 20000 && -20000 < 10000 * (b - 128) - tb < 20000
    requires -20000 < 10000 * (c - 128) - tc < 20000 && -20000 < 10000 * (d - 128) - td < 20000
    ensures -120000 < 40000 * (Mean4(a, b, c, d) - 128) - (ta + tb + tc + td) < 120000
  {
  }

  /** What a difference of this kind should be, times 10000. */
  function Target(src: seq<byte>, w: nat, h: nat, x: nat, y: nat, right: bool): int
    requires IsFrame(src, w, h) && w > 0 && h > 0
  {
    var r, g, b := Edged(src, w, h, x, y, 2), Edged(src, w, h, x, y, 1), Edged(src, w, h, x, y, 0);
    if right then 5000 * r - 4542 * g - 458 * b else 5000 * b - 1146 * r - 3854 * g
  }

  lemma SampleNear(src: seq<byte>, w: nat, h: nat, x: nat, y: nat, right: bool)
    requires IsFrame(src, w, h) && w > 0 && h > 0
    ensures -20000 < 10000 * (Samples(YuvOf(src, w, h), right)(x, y) - 128) - Target(src, w, h, x, y, right) < 20000
  {
    SampleShows(src, w, h, x, y);
  }

  function BlockTarget(src: seq<byte>, w: nat, h: nat, i: nat, j: nat, right: bool): int
    requires IsFrame(src, w, h) && w > 0 && h > 0
  {
    Target(src, w, h, 2 * i, 2 * j, right) + Target(src, w, h, 2 * i + 1, 2 * j, right)
    + Target(src, w, h, 2 * i, 2 * j + 1, right) + Target(src, w, h, 2 * i + 1, 2 * j + 1, right)
  }

  lemma BlockMeansNear(f: (nat, nat) -> byte, i: nat, j: nat, ta: int, tb: int, tc: int, td: int)
    requires -20000 < 10000 * (f(2 * i, 2 * j) - 128) - ta < 20000
    requires -20000 < 10000 * (f(2 * i + 1, 2 * j) - 128) - tb < 20000
    requires -20000 < 10000 * (f(2 * i, 2 * j + 1) - 128) - tc < 20000
    requires -20000 < 10000 * (f(2 * i + 1, 2 * j + 1) - 128) - td < 20000
    ensures -120000 < 40000 * (BlockMeans(f, j)(i) - 128) - (ta + tb + tc + td) < 120000
  {
    MeanOfFour(f(2 * i, 2 * j), f(2 * i + 1, 2 * j), f(2 * i, 2 * j + 1), f(2 * i + 1, 2 * j + 1), ta, tb, tc, td);
  }

  lemma BlockNear(src: seq<byte>, w: nat, h: nat, i: nat, j: nat, right: bool)
    requires IsFrame(src, w, h) && w > 0 && h > 0
    ensures var v := BlockMeans(Samples(YuvOf(src, w, h), right), j)(i);
            -120000 < 40000 * (v - 128) - BlockTarget(src, w, h, i, j, right) < 120000
  {
    var f := Samples(YuvOf(src, w, h), right);
    SampleNear(src, w, h, 2 * i, 2 * j, right);
    SampleNear(src, w, h, 2 * i + 1, 2 * j, right);
    SampleNear(src, w, h, 2 * i, 2 * j + 1, right);
    SampleNear(src, w, h, 2 * i + 1, 2 * j + 1, right);
    BlockMeansNear(f, i, j, Target(src, w, h, 2 * i, 2 * j, right), Target(src, w, h, 2 * i + 1, 2 * j, right),
                   Target(src, w, h, 2 * i, 2 * j + 1, right), Target(src, w, h, 2 * i + 1, 2 * j + 1, right));
  }

  lemma BlockShows(src: seq<byte>, w: nat, h: nat, i: nat, j: nat, right: bool)
    requires IsFrame(src, w, h) && w > 0 && h > 0
    ensures var r, g, b := EdgedBlock(src, w, h, i, j, 2), EdgedBlock(src, w, h, i, j, 1), EdgedBlock(src, w, h, i, j, 0);
            var v := BlockMeans(Samples(YuvOf(src, w, h), right), j)(i);
            if right then IsCr(v, 4, 3, r, g, b) else IsCb(v, 4, 3, r, g, b)
  {
    BlockNear(src, w, h, i, j, right);
  }

  lemma MainPlansLuma(p: Yuv, x: nat, y: nat)
    ensures (if y % 2 == 0 then LumaView(p)(y / 2).even(x) else LumaView(p)(y / 2).odd(x)) == p.y(x, y)
  {
  }

  lemma AuxPlansOdd(p: Yuv, q: nat, c: nat, y: nat)
    ensures (if y % 2 == 0 then ChromaView(p, q)(y / 2).even(c) else ChromaView(p, q)(y / 2).odd(c)) == OddColumns(p, q, y)(c)
  {
  }

  lemma ConvertedIsMainView(s: seq<byte>, src: seq<byte>, w: nat, h: nat, pw: nat, ph: nat)
    requires IsFrame(src, w, h) && w > 0 && h > 0 && ph % 2 == 0 && Converted(s, pw, ph, LumaView(YuvOf(src, w, h)))
    ensures IsMainView(s, src, w, h, pw, ph)
  {
    var p := YuvOf(src, w, h);
    forall x: nat, y: nat | x < pw && y < ph
      ensures MainLuma(s, src, w, h, pw, x, y)
    {
      LumaOfPlan(s, pw, ph, LumaView(p), x, y);
      MainPlansLuma(p, x, y);
      SampleShows(src, w, h, x, y);
    }
    forall i: nat, j: nat | i < pw / 2 && j < ph / 2
      ensures MainChroma(s, src, w, h, pw, ph, i, j)
    {
      ChromaOfPlan(s, pw, ph, LumaView(p), i, j);
      BlockShows(src, w, h, i, j, false);
      BlockShows(src, w, h, i, j, true);
    }
  }

  lemma OddColumnsAre(p: Yuv, q: nat, c: nat, y: nat)
    requires c < 2 * q
    ensures OddColumns(p, q, y)(c) == p.u(2 * c + 1, y) && OddColumns(p, q, y)(2 * q + c) == p.v(2 * c + 1, y)
  {
    assert 2 * q + c - 2 * q == c;
  }

  /** The byte in column `c` of the Y plane, in terms of the samples. */
  lemma OddColumnByte(s: seq<byte>, p: Yuv, q: nat, ph: nat, c: nat, y: nat)
    requires ph % 2 == 0 && Converted(s, 4 * q, ph, ChromaView(p, q)) && c < 4 * q && y < ph
    ensures YAt(4 * q, c, y) < |s| && s[YAt(4 * q, c, y)] == OddColumns(p, q, y)(c)
  {
    LumaOfPlan(s, 4 * q, ph, ChromaView(p, q), c, y);
    AuxPlansOdd(p, q, c, y);
  }

  lemma OddBytes(s: seq<byte>, src: seq<byte>, w: nat, h: nat, q: nat, ph: nat, c: nat, y: nat)
    requires IsFrame(src, w, h) && w > 0 && h > 0 && ph % 2 == 0 && Converted(s, 4 * q, ph, ChromaView(YuvOf(src, w, h), q))
    requires c < 2 * q && y < ph
    ensures OddShown(s, src, w, h, q, c, y)
  {
    var p := YuvOf(src, w, h);
    OddColumnByte(s, p, q, ph, c, y);
    OddColumnByte(s, p, q, ph, 2 * q + c, y);
    OddColumnsAre(p, q, c, y);
    SampleShows(src, w, h, 2 * c + 1, y);
  }

  lemma AuxPlansFourth(p: Yuv, q: nat, c: nat, j: nat)
    requires c < q
    ensures var rows := ChromaView(p, q)(j);
            && rows.cb(c) == p.u(4 * c, 2 * j + 1) && rows.cb(q + c) == p.v(4 * c, 2 * j + 1)
            && rows.cr(c) == p.u(4 * c + 2, 2 * j + 1) && rows.cr(q + c) == p.v(4 * c + 2, 2 * j + 1)
  {
    assert q + c - q == c;
  }

  lemma FourthBytes(s: seq<byte>, src: seq<byte>, w: nat, h: nat, q: nat, ph: nat, c: nat, j: nat)
    requires IsFrame(src, w, h) && w > 0 && h > 0 && Converted(s, 4 * q, ph, ChromaView(YuvOf(src, w, h), q))
    requires c < q && j < ph / 2
    ensures FourthShown(s, src, w, h, q, ph, c, j)
  {
    var p := YuvOf(src, w, h);
    ChromaOfPlan(s, 4 * q, ph, ChromaView(p, q), c, j);
    ChromaOfPlan(s, 4 * q, ph, ChromaView(p, q), q + c, j);
    AuxPlansFourth(p, q, c, j);
    SampleShows(src, w, h, 4 * c, 2 * j + 1);
    SampleShows(src, w, h, 4 * c + 2, 2 * j + 1);
  }

  lemma ConvertedIsAuxView(s: seq<byte>, src: seq<byte>, w: nat, h: nat, q: nat, ph: nat)
    requires IsFrame(src, w, h) && w > 0 && h > 0 && ph % 2 == 0 && Converted(s, 4 * q, ph, ChromaView(YuvOf(src, w, h), q))
    ensures IsAuxView(s, src, w, h, q, ph)
  {
    forall c: nat, y: nat | c < 2 * q && y < ph
      ensures OddShown(s, src, w, h, q, c, y)
    {
      OddBytes(s, src, w, h, q, ph, c, y);
    }
    forall c: nat, j: nat | c < q && j < ph / 2
      ensures FourthShown(s, src, w, h, q, ph, c, j)
    {
      FourthBytes(s, src, w, h, q, ph, c, j);
    }
  }

  /** Both views of a frame padded to `4 * q` columns, whatever the number and
      order of the workers; every byte of the six planes is stored once. */
  method Bgrx444v2(src: seq<byte>, w: nat, h: nat, q: nat, ph: nat, workers: nat, order: seq<nat>)
    returns (luma: array<byte>, chroma: array<byte>, ghost hits: Hits)
    requires IsFrame(src, w, h) && w > 0 && h > 0 && ph % 2 == 0 && ph > 0 && workers > 0
    requires IsOrder(order, ChunkCount(PerWorker(workers, ph / 2), ph / 2))
    ensures fresh(luma) && fresh(chroma)
    ensures Converted(luma[..], 4 * q, ph, LumaView(YuvOf(src, w, h)))
    ensures Converted(chroma[..], 4 * q, ph, ChromaView(YuvOf(src, w, h), q))
    ensures IsMainView(luma[..], src, w, h, 4 * q, ph) && IsAuxView(chroma[..], src, w, h, q, ph)
    ensures |hits.luma| == luma.Length && forall k :: 0 <= k < |hits.luma| ==> hits.luma[k] == 1
    ensures |hits.chroma| == chroma.Length && forall k :: 0 <= k < |hits.chroma| ==> hits.chroma[k] == 1
  {
    var per := PerWorker(workers, ph / 2);
    luma := new byte[BufLen(4 * q, ph)](_ => 0);
    chroma := new byte[BufLen(4 * q, ph)](_ => 0);
    hits := Hits(seq(BufLen(4 * q, ph), _ => 0), seq(BufLen(4 * q, ph), _ => 0));
    var slices := PlanSlices(4 * q, ph, per);
    hits := RunChunksV2(src, w, h, q, ph, luma, chroma, per, order, slices, hits);
    ViewComplete(luma[..], hits.luma, q, ph, LumaView(YuvOf(src, w, h)), per, order);
    ViewComplete(chroma[..], hits.chroma, q, ph, ChromaView(YuvOf(src, w, h), q), per, order);
    ConvertedIsMainView(luma[..], src, w, h, 4 * q, ph);
    ConvertedIsAuxView(chroma[..], src, w, h, q, ph);
  }

  // ----- The decoder -----

  /** A decoded view, read by column and row of each plane. */
  datatype View = View(y: (nat, nat) -> byte, u: (nat, nat) -> byte, v: (nat, nat) -> byte)

  /** Reading the planes of an I420 buffer; 0 outside them. */
  function ViewOf(s: seq<byte>, pw: nat, ph: nat): View
    requires |s| == BufLen(pw, ph) && ph % 2 == 0
  {
    View((c: nat, y: nat) => if c < pw && y < ph then PlaneY(s, pw, ph, c, y) else 0,
         (c: nat, j: nat) => if c < pw / 2 && j < ph / 2 then (OffsetsOrdered(pw, ph, j); s[UOff(pw, ph, j) + c]) else 0,
         (c: nat, j: nat) => if c < pw / 2 && j < ph / 2 then (OffsetsOrdered(pw, ph, j); s[VOff(pw, ph, j) + c]) else 0)
  }

  function PlaneY(s: seq<byte>, pw: nat, ph: nat, c: nat, y: nat): byte
    requires |s| == BufLen(pw, ph) && ph % 2 == 0 && c < pw && y < ph
  {
    OffsetsOrdered(pw, ph, y / 2);
    if y % 2 == 0 then s[YOff(pw, y / 2) + c] else s[YOff(pw, y / 2) + pw + c]
  }

  /** The view shows the planned rows. */
  ghost predicate Follows(view: View, plan: nat -> PairRows, pw: nat, ph: nat) {
    && (forall c: nat, y: nat :: c < pw && y < ph ==>
          view.y(c, y) == if y % 2 == 0 then plan(y / 2).even(c) else plan(y / 2).odd(c))
    && (forall c: nat, j: nat :: c < pw / 2 && j < ph / 2 ==> view.u(c, j) == plan(j).cb(c))
    && (forall c: nat, j: nat :: c < pw / 2 && j < ph / 2 ==> view.v(c, j) == plan(j).cr(c))
  }

  lemma ConvertedFollows(s: seq<byte>, pw: nat, ph: nat, plan: nat -> PairRows)
    requires Converted(s, pw, ph, plan) && ph % 2 == 0
    ensures Follows(ViewOf(s, pw, ph), plan, pw, ph)
  {
    var view := ViewOf(s, pw, ph);
    forall c: nat, y: nat | c < pw && y < ph
      ensures view.y(c, y) == if y % 2 == 0 then plan(y / 2).even(c) else plan(y / 2).odd(c)
    {
      assert PairConverted(s, pw, ph, plan, y / 2);
    }
    forall c: nat, j: nat | c < pw / 2 && j < ph / 2
      ensures view.u(c, j) == plan(j).cb(c) && view.v(c, j) == plan(j).cr(c)
    {
      assert PairConverted(s, pw, ph, plan, j);
    }
  }

  /** A U sample (or V, with `right`) that the auxiliary view carries: one in an
      odd column or an odd row. The frame is `4 * q` wide. */
  function Carried(aux: View, q: nat, x: nat, y: nat, right: bool): byte {
    if x % 2 == 1 then aux.y(x / 2 + (if right then 2 * q else 0), y)
    else if x % 4 == 0 then aux.u(x / 4 + (if right then q else 0), y / 2)
    else aux.v(x / 4 + (if right then q else 0), y / 2)
  }

  /** Reverse of the 2x2 mean for the sample the auxiliary view does not carry. */
  function Unfilter(mean: byte, b: byte, c: byte, d: byte): byte { Clamp(4 * mean - b - c - d, 0, 255) }

  /** Undoing a rounded-down mean loses at most 3. */
  lemma UnfilterError(a: byte, b: byte, c: byte, d: byte)
    ensures 0 <= a - Unfilter(Mean4(a, b, c, d), b, c, d) <= 3
  {
  }

  /** The recombined chroma sample at (x, y). */
  function DecodeChroma(main: View, aux: View, q: nat, x: nat, y: nat, right: bool): byte {
    if x % 2 == 1 || y % 2 == 1 then Carried(aux, q, x, y, right)
    else
      Unfilter(if right then main.v(x / 2, y / 2) else main.u(x / 2, y / 2),
               Carried(aux, q, x + 1, y, right), Carried(aux, q, x, y + 1, right), Carried(aux, q, x + 1, y + 1, right))
  }

  /** Everywhere but at even rows and columns the auxiliary view carries the
      sample itself. */
  lemma CarriedExact(p: Yuv, q: nat, ph: nat, aux: View, x: nat, y: nat, right: bool)
    requires Follows(aux, ChromaView(p, q), 4 * q, ph) && ph % 2 == 0 && x < 4 * q && y < ph
    requires x % 2 == 1 || y % 2 == 1
    ensures Carried(aux, q, x, y, right) == Samples(p, right)(x, y)
  {
    if x % 2 == 1 {
      var k := x / 2;
      assert x == 2 * k + 1;
      var c := if right then k + 2 * q else k;
      assert aux.y(c, y) == OddColumns(p, q, y)(c);
    } else {
      var k, j := x / 4, y / 2;
      assert y == 2 * j + 1 && (x == 4 * k || x == 4 * k + 2);
      var c := if right then k + q else k;
      assert aux.u(c, j) == FourthColumns(p, q, 0, y)(c) && aux.v(c, j) == FourthColumns(p, q, 2, y)(c);
    }
  }

  /** The samples of U, or of V with `right`. */
  function Samples(p: Yuv, right: bool): (nat, nat) -> byte { if right then p.v else p.u }

  /** The corner of a 2x2 block, recovered from its mean and its neighbours. */
  lemma CornerWithin3(p: Yuv, q: nat, ph: nat, main: View, aux: View, i: nat, j: nat, right: bool)
    requires Follows(main, LumaView(p), 4 * q, ph) && Follows(aux, ChromaView(p, q), 4 * q, ph)
    requires ph % 2 == 0 && i < 2 * q && j < ph / 2
    ensures 0 <= Samples(p, right)(2 * i, 2 * j) - DecodeChroma(main, aux, q, 2 * i, 2 * j, right) <= 3
  {
    var f := Samples(p, right);
    NeighboursCarried(p, q, ph, aux, i, j, right);
    MeanShown(p, q, ph, main, i, j, right);
    CornerNear(main, aux, q, i, j, right, f(2 * i, 2 * j), f(2 * i + 1, 2 * j), f(2 * i, 2 * j + 1), f(2 * i + 1, 2 * j + 1));
  }

  lemma NeighboursCarried(p: Yuv, q: nat, ph: nat, aux: View, i: nat, j: nat, right: bool)
    requires Follows(aux, ChromaView(p, q), 4 * q, ph) && ph % 2 == 0 && i < 2 * q && j < ph / 2
    ensures Carried(aux, q, 2 * i + 1, 2 * j, right) == Samples(p, right)(2 * i + 1, 2 * j)
    ensures Carried(aux, q, 2 * i, 2 * j + 1, right) == Samples(p, right)(2 * i, 2 * j + 1)
    ensures Carried(aux, q, 2 * i + 1, 2 * j + 1, right) == Samples(p, right)(2 * i + 1, 2 * j + 1)
  {
    CarriedExact(p, q, ph, aux, 2 * i + 1, 2 * j, right);
    CarriedExact(p, q, ph, aux, 2 * i, 2 * j + 1, right);
    CarriedExact(p, q, ph, aux, 2 * i + 1, 2 * j + 1, right);
  }

  lemma CornerNear(main: View, aux: View, q: nat, i: nat, j: nat, right: bool, a: byte, b: byte, c: byte, d: byte)
    requires Carried(aux, q, 2 * i + 1, 2 * j, right) == b && Carried(aux, q, 2 * i, 2 * j + 1, right) == c
    requires Carried(aux, q, 2 * i + 1, 2 * j + 1, right) == d
    requires (if right then main.v(i, j) else main.u(i, j)) == Mean4(a, b, c, d)
    ensures 0 <= a - DecodeChroma(main, aux, q, 2 * i, 2 * j, right) <= 3
  {
    CornerDecodes(main, aux, q, i, j, right, b, c, d);
    UnfilterError(a, b, c, d);
  }

  lemma MeanShown(p: Yuv, q: nat, ph: nat, main: View, i: nat, j: nat, right: bool)
    requires Follows(main, LumaView(p), 4 * q, ph) && i < 2 * q && j < ph / 2
    ensures var f := Samples(p, right);
            (if right then main.v(i, j) else main.u(i, j))
            == Mean4(f(2 * i, 2 * j), f(2 * i + 1, 2 * j), f(2 * i, 2 * j + 1), f(2 * i + 1, 2 * j + 1))
  {
    assert main.u(i, j) == BlockMeans(p.u, j)(i) && main.v(i, j) == BlockMeans(p.v, j)(i);
  }

  lemma CornerDecodes(main: View, aux: View, q: nat, i: nat, j: nat, right: bool, b: byte, c: byte, d: byte)
    requires Carried(aux, q, 2 * i + 1, 2 * j, right) == b && Carried(aux, q, 2 * i, 2 * j + 1, right) == c
    requires Carried(aux, q, 2 * i + 1, 2 * j + 1, right) == d
    ensures DecodeChroma(main, aux, q, 2 * i, 2 * j, right) == Unfilter(if right then main.v(i, j) else main.u(i, j), b, c, d)
  {
    assert (2 * i) / 2 == i && (2 * j) / 2 == j;
  }

  /** A decoded sample is exact, or low by at most 3 at a block corner. */
  ghost predicate Near(sample: byte, decoded: byte, x: nat, y: nat) {
    0 <= sample - decoded <= 3 && (x % 2 == 1 || y % 2 == 1 ==> decoded == sample)
  }

  lemma ChromaNear(p: Yuv, q: nat, ph: nat, main: View, aux: View, x: nat, y: nat, right: bool)
    requires Follows(main, LumaView(p), 4 * q, ph) && Follows(aux, ChromaView(p, q), 4 * q, ph)
    requires ph % 2 == 0 && x < 4 * q && y < ph
    ensures Near(Samples(p, right)(x, y), DecodeChroma(main, aux, q, x, y, right), x, y)
  {
    if x % 2 == 1 || y % 2 == 1 {
      CarriedExact(p, q, ph, aux, x, y, right);
    } else {
      var i, j := x / 2, y / 2;
      assert x == 2 * i && y == 2 * j;
      CornerWithin3(p, q, ph, main, aux, i, j, right);
    }
  }

  /** The round trip over every pixel of every frame: Y exact, U and V exact
      except where row and column are even, and there low by at most 3. */
  lemma RoundTrip(p: Yuv, q: nat, ph: nat, luma: seq<byte>, chroma: seq<byte>, x: nat, y: nat)
    requires Converted(luma, 4 * q, ph, LumaView(p)) && Converted(chroma, 4 * q, ph, ChromaView(p, q))
    requires ph % 2 == 0 && x < 4 * q && y < ph
    ensures var main, aux := ViewOf(luma, 4 * q, ph), ViewOf(chroma, 4 * q, ph);
            && main.y(x, y) == p.y(x, y)
            && Near(p.u(x, y), DecodeChroma(main, aux, q, x, y, false), x, y)
            && Near(p.v(x, y), DecodeChroma(main, aux, q, x, y, true), x, y)
  {
    var main, aux := ViewOf(luma, 4 * q, ph), ViewOf(chroma, 4 * q, ph);
    ConvertedFollows(luma, 4 * q, ph, LumaView(p));
    ConvertedFollows(chroma, 4 * q, ph, ChromaView(p, q));
    assert main.y(x, y) == SampleRow(p.y, y)(x);
    ChromaNear(p, q, ph, main, aux, x, y, false);
    ChromaNear(p, q, ph, main, aux, x, y, true);
  }

  /** Inside the real frame the samples are the BT.709 values of the pixel. */
  lemma SamplesInside(src: seq<byte>, w: nat, h: nat, x: nat, y: nat)
    requires IsFrame(src, w, h) && x < w && y < h
    ensures var p, px := YuvOf(src, w, h), PixelOrBlack(src, w, h, x, y);
            p.y(x, y) == RawLuma(px) && p.u(x, y) == RawCb(px) && p.v(x, y) == RawCr(px)
    ensures var r, g, b := Stored(src, w, h, x, y, 2), Stored(src, w, h, x, y, 1), Stored(src, w, h, x, y, 0);
            var p := YuvOf(src, w, h);
            IsY(p.y(x, y), r, g, b) && IsCb(p.u(x, y), 1, 2, r, g, b) && IsCr(p.v(x, y), 1, 2, r, g, b)
  {
    ClampsAreIdle(PixelOrBlack(src, w, h, x, y));
    SampleShows(src, w, h, x, y);
  }
}
