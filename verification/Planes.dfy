/**
 I420 buffers as row pairs: two luma rows and one row of each chroma plane, the
 chunks that workers get, and why the result does not depend on them
 (linrdp/src/gfx_display.rs, `split_row_chunks`).
 */
module Planes {
  import opened Prelude
  import opened Geometry
  import opened Bt709

  /** `n` bytes of the buffer from `at` are the values of `f`. */
  ghost predicate RowIs(buf: seq<byte>, at: int, n: int, f: nat -> byte) {
    0 <= at && at + n <= |buf| && forall c: nat {:trigger f(c)} :: c < n ==> buf[at + c] == f(c)
  }

  /** The content of one row pair: both luma rows and the two chroma rows. */
  datatype PairRows = PairRows(even: nat -> byte, odd: nat -> byte, cb: nat -> byte, cr: nat -> byte)

  /** Luma rows at `y0` and `y0 + pw`, chroma rows at `u0` and `v0`. */
  ghost predicate PairIs(s: seq<byte>, pw: nat, y0: nat, u0: nat, v0: nat, rows: PairRows) {
    && RowIs(s, y0, pw, rows.even) && RowIs(s, y0 + pw, pw, rows.odd)
    && RowIs(s, u0, pw / 2, rows.cb) && RowIs(s, v0, pw / 2, rows.cr)
  }

  /** A byte of the pair: `yn` luma bytes, `n` bytes of each chroma row. */
  predicate InPair(k: int, y0: int, yn: int, u0: int, v0: int, n: int) {
    y0 <= k < y0 + yn || u0 <= k < u0 + n || v0 <= k < v0 + n
  }

  /** `now` differs from `was` at most in the pair. */
  ghost predicate OnlyIn(now: seq<byte>, was: seq<byte>, y0: int, yn: int, u0: int, v0: int, n: int) {
    |now| == |was| && forall k :: 0 <= k < |was| ==> now[k] == was[k] || InPair(k, y0, yn, u0, v0, n)
  }

  /** One more store for each byte of the pair. */
  ghost predicate PairHit(now: seq<nat>, was: seq<nat>, y0: int, yn: int, u0: int, v0: int, n: int) {
    && |now| == |was|
    && forall k :: 0 <= k < |was| ==> now[k] == was[k] + if InPair(k, y0, yn, u0, v0, n) then 1 else 0
  }

  // ----- Counted stores -----

  function Hit(hits: seq<nat>, k: int): (now: seq<nat>)
    requires 0 <= k < |hits|
    ensures |now| == |hits|
  {
    hits[k := hits[k] + 1]
  }

  /** One store into a plane, counted for its byte. */
  method Store(buf: array<byte>, k: int, v: byte, ghost hits: seq<nat>) returns (ghost now: seq<nat>)
    requires 0 <= k < buf.Length == |hits|
    modifies buf
    ensures buf[..] == old(buf[..])[k := v] && now == Hit(hits, k)
  {
    buf[k] := v;
    now := Hit(hits, k);
  }

  // ----- Chunks -----

  /** Start and length of the consecutive chunks of a plane of `len` bytes. */
  method SplitRowChunks(len: nat, rowsPerChunk: nat, rowLen: nat, count: nat) returns (starts: seq<nat>, lens: seq<nat>)
    ensures |starts| == count && |lens| == count
    ensures forall c :: 0 <= c < count ==> starts[c] == Min(c * (rowsPerChunk * rowLen), len)
    ensures forall c :: 0 <= c < count ==> lens[c] == Min(rowsPerChunk * rowLen, len - starts[c])
  {
    var size := rowsPerChunk * rowLen;
    starts, lens := [], [];
    var pos := 0;
    for c := 0 to count
      invariant |starts| == c && |lens| == c && pos == Min(c * size, len)
      invariant forall i :: 0 <= i < c ==> starts[i] == Min(i * size, len) && lens[i] == Min(size, len - starts[i])
    {
      var take := Min(size, len - pos);
      starts, lens := starts + [pos], lens + [take];
      assert (c + 1) * size == c * size + size;
      pos := pos + take;
    }
  }

  /** With whole rows, chunk `c` is exactly the rows of its worker. */
  lemma ChunkIsRows(c: nat, perWorker: nat, pairs: nat, rowLen: nat)
    requires c * perWorker <= pairs
    ensures var j0 := c * perWorker;
            var j1 := Min(j0 + perWorker, pairs);
            && Min(c * (perWorker * rowLen), pairs * rowLen) == j0 * rowLen
            && Min(perWorker * rowLen, pairs * rowLen - j0 * rowLen) == (j1 - j0) * rowLen
  {
    var j0 := c * perWorker;
    assert c * (perWorker * rowLen) == j0 * rowLen;
    MulMono(rowLen, j0, pairs);
    MulMono(rowLen, perWorker, pairs - j0);
    MulMono(rowLen, pairs - j0, perWorker);
    assert pairs * rowLen - j0 * rowLen == (pairs - j0) * rowLen;
  }

  // ----- The whole buffer -----

  /** Where row pair `j` lives in the buffer holding the three planes. */
  function YOff(pw: nat, j: nat): nat { j * (2 * pw) }

  function UOff(pw: nat, ph: nat, j: nat): nat { pw * ph + j * (pw / 2) }

  function VOff(pw: nat, ph: nat, j: nat): nat { pw * ph + (ph / 2) * (pw / 2) + j * (pw / 2) }

  function BufLen(pw: nat, ph: nat): nat { pw * ph + (ph / 2) * (pw / 2) + (ph / 2) * (pw / 2) }

  lemma DoubledRows(pairs: nat, pw: nat, ph: nat)
    requires ph == 2 * pairs
    ensures pairs * (2 * pw) == (2 * pw) * pairs == pw * ph
  {
  }

  lemma OffsetsOrdered(pw: nat, ph: nat, j: nat)
    requires ph % 2 == 0 && j < ph / 2
    ensures YOff(pw, j) + 2 * pw <= pw * ph <= UOff(pw, ph, j)
    ensures UOff(pw, ph, j) + pw / 2 <= pw * ph + (ph / 2) * (pw / 2) <= VOff(pw, ph, j)
    ensures VOff(pw, ph, j) + pw / 2 <= BufLen(pw, ph)
  {
    MulMono(2 * pw, j + 1, ph / 2);
    MulMono(pw / 2, j + 1, ph / 2);
    assert (2 * pw) * (j + 1) == YOff(pw, j) + 2 * pw;
    DoubledRows(ph / 2, pw, ph);
    assert (pw / 2) * (j + 1) == j * (pw / 2) + pw / 2;
  }

  lemma OffsetsIncrease(pw: nat, ph: nat, i: nat, j: nat)
    requires i < j
    ensures YOff(pw, i) + 2 * pw <= YOff(pw, j)
    ensures UOff(pw, ph, i) + pw / 2 <= UOff(pw, ph, j) && VOff(pw, ph, i) + pw / 2 <= VOff(pw, ph, j)
  {
    MulMono(2 * pw, i + 1, j);
    MulMono(pw / 2, i + 1, j);
    assert (2 * pw) * (i + 1) == YOff(pw, i) + 2 * pw;
    assert (pw / 2) * (i + 1) == i * (pw / 2) + pw / 2;
  }

  /** Row pair `j` of the buffer has the planned content. */
  ghost predicate PairConverted(s: seq<byte>, pw: nat, ph: nat, plan: nat -> PairRows, j: nat) {
    PairIs(s, pw, YOff(pw, j), UOff(pw, ph, j), VOff(pw, ph, j), plan(j))
  }

  ghost predicate Converted(s: seq<byte>, pw: nat, ph: nat, plan: nat -> PairRows) {
    |s| == BufLen(pw, ph) && forall j: nat :: j < ph / 2 ==> PairConverted(s, pw, ph, plan, j)
  }

  // ----- Reading a converted buffer by column and row -----

  /** Row `y` is one of the two luma rows of its pair. */
  lemma RowOfPair(pw: nat, x: nat, y: nat)
    ensures YAt(pw, x, y) == YOff(pw, y / 2) + (if y % 2 == 0 then 0 else pw) + x
  {
    var j := y / 2;
    if y % 2 == 0 {
      assert y == 2 * j && j * (2 * pw) == (2 * j) * pw;
    } else {
      assert y == 2 * j + 1 && j * (2 * pw) == (2 * j) * pw && (2 * j + 1) * pw == (2 * j) * pw + pw;
    }
  }

  lemma LumaOfPlan(s: seq<byte>, pw: nat, ph: nat, plan: nat -> PairRows, x: nat, y: nat)
    requires ph % 2 == 0 && Converted(s, pw, ph, plan) && x < pw && y < ph
    ensures YAt(pw, x, y) < |s|
    ensures s[YAt(pw, x, y)] == if y % 2 == 0 then plan(y / 2).even(x) else plan(y / 2).odd(x)
  {
    RowOfPair(pw, x, y);
    assert PairConverted(s, pw, ph, plan, y / 2);
    if y % 2 == 0 { RowHas(s, YOff(pw, y / 2), pw, plan(y / 2).even, x); }
    else { RowHas(s, YOff(pw, y / 2) + pw, pw, plan(y / 2).odd, x); }
  }

  lemma RowHas(s: seq<byte>, at: int, n: int, f: nat -> byte, c: nat)
    requires RowIs(s, at, n, f) && c < n
    ensures at + c < |s| && s[at + c] == f(c)
  {
  }

  lemma ChromaOfPlan(s: seq<byte>, pw: nat, ph: nat, plan: nat -> PairRows, i: nat, j: nat)
    requires Converted(s, pw, ph, plan) && i < pw / 2 && j < ph / 2
    ensures UAt(pw, ph, i, j) < |s| && VAt(pw, ph, i, j) < |s|
    ensures s[UAt(pw, ph, i, j)] == plan(j).cb(i) && s[VAt(pw, ph, i, j)] == plan(j).cr(i)
  {
    assert PairConverted(s, pw, ph, plan, j);
    RowHas(s, UOff(pw, ph, j), pw / 2, plan(j).cb, i);
    RowHas(s, VOff(pw, ph, j), pw / 2, plan(j).cr, i);
  }

  lemma RowKept(was: seq<byte>, now: seq<byte>, at: int, n: int, f: nat -> byte)
    requires RowIs(was, at, n, f) && |now| == |was| && forall k :: at <= k < at + n ==> now[k] == was[k]
    ensures RowIs(now, at, n, f)
  {
  }

  /** Byte `k` belongs to row pairs `j0..j1`. */
  predicate InRows(k: int, pw: nat, ph: nat, j0: nat, j1: nat) {
    || YOff(pw, j0) <= k < YOff(pw, j1) || UOff(pw, ph, j0) <= k < UOff(pw, ph, j1)
    || VOff(pw, ph, j0) <= k < VOff(pw, ph, j1)
  }

  /** What a worker on pairs `j0..j1` does to the buffer: its pairs have the
      planned content, every other byte is what it was. */
  ghost predicate RowsDone(now: seq<byte>, was: seq<byte>, pw: nat, ph: nat, plan: nat -> PairRows, j0: nat, j1: nat) {
    && |now| == |was|
    && (forall j: nat :: j0 <= j < j1 ==> PairConverted(now, pw, ph, plan, j))
    && forall k :: 0 <= k < |was| && !InRows(k, pw, ph, j0, j1) ==> now[k] == was[k]
  }

  /** ... and to the store counts: one more for each of its bytes. */
  ghost predicate RowsHit(now: seq<nat>, was: seq<nat>, pw: nat, ph: nat, j0: nat, j1: nat) {
    && |now| == |was|
    && forall k :: 0 <= k < |was| ==> now[k] == was[k] + if InRows(k, pw, ph, j0, j1) then 1 else 0
  }

  /** Offsets grow with the row pair. */
  lemma OffsetsGrow(pw: nat, ph: nat, i: nat, j: nat)
    requires i <= j
    ensures YOff(pw, i) <= YOff(pw, j) && UOff(pw, ph, i) <= UOff(pw, ph, j) && VOff(pw, ph, i) <= VOff(pw, ph, j)
  {
    if i < j { OffsetsIncrease(pw, ph, i, j); }
  }

  /** The three planes follow one another. */
  lemma PlanesApart(pw: nat, ph: nat, j: nat)
    requires ph % 2 == 0 && j <= ph / 2
    ensures YOff(pw, j) <= pw * ph <= UOff(pw, ph, j) <= pw * ph + (ph / 2) * (pw / 2) <= VOff(pw, ph, j)
    ensures VOff(pw, ph, j) <= BufLen(pw, ph)
  {
    MulMono(2 * pw, j, ph / 2);
    MulMono(pw / 2, j, ph / 2);
    DoubledRows(ph / 2, pw, ph);
    MulMono(pw / 2, 0, j);
  }

  /** The offsets of the next pair are one row behind. */
  lemma NextPair(pw: nat, ph: nat, j: nat)
    ensures YOff(pw, j + 1) == YOff(pw, j) + 2 * pw
    ensures UOff(pw, ph, j + 1) == UOff(pw, ph, j) + pw / 2 && VOff(pw, ph, j + 1) == VOff(pw, ph, j) + pw / 2
  {
    LocalOffsets(pw, ph, j, 1);
  }

  /** Rows outside `j0..j1` are not among its bytes. */
  lemma OtherRows(k: int, pw: nat, ph: nat, j0: nat, j1: nat, i: nat)
    requires ph % 2 == 0 && j0 <= j1 <= ph / 2 && i < ph / 2 && !(j0 <= i < j1) && InRows(k, pw, ph, i, i + 1)
    ensures !InRows(k, pw, ph, j0, j1)
  {
    PlanesApart(pw, ph, i);
    PlanesApart(pw, ph, i + 1);
    PlanesApart(pw, ph, j0);
    PlanesApart(pw, ph, j1);
    if i < j0 {
      OffsetsGrow(pw, ph, i + 1, j0);
    } else {
      OffsetsGrow(pw, ph, j1, i);
    }
  }

  /** A pair whose bytes did not change stays converted. */
  lemma PairKept(was: seq<byte>, now: seq<byte>, pw: nat, ph: nat, plan: nat -> PairRows, i: nat)
    requires PairConverted(was, pw, ph, plan, i) && |now| == |was| && pw % 2 == 0
    requires forall k :: 0 <= k < |was| && InRows(k, pw, ph, i, i + 1) ==> now[k] == was[k]
    ensures PairConverted(now, pw, ph, plan, i)
  {
    NextPair(pw, ph, i);
    RowKept(was, now, YOff(pw, i), pw, plan(i).even);
    RowKept(was, now, YOff(pw, i) + pw, pw, plan(i).odd);
    RowKept(was, now, UOff(pw, ph, i), pw / 2, plan(i).cb);
    RowKept(was, now, VOff(pw, ph, i), pw / 2, plan(i).cr);
  }

  /** A worker keeps every pair converted that is not its own. */
  lemma OtherPairKept(was: seq<byte>, now: seq<byte>, pw: nat, ph: nat, plan: nat -> PairRows, j0: nat, j1: nat, i: nat)
    requires ph % 2 == 0 && pw % 2 == 0 && j0 <= j1 <= ph / 2 && i < ph / 2 && !(j0 <= i < j1)
    requires PairConverted(was, pw, ph, plan, i) && RowsDone(now, was, pw, ph, plan, j0, j1)
    ensures PairConverted(now, pw, ph, plan, i)
  {
    forall k | 0 <= k < |was| && InRows(k, pw, ph, i, i + 1)
      ensures now[k] == was[k]
    {
      OtherRows(k, pw, ph, j0, j1, i);
    }
    PairKept(was, now, pw, ph, plan, i);
  }

  /** The bytes of `j0..j + 1` are those of `j0..j` and those of pair `j`. */
  lemma RowsAndNext(k: int, pw: nat, ph: nat, j0: nat, j: nat)
    requires ph % 2 == 0 && j0 <= j < ph / 2
    ensures InRows(k, pw, ph, j0, j + 1) <==> InRows(k, pw, ph, j0, j) || InRows(k, pw, ph, j, j + 1)
    ensures !(InRows(k, pw, ph, j0, j) && InRows(k, pw, ph, j, j + 1))
  {
    OffsetsGrow(pw, ph, j0, j);
    OffsetsGrow(pw, ph, j, j + 1);
    PlanesApart(pw, ph, j0);
    PlanesApart(pw, ph, j);
    PlanesApart(pw, ph, j + 1);
  }

  lemma RowsDoneNext(start: seq<byte>, was: seq<byte>, now: seq<byte>, pw: nat, ph: nat, plan: nat -> PairRows,
                     j0: nat, j: nat)
    requires ph % 2 == 0 && pw % 2 == 0 && j0 <= j < ph / 2
    requires RowsDone(was, start, pw, ph, plan, j0, j) && RowsDone(now, was, pw, ph, plan, j, j + 1)
    ensures RowsDone(now, start, pw, ph, plan, j0, j + 1)
  {
    forall i: nat | j0 <= i < j ensures PairConverted(now, pw, ph, plan, i) {
      OtherPairKept(was, now, pw, ph, plan, j, j + 1, i);
    }
    forall k | 0 <= k < |start| && !InRows(k, pw, ph, j0, j + 1) ensures now[k] == start[k] {
      RowsAndNext(k, pw, ph, j0, j);
    }
  }

  lemma RowsHitNext(start: seq<nat>, was: seq<nat>, now: seq<nat>, pw: nat, ph: nat, j0: nat, j: nat)
    requires ph % 2 == 0 && j0 <= j < ph / 2
    requires RowsHit(was, start, pw, ph, j0, j) && RowsHit(now, was, pw, ph, j, j + 1)
    ensures RowsHit(now, start, pw, ph, j0, j + 1)
  {
    forall k | 0 <= k < |start|
      ensures now[k] == start[k] + if InRows(k, pw, ph, j0, j + 1) then 1 else 0
    {
      RowsAndNext(k, pw, ph, j0, j);
    }
  }

  lemma OnePairDone(now: seq<byte>, was: seq<byte>, pw: nat, ph: nat, plan: nat -> PairRows, j: nat)
    requires PairConverted(now, pw, ph, plan, j)
    requires OnlyIn(now, was, YOff(pw, j), 2 * pw, UOff(pw, ph, j), VOff(pw, ph, j), pw / 2)
    ensures RowsDone(now, was, pw, ph, plan, j, j + 1)
  {
    NextPair(pw, ph, j);
  }

  lemma OnePairHit(now: seq<nat>, was: seq<nat>, pw: nat, ph: nat, j: nat)
    requires PairHit(now, was, YOff(pw, j), 2 * pw, UOff(pw, ph, j), VOff(pw, ph, j), pw / 2)
    ensures RowsHit(now, was, pw, ph, j, j + 1)
  {
    NextPair(pw, ph, j);
  }

  lemma NoRowsHit(hits: seq<nat>, s: seq<byte>, pw: nat, ph: nat, plan: nat -> PairRows, j: nat)
    ensures RowsHit(hits, hits, pw, ph, j, j) && RowsDone(s, s, pw, ph, plan, j, j)
  {
  }

  lemma LocalOffsets(pw: nat, ph: nat, j0: nat, local: nat)
    ensures YOff(pw, j0) + local * (2 * pw) == YOff(pw, j0 + local)
    ensures UOff(pw, ph, j0) + local * (pw / 2) == UOff(pw, ph, j0 + local)
    ensures VOff(pw, ph, j0) + local * (pw / 2) == VOff(pw, ph, j0 + local)
  {
  }

  // ----- The worker plan -----

  /** Row pairs per thread: 1 to 8 threads, never more than there are pairs. */
  function PerWorker(workers: nat, pairs: nat): (per: nat)
    requires workers > 0 && pairs > 0
    ensures 0 < per <= pairs
  {
    var threads := Min(Clamp(workers, 1, 8), pairs);
    PerThread(pairs, threads);
    CeilDiv(pairs, threads)
  }

  lemma PerThread(pairs: nat, threads: nat)
    requires 0 < threads <= pairs
    ensures 0 < CeilDiv(pairs, threads) <= pairs
  {
    MulMono(threads, pairs + 1, CeilDiv(pairs, threads));
    assert threads * (pairs + 1) == threads * pairs + threads;
    MulMono(pairs, 1, threads);
  }

  function ChunkCount(per: nat, pairs: nat): nat
    requires per > 0
  {
    CeilDiv(pairs, per)
  }

  /** A chunk of the plan starts inside the plane. */
  lemma ChunkStarts(c: nat, per: nat, pairs: nat)
    requires per > 0 && c < ChunkCount(per, pairs)
    ensures c * per < pairs
  {
    MulMono(per, c + 1, ChunkCount(per, pairs));
    assert per * (c + 1) == c * per + per;
  }

  /** Every row pair belongs to a chunk of the plan. */
  lemma PairHasChunk(j: nat, per: nat, pairs: nat) returns (c: nat)
    requires per > 0 && j < pairs
    ensures c < ChunkCount(per, pairs) && c * per <= j < c * per + per
  {
    c := j / per;
    assert j == c * per + j % per;
    MulMono(per, ChunkCount(per, pairs), c);
    assert pairs + per - 1 == ChunkCount(per, pairs) * per + (pairs + per - 1) % per;
  }

  /** The slices chunk `c` gets from `split_row_chunks`, for the luma plane and
      for each chroma plane. */
  datatype Slices = Slices(yStart: nat, yLen: nat, uStart: nat, uLen: nat)

  predicate AreSlices(s: Slices, pw: nat, ph: nat, per: nat, c: nat) {
    && s.yStart == Min(c * (per * (2 * pw)), pw * ph) && s.yLen == Min(per * (2 * pw), pw * ph - s.yStart)
    && s.uStart == Min(c * (per * (pw / 2)), (ph / 2) * (pw / 2))
    && s.uLen == Min(per * (pw / 2), (ph / 2) * (pw / 2) - s.uStart)
  }

  /** The slices start at the worker's first row pair and are exactly as long as
      the rows written through them. */
  lemma SlicesAreRows(s: Slices, pw: nat, ph: nat, per: nat, c: nat)
    requires AreSlices(s, pw, ph, per, c) && ph % 2 == 0 && c * per < ph / 2
    ensures var j0 := c * per;
            var rows := Min(j0 + per, ph / 2) - j0;
            && s.yStart == YOff(pw, j0) && s.yLen == rows * (2 * pw)
            && pw * ph + s.uStart == UOff(pw, ph, j0) && s.uLen == rows * (pw / 2)
            && pw * ph + (ph / 2) * (pw / 2) + s.uStart == VOff(pw, ph, j0)
  {
    ChunkIsRows(c, per, ph / 2, 2 * pw);
    ChunkIsRows(c, per, ph / 2, pw / 2);
    DoubledRows(ph / 2, pw, ph);
  }

  /** The row pairs of chunk `c` and where they start in each plane. */
  method ChunkBases(s: Slices, pw: nat, ph: nat, per: nat, c: nat)
    returns (j0: nat, j1: nat, y: nat, u: nat, v: nat)
    requires AreSlices(s, pw, ph, per, c) && ph % 2 == 0 && per > 0 && c < ChunkCount(per, ph / 2)
    ensures j0 == c * per && j1 == ChunkEnd(per, ph / 2, c) && j0 <= j1 <= ph / 2
    ensures y == YOff(pw, j0) && u == UOff(pw, ph, j0) && v == VOff(pw, ph, j0)
  {
    ChunkStarts(c, per, ph / 2);
    SlicesAreRows(s, pw, ph, per, c);
    j0, j1 := c * per, ChunkEnd(per, ph / 2, c);
    y, u, v := s.yStart, pw * ph + s.uStart, pw * ph + (ph / 2) * (pw / 2) + s.uStart;
  }

  method PlanSlices(pw: nat, ph: nat, per: nat) returns (slices: seq<Slices>)
    requires per > 0
    ensures |slices| == ChunkCount(per, ph / 2)
    ensures forall c :: 0 <= c < |slices| ==> AreSlices(slices[c], pw, ph, per, c)
  {
    var count := ChunkCount(per, ph / 2);
    var yStarts, yLens := SplitRowChunks(pw * ph, per, 2 * pw, count);
    var uStarts, uLens := SplitRowChunks((ph / 2) * (pw / 2), per, pw / 2, count);
    slices := seq(count, c requires 0 <= c < count => Slices(yStarts[c], yLens[c], uStarts[c], uLens[c]));
  }

  ghost predicate ChunkConverted(s: seq<byte>, pw: nat, ph: nat, plan: nat -> PairRows, per: nat, c: nat) {
    forall j: nat :: c * per <= j < c * per + per && j < ph / 2 ==> PairConverted(s, pw, ph, plan, j)
  }

  function ChunkEnd(per: nat, pairs: nat, c: nat): nat { Min(c * per + per, pairs) }

  /** The chunks finished so far, in the order they finished. */
  ghost predicate ChunksDone(s: seq<byte>, pw: nat, ph: nat, plan: nat -> PairRows, per: nat, order: seq<nat>) {
    |s| == BufLen(pw, ph) && forall i :: 0 <= i < |order| ==> ChunkConverted(s, pw, ph, plan, per, order[i])
  }

  /** A worker that did its rows finished its chunk and spoiled no other. */
  lemma ChunksDoneNext(now: seq<byte>, was: seq<byte>, pw: nat, ph: nat, plan: nat -> PairRows, per: nat,
                       order: seq<nat>, c: nat)
    requires ph % 2 == 0 && pw % 2 == 0 && c * per <= ph / 2 && ChunksDone(was, pw, ph, plan, per, order)
    requires RowsDone(now, was, pw, ph, plan, c * per, ChunkEnd(per, ph / 2, c))
    ensures ChunksDone(now, pw, ph, plan, per, order + [c])
  {
    forall i, j: nat | 0 <= i < |order| && order[i] * per <= j < order[i] * per + per && j < ph / 2
      ensures PairConverted(now, pw, ph, plan, j)
    {
      assert ChunkConverted(was, pw, ph, plan, per, order[i]);
      if !(c * per <= j < ChunkEnd(per, ph / 2, c)) {
        OtherPairKept(was, now, pw, ph, plan, c * per, ChunkEnd(per, ph / 2, c), j);
      }
    }
  }

  lemma AllChunksAllPairs(s: seq<byte>, pw: nat, ph: nat, plan: nat -> PairRows, per: nat, order: seq<nat>)
    requires per > 0 && ChunksDone(s, pw, ph, plan, per, order)
    requires forall c: nat :: c < ChunkCount(per, ph / 2) ==> c in order
    ensures Converted(s, pw, ph, plan)
  {
    forall j: nat | j < ph / 2
      ensures PairConverted(s, pw, ph, plan, j)
    {
      var c := PairHasChunk(j, per, ph / 2);
      assert c in order;
      var i :| 0 <= i < |order| && order[i] == c;
      assert ChunkConverted(s, pw, ph, plan, per, order[i]);
    }
  }

  // ----- Every byte once -----

  /** Byte `k` belongs to a chunk of `order`. */
  ghost predicate InChunks(k: int, pw: nat, ph: nat, per: nat, order: seq<nat>) {
    exists i :: 0 <= i < |order| && InRows(k, pw, ph, order[i] * per, ChunkEnd(per, ph / 2, order[i]))
  }

  /** One store for each byte of the chunks in `order`. */
  ghost predicate ChunksHit(hits: seq<nat>, pw: nat, ph: nat, per: nat, order: seq<nat>) {
    |hits| == BufLen(pw, ph)
    && forall k :: 0 <= k < |hits| ==> hits[k] == if InChunks(k, pw, ph, per, order) then 1 else 0
  }

  /** Different chunks have no byte in common. */
  lemma ChunksApart(k: int, pw: nat, ph: nat, per: nat, c: nat, d: nat)
    requires ph % 2 == 0 && c < d && c * per <= ph / 2 && d * per <= ph / 2
    ensures !(InRows(k, pw, ph, c * per, ChunkEnd(per, ph / 2, c)) && InRows(k, pw, ph, d * per, ChunkEnd(per, ph / 2, d)))
  {
    var c0, c1, d0, d1 := c * per, ChunkEnd(per, ph / 2, c), d * per, ChunkEnd(per, ph / 2, d);
    MulMono(per, c + 1, d);
    assert per * (c + 1) == c0 + per && c1 <= d0;
    OffsetsGrow(pw, ph, c1, d0);
    PlanesApart(pw, ph, c0);
    PlanesApart(pw, ph, c1);
    PlanesApart(pw, ph, d0);
    PlanesApart(pw, ph, d1);
  }

  lemma ChunksHitNext(now: seq<nat>, was: seq<nat>, pw: nat, ph: nat, per: nat, order: seq<nat>, c: nat)
    requires ph % 2 == 0 && c !in order && c * per <= ph / 2
    requires forall i :: 0 <= i < |order| ==> order[i] * per <= ph / 2
    requires ChunksHit(was, pw, ph, per, order) && RowsHit(now, was, pw, ph, c * per, ChunkEnd(per, ph / 2, c))
    ensures ChunksHit(now, pw, ph, per, order + [c])
  {
    var all := order + [c];
    forall k | 0 <= k < |now|
      ensures now[k] == if InChunks(k, pw, ph, per, all) then 1 else 0
    {
      if InRows(k, pw, ph, c * per, ChunkEnd(per, ph / 2, c)) {
        assert all[|order|] == c;
        forall i | 0 <= i < |order| ensures !InRows(k, pw, ph, order[i] * per, ChunkEnd(per, ph / 2, order[i])) {
          assert order[i] != c;
          if order[i] < c { ChunksApart(k, pw, ph, per, order[i], c); } else { ChunksApart(k, pw, ph, per, c, order[i]); }
        }
      } else if InChunks(k, pw, ph, per, order) {
        var i :| 0 <= i < |order| && InRows(k, pw, ph, order[i] * per, ChunkEnd(per, ph / 2, order[i]));
        assert all[i] == order[i];
      }
    }
  }

  /** Every byte belongs to a row pair. */
  lemma ByteHasPair(k: nat, pw: nat, ph: nat) returns (j: nat)
    requires pw % 2 == 0 && ph % 2 == 0 && k < BufLen(pw, ph)
    ensures j < ph / 2 && InRows(k, pw, ph, j, j + 1)
  {
    var pairs, half := ph / 2, pw / 2;
    if k < pw * ph {
      DoubledRows(pairs, pw, ph);
      var row, c := SplitIndex(k, 2 * pw, pairs);
      j := row;
    } else if k < pw * ph + pairs * half {
      var row, c := SplitIndex(k - pw * ph, half, pairs);
      j := row;
    } else {
      var row, c := SplitIndex(k - pw * ph - pairs * half, half, pairs);
      j := row;
    }
    NextPair(pw, ph, j);
  }

  /** With all the chunks done, every byte was stored exactly once. */
  lemma AllBytesHit(hits: seq<nat>, pw: nat, ph: nat, per: nat, order: seq<nat>)
    requires pw % 2 == 0 && ph % 2 == 0 && per > 0 && ChunksHit(hits, pw, ph, per, order)
    requires forall c: nat :: c < ChunkCount(per, ph / 2) ==> c in order
    ensures forall k :: 0 <= k < |hits| ==> hits[k] == 1
  {
    forall k | 0 <= k < |hits|
      ensures InChunks(k, pw, ph, per, order)
    {
      var j := ByteHasPair(k, pw, ph);
      var c := PairHasChunk(j, per, ph / 2);
      assert c in order;
      var i :| 0 <= i < |order| && order[i] == c;
      OffsetsGrow(pw, ph, c * per, j);
      OffsetsGrow(pw, ph, j + 1, ChunkEnd(per, ph / 2, c));
      assert InRows(k, pw, ph, order[i] * per, ChunkEnd(per, ph / 2, order[i]));
    }
  }

  /** Every byte of the buffer is determined by the plan: two conversions, by
      however many workers in whatever order, are the same. */
  lemma ConvertedIsUnique(a: seq<byte>, b: seq<byte>, pw: nat, ph: nat, plan: nat -> PairRows)
    requires pw % 2 == 0 && ph % 2 == 0 && Converted(a, pw, ph, plan) && Converted(b, pw, ph, plan)
    ensures a == b
  {
    forall k: nat | k < |a|
      ensures a[k] == b[k]
    {
      ByteDetermined(a, b, pw, ph, plan, k);
    }
  }

  lemma ByteDetermined(a: seq<byte>, b: seq<byte>, pw: nat, ph: nat, plan: nat -> PairRows, k: nat)
    requires pw % 2 == 0 && ph % 2 == 0 && Converted(a, pw, ph, plan) && Converted(b, pw, ph, plan) && k < BufLen(pw, ph)
    ensures a[k] == b[k]
  {
    var pairs, half := ph / 2, pw / 2;
    if k < pw * ph {
      DoubledRows(pairs, pw, ph);
      var j, c := SplitIndex(k, 2 * pw, pairs);
      assert PairConverted(a, pw, ph, plan, j) && PairConverted(b, pw, ph, plan, j);
      if c < pw {
        assert a[k] == plan(j).even(c);
      } else {
        assert a[k] == plan(j).odd(c - pw);
      }
    } else if k < pw * ph + pairs * half {
      var j, c := SplitIndex(k - pw * ph, half, pairs);
      assert PairConverted(a, pw, ph, plan, j) && PairConverted(b, pw, ph, plan, j);
      assert a[k] == plan(j).cb(c);
    } else {
      var j, c := SplitIndex(k - pw * ph - pairs * half, half, pairs);
      assert PairConverted(a, pw, ph, plan, j) && PairConverted(b, pw, ph, plan, j);
      assert a[k] == plan(j).cr(c);
    }
  }
}
