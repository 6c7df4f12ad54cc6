/**
 The microphone's streaming linear-interpolation resampler
 (linrdp/src/mic.rs, `Resampler`, `interpolate`).
 */
module Resampling {
  import opened Prelude
  import opened Geometry

  type i16 = n: int | -0x8000 <= n < 0x8000

  /** One stereo frame. */
  datatype Frame = Frame(left: i16, right: i16)

  /** Integer division that truncates toward zero. */
  function TruncDiv(n: int, d: int): int
    requires d > 0
  {
    if n >= 0 then n / d else -((-n) / d)
  }

  /** `a` moved towards `b` by `fraction / whole`, saturating on overflow. */
  function Interpolate(a: i16, b: i16, fraction: nat, whole: nat): i16
    requires whole > 0
  {
    var v := a + TruncDiv((b - a) * fraction, whole);
    if -0x8000 <= v < 0x8000 then v else if b > a then 0x7FFF else -0x8000
  }

  /** The result lies between the two samples, so nothing ever saturates, and a
      zero fraction is the first sample itself. */
  lemma InterpolateBetween(a: i16, b: i16, fraction: nat, whole: nat)
    requires 0 < whole && fraction < whole
    ensures Min(a, b) <= Interpolate(a, b, fraction, whole) <= Max(a, b)
    ensures Interpolate(a, b, fraction, whole) == a + TruncDiv((b - a) * fraction, whole)
    ensures fraction == 0 ==> Interpolate(a, b, fraction, whole) == a
  {
    PortionBelow(if b >= a then b - a else a - b, fraction, whole);
    assert (b - a) * fraction == -((a - b) * fraction);
  }

  lemma PortionBelow(d: nat, fraction: nat, whole: nat)
    requires 0 < whole && fraction < whole
    ensures 0 <= d * fraction / whole <= d
  {
    MulMono(d, fraction, whole);
    DivBelow(d * fraction, whole);
    MulMono(whole, d + 1, d * fraction / whole);
    assert whole * (d + 1) == whole * d + whole;
  }

  // ----- The closed form -----

  /** Frames out after `n` frames in: those whose tick lies before the last
      input frame. One input frame is `to` ticks, one output frame `from`. */
  function OutCount(n: nat, from: nat, to: nat): nat
    requires from > 0
  {
    if n == 0 then 0 else CeilDiv((n - 1) * to, from)
  }

  /** `m` frames of `from` ticks reach `ticks` exactly from the count rounded up. */
  lemma CeilIsLeast(m: nat, from: nat, ticks: nat)
    requires from > 0
    ensures m * from >= ticks <==> m >= CeilDiv(ticks, from)
  {
    var c := CeilDiv(ticks, from);
    DivBelow(ticks + from - 1, from);
    MulMono(from, c, m);
    MulMono(from, m + 1, c);
    assert from * (m + 1) == from * m + from;
    assert ticks + from - 1 < from * (c + 1) by { DivAbove(ticks + from - 1, from); }
    MulMono(from, c + 1, m + 1);
  }

  lemma DivAbove(n: nat, d: nat)
    requires d > 0
    ensures n < d * (n / d + 1)
  {
  }

  function Blend(a: Frame, b: Frame, fraction: nat, whole: nat): Frame
    requires whole > 0
  {
    Frame(Interpolate(a.left, b.left, fraction, whole), Interpolate(a.right, b.right, fraction, whole))
  }

  /** Output frame `k` interpolates at tick `k * from` of the stream. */
  function FrameAt(s: seq<Frame>, k: nat, from: nat, to: nat): Frame
    requires from > 0 && to > 0 && k < OutCount(|s|, from, to)
  {
    TickInside(|s|, k, from, to);
    Blend(s[k * from / to], s[k * from / to + 1], k * from % to, to)
  }

  /** Both neighbours of a produced tick are in the stream. */
  lemma TickInside(n: nat, k: nat, from: nat, to: nat)
    requires from > 0 && to > 0 && k < OutCount(n, from, to)
    ensures n >= 2 && 0 <= k * from / to && k * from / to + 1 < n
  {
    CeilIsLeast(k, from, (n - 1) * to);
    BudgetBelow(k * from, to, n - 1);
  }

  lemma BudgetBelow(ticks: nat, to: nat, m: nat)
    requires to > 0 && ticks < m * to
    ensures ticks / to < m
  {
    DivBelow(ticks, to);
    MulMono(to, m, ticks / to);
  }

  /** The whole stream resampled at once; equal rates pass it through. */
  function OneShot(s: seq<Frame>, from: nat, to: nat): (out: seq<Frame>)
    requires from > 0 && to > 0
    ensures |out| == if from == to then |s| else OutCount(|s|, from, to)
  {
    if from == to then s
    else seq(OutCount(|s|, from, to), k requires 0 <= k < OutCount(|s|, from, to) => FrameAt(s, k, from, to))
  }

  lemma OutCountGrows(n: nat, m: nat, from: nat, to: nat)
    requires from > 0 && n <= m
    ensures OutCount(n, from, to) <= OutCount(m, from, to)
  {
    if 0 < n {
      var big := OutCount(m, from, to);
      CeilIsLeast(big, from, (m - 1) * to);
      MulMono(to, n - 1, m - 1);
      CeilIsLeast(big, from, (n - 1) * to);
    }
  }

  /** More input never changes what is already out. */
  lemma OneShotExtends(s: seq<Frame>, more: seq<Frame>, from: nat, to: nat)
    requires from > 0 && to > 0
    ensures OneShot(s, from, to) <= OneShot(s + more, from, to)
  {
    if from != to {
      OutCountGrows(|s|, |s + more|, from, to);
      forall k: nat | k < OutCount(|s|, from, to)
        ensures FrameAt(s, k, from, to) == FrameAt(s + more, k, from, to)
      {
        TickInside(|s|, k, from, to);
      }
    }
  }

  // ----- The stream -----

  /** Where the resampler stands after `n` frames: the tick of the next output
      frame, from the last input frame. */
  ghost predicate Placed(position: nat, n: nat, from: nat, to: nat)
    requires from > 0
  {
    if n == 0 then position == 0 else position + (n - 1) * to == OutCount(n, from, to) * from
  }

  /** `base` whole input frames before a position do not change its fraction. */
  lemma ShiftedTick(base: nat, p: nat, to: nat)
    requires to > 0
    ensures (base * to + p) / to == base + p / to && (base * to + p) % to == p % to
  {
    DivModUnique(base * to + p, to, base + p / to, p % to);
  }

  lemma DivModUnique(n: nat, d: nat, q: nat, r: nat)
    requires d > 0 && r < d && n == q * d + r
    ensures n / d == q && n % d == r
  {
    var q' := n / d;
    assert n == q' * d + n % d;
    MulMono(d, q + 1, q');
    MulMono(d, q' + 1, q);
    assert d * (q + 1) == q * d + d && d * (q' + 1) == q' * d + d;
  }

  /** The tick `position` of the current input is tick `k * from` of the stream. */
  ghost predicate Aligned(history: seq<Frame>, input: seq<Frame>, position: nat, k: nat, from: nat, to: nat) {
    && 0 < |input| <= |history| && input == history[|history| - |input|..]
    && position + (|history| - |input|) * to == k * from
  }

  /** The loop goes on exactly while the stream has frame `k`. */
  lemma GoesOnIff(history: seq<Frame>, input: seq<Frame>, position: nat, k: nat, from: nat, to: nat)
    requires from > 0 && to > 0 && Aligned(history, input, position, k, from, to)
    ensures position < (|input| - 1) * to <==> k < OutCount(|history|, from, to)
  {
    var skipped := |history| - |input|;
    assert (|history| - 1) * to == skipped * to + (|input| - 1) * to;
    CeilIsLeast(k, from, (|history| - 1) * to);
  }

  /** Tick `k * from` of the stream, seen from the current input. */
  lemma TickInInput(n: nat, skipped: nat, position: nat, k: nat, from: nat, to: nat)
    requires from > 0 && to > 0 && k < OutCount(n, from, to) && position + skipped * to == k * from
    ensures k * from / to == skipped + position / to && k * from % to == position % to
    ensures skipped + position / to + 1 < n
  {
    TickInside(n, k, from, to);
    ShiftedTick(skipped, position, to);
  }

  /** The frame the loop computes is frame `k` of the one-shot result. */
  lemma ComputesFrame(history: seq<Frame>, input: seq<Frame>, position: nat, k: nat, from: nat, to: nat)
    requires from > 0 && to > 0 && Aligned(history, input, position, k, from, to)
    requires k < OutCount(|history|, from, to)
    ensures 0 <= position / to && position / to + 1 < |input|
    ensures FrameAt(history, k, from, to) == Blend(input[position / to], input[position / to + 1], position % to, to)
  {
    var skipped := |history| - |input|;
    TickInInput(|history|, skipped, position, k, from, to);
    SuffixAt(history, input, position / to);
  }

  lemma SuffixAt(history: seq<Frame>, input: seq<Frame>, i: int)
    requires |input| <= |history| && input == history[|history| - |input|..] && 0 <= i && i + 1 < |input|
    ensures input[i] == history[|history| - |input| + i] && input[i + 1] == history[|history| - |input| + i + 1]
  {
  }

  /** Subtracting the input's length leaves the position from its last frame. */
  lemma PlacedAfter(history: seq<Frame>, input: seq<Frame>, position: nat, from: nat, to: nat)
    requires from > 0 && position >= (|input| - 1) * to
    requires Aligned(history, input, position, OutCount(|history|, from, to), from, to)
    ensures Placed(position - (|input| - 1) * to, |history|, from, to)
  {
    assert (|history| - 1) * to == (|history| - |input|) * to + (|input| - 1) * to;
  }

  lemma AlignedNext(history: seq<Frame>, input: seq<Frame>, position: nat, k: nat, from: nat, to: nat)
    requires from > 0 && to > 0 && Aligned(history, input, position, k, from, to)
    ensures Aligned(history, input, position + from, k + 1, from, to)
    ensures position + from < (|input| - 1) * to <==> k + 1 < OutCount(|history|, from, to)
  {
    assert (k + 1) * from == k * from + from;
    GoesOnIff(history, input, position + from, k + 1, from, to);
  }

  /** The loop of `process`: all the frames this input completes. */
  method Produce(input: seq<Frame>, start: nat, from: nat, to: nat, ghost history: seq<Frame>, ghost k0: nat)
    returns (output: seq<Frame>, position: nat)
    requires from > 0 && to > 0 && from != to && Aligned(history, input, start, k0, from, to)
    requires k0 <= OutCount(|history|, from, to)
    ensures output == OneShot(history, from, to)[k0..]
    ensures Aligned(history, input, position, OutCount(|history|, from, to), from, to) && position >= (|input| - 1) * to
  {
    var end := (|input| - 1) * to;
    ghost var k: nat := k0;
    output, position := [], start;
    GoesOnIff(history, input, position, k, from, to);
    while position < end
      invariant Aligned(history, input, position, k, from, to)
      invariant k0 <= k <= OutCount(|history|, from, to) && (position < end <==> k < OutCount(|history|, from, to))
      invariant output == OneShot(history, from, to)[k0..k]
      decreases end - position
    {
      ComputesFrame(history, input, position, k, from, to);
      var index, fraction := position / to, position % to;
      output := output + [Blend(input[index], input[index + 1], fraction, to)];
      AlignedNext(history, input, position, k, from, to);
      position := position + from;
      k := k + 1;
    }
  }

  /** Putting the remembered frame in front lines the new packet up. */
  lemma StartAligned(before: seq<Frame>, frames: seq<Frame>, input: seq<Frame>, position: nat, from: nat, to: nat)
    requires from > 0 && to > 0 && Placed(position, |before|, from, to) && input != []
    requires input == (if before == [] then [] else [before[|before| - 1]]) + frames
    ensures Aligned(before + frames, input, position, OutCount(|before|, from, to), from, to)
    ensures OutCount(|before|, from, to) <= OutCount(|before + frames|, from, to)
  {
    OutCountGrows(|before|, |before + frames|, from, to);
  }

  lemma PrefixPlusRest(a: seq<Frame>, b: seq<Frame>)
    requires a <= b
    ensures a + b[|a|..] == b
  {
  }

  class Resampler {
    const from: nat
    const to: nat
    var position: nat
    var last: Option<Frame>
    /** Every frame fed so far. */
    ghost var history: seq<Frame>

    ghost predicate Valid()
      reads this
    {
      && from > 0 && to > 0
      && (from != to ==>
            && Placed(position, |history|, from, to)
            && last == if history == [] then None else Some(history[|history| - 1]))
    }

    constructor (f: nat, t: nat)
      ensures Valid() && history == [] && from == Max(f, 1) && to == Max(t, 1)
    {
      from, to, position, last, history := Max(f, 1), Max(t, 1), 0, None, [];
    }

    /** One packet: exactly the frames by which the one-shot result grows. */
    method Process(frames: seq<Frame>) returns (output: seq<Frame>)
      requires Valid()
      modifies this
      ensures Valid() && history == old(history) + frames
      ensures OneShot(old(history), from, to) + output == OneShot(history, from, to)
    {
      ghost var before := history;
      history := history + frames;
      OneShotExtends(before, frames, from, to);
      if from == to {
        return frames;
      }
      var input := (if last.None? then [] else [last.value]) + frames;
      if input == [] {
        assert frames == [] && history == before;
        return [];
      }
      ghost var k := OutCount(|before|, from, to);
      StartAligned(before, frames, input, position, from, to);
      output, position := Produce(input, position, from, to, history, k);
      PlacedAfter(history, input, position, from, to);
      PrefixPlusRest(OneShot(before, from, to), OneShot(history, from, to));
      position := position - (|input| - 1) * to;
      last := Some(input[|input| - 1]);
    }
  }

  function Flatten(packets: seq<seq<Frame>>): seq<Frame> {
    if packets == [] then [] else Flatten(packets[..|packets| - 1]) + packets[|packets| - 1]
  }

  /** However a stream is cut into packets, empty and one-frame ones included,
      the concatenated output is the one-shot output. */
  method Stream(f: nat, t: nat, packets: seq<seq<Frame>>) returns (output: seq<Frame>)
    ensures output == OneShot(Flatten(packets), Max(f, 1), Max(t, 1))
  {
    var r := new Resampler(f, t);
    output := [];
    for i := 0 to |packets|
      invariant fresh(r) && r.Valid() && r.from == Max(f, 1) && r.to == Max(t, 1)
      invariant r.history == Flatten(packets[..i]) && output == OneShot(r.history, r.from, r.to)
    {
      var chunk := r.Process(packets[i]);
      output := output + chunk;
      assert packets[..i + 1][..i] == packets[..i];
    }
    assert packets[..|packets|] == packets;
  }

  /** A sample of the output lies between the neighbours of its tick. */
  ghost predicate Between(v: Frame, a: Frame, b: Frame) {
    Min(a.left, b.left) <= v.left <= Max(a.left, b.left) && Min(a.right, b.right) <= v.right <= Max(a.right, b.right)
  }

  lemma BlendBetween(a: Frame, b: Frame, fraction: nat, whole: nat)
    requires 0 < whole && fraction < whole
    ensures Between(Blend(a, b, fraction, whole), a, b)
  {
    InterpolateBetween(a.left, b.left, fraction, whole);
    InterpolateBetween(a.right, b.right, fraction, whole);
  }

  lemma TickSpan(tick: nat, to: nat)
    requires to > 0
    ensures 0 <= tick % to < to && tick / to * to <= tick < (tick / to + 1) * to
  {
    DivBelow(tick, to);
    DivAbove(tick, to);
  }

  /** After n >= 1 frames at different rates exactly ceil((n-1)*to/from) frames
      are out, and each lies between the two input frames around its tick. */
  lemma OutputsBetweenNeighbours(s: seq<Frame>, from: nat, to: nat, k: nat)
    requires from > 0 && to > 0 && from != to && k < |OneShot(s, from, to)|
    ensures |OneShot(s, from, to)| == CeilDiv((|s| - 1) * to, from)
    ensures 0 <= k * from / to && k * from / to + 1 < |s|
    ensures k * from / to * to <= k * from < (k * from / to + 1) * to
    ensures Between(OneShot(s, from, to)[k], s[k * from / to], s[k * from / to + 1])
  {
    TickInside(|s|, k, from, to);
    TickSpan(k * from, to);
    BlendBetween(s[k * from / to], s[k * from / to + 1], k * from % to, to);
  }

  // ----- Where an output sample lies -----

  /** `v` is the point `f / to` of the way from `a` to `b`, less than one unit off,
      and `a` itself at the start of the way. */
  ghost predicate OnLine(v: int, a: int, b: int, f: int, to: int) {
    -to < to * v - ((to - f) * a + f * b) < to && (f == 0 ==> v == a)
  }

  lemma TruncDivNear(n: int, d: int)
    requires d > 0
    ensures -d < d * TruncDiv(n, d) - n < d
  {
    var m := if n >= 0 then n else -n;
    DivBelow(m, d);
    DivAbove(m, d);
    assert d * (m / d + 1) == d * (m / d) + d;
    assert d * -(m / d) == -(d * (m / d));
  }

  lemma InterpolateOnLine(a: i16, b: i16, f: nat, to: nat)
    requires f < to
    ensures OnLine(Interpolate(a, b, f, to), a, b, f, to)
  {
    InterpolateBetween(a, b, f, to);
    var n := (b - a) * f;
    TruncDivNear(n, to);
    var q := TruncDiv(n, to);
    assert to * (a + q) == to * a + to * q;
    assert (to - f) * a + f * b == to * a + n;
  }

  /** Output frame `k` is the stream at tick `k * from`, drawn as straight lines
      between input frames `to` ticks apart, at equal rates the frame itself. */
  lemma OutputIsLinear(s: seq<Frame>, from: nat, to: nat, k: nat)
    requires from > 0 && to > 0 && k < |OneShot(s, from, to)|
    ensures var i, f, v := k * from / to, k * from % to, OneShot(s, from, to)[k];
            && 0 <= i < |s| && 0 <= f < to
            && (f == 0 ==> v == s[i])
            && (from != to ==> i + 1 < |s| && OnLine(v.left, s[i].left, s[i + 1].left, f, to)
                                           && OnLine(v.right, s[i].right, s[i + 1].right, f, to))
    ensures from == to ==> OneShot(s, from, to) == s
  {
    var i, f := k * from / to, k * from % to;
    if from == to {
      DivModUnique(k * from, to, k, 0);
    } else {
      TickInside(|s|, k, from, to);
      TickSpan(k * from, to);
      InterpolateOnLine(s[i].left, s[i + 1].left, f, to);
      InterpolateOnLine(s[i].right, s[i + 1].right, f, to);
    }
  }
}
