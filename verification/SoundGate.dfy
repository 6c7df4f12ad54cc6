/**
 RDPSND flow control (linrdp/src/sound_real.rs: the sender loop of `start`,
 `wave_confirm`, and the chunking of `stream_from`).
 */
module SoundGate {
  import opened Prelude

  const MAX_IN_FLIGHT: int := 5

  /** One sent wave's confirm-matching state. */
  datatype SentWave = SentWave(wireTs: u16, bestHeld: nat, confirmed: bool)

  /** Counters and the 256-slot ring, indexed by block number. */
  datatype Gate = Gate(inFlight: int, ewma: nat, lastConfirm: nat, ring: seq<Option<SentWave>>, nextBlock: byte)

  // ----- wave_confirm -----

  /** 16-bit time since the wave was stamped; garbage counts as none. */
  function Held(timestamp: u16, wireTs: u16): nat {
    var raw := if timestamp >= wireTs then timestamp - wireTs else timestamp - wireTs + 0x1_0000;
    if raw > 5000 then 0 else raw
  }

  /** A residence time of up to five seconds is read back exactly, across the
      wrap of the 16-bit clock. */
  lemma HeldAcrossWrap(sentAt: nat, held: nat)
    requires held <= 5000
    ensures Held((sentAt + held) % 0x1_0000, sentAt % 0x1_0000) == held
  {
  }

  function NextEwma(ewma: nat, best: nat): nat {
    if ewma == 0 then best else ewma - ewma / 4 + best / 4
  }

  /** The gauge goes a quarter of the way to the new reading, up to rounding. */
  lemma EwmaQuarterStep(ewma: nat, best: nat)
    requires ewma > 0
    ensures 3 * ewma + best - 4 < 4 * NextEwma(ewma, best) <= 3 * ewma + best + 3
  {
  }

  function Confirm(g: Gate, block: byte, timestamp: u16, now: nat): Gate
    requires |g.ring| == 256
  {
    match g.ring[block]
    case None => g.(lastConfirm := now)
    case Some(wave) =>
      var best := Max(Held(timestamp, wave.wireTs), wave.bestHeld);
      Gate(if wave.confirmed then g.inFlight else if g.inFlight <= 0 then 0 else g.inFlight - 1,
           NextEwma(g.ewma, best), now, g.ring[block := Some(SentWave(wave.wireTs, best, true))], g.nextBlock)
  }

  // ----- The sender -----

  /** The backlog gauge, aged by the time without a confirm. */
  function AgedBacklog(g: Gate, now: nat): nat {
    SatSub(g.ewma, Min(SatSub(SatSub(now, g.lastConfirm), 150), 0xFFFF_FFFF))
  }

  datatype Verdict = BacklogHigh | ClientBehind | Pass(healed: bool)

  /** The two gates a non-silent chunk meets. */
  function Judge(g: Gate, now: nat): Verdict {
    if AgedBacklog(g, now) > 400 then BacklogHigh
    else if g.inFlight < MAX_IN_FLIGHT then Pass(false)
    else if SatSub(now, g.lastConfirm) > 1500 then Pass(true)
    else ClientBehind
  }

  /** A chunk that passes is counted and recorded under its block number, unless
      the encoder refuses it; a stale count is reset before that. */
  function Send(g: Gate, now: nat, encoded: bool): Gate
    requires |g.ring| == 256
  {
    var verdict := Judge(g, now);
    if !verdict.Pass? then g
    else
      var count := if verdict.healed then 0 else g.inFlight;
      if !encoded then g.(inFlight := count)
      else
        g.(inFlight := count + 1,
           ring := g.ring[g.nextBlock := Some(SentWave(now % 0x1_0000, 0, false))],
           nextBlock := if g.nextBlock == 255 then 0 else g.nextBlock + 1)
  }

  /** A new `start`: counters reset, the ring kept. */
  function Restart(g: Gate): Gate { g.(inFlight := 0, lastConfirm := 0, nextBlock := 1) }

  // ----- Runs -----

  datatype Event = Chunk(silent: bool, now: nat, encoded: bool) | Confirmed(block: byte, timestamp: u16, now: nat) | Started

  function Step(g: Gate, e: Event): Gate
    requires |g.ring| == 256
  {
    match e
    case Chunk(silent, now, encoded) => if silent then g else Send(g, now, encoded)
    case Confirmed(block, timestamp, now) => Confirm(g, block, timestamp, now)
    case Started => Restart(g)
  }

  ghost predicate Bounded(g: Gate) {
    && |g.ring| == 256 && 0 <= g.inFlight <= MAX_IN_FLIGHT && g.ewma <= 5000
    && forall i :: 0 <= i < 256 && g.ring[i].Some? ==> g.ring[i].value.bestHeld <= 5000
  }

  lemma StepBounded(g: Gate, e: Event)
    requires Bounded(g)
    ensures Bounded(Step(g, e))
  {
  }

  /** Over all interleavings the in-flight count stays in 0..5 and the backlog
      gauge in 0..5000. */
  function Run(g: Gate, es: seq<Event>): (after: Gate)
    requires Bounded(g)
    ensures Bounded(after)
    decreases |es|
  {
    if es == [] then g else StepBounded(g, es[0]); Run(Step(g, es[0]), es[1..])
  }

  /** Blocks sent and not confirmed yet. */
  ghost function Unconfirmed(g: Gate): set<int>
    requires |g.ring| == 256
  {
    set i | 0 <= i < 256 && g.ring[i].Some? && !g.ring[i].value.confirmed
  }

  ghost predicate SendDisturbs(g: Gate, now: nat, encoded: bool)
    requires |g.ring| == 256 && Judge(g, now).Pass?
  {
    Judge(g, now).healed || (encoded && g.nextBlock in Unconfirmed(g))
  }

  /** The events after which the count is only an estimate: a self-heal, a wave
      recorded over an unconfirmed one, a restart with waves outstanding. */
  ghost predicate Disturbs(g: Gate, e: Event)
    requires |g.ring| == 256
  {
    match e
    case Chunk(silent, now, encoded) => !silent && Judge(g, now).Pass? && SendDisturbs(g, now, encoded)
    case Started => Unconfirmed(g) != {}
    case Confirmed(_, _, _) => false
  }

  /** The count is the number of unconfirmed blocks. */
  ghost predicate Exact(g: Gate)
    requires |g.ring| == 256
  {
    g.inFlight == |Unconfirmed(g)|
  }

  /** What a recorded wave does to the unconfirmed blocks. */
  lemma SendUnconfirmed(g: Gate, now: nat)
    requires Bounded(g) && Judge(g, now).Pass?
    ensures Unconfirmed(Send(g, now, true)) == Unconfirmed(g) + {g.nextBlock}
  {
  }

  /** The first confirm of a block takes it out, a repeated one changes nothing. */
  lemma ConfirmUnconfirmed(g: Gate, block: byte, timestamp: u16, now: nat)
    requires Bounded(g)
    ensures Unconfirmed(Confirm(g, block, timestamp, now)) == Unconfirmed(g) - {block as int}
  {
  }

  lemma RestartUnconfirmed(g: Gate)
    requires Bounded(g)
    ensures Unconfirmed(Restart(g)) == Unconfirmed(g)
  {
  }

  lemma SendExactIff(g: Gate, now: nat, encoded: bool)
    requires Bounded(g) && Exact(g) && Judge(g, now).Pass?
    ensures Exact(Send(g, now, encoded)) <==> !SendDisturbs(g, now, encoded)
  {
    SendUnconfirmed(g, now);
    CardAdd(Unconfirmed(g), g.nextBlock);
  }

  lemma ConfirmExact(g: Gate, block: byte, timestamp: u16, now: nat)
    requires Bounded(g) && Exact(g)
    ensures Exact(Confirm(g, block, timestamp, now))
  {
    ConfirmUnconfirmed(g, block, timestamp, now);
    CardRemove(Unconfirmed(g), block);
  }

  lemma CardAdd(s: set<int>, x: int)
    ensures |s + {x}| == if x in s then |s| else |s| + 1
  {
    if x in s { assert s + {x} == s; }
  }

  lemma CardRemove(s: set<int>, x: int)
    ensures |s - {x}| == if x in s then |s| - 1 else |s|
  {
    if x !in s { assert s - {x} == s; }
  }

  /** Exactly when a step keeps an exact count exact. */
  lemma StepExactIff(g: Gate, e: Event)
    requires Bounded(g) && Exact(g)
    ensures Exact(Step(g, e)) <==> !Disturbs(g, e)
  {
    match e
    case Chunk(silent, now, encoded) =>
      if !silent && Judge(g, now).Pass? { SendExactIff(g, now, encoded); }
    case Confirmed(block, timestamp, now) => ConfirmExact(g, block, timestamp, now);
    case Started => RestartUnconfirmed(g);
  }

  ghost predicate Undisturbed(g: Gate, es: seq<Event>)
    requires Bounded(g)
    decreases |es|
  {
    es != [] ==> !Disturbs(g, es[0]) && (StepBounded(g, es[0]); Undisturbed(Step(g, es[0]), es[1..]))
  }

  /** Without disturbance the count equals the unconfirmed blocks, however often
      each one is confirmed. */
  lemma {:induction false} RunExact(g: Gate, es: seq<Event>)
    requires Bounded(g) && Exact(g) && Undisturbed(g, es)
    ensures Exact(Run(g, es))
    decreases |es|
  {
    if es != [] {
      StepBounded(g, es[0]);
      StepExactIff(g, es[0]);
      RunExact(Step(g, es[0]), es[1..]);
    }
  }

  /** No wave takes over the slot of `block` in this step. */
  predicate KeepsSlot(g: Gate, block: byte, e: Event) {
    e.Chunk? && !e.silent && e.encoded && Judge(g, e.now).Pass? ==> g.nextBlock != block
  }

  ghost predicate KeepsSlotAlong(g: Gate, block: byte, es: seq<Event>)
    requires Bounded(g)
    decreases |es|
  {
    es != [] ==> KeepsSlot(g, block, es[0]) && (StepBounded(g, es[0]); KeepsSlotAlong(Step(g, es[0]), block, es[1..]))
  }

  /** The longest residence the confirms of `block` report, at least `best`. */
  function LongestHeld(es: seq<Event>, block: byte, wireTs: u16, best: nat): nat {
    if es == [] then best
    else
      LongestHeld(es[1..], block, wireTs,
                  if es[0].Confirmed? && es[0].block == block then Max(Held(es[0].timestamp, wireTs), best) else best)
  }

  lemma StepSlot(g: Gate, block: byte, e: Event)
    requires Bounded(g) && g.ring[block].Some? && KeepsSlot(g, block, e)
    ensures Step(g, e).ring[block].Some?
    ensures var was, now := g.ring[block].value, Step(g, e).ring[block].value;
            && now.wireTs == was.wireTs
            && now.bestHeld == (if e.Confirmed? && e.block == block then Max(Held(e.timestamp, was.wireTs), was.bestHeld)
                                else was.bestHeld)
            && now.confirmed == (was.confirmed || (e.Confirmed? && e.block == block))
  {
  }

  /** As long as its slot is not reused, a wave keeps the longest residence any
      of its confirms reported, whatever happens to other waves in between. */
  lemma {:induction false} RunSlot(g: Gate, block: byte, es: seq<Event>)
    requires Bounded(g) && g.ring[block].Some? && KeepsSlotAlong(g, block, es)
    ensures var was := g.ring[block].value;
            && Run(g, es).ring[block].Some?
            && Run(g, es).ring[block].value.wireTs == was.wireTs
            && Run(g, es).ring[block].value.bestHeld == LongestHeld(es, block, was.wireTs, was.bestHeld)
    decreases |es|
  {
    if es != [] {
      StepBounded(g, es[0]);
      StepSlot(g, block, es[0]);
      RunSlot(Step(g, es[0]), block, es[1..]);
    }
  }

  /** The gate cannot wedge: 4750 ms after the last confirm every non-silent
      chunk passes, whatever state the counters are in. */
  lemma NeverWedged(g: Gate, now: nat)
    requires Bounded(g) && now >= g.lastConfirm + 4750
    ensures Judge(g, now).Pass?
    ensures Send(g, now, true).inFlight == (if g.inFlight == MAX_IN_FLIGHT then 1 else g.inFlight + 1)
  {
  }

  /** The bound is tight: one millisecond earlier a full gauge still blocks. */
  lemma WedgedJustBefore(g: Gate, now: nat)
    requires Bounded(g) && g.ewma == 5000 && now == g.lastConfirm + 4749
    ensures Judge(g, now) == BacklogHigh
  {
  }

  // ----- From a confirm to the next chunk -----

  /** After a confirm of a recorded block the gauge moves a quarter of the way to
      the longest residence reported for that block, from empty all the way, and
      the time of the confirm is kept; an unknown block moves the time alone. */
  lemma GaugeFollows(g: Gate, block: byte, es: seq<Event>, timestamp: u16, now: nat)
    requires Bounded(g) && g.ring[block].Some? && KeepsSlotAlong(g, block, es)
    ensures var wave, before := g.ring[block].value, Run(g, es);
            var best := LongestHeld(es + [Confirmed(block, timestamp, now)], block, wave.wireTs, wave.bestHeld);
            var after := Step(before, Confirmed(block, timestamp, now));
            && after.lastConfirm == now
            && (before.ewma == 0 ==> after.ewma == best)
            && (before.ewma > 0 ==> 3 * before.ewma + best - 4 < 4 * after.ewma <= 3 * before.ewma + best + 3)
  {
    RunSlot(g, block, es);
    LongestHeldNext(es, block, timestamp, now, g.ring[block].value.wireTs, g.ring[block].value.bestHeld);
    var before := Run(g, es);
    var best := Max(Held(timestamp, before.ring[block].value.wireTs), before.ring[block].value.bestHeld);
    if before.ewma > 0 { EwmaQuarterStep(before.ewma, best); }
  }

  lemma {:induction false} LongestHeldNext(es: seq<Event>, block: byte, timestamp: u16, now: nat, wireTs: u16, best: nat)
    ensures LongestHeld(es + [Confirmed(block, timestamp, now)], block, wireTs, best)
         == Max(Held(timestamp, wireTs), LongestHeld(es, block, wireTs, best))
  {
    var e := Confirmed(block, timestamp, now);
    if es == [] {
      assert es + [e] == [e] && [e][1..] == [];
    } else {
      assert (es + [e])[1..] == es[1..] + [e];
      LongestHeldNext(es[1..], block, timestamp, now, wireTs,
                      if es[0].Confirmed? && es[0].block == block then Max(Held(es[0].timestamp, wireTs), best) else best);
    }
  }

  /** A chunk of this time is recorded under the next number and counted. */
  ghost predicate Goes(g: Gate, now: nat)
    requires |g.ring| == 256
  {
    var after := Step(g, Chunk(false, now, true));
    && after.ring == g.ring[g.nextBlock := Some(SentWave(now % 0x1_0000, 0, false))]
    && after.nextBlock == (g.nextBlock + 1) % 256 && (after.inFlight == g.inFlight + 1 || after.inFlight == 1)
  }

  /** The backlog gate over send, confirm and next chunk: on an empty gauge, a
      wave sent at `t` and held for `d` milliseconds by its confirm at `c` closes
      the gate until `c + d - 250` if `d` is over 400, and not at all otherwise. */
  lemma BacklogGateIff(g: Gate, t: nat, c: nat, d: nat, now: nat)
    requires Bounded(g) && g.ewma == 0 && Goes(g, t) && d <= 5000 && c <= now
    ensures var sent := Step(g, Chunk(false, t, true));
            var heard := Step(sent, Confirmed(g.nextBlock, (t + d) % 0x1_0000, c));
            && |heard.ring| == 256 && heard.lastConfirm == c && heard.ewma == d
            && (Judge(heard, now).BacklogHigh? <==> 400 < d && now < c + d - 250)
            && (400 < d && now < c + d - 250 ==> Step(heard, Chunk(false, now, true)) == heard)
            && (!(400 < d && now < c + d - 250) ==> Goes(heard, now))
  {
    HeldAcrossWrap(t, d);
    var sent := Step(g, Chunk(false, t, true));
    assert sent.ring[g.nextBlock] == Some(SentWave(t % 0x1_0000, 0, false));
  }

  /** The in-flight gate on an empty gauge: with five waves unconfirmed a chunk
      goes out only when the last confirm is more than 1500 ms old, and the count
      starts over; with fewer it always does. */
  lemma FlightGateIff(g: Gate, now: nat)
    requires Bounded(g) && g.ewma == 0
    ensures Goes(g, now) <==> g.inFlight < 5 || now > g.lastConfirm + 1500
    ensures !Goes(g, now) ==> Step(g, Chunk(false, now, true)) == g
    ensures Goes(g, now) ==> Step(g, Chunk(false, now, true)).inFlight == if g.inFlight < 5 then g.inFlight + 1 else 1
  {
    if g.inFlight >= 5 && now <= g.lastConfirm + 1500 {
      assert Step(g, Chunk(false, now, true)).nextBlock == g.nextBlock;
    }
  }

  /** A confirm of a block that is not on record still shows that the client is
      there: the count is not given up before 1500 ms have passed since. */
  lemma UnknownConfirmDelays(g: Gate, block: byte, timestamp: u16, c: nat, now: nat)
    requires Bounded(g) && g.ewma == 0 && g.inFlight == 5 && g.ring[block].None?
    ensures Goes(Step(g, Confirmed(block, timestamp, c)), now) <==> now > c + 1500
  {
    FlightGateIff(Step(g, Confirmed(block, timestamp, c)), now);
  }

  /** After a restart the first wave is number 1, alone in flight. */
  lemma RestartBegins(g: Gate, now: nat)
    requires Bounded(g) && g.ewma == 0
    ensures var after := Step(Step(g, Started), Chunk(false, now, true));
            after.ring == g.ring[1 := Some(SentWave(now % 0x1_0000, 0, false))] && after.inFlight == 1 && after.nextBlock == 2
  {
  }

  // ----- Capture: backlog and chunks -----

  const CHUNK_BYTES: nat := 7680
  const MAX_QUEUE: nat := 8

  /** What became of a stretch of captured bytes. */
  datatype Piece = Dropped(bytes: seq<byte>) | Sent(bytes: seq<byte>)

  /** One turn of the capture loop: append, cap by dropping the oldest, extract
      one chunk. */
  function CaptureTurn(backlog: seq<byte>, data: seq<byte>): (seq<Piece>, seq<byte>) {
    var all := backlog + data;
    var excess := if |all| > MAX_QUEUE * CHUNK_BYTES then |all| - CHUNK_BYTES else 0;
    var dropped, kept := (if excess > 0 then [Dropped(all[..excess])] else []), all[excess..];
    if |kept| >= CHUNK_BYTES then (dropped + [Sent(kept[..CHUNK_BYTES])], kept[CHUNK_BYTES..]) else (dropped, kept)
  }

  function Bytes(pieces: seq<Piece>): seq<byte> {
    if pieces == [] then [] else pieces[0].bytes + Bytes(pieces[1..])
  }

  function Joined(data: seq<seq<byte>>): seq<byte> {
    if data == [] then [] else data[0] + Joined(data[1..])
  }

  lemma {:induction false} BytesAppend(a: seq<Piece>, b: seq<Piece>)
    ensures Bytes(a + b) == Bytes(a) + Bytes(b)
  {
    if a == [] {
      assert a + b == b;
    } else {
      assert (a + b)[1..] == a[1..] + b;
      BytesAppend(a[1..], b);
    }
  }

  /** Every byte is sent, dropped or still queued, in order and exactly once;
      waves are whole chunks, only an overfull queue loses bytes, and what stays
      queued is bounded. */
  ghost predicate Conserved(all: seq<byte>, pieces: seq<Piece>, left: seq<byte>) {
    && Bytes(pieces) + left == all && |left| <= (MAX_QUEUE - 1) * CHUNK_BYTES
    && forall i :: 0 <= i < |pieces| ==>
         if pieces[i].Sent? then |pieces[i].bytes| == CHUNK_BYTES else |pieces[i].bytes| > (MAX_QUEUE - 1) * CHUNK_BYTES
  }

  lemma TurnConserves(backlog: seq<byte>, data: seq<byte>)
    ensures Conserved(backlog + data, CaptureTurn(backlog, data).0, CaptureTurn(backlog, data).1)
  {
    var all := backlog + data;
    var excess := if |all| > MAX_QUEUE * CHUNK_BYTES then |all| - CHUNK_BYTES else 0;
    var kept := all[excess..];
    assert all == all[..excess] + kept;
    if |kept| >= CHUNK_BYTES {
      assert kept == kept[..CHUNK_BYTES] + kept[CHUNK_BYTES..];
      BytesAppend(if excess > 0 then [Dropped(all[..excess])] else [], [Sent(kept[..CHUNK_BYTES])]);
    }
  }

  /** A turn with a chunk's worth of bytes sends one; more than 61440 bytes are
      cut to the newest 7680 before that. */
  lemma TurnSends(backlog: seq<byte>, data: seq<byte>)
    ensures var all := backlog + data;
            var (pieces, left) := CaptureTurn(backlog, data);
            if |all| < 7680 then pieces == [] && left == all
            else if |all| <= 61440 then pieces == [Sent(all[..7680])] && left == all[7680..]
            else pieces == [Dropped(all[..|all| - 7680]), Sent(all[|all| - 7680..])] && left == []
  {
    var all := backlog + data;
    assert all[0..] == all;
    if |all| > 61440 {
      var kept := all[|all| - 7680..];
      assert kept[..7680] == kept && kept[7680..] == [];
    }
  }

  lemma ConservedThen(all: seq<byte>, pieces: seq<Piece>, rest: seq<byte>, data: seq<byte>, more: seq<Piece>,
                      left: seq<byte>)
    requires Conserved(all, pieces, rest) && Conserved(rest + data, more, left)
    ensures Conserved(all + data, pieces + more, left)
  {
    BytesAppend(pieces, more);
    calc {
      Bytes(pieces + more) + left;
      Bytes(pieces) + (Bytes(more) + left);
      Bytes(pieces) + (rest + data);
      all + data;
    }
  }

  lemma {:induction false} JoinedNext(data: seq<seq<byte>>, i: nat)
    requires i < |data|
    ensures Joined(data[..i + 1]) == Joined(data[..i]) + data[i]
    decreases i
  {
    if i == 0 {
      assert data[..1][1..] == [];
    } else {
      assert data[..i + 1][1..] == data[1..][..i] && data[..i][1..] == data[1..][..i - 1];
      JoinedNext(data[1..], i - 1);
    }
  }

  /** The capture loop over everything it read from the monitor. */
  method CaptureLoop(data: seq<seq<byte>>) returns (pieces: seq<Piece>, backlog: seq<byte>)
    ensures Conserved(Joined(data), pieces, backlog)
  {
    pieces, backlog := [], [];
    var i := 0;
    assert data[..0] == [];
    while i < |data|
      invariant i <= |data| && Conserved(Joined(data[..i]), pieces, backlog)
    {
      var (more, left) := CaptureTurn(backlog, data[i]);
      TurnConserves(backlog, data[i]);
      ConservedThen(Joined(data[..i]), pieces, backlog, data[i], more, left);
      JoinedNext(data, i);
      pieces, backlog, i := pieces + more, left, i + 1;
    }
    assert data[..i] == data;
  }

  // ----- The handler -----

  class SoundHandler {
    var inFlight: int
    var lastConfirmMs: nat
    var heldEwmaMs: nat
    var sendBlockNo: byte
    const sent: array<Option<SentWave>>

    ghost function State(): Gate
      reads this, sent
    {
      Gate(inFlight, heldEwmaMs, lastConfirmMs, sent[..], sendBlockNo)
    }

    constructor ()
      ensures Bounded(State()) && Exact(State()) && fresh(sent)
    {
      inFlight, lastConfirmMs, heldEwmaMs, sendBlockNo := 0, 0, 0, 1;
      sent := new Option<SentWave>[256](_ => None);
      new;
      assert Unconfirmed(State()) == {};
    }

    /** `wave_confirm`. */
    method WaveConfirm(block: byte, timestamp: u16, now: nat)
      requires sent.Length == 256
      modifies this, sent
      ensures State() == Confirm(old(State()), block, timestamp, now)
    {
      if sent[block].Some? {
        var wave := sent[block].value;
        var held := Held(timestamp, wave.wireTs);
        var best := Max(held, wave.bestHeld);
        sent[block] := Some(SentWave(wave.wireTs, best, true));
        if !wave.confirmed {
          var prev := inFlight;
          inFlight := inFlight - 1;
          if prev <= 0 {
            inFlight := 0;
          }
        }
        heldEwmaMs := NextEwma(heldEwmaMs, best);
      }
      lastConfirmMs := now;
    }

    /** One non-silent chunk of the sender loop; whether it went out. */
    method SendChunk(now: nat, encoded: bool) returns (went: bool)
      requires sent.Length == 256
      modifies this, sent
      ensures State() == Send(old(State()), now, encoded) && went == (Judge(old(State()), now).Pass? && encoded)
    {
      var sinceConfirm := SatSub(now, lastConfirmMs);
      var held := SatSub(heldEwmaMs, Min(SatSub(sinceConfirm, 150), 0xFFFF_FFFF));
      if held > 400 {
        return false;
      }
      if inFlight >= MAX_IN_FLIGHT {
        if SatSub(now, lastConfirmMs) > 1500 {
          inFlight := 0;
        } else {
          return false;
        }
      }
      if !encoded {
        return false;
      }
      inFlight := inFlight + 1;
      sent[sendBlockNo] := Some(SentWave(now % 0x1_0000, 0, false));
      sendBlockNo := if sendBlockNo == 255 then 0 else sendBlockNo + 1;
      return true;
    }
  }
}
