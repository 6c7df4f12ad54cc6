/**
 Exactly when the microphone channel is asked for and when it is closed, over
 every run of the watcher (linrdp/src/mic.rs, `Control::next`).
 */
module MicTurns {
  import opened Prelude
  import opened MicControl

  /** The watcher of turn `n` once reply and fate are acted on. */
  function Informed(ts: seq<Tick>, n: nat): Watch
    requires n < |ts|
  {
    TakeFate(TakeReply(Before(ts, n), ts[n]), ts[n])
  }

  /** What the rest of the turn does with it. */
  lemma TurnIs(ts: seq<Tick>, n: nat)
    requires n < |ts|
    ensures Consistent(Informed(ts, n))
    ensures var (c, step) := Next(Informed(ts, n).control, ts[n].recording, ts[n].now);
            && Does(ts, n) == step && Before(ts, n + 1).control == c
            && Before(ts, n + 1).current
               == match step case Stay => Informed(ts, n).current case Open => Awaiting case Close(_) => Nothing
  {
    RunConsistent(ts, n);
  }

  // ----- Opening -----

  ghost predicate RefusedBy(ts: seq<Tick>, n: nat)
    requires n <= |ts|
  {
    exists r :: 0 <= r < n && LearnsRefusal(ts, r)
  }

  /** The client closed the channel and recording has not stopped since. */
  ghost predicate WaitsFrom(ts: seq<Tick>, c: nat, n: nat)
    requires n <= |ts|
  {
    c < n && LearnsClose(ts, c) && forall k :: c <= k < n ==> ts[k].recording
  }

  lemma InformedRefused(ts: seq<Tick>, n: nat)
    requires n < |ts|
    ensures Informed(ts, n).control.unavailable <==> Before(ts, n).control.unavailable || LearnsRefusal(ts, n)
  {
    RunConsistent(ts, n);
  }

  lemma InformedWaits(ts: seq<Tick>, n: nat)
    requires n < |ts|
    ensures Informed(ts, n).control.waitForStop <==> Before(ts, n).control.waitForStop || LearnsClose(ts, n)
  {
    RunConsistent(ts, n);
  }

  lemma {:induction false} UnavailableIff(ts: seq<Tick>, n: nat)
    requires n <= |ts|
    ensures Before(ts, n).control.unavailable <==> RefusedBy(ts, n)
  {
    if n > 0 {
      UnavailableIff(ts, n - 1);
      InformedRefused(ts, n - 1);
      TurnIs(ts, n - 1);
    }
  }

  lemma WaitsNext(ts: seq<Tick>, m: nat, n: nat)
    requires n == m + 1 <= |ts|
    ensures (exists c: nat :: WaitsFrom(ts, c, n))
       <==> ts[m].recording && (LearnsClose(ts, m) || exists c: nat :: WaitsFrom(ts, c, m))
  {
    if c: nat :| WaitsFrom(ts, c, n) {
      if c < m { assert WaitsFrom(ts, c, m); }
    }
    if ts[m].recording {
      if LearnsClose(ts, m) {
        assert WaitsFrom(ts, m, n);
      } else if c: nat :| WaitsFrom(ts, c, m) {
        assert WaitsFrom(ts, c, n);
      }
    }
  }

  lemma {:induction false} WaitsIff(ts: seq<Tick>, n: nat)
    requires n <= |ts|
    ensures Before(ts, n).control.waitForStop <==> exists c: nat :: WaitsFrom(ts, c, n)
  {
    if n > 0 {
      var m := n - 1;
      WaitsIff(ts, m);
      InformedWaits(ts, m);
      TurnIs(ts, m);
      WaitsNext(ts, m, n);
    }
  }

  /** Recording stopped at some turn from `c` on. */
  ghost predicate StoppedSince(ts: seq<Tick>, c: nat, n: nat)
    requires n <= |ts|
  {
    exists k :: c <= k < n && !ts[k].recording
  }

  ghost predicate StoppedAfterCloses(ts: seq<Tick>, n: nat)
    requires n < |ts|
  {
    forall c: nat :: c <= n && LearnsClose(ts, c) ==> StoppedSince(ts, c, n)
  }

  lemma InformedWaitsIff(ts: seq<Tick>, n: nat)
    requires n < |ts|
    ensures Informed(ts, n).control.waitForStop <==> !StoppedAfterCloses(ts, n)
  {
    InformedWaits(ts, n);
    WaitsIff(ts, n);
    if LearnsClose(ts, n) {
      assert !StoppedSince(ts, n, n);
    } else if c: nat :| WaitsFrom(ts, c, n) {
      assert !StoppedSince(ts, c, n);
    } else {
      forall c: nat | c <= n && LearnsClose(ts, c)
        ensures StoppedSince(ts, c, n)
      {
        assert !WaitsFrom(ts, c, n);
      }
    }
  }

  /** Over every run: a turn asks for the channel if and only if something
      records, there is no channel, none was ever refused, and recording stopped
      since each time the client closed one. */
  lemma OpensIff(ts: seq<Tick>, n: nat)
    requires n < |ts|
    ensures Does(ts, n).Open? <==>
              ts[n].recording && Informed(ts, n).current.Nothing? && !RefusedBy(ts, n + 1) && StoppedAfterCloses(ts, n)
  {
    TurnIs(ts, n);
    UnavailableIff(ts, n + 1);
    InformedWaitsIff(ts, n);
  }

  /** After a client close and a stop, the next recording is served. */
  lemma OpensAgain(ts: seq<Tick>, c: nat, stop: nat, n: nat)
    requires c <= stop < n < |ts| && LearnsClose(ts, c) && !ts[stop].recording && ts[n].recording
    requires !RefusedBy(ts, n + 1) && forall k: nat :: c <= k < n ==> !Does(ts, k).Open?
    ensures Does(ts, n).Open?
  {
    StaysClosed(ts, c, n);
    forall d: nat | d <= n && LearnsClose(ts, d)
      ensures StoppedSince(ts, d, n)
    {
      if d > c { StaysClosed(ts, c, d); }
      assert d <= stop;
    }
    OpensIff(ts, n);
  }

  lemma {:induction false} StaysClosed(ts: seq<Tick>, c: nat, n: nat)
    requires c < n < |ts| && LearnsClose(ts, c) && forall k: nat :: c <= k < n ==> !Does(ts, k).Open?
    ensures Before(ts, n).current.Nothing? && Informed(ts, n).current.Nothing? && !LearnsClose(ts, n)
    decreases n
  {
    TurnIs(ts, n - 1);
    assert !Does(ts, n - 1).Open?;
    if c < n - 1 {
      StaysClosed(ts, c, n - 1);
    } else {
      assert Informed(ts, c).current.Nothing?;
    }
  }

  // ----- Closing -----

  /** In turn `k` the channel is open and nothing records. */
  ghost predicate QuietIn(ts: seq<Tick>, k: nat)
    requires k < |ts|
  {
    !ts[k].recording && Informed(ts, k).control.channel.Opened?
  }

  /** And so in all turns from `start` to `n`. */
  ghost predicate QuietFrom(ts: seq<Tick>, start: nat, n: nat)
    requires n < |ts|
  {
    start <= n && forall k: nat :: start <= k <= n ==> QuietIn(ts, k)
  }

  ghost predicate Ordered(ts: seq<Tick>) { forall i, j :: 0 <= i <= j < |ts| ==> ts[i].now <= ts[j].now }

  /** A turn that finds the channel open found it open before, with its idle
      time, or just learnt its ID, with none. */
  lemma OpenFrom(ts: seq<Tick>, n: nat)
    requires n < |ts| && Informed(ts, n).control.channel.Opened?
    ensures if Before(ts, n).control.channel.Opened?
            then Informed(ts, n).control.idleSince == Before(ts, n).control.idleSince
            else Before(ts, n).control.channel.Requested? && Informed(ts, n).control.idleSince.None?
  {
    RunConsistent(ts, n);
  }

  /** A channel open in the next turn too was not closed in this one, which
      started or kept the idle time. */
  lemma QuietTurn(ts: seq<Tick>, n: nat)
    requires n + 1 < |ts| && QuietIn(ts, n) && QuietIn(ts, n + 1)
    ensures var since := Informed(ts, n).control.idleSince;
            Informed(ts, n + 1).control.idleSince == if since.Some? then since else Some(ts[n].now)
  {
    TurnIs(ts, n);
    OpenFrom(ts, n + 1);
  }

  lemma NotLater(ts: seq<Tick>, i: nat, j: nat)
    requires Ordered(ts) && i <= j < |ts|
    ensures ts[i].now <= ts[j].now
  {
  }

  /** An idle time found in turn `n` is no later than that turn. */
  lemma FoundIdle(ts: seq<Tick>, n: nat)
    requires n < |ts| && Ordered(ts) && Informed(ts, n).control.channel.Opened? && Informed(ts, n).control.idleSince.Some?
    ensures Informed(ts, n).control.idleSince.value <= ts[n].now
  {
    OpenFrom(ts, n);
    var first := IdleMeansQuiet(ts, n);
    NotLater(ts, first, n);
  }

  lemma QuietWithin(ts: seq<Tick>, start: nat, m: nat, n: nat)
    requires m + 1 == n < |ts| && start <= m && QuietFrom(ts, start, n)
    ensures QuietFrom(ts, start, m) && QuietIn(ts, m) && QuietIn(ts, n)
  {
  }

  /** The idle time kept is no later than the first quiet turn. */
  lemma {:induction false} IdleSinceStart(ts: seq<Tick>, start: nat, n: nat)
    requires n < |ts| && Ordered(ts) && QuietFrom(ts, start, n) && start < n
    ensures var since := Informed(ts, n).control.idleSince; since.Some? && since.value <= ts[start].now
    decreases n
  {
    var m := n - 1;
    QuietWithin(ts, start, m, n);
    QuietTurn(ts, m);
    if start < m {
      IdleSinceStart(ts, start, m);
    } else if Informed(ts, m).control.idleSince.Some? {
      FoundIdle(ts, m);
    }
  }

  /** The turns of a kept idle time all found the channel open. */
  lemma {:induction false} IdleAndOpen(ts: seq<Tick>, n: nat) returns (start: nat)
    requires 0 < n <= |ts| && Before(ts, n).control.channel.Opened? && Before(ts, n).control.idleSince.Some?
    ensures start < n && ts[start].now == Before(ts, n).control.idleSince.value && QuietFrom(ts, start, n - 1)
    decreases n
  {
    TurnIs(ts, n - 1);
    OpenFrom(ts, n - 1);
    assert QuietIn(ts, n - 1);
    if Before(ts, n - 1).control.channel.Opened? && Before(ts, n - 1).control.idleSince.Some? {
      FirstTurn(ts, n - 1);
      start := IdleAndOpen(ts, n - 1);
    } else {
      start := n - 1;
    }
  }

  lemma FirstTurn(ts: seq<Tick>, n: nat)
    requires n <= |ts| && Before(ts, n).control.channel.Opened?
    ensures n > 0
  {
  }

  lemma QuietStretch(ts: seq<Tick>, n: nat) returns (start: nat)
    requires n < |ts| && Does(ts, n).Close?
    ensures QuietFrom(ts, start, n) && ts[n].now - ts[start].now >= 2000
  {
    TurnIs(ts, n);
    OpenFrom(ts, n);
    FirstTurn(ts, n);
    assert QuietIn(ts, n);
    start := IdleAndOpen(ts, n);
  }

  /** Over every run with a clock that does not run back: a turn closes the
      channel if and only if the channel was open, with nothing recording, in
      every turn of a stretch of at least two seconds up to it. */
  lemma ClosesIff(ts: seq<Tick>, n: nat)
    requires n < |ts| && Ordered(ts)
    ensures Does(ts, n).Close? <==> exists start: nat :: QuietFrom(ts, start, n) && ts[n].now - ts[start].now >= 2000
  {
    if start: nat :| QuietFrom(ts, start, n) && ts[n].now - ts[start].now >= 2000 {
      IdleSinceStart(ts, start, n);
      assert QuietIn(ts, n);
      TurnIs(ts, n);
    }
    if Does(ts, n).Close? {
      var start := QuietStretch(ts, n);
    }
  }
}
