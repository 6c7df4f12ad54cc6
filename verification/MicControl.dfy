/**
 When the microphone channel opens and closes (linrdp/src/mic.rs, `Control` and
 the reply and fate handling of `Watcher::tick`).
 */
module MicControl {
  import opened Prelude

  type Time = int

  const CLOSE_DELAY: Time := 2000

  datatype Channel = NoChannel | Requested | Opened(id: nat)

  datatype Step = Stay | Open | Close(id: nat)

  datatype ControlState = ControlState(channel: Channel, unavailable: bool, waitForStop: bool, idleSince: Option<Time>)

  const FRESH := ControlState(NoChannel, false, false, None)

  function Next(c: ControlState, recording: bool, now: Time): (ControlState, Step) {
    var c := if recording then c else c.(waitForStop := false);
    match c.channel
    case NoChannel =>
      if recording && !c.unavailable && !c.waitForStop then (c.(channel := Requested), Open) else (c, Stay)
    case Requested => (c, Stay)
    case Opened(id) =>
      if recording then (c.(idleSince := None), Stay)
      else
        var since := if c.idleSince.Some? then c.idleSince.value else now;
        if now - since < CLOSE_DELAY then (c.(idleSince := Some(since)), Stay)
        else (c.(channel := NoChannel, idleSince := None), Close(id))
  }

  function Assigned(c: ControlState, id: Option<nat>): ControlState {
    if id.Some? then c.(channel := Opened(id.value)) else c.(channel := NoChannel, unavailable := true)
  }

  function Refused(c: ControlState): ControlState { c.(channel := NoChannel, unavailable := true) }

  function ClosedByClient(c: ControlState): ControlState {
    c.(channel := NoChannel, idleSince := None, waitForStop := true)
  }

  // ----- The watcher -----

  /** What the connection's one-shot reply channel holds. */
  datatype Reply = Empty | Id(id: nat) | NoChannels | Gone

  /** `current`: no channel, one whose ID is awaited, one whose ID is known. */
  datatype Current = Nothing | Awaiting | Known

  datatype Watch = Watch(control: ControlState, current: Current)

  /** Everything one turn of the loop observes. */
  datatype Tick = Tick(recording: bool, now: Time, reply: Reply, refused: bool, closed: bool)

  /** Act on a reply, if one is awaited. */
  function TakeReply(w: Watch, t: Tick): Watch {
    if !w.current.Awaiting? || t.reply.Empty? then w
    else if t.reply.Id? then Watch(Assigned(w.control, Some(t.reply.id)), Known)
    else Watch(Assigned(w.control, None), Nothing)
  }

  /** Act on what became of the current channel. */
  function TakeFate(w: Watch, t: Tick): Watch {
    if w.current.Nothing? then w
    else if t.refused then Watch(Refused(w.control), Nothing)
    else if t.closed then Watch(ClosedByClient(w.control), Nothing)
    else w
  }

  function TickStep(w: Watch, t: Tick): (Watch, Step) {
    var w1 := TakeFate(TakeReply(w, t), t);
    var (c, step) := Next(w1.control, t.recording, t.now);
    (Watch(c, match step case Stay => w1.current case Open => Awaiting case Close(_) => Nothing), step)
  }

  // ----- Runs -----

  /** The watcher before turn `n`, and what it does in turn `n`. */
  function Before(ts: seq<Tick>, n: nat): Watch
    requires n <= |ts|
  {
    if n == 0 then Watch(FRESH, Nothing) else TickStep(Before(ts, n - 1), ts[n - 1]).0
  }

  function Does(ts: seq<Tick>, n: nat): Step
    requires n < |ts|
  {
    TickStep(Before(ts, n), ts[n]).1
  }

  /** Turn `n` learns that there will be no channel: refused, or none to give. */
  predicate LearnsRefusal(ts: seq<Tick>, n: nat)
    requires n < |ts|
  {
    var w, t := Before(ts, n), ts[n];
    || (w.current.Awaiting? && (t.reply.NoChannels? || t.reply.Gone?))
    || (!TakeReply(w, t).current.Nothing? && t.refused)
  }

  /** Turn `n` learns that the client closed the channel. */
  predicate LearnsClose(ts: seq<Tick>, n: nat)
    requires n < |ts|
  {
    !TakeReply(Before(ts, n), ts[n]).current.Nothing? && !ts[n].refused && ts[n].closed
  }

  /** Turn `n` learns the ID of the requested channel. */
  predicate LearnsId(ts: seq<Tick>, n: nat, id: nat)
    requires n < |ts|
  {
    Before(ts, n).current.Awaiting? && ts[n].reply == Id(id)
  }

  /** The channel and the watcher's bookkeeping agree; idle time is only ever
      kept for an open channel that can still be closed. */
  ghost predicate Consistent(w: Watch) {
    && (w.control.channel.Requested? ==> w.current.Awaiting?)
    && (w.control.channel.Opened? <==> w.current.Known?)
    && (w.current.Awaiting? ==> w.control.channel.Requested?)
    && (!w.control.channel.Opened? && !w.control.unavailable ==> w.control.idleSince.None?)
    && (w.control.unavailable ==> w.control.channel.NoChannel?)
  }

  lemma {:induction false} RunConsistent(ts: seq<Tick>, n: nat)
    requires n <= |ts|
    ensures Consistent(Before(ts, n))
  {
    if n > 0 { RunConsistent(ts, n - 1); }
  }

  /** Once refused or without channels, nothing is asked again. */
  lemma {:induction false} RefusalIsFinal(ts: seq<Tick>, r: nat, n: nat)
    requires r <= n < |ts| && LearnsRefusal(ts, r)
    ensures !Does(ts, n).Open? && Before(ts, n + 1).control.unavailable
    decreases n
  {
    RunConsistent(ts, n);
    if r < n { RefusalIsFinal(ts, r, n - 1); }
  }

  /** After the client closes the channel, it is asked again only once an
      observation, from the closing turn on, was not recording. */
  lemma {:induction false} ReopenNeedsAStop(ts: seq<Tick>, c: nat, n: nat) returns (stop: nat)
    requires c <= n < |ts| && LearnsClose(ts, c) && Does(ts, n).Open?
    ensures c <= stop < n && !ts[stop].recording
  {
    if forall k :: c <= k < n ==> ts[k].recording {
      StillWaiting(ts, c, n);
      assert false;
    }
    stop :| c <= stop < n && !ts[stop].recording;
  }

  lemma {:induction false} StillWaiting(ts: seq<Tick>, c: nat, n: nat)
    requires c <= n < |ts| && LearnsClose(ts, c) && forall k :: c <= k < n ==> ts[k].recording
    ensures !Does(ts, n).Open?
    ensures ts[n].recording ==> var w := Before(ts, n + 1); w.control.channel.NoChannel? && w.control.waitForStop && w.current.Nothing?
    decreases n
  {
    if c < n {
      StillWaiting(ts, c, n - 1);
    }
  }

  /** A kept idle time is the start of an unbroken stretch of observations that
      were not recording. */
  lemma {:induction false} IdleMeansQuiet(ts: seq<Tick>, n: nat) returns (start: nat)
    requires n <= |ts| && Before(ts, n).control.channel.Opened? && Before(ts, n).control.idleSince.Some?
    ensures start < n && ts[start].now == Before(ts, n).control.idleSince.value
    ensures forall k :: start <= k < n ==> !ts[k].recording
    decreases n
  {
    RunConsistent(ts, n - 1);
    var w := Before(ts, n - 1);
    if w.control.channel.Opened? && w.control.idleSince.Some? {
      start := IdleMeansQuiet(ts, n - 1);
    } else {
      start := n - 1;
    }
  }

  /** A channel is closed only after at least two seconds in which every
      observation was not recording. */
  lemma CloseNeedsQuiet(ts: seq<Tick>, n: nat) returns (start: nat)
    requires n < |ts| && Does(ts, n).Close?
    ensures start <= n && ts[n].now - ts[start].now >= CLOSE_DELAY
    ensures forall k :: start <= k <= n ==> !ts[k].recording
  {
    RunConsistent(ts, n);
    start := IdleMeansQuiet(ts, n);
  }

  /** A channel found open was open before, or its ID was learnt just now. */
  lemma OpenedBefore(ts: seq<Tick>, n: nat)
    requires n <= |ts| && Before(ts, n).control.channel.Opened?
    ensures n > 0 && !Does(ts, n - 1).Open?
    ensures var was := Before(ts, n - 1).control.channel;
            if was.Opened? then was == Before(ts, n).control.channel
            else was.Requested? && LearnsId(ts, n - 1, Before(ts, n).control.channel.id)
  {
    RunConsistent(ts, n - 1);
  }

  /** The ID of an open channel is the one learnt since the latest opening. */
  lemma {:induction false} OpenedIdIsLatest(ts: seq<Tick>, n: nat) returns (asked: nat, learnt: nat)
    requires n <= |ts| && Before(ts, n).control.channel.Opened?
    ensures asked < learnt < n && Does(ts, asked).Open? && LearnsId(ts, learnt, Before(ts, n).control.channel.id)
    ensures forall k :: asked < k < n ==> !Does(ts, k).Open?
    decreases n
  {
    OpenedBefore(ts, n);
    if Before(ts, n - 1).control.channel.Opened? {
      asked, learnt := OpenedIdIsLatest(ts, n - 1);
    } else {
      learnt := n - 1;
      asked := RequestedByOpen(ts, n - 1);
    }
  }

  lemma {:induction false} RequestedByOpen(ts: seq<Tick>, n: nat) returns (asked: nat)
    requires n <= |ts| && Before(ts, n).control.channel.Requested?
    ensures asked < n && Does(ts, asked).Open? && forall k :: asked < k < n ==> !Does(ts, k).Open?
    decreases n
  {
    RunConsistent(ts, n - 1);
    if Does(ts, n - 1).Open? {
      asked := n - 1;
    } else {
      asked := RequestedByOpen(ts, n - 1);
    }
  }

  /** `Close` names the ID the connection gave to the latest `Open`. */
  lemma CloseNamesLatestOpen(ts: seq<Tick>, n: nat) returns (asked: nat, learnt: nat)
    requires n < |ts| && Does(ts, n).Close?
    ensures asked < learnt <= n && Does(ts, asked).Open? && LearnsId(ts, learnt, Does(ts, n).id)
    ensures forall k :: asked < k < n ==> !Does(ts, k).Open?
  {
    RunConsistent(ts, n);
    if Before(ts, n).control.channel.Opened? {
      asked, learnt := OpenedIdIsLatest(ts, n);
    } else {
      learnt := n;
      asked := RequestedByOpen(ts, n);
    }
  }

  // ----- The objects -----

  class Control {
    var channel: Channel
    var unavailable: bool
    var waitForStop: bool
    var idleSince: Option<Time>

    ghost function State(): ControlState
      reads this
    {
      ControlState(channel, unavailable, waitForStop, idleSince)
    }

    constructor ()
      ensures State() == FRESH
    {
      channel, unavailable, waitForStop, idleSince := NoChannel, false, false, None;
    }

    method Advance(recording: bool, now: Time) returns (step: Step)
      modifies this
      ensures (State(), step) == Next(old(State()), recording, now)
    {
      if !recording {
        waitForStop := false;
      }
      if channel.NoChannel? && recording && !unavailable && !waitForStop {
        channel := Requested;
        return Open;
      }
      if !channel.Opened? {
        return Stay;
      }
      if recording {
        idleSince := None;
        return Stay;
      }
      if idleSince.None? {
        idleSince := Some(now);
      }
      if now - idleSince.value < CLOSE_DELAY {
        return Stay;
      }
      var id := channel.id;
      channel, idleSince := NoChannel, None;
      return Close(id);
    }

    method OnAssigned(id: Option<nat>)
      modifies this
      ensures State() == Assigned(old(State()), id)
    {
      match id
      case Some(id) => channel := Opened(id);
      case None => channel, unavailable := NoChannel, true;
    }

    method OnRefused()
      modifies this
      ensures State() == Refused(old(State()))
    {
      channel, unavailable := NoChannel, true;
    }

    method OnClosedByClient()
      modifies this
      ensures State() == ClosedByClient(old(State()))
    {
      channel, idleSince, waitForStop := NoChannel, None, true;
    }
  }

  class Watcher {
    const control: Control
    var current: Current

    ghost function State(): Watch
      reads this, control
    {
      Watch(control.State(), current)
    }

    constructor ()
      ensures State() == Watch(FRESH, Nothing) && fresh(control)
    {
      control := new Control();
      current := Nothing;
    }

    /** One turn of the loop: a step of the run. */
    method Turn(t: Tick) returns (step: Step)
      modifies this, control
      ensures (State(), step) == TickStep(old(State()), t)
    {
      if current.Awaiting? {
        match t.reply
        case Empty =>
        case Id(id) =>
          current := Known;
          control.OnAssigned(Some(id));
        case NoChannels =>
          control.OnAssigned(None);
          current := Nothing;
        case Gone =>
          control.OnAssigned(None);
          current := Nothing;
      }
      if !current.Nothing? {
        if t.refused {
          control.OnRefused();
          current := Nothing;
        } else if t.closed {
          control.OnClosedByClient();
          current := Nothing;
        }
      }
      step := control.Advance(t.recording, t.now);
      match step
      case Stay =>
      case Open => current := Awaiting;
      case Close(_) => current := Nothing;
    }
  }
}
