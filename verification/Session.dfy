/**
 The grabber and the display loop together: an X screen, the polls of its
 grabber, the frames the loop makes of them and the client that shows them.
 */
module Session {
  import opened Prelude
  import opened Geometry
  import Frames
  import opened Capture
  import opened Pipeline
  import opened DebtSafety
  import opened DisplayRuns
  import opened DisplayLoop

  /** What happens next. */
  datatype Tick =
    | Draws(next: Shot)
    | Polls(setupOk: bool, trouble: bool, meanwhile: Option<Shot>, reply: Reply, root: Option<Shot>,
            env: Env, route: Route)
    | Acts(a: Async)
    | Reopens
    | Asks(area: Rect)
    | Loses(first: Shot)

  predicate ShotsOk(t: Tick) {
    match t
    case Draws(next) => IsShot(next)
    case Polls(_, _, meanwhile, _, root, _, _) =>
      (meanwhile.Some? ==> IsShot(meanwhile.value)) && (root.Some? ==> IsShot(root.value))
    case Loses(first) => IsShot(first)
    case _ => true
  }

  /** The clock after a tick. */
  function Clock(now: Time, t: Tick): Time { if t.Polls? then t.env.tEnd else now }

  predicate ClockOk(now: Time, t: Tick) {
    t.Polls? ==>
      var e := t.env;
      now <= e.tStart <= e.tCaps <= e.tSettle <= e.tMotion <= e.tH264 <= e.tEnd
  }

  /** Screens have a size the server can have and the clock runs forward. */
  predicate Playable(now: Time, ticks: seq<Tick>)
    decreases |ticks|
  {
    |ticks| > 0 ==> ShotsOk(ticks[0]) && ClockOk(now, ticks[0]) && Playable(Clock(now, ticks[0]), ticks[1..])
  }

  /** Every image request was answered. */
  ghost predicate Answered(ticks: seq<Tick>) {
    forall t :: t in ticks && t.Polls? ==> t.reply.Image?
  }

  /** An event of the loop and the state it found. */
  datatype Turned = Turned(before: State, ev: Event)

  /** The turns follow from one another, from a fresh stream to `s`. */
  ghost predicate Chained(trace: seq<Turned>, s: State) {
    if |trace| == 0 then Init(s)
    else
      var t := trace[|trace| - 1];
      Chained(trace[..|trace| - 1], t.before) && Possible(t.before, t.ev) && s == Step(t.before, t.ev)
  }

  /** No frame stranded its damage. */
  ghost predicate Clean(trace: seq<Turned>) {
    |trace| > 0 ==>
      var t := trace[|trace| - 1];
      Clean(trace[..|trace| - 1]) && Possible(t.before, t.ev) && !Stranding(t.before, t.ev)
  }

  lemma ChainGrows(trace: seq<Turned>, s: State, ev: Event)
    requires Chained(trace, s) && Possible(s, ev) && (Clean(trace) ==> Inv(s))
    ensures var longer := trace + [Turned(s, ev)];
            Chained(longer, Step(s, ev)) && (Clean(longer) ==> Inv(Step(s, ev)))
  {
    var longer := trace + [Turned(s, ev)];
    assert longer[..|trace|] == trace && longer[|trace|] == Turned(s, ev);
    if Clean(longer) { StepSafeIff(s, ev); }
  }

  /** The client's picture is the X screen. */
  ghost predicate ClientShows(s: State, screen: Shot)
    requires IsShot(screen)
  {
    && s.pipe.hosts == Some(Dims(screen.width, screen.height))
    && forall p: Px :: p in Area(Rect(0, 0, screen.width, screen.height)) ==>
         p in s.shown && s.shown[p] == Frames.ColourAt(screen.data, screen.width, screen.height, p)
  }

  lemma CurrentPicture(s: State, screen: Shot)
    requires IsShot(screen) && Inv(s) && Live(s) && !s.d.pendingFull
    requires s.last.Some? && Shot(s.last.value.data, s.last.value.width, s.last.value.height) == screen
    ensures ClientShows(s, screen)
  {
    NothingOwedShows(s);
    forall p: Px | p in Area(Rect(0, 0, screen.width, screen.height))
      ensures p in s.shown && s.shown[p] == Frames.ColourAt(screen.data, screen.width, screen.height, p)
    {
      assert p in Screen(s.last.value);
      assert Shows(s, p);
    }
  }

  // ----- The loop remembers the last grab it was given, however it was routed -----

  lemma HappenRemembers(s: State, a: Async)
    ensures Happen(s, a).last == s.last
  {
  }

  lemma RecreateRemembers(s: State, g: Grab, e: Env)
    ensures Recreate(s, g, e).last == s.last
  {
  }

  lemma OpenRemembers(s: State, g: Grab, e: Env)
    ensures Open(s, g, e).last == Some(g)
  {
    var s1 := Happen(Absorb(s, g), e.before);
    HappenRemembers(Absorb(s, g), e.before);
    RecreateRemembers(s1, g, e);
    HappenRemembers(Recreate(s1, g, e), e.between);
  }

  lemma GateRemembers(s: State, g: Grab, e: Env)
    ensures Gate(s, g, e).0.last == s.last
  {
  }

  lemma ClearRemembers(s: State, g: Grab, r: Rect, e: Env)
    requires IsGrab(g) && Frames.RectInFrame(r, g.width, g.height)
    ensures SendClear(s, g, r, e).0.last == s.last
  {
  }

  lemma RepayRemembers(s: State, g: Grab, r: Rect, e: Env)
    requires IsGrab(g) && Frames.RectInFrame(r, g.width, g.height)
    ensures RepayDebt(s, g, r, e).0.last == s.last
  {
    if r.w > 0 && r.h > 0 {
      SplitIsExact(r, e.budget);
      ClearRemembers(s, g, SplitDebtBand(r, e.budget).0, e);
    }
  }

  lemma H264Remembers(s: State, g: Grab, e: Env)
    requires IsGrab(g)
    ensures SendH264(s, g, e).0.last == s.last
  {
    var whole := Rect(0, 0, g.width, g.height);
    RepayRemembers(s, g, whole, e);
    RepayRemembers(s.(d := s.d.(avcDisabled := true)), g, whole, e);
  }

  lemma DispatchRemembers(s: State, g: Grab, settling: bool, e: Env)
    requires IsGrab(g)
    ensures Dispatch(s, g, settling, e).0.last == s.last
  {
    if g.damage.None? {
      RepayRemembers(s, g, DebtRegion(s.d, g.width, g.height), e);
    } else if s.d.pendingFull && !s.d.inMotion {
      var s1 := s.(d := OweRegion(s.d, g.damage.value));
      RepayRemembers(s1, g, DebtRegion(s1.d, g.width, g.height), e);
    } else if Motion(g, settling) && !s.d.avcDisabled {
      H264Remembers(s, g, e);
    } else {
      ClearRemembers(s, g, g.damage.value, e);
    }
  }

  lemma FrameRemembers(s: State, g: Grab, e: Env)
    requires IsGrab(g)
    ensures EgfxFrame(s, g, e).last == Some(g) && EgfxFrame(s, g, e).now == e.tEnd
  {
    OpenRemembers(s, g, e);
    GateRemembers(Open(s, g, e), g, e);
    var (s1, goesOn, settling) := Gate(Open(s, g, e), g, e);
    if goesOn { DispatchRemembers(s1, g, settling, e); }
  }

  lemma StepRemembers(s: State, ev: Event)
    requires ev.Grabbed? ==> IsGrab(ev.grab)
    ensures Step(s, ev).last == (if ev.Grabbed? then Some(ev.grab) else s.last)
    ensures Step(s, ev).now == (if ev.Grabbed? then ev.env.tEnd else s.now)
  {
    if ev.Grabbed? && EgfxDecision(RouteOf(s, ev.route)).Egfx? {
      FrameRemembers(s, ev.grab, ev.env);
    }
  }

  /** One turn of the loop. */
  method Update(loop: EgfxUpdates, ev: Event)
    requires Possible(loop.Model(), ev)
    modifies loop
    ensures loop.Model() == Step(old(loop.Model()), ev)
    ensures loop.Model().last == (if ev.Grabbed? then Some(ev.grab) else old(loop.Model().last))
    ensures loop.Model().now == (if ev.Grabbed? then ev.env.tEnd else old(loop.Model().now))
  {
    StepRemembers(loop.Model(), ev);
    loop.NextUpdate(ev);
  }

  /** A poll, and the turn of the loop for what it grabbed. While a debt is due
      a poll takes a grab whether or not anything changed. */
  method PollAndUpdate(grabber: ScreenGrabber, loop: EgfxUpdates, t: Tick)
    returns (idle: bool, ghost ev: Option<Event>)
    requires t.Polls? && ShotsOk(t) && ClockOk(loop.Model().now, t)
    requires grabber.Valid() && loop.Model().last == grabber.emitted
    modifies grabber, loop
    ensures grabber.Valid() && loop.Model().last == grabber.emitted && loop.Model().now <= t.env.tEnd
    ensures match ev
            case None => loop.Model() == old(loop.Model())
            case Some(v) => Possible(old(loop.Model()), v) && loop.Model() == Step(old(loop.Model()), v)
    ensures idle ==> !loop.pendingFull && (old(grabber.Covered()) ==> grabber.Shown())
    ensures t.reply.Image? && old(grabber.Covered()) ==> grabber.Covered()
  {
    var failures := grabber.failures;
    var grab := grabber.Poll(loop.pendingFull, t.setupOk, t.trouble, t.meanwhile, t.reply, t.root);
    if grab.Some? {
      ev := Some(Grabbed(grab.value, t.env, t.route));
      Update(loop, Grabbed(grab.value, t.env, t.route));
      return false, ev;
    }
    return grabber.failures == failures, None;
  }

  /** One tick. */
  method Play(grabber: ScreenGrabber, loop: EgfxUpdates, t: Tick)
    returns (next: ScreenGrabber, idle: bool, ghost ev: Option<Event>)
    requires grabber.Valid() && loop.Model().last == grabber.emitted
    requires ShotsOk(t) && ClockOk(loop.Model().now, t)
    modifies grabber, loop
    ensures next.Valid() && (next == grabber || fresh(next)) && loop.Model().last == next.emitted
    ensures match ev
            case None => loop.Model() == old(loop.Model())
            case Some(v) => Possible(old(loop.Model()), v) && loop.Model() == Step(old(loop.Model()), v)
    ensures loop.Model().now <= Clock(old(loop.Model().now), t)
    ensures idle ==> !loop.pendingFull && (old(grabber.Covered()) ==> next.Shown())
    ensures (t.Polls? ==> t.reply.Image?) && old(grabber.Covered()) ==> next.Covered()
  {
    next, idle, ev := grabber, false, None;
    match t
    case Draws(shot) => grabber.ScreenDraws(shot);
    case Loses(first) => next := new ScreenGrabber(first, grabber.emitted);
    case Polls(_, _, _, _, _, _, _) => idle, ev := PollAndUpdate(grabber, loop, t);
    case Acts(a) =>
      ev := Some(FromClient(a));
      Update(loop, FromClient(a));
    case Reopens =>
      ev := Some(NewPipe);
      Update(loop, NewPipe);
    case Asks(area) =>
      ev := Some(Refresh(area));
      Update(loop, Refresh(area));
  }

  /** A whole session. Every grab the loop sees accounts for what changed since
      the one before, so the loop's run is one of `DisplayRuns`; and when the
      image requests were answered, no frame stranded its damage and the last
      poll found nothing to do, the client shows the X screen. */
  method Drive(start: Time, settle: Time, id: nat, state: PipeState, first: Shot, ticks: seq<Tick>)
    returns (grabber: ScreenGrabber, loop: EgfxUpdates, idle: bool, ghost trace: seq<Turned>)
    requires IsShot(first) && Playable(start, ticks)
    ensures fresh(grabber) && fresh(loop) && grabber.Valid()
    ensures loop.Model().last == grabber.emitted && Chained(trace, loop.Model())
    ensures Clean(trace) ==> Inv(loop.Model())
    ensures Answered(ticks) ==> grabber.Covered()
    ensures Answered(ticks) && Clean(trace) && idle && Live(loop.Model()) ==> ClientShows(loop.Model(), grabber.screen)
  {
    grabber := new ScreenGrabber(first, None);
    loop := new EgfxUpdates(start, settle, id, state);
    idle, trace := false, [];
    ghost var clock := start;
    var i := 0;
    while i < |ticks|
      invariant 0 <= i <= |ticks| && fresh(grabber) && fresh(loop) && grabber.Valid()
      invariant loop.Model().last == grabber.emitted && Chained(trace, loop.Model())
      invariant Clean(trace) ==> Inv(loop.Model())
      invariant loop.Model().now <= clock && Playable(clock, ticks[i..])
      invariant Answered(ticks) ==> grabber.Covered()
      invariant Answered(ticks) && idle ==> grabber.Shown() && !loop.pendingFull
    {
      var t := ticks[i];
      assert t in ticks && ticks[i..][0] == t && ticks[i..][1..] == ticks[i + 1..];
      ghost var before := loop.Model();
      ghost var ev;
      grabber, idle, ev := Play(grabber, loop, t);
      if ev.Some? {
        ChainGrows(trace, before, ev.value);
        trace := trace + [Turned(before, ev.value)];
      }
      clock := Clock(clock, t);
      i := i + 1;
    }
    if Answered(ticks) && Clean(trace) && idle && Live(loop.Model()) {
      CurrentPicture(loop.Model(), grabber.screen);
    }
  }
}
