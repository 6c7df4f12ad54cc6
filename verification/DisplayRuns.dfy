/** Whole runs of the display loop: routing, frames, client events. */
module DisplayRuns {
  import opened Prelude
  import opened Geometry
  import opened Frames
  import opened Capture
  import opened Pipeline
  import opened DebtSafety

  /** What the router knows beside the pipe. */
  datatype Route = Route(clientSupports: bool, waited: Option<Time>, sinceStart: Time)

  datatype Event =
    | Grabbed(grab: Grab, env: Env, route: Route)
    | FromClient(a: Async)
    | NewPipe
    | Refresh(area: Rect)

  /** The session flags of `GfxSession` follow the pipe: ready once capabilities
      are confirmed, unavailable once the channel is closed, both cleared when
      the factory publishes a new one. */
  function RouteOf(s: State, r: Route): RouteState {
    RouteState(s.pipe.state.Ready?, s.d.generation.Some?, s.pipe.state.Closed?, r.clientSupports, r.waited, r.sinceStart)
  }

  /** A grab off the graphics pipeline is consumed without touching the debt. */
  ghost function Step(s: State, ev: Event): State
    requires ev.Grabbed? ==> IsGrab(ev.grab)
  {
    match ev
    case Grabbed(g, e, r) =>
      if EgfxDecision(RouteOf(s, r)).Egfx? then EgfxFrame(s, g, e) else Absorb(s, g).(now := e.tEnd)
    case FromClient(a) => Happen(s, a)
    case NewPipe => Build(s)
    case Refresh(area) => s.(d := OweRegion(s.d, area))
  }

  /** The grab accounts for its predecessor and the clock does not run back. */
  ghost predicate Possible(s: State, ev: Event) {
    ev.Grabbed? ==> Follows(s.last, ev.grab) && EnvOk(s, ev.env)
  }

  ghost predicate Stranding(s: State, ev: Event)
    requires Possible(s, ev)
  {
    ev.Grabbed? && s.pipe.state.Ready? && FrameStrands(s, ev.grab, ev.env)
  }

  /** A fresh updates stream on whatever pipe there is: nothing drawn by it, the
      first paint owed. */
  ghost predicate Init(s: State) {
    && s.d.surface.None? && s.d.generation.None? && s.d.clearSeq == 0
    && OwesAll(s.d) && !s.d.inMotion
    && s.pipe.hosts.None? && s.last.None?
    && s.stale == iset{} && s.lossy == iset{} && s.half == iset{} && s.wire == [] && s.base == 0
  }

  /** Any single event, from any safe state. */
  lemma StepSafeIff(s: State, ev: Event)
    requires Inv(s) && Possible(s, ev)
    ensures Inv(Step(s, ev)) <==> !Stranding(s, ev)
  {
    match ev
    case Grabbed(g, e, r) =>
      if s.pipe.state.Ready? {
        FrameSafeIff(s, g, e);
      }
    case FromClient(a) => HappenCore(s, a, iset{});
    case NewPipe =>
    case Refresh(area) => OweRegionCore(s, area, iset{});
  }

  /** A run of possible events, none of them stranding. */
  ghost predicate RunOk(s: State, evs: seq<Event>)
    decreases |evs|
  {
    |evs| > 0 ==>
      && Possible(s, evs[0]) && !Stranding(s, evs[0]) && RunOk(Step(s, evs[0]), evs[1..])
  }

  ghost function Run(s: State, evs: seq<Event>): State
    requires RunOk(s, evs)
    decreases |evs|
  {
    if |evs| == 0 then s else Run(Step(s, evs[0]), evs[1..])
  }

  /** Debt safety over every run. */
  lemma {:induction false} RunSafe(s: State, evs: seq<Event>)
    requires Inv(s) && RunOk(s, evs)
    ensures Inv(Run(s, evs))
    decreases |evs|
  {
    if |evs| > 0 {
      StepSafeIff(s, evs[0]);
      RunSafe(Step(s, evs[0]), evs[1..]);
    }
  }

  /** With no debt pending the picture is the last grab. */
  lemma NothingOwedShows(s: State)
    requires Inv(s) && Live(s) && !s.d.pendingFull
    ensures forall p :: p in Screen(s.last.value) ==> Shows(s, p)
  {
    assert forall p :: p in s.stale ==> p in Claim(s);
    forall p | p in Screen(s.last.value)
      ensures Shows(s, p)
    {
      assert p in Screen(s.last.value) - s.stale;
    }
  }

  /** End to end: after any run, wherever the client has a surface, each pixel
      shows the last grab or lies in the region the loop will repaint; with no
      debt pending the whole picture is the last grab, and outside motion mode
      under 4:2:0 every pixel of it was painted losslessly. */
  lemma EndToEnd(s0: State, evs: seq<Event>)
    requires Init(s0) && RunOk(s0, evs)
    ensures var s := Run(s0, evs);
            Live(s) ==>
              && s.last.Some? && IsGrab(s.last.value)
              && (forall p :: p in Screen(s.last.value) ==>
                    Shows(s, p) || (s.d.pendingFull && Within(p, DebtRegion(s.d, s.last.value.width, s.last.value.height))))
              && (!s.d.pendingFull ==> forall p :: p in Screen(s.last.value) ==> Shows(s, p))
              && (!s.d.pendingFull && !s.d.inMotion && !s.d.avc444v2 ==> s.lossy == iset{})
  {
    RunSafe(s0, evs);
    var s := Run(s0, evs);
    if Live(s) {
      var g := s.last.value;
      forall p | p in Screen(g)
        ensures Shows(s, p) || (s.d.pendingFull && Within(p, DebtRegion(s.d, g.width, g.height)))
      {
        if p in s.stale {
          assert p in Claim(s) && Owes(s.d, p);
          DebtRegionIsOwed(s.d, g, p);
        } else {
          assert p in Screen(g) - s.stale;
        }
      }
      if !s.d.pendingFull {
        NothingOwedShows(s);
        assert !s.d.inMotion && !s.d.avc444v2 ==> forall p :: p in s.lossy ==> p in Claim(s);
      }
    }
  }

  // ----- ClearCodec numbering -----

  /** The number of the message `i` places after number `base`. */
  function SeqAfter(base: byte, i: nat): byte {
    if i == 0 then base else NextSeq(SeqAfter(base, i - 1))
  }

  lemma NextSeqIsMod(n: nat)
    ensures NextSeq(n % 256) == (n + 1) % 256
  {
  }

  lemma {:induction false} SeqAfterIsMod(base: byte, i: nat)
    ensures SeqAfter(base, i) == (base + i) % 256
  {
    if i > 0 {
      SeqAfterIsMod(base, i - 1);
      NextSeqIsMod(base + i - 1);
    }
  }

  /** Delivered numbers run on from `base`, the loop holds the next one, and a
      pipe without a surface has carried none. */
  ghost predicate Numbered(s: State) {
    && (forall i :: 0 <= i < |s.wire| ==> s.wire[i] == SeqAfter(s.base, i))
    && s.d.clearSeq == SeqAfter(s.base, |s.wire|)
    && (s.pipe.hosts.None? ==> s.wire == [])
  }

  lemma HappenNumbered(s: State, a: Async)
    requires Numbered(s)
    ensures Numbered(Happen(s, a))
  {
  }

  lemma OpenNumbered(s: State, g: Grab, e: Env)
    requires Numbered(s)
    ensures Numbered(Open(s, g, e))
  {
    HappenNumbered(Absorb(s, g), e.before);
    HappenNumbered(Recreate(Happen(Absorb(s, g), e.before), g, e), e.between);
  }

  lemma GateNumbered(s: State, g: Grab, e: Env)
    requires Numbered(s)
    ensures Numbered(Gate(s, g, e).0)
  {
  }

  lemma SendClearNumbered(s: State, g: Grab, r: Rect, e: Env)
    requires Numbered(s) && IsGrab(g) && RectInFrame(r, g.width, g.height)
    ensures Numbered(SendClear(s, g, r, e).0)
  {
    HappenNumbered(s, e.during);
  }

  lemma RepayNumbered(s: State, g: Grab, r: Rect, e: Env)
    requires Numbered(s) && IsGrab(g) && RectInFrame(r, g.width, g.height)
    ensures Numbered(RepayDebt(s, g, r, e).0)
  {
    if r.w > 0 && r.h > 0 {
      SplitIsExact(r, e.budget);
      SendClearNumbered(s, g, SplitDebtBand(r, e.budget).0, e);
    }
  }

  lemma H264Numbered(s: State, g: Grab, e: Env)
    requires Numbered(s) && IsGrab(g)
    ensures Numbered(SendH264(s, g, e).0)
  {
    var whole := Rect(0, 0, g.width, g.height);
    if s.d.surface.None? {
    } else if s.d.avcDisabled {
      RepayNumbered(s, g, whole, e);
    } else if e.encode.InitFailed? {
      RepayNumbered(s.(d := s.d.(avcDisabled := true)), g, whole, e);
    } else {
      HappenNumbered(s, e.during);
    }
  }

  lemma DispatchNumbered(s: State, g: Grab, settling: bool, e: Env)
    requires Numbered(s) && IsGrab(g)
    ensures Numbered(Dispatch(s, g, settling, e).0)
  {
    if g.damage.None? {
      if s.d.pendingFull { RepayNumbered(s, g, DebtRegion(s.d, g.width, g.height), e); }
    } else if s.d.pendingFull && !s.d.inMotion {
      var s1 := s.(d := OweRegion(s.d, g.damage.value));
      RepayNumbered(s1, g, DebtRegion(s1.d, g.width, g.height), e);
    } else if Motion(g, settling) && !s.d.avcDisabled {
      H264Numbered(s, g, e);
    } else {
      SendClearNumbered(s, g, g.damage.value, e);
    }
  }

  lemma StepNumbered(s: State, ev: Event)
    requires Numbered(s) && (ev.Grabbed? ==> IsGrab(ev.grab))
    ensures Numbered(Step(s, ev))
  {
    match ev
    case Grabbed(g, e, r) =>
      if EgfxDecision(RouteOf(s, r)).Egfx? {
        OpenNumbered(s, g, e);
        GateNumbered(Open(s, g, e), g, e);
        var (s1, goesOn, settling) := Gate(Open(s, g, e), g, e);
        if goesOn { DispatchNumbered(s1, g, settling, e); }
      }
    case _ =>
  }

  /** Over every run, whatever is dropped, stranded, stalled or rebuilt, the
      ClearCodec messages delivered since the client's last reset carry
      consecutive numbers modulo 256. */
  lemma {:induction false} RunNumbered(s: State, evs: seq<Event>)
    requires Numbered(s) && forall i :: 0 <= i < |evs| ==> evs[i].Grabbed? ==> IsGrab(evs[i].grab)
    ensures Numbered(RunAll(s, evs))
    decreases |evs|
  {
    if |evs| > 0 {
      assert evs[0].Grabbed? ==> IsGrab(evs[0].grab);
      StepNumbered(s, evs[0]);
      RunNumbered(Step(s, evs[0]), evs[1..]);
    }
  }

  /** Runs of arbitrary events, stranding ones included. */
  ghost function RunAll(s: State, evs: seq<Event>): State
    requires forall i :: 0 <= i < |evs| ==> evs[i].Grabbed? ==> IsGrab(evs[i].grab)
    decreases |evs|
  {
    if |evs| == 0 then s
    else
      assert evs[0].Grabbed? ==> IsGrab(evs[0].grab);
      RunAll(Step(s, evs[0]), evs[1..])
  }

  lemma ReplaceKeepsNumber(s: State, g: Grab, e: Env)
    requires s.pipe.state.Ready?
    ensures var o := Replace(s, g, e);
            o.d.clearSeq == s.d.clearSeq && o.wire == s.wire && o.pipe.state.Ready? && o.pipe.hosts.Some?
  {
  }

  /** A grab that changes neither size nor handle finds the surface gone. */
  lemma OpenAfterReset(s: State, g: Grab, e: Env)
    requires PipeOwned(s) && Numbered(s) && s.pipe.state.Ready? && s.pipe.hosts.None?
    requires e.before.Quiet? && e.between.Quiet?
    ensures var o := Open(s, g, e);
            && o.d.clearSeq == s.d.clearSeq && o.wire == [] && o.pipe.state.Ready?
            && if SizeChanged(s.d, g) || GenerationChanged(s.d, s.pipe) then o.pipe.hosts.Some?
               else Vanished(o.d, o.pipe)
  {
    var s1 := Absorb(s, g);
    assert Open(s, g, e) == Recreate(s1, g, e);
    ReplaceKeepsNumber(NoteResize(s1, g, e), g, e);
  }

  lemma GateAfterReset(o: State, g: Grab, e: Env)
    requires o.pipe.state.Ready? && (o.pipe.hosts.Some? || Vanished(o.d, o.pipe))
    ensures var s' := Gate(o, g, e).0;
            && s'.pipe.hosts.Some? && s'.wire == o.wire
            && s'.d.clearSeq == if o.pipe.hosts.Some? then o.d.clearSeq else 0
  {
  }

  /** After a client reset the numbering starts at 0 again if and only if the
      first frame finds the surface gone under an unchanged size and handle, or
      the counter was 0 already: a resize or a new handle recreates the surface
      before its loss is noticed and keeps the old counter. */
  lemma RestartsAtZeroIff(s: State, g: Grab, e: Env)
    requires Inv(s) && Numbered(s) && Follows(s.last, g) && s.pipe.state.Ready? && s.pipe.hosts.None?
    requires e.before.Quiet? && e.between.Quiet?
    ensures var s' := Gate(Open(s, g, e), g, e).0;
            && s'.pipe.hosts.Some? && s'.wire == []
            && (s'.d.clearSeq == 0 <==>
                  s.d.clearSeq == 0 || (!SizeChanged(s.d, g) && !GenerationChanged(s.d, s.pipe)))
  {
    OpenAfterReset(s, g, e);
    GateAfterReset(Open(s, g, e), g, e);
  }

  // ----- Routing -----

  /** A session already on the pipeline leaves it for legacy bitmaps only when
      its channel is closed, and a grab routed elsewhere finds no live surface. */
  lemma RoutingSafe(s: State, r: Route)
    requires Inv(s)
    ensures EgfxDecision(RouteOf(s, r)).Egfx? <==> s.pipe.state.Ready?
    ensures EgfxDecision(RouteOf(s, r)).Legacy? && s.d.generation.Some? ==> s.pipe.state.Closed?
    ensures !EgfxDecision(RouteOf(s, r)).Egfx? ==> !Live(s)
  {
  }
}
