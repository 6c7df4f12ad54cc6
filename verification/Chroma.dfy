/**
 Chroma resolution of what the client shows: which pixels keep the half-resolution
 chroma of an H.264 frame once motion is over.
 */
module Chroma {
  import opened Prelude
  import opened Geometry
  import Frames
  import opened Capture
  import opened Pipeline
  import opened DebtSafety
  import opened DisplayRuns
  import opened Repayment

  /** Half-resolution pixels were painted by H.264; in a 4:4:4 session there are
      none unless a luma view went out alone. */
  ghost predicate Sharp(s: State, lumaAlone: bool) {
    && s.half <= s.lossy && (Live(s) && s.d.avc444v2 && !lumaAlone ==> s.half == iset{})
    && (s.pipe.hosts.Some? ==> !s.pipe.state.Waiting?)
  }

  lemma HappenSharp(s: State, a: Async, lumaAlone: bool)
    requires Sharp(s, lumaAlone)
    ensures Sharp(Happen(s, a), lumaAlone)
  {
  }

  lemma ReplaceSharp(s: State, g: Grab, e: Env, lumaAlone: bool)
    requires Sharp(s, lumaAlone)
    ensures Sharp(Replace(s, g, e), lumaAlone)
  {
  }

  lemma OpenSharp(s: State, g: Grab, e: Env, lumaAlone: bool)
    requires Sharp(s, lumaAlone)
    ensures Sharp(Open(s, g, e), lumaAlone)
  {
    var s1 := Happen(Absorb(s, g), e.before);
    HappenSharp(Absorb(s, g), e.before, lumaAlone);
    ReplaceSharp(NoteResize(s1, g, e), g, e, lumaAlone);
    HappenSharp(Recreate(s1, g, e), e.between, lumaAlone);
  }

  lemma GateSharp(s: State, g: Grab, e: Env, lumaAlone: bool)
    requires Sharp(s, lumaAlone)
    ensures Sharp(Gate(s, g, e).0, lumaAlone)
  {
  }

  lemma SendClearSharp(s: State, g: Grab, r: Rect, e: Env, lumaAlone: bool)
    requires Sharp(s, lumaAlone) && IsGrab(g) && Frames.RectInFrame(r, g.width, g.height)
    ensures Sharp(SendClear(s, g, r, e).0, lumaAlone)
  {
    HappenSharp(s, e.during, lumaAlone);
  }

  lemma RepaySharp(s: State, g: Grab, r: Rect, e: Env, lumaAlone: bool)
    requires Sharp(s, lumaAlone) && IsGrab(g) && Frames.RectInFrame(r, g.width, g.height)
    ensures Sharp(RepayDebt(s, g, r, e).0, lumaAlone)
  {
    if r.w > 0 && r.h > 0 {
      SplitIsExact(r, e.budget);
      SendClearSharp(s, g, SplitDebtBand(r, e.budget).0, e, lumaAlone);
    }
  }

  lemma H264Sharp(s: State, g: Grab, e: Env, lumaAlone: bool)
    requires Sharp(s, lumaAlone) && IsGrab(g) && (e.encode.LumaOnly? ==> lumaAlone)
    ensures Sharp(SendH264(s, g, e).0, lumaAlone)
  {
    var whole := Rect(0, 0, g.width, g.height);
    if s.d.surface.None? {
    } else if s.d.avcDisabled {
      RepaySharp(s, g, whole, e, lumaAlone);
    } else if e.encode.InitFailed? {
      RepaySharp(s.(d := s.d.(avcDisabled := true)), g, whole, e, lumaAlone);
    } else {
      HappenSharp(s, e.during, lumaAlone);
    }
  }

  lemma DispatchSharp(s: State, g: Grab, settling: bool, e: Env, lumaAlone: bool)
    requires Sharp(s, lumaAlone) && IsGrab(g) && (e.encode.LumaOnly? ==> lumaAlone)
    ensures Sharp(Dispatch(s, g, settling, e).0, lumaAlone)
  {
    if g.damage.None? {
      if s.d.pendingFull { RepaySharp(s, g, DebtRegion(s.d, g.width, g.height), e, lumaAlone); }
    } else if s.d.pendingFull && !s.d.inMotion {
      var s1 := s.(d := OweRegion(s.d, g.damage.value));
      RepaySharp(s1, g, DebtRegion(s1.d, g.width, g.height), e, lumaAlone);
    } else if Motion(g, settling) && !s.d.avcDisabled {
      H264Sharp(s, g, e, lumaAlone);
    } else {
      SendClearSharp(s, g, g.damage.value, e, lumaAlone);
    }
  }

  lemma FrameSharp(s: State, g: Grab, e: Env, lumaAlone: bool)
    requires Sharp(s, lumaAlone) && IsGrab(g) && (e.encode.LumaOnly? ==> lumaAlone)
    ensures Sharp(EgfxFrame(s, g, e), lumaAlone)
  {
    OpenSharp(s, g, e, lumaAlone);
    GateSharp(Open(s, g, e), g, e, lumaAlone);
    var (s1, goesOn, settling) := Gate(Open(s, g, e), g, e);
    if goesOn { DispatchSharp(s1, g, settling, e, lumaAlone); }
  }

  lemma StepSharp(s: State, ev: Event, lumaAlone: bool)
    requires Sharp(s, lumaAlone) && (ev.Grabbed? ==> IsGrab(ev.grab) && (ev.env.encode.LumaOnly? ==> lumaAlone))
    ensures Sharp(Step(s, ev), lumaAlone)
  {
    match ev
    case Grabbed(g, e, r) =>
      if EgfxDecision(RouteOf(s, r)).Egfx? { FrameSharp(s, g, e, lumaAlone); }
    case FromClient(a) => HappenSharp(s, a, lumaAlone);
    case _ =>
  }

  /** Some encode of the run produced no chroma view. */
  ghost predicate HasLumaOnly(evs: seq<Event>) {
    exists i :: 0 <= i < |evs| && evs[i].Grabbed? && evs[i].env.encode.LumaOnly?
  }

  lemma {:induction false} RunSharp(s: State, evs: seq<Event>, lumaAlone: bool)
    requires Sharp(s, lumaAlone) && RunOk(s, evs) && (HasLumaOnly(evs) ==> lumaAlone)
    ensures Sharp(Run(s, evs), lumaAlone)
    decreases |evs|
  {
    if |evs| > 0 {
      assert evs[0].Grabbed? && evs[0].env.encode.LumaOnly? ==> HasLumaOnly(evs);
      StepSharp(s, evs[0], lumaAlone);
      if HasLumaOnly(evs[1..]) {
        var i :| 0 <= i < |evs[1..]| && evs[1..][i].Grabbed? && evs[1..][i].env.encode.LumaOnly?;
        assert evs[i + 1].Grabbed?;
      }
      RunSharp(Step(s, evs[0]), evs[1..], lumaAlone);
    }
  }

  /** Every run: with nothing owed and motion over, every pixel the client shows
      has full-resolution chroma, in a 4:2:0 session always and in a 4:4:4
      session if no luma view went out alone. */
  lemma FullChromaAtRest(s0: State, evs: seq<Event>)
    requires Init(s0) && RunOk(s0, evs)
    ensures var s := Run(s0, evs);
            Live(s) && !s.d.pendingFull && !s.d.inMotion && !(s.d.avc444v2 && HasLumaOnly(evs)) ==> s.half == iset{}
  {
    RunSharp(s0, evs, HasLumaOnly(evs));
    EndToEnd(s0, evs);
  }

  // ----- The luma view that goes out alone -----

  /** The client shows `p` with half-resolution chroma and nobody owes it. */
  ghost predicate LeftHalf(s: State, p: Px) { p in s.half && !Owes(s.d, p) }

  lemma RepayLeavesHalf(s: State, g: Grab, r: Rect, e: Env, p: Px)
    requires IsGrab(g) && Frames.RectInFrame(r, g.width, g.height)
    requires Live(s) && s.d.surface.Some? && !e.stall && e.joins && e.during.Quiet? && !e.dropped
    requires p in s.half
    ensures LeftHalf(RepayDebt(s, g, r, e).0, p) <==> !Within(p, r)
  {
    if r.w > 0 && r.h > 0 { SplitIsExact(r, e.budget); }
  }

  /** An idle frame leaves a half-resolution pixel alone exactly when the debt
      it finds does not hold that pixel. */
  lemma IdleLeavesHalf(s: State, ev: Event, p: Px)
    requires Inv(s) && Live(s) && IdleFrame(s, ev) && p in s.half && OnScreen(p, ev.grab)
    ensures LeftHalf(Step(s, ev), p) <==> !Owes(AtRest(s.d, ev.env), p)
  {
    var g, e := ev.grab, ev.env;
    IdleOpens(s, ev);
    var s1 := Absorb(s, g).(d := AtRest(s.d, e));
    assert Live(s1);
    if s1.d.pendingFull {
      var r := DebtRegion(s1.d, g.width, g.height);
      DebtRegionIsOwed(s1.d, g, p);
      RepayLeavesHalf(s1, g, r, e, p);
    }
  }

  /** The frame that ends motion mode leaves a pixel at half-resolution chroma
      with nobody owing it if and only if the session is 4:4:4 and no debt held
      the pixel: the refinement repaint is armed for 4:2:0 sessions alone. */
  lemma MotionEndLeavesHalfIff(s: State, ev: Event, p: Px)
    requires Inv(s) && Live(s) && IdleFrame(s, ev) && p in s.half && OnScreen(p, ev.grab)
    requires s.d.inMotion && ev.env.tMotion >= s.d.motionUntil
    ensures !Step(s, ev).d.inMotion
    ensures LeftHalf(Step(s, ev), p) <==> s.d.avc444v2 && !Owes(s.d, p)
  {
    IdleLeavesHalf(s, ev, p);
    IdleOpens(s, ev);
    if ev.env.tSettle < s.d.settleUntil {
      assert OwesAll(s.d);
    }
  }

  /** And no later idle frame repairs it: the pixel keeps its half-resolution
      chroma until something else damages it. */
  lemma {:induction false} HalfStays(s: State, evs: seq<Event>, p: Px)
    requires Settled(s) && IdleRun(s, evs) && RunOk(s, evs) && LeftHalf(s, p)
    requires OnScreen(p, s.last.value)
    ensures LeftHalf(Run(s, evs), p)
    decreases |evs|
  {
    if |evs| > 0 {
      IdleLeavesHalf(s, evs[0], p);
      IdleStep(s, evs[0]);
      assert AtRest(s.d, evs[0].env) == s.d;
      HalfStays(Step(s, evs[0]), evs[1..], p);
    }
  }
}
