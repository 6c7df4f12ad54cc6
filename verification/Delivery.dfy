/**
 What each frame sends: which grabs go out as one lossy H.264 frame, which as
 lossless rectangles and which not at all, in the numbers of the display loop
 (linrdp/src/gfx_display.rs: an eighth of the tiles, 12, 250 and 1500 ms).
 */
module Delivery {
  import opened Prelude
  import opened Geometry
  import Frames
  import opened Capture
  import opened Pipeline
  import opened DebtSafety
  import opened DisplayRuns

  // ----- Frames that stay lossless -----

  /** No H.264 frame went out between the two states. */
  ghost predicate Lossless(s: State, s': State) {
    s'.lossy <= s.lossy && s'.d.lastH264 == s.d.lastH264 && (s'.d.inMotion ==> s.d.inMotion)
  }

  lemma HappenLossless(s: State, a: Async)
    ensures Lossless(s, Happen(s, a)) && Happen(s, a).d == s.d
  {
  }

  lemma ReplaceLossless(s: State, g: Grab, e: Env)
    ensures Lossless(s, Replace(s, g, e)) && Replace(s, g, e).d.settleUntil == s.d.settleUntil
  {
  }

  lemma OpenLossless(s: State, g: Grab, e: Env)
    ensures Lossless(s, Open(s, g, e))
    ensures !SizeChanged(s.d, g) ==> Open(s, g, e).d.settleUntil == s.d.settleUntil
  {
    var s1 := Happen(Absorb(s, g), e.before);
    HappenLossless(Absorb(s, g), e.before);
    ReplaceLossless(NoteResize(s1, g, e), g, e);
    HappenLossless(Recreate(s1, g, e), e.between);
  }

  lemma GateLossless(s: State, g: Grab, e: Env)
    ensures Lossless(s, Gate(s, g, e).0)
    ensures Gate(s, g, e).1 ==> (Gate(s, g, e).2 <==> e.tSettle < s.d.settleUntil)
  {
  }

  /** The settling window and the hold are as they were. */
  ghost predicate SameWaits(s: State, s': State) {
    s'.d.settleUntil == s.d.settleUntil && s'.d.capsResetUntil == s.d.capsResetUntil
  }

  lemma PushLossless(s: State, g: Grab, r: Rect, e: Env)
    requires IsGrab(g) && Frames.RectInFrame(r, g.width, g.height)
    ensures Lossless(s, PushClear(s, g, r, e).0) && SameWaits(s, PushClear(s, g, r, e).0)
  {
  }

  lemma ClearLossless(s: State, g: Grab, r: Rect, e: Env)
    requires IsGrab(g) && Frames.RectInFrame(r, g.width, g.height)
    ensures Lossless(s, SendClear(s, g, r, e).0) && SameWaits(s, SendClear(s, g, r, e).0)
  {
    HappenLossless(s, e.during);
    PushLossless(Happen(s, e.during), g, r, e);
  }

  lemma RepayLossless(s: State, g: Grab, r: Rect, e: Env)
    requires IsGrab(g) && Frames.RectInFrame(r, g.width, g.height)
    ensures Lossless(s, RepayDebt(s, g, r, e).0) && SameWaits(s, RepayDebt(s, g, r, e).0)
  {
    if r.w > 0 && r.h > 0 {
      SplitIsExact(r, e.budget);
      ClearLossless(s, g, SplitDebtBand(r, e.budget).0, e);
    }
  }

  lemma DispatchLossless(s: State, g: Grab, settling: bool, e: Env)
    requires IsGrab(g) && (8 * g.changedTiles <= g.totalTiles || settling || e.tH264 - s.d.lastH264 < 12)
    ensures Lossless(s, Dispatch(s, g, settling, e).0) && SameWaits(s, Dispatch(s, g, settling, e).0)
  {
    if g.damage.None? {
      RepayLossless(s, g, DebtRegion(s.d, g.width, g.height), e);
    } else if s.d.pendingFull && !s.d.inMotion {
      var s1 := s.(d := OweRegion(s.d, g.damage.value));
      RepayLossless(s1, g, DebtRegion(s1.d, g.width, g.height), e);
    } else {
      ClearLossless(s, g, g.damage.value, e);
    }
  }

  /** A grab that changed at most an eighth of the tiles, or comes less than 12 ms
      after the last H.264 frame, or while the desktop settles after a resize,
      never goes out lossy. */
  lemma StepLossless(s: State, ev: Event)
    requires ev.Grabbed? ==> IsGrab(ev.grab)
    requires ev.Grabbed? ==>
               || 8 * ev.grab.changedTiles <= ev.grab.totalTiles
               || ev.env.tH264 - s.d.lastH264 < 12
               || (!SizeChanged(s.d, ev.grab) && ev.env.tSettle < s.d.settleUntil)
    ensures Step(s, ev).lossy <= s.lossy && Step(s, ev).d.lastH264 == s.d.lastH264
    ensures Step(s, ev).d.inMotion ==> s.d.inMotion
  {
    match ev
    case Grabbed(g, e, r) =>
      if EgfxDecision(RouteOf(s, r)).Egfx? {
        OpenLossless(s, g, e);
        GateLossless(Open(s, g, e), g, e);
        var (s1, goesOn, settling) := Gate(Open(s, g, e), g, e);
        if goesOn { DispatchLossless(s1, g, settling, e); }
      }
    case FromClient(a) => HappenLossless(s, a);
    case _ =>
  }

  // ----- Frames on a steady surface -----

  /** A grab of the surface's size, on a live surface the client leaves alone. */
  ghost predicate Steady(s: State, ev: Event) {
    && Live(s) && ev.Grabbed? && IsGrab(ev.grab) && s.d.surface == Some(DimsOf(ev.grab))
    && ev.env.before.Quiet? && ev.env.between.Quiet? && ev.env.during.Quiet?
  }

  /** And nothing holds the frame back. */
  ghost predicate Clear(s: State, ev: Event) {
    && Steady(s, ev) && !ev.env.backpressure && s.d.capsResetUntil <= ev.env.tCaps
    && !ev.env.stall && !ev.env.dropped && ev.env.joins
  }

  lemma SteadyOpens(s: State, ev: Event)
    requires Steady(s, ev)
    ensures Open(s, ev.grab, ev.env) == Absorb(s, ev.grab) && Step(s, ev) == EgfxFrame(s, ev.grab, ev.env)
  {
  }

  lemma ClearGoesOn(s: State, ev: Event)
    requires Clear(s, ev) && (s.d.inMotion ==> ev.env.tMotion < s.d.motionUntil && s.d.settleUntil <= ev.env.tSettle)
    ensures Gate(Open(s, ev.grab, ev.env), ev.grab, ev.env)
         == (Absorb(s, ev.grab), true, ev.env.tSettle < s.d.settleUntil)
  {
    SteadyOpens(s, ev);
    assert LeaveMotion(s.d, ev.env.tSettle < s.d.settleUntil, ev.env.tMotion) == s.d;
  }

  /** Backpressure, or the hold after a reset, sends nothing. */
  lemma HeldFrameSendsNothing(s: State, ev: Event)
    requires Steady(s, ev) && (ev.env.backpressure || ev.env.tCaps < s.d.capsResetUntil)
    ensures var s' := Step(s, ev);
            && s'.shown == s.shown && s'.wire == s.wire && s'.lossy == s.lossy && s'.pipe == s.pipe
            && (ev.env.backpressure ==> s'.d == if ev.grab.damage.Some? then OweRegion(s.d, ev.grab.damage.value) else s.d)
            && (!ev.env.backpressure ==> s'.d == s.d)
  {
    SteadyOpens(s, ev);
  }

  /** The client shows all of `g`. */
  ghost predicate ShowsAll(s: State, g: Grab)
    requires IsGrab(g)
  {
    forall p :: OnScreen(p, g) ==> p in s.shown && s.shown[p] == Frames.ColourAt(g.data, g.width, g.height, p)
  }

  /** More than an eighth of the tiles, AVC available, the desktop settled, 12 ms
      since the last H.264 frame and no debt outside motion: the whole screen
      goes out as one H.264 frame, and motion mode lasts 250 ms from its end. */
  lemma MotionGoesOut(s: State, ev: Event)
    requires Clear(s, ev) && ev.grab.damage.Some? && 8 * ev.grab.changedTiles > ev.grab.totalTiles
    requires s.d.settleUntil <= ev.env.tSettle && !s.d.avcDisabled && ev.env.tH264 - s.d.lastH264 >= 12
    requires if s.d.inMotion then ev.env.tMotion < s.d.motionUntil else !s.d.pendingFull
    requires ev.env.encode.Encoded? || ev.env.encode.LumaOnly?
    ensures var g, s' := ev.grab, Step(s, ev);
            && ShowsAll(s', g) && s'.lossy == Screen(g) && s'.stale == iset{} && s'.wire == s.wire
            && !s'.d.pendingFull && s'.d.debtRect.None?
            && s'.d.inMotion && s'.d.lastH264 == ev.env.tEnd && s'.d.motionUntil == ev.env.tEnd + 250
  {
    ClearGoesOn(s, ev);
  }

  /** `now` is `was` with `g` painted into `r`. */
  ghost predicate PaintedIn(was: imap<Px, Frames.Colour>, now: imap<Px, Frames.Colour>, g: Grab, r: Rect)
    requires IsGrab(g) && Frames.RectInFrame(r, g.width, g.height)
  {
    forall p :: if Within(p, r) then p in now && now[p] == Frames.ColourAt(g.data, g.width, g.height, p)
                else (p in now <==> p in was) && (p in was ==> now[p] == was[p])
  }

  lemma ClearPaints(s: State, g: Grab, r: Rect, e: Env)
    requires IsGrab(g) && Frames.RectInFrame(r, g.width, g.height) && Live(s) && s.d.surface.Some?
    requires !e.stall && e.joins && e.during.Quiet? && !e.dropped
    ensures var (s', sent) := SendClear(s, g, r, e);
            && sent.Delivered? && PaintedIn(s.shown, s'.shown, g, r)
            && s'.lossy == s.lossy - Area(r) && s'.wire == s.wire + [s.d.clearSeq]
            && s'.d == s.d.(clearSeq := (s.d.clearSeq + 1) % 256)
  {
    assert SendClear(s, g, r, e) == PushClear(s, g, r, e);
    PaintAreaIn(s.shown, g, r);
    NextSeqWraps(s.d.clearSeq);
  }

  lemma PaintAreaIn(shown: imap<Px, Frames.Colour>, g: Grab, r: Rect)
    requires IsGrab(g) && Frames.RectInFrame(r, g.width, g.height)
    ensures PaintedIn(shown, PaintArea(shown, g, Area(r)), g, r)
  {
  }

  lemma NextSeqWraps(n: byte)
    ensures NextSeq(n) == (n + 1) % 256
  {
  }

  /** At rest with nothing owed, a grab that is not motion goes out as exactly its
      damage, losslessly, under the next number. */
  lemma PartialGoesOut(s: State, ev: Event)
    requires Clear(s, ev) && ev.grab.damage.Some? && !s.d.pendingFull && !s.d.inMotion
    requires 8 * ev.grab.changedTiles <= ev.grab.totalTiles || s.d.avcDisabled || ev.env.tSettle < s.d.settleUntil
    ensures var g, r, s' := ev.grab, ev.grab.damage.value, Step(s, ev);
            && PaintedIn(s.shown, s'.shown, g, r)
            && s'.lossy == s.lossy - Area(r) && s'.wire == s.wire + [s.d.clearSeq]
            && s'.d.clearSeq == (s.d.clearSeq + 1) % 256 && !s'.d.pendingFull && !s'.d.inMotion
  {
    SteadyOpens(s, ev);
    ClearGoesOn(s, ev);
    ClearPaints(Absorb(s, ev.grab), ev.grab, ev.grab.damage.value, ev.env);
  }

  /** In motion mode neither a small change nor one within 12 ms of the last
      H.264 frame is sent: its damage is owed. */
  lemma MotionSuppresses(s: State, ev: Event)
    requires Clear(s, ev) && ev.grab.damage.Some? && s.d.inMotion && ev.env.tMotion < s.d.motionUntil
    requires s.d.settleUntil <= ev.env.tSettle
    requires 8 * ev.grab.changedTiles <= ev.grab.totalTiles || s.d.avcDisabled || ev.env.tH264 - s.d.lastH264 < 12
    ensures var s' := Step(s, ev);
            && s'.shown == s.shown && s'.wire == s.wire && s'.lossy == s.lossy
            && s'.d == OweRegion(s.d, ev.grab.damage.value)
  {
    ClearGoesOn(s, ev);
  }

  lemma ReplaceIs(s: State, g: Grab, e: Env)
    requires s.pipe.state.Ready?
    ensures var s' := Replace(s, g, e);
            && s'.pipe == s.pipe.(hosts := Some(DimsOf(g))) && s'.d.surface == Some(DimsOf(g)) && s'.lossy == iset{}
            && SameWaits(s, s') && OwesAll(s'.d)
  {
  }

  /** The opening of a frame of another size. */
  lemma ResizeOpens(s: State, g: Grab, e: Env)
    requires s.pipe.state.Ready? && s.d.surface.Some? && SizeChanged(s.d, g) && e.before.Quiet? && e.between.Quiet?
    ensures var o := Open(s, g, e);
            && o.pipe.hosts.Some? && o.lossy == iset{} && OwesAll(o.d)
            && o.d.settleUntil == e.tStart + 1500 && o.d.capsResetUntil == s.d.capsResetUntil
  {
    var s1 := NoteResize(Absorb(s, g), g, e);
    assert Open(s, g, e) == Replace(s1, g, e);
    ReplaceIs(s1, g, e);
  }

  /** A changed size starts 1500 ms of settling, and the frame that notices it
      sends nothing lossy. */
  lemma ResizeSettles(s: State, ev: Event)
    requires ev.Grabbed? && IsGrab(ev.grab) && s.pipe.state.Ready? && s.d.surface.Some? && SizeChanged(s.d, ev.grab)
    requires ev.env.before.Quiet? && ev.env.between.Quiet? && ev.env.tSettle < ev.env.tStart + 1500
    ensures var s' := Step(s, ev);
            s'.lossy == iset{} && s'.d.settleUntil == ev.env.tStart + 1500 && s'.d.capsResetUntil == s.d.capsResetUntil
  {
    var g, e := ev.grab, ev.env;
    ResizeOpens(s, g, e);
    var o := Open(s, g, e);
    GateLossless(o, g, e);
    var (s1, goesOn, settling) := Gate(o, g, e);
    assert SameWaits(o, s1);
    if goesOn { DispatchLossless(s1, g, settling, e); }
  }

  /** A surface the client dropped is made again, and frames wait 250 ms. */
  lemma ResetHolds(s: State, ev: Event)
    requires ev.Grabbed? && IsGrab(ev.grab) && s.pipe.state.Ready? && s.d.generation == Some(s.pipe.id)
    requires s.d.surface == Some(DimsOf(ev.grab)) && s.pipe.hosts.None? && ev.env.before.Quiet? && ev.env.between.Quiet?
    ensures var s' := Step(s, ev);
            && s'.pipe.hosts == Some(DimsOf(ev.grab)) && s'.d.surface == Some(DimsOf(ev.grab)) && OwesAll(s'.d)
            && s'.wire == s.wire && s'.d.clearSeq == 0 && s'.d.capsResetUntil == ev.env.tStart + 250
  {
    assert Open(s, ev.grab, ev.env) == Absorb(s, ev.grab);
  }

  /** The end of the 250 ms: a 4:2:0 session owes the whole screen, a 4:4:4
      session only what it owed. */
  lemma MotionEnds(s: State, ev: Event)
    requires Clear(s, ev) && ev.grab.damage.None?
    requires s.d.inMotion && s.d.motionUntil <= ev.env.tMotion && s.d.settleUntil <= ev.env.tSettle
    requires !s.d.pendingFull && ev.grab.width > 0 && ev.grab.height > 0
    ensures var s' := Step(s, ev);
            && !s'.d.inMotion
            && (s.d.avc444v2 ==> s'.wire == s.wire && s'.shown == s.shown && s'.d == s.d.(inMotion := false))
            && (!s.d.avc444v2 ==> s'.wire == s.wire + [s.d.clearSeq])
  {
    SteadyOpens(s, ev);
  }

  /** A stalled frame leaves motion mode and owes the whole screen, whatever it
      was sending. */
  lemma StallOwesAll(s: State, ev: Event)
    requires Steady(s, ev) && !ev.env.backpressure && s.d.capsResetUntil <= ev.env.tCaps && ev.env.stall
    requires ev.grab.damage.Some? && !s.d.pendingFull && !s.d.inMotion
    requires 8 * ev.grab.changedTiles <= ev.grab.totalTiles || s.d.avcDisabled || ev.env.tSettle < s.d.settleUntil
             || (!ev.env.encode.InitFailed? && ev.env.tH264 - s.d.lastH264 >= 12)
    ensures var s' := Step(s, ev);
            !s'.d.inMotion && OwesAll(s'.d) && s'.shown == s.shown && s'.wire == s.wire
  {
    SteadyOpens(s, ev);
    assert LeaveMotion(s.d, ev.env.tSettle < s.d.settleUntil, ev.env.tMotion) == s.d;
  }

  /** A stall in motion mode ends it. */
  lemma StallEndsMotion(s: State, ev: Event)
    requires Steady(s, ev) && !ev.env.backpressure && s.d.capsResetUntil <= ev.env.tCaps && ev.env.stall
    requires ev.grab.damage.Some? && 8 * ev.grab.changedTiles > ev.grab.totalTiles && !s.d.avcDisabled
    requires s.d.inMotion && ev.env.tMotion < s.d.motionUntil && s.d.settleUntil <= ev.env.tSettle
    requires !ev.env.encode.InitFailed? && ev.env.tH264 - s.d.lastH264 >= 12
    ensures var s' := Step(s, ev);
            !s'.d.inMotion && OwesAll(s'.d) && s'.shown == s.shown && s'.wire == s.wire
  {
    SteadyOpens(s, ev);
    assert LeaveMotion(s.d, ev.env.tSettle < s.d.settleUntil, ev.env.tMotion) == s.d;
  }

  /** When x264 does not start, the session gives H.264 up and paints the top
      band of the screen losslessly instead, owing the rest. */
  lemma StartFailureFallsBack(s: State, ev: Event)
    requires Clear(s, ev) && ev.grab.damage.Some? && 8 * ev.grab.changedTiles > ev.grab.totalTiles
    requires s.d.settleUntil <= ev.env.tSettle && !s.d.avcDisabled && ev.env.tH264 - s.d.lastH264 >= 12
    requires if s.d.inMotion then ev.env.tMotion < s.d.motionUntil else !s.d.pendingFull
    requires ev.env.encode.InitFailed? && ev.grab.width > 0 && ev.grab.height > 0
    ensures var s' := Step(s, ev);
            var (band, rest) := SplitDebtBand(Rect(0, 0, ev.grab.width, ev.grab.height), ev.env.budget);
            && Frames.RectInFrame(band, ev.grab.width, ev.grab.height) && PaintedIn(s.shown, s'.shown, ev.grab, band)
            && s'.d.avcDisabled && s'.d.inMotion == s.d.inMotion && s'.wire == s.wire + [s.d.clearSeq]
            && s'.d.pendingFull == rest.Some? && s'.d.debtRect == rest
  {
    ClearGoesOn(s, ev);
    SteadyOpens(s, ev);
    var whole := Rect(0, 0, ev.grab.width, ev.grab.height);
    SplitIsExact(whole, ev.env.budget);
    var s1 := Absorb(s, ev.grab).(d := s.d.(avcDisabled := true));
    ClearPaints(s1, ev.grab, SplitDebtBand(whole, ev.env.budget).0, ev.env);
  }

  /** A motion frame that comes to nothing: without an encoder the whole screen is
      owed; an empty stream counts as sent and keeps motion mode going; an encode
      that does not join leaves everything as it was. */
  lemma NothingEncoded(s: State, ev: Event)
    requires Clear(s, ev) && ev.grab.damage.Some? && 8 * ev.grab.changedTiles > ev.grab.totalTiles
    requires s.d.settleUntil <= ev.env.tSettle && !s.d.avcDisabled && ev.env.tH264 - s.d.lastH264 >= 12
    requires if s.d.inMotion then ev.env.tMotion < s.d.motionUntil else !s.d.pendingFull
    requires ev.env.encode.NoEncoder? || ev.env.encode.EmptyStream? || ev.env.encode.JoinFailed?
    ensures var s' := Step(s, ev);
            && s'.shown == s.shown && s'.wire == s.wire && s'.lossy == s.lossy && s'.d.lastH264 == s.d.lastH264
            && (ev.env.encode.NoEncoder? ==> s'.d == OweEverything(s.d))
            && (ev.env.encode.EmptyStream? ==> s'.d == s.d.(inMotion := true, motionUntil := ev.env.tEnd + 250))
            && (ev.env.encode.JoinFailed? ==> s'.d == s.d)
  {
    ClearGoesOn(s, ev);
    SteadyOpens(s, ev);
  }

  /** An undamaged frame repays a band of what is owed, in motion mode too. */
  lemma IdleFrameRepays(s: State, ev: Event)
    requires Clear(s, ev) && ev.grab.damage.None? && s.d.pendingFull
    requires s.d.inMotion ==> ev.env.tMotion < s.d.motionUntil && s.d.settleUntil <= ev.env.tSettle
    requires var r := DebtRegion(s.d, ev.grab.width, ev.grab.height); r.w > 0 && r.h > 0
    ensures var s', r := Step(s, ev), DebtRegion(s.d, ev.grab.width, ev.grab.height);
            var (band, rest) := SplitDebtBand(r, ev.env.budget);
            && Frames.RectInFrame(band, ev.grab.width, ev.grab.height) && PaintedIn(s.shown, s'.shown, ev.grab, band)
            && s'.wire == s.wire + [s.d.clearSeq] && s'.d.inMotion == s.d.inMotion
            && s'.d.pendingFull == rest.Some? && s'.d.debtRect == rest
  {
    ClearGoesOn(s, ev);
    SteadyOpens(s, ev);
    var r := DebtRegion(s.d, ev.grab.width, ev.grab.height);
    SplitIsExact(r, ev.env.budget);
    ClearPaints(Absorb(s, ev.grab), ev.grab, SplitDebtBand(r, ev.env.budget).0, ev.env);
  }
}
