/** Safety of the lossless-debt machine over single frames and whole runs. */
module DebtSafety {
  import opened Prelude
  import opened Geometry
  import opened Frames
  import opened Capture
  import opened Pipeline

  /** The loop and the client agree on a surface to draw on. */
  ghost predicate Live(s: State) {
    s.pipe.state.Ready? && s.d.generation == Some(s.pipe.id) && s.pipe.hosts.Some?
  }

  /** Pixels that need a paint: the stale ones, and outside motion mode the
      ones a 4:2:0 frame left inexact. */
  ghost function Claim(s: State): iset<Px> {
    s.stale + if s.d.inMotion || s.d.avc444v2 then iset{} else s.lossy
  }

  /** Owed by a debt that later merges cannot lose: one whose edges fit in u16
      (a client refresh may leave one that does not). */
  ghost predicate Secured(d: Display, p: Px) {
    Owes(d, p) && (d.debtRect.Some? ==> Fits(d.debtRect.value))
  }

  /** Every claimed pixel outside `except` is owed for good. */
  ghost predicate DebtCovers(s: State, except: iset<Px>) {
    && (s.d.debtRect.Some? ==> s.d.pendingFull)
    && (Live(s) ==> forall p :: p in Claim(s) && p !in except ==> Secured(s.d, p))
  }

  /** Outside the stale pixels the client shows the last grab. */
  ghost predicate PictureAgrees(s: State) {
    Live(s) ==>
      && s.last.Some? && IsGrab(s.last.value)
      && s.pipe.hosts == Some(DimsOf(s.last.value)) && s.d.surface == s.pipe.hosts
      && s.stale <= Screen(s.last.value) && s.lossy <= Screen(s.last.value)
      && forall p :: p in Screen(s.last.value) - s.stale ==> Shows(s, p)
  }

  ghost predicate Shows(s: State, p: Px)
    requires s.last.Some? && IsGrab(s.last.value) && OnScreen(p, s.last.value)
  {
    var g := s.last.value;
    p in s.shown && s.shown[p] == ColourAt(g.data, g.width, g.height, p)
  }

  /** Frames held back, or motion mode left by the settle clamp, find the whole
      screen owed. */
  ghost predicate HoldsAreOwed(s: State) {
    && (s.now < s.d.capsResetUntil ==> OwesAll(s.d))
    && (s.d.inMotion && s.now < s.d.settleUntil ==> OwesAll(s.d))
  }

  /** Only a pipe this loop drew on hosts a surface, and it was ready then. */
  ghost predicate PipeOwned(s: State) {
    && (s.d.generation.Some? ==> s.d.generation.value <= s.pipe.id)
    && (s.pipe.hosts.Some? ==> s.d.generation == Some(s.pipe.id))
    && (s.d.generation == Some(s.pipe.id) ==> !s.pipe.state.Waiting?)
  }

  ghost predicate Core(s: State, except: iset<Px>) {
    DebtCovers(s, except) && PictureAgrees(s) && HoldsAreOwed(s) && PipeOwned(s)
  }

  ghost predicate Inv(s: State) { Core(s, iset{}) }

  // ----- Bookkeeping -----

  /** Merging a rectangle never loses a secured pixel, and secures every pixel
      of a fitting rectangle. */
  lemma OweRegionKeeps(d: Display, r: Rect)
    requires d.debtRect.Some? ==> d.pendingFull
    ensures var d' := OweRegion(d, r);
            && (d'.debtRect.Some? ==> d'.pendingFull)
            && (OwesAll(d) ==> d' == d)
            && (forall p :: Secured(d, p) ==> Secured(d', p))
            && (Fits(r) ==> forall p :: Within(p, r) ==> Secured(d', p))
  {
    if d.debtRect.Some? {
      var c := d.debtRect.value;
      if Fits(c) { UnionKeepsFittingOperand(c, r); }
      if Fits(r) { UnionKeepsFittingOperand(r, c); }
    }
  }

  lemma OweRegionCore(s: State, r: Rect, except: iset<Px>)
    requires Core(s, except)
    ensures Core(s.(d := OweRegion(s.d, r)), except)
    ensures Fits(r) ==> Core(s.(d := OweRegion(s.d, r)), except - Area(r))
  {
    OweRegionKeeps(s.d, r);
    var s' := s.(d := OweRegion(s.d, r));
    assert Claim(s') == Claim(s) && Live(s') == Live(s);
  }

  /** Everything owed covers every claim. */
  lemma OweEverythingCore(s: State, except: iset<Px>, motion: bool)
    requires Core(s, except) && (motion ==> s.d.inMotion)
    ensures Core(s.(d := OweEverything(s.d.(inMotion := motion))), iset{})
  {
  }

  /** On the screen, the debt region is exactly what is owed. */
  lemma DebtRegionIsOwed(d: Display, g: Grab, p: Px)
    requires IsGrab(g) && d.pendingFull && OnScreen(p, g)
    ensures Owes(d, p) <==> Within(p, DebtRegion(d, g.width, g.height))
    ensures RectInFrame(DebtRegion(d, g.width, g.height), g.width, g.height)
  {
  }

  // ----- Client events -----

  /** An event on the pipe either leaves the client's picture alone or takes
      the surface away. */
  lemma HappenCore(s: State, a: Async, except: iset<Px>)
    requires Core(s, except)
    ensures Core(Happen(s, a), except)
    ensures Happen(s, a).d == s.d && Happen(s, a).last == s.last
    ensures Live(Happen(s, a)) ==> Happen(s, a) == s
  {
  }

  // ----- The opening of a frame -----

  /** What holds once a grab is absorbed and the surface looked after: only
      this grab's damage may be stale without being owed. */
  ghost predicate Opened(s: State, g: Grab) {
    && Core(s, Damage(g)) && s.last == Some(g)
    && (Live(s) ==> Damage(g) <= s.stale)
  }

  /** A grab of the same size on a live surface: the colours outside its
      damage are the ones already shown. */
  lemma AbsorbOpens(s: State, g: Grab)
    requires Inv(s) && Follows(s.last, g) && (Live(s) ==> !SizeChanged(s.d, g))
    ensures Opened(Absorb(s, g), g)
  {
    var s1 := Absorb(s, g);
    assert forall p :: p in Damage(g) ==> OnScreen(p, g);
    if Live(s) {
      forall p | p in Screen(g) - s1.stale
        ensures Shows(s1, p)
      {
        assert OnScreen(p, g) && !InDebt(p, g.damage);
        assert p in Screen(s.last.value) - s.stale;
        assert Shows(s, p);
      }
    }
  }

  /** A new surface shows nothing and the whole screen is owed. */
  lemma ReplaceOpens(s: State, g: Grab, e: Env)
    requires IsGrab(g) && s.last == Some(g) && PipeOwned(s) && !s.pipe.state.Waiting?
    ensures Opened(Replace(s, g, e), g)
  {
    var s' := Replace(s, g, e);
    assert Damage(g) <= Screen(g);
    assert OwesAll(s'.d) && PipeOwned(s');
    assert Live(s') ==> s'.stale == Screen(g) && s'.lossy == iset{};
  }

  lemma NewSurfaceOpens(s: State, g: Grab, e: Env)
    requires IsGrab(g) && s.last == Some(g) && PipeOwned(s) && !s.pipe.state.Waiting?
    requires SizeChanged(s.d, g) || GenerationChanged(s.d, s.pipe)
    ensures Opened(Recreate(s, g, e), g)
  {
    var s1 := NoteResize(s, g, e);
    assert PipeOwned(s1);
    ReplaceOpens(s1, g, e);
  }

  /** After the surface is looked after, it belongs to the current pipe. */
  ghost predicate Adopted(s: State, g: Grab) {
    Opened(s, g) && s.d.generation == Some(s.pipe.id)
  }

  lemma RecreateOpens(s: State, g: Grab, e: Env)
    requires Inv(s) && Follows(s.last, g) && s.pipe.state.Ready?
    ensures Adopted(Recreate(Happen(Absorb(s, g), e.before), g, e), g)
  {
    var s0 := Absorb(s, g);
    var s1 := Happen(s0, e.before);
    if SizeChanged(s1.d, g) || GenerationChanged(s1.d, s1.pipe) {
      NewSurfaceOpens(s1, g, e);
    } else {
      AbsorbOpens(s, g);
      HappenOpened(s0, e.before, g);
    }
  }

  lemma RecreateClock(s: State, g: Grab, e: Env)
    ensures Recreate(s, g, e).now == s.now
  {
  }

  lemma HappenIds(s: State, a: Async)
    ensures Happen(s, a).now == s.now && Happen(s, a).d == s.d && Happen(s, a).pipe.id == s.pipe.id
  {
  }

  lemma OpenOpens(s: State, g: Grab, e: Env)
    requires Inv(s) && Follows(s.last, g) && s.pipe.state.Ready?
    ensures Opened(Open(s, g, e), g)
    ensures Open(s, g, e).now == s.now && Open(s, g, e).d.generation == Some(Open(s, g, e).pipe.id)
  {
    var s1 := Happen(Absorb(s, g), e.before);
    RecreateOpens(s, g, e);
    HappenIds(Absorb(s, g), e.before);
    RecreateClock(s1, g, e);
    HappenIds(Recreate(s1, g, e), e.between);
    HappenOpened(Recreate(s1, g, e), e.between, g);
  }

  lemma HappenOpened(s: State, a: Async, g: Grab)
    requires Opened(s, g)
    ensures Opened(Happen(s, a), g)
  {
    HappenCore(s, a, Damage(g));
  }

  lemma ReviveCore(s: State, g: Grab, e: Env)
    requires Opened(s, g) && IsGrab(g) && Vanished(s.d, s.pipe) && s.now <= e.tStart
    requires s.d.generation == Some(s.pipe.id)
    ensures Inv(Revive(s, g, e))
  {
  }

  /** What `Dispatch` starts from: the clock is past the holds. */
  ghost predicate Cleared(s: State, g: Grab, settling: bool, e: Env) {
    && Opened(s, g) && s.now <= e.tEnd
    && s.d.generation == Some(s.pipe.id)
    && s.d.capsResetUntil <= e.tEnd
    && (settling ==> !s.d.inMotion)
    && (!settling ==> s.d.settleUntil <= e.tEnd)
  }

  lemma GateCore(s: State, g: Grab, e: Env)
    requires Opened(s, g) && IsGrab(g) && EnvOk(s, e) && s.d.generation == Some(s.pipe.id)
    ensures var (s1, goesOn, settling) := Gate(s, g, e);
            && s1.now == s.now
            && (!goesOn ==> Inv(s1))
            && (goesOn ==> Cleared(s1, g, settling, e))
  {
    if Vanished(s.d, s.pipe) {
      ReviveCore(s, g, e);
    } else if e.backpressure {
      if g.damage.Some? {
        OweRegionCore(s, g.damage.value, Damage(g));
        assert Damage(g) - Area(g.damage.value) == iset{};
      } else {
        assert Damage(g) == iset{};
      }
    } else if e.tCaps >= s.d.capsResetUntil {
      LeaveMotionCore(s, g, e);
    }
  }

  /** Leaving motion mode: the settle clamp relies on the whole-screen debt of
      the resize, the linger exit arms its own. */
  lemma LeaveMotionCore(s: State, g: Grab, e: Env)
    requires Opened(s, g) && EnvOk(s, e) && e.tCaps >= s.d.capsResetUntil && s.d.generation == Some(s.pipe.id)
    ensures var settling := e.tSettle < s.d.settleUntil;
            Cleared(s.(d := LeaveMotion(s.d, settling, e.tMotion)), g, settling, e)
  {
    var settling := e.tSettle < s.d.settleUntil;
    if settling && s.d.inMotion {
      assert OwesAll(s.d);
    }
  }

  // ----- Paying -----

  lemma PaintShows(s: State, g: Grab, area: iset<Px>, s': State)
    requires Opened(s, g) && IsGrab(g) && Live(s) && area <= Screen(g)
    requires s'.last == s.last && s'.shown == PaintArea(s.shown, g, area) && s'.stale == s.stale - area
    ensures forall p :: p in Screen(g) - s'.stale ==> Shows(s', p)
  {
    forall p | p in Screen(g) - s'.stale
      ensures Shows(s', p)
    {
      if p !in area {
        assert p in Screen(g) - s.stale;
        assert Shows(s, p);
      }
    }
  }

  /** Nothing but the debt, the number and the picture moved. */
  ghost predicate Steady(s: State, s': State) {
    && PictureAgrees(s') && PipeOwned(s') && s'.now == s.now && s'.last == s.last
    && s'.d.generation == s.d.generation && s'.d.inMotion == s.d.inMotion
    && s'.d.capsResetUntil == s.d.capsResetUntil && s'.d.settleUntil == s.d.settleUntil
  }

  /** A rectangle the pipe takes settles its own claims; one it refuses is owed. */
  lemma PushClearCore(s: State, g: Grab, r: Rect, e: Env, except: iset<Px>)
    requires Opened(s, g) && Core(s, except) && IsGrab(g) && RectInFrame(r, g.width, g.height)
    ensures var (s1, sent) := PushClear(s, g, r, e);
            && Steady(s, s1)
            && (sent.Delivered? ==> Live(s1) && Claim(s1) == Claim(s) - Area(r) && s1.d == s.d.(clearSeq := s1.d.clearSeq))
            && (!sent.Delivered? ==> Core(s1, except) && Core(s1, except - Area(r)))
  {
    assert Fits(r);
    if Accepts(s.pipe, e) {
      PaintShows(s, g, Area(r), PushClear(s, g, r, e).0);
    } else {
      OweRegionCore(s, r, except);
    }
  }

  /** A lossless rectangle that reaches the wire settles its own claims; one
      the pipe refuses is owed; one whose encode did not join changes nothing. */
  lemma SendClearCore(s: State, g: Grab, r: Rect, e: Env, except: iset<Px>)
    requires Opened(s, g) && Core(s, except) && IsGrab(g) && RectInFrame(r, g.width, g.height)
    ensures var (s1, sent) := SendClear(s, g, r, e);
            && Steady(s, s1)
            && (sent.Delivered? ==> Live(s1) && Claim(s1) == Claim(s) - Area(r) && s1.d == s.d.(clearSeq := s1.d.clearSeq))
            && (sent.Stalled? ==> s1 == s)
            && (sent.NotDelivered? ==> Core(s1, except))
            && (sent.NotDelivered? && s.d.surface.Some? && e.joins ==> Core(s1, except - Area(r)))
  {
    if s.d.surface.Some? && !e.stall && e.joins {
      HappenCore(s, e.during, except);
      HappenOpened(s, e.during, g);
      PushClearCore(Happen(s, e.during), g, r, e, except);
    }
  }

  /** The result of a payment is safe: a stall is followed by a full debt. */
  ghost predicate Paid(s: State, sent: Sent, e: Env) { Inv(Finish(s, sent, e)) }

  lemma StallIsOwed(s: State, e: Env, except: iset<Px>)
    requires Core(s, except) && s.now <= e.tEnd
    ensures Paid(s, Stalled, e)
  {
    OweEverythingCore(s, except, false);
  }

  /** Splitting a claim set along a band and its remainder. */
  lemma BandSplitsClaims(claims: iset<Px>, r: Rect, budget: nat)
    requires Fits(r) && claims <= Area(r)
    ensures var (band, rest) := SplitDebtBand(r, budget);
            && (rest.None? ==> claims - Area(band) == iset{})
            && (rest.Some? ==> Fits(rest.value) && claims - Area(band) <= Area(rest.value))
  {
    SplitIsExact(r, budget);
  }

  /** With the holds behind, no claim needs no debt. */
  lemma NothingClaimed(s: State, e: Env, except: iset<Px>)
    requires Core(s, except) && (Live(s) ==> Claim(s) == iset{})
    requires s.now <= e.tEnd && s.d.capsResetUntil <= e.tEnd && (s.d.inMotion ==> s.d.settleUntil <= e.tEnd)
    ensures Inv(s.(d := s.d.(pendingFull := false, debtRect := None), now := e.tEnd))
  {
    var s' := s.(d := s.d.(pendingFull := false, debtRect := None), now := e.tEnd);
    assert Claim(s') == Claim(s) && Live(s') == Live(s);
    assert PictureAgrees(s');
  }

  /** A delivered band leaves the claims its remainder holds. */
  lemma BandDelivered(s: State, g: Grab, r: Rect, e: Env, except: iset<Px>)
    requires Opened(s, g) && Core(s, except) && IsGrab(g) && RectInFrame(r, g.width, g.height) && r.w > 0 && r.h > 0
    requires s.now <= e.tEnd && s.d.capsResetUntil <= e.tEnd && (s.d.inMotion ==> s.d.settleUntil <= e.tEnd)
    requires Live(s) ==> Claim(s) <= Area(r)
    requires SendClear(s, g, SplitDebtBand(r, e.budget).0, e).1.Delivered?
    ensures Paid(RepayDebt(s, g, r, e).0, Delivered, e)
  {
    SplitIsExact(r, e.budget);
    var (band, rest) := SplitDebtBand(r, e.budget);
    SendClearCore(s, g, band, e, except);
    assert Live(s) by { HappenCore(s, e.during, except); }
    BandSplitsClaims(Claim(s), r, e.budget);
    SettledCore(SendClear(s, g, band, e).0, rest, e);
  }

  /** Repaying a region that holds every claim keeps the debt covering. */
  lemma RepayDebtCore(s: State, g: Grab, r: Rect, e: Env, except: iset<Px>)
    requires Opened(s, g) && Core(s, except) && IsGrab(g) && RectInFrame(r, g.width, g.height)
    requires s.now <= e.tEnd && s.d.capsResetUntil <= e.tEnd && (s.d.inMotion ==> s.d.settleUntil <= e.tEnd)
    requires Live(s) ==> Claim(s) <= Area(r)
    ensures var (s1, sent) := RepayDebt(s, g, r, e);
            && (sent.Delivered? || sent.Stalled? || r.w == 0 || r.h == 0 ==> Paid(s1, sent, e))
            && (sent.NotDelivered? && r.w > 0 && r.h > 0 ==> Core(s1, except) && s1.now == s.now)
  {
    if r.w == 0 || r.h == 0 {
      assert Area(r) == iset{};
      NothingClaimed(s, e, except);
    } else {
      SplitIsExact(r, e.budget);
      var band := SplitDebtBand(r, e.budget).0;
      SendClearCore(s, g, band, e, except);
      match SendClear(s, g, band, e).1 {
        case Delivered => BandDelivered(s, g, r, e, except);
        case Stalled => StallIsOwed(s, e, except);
        case NotDelivered =>
      }
    }
  }

  lemma SettledCore(s: State, rest: Option<Rect>, e: Env)
    requires PictureAgrees(s) && PipeOwned(s) && Live(s)
    requires s.now <= e.tEnd && s.d.capsResetUntil <= e.tEnd && (s.d.inMotion ==> s.d.settleUntil <= e.tEnd)
    requires rest.None? ==> Claim(s) == iset{}
    requires rest.Some? ==> Fits(rest.value) && Claim(s) <= Area(rest.value)
    ensures var (pending, rect) := SettleDebt(rest);
            Inv(s.(d := s.d.(pendingFull := pending, debtRect := rect), now := e.tEnd))
  {
    var (pending, rect) := SettleDebt(rest);
    var s' := s.(d := s.d.(pendingFull := pending, debtRect := rect), now := e.tEnd);
    assert Claim(s') == Claim(s);
    assert PictureAgrees(s');
  }

  // ----- The frames that strand damage -----

  /** The grab changed a pixel this debt does not secure. */
  ghost predicate Missing(d: Display, g: Grab) { exists p :: p in Damage(g) && !Secured(d, p) }

  /** The branches of the code that consume damage without recording it: an
      encode that does not join, an empty H.264 stream, and the fallback after
      a failed x264 start whose first band does not get out. */
  ghost predicate Strands(s: State, g: Grab, settling: bool, e: Env)
    requires IsGrab(g)
  {
    && Live(s) && g.damage.Some? && !(s.d.pendingFull && !s.d.inMotion) && !e.stall
    && if Motion(g, settling) && !s.d.avcDisabled then
         && e.tH264 - s.d.lastH264 >= H264_MIN_INTERVAL
         && match e.encode
            case JoinFailed => Missing(s.d, g)
            case EmptyStream => Missing(s.d, g)
            case InitFailed =>
              if !e.joins then Missing(s.d, g)
              else
                && e.during.Quiet? && e.dropped
                && Missing(OweRegion(s.d, SplitDebtBand(Rect(0, 0, g.width, g.height), e.budget).0), g)
            case _ => false
       else !s.d.inMotion && !e.joins && Missing(s.d, g)
  }

  lemma NoDamageMissing(s: State, g: Grab)
    requires Opened(s, g) && !Missing(s.d, g)
    ensures Inv(s)
  {
  }

  lemma MissingBreaks(s: State, g: Grab)
    requires Opened(s, g) && Live(s) && Missing(s.d, g)
    ensures !Inv(s)
  {
    var p :| p in Damage(g) && !Secured(s.d, p);
    assert p in Claim(s);
  }

  /** With this grab's damage as the only possible gap, the invariant fails
      exactly when the client has a surface and part of the damage is not owed. */
  lemma LostIff(s: State, g: Grab)
    requires Opened(s, g)
    ensures Inv(s) <==> !(Live(s) && Missing(s.d, g))
  {
    if !Missing(s.d, g) {
      NoDamageMissing(s, g);
    } else if Live(s) {
      MissingBreaks(s, g);
    }
  }

  lemma SameDebtMissing(d: Display, d': Display, g: Grab)
    requires d.pendingFull == d'.pendingFull && d.debtRect == d'.debtRect
    ensures Missing(d, g) <==> Missing(d', g)
  {
    assert forall p :: Secured(d, p) <==> Secured(d', p);
  }

  lemma ClockOpened(s: State, g: Grab, t: Time)
    requires Opened(s, g) && s.now <= t
    ensures Opened(s.(now := t), g)
  {
  }

  /** A band of the fallback that did not get out loses damage exactly when the
      client still has its surface and the debt misses part of the damage. */
  ghost predicate BandLost(s: State, g: Grab, band: Rect, e: Env) {
    && Live(s)
    && if !e.joins then Missing(s.d, g)
       else e.during.Quiet? && e.dropped && Missing(OweRegion(s.d, band), g)
  }

  lemma BandLostIff(s: State, g: Grab, band: Rect, e: Env)
    requires Opened(s, g) && s.now <= e.tEnd && IsGrab(g) && s.d.surface.Some? && RectInFrame(band, g.width, g.height)
    requires SendClear(s, g, band, e).1.NotDelivered?
    ensures Inv(SendClear(s, g, band, e).0.(now := e.tEnd)) <==> !BandLost(s, g, band, e)
  {
    SendClearCore(s, g, band, e, Damage(g));
    var s1 := SendClear(s, g, band, e).0;
    BandOpened(s, g, band, e);
    ClockOpened(s1, g, e.tEnd);
    LostIff(s1.(now := e.tEnd), g);
    if e.joins {
      HappenCore(s, e.during, Damage(g));
    }
  }

  lemma BandOpened(s: State, g: Grab, band: Rect, e: Env)
    requires Opened(s, g) && IsGrab(g) && s.d.surface.Some? && RectInFrame(band, g.width, g.height)
    requires SendClear(s, g, band, e).1.NotDelivered?
    ensures Opened(SendClear(s, g, band, e).0, g)
  {
    SendClearCore(s, g, band, e, Damage(g));
    HappenOpened(s, e.during, g);
  }

  /** The lossless repaint of a whole frame that is not folded into the debt. */
  lemma RepayWholeIff(s: State, g: Grab, e: Env)
    requires Opened(s, g) && IsGrab(g) && s.d.surface.Some?
    requires s.now <= e.tEnd && s.d.capsResetUntil <= e.tEnd && (s.d.inMotion ==> s.d.settleUntil <= e.tEnd)
    ensures var whole := Rect(0, 0, g.width, g.height);
            var (s1, sent) := RepayDebt(s, g, whole, e);
            Paid(s1, sent, e) <==>
              e.stall || !BandLost(s, g, SplitDebtBand(whole, e.budget).0, e)
              || (e.joins && Accepts(Happen(s, e.during).pipe, e))
  {
    var whole := Rect(0, 0, g.width, g.height);
    RepayDebtCore(s, g, whole, e, Damage(g));
    if g.width > 0 && g.height > 0 {
      SplitIsExact(whole, e.budget);
      var band := SplitDebtBand(whole, e.budget).0;
      if SendClear(s, g, band, e).1.NotDelivered? {
        BandLostIff(s, g, band, e);
      }
    } else {
      assert Damage(g) == iset{};
    }
  }

  /** The lossless fallback after a failed x264 start: safe exactly when its
      band got out or the damage stays owed. */
  lemma FallbackIff(s: State, g: Grab, settling: bool, e: Env)
    requires Cleared(s, g, settling, e) && IsGrab(g) && !settling && s.d.surface.Some? && !s.d.avcDisabled
    requires e.encode.InitFailed? && g.damage.Some? && !(s.d.pendingFull && !s.d.inMotion)
    requires Motion(g, settling) && e.tH264 - s.d.lastH264 >= H264_MIN_INTERVAL
    ensures var (s1, sent) := SendH264(s, g, e);
            !sent.Delivered? && (Paid(s1, sent, e) <==> !Strands(s, g, settling, e))
  {
    var s0 := s.(d := s.d.(avcDisabled := true));
    assert Opened(s0, g) by { assert Claim(s0) == Claim(s); }
    RepayWholeIff(s0, g, e);
    var band := SplitDebtBand(Rect(0, 0, g.width, g.height), e.budget).0;
    SameDebtMissing(s.d, s0.d, g);
    SameDebtMissing(OweRegion(s.d, band), OweRegion(s0.d, band), g);
  }

  /** The frame a motion encode leaves behind. */
  ghost function AfterMotion(r: (State, Sent), e: Env): State {
    var (s1, sent) := r;
    if sent.Delivered? then s1.(d := s1.d.(inMotion := true, motionUntil := e.tEnd + MOTION_LINGER)) else s1
  }

  /** An H.264 frame that gets out covers the screen. */
  lemma PushedCore(s: State, g: Grab, e: Env)
    requires Cleared(s, g, false, e) && IsGrab(g) && PushH264(s, g, e).1.Delivered?
    ensures Inv(AfterMotion(PushH264(s, g, e), e).(now := e.tEnd))
  {
    HappenOpened(s, e.during, g);
    var s1 := Happen(s, e.during);
    var s2 := AfterMotion(PushH264(s, g, e), e).(now := e.tEnd);
    assert s1.stale - Screen(g) == iset{};
    PaintShows(s1, g, Screen(g), s2);
  }

  /** One the pipe refuses, or that has no encoder, is owed. */
  lemma EncodedCore(s: State, g: Grab, e: Env)
    requires Cleared(s, g, false, e) && IsGrab(g) && s.d.surface.Some? && !s.d.avcDisabled && !e.stall
    requires g.damage.Some? && (e.encode.Encoded? || e.encode.LumaOnly? || e.encode.NoEncoder?)
    ensures Inv(AfterMotion(SendH264(s, g, e), e).(now := e.tEnd))
  {
    if e.encode.NoEncoder? {
      OweEverythingCore(s, Damage(g), s.d.inMotion);
    } else if PushH264(s, g, e).1.Delivered? {
      PushedCore(s, g, e);
    } else {
      HappenOpened(s, e.during, g);
      OweRegionCore(Happen(s, e.during), g.damage.value, Damage(g));
      assert Damage(g) - Area(g.damage.value) == iset{};
    }
  }

  /** An encode that did not join, or produced an empty stream, is safe exactly
      when the damage is owed anyway. */
  lemma UnrecordedIff(s: State, g: Grab, e: Env)
    requires Cleared(s, g, false, e) && IsGrab(g) && s.d.surface.Some? && !s.d.avcDisabled && !e.stall
    requires e.encode.JoinFailed? || e.encode.EmptyStream?
    ensures Inv(AfterMotion(SendH264(s, g, e), e).(now := e.tEnd)) <==> !(Live(s) && Missing(s.d, g))
  {
    var s2 := AfterMotion(SendH264(s, g, e), e).(now := e.tEnd);
    assert Opened(s2, g) by { assert Claim(s2) <= Claim(s); }
    LostIff(s2, g);
    SameDebtMissing(s.d, s2.d, g);
  }

  ghost predicate DispatchSafe(s: State, g: Grab, settling: bool, e: Env)
    requires IsGrab(g)
  {
    var (s1, sent) := Dispatch(s, g, settling, e);
    Paid(s1, sent, e)
  }

  /** Motion frames. */
  lemma MotionIff(s: State, g: Grab, settling: bool, e: Env)
    requires Cleared(s, g, settling, e) && IsGrab(g) && g.damage.Some?
    requires !(s.d.pendingFull && !s.d.inMotion) && Motion(g, settling) && !s.d.avcDisabled
    ensures DispatchSafe(s, g, settling, e) <==> !Strands(s, g, settling, e)
  {
    if e.tH264 - s.d.lastH264 < H264_MIN_INTERVAL {
      OweRegionCore(s, g.damage.value, Damage(g));
      assert Damage(g) - Area(g.damage.value) == iset{};
    } else if s.d.surface.None? {
      assert !Live(s);
      assert Inv(s.(now := e.tEnd));
    } else if e.encode.InitFailed? {
      FallbackIff(s, g, settling, e);
    } else if e.stall {
      StallIsOwed(s, e, Damage(g));
    } else if e.encode.Encoded? || e.encode.LumaOnly? || e.encode.NoEncoder? {
      EncodedCore(s, g, e);
    } else {
      UnrecordedIff(s, g, e);
    }
  }

  /** A partial that got out leaves nothing claimed. */
  lemma PartialDelivered(s: State, g: Grab, settling: bool, e: Env)
    requires Cleared(s, g, settling, e) && IsGrab(g) && g.damage.Some? && !s.d.pendingFull && !s.d.inMotion
    requires SendClear(s, g, g.damage.value, e).1.Delivered?
    ensures Paid(SendClear(s, g, g.damage.value, e).0, Delivered, e)
  {
    var r := g.damage.value;
    SendClearCore(s, g, r, e, Damage(g));
    assert Live(s) by { HappenCore(s, e.during, Damage(g)); }
    assert Claim(s) <= Damage(g);
    var s1 := SendClear(s, g, r, e).0;
    SettledCore(s1, None, e);
    assert s1 == s1.(d := s1.d.(pendingFull := false, debtRect := None));
  }

  /** Lossless partials outside motion mode, with nothing owed before. */
  lemma PartialIff(s: State, g: Grab, settling: bool, e: Env)
    requires Cleared(s, g, settling, e) && IsGrab(g) && g.damage.Some?
    requires !s.d.pendingFull && !s.d.inMotion && !(Motion(g, settling) && !s.d.avcDisabled)
    ensures DispatchSafe(s, g, settling, e) <==> !Strands(s, g, settling, e)
  {
    var r := g.damage.value;
    var sent := SendClear(s, g, r, e).1;
    if sent.Stalled? {
      StallIsOwed(s, e, Damage(g));
    } else if sent.Delivered? {
      PartialDelivered(s, g, settling, e);
    } else if s.d.surface.None? {
      assert !Live(s);
      assert Inv(s.(now := e.tEnd));
    } else if !e.joins {
      ClockOpened(s, g, e.tEnd);
      LostIff(s.(now := e.tEnd), g);
    } else {
      SendClearCore(s, g, r, e, Damage(g));
      assert Damage(g) - Area(r) == iset{};
    }
  }

  /** The debt with this grab's damage folded in. */
  function Folded(s: State, g: Grab): State {
    if g.damage.Some? then s.(d := OweRegion(s.d, g.damage.value)) else s
  }

  lemma FoldedOpens(s: State, g: Grab)
    requires Opened(s, g) && IsGrab(g) && s.d.pendingFull
    ensures Inv(Folded(s, g)) && Opened(Folded(s, g), g) && Folded(s, g).d.pendingFull
  {
    if g.damage.Some? {
      OweRegionCore(s, g.damage.value, Damage(g));
      assert Damage(g) - Area(g.damage.value) == iset{};
    } else {
      assert Damage(g) == iset{};
    }
  }

  /** The region repaid covers every claim. */
  lemma RegionCovers(s: State, g: Grab)
    requires Inv(s) && Opened(s, g) && IsGrab(g) && s.d.pendingFull
    ensures RectInFrame(DebtRegion(s.d, g.width, g.height), g.width, g.height)
    ensures Live(s) ==> Claim(s) <= Area(DebtRegion(s.d, g.width, g.height))
  {
    if Live(s) {
      forall p | p in Claim(s)
        ensures p in Area(DebtRegion(s.d, g.width, g.height))
      {
        DebtRegionIsOwed(s.d, g, p);
      }
    }
  }

  lemma RepayIsPaid(s: State, g: Grab, e: Env)
    requires Inv(s) && Opened(s, g) && IsGrab(g) && s.d.pendingFull && s.now <= e.tEnd
    requires s.d.capsResetUntil <= e.tEnd && (s.d.inMotion ==> s.d.settleUntil <= e.tEnd)
    ensures var (s1, sent) := RepayDebt(s, g, DebtRegion(s.d, g.width, g.height), e); Paid(s1, sent, e)
  {
    RegionCovers(s, g);
    RepayDebtCore(s, g, DebtRegion(s.d, g.width, g.height), e, iset{});
  }

  /** Repaying the outstanding debt, with this grab's damage folded in. */
  lemma RepayBranch(s: State, g: Grab, settling: bool, e: Env)
    requires Cleared(s, g, settling, e) && IsGrab(g) && s.d.pendingFull
    requires g.damage.Some? ==> !s.d.inMotion
    ensures DispatchSafe(s, g, settling, e)
  {
    FoldedOpens(s, g);
    RepayIsPaid(Folded(s, g), g, e);
  }

  /** A dispatched frame keeps the debt covering every stale pixel exactly when
      it does not strand its damage. */
  lemma DispatchIff(s: State, g: Grab, settling: bool, e: Env)
    requires Cleared(s, g, settling, e) && IsGrab(g)
    ensures DispatchSafe(s, g, settling, e) <==> !Strands(s, g, settling, e)
  {
    if g.damage.None? && !s.d.pendingFull {
      assert Damage(g) == iset{};
      assert Inv(s.(now := e.tEnd));
    } else if g.damage.None? || (s.d.pendingFull && !s.d.inMotion) {
      RepayBranch(s, g, settling, e);
    } else if Motion(g, settling) && !s.d.avcDisabled {
      MotionIff(s, g, settling, e);
    } else if s.d.inMotion {
      OweRegionCore(s, g.damage.value, Damage(g));
      assert Damage(g) - Area(g.damage.value) == iset{};
    } else {
      PartialIff(s, g, settling, e);
    }
  }

  /** The frame strands part of its damage. */
  ghost predicate FrameStrands(s: State, g: Grab, e: Env)
    requires IsGrab(g)
  {
    var (s1, goesOn, settling) := Gate(Open(s, g, e), g, e);
    goesOn && Strands(s1, g, settling, e)
  }

  /** One frame, any environment: the invariant survives if and only if the
      frame does not take one of the stranding branches. */
  lemma FrameSafeIff(s: State, g: Grab, e: Env)
    requires Inv(s) && Follows(s.last, g) && s.pipe.state.Ready? && EnvOk(s, e)
    ensures Inv(EgfxFrame(s, g, e)) <==> !FrameStrands(s, g, e)
  {
    OpenOpens(s, g, e);
    var s0 := Open(s, g, e);
    GateCore(s0, g, e);
    var (s1, goesOn, settling) := Gate(s0, g, e);
    if goesOn {
      DispatchIff(s1, g, settling, e);
    }
  }
}
