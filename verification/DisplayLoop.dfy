/**
 `EgfxUpdates` of linrdp/src/gfx_display.rs: the methods that change the loop's
 fields in place, each tied to the state function its safety is proved about.
 */
module DisplayLoop {
  import opened Prelude
  import opened Geometry
  import opened Frames
  import opened Capture
  import P = Pipeline
  import R = DisplayRuns

  /** The colour a packed payload holds for a pixel of `r`. */
  ghost function PackedColour(r: Rect, payload: seq<byte>, p: Px): Colour
    requires |payload| == 4 * (r.w * r.h) && Within(p, r)
  {
    OffBounds(r.w, r.h, p.x - r.x, p.y - r.y, 1);
    PayloadColour(payload, r.w, p.x - r.x, p.y - r.y)
  }

  /** The picture after a decoder paints a packed payload into `r`. */
  ghost function PaintPayload(shown: imap<Px, Colour>, r: Rect, payload: seq<byte>): imap<Px, Colour>
    requires |payload| == 4 * (r.w * r.h)
  {
    imap p: Px | p in shown.Keys + P.Area(r) :: if p in P.Area(r) then PackedColour(r, payload, p) else shown[p]
  }

  lemma CropColour(g: Grab, r: Rect, payload: seq<byte>, p: Px)
    requires IsGrab(g) && RectInFrame(r, g.width, g.height) && IsCrop(payload, g.data, g.width, g.height, r)
    requires Within(p, r)
    ensures OnScreen(p, g) && PackedColour(r, payload, p) == ColourAt(g.data, g.width, g.height, p)
  {
    assert CropPixel(payload, g.data, g.width, g.height, r, p);
  }

  /** What the client decodes is the frame's own content at that place. */
  lemma PayloadPaints(shown: imap<Px, Colour>, g: Grab, r: Rect, payload: seq<byte>)
    requires IsGrab(g) && RectInFrame(r, g.width, g.height) && IsCrop(payload, g.data, g.width, g.height, r)
    ensures PaintPayload(shown, r, payload) == P.PaintArea(shown, g, P.Area(r))
  {
    var painted, meant := PaintPayload(shown, r, payload), P.PaintArea(shown, g, P.Area(r));
    forall p | p in P.Area(r)
      ensures p in painted && p in meant && painted[p] == meant[p]
    {
      CropColour(g, r, payload, p);
    }
  }

  class EgfxUpdates {
    var surface: Option<P.Dims>
    var generation: Option<nat>
    var pendingFull: bool
    var debtRect: Option<Rect>
    var inMotion: bool
    var motionUntil: P.Time
    var capsResetUntil: P.Time
    var settleUntil: P.Time
    var lastH264: P.Time
    var avcDisabled: bool
    var avc444v2: bool
    var clearSeq: byte
    /** The pipeline server behind the session's handle. */
    var pipe: P.Pipe

    /** The clock, the last grab and the client's side; its `d` and `pipe` are
        superseded by the fields above. */
    ghost var view: P.State

    function D(): P.Display
      reads this
    {
      P.Display(surface, generation, pendingFull, debtRect, inMotion, motionUntil, capsResetUntil, settleUntil,
                lastH264, avcDisabled, avc444v2, clearSeq)
    }

    ghost function Model(): P.State
      reads this
    {
      view.(d := D(), pipe := pipe)
    }

    /** A fresh updates stream finds whatever pipe the session has; no surface
        on it is this stream's. */
    constructor (start: P.Time, settle: P.Time, id: nat, state: P.PipeState)
      ensures R.Init(Model()) && Model().now == start && Model().pipe == P.Pipe(id, state, None)
    {
      surface, generation, pendingFull, debtRect := None, None, true, None;
      inMotion, motionUntil, capsResetUntil, settleUntil, lastH264 := false, start, start, settle, start - P.H264_MIN_INTERVAL;
      avcDisabled, avc444v2, clearSeq := false, false, 0;
      pipe := P.Pipe(id, state, None);
      view := P.State(P.Display(None, None, true, None, false, start, start, settle, start, false, false, 0),
                      P.Pipe(id, state, None), start, None, imap[], iset{}, iset{}, iset{}, [], 0);
    }

    method OweRegion(r: Rect)
      modifies this
      ensures Model() == old(Model()).(d := P.OweRegion(old(D()), r))
    {
      if pendingFull && debtRect.None? {
        return;
      }
      debtRect := Some(match debtRect case None => r case Some(cur) => UnionRect(cur, r));
      pendingFull := true;
    }

    method OweEverything()
      modifies this
      ensures Model() == old(Model()).(d := P.OweEverything(old(D())))
    {
      pendingFull := true;
      debtRect := None;
    }

    /** Something the client does to the pipe while the loop is elsewhere. */
    method ClientActs(a: P.Async)
      modifies this
      ensures Model() == P.Happen(old(Model()), a)
    {
      match a
      case Quiet =>
      case Close => pipe := pipe.(state := P.Closed);
      case Advertise =>
        match pipe.state
        case Closed =>
        case Waiting => pipe := pipe.(state := P.Ready);
        case Ready =>
          pipe := pipe.(hosts := None);
          view := view.(shown := imap[], wire := [], base := clearSeq);
    }

    /** A ready pipe gets a surface that shows nothing yet. */
    method NewSurface(g: Grab)
      modifies this
      ensures Model() == P.NewSurface(old(Model()), g)
    {
      pipe := pipe.(hosts := Some(P.DimsOf(g)));
      surface := Some(P.DimsOf(g));
      view := view.(shown := imap[], stale := P.Screen(g), lossy := iset{}, half := iset{});
    }

    method EnsureSurface(g: Grab, e: P.Env)
      modifies this
      ensures Model() == P.EnsureSurface(old(Model()), g, e)
    {
      avcDisabled := !e.avc420;
      avc444v2 := e.avc444v2;
      if pipe.state.Ready? {
        NewSurface(g);
      }
    }

    /** Hand an encoded rectangle to the pipe. */
    method PushClear(g: Grab, r: Rect, payload: seq<byte>, e: P.Env) returns (sent: P.Sent)
      requires IsGrab(g) && RectInFrame(r, g.width, g.height) && IsCrop(payload, g.data, g.width, g.height, r)
      modifies this
      ensures (Model(), sent) == P.PushClear(old(Model()), g, r, e)
    {
      if P.Accepts(pipe, e) {
        PayloadPaints(view.shown, g, r, payload);
        view := view.(shown := PaintPayload(view.shown, r, payload), stale := view.stale - P.Area(r),
                      lossy := view.lossy - P.Area(r), half := view.half - P.Area(r), wire := view.wire + [clearSeq]);
        clearSeq := P.NextSeq(clearSeq);
        return P.Delivered;
      }
      OweRegion(r);
      return P.NotDelivered;
    }

    method SendClear(g: Grab, r: Rect, e: P.Env) returns (sent: P.Sent)
      requires IsGrab(g) && RectInFrame(r, g.width, g.height)
      modifies this
      ensures (Model(), sent) == P.SendClear(old(Model()), g, r, e)
    {
      if surface.None? {
        return P.NotDelivered;
      }
      var full := r == Rect(0, 0, g.width, g.height);
      var payload;
      if full {
        payload := MakeOpaque(g.data);
        FullFrameIsCrop(payload, g.data, g.width, g.height);
      } else {
        payload := CropBgra(g.data, g.width, g.height, r);
      }
      if e.stall {
        return P.Stalled;
      }
      if !e.joins {
        return P.NotDelivered;
      }
      ClientActs(e.during);
      sent := PushClear(g, r, payload, e);
    }

    method RepayDebt(g: Grab, r: Rect, e: P.Env) returns (sent: P.Sent)
      requires IsGrab(g) && RectInFrame(r, g.width, g.height)
      modifies this
      ensures (Model(), sent) == P.RepayDebt(old(Model()), g, r, e)
    {
      if r.w == 0 || r.h == 0 {
        pendingFull := false;
        debtRect := None;
        return P.NotDelivered;
      }
      SplitIsExact(r, e.budget);
      var (band, remainder) := SplitDebtBand(r, e.budget);
      sent := SendClear(g, band, e);
      if sent.Delivered? {
        var (pending, rest) := SettleDebt(remainder);
        pendingFull := pending;
        debtRect := rest;
      }
    }

    /** No H.264 for this session: repaint the screen losslessly instead. */
    method Fallback(g: Grab, e: P.Env) returns (sent: P.Sent)
      requires IsGrab(g)
      modifies this
      ensures (Model(), sent) == P.NotCurrent(P.RepayDebt(old(Model()).(d := old(D()).(avcDisabled := true)), g,
                                                          Rect(0, 0, g.width, g.height), e))
    {
      avcDisabled := true;
      sent := RepayDebt(g, Rect(0, 0, g.width, g.height), e);
      return if sent.Stalled? then P.Stalled else P.NotDelivered;
    }

    /** Hand an encoded frame to the pipe. */
    method PushH264(g: Grab, e: P.Env) returns (sent: P.Sent)
      requires IsGrab(g)
      modifies this
      ensures (Model(), sent) == P.PushH264(old(Model()), g, e)
    {
      ClientActs(e.during);
      if P.Accepts(pipe, e) {
        lastH264, pendingFull, debtRect := e.tEnd, false, None;
        view := view.(shown := P.PaintArea(view.shown, g, P.Screen(g)), stale := iset{}, lossy := P.Screen(g),
                      half := if avc444v2 && e.encode.Encoded? then iset{} else P.Screen(g));
        return P.Delivered;
      }
      if g.damage.Some? {
        OweRegion(g.damage.value);
      }
      return P.NotDelivered;
    }

    method SendH264(g: Grab, e: P.Env) returns (sent: P.Sent)
      requires IsGrab(g)
      modifies this
      ensures (Model(), sent) == P.SendH264(old(Model()), g, e)
    {
      if surface.None? {
        return P.NotDelivered;
      }
      if avcDisabled || e.encode.InitFailed? {
        sent := Fallback(g, e);
        return sent;
      }
      if e.stall {
        return P.Stalled;
      }
      match e.encode {
        case JoinFailed => return P.NotDelivered;
        case NoEncoder =>
          OweEverything();
          return P.NotDelivered;
        case EmptyStream => return P.Delivered;
        case LumaOnly | Encoded =>
          sent := PushH264(g, e);
      }
    }

    /** The client's surface and decoder state are gone. */
    method Forget()
      modifies this
      ensures Model() == old(Model()).(d := old(D()).(surface := None, clearSeq := 0), base := 0)
    {
      surface, clearSeq := None, 0;
      view := view.(base := 0);
    }

    /** The client dropped our surface: start over and hold frames. */
    method Revive(g: Grab, e: P.Env)
      modifies this
      ensures Model() == P.Revive(old(Model()), g, e)
    {
      Forget();
      EnsureSurface(g, e);
      OweEverything();
      capsResetUntil := e.tStart + P.CAPS_SETTLE;
    }

    method LeaveMotion(settling: bool, tMotion: P.Time)
      modifies this
      ensures Model() == old(Model()).(d := P.LeaveMotion(old(D()), settling, tMotion))
    {
      if settling {
        inMotion := false;
      }
      if inMotion && tMotion >= motionUntil {
        inMotion := false;
        if !avc444v2 {
          OweEverything();
        }
      }
    }

    /** The checks before the damage is looked at. */
    method Gate(g: Grab, e: P.Env) returns (goesOn: bool, settling: bool)
      modifies this
      ensures (Model(), goesOn, settling) == P.Gate(old(Model()), g, e)
    {
      if surface.Some? && pipe.hosts.None? {
        Revive(g, e);
        return false, false;
      }
      if e.backpressure {
        if g.damage.Some? {
          OweRegion(g.damage.value);
        }
        return false, false;
      }
      if e.tCaps < capsResetUntil {
        return false, false;
      }
      settling := e.tSettle < settleUntil;
      LeaveMotion(settling, e.tMotion);
      return true, settling;
    }

    method Dispatch(g: Grab, settling: bool, e: P.Env) returns (sent: P.Sent)
      requires IsGrab(g)
      modifies this
      ensures (Model(), sent) == P.Dispatch(old(Model()), g, settling, e)
    {
      sent := P.NotDelivered;
      if g.damage.None? {
        if pendingFull {
          sent := RepayDebt(g, P.DebtRegion(D(), g.width, g.height), e);
        }
      } else if pendingFull && !inMotion {
        OweRegion(g.damage.value);
        sent := RepayDebt(g, P.DebtRegion(D(), g.width, g.height), e);
      } else if P.Motion(g, settling) && !avcDisabled {
        if e.tH264 - lastH264 < P.H264_MIN_INTERVAL {
          OweRegion(g.damage.value);
          return P.NotDelivered;
        }
        sent := SendH264(g, e);
        if sent.Delivered? {
          inMotion, motionUntil := true, e.tEnd + P.MOTION_LINGER;
        }
      } else if inMotion {
        OweRegion(g.damage.value);
      } else {
        sent := SendClear(g, g.damage.value, e);
      }
    }

    method NoteResize(g: Grab, e: P.Env)
      modifies this
      ensures Model() == P.NoteResize(old(Model()), g, e)
    {
      if surface != Some(P.DimsOf(g)) && surface.Some? {
        settleUntil := e.tStart + P.RESIZE_SETTLE;
      }
    }

    method Replace(g: Grab, e: P.Env)
      modifies this
      ensures Model() == P.Replace(old(Model()), g, e)
    {
      EnsureSurface(g, e);
      generation := Some(pipe.id);
      OweEverything();
    }

    /** New connection or screen resize: re-create the surface. */
    method Recreate(g: Grab, e: P.Env)
      modifies this
      ensures Model() == P.Recreate(old(Model()), g, e)
    {
      if surface != Some(P.DimsOf(g)) || generation != Some(pipe.id) {
        NoteResize(g, e);
        Replace(g, e);
      }
    }

    /** The grab is taken and the surface looked after. */
    method Open(g: Grab, e: P.Env)
      modifies this
      ensures Model() == P.Open(old(Model()), g, e)
    {
      view := view.(last := Some(g), stale := view.stale + P.Damage(g));
      ClientActs(e.before);
      Recreate(g, e);
      ClientActs(e.between);
    }

    /** A stalled frame leaves everything owed. */
    method Finish(sent: P.Sent, e: P.Env)
      modifies this
      ensures Model() == P.Finish(old(Model()), sent, e)
    {
      if sent.Stalled? {
        inMotion := false;
        OweEverything();
      }
      view := view.(now := e.tEnd);
    }

    /** One grab through the graphics pipeline, under the processing timeout. */
    method EgfxFrame(g: Grab, e: P.Env)
      requires IsGrab(g)
      modifies this
      ensures Model() == P.EgfxFrame(old(Model()), g, e)
    {
      Open(g, e);
      var goesOn, settling := Gate(g, e);
      if goesOn {
        var sent := Dispatch(g, settling, e);
        Finish(sent, e);
      } else {
        Finish(P.NotDelivered, e);
      }
    }

    /** One turn of `next_update`: a step of the run whose safety is proved in
        `DisplayRuns`. */
    method NextUpdate(ev: R.Event)
      requires ev.Grabbed? ==> IsGrab(ev.grab)
      modifies this
      ensures Model() == R.Step(old(Model()), ev)
    {
      match ev
      case Grabbed(g, e, r) =>
        var route := P.RouteState(pipe.state.Ready?, generation.Some?, pipe.state.Closed?,
                                  r.clientSupports, r.waited, r.sinceStart);
        if P.EgfxDecision(route).Egfx? {
          EgfxFrame(g, e);
        } else {
          view := view.(last := Some(g), stale := view.stale + P.Damage(g), now := e.tEnd);
        }
      case FromClient(a) => ClientActs(a);
      case NewPipe =>
        pipe := P.Pipe(pipe.id + 1, P.Waiting, None);
        view := view.(shown := imap[], wire := [], base := clearSeq);
      case Refresh(area) => OweRegion(area);
    }
  }
}
