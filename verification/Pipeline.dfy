/**
 The lossless-debt machine of the EGFX display loop (linrdp/src/gfx_display.rs),
 with the pipeline server it talks to and the client's picture as ghost state.
 */
module Pipeline {
  import opened Prelude
  import opened Geometry
  import opened Frames
  import opened Capture

  /** Milliseconds on a monotone clock. */
  type Time = int

  const RESIZE_SETTLE: Time := 1500
  const CAPS_SETTLE: Time := 250
  const MOTION_LINGER: Time := 250
  const H264_MIN_INTERVAL: Time := 12

  datatype Dims = Dims(w: u16, h: u16)

  function DimsOf(g: Grab): Dims { Dims(g.width, g.height) }

  // ----- Routing (egfx_decision) -----

  datatype Decision = Egfx | Legacy | Hold

  datatype RouteState = RouteState(ready: bool, latched: bool, unavailable: bool, clientSupports: bool,
                                   waited: Option<Time>, sinceStart: Time)

  const EGFX_READY_DEADLINE: Time := 3000
  const LEGACY_GRACE: Time := 1500

  function EgfxDecision(s: RouteState): Decision {
    if s.ready then Egfx
    else if s.latched then (if s.unavailable then Legacy else Hold)
    else if !s.clientSupports || s.unavailable then Legacy
    else match s.waited
      case Some(waited) => if waited >= EGFX_READY_DEADLINE then Legacy else Hold
      case None => if s.sinceStart >= LEGACY_GRACE then Legacy else Hold
  }

  // ----- The pipeline server and what may happen to it -----

  datatype PipeState = Waiting | Ready | Closed

  /** One `GraphicsPipelineServer`: `hosts` is the surface it knows, if any. */
  datatype Pipe = Pipe(id: nat, state: PipeState, hosts: Option<Dims>)

  /** What the client may do between two critical sections of the loop. */
  datatype Async = Quiet | Advertise | Close

  // ----- The display loop -----

  datatype Display = Display(
    surface: Option<Dims>, generation: Option<nat>,
    pendingFull: bool, debtRect: Option<Rect>,
    inMotion: bool, motionUntil: Time, capsResetUntil: Time, settleUntil: Time, lastH264: Time,
    avcDisabled: bool, avc444v2: bool, clearSeq: byte)

  /** `owe_region`: merge `r` into the debt; a whole-screen debt stays whole. */
  function OweRegion(d: Display, r: Rect): Display {
    if d.pendingFull && d.debtRect.None? then d
    else d.(pendingFull := true,
            debtRect := Some(if d.debtRect.None? then r else UnionRect(d.debtRect.value, r)))
  }

  function OweEverything(d: Display): Display { d.(pendingFull := true, debtRect := None) }

  /** The region to repaint for the outstanding debt, clamped to the frame. */
  function DebtRegion(d: Display, w: u16, h: u16): Rect {
    match d.debtRect
    case None => Rect(0, 0, w, h)
    case Some(r) =>
      var x := if r.x < w then r.x else w;
      var y := if r.y < h then r.y else h;
      Rect(x, y, if r.w < w - x then r.w else w - x, if r.h < h - y then r.h else h - y)
  }

  predicate Owes(d: Display, p: Px) {
    d.pendingFull && (d.debtRect.None? || Within(p, d.debtRect.value))
  }

  predicate OwesAll(d: Display) { d.pendingFull && d.debtRect.None? }

  /** Loop, server and the client's picture. `stale` collects the pixels changed
      by a processed grab and not covered by a later delivered message, `lossy`
      those whose last delivered message was an H.264 frame and `half` those for
      which that frame carried the chroma at half resolution only. `wire` holds
      the ClearCodec numbers delivered since the client's last reset and `base`
      the number the loop held when that reset happened. */
  datatype State = State(
    d: Display, pipe: Pipe, now: Time, last: Option<Grab>,
    shown: imap<Px, Colour>, stale: iset<Px>, lossy: iset<Px>, half: iset<Px>,
    wire: seq<byte>, base: byte)

  ghost function Screen(g: Grab): iset<Px> { iset p: Px | OnScreen(p, g) }

  ghost function Area(r: Rect): iset<Px> { iset p: Px | Within(p, r) }

  ghost function Damage(g: Grab): iset<Px> { iset p: Px | InDebt(p, g.damage) }

  /** A client-side event on the current pipe. An advertise on a ready pipe is
      the mid-session reset of section 3.2.5.18 of MS-RDPEGFX: surfaces gone on
      both sides, numbering void. A closed channel processes nothing. */
  ghost function Happen(s: State, a: Async): State {
    match a
    case Quiet => s
    case Close => s.(pipe := s.pipe.(state := Closed))
    case Advertise =>
      match s.pipe.state
      case Closed => s
      case Waiting => s.(pipe := s.pipe.(state := Ready))
      case Ready => s.(pipe := s.pipe.(hosts := None), shown := imap[], wire := [], base := s.d.clearSeq)
  }

  /** The factory publishes a new pipe: a client with nothing on screen. */
  ghost function Build(s: State): State {
    s.(pipe := Pipe(s.pipe.id + 1, Waiting, None), shown := imap[], wire := [], base := s.d.clearSeq)
  }

  /** What the environment decides during one frame, in program order. */
  datatype Env = Env(
    before: Async,        // until the surface is (re)created
    avc420: bool, avc444v2: bool,
    between: Async,       // until the surface is looked up
    backpressure: bool,
    tStart: Time, tCaps: Time, tSettle: Time, tMotion: Time, tH264: Time, tEnd: Time,
    budget: nat,          // lossless_budget_px
    stall: bool,          // FRAME_PROCESS_TIMEOUT hits the blocking encode
    joins: bool,          // the blocking ClearCodec encode joins
    encode: EncodeResult,
    during: Async,        // while the frame encodes
    dropped: bool)        // backpressure at the send

  /** How the H.264 encode ends. `LumaOnly` is an empty chroma stream: under
      AVC444v2 the luma view goes out alone, as it always does under AVC420. */
  datatype EncodeResult = InitFailed | JoinFailed | NoEncoder | EmptyStream | LumaOnly | Encoded

  predicate EnvOk(s: State, e: Env) {
    s.now <= e.tStart <= e.tCaps <= e.tSettle <= e.tMotion <= e.tH264 <= e.tEnd
  }

  /** A surface of the grab's size that shows nothing yet. */
  ghost function NewSurface(s: State, g: Grab): State {
    s.(d := s.d.(surface := Some(DimsOf(g))), pipe := s.pipe.(hosts := Some(DimsOf(g))),
       shown := imap[], stale := Screen(g), lossy := iset{}, half := iset{})
  }

  /** `ensure_surface`: a resize drops the old surface, a ready pipe gets a new
      one. */
  ghost function EnsureSurface(s: State, g: Grab, e: Env): State {
    var s1 := s.(d := s.d.(avcDisabled := !e.avc420, avc444v2 := e.avc444v2));
    if s.pipe.state.Ready? then NewSurface(s1, g) else s1
  }

  /** A grab is consumed: whatever it changed is stale until delivered. */
  ghost function Absorb(s: State, g: Grab): State {
    s.(last := Some(g), stale := s.stale + Damage(g))
  }

  predicate SizeChanged(d: Display, g: Grab) { d.surface != Some(DimsOf(g)) }

  predicate GenerationChanged(d: Display, pipe: Pipe) { d.generation != Some(pipe.id) }

  /** A resize starts a settling window. */
  function NoteResize(s: State, g: Grab, e: Env): State {
    if SizeChanged(s.d, g) && s.d.surface.Some? then s.(d := s.d.(settleUntil := e.tStart + RESIZE_SETTLE)) else s
  }

  /** A surface of our own under the current handle, everything owed. */
  ghost function Replace(s: State, g: Grab, e: Env): State {
    var s1 := EnsureSurface(s, g, e);
    s1.(d := OweEverything(s1.d.(generation := Some(s.pipe.id))))
  }

  ghost function Recreate(s: State, g: Grab, e: Env): State {
    if !SizeChanged(s.d, g) && !GenerationChanged(s.d, s.pipe) then s else Replace(NoteResize(s, g, e), g, e)
  }

  predicate Vanished(d: Display, pipe: Pipe) { d.surface.Some? && pipe.hosts.None? }

  /** The client dropped our surface: start over and hold frames. */
  ghost function Revive(s: State, g: Grab, e: Env): State {
    var s1 := s.(d := s.d.(surface := None, clearSeq := 0), base := 0);
    var s2 := EnsureSurface(s1, g, e);
    s2.(d := OweEverything(s2.d).(capsResetUntil := e.tStart + CAPS_SETTLE))
  }

  /** The grab is taken and the surface looked after. */
  ghost function Open(s: State, g: Grab, e: Env): State {
    Happen(Recreate(Happen(Absorb(s, g), e.before), g, e), e.between)
  }

  /** Leave motion mode while settling or once the linger window lapsed. */
  function LeaveMotion(d: Display, settling: bool, tMotion: Time): Display {
    if settling then d.(inMotion := false)
    else if d.inMotion && tMotion >= d.motionUntil then
      if d.avc444v2 then d.(inMotion := false) else OweEverything(d.(inMotion := false))
    else d
  }

  /** The checks before the damage is looked at: the state, whether the frame
      goes on, and whether the desktop is still settling. */
  ghost function Gate(s: State, g: Grab, e: Env): (State, bool, bool) {
    if Vanished(s.d, s.pipe) then (Revive(s, g, e), false, false)
    else if e.backpressure then
      (if g.damage.Some? then s.(d := OweRegion(s.d, g.damage.value)) else s, false, false)
    else if e.tCaps < s.d.capsResetUntil then (s, false, false)
    else
      var settling := e.tSettle < s.d.settleUntil;
      (s.(d := LeaveMotion(s.d, settling, e.tMotion)), true, settling)
  }

  /** `wrapping_add(1)` on the u8 sequence number. */
  function NextSeq(n: byte): byte { if n == 255 then 0 else n + 1 }

  datatype Sent = Delivered | NotDelivered | Stalled

  predicate Accepts(pipe: Pipe, e: Env) { pipe.state.Ready? && !e.dropped && pipe.hosts.Some? }

  /** An encoded rectangle goes to the pipe under the next number; refused, it
      is owed. */
  ghost function PushClear(s: State, g: Grab, r: Rect, e: Env): (State, Sent)
    requires IsGrab(g) && RectInFrame(r, g.width, g.height)
  {
    if Accepts(s.pipe, e) then
      (s.(d := s.d.(clearSeq := NextSeq(s.d.clearSeq)),
          shown := PaintArea(s.shown, g, Area(r)), stale := s.stale - Area(r), lossy := s.lossy - Area(r),
          half := s.half - Area(r), wire := s.wire + [s.d.clearSeq]), Delivered)
    else (s.(d := OweRegion(s.d, r)), NotDelivered)
  }

  /** `send_clear`: one lossless rectangle. */
  ghost function SendClear(s: State, g: Grab, r: Rect, e: Env): (State, Sent)
    requires IsGrab(g) && RectInFrame(r, g.width, g.height)
  {
    if s.d.surface.None? then (s, NotDelivered)
    else if e.stall then (s, Stalled)
    else if !e.joins then (s, NotDelivered)
    else PushClear(Happen(s, e.during), g, r, e)
  }

  ghost function PaintArea(shown: imap<Px, Colour>, g: Grab, area: iset<Px>): imap<Px, Colour>
    requires IsGrab(g) && area <= Screen(g)
  {
    imap p: Px | p in shown.Keys + area :: if p in area then ColourAt(g.data, g.width, g.height, p) else shown[p]
  }

  /** `repay_debt` over a rectangle of the frame. */
  ghost function RepayDebt(s: State, g: Grab, r: Rect, e: Env): (State, Sent)
    requires IsGrab(g) && RectInFrame(r, g.width, g.height)
  {
    if r.w == 0 || r.h == 0 then (s.(d := s.d.(pendingFull := false, debtRect := None)), NotDelivered)
    else
      SplitIsExact(r, e.budget);
      var (band, rest) := SplitDebtBand(r, e.budget);
      var (s1, sent) := SendClear(s, g, band, e);
      if sent != Delivered then (s1, sent)
      else
        var (pending, rect) := SettleDebt(rest);
        (s1.(d := s1.d.(pendingFull := pending, debtRect := rect)), sent)
  }

  /** An encoded full-screen H.264 frame goes to the pipe; refused, the damage
      it would have carried is owed. */
  ghost function PushH264(s: State, g: Grab, e: Env): (State, Sent)
    requires IsGrab(g)
  {
    var s1 := Happen(s, e.during);
    if Accepts(s1.pipe, e) then
      (s1.(d := s1.d.(pendingFull := false, debtRect := None, lastH264 := e.tEnd),
           shown := PaintArea(s1.shown, g, Screen(g)), stale := iset{}, lossy := Screen(g),
           half := if s1.d.avc444v2 && e.encode.Encoded? then iset{} else Screen(g)), Delivered)
    else
      (if g.damage.Some? then s1.(d := OweRegion(s1.d, g.damage.value)) else s1, NotDelivered)
  }

  /** `send_h264`: a full-frame motion encode; whether the client's view is now
      current via H.264. */
  ghost function SendH264(s: State, g: Grab, e: Env): (State, Sent)
    requires IsGrab(g)
  {
    var whole := Rect(0, 0, g.width, g.height);
    if s.d.surface.None? then (s, NotDelivered)
    else if s.d.avcDisabled then NotCurrent(RepayDebt(s, g, whole, e))
    else if e.encode.InitFailed? then NotCurrent(RepayDebt(s.(d := s.d.(avcDisabled := true)), g, whole, e))
    else if e.stall then (s, Stalled)
    else if e.encode.JoinFailed? then (s, NotDelivered)
    else if e.encode.NoEncoder? then (s.(d := OweEverything(s.d)), NotDelivered)
    else if e.encode.EmptyStream? then (s, Delivered)
    else PushH264(s, g, e)
  }

  ghost function NotCurrent(r: (State, Sent)): (State, Sent) {
    (r.0, if r.1.Stalled? then Stalled else NotDelivered)
  }

  predicate Motion(g: Grab, settling: bool) { !settling && g.changedTiles * 8 > g.totalTiles }

  /** What a frame does once it gets past the holds. */
  ghost function Dispatch(s: State, g: Grab, settling: bool, e: Env): (State, Sent)
    requires IsGrab(g)
  {
    if g.damage.None? then
      if s.d.pendingFull then RepayDebt(s, g, DebtRegion(s.d, g.width, g.height), e) else (s, NotDelivered)
    else if s.d.pendingFull && !s.d.inMotion then
      var s1 := s.(d := OweRegion(s.d, g.damage.value));
      RepayDebt(s1, g, DebtRegion(s1.d, g.width, g.height), e)
    else if Motion(g, settling) && !s.d.avcDisabled then
      if e.tH264 - s.d.lastH264 < H264_MIN_INTERVAL then
        (s.(d := OweRegion(s.d, g.damage.value)), NotDelivered)
      else
        var (s1, sent) := SendH264(s, g, e);
        if sent.Delivered? then (s1.(d := s1.d.(inMotion := true, motionUntil := e.tEnd + MOTION_LINGER)), sent)
        else (s1, sent)
    else if s.d.inMotion then (s.(d := OweRegion(s.d, g.damage.value)), NotDelivered)
    else SendClear(s, g, g.damage.value, e)
  }

  /** The end of a frame; after a stalled one everything is owed. */
  function Finish(s: State, sent: Sent, e: Env): State {
    (if sent.Stalled? then s.(d := OweEverything(s.d.(inMotion := false))) else s).(now := e.tEnd)
  }

  /** One call of `egfx_frame`, with the reset after a stalled one. */
  ghost function EgfxFrame(s: State, g: Grab, e: Env): State
    requires IsGrab(g)
  {
    var (s1, goesOn, settling) := Gate(Open(s, g, e), g, e);
    if goesOn then
      var (s2, sent) := Dispatch(s1, g, settling, e);
      Finish(s2, sent, e)
    else Finish(s1, NotDelivered, e)
  }
}
