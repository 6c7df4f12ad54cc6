/**
 Runs of the display loop, from a fresh updates stream, in which one of its
 promises does not hold.
 */
module DisplayWitnesses {
  import opened Prelude
  import opened Geometry
  import Frames
  import opened Capture
  import opened Pipeline
  import opened DebtSafety
  import opened DisplayRuns

  /** A run one event longer. */
  lemma {:induction false} RunExtends(s: State, evs: seq<Event>, ev: Event)
    requires RunOk(s, evs) && Possible(Run(s, evs), ev) && !Stranding(Run(s, evs), ev)
    ensures RunOk(s, evs + [ev]) && Run(s, evs + [ev]) == Step(Run(s, evs), ev)
    decreases |evs|
  {
    if |evs| == 0 {
      assert ([ev])[1..] == [];
      assert evs + [ev] == [ev];
    } else {
      RunExtends(Step(s, evs[0]), evs[1..], ev);
      assert (evs + [ev])[1..] == evs[1..] + [ev];
    }
  }

  // ----- The environment of the runs -----

  /** Nothing in the way at time `t`. */
  function Calm(t: Time, avc420: bool, avc444v2: bool): Env {
    Env(Quiet, avc420, avc444v2, Quiet, false, t, t, t, t, t, t, 2, false, true, Encoded, Quiet, false)
  }

  /** A screen one row high and `w` pixels wide, all of colour `c`. */
  function Strip(w: u16, c: byte, damage: Option<Rect>): Grab {
    Grab(seq(4 * w, i => c), w, 1, damage, if damage.Some? then 1 else 0, 1)
  }

  /** The strip after a change of every pixel, and after none. */
  function Changed(w: u16, c: byte): Grab { Strip(w, c, Some(Rect(0, 0, w, 1))) }

  function Same(w: u16, c: byte): Grab { Strip(w, c, None) }

  function Turn(g: Grab, e: Env): Event { Grabbed(g, e, Route(true, None, 0)) }

  lemma StripIsGrab(w: u16, c: byte, damaged: bool)
    requires 0 < w <= 2
    ensures var g := if damaged then Changed(w, c) else Same(w, c);
            IsGrab(g) && forall p :: OnScreen(p, g) ==> Frames.ColourAt(g.data, w, 1, p) == Frames.Colour(c, c, c)
  {
  }

  lemma ChangedFollows(last: Option<Grab>, w: u16, c: byte)
    requires 0 < w <= 2
    ensures Follows(last, Changed(w, c))
  {
    StripIsGrab(w, c, true);
  }

  lemma SameFollows(w: u16, c: byte)
    requires 0 < w <= 2
    ensures Follows(Some(Changed(w, c)), Same(w, c))
  {
    StripIsGrab(w, c, true);
    StripIsGrab(w, c, false);
  }

  /** A fresh stream at time 0 on a pipe that waits for its client. */
  ghost function Fresh(): State {
    State(Display(None, None, true, None, false, 0, 0, 0, -H264_MIN_INTERVAL, false, false, 0),
          Pipe(0, Waiting, None), 0, None, imap[], iset{}, iset{}, iset{}, [], 0)
  }

  // ----- A whole-screen repaint that gets out -----

  /** What is left when a new surface is painted at once. */
  ghost predicate Painted(s: State, g: Grab, t: Time, avc420: bool, avc444v2: bool, s': State)
    requires IsGrab(g)
  {
    && s'.pipe == Pipe(s.pipe.id, Ready, Some(DimsOf(g)))
    && s'.d.surface == Some(DimsOf(g)) && s'.d.generation == Some(s.pipe.id)
    && !s'.d.pendingFull && s'.d.debtRect.None? && !s'.d.inMotion
    && s'.d.capsResetUntil == s.d.capsResetUntil && s'.d.lastH264 == s.d.lastH264
    && (s.d.surface.None? ==> s'.d.settleUntil == s.d.settleUntil)
    && s'.d.avcDisabled == !avc420 && s'.d.avc444v2 == avc444v2
    && s'.d.clearSeq == NextSeq(s.d.clearSeq) && s'.wire == s.wire + [s.d.clearSeq]
    && s'.last == Some(g) && s'.now == t && s'.half == iset{}
    && forall p :: OnScreen(p, g) ==> p in s'.shown && s'.shown[p] == Frames.ColourAt(g.data, g.width, g.height, p)
  }

  /** The surface is created and everything is owed. */
  ghost predicate Raised(s: State, g: Grab, avc420: bool, avc444v2: bool, o: State) {
    && o.pipe == Pipe(s.pipe.id, Ready, Some(DimsOf(g))) && OwesAll(o.d)
    && o.d.surface == Some(DimsOf(g)) && o.d.generation == Some(s.pipe.id)
    && o.d.inMotion == s.d.inMotion && o.d.capsResetUntil == s.d.capsResetUntil && o.d.lastH264 == s.d.lastH264
    && (s.d.surface.None? ==> o.d.settleUntil == s.d.settleUntil)
    && o.d.avcDisabled == !avc420 && o.d.avc444v2 == avc444v2 && o.d.clearSeq == s.d.clearSeq
    && o.wire == s.wire && o.last == Some(g) && o.half == iset{}
  }

  lemma ReplaceRaises(s: State, g: Grab, t: Time, avc420: bool, avc444v2: bool)
    requires s.pipe.state.Ready? && s.last == Some(g)
    ensures Raised(s, g, avc420, avc444v2, Replace(s, g, Calm(t, avc420, avc444v2)))
  {
  }

  lemma OpenRaises(s: State, g: Grab, t: Time, avc420: bool, avc444v2: bool)
    requires IsGrab(g) && s.pipe.state.Ready? && (SizeChanged(s.d, g) || GenerationChanged(s.d, s.pipe))
    ensures Raised(s, g, avc420, avc444v2, Open(s, g, Calm(t, avc420, avc444v2)))
  {
    var e := Calm(t, avc420, avc444v2);
    var s1 := NoteResize(Absorb(s, g), g, e);
    assert Open(s, g, e) == Replace(s1, g, e);
    ReplaceRaises(s1, g, t, avc420, avc444v2);
  }

  lemma RepayPaints(o: State, w: u16, c: byte, t: Time, avc420: bool, avc444v2: bool)
    requires 0 < w <= 2 && OwesAll(o.d) && o.pipe.state.Ready? && o.pipe.hosts.Some? && o.d.surface.Some?
    ensures IsGrab(Changed(w, c))
    ensures var g := Changed(w, c);
            var (s', sent) := RepayDebt(o, g, Rect(0, 0, w, 1), Calm(t, avc420, avc444v2));
            && sent.Delivered? && s'.pipe == o.pipe && s'.last == o.last
            && s'.d == o.d.(pendingFull := false, clearSeq := NextSeq(o.d.clearSeq))
            && s'.wire == o.wire + [o.d.clearSeq] && s'.half == o.half - Area(Rect(0, 0, w, 1))
            && forall p :: OnScreen(p, g) ==> p in s'.shown && s'.shown[p] == Frames.ColourAt(g.data, w, 1, p)
  {
    StripIsGrab(w, c, true);
    assert forall p: Px :: OnScreen(p, Changed(w, c)) <==> p in Area(Rect(0, 0, w, 1));
  }

  lemma FirstPaint(s: State, w: u16, c: byte, t: Time, avc420: bool, avc444v2: bool)
    requires 0 < w <= 2 && s.pipe.state.Ready? && !s.d.inMotion && s.d.capsResetUntil <= t
    requires SizeChanged(s.d, Changed(w, c)) || GenerationChanged(s.d, s.pipe)
    ensures var ev := Turn(Changed(w, c), Calm(t, avc420, avc444v2));
            && IsGrab(ev.grab) && !FrameStrands(s, ev.grab, ev.env)
            && Painted(s, ev.grab, t, avc420, avc444v2, Step(s, ev))
  {
    var g, e := Changed(w, c), Calm(t, avc420, avc444v2);
    StripIsGrab(w, c, true);
    OpenRaises(s, g, t, avc420, avc444v2);
    var o := Open(s, g, e);
    var (s1, goesOn, settling) := Gate(o, g, e);
    assert goesOn && s1 == o;
    RepayPaints(o, w, c, t, avc420, avc444v2);
  }

  /** The client advertises its capabilities and the first grab, a black pixel,
      is painted losslessly. */
  lemma Started(avc420: bool, avc444v2: bool) returns (evs: seq<Event>)
    ensures RunOk(Fresh(), evs)
    ensures IsGrab(Changed(1, 0)) && Painted(Step(Fresh(), FromClient(Advertise)), Changed(1, 0), 0, avc420, avc444v2, Run(Fresh(), evs))
  {
    var s0 := Fresh();
    var ev := Turn(Changed(1, 0), Calm(0, avc420, avc444v2));
    assert Run(s0, []) == s0;
    RunExtends(s0, [], FromClient(Advertise));
    var s1 := Run(s0, [] + [FromClient(Advertise)]);
    ChangedFollows(s1.last, 1, 0);
    FirstPaint(s1, 1, 0, 0, avc420, avc444v2);
    RunExtends(s0, [] + [FromClient(Advertise)], ev);
    evs := [] + [FromClient(Advertise)] + [ev];
  }

  // ----- The three runs -----

  /** Debt safety needs its condition: in a session without H.264, a changed
      pixel whose encode task does not join is neither shown nor owed, with the
      client live and nothing pending. */
  lemma StrandingExample() returns (evs: seq<Event>, ev: Event)
    ensures Init(Fresh()) && RunOk(Fresh(), evs) && Possible(Run(Fresh(), evs), ev) && Stranding(Run(Fresh(), evs), ev)
    ensures var s := Step(Run(Fresh(), evs), ev);
            && Live(s) && !s.d.pendingFull && s.last.Some? && IsGrab(s.last.value)
            && OnScreen(Px(0, 0), s.last.value) && !Shows(s, Px(0, 0))
  {
    evs := Started(false, false);
    var s := Run(Fresh(), evs);
    var g, e := Changed(1, 255), Calm(0, false, false).(joins := false);
    ev := Turn(g, e);
    StripIsGrab(1, 0, true);
    StripIsGrab(1, 255, true);
    ChangedFollows(s.last, 1, 255);
    var s1 := Absorb(s, g);
    assert Open(s, g, e) == s1;
    assert Gate(s1, g, e) == (s1, true, false);
    assert Dispatch(s1, g, false, e) == (s1, NotDelivered);
    assert Px(0, 0) in Damage(g) && !Secured(s1.d, Px(0, 0));
    assert Frames.Colour(0, 0, 0) != Frames.Colour(255, 255, 255);
  }

  /** The numbering does not always restart: one lossless message, a reset by
      the client, and a grab of another size; the new surface's first message
      carries number 1. */
  lemma NumberingExample() returns (evs: seq<Event>)
    ensures Init(Fresh()) && RunOk(Fresh(), evs)
    ensures var s := Run(Fresh(), evs);
            Live(s) && s.wire == [1]
  {
    evs := Started(true, false);
    var s := Run(Fresh(), evs);
    RunExtends(Fresh(), evs, FromClient(Advertise));
    evs := evs + [FromClient(Advertise)];
    var s1 := Run(Fresh(), evs);
    assert s1.wire == [] && s1.d.clearSeq == 1;
    ChangedFollows(s1.last, 2, 0);
    FirstPaint(s1, 2, 0, 0, true, false);
    var ev := Turn(Changed(2, 0), Calm(0, true, false));
    RunExtends(Fresh(), evs, ev);
    evs := evs + [ev];
  }

  /** Full chroma needs its condition: in a 4:4:4 session the last motion frame
      goes out without its chroma view; a second later motion is over, nothing
      is owed and the pixel still has half-resolution chroma. */
  lemma HalfChromaExample() returns (evs: seq<Event>)
    ensures Init(Fresh()) && RunOk(Fresh(), evs)
    ensures var s := Run(Fresh(), evs);
            Live(s) && s.d.avc444v2 && !s.d.pendingFull && !s.d.inMotion && Px(0, 0) in s.half
  {
    evs := Started(true, true);
    var s := Run(Fresh(), evs);
    var g, e := Changed(1, 255), Calm(0, true, true).(encode := LumaOnly);
    StripIsGrab(1, 255, true);
    StripIsGrab(1, 255, false);
    ChangedFollows(s.last, 1, 255);
    LumaFrame(s, g, e);
    RunExtends(Fresh(), evs, Turn(g, e));
    evs := evs + [Turn(g, e)];
    var s1 := Run(Fresh(), evs);
    SameFollows(1, 255);
    var g2, e2 := Same(1, 255), Calm(1000, true, true);
    RestFrame(s1, g2, e2);
    RunExtends(Fresh(), evs, Turn(g2, e2));
    evs := evs + [Turn(g2, e2)];
  }

  /** A motion frame whose chroma view is missing. */
  lemma LumaFrame(s: State, g: Grab, e: Env)
    requires IsGrab(g) && g == Changed(1, 255) && e == Calm(0, true, true).(encode := LumaOnly)
    requires Live(s) && s.d.surface == Some(DimsOf(g)) && s.now == 0 && !s.d.pendingFull && s.d.debtRect.None?
    requires !s.d.inMotion && s.d.capsResetUntil <= 0 && s.d.settleUntil <= 0 && s.d.lastH264 == -H264_MIN_INTERVAL
    requires !s.d.avcDisabled && s.d.avc444v2
    ensures !FrameStrands(s, g, e)
    ensures var s' := Step(s, Turn(g, e));
            && s'.pipe == s.pipe && s'.last == Some(g) && s'.now == 0 && Px(0, 0) in s'.half
            && s'.d == s.d.(lastH264 := 0, inMotion := true, motionUntil := MOTION_LINGER)
  {
    var s1 := Absorb(s, g);
    assert Open(s, g, e) == s1;
    assert Gate(s1, g, e) == (s1, true, false);
    assert OnScreen(Px(0, 0), g);
  }

  /** The idle frame that ends motion mode. */
  lemma RestFrame(s: State, g: Grab, e: Env)
    requires IsGrab(g) && g == Same(1, 255) && e == Calm(1000, true, true)
    requires Live(s) && s.d.surface == Some(DimsOf(g)) && !s.d.pendingFull && s.d.debtRect.None?
    requires s.d.inMotion && s.d.motionUntil <= 1000 && s.d.capsResetUntil <= 0 && s.d.settleUntil <= 0 && s.d.avc444v2
    ensures !FrameStrands(s, g, e)
    ensures var s' := Step(s, Turn(g, e));
            s'.pipe == s.pipe && s'.d == s.d.(inMotion := false) && s'.half == s.half
  {
    var s1 := Absorb(s, g);
    assert Open(s, g, e) == s1;
    assert Gate(s1, g, e) == (s1.(d := s1.d.(inMotion := false)), true, false);
  }
}
