/**
 The bitmap updates of a client that is not on the graphics pipeline
 (linrdp/src/gfx_display.rs): what it shows after grabs that were sent and grabs
 that were held back waiting for the graphics channel.
 */
module Legacy {
  import opened Prelude
  import opened Geometry
  import opened Frames
  import opened Capture
  import opened Pipeline
  import W = DisplayWitnesses

  /** The client's picture and what the stream remembers for it; `missed` are
      the pixels that changed in a held grab and were not sent since. */
  datatype Client = Client(shown: imap<Px, Colour>, missed: iset<Px>, last: Option<Grab>, refresh: Option<Rect>)

  /** A grab, whether routing holds it, and the area the client asked for. */
  datatype Turn = Turn(grab: Grab, held: bool, asked: Option<Rect>)

  ghost function Start(): Client { Client(imap[], iset{}, None, None) }

  function Merge(owed: Option<Rect>, asked: Option<Rect>): Option<Rect> {
    match (owed, asked)
    case (Some(a), Some(b)) => Some(UnionRect(a, b))
    case (None, b) => b
    case (a, None) => a
  }

  /** `legacy_update`: the damage and the requested area, cut to the frame. */
  function LegacyRegion(g: Grab, refresh: Option<Rect>): Option<Rect> {
    var area := if refresh.None? then None else ClampToFrame(refresh.value, g.width, g.height);
    Merge(g.damage, area)
  }

  lemma RegionHolds(g: Grab, refresh: Option<Rect>)
    requires IsGrab(g)
    ensures var r := LegacyRegion(g, refresh);
            && (r.None? ==> g.damage.None?)
            && (r.Some? ==>
                  && RectInFrame(r.value, g.width, g.height) && Damage(g) <= Area(r.value)
                  && (refresh.Some? ==> forall p :: OnScreen(p, g) && Within(p, refresh.value) ==> Within(p, r.value)))
  {
    if refresh.Some? {
      var area := ClampToFrame(refresh.value, g.width, g.height);
      forall p | OnScreen(p, g) && Within(p, refresh.value)
        ensures area.Some? && Within(p, area.value)
      {
        ClampIsIntersection(refresh.value, g.width, g.height, p);
      }
      if area.Some? && g.damage.Some? {
        UnionIsLeastCover(g.damage.value, area.value, Rect(0, 0, g.width, g.height));
      }
    }
  }

  /** One turn. A held grab is dropped, damage and all; the request waits. */
  ghost function After(c: Client, t: Turn): Client
    requires IsGrab(t.grab)
  {
    var refresh := Merge(c.refresh, t.asked);
    if t.held then c.(last := Some(t.grab), missed := c.missed + Damage(t.grab), refresh := refresh)
    else
      RegionHolds(t.grab, refresh);
      match LegacyRegion(t.grab, refresh)
      case None => c.(last := Some(t.grab), refresh := None)
      case Some(r) => Client(PaintArea(c.shown, t.grab, Area(r)), c.missed - Area(r), Some(t.grab), None)
  }

  predicate AllGrabs(ts: seq<Turn>) { forall i :: 0 <= i < |ts| ==> IsGrab(ts[i].grab) }

  function GrabBefore(ts: seq<Turn>, i: nat): Option<Grab>
    requires i <= |ts|
  {
    if i == 0 then None else Some(ts[i - 1].grab)
  }

  /** The grab of turn `i` accounts for the one before, and what is sent has the
      size of the client's desktop: another size is answered with a resize,
      which ends the stream. */
  ghost predicate TurnOk(size: Dims, ts: seq<Turn>, i: nat)
    requires i < |ts|
  {
    Follows(GrabBefore(ts, i), ts[i].grab) && (!ts[i].held ==> DimsOf(ts[i].grab) == size)
  }

  /** The turns of one stream. */
  ghost predicate IsStream(size: Dims, ts: seq<Turn>) {
    AllGrabs(ts) && forall i :: 0 <= i < |ts| ==> TurnOk(size, ts, i)
  }

  ghost function At(ts: seq<Turn>, n: nat): (c: Client)
    requires n <= |ts| && AllGrabs(ts)
    ensures c.last == GrabBefore(ts, n)
  {
    if n == 0 then Start() else After(At(ts, n - 1), ts[n - 1])
  }

  ghost predicate Shows(c: Client, p: Px)
    requires c.last.Some? && IsGrab(c.last.value) && OnScreen(p, c.last.value)
  {
    var g := c.last.value;
    p in c.shown && c.shown[p] == ColourAt(g.data, g.width, g.height, p)
  }

  /** Outside the missed pixels the client shows the last grab. */
  ghost predicate Agrees(c: Client) {
    c.last.Some? ==> IsGrab(c.last.value) && forall p :: p in Screen(c.last.value) - c.missed ==> Shows(c, p)
  }

  lemma TurnAgrees(c: Client, t: Turn)
    requires Agrees(c) && Follows(c.last, t.grab)
    ensures Agrees(After(c, t))
    ensures !t.held ==> After(c, t).missed <= c.missed
  {
    var c' := After(c, t);
    RegionHolds(t.grab, Merge(c.refresh, t.asked));
    forall p | p in Screen(t.grab) - c'.missed
      ensures Shows(c', p)
    {
      assert OnScreen(p, t.grab);
      if !InDebt(p, t.grab.damage) && p !in c.missed {
        assert p in Screen(c.last.value) - c.missed;
        assert Shows(c, p);
      }
    }
  }

  /** After every stream: each pixel shows the last grab or was missed in a held
      one; and nothing is missed if nothing was held. */
  lemma {:induction false} StreamAgrees(size: Dims, ts: seq<Turn>, n: nat)
    requires IsStream(size, ts) && n <= |ts|
    ensures Agrees(At(ts, n))
    ensures (forall i :: 0 <= i < n ==> !ts[i].held) ==> At(ts, n).missed == iset{}
  {
    if n > 0 {
      StreamAgrees(size, ts, n - 1);
      assert TurnOk(size, ts, n - 1);
      TurnAgrees(At(ts, n - 1), ts[n - 1]);
    }
  }

  /** The whole picture is the last grab. */
  ghost predicate Current(c: Client) {
    c.last.Some? ==> IsGrab(c.last.value) && forall p :: p in Screen(c.last.value) ==> Shows(c, p)
  }

  // ----- What the client asked for -----

  /** The request on record covers `area`. */
  ghost predicate Asked(c: Client, area: Rect) {
    c.refresh.Some? && Fits(c.refresh.value) && Covers(c.refresh.value, area)
  }

  lemma MergeKeeps(owed: Option<Rect>, asked: Option<Rect>, area: Rect)
    requires Fits(area)
    requires asked == Some(area) || (owed.Some? && Fits(owed.value) && Covers(owed.value, area))
    ensures var m := Merge(owed, asked); m.Some? && Fits(m.value) && Covers(m.value, area)
  {
    if owed.Some? && asked.Some? {
      if asked == Some(area) { UnionKeepsFittingOperand(area, owed.value); }
      else { UnionKeepsFittingOperand(owed.value, asked.value); }
    }
  }

  /** A request outlasts held turns. */
  lemma {:induction false} RequestWaits(ts: seq<Turn>, area: Rect, i: nat, n: nat)
    requires AllGrabs(ts) && i < n <= |ts| && Fits(area) && ts[i].asked == Some(area)
    requires forall k :: i <= k < n ==> ts[k].held
    ensures Asked(At(ts, n), area)
    decreases n
  {
    if i < n - 1 { RequestWaits(ts, area, i, n - 1); }
    MergeKeeps(At(ts, n - 1).refresh, ts[n - 1].asked, area);
  }

  /** And the first turn that is sent shows all of it. */
  lemma RequestIsShown(ts: seq<Turn>, area: Rect, i: nat, n: nat, p: Px)
    requires AllGrabs(ts) && i <= n < |ts| && Fits(area) && ts[i].asked == Some(area)
    requires (forall k :: i <= k < n ==> ts[k].held) && !ts[n].held
    requires OnScreen(p, ts[n].grab) && Within(p, area)
    ensures At(ts, n + 1).last == Some(ts[n].grab) && Shows(At(ts, n + 1), p) && At(ts, n + 1).refresh.None?
  {
    if i < n { RequestWaits(ts, area, i, n); }
    MergeKeeps(At(ts, n).refresh, ts[n].asked, area);
    RegionHolds(ts[n].grab, Merge(At(ts, n).refresh, ts[n].asked));
    assert Within(p, Merge(At(ts, n).refresh, ts[n].asked).value);
  }

  /** Once answered, a request is forgotten: an undamaged grab that follows sends
      nothing. */
  lemma RequestIsForgotten(ts: seq<Turn>, n: nat)
    requires AllGrabs(ts) && 0 < n < |ts| && !ts[n - 1].held && !ts[n].held
    requires ts[n].grab.damage.None? && ts[n].asked.None?
    ensures At(ts, n + 1).shown == At(ts, n).shown
  {
    assert At(ts, n) == After(At(ts, n - 1), ts[n - 1]);
  }

  // ----- Exactly which routings keep the picture current -----

  /** A stream routed as `held` says. */
  ghost predicate Routed(held: seq<bool>, ts: seq<Turn>) {
    |ts| == |held| && forall i :: 0 <= i < |ts| ==> ts[i].held == held[i]
  }

  ghost predicate AlwaysCurrent(held: seq<bool>) {
    forall size, ts :: Routed(held, ts) && IsStream(size, ts) ==> Current(At(ts, |ts|))
  }

  /** One pixel, black at first, that turns white in turn `k` and stays so. */
  function Pixel(k: nat, i: nat): Grab {
    if i == k then W.Changed(1, 255) else if i > k then W.Same(1, 255)
    else if i == 0 then W.Changed(1, 0) else W.Same(1, 0)
  }

  function Whitened(held: seq<bool>, k: nat): (ts: seq<Turn>)
    ensures |ts| == |held| && forall i :: 0 <= i < |held| ==> ts[i] == Turn(Pixel(k, i), held[i], None)
  {
    seq(|held|, i requires 0 <= i < |held| => Turn(Pixel(k, i), held[i], None))
  }

  lemma PixelFollows(k: nat, i: nat)
    ensures IsGrab(Pixel(k, i)) && DimsOf(Pixel(k, i)) == Dims(1, 1)
    ensures Follows(if i == 0 then None else Some(Pixel(k, i - 1)), Pixel(k, i))
  {
    W.StripIsGrab(1, 0, true);
    W.StripIsGrab(1, 0, false);
    W.StripIsGrab(1, 255, true);
    W.StripIsGrab(1, 255, false);
  }

  lemma WhitenedIsStream(held: seq<bool>, k: nat)
    ensures IsStream(Dims(1, 1), Whitened(held, k)) && Routed(held, Whitened(held, k))
  {
    var ts := Whitened(held, k);
    forall i | 0 <= i < |ts|
      ensures IsGrab(ts[i].grab) && TurnOk(Dims(1, 1), ts, i)
    {
      PixelFollows(k, i);
    }
  }

  /** A turn that does not send white leaves no white. */
  lemma NotSent(c: Client, k: nat, i: nat, held: bool)
    requires c.refresh.None? && (Px(0, 0) in c.shown ==> c.shown[Px(0, 0)] == Colour(0, 0, 0)) && (i == k ==> held)
    ensures IsGrab(Pixel(k, i))
    ensures var c' := After(c, Turn(Pixel(k, i), held, None));
            c'.refresh.None? && (Px(0, 0) in c'.shown ==> c'.shown[Px(0, 0)] == Colour(0, 0, 0))
  {
    PixelFollows(k, i);
    W.StripIsGrab(1, 0, true);
  }

  /** Held in turn `k`, the white pixel is never sent. */
  lemma {:induction false} NeverWhite(held: seq<bool>, k: nat, n: nat)
    requires k < |held| && held[k] && n <= |held| && AllGrabs(Whitened(held, k))
    ensures var c := At(Whitened(held, k), n);
            c.refresh.None? && (Px(0, 0) in c.shown ==> c.shown[Px(0, 0)] == Colour(0, 0, 0))
  {
    if n > 0 {
      NeverWhite(held, k, n - 1);
      NotSent(At(Whitened(held, k), n - 1), k, n - 1, held[n - 1]);
    }
  }

  /** A change held back in turn `k` need never reach the client. */
  lemma HeldIsLost(held: seq<bool>, k: nat)
    requires k < |held| && held[k]
    ensures !AlwaysCurrent(held)
  {
    var ts := Whitened(held, k);
    WhitenedIsStream(held, k);
    NeverWhite(held, k, |ts|);
    var c := At(ts, |ts|);
    assert c.last == Some(Pixel(k, |ts| - 1));
    W.StripIsGrab(1, 255, true);
    W.StripIsGrab(1, 255, false);
    assert OnScreen(Px(0, 0), c.last.value) && Px(0, 0) in Screen(c.last.value);
    assert !Shows(c, Px(0, 0));
    assert !Current(c);
  }

  /** The picture of a legacy client is the last grab in every stream with this
      routing if and only if no turn was held: whatever is held back while the
      graphics channel is awaited is not sent again when the wait ends. */
  lemma CurrentIffNeverHeld(held: seq<bool>)
    ensures AlwaysCurrent(held) <==> forall i :: 0 <= i < |held| ==> !held[i]
  {
    if forall i :: 0 <= i < |held| ==> !held[i] {
      forall size, ts | Routed(held, ts) && IsStream(size, ts)
        ensures Current(At(ts, |ts|))
      {
        StreamAgrees(size, ts, |ts|);
      }
    } else {
      var k :| 0 <= k < |held| && held[k];
      HeldIsLost(held, k);
    }
  }
}
