/**
 Screen capture: tile-level change detection and the diff baseline
 (linrdp/src/capture.rs).
 */
module Capture {
  import opened Prelude
  import opened Geometry
  import opened Frames

  const TILE: int := 64

  /** Largest side for which the u16 tile arithmetic cannot overflow. */
  const MAX_SIDE: int := 65472

  /** The tile of the 64-pixel grid whose corner is (x, y), cut to the frame. */
  function TileAt(x: int, y: int, w: nat, h: nat): (t: Rect)
    requires 0 <= x < w <= MAX_SIDE && 0 <= y < h <= MAX_SIDE
    ensures RectInFrame(t, w, h) && t.w > 0 && t.h > 0
  {
    Rect(x, y, Min(TILE, w - x), Min(TILE, h - y))
  }

  predicate IsTile(t: Rect, w: nat, h: nat)
    requires w <= MAX_SIDE && h <= MAX_SIDE
  {
    t.x < w && t.y < h && t.x % 64 == 0 && t.y % 64 == 0 && t == TileAt(t.x, t.y, w, h)
  }

  /** Some row of the rectangle differs between the two frames. */
  ghost predicate RectDiffers(prev: seq<byte>, cur: seq<byte>, w: nat, h: nat, r: Rect)
    requires IsFrame(prev, w, h) && IsFrame(cur, w, h) && RectInFrame(r, w, h)
  {
    exists y :: r.y <= y < r.y + r.h && Run(prev, w, h, r.x, y, r.w) != Run(cur, w, h, r.x, y, r.w)
  }

  ghost predicate IsChangedTile(t: Rect, prev: seq<byte>, cur: seq<byte>, w: nat, h: nat)
    requires IsFrame(prev, w, h) && IsFrame(cur, w, h) && w <= MAX_SIDE && h <= MAX_SIDE
  {
    IsTile(t, w, h) && RectDiffers(prev, cur, w, h, t)
  }

  /** The tiles of the grid that hold a difference. */
  ghost function ChangedTiles(prev: seq<byte>, cur: seq<byte>, w: nat, h: nat): (tiles: set<Rect>)
    requires IsFrame(prev, w, h) && IsFrame(cur, w, h) && w <= MAX_SIDE && h <= MAX_SIDE
    ensures forall t :: t in tiles <==> IsChangedTile(t, prev, cur, w, h)
  {
    set x, y | 0 <= x < w && 0 <= y < h && IsChangedTile(TileAt(x, y, w, h), prev, cur, w, h) :: TileAt(x, y, w, h)
  }

  /** The box covers all the tiles and every side of it touches one of them. */
  ghost predicate IsTightBox(r: Rect, tiles: set<Rect>) {
    && (forall t :: t in tiles ==> Covers(r, t))
    && (exists t :: t in tiles && t.x == r.x)
    && (exists t :: t in tiles && t.y == r.y)
    && (exists t :: t in tiles && t.x + t.w == r.x + r.w)
    && (exists t :: t in tiles && t.y + t.h == r.y + r.h)
  }

  ghost predicate ExactDamage(prev: seq<byte>, cur: seq<byte>, w: nat, h: nat,
                              damage: Option<Rect>, changed: nat)
    requires IsFrame(prev, w, h) && IsFrame(cur, w, h) && w <= MAX_SIDE && h <= MAX_SIDE
  {
    var tiles := ChangedTiles(prev, cur, w, h);
    && changed == |tiles|
    && (damage.None? <==> tiles == {})
    && (damage.Some? ==> IsTightBox(damage.value, tiles))
  }

  /** Whether the tile at `r` is the same in both frames. */
  method TileEqSamePos(prev: seq<byte>, cur: seq<byte>, w: nat, h: nat, r: Rect) returns (same: bool)
    requires IsFrame(prev, w, h) && IsFrame(cur, w, h) && RectInFrame(r, w, h)
    ensures same <==> !RectDiffers(prev, cur, w, h, r)
  {
    var row := 0;
    while row < r.h
      invariant 0 <= row <= r.h
      invariant forall y :: r.y <= y < r.y + row ==> Run(prev, w, h, r.x, y, r.w) == Run(cur, w, h, r.x, y, r.w)
    {
      if Run(prev, w, h, r.x, r.y + row, r.w) != Run(cur, w, h, r.x, r.y + row, r.w) {
        return false;
      }
      row := row + 1;
    }
    return true;
  }

  /** The min/max/count variables of the scan. */
  datatype Scan = Scan(minX: int, minY: int, maxX: int, maxY: int, changed: nat)

  const FRESH_SCAN := Scan(0xFFFF, 0xFFFF, 0, 0, 0)

  function Note(s: Scan, t: Rect): Scan {
    Scan(Min(s.minX, t.x), Min(s.minY, t.y), Max(s.maxX, t.x + t.w), Max(s.maxY, t.y + t.h), s.changed + 1)
  }

  /** The scan variables sum up exactly the tiles in `seen`. */
  ghost predicate SumsUp(s: Scan, seen: set<Rect>) {
    && s.changed == |seen|
    && if seen == {} then s == FRESH_SCAN
       else
         && 0 <= s.minX < s.maxX <= MAX_SIDE && 0 <= s.minY < s.maxY <= MAX_SIDE
         && IsTightBox(Rect(s.minX, s.minY, s.maxX - s.minX, s.maxY - s.minY), seen)
  }

  lemma NoteSumsUp(s: Scan, seen: set<Rect>, t: Rect)
    requires SumsUp(s, seen) && t !in seen
    requires t.w > 0 && t.h > 0 && t.x + t.w <= MAX_SIDE && t.y + t.h <= MAX_SIDE
    ensures SumsUp(Note(s, t), seen + {t})
  {
    var all := seen + {t};
    assert t in all;
    if seen != {} {
      var box := Rect(s.minX, s.minY, s.maxX - s.minX, s.maxY - s.minY);
      var l :| l in seen && l.x == box.x;
      var u :| u in seen && u.y == box.y;
      var e :| e in seen && e.x + e.w == box.x + box.w;
      var b :| b in seen && b.y + b.h == box.y + box.h;
      assert l in all && u in all && e in all && b in all;
    }
  }

  /** `seen` holds the changed tiles met before column `x` of the tile row `y`. */
  ghost predicate SeenUpTo(seen: set<Rect>, prev: seq<byte>, cur: seq<byte>, w: nat, h: nat, x: int, y: int)
    requires IsFrame(prev, w, h) && IsFrame(cur, w, h) && w <= MAX_SIDE && h <= MAX_SIDE
  {
    forall t: Rect :: t in seen <==> IsChangedTile(t, prev, cur, w, h) && (t.y < y || (t.y == y && t.x < x))
  }

  lemma GridStep(a: int, x: int)
    requires a % 64 == 0 && x % 64 == 0 && x <= a < x + TILE
    ensures a == x
  {
  }

  lemma SeenNextTile(seen: set<Rect>, prev: seq<byte>, cur: seq<byte>, w: nat, h: nat, x: int, y: int)
    requires IsFrame(prev, w, h) && IsFrame(cur, w, h) && w <= MAX_SIDE && h <= MAX_SIDE
    requires 0 <= x < w && 0 <= y < h && x % 64 == 0 && y % 64 == 0
    requires SeenUpTo(seen, prev, cur, w, h, x, y)
    ensures var tile := TileAt(x, y, w, h);
            && tile !in seen
            && SeenUpTo(if RectDiffers(prev, cur, w, h, tile) then seen + {tile} else seen, prev, cur, w, h, x + TILE, y)
  {
    var tile := TileAt(x, y, w, h);
    forall t: Rect | IsChangedTile(t, prev, cur, w, h) && t.y == y && x <= t.x < x + TILE
      ensures t == tile
    {
      GridStep(t.x, x);
    }
  }

  lemma SeenRowDone(seen: set<Rect>, prev: seq<byte>, cur: seq<byte>, w: nat, h: nat, x: int, y: int)
    requires IsFrame(prev, w, h) && IsFrame(cur, w, h) && w <= MAX_SIDE && h <= MAX_SIDE
    requires w <= x && y % 64 == 0 && SeenUpTo(seen, prev, cur, w, h, x, y)
    ensures SeenUpTo(seen, prev, cur, w, h, 0, y + TILE)
  {
    forall t: Rect | IsChangedTile(t, prev, cur, w, h) && y <= t.y < y + TILE
      ensures t.y == y
    {
      GridStep(t.y, y);
    }
  }

  lemma SeenAll(seen: set<Rect>, prev: seq<byte>, cur: seq<byte>, w: nat, h: nat, y: int)
    requires IsFrame(prev, w, h) && IsFrame(cur, w, h) && w <= MAX_SIDE && h <= MAX_SIDE
    requires h <= y && SeenUpTo(seen, prev, cur, w, h, 0, y)
    ensures seen == ChangedTiles(prev, cur, w, h)
  {
  }

  /** The scan after `k` tiles of the tile row at `y`, begun with `s`. */
  ghost function RowScan(s: Scan, prev: seq<byte>, cur: seq<byte>, w: nat, h: nat, y: nat, k: nat): Scan
    requires IsFrame(prev, w, h) && IsFrame(cur, w, h) && w <= MAX_SIDE && h <= MAX_SIDE && y < h && 64 * k < w + TILE
  {
    if k == 0 then s
    else
      var before, tile := RowScan(s, prev, cur, w, h, y, k - 1), TileAt(64 * (k - 1), y, w, h);
      if RectDiffers(prev, cur, w, h, tile) then Note(before, tile) else before
  }

  /** The scan after `k` rows of tiles. */
  ghost function FullScan(prev: seq<byte>, cur: seq<byte>, w: nat, h: nat, k: nat): Scan
    requires IsFrame(prev, w, h) && IsFrame(cur, w, h) && w <= MAX_SIDE && h <= MAX_SIDE && 64 * k < h + TILE
  {
    if k == 0 then FRESH_SCAN
    else RowScan(FullScan(prev, cur, w, h, k - 1), prev, cur, w, h, 64 * (k - 1), CeilDiv(w, TILE))
  }

  /** The changed tiles among the first `k` of the tile row at `y`, beside `first`. */
  ghost function RowSeen(first: set<Rect>, prev: seq<byte>, cur: seq<byte>, w: nat, h: nat, y: nat, k: nat): set<Rect>
    requires IsFrame(prev, w, h) && IsFrame(cur, w, h) && w <= MAX_SIDE && h <= MAX_SIDE && y < h && 64 * k < w + TILE
  {
    if k == 0 then first
    else
      var before, tile := RowSeen(first, prev, cur, w, h, y, k - 1), TileAt(64 * (k - 1), y, w, h);
      if RectDiffers(prev, cur, w, h, tile) then before + {tile} else before
  }

  ghost function FullSeen(prev: seq<byte>, cur: seq<byte>, w: nat, h: nat, k: nat): set<Rect>
    requires IsFrame(prev, w, h) && IsFrame(cur, w, h) && w <= MAX_SIDE && h <= MAX_SIDE && 64 * k < h + TILE
  {
    if k == 0 then {}
    else RowSeen(FullSeen(prev, cur, w, h, k - 1), prev, cur, w, h, 64 * (k - 1), CeilDiv(w, TILE))
  }

  lemma {:induction false} RowSeenIs(first: set<Rect>, prev: seq<byte>, cur: seq<byte>, w: nat, h: nat, y: nat, k: nat)
    requires IsFrame(prev, w, h) && IsFrame(cur, w, h) && w <= MAX_SIDE && h <= MAX_SIDE
    requires y < h && y % 64 == 0 && 64 * k < w + TILE && SeenUpTo(first, prev, cur, w, h, 0, y)
    ensures SeenUpTo(RowSeen(first, prev, cur, w, h, y, k), prev, cur, w, h, 64 * k, y)
    decreases k
  {
    if k > 0 {
      RowSeenIs(first, prev, cur, w, h, y, k - 1);
      SeenNextTile(RowSeen(first, prev, cur, w, h, y, k - 1), prev, cur, w, h, 64 * (k - 1), y);
    }
  }

  lemma {:induction false} FullSeenIs(prev: seq<byte>, cur: seq<byte>, w: nat, h: nat, k: nat)
    requires IsFrame(prev, w, h) && IsFrame(cur, w, h) && w <= MAX_SIDE && h <= MAX_SIDE && 64 * k < h + TILE
    ensures SeenUpTo(FullSeen(prev, cur, w, h, k), prev, cur, w, h, 0, 64 * k)
    decreases k
  {
    if k > 0 {
      var before, y, columns := FullSeen(prev, cur, w, h, k - 1), 64 * (k - 1), CeilDiv(w, TILE);
      FullSeenIs(prev, cur, w, h, k - 1);
      RowSeenIs(before, prev, cur, w, h, y, columns);
      SeenRowDone(RowSeen(before, prev, cur, w, h, y, columns), prev, cur, w, h, 64 * columns, y);
    }
  }

  /** Every tile lies above `y`, or on it and left of `x`. */
  ghost predicate Before(seen: set<Rect>, x: int, y: int) {
    forall t :: t in seen ==> t.y < y || (t.y == y && t.x < x)
  }

  /** The variables sum up tiles already passed. */
  ghost predicate SumsUpBefore(s: Scan, seen: set<Rect>, x: int, y: int) { SumsUp(s, seen) && Before(seen, x, y) }

  lemma NoteIfSumsUp(s: Scan, seen: set<Rect>, t: Rect, differs: bool)
    requires SumsUpBefore(s, seen, t.x, t.y)
    requires t.w > 0 && t.h > 0 && t.x + t.w <= MAX_SIDE && t.y + t.h <= MAX_SIDE
    ensures SumsUpBefore(if differs then Note(s, t) else s, if differs then seen + {t} else seen, t.x + TILE, t.y)
  {
    NoteSumsUp(s, seen, t);
  }

  lemma {:induction false} RowScanSumsUp(s: Scan, first: set<Rect>, prev: seq<byte>, cur: seq<byte>, w: nat, h: nat,
                                         y: nat, k: nat)
    requires IsFrame(prev, w, h) && IsFrame(cur, w, h) && w <= MAX_SIDE && h <= MAX_SIDE && y < h && 64 * k < w + TILE
    requires SumsUpBefore(s, first, 0, y)
    ensures SumsUpBefore(RowScan(s, prev, cur, w, h, y, k), RowSeen(first, prev, cur, w, h, y, k), 64 * k, y)
    decreases k
  {
    if k > 0 {
      var tile := TileAt(64 * (k - 1), y, w, h);
      RowScanSumsUp(s, first, prev, cur, w, h, y, k - 1);
      NoteIfSumsUp(RowScan(s, prev, cur, w, h, y, k - 1), RowSeen(first, prev, cur, w, h, y, k - 1), tile,
                   RectDiffers(prev, cur, w, h, tile));
    }
  }

  lemma {:induction false} FullScanSumsUp(prev: seq<byte>, cur: seq<byte>, w: nat, h: nat, k: nat)
    requires IsFrame(prev, w, h) && IsFrame(cur, w, h) && w <= MAX_SIDE && h <= MAX_SIDE && 64 * k < h + TILE
    ensures SumsUpBefore(FullScan(prev, cur, w, h, k), FullSeen(prev, cur, w, h, k), 0, 64 * k)
    decreases k
  {
    if k > 0 {
      FullScanSumsUp(prev, cur, w, h, k - 1);
      RowScanSumsUp(FullScan(prev, cur, w, h, k - 1), FullSeen(prev, cur, w, h, k - 1), prev, cur, w, h, 64 * (k - 1),
                    CeilDiv(w, TILE));
      RowPassed(FullScan(prev, cur, w, h, k), FullSeen(prev, cur, w, h, k), 64 * CeilDiv(w, TILE), 64 * (k - 1));
    }
  }

  lemma RowPassed(s: Scan, seen: set<Rect>, x: int, y: int)
    requires SumsUpBefore(s, seen, x, y)
    ensures SumsUpBefore(s, seen, 0, y + TILE)
  {
  }

  lemma {:induction false} RowScanCount(s: Scan, prev: seq<byte>, cur: seq<byte>, w: nat, h: nat, y: nat, k: nat)
    requires IsFrame(prev, w, h) && IsFrame(cur, w, h) && w <= MAX_SIDE && h <= MAX_SIDE && y < h && 64 * k < w + TILE
    ensures RowScan(s, prev, cur, w, h, y, k).changed <= s.changed + k
    decreases k
  {
    if k > 0 { RowScanCount(s, prev, cur, w, h, y, k - 1); }
  }

  lemma {:induction false} FullScanCount(prev: seq<byte>, cur: seq<byte>, w: nat, h: nat, k: nat)
    requires IsFrame(prev, w, h) && IsFrame(cur, w, h) && w <= MAX_SIDE && h <= MAX_SIDE && 64 * k < h + TILE
    ensures FullScan(prev, cur, w, h, k).changed <= k * CeilDiv(w, TILE)
    decreases k
  {
    if k > 0 {
      FullScanCount(prev, cur, w, h, k - 1);
      RowScanCount(FullScan(prev, cur, w, h, k - 1), prev, cur, w, h, 64 * (k - 1), CeilDiv(w, TILE));
      assert k * CeilDiv(w, TILE) == (k - 1) * CeilDiv(w, TILE) + CeilDiv(w, TILE);
    }
  }

  /** The whole scan sums up the changed tiles, at most all of them. */
  lemma ScanSumsUp(prev: seq<byte>, cur: seq<byte>, w: nat, h: nat)
    requires IsFrame(prev, w, h) && IsFrame(cur, w, h) && w <= MAX_SIDE && h <= MAX_SIDE
    ensures var s := FullScan(prev, cur, w, h, CeilDiv(h, TILE));
            SumsUp(s, ChangedTiles(prev, cur, w, h)) && s.changed <= CeilDiv(w, TILE) * CeilDiv(h, TILE)
  {
    FullScanSumsUp(prev, cur, w, h, CeilDiv(h, TILE));
    FullSeenIs(prev, cur, w, h, CeilDiv(h, TILE));
    SeenAll(FullSeen(prev, cur, w, h, CeilDiv(h, TILE)), prev, cur, w, h, 64 * CeilDiv(h, TILE));
    FullScanCount(prev, cur, w, h, CeilDiv(h, TILE));
  }

  /** The inner loop: one row of tiles. */
  method ScanTileRow(prev: seq<byte>, cur: seq<byte>, w: nat, h: nat, y: nat, start: Scan) returns (s: Scan)
    requires IsFrame(prev, w, h) && IsFrame(cur, w, h) && w <= MAX_SIDE && h <= MAX_SIDE && y < h
    ensures s == RowScan(start, prev, cur, w, h, y, CeilDiv(w, TILE))
  {
    s := start;
    var x := 0;
    ghost var k := 0;
    while x < w
      invariant x == 64 * k && x < w + TILE && s == RowScan(start, prev, cur, w, h, y, k)
    {
      var tile := TileAt(x, y, w, h);
      var same := TileEqSamePos(prev, cur, w, h, tile);
      if !same {
        s := Note(s, tile);
      }
      x, k := x + TILE, k + 1;
    }
  }

  /** The outer loop: every row of tiles. */
  method ScanTiles(prev: seq<byte>, cur: seq<byte>, w: nat, h: nat) returns (s: Scan)
    requires IsFrame(prev, w, h) && IsFrame(cur, w, h) && w <= MAX_SIDE && h <= MAX_SIDE
    ensures s == FullScan(prev, cur, w, h, CeilDiv(h, TILE))
  {
    s := FRESH_SCAN;
    var y := 0;
    ghost var k := 0;
    while y < h
      invariant y == 64 * k && y < h + TILE && s == FullScan(prev, cur, w, h, k)
    {
      s := ScanTileRow(prev, cur, w, h, y, s);
      y, k := y + TILE, k + 1;
    }
  }

  /** `(side + TILE - 1) / TILE` on 16 bits. */
  function Tiles16(side: u16): nat { (side + 63) % 0x1_0000 / 64 }

  lemma Tiles16Iff(side: u16)
    ensures Tiles16(side) == CeilDiv(side, TILE) <==> side <= MAX_SIDE
  {
  }

  function TotalTiles(w: u16, h: u16): nat { Tiles16(w) * Tiles16(h) }

  lemma TotalTilesIs(w: u16, h: u16)
    requires w <= MAX_SIDE && h <= MAX_SIDE
    ensures TotalTiles(w, h) == CeilDiv(w, TILE) * CeilDiv(h, TILE)
  {
    Tiles16Iff(w);
    Tiles16Iff(h);
  }

  /** Where the u16 tile cursor is after `k` steps. */
  function Cursor(k: nat): u16 { 64 * k % 0x1_0000 }

  /** A scan along one side ends if and only if the side is at most 65472: past
      that the cursor wraps to 0 before it gets there. */
  lemma CursorEndsIff(side: u16)
    ensures (exists k: nat :: Cursor(k) >= side) <==> side <= MAX_SIDE
  {
    forall k: nat ensures Cursor(k) <= MAX_SIDE {
      CursorOnGrid(k);
    }
    if side <= MAX_SIDE {
      assert Cursor(CeilDiv(side, TILE)) >= side;
    }
  }

  lemma CursorOnGrid(k: nat)
    ensures Cursor(k) <= MAX_SIDE
  {
    var q := 64 * k / 0x1_0000;
    assert Cursor(k) == 64 * (k - 1024 * q);
  }

  function BoxOf(s: Scan): Option<Rect>
    requires s.minX != 0xFFFF ==> 0 <= s.minX <= s.maxX <= 0xFFFF && 0 <= s.minY <= s.maxY <= 0xFFFF
  {
    if s.minX != 0xFFFF then Some(Rect(s.minX, s.minY, s.maxX - s.minX, s.maxY - s.minY)) else None
  }

  lemma ScanIsExact(prev: seq<byte>, cur: seq<byte>, w: nat, h: nat)
    requires IsFrame(prev, w, h) && IsFrame(cur, w, h) && w <= MAX_SIDE && h <= MAX_SIDE
    ensures var s := FullScan(prev, cur, w, h, CeilDiv(h, TILE));
            && (s.minX != 0xFFFF ==> 0 <= s.minX <= s.maxX <= 0xFFFF && 0 <= s.minY <= s.maxY <= 0xFFFF)
            && ExactDamage(prev, cur, w, h, BoxOf(s), s.changed) && s.changed <= CeilDiv(w, TILE) * CeilDiv(h, TILE)
  {
    ScanSumsUp(prev, cur, w, h);
  }

  /** Bounding box and count of the changed tiles; `prev == None` is full damage.
      The scan of a baseline ends for sides up to 65472 (`CursorEndsIff`). */
  method ComputeTileDamage(prev: Option<seq<byte>>, cur: seq<byte>, w: u16, h: u16)
    returns (damage: Option<Rect>, changed: nat, total: nat)
    requires IsFrame(cur, w, h)
    requires prev.Some? ==> IsFrame(prev.value, w, h) && w <= MAX_SIDE && h <= MAX_SIDE
    ensures total == TotalTiles(w, h) && changed <= total
    ensures prev.None? ==> damage == Some(Rect(0, 0, w, h)) && changed == total
    ensures prev.Some? ==> ExactDamage(prev.value, cur, w, h, damage, changed)
  {
    total := TotalTiles(w, h);
    if prev.None? {
      return Some(Rect(0, 0, w, h)), total, total;
    }
    TotalTilesIs(w, h);
    ScanIsExact(prev.value, cur, w, h);
    var s := ScanTiles(prev.value, cur, w, h);
    return BoxOf(s), s.changed, total;
  }

  lemma TileHolding(p: Px, w: nat, h: nat) returns (t: Rect)
    requires w <= MAX_SIDE && h <= MAX_SIDE && 0 <= p.x < w && 0 <= p.y < h
    ensures IsTile(t, w, h) && Within(p, t)
  {
    t := TileAt(p.x - p.x % 64, p.y - p.y % 64, w, h);
  }

  /** Every pixel that differs lies in a changed tile. */
  lemma DifferenceInChangedTile(prev: seq<byte>, cur: seq<byte>, w: nat, h: nat, p: Px) returns (t: Rect)
    requires IsFrame(prev, w, h) && IsFrame(cur, w, h) && w <= MAX_SIDE && h <= MAX_SIDE
    requires 0 <= p.x < w && 0 <= p.y < h
    requires PixelAt(prev, w, h, p) != PixelAt(cur, w, h, p)
    ensures IsChangedTile(t, prev, cur, w, h) && Within(p, t)
  {
    t := TileHolding(p, w, h);
    if Run(prev, w, h, t.x, p.y, t.w) == Run(cur, w, h, t.x, p.y, t.w) {
      EqualRunPixel(prev, cur, w, h, t.x, p.y, t.w, p.x);
      assert false;
    }
  }

  /** Outside the reported box nothing changed. */
  lemma UnchangedOutsideDamage(prev: seq<byte>, cur: seq<byte>, w: nat, h: nat,
                               damage: Option<Rect>, changed: nat, p: Px)
    requires IsFrame(prev, w, h) && IsFrame(cur, w, h) && w <= MAX_SIDE && h <= MAX_SIDE
    requires ExactDamage(prev, cur, w, h, damage, changed)
    requires 0 <= p.x < w && 0 <= p.y < h && !InDebt(p, damage)
    ensures PixelAt(prev, w, h, p) == PixelAt(cur, w, h, p)
  {
    if PixelAt(prev, w, h, p) != PixelAt(cur, w, h, p) {
      var t := DifferenceInChangedTile(prev, cur, w, h, p);
      assert false;
    }
  }

  /** No damage is reported exactly for byte-identical frames. */
  lemma NoDamageIffIdentical(prev: seq<byte>, cur: seq<byte>, w: nat, h: nat, damage: Option<Rect>, changed: nat)
    requires IsFrame(prev, w, h) && IsFrame(cur, w, h) && w <= MAX_SIDE && h <= MAX_SIDE
    requires ExactDamage(prev, cur, w, h, damage, changed)
    ensures damage.None? <==> prev == cur
    ensures changed == 0 <==> prev == cur
  {
    if damage.None? {
      forall p: Px | 0 <= p.x < w && 0 <= p.y < h
        ensures PixelAt(prev, w, h, p) == PixelAt(cur, w, h, p)
      {
        UnchangedOutsideDamage(prev, cur, w, h, damage, changed, p);
      }
      FramesEqual(prev, cur, w, h);
    }
  }

  // ----- The grabber's baseline -----

  datatype Grab = Grab(data: seq<byte>, width: u16, height: u16,
                       damage: Option<Rect>, changedTiles: nat, totalTiles: nat)

  predicate IsGrab(g: Grab) {
    && IsFrame(g.data, g.width, g.height) && g.width <= MAX_SIDE && g.height <= MAX_SIDE
    && (g.damage.Some? ==> RectInFrame(g.damage.value, g.width, g.height))
    && g.changedTiles <= g.totalTiles && (g.width > 0 && g.height > 0 ==> (g.damage.Some? <==> g.changedTiles > 0))
  }

  predicate OnScreen(p: Px, g: Grab) { 0 <= p.x < g.width && 0 <= p.y < g.height }

  /** The grab's damage accounts for everything that changed since `last`. */
  ghost predicate Follows(last: Option<Grab>, g: Grab) {
    && IsGrab(g)
    && forall p: Px {:trigger OnScreen(p, g)} :: OnScreen(p, g) && !InDebt(p, g.damage) ==>
         && last.Some? && IsGrab(last.value)
         && last.value.width == g.width && last.value.height == g.height
         && ColourAt(last.value.data, g.width, g.height, p) == ColourAt(g.data, g.width, g.height, p)
  }

  lemma FullGrab(w: u16, h: u16)
    requires 0 < w <= MAX_SIDE && 0 < h <= MAX_SIDE
    ensures TotalTiles(w, h) > 0
  {
    Tiles16Iff(w);
    Tiles16Iff(h);
    MulMono(Tiles16(w), 1, Tiles16(h));
  }

  datatype PollOutcome = Idle | Frame(grab: Grab) | Failed

  /** What the X server shows, or sent as an image. */
  datatype Shot = Shot(data: seq<byte>, width: u16, height: u16)

  predicate IsShot(s: Shot) { IsFrame(s.data, s.width, s.height) && s.width <= MAX_SIDE && s.height <= MAX_SIDE }

  /** How the image request ends: answered, not answered, or with an image that
      does not fit the geometry asked for before. */
  datatype Reply = Image | NoReply | Torn

  const FAILURES_BEFORE_RECONNECT: nat := 30
  const RECONNECT_RETRY_EVERY: nat := 60

  /** The grabber and the X server it watches. */
  class ScreenGrabber {
    var width: u16
    var height: u16
    var prevFrame: Option<seq<byte>>
    var forceGrab: bool
    var failures: nat
    /** A DAMAGE object watches the root window. */
    var watched: bool

    /** The server's side: what it shows, whether damage accumulated since it was
        last subtracted, and whether a notification waits to be read. */
    var screen: Shot
    var dirty: bool
    var notified: bool

    /** The grab emitted last, by this connection or one before it. */
    ghost var emitted: Option<Grab>
    /** The failure counts at which a new connection was tried. */
    ghost var tried: seq<nat>

    ghost predicate BaselineValid()
      reads this
    {
      && width <= MAX_SIDE && height <= MAX_SIDE && IsShot(screen)
      && (prevFrame.Some? ==>
            && IsFrame(prevFrame.value, width, height)
            && emitted.Some? && IsGrab(emitted.value) && emitted.value.data == prevFrame.value
            && emitted.value.width == width && emitted.value.height == height)
    }

    ghost predicate Valid()
      reads this
    {
      BaselineValid() && (dirty ==> watched && notified)
    }

    /** The last grab is what the screen shows. */
    ghost predicate Shown()
      reads this
    {
      emitted.Some? && Shot(emitted.value.data, emitted.value.width, emitted.value.height) == screen
    }

    /** The last grab is current, or the next poll will take another. */
    ghost predicate Covered()
      reads this
    {
      Shown() || forceGrab || !watched || notified
    }

    /** A new source, without a baseline, possibly after another that was lost. */
    constructor (first: Shot, ghost before: Option<Grab>)
      requires IsShot(first)
      ensures Valid() && Covered() && emitted == before && prevFrame == None && forceGrab && screen == first
      ensures failures == 0 && tried == []
    {
      tried := [];
      width, height, prevFrame, forceGrab, failures := first.width, first.height, None, true, 0;
      watched, screen, dirty, notified, emitted := false, first, false, false, before;
    }

    /** An application draws. */
    method ScreenDraws(next: Shot)
      requires Valid() && IsShot(next)
      modifies this`screen, this`dirty, this`notified
      ensures Valid() && Covered() && screen == next
      ensures watched ==> notified
    {
      screen := next;
      if watched && !dirty {
        dirty, notified := true, true;
      }
    }

    /** A fresh connection adopts the new screen and drops the baseline; one that
        cannot be made leaves everything as it was. */
    method Reconnect(root: Option<Shot>) returns (ok: bool)
      requires Valid() && (root.Some? ==> IsShot(root.value))
      modifies this
      ensures Valid() && emitted == old(emitted) && failures == old(failures) && ok == root.Some?
      ensures tried == old(tried)
      ensures ok ==> Covered() && prevFrame == None && forceGrab && screen == root.value
      ensures !ok ==> unchanged(this)
    {
      if root.None? {
        return false;
      }
      screen, width, height := root.value, root.value.width, root.value.height;
      prevFrame, forceGrab, watched, dirty, notified := None, true, false, false, false;
      return true;
    }

    /** `damage_pending`. A new DAMAGE object reports the whole window at first;
        without one, or on a connection in trouble, everything counts as changed. */
    method DamagePending(setupOk: bool, trouble: bool) returns (pending: bool)
      modifies this`watched, this`dirty, this`notified
      ensures watched == (old(watched) || setupOk)
      ensures pending == (!old(watched) || old(notified) || trouble)
      ensures watched ==> !notified
      ensures !watched ==> notified == old(notified) && dirty == old(dirty)
      ensures !pending ==> dirty == old(dirty)
    {
      if !watched {
        if !setupOk {
          return true;
        }
        watched, dirty, notified := true, true, true;
      }
      pending := notified || trouble;
      notified := false;
    }

    /** The image becomes a grab, diffed against the baseline of its size. */
    method TakeImage() returns (g: Grab)
      requires BaselineValid()
      modifies this`width, this`height, this`prevFrame, this`emitted
      ensures BaselineValid() && Shown() && emitted == Some(g) && Follows(old(emitted), g)
      ensures old(prevFrame).Some? && old(width) == g.width && old(height) == g.height ==>
                (g.damage.None? <==> old(prevFrame).value == g.data)
    {
      var Shot(data, w, h) := screen;
      if width != w || height != h {
        width, height, prevFrame := w, h, None;
      }
      var damage, tiles, total := ComputeTileDamage(prevFrame, data, w, h);
      g := Grab(data, w, h, damage, tiles, total);
      if w > 0 && h > 0 {
        FullGrab(w, h);
      }
      FollowsFromDamage(emitted, prevFrame, g);
      if prevFrame.Some? {
        NoDamageIffIdentical(prevFrame.value, data, w, h, damage, tiles);
      }
      if damage.Some? {
        prevFrame := Some(data);
      }
      emitted := Some(g);
    }

    /** One poll; `meanwhile` is drawn between the re-arming and the image. A
        failed image swallows the change it was taken for: the poll keeps
        `Covered` if and only if it does not do that. */
    method PollInner(debtDue: bool, setupOk: bool, trouble: bool, meanwhile: Option<Shot>, reply: Reply)
      returns (outcome: PollOutcome)
      requires Valid() && (meanwhile.Some? ==> IsShot(meanwhile.value))
      modifies this
      ensures Valid() && !forceGrab && failures == old(failures) && tried == old(tried)
      ensures outcome.Idle? <==> !old(forceGrab) && !debtDue && old(watched) && !old(notified) && !trouble
      ensures outcome.Failed? <==> !outcome.Idle? && !reply.Image?
      ensures !outcome.Frame? ==> emitted == old(emitted)
      ensures outcome.Frame? ==> Shown() && emitted == Some(outcome.grab) && Follows(old(emitted), outcome.grab)
      ensures screen == if outcome.Idle? || meanwhile.None? then old(screen) else meanwhile.value
      ensures watched == (old(watched) || (!old(forceGrab) && !debtDue && setupOk))
      ensures !old(forceGrab) && !debtDue && watched ==> (notified <==> !outcome.Idle? && meanwhile.Some?)
      ensures outcome.Idle? && old(Covered()) ==> Shown()
      ensures old(Covered()) ==>
                (Covered() <==> !(outcome.Failed? && meanwhile.None? && watched && !Shown()
                                  && (old(forceGrab) || debtDue ==> !old(notified))))
    {
      var force := forceGrab || debtDue;
      forceGrab := false;
      if !force {
        var pending := DamagePending(setupOk, trouble);
        if !pending {
          return Idle;
        }
      }
      dirty := false;
      if meanwhile.Some? {
        ScreenDraws(meanwhile.value);
      }
      if !reply.Image? {
        return Failed;
      }
      var g := TakeImage();
      return Frame(g);
    }

    /** `poll`: after 30 failures in a row, and every 60 from there, a new
        connection is tried. */
    method Poll(debtDue: bool, setupOk: bool, trouble: bool, meanwhile: Option<Shot>, reply: Reply, root: Option<Shot>)
      returns (grab: Option<Grab>)
      requires Valid() && (meanwhile.Some? ==> IsShot(meanwhile.value)) && (root.Some? ==> IsShot(root.value))
      modifies this
      ensures Valid()
      ensures grab.None? ==> emitted == old(emitted)
      ensures grab.Some? ==> emitted == grab && Shown() && Follows(old(emitted), grab.value) && failures == 0
      ensures grab.None? && reply.Image? ==> failures == old(failures)
      ensures grab.None? && failures == old(failures) ==> !debtDue && (old(Covered()) ==> Shown())
      ensures grab.Some? || failures == old(failures) ==> (old(Covered()) ==> Covered())
      ensures trouble && !reply.Image? ==> failures == old(failures) + 1
      ensures failures > old(failures) ==> grab.None? && failures == old(failures) + 1
      ensures failures > old(failures) && root.Some? && Due(failures) ==> Covered() && forceGrab
      ensures tried == old(tried) + if failures > old(failures) && Due(failures) then [failures] else []
    {
      var outcome := PollInner(debtDue, setupOk, trouble, meanwhile, reply);
      match outcome
      case Idle => return None;
      case Frame(g) =>
        failures := 0;
        return Some(g);
      case Failed =>
        failures := failures + 1;
        if Due(failures) {
          tried := tried + [failures];
          var ok := Reconnect(root);
        }
        return None;
    }
  }

  predicate Due(n: nat) {
    n == FAILURES_BEFORE_RECONNECT
    || (n > FAILURES_BEFORE_RECONNECT && (n - FAILURES_BEFORE_RECONNECT) % RECONNECT_RETRY_EVERY == 0)
  }

  /** How many connections are tried over `n` failures in a row. */
  function Tries(n: nat): nat { if n < 30 then 0 else (n - 30) / 60 + 1 }

  lemma TriesNext(n: nat)
    ensures Tries(n + 1) == Tries(n) + if Due(n + 1) then 1 else 0
    ensures Due(n + 1) ==> n + 1 == 30 + 60 * Tries(n)
  {
    if n + 1 > 30 {
      var a := n - 30;
      SixtyStep(a);
    }
  }

  lemma SixtyStep(a: nat)
    ensures (a + 1) / 60 == a / 60 + (if (a + 1) % 60 == 0 then 1 else 0)
    ensures (a + 1) % 60 == 0 ==> a + 1 == 60 * (a / 60 + 1)
  {
  }

  /** An outage: however long the server is gone and whatever is due meanwhile, a
      connection is tried at failure 30 and then at every 60th failure. */
  method Outage(g: ScreenGrabber, replies: seq<Reply>, due: seq<bool>, setup: seq<bool>)
    requires g.Valid() && g.failures == 0 && |due| == |setup| == |replies|
    requires forall i :: 0 <= i < |replies| ==> !replies[i].Image?
    modifies g
    ensures g.Valid() && g.failures == |replies| && g.emitted == old(g.emitted)
    ensures old(g.tried) <= g.tried
    ensures var later := g.tried[|old(g.tried)|..];
            && |later| == Tries(|replies|)
            && forall i :: 0 <= i < |later| ==> later[i] == 30 + 60 * i
  {
    ghost var before := g.tried;
    for n := 0 to |replies|
      invariant g.Valid() && g.failures == n && g.emitted == old(g.emitted)
      invariant before <= g.tried && |g.tried| == |before| + Tries(n)
      invariant forall i :: 0 <= i < Tries(n) ==> g.tried[|before| + i] == 30 + 60 * i
    {
      TriesNext(n);
      var grab := g.Poll(due[n], setup[n], true, None, replies[n], None);
    }
  }

  /** A change drawn before an image request that fails: the next poll is idle on
      a screen the last grab does not show. */
  method SwallowedChange() returns (g: ScreenGrabber, outcome: PollOutcome)
    ensures fresh(g) && outcome.Idle? && !g.Shown()
  {
    g := new ScreenGrabber(Shot([1, 1, 1, 0], 1, 1), None);
    outcome := g.PollInner(false, true, false, None, Image);
    outcome := g.PollInner(false, true, false, None, Image);
    g.ScreenDraws(Shot([2, 2, 2, 0], 1, 1));
    outcome := g.PollInner(false, true, false, None, NoReply);
    outcome := g.PollInner(false, true, false, None, Image);
  }

  lemma FollowsFromDamage(last: Option<Grab>, prev: Option<seq<byte>>, g: Grab)
    requires IsFrame(g.data, g.width, g.height) && g.width <= MAX_SIDE && g.height <= MAX_SIDE
    requires prev.Some? ==>
               && IsFrame(prev.value, g.width, g.height)
               && last.Some? && IsGrab(last.value) && last.value.data == prev.value
               && last.value.width == g.width && last.value.height == g.height
               && ExactDamage(prev.value, g.data, g.width, g.height, g.damage, g.changedTiles)
    requires prev.None? ==> g.damage == Some(Rect(0, 0, g.width, g.height))
    requires g.changedTiles <= g.totalTiles && (prev.None? && g.width > 0 && g.height > 0 ==> g.changedTiles > 0)
    ensures Follows(last, g)
  {
    if prev.Some? {
      if g.damage.Some? {
        BoxOnFrame(g.damage.value, ChangedTiles(prev.value, g.data, g.width, g.height), g.width, g.height);
      }
      forall p: Px | OnScreen(p, g) && !InDebt(p, g.damage)
        ensures PixelAt(prev.value, g.width, g.height, p) == PixelAt(g.data, g.width, g.height, p)
      {
        UnchangedOutsideDamage(prev.value, g.data, g.width, g.height, g.damage, g.changedTiles, p);
      }
    }
  }

  lemma BoxOnFrame(r: Rect, tiles: set<Rect>, w: nat, h: nat)
    requires IsTightBox(r, tiles) && forall t :: t in tiles ==> RectInFrame(t, w, h)
    ensures RectInFrame(r, w, h)
  {
  }

  // ----- Replaying the damage boxes -----

  /** A picture after painting the damage of one grab over it. */
  ghost function PaintDamage(picture: imap<Px, Colour>, g: Grab): imap<Px, Colour>
    requires IsGrab(g)
  {
    imap p: Px | p in picture || (OnScreen(p, g) && InDebt(p, g.damage)) ::
      if OnScreen(p, g) && InDebt(p, g.damage) then ColourAt(g.data, g.width, g.height, p) else picture[p]
  }

  /** The first `n` grabs of a run, each accounting for its predecessor. */
  ghost predicate Chain(grabs: seq<Grab>, n: nat) {
    && n <= |grabs|
    && forall i {:trigger grabs[i]} :: 0 <= i < n ==>
         Follows(if i == 0 then None else Some(grabs[i - 1]), grabs[i])
  }

  /** A picture built by painting only the damage of each grab. */
  ghost function Replay(grabs: seq<Grab>, n: nat): imap<Px, Colour>
    requires Chain(grabs, n)
  {
    if n == 0 then imap[] else PaintDamage(Replay(grabs, n - 1), grabs[n - 1])
  }

  /** Replaying the boxes of any run of grabs rebuilds the latest frame. */
  lemma {:induction false} ReplayRebuilds(grabs: seq<Grab>, n: nat, p: Px)
    requires 0 < n && Chain(grabs, n) && OnScreen(p, grabs[n - 1])
    ensures var g := grabs[n - 1];
            p in Replay(grabs, n) && Replay(grabs, n)[p] == ColourAt(g.data, g.width, g.height, p)
  {
    var g := grabs[n - 1];
    assert Follows(if n == 1 then None else Some(grabs[n - 2]), g);
    if !InDebt(p, g.damage) {
      assert OnScreen(p, grabs[n - 2]);
      ReplayRebuilds(grabs, n - 1, p);
    }
  }
}
