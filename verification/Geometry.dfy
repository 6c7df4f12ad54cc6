/**
 Screen rectangles and the banded repayment of a lossless debt
 (linrdp/src/gfx_display.rs, `union_rect`, `clamp_to_frame`, `split_debt_band`,
 `settle_debt`).
 */
module Geometry {
  import opened Prelude

  datatype Px = Px(x: int, y: int)

  /** (x, y, width, height), each a u16. */
  datatype Rect = Rect(x: u16, y: u16, w: u16, h: u16)

  predicate Within(p: Px, r: Rect) {
    r.x <= p.x < r.x + r.w && r.y <= p.y < r.y + r.h
  }

  /** The right and bottom edges are representable. */
  predicate Fits(r: Rect) {
    r.x + r.w < 0x1_0000 && r.y + r.h < 0x1_0000
  }

  predicate Covers(outer: Rect, inner: Rect) {
    outer.x <= inner.x && outer.y <= inner.y
    && inner.x + inner.w <= outer.x + outer.w
    && inner.y + inner.h <= outer.y + outer.h
  }

  // ----- Bounding boxes -----

  /** Wrap-around of a u16 sum or difference. */
  function Wrap16(n: int): u16
    requires -0x1_0000 < n < 0x2_0000
  {
    if n < 0 then n + 0x1_0000 else if n >= 0x1_0000 then n - 0x1_0000 else n
  }

  /** One axis of `union_rect`, in wrapping u16 arithmetic: (start, length). */
  function UnionAxis(a: u16, aLen: u16, b: u16, bLen: u16): (u16, u16) {
    var lo := if a < b then a else b;
    var aEnd, bEnd := Wrap16(a + aLen), Wrap16(b + bLen);
    var hi := if aEnd > bEnd then aEnd else bEnd;
    (lo, Wrap16(hi - lo))
  }

  function UnionRect(a: Rect, b: Rect): Rect {
    var (x, w) := UnionAxis(a.x, a.w, b.x, b.w);
    var (y, h) := UnionAxis(a.y, a.h, b.y, b.h);
    Rect(x, y, w, h)
  }

  /** When one axis of the union reaches past the far end of both spans. */
  predicate AxisSafe(a: u16, aLen: u16, b: u16, bLen: u16) {
    || (a + aLen < 0x1_0000 && b + bLen < 0x1_0000)
    || (a + aLen >= 0x1_0000 && b + bLen >= 0x1_0000
        && Max(a + aLen, b + bLen) - 0x1_0000 < Min(a, b))
  }

  /** Whatever the other operand, an operand whose edges fit is never lost. */
  lemma UnionKeepsFittingOperand(a: Rect, b: Rect)
    requires Fits(a)
    ensures Covers(UnionRect(a, b), a) && Covers(UnionRect(b, a), a)
    ensures Fits(UnionRect(a, b)) && Fits(UnionRect(b, a))
  {
  }

  /** On fitting operands the result is the smallest rectangle covering both. */
  lemma UnionIsLeastCover(a: Rect, b: Rect, c: Rect)
    requires Fits(a) && Fits(b)
    ensures Covers(UnionRect(a, b), a) && Covers(UnionRect(a, b), b)
    ensures Covers(c, a) && Covers(c, b) ==> Covers(c, UnionRect(a, b))
  {
  }

  /** Exactly when the union covers every pixel of two non-empty operands. */
  lemma UnionCoversIff(a: Rect, b: Rect)
    requires a.w > 0 && a.h > 0 && b.w > 0 && b.h > 0
    ensures (forall p :: Within(p, a) || Within(p, b) ==> Within(p, UnionRect(a, b)))
       <==> AxisSafe(a.x, a.w, b.x, b.w) && AxisSafe(a.y, a.h, b.y, b.h)
  {
    var u := UnionRect(a, b);
    var firstA, lastA := Px(a.x, a.y), Px(a.x + a.w - 1, a.y + a.h - 1);
    var firstB, lastB := Px(b.x, b.y), Px(b.x + b.w - 1, b.y + b.h - 1);
    assert Within(firstA, a) && Within(lastA, a) && Within(firstB, b) && Within(lastB, b);
    if forall p :: Within(p, a) || Within(p, b) ==> Within(p, u) {
      assert Within(lastA, u) && Within(lastB, u) && Within(firstA, u) && Within(firstB, u);
    }
  }

  /** A refresh area that touches the last column is dropped from the union. */
  lemma UnionLosesAnEdgeArea()
    ensures exists a, b, p :: Within(p, b) && !Within(p, UnionRect(a, b))
  {
    assert Within(Px(200, 1), Rect(1, 1, 65535, 100))
        && !Within(Px(200, 1), UnionRect(Rect(0, 0, 100, 100), Rect(1, 1, 65535, 100)));
  }

  /** `rect` cut to a `width` x `height` frame. */
  function ClampToFrame(r: Rect, width: u16, height: u16): Option<Rect> {
    if width < r.x || height < r.y then None
    else
      var w := if r.w < width - r.x then r.w else width - r.x;
      var h := if r.h < height - r.y then r.h else height - r.y;
      if w > 0 && h > 0 then Some(Rect(r.x, r.y, w, h)) else None
  }

  /** The cut keeps exactly the pixels of the rectangle that are on the frame. */
  lemma ClampIsIntersection(r: Rect, width: u16, height: u16, p: Px)
    ensures var c := ClampToFrame(r, width, height);
            (Within(p, r) && Within(p, Rect(0, 0, width, height)))
            <==> (c.Some? && Within(p, c.value))
  {
  }

  // ----- Banded repayment -----

  const MIN_BAND_ROWS: u16 := 16

  /** The slice to paint now and the remainder still owed. */
  function SplitDebtBand(r: Rect, budgetPx: nat): (Rect, Option<Rect>) {
    if r.w == 0 || r.h == 0 || r.w * r.h <= budgetPx then (r, None)
    else
      var rows := Max(budgetPx / r.w, MIN_BAND_ROWS);
      if rows >= 0x1_0000 || rows >= r.h then (r, None)
      else (Rect(r.x, r.y, r.w, rows),
            Some(Rect(r.x, Wrap16(r.y + rows), r.w, r.h - rows)))
  }

  /** `(pending_full, debt_rect)` once a band reached the wire. */
  function SettleDebt(remainder: Option<Rect>): (bool, Option<Rect>) {
    match remainder
    case Some(rest) => (true, Some(rest))
    case None => (false, None)
  }

  lemma MulMono(c: nat, a: int, b: int)
    ensures a <= b ==> c * a <= c * b
  {
  }

  /** Row and column of cell `k` in rows of `n`. */
  lemma {:induction false} SplitIndex(k: nat, n: nat, rows: nat) returns (row: nat, c: nat)
    requires k < rows * n
    ensures row < rows && c < n && k == row * n + c
  {
    if k >= (rows - 1) * n {
      row, c := rows - 1, k - (rows - 1) * n;
    } else {
      row, c := SplitIndex(k, n, rows - 1);
    }
  }

  lemma DivBelow(n: nat, d: nat)
    requires d > 0
    ensures d * (n / d) <= n
  {
  }

  /** A budget below the area never buys as many rows as the rectangle has, and
      the rows it buys stay within it or the 16-row minimum. */
  lemma BudgetRows(budgetPx: nat, w: nat, h: nat)
    requires w > 0 && budgetPx < w * h
    ensures budgetPx / w < h
    ensures w * Max(budgetPx / w, MIN_BAND_ROWS) <= Max(budgetPx, w * MIN_BAND_ROWS)
  {
    DivBelow(budgetPx, w);
    MulMono(w, h, budgetPx / w);
  }

  /** One split: band on top of the remainder, nothing lost, nothing repainted,
      the band within the budget or the 16-row minimum. The fallback for a row
      count beyond u16 is never taken. */
  lemma SplitIsExact(r: Rect, budgetPx: nat)
    requires Fits(r)
    ensures var (band, rest) := SplitDebtBand(r, budgetPx);
            && band.x == r.x && band.y == r.y && band.w == r.w && Fits(band)
            && (rest.None? ==> band == r)
            && (rest.Some? ==>
                  && rest.value == Rect(r.x, r.y + band.h, r.w, r.h - band.h)
                  && Fits(rest.value) && band.h >= MIN_BAND_ROWS)
            && band.w * band.h <= Max(budgetPx, r.w * MIN_BAND_ROWS)
    ensures r.w > 0 && r.w * r.h > budgetPx ==> budgetPx / r.w < 0x1_0000
  {
    if r.w > 0 && r.h > 0 && r.w * r.h > budgetPx {
      BudgetRows(budgetPx, r.w, r.h);
      MulMono(r.w, r.h, Max(budgetPx / r.w, MIN_BAND_ROWS));
    }
  }

  /** The band is as large as it may be: all of a rectangle within the budget or
      16 rows high, and otherwise 16 rows or what one more row would overdraw. */
  lemma SplitFillsBudget(r: Rect, budgetPx: nat)
    ensures var (band, rest) := SplitDebtBand(r, budgetPx);
            && (rest.None? <==> r.w * r.h <= budgetPx || r.h <= 16)
            && (rest.Some? ==> 16 <= band.h < r.h && (band.h == 16 || r.w * band.h <= budgetPx) && r.w * (band.h + 1) > budgetPx)
  {
    if r.w > 0 && r.h > 0 && r.w * r.h > budgetPx {
      BudgetRows(budgetPx, r.w, r.h);
      var rows := budgetPx / r.w;
      DivBelow(budgetPx, r.w);
      assert budgetPx < r.w * (rows + 1) by { assert budgetPx == r.w * rows + budgetPx % r.w; }
      MulMono(r.w, rows + 1, 17);
    } else {
      MulMono(r.w, 0, r.h);
    }
  }

  /** Repeated repayment with one delivered band per budget: what is painted,
      and what is still owed afterwards. */
  function Repay(debt: Option<Rect>, budgets: seq<nat>): (seq<Rect>, Option<Rect>)
    decreases |budgets|
  {
    if debt.None? || |budgets| == 0 then ([], debt)
    else
      var (band, rest) := SplitDebtBand(debt.value, budgets[0]);
      var (more, left) := Repay(rest, budgets[1..]);
      ([band] + more, left)
  }

  /** How many of the rectangles paint `p`. */
  function TimesPainted(rects: seq<Rect>, p: Px): nat {
    if |rects| == 0 then 0
    else (if Within(p, rects[0]) then 1 else 0) + TimesPainted(rects[1..], p)
  }

  predicate InDebt(p: Px, debt: Option<Rect>) { debt.Some? && Within(p, debt.value) }

  /** Over any sequence of budgets every pixel of the debt is painted exactly
      once or is still owed, and no other pixel is ever painted. */
  lemma {:induction false} RepayPaintsOnce(debt: Option<Rect>, budgets: seq<nat>, p: Px)
    requires debt.Some? ==> Fits(debt.value)
    ensures var (bands, left) := Repay(debt, budgets);
            TimesPainted(bands, p) + (if InDebt(p, left) then 1 else 0) == (if InDebt(p, debt) then 1 else 0)
    decreases |budgets|
  {
    if debt.Some? && |budgets| > 0 {
      SplitIsExact(debt.value, budgets[0]);
      var (band, rest) := SplitDebtBand(debt.value, budgets[0]);
      RepayPaintsOnce(rest, budgets[1..], p);
      var (more, _) := Repay(rest, budgets[1..]);
      assert ([band] + more)[1..] == more;
    }
  }

  /** Each band stays within its budget or the 16-row minimum, and bands are
      stacked without gaps from the top of the debt. */
  lemma {:induction false} RepayBandsStack(r: Rect, budgets: seq<nat>, i: nat)
    requires Fits(r) && i < |Repay(Some(r), budgets).0|
    ensures var bands := Repay(Some(r), budgets).0;
            && bands[i].x == r.x && bands[i].w == r.w
            && bands[i].y == (if i == 0 then r.y else bands[i - 1].y + bands[i - 1].h)
            && |bands| <= |budgets|
            && bands[i].w * bands[i].h <= Max(budgets[i], r.w * MIN_BAND_ROWS)
    decreases |budgets|
  {
    SplitIsExact(r, budgets[0]);
    var (band, rest) := SplitDebtBand(r, budgets[0]);
    var (more, left) := Repay(rest, budgets[1..]);
    assert |more| <= |budgets[1..]| by { RepayLength(rest, budgets[1..]); }
    if i > 0 {
      RepayBandsStack(rest.value, budgets[1..], i - 1);
      if i - 1 == 0 {
        assert more[0].y == rest.value.y;
      }
    }
  }

  lemma {:induction false} RepayLength(debt: Option<Rect>, budgets: seq<nat>)
    ensures |Repay(debt, budgets).0| <= |budgets|
    decreases |budgets|
  {
    if debt.Some? && |budgets| > 0 {
      RepayLength(SplitDebtBand(debt.value, budgets[0]).1, budgets[1..]);
    }
  }

  /** ceil(h / 16) delivered bands always clear the debt, whatever the budgets. */
  lemma {:induction false} RepayTerminates(r: Rect, budgets: seq<nat>)
    requires Fits(r) && |budgets| >= CeilDiv(r.h, MIN_BAND_ROWS) && |budgets| > 0
    ensures Repay(Some(r), budgets).1.None?
    decreases |budgets|
  {
    SplitIsExact(r, budgets[0]);
    var (band, rest) := SplitDebtBand(r, budgets[0]);
    if rest.Some? {
      assert rest.value.h <= r.h - 16;
      RepayTerminates(rest.value, budgets[1..]);
    }
  }
}
