/** The lossless debt is paid off: frames of an idle screen clear it band by band. */
module Repayment {
  import opened Prelude
  import opened Geometry
  import Frames
  import opened Capture
  import opened Pipeline
  import opened DebtSafety
  import opened DisplayRuns

  /** The rectangle the loop would repaint for `g`, if it owes one. */
  function Owing(d: Display, g: Grab): Option<Rect> {
    if d.pendingFull then Some(DebtRegion(d, g.width, g.height)) else None
  }

  /** An undamaged grab whose lossless band, if one is due, gets out: no reset,
      no backpressure, past the hold after a reset. */
  ghost predicate IdleFrame(s: State, ev: Event) {
    && ev.Grabbed? && Possible(s, ev)
    && ev.grab.damage.None? && s.last.Some? && DimsOf(ev.grab) == DimsOf(s.last.value)
    && ev.env.before.Quiet? && ev.env.between.Quiet? && ev.env.during.Quiet?
    && !ev.env.backpressure && !ev.env.stall && !ev.env.dropped && ev.env.joins
    && s.d.capsResetUntil <= ev.env.tCaps
  }

  /** Outside motion mode with a surface to draw on. */
  ghost predicate Settled(s: State) { Inv(s) && Live(s) && !s.d.inMotion }

  /** Motion mode as an idle frame leaves it. */
  function AtRest(d: Display, e: Env): Display { LeaveMotion(d, e.tSettle < d.settleUntil, e.tMotion) }

  /** Nothing happens to the surface. */
  lemma IdleOpens(s: State, ev: Event)
    requires Inv(s) && Live(s) && IdleFrame(s, ev)
    ensures var (s1, goesOn, settling) := Gate(Open(s, ev.grab, ev.env), ev.grab, ev.env);
            s1 == Absorb(s, ev.grab).(d := AtRest(s.d, ev.env)) && goesOn
  {
    assert Open(s, ev.grab, ev.env) == Absorb(s, ev.grab);
  }

  /** A band that goes out leaves its remainder. */
  lemma IdleRepays(s: State, g: Grab, r: Rect, e: Env)
    requires IsGrab(g) && Frames.RectInFrame(r, g.width, g.height)
    requires Live(s) && s.d.surface.Some? && !e.stall && e.joins && e.during.Quiet? && !e.dropped
    ensures var (s1, sent) := RepayDebt(s, g, r, e);
            && !sent.Stalled? && Live(s1) && s1.last == s.last
            && s1.d.inMotion == s.d.inMotion && s1.d.capsResetUntil == s.d.capsResetUntil
            && Owing(s1.d, g) == SplitDebtBand(r, e.budget).1
  {
    if r.w > 0 && r.h > 0 { SplitIsExact(r, e.budget); }
  }

  /** One idle frame pays one band. */
  lemma IdleStep(s: State, ev: Event)
    requires Settled(s) && IdleFrame(s, ev)
    ensures !Stranding(s, ev)
    ensures var s' := Step(s, ev);
            && Settled(s') && s'.last == Some(ev.grab) && s'.d.capsResetUntil == s.d.capsResetUntil
            && Owing(s'.d, ev.grab) ==
                 match Owing(s.d, ev.grab) case None => None case Some(r) => SplitDebtBand(r, ev.env.budget).1
  {
    var g, e := ev.grab, ev.env;
    IdleOpens(s, ev);
    StepSafeIff(s, ev);
    var s1 := Absorb(s, g);
    assert AtRest(s.d, e) == s.d && Live(s1);
    if s.d.pendingFull {
      var r := DebtRegion(s.d, g.width, g.height);
      IdleRepays(s1, g, r, e);
    }
  }

  /** A run of idle frames. */
  ghost predicate IdleRun(s: State, evs: seq<Event>)
    decreases |evs|
  {
    |evs| > 0 ==> IdleFrame(s, evs[0]) && IdleRun(Step(s, evs[0]), evs[1..])
  }

  /** The lossless budgets of the frames, in order. */
  function Budgets(evs: seq<Event>): seq<nat> {
    if |evs| == 0 then []
    else [if evs[0].Grabbed? then evs[0].env.budget else 0] + Budgets(evs[1..])
  }

  lemma {:induction false} BudgetsLength(evs: seq<Event>)
    ensures |Budgets(evs)| == |evs|
  {
    if |evs| > 0 { BudgetsLength(evs[1..]); }
  }

  /** An idle frame strands nothing, so neither does a run of them. */
  lemma {:induction false} IdleRunIsSafe(s: State, evs: seq<Event>)
    requires Settled(s) && IdleRun(s, evs)
    ensures RunOk(s, evs) && Settled(Run(s, evs))
    decreases |evs|
  {
    if |evs| > 0 {
      IdleStep(s, evs[0]);
      IdleRunIsSafe(Step(s, evs[0]), evs[1..]);
    }
  }

  /** Over a run of idle frames the debt is repaid as `Repay` says, one band a
      frame with that frame's budget. */
  lemma {:induction false} IdleRepaysDebt(s: State, evs: seq<Event>, g: Grab)
    requires Settled(s) && IdleRun(s, evs) && RunOk(s, evs) && s.last.Some? && DimsOf(g) == DimsOf(s.last.value)
    ensures Owing(Run(s, evs).d, g) == Repay(Owing(s.d, g), Budgets(evs)).1
    decreases |evs|
  {
    if |evs| > 0 {
      var ev := evs[0];
      IdleStep(s, ev);
      var s' := Step(s, ev);
      IdleRepaysDebt(s', evs[1..], g);
      SameRegion(s.d, ev.grab, g);
      SameRegion(s'.d, ev.grab, g);
      RepayStep(Owing(s.d, g), Budgets(evs));
    }
  }

  lemma SameRegion(d: Display, g: Grab, g': Grab)
    requires DimsOf(g) == DimsOf(g')
    ensures Owing(d, g) == Owing(d, g')
  {
  }

  lemma RepayStep(debt: Option<Rect>, budgets: seq<nat>)
    requires |budgets| > 0
    ensures Repay(debt, budgets).1 ==
              Repay(match debt case None => None case Some(r) => SplitDebtBand(r, budgets[0]).1, budgets[1..]).1
  {
  }

  /** From any safe state with a surface, outside motion mode and past the hold
      of a reset, ceil(h / 16) idle frames for a debt of h rows leave nothing
      owed and every pixel of the client's picture as the last grab has it. */
  lemma IdleScreenIsRepaid(s: State, evs: seq<Event>)
    requires Settled(s) && s.d.pendingFull && IdleRun(s, evs) && |evs| > 0
    requires |evs| >= (DebtRegion(s.d, s.last.value.width, s.last.value.height).h + 15) / 16
    ensures RunOk(s, evs)
    ensures var s' := Run(s, evs);
            && Inv(s') && Live(s') && !s'.d.pendingFull
            && forall p :: p in Screen(s'.last.value) ==> Shows(s', p)
  {
    var g := s.last.value;
    IdleRunIsSafe(s, evs);
    IdleRepaysDebt(s, evs, g);
    BudgetsLength(evs);
    RepayTerminates(DebtRegion(s.d, g.width, g.height), Budgets(evs));
    NothingOwedShows(Run(s, evs));
  }
}
