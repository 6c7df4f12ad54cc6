/**
 When frames are held back waiting for the graphics channel: the routing table
 of `next_update` over a whole connection (linrdp/src/gfx_display.rs).
 */
module Routing {
  import opened Prelude
  import opened Pipeline

  /** What one turn of the loop finds. */
  datatype Turn = Turn(now: Time, handle: bool, ready: bool, unavailable: bool, clientSupports: bool)

  /** What the loop remembers between turns. */
  datatype Router = Router(started: Time, firstSeen: Option<Time>, latched: bool)

  /** `saturating_duration_since`. */
  function Since(now: Time, earlier: Time): Time { if now >= earlier then now - earlier else 0 }

  function Observe(r: Router, t: Turn): Router {
    if t.handle && r.firstSeen.None? then r.(firstSeen := Some(t.now)) else r
  }

  function Decide(r: Router, t: Turn): Decision {
    EgfxDecision(RouteState(t.ready, r.latched, t.unavailable, t.clientSupports,
                            if r.firstSeen.None? then None else Some(Since(t.now, r.firstSeen.value)),
                            Since(t.now, r.started)))
  }

  function Take(r: Router, t: Turn): Router {
    var o := Observe(r, t);
    if Decide(o, t).Egfx? then o.(latched := true) else o
  }

  function After(started: Time, ts: seq<Turn>): Router {
    if |ts| == 0 then Router(started, None, false) else Take(After(started, ts[..|ts| - 1]), ts[|ts| - 1])
  }

  /** What the loop decides in turn `i`. */
  function DecisionAt(started: Time, ts: seq<Turn>, i: nat): Decision
    requires i < |ts|
  {
    Decide(Observe(After(started, ts[..i]), ts[i]), ts[i])
  }

  /** Time does not run back. */
  ghost predicate InOrder(started: Time, ts: seq<Turn>) {
    forall i, j :: 0 <= i <= j < |ts| ==> started <= ts[i].now <= ts[j].now
  }

  /** The session was on the graphics pipeline before turn `i`. */
  ghost predicate Latched(ts: seq<Turn>, i: nat)
    requires i <= |ts|
  {
    exists j :: 0 <= j < i && ts[j].ready
  }

  /** Turn `j` is the first to find a pipeline server. */
  ghost predicate FirstHandle(ts: seq<Turn>, j: int) {
    0 <= j < |ts| && ts[j].handle && forall k :: 0 <= k < j ==> !ts[k].handle
  }

  /** The client had its time: three seconds from the first sight of a channel,
      or without one a second and a half from the start. */
  ghost predicate Overdue(started: Time, ts: seq<Turn>, i: nat)
    requires i < |ts|
  {
    if exists j :: 0 <= j <= i && ts[j].handle
    then exists j :: 0 <= j <= i && ts[j].handle && ts[i].now >= ts[j].now + 3000
    else ts[i].now >= started + 1500
  }

  /** The latch remembers whether the session was ever on the pipeline. */
  lemma {:induction false} LatchIsHistory(started: Time, ts: seq<Turn>)
    ensures After(started, ts).started == started && (After(started, ts).latched <==> Latched(ts, |ts|))
  {
    if |ts| > 0 {
      var n := |ts| - 1;
      var before := ts[..n];
      LatchIsHistory(started, before);
      assert forall k :: 0 <= k < n ==> before[k] == ts[k];
      assert Latched(ts, |ts|) <==> Latched(before, n) || ts[n].ready;
    }
  }

  /** And the clock when a channel was first seen. */
  lemma {:induction false} FirstSeenIsHistory(started: Time, ts: seq<Turn>)
    ensures var seen := After(started, ts).firstSeen;
            && (seen.None? ==> forall k :: 0 <= k < |ts| ==> !ts[k].handle)
            && (seen.Some? ==> exists j :: FirstHandle(ts, j) && ts[j].now == seen.value)
  {
    if |ts| > 0 {
      var n := |ts| - 1;
      var before := ts[..n];
      FirstSeenIsHistory(started, before);
      var seen := After(started, before).firstSeen;
      assert forall k :: 0 <= k < n ==> before[k] == ts[k];
      if seen.Some? {
        var j :| FirstHandle(before, j) && before[j].now == seen.value;
        assert FirstHandle(ts, j) && ts[j].now == seen.value;
      } else if ts[n].handle {
        assert FirstHandle(ts, n);
      }
    }
  }

  /** The first sight of a channel, as the decision of turn `i` knows it. */
  lemma SeenBy(started: Time, ts: seq<Turn>, i: nat)
    requires i < |ts|
    ensures var seen := Observe(After(started, ts[..i]), ts[i]).firstSeen;
            && (seen.None? ==> forall k :: 0 <= k <= i ==> !ts[k].handle)
            && (seen.Some? ==> exists j :: FirstHandle(ts, j) && j <= i && ts[j].now == seen.value)
  {
    var before := ts[..i];
    FirstSeenIsHistory(started, before);
    var seen := After(started, before).firstSeen;
    assert forall k :: 0 <= k < i ==> before[k] == ts[k];
    if seen.Some? {
      var j :| FirstHandle(before, j) && before[j].now == seen.value;
      assert FirstHandle(ts, j) && ts[j].now == seen.value;
    } else if ts[i].handle {
      assert FirstHandle(ts, i);
    }
  }

  /** The clock the decision of turn `i` reads. */
  lemma WaitedIs(started: Time, ts: seq<Turn>, i: nat)
    requires InOrder(started, ts) && i < |ts|
    ensures var o := Observe(After(started, ts[..i]), ts[i]);
            && o.started == started && (o.latched <==> Latched(ts, i))
            && (o.firstSeen.Some? <==> exists j :: 0 <= j <= i && ts[j].handle)
            && (o.firstSeen.Some? ==>
                  (Since(ts[i].now, o.firstSeen.value) >= 3000 <==> Overdue(started, ts, i)))
  {
    var before := ts[..i];
    LatchIsHistory(started, before);
    assert forall k :: 0 <= k < i ==> before[k] == ts[k];
    assert Latched(before, i) <==> Latched(ts, i);
    SeenBy(started, ts, i);
    var seen := Observe(After(started, before), ts[i]).firstSeen;
    if seen.Some? {
      var j :| FirstHandle(ts, j) && j <= i && ts[j].now == seen.value;
      assert forall k :: 0 <= k <= i && ts[k].handle ==> ts[j].now <= ts[k].now;
    }
  }

  /** Over every connection: a turn is held if and only if the channel is
      neither ready nor gone and either the session was on the pipeline before
      or a capable client still has time. */
  lemma HeldIff(started: Time, ts: seq<Turn>, i: nat)
    requires InOrder(started, ts) && i < |ts|
    ensures DecisionAt(started, ts, i).Hold? <==>
              && !ts[i].ready && !ts[i].unavailable
              && (Latched(ts, i) || (ts[i].clientSupports && !Overdue(started, ts, i)))
  {
    WaitedIs(started, ts, i);
  }

  /** A channel that has been there for three seconds stays overdue. */
  lemma OverdueStays(started: Time, ts: seq<Turn>, i: nat, k: nat)
    requires InOrder(started, ts) && i <= k < |ts| && Overdue(started, ts, i)
    requires (exists j :: 0 <= j <= i && ts[j].handle) || forall j :: i < j <= k ==> !ts[j].handle
    ensures Overdue(started, ts, k)
  {
    if j :| 0 <= j <= i && ts[j].handle && ts[i].now >= ts[j].now + 3000 {
      assert ts[i].now <= ts[k].now;
    }
  }

  /** No session waits for ever: once its client is overdue, every later turn
      that did not see the pipeline ready before either uses it or sends legacy
      updates; only the first sight of a channel starts another wait. */
  lemma HoldEnds(started: Time, ts: seq<Turn>, i: nat, k: nat)
    requires InOrder(started, ts) && i <= k < |ts| && Overdue(started, ts, i) && !Latched(ts, k)
    requires (exists j :: 0 <= j <= i && ts[j].handle) || forall j :: i < j <= k ==> !ts[j].handle
    ensures DecisionAt(started, ts, k) == if ts[k].ready then Egfx else Legacy
  {
    OverdueStays(started, ts, i, k);
    HeldIff(started, ts, k);
  }

  /** That second wait is real: a channel first seen ten seconds in, with legacy
      updates already flowing, holds frames again. */
  lemma SecondWaitExample()
    ensures var ts := [Turn(10000, false, false, false, true), Turn(10010, true, false, false, true)];
            && InOrder(0, ts)
            && DecisionAt(0, ts, 0).Legacy? && DecisionAt(0, ts, 1).Hold?
  {
    var ts := [Turn(10000, false, false, false, true), Turn(10010, true, false, false, true)];
    HeldIff(0, ts, 0);
    HeldIff(0, ts, 1);
    assert ts[1].handle;
  }
}
