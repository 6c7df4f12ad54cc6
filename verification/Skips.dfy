/**
 Downloads in which some files do not make it: one that is too large or cannot
 be created is skipped alone (linrdp/src/clipboard.rs, `advance` and
 `on_file_contents_response`).
 */
module Skips {
  import opened Prelude
  import opened Downloads

  /** The files of a queue that are stored, in order, when the client answers
      truthfully: `can` says which creations succeed, by how many files are
      behind. A file over the limit, over what is left of the budget, or without
      a place to go is passed over and costs nothing. */
  function Survivors(queue: seq<nat>, contents: seq<seq<byte>>, budget: int, can: nat -> bool): seq<nat>
    decreases |queue|
  {
    if queue == [] then []
    else
      var size := Length(contents, queue[0]);
      if can(|queue| - 1) && (size == 0 || (size <= MAX_FILE_SIZE && size <= budget))
      then [queue[0]] + Survivors(queue[1..], contents, budget - size, can)
      else Survivors(queue[1..], contents, budget, can)
  }

  /** What a transfer has stored and will store. */
  function Outcome(t: Transfer, contents: seq<seq<byte>>, can: nat -> bool): seq<nat> {
    StoredOrder(t.history.stored)
    + match t.current
      case None => Survivors(TargetOrder(t.pending), contents, t.budget, can)
      case Some(Ranges(index, _, _, _, _)) => [index] + Survivors(TargetOrder(t.pending), contents, t.budget, can)
      case Some(SizeQuery(index, _)) => Survivors([index] + TargetOrder(t.pending), contents, t.budget, can)
  }

  lemma FirstSurvives(index: nat, rest: seq<nat>, contents: seq<seq<byte>>, budget: int, can: nat -> bool)
    ensures var size := Length(contents, index);
            Survivors([index] + rest, contents, budget, can) ==
              if can(|rest|) && (size == 0 || (size <= MAX_FILE_SIZE && size <= budget))
              then [index] + Survivors(rest, contents, budget - size, can)
              else Survivors(rest, contents, budget, can)
  {
    assert ([index] + rest)[1..] == rest;
  }

  lemma StartOutcome(t: Transfer, files: seq<Descriptor>, contents: seq<seq<byte>>, next: Target, can: nat -> bool)
    requires t.current.None? && Describes(files, contents) && TargetSound(next, files)
    ensures Outcome(Start(t, next, can(|t.pending|)), contents, can)
         == StoredOrder(t.history.stored) + Survivors([next.index] + TargetOrder(t.pending), contents, t.budget, can)
  {
    var queue := TargetOrder(t.pending);
    FirstSurvives(next.index, queue, contents, t.budget, can);
    if next.size == Some(0) && can(|t.pending|) {
      LandOutcome(t, next.index, next.path, contents, can);
    } else if next.size.Some? && 0 < next.size.value <= MAX_FILE_SIZE && next.size.value <= t.budget && can(|t.pending|) {
      AdmitOutcome(Fresh(t), next.index, next.path, next.size.value, contents, can);
    }
  }

  lemma LandOutcome(t: Transfer, index: nat, path: Path, contents: seq<seq<byte>>, can: nat -> bool)
    ensures Outcome(Land(t, index, path, []), contents, can)
         == StoredOrder(t.history.stored) + ([index] + Survivors(TargetOrder(t.pending), contents, t.budget, can))
  {
    StoredOrderNext(t.history.stored, Stored(index, path, []));
  }

  lemma AdmitOutcome(t: Transfer, index: nat, path: Path, size: nat, contents: seq<seq<byte>>, can: nat -> bool)
    requires size <= t.budget
    ensures Outcome(Admit(t, index, path, size), contents, can)
         == StoredOrder(t.history.stored) + ([index] + Survivors(TargetOrder(t.pending), contents, t.budget - size, can))
  {
  }

  lemma {:induction false} AdvanceOutcome(t: Transfer, files: seq<Descriptor>, contents: seq<seq<byte>>, can: nat -> bool)
    requires Describes(files, contents) && PendingSound(t.pending, files)
    ensures Outcome(Advance(t, can), contents, can) == Outcome(t, contents, can)
    decreases |t.pending|
  {
    if t.current.None? && t.pending != [] {
      var popped, next := t.(pending := t.pending[1..]), t.pending[0];
      assert TargetSound(next, files);
      assert TargetOrder(t.pending) == [next.index] + TargetOrder(popped.pending);
      StartOutcome(popped, files, contents, next, can);
      AdvanceOutcome(Start(popped, next, can(|popped.pending|)), files, contents, can);
    }
  }

  /** The client answers, truthfully, and writes succeed. */
  ghost predicate AnsweredEvent(t: Transfer, e: Event, contents: seq<seq<byte>>, can: nat -> bool) {
    && e.response.data.Some? && t.current.Some? && Honest(t, e.response.data.value, contents)
    && (t.current.value.Ranges? ==> e.response.data.value != []) && e.io.writes && e.io.creates == can
  }

  ghost predicate AnsweredRun(t: Transfer, es: seq<Event>, contents: seq<seq<byte>>, can: nat -> bool)
    decreases |es|
  {
    es != [] ==>
      && (Accepts(t, es[0].response) ==> AnsweredEvent(t, es[0], contents, can))
      && AnsweredRun(Respond(t, es[0].response, es[0].io), es[1..], contents, can)
  }

  lemma AnswerOutcome(t: Transfer, contents: seq<seq<byte>>, e: Event, can: nat -> bool)
    requires AnsweredEvent(t, e, contents, can) && (t.current.value.Ranges? ==> t.current.value.remaining > 0)
    ensures Outcome(Answer(t, e.response.data, e.io), contents, can) == Outcome(t, contents, can)
  {
    if t.current.value.SizeQuery? {
      SizeOutcome(t, contents, e.response.data.value, can);
    } else {
      RangeOutcome(t, contents, e.response.data.value, can);
    }
  }

  lemma SizeOutcome(t: Transfer, contents: seq<seq<byte>>, data: seq<byte>, can: nat -> bool)
    requires t.current.Some? && t.current.value.SizeQuery? && Honest(t, data, contents)
    ensures Outcome(SizeAnswer(t, data, can(|t.pending|)), contents, can) == Outcome(t, contents, can)
  {
    var c, size := t.current.value, AsSize(data).value;
    FirstSurvives(c.index, TargetOrder(t.pending), contents, t.budget, can);
    if size == 0 {
      LandOutcome(t, c.index, c.path, contents, can);
    } else if size <= t.budget {
      AdmitOutcome(t, c.index, c.path, size, contents, can);
    }
  }

  lemma RangeOutcome(t: Transfer, contents: seq<seq<byte>>, data: seq<byte>, can: nat -> bool)
    requires t.current.Some? && t.current.value.Ranges? && t.current.value.remaining > 0 && data != []
    ensures Outcome(RangeAnswer(t, data, true), contents, can) == Outcome(t, contents, can)
  {
    var landed := RangeAnswer(t, data, true);
    if landed.current.None? {
      StoredOrderNext(t.history.stored, landed.history.stored[|landed.history.stored| - 1]);
    }
  }

  lemma {:induction false} RunOutcome(t: Transfer, files: seq<Descriptor>, dirs: seq<Path>, es: seq<Event>,
                                      contents: seq<seq<byte>>, can: nat -> bool)
    requires Sound(t, files, dirs) && Describes(files, contents) && Faithful(t, contents)
    requires AnsweredRun(t, es, contents, can)
    ensures Outcome(Run(t, es), contents, can) == Outcome(t, contents, can)
    ensures Faithful(Run(t, es), contents) && Sound(Run(t, es), files, dirs)
    decreases |es|
  {
    if es != [] {
      var r, io := es[0].response, es[0].io;
      if Accepts(t, r) {
        AnswerOutcome(t, contents, es[0], can);
        AnswerFaithful(t, contents, r.data, io);
        AnswerKeepsQueue(t, r.data, io);
        AdvanceOutcome(Answer(t, r.data, io), files, contents, can);
        AdvanceFaithful(Answer(t, r.data, io), files, contents, io.creates);
      }
      RespondSound(t, files, dirs, r, io);
      RunOutcome(Respond(t, r, io), files, dirs, es[1..], contents, can);
    }
  }

  /** A finished download from a client that answers truthfully has stored
      exactly the files that fit and can be created, in list order, with the
      client's bytes: what does not fit is skipped alone. */
  lemma DownloadSkips(files: seq<Descriptor>, makes: nat -> bool, can: nat -> bool, es: seq<Event>,
                      contents: seq<seq<byte>>)
    requires Describes(files, contents) && AnsweredRun(Advance(Opening(files, makes), can), es, contents, can)
    requires !Run(Advance(Opening(files, makes), can), es).live
    ensures var end := Run(Advance(Opening(files, makes), can), es);
            && StoredOrder(end.history.stored) == Survivors(TargetOrder(Targets(files)), contents, MAX_TOTAL_SIZE, can)
            && Faithful(end, contents)
  {
    var opening, dirs := Opening(files, makes), Directories(files, makes);
    OpeningConsistent(files, makes);
    AdvanceSound(opening, files, dirs, can);
    AdvanceFaithful(opening, files, contents, can);
    AdvanceOutcome(opening, files, contents, can);
    assert Outcome(opening, contents, can) == Survivors(TargetOrder(Targets(files)), contents, MAX_TOTAL_SIZE, can);
    var t := Advance(opening, can);
    RunOutcome(t, files, dirs, es, contents, can);
    var end := Run(t, es);
    assert Outcome(end, contents, can) == StoredOrder(end.history.stored) + [];
  }

  // ----- With room for everything of acceptable size -----

  /** The files of at most 2 GiB together fit the budget. */
  predicate Roomy(queue: seq<nat>, contents: seq<seq<byte>>, budget: int)
    decreases |queue|
  {
    if queue == [] then budget >= 0
    else
      var size := Length(contents, queue[0]);
      Roomy(queue[1..], contents, if size <= 2147483648 then budget - size else budget)
  }

  /** The files of at most 2 GiB that can be created. */
  function Wanted(queue: seq<nat>, contents: seq<seq<byte>>, can: nat -> bool): seq<nat>
    decreases |queue|
  {
    if queue == [] then []
    else (if can(|queue| - 1) && Length(contents, queue[0]) <= 2147483648 then [queue[0]] else [])
         + Wanted(queue[1..], contents, can)
  }

  lemma {:induction false} RoomyMore(queue: seq<nat>, contents: seq<seq<byte>>, budget: int, more: int)
    requires Roomy(queue, contents, budget) && budget <= more
    ensures Roomy(queue, contents, more) && budget >= 0
    decreases |queue|
  {
    if queue != [] {
      var size := Length(contents, queue[0]);
      RoomyMore(queue[1..], contents, if size <= 2147483648 then budget - size else budget,
                if size <= 2147483648 then more - size else more);
    }
  }

  /** Then each file's fate is its own: an unacceptable one takes nothing from
      the others. */
  lemma {:induction false} SkippedAlone(queue: seq<nat>, contents: seq<seq<byte>>, budget: int, can: nat -> bool)
    requires Roomy(queue, contents, budget)
    ensures Survivors(queue, contents, budget, can) == Wanted(queue, contents, can)
    decreases |queue|
  {
    if queue != [] {
      var size := Length(contents, queue[0]);
      var left := if size <= 2147483648 then budget - size else budget;
      RoomyMore(queue[1..], contents, left, left);
      if can(|queue| - 1) && size <= 2147483648 {
        SkippedAlone(queue[1..], contents, budget - size, can);
      } else {
        RoomyMore(queue[1..], contents, left, budget);
        SkippedAlone(queue[1..], contents, budget, can);
      }
    }
  }
}
