/**
 The download object and what it offers the desktop in the end
 (linrdp/src/clipboard.rs: `Download`, `on_file_contents_response`,
 `on_remote_file_list`, `publication_roots`, `range_response_len`).
 */
module Paste {
  import opened Prelude
  import opened Downloads

  // ----- The download object -----

  class Download {
    var streamId: nat
    var nextStreamId: nat
    var pending: seq<Target>
    var current: Option<Current>
    var done: seq<Path>
    var expected: seq<Path>
    var totalBudget: nat
    var live: bool
    ghost var history: History

    ghost function State(): Transfer
      reads this
    {
      Transfer(streamId, nextStreamId, pending, current, done, totalBudget, live, history)
    }

    /** `on_remote_file_list`, up to its first request. */
    constructor (files: seq<Descriptor>, makes: nat -> bool, creates: nat -> bool)
      ensures State() == Downloads.Advance(Opening(files, makes), creates)
      ensures expected == Expected(files)
      ensures Sound(State(), files, Directories(files, makes))
    {
      streamId, nextStreamId, current, totalBudget, live := 0, 1, None, MAX_TOTAL_SIZE, true;
      pending, done, expected, history := [], [], [], History([], [], 0);
      new;
      var i := 0;
      while i < |files|
        invariant i <= |files| && expected == Expected(files[..i])
        invariant State() == Opening(files[..i], makes)
      {
        assert files[..i + 1][..i] == files[..i];
        if files[i].path.Some? {
          var path := files[i].path.value;
          expected := expected + [path];
          if files[i].directory {
            if makes(i) {
              done := done + [path];
            }
          } else {
            pending := pending + [Target(i, path, files[i].size)];
          }
        }
        i := i + 1;
      }
      assert files[..i] == files;
      OpeningConsistent(files, makes);
      AdvanceSound(Opening(files, makes), files, Directories(files, makes), creates);
      Advance(creates);
    }

    method AllocStreamId() returns (id: nat)
      modifies this
      ensures State() == old(State()).(nextStreamId := NextId(old(nextStreamId)),
                                       history := old(history).(asked := old(history).asked + 1))
      ensures id == nextStreamId && expected == old(expected)
    {
      nextStreamId := NextId(nextStreamId);
      history := history.(asked := history.asked + 1);
      return nextStreamId;
    }

    /** One target taken off the queue. */
    method Begin(next: Target, creates: bool)
      requires current.None?
      modifies this
      ensures State() == Start(old(State()), next, creates) && expected == old(expected)
    {
      match next.size
      case None =>
        streamId := AllocStreamId();
        current := Some(SizeQuery(next.index, next.path));
      case Some(size) =>
        if size == 0 {
          if creates {
            done := done + [next.path];
            history := history.(stored := history.stored + [Stored(next.index, next.path, [])]);
          }
        } else if size <= MAX_FILE_SIZE && size <= totalBudget && creates {
          totalBudget := totalBudget - size;
          streamId := AllocStreamId();
          current := Some(Ranges(next.index, next.path, size, 0, []));
          history := history.(admitted := history.admitted + [Admission(next.index, size)]);
        }
    }

    /** `advance`; an emptied queue ends the download. */
    method Advance(creates: nat -> bool)
      modifies this
      ensures State() == Downloads.Advance(old(State()), creates) && expected == old(expected)
    {
      while current.None?
        invariant Downloads.Advance(State(), creates) == Downloads.Advance(old(State()), creates)
        invariant expected == old(expected)
        decreases |pending|, current.None?
      {
        if pending == [] {
          live := false;
          return;
        }
        var next := pending[0];
        pending := pending[1..];
        Begin(next, creates(|pending|));
      }
    }

    method TakeSize(data: seq<byte>, creates: bool)
      requires current.Some? && current.value.SizeQuery?
      modifies this
      ensures State() == SizeAnswer(old(State()), data, creates) && expected == old(expected)
    {
      var c, size := current.value, AsSize(data);
      current := None;
      if size.Some? && creates {
        if size.value == 0 {
          done := done + [c.path];
          history := history.(stored := history.stored + [Stored(c.index, c.path, [])]);
        } else if size.value <= MAX_FILE_SIZE && size.value <= totalBudget {
          totalBudget := totalBudget - size.value;
          current := Some(Ranges(c.index, c.path, size.value, 0, []));
          history := history.(admitted := history.admitted + [Admission(c.index, size.value)]);
        }
      }
    }

    method TakeRange(data: seq<byte>, writes: bool)
      requires current.Some? && current.value.Ranges?
      modifies this
      ensures State() == RangeAnswer(old(State()), data, writes) && expected == old(expected)
    {
      var c := current.value;
      var take := Min(|data|, c.remaining);
      current := None;
      if take != 0 && writes {
        var file := c.file + data[..take];
        if take < c.remaining {
          current := Some(Ranges(c.index, c.path, c.remaining - take, c.offset + take, file));
        } else {
          done := done + [c.path];
          history := history.(stored := history.stored + [Stored(c.index, c.path, file)]);
        }
      }
    }

    /** `on_file_contents_response`. */
    method OnFileContentsResponse(r: Response, io: Io)
      modifies this
      ensures State() == Respond(old(State()), r, io) && expected == old(expected)
    {
      if !live || r.streamId != streamId {
        return;
      }
      if r.data.None? {
        current := None;
      } else if current.None? {
        return;
      } else if current.value.SizeQuery? {
        TakeSize(r.data.value, io.creates(|pending|));
      } else {
        TakeRange(r.data.value, io.writes);
      }
      Advance(io.creates);
    }
  }

  // ----- Publication -----

  /** The top-level selection a path belongs to. */
  function Root(base: Path, path: Path): Option<Path> {
    if base <= path && |base| < |path| then Some(base + [path[|base|]]) else None
  }

  /** Where a root first appears, counting from `k`. */
  function FirstAt(base: Path, expected: seq<Path>, root: Path, k: nat): (at: nat)
    requires k <= |expected|
    ensures k <= at <= |expected| && (at < |expected| ==> Root(base, expected[at]) == Some(root))
    ensures forall j :: k <= j < at ==> Root(base, expected[j]) != Some(root)
    decreases |expected| - k
  {
    if k == |expected| || Root(base, expected[k]) == Some(root) then k else FirstAt(base, expected, root, k + 1)
  }

  /** Every one of the first `n` expected entries under `root` is there. */
  ghost predicate Ready(base: Path, expected: seq<Path>, n: nat, done: set<Path>, root: Path)
    requires n <= |expected|
  {
    forall j :: 0 <= j < n && Root(base, expected[j]) == Some(root) ==> expected[j] in done
  }

  /** In the order of first appearance, hence without repetition. */
  ghost predicate InOrder(at: Path -> nat, roots: seq<Path>) {
    forall i, j :: 0 <= i < j < |roots| ==> at(roots[i]) < at(roots[j])
  }

  ghost function Positions(base: Path, expected: seq<Path>): Path -> nat { root => FirstAt(base, expected, root, 0) }

  /** Exactly the roots that appear and are complete, once each, in order. */
  ghost predicate IsPublication(base: Path, expected: seq<Path>, done: set<Path>, roots: seq<Path>) {
    && InOrder(Positions(base, expected), roots)
    && forall root :: root in roots <==>
                      FirstAt(base, expected, root, 0) < |expected| && Ready(base, expected, |expected|, done, root)
  }

  /** The roots seen in the first `n` entries. */
  ghost predicate Seen(base: Path, expected: seq<Path>, n: nat, roots: seq<Path>) {
    && InOrder(Positions(base, expected), roots)
    && forall root :: root in roots <==> FirstAt(base, expected, root, 0) < n
  }

  ghost predicate Judged(base: Path, expected: seq<Path>, n: nat, done: set<Path>, roots: seq<Path>,
                         status: map<Path, bool>)
    requires n <= |expected|
  {
    && (forall root :: root in status <==> root in roots)
    && forall root :: root in status ==> (status[root] <==> Ready(base, expected, n, done, root))
  }

  /** One round of the loop. */
  function Note(base: Path, path: Path, complete: set<Path>, roots: seq<Path>, status: map<Path, bool>)
    : (seq<Path>, map<Path, bool>)
  {
    match Root(base, path)
    case None => (roots, status)
    case Some(root) =>
      if root in status then (roots, status[root := status[root] && path in complete])
      else (roots + [root], status[root := path in complete])
  }

  lemma ReadyNext(base: Path, expected: seq<Path>, n: nat, done: set<Path>, root: Path)
    requires n < |expected|
    ensures Ready(base, expected, n + 1, done, root)
            <==> Ready(base, expected, n, done, root) && (Root(base, expected[n]) == Some(root) ==> expected[n] in done)
  {
  }

  lemma FirstAtNext(base: Path, expected: seq<Path>, n: nat, root: Path)
    requires n < |expected|
    ensures FirstAt(base, expected, root, 0) < n + 1
            <==> FirstAt(base, expected, root, 0) < n || Root(base, expected[n]) == Some(root)
  {
  }

  lemma SeenSame(base: Path, expected: seq<Path>, n: nat, roots: seq<Path>)
    requires n < |expected| && Seen(base, expected, n, roots)
    requires Root(base, expected[n]).Some? ==> Root(base, expected[n]).value in roots
    ensures Seen(base, expected, n + 1, roots)
  {
    forall root ensures root in roots <==> FirstAt(base, expected, root, 0) < n + 1 {
      FirstAtNext(base, expected, n, root);
    }
  }

  lemma SeenNew(base: Path, expected: seq<Path>, n: nat, roots: seq<Path>)
    requires n < |expected| && Seen(base, expected, n, roots)
    requires Root(base, expected[n]).Some? && Root(base, expected[n]).value !in roots
    ensures Seen(base, expected, n + 1, roots + [Root(base, expected[n]).value])
  {
    var added := Root(base, expected[n]).value;
    assert FirstAt(base, expected, added, 0) == n;
    forall root ensures root in roots + [added] <==> FirstAt(base, expected, root, 0) < n + 1 {
      FirstAtNext(base, expected, n, root);
    }
  }

  lemma JudgedNext(base: Path, expected: seq<Path>, n: nat, done: set<Path>, roots: seq<Path>,
                   status: map<Path, bool>)
    requires n < |expected| && Seen(base, expected, n, roots) && Judged(base, expected, n, done, roots, status)
    ensures var (all, now) := Note(base, expected[n], done, roots, status);
            Judged(base, expected, n + 1, done, all, now)
  {
    var (all, now) := Note(base, expected[n], done, roots, status);
    forall root | root in now ensures now[root] <==> Ready(base, expected, n + 1, done, root) {
      ReadyNext(base, expected, n, done, root);
      assert root !in status ==> FirstAt(base, expected, root, 0) >= n;
    }
  }

  ghost predicate Collected(base: Path, expected: seq<Path>, n: nat, done: set<Path>, roots: seq<Path>,
                            status: map<Path, bool>)
  {
    n <= |expected| && Seen(base, expected, n, roots) && Judged(base, expected, n, done, roots, status)
  }

  lemma NoteCollects(base: Path, expected: seq<Path>, n: nat, done: set<Path>, roots: seq<Path>,
                     status: map<Path, bool>)
    requires n < |expected| && Collected(base, expected, n, done, roots, status)
    ensures Collected(base, expected, n + 1, done, Note(base, expected[n], done, roots, status).0,
                      Note(base, expected[n], done, roots, status).1)
  {
    JudgedNext(base, expected, n, done, roots, status);
    if Root(base, expected[n]).Some? && Root(base, expected[n]).value !in roots {
      SeenNew(base, expected, n, roots);
    } else {
      SeenSame(base, expected, n, roots);
    }
  }

  method CollectRoots(base: Path, expected: seq<Path>, complete: set<Path>)
    returns (roots: seq<Path>, status: map<Path, bool>)
    ensures Collected(base, expected, |expected|, complete, roots, status)
  {
    roots, status := [], map[];
    var k := 0;
    while k < |expected|
      invariant k <= |expected| && Collected(base, expected, k, complete, roots, status)
    {
      NoteCollects(base, expected, k, complete, roots, status);
      var (all, now) := Note(base, expected[k], complete, roots, status);
      roots, status, k := all, now, k + 1;
    }
  }

  ghost predicate Before(at: Path -> nat, some: seq<Path>, others: seq<Path>) {
    forall i, j :: 0 <= i < |some| && 0 <= j < |others| ==> at(some[i]) < at(others[j])
  }

  /** The final filter keeps the complete roots in their order. */
  method KeepReady(ghost at: Path -> nat, roots: seq<Path>, status: map<Path, bool>) returns (published: seq<Path>)
    requires InOrder(at, roots) && forall root :: root in roots ==> root in status
    ensures InOrder(at, published) && forall root :: root in published <==> root in roots && status[root]
  {
    published := [];
    var k := 0;
    while k < |roots|
      invariant k <= |roots| && InOrder(at, published) && Before(at, published, roots[k..])
      invariant forall root :: root in published <==> root in roots[..k] && status[root]
    {
      assert roots[..k + 1] == roots[..k] + [roots[k]] && roots[k..] == [roots[k]] + roots[k + 1..];
      if status[roots[k]] {
        published := published + [roots[k]];
      }
      k := k + 1;
    }
    assert roots[..k] == roots;
  }

  /** `publication_roots`. */
  method PublicationRoots(base: Path, expected: seq<Path>, done: seq<Path>) returns (published: seq<Path>)
    ensures IsPublication(base, expected, (set p | p in done), published)
  {
    var complete := set p | p in done;
    var roots, status := CollectRoots(base, expected, complete);
    published := KeepReady(Positions(base, expected), roots, status);
  }

  // ----- Which selections a run publishes -----

  ghost predicate Distinct(files: seq<Descriptor>) {
    forall i, j :: 0 <= i < |files| && 0 <= j < |files| && files[i].path.Some? && files[i].path == files[j].path ==> i == j
  }

  /** The entry is on disk: a directory made, or a file stored. */
  ghost predicate Landed(stored: seq<Stored>, files: seq<Descriptor>, makes: nat -> bool, i: nat)
    requires i < |files|
  {
    if files[i].directory then makes(i) else HasIndex(stored, i)
  }

  predicate Under(d: Descriptor, base: Path, root: Path) { d.path.Some? && Root(base, d.path.value) == Some(root) }

  lemma {:induction false} ExpectedHas(files: seq<Descriptor>, p: Path)
    ensures p in Expected(files) <==> exists i :: 0 <= i < |files| && files[i].path == Some(p)
  {
    if files != [] {
      var n := |files| - 1;
      ExpectedHas(files[..n], p);
      assert forall i :: 0 <= i < n ==> files[..n][i] == files[i];
      if i :| 0 <= i < |files| && files[i].path == Some(p) {
        assert i < n ==> files[..n][i].path == Some(p);
      }
    }
  }

  ghost predicate Made(files: seq<Descriptor>, makes: nat -> bool, i: nat, p: Path) {
    i < |files| && files[i].path == Some(p) && files[i].directory && makes(i)
  }

  lemma {:induction false} DirectoriesHas(files: seq<Descriptor>, makes: nat -> bool, p: Path)
    ensures p in Directories(files, makes) <==> exists i: nat :: Made(files, makes, i, p)
  {
    if files != [] {
      var n := |files| - 1;
      DirectoriesHas(files[..n], makes, p);
      if i: nat :| Made(files[..n], makes, i, p) {
        assert Made(files, makes, i, p);
      }
      if i: nat :| Made(files, makes, i, p) {
        assert i < n ==> Made(files[..n], makes, i, p);
      }
      assert Made(files, makes, n, p) <==> files[n].path == Some(p) && files[n].directory && makes(n);
    }
  }

  lemma DirectoryLanded(files: seq<Descriptor>, makes: nat -> bool, i: nat)
    requires Distinct(files) && i < |files| && files[i].path.Some?
    ensures files[i].path.value in Directories(files, makes) <==> files[i].directory && makes(i)
  {
    var p := files[i].path.value;
    DirectoriesHas(files, makes, p);
    assert Made(files, makes, i, p) <==> files[i].directory && makes(i);
  }

  ghost predicate HasIndex(stored: seq<Stored>, i: nat) { exists k :: 0 <= k < |stored| && stored[k].index == i }

  lemma FileLanded(stored: seq<Stored>, files: seq<Descriptor>, i: nat)
    requires Distinct(files) && i < |files| && files[i].path.Some?
    requires forall k :: 0 <= k < |stored| ==> Lists(files, stored[k].index, stored[k].path)
    ensures files[i].path.value in Paths(stored) <==> HasIndex(stored, i)
    ensures HasIndex(stored, i) ==> !files[i].directory
  {
    assert forall k :: 0 <= k < |stored| ==> Paths(stored)[k] == stored[k].path;
    if k :| 0 <= k < |stored| && stored[k].index == i {
      assert Paths(stored)[k] in Paths(stored);
    }
  }

  /** With distinct paths, an entry's path is in `done` exactly when it landed. */
  lemma LandedIff(t: Transfer, files: seq<Descriptor>, makes: nat -> bool, i: nat)
    requires Sound(t, files, Directories(files, makes)) && Distinct(files) && i < |files| && files[i].path.Some?
    ensures files[i].path.value in t.done <==> Landed(t.history.stored, files, makes, i)
  {
    DirectoryLanded(files, makes, i);
    forall k | 0 <= k < |t.history.stored|
      ensures Lists(files, t.history.stored[k].index, t.history.stored[k].path)
    {
      assert StoredSound(t.history.stored[k], files, t.history.admitted);
    }
    FileLanded(t.history.stored, files, i);
  }

  /** Publication in terms of membership alone. */
  lemma RootsIff(base: Path, expected: seq<Path>, done: set<Path>, roots: seq<Path>, root: Path)
    requires IsPublication(base, expected, done, roots)
    ensures root in roots <==> (exists p :: p in expected && Root(base, p) == Some(root))
                               && forall p :: p in expected && Root(base, p) == Some(root) ==> p in done
  {
    var at := FirstAt(base, expected, root, 0);
    if at < |expected| {
      assert expected[at] in expected;
    }
    if p :| p in expected && Root(base, p) == Some(root) {
      var j :| 0 <= j < |expected| && expected[j] == p;
      assert at <= j;
    }
  }

  ghost predicate AllLanded(base: Path, stored: seq<Stored>, files: seq<Descriptor>, makes: nat -> bool, root: Path) {
    forall i :: 0 <= i < |files| && Under(files[i], base, root) ==> Landed(stored, files, makes, i)
  }

  ghost predicate Appears(base: Path, files: seq<Descriptor>, root: Path) {
    exists i :: 0 <= i < |files| && Under(files[i], base, root)
  }

  lemma AppearsIff(base: Path, files: seq<Descriptor>, root: Path)
    ensures Appears(base, files, root) <==> exists p :: p in Expected(files) && Root(base, p) == Some(root)
  {
    if i :| 0 <= i < |files| && Under(files[i], base, root) {
      ExpectedHas(files, files[i].path.value);
    }
    if p :| p in Expected(files) && Root(base, p) == Some(root) {
      ExpectedHas(files, p);
      var i :| 0 <= i < |files| && files[i].path == Some(p);
      assert Under(files[i], base, root);
    }
  }

  lemma AllLandedIff(base: Path, t: Transfer, files: seq<Descriptor>, makes: nat -> bool, root: Path)
    requires Sound(t, files, Directories(files, makes)) && Distinct(files)
    ensures AllLanded(base, t.history.stored, files, makes, root)
            <==> forall p :: p in Expected(files) && Root(base, p) == Some(root) ==> p in t.done
  {
    forall i | 0 <= i < |files| && Under(files[i], base, root)
      ensures files[i].path.value in Expected(files)
      ensures files[i].path.value in t.done <==> Landed(t.history.stored, files, makes, i)
    {
      ExpectedHas(files, files[i].path.value);
      LandedIff(t, files, makes, i);
    }
    forall p | p in Expected(files) && Root(base, p) == Some(root)
      ensures exists i :: 0 <= i < |files| && Under(files[i], base, root) && files[i].path == Some(p)
    {
      ExpectedHas(files, p);
      var i :| 0 <= i < |files| && files[i].path == Some(p);
      assert Under(files[i], base, root);
    }
  }

  /** A top-level selection is offered exactly when something was expected under
      it and all of it landed. */
  lemma PublishedIff(base: Path, t: Transfer, files: seq<Descriptor>, makes: nat -> bool, roots: seq<Path>, root: Path)
    requires Sound(t, files, Directories(files, makes)) && Distinct(files)
    requires IsPublication(base, Expected(files), (set p | p in t.done), roots)
    ensures root in roots <==> Appears(base, files, root) && AllLanded(base, t.history.stored, files, makes, root)
  {
    RootsIff(base, Expected(files), (set p | p in t.done), roots, root);
    AppearsIff(base, files, root);
    AllLandedIff(base, t, files, makes, root);
  }

  /** The same of every run of responses over a list. */
  lemma RunPublishes(base: Path, files: seq<Descriptor>, makes: nat -> bool, creates: nat -> bool, es: seq<Event>,
                     roots: seq<Path>, root: Path)
    requires Distinct(files)
    requires IsPublication(base, Expected(files), (set p | p in Run(Downloads.Advance(Opening(files, makes), creates), es).done), roots)
    ensures var stored := Run(Downloads.Advance(Opening(files, makes), creates), es).history.stored;
            root in roots <==> Appears(base, files, root) && AllLanded(base, stored, files, makes, root)
  {
    DownloadSafe(files, makes, creates, es);
    PublishedIff(base, Run(Downloads.Advance(Opening(files, makes), creates), es), files, makes, roots, root);
  }

  // ----- Serving ranges to the client -----

  /** `range_response_len`: from the position, within the file, and the chunk. */
  function RangeResponseLen(offered: nat, position: nat, requested: nat): (n: nat)
    ensures n <= requested && n <= 524288 && (n > 0 ==> position + n <= offered)
    ensures n == requested || n == 524288 || position + n >= offered
  {
    Min(Min(requested, FILE_CHUNK_SIZE), SatSub(offered, position))
  }
}
