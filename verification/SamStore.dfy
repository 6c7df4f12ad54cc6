/**
 Rewriting the account store from several processes (linrdp/src/sam.rs:
 `StoreLock`, `set_password`, `migrate_plaintext`, `load`;
 linrdp/src/atomic.rs: `write`). A process may die at any point.
 */
module SamStore {
  import opened Prelude
  import opened Sam

  type Pid = nat

  datatype Job = SetPassword(user: string, password: string) | Migrate

  /** How far a rewrite is; all but Idle hold the lock. */
  datatype Phase =
    | Idle
    | Locked(job: Job)
    | Loaded(job: Job, accounts: Accounts)
    | Writing(job: Job, body: string)
    | Renamed

  /** `committed` lists the rewrites that reached the file, in order. */
  datatype World = World(file: Option<string>, lock: Option<Pid>, phases: map<Pid, Phase>, temps: map<Pid, string>,
                         committed: seq<Job>)

  /** The machine: its cipher and its keys. */
  datatype Host = Host(crypto: Crypto, keyFor: KeyMode -> Bytes)

  function PhaseOf(w: World, p: Pid): Phase { if p in w.phases then w.phases[p] else Idle }

  function Go(w: World, p: Pid, phase: Phase): World { w.(phases := w.phases[p := phase]) }

  function Quit(w: World, p: Pid): World {
    Go(w, p, Idle).(lock := if w.lock == Some(p) then None else w.lock)
  }

  /** What a file, if any, parses to. */
  function Contents(host: Host, file: Option<string>): Accounts {
    if file.None? then map[] else Parsed(host.crypto, file.value, host.keyFor)
  }

  function Apply(job: Job, m: Accounts): Accounts {
    match job
    case SetPassword(user, password) => m[user := password]
    case Migrate => m
  }

  function ApplyAll(jobs: seq<Job>, m: Accounts): Accounts {
    if jobs == [] then m else Apply(jobs[|jobs| - 1], ApplyAll(jobs[..|jobs| - 1], m))
  }

  /** One write of a rewrite's body. */
  datatype Draft = Draft(mode: KeyMode, order: Listing, nonces: nat -> Nonce)

  function Text(host: Host, d: Draft): string {
    Rendered(host.crypto, host.keyFor(d.mode), d.mode, d.order, d.nonces)
  }

  // ----- Steps -----

  datatype Event =
    | Acquire(p: Pid, job: Job)
    | Read(p: Pid, ok: bool)
    | Open(p: Pid, draft: Draft)
    | Append(p: Pid, count: nat)
    | Rename(p: Pid)
    | Release(p: Pid)
    | Fail(p: Pid)
    | Crash(p: Pid)

  /** The read under the lock. A failed one counts as an empty store for
      `set_password` and ends `migrate_plaintext`. */
  function ReadStep(host: Host, w: World, p: Pid, job: Job, ok: bool): World {
    if job.SetPassword? then Go(w, p, Loaded(job, if ok then Contents(host, w.file) else map[]))
    else if ok && w.file.Some? && HasLegacy(w.file.value) then Go(w, p, Loaded(job, Contents(host, w.file)))
    else Quit(w, p)
  }

  /** More of the body goes into the process's own temporary file. */
  function AppendStep(w: World, p: Pid, body: string, count: nat): World {
    if p in w.temps then w.(temps := w.temps[p := body[..Min(|body|, |w.temps[p]| + count)]]) else w
  }

  function RenameStep(w: World, p: Pid, job: Job, body: string): World {
    if p in w.temps && |w.temps[p]| == |body| then
      Go(w, p, Renamed).(file := Some(w.temps[p]), temps := w.temps - {p}, committed := w.committed + [job])
    else w
  }

  /** A step that is not enabled changes nothing. */
  function Step(host: Host, w: World, e: Event): World {
    var phase := PhaseOf(w, e.p);
    match e
    case Acquire(p, job) => if phase.Idle? && w.lock.None? then Go(w, p, Locked(job)).(lock := Some(p)) else w
    case Read(p, ok) => if phase.Locked? then ReadStep(host, w, p, phase.job, ok) else w
    case Open(p, draft) =>
      if phase.Loaded? then Go(w, p, Writing(phase.job, Text(host, draft))).(temps := w.temps[p := ""]) else w
    case Append(p, count) => if phase.Writing? then AppendStep(w, p, phase.body, count) else w
    case Rename(p) => if phase.Writing? then RenameStep(w, p, phase.job, phase.body) else w
    case Release(p) => if phase.Renamed? then Quit(w, p) else w
    case Fail(p) => if phase.Idle? then w else Quit(w, p).(temps := w.temps - {p})
    case Crash(p) => Quit(w, p)
  }

  /** What the code does with its map: the body lists the updated one. */
  ghost predicate Possible(w: World, e: Event) {
    e.Open? && PhaseOf(w, e.p).Loaded? ==> Lists(e.draft.order, Apply(PhaseOf(w, e.p).job, PhaseOf(w, e.p).accounts))
  }

  /** The read finds the store, or would have found no other account. */
  ghost predicate Harmless(host: Host, w: World, e: Event) {
    e.Read? && PhaseOf(w, e.p).Locked? && PhaseOf(w, e.p).job.SetPassword? ==>
      e.ok || Contents(host, w.file).Keys <= {PhaseOf(w, e.p).job.user}
  }

  // ----- The invariant -----

  /** The holder's work is on the store as it is now. */
  ghost predicate HolderReady(host: Host, w: World, p: Pid) {
    match PhaseOf(w, p)
    case Idle => false
    case Locked(job) => true
    case Loaded(job, accounts) => Apply(job, accounts) == Apply(job, Contents(host, w.file))
    case Writing(job, body) =>
      IsText(host, body, Apply(job, Contents(host, w.file))) && (p in w.temps ==> w.temps[p] <= body)
    case Renamed => true
  }

  predicate GoodJob(job: Job) { job.SetPassword? ==> GoodName(job.user) }

  /** Every committed change names an account a line can carry. */
  ghost predicate AllGood(jobs: seq<Job>) { forall i :: 0 <= i < |jobs| ==> GoodJob(jobs[i]) }

  /** A complete body for these accounts. */
  ghost predicate IsText(host: Host, body: string, m: Accounts) {
    exists d: Draft :: body == Text(host, d) && Lists(d.order, m)
  }

  ghost predicate OneWriter(w: World) {
    forall p :: p in w.phases && !w.phases[p].Idle? ==> w.lock == Some(p)
  }

  /** The file is one whole body: the initial one until the first rewrite, a
      complete rendering ever after. */
  ghost predicate Whole(host: Host, first: Option<string>, w: World) {
    if w.committed == [] then w.file == first else w.file.Some? && exists m :: IsText(host, w.file.value, m)
  }

  /** The file holds the committed rewrites of the initial store. */
  ghost predicate Inv(host: Host, first: Option<string>, w: World) {
    && OneWriter(w) && (w.lock.Some? ==> HolderReady(host, w, w.lock.value))
    && (AllGood(w.committed) ==> Contents(host, w.file) == ApplyAll(w.committed, Contents(host, first)))
    && Whole(host, first, w)
  }

  lemma TextParses(host: Host, body: string, m: Accounts)
    requires Works(host.crypto) && IsText(host, body, m) && GoodNames(m)
    ensures Contents(host, Some(body)) == m
  {
    var d: Draft :| body == Text(host, d) && Lists(d.order, m);
    SealedRoundTrip(host.crypto, host.keyFor, d.mode, m, d.order, d.nonces);
  }

  lemma TextIsSealed(host: Host, body: string, m: Accounts)
    requires IsText(host, body, m)
    ensures !HasLegacy(body)
  {
    var d: Draft :| body == Text(host, d) && Lists(d.order, m);
    HeaderLine(RenderedFrom(host.crypto, host.keyFor(d.mode), d.mode, d.order, d.nonces, 0), body);
  }

  lemma ContentsGood(host: Host, file: Option<string>)
    ensures GoodNames(Contents(host, file))
  {
    if file.Some? {
      ParsedNames(host.crypto, file.value, host.keyFor);
    }
  }

  lemma LoadKeeps(host: Host, first: Option<string>, w: World, p: Pid, job: Job, m: Accounts)
    requires Inv(host, first, w) && PhaseOf(w, p) == Locked(job)
    requires Apply(job, m) == Apply(job, Contents(host, w.file))
    ensures Inv(host, first, Go(w, p, Loaded(job, m)))
  {
  }

  lemma QuitKeeps(host: Host, first: Option<string>, w: World, p: Pid)
    requires Inv(host, first, w)
    ensures Inv(host, first, Quit(w, p))
  {
  }

  lemma ReadKeeps(host: Host, first: Option<string>, w: World, p: Pid, ok: bool)
    requires Inv(host, first, w) && PhaseOf(w, p).Locked? && Harmless(host, w, Read(p, ok))
    ensures Inv(host, first, ReadStep(host, w, p, PhaseOf(w, p).job, ok))
  {
    var job, m := PhaseOf(w, p).job, Contents(host, w.file);
    if job.SetPassword? {
      var none: Accounts := map[];
      assert !ok ==> Apply(job, none) == Apply(job, m);
      LoadKeeps(host, first, w, p, job, if ok then m else none);
    } else {
      LoadKeeps(host, first, w, p, job, m);
      QuitKeeps(host, first, w, p);
    }
  }

  lemma ApplyAllNext(jobs: seq<Job>, job: Job, m: Accounts)
    ensures ApplyAll(jobs + [job], m) == Apply(job, ApplyAll(jobs, m))
  {
    assert (jobs + [job])[..|jobs|] == jobs;
  }

  /** A renamed body is the next store. */
  lemma FileIsNext(host: Host, first: Option<string>, w: World, job: Job, body: string)
    requires Works(host.crypto) && IsText(host, body, Apply(job, Contents(host, w.file)))
    requires AllGood(w.committed) ==> Contents(host, w.file) == ApplyAll(w.committed, Contents(host, first))
    ensures var jobs := w.committed + [job];
            AllGood(jobs) ==> Contents(host, Some(body)) == ApplyAll(jobs, Contents(host, first))
  {
    var jobs := w.committed + [job];
    if AllGood(jobs) {
      assert GoodJob(jobs[|w.committed|]);
      assert forall i :: 0 <= i < |w.committed| ==> w.committed[i] == jobs[i];
      ContentsGood(host, w.file);
      TextParses(host, body, Apply(job, Contents(host, w.file)));
      ApplyAllNext(w.committed, job, Contents(host, first));
    }
  }

  lemma RenameKeeps(host: Host, first: Option<string>, w: World, p: Pid)
    requires Works(host.crypto) && Inv(host, first, w) && PhaseOf(w, p).Writing?
    ensures Inv(host, first, RenameStep(w, p, PhaseOf(w, p).job, PhaseOf(w, p).body))
  {
    var job, body := PhaseOf(w, p).job, PhaseOf(w, p).body;
    FileIsNext(host, first, w, job, body);
    if p in w.temps && |w.temps[p]| == |body| {
      assert w.temps[p] == body;
    }
  }

  lemma AcquireKeeps(host: Host, first: Option<string>, w: World, p: Pid, job: Job)
    requires Inv(host, first, w) && w.lock.None?
    ensures Inv(host, first, Go(w, p, Locked(job)).(lock := Some(p)))
  {
  }

  lemma OpenKeeps(host: Host, first: Option<string>, w: World, p: Pid, d: Draft)
    requires Inv(host, first, w) && PhaseOf(w, p).Loaded?
    requires Lists(d.order, Apply(PhaseOf(w, p).job, PhaseOf(w, p).accounts))
    ensures Inv(host, first, Go(w, p, Writing(PhaseOf(w, p).job, Text(host, d))).(temps := w.temps[p := ""]))
  {
    assert IsText(host, Text(host, d), Apply(PhaseOf(w, p).job, PhaseOf(w, p).accounts));
  }

  lemma AppendKeeps(host: Host, first: Option<string>, w: World, p: Pid, count: nat)
    requires Inv(host, first, w) && PhaseOf(w, p).Writing?
    ensures Inv(host, first, AppendStep(w, p, PhaseOf(w, p).body, count))
  {
  }

  lemma FailKeeps(host: Host, first: Option<string>, w: World, p: Pid)
    requires Inv(host, first, w) && !PhaseOf(w, p).Idle?
    ensures Inv(host, first, Quit(w, p).(temps := w.temps - {p}))
  {
    QuitKeeps(host, first, w, p);
  }

  lemma StepKeeps(host: Host, first: Option<string>, w: World, e: Event)
    requires Works(host.crypto) && Inv(host, first, w) && Possible(w, e) && Harmless(host, w, e)
    ensures Inv(host, first, Step(host, w, e))
  {
    match e
    case Acquire(p, job) => if w.lock.None? { AcquireKeeps(host, first, w, p, job); }
    case Read(p, ok) => if PhaseOf(w, p).Locked? { ReadKeeps(host, first, w, p, ok); }
    case Open(p, draft) => if PhaseOf(w, p).Loaded? { OpenKeeps(host, first, w, p, draft); }
    case Append(p, count) => if PhaseOf(w, p).Writing? { AppendKeeps(host, first, w, p, count); }
    case Rename(p) => if PhaseOf(w, p).Writing? { RenameKeeps(host, first, w, p); }
    case Release(p) => QuitKeeps(host, first, w, p);
    case Fail(p) => if !PhaseOf(w, p).Idle? { FailKeeps(host, first, w, p); }
    case Crash(p) => QuitKeeps(host, first, w, p);
  }

  // ----- Runs -----

  function Run(host: Host, w: World, es: seq<Event>): World
    decreases |es|
  {
    if es == [] then w else Run(host, Step(host, w, es[0]), es[1..])
  }

  ghost predicate Legal(host: Host, w: World, es: seq<Event>)
    decreases |es|
  {
    es != [] ==> Possible(w, es[0]) && Legal(host, Step(host, w, es[0]), es[1..])
  }

  ghost predicate Readable(host: Host, w: World, es: seq<Event>)
    decreases |es|
  {
    es != [] ==> Harmless(host, w, es[0]) && Readable(host, Step(host, w, es[0]), es[1..])
  }

  function Start(first: Option<string>): World { World(first, None, map[], map[], []) }

  lemma {:induction false} RunKeeps(host: Host, first: Option<string>, w: World, es: seq<Event>)
    requires Works(host.crypto) && Inv(host, first, w) && Legal(host, w, es) && Readable(host, w, es)
    ensures Inv(host, first, Run(host, w, es))
    decreases |es|
  {
    if es != [] {
      StepKeeps(host, first, w, es[0]);
      RunKeeps(host, first, Step(host, w, es[0]), es[1..]);
    }
  }

  /** Changes are never taken back. */
  lemma {:induction false} ChangedStays(jobs: seq<Job>, m: Accounts, k: nat)
    requires k < |jobs| && jobs[k].SetPassword?
    ensures jobs[k].user in ApplyAll(jobs, m)
    decreases |jobs|
  {
    if k < |jobs| - 1 {
      ChangedStays(jobs[..|jobs| - 1], m, k);
    }
  }

  /** No lost update: after any interleaving the file is one whole body, sealed
      from the first rewrite on, and it parses to the committed rewrites applied
      in lock order if and only if each of them names an account without ':' and
      newline, and not the empty one. */
  lemma NoLostUpdateIff(host: Host, first: Option<string>, es: seq<Event>)
    requires Works(host.crypto) && Legal(host, Start(first), es) && Readable(host, Start(first), es)
    ensures var w := Run(host, Start(first), es);
            && (Contents(host, w.file) == ApplyAll(w.committed, Contents(host, first)) <==> AllGood(w.committed))
            && Whole(host, first, w) && (w.committed != [] ==> !HasLegacy(w.file.value))
  {
    RunKeeps(host, first, Start(first), es);
    var w := Run(host, Start(first), es);
    if w.committed != [] {
      var m :| IsText(host, w.file.value, m);
      TextIsSealed(host, w.file.value, m);
    }
    if !AllGood(w.committed) {
      var k :| 0 <= k < |w.committed| && !GoodJob(w.committed[k]);
      ChangedStays(w.committed, Contents(host, first), k);
      ContentsGood(host, w.file);
    }
  }

  /** A name that is not: the change is committed and not in the file. */
  lemma BadNameExample(host: Host, next: Draft)
    requires Works(host.crypto) && Lists(next.order, map["a:b" := "y"])
    ensures var w := Run(host, Start(None), Alone(1, "a:b", "y", true, next, |Text(host, next)|));
            w.committed == [SetPassword("a:b", "y")] && "a:b" !in Contents(host, w.file)
  {
    AloneCommits(host, None, 1, "a:b", "y", true, next);
    ContentsGood(host, Some(Text(host, next)));
    assert "a:b"[1] == ':';
  }

  /** An account keeps the password of its last committed change. */
  lemma {:induction false} LastChangeWins(jobs: seq<Job>, m: Accounts, k: nat)
    requires k < |jobs| && jobs[k].SetPassword?
    requires forall i :: k < i < |jobs| && jobs[i].SetPassword? ==> jobs[i].user != jobs[k].user
    ensures jobs[k].user in ApplyAll(jobs, m) && ApplyAll(jobs, m)[jobs[k].user] == jobs[k].password
    decreases |jobs|
  {
    if k < |jobs| - 1 {
      LastChangeWins(jobs[..|jobs| - 1], m, k);
    }
  }

  /** A rewrite that fails leaves the file as it was, the lock free and no
      temporary file; one that dies leaves its temporary file, and the kernel
      frees the lock. */
  lemma FailureLeavesNothing(host: Host, w: World, p: Pid, died: bool)
    requires OneWriter(w) && !PhaseOf(w, p).Idle?
    ensures var after := Step(host, w, if died then Crash(p) else Fail(p));
            && after.file == w.file && after.committed == w.committed && after.lock.None? && PhaseOf(after, p).Idle?
            && (died ==> after.temps == w.temps) && (!died ==> after.temps == w.temps - {p})
  {
  }

  // ----- A read that fails -----

  /** The rewrite of one process alone. */
  function Rewrite(p: Pid, job: Job, ok: bool, d: Draft, size: nat): seq<Event> {
    [Acquire(p, job), Read(p, ok), Open(p, d), Append(p, size), Rename(p), Release(p)]
  }

  function Alone(p: Pid, user: string, password: string, ok: bool, d: Draft, size: nat): seq<Event> {
    Rewrite(p, SetPassword(user, password), ok, d, size)
  }

  /** A migration finds something to do: a store it can read, with passwords in
      the clear. */
  predicate Needed(first: Option<string>, ok: bool) { ok && first.Some? && HasLegacy(first.value) }

  /** Taking an unreadable store for an empty one loses nothing exactly when no
      other account is in it. */
  lemma FailedReadIff(host: Host, w: World, p: Pid, user: string, password: string)
    requires PhaseOf(w, p) == Locked(SetPassword(user, password))
    ensures var read := PhaseOf(Step(host, w, Read(p, false)), p);
            && read.Loaded?
            && (Apply(read.job, read.accounts) == Apply(read.job, Contents(host, w.file))
                <==> Contents(host, w.file).Keys <= {user})
  {
    var m := Contents(host, w.file);
    var none: Accounts := map[];
    assert none[user := password].Keys == {user} && m[user := password].Keys == m.Keys + {user};
    if m.Keys <= {user} {
      assert none[user := password] == m[user := password];
    }
  }

  lemma RunTwo(host: Host, w: World, e: Event, f: Event, es: seq<Event>)
    ensures Run(host, w, [e, f] + es) == Run(host, Step(host, Step(host, w, e), f), es)
  {
    assert ([e, f] + es)[1..] == [f] + es && ([f] + es)[1..] == es;
  }

  ghost predicate At(w: World, p: Pid, phase: Phase) { PhaseOf(w, p) == phase && w.lock == Some(p) && w.committed == [] }

  lemma AloneLoads(host: Host, first: Option<string>, p: Pid, job: Job, ok: bool)
    requires job.SetPassword? || Needed(first, ok)
    ensures At(Step(host, Step(host, Start(first), Acquire(p, job)), Read(p, ok)), p,
               Loaded(job, if ok then Contents(host, first) else map[]))
  {
  }

  lemma AloneWrites(host: Host, w: World, p: Pid, job: Job, m: Accounts, d: Draft)
    requires At(w, p, Loaded(job, m))
    ensures var after := Step(host, Step(host, w, Open(p, d)), Append(p, |Text(host, d)|));
            At(after, p, Writing(job, Text(host, d))) && p in after.temps && after.temps[p] == Text(host, d)
  {
    var body := Text(host, d);
    assert body[..|body|] == body;
  }

  lemma AloneRenames(host: Host, w: World, p: Pid, job: Job, body: string)
    requires At(w, p, Writing(job, body)) && p in w.temps && w.temps[p] == body
    ensures var after := Step(host, Step(host, w, Rename(p)), Release(p));
            after.file == Some(body) && after.committed == [job] && after.lock.None?
  {
  }

  /** Alone, a rewrite puts its draft in the file and itself on record, and
      leaves the lock free. */
  lemma RewriteCommits(host: Host, first: Option<string>, p: Pid, job: Job, ok: bool, d: Draft)
    requires job.SetPassword? || Needed(first, ok)
    ensures var w := Run(host, Start(first), Rewrite(p, job, ok, d, |Text(host, d)|));
            w.file == Some(Text(host, d)) && w.committed == [job] && w.lock.None?
  {
    var body, es := Text(host, d), Rewrite(p, job, ok, d, |Text(host, d)|);
    assert es == [es[0], es[1]] + ([es[2], es[3]] + ([es[4], es[5]] + []));
    var w0 := Start(first);
    RunTwo(host, w0, es[0], es[1], [es[2], es[3]] + ([es[4], es[5]] + []));
    AloneLoads(host, first, p, job, ok);
    var w2 := Step(host, Step(host, w0, es[0]), es[1]);
    RunTwo(host, w2, es[2], es[3], [es[4], es[5]] + []);
    AloneWrites(host, w2, p, job, if ok then Contents(host, first) else map[], d);
    var w4 := Step(host, Step(host, w2, es[2]), es[3]);
    RunTwo(host, w4, es[4], es[5], []);
    AloneRenames(host, w4, p, job, body);
  }

  lemma AloneCommits(host: Host, first: Option<string>, p: Pid, user: string, password: string, ok: bool, d: Draft)
    ensures var w := Run(host, Start(first), Alone(p, user, password, ok, d, |Text(host, d)|));
            w.file == Some(Text(host, d)) && w.committed == [SetPassword(user, password)]
  {
    RewriteCommits(host, first, p, SetPassword(user, password), ok, d);
  }

  /** With nothing to do, a migration ends at its read. */
  lemma MigrationStops(host: Host, first: Option<string>, p: Pid, ok: bool, d: Draft, size: nat)
    requires !Needed(first, ok)
    ensures var w := Run(host, Start(first), Rewrite(p, Migrate, ok, d, size));
            w.file == first && w.committed == [] && w.lock.None?
  {
    var es := Rewrite(p, Migrate, ok, d, size);
    assert es == [es[0], es[1]] + ([es[2], es[3]] + ([es[4], es[5]] + []));
    var w0 := Start(first);
    RunTwo(host, w0, es[0], es[1], [es[2], es[3]] + ([es[4], es[5]] + []));
    var w2 := Step(host, Step(host, w0, es[0]), es[1]);
    assert PhaseOf(w2, p).Idle? && w2.lock.None? && w2.file == first && w2.committed == [];
    RunTwo(host, w2, es[2], es[3], [es[4], es[5]] + []);
    RunTwo(host, w2, es[4], es[5], []);
  }

  /** One process migrating alone: it rewrites the store if and only if it can
      read it and it holds passwords in the clear; what it leaves then is sealed
      and holds the same accounts. */
  lemma MigrationSealsIff(host: Host, first: Option<string>, p: Pid, ok: bool, d: Draft)
    requires Works(host.crypto) && Lists(d.order, Contents(host, first))
    ensures var w := Run(host, Start(first), Rewrite(p, Migrate, ok, d, |Text(host, d)|));
            && w.lock.None? && Contents(host, w.file) == Contents(host, first)
            && (w.committed == [Migrate] <==> ok && first.Some? && HasLegacy(first.value))
            && (w.committed == [Migrate] ==> w.file.Some? && !HasLegacy(w.file.value))
            && (w.committed != [Migrate] ==> w.file == first)
  {
    if Needed(first, ok) {
      RewriteCommits(host, first, p, Migrate, ok, d);
      ContentsGood(host, first);
      TextParses(host, Text(host, d), Contents(host, first));
      TextIsSealed(host, Text(host, d), Contents(host, first));
    } else {
      MigrationStops(host, first, p, ok, d, |Text(host, d)|);
    }
  }

  /** A password set while the store cannot be read leaves that account alone in
      it: what was there is lost. */
  lemma FailedReadLoses(host: Host, m: Accounts, user: string, password: string, draft: Draft, next: Draft)
    requires Works(host.crypto) && GoodNames(m) && Lists(draft.order, m)
    requires GoodName(user) && Lists(next.order, map[user := password])
    ensures var first := Some(Text(host, draft));
            var w := Run(host, Start(first), Alone(1, user, password, false, next, |Text(host, next)|));
            && Contents(host, first) == m && Contents(host, w.file) == map[user := password]
            && w.committed == [SetPassword(user, password)]
  {
    var first := Some(Text(host, draft));
    AloneCommits(host, first, 1, user, password, false, next);
    TextParses(host, Text(host, draft), m);
    TextParses(host, Text(host, next), map[user := password]);
  }

  /** For instance, any store holding another account. */
  lemma FailedReadForgets(host: Host, m: Accounts, other: string, user: string, password: string, draft: Draft, next: Draft)
    requires Works(host.crypto) && GoodNames(m) && GoodName(user) && other in m && other != user
    requires Lists(draft.order, m) && Lists(next.order, map[user := password])
    ensures var first := Some(Text(host, draft));
            var w := Run(host, Start(first), Alone(1, user, password, false, next, |Text(host, next)|));
            Contents(host, w.file) != ApplyAll(w.committed, Contents(host, first))
  {
    FailedReadLoses(host, m, user, password, draft, next);
    ApplyAllNext([], SetPassword(user, password), m);
    assert other in m[user := password];
  }

  /** A store holding "ada", and "bob" set while it is unreadable. */
  lemma FailedReadExample(host: Host, m: Accounts, user: string, draft: Draft, next: Draft)
    requires Works(host.crypto) && m == map["ada" := "x"] && user == "bob"
    requires Lists(draft.order, m) && Lists(next.order, map[user := "y"])
    ensures var first := Some(Text(host, draft));
            var w := Run(host, Start(first), Alone(1, user, "y", false, next, |Text(host, next)|));
            Contents(host, w.file) != ApplyAll(w.committed, Contents(host, first))
  {
    FailedReadForgets(host, m, "ada", user, "y", draft, next);
  }
}
