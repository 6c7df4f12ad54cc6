/**
 Pasting files from the client (linrdp/src/clipboard.rs: `Download`,
 `on_file_contents_response`, `on_remote_file_list`).
 */
module Downloads {
  import opened Prelude

  const FILE_CHUNK_SIZE: nat := 524288
  const MAX_FILE_SIZE: nat := 2147483648
  const MAX_TOTAL_SIZE: nat := 4294967296

  /** An absolute path, by component. */
  type Path = seq<string>

  /** One entry of the client's list; `path` is None for an unsafe name. */
  datatype Descriptor = Descriptor(path: Option<Path>, directory: bool, size: Option<nat>)

  datatype Target = Target(index: nat, path: Path, size: Option<nat>)

  /** `file` is what has been written to the open file. */
  datatype Current =
    | SizeQuery(index: nat, path: Path)
    | Ranges(index: nat, path: Path, remaining: nat, offset: nat, file: seq<byte>)

  /** A size taken out of the budget, and a file that entered `done`. */
  datatype Admission = Admission(index: nat, size: nat)
  datatype Stored = Stored(index: nat, path: Path, file: seq<byte>)
  /** `asked` counts the stream ids allocated. */
  datatype History = History(admitted: seq<Admission>, stored: seq<Stored>, asked: nat)

  datatype Transfer = Transfer(streamId: nat, nextStreamId: nat, pending: seq<Target>, current: Option<Current>,
                               done: seq<Path>, budget: nat, live: bool, history: History)

  /** Outcomes of the file helper during one call; creations are told apart by
      how many files were pending at the time. */
  datatype Io = Io(creates: nat -> bool, writes: bool)

  // ----- The machine -----

  /** `wrapping_add(1)` on 32 bits. */
  function NextId(id: nat): nat { if id >= 0xFFFF_FFFF then 0 else id + 1 }

  function Fresh(t: Transfer): Transfer {
    t.(streamId := NextId(t.nextStreamId), nextStreamId := NextId(t.nextStreamId),
       history := t.history.(asked := t.history.asked + 1))
  }

  function Land(t: Transfer, index: nat, path: Path, file: seq<byte>): Transfer {
    t.(done := t.done + [path], current := None,
       history := t.history.(stored := t.history.stored + [Stored(index, path, file)]))
  }

  function Admit(t: Transfer, index: nat, path: Path, size: nat): Transfer
    requires size <= t.budget
  {
    t.(budget := t.budget - size, current := Some(Ranges(index, path, size, 0, [])),
       history := t.history.(admitted := t.history.admitted + [Admission(index, size)]))
  }

  /** What `advance` does with one target taken off the queue. */
  function Start(t: Transfer, next: Target, creates: bool): Transfer
    requires t.current.None?
  {
    if next.size.None? then Fresh(t).(current := Some(SizeQuery(next.index, next.path)))
    else if next.size.value == 0 then if creates then Land(t, next.index, next.path, []) else t
    else if next.size.value > MAX_FILE_SIZE || next.size.value > t.budget || !creates then t
    else Admit(Fresh(t), next.index, next.path, next.size.value)
  }

  function Advance(t: Transfer, creates: nat -> bool): Transfer
    decreases |t.pending|
  {
    if t.current.Some? then t
    else if t.pending == [] then t.(live := false)
    else Advance(Start(t.(pending := t.pending[1..]), t.pending[0], creates(|t.pending| - 1)), creates)
  }

  datatype Request = SizeRequest(streamId: nat, index: nat)
                   | RangeRequest(streamId: nat, index: nat, position: nat, requested: nat)

  function RequestFor(t: Transfer): Option<Request> {
    match t.current
    case None => None
    case Some(SizeQuery(index, _)) => Some(SizeRequest(t.streamId, index))
    case Some(Ranges(index, _, remaining, offset, _)) =>
      Some(RangeRequest(t.streamId, index, offset, Min(FILE_CHUNK_SIZE, remaining)))
  }

  /** A response; `data` is None when its fail flag is set. */
  datatype Response = Response(streamId: nat, data: Option<seq<byte>>)

  function LittleEndian(bytes: seq<byte>): nat {
    if bytes == [] then 0 else bytes[0] + 256 * LittleEndian(bytes[1..])
  }

  /** `data_as_size`: exactly eight bytes. */
  function AsSize(data: seq<byte>): Option<nat> {
    if |data| == 8 then Some(LittleEndian(data)) else None
  }

  function ToLittleEndian(n: nat, width: nat): seq<byte>
    decreases width
  {
    if width == 0 then [] else [n % 256] + ToLittleEndian(n / 256, width - 1)
  }

  function Pow256(width: nat): nat { if width == 0 then 1 else 256 * Pow256(width - 1) }

  /** A size this side sends as `to_le_bytes` is the one read on the other. */
  lemma {:induction false} SizeRoundTrip(n: nat, width: nat)
    requires n < Pow256(width)
    ensures |ToLittleEndian(n, width)| == width && LittleEndian(ToLittleEndian(n, width)) == n
    ensures width == 8 ==> AsSize(ToLittleEndian(n, width)) == Some(n)
    decreases width
  {
    if width > 0 {
      SizeRoundTrip(n / 256, width - 1);
      assert ToLittleEndian(n, width)[1..] == ToLittleEndian(n / 256, width - 1);
    }
  }

  function SizeAnswer(t: Transfer, data: seq<byte>, creates: bool): Transfer
    requires t.current.Some? && t.current.value.SizeQuery?
  {
    var c, size := t.current.value, AsSize(data);
    if size.Some? && size.value == 0 && creates then Land(t, c.index, c.path, [])
    else if size.Some? && 0 < size.value <= MAX_FILE_SIZE && size.value <= t.budget && creates then
      Admit(t, c.index, c.path, size.value)
    else t.(current := None)
  }

  function RangeAnswer(t: Transfer, data: seq<byte>, writes: bool): Transfer
    requires t.current.Some? && t.current.value.Ranges?
  {
    var c := t.current.value;
    var take := Min(|data|, c.remaining);
    if take == 0 || !writes then t.(current := None)
    else
      var file := c.file + data[..take];
      if take == c.remaining then Land(t, c.index, c.path, file)
      else t.(current := Some(c.(remaining := c.remaining - take, offset := c.offset + take, file := file)))
  }

  predicate Accepts(t: Transfer, r: Response) {
    t.live && r.streamId == t.streamId && (r.data.None? || t.current.Some?)
  }

  function Answer(t: Transfer, data: Option<seq<byte>>, io: Io): Transfer
    requires data.None? || t.current.Some?
  {
    if data.None? then t.(current := None)
    else if t.current.value.SizeQuery? then SizeAnswer(t, data.value, io.creates(|t.pending|))
    else RangeAnswer(t, data.value, io.writes)
  }

  function Respond(t: Transfer, r: Response, io: Io): Transfer {
    if Accepts(t, r) then Advance(Answer(t, r.data, io), io.creates) else t
  }

  /** What the descriptor list leads to: the paths waited for, the directories
      made, the files to fetch. */
  function Expected(files: seq<Descriptor>): seq<Path> {
    if files == [] then []
    else
      var front, last := files[..|files| - 1], files[|files| - 1];
      Expected(front) + if last.path.Some? then [last.path.value] else []
  }

  function Directories(files: seq<Descriptor>, makes: nat -> bool): seq<Path> {
    if files == [] then []
    else
      var front, last := files[..|files| - 1], files[|files| - 1];
      Directories(front, makes)
      + if last.path.Some? && last.directory && makes(|front|) then [last.path.value] else []
  }

  function Targets(files: seq<Descriptor>): seq<Target> {
    if files == [] then []
    else
      var front, last := files[..|files| - 1], files[|files| - 1];
      Targets(front)
      + if last.path.Some? && !last.directory then [Target(|front|, last.path.value, last.size)] else []
  }

  function Opening(files: seq<Descriptor>, makes: nat -> bool): Transfer {
    Transfer(0, 1, Targets(files), None, Directories(files, makes), MAX_TOTAL_SIZE, true, History([], [], 0))
  }

  datatype Event = Event(response: Response, io: Io)

  function Run(t: Transfer, es: seq<Event>): Transfer
    decreases |es|
  {
    if es == [] then t else Run(Respond(t, es[0].response, es[0].io), es[1..])
  }

  // ----- What every reachable state satisfies -----

  function Total(admitted: seq<Admission>): nat {
    if admitted == [] then 0 else Total(admitted[..|admitted| - 1]) + admitted[|admitted| - 1].size
  }

  function Paths(stored: seq<Stored>): seq<Path> { seq(|stored|, i requires 0 <= i < |stored| => stored[i].path) }

  /** `index` and `path` are those of a listed file. */
  predicate Lists(files: seq<Descriptor>, index: nat, path: Path) {
    index < |files| && files[index].path == Some(path) && !files[index].directory
  }

  predicate CurrentSound(t: Transfer, files: seq<Descriptor>) {
    match t.current
    case None => true
    case Some(SizeQuery(index, path)) => Lists(files, index, path)
    case Some(Ranges(index, path, remaining, offset, file)) =>
      && Lists(files, index, path) && remaining > 0 && |file| == offset
      && var admitted := t.history.admitted;
         admitted != [] && admitted[|admitted| - 1] == Admission(index, offset + remaining)
  }

  predicate StoredSound(s: Stored, files: seq<Descriptor>, admitted: seq<Admission>) {
    && Lists(files, s.index, s.path)
    && if s.file == [] then files[s.index].size.None? || files[s.index].size == Some(0)
       else Admission(s.index, |s.file|) in admitted
  }

  predicate AdmissionSound(a: Admission, files: seq<Descriptor>) {
    && a.index < |files| && 0 < a.size <= MAX_FILE_SIZE
    && (files[a.index].size.None? || files[a.index].size == Some(a.size))
  }

  ghost predicate HistorySound(h: History, files: seq<Descriptor>) {
    && (forall i :: 0 <= i < |h.stored| ==> StoredSound(h.stored[i], files, h.admitted))
    && forall i :: 0 <= i < |h.admitted| ==> AdmissionSound(h.admitted[i], files)
  }

  predicate TargetSound(next: Target, files: seq<Descriptor>) {
    Lists(files, next.index, next.path) && next.size == files[next.index].size
  }

  ghost predicate PendingSound(pending: seq<Target>, files: seq<Descriptor>) {
    forall i :: 0 <= i < |pending| ==> TargetSound(pending[i], files)
  }

  ghost predicate SizeQueryOpen(t: Transfer, files: seq<Descriptor>) {
    t.current.Some? && t.current.value.SizeQuery? ==>
      t.current.value.index < |files| && files[t.current.value.index].size.None?
  }

  /** Holds between the steps of one call. */
  ghost predicate Consistent(t: Transfer, files: seq<Descriptor>, dirs: seq<Path>) {
    && t.budget + Total(t.history.admitted) == MAX_TOTAL_SIZE && t.done == dirs + Paths(t.history.stored)
    && CurrentSound(t, files) && SizeQueryOpen(t, files) && HistorySound(t.history, files)
    && PendingSound(t.pending, files) && Counted(t)
  }

  /** The id after `n` allocations of one download. */
  function IdAfter(n: nat): nat { if n == 0 then 1 else NextId(IdAfter(n - 1)) }

  predicate Counted(t: Transfer) {
    && t.nextStreamId == IdAfter(t.history.asked) && (t.current.Some? ==> t.history.asked > 0)
    && (t.history.asked > 0 ==> t.streamId == t.nextStreamId)
  }

  ghost predicate Sound(t: Transfer, files: seq<Descriptor>, dirs: seq<Path>) {
    Consistent(t, files, dirs) && (t.live <==> t.current.Some?) && (!t.live ==> t.pending == [])
  }

  /** Responses a transfer can still take. */
  function Potential(t: Transfer): nat {
    2 * |t.pending| + t.budget
    + match t.current
      case None => 0
      case Some(SizeQuery(_, _)) => 2
      case Some(Ranges(_, _, remaining, _, _)) => remaining + 1
  }

  lemma LandConsistent(t: Transfer, files: seq<Descriptor>, dirs: seq<Path>, index: nat, path: Path, file: seq<byte>)
    requires Consistent(t, files, dirs) && StoredSound(Stored(index, path, file), files, t.history.admitted)
    ensures Consistent(Land(t, index, path, file), files, dirs)
  {
    assert Paths(t.history.stored + [Stored(index, path, file)]) == Paths(t.history.stored) + [path];
  }

  lemma AdmitConsistent(t: Transfer, files: seq<Descriptor>, dirs: seq<Path>, index: nat, path: Path, size: nat)
    requires Consistent(t, files, dirs) && size <= t.budget && Lists(files, index, path) && t.history.asked > 0
    requires t.streamId == t.nextStreamId
    requires AdmissionSound(Admission(index, size), files)
    ensures Consistent(Admit(t, index, path, size), files, dirs)
  {
    var admitted := t.history.admitted + [Admission(index, size)];
    assert admitted[..|admitted| - 1] == t.history.admitted;
  }

  lemma StartConsistent(t: Transfer, files: seq<Descriptor>, dirs: seq<Path>, next: Target, creates: bool)
    requires Consistent(t, files, dirs) && t.current.None? && TargetSound(next, files)
    ensures Consistent(Start(t, next, creates), files, dirs)
    ensures Potential(Start(t, next, creates)) <= Potential(t) + 2
  {
    if next.size.Some? {
      if next.size.value == 0 {
        LandConsistent(t, files, dirs, next.index, next.path, []);
      } else if next.size.value <= MAX_FILE_SIZE && next.size.value <= t.budget {
        AdmitConsistent(Fresh(t), files, dirs, next.index, next.path, next.size.value);
      }
    }
  }

  lemma {:induction false} AdvanceSound(t: Transfer, files: seq<Descriptor>, dirs: seq<Path>, creates: nat -> bool)
    requires Consistent(t, files, dirs) && t.live
    ensures Sound(Advance(t, creates), files, dirs) && Potential(Advance(t, creates)) <= Potential(t)
    decreases |t.pending|
  {
    if t.current.None? && t.pending != [] {
      var popped := t.(pending := t.pending[1..]);
      StartConsistent(popped, files, dirs, t.pending[0], creates(|t.pending| - 1));
      AdvanceSound(Start(popped, t.pending[0], creates(|t.pending| - 1)), files, dirs, creates);
    }
  }

  lemma SizeAnswerConsistent(t: Transfer, files: seq<Descriptor>, dirs: seq<Path>, data: seq<byte>, creates: bool)
    requires Consistent(t, files, dirs) && t.current.Some? && t.current.value.SizeQuery?
    ensures Consistent(SizeAnswer(t, data, creates), files, dirs)
    ensures Potential(SizeAnswer(t, data, creates)) < Potential(t)
  {
    var c, size := t.current.value, AsSize(data);
    if size.Some? {
      if size.value == 0 {
        LandConsistent(t, files, dirs, c.index, c.path, []);
      } else if size.value <= MAX_FILE_SIZE && size.value <= t.budget {
        AdmitConsistent(t, files, dirs, c.index, c.path, size.value);
      }
    }
  }

  lemma RangeAnswerConsistent(t: Transfer, files: seq<Descriptor>, dirs: seq<Path>, data: seq<byte>, writes: bool)
    requires Consistent(t, files, dirs) && t.current.Some? && t.current.value.Ranges?
    ensures Consistent(RangeAnswer(t, data, writes), files, dirs)
    ensures Potential(RangeAnswer(t, data, writes)) < Potential(t)
  {
    var c := t.current.value;
    if |data| >= c.remaining {
      LandConsistent(t, files, dirs, c.index, c.path, c.file + data[..c.remaining]);
    }
  }

  /** Every response keeps the invariant; an accepted one uses up potential. */
  lemma RespondSound(t: Transfer, files: seq<Descriptor>, dirs: seq<Path>, r: Response, io: Io)
    requires Sound(t, files, dirs)
    ensures Sound(Respond(t, r, io), files, dirs)
    ensures if Accepts(t, r) then Potential(Respond(t, r, io)) < Potential(t) else Respond(t, r, io) == t
  {
    if Accepts(t, r) {
      if r.data.Some? {
        if t.current.value.SizeQuery? {
          SizeAnswerConsistent(t, files, dirs, r.data.value, io.creates(|t.pending|));
        } else {
          RangeAnswerConsistent(t, files, dirs, r.data.value, io.writes);
        }
      }
      AdvanceSound(Answer(t, r.data, io), files, dirs, io.creates);
    }
  }

  /** A RANGE request asks for one byte up to a chunk of what is missing, right
      behind what is written. */
  lemma RequestBounds(t: Transfer, files: seq<Descriptor>, dirs: seq<Path>)
    requires Sound(t, files, dirs) && t.live && t.current.value.Ranges?
    ensures var c, last := t.current.value, t.history.admitted[|t.history.admitted| - 1];
            exists n: nat :: RequestFor(t) == Some(RangeRequest(t.streamId, c.index, |c.file|, n))
                        && 1 <= n <= 524288 && |c.file| + n <= last.size && last.index == c.index
                        && (n < 524288 ==> |c.file| + n == last.size)
  {
    assert RequestFor(t) == Some(RangeRequest(t.streamId, t.current.value.index, |t.current.value.file|,
                                              Min(FILE_CHUNK_SIZE, t.current.value.remaining)));
  }

  lemma {:induction false} OpeningConsistent(files: seq<Descriptor>, makes: nat -> bool)
    ensures Consistent(Opening(files, makes), files, Directories(files, makes))
  {
    TargetsListed(files, |files|);
    assert files[..|files|] == files;
    assert Directories(files, makes) + Paths([]) == Directories(files, makes);
  }

  lemma {:induction false} TargetsListed(files: seq<Descriptor>, n: nat)
    requires n <= |files|
    ensures PendingSound(Targets(files[..n]), files) && |Targets(files[..n])| <= n
  {
    if n > 0 {
      assert files[..n][..n - 1] == files[..n - 1];
      TargetsListed(files, n - 1);
    }
  }

  function Accepted(t: Transfer, es: seq<Event>): nat
    decreases |es|
  {
    if es == [] then 0
    else (if Accepts(t, es[0].response) then 1 else 0) + Accepted(Respond(t, es[0].response, es[0].io), es[1..])
  }

  lemma {:induction false} RunSound(t: Transfer, files: seq<Descriptor>, dirs: seq<Path>, es: seq<Event>)
    requires Sound(t, files, dirs)
    ensures Sound(Run(t, es), files, dirs) && Accepted(t, es) + Potential(Run(t, es)) <= Potential(t)
    decreases |es|
  {
    if es != [] {
      RespondSound(t, files, dirs, es[0].response, es[0].io);
      RunSound(Respond(t, es[0].response, es[0].io), files, dirs, es[1..]);
    }
  }

  /** From any list, in every run: the invariant, and at most 2^32 responses
      plus two per entry. */
  lemma DownloadSafe(files: seq<Descriptor>, makes: nat -> bool, creates: nat -> bool, es: seq<Event>)
    ensures var t := Advance(Opening(files, makes), creates);
            Sound(Run(t, es), files, Directories(files, makes)) && Accepted(t, es) <= 2 * |files| + 4294967296
  {
    OpeningConsistent(files, makes);
    TargetsListed(files, |files|);
    assert files[..|files|] == files;
    AdvanceSound(Opening(files, makes), files, Directories(files, makes), creates);
    RunSound(Advance(Opening(files, makes), creates), files, Directories(files, makes), es);
  }

  // ----- Late responses of a replaced download -----

  lemma {:induction false} IdAfterIsMod(n: nat)
    ensures IdAfter(n) == (1 + n) % 0x1_0000_0000
  {
    if n > 0 {
      IdAfterIsMod(n - 1);
      NextIdWraps(n);
    }
  }

  lemma NextIdWraps(a: nat)
    ensures NextId(a % 0x1_0000_0000) == (1 + a) % 0x1_0000_0000
  {
    var q, r := a / 0x1_0000_0000, a % 0x1_0000_0000;
    assert a == 0x1_0000_0000 * q + r;
    if r == 0xFFFF_FFFF {
      assert 1 + a == 0x1_0000_0000 * (q + 1);
    }
  }

  /** Every list starts its ids afresh. A late answer to the last request of a
      replaced download is taken for the current one's if and only if both have
      asked for the same number of files, modulo 2^32. */
  lemma LateAnswerAcceptedIff(gone: Transfer, goneFiles: seq<Descriptor>, goneDirs: seq<Path>,
                              t: Transfer, files: seq<Descriptor>, dirs: seq<Path>, r: Response)
    requires Sound(gone, goneFiles, goneDirs) && gone.live && r.streamId == gone.streamId
    requires Sound(t, files, dirs) && t.live
    ensures Accepts(t, r) <==> t.history.asked % 0x1_0000_0000 == gone.history.asked % 0x1_0000_0000
  {
    IdAfterIsMod(gone.history.asked);
    IdAfterIsMod(t.history.asked);
    SameShifted(gone.history.asked, t.history.asked);
  }

  lemma SameShifted(a: nat, b: nat)
    ensures (1 + a) % 0x1_0000_0000 == (1 + b) % 0x1_0000_0000 <==> a % 0x1_0000_0000 == b % 0x1_0000_0000
  {
  }

  function OneFile(path: Path): seq<Descriptor> { [Descriptor(Some(path), false, Some(1))] }

  /** For instance: one file replaced by another, and the late byte of the first
      ends up as the content of the second. */
  lemma LateAnswerExample(a: Path, b: Path, always: nat -> bool)
    requires forall n :: always(n)
    ensures var gone := Advance(Opening(OneFile(a), always), always);
            var t := Advance(Opening(OneFile(b), always), always);
            var late := Response(gone.streamId, Some([7]));
            && gone.live && t.live && Accepts(t, late)
            && Respond(t, late, Io(always, true)).history.stored == [Stored(0, b, [7])]
  {
    OneFileAsks(a, always);
    OneFileAsks(b, always);
    var t := Advance(Opening(OneFile(b), always), always);
    assert [] + [7][..1] == [7];
  }

  lemma OneFileAsks(path: Path, always: nat -> bool)
    requires forall n :: always(n)
    ensures Advance(Opening(OneFile(path), always), always)
            == Transfer(2, 2, [], Some(Ranges(0, path, 1, 0, [])), [], MAX_TOTAL_SIZE - 1, true,
                        History([Admission(0, 1)], [], 1))
  {
    OneFileOpens(path, always);
    assert always(0);
    FirstAdvance(Opening(OneFile(path), always), path, always);
  }

  lemma OneFileOpens(path: Path, always: nat -> bool)
    ensures Targets(OneFile(path)) == [Target(0, path, Some(1))] && Directories(OneFile(path), always) == []
  {
    var files := OneFile(path);
    assert files[..0] == [] && Targets([]) == [] && Directories([], always) == [];
    assert files[..|files| - 1] == [];
  }

  lemma FirstAdvance(t: Transfer, path: Path, always: nat -> bool)
    requires t.current.None? && t.pending == [Target(0, path, Some(1))] && always(0) && t.budget >= 1
    ensures Advance(t, always) == Admit(Fresh(t.(pending := [])), 0, path, 1)
  {
    assert t.pending[1..] == [];
  }

  // ----- An honest client -----

  /** The client's files by index; listed sizes are true. */
  ghost predicate Describes(files: seq<Descriptor>, contents: seq<seq<byte>>) {
    |contents| == |files| && forall i :: 0 <= i < |files| && files[i].size.Some? ==> files[i].size.value == |contents[i]|
  }

  /** A data response that tells the truth about the outstanding request. */
  predicate Honest(t: Transfer, data: seq<byte>, contents: seq<seq<byte>>)
    requires t.current.Some?
  {
    var c := t.current.value;
    && c.index < |contents|
    && if c.SizeQuery? then AsSize(data) == Some(|contents[c.index]|)
       else c.offset <= |contents[c.index]| && data <= contents[c.index][c.offset..]
  }

  ghost predicate Faithful(t: Transfer, contents: seq<seq<byte>>) {
    && (t.current.Some? && t.current.value.Ranges? ==>
          var c := t.current.value;
          c.index < |contents| && c.offset + c.remaining == |contents[c.index]| && c.file == contents[c.index][..c.offset])
    && forall i :: 0 <= i < |t.history.stored| ==>
         t.history.stored[i].index < |contents| && t.history.stored[i].file == contents[t.history.stored[i].index]
  }

  lemma {:induction false} AdvanceFaithful(t: Transfer, files: seq<Descriptor>, contents: seq<seq<byte>>,
                                           creates: nat -> bool)
    requires Describes(files, contents) && PendingSound(t.pending, files) && Faithful(t, contents)
    ensures Faithful(Advance(t, creates), contents)
    decreases |t.pending|
  {
    if t.current.None? && t.pending != [] {
      assert TargetSound(t.pending[0], files);
      var started := Start(t.(pending := t.pending[1..]), t.pending[0], creates(|t.pending| - 1));
      AdvanceFaithful(started, files, contents, creates);
    }
  }

  lemma AnswerFaithful(t: Transfer, contents: seq<seq<byte>>, data: Option<seq<byte>>, io: Io)
    requires Faithful(t, contents) && (data.Some? ==> t.current.Some? && Honest(t, data.value, contents))
    ensures Faithful(Answer(t, data, io), contents)
  {
    if data.Some? && t.current.value.Ranges? {
      RangeFaithful(t, contents, data.value, io.writes);
    }
  }

  lemma RangeFaithful(t: Transfer, contents: seq<seq<byte>>, data: seq<byte>, writes: bool)
    requires Faithful(t, contents) && t.current.Some? && t.current.value.Ranges? && Honest(t, data, contents)
    ensures Faithful(RangeAnswer(t, data, writes), contents)
  {
    var c := t.current.value;
    var take := Min(|data|, c.remaining);
    assert c.file + data[..take] == contents[c.index][..c.offset + take];
    assert contents[c.index][..|contents[c.index]|] == contents[c.index];
  }

  ghost predicate HonestRun(t: Transfer, es: seq<Event>, contents: seq<seq<byte>>)
    decreases |es|
  {
    es != [] ==>
      && (Accepts(t, es[0].response) && es[0].response.data.Some? ==> Honest(t, es[0].response.data.value, contents))
      && HonestRun(Respond(t, es[0].response, es[0].io), es[1..], contents)
  }

  lemma {:induction false} RunFaithful(t: Transfer, files: seq<Descriptor>, dirs: seq<Path>, es: seq<Event>,
                                       contents: seq<seq<byte>>)
    requires Sound(t, files, dirs) && Describes(files, contents) && Faithful(t, contents) && HonestRun(t, es, contents)
    ensures Faithful(Run(t, es), contents)
    decreases |es|
  {
    if es != [] {
      var r, io := es[0].response, es[0].io;
      if Accepts(t, r) {
        AnswerFaithful(t, contents, r.data, io);
        AnswerKeepsQueue(t, r.data, io);
        AdvanceFaithful(Answer(t, r.data, io), files, contents, io.creates);
      }
      RespondSound(t, files, dirs, r, io);
      RunFaithful(Respond(t, r, io), files, dirs, es[1..], contents);
    }
  }

  lemma AnswerKeepsQueue(t: Transfer, data: Option<seq<byte>>, io: Io)
    requires data.None? || t.current.Some?
    ensures Answer(t, data, io).pending == t.pending
  {
  }

  // ----- Complete delivery -----

  function StoredOrder(stored: seq<Stored>): seq<nat> {
    seq(|stored|, i requires 0 <= i < |stored| => stored[i].index)
  }

  function TargetOrder(targets: seq<Target>): seq<nat> {
    seq(|targets|, i requires 0 <= i < |targets| => targets[i].index)
  }

  /** The files a transfer has stored or still knows of, in order. */
  function Order(t: Transfer): seq<nat> {
    StoredOrder(t.history.stored) + (if t.current.Some? then [t.current.value.index] else []) + TargetOrder(t.pending)
  }

  function Length(contents: seq<seq<byte>>, index: nat): nat { if index < |contents| then |contents[index]| else 0 }

  /** Each file not yet admitted fits the file limit, together they fit `budget`. */
  predicate Fits(pending: seq<Target>, contents: seq<seq<byte>>, budget: int)
    decreases |pending|
  {
    if pending == [] then budget >= 0
    else
      Length(contents, pending[0].index) <= MAX_FILE_SIZE
      && Fits(pending[1..], contents, budget - Length(contents, pending[0].index))
  }

  predicate Room(t: Transfer, contents: seq<seq<byte>>) {
    if t.current.Some? && t.current.value.SizeQuery? then
      Length(contents, t.current.value.index) <= MAX_FILE_SIZE
      && Fits(t.pending, contents, t.budget - Length(contents, t.current.value.index))
    else Fits(t.pending, contents, t.budget)
  }

  lemma {:induction false} FitsNonNegative(pending: seq<Target>, contents: seq<seq<byte>>, budget: int)
    requires Fits(pending, contents, budget)
    ensures budget >= 0
    decreases |pending|
  {
    if pending != [] {
      FitsNonNegative(pending[1..], contents, budget - Length(contents, pending[0].index));
    }
  }

  lemma StoredOrderNext(stored: seq<Stored>, next: Stored)
    ensures StoredOrder(stored + [next]) == StoredOrder(stored) + [next.index]
  {
  }

  lemma StartDelivers(t: Transfer, files: seq<Descriptor>, contents: seq<seq<byte>>, next: Target)
    requires t.current.None? && Describes(files, contents) && TargetSound(next, files)
    requires Length(contents, next.index) <= MAX_FILE_SIZE
    requires Fits(t.pending, contents, t.budget - Length(contents, next.index))
    ensures Order(Start(t, next, true)) == StoredOrder(t.history.stored) + [next.index] + TargetOrder(t.pending)
    ensures Room(Start(t, next, true), contents) && Start(t, next, true).pending == t.pending
  {
    FitsNonNegative(t.pending, contents, t.budget - Length(contents, next.index));
    StoredOrderNext(t.history.stored, Stored(next.index, next.path, []));
  }

  lemma QueueOrder(t: Transfer)
    requires t.current.None? && t.pending != []
    ensures Order(t) == StoredOrder(t.history.stored) + [t.pending[0].index] + TargetOrder(t.pending[1..])
  {
    assert TargetOrder(t.pending) == [t.pending[0].index] + TargetOrder(t.pending[1..]);
  }

  lemma {:induction false} AdvanceDelivers(t: Transfer, files: seq<Descriptor>, contents: seq<seq<byte>>,
                                           creates: nat -> bool)
    requires Describes(files, contents) && PendingSound(t.pending, files) && Room(t, contents)
    requires forall n :: creates(n)
    ensures Order(Advance(t, creates)) == Order(t) && Room(Advance(t, creates), contents)
    decreases |t.pending|
  {
    if t.current.None? && t.pending != [] {
      var popped, next := t.(pending := t.pending[1..]), t.pending[0];
      assert TargetSound(next, files);
      StartDelivers(popped, files, contents, next);
      QueueOrder(t);
      assert creates(|t.pending| - 1);
      AdvanceDelivers(Start(popped, next, true), files, contents, creates);
    }
  }

  lemma AnswerDelivers(t: Transfer, contents: seq<seq<byte>>, data: seq<byte>, io: Io)
    requires t.current.Some? && Honest(t, data, contents) && Faithful(t, contents) && Room(t, contents)
    requires io.writes && (forall n :: io.creates(n)) && (t.current.value.Ranges? ==> data != [] && t.current.value.remaining > 0)
    ensures Order(Answer(t, Some(data), io)) == Order(t) && Room(Answer(t, Some(data), io), contents)
  {
    var c := t.current.value;
    var landed := Answer(t, Some(data), io);
    if c.SizeQuery? {
      FitsNonNegative(t.pending, contents, t.budget - Length(contents, c.index));
      StoredOrderNext(t.history.stored, Stored(c.index, c.path, []));
    } else if landed.current.None? {
      StoredOrderNext(t.history.stored, landed.history.stored[|landed.history.stored| - 1]);
    }
  }

  /** Nothing fails: the client answers, truthfully, and the helper obliges. */
  ghost predicate SmoothRun(t: Transfer, es: seq<Event>, contents: seq<seq<byte>>)
    decreases |es|
  {
    es != [] ==>
      && (Accepts(t, es[0].response) ==> SmoothEvent(t, es[0], contents))
      && SmoothRun(Respond(t, es[0].response, es[0].io), es[1..], contents)
  }

  ghost predicate SmoothEvent(t: Transfer, e: Event, contents: seq<seq<byte>>) {
    && e.response.data.Some? && t.current.Some? && Honest(t, e.response.data.value, contents)
    && (t.current.value.Ranges? ==> e.response.data.value != []) && e.io.writes && forall n :: e.io.creates(n)
  }

  lemma {:induction false} RunDelivers(t: Transfer, files: seq<Descriptor>, dirs: seq<Path>, es: seq<Event>,
                                       contents: seq<seq<byte>>)
    requires Sound(t, files, dirs) && Describes(files, contents) && Faithful(t, contents) && Room(t, contents)
    requires SmoothRun(t, es, contents)
    ensures Order(Run(t, es)) == Order(t) && Faithful(Run(t, es), contents) && Sound(Run(t, es), files, dirs)
    decreases |es|
  {
    if es != [] {
      var r, io := es[0].response, es[0].io;
      if Accepts(t, r) {
        AnswerDelivers(t, contents, r.data.value, io);
        AnswerFaithful(t, contents, r.data, io);
        AnswerKeepsQueue(t, r.data, io);
        AdvanceDelivers(Answer(t, r.data, io), files, contents, io.creates);
        AdvanceFaithful(Answer(t, r.data, io), files, contents, io.creates);
      }
      RespondSound(t, files, dirs, r, io);
      RunDelivers(Respond(t, r, io), files, dirs, es[1..], contents);
    }
  }

  lemma OpeningDelivers(files: seq<Descriptor>, makes: nat -> bool, creates: nat -> bool, contents: seq<seq<byte>>)
    requires Describes(files, contents) && Fits(Targets(files), contents, MAX_TOTAL_SIZE) && forall n :: creates(n)
    ensures var t := Advance(Opening(files, makes), creates);
            && Sound(t, files, Directories(files, makes)) && Faithful(t, contents) && Room(t, contents)
            && Order(t) == TargetOrder(Targets(files))
  {
    var opening := Opening(files, makes);
    OpeningConsistent(files, makes);
    AdvanceSound(opening, files, Directories(files, makes), creates);
    AdvanceFaithful(opening, files, contents, creates);
    AdvanceDelivers(opening, files, contents, creates);
    assert Order(opening) == TargetOrder(Targets(files));
  }

  lemma FinishedOrder(t: Transfer, files: seq<Descriptor>, dirs: seq<Path>)
    requires Sound(t, files, dirs) && !t.live
    ensures Order(t) == StoredOrder(t.history.stored)
  {
  }

  /** A smooth run over a list within the limits stores every listed file, in
      list order, with the client's bytes. */
  lemma DownloadDelivers(files: seq<Descriptor>, makes: nat -> bool, creates: nat -> bool, es: seq<Event>,
                         contents: seq<seq<byte>>)
    requires Describes(files, contents) && Fits(Targets(files), contents, MAX_TOTAL_SIZE) && forall n :: creates(n)
    requires SmoothRun(Advance(Opening(files, makes), creates), es, contents)
    requires !Run(Advance(Opening(files, makes), creates), es).live
    ensures var end := Run(Advance(Opening(files, makes), creates), es);
            StoredOrder(end.history.stored) == TargetOrder(Targets(files)) && Faithful(end, contents)
  {
    OpeningDelivers(files, makes, creates, contents);
    var t := Advance(Opening(files, makes), creates);
    RunDelivers(t, files, Directories(files, makes), es, contents);
    FinishedOrder(Run(t, es), files, Directories(files, makes));
  }
}
