/** The bootstrap of one zone by any number of workers, as a step relation. Workers
    scan the directory tree while requests write files, commit index entries and
    purge, and nginx evicts. The two halves of a purge, and the parse and the update
    of a scan, are separate steps. */
module Bootstrap {
  import opened Bytes

  /** What the index has to know of a file. */
  datatype Content = Content(key: Str, tags: seq<Str>)

  /** What a worker does: nothing, or scan. `todo` are the files that the directory
      listing is bound to show, `reading` is a file whose index update is due, with
      what was parsed from it, if anything. */
  datatype Task = Idle | Scanning(todo: set<Str>, reading: Option<Reading>)

  datatype Reading = Reading(path: Str, parsed: Option<Content>)

  datatype Worker = Worker(task: Task, cached: bool)

  const NEW_WORKER := Worker(Idle, false)

  /** Everything that can leave a file on disk without an entry, or with an entry that
      says something else, and with no commit due. In PurgeOverlap a file is written
      while its purge is between its halves; in ScanMissed and ScanStale while a scan is
      about to apply that it found nothing there, or what it read before. In the last
      two a request that wrote the file, or one that stored nothing, commits something
      else than the file says. */
  datatype Fault =
    | UpsertFailed | Unreadable | DirectorySkipped | UnindexedWrite | CommitDropped | UnlinkFailed
    | PurgeOverlap | ScanMissed | ScanStale | LateCommit | StrayCommit

  /** These faults can spoil an entry, but cannot cost one. */
  const SPOILING: set<Fault> := {ScanStale, LateCommit, StrayCommit}

  /** `disk` and `index` hold the well-named files and the entries of the zone,
      `pending` what the requests that wrote a file will commit in their log phase,
      `dying` the paths that a purge has unlinked and not yet deleted from the index. */
  datatype State = State(
    disk: map<Str, Content>, index: map<Str, Content>, pending: map<nat, (Str, Content)>, dying: map<nat, Str>,
    cold: bool, complete: bool, workers: map<nat, Worker>, faults: set<Fault>)

  function WorkerOf(s: State, w: nat): Worker {
    if w in s.workers then s.workers[w] else NEW_WORKER
  }

  function SetTask(s: State, w: nat, t: Task): State {
    s.(workers := s.workers[w := WorkerOf(s, w).(task := t)])
  }

  function Blamed(s: State, f: Fault, guilty: bool): (s': State)
    ensures s'.faults == {} ==> !guilty && s' == s
    ensures s' == s.(faults := s'.faults)
  {
    if guilty then assert f in s.faults + {f}; s.(faults := s.faults + {f}) else s
  }

  predicate Reads(s: State, w: nat, p: Str) {
    && w in s.workers && s.workers[w].task.Scanning? && s.workers[w].task.reading.Some?
    && s.workers[w].task.reading.value.path == p
  }

  function Parsed(s: State, w: nat): Option<Content> {
    var t := WorkerOf(s, w).task;
    if t.Scanning? && t.reading.Some? then t.reading.value.parsed else None
  }

  predicate FoundMissing(s: State, p: Str) {
    exists w :: w in s.workers && Reads(s, w, p) && Parsed(s, w).None?
  }

  predicate FoundOther(s: State, p: Str, c: Content) {
    exists w :: w in s.workers && Reads(s, w, p) && Parsed(s, w).Some? && Parsed(s, w) != Some(c)
  }

  predicate Awaited(s: State, p: Str) {
    exists r :: r in s.pending && s.pending[r].0 == p
  }

  /** A file on disk of which no commit is due. */
  predicate Settled(s: State, p: Str) {
    p in s.disk && !Awaited(s, p)
  }

  function WriteFaults(s: State, p: Str, c: Content): set<Fault> {
    (if p in s.dying.Values then {PurgeOverlap} else {})
    + (if FoundMissing(s, p) then {ScanMissed} else {})
    + (if FoundOther(s, p, c) then {ScanStale} else {})
  }

  /** Faults are not forgotten, a complete zone stays complete, and no worker comes to
      believe that it is when it is not. */
  predicate Grows(s: State, s': State) {
    && s.faults <= s'.faults && (s.complete ==> s'.complete)
    && forall w :: w in s'.workers && s'.workers[w].cached ==> s'.complete || (w in s.workers && s.workers[w].cached)
  }

  // ----- steps of a scan; a step that is not possible changes nothing -----

  function Begin(s: State, w: nat): (s': State)
    ensures Grows(s, s')
  {
    if WorkerOf(s, w).task.Idle? && !s.cold && !s.complete then SetTask(s, w, Scanning(s.disk.Keys, None)) else s
  }

  /** A directory may also show files that are newer than the scan, or one twice. */
  function Read(s: State, w: nat, p: Str, readable: bool): (s': State)
    ensures Grows(s, s')
  {
    var t := WorkerOf(s, w).task;
    if t.Scanning? && t.reading.None? then
      var parsed := if p in s.disk && readable then Some(s.disk[p]) else None;
      Blamed(SetTask(s, w, Scanning(t.todo - {p}, Some(Reading(p, parsed)))), Unreadable, p in s.disk && !readable)
    else s
  }

  /** process_file: a file that was not parsed loses its entry. A failed update ends
      the scan. */
  function Apply(s: State, w: nat, ok: bool): (s': State)
    ensures Grows(s, s')
  {
    var t := WorkerOf(s, w).task;
    if t.Scanning? && t.reading.Some? then
      var p, parsed := t.reading.value.path, t.reading.value.parsed;
      if parsed.None? then SetTask(s, w, Scanning(t.todo, None)).(index := s.index - {p})
      else if ok then SetTask(s, w, Scanning(t.todo, None)).(index := s.index[p := parsed.value])
      else Blamed(SetTask(s, w, Idle).(index := s.index - {p}), UpsertFailed, Settled(s, p))
    else s
  }

  function SkipDirectory(s: State, w: nat, ps: set<Str>): (s': State)
    ensures Grows(s, s')
  {
    var t := WorkerOf(s, w).task;
    if t.Scanning? && t.reading.None? then
      Blamed(SetTask(s, w, Scanning(t.todo - ps, None)), DirectorySkipped, ps * t.todo * s.disk.Keys != {})
    else s
  }

  function Publish(s: State, w: nat, ok: bool): (s': State)
    ensures Grows(s, s')
  {
    if WorkerOf(s, w).task != Scanning({}, None) then s
    else if ok then s.(complete := true, workers := s.workers[w := Worker(Idle, true)])
    else SetTask(s, w, Idle)
  }

  // ----- steps of requests -----

  predicate SameWorkers(s: State, s': State) {
    s'.cold == s.cold && s'.complete == s.complete && s'.workers == s.workers
  }

  /** The file says c from now on, and the request will commit d. */
  function Write(s: State, r: nat, p: Str, c: Content, d: Content): (s': State)
    ensures Grows(s, s') && SameWorkers(s, s')
  {
    if r in s.pending then s
    else s.(disk := s.disk[p := c], pending := s.pending[r := (p, d)], faults := s.faults + WriteFaults(s, p, c))
  }

  /** The upsert of the log phase. */
  function Upserted(s: State, p: Str, d: Content, ok: bool, f: Fault): (s': State)
    ensures Grows(s, s') && SameWorkers(s, s')
  {
    if ok then Blamed(s.(index := s.index[p := d]), f, Settled(s, p) && s.disk[p] != d)
    else Blamed(s.(index := s.index - {p}), UpsertFailed, Settled(s, p))
  }

  function Commit(s: State, r: nat, ok: bool): (s': State)
    ensures Grows(s, s') && SameWorkers(s, s')
  {
    if r !in s.pending then s
    else Upserted(s.(pending := s.pending - {r}), s.pending[r].0, s.pending[r].1, ok, LateCommit)
  }

  function Unlink(s: State, r: nat, p: Str, ok: bool): (s': State)
    ensures Grows(s, s') && SameWorkers(s, s')
  {
    if r in s.dying then s
    else if ok then s.(disk := s.disk - {p}, dying := s.dying[r := p])
    else Blamed(s.(dying := s.dying[r := p]), UnlinkFailed, p in s.disk)
  }

  function DeleteEntry(s: State, r: nat): (s': State)
    ensures Grows(s, s') && SameWorkers(s, s')
  {
    if r !in s.dying then s else s.(index := s.index - {s.dying[r]}, dying := s.dying - {r})
  }

  datatype Step =
    | Warm
    | Restart(w: nat)
    | DoBegin(w: nat)
    | DoRead(w: nat, p: Str, readable: bool)
    | DoApply(w: nat, ok: bool)
    | DoSkip(w: nat, ps: set<Str>)
    | DoAbort(w: nat)
    | DoPublish(w: nat, ok: bool)
    | DoSync(w: nat)
    | DoWrite(r: nat, p: Str, c: Content, d: Content)
    | DoWriteUnindexed(p: Str, c: Content)
    | DoCommit(r: nat, ok: bool)
    | DoStrayCommit(p: Str, d: Content, ok: bool)
    | DoDropCommit(r: nat)
    | DoUnlink(r: nat, p: Str, ok: bool)
    | DoDelete(r: nat)
    | DoEvict(p: Str)

  function Do(s: State, step: Step): State {
    match step
    case Warm => s.(cold := false)
    case Restart(w) => s.(workers := s.workers[w := NEW_WORKER])
    case DoBegin(w) => Begin(s, w)
    case DoRead(w, p, readable) => Read(s, w, p, readable)
    case DoApply(w, ok) => Apply(s, w, ok)
    case DoSkip(w, ps) => SkipDirectory(s, w, ps)
    case DoAbort(w) => SetTask(s, w, Idle)
    case DoPublish(w, ok) => Publish(s, w, ok)
    case DoSync(w) => s.(workers := s.workers[w := WorkerOf(s, w).(cached := s.complete)])
    case DoWrite(r, p, c, d) => Write(s, r, p, c, d)
    case DoWriteUnindexed(p, c) => Blamed(s.(disk := s.disk[p := c]), UnindexedWrite, true)
    case DoCommit(r, ok) => Commit(s, r, ok)
    // the response was not stored, and is committed all the same
    case DoStrayCommit(p, d, ok) => Upserted(s, p, d, ok, StrayCommit)
    case DoDropCommit(r) => if r !in s.pending then s else Blamed(s.(pending := s.pending - {r}), CommitDropped, true)
    case DoUnlink(r, p, ok) => Unlink(s, r, p, ok)
    case DoDelete(r) => DeleteEntry(s, r)
    case DoEvict(p) => s.(disk := s.disk - {p})
  }

  function After(s: State, steps: seq<Step>): State
    decreases |steps|
  {
    if steps == [] then s else After(Do(s, steps[0]), steps[1..])
  }

  /** An empty index over any directory tree; no worker knows anything. */
  function Init(disk: map<Str, Content>): State {
    State(disk, map[], map[], map[], true, false, map[], {})
  }

  // ----- what the steps do when they are possible -----

  lemma WriteMeans(s: State, r: nat, p: Str, c: Content, d: Content)
    requires r !in s.pending
    ensures var s' := Do(s, DoWrite(r, p, c, d));
      s'.disk == s.disk[p := c] && s'.index == s.index && s'.pending == s.pending[r := (p, d)]
  {
    hide WriteFaults;
  }

  lemma CommitMeans(s: State, r: nat, ok: bool)
    requires r in s.pending
    ensures var s' := Do(s, DoCommit(r, ok));
      var (p, d) := s.pending[r];
      && s'.index == (if ok then s.index[p := d] else s.index - {p})
      && s'.disk == s.disk && s'.pending == s.pending - {r}
  {
    hide Settled;
  }

  lemma StrayMeans(s: State, p: Str, d: Content, ok: bool)
    ensures var s' := Do(s, DoStrayCommit(p, d, ok));
      s'.index == (if ok then s.index[p := d] else s.index - {p}) && s'.disk == s.disk && s'.pending == s.pending
  {
    hide Settled;
  }

  lemma DiskMeans(s: State, r: nat, p: Str, c: Content)
    ensures Do(s, DoWriteUnindexed(p, c)).disk == s.disk[p := c] && Do(s, DoWriteUnindexed(p, c)).index == s.index
    ensures Do(s, DoEvict(p)).disk == s.disk - {p} && Do(s, DoEvict(p)).index == s.index
    ensures r in s.pending ==> Do(s, DoDropCommit(r)).pending == s.pending - {r} && Do(s, DoDropCommit(r)).index == s.index
  {
  }

  lemma PurgeMeans(s: State, r: nat, p: Str, ok: bool)
    ensures r !in s.dying ==>
              var s' := Do(s, DoUnlink(r, p, ok));
              s'.disk == (if ok then s.disk - {p} else s.disk) && s'.index == s.index && s'.dying == s.dying[r := p]
    ensures r in s.dying ==> Do(s, DoDelete(r)).index == s.index - {s.dying[r]} && Do(s, DoDelete(r)).dying == s.dying - {r}
  {
  }

  /** A commit is a fault only if the file is there, no other commit is due for it, and
      the entry is lost or says something else than the file. */
  lemma StrayFaults(s: State, p: Str, d: Content, ok: bool)
    ensures var lost := p in s.disk && (!ok || s.disk[p] != d) && !(exists q :: q in s.pending && s.pending[q].0 == p);
      Do(s, DoStrayCommit(p, d, ok)).faults
        == s.faults + if lost then {if ok then StrayCommit else UpsertFailed} else {}
  {
  }

  lemma CommitFaults(s: State, r: nat, ok: bool)
    requires r in s.pending
    ensures var (p, d) := s.pending[r];
      var lost := && p in s.disk && (!ok || s.disk[p] != d)
                  && !(exists q :: q in s.pending && q != r && s.pending[q].0 == p);
      Do(s, DoCommit(r, ok)).faults == s.faults + if lost then {if ok then LateCommit else UpsertFailed} else {}
  {
    var s1 := s.(pending := s.pending - {r});
    var p := s.pending[r].0;
    if q :| q in s.pending && q != r && s.pending[q].0 == p {
      assert s1.pending[q].0 == p && Awaited(s1, p);
    }
    if q :| q in s1.pending && s1.pending[q].0 == p {
      assert s.pending[q].0 == p;
    }
    assert Awaited(s1, p) <==> exists q :: q in s.pending && q != r && s.pending[q].0 == p;
    hide Awaited;
  }

  /** A write is a fault only if a purge has unlinked the path and not yet deleted its
      entry, or if a scan has found nothing there, or something else. */
  lemma WriteIsFault(s: State, r: nat, p: Str, c: Content, d: Content, f: Fault)
    requires r !in s.pending && f !in s.faults
    ensures f in Do(s, DoWrite(r, p, c, d)).faults <==>
            || (f == PurgeOverlap && exists q :: q in s.dying && s.dying[q] == p)
            || (f == ScanMissed && exists w :: w in s.workers && Reads(s, w, p) && Parsed(s, w) == None)
            || (f == ScanStale && exists w ::
                  w in s.workers && Reads(s, w, p) && Parsed(s, w) != None && Parsed(s, w) != Some(c))
  {
    assert p in s.dying.Values <==> exists q :: q in s.dying && s.dying[q] == p;
    hide Reads, Parsed;
  }

  lemma PurgeFaults(s: State, r: nat, p: Str, ok: bool)
    ensures r !in s.dying ==>
              Do(s, DoUnlink(r, p, ok)).faults == s.faults + if !ok && p in s.disk then {UnlinkFailed} else {}
    ensures Do(s, DoEvict(p)).faults == s.faults && Do(s, DoDelete(r)).faults == s.faults
  {
  }

  lemma ScanFaults(s: State, w: nat, p: Str, ps: set<Str>, readable: bool)
    requires WorkerOf(s, w).task.Scanning? && WorkerOf(s, w).task.reading.None?
    ensures Do(s, DoRead(w, p, readable)).faults == s.faults + if !readable && p in s.disk then {Unreadable} else {}
    ensures Do(s, DoSkip(w, ps)).faults
         == s.faults + if exists q :: q in ps && q in WorkerOf(s, w).task.todo && q in s.disk then {DirectorySkipped} else {}
  {
    hide SetTask;
    SetTaskFaults(s, w);
    var todo := WorkerOf(s, w).task.todo;
    assert ps * todo * s.disk.Keys != {} <==> exists q :: q in ps && q in todo && q in s.disk by {
      if q :| q in ps && q in todo && q in s.disk { assert q in ps * todo * s.disk.Keys; }
      if ps * todo * s.disk.Keys != {} {
        var q :| q in ps * todo * s.disk.Keys;
      }
    }
    hide WorkerOf;
  }

  lemma SetTaskFaults(s: State, w: nat)
    ensures forall t :: SetTask(s, w, t).faults == s.faults
  {
  }

  lemma SetTaskMeans(s: State, w: nat, t: Task)
    ensures WorkerOf(SetTask(s, w, t), w).task == t && SetTask(s, w, t).complete == s.complete
    ensures SetTask(s, w, t).disk == s.disk && SetTask(s, w, t).index == s.index
  {
  }

  /** The task of worker w after a step of its own. */
  lemma ReadMeans(s: State, w: nat, p: Str, ps: set<Str>, readable: bool)
    requires WorkerOf(s, w).task.Scanning? && WorkerOf(s, w).task.reading.None?
    ensures var todo := WorkerOf(s, w).task.todo;
      var found := if p in s.disk && readable then Some(s.disk[p]) else None;
      && WorkerOf(Do(s, DoRead(w, p, readable)), w).task == Scanning(todo - {p}, Some(Reading(p, found)))
      && WorkerOf(Do(s, DoSkip(w, ps)), w).task == Scanning(todo - ps, None)
  {
    hide Blamed, SetTask;
    var todo := WorkerOf(s, w).task.todo;
    SetTaskMeans(s, w, Scanning(todo - {p}, Some(Reading(p, if p in s.disk && readable then Some(s.disk[p]) else None))));
    SetTaskMeans(s, w, Scanning(todo - ps, None));
  }

  lemma ApplyMeans(s: State, w: nat, p: Str, found: Option<Content>, ok: bool)
    requires WorkerOf(s, w).task.Scanning? && WorkerOf(s, w).task.reading == Some(Reading(p, found))
    ensures var s' := Do(s, DoApply(w, ok));
      && s'.index == (if found.Some? && ok then s.index[p := found.value] else s.index - {p})
      && s'.disk == s.disk && s'.complete == s.complete
      && s'.workers == s.workers[w := WorkerOf(s, w).(task :=
           if found.Some? && !ok then Idle else Scanning(WorkerOf(s, w).task.todo, None))]
  {
    hide Blamed, Settled;
  }

  lemma BeginMeans(s: State, w: nat)
    ensures var t := WorkerOf(s, w).task;
      && WorkerOf(Do(s, DoBegin(w)), w).task
         == (if t == Idle && !s.cold && !s.complete then Scanning(s.disk.Keys, None) else t)
      && WorkerOf(Do(s, DoAbort(w)), w).task == Idle
  {
  }

  lemma PublishMeans(s: State, w: nat, ok: bool)
    ensures WorkerOf(s, w).task == Scanning({}, None) ==>
              var s' := Do(s, DoPublish(w, ok));
              && s'.complete == (ok || s.complete) && WorkerOf(s', w).task == Idle && (ok ==> WorkerOf(s', w).cached)
    ensures WorkerOf(s, w).task != Scanning({}, None) ==> Do(s, DoPublish(w, ok)) == s
  {
    hide SetTask;
    SetTaskMeans(s, w, Idle);
  }

  lemma SyncMeans(s: State, w: nat)
    ensures WorkerOf(Do(s, DoSync(w)), w).cached == s.complete && WorkerOf(Do(s, Restart(w)), w) == Worker(Idle, false)
    ensures Do(s, Warm) == s.(cold := false)
  {
  }

  // ----- the invariant of every run -----

  /** The index says of p what its file says. */
  predicate Indexed(s: State, p: Str) {
    p in s.disk && p in s.index && s.index[p] == s.disk[p]
  }

  /** The files on disk that the index has wrong or not at all, and will not hear of. */
  function Unknown(s: State): set<Str> {
    set p | p in s.disk && !Indexed(s, p) && !Awaited(s, p)
  }

  /** A task still has all these files before it, and what it read is still so. */
  predicate Tracks(t: Task, unknown: set<Str>, disk: map<Str, Content>) {
    t.Scanning? ==>
      && (forall p :: p in unknown && p !in t.todo ==>
            t.reading.Some? && t.reading.value.path == p && t.reading.value.parsed.Some?)
      && (t.reading.Some? && t.reading.value.path in disk ==> t.reading.value.parsed == Some(disk[t.reading.value.path]))
  }

  ghost predicate Tracked(s: State) {
    && (forall w :: w in s.workers ==> Tracks(s.workers[w].task, Unknown(s), s.disk))
    && (forall r :: r in s.dying ==> s.dying[r] !in s.disk)
    && (s.complete ==> Unknown(s) == {})
  }

  ghost predicate FlagsRight(s: State) {
    forall w :: w in s.workers && s.workers[w].cached ==> s.complete
  }

  ghost predicate Inv(s: State) {
    FlagsRight(s) && (s.faults == {} ==> Tracked(s))
  }

  // ----- each step keeps it -----

  predicate Within(a: map<Str, Content>, b: map<Str, Content>) {
    forall p :: p in a ==> p in b && b[p] == a[p]
  }

  /** One worker changed; what is unknown and what is on disk shrank. */
  lemma WorkerStep(s: State, s': State, w: nat)
    requires Tracked(s) && Unknown(s') <= Unknown(s) && Within(s'.disk, s.disk)
    requires forall r :: r in s'.dying ==> r in s.dying && s'.dying[r] == s.dying[r]
    requires s'.workers == s.workers || (w in s'.workers && s'.workers == s.workers[w := s'.workers[w]]
                                        && Tracks(s'.workers[w].task, Unknown(s'), s'.disk))
    requires s'.complete ==> Unknown(s') == {}
    ensures Tracked(s')
  {
    hide Unknown;
  }

  /** As WorkerStep, for a step that sets one task and perhaps the index. */
  lemma TaskStep(s: State, w: nat, t: Task, index: map<Str, Content>)
    requires Tracked(s)
    requires var s' := SetTask(s, w, t).(index := index);
      Unknown(s') <= Unknown(s) && Tracks(t, Unknown(s'), s.disk)
    ensures Tracked(SetTask(s, w, t).(index := index))
  {
    hide Unknown, Tracks;
    WorkerStep(s, SetTask(s, w, t).(index := index), w);
  }

  lemma UnknownFrom(s: State, s': State)
    requires Within(s'.disk, s.disk) && s'.pending == s.pending
    requires forall p :: p in s'.disk && Indexed(s, p) ==> Indexed(s', p)
    ensures Unknown(s') <= Unknown(s)
  {
  }

  lemma SameUnknown(s: State, s': State)
    requires s'.disk == s.disk && s'.index == s.index && s'.pending == s.pending
    ensures Unknown(s') == Unknown(s)
  {
  }

  lemma TaskOnly(s: State, w: nat, t: Task)
    requires Tracked(s) && Tracks(t, Unknown(s), s.disk)
    ensures Tracked(SetTask(s, w, t))
  {
    hide Tracked, Unknown, Tracks;
    SameUnknown(s, SetTask(s, w, t));
    TaskStep(s, w, t, s.index);
  }

  lemma TaskTracks(s: State, w: nat)
    requires Tracked(s)
    ensures Tracks(WorkerOf(s, w).task, Unknown(s), s.disk) && Unknown(s) <= s.disk.Keys
    ensures s.complete ==> Unknown(s) == {}
  {
  }

  lemma BeginKept(s: State, w: nat)
    requires Tracked(s)
    ensures Tracked(Begin(s, w))
  {
    hide Tracked, Unknown;
    TaskTracks(s, w);
    if Begin(s, w) != s {
      TaskOnly(s, w, Scanning(s.disk.Keys, None));
    }
  }

  lemma ReadKept(s: State, w: nat, p: Str, readable: bool)
    requires Tracked(s) && Read(s, w, p, readable).faults == {} == s.faults
    ensures Tracked(Read(s, w, p, readable))
  {
    hide Tracked, Unknown, Tracks, Blamed, SetTask;
    TaskTracks(s, w);
    var t := WorkerOf(s, w).task;
    if t.Scanning? && t.reading.None? {
      ReadTracks(t, p, Unknown(s), s.disk);
      var reading := Reading(p, if p in s.disk then Some(s.disk[p]) else None);
      TaskOnly(s, w, Scanning(t.todo - {p}, Some(reading)));
    }
  }

  lemma ReadTracks(t: Task, p: Str, unknown: set<Str>, disk: map<Str, Content>)
    requires Tracks(t, unknown, disk) && unknown <= disk.Keys
    ensures t.Scanning? && t.reading.None? ==>
              Tracks(Scanning(t.todo - {p}, Some(Reading(p, if p in disk then Some(disk[p]) else None))), unknown, disk)
  {
  }

  lemma ApplyKept(s: State, w: nat, ok: bool)
    requires Tracked(s) && Apply(s, w, ok).faults == {} == s.faults
    ensures Tracked(Apply(s, w, ok))
  {
    hide Tracked, Unknown, Tracks, Blamed, SetTask, Awaited;
    TaskTracks(s, w);
    var t := WorkerOf(s, w).task;
    if t.Scanning? && t.reading.Some? {
      ApplyTracks(t, Unknown(s), s.disk);
      var p, parsed := t.reading.value.path, t.reading.value.parsed;
      var index := if parsed.Some? && ok then s.index[p := parsed.value] else s.index - {p};
      var after := if parsed.Some? && !ok then Idle else Scanning(t.todo, None);
      AppliedUnknown(s, w, after, p, index);
      TaskStep(s, w, after, index);
    }
  }

  lemma AppliedUnknown(s: State, w: nat, t: Task, p: Str, index: map<Str, Content>)
    requires forall q :: q != p ==> (q in index <==> q in s.index) && (q in s.index ==> index[q] == s.index[q])
    requires Settled(s, p) ==> p in index && index[p] == s.disk[p]
    ensures Unknown(SetTask(s, w, t).(index := index)) <= Unknown(s) - {p}
  {
    var s' := SetTask(s, w, t).(index := index);
    forall q ensures Awaited(s', q) <==> Awaited(s, q) {
    }
  }

  lemma ApplyTracks(t: Task, unknown: set<Str>, disk: map<Str, Content>)
    requires Tracks(t, unknown, disk) && t.Scanning? && t.reading.Some?
    ensures forall some :: some <= unknown - {t.reading.value.path} ==> Tracks(Scanning(t.todo, None), some, disk)
    ensures forall some :: Tracks(Idle, some, disk)
    ensures t.reading.value.path in disk ==> t.reading.value.parsed == Some(disk[t.reading.value.path])
  {
  }

  lemma SkipKept(s: State, w: nat, ps: set<Str>)
    requires Tracked(s) && SkipDirectory(s, w, ps).faults == {} == s.faults
    ensures Tracked(SkipDirectory(s, w, ps))
  {
    hide Tracked, Unknown, Tracks, Blamed, SetTask;
    TaskTracks(s, w);
    var t := WorkerOf(s, w).task;
    if t.Scanning? && t.reading.None? {
      SkipTracks(t, ps, Unknown(s), s.disk);
      TaskOnly(s, w, Scanning(t.todo - ps, None));
    }
  }

  lemma SkipTracks(t: Task, ps: set<Str>, unknown: set<Str>, disk: map<Str, Content>)
    requires Tracks(t, unknown, disk) && unknown <= disk.Keys
    requires t.Scanning? && t.reading.None? && ps * t.todo * disk.Keys == {}
    ensures Tracks(Scanning(t.todo - ps, None), unknown, disk)
  {
    forall p | p in disk && p in t.todo ensures p in t.todo - ps {
      assert p !in ps * t.todo * disk.Keys;
    }
  }

  lemma PublishKept(s: State, w: nat, ok: bool)
    requires Tracked(s)
    ensures Tracked(Publish(s, w, ok))
  {
    hide Tracked, Unknown;
    TaskTracks(s, w);
    if WorkerOf(s, w).task == Scanning({}, None) {
      if ok {
        SameUnknown(s, Publish(s, w, ok));
        WorkerStep(s, Publish(s, w, ok), w);
      } else {
        TaskOnly(s, w, Idle);
      }
    }
  }

  lemma WriteKept(s: State, r: nat, p: Str, c: Content, d: Content)
    requires Tracked(s) && Write(s, r, p, c, d).faults == {} == s.faults
    ensures Tracked(Write(s, r, p, c, d))
  {
    var s' := Write(s, r, p, c, d);
    if r !in s.pending {
      WrittenUnknown(s, r, p, c, d);
      hide Unknown;
      assert p !in s.dying.Values && !FoundMissing(s, p) && !FoundOther(s, p, c);
      forall w | w in s.workers ensures Tracks(s.workers[w].task, Unknown(s'), s'.disk) {
        assert Tracks(s.workers[w].task, Unknown(s), s.disk);
        assert Reads(s, w, p) ==> Parsed(s, w) == Some(c);
      }
    }
  }

  lemma WrittenUnknown(s: State, r: nat, p: Str, c: Content, d: Content)
    requires r !in s.pending
    ensures Unknown(Write(s, r, p, c, d)) <= Unknown(s)
  {
    var s' := Write(s, r, p, c, d);
    assert s'.pending[r].0 == p;
    forall q ensures Awaited(s, q) ==> Awaited(s', q) {
      if r' :| r' in s.pending && s.pending[r'].0 == q {
        assert s'.pending[r'].0 == q;
      }
    }
  }

  lemma CommitKept(s: State, r: nat, ok: bool)
    requires Tracked(s) && Commit(s, r, ok).faults == {} == s.faults
    ensures Tracked(Commit(s, r, ok))
  {
    hide Tracked, Unknown;
    if r in s.pending {
      UpsertedUnknown(s, s.pending - {r}, s.pending[r].0, s.pending[r].1, ok, LateCommit);
      UpsertKept(s, s.pending - {r}, s.pending[r].0, s.pending[r].1, ok, LateCommit);
    }
  }

  lemma StrayKept(s: State, p: Str, d: Content, ok: bool)
    requires Tracked(s) && Upserted(s, p, d, ok, StrayCommit).faults == {} == s.faults
    ensures Tracked(Upserted(s, p, d, ok, StrayCommit))
  {
    hide Tracked, Unknown;
    UpsertedUnknown(s, s.pending, p, d, ok, StrayCommit);
    UpsertKept(s, s.pending, p, d, ok, StrayCommit);
  }

  lemma UpsertKept(s: State, pending: map<nat, (Str, Content)>, p: Str, d: Content, ok: bool, f: Fault)
    requires var s' := Upserted(s.(pending := pending), p, d, ok, f);
      Tracked(s) && s'.faults == {} && Unknown(s') <= Unknown(s)
    ensures Tracked(Upserted(s.(pending := pending), p, d, ok, f))
  {
    hide Unknown, Settled;
    WorkerStep(s, Upserted(s.(pending := pending), p, d, ok, f), 0);
  }

  lemma UpsertedUnknown(s: State, pending: map<nat, (Str, Content)>, p: Str, d: Content, ok: bool, f: Fault)
    requires Upserted(s.(pending := pending), p, d, ok, f).faults == {}
    requires forall r :: r in pending ==> r in s.pending && pending[r] == s.pending[r]
    requires forall r :: r in s.pending && r !in pending ==> s.pending[r].0 == p
    ensures Unknown(Upserted(s.(pending := pending), p, d, ok, f)) <= Unknown(s)
  {
    var s' := Upserted(s.(pending := pending), p, d, ok, f);
    forall q | q in s.disk ensures Awaited(s, q) ==> Awaited(s', q) || Indexed(s', q) {
      if r' :| r' in s.pending && s.pending[r'].0 == q {
        assert r' in pending ==> s'.pending[r'].0 == q;
      }
    }
    assert Settled(s', p) ==> Indexed(s', p);
  }

  lemma UnlinkKept(s: State, r: nat, p: Str, ok: bool)
    requires Tracked(s) && Unlink(s, r, p, ok).faults == {} == s.faults
    ensures Tracked(Unlink(s, r, p, ok))
  {
    var s' := Unlink(s, r, p, ok);
    UnlinkedUnknown(s, r, p, ok);
    hide Unknown;
    forall w | w in s.workers ensures Tracks(s.workers[w].task, Unknown(s'), s'.disk) {
      assert Tracks(s.workers[w].task, Unknown(s), s.disk);
    }
  }

  lemma UnlinkedUnknown(s: State, r: nat, p: Str, ok: bool)
    ensures Unknown(Unlink(s, r, p, ok)) <= Unknown(s)
  {
    UnknownFrom(s, Unlink(s, r, p, ok));
  }

  lemma DeleteKept(s: State, r: nat)
    requires Tracked(s)
    ensures Tracked(DeleteEntry(s, r))
  {
    var s' := DeleteEntry(s, r);
    UnknownFrom(s, s');
    WorkerStep(s, s', 0);
  }

  lemma PlainKept(s: State, s': State, w: nat)
    requires Tracked(s) && Within(s'.disk, s.disk) && s'.index == s.index && s'.pending == s.pending && s'.dying == s.dying
    requires s'.workers == s.workers || (w in s'.workers && s'.workers == s.workers[w := s'.workers[w]]
                                        && (s'.workers[w].task.Idle? || s'.workers[w].task == WorkerOf(s, w).task))
    requires s'.complete == s.complete
    ensures Tracked(s')
  {
    UnknownFrom(s, s');
    WorkerStep(s, s', w);
  }

  lemma TrackedKept(s: State, step: Step)
    requires Tracked(s) && Do(s, step).faults == {} == s.faults
    ensures Tracked(Do(s, step))
  {
    hide Tracked, Begin, Read, Apply, SkipDirectory, Publish, Write, Commit, Unlink, DeleteEntry;
    match step {
      case Warm => PlainKept(s, Do(s, step), 0);
      case Restart(w) => PlainKept(s, Do(s, step), w);
      case DoBegin(w) => BeginKept(s, w);
      case DoRead(w, p, readable) => ReadKept(s, w, p, readable);
      case DoApply(w, ok) => ApplyKept(s, w, ok);
      case DoSkip(w, ps) => SkipKept(s, w, ps);
      case DoAbort(w) => PlainKept(s, Do(s, step), w);
      case DoPublish(w, ok) => PublishKept(s, w, ok);
      case DoSync(w) => PlainKept(s, Do(s, step), w);
      case DoWrite(r, p, c, d) => WriteKept(s, r, p, c, d);
      case DoWriteUnindexed(p, c) =>
      case DoCommit(r, ok) => CommitKept(s, r, ok);
      case DoStrayCommit(p, d, ok) => StrayKept(s, p, d, ok);
      case DoDropCommit(r) =>
      case DoUnlink(r, p, ok) => UnlinkKept(s, r, p, ok);
      case DoDelete(r) => DeleteKept(s, r);
      case DoEvict(p) => PlainKept(s, Do(s, step), 0);
    }
  }

  lemma StepGrows(s: State, step: Step)
    ensures Grows(s, Do(s, step))
  {
    hide Begin, Read, Apply, SkipDirectory, Publish, Write, Commit, Unlink, DeleteEntry;
  }

  lemma InvKept(s: State, step: Step)
    requires Inv(s)
    ensures Inv(Do(s, step))
  {
    hide Do, Tracked;
    StepGrows(s, step);
    if Do(s, step).faults == {} {
      TrackedKept(s, step);
    }
  }

  lemma {:induction false} InvAfter(s: State, steps: seq<Step>)
    requires Inv(s)
    ensures Inv(After(s, steps))
    ensures s.complete ==> After(s, steps).complete
    decreases |steps|
  {
    hide Inv, Do;
    if steps != [] {
      InvKept(s, steps[0]);
      StepGrows(s, steps[0]);
      InvAfter(Do(s, steps[0]), steps[1..]);
    }
  }

  // ----- what holds in every run -----

  lemma InitInv(disk: map<Str, Content>)
    ensures Inv(Init(disk))
  {
  }

  /** In a run without a fault, a complete zone knows every file on disk as it is: its
      entry says what the file says, or the request that wrote it has still to commit. */
  lemma CompleteCovers(disk: map<Str, Content>, steps: seq<Step>)
    ensures var s := After(Init(disk), steps);
      s.faults == {} && s.complete ==>
        forall p :: p in s.disk ==> (p in s.index && s.index[p] == s.disk[p]) || Awaited(s, p)
  {
    hide After, Tracks;
    InitInv(disk);
    InvAfter(Init(disk), steps);
    var s := After(Init(disk), steps);
    if s.faults == {} && s.complete {
      forall p | p in s.disk ensures Indexed(s, p) || Awaited(s, p) {
        assert p !in Unknown(s);
      }
    }
  }

  /** No worker believes in a bootstrap that is not complete, with or without faults. */
  lemma FlagsNeverAhead(disk: map<Str, Content>, steps: seq<Step>, w: nat)
    ensures var s := After(Init(disk), steps);
      w in s.workers && s.workers[w].cached ==> s.complete
  {
    hide After, Tracked;
    InitInv(disk);
    InvAfter(Init(disk), steps);
  }

  /** Until the cache loader is done, no scan begins and the zone is not complete. */
  lemma ColdWaits(disk: map<Str, Content>, steps: seq<Step>)
    requires Warm !in steps
    ensures var s := After(Init(disk), steps);
      !s.complete && forall w :: w in s.workers ==> s.workers[w].task == Idle && !s.workers[w].cached
  {
    hide After;
    ColdKept(Init(disk), steps);
    forall w { FlagsNeverAhead(disk, steps, w); }
  }

  lemma {:induction false} ColdKept(s: State, steps: seq<Step>)
    requires s.cold && !s.complete && Warm !in steps
    requires forall w :: w in s.workers ==> s.workers[w].task == Idle
    ensures var s' := After(s, steps);
      s'.cold && !s'.complete && forall w :: w in s'.workers ==> s'.workers[w].task == Idle
    decreases |steps|
  {
    hide Write, Upserted, Unlink, DeleteEntry, Blamed;
    if steps != [] {
      ColdStep(s, steps[0]);
      assert forall x :: x in steps[1..] ==> x in steps;
      hide Do;
      ColdKept(Do(s, steps[0]), steps[1..]);
    }
  }

  lemma ColdStep(s: State, step: Step)
    requires s.cold && !s.complete && step != Warm
    requires forall w :: w in s.workers ==> s.workers[w].task == Idle
    ensures var s' := Do(s, step);
      s'.cold && !s'.complete && forall w :: w in s'.workers ==> s'.workers[w].task == Idle
  {
    hide Blamed, Write, Upserted, Commit, Unlink, DeleteEntry;
    match step {
      case DoBegin(w) =>
      case DoRead(w, p, readable) =>
      case DoApply(w, ok) =>
      case DoSkip(w, ps) =>
      case DoPublish(w, ok) =>
      case _ =>
    }
  }

  lemma {:induction false} AfterConcat(s: State, a: seq<Step>, b: seq<Step>)
    ensures After(s, a + b) == After(After(s, a), b)
    decreases |a|
  {
    hide Do;
    if a == [] {
      assert a + b == b;
    } else {
      assert (a + b)[1..] == a[1..] + b;
      AfterConcat(Do(s, a[0]), a[1..], b);
    }
  }

  /** Once complete, a zone stays complete, whatever happens. */
  lemma CompleteStays(disk: map<Str, Content>, before: seq<Step>, after: seq<Step>)
    ensures After(Init(disk), before).complete ==> After(Init(disk), before + after).complete
  {
    hide After, Do, Inv;
    InitInv(disk);
    AfterConcat(Init(disk), before, after);
    InvAfter(Init(disk), before);
    InvAfter(After(Init(disk), before), after);
  }
}
