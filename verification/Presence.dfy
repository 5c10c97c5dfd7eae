/** A complete zone has an entry for every file even after faults that spoil entries: the
    runs of Bootstrap with the contents of all files and entries forgotten are runs of
    Bootstrap again, and those faults do not occur in them. */
module Presence {
  import opened Bytes
  import opened Bootstrap

  const BLANK := Content([], [])

  function Blank(m: map<Str, Content>): map<Str, Content> {
    map p | p in m :: BLANK
  }

  function BlankPending(m: map<nat, (Str, Content)>): map<nat, (Str, Content)> {
    map r | r in m :: (m[r].0, BLANK)
  }

  function BlankOption(c: Option<Content>): Option<Content> {
    if c.Some? then Some(BLANK) else None
  }

  function BlankTask(t: Task): Task {
    if t.Scanning? && t.reading.Some? then
      t.(reading := Some(Reading(t.reading.value.path, BlankOption(t.reading.value.parsed))))
    else t
  }

  function BlankWorkers(m: map<nat, Worker>): map<nat, Worker> {
    map w | w in m :: m[w].(task := BlankTask(m[w].task))
  }

  /** The state without contents, and without the faults that are only about them. */
  function Blanked(s: State): State {
    State(Blank(s.disk), Blank(s.index), BlankPending(s.pending), s.dying, s.cold, s.complete,
        BlankWorkers(s.workers), s.faults - SPOILING)
  }

  function BlankStep(step: Step): Step {
    match step
    case DoWrite(r, p, c, d) => DoWrite(r, p, BLANK, BLANK)
    case DoWriteUnindexed(p, c) => DoWriteUnindexed(p, BLANK)
    case DoStrayCommit(p, d, ok) => DoStrayCommit(p, BLANK, ok)
    case _ => step
  }

  lemma BlankMaps(m: map<Str, Content>, p: Str, c: Content)
    ensures Blank(m[p := c]) == Blank(m)[p := BLANK] && Blank(m - {p}) == Blank(m) - {p}
    ensures Blank(m).Keys == m.Keys
  {
  }

  lemma BlankRequests(m: map<nat, (Str, Content)>, r: nat, p: Str, d: Content)
    ensures BlankPending(m[r := (p, d)]) == BlankPending(m)[r := (p, BLANK)]
    ensures BlankPending(m - {r}) == BlankPending(m) - {r}
  {
  }

  lemma BlankWorker(s: State, w: nat, v: Worker)
    ensures BlankWorkers(s.workers[w := v]) == BlankWorkers(s.workers)[w := v.(task := BlankTask(v.task))]
    ensures WorkerOf(Blanked(s), w) == WorkerOf(s, w).(task := BlankTask(WorkerOf(s, w).task))
  {
  }

  lemma BlankAwaited(s: State, p: Str)
    ensures Awaited(Blanked(s), p) <==> Awaited(s, p)
    ensures Settled(Blanked(s), p) <==> Settled(s, p)
  {
    if r :| r in s.pending && s.pending[r].0 == p {
      assert Blanked(s).pending[r].0 == p;
    }
  }

  lemma BlankReading(s: State, w: nat, p: Str)
    ensures Reads(Blanked(s), w, p) <==> Reads(s, w, p)
    ensures Parsed(Blanked(s), w) == BlankOption(Parsed(s, w))
  {
  }

  lemma BlankReads(s: State, p: Str, c: Content)
    ensures WriteFaults(Blanked(s), p, BLANK) == WriteFaults(s, p, c) - SPOILING
  {
    hide Reads, Parsed, Blanked;
    BlankFound(s, p);
  }

  lemma BlankFound(s: State, p: Str)
    ensures FoundMissing(Blanked(s), p) <==> FoundMissing(s, p)
    ensures !FoundOther(Blanked(s), p, BLANK)
    ensures Blanked(s).dying == s.dying
  {
    assert Blanked(s).workers.Keys == s.workers.Keys;
    hide Reads, Parsed, Blanked;
    forall w { BlankReading(s, w, p); }
    if w :| w in s.workers && Reads(s, w, p) && Parsed(s, w).None? {
      assert Reads(Blanked(s), w, p);
    }
  }

  lemma BlankBlamed(s: State, f: Fault, guilty: bool)
    ensures f in SPOILING ==> Blanked(Blamed(s, f, guilty)) == Blanked(s)
    ensures f !in SPOILING ==> Blanked(Blamed(s, f, guilty)) == Blamed(Blanked(s), f, guilty)
  {
  }

  lemma BlankSetTask(s: State, w: nat, t: Task)
    ensures Blanked(SetTask(s, w, t)) == SetTask(Blanked(s), w, BlankTask(t))
  {
    BlankWorker(s, w, WorkerOf(s, w).(task := t));
  }

  lemma BlankIndexed(s: State, p: Str, d: Content)
    ensures Blanked(s.(index := s.index[p := d])) == Blanked(s).(index := Blanked(s).index[p := BLANK])
    ensures Blanked(s.(index := s.index - {p})) == Blanked(s).(index := Blanked(s).index - {p})
  {
    BlankMaps(s.index, p, d);
  }

  lemma BlankStored(s: State, p: Str, c: Content)
    ensures Blanked(s.(disk := s.disk[p := c])) == Blanked(s).(disk := Blanked(s).disk[p := BLANK])
    ensures Blanked(s.(disk := s.disk - {p})) == Blanked(s).(disk := Blanked(s).disk - {p})
  {
    BlankMaps(s.disk, p, c);
  }

  lemma BlankPended(s: State, r: nat, p: Str, d: Content)
    ensures Blanked(s.(pending := s.pending[r := (p, d)])) == Blanked(s).(pending := Blanked(s).pending[r := (p, BLANK)])
    ensures Blanked(s.(pending := s.pending - {r})) == Blanked(s).(pending := Blanked(s).pending - {r})
  {
    BlankRequests(s.pending, r, p, d);
  }

  lemma BlankDying(s: State, dying: map<nat, Str>)
    ensures Blanked(s.(dying := dying)) == Blanked(s).(dying := dying) && Blanked(s).dying == s.dying
  {
  }

  lemma BlankFaults(s: State, more: set<Fault>)
    ensures Blanked(s.(faults := s.faults + more)) == Blanked(s).(faults := Blanked(s).faults + (more - SPOILING))
  {
  }

  lemma BlankSeen(s: State)
    ensures Blanked(s).disk.Keys == s.disk.Keys && Blanked(s).pending.Keys == s.pending.Keys
    ensures Blanked(s).cold == s.cold && Blanked(s).complete == s.complete
    ensures forall p :: p in s.disk ==> Blanked(s).disk[p] == BLANK
    ensures forall r :: r in s.pending ==> Blanked(s).pending[r] == (s.pending[r].0, BLANK)
  {
  }

  lemma BlankTasks(s: State, w: nat)
    ensures WorkerOf(Blanked(s), w).task == BlankTask(WorkerOf(s, w).task)
  {
    BlankWorker(s, w, NEW_WORKER);
  }

  lemma BlankBegin(s: State, w: nat)
    ensures Blanked(Do(s, DoBegin(w))) == Do(Blanked(s), BlankStep(DoBegin(w)))
  {
    hide Blanked, SetTask, WorkerOf;
    BlankTasks(s, w);
    BlankSeen(s);
    BlankSetTask(s, w, Scanning(s.disk.Keys, None));
  }

  lemma BlankRead(s: State, w: nat, p: Str, readable: bool)
    ensures Blanked(Do(s, DoRead(w, p, readable))) == Do(Blanked(s), BlankStep(DoRead(w, p, readable)))
  {
    hide Blanked, SetTask, WorkerOf, Blamed;
    BlankTasks(s, w);
    BlankSeen(s);
    var t := WorkerOf(s, w).task;
    if t.Scanning? && t.reading.None? {
      var reading := Reading(p, if p in s.disk && readable then Some(s.disk[p]) else None);
      BlankSetTask(s, w, Scanning(t.todo - {p}, Some(reading)));
      BlankBlamed(SetTask(s, w, Scanning(t.todo - {p}, Some(reading))), Unreadable, p in s.disk && !readable);
    }
  }

  lemma BlankSkip(s: State, w: nat, ps: set<Str>)
    ensures Blanked(Do(s, DoSkip(w, ps))) == Do(Blanked(s), BlankStep(DoSkip(w, ps)))
  {
    hide Blanked, SetTask, WorkerOf, Blamed;
    BlankTasks(s, w);
    BlankSeen(s);
    var t := WorkerOf(s, w).task;
    if t.Scanning? && t.reading.None? {
      BlankSetTask(s, w, Scanning(t.todo - ps, None));
      BlankBlamed(SetTask(s, w, Scanning(t.todo - ps, None)), DirectorySkipped, ps * t.todo * s.disk.Keys != {});
    }
  }

  lemma BlankAbort(s: State, w: nat)
    ensures Blanked(Do(s, DoAbort(w))) == Do(Blanked(s), BlankStep(DoAbort(w)))
  {
    BlankSetTask(s, w, Idle);
  }

  lemma BlankRestart(s: State, w: nat)
    ensures Blanked(Do(s, Restart(w))) == Do(Blanked(s), BlankStep(Restart(w)))
    ensures Blanked(Do(s, DoSync(w))) == Do(Blanked(s), BlankStep(DoSync(w)))
  {
    BlankWorker(s, w, NEW_WORKER);
    BlankWorker(s, w, WorkerOf(s, w).(cached := s.complete));
  }

  lemma BlankPublish(s: State, w: nat, ok: bool)
    ensures Blanked(Do(s, DoPublish(w, ok))) == Do(Blanked(s), BlankStep(DoPublish(w, ok)))
  {
    hide WorkerOf, SetTask;
    BlankTasks(s, w);
    BlankWorker(s, w, Worker(Idle, true));
    BlankSetTask(s, w, Idle);
  }

  lemma BlankWrite(s: State, r: nat, p: Str, c: Content, d: Content)
    ensures Blanked(Do(s, DoWrite(r, p, c, d))) == Do(Blanked(s), BlankStep(DoWrite(r, p, c, d)))
  {
    hide Blanked, WriteFaults;
    BlankSeen(s);
    var s1 := s.(disk := s.disk[p := c]);
    BlankStored(s, p, c);
    BlankPended(s1, r, p, d);
    BlankFaults(s1.(pending := s.pending[r := (p, d)]), WriteFaults(s, p, c));
    BlankReads(s, p, c);
  }

  lemma BlankUnheard(s: State, p: Str, c: Content)
    ensures Blanked(Do(s, DoWriteUnindexed(p, c))) == Do(Blanked(s), BlankStep(DoWriteUnindexed(p, c)))
  {
    hide Blanked, Blamed;
    BlankStored(s, p, c);
    BlankBlamed(s.(disk := s.disk[p := c]), UnindexedWrite, true);
  }

  lemma BlankDropped(s: State, r: nat)
    ensures Blanked(Do(s, DoDropCommit(r))) == Do(Blanked(s), BlankStep(DoDropCommit(r)))
  {
    hide Blanked, Blamed;
    BlankSeen(s);
    BlankPended(s, r, [], BLANK);
    BlankBlamed(s.(pending := s.pending - {r}), CommitDropped, true);
  }

  lemma BlankUnlink(s: State, r: nat, p: Str, ok: bool)
    ensures Blanked(Do(s, DoUnlink(r, p, ok))) == Do(Blanked(s), BlankStep(DoUnlink(r, p, ok)))
  {
    hide Blanked, Blamed;
    BlankSeen(s);
    BlankStored(s, p, BLANK);
    BlankDying(s, s.dying[r := p]);
    BlankDying(s.(disk := s.disk - {p}), s.dying[r := p]);
    BlankBlamed(s.(dying := s.dying[r := p]), UnlinkFailed, p in s.disk);
  }

  lemma BlankDelete(s: State, r: nat)
    ensures Blanked(Do(s, DoDelete(r))) == Do(Blanked(s), BlankStep(DoDelete(r)))
  {
    hide Blanked;
    BlankDying(s, s.dying);
    if r in s.dying {
      BlankIndexed(s, s.dying[r], BLANK);
      BlankDying(s.(index := s.index - {s.dying[r]}), s.dying - {r});
    }
  }

  lemma BlankApply(s: State, w: nat, ok: bool)
    ensures Blanked(Do(s, DoApply(w, ok))) == Do(Blanked(s), BlankStep(DoApply(w, ok)))
  {
    hide Blamed, Settled, Blanked, SetTask, BlankWorkers;
    var t := WorkerOf(s, w).task;
    BlankWorker(s, w, NEW_WORKER);
    if t.Scanning? && t.reading.Some? {
      var p, parsed := t.reading.value.path, t.reading.value.parsed;
      var d := if parsed.Some? then parsed.value else BLANK;
      BlankAwaited(s, p);
      SetTaskIndex(s, w, Scanning(t.todo, None));
      SetTaskIndex(s, w, Idle);
      SetTaskIndex(Blanked(s), w, Scanning(t.todo, None));
      SetTaskIndex(Blanked(s), w, Idle);
      BlankSetTask(s, w, Scanning(t.todo, None));
      BlankSetTask(s, w, Idle);
      BlankIndexed(SetTask(s, w, Scanning(t.todo, None)), p, d);
      BlankIndexed(SetTask(s, w, Idle), p, d);
      BlankBlamed(SetTask(s, w, Idle).(index := s.index - {p}), UpsertFailed, Settled(s, p));
    }
  }

  lemma SetTaskIndex(s: State, w: nat, t: Task)
    ensures SetTask(s, w, t).index == s.index
  {
  }

  lemma BlankUpsert(s: State, p: Str, d: Content, ok: bool, f: Fault)
    requires f in SPOILING
    ensures Blanked(Upserted(s, p, d, ok, f)) == Upserted(Blanked(s), p, BLANK, ok, f)
  {
    hide Blamed, Awaited, Blanked;
    BlankSeen(s);
    BlankIndexed(s, p, d);
    BlankAwaited(s, p);
    if ok {
      BlankBlamed(s.(index := s.index[p := d]), f, Settled(s, p) && s.disk[p] != d);
      NotBlamed(Blanked(s).(index := Blanked(s).index[p := BLANK]), f);
    } else {
      BlankBlamed(s.(index := s.index - {p}), UpsertFailed, Settled(s, p));
    }
  }

  lemma NotBlamed(s: State, f: Fault)
    ensures Blamed(s, f, false) == s
  {
  }

  lemma BlankCommit(s: State, r: nat, ok: bool)
    ensures Blanked(Do(s, DoCommit(r, ok))) == Do(Blanked(s), BlankStep(DoCommit(r, ok)))
  {
    hide Upserted;
    if r in s.pending {
      BlankRequests(s.pending, r, [], BLANK);
      BlankUpsert(s.(pending := s.pending - {r}), s.pending[r].0, s.pending[r].1, ok, LateCommit);
    }
  }

  lemma BlankStray(s: State, p: Str, d: Content, ok: bool)
    ensures Blanked(Do(s, DoStrayCommit(p, d, ok))) == Do(Blanked(s), BlankStep(DoStrayCommit(p, d, ok)))
  {
    hide Upserted, Blanked;
    BlankUpsert(s, p, d, ok, StrayCommit);
  }

  lemma BlankWarm(s: State)
    ensures Blanked(Do(s, Warm)) == Do(Blanked(s), BlankStep(Warm))
  {
  }

  lemma BlankEvict(s: State, p: Str)
    ensures Blanked(Do(s, DoEvict(p))) == Do(Blanked(s), BlankStep(DoEvict(p)))
  {
    hide Blanked;
    BlankStored(s, p, BLANK);
  }

  lemma BlankDo(s: State, step: Step)
    ensures Blanked(Do(s, step)) == Do(Blanked(s), BlankStep(step))
  {
    hide Do, BlankStep, Blanked;
    match step {
      case Warm =>
        BlankWarm(s);
      case Restart(w) =>
        BlankRestart(s, w);
      case DoBegin(w) =>
        BlankBegin(s, w);
      case DoRead(w, p, readable) =>
        BlankRead(s, w, p, readable);
      case DoApply(w, ok) =>
        BlankApply(s, w, ok);
      case DoSkip(w, ps) =>
        BlankSkip(s, w, ps);
      case DoAbort(w) =>
        BlankAbort(s, w);
      case DoPublish(w, ok) =>
        BlankPublish(s, w, ok);
      case DoSync(w) =>
        BlankRestart(s, w);
      case DoWrite(r, p, c, d) =>
        BlankWrite(s, r, p, c, d);
      case DoWriteUnindexed(p, c) =>
        BlankUnheard(s, p, c);
      case DoCommit(r, ok) =>
        BlankCommit(s, r, ok);
      case DoDropCommit(r) =>
        BlankDropped(s, r);
      case DoStrayCommit(p, d, ok) =>
        BlankStray(s, p, d, ok);
      case DoUnlink(r, p, ok) =>
        BlankUnlink(s, r, p, ok);
      case DoDelete(r) =>
        BlankDelete(s, r);
      case DoEvict(p) =>
        BlankEvict(s, p);
    }
  }

  lemma {:induction false} BlankAfter(s: State, steps: seq<Step>) returns (blanks: seq<Step>)
    ensures Blanked(After(s, steps)) == After(Blanked(s), blanks)
    decreases |steps|
  {
    hide Do, Blanked, BlankStep;
    if steps == [] {
      blanks := [];
    } else {
      BlankDo(s, steps[0]);
      var rest := BlankAfter(Do(s, steps[0]), steps[1..]);
      blanks := [BlankStep(steps[0])] + rest;
      assert blanks[1..] == rest;
    }
  }

  /** With faults of the last three kinds as well, a complete zone still has an entry
      for every file on disk of which no commit is due. */
  lemma CompleteLists(disk: map<Str, Content>, steps: seq<Step>)
    ensures var s := After(Init(disk), steps);
      s.faults <= SPOILING && s.complete ==> forall p :: p in s.disk ==> p in s.index || Awaited(s, p)
  {
    hide After;
    var s := After(Init(disk), steps);
    var blanks := BlankAfter(Init(disk), steps);
    assert Blanked(Init(disk)) == Init(Blank(disk));
    CompleteCovers(Blank(disk), blanks);
    if s.faults <= SPOILING && s.complete {
      forall p | p in s.disk ensures p in s.index || Awaited(s, p) {
        BlankAwaited(s, p);
        assert p in Blanked(s).disk;
      }
    }
  }
}
