/** Runs of the bootstrap that there are: one without a fault that completes a zone, and
    for each fault one that harms an entry. */
module BootstrapRuns {
  import opened Bytes
  import opened Bootstrap

  /** From any directory tree some run without a fault completes the zone, with exactly
      what is on disk in the index. */
  lemma SomeRunCompletes(disk: map<Str, Content>) returns (steps: seq<Step>)
    ensures var s := After(Init(disk), steps);
      s.faults == {} && s.complete && s.index == s.disk == disk
  {
    ScanOf(disk);
    var rest := ScanRun(Scanned(disk), 0, disk.Keys);
    steps := [Warm, DoBegin(0)] + rest;
    AfterConcat(Init(disk), [Warm, DoBegin(0)], rest);
    assert After(Init(disk), steps).index == disk;
  }

  lemma {:induction false} ScanRun(s: State, w: nat, todo: set<Str>) returns (steps: seq<Step>)
    requires w in s.workers && s.workers[w].task == Scanning(todo, None) && s.faults == {}
    requires todo <= s.disk.Keys && s.index == s.disk - todo
    ensures var s' := After(s, steps);
      s'.faults == {} && s'.complete && s'.index == s.disk == s'.disk
    decreases |todo|
  {
    if todo == {} {
      steps := [DoPublish(w, true)];
      AfterOne(s, DoPublish(w, true));
      assert s.disk - todo == s.disk;
    } else {
      var p :| p in todo;
      TakeOne(s, w, todo, p);
      hide Do;
      var two := [DoRead(w, p, true), DoApply(w, true)];
      AfterTwo(s, DoRead(w, p, true), DoApply(w, true));
      assert (s.disk - todo)[p := s.disk[p]] == s.disk - (todo - {p});
      var rest := ScanRun(After(s, two), w, todo - {p});
      steps := two + rest;
      AfterConcat(s, two, rest);
    }
  }

  lemma TakeOne(s: State, w: nat, todo: set<Str>, p: Str)
    requires w in s.workers && s.workers[w].task == Scanning(todo, None) && p in todo && p in s.disk
    ensures Do(Do(s, DoRead(w, p, true)), DoApply(w, true))
         == SetTask(s, w, Scanning(todo - {p}, None)).(index := s.index[p := s.disk[p]])
  {
  }

  /** What the fault did to the entry of p. */
  predicate Harmed(f: Fault, s: State, p: Str) {
    if f in SPOILING then p in s.index && p in s.disk && s.index[p] != s.disk[p] else p !in s.index
  }

  /** A run that ends complete, with no commit due, and with the entry of p missing, or
      wrong when the fault is one of those that spoil. */
  ghost predicate LosesFile(f: Fault, disk: map<Str, Content>, steps: seq<Step>, p: Str) {
    var s := After(Init(disk), steps);
    s.faults == {f} && s.complete && p in s.disk && Harmed(f, s, p) && s.pending == map[]
  }

  lemma {:induction false} Loses(f: Fault, disk: map<Str, Content>, steps: seq<Step>, s: State, rest: seq<Step>, p: Str)
    requires After(Init(disk), steps) == s
    requires var s' := After(s, rest);
      s'.faults == {f} && s'.complete && p in s'.disk && Harmed(f, s', p) && s'.pending == map[]
    ensures LosesFile(f, disk, steps + rest, p)
  {
    AfterConcat(Init(disk), steps, rest);
  }

  /** Each kind of fault alone can cost a complete zone an entry, or leave it a wrong one
      if it is of the last three kinds, so none of them can be left out of the theorems. */
  lemma EachFaultMatters(f: Fault, p: Str, c: Content, d: Content)
    requires c != d
    ensures exists disk, steps :: LosesFile(f, disk, steps, p)
  {
    hide LosesFile;
    if f in SPOILING {
      EachSpoils(f, p, c, d);
    } else {
      EachLoses(f, p, c);
    }
  }

  lemma EachLoses(f: Fault, p: Str, c: Content)
    requires f !in SPOILING
    ensures exists disk, steps :: LosesFile(f, disk, steps, p)
  {
    hide After, Do;
    var one := map[p := c];
    var scan := [Warm, DoBegin(0)];
    var empty := scan + [DoPublish(0, true)];
    EmptyRun();
    IndexedRun(p, c);
    ScanOf(one);
    ScanOf(map[]);
    var none := Published(map[]);
    match f {
      case UpsertFailed =>
        Written(none, 0, p, c);
        Uncommitted(Do(none, DoWrite(0, p, c, c)), p, c);
        AfterTwo(none, DoWrite(0, p, c, c), DoCommit(0, false));
        Loses(f, map[], empty, none, [DoWrite(0, p, c, c), DoCommit(0, false)], p);
      case CommitDropped =>
        Written(none, 0, p, c);
        Uncommitted(Do(none, DoWrite(0, p, c, c)), p, c);
        AfterTwo(none, DoWrite(0, p, c, c), DoDropCommit(0));
        Loses(f, map[], empty, none, [DoWrite(0, p, c, c), DoDropCommit(0)], p);
      case UnindexedWrite =>
        AfterOne(none, DoWriteUnindexed(p, c));
        Unindexed(p, c);
        Loses(f, map[], empty, none, [DoWriteUnindexed(p, c)], p);
      case Unreadable =>
        Misread(p, c);
        Loses(f, one, scan, Scanned(one), [DoRead(0, p, false), DoApply(0, true)] + [DoPublish(0, true)], p);
      case DirectorySkipped =>
        Skipped(p, c);
        Loses(f, one, scan, Scanned(one), [DoSkip(0, {p}), DoPublish(0, true)], p);
      case UnlinkFailed =>
        KeptFile(Published(one), p);
        Loses(f, one, scan + [DoRead(0, p, true), DoApply(0, true)] + [DoPublish(0, true)], Published(one),
              [DoUnlink(0, p, false), DoDelete(0)], p);
      case PurgeOverlap =>
        ReturnedFile(none, p, c);
        Loses(f, map[], empty, none, [DoUnlink(1, p, true), DoWrite(0, p, c, c)] + [DoCommit(0, true), DoDelete(1)], p);
      case ScanMissed =>
        AppliedBehind(map[], p, c);
        Loses(f, map[], scan, Scanned(map[]), Behind(p, c), p);
    }
  }

  lemma EachSpoils(f: Fault, p: Str, c: Content, d: Content)
    requires f in SPOILING && c != d
    ensures exists disk, steps :: LosesFile(f, disk, steps, p)
  {
    hide After, Do;
    var one := map[p := c];
    var scan := [Warm, DoBegin(0)];
    EmptyRun();
    IndexedRun(p, c);
    ScanOf(one);
    var none := Published(map[]);
    match f {
      case ScanStale =>
        AppliedBehind(one, p, d);
        Loses(f, one, scan, Scanned(one), Behind(p, d), p);
      case LateCommit =>
        CommittedLate(p, c, d);
        Loses(f, map[], scan + [DoPublish(0, true)], none,
              [DoWrite(0, p, c, c), DoWrite(1, p, d, d)] + [DoCommit(1, true), DoCommit(0, true)], p);
      case StrayCommit =>
        CommittedStray(p, c, d);
        Loses(f, one, scan + [DoRead(0, p, true), DoApply(0, true)] + [DoPublish(0, true)], Published(one),
              [DoStrayCommit(p, d, true)], p);
    }
  }

  lemma AfterOne(s: State, a: Step)
    ensures After(s, [a]) == Do(s, a)
  {
    hide Do;
    assert [a][1..] == [];
  }

  lemma AfterTwo(s: State, a: Step, b: Step)
    ensures After(s, [a, b]) == Do(Do(s, a), b)
  {
    hide Do;
    assert [a, b][1..] == [b];
    AfterOne(Do(s, a), b);
  }

  /** A state after one complete scan by worker 0. */
  function Published(disk: map<Str, Content>): State {
    State(disk, disk, map[], map[], false, true, map[0 := Worker(Idle, true)], {})
  }

  /** A state at the start of a scan by worker 0. */
  function Scanned(disk: map<Str, Content>): State {
    State(disk, map[], map[], map[], false, false, map[0 := Worker(Scanning(disk.Keys, None), false)], {})
  }

  lemma ScanOf(disk: map<Str, Content>)
    ensures After(Init(disk), [Warm, DoBegin(0)]) == Scanned(disk)
  {
    hide After;
    AfterTwo(Init(disk), Warm, DoBegin(0));
  }

  lemma Written(s: State, r: nat, p: Str, c: Content)
    requires s.dying == map[] && r !in s.pending && !Awaited(s, p) && forall w :: w in s.workers ==> s.workers[w].task.Idle?
    ensures Do(s, DoWrite(r, p, c, c)) == s.(disk := s.disk[p := c], pending := s.pending[r := (p, c)])
  {
    assert WriteFaults(s, p, c) == {};
  }

  /** A write whose index update fails or never comes. */
  lemma Uncommitted(s: State, p: Str, c: Content)
    requires s.pending == map[0 := (p, c)] && p in s.disk
    ensures Do(s, DoCommit(0, false)) == s.(pending := map[], index := s.index - {p}, faults := s.faults + {UpsertFailed})
    ensures Do(s, DoDropCommit(0)) == s.(pending := map[], faults := s.faults + {CommitDropped})
  {
    assert s.pending - {0} == map[];
  }

  lemma Unindexed(p: Str, c: Content)
    ensures Do(Published(map[]), DoWriteUnindexed(p, c))
         == Published(map[]).(disk := map[p := c], faults := {UnindexedWrite})
  {
  }

  lemma Misread(p: Str, c: Content)
    ensures After(Scanned(map[p := c]), [DoRead(0, p, false), DoApply(0, true)] + [DoPublish(0, true)])
         == Published(map[p := c]).(index := map[], faults := {Unreadable})
  {
    hide After;
    var s := Scanned(map[p := c]);
    AfterTwo(s, DoRead(0, p, false), DoApply(0, true));
    AfterConcat(s, [DoRead(0, p, false), DoApply(0, true)], [DoPublish(0, true)]);
    AfterOne(Do(Do(s, DoRead(0, p, false)), DoApply(0, true)), DoPublish(0, true));
    assert {p} - {p} == {};
  }

  lemma Skipped(p: Str, c: Content)
    ensures After(Scanned(map[p := c]), [DoSkip(0, {p}), DoPublish(0, true)])
         == Published(map[p := c]).(index := map[], faults := {DirectorySkipped})
  {
    hide After;
    AfterTwo(Scanned(map[p := c]), DoSkip(0, {p}), DoPublish(0, true));
    assert {p} - {p} == {} && p in {p} * {p} * map[p := c].Keys;
  }

  /** A file that is written and committed between the halves of its purge. */
  lemma ReturnedFile(s: State, p: Str, c: Content)
    requires s == Published(map[])
    ensures After(s, [DoUnlink(1, p, true), DoWrite(0, p, c, c)] + [DoCommit(0, true), DoDelete(1)])
         == s.(disk := map[p := c], faults := {PurgeOverlap})
  {
    hide After;
    var s2 := s.(disk := map[p := c], dying := map[1 := p], pending := map[0 := (p, c)], faults := {PurgeOverlap});
    Returned(s, p, c, s2);
    AfterTwo(s, DoUnlink(1, p, true), DoWrite(0, p, c, c));
    AfterTwo(s2, DoCommit(0, true), DoDelete(1));
    AfterConcat(s, [DoUnlink(1, p, true), DoWrite(0, p, c, c)], [DoCommit(0, true), DoDelete(1)]);
    hide Do;
    CommittedThenDeleted(s, p, c, s2);
  }

  lemma CommittedThenDeleted(s: State, p: Str, c: Content, s2: State)
    requires s == Published(map[])
    requires s2 == s.(disk := map[p := c], dying := map[1 := p], pending := map[0 := (p, c)], faults := {PurgeOverlap})
    ensures Do(Do(s2, DoCommit(0, true)), DoDelete(1)) == s.(disk := map[p := c], faults := {PurgeOverlap})
  {
    assert map[p := c] - {p} == map[] && map[0 := (p, c)] - {0} == map[] && map[1 := p] - {1} == map[];
  }

  lemma Returned(s: State, p: Str, c: Content, s2: State)
    requires s == Published(map[])
    requires s2 == s.(disk := map[p := c], dying := map[1 := p], pending := map[0 := (p, c)], faults := {PurgeOverlap})
    ensures Do(Do(s, DoUnlink(1, p, true)), DoWrite(0, p, c, c)) == s2
  {
    var s1 := Do(s, DoUnlink(1, p, true));
    assert s1.dying[1] == p && p in s1.dying.Values;
    assert WriteFaults(s1, p, c) == {PurgeOverlap};
    assert s1.disk == map[];
  }

  /** A scan that applies what it found before the file was written. */
  function Behind(p: Str, d: Content): seq<Step> {
    [DoRead(0, p, true), DoWrite(0, p, d, d)] + ([DoCommit(0, true), DoApply(0, true)] + [DoPublish(0, true)])
  }

  function FoundIn(before: map<Str, Content>, p: Str): Worker {
    Worker(Scanning({}, Some(Reading(p, if p in before then Some(before[p]) else None))), false)
  }

  /** It puts the index back to what it should have been before. */
  lemma AppliedBehind(before: map<Str, Content>, p: Str, d: Content)
    requires before.Keys <= {p} && (p in before ==> before[p] != d)
    ensures After(Scanned(before), Behind(p, d))
         == Published(before).(disk := map[p := d], faults := {if p in before then ScanStale else ScanMissed})
  {
    hide After;
    var s := Scanned(before);
    var s2 := s.(disk := map[p := d], pending := map[0 := (p, d)], workers := map[0 := FoundIn(before, p)],
              faults := {if p in before then ScanStale else ScanMissed});
    WrittenWhileRead(before, p, d, s2);
    AfterTwo(s, DoRead(0, p, true), DoWrite(0, p, d, d));
    var s4 := s2.(index := before, pending := map[], workers := map[0 := Worker(Scanning({}, None), false)]);
    AppliedLate(before, p, d, s2, s4);
    AfterTwo(s2, DoCommit(0, true), DoApply(0, true));
    AfterOne(s4, DoPublish(0, true));
    AfterConcat(s2, [DoCommit(0, true), DoApply(0, true)], [DoPublish(0, true)]);
    AfterConcat(s, [DoRead(0, p, true), DoWrite(0, p, d, d)], [DoCommit(0, true), DoApply(0, true)] + [DoPublish(0, true)]);
    hide Write, Read, Apply, Commit;
    assert Do(s4, DoPublish(0, true)) == Published(before).(disk := map[p := d], faults := s2.faults);
  }

  lemma WrittenWhileRead(before: map<Str, Content>, p: Str, d: Content, s2: State)
    requires before.Keys <= {p} && (p in before ==> before[p] != d)
    requires s2 == Scanned(before).(disk := map[p := d], pending := map[0 := (p, d)], workers := map[0 := FoundIn(before, p)],
                     faults := {if p in before then ScanStale else ScanMissed})
    ensures Do(Do(Scanned(before), DoRead(0, p, true)), DoWrite(0, p, d, d)) == s2
  {
    var s := Scanned(before);
    var s1 := Do(s, DoRead(0, p, true));
    assert before.Keys - {p} == {} && before[p := d] == map[p := d];
    assert s1.workers == map[0 := FoundIn(before, p)] && Reads(s1, 0, p);
    assert WriteFaults(s1, p, d) == s2.faults;
  }

  lemma AppliedLate(before: map<Str, Content>, p: Str, d: Content, s2: State, s4: State)
    requires before.Keys <= {p} && s2.index == map[] && s2.disk == map[p := d] && s2.pending == map[0 := (p, d)]
    requires s2.workers == map[0 := FoundIn(before, p)]
    requires s4 == s2.(index := before, pending := map[], workers := map[0 := Worker(Scanning({}, None), false)])
    ensures Do(Do(s2, DoCommit(0, true)), DoApply(0, true)) == s4
  {
    var s3 := s2.(index := map[p := d], pending := map[]);
    CommittedWhileRead(p, d, s2);
    hide Commit;
    assert map[p := d] - {p} == map[];
    assert p in before ==> before == map[p := before[p]];
    assert p !in before ==> before == map[];
    assert Do(s3, DoApply(0, true)) == s4;
  }

  lemma CommittedWhileRead(p: Str, d: Content, s2: State)
    requires s2.index == map[] && s2.disk == map[p := d] && s2.pending == map[0 := (p, d)]
    ensures Do(s2, DoCommit(0, true)) == s2.(index := map[p := d], pending := map[])
  {
    assert s2.pending - {0} == map[];
  }

  /** Two writes of one file that are committed in the other order. */
  lemma CommittedLate(p: Str, c: Content, d: Content)
    requires c != d
    ensures After(Published(map[]), [DoWrite(0, p, c, c), DoWrite(1, p, d, d)] + [DoCommit(1, true), DoCommit(0, true)])
         == Published(map[]).(disk := map[p := d], index := map[p := c], faults := {LateCommit})
  {
    hide After, Do;
    var s := Published(map[]);
    var s2 := s.(disk := map[p := d], pending := map[0 := (p, c), 1 := (p, d)]);
    WrittenTwice(p, c, d, s2);
    AfterTwo(s, DoWrite(0, p, c, c), DoWrite(1, p, d, d));
    AfterTwo(s2, DoCommit(1, true), DoCommit(0, true));
    CommittedTwice(p, c, d, s2);
    AfterConcat(s, [DoWrite(0, p, c, c), DoWrite(1, p, d, d)], [DoCommit(1, true), DoCommit(0, true)]);
  }

  lemma CommittedTwice(p: Str, c: Content, d: Content, s2: State)
    requires c != d && s2 == Published(map[]).(disk := map[p := d], pending := map[0 := (p, c), 1 := (p, d)])
    ensures Do(Do(s2, DoCommit(1, true)), DoCommit(0, true))
         == Published(map[]).(disk := map[p := d], index := map[p := c], faults := {LateCommit})
  {
    assert s2.pending - {1} == map[0 := (p, c)] && map[0 := (p, c)] - {0} == map[];
    assert map[p := d][p := c] == map[p := c];
  }

  /** A response that is not stored replaces the entry of the file that stays. */
  lemma CommittedStray(p: Str, c: Content, d: Content)
    requires c != d
    ensures After(Published(map[p := c]), [DoStrayCommit(p, d, true)])
         == Published(map[p := c]).(index := map[p := d], faults := {StrayCommit})
  {
    hide After;
    AfterOne(Published(map[p := c]), DoStrayCommit(p, d, true));
    assert map[p := c][p := d] == map[p := d];
  }

  lemma WrittenTwice(p: Str, c: Content, d: Content, s2: State)
    requires s2 == Published(map[]).(disk := map[p := d], pending := map[0 := (p, c), 1 := (p, d)])
    ensures Do(Do(Published(map[]), DoWrite(0, p, c, c)), DoWrite(1, p, d, d)) == s2
  {
    Written(Published(map[]), 0, p, c);
    var s1 := Do(Published(map[]), DoWrite(0, p, c, c));
    assert s1.pending[0].0 == p && WriteFaults(s1, p, d) == {};
    assert s1.disk == map[p := c];
  }

  /** A file whose unlink failed loses its entry. */
  lemma KeptFile(s: State, p: Str)
    requires s.dying == map[] && p in s.disk
    ensures After(s, [DoUnlink(0, p, false), DoDelete(0)])
         == s.(index := s.index - {p}, faults := s.faults + {UnlinkFailed})
  {
    hide After;
    AfterTwo(s, DoUnlink(0, p, false), DoDelete(0));
    assert map[0 := p] - {0} == map[];
  }

  lemma EmptyRun()
    ensures After(Init(map[]), [Warm, DoBegin(0)] + [DoPublish(0, true)]) == Published(map[])
  {
    hide After;
    ScanOf(map[]);
    AfterConcat(Init(map[]), [Warm, DoBegin(0)], [DoPublish(0, true)]);
    var none: map<Str, Content> := map[];
    assert none.Keys == {};
    AfterOne(Scanned(none), DoPublish(0, true));
  }

  lemma IndexedRun(p: Str, c: Content)
    ensures After(Init(map[p := c]), [Warm, DoBegin(0)] + [DoRead(0, p, true), DoApply(0, true)] + [DoPublish(0, true)])
         == Published(map[p := c])
  {
    hide After;
    var one := map[p := c];
    var scan := [Warm, DoBegin(0)];
    var read := [DoRead(0, p, true), DoApply(0, true)];
    ScanOf(one);
    assert one.Keys == {p} && {p} - {p} == {};
    TakeOne(Scanned(one), 0, {p}, p);
    AfterTwo(Scanned(one), DoRead(0, p, true), DoApply(0, true));
    AfterConcat(Init(one), scan, read);
    AfterConcat(Init(one), scan + read, [DoPublish(0, true)]);
    AfterOne(After(Init(one), scan + read), DoPublish(0, true));
  }
}
