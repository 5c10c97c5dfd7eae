/** One purge request from its headers to its status, and runs of requests. The
    request names its tags twice: before the dispatch and again in the handler. */
module Dispatch {
  import opened Bytes
  import opened FileNames
  import opened SharedHeap
  import opened IndexHits
  import opened Tokens
  import opened TagHeaders
  import opened CacheState
  import opened PurgeSpec
  import opened Purge
  import opened PlainTerms

  /** A request in its location. The mode header can override `confSoft`, but not for
      the full purge. The others are what nginx, the file system, the memory pool and
      the clock will do; `first` and `second` are what the pool grants to the two
      readings of the tags. */
  datatype Request = Request(indexed: bool, headers: seq<Header>, wanted: seq<Str>, key: Str,
                             modeHeader: Str, confSoft: bool, purgeAll: bool,
                             entry: Opened, walk: seq<Str>, finished: bool, io: Faults,
                             first: nat, second: nat, mem: Grants, now: int)

  datatype Status = Status200 | Status412 | Status500

  function Soft(r: Request): bool {
    ModeOf(r.headers, r.modeHeader, r.confSoft)
  }

  function Tags(r: Request): seq<Str> {
    TagsIn(r.headers, r.wanted)
  }

  predicate NamesTags(r: Request) {
    r.indexed && Tags(r) != []
  }

  predicate Special(r: Request) {
    r.purgeAll || IsPartial(r.key)
  }

  /** The counter that the request should bump. */
  function Own(r: Request): Bucket {
    if NamesTags(r) then (Tag, Soft(r))
    else if r.purgeAll then (All, r.confSoft)
    else if IsPartial(r.key) then (Wildcard, Soft(r))
    else (Exact, Soft(r))
  }

  /** Tags come first, then the full purge, whose mode no header can change, then a star. */
  lemma OwnMeans(r: Request)
    ensures Own(r).0 == Tag <==> r.indexed && TagsIn(r.headers, r.wanted) != []
    ensures Own(r).0 == All <==> !(r.indexed && TagsIn(r.headers, r.wanted) != []) && r.purgeAll
    ensures Own(r).0 == Wildcard <==>
              !(r.indexed && TagsIn(r.headers, r.wanted) != []) && !r.purgeAll && r.key != [] && r.key[|r.key| - 1] == 42
    ensures Own(r).1 == if Own(r).0 == All then r.confSoft else ModeOf(r.headers, r.modeHeader, r.confSoft)
  {
  }

  // ----- the two readings of the tags -----

  predicate First(r: Request) {
    r.indexed ==> |Tags(r)| < r.first
  }

  predicate Second(r: Request) {
    r.indexed ==> |Tags(r)| < r.second
  }

  /** A reading needs memory for the list and for each tag, if there is an index at all. */
  lemma ReadingsMean(r: Request)
    ensures First(r) <==> !r.indexed || 1 + |TagsIn(r.headers, r.wanted)| <= r.first
    ensures Second(r) <==> !r.indexed || 1 + |TagsIn(r.headers, r.wanted)| <= r.second
    ensures Special(r) <==> r.purgeAll || (r.key != [] && r.key[|r.key| - 1] == 42)
  {
  }

  /** Whether the pool grants enough for the two readings to agree with the request. */
  predicate Sound(r: Request) {
    if NamesTags(r) then First(r) && (Second(r) || Special(r)) else First(r) || !Special(r)
  }

  /** The first reading fails and the handler has nothing to do. */
  predicate Silent(r: Request) {
    !First(r) && (Special(r) || (NamesTags(r) && Second(r)))
  }

  /** Both readings fail, and a tag purge turns into an exact one. */
  predicate Misread(r: Request) {
    NamesTags(r) && !First(r) && !Second(r) && !Special(r)
  }

  /** The second reading fails, and an exact purge follows the tag purge. */
  predicate Doubled(r: Request) {
    NamesTags(r) && First(r) && !Second(r) && !Special(r)
  }

  /** These are all the ways in which a request is not sound, and they differ. */
  lemma UnsoundKinds(r: Request)
    ensures !Sound(r) <==> Silent(r) || Misread(r) || Doubled(r)
    ensures !(Silent(r) && Misread(r)) && !(Silent(r) && Doubled(r)) && !(Misread(r) && Doubled(r))
  {
  }

  // ----- what a request comes to -----

  /** The index can be used and the zone is complete. */
  ghost predicate Ready(obstacle: Reason, s: Heap, zone: Str) {
    obstacle == Unset && StateOf(s, zone).bootstrapComplete
  }

  /** ngx_http_file_cache_open: any outcome, as long as file and node belong together. */
  ghost function Opening(o: Opened, c: Cache): Opened {
    if OpenedRight(o, c) then o else Absent
  }

  ghost predicate ExactFails(r: Request, obstacle: Reason, zone: Str, c: Cache, view: map<Id, Meta>) {
    var o := Opening(r.entry, c);
    if Soft(r) then SoftFails(o, c, KeyHits(view, zone, r.key), r.io, obstacle, r.mem)
    else HardFails(o, c, OtherFiles(view, zone, r.key, o), r.io, obstacle, r.mem)
  }

  /** The exact purge of the request, which may find nothing. */
  ghost predicate ExactDone(r: Request, obstacle: Reason, zone: Str, c: Cache, view: map<Id, Meta>,
                            count: nat, c': Cache, view': map<Id, Meta>) {
    var o := Opening(r.entry, c);
    if if Soft(r) then SoftMisses(o, c, r.io) else !Purgeable(o, c) then
      count == 0 && c' == c && view' == view
    else
      && o.Found? && o.node in c.nodes
      && if Soft(r) then ExactExpired(c, view, zone, r.key, o, obstacle, r.mem, count, c') && view' == view
         else ExactPurged(c, view, zone, r.key, o, o.path in r.io.unlink, obstacle, r.mem, count, c', view')
  }

  /** When the purge that the request asks for is an error, the index being ready if
      tags are named. */
  ghost predicate Fails(r: Request, obstacle: Reason, zone: Str, c: Cache, view: map<Id, Meta>) {
    match Own(r).0
    case Tag => TagFails(r.mem.list, TagHits(view, zone, Tags(r)), Soft(r), r.io, c.disk)
    case All => !r.finished
    case Wildcard =>
      WildcardFails(r.key, PrefixHits(view, zone, IndexPrefix(r.key)), Soft(r), r.io, r.finished, c.disk, obstacle, r.mem)
    case Exact => ExactFails(r, obstacle, zone, c, view)
  }

  /** What the purge that the request asks for does when it succeeds. */
  ghost predicate Done(r: Request, obstacle: Reason, zone: Str, c: Cache, view: map<Id, Meta>,
                       count: nat, c': Cache, view': map<Id, Meta>) {
    match Own(r).0
    case Tag =>
      var hits := TagHits(view, zone, Tags(r));
      count == |hits * c.disk.Keys| && TagPurged(c, view, zone, hits, Soft(r), c', view')
    case All =>
      && view' == view && count == |WalkHits(r.walk, [], r.confSoft, r.io, c.disk)|
      && Walked(c, r.walk, [], r.confSoft, r.io, c')
    case Wildcard =>
      var asked := Asked(obstacle, r.mem.list, PrefixHits(view, zone, IndexPrefix(r.key)));
      WildcardPurged(c, view, zone, r.key, Soft(r), r.walk, r.io, asked, count, c', view')
    case Exact => ExactDone(r, obstacle, zone, c, view, count, c', view')
  }

  // ----- the code -----

  method CacheOpen(e: Purger, found: Opened) returns (o: Opened)
    ensures o == Opening(found, e.cache)
  {
    o := found;
    if o.Found? {
      var key := FilenameKey(o.path);
      if o.node !in e.cache.nodes || key != Some(o.node) {
        o := Absent;
      }
    }
  }

  method ReadTags(r: Request, pool: nat) returns (ok: bool, tags: seq<Str>)
    ensures ok <==> (r.indexed ==> |Tags(r)| < pool)
    ensures tags == if r.indexed && ok then Tags(r) else []
  {
    if !r.indexed {
      return true, [];
    }
    ok, tags := RequestHeaders(r.headers, r.wanted, pool);
    if !ok {
      tags := [];
    }
  }

  /** dispatch_special. If the tags cannot be read, nothing is handled. */
  method DispatchSpecial(e: Purger, r: Request) returns (rc: Rc, handled: bool, ghost count: nat)
    requires e.Valid() && NoDup(r.walk)
    modifies e, e.index
    ensures e.Valid() && Recorded(old(e.entries), e.entries, old(e.purged), e.purged, Own(r), count)
    ensures handled <==> First(r) && (NamesTags(r) || Special(r))
    ensures handled ==>
              var refused := NamesTags(r) && !Ready(e.obstacle, old(e.index.shm), e.zone);
              && (rc == DECLINED <==> refused)
              && (rc == ERROR <==> !refused && Fails(r, e.obstacle, e.zone, old(e.cache), old(e.index.view)))
    ensures handled && rc == OK ==>
              CountedOnce(old(e.ops), e.ops, Own(r))
              && Done(r, e.obstacle, e.zone, old(e.cache), old(e.index.view), count, e.cache, e.index.view)
    ensures handled && rc == DECLINED ==> e.reason != NotFound
    ensures !(handled && rc == OK) ==> e.ops == old(e.ops) && count == 0
    ensures !handled ==> e.cache == old(e.cache) && e.index.view == old(e.index.view)
  {
    hide Consistent, Accounted, StateOf, TagHits, TagPurged, OnlyFiles, NoneUncovered, Recorded, CountedOnce,
      WildcardPurged, Walked, WalkHits, TagsIn, ExactFails, ExactDone, TagFails, WildcardFails, PrefixHits, ModeOf, Asked;
    NothingRecorded(e.entries, e.purged, Own(r));
    count := 0;
    var ok, tags := ReadTags(r, r.first);
    if !ok {
      return ERROR, false, count;
    }
    if tags != [] {
      rc, count := DispatchTags(e, r, tags);
      return rc, true, count;
    }
    if r.purgeAll {
      rc, count := e.PurgeAll(r.confSoft, r.walk, r.finished, r.io);
      return rc, true, count;
    }
    if IsPartial(r.key) {
      var soft := RequestMode(r.headers, r.modeHeader, r.confSoft);
      rc, count := e.Partial(r.key, soft, r.walk, r.finished, r.io, r.mem, r.now);
      return rc, true, count;
    }
    return OK, false, count;
  }

  /** The tag branch; finding nothing is a success. */
  method DispatchTags(e: Purger, r: Request, tags: seq<Str>) returns (rc: Rc, ghost count: nat)
    requires e.Valid() && r.indexed && tags == Tags(r) != []
    modifies e, e.index
    ensures e.Valid() && Recorded(old(e.entries), e.entries, old(e.purged), e.purged, (Tag, Soft(r)), count)
    ensures var hits := TagHits(old(e.index.view), e.zone, Tags(r));
      var ready := Ready(e.obstacle, old(e.index.shm), e.zone);
      && (rc == DECLINED <==> !ready)
      && (rc == ERROR <==> ready && TagFails(r.mem.list, hits, Soft(r), r.io, old(e.cache).disk))
      && (rc == OK ==> count == |hits * old(e.cache).disk.Keys|
                       && TagPurged(old(e.cache), old(e.index.view), e.zone, hits, Soft(r), e.cache, e.index.view))
    ensures rc == DECLINED ==> e.reason != NotFound
    ensures rc == OK ==> CountedOnce(old(e.ops), e.ops, (Tag, Soft(r)))
    ensures rc != OK ==> e.ops == old(e.ops) && count == 0
  {
    hide Consistent, Accounted, StateOf, TagHits, TagPurged, OnlyFiles, NoneUncovered, Recorded, CountedOnce,
      TagsIn, TagFails, ModeOf;
    var soft := RequestMode(r.headers, r.modeHeader, r.confSoft);
    ghost var hits := TagHits(e.index.view, e.zone, tags);
    rc := e.TagPurge(tags, soft, r.io, r.mem.list, r.now);
    count := 0;
    if Settled(rc, e.reason) {
      e.RecordPurgeRequest((Tag, soft));
      EmptyCommon(hits, old(e.cache).disk.Keys);
      count := |hits * old(e.cache).disk.Keys|;
      rc := OK;
    }
  }

  lemma EmptyCommon(a: set<Str>, b: set<Str>)
    ensures a * b == {} ==> |a * b| == 0
  {
  }

  /** The purge handler: an exact purge unless tags, a star or a full purge are named. */
  method Handle(e: Purger, r: Request) returns (status: Status, ghost count: nat)
    requires e.Valid()
    modifies e, e.index
    ensures e.Valid() && Recorded(old(e.entries), e.entries, old(e.purged), e.purged, (Exact, Soft(r)), count)
    ensures (NamesTags(r) && Second(r)) || Special(r) ==>
              status == Status200 && e.ops == old(e.ops) && e.cache == old(e.cache) && e.index.view == old(e.index.view)
              && count == 0
    ensures status != Status412
    ensures !((NamesTags(r) && Second(r)) || Special(r)) ==>
              (status == Status500 <==> ExactFails(r, e.obstacle, e.zone, old(e.cache), old(e.index.view)))
    ensures !((NamesTags(r) && Second(r)) || Special(r)) && status == Status200 ==>
              CountedOnce(old(e.ops), e.ops, (Exact, Soft(r)))
              && ExactDone(r, e.obstacle, e.zone, old(e.cache), old(e.index.view), count, e.cache, e.index.view)
    ensures status == Status500 ==>
              count == 0 && (e.ops == old(e.ops) || (!Soft(r) && CountedOnce(old(e.ops), e.ops, (Exact, false))))
  {
    hide Consistent, Accounted, StateOf, NoneUncovered, Recorded, CountedOnce, ExactPurged, ExactExpired, KeyHits,
      Siblings, OtherFiles, KeyOf, TagsIn, ModeOf, HardFails, SoftFails, SoftMisses;
    NothingRecorded(e.entries, e.purged, (Exact, Soft(r)));
    count := 0;
    var ok, tags := ReadTags(r, r.second);
    if tags != [] || r.purgeAll || IsPartial(r.key) {
      return Status200, count;
    }
    var mode := RequestMode(r.headers, r.modeHeader, r.confSoft);
    var o := CacheOpen(e, r.entry);
    var rc;
    if mode {
      rc, count := e.ExactPurgeSoft(o, r.key, r.io, r.mem, r.now);
    } else {
      rc, count := e.ExactPurge(o, r.key, r.io, r.mem, r.now);
    }
    match rc {
      case OK =>
        status := Status200;
      case DECLINED =>
        if e.reason != NotFound {
          return Status412, count;
        }
        e.RecordPurgeRequest((Exact, mode));
        status := Status200;
      case ERROR =>
        status := Status500;
    }
  }

  /** The whole request. A sound one is answered and purges as it asks to; of those
      answered 200, exactly the sound ones bump one counter, their own. `c1` and `v1`
      are what the dispatch leaves to the handler. */
  method Serve(e: Purger, r: Request) returns (status: Status, ghost count: nat, ghost c1: Cache, ghost v1: map<Id, Meta>)
    requires e.Valid() && NoDup(r.walk)
    modifies e, e.index
    ensures e.Valid()
    ensures forall c :: Count(e.entries, c) == Count(old(e.entries), c) + Count(e.purged, c)
    ensures status == Status200 ==> (CountedOnce(old(e.ops), e.ops, Own(r)) <==> Sound(r))
    ensures Sound(r) ==>
              var refused := NamesTags(r) && !Ready(e.obstacle, old(e.index.shm), e.zone);
              && (status == Status412 <==> refused)
              && (status == Status500 <==> !refused && Fails(r, e.obstacle, e.zone, old(e.cache), old(e.index.view)))
              && (status == Status200 ==>
                    Done(r, e.obstacle, e.zone, old(e.cache), old(e.index.view), count, e.cache, e.index.view))
              && (forall c :: Count(e.purged, c) == if c == Own(r) then count else 0)
              && (status != Status200 ==>
                    e.ops == old(e.ops) || (Own(r) == (Exact, false) && CountedOnce(old(e.ops), e.ops, Own(r))))
    ensures Silent(r) ==>
              && status == Status200 && e.ops == old(e.ops) && e.cache == old(e.cache) && e.index.view == old(e.index.view)
              && (forall c :: Count(e.purged, c) == 0)
    ensures Misread(r) ==>
              && status != Status412
              && (status == Status500 <==> ExactFails(r, e.obstacle, e.zone, old(e.cache), old(e.index.view)))
              && (status == Status200 ==> CountedOnce(old(e.ops), e.ops, (Exact, Soft(r))))
    ensures Doubled(r) ==>
              var ready := Ready(e.obstacle, old(e.index.shm), e.zone);
              var failed := Fails(r, e.obstacle, e.zone, old(e.cache), old(e.index.view));
              && (status == Status412 <==> !ready)
              && (status == Status500 <==> ready && (failed || ExactFails(r, e.obstacle, e.zone, c1, v1)))
              && (ready && !failed ==> exists n :: Done(r, e.obstacle, e.zone, old(e.cache), old(e.index.view), n, c1, v1))
    ensures Doubled(r) && status == Status200 ==> forall c ::
              Count(e.ops, c) == Count(old(e.ops), c) + if c == (Tag, Soft(r)) || c == (Exact, Soft(r)) then 1 else 0
  {
    hide Consistent, Accounted, StateOf, TagsIn, CountedOnce, Fails, Done, ExactFails, ExactDone, Ready, ModeOf, Recorded;
    UnsoundKinds(r);
    e.purged, e.reason, e.route := map[], Unset, NoRoute;
    ghost var ops, entries, none := e.ops, e.entries, e.purged;
    var rc, handled;
    ghost var n1, n2;
    rc, handled, n1 := DispatchSpecial(e, r);
    ghost var ops1, entries1, purged1 := e.ops, e.entries, e.purged;
    count, c1, v1 := n1, e.cache, e.index.view;
    OneRecord(entries, e.entries, none, e.purged, Own(r), n1);
    if handled && rc == DECLINED {
      status := if e.reason == NotFound then Status200 else Status412;
      return;
    }
    if handled && rc != OK {
      status := Status500;
      return;
    }
    status, n2 := Handle(e, r);
    TwoRecords(entries, entries1, e.entries, none, purged1, e.purged, Own(r), n1, (Exact, Soft(r)), n2);
    Bumped(ops, ops1, e.ops, Own(r), (Exact, Soft(r)));
    count := if handled then n1 else n2;
    if !NamesTags(r) && !Special(r) {
      OwnExact(r, e.obstacle, e.zone, old(e.cache), old(e.index.view), n2, e.cache, e.index.view);
    }
  }

  lemma OneRecord(entries: Counts, entries': Counts, purged: Counts, purged': Counts, b: Bucket, n: nat)
    requires Recorded(entries, entries', purged, purged', b, n) && purged == map[]
    ensures forall c :: Count(entries', c) == Count(entries, c) + Count(purged', c)
    ensures forall c :: Count(purged', c) == if c == b then n else 0
  {
  }

  lemma TwoRecords(e0: Counts, e1: Counts, e2: Counts, p0: Counts, p1: Counts, p2: Counts, b: Bucket, n: nat,
                   b': Bucket, n': nat)
    requires Recorded(e0, e1, p0, p1, b, n) && Recorded(e1, e2, p1, p2, b', n') && p0 == map[]
    ensures forall c :: Count(e2, c) == Count(e0, c) + Count(p2, c)
    ensures forall c :: Count(p2, c) == (if c == b then n else 0) + (if c == b' then n' else 0)
  {
  }

  /** What the bumps of the dispatch and of the handler amount to. */
  lemma Bumped(ops: Counts, ops1: Counts, ops2: Counts, own: Bucket, exact: Bucket)
    ensures ops2 == ops ==> !CountedOnce(ops, ops2, own)
    ensures CountedOnce(ops, ops1, own) && CountedOnce(ops1, ops2, exact) ==> !CountedOnce(ops, ops2, own)
    ensures CountedOnce(ops, ops1, own) && CountedOnce(ops1, ops2, exact) && own != exact ==>
              forall c :: Count(ops2, c) == Count(ops, c) + if c == own || c == exact then 1 else 0
    ensures CountedOnce(ops, ops2, exact) && own != exact ==> !CountedOnce(ops, ops2, own)
  {
    assert CountedOnce(ops, ops2, own) ==> Count(ops2, own) == Count(ops, own) + 1;
    assert CountedOnce(ops, ops2, own) ==> Count(ops2, exact) == Count(ops, exact) + if exact == own then 1 else 0;
  }

  lemma OwnExact(r: Request, obstacle: Reason, zone: Str, c: Cache, view: map<Id, Meta>, count: nat, c': Cache,
                 view': map<Id, Meta>)
    requires !NamesTags(r) && !Special(r)
    ensures Own(r) == (Exact, Soft(r))
    ensures Fails(r, obstacle, zone, c, view) <==> ExactFails(r, obstacle, zone, c, view)
    ensures Done(r, obstacle, zone, c, view, count, c', view') <==> ExactDone(r, obstacle, zone, c, view, count, c', view')
  {
    hide ExactFails, ExactDone;
  }

  // ----- what a served request has done -----

  lemma TermsMean(r: Request, obstacle: Reason, s: Heap, zone: Str, c: Cache, view: map<Id, Meta>)
    ensures Ready(obstacle, s, zone) <==> obstacle == Unset && StateOf(s, zone).bootstrapComplete
    ensures r.entry.Found? && r.entry.node in c.nodes && KeyOf(r.entry.path) == Some(r.entry.node) ==>
              Opening(r.entry, c) == r.entry
    ensures r.entry.Found? && !(r.entry.node in c.nodes && KeyOf(r.entry.path) == Some(r.entry.node)) ==>
              Opening(r.entry, c) == Absent
    ensures Own(r).0 == All ==> (Fails(r, obstacle, zone, c, view) <==> !r.finished)
    ensures Own(r).0 == Tag ==>
              (Fails(r, obstacle, zone, c, view) <==>
                TagFails(r.mem.list, TagHits(view, zone, TagsIn(r.headers, r.wanted)), Soft(r), r.io, c.disk))
    ensures Own(r).0 == Exact && r.entry.Found? && Opening(r.entry, c) == r.entry ==>
              (Fails(r, obstacle, zone, c, view) <==>
                if Soft(r) then SoftFails(r.entry, c, KeyHits(view, zone, r.key), r.io, obstacle, r.mem)
                else HardFails(r.entry, c, KeyHits(view, zone, r.key) - {r.entry.path}, r.io, obstacle, r.mem))
  {
  }

  /** A request that names tags, file by file. */
  lemma ServedTags(r: Request, obstacle: Reason, zone: Str, c: Cache, view: map<Id, Meta>, count: nat, c': Cache,
                   view': map<Id, Meta>, p: Str)
    requires r.indexed && TagsIn(r.headers, r.wanted) != [] && Done(r, obstacle, zone, c, view, count, c', view')
    ensures var tags, soft := TagsIn(r.headers, r.wanted), ModeOf(r.headers, r.modeHeader, r.confSoft);
      var hit := (zone, p) in view && exists i :: 0 <= i < |tags| && tags[i] in view[(zone, p)].tags;
      && (p in c'.disk <==> p in c.disk && (soft || !hit))
      && (p in c'.disk ==>
            c'.disk[p] == DiskFile(c.disk[p].key, c.disk[p].tags, c.disk[p].expired || (soft && hit)))
      && ((zone, p) in view' <==> (zone, p) in view && !(hit && (!soft || p !in c.disk)))
      && count == |TagHits(view, zone, tags) * c.disk.Keys|
  {
    hide TagPurged, TagHits, TagsIn, ModeOf;
    TagPurgedMeans(c, view, zone, Tags(r), Soft(r), c', view', p);
  }

  /** A full purge. */
  lemma ServedAll(r: Request, obstacle: Reason, zone: Str, c: Cache, view: map<Id, Meta>, count: nat, c': Cache,
                  view': map<Id, Meta>, p: Str)
    requires Own(r).0 == All && Done(r, obstacle, zone, c, view, count, c', view')
    ensures view' == view && r.purgeAll
    ensures !r.confSoft ==>
              && (p in c'.disk <==> p in c.disk && (p !in r.walk || p in r.io.stat || p in r.io.unlink))
              && count == |set q | q in r.walk && q in c.disk && q !in r.io.stat && q !in r.io.unlink|
    ensures r.confSoft ==>
              && (p in c'.disk <==> p in c.disk)
              && (p in c'.disk ==> (c'.disk[p].expired <==> c.disk[p].expired || (p in r.walk && p !in r.io.header)))
              && count == |set q | q in r.walk && q in c.disk && q !in r.io.header|
  {
    hide Walked, WalkHits, TagsIn, ModeOf;
    WalkedAll(c, r.walk, r.confSoft, r.io, c');
  }

  /** A key that ends in a star, without an index. */
  lemma ServedByWalk(r: Request, obstacle: Reason, zone: Str, prefix: Str, c: Cache, view: map<Id, Meta>, count: nat,
                     c': Cache, view': map<Id, Meta>, p: Str)
    requires Own(r).0 == Wildcard && r.key == prefix + [42] && prefix != [] && obstacle != Unset && p in c.disk
    requires Done(r, obstacle, zone, c, view, count, c', view') && !ModeOf(r.headers, r.modeHeader, r.confSoft)
    ensures var key := c.disk[p].key;
      p !in c'.disk <==>
        && p in r.walk && p !in r.io.read && p !in r.io.stat && p !in r.io.unlink
        && |prefix| <= |key| && forall i :: 0 <= i < |prefix| ==>
             || key[i] == prefix[i]
             || (65 <= key[i] <= 90 && prefix[i] == key[i] + 32)
             || (65 <= prefix[i] <= 90 && key[i] == prefix[i] + 32)
    ensures view' == view
  {
    hide WildcardPurged, TagsIn, ModeOf, PrefixHits;
    AskedMeans(obstacle, r.mem, PrefixHits(view, zone, IndexPrefix(r.key)));
    WildcardByWalk(c, view, zone, prefix, false, r.walk, r.io, false, count, c', view', p);
    UnaskedKeeps(c, view, zone, r.key, r.walk, r.io, count, c', view');
  }

  lemma UnaskedKeeps(c: Cache, view: map<Id, Meta>, zone: Str, key: Str, walk: seq<Str>, io: Faults, count: nat, c': Cache,
                     view': map<Id, Meta>)
    requires WildcardPurged(c, view, zone, key, false, walk, io, false, count, c', view')
    ensures view' == view
  {
    hide Walked, WalkHits, PrefixHits;
  }

  /** A key that ends in a star, with an index that knows a file. */
  lemma ServedByIndex(r: Request, obstacle: Reason, zone: Str, prefix: Str, c: Cache, view: map<Id, Meta>, count: nat,
                      c': Cache, view': map<Id, Meta>, some: Str, p: Str)
    requires Own(r).0 == Wildcard && r.key == prefix + [42] && prefix != []
    requires obstacle == Unset && 1 + |PrefixHits(view, zone, prefix)| <= r.mem.list
    requires some in c.disk && (zone, some) in view && prefix <= view[(zone, some)].key
    requires Done(r, obstacle, zone, c, view, count, c', view') && !ModeOf(r.headers, r.modeHeader, r.confSoft)
    ensures var hit := (zone, p) in view && prefix <= view[(zone, p)].key;
      && (p in c'.disk <==> p in c.disk && !hit) && ((zone, p) in view' <==> (zone, p) in view && !hit)
  {
    hide WildcardPurged, TagsIn, ModeOf, PrefixHits;
    StarKeys(prefix);
    AskedMeans(obstacle, r.mem, PrefixHits(view, zone, prefix));
    WildcardByIndex(c, view, zone, prefix, false, r.walk, r.io, count, c', view', some, p);
  }

  /** Any other key, hard, with an index: its files and entries, and the opened file. */
  lemma ServedExact(r: Request, zone: Str, c: Cache, view: map<Id, Meta>, count: nat, c': Cache, view': map<Id, Meta>,
                    p: Str)
    requires Own(r).0 == Exact && r.key != [] && !ModeOf(r.headers, r.modeHeader, r.confSoft)
    requires r.entry.Found? && r.entry.node in c.nodes && KeyOf(r.entry.path) == Some(r.entry.node)
    requires c.nodes[r.entry.node].present
    requires r.mem.keyText && 1 + |KeyHits(view, zone, r.key) - {r.entry.path}| <= r.mem.list
    requires Done(r, Unset, zone, c, view, count, c', view')
    ensures var keyed := (zone, p) in view && view[(zone, p)].key == r.key;
      && (p in c'.disk <==> p in c.disk && if p == r.entry.path then p in r.io.unlink else !keyed)
      && ((zone, p) in view' <==> (zone, p) in view && !keyed && p != r.entry.path)
  {
    hide ExactPurged, TagsIn, ModeOf, KeyHits, KeyOf;
    ExactPurgedMeans(c, view, zone, r.key, r.entry, r.entry.path in r.io.unlink, r.mem, count, c', view', p);
  }

  /** And soft. */
  lemma ServedExactSoft(r: Request, zone: Str, c: Cache, view: map<Id, Meta>, count: nat, c': Cache,
                        view': map<Id, Meta>, p: Str)
    requires Own(r).0 == Exact && r.key != [] && ModeOf(r.headers, r.modeHeader, r.confSoft)
    requires r.entry.Found? && r.entry.node in c.nodes && KeyOf(r.entry.path) == Some(r.entry.node)
    requires c.nodes[r.entry.node].present && r.entry.path in c.disk
    requires r.mem.keyText && 1 + |KeyHits(view, zone, r.key)| <= r.mem.list
    requires Done(r, Unset, zone, c, view, count, c', view')
    ensures var keyed := (zone, p) in view && view[(zone, p)].key == r.key;
      && (p in c'.disk <==> p in c.disk)
      && (p in c'.disk ==> (c'.disk[p].expired <==> c.disk[p].expired || keyed || p == r.entry.path))
      && view' == view
  {
    hide ExactExpired, TagsIn, ModeOf, KeyHits, KeyOf;
    ExactExpiredMeans(c, view, zone, r.key, r.entry, r.mem, count, c', p);
  }

  /** When nothing was opened, an exact purge does nothing. */
  lemma ServedNothing(r: Request, obstacle: Reason, zone: Str, c: Cache, view: map<Id, Meta>, count: nat, c': Cache,
                      view': map<Id, Meta>)
    requires Own(r).0 == Exact && r.entry == Absent && Done(r, obstacle, zone, c, view, count, c', view')
    ensures count == 0 && c' == c && view' == view
  {
  }

  // ----- a request that is not sound -----

  /** One tag header with one tag. */
  lemma OneTag(name: Str, tag: Str)
    requires tag != [] && !HasSeparator(tag)
    ensures TagsIn([Header(name, tag)], [name]) == [tag]
  {
    var h := Header(name, tag);
    assert [] + [h] == [h] && SameFolded(name, [name][0]);
    TagsOfLast([], h, [name]);
    TokenLaws(tag, [], COMMA, []);
    assert [tag][1..] == [] && Noted([], tag) == [tag];
  }

  /** With a full purge configured and no memory for the first reading of its one tag,
      a request is answered 200; nothing is purged and nothing counted. */
  method ServeSilently(e: Purger, name: Str, tag: Str, key: Str, now: int) returns (r: Request, status: Status)
    requires e.Valid() && tag != [] && !HasSeparator(tag)
    modifies e, e.index
    ensures NamesTags(r) && r.purgeAll && r.finished && !Sound(r) && status == Status200
    ensures e.cache == old(e.cache) && e.index.view == old(e.index.view) && e.ops == old(e.ops)
  {
    hide Consistent, Accounted, StateOf, TagsIn, CountedOnce, Fails, Done, Ready, ModeOf;
    OneTag(name, tag);
    r := Request(true, [Header(name, tag)], [name], key, [], false, true, Absent, [], true, Faults({}, {}, {}, {}),
                 0, 2, Grants(true, 1, true, true), now);
    ghost var count, c1, v1;
    status, count, c1, v1 := Serve(e, r);
  }

  // ----- runs -----

  function Total(log: seq<Counts>, b: Bucket): nat {
    if log == [] then 0 else Total(log[..|log| - 1], b) + Count(log[|log| - 1], b)
  }

  /** Over any run of requests the shared counters of purged entries are the sums of
      the requests' own, and the accounted size stays the sum over the nodes. */
  method ServeAll(e: Purger, rs: seq<Request>) returns (log: seq<Counts>)
    requires e.Valid() && forall i :: 0 <= i < |rs| ==> NoDup(rs[i].walk)
    modifies e, e.index
    ensures e.Valid() && |log| == |rs|
    ensures forall b :: Count(e.entries, b) == Count(old(e.entries), b) + Total(log, b)
    ensures e.cache.size == TotalSize(e.cache.nodes)
  {
    hide Consistent, NoDup, StateOf, CountedOnce, Fails, Done, Ready, TagsIn;
    log := [];
    for i := 0 to |rs|
      invariant e.Valid() && |log| == i
      invariant forall b :: Count(e.entries, b) == Count(old(e.entries), b) + Total(log, b)
    {
      ghost var count, c1, v1;
      var status;
      status, count, c1, v1 := Serve(e, rs[i]);
      assert (log + [e.purged])[..i] == log;
      log := log + [e.purged];
    }
  }
}
