/** The vocabulary of the purge engine: results, counters, what the queries of the
    index answer, and what each kind of purge does to the files, nodes and index. */
module PurgeSpec {
  import opened Bytes
  import opened FileNames
  import opened SharedHeap
  import opened IndexHits
  import opened CacheState

  datatype Rc = OK | DECLINED | ERROR

  datatype Reason = Unset | IndexNotConfigured | ZoneNotRegistered | ReaderUnavailable | IndexNotReady | NotFound

  datatype Route = NoRoute | ExactKeyFanout | WildcardIndex | FilesystemFallback | ReusedIndex

  datatype PurgeType = Exact | Wildcard | Tag | All

  /** Purge type and whether the purge is soft. */
  type Bucket = (PurgeType, bool)

  type Counts = map<Bucket, nat>

  function Count(m: Counts, b: Bucket): nat {
    if b in m then m[b] else 0
  }

  function Bump(m: Counts, b: Bucket, n: nat): (r: Counts)
    ensures forall c :: Count(r, c) == Count(m, c) + if c == b then n else 0
  {
    m[b := Count(m, b) + n]
  }

  /** One counter went up by one, and no other changed. */
  ghost predicate CountedOnce(ops: Counts, ops': Counts, b: Bucket) {
    forall c :: Count(ops', c) == Count(ops, c) + if c == b then 1 else 0
  }

  /** What the memory pool of a request grants: the text of the key, so many requests
      for a list of paths and its elements, the text of the prefix, the walk's data. */
  datatype Grants = Grants(keyText: bool, list: nat, prefix: bool, walk: bool)

  /** The index can be used and the list of hits fits in memory. */
  predicate Asked(obstacle: Reason, list: nat, hits: set<Str>) {
    obstacle == Unset && |hits| < list
  }

  /** The fan-out of an exact purge meets these hits. */
  predicate Fans(obstacle: Reason, mem: Grants, hits: set<Str>) {
    mem.keyText && Asked(obstacle, mem.list, hits)
  }

  /** The paths whose file operations fail for another reason than that there is no
      such file: looking at it, unlinking it, rewriting its header, reading its key. */
  datatype Faults = Faults(stat: set<Str>, unlink: set<Str>, header: set<Str>, read: set<Str>)

  predicate UnlinkFails(p: Str, io: Faults, disk: map<Str, DiskFile>) {
    p in io.stat || (p in disk && p in io.unlink)
  }

  predicate SomeFault(paths: set<Str>, io: Faults, disk: map<Str, DiskFile>) {
    exists p :: p in paths && UnlinkFails(p, io, disk)
  }

  /** A purge of these paths meets a file error. */
  predicate Faulty(paths: set<Str>, soft: bool, io: Faults, disk: map<Str, DiskFile>) {
    if soft then !(paths !! io.header) else SomeFault(paths, io, disk)
  }

  /** When a tag purge of a usable, complete zone is an error. */
  predicate TagFails(list: nat, hits: set<Str>, soft: bool, io: Faults, disk: map<Str, DiskFile>) {
    |hits| >= list || Faulty(hits, soft, io, disk)
  }

  function Ids(zone: Str, paths: set<Str>): set<Id> {
    set p | p in paths :: (zone, p)
  }

  /** What a settled tag purge does to the cache c and the map of the index. */
  ghost predicate TagPurged(c: Cache, view: map<Id, Meta>, zone: Str, hits: set<Str>, soft: bool,
                            c': Cache, view': map<Id, Meta>) {
    if soft then
      c' == Expired(c, hits * c.disk.Keys) && view' == view - Ids(zone, hits - c.disk.Keys)
    else
      c' == Unlinked(c, hits * c.disk.Keys) && view' == view - Ids(zone, hits)
  }

  /** No file outside `paths` differs. */
  predicate OnlyFiles(paths: set<Str>, disk: map<Str, DiskFile>, disk': map<Str, DiskFile>) {
    && disk'.Keys <= disk.Keys
    && (forall p :: p in disk && p !in paths ==> p in disk' && disk'[p] == disk[p])
  }

  /** The index lost no entry but of this zone, and none of a file on disk. */
  ghost predicate NoneUncovered(zone: Str, view: map<Id, Meta>, disk': map<Str, DiskFile>, view': map<Id, Meta>) {
    && (forall id :: id in view' ==> id in view && view'[id] == view[id])
    && (forall id :: id in view && id !in view' ==> id.0 == zone && id.1 !in disk')
  }

  lemma UnlinkedCovered(zone: Str, view: map<Id, Meta>, paths: seq<Str>, disk: map<Str, DiskFile>)
    ensures NoneUncovered(zone, view, disk - OnDisk(paths, disk), view - Ids(zone, Elements(paths)))
  {
  }

  lemma StaleCovered(zone: Str, view: map<Id, Meta>, paths: seq<Str>, disk: map<Str, DiskFile>, disk': map<Str, DiskFile>)
    requires disk'.Keys == disk.Keys
    ensures NoneUncovered(zone, view, disk', view - Ids(zone, Missing(paths, disk)))
  {
  }

  lemma OpenedCovered(zone: Str, view: map<Id, Meta>, path: Str, disk: map<Str, DiskFile>)
    ensures path !in disk ==> NoneUncovered(zone, view, disk, view - {(zone, path)})
    ensures path !in disk ==>
              forall view' :: NoneUncovered(zone, view - {(zone, path)}, disk, view') ==>
                NoneUncovered(zone, view, disk, view')
  {
  }

  lemma AllCovered(zone: Str, view: map<Id, Meta>, disk: map<Str, DiskFile>)
    ensures NoneUncovered(zone, view, disk, view)
  {
  }

  lemma FewerFilesCovered(zone: Str, view: map<Id, Meta>, touched: set<Str>, disk: map<Str, DiskFile>,
                          disk': map<Str, DiskFile>, view': map<Id, Meta>)
    requires NoneUncovered(zone, view, disk, view') && OnlyFiles(touched, disk, disk')
    ensures NoneUncovered(zone, view, disk', view')
  {
  }

  lemma OnlyFilesMore(a: set<Str>, b: set<Str>, disk: map<Str, DiskFile>, disk': map<Str, DiskFile>)
    ensures OnlyFiles(a, disk, disk') || OnlyFiles(b, disk, disk') || disk' == disk ==> OnlyFiles(a + b, disk, disk')
  {
  }

  /** A purge that ran to its end, whether or not it found anything. */
  predicate Settled(rc: Rc, reason: Reason) {
    rc == OK || (rc == DECLINED && reason == NotFound)
  }

  /** The shared counter and the request's counter of one bucket grew alike. */
  ghost predicate Recorded(entries: Counts, entries': Counts, purged: Counts, purged': Counts, b: Bucket, n: nat) {
    && (forall c :: Count(entries', c) == Count(entries, c) + if c == b then n else 0)
    && (forall c :: Count(purged', c) == Count(purged, c) + if c == b then n else 0)
  }

  lemma ListedFiles(paths: seq<Str>, c: Cache)
    ensures OnDisk(paths, c.disk) == Elements(paths) * c.disk.Keys
    ensures Missing(paths, c.disk) == Elements(paths) - c.disk.Keys
  {
  }

  lemma OthersExpired(c: Cache, paths: seq<Str>, done: nat)
    requires done <= |paths|
    ensures OnlyFiles(Elements(paths), c.disk, Expired(c, OnDisk(paths[..done], c.disk)).disk)
  {
  }

  lemma OthersUnlinked(c: Cache, paths: seq<Str>, done: nat)
    requires done <= |paths|
    ensures OnlyFiles(Elements(paths), c.disk, c.disk - OnDisk(paths[..done], c.disk))
  {
  }

  /** The paths of a list that have no file. */
  function Missing(paths: seq<Str>, disk: map<Str, DiskFile>): set<Str> {
    set p | p in paths && p !in disk
  }

  lemma MissingMore(zone: Str, paths: seq<Str>, p: Str, disk: map<Str, DiskFile>)
    ensures Ids(zone, Missing(paths + [p], disk))
         == if p in disk then Ids(zone, Missing(paths, disk)) else Ids(zone, Missing(paths, disk)) + {(zone, p)}
  {
    assert Missing(paths + [p], disk) == if p in disk then Missing(paths, disk) else Missing(paths, disk) + {p};
  }

  lemma IdsMore(zone: Str, paths: seq<Str>, p: Str)
    ensures Ids(zone, Elements(paths + [p])) == Ids(zone, Elements(paths)) + {(zone, p)}
  {
    assert Elements(paths + [p]) == Elements(paths) + {p};
  }

  lemma NoPaths(zone: Str, c: Cache, view: map<Id, Meta>)
    requires Accounted(c)
    ensures c == Unlinked(c, OnDisk([], c.disk)) && |OnDisk([], c.disk)| == 0
    ensures view == view - Ids(zone, Elements([]))
  {
    assert OnDisk([], c.disk) == {} && Elements([]) == {} && Ids(zone, {}) == {};
    UnlinkedNone(c);
  }

  lemma NothingStale(zone: Str, c: Cache, view: map<Id, Meta>)
    ensures c == Expired(c, OnDisk([], c.disk)) && |OnDisk([], c.disk)| == 0
    ensures view == view - Ids(zone, Missing([], c.disk))
  {
    assert OnDisk([], c.disk) == {} && Missing([], c.disk) == {} && Ids(zone, {}) == {};
    ExpiredNone(c);
  }

  /** What a file error leaves: when the file could be looked at, its node is marked
      deleted although the file stays. */
  ghost predicate HalfUnlinked(c: Cache, p: Str, io: Faults, c': Cache) {
    && c'.disk == c.disk
    && if p in io.stat then c' == c else UnlinkStep(c, p, c'.(disk := c.disk - {p}))
  }

  // ----- exact purge -----

  /** What nginx finds when it opens the cache entry of the request: nothing, an
      error, or a file with its node; the request may own the node's update lock. */
  datatype Opened =
    | Absent
    | Broken
    | Found(path: Str, node: NodeKey, updating: bool, lockTime: int)

  /** The file of an opened entry is named after its node. */
  ghost predicate OpenedRight(o: Opened, c: Cache) {
    o.Found? ==> o.node in c.nodes && KeyOf(o.path) == Some(o.node)
  }

  predicate Purgeable(o: Opened, c: Cache) {
    o.Found? && o.node in c.nodes && c.nodes[o.node].present
  }

  /** c after the opened file went; `kept` says that it could not be unlinked. */
  ghost function OpenedGone(c: Cache, o: Opened, kept: bool): Cache
    requires o.Found? && o.node in c.nodes
  {
    Cache(if kept then c.disk else c.disk - {o.path}, c.nodes[o.node := Dead(c.nodes[o.node])],
        c.size - c.nodes[o.node].fsSize)
  }

  /** release_updating: the lock goes only if it is still the one of this request. */
  function Released(c: Cache, o: Opened): Cache {
    if o.Found? && o.updating && o.node in c.nodes && c.nodes[o.node].updating
        && c.nodes[o.node].lockTime == o.lockTime then
      c.(nodes := c.nodes[o.node := c.nodes[o.node].(updating := false)])
    else c
  }

  predicate Owns(o: Opened, k: NodeKey, n: Node) {
    o.Found? && o.updating && o.node == k && n.lockTime == o.lockTime
  }

  /** Only update marks changed, and exactly the one that the request owns is off. */
  ghost predicate LockReleased(c: Cache, o: Opened, c': Cache) {
    && c'.disk == c.disk && c'.size == c.size && c'.nodes.Keys == c.nodes.Keys
    && forall k :: k in c.nodes ==>
      && c'.nodes[k] == c.nodes[k].(updating := c'.nodes[k].updating)
      && (c'.nodes[k].updating <==> c.nodes[k].updating && !Owns(o, k, c.nodes[k]))
  }

  lemma ReleasedIff(c: Cache, o: Opened, c': Cache)
    ensures LockReleased(c, o, c') <==> c' == Released(c, o)
  {
    var d := Released(c, o);
    assert LockReleased(c, o, d);
    if LockReleased(c, o, c') {
      assert c'.nodes == d.nodes;
    }
  }

  /** The other files that a hard exact purge of `path` takes along. */
  function Siblings(view: map<Id, Meta>, zone: Str, key: Str, path: Str): set<Str> {
    KeyHits(view, zone, key) - {path}
  }

  lemma SiblingsAre(view: map<Id, Meta>, zone: Str, key: Str, path: Str)
    ensures KeyHits(view - {(zone, path)}, zone, key) == Siblings(view, zone, key, path)
  {
  }

  lemma IdsJoin(zone: Str, view: map<Id, Meta>, path: Str, paths: set<Str>)
    ensures view - {(zone, path)} - Ids(zone, paths) == view - Ids(zone, paths + {path})
  {
    assert Ids(zone, paths + {path}) == Ids(zone, paths) + {(zone, path)};
  }

  /** What the fan-out adds to an opened file that went. */
  ghost predicate HardFanned(c: Cache, view: map<Id, Meta>, zone: Str, key: Str, path: Str, count: nat, c': Cache,
      view': map<Id, Meta>) {
    var group := Siblings(view, zone, key, path);
    && count == |group * c.disk.Keys|
    && c' == Unlinked(c, group * c.disk.Keys)
    && view' == view - Ids(zone, group + {path})
  }

  lemma OpenedGoneAccounted(c: Cache, o: Opened, kept: bool)
    requires o.Found? && o.node in c.nodes && Accounted(c)
    ensures Accounted(OpenedGone(c, o, kept)) && c.size >= c.nodes[o.node].fsSize
  {
    TotalSizeUpdate(c.nodes, o.node, Dead(c.nodes[o.node]));
  }

  lemma ReleasedAccounted(c: Cache, o: Opened)
    requires Accounted(c)
    ensures Accounted(Released(c, o)) && Released(c, o).disk == c.disk && Released(c, o).size == c.size
  {
    if Released(c, o) != c {
      TotalSizeUpdate(c.nodes, o.node, c.nodes[o.node].(updating := false));
    }
  }

  /** What a hard exact purge that succeeds does, and how many it reports. */
  ghost predicate ExactPurged(c: Cache, view: map<Id, Meta>, zone: Str, key: Str, o: Opened, kept: bool,
                              obstacle: Reason, mem: Grants, count: nat, c': Cache, view': map<Id, Meta>)
    requires o.Found? && o.node in c.nodes
  {
    var gone := OpenedGone(c, o, kept);
    if Fans(obstacle, mem, Siblings(view, zone, key, o.path)) then
      count >= 1 && HardFanned(gone, view, zone, key, o.path, count - 1, c', view')
    else
      count == 1 && c' == gone && view' == LessOpened(view, zone, o.path, obstacle, mem)
  }

  /** The opened entry leaves the index before memory for the list is needed. */
  function LessOpened(view: map<Id, Meta>, zone: Str, path: Str, obstacle: Reason, mem: Grants): map<Id, Meta> {
    if obstacle == Unset && mem.keyText then view - {(zone, path)} else view
  }

  /** When a hard exact purge is an error. */
  predicate HardFails(o: Opened, c: Cache, siblings: set<Str>, io: Faults, obstacle: Reason, mem: Grants) {
    o.Broken? || (Purgeable(o, c) && Fans(obstacle, mem, siblings) && SomeFault(siblings, io, c.disk))
  }

  /** When a soft exact purge is an error, and when it finds nothing. */
  predicate SoftFails(o: Opened, c: Cache, group: set<Str>, io: Faults, obstacle: Reason, mem: Grants) {
    || o.Broken?
    || (Purgeable(o, c) && o.path in io.header)
    || (Purgeable(o, c) && o.path in c.disk && Fans(obstacle, mem, group) && Faulty(group, true, io, c.disk))
  }

  predicate SoftMisses(o: Opened, c: Cache, io: Faults) {
    o.Absent? || (o.Found? && (!Purgeable(o, c) || (o.path !in io.header && o.path !in c.disk)))
  }

  /** c after the header and the node of the opened file were expired. */
  ghost function OpenedExpired(c: Cache, o: Opened): Cache
    requires o.Found? && o.node in c.nodes
  {
    Cache(ExpireAll(c.disk, {o.path}), c.nodes[o.node := c.nodes[o.node].(validSec := 0)], c.size)
  }

  lemma OpenedExpiredDisk(c: Cache, o: Opened)
    requires o.Found? && o.node in c.nodes
    ensures OpenedExpired(c, o).disk.Keys == c.disk.Keys
  {
  }

  /** What the soft fan-out adds; it may meet the opened file again. */
  ghost predicate SoftFanned(c: Cache, view: map<Id, Meta>, zone: Str, key: Str, count: nat, c': Cache) {
    var group := KeyHits(view, zone, key);
    count == |group * c.disk.Keys| && c' == Expired(c, group * c.disk.Keys)
  }

  /** What a soft exact purge that succeeds does, and how many it reports. */
  ghost predicate ExactExpired(c: Cache, view: map<Id, Meta>, zone: Str, key: Str, o: Opened,
                               obstacle: Reason, mem: Grants, count: nat, c': Cache)
    requires o.Found? && o.node in c.nodes
  {
    var fanned := Fans(obstacle, mem, KeyHits(view, zone, key));
    var group := if fanned then KeyHits(view, zone, key) * c.disk.Keys else {};
    && count == 1 + |group|
    && c' == Released(if fanned then Expired(OpenedExpired(c, o), group) else OpenedExpired(c, o), o)
  }

  lemma FannedReleased(c: Cache, view: map<Id, Meta>, zone: Str, key: Str, o: Opened, io: Faults, count: nat, fanned: bool,
                       c': Cache, view': map<Id, Meta>)
    requires o.Found? && o.node in c.nodes
    requires var gone := OpenedGone(c, o, o.path in io.unlink);
      if fanned then HardFanned(gone, view, zone, key, o.path, count, c', view') else c' == gone
    ensures Released(c', o) == c'
  {
  }

  /** A file that cannot be unlinked is no less so after another one went. */
  lemma FaultStays(c: Cache, o: Opened, io: Faults, paths: set<Str>)
    requires o.Found? && o.node in c.nodes
    ensures SomeFault(paths, io, OpenedGone(c, o, o.path in io.unlink).disk) ==> SomeFault(paths, io, c.disk)
    ensures o.path !in paths && SomeFault(paths, io, c.disk) ==>
              SomeFault(paths, io, OpenedGone(c, o, o.path in io.unlink).disk)
  {
    if o.path !in paths && SomeFault(paths, io, c.disk) {
      var p :| p in paths && UnlinkFails(p, io, c.disk);
      assert UnlinkFails(p, io, OpenedGone(c, o, o.path in io.unlink).disk);
    }
  }

  lemma NothingRecorded(entries: Counts, purged: Counts, b: Bucket)
    ensures Recorded(entries, entries, purged, purged, b, 0)
  {
  }

  // ----- wildcard and full purge -----

  const STAR: Byte := 42

  predicate IsPartial(key: Str) {
    key != [] && key[|key| - 1] == STAR
  }

  /** The prefix that the index is asked for. */
  function IndexPrefix(key: Str): Str {
    if IsPartial(key) then key[..|key| - 1] else key
  }

  /** The prefix that the walk compares with. */
  function WalkPrefix(key: Str): Str
    requires key != []
  {
    key[..|key| - 1]
  }

  predicate StartsFolded(key: Str, prefix: Str) {
    |prefix| <= |key| && SameFolded(key[..|prefix|], prefix)
  }

  /** partial_match: the key stored in the file starts with the prefix, in any case. */
  predicate PartialMatch(prefix: Str, p: Str, io: Faults, disk: map<Str, DiskFile>) {
    prefix == [] || (p in disk && p !in io.read && StartsFolded(disk[p].key, prefix))
  }

  predicate Spoiled(p: Str, soft: bool, io: Faults) {
    if soft then p in io.header else p in io.stat || p in io.unlink
  }

  /** The files that a walk over these paths purges. */
  function WalkHits(walk: seq<Str>, prefix: Str, soft: bool, io: Faults, disk: map<Str, DiskFile>): set<Str> {
    set p | p in walk && p in disk && PartialMatch(prefix, p, io, disk) && !Spoiled(p, soft, io)
  }

  lemma WalkHitsMore(walk: seq<Str>, p: Str, prefix: Str, soft: bool, io: Faults, disk: map<Str, DiskFile>)
    requires p !in walk
    ensures var hit := p in disk && PartialMatch(prefix, p, io, disk) && !Spoiled(p, soft, io);
      && p !in WalkHits(walk, prefix, soft, io, disk)
      && WalkHits(walk + [p], prefix, soft, io, disk)
         == (if hit then WalkHits(walk, prefix, soft, io, disk) + {p} else WalkHits(walk, prefix, soft, io, disk))
  {
  }

  /** No matching file of the walk fails to be unlinked. */
  predicate CleanWalk(walk: seq<Str>, prefix: Str, io: Faults, disk: map<Str, DiskFile>) {
    forall p :: p in walk && p in disk && PartialMatch(prefix, p, io, disk) ==> !Spoiled(p, false, io)
  }

  lemma CleanMore(walk: seq<Str>, p: Str, prefix: Str, io: Faults, disk: map<Str, DiskFile>)
    ensures CleanWalk(walk + [p], prefix, io, disk) <==>
            CleanWalk(walk, prefix, io, disk) && (p in disk && PartialMatch(prefix, p, io, disk) ==> !Spoiled(p, false, io))
  {
    assert p in walk + [p];
  }

  /** What a walk leaves. A file that cannot be unlinked stays without its node. */
  ghost predicate Walked(c: Cache, walk: seq<Str>, prefix: Str, soft: bool, io: Faults, c': Cache) {
    var hits := WalkHits(walk, prefix, soft, io, c.disk);
    if soft then c' == Expired(c, hits)
    else c'.disk == c.disk - hits && (CleanWalk(walk, prefix, io, c.disk) ==> c' == Unlinked(c, hits))
  }

  /** Without a prefix a walk takes every file that it visits and can work on. */
  lemma WalkedAll(c: Cache, walk: seq<Str>, soft: bool, io: Faults, c': Cache)
    requires Walked(c, walk, [], soft, io, c')
    ensures !soft ==> forall p :: p in c'.disk <==> p in c.disk && (p !in walk || p in io.stat || p in io.unlink)
    ensures soft ==> forall p ::
              && (p in c'.disk <==> p in c.disk)
              && (p in c'.disk ==> (c'.disk[p].expired <==> c.disk[p].expired || (p in walk && p !in io.header)))
    ensures WalkHits(walk, [], soft, io, c.disk)
         == if soft then set p | p in walk && p in c.disk && p !in io.header
            else set p | p in walk && p in c.disk && p !in io.stat && p !in io.unlink
  {
    UnlinkedSize(c, WalkHits(walk, [], soft, io, c.disk));
  }

  /** What the match compares, byte by byte: a letter matches the other case of itself,
      32 away, and any other byte only itself. */
  lemma StartsFoldedBytes(key: Str, prefix: Str)
    ensures StartsFolded(key, prefix) <==>
            |prefix| <= |key| && forall i :: 0 <= i < |prefix| ==>
              || key[i] == prefix[i]
              || (65 <= key[i] <= 90 && prefix[i] == key[i] + 32)
              || (65 <= prefix[i] <= 90 && key[i] == prefix[i] + 32)
  {
  }

  /** With a prefix it takes a file if and only if its stored key, which it must be able
      to read, has the prefix up to letter case, and the purge of it meets no fault. */
  lemma WalkedMatching(c: Cache, walk: seq<Str>, prefix: Str, soft: bool, io: Faults, c': Cache, p: Str)
    requires Walked(c, walk, prefix, soft, io, c') && prefix != [] && p in c.disk
    ensures var key := c.disk[p].key;
      var matches := |prefix| <= |key| && forall i :: 0 <= i < |prefix| ==>
                      || key[i] == prefix[i]
                      || (65 <= key[i] <= 90 && prefix[i] == key[i] + 32)
                      || (65 <= prefix[i] <= 90 && key[i] == prefix[i] + 32);
      && (!soft ==> (p !in c'.disk <==> p in walk && p !in io.read && p !in io.stat && p !in io.unlink && matches))
      && (soft ==> p in c'.disk && (c'.disk[p].expired <==>
                     c.disk[p].expired || (p in walk && p !in io.read && p !in io.header && matches)))
  {
    hide StartsFolded;
    StartsFoldedBytes(c.disk[p].key, prefix);
    UnlinkedSize(c, WalkHits(walk, prefix, soft, io, c.disk));
  }

  lemma WalkedNone(c: Cache, prefix: Str, soft: bool, io: Faults)
    requires Accounted(c)
    ensures Walked(c, [], prefix, soft, io, c) && WalkHits([], prefix, soft, io, c.disk) == {}
  {
    assert WalkHits([], prefix, soft, io, c.disk) == {};
    assert c.disk - {} == c.disk;
    UnlinkedNone(c);
    ExpiredNone(c);
  }

  /** What one file of the walk looks like when its turn comes. */
  lemma WalkedFile(c: Cache, walk: seq<Str>, prefix: Str, soft: bool, io: Faults, c': Cache, p: Str)
    requires Walked(c, walk, prefix, soft, io, c') && p !in walk
    ensures p in c'.disk <==> p in c.disk
    ensures p in c.disk ==> c'.disk[p] == c.disk[p]
    ensures PartialMatch(prefix, p, io, c'.disk) <==> PartialMatch(prefix, p, io, c.disk)
  {
  }

  lemma WalkedStep(c: Cache, walk: seq<Str>, prefix: Str, soft: bool, io: Faults, c1: Cache, p: Str, c2: Cache)
    requires Walked(c, walk, prefix, soft, io, c1) && p !in walk
    requires p in c.disk && PartialMatch(prefix, p, io, c.disk) && !Spoiled(p, soft, io)
    requires if soft then ExpireStep(c1, p, c2) else UnlinkStep(c1, p, c2)
    ensures Walked(c, walk + [p], prefix, soft, io, c2)
  {
    hide WalkHits, Expired, Unlinked, CleanWalk, PartialMatch;
    WalkHitsMore(walk, p, prefix, soft, io, c.disk);
    CleanMore(walk, p, prefix, io, c.disk);
    var hits := WalkHits(walk, prefix, soft, io, c.disk);
    if soft {
      ExpiredOne(c, hits, c1, p, c2);
    } else {
      assert c.disk - hits - {p} == c.disk - (hits + {p});
      if CleanWalk(walk, prefix, io, c.disk) {
        UnlinkedOne(c, hits, c1, p, c2);
      }
    }
  }

  lemma WalkedSkip(c: Cache, walk: seq<Str>, prefix: Str, soft: bool, io: Faults, c1: Cache, p: Str, c2: Cache)
    requires Walked(c, walk, prefix, soft, io, c1) && p !in walk
    requires p !in c.disk || !PartialMatch(prefix, p, io, c.disk) || Spoiled(p, soft, io)
    requires c2.disk == c1.disk
    requires c2 == c1 || (!soft && p in c.disk && PartialMatch(prefix, p, io, c.disk) && Spoiled(p, soft, io))
    ensures Walked(c, walk + [p], prefix, soft, io, c2)
  {
    hide WalkHits, Expired, Unlinked, CleanWalk, PartialMatch;
    WalkHitsMore(walk, p, prefix, soft, io, c.disk);
    CleanMore(walk, p, prefix, io, c.disk);
  }

  /** What the index branch of a wildcard purge does. */
  ghost predicate IndexPurged(c: Cache, view: map<Id, Meta>, zone: Str, hits: set<Str>, soft: bool, c': Cache,
      view': map<Id, Meta>) {
    if soft then
      c' == Expired(c, hits * c.disk.Keys) && view' == view
    else
      c' == Unlinked(c, hits * c.disk.Keys) && view' == view - Ids(zone, hits)
  }

  /** What a wildcard purge that succeeds does, by the index or by the walk. Files
      that the index knows and the disk does not have send it to the walk. */
  ghost predicate WildcardPurged(c: Cache, view: map<Id, Meta>, zone: Str, key: Str, soft: bool, walk: seq<Str>, io: Faults,
                                 asked: bool, count: nat, c': Cache, view': map<Id, Meta>) {
    var hits := PrefixHits(view, zone, IndexPrefix(key));
    if asked && !(hits !! c.disk.Keys) then
      count == |hits * c.disk.Keys| && IndexPurged(c, view, zone, hits, soft, c', view')
    else
      && view' == (if asked && !soft then view - Ids(zone, hits) else view)
      && key != [] && Walked(c, walk, WalkPrefix(key), soft, io, c')
      && count == |WalkHits(walk, WalkPrefix(key), soft, io, c.disk)|
  }

  /** When a wildcard purge is an error. The walk is needed only if the index was not
      asked or knew no file on disk. */
  predicate WildcardFails(key: Str, hits: set<Str>, soft: bool, io: Faults, finished: bool, disk: map<Str, DiskFile>,
                          obstacle: Reason, mem: Grants) {
    || IndexPrefix(key) == [] || !mem.prefix
    || (Asked(obstacle, mem.list, hits) && Faulty(hits, soft, io, disk))
    || (!(Asked(obstacle, mem.list, hits) && !(hits !! disk.Keys)) && (!mem.walk || !finished))
  }

  lemma NothingIndexed(c: Cache, view: map<Id, Meta>, zone: Str, hits: set<Str>, soft: bool, c': Cache,
      view': map<Id, Meta>)
    requires IndexPurged(c, view, zone, hits, soft, c', view') && |hits * c.disk.Keys| == 0 && Accounted(c)
    ensures c' == c && hits !! c.disk.Keys && view' == if soft then view else view - Ids(zone, hits)
  {
    assert hits * c.disk.Keys == {};
    UnlinkedNone(c);
    ExpiredNone(c);
  }

  lemma OthersWalked(c: Cache, walk: seq<Str>, prefix: Str, soft: bool, io: Faults, c': Cache)
    requires Walked(c, walk, prefix, soft, io, c')
    ensures OnlyFiles(WalkHits(walk, prefix, soft, io, c.disk), c.disk, c'.disk)
  {
    hide WalkHits;
  }

  lemma OpenedGoneDisk(c: Cache, o: Opened, io: Faults)
    requires o.Found? && o.node in c.nodes
    ensures o.path !in io.unlink ==> o.path !in OpenedGone(c, o, o.path in io.unlink).disk
  {
  }

  lemma OpenedStaysGone(path: Str, touched: set<Str>, disk: map<Str, DiskFile>, disk': map<Str, DiskFile>)
    requires OnlyFiles(touched, disk, disk')
    ensures path !in disk ==> path !in disk'
  {
  }

  lemma ReleasedDisk(c: Cache, o: Opened)
    ensures forall c' :: LockReleased(c, o, c') ==> c' == Released(c, o) && c'.disk == c.disk
  {
    forall c' ensures LockReleased(c, o, c') ==> c' == Released(c, o) && c'.disk == c.disk {
      ReleasedIff(c, o, c');
    }
  }

  lemma NoSibling(view: map<Id, Meta>, zone: Str, key: Str, path: Str)
    ensures path !in Siblings(view, zone, key, path)
  {
  }

  /** Siblings of an opened file; without one there are none to speak of. */
  function OtherFiles(view: map<Id, Meta>, zone: Str, key: Str, o: Opened): set<Str> {
    if o.Found? then Siblings(view, zone, key, o.path) else {}
  }

  lemma SomeCommon(a: set<Str>, b: set<Str>)
    ensures |a * b| == 0 <==> a !! b
  {
    assert forall x :: x in a && x in b ==> x in a * b;
    if |a * b| == 0 {
      assert a * b == {};
    }
    if a !! b {
      assert a * b == {};
    }
  }
}
