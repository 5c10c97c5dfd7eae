/** What the purges guarantee: nothing that was asked for survives, nothing is
    counted twice, repeating does nothing, and the accounted size follows. */
module PurgeFacts {
  import opened Bytes
  import opened FileNames
  import opened SharedHeap
  import opened HeapView
  import opened IndexHits
  import opened CacheState
  import opened PurgeSpec
  import Bootstrap
  import Presence

  /** An entry of the index says what the file on disk says. */
  ghost predicate Agrees(disk: map<Str, DiskFile>, view: map<Id, Meta>, zone: Str) {
    forall p :: p in disk && (zone, p) in view ==>
      view[(zone, p)].key == disk[p].key && view[(zone, p)].tags == disk[p].tags
  }

  /** Every file on disk that the scan would take for a cache file has an entry. */
  ghost predicate Covers(disk: map<Str, DiskFile>, view: map<Id, Meta>, zone: Str) {
    forall p :: p in disk && PathKnown(p) ==> (zone, p) in view
  }

  predicate Tagged(f: DiskFile, tags: seq<Str>) {
    exists t :: t in tags && t in f.tags
  }

  // ----- composition -----

  lemma UnlinkedTwice(c: Cache, a: set<Str>, b: set<Str>)
    ensures Unlinked(Unlinked(c, a), b) == Unlinked(c, a + b)
  {
    assert c.disk - a - b == c.disk - (a + b);
    assert NodesOf(a + b) == NodesOf(a) + NodesOf(b);
    MarkedTwice(c.nodes, NodesOf(a), NodesOf(b));
  }

  lemma MarkedTwice(nodes: map<NodeKey, Node>, a: set<NodeKey>, b: set<NodeKey>)
    ensures MarkAll(MarkAll(nodes, a), b) == MarkAll(nodes, a + b)
  {
  }

  lemma ExpiredTwice(c: Cache, a: set<Str>, b: set<Str>)
    ensures Expired(Expired(c, a), b) == Expired(c, a + b)
  {
    assert NodesOf(a + b) == NodesOf(a) + NodesOf(b);
    StaledTwice(c.nodes, NodesOf(a), NodesOf(b));
    assert ExpireAll(ExpireAll(c.disk, a), b) == ExpireAll(c.disk, a + b);
  }

  lemma StaledTwice(nodes: map<NodeKey, Node>, a: set<NodeKey>, b: set<NodeKey>)
    ensures StaleAll(StaleAll(nodes, a), b) == StaleAll(nodes, a + b)
  {
  }

  // ----- size -----

  /** A hard purge takes exactly the sizes of the live nodes of the unlinked files
      off the accounted size, which cannot go below zero; a soft purge takes nothing. */
  lemma SizeFollows(c: Cache, paths: set<Str>)
    requires Accounted(c)
    ensures Accounted(Unlinked(c, paths)) && Accounted(Expired(c, paths))
    ensures Unlinked(c, paths).size == c.size - TotalSize(Live(c.nodes, NodesOf(paths))) >= 0
    ensures Expired(c, paths).size == c.size
  {
    MarkAllSize(c.nodes, NodesOf(paths));
    ExpiredSize(c, paths);
  }

  // ----- tag purge -----

  /** After a hard tag purge no entry carries a queried tag, none of the files that
      did is on disk, and the other entries are as before. */
  lemma HardTagPurge(c: Cache, view: map<Id, Meta>, zone: Str, tags: seq<Str>, c': Cache, view': map<Id, Meta>)
    requires TagPurged(c, view, zone, TagHits(view, zone, tags), false, c', view')
    ensures TagHits(view', zone, tags) == {}
    ensures forall p :: CarriesAny(view, zone, p, tags) ==> p !in c'.disk
    ensures forall id :: id in view' <==> id in view && !(id.0 == zone && CarriesAny(view, zone, id.1, tags))
    ensures forall id :: id in view' ==> view'[id] == view[id]
    ensures OnlyFiles(TagHits(view, zone, tags), c.disk, c'.disk)
  {
    var hits := TagHits(view, zone, tags);
    forall p ensures p in hits <==> CarriesAny(view, zone, p, tags) {
      if CarriesAny(view, zone, p, tags) { assert (zone, p) in view; }
    }
    forall id ensures id in Ids(zone, hits) <==> id.0 == zone && id.1 in hits {
      if id.0 == zone && id.1 in hits { assert id == (zone, id.1); }
    }
    forall p ensures CarriesAny(view', zone, p, tags) ==> CarriesAny(view, zone, p, tags) && (zone, p) in view' {
      FewerCarry(view, view', zone, p, tags);
    }
  }

  lemma FewerCarry(view: map<Id, Meta>, view': map<Id, Meta>, zone: Str, p: Str, tags: seq<Str>)
    requires forall id :: id in view' ==> id in view && view'[id] == view[id]
    ensures CarriesAny(view', zone, p, tags) ==> CarriesAny(view, zone, p, tags) && (zone, p) in view'
  {
    if i :| 0 <= i < |tags| && Carries(view', zone, p, tags[i]) {
      assert Carries(view, zone, p, tags[i]);
    }
  }

  /** A second purge of the same tags finds and changes nothing. */
  lemma HardTagPurgeRepeats(c: Cache, view: map<Id, Meta>, zone: Str, tags: seq<Str>, c': Cache, view': map<Id, Meta>,
                            c'': Cache, view'': map<Id, Meta>)
    requires Accounted(c') && TagPurged(c, view, zone, TagHits(view, zone, tags), false, c', view')
    requires TagPurged(c', view', zone, TagHits(view', zone, tags), false, c'', view'')
    ensures TagHits(view', zone, tags) * c'.disk.Keys == {} && c'' == c' && view'' == view'
  {
    HardTagPurge(c, view, zone, tags, c', view');
    assert TagHits(view', zone, tags) * c'.disk.Keys == {} && Ids(zone, {}) == {};
    UnlinkedNone(c');
  }

  /** A hard tag purge goes by the entries: a file on disk is left if and only if its entry
      is missing or carries none of the tags, whatever the file itself says. */
  lemma LeftIff(c: Cache, view: map<Id, Meta>, zone: Str, tags: seq<Str>, c': Cache, view': map<Id, Meta>, p: Str)
    requires TagPurged(c, view, zone, TagHits(view, zone, tags), false, c', view')
    ensures p in c'.disk <==> p in c.disk && !CarriesAny(view, zone, p, tags)
  {
    TagHit(view, zone, tags, p);
    UnlinkedSize(c, TagHits(view, zone, tags) * c.disk.Keys);
  }

  /** A file that the index knew and a hard tag purge left carries none of the tags. */
  lemma SurvivorUntagged(c: Cache, view: map<Id, Meta>, zone: Str, tags: seq<Str>, c': Cache, view': map<Id, Meta>, p: Str)
    requires TagPurged(c, view, zone, TagHits(view, zone, tags), false, c', view')
    requires p in c'.disk && (zone, p) in view && (p in c.disk ==> view[(zone, p)].tags == c.disk[p].tags)
    ensures p in c.disk && c'.disk[p] == c.disk[p] && !Tagged(c.disk[p], tags) && (zone, p) in view'
  {
    HardTagPurge(c, view, zone, tags, c', view');
    TaggedCarries(c.disk[p], view, zone, p, tags);
  }

  /** With an index that covers the disk, no tagged cache file survives. */
  lemma NoTaggedFileSurvives(c: Cache, view: map<Id, Meta>, zone: Str, tags: seq<Str>, c': Cache, view': map<Id, Meta>)
    requires Covers(c.disk, view, zone) && Agrees(c.disk, view, zone)
    requires TagPurged(c, view, zone, TagHits(view, zone, tags), false, c', view')
    ensures forall p :: p in c'.disk && PathKnown(p) ==> p in c.disk && c'.disk[p] == c.disk[p] && !Tagged(c.disk[p], tags)
    ensures Covers(c'.disk, view', zone) && Agrees(c'.disk, view', zone)
  {
    HardTagPurge(c, view, zone, tags, c', view');
    forall p | p in c'.disk && PathKnown(p)
      ensures p in c.disk && c'.disk[p] == c.disk[p] && !Tagged(c.disk[p], tags) && (zone, p) in view'
    {
      SurvivorUntagged(c, view, zone, tags, c', view', p);
    }
  }

  /** The disk and the index of a zone are those of a state of its bootstrap. */
  ghost predicate Pictures(s: Bootstrap.State, disk: map<Str, DiskFile>, view: map<Id, Meta>, zone: Str) {
    && (forall p :: p in s.disk <==> p in disk && PathKnown(p))
    && (forall p :: p in s.disk ==> s.disk[p] == Bootstrap.Content(disk[p].key, disk[p].tags))
    && (forall p :: p in s.index ==>
          (zone, p) in view && view[(zone, p)].key == s.index[p].key && view[(zone, p)].tags == s.index[p].tags)
  }

  /** From the bootstrap to the purge: after any run without a fault, a hard tag purge of
      a complete zone leaves no tagged file on disk but those still to be committed. */
  lemma CompleteZoneIsPurged(start: map<Str, Bootstrap.Content>, steps: seq<Bootstrap.Step>, c: Cache, view: map<Id, Meta>,
                             zone: Str, tags: seq<Str>, c': Cache, view': map<Id, Meta>)
    requires var s := Bootstrap.After(Bootstrap.Init(start), steps);
      s.faults == {} && s.complete && Pictures(s, c.disk, view, zone)
    requires TagPurged(c, view, zone, TagHits(view, zone, tags), false, c', view')
    ensures var s := Bootstrap.After(Bootstrap.Init(start), steps);
      forall p :: p in c'.disk && PathKnown(p) ==> p in c.disk && (!Tagged(c.disk[p], tags) || Bootstrap.Awaited(s, p))
  {
    Bootstrap.CompleteCovers(start, steps);
    HardTagPurge(c, view, zone, tags, c', view');
    var s := Bootstrap.After(Bootstrap.Init(start), steps);
    forall p | p in c'.disk && PathKnown(p) ensures p in c.disk && (!Tagged(c.disk[p], tags) || Bootstrap.Awaited(s, p)) {
      if !Bootstrap.Awaited(s, p) {
        SurvivorUntagged(c, view, zone, tags, c', view', p);
      }
    }
  }

  /** The coverage that the other theorems ask for is there after any run in which entries
      were only spoiled, once every commit was made. */
  lemma CompleteZoneIsCovered(start: map<Str, Bootstrap.Content>, steps: seq<Bootstrap.Step>, disk: map<Str, DiskFile>,
                              view: map<Id, Meta>, zone: Str)
    requires var s := Bootstrap.After(Bootstrap.Init(start), steps);
      s.faults <= Bootstrap.SPOILING && s.complete && s.pending == map[] && Pictures(s, disk, view, zone)
    ensures Covers(disk, view, zone)
  {
    Presence.CompleteLists(start, steps);
  }

  lemma TaggedCarries(f: DiskFile, view: map<Id, Meta>, zone: Str, p: Str, tags: seq<Str>)
    requires (zone, p) in view && view[(zone, p)].tags == f.tags
    ensures Tagged(f, tags) ==> CarriesAny(view, zone, p, tags)
  {
    if t :| t in tags && t in f.tags {
      assert Carries(view, zone, p, t);
    }
  }

  /** A soft tag purge may be repeated: the entries of the expired files stay, so it
      reports them again, but it changes no more. */
  lemma SoftTagPurgeRepeats(c: Cache, view: map<Id, Meta>, zone: Str, tags: seq<Str>, c': Cache, view': map<Id, Meta>,
                            c'': Cache, view'': map<Id, Meta>)
    requires TagPurged(c, view, zone, TagHits(view, zone, tags), true, c', view')
    requires TagPurged(c', view', zone, TagHits(view', zone, tags), true, c'', view'')
    ensures TagHits(view', zone, tags) == TagHits(view, zone, tags) * c.disk.Keys
    ensures c'' == c' && view'' == view'
  {
    var hits := TagHits(view, zone, tags);
    ExpiredKeys(c, hits * c.disk.Keys);
    forall p ensures p in TagHits(view', zone, tags) <==> p in hits * c.disk.Keys {
      SoftHits(c, view, zone, tags, view', p);
    }
    assert hits * c.disk.Keys - c'.disk.Keys == {} && Ids(zone, {}) == {};
    assert TagHits(view', zone, tags) * c'.disk.Keys == hits * c.disk.Keys;
    assert hits * c.disk.Keys + hits * c.disk.Keys == hits * c.disk.Keys;
    ExpiredTwice(c, hits * c.disk.Keys, hits * c.disk.Keys);
  }

  lemma SoftHits(c: Cache, view: map<Id, Meta>, zone: Str, tags: seq<Str>, view': map<Id, Meta>, p: Str)
    requires view' == view - Ids(zone, TagHits(view, zone, tags) - c.disk.Keys)
    ensures p in TagHits(view', zone, tags) <==> p in TagHits(view, zone, tags) * c.disk.Keys
  {
    var gone := TagHits(view, zone, tags) - c.disk.Keys;
    assert (zone, p) in Ids(zone, gone) <==> p in gone;
    if p in TagHits(view, zone, tags) * c.disk.Keys {
      assert (zone, p) in view && (zone, p) in view';
      var i :| 0 <= i < |tags| && Carries(view, zone, p, tags[i]);
      assert Carries(view', zone, p, tags[i]);
    }
    if p in TagHits(view', zone, tags) {
      assert (zone, p) in view' && (zone, p) in view;
      var i :| 0 <= i < |tags| && Carries(view', zone, p, tags[i]);
      assert Carries(view, zone, p, tags[i]);
    }
  }

  // ----- exact purge -----

  /** With a usable index and enough memory, a hard exact purge empties the group of its
      key, and counts the opened file and each other file of the group once. */
  lemma HardExactPurge(c: Cache, view: map<Id, Meta>, zone: Str, key: Str, o: Opened, mem: Grants, count: nat, c': Cache,
                       view': map<Id, Meta>)
    requires Accounted(c) && OpenedRight(o, c) && Purgeable(o, c) && o.path in c.disk
    requires mem.keyText && |Siblings(view, zone, key, o.path)| < mem.list
    requires ExactPurged(c, view, zone, key, o, false, Unset, mem, count, c', view')
    ensures var purged := KeyHits(view, zone, key) * c.disk.Keys + {o.path};
      count == |purged| && c' == Unlinked(c, purged)
    ensures KeyHits(view', zone, key) == {} && KeyHits(view, zone, key) !! c'.disk.Keys
    ensures view' == view - Ids(zone, KeyHits(view, zone, key) + {o.path})
  {
    hide KeyOf, Unlinked, KeyHits, Ids, Accounted, OpenedGone, Siblings;
    var hits := KeyHits(view, zone, key);
    var others := Siblings(view, zone, key, o.path) * OpenedGone(c, o, false).disk.Keys;
    OthersLeft(c, view, zone, key, o);
    OpenedUnlinked(c, o);
    OneMore(hits * c.disk.Keys, o.path, others);
    UnlinkedTwice(c, {o.path}, others);
    UnlinkedSize(c, hits * c.disk.Keys + {o.path});
    GroupGone(view, zone, key, o.path, view');
  }

  lemma OthersLeft(c: Cache, view: map<Id, Meta>, zone: Str, key: Str, o: Opened)
    requires o.Found? && o.node in c.nodes
    ensures Siblings(view, zone, key, o.path) * OpenedGone(c, o, false).disk.Keys
         == KeyHits(view, zone, key) * c.disk.Keys - {o.path}
    ensures Siblings(view, zone, key, o.path) + {o.path} == KeyHits(view, zone, key) + {o.path}
  {
  }

  lemma OneMore(s: set<Str>, p: Str, others: set<Str>)
    requires others == s - {p}
    ensures |s + {p}| == 1 + |others| && {p} + others == s + {p}
  {
    assert s + {p} == others + {p};
  }

  lemma OpenedUnlinked(c: Cache, o: Opened)
    requires Accounted(c) && OpenedRight(o, c) && Purgeable(o, c)
    ensures OpenedGone(c, o, false) == Unlinked(c, {o.path})
  {
    OpenedGoneAccounted(c, o, false);
    assert NodesOf({o.path}) == {o.node};
    assert MarkAll(c.nodes, {o.node}) == c.nodes[o.node := Dead(c.nodes[o.node])];
  }

  lemma GroupGone(view: map<Id, Meta>, zone: Str, key: Str, path: Str, view': map<Id, Meta>)
    requires view' == view - Ids(zone, KeyHits(view, zone, key) + {path})
    ensures KeyHits(view', zone, key) == {}
  {
    forall p ensures p !in KeyHits(view', zone, key) {
      assert p in KeyHits(view', zone, key) ==> p in KeyHits(view, zone, key);
    }
  }

  /** A soft exact purge expires the opened file and the group of its key. It counts
      one too many exactly when the opened file is in the group. */
  lemma SoftExactPurge(c: Cache, view: map<Id, Meta>, zone: Str, key: Str, o: Opened, mem: Grants, count: nat, c': Cache)
    requires OpenedRight(o, c) && Purgeable(o, c) && o.path in c.disk
    requires mem.keyText && |KeyHits(view, zone, key)| < mem.list
    requires ExactExpired(c, view, zone, key, o, Unset, mem, count, c')
    ensures var expired := KeyHits(view, zone, key) * c.disk.Keys + {o.path};
      && c' == Released(Expired(c, expired), o)
      && count == |expired| + if o.path in KeyHits(view, zone, key) then 1 else 0
  {
    hide KeyOf, Expired, KeyHits, ExpireAll, Released;
    var group := KeyHits(view, zone, key) * c.disk.Keys;
    OpenedStale(c, o);
    ExpiredTwice(c, {o.path}, group);
    assert {o.path} + group == group + {o.path};
    if o.path in group {
      assert group + {o.path} == group;
    }
  }

  lemma OpenedStale(c: Cache, o: Opened)
    requires OpenedRight(o, c) && Purgeable(o, c)
    ensures OpenedExpired(c, o) == Expired(c, {o.path})
  {
    assert NodesOf({o.path}) == {o.node};
    assert StaleAll(c.nodes, {o.node}) == c.nodes[o.node := Stale(c.nodes[o.node])];
  }

  // ----- wildcard purge -----

  /** The walk visits every file and no file operation fails. */
  ghost predicate FullWalk(walk: seq<Str>, io: Faults, disk: map<Str, DiskFile>) {
    forall p :: p in disk ==> p in walk && p !in io.read && p !in io.stat && p !in io.unlink
  }

  /** For a key that ends in a star, the index branch purges no other file than the
      walk does, and the same files if and only if every file whose key matches in
      any letter case is indexed and matches in its own. */
  lemma WildcardBranches(c: Cache, view: map<Id, Meta>, zone: Str, key: Str, walk: seq<Str>, io: Faults)
    requires IsPartial(key) && IndexPrefix(key) != [] && Agrees(c.disk, view, zone) && FullWalk(walk, io, c.disk)
    ensures var indexed := PrefixHits(view, zone, IndexPrefix(key)) * c.disk.Keys;
      var walked := WalkHits(walk, WalkPrefix(key), false, io, c.disk);
      && indexed <= walked
      && (indexed == walked <==>
          forall p :: p in c.disk && StartsFolded(c.disk[p].key, IndexPrefix(key)) ==>
            (zone, p) in view && IndexPrefix(key) <= c.disk[p].key)
  {
    var prefix := IndexPrefix(key);
    var indexed := PrefixHits(view, zone, prefix) * c.disk.Keys;
    var walked := WalkHits(walk, prefix, false, io, c.disk);
    forall p | p in c.disk
      ensures p in indexed <==> (zone, p) in view && prefix <= c.disk[p].key
      ensures p in walked <==> StartsFolded(c.disk[p].key, prefix)
      ensures prefix <= c.disk[p].key ==> StartsFolded(c.disk[p].key, prefix)
    {
      if (zone, p) in view && prefix <= c.disk[p].key { assert (zone, p).1 in PrefixHits(view, zone, prefix); }
    }
  }

  /** With such an index both branches of a hard wildcard purge leave the same files,
      nodes and size, and report the same number. */
  lemma WildcardBranchesAgree(c: Cache, view: map<Id, Meta>, zone: Str, key: Str, walk: seq<Str>, io: Faults,
                              n1: nat, c1: Cache, view1: map<Id, Meta>, n2: nat, c2: Cache, view2: map<Id, Meta>)
    requires IsPartial(key) && IndexPrefix(key) != [] && Agrees(c.disk, view, zone) && FullWalk(walk, io, c.disk)
    requires forall p :: p in c.disk && StartsFolded(c.disk[p].key, IndexPrefix(key)) ==>
               (zone, p) in view && IndexPrefix(key) <= c.disk[p].key
    requires WildcardPurged(c, view, zone, key, false, walk, io, true, n1, c1, view1)
    requires WildcardPurged(c, view, zone, key, false, walk, io, false, n2, c2, view2)
    ensures n1 == n2 && c1 == c2
  {
    WildcardBranches(c, view, zone, key, walk, io);
  }

  /** In the lower-case key of a file the prefix of an upper-case one is found by the
      walk and not by the index. */
  lemma CaseMatters(zone: Str, path: Str, stat: Stat)
    ensures var disk := map[path := DiskFile([97, 98], [], false)];
      var view := map[(zone, path) := Meta([97, 98], [], stat)];
      var key := [65, STAR];
      && PrefixHits(view, zone, IndexPrefix(key)) == {}
      && WalkHits([path], WalkPrefix(key), false, Faults({}, {}, {}, {}), disk) == {path}
  {
    var disk := map[path := DiskFile([97, 98], [], false)];
    var key: Str := [65, STAR];
    assert IndexPrefix(key) == [65] && WalkPrefix(key) == [65];
    assert disk[path].key[..1] == [97];
    assert StartsFolded(disk[path].key, [65]);
    var prefix, stored: Str := [65], [97, 98];
    assert prefix[0] != stored[0] && !(prefix <= stored);
  }

  // ----- coverage -----

  /** A purge that uncovers nothing and adds no file keeps the coverage of the index. */
  lemma CoverageKept(zone: Str, touched: set<Str>, disk: map<Str, DiskFile>, view: map<Id, Meta>,
                     disk': map<Str, DiskFile>, view': map<Id, Meta>)
    requires Covers(disk, view, zone) && NoneUncovered(zone, view, disk', view') && OnlyFiles(touched, disk, disk')
    ensures Covers(disk', view', zone)
  {
  }

  /** A hard exact purge keeps the coverage unless the opened file is there, cannot be
      unlinked, and is in reach of the index: the failure is only logged, and the entry
      goes all the same. */
  lemma ExactPurgeCoverage(c: Cache, view: map<Id, Meta>, zone: Str, key: Str, o: Opened, kept: bool,
                           obstacle: Reason, mem: Grants, count: nat, c': Cache, view': map<Id, Meta>)
    requires OpenedRight(o, c) && Purgeable(o, c) && Covers(c.disk, view, zone)
    requires ExactPurged(c, view, zone, key, o, kept, obstacle, mem, count, c', view')
    ensures Covers(c'.disk, view', zone) <==> !(kept && o.path in c.disk && obstacle == Unset && mem.keyText)
  {
    hide KeyOf, ExactPurged, Siblings, Fans;
    var group := if Fans(obstacle, mem, Siblings(view, zone, key, o.path)) then Siblings(view, zone, key, o.path) else {};
    DecodedKnown(o);
    NoSibling(view, zone, key, o.path);
    ExactLeft(c, view, zone, key, o, kept, obstacle, mem, count, c', view', group);
    forall p | p in c'.disk
      ensures (zone, p) in view' <==> (zone, p) in view && !(p == o.path && obstacle == Unset && mem.keyText)
    {
      assert p !in group;
    }
  }

  /** The files and entries after a hard exact purge whose fan-out met `group`. */
  lemma ExactLeft(c: Cache, view: map<Id, Meta>, zone: Str, key: Str, o: Opened, kept: bool,
                  obstacle: Reason, mem: Grants, count: nat, c': Cache, view': map<Id, Meta>, group: set<Str>)
    requires o.Found? && o.node in c.nodes
    requires ExactPurged(c, view, zone, key, o, kept, obstacle, mem, count, c', view')
    requires var others := Siblings(view, zone, key, o.path);
      group == if Fans(obstacle, mem, others) then others else {}
    ensures forall p :: p in c'.disk <==> p in c.disk && p !in group && (kept || p != o.path)
    ensures forall p :: (zone, p) in view' <==>
              (zone, p) in view && p !in group && !(p == o.path && obstacle == Unset && mem.keyText)
  {
    hide Siblings, Fans, HardFanned;
    if Fans(obstacle, mem, Siblings(view, zone, key, o.path)) {
      FanReach(obstacle, mem, Siblings(view, zone, key, o.path));
      FannedLeft(OpenedGone(c, o, kept), view, zone, key, o.path, count - 1, c', view');
    }
  }

  lemma FanReach(obstacle: Reason, mem: Grants, hits: set<Str>)
    requires Fans(obstacle, mem, hits)
    ensures obstacle == Unset && mem.keyText
  {
  }

  lemma FannedLeft(c: Cache, view: map<Id, Meta>, zone: Str, key: Str, path: Str, count: nat, c': Cache,
                   view': map<Id, Meta>)
    requires HardFanned(c, view, zone, key, path, count, c', view')
    ensures forall p :: p in c'.disk <==> p in c.disk && p !in Siblings(view, zone, key, path)
    ensures forall p :: (zone, p) in view' <==> (zone, p) in view && p !in Siblings(view, zone, key, path) && p != path
  {
    hide Siblings, Unlinked;
    UnlinkedSize(c, Siblings(view, zone, key, path) * c.disk.Keys);
  }

  lemma DecodedKnown(o: Opened)
    requires o.Found? && KeyOf(o.path).Some?
    ensures PathKnown(o.path)
  {
  }

  /** After any run without a fault, a hard exact purge of a complete zone leaves no file
      with the key but those still to be committed. */
  lemma CompleteZoneKeyIsPurged(start: map<Str, Bootstrap.Content>, steps: seq<Bootstrap.Step>, c: Cache,
                                view: map<Id, Meta>, zone: Str, key: Str, o: Opened, mem: Grants, count: nat, c': Cache,
                                view': map<Id, Meta>)
    requires var s := Bootstrap.After(Bootstrap.Init(start), steps);
      s.faults == {} && s.complete && Pictures(s, c.disk, view, zone)
    requires Accounted(c) && OpenedRight(o, c) && Purgeable(o, c) && o.path in c.disk && key != []
    requires mem.keyText && |Siblings(view, zone, key, o.path)| < mem.list
    requires ExactPurged(c, view, zone, key, o, false, Unset, mem, count, c', view')
    ensures var s := Bootstrap.After(Bootstrap.Init(start), steps);
      forall p :: p in c'.disk && PathKnown(p) ==> p in c.disk && (c.disk[p].key != key || Bootstrap.Awaited(s, p))
  {
    hide Bootstrap.After, KeyOf, ExactPurged, Siblings, Accounted;
    Bootstrap.CompleteCovers(start, steps);
    HardExactPurge(c, view, zone, key, o, mem, count, c', view');
    UnlinkedSize(c, KeyHits(view, zone, key) * c.disk.Keys + {o.path});
    forall p { KeyHit(view, zone, key, p); }
  }

  /** With an index that covers the disk, no file with the key survives a hard exact purge. */
  lemma NoVariantSurvives(c: Cache, view: map<Id, Meta>, zone: Str, key: Str, o: Opened, mem: Grants, count: nat, c': Cache,
                          view': map<Id, Meta>)
    requires Accounted(c) && OpenedRight(o, c) && Purgeable(o, c) && o.path in c.disk && key != []
    requires mem.keyText && |Siblings(view, zone, key, o.path)| < mem.list
    requires Covers(c.disk, view, zone) && Agrees(c.disk, view, zone)
    requires ExactPurged(c, view, zone, key, o, false, Unset, mem, count, c', view')
    ensures forall p :: p in c'.disk && PathKnown(p) ==> p in c.disk && c.disk[p].key != key
  {
    hide KeyOf, KeyHits, Accounted, ExactPurged;
    HardExactPurge(c, view, zone, key, o, mem, count, c', view');
    UnlinkedSize(c, KeyHits(view, zone, key) * c.disk.Keys + {o.path});
    forall p | p in c'.disk && PathKnown(p) ensures p in c.disk && c.disk[p].key != key {
      assert (zone, p) in view;
      KeyHit(view, zone, key, p);
    }
  }
}
