/** The words in which the contracts speak, said once more over bytes, numbers and
    plain fields. */
module PlainTerms {
  import opened Bytes
  import opened FileNames
  import opened Tokens
  import opened TagHeaders
  import opened SharedHeap
  import opened HeapView
  import opened IndexHits
  import opened CacheState
  import opened Metrics
  import opened PurgeSpec

  // ----- bytes -----

  lemma FoldedBytes(a: Byte, b: Byte)
    ensures Lower(a) == Lower(b) <==> a == b || (65 <= a <= 90 && b == a + 32) || (65 <= b <= 90 && a == b + 32)
  {
  }

  /** A tag value is cut at space, tab, line feed, carriage return and comma. */
  lemma Separators(c: Byte)
    ensures IsSeparator(c) <==> c == 32 || c == 9 || c == 10 || c == 13 || c == 44
    ensures MAX_TOKENS == 1000 && COMMA == 44
  {
  }

  lemma HexDigits(c: Octet)
    ensures HexValue(c) == if 48 <= c <= 57 then Some(c - 48)
                           else if 65 <= c <= 70 then Some(c - 65 + 10)
                           else if 97 <= c <= 102 then Some(c - 97 + 10)
                           else None
  {
  }

  /** The key of a file in a directory: 32 digits behind the last slash, two an octet,
      the higher one first. */
  lemma DecodedDigits(dir: Str, name: Str, key: seq<Octet>)
    requires 47 !in name
    ensures KeyOf(dir + [47] + name) == Some(key) <==>
            |name| == 32 && |key| == 16 && forall i :: 0 <= i < 16 ==>
              && HexValue(name[2 * i]).Some? && HexValue(name[2 * i + 1]).Some?
              && key[i] == 16 * HexValue(name[2 * i]).value + HexValue(name[2 * i + 1]).value
  {
    BaseNameOfJoin(dir, name);
    if |name| == 32 && |key| == 16 {
      assert Spells(name, key) <==> forall i :: 0 <= i < 16 ==>
        && HexValue(name[2 * i]).Some? && HexValue(name[2 * i + 1]).Some?
        && key[i] == 16 * HexValue(name[2 * i]).value + HexValue(name[2 * i + 1]).value;
    }
    if Spells(name, key) {
      forall k | Spells(name, k) ensures k == key {
        SpellsUnique(name, key, k);
      }
    }
  }

  /** 1, soft and true ask for a soft purge, the words in any letter case. */
  lemma SoftWords(value: Str)
    ensures SaysSoft([49]) && SaysSoft([115, 111, 102, 116]) && SaysSoft([83, 111, 70, 84])
    ensures SaysSoft([116, 114, 117, 101]) && SaysSoft([84, 82, 85, 69])
    ensures !SaysSoft([]) && !SaysSoft([48]) && !SaysSoft([50]) && !SaysSoft([104, 97, 114, 100])
    ensures SaysSoft(value) ==> |value| == 1 || |value| == 4
    ensures |value| == 1 ==> (SaysSoft(value) <==> value[0] == 49)
    ensures |value| == 4 && SaysSoft(value) ==> value[0] in {115, 83, 116, 84} && value[3] in {116, 84, 101, 69}
  {
    var soft: Str := [115, 111, 102, 116];
    var other: Str := [83, 111, 70, 84];
    var hard: Str := [104, 97, 114, 100];
    assert SameFolded(soft, SOFT) && SameFolded(other, SOFT);
    var yes: Str := [116, 114, 117, 101];
    var loud: Str := [84, 82, 85, 69];
    assert SameFolded(yes, TRUE) && SameFolded(loud, TRUE);
    assert Lower(hard[0]) != Lower(SOFT[0]) && Lower(hard[0]) != Lower(TRUE[0]);
    if |value| == 4 && SaysSoft(value) {
      assert SameFolded(value, SOFT) || SameFolded(value, TRUE);
      FoldedBytes(value[0], SOFT[0]);
      FoldedBytes(value[3], SOFT[3]);
      FoldedBytes(value[0], TRUE[0]);
      FoldedBytes(value[3], TRUE[3]);
    }
  }

  /** A key that ends in a star names the prefix before the star, to both branches. */
  lemma StarKeys(key: Str)
    ensures IsPartial(key + [42]) && IndexPrefix(key + [42]) == key == WalkPrefix(key + [42])
    ensures key != [] && key[|key| - 1] != 42 ==> !IsPartial(key) && IndexPrefix(key) == key
    ensures !IsPartial([])
  {
  }

  // ----- nodes and files -----

  /** The node of a purged file: its size is gone and it is neither present nor being
      updated; nothing else of it changes, and nothing of any other node. */
  lemma UnlinkedMeans(c: Cache, gone: set<Str>, k: NodeKey)
    ensures var c' := Unlinked(c, gone);
      && c'.disk == c.disk - gone
      && (k in c'.nodes <==> k in c.nodes)
      && (k in c.nodes ==>
            var n := c.nodes[k];
            c'.nodes[k] == if n.present && (exists p :: p in gone && KeyOf(p) == Some(k))
                           then Node(false, 0, n.validSec, false, n.lockTime) else n)
  {
    assert k in NodesOf(gone) <==> exists p :: p in gone && KeyOf(p) == Some(k);
  }

  /** A soft purge marks the header of a file and takes the time off its node. */
  lemma ExpiredMeans(c: Cache, stale: set<Str>, p: Str, k: NodeKey)
    ensures var c' := Expired(c, stale);
      && (p in c'.disk <==> p in c.disk)
      && (p in c.disk ==> c'.disk[p] == DiskFile(c.disk[p].key, c.disk[p].tags, c.disk[p].expired || p in stale))
      && (k in c'.nodes <==> k in c.nodes)
      && (k in c.nodes ==>
            var n := c.nodes[k];
            c'.nodes[k] == if n.present && (exists q :: q in stale && KeyOf(q) == Some(k))
                           then Node(true, n.fsSize, 0, n.updating, n.lockTime) else n)
      && c'.size == c.size
  {
    assert k in NodesOf(stale) <==> exists q :: q in stale && KeyOf(q) == Some(k);
  }

  /** What the statistics call a node. */
  lemma Classes(n: Node, now: int)
    ensures ClassOf(n, now) == Gone <==> !n.present
    ensures ClassOf(n, now) == Updating <==> n.present && n.updating
    ensures ClassOf(n, now) == Fresh <==> n.present && !n.updating && n.validSec >= now + 1
    ensures ClassOf(n, now) == Lapsed <==> n.present && !n.updating && n.validSec <= now
  {
  }

  // ----- what the index answers -----

  lemma HitsMean(view: map<Id, Meta>, zone: Str, tags: seq<Str>, key: Str, p: Str)
    ensures p in TagHits(view, zone, tags) <==>
            (zone, p) in view && exists i :: 0 <= i < |tags| && tags[i] in view[(zone, p)].tags
    ensures p in KeyHits(view, zone, key) <==> (zone, p) in view && view[(zone, p)].key == key != []
    ensures p in PrefixHits(view, zone, key) <==>
            (zone, p) in view && |key| <= |view[(zone, p)].key| && view[(zone, p)].key[..|key|] == key
  {
    TagHit(view, zone, tags, p);
    KeyHit(view, zone, key, p);
    PrefixHit(view, zone, key, p);
    if CarriesAny(view, zone, p, tags) {
      var t :| t in tags && Carries(view, zone, p, t);
      assert tags[..] == tags;
      var i :| 0 <= i < |tags| && tags[i] == t;
    }
    if (zone, p) in view && exists i :: 0 <= i < |tags| && tags[i] in view[(zone, p)].tags {
      var i :| 0 <= i < |tags| && tags[i] in view[(zone, p)].tags;
      assert Carries(view, zone, p, tags[i]);
    }
  }

  /** The index is asked when nothing is in the way, and the list and each element on
      it get memory; an exact purge needs the text of the key as well. */
  lemma AskedMeans(obstacle: Reason, mem: Grants, hits: set<Str>)
    ensures Asked(obstacle, mem.list, hits) <==> obstacle == Unset && 1 + |hits| <= mem.list
    ensures Fans(obstacle, mem, hits) <==> mem.keyText && obstacle == Unset && 1 + |hits| <= mem.list
  {
  }

  /** Hard purges fail where a file cannot be looked at or, if it is there, unlinked;
      soft ones where a header cannot be read or written. */
  lemma FaultyMeans(paths: set<Str>, io: Faults, disk: map<Str, DiskFile>)
    ensures Faulty(paths, false, io, disk) <==> exists p :: p in paths && (p in io.stat || (p in disk && p in io.unlink))
    ensures Faulty(paths, true, io, disk) <==> exists p :: p in paths && p in io.header
  {
    if p :| p in paths && (p in io.stat || (p in disk && p in io.unlink)) {
      assert UnlinkFails(p, io, disk);
    }
  }

  /** When each purge is an error, in terms of the request, the files and the memory. */
  lemma FailuresMean(o: Opened, c: Cache, hits: set<Str>, soft: bool, io: Faults, finished: bool, obstacle: Reason,
                     mem: Grants, prefix: Str)
    ensures var broken := exists p ::
        p in hits && if soft then p in io.header else p in io.stat || (p in c.disk && p in io.unlink);
      var listed := obstacle == Unset && 1 + |hits| <= mem.list;
      var live := o.Found? && o.node in c.nodes && c.nodes[o.node].present;
      var onDisk := exists p :: p in hits && p in c.disk;
      && (TagFails(mem.list, hits, soft, io, c.disk) <==> !(1 + |hits| <= mem.list) || broken)
      && (!soft ==> (HardFails(o, c, hits, io, obstacle, mem) <==> o == Broken || (live && mem.keyText && listed && broken)))
      && (soft ==> (SoftFails(o, c, hits, io, obstacle, mem) <==>
                      || o == Broken
                      || (live && (o.path in io.header || (o.path in c.disk && mem.keyText && listed && broken)))))
      && (SoftMisses(o, c, io) <==> o != Broken && !(live && (o.path in io.header || o.path in c.disk)))
      && (WildcardFails(prefix + [42], hits, soft, io, finished, c.disk, obstacle, mem) <==>
            prefix == [] || !mem.prefix || (listed && broken) || (!(listed && onDisk) && !(mem.walk && finished)))
  {
    hide Faulty;
    StarKeys(prefix);
    FaultyMeans(hits, io, c.disk);
    AskedMeans(obstacle, mem, hits);
  }

  /** What an error cannot have done: to files outside the list, and to entries of files
      that are still there. */
  lemma UntouchedMeans(paths: set<Str>, zone: Str, view: map<Id, Meta>, disk: map<Str, DiskFile>,
                       disk': map<Str, DiskFile>, view': map<Id, Meta>, p: Str, id: Id)
    ensures OnlyFiles(paths, disk, disk') ==>
              (p in disk' ==> p in disk) && (p in disk && p !in paths ==> p in disk' && disk'[p] == disk[p])
    ensures NoneUncovered(zone, view, disk', view') ==>
              && (id in view' ==> id in view && view'[id] == view[id])
              && (id in view && (id.0 != zone || id.1 in disk') ==> id in view')
  {
  }

  /** The first file error of a list: the file stays, but when it could be looked at, its
      node is gone and the size with it. */
  lemma HalfUnlinkedMeans(c: Cache, p: Str, io: Faults, c': Cache, k: NodeKey)
    requires HalfUnlinked(c, p, io, c') && Accounted(c)
    ensures c'.disk == c.disk && Accounted(c') && (p in io.stat ==> c' == c)
    ensures p !in io.stat && p in c.disk && k in c.nodes && KeyOf(p) == Some(k) && c.nodes[k].present ==>
              k in c'.nodes && !c'.nodes[k].present && c'.nodes[k].fsSize == 0
    ensures k in c.nodes && KeyOf(p) != Some(k) ==> k in c'.nodes && c'.nodes[k] == c.nodes[k]
  {
  }

  /** An opened entry: its node is known and named by its file, and can be purged while it
      is present. A tag purge has settled on success and when it found nothing. */
  lemma OpenedMeans(o: Opened, c: Cache, rc: Rc, reason: Reason)
    ensures OpenedRight(o, c) <==> !o.Found? || (o.node in c.nodes && KeyOf(o.path) == Some(o.node))
    ensures Purgeable(o, c) <==> o.Found? && o.node in c.nodes && c.nodes[o.node].present
    ensures Settled(rc, reason) <==> rc == OK || (rc == DECLINED && reason == NotFound)
  {
  }

  // ----- what the purges leave -----

  /** A tag purge, file by file. */
  lemma TagPurgedMeans(c: Cache, view: map<Id, Meta>, zone: Str, tags: seq<Str>, soft: bool, c': Cache,
                       view': map<Id, Meta>, p: Str)
    requires TagPurged(c, view, zone, TagHits(view, zone, tags), soft, c', view')
    ensures var hit := (zone, p) in view && exists i :: 0 <= i < |tags| && tags[i] in view[(zone, p)].tags;
      && (p in c'.disk <==> p in c.disk && (soft || !hit))
      && (p in c'.disk ==>
            c'.disk[p] == DiskFile(c.disk[p].key, c.disk[p].tags, c.disk[p].expired || (soft && hit)))
      && ((zone, p) in view' <==> (zone, p) in view && !(hit && (!soft || p !in c.disk)))
  {
    hide TagHits, Unlinked, Expired;
    HitsMean(view, zone, tags, [], p);
    UnlinkedMeans(c, TagHits(view, zone, tags) * c.disk.Keys, []);
    ExpiredMeans(c, TagHits(view, zone, tags) * c.disk.Keys, p, []);
    assert (zone, p) in Ids(zone, TagHits(view, zone, tags)) <==> p in TagHits(view, zone, tags);
    assert (zone, p) in Ids(zone, TagHits(view, zone, tags) - c.disk.Keys) <==> p in TagHits(view, zone, tags) - c.disk.Keys;
  }

  /** A hard exact purge of an entry with a file, file by file. */
  lemma ExactPurgedMeans(c: Cache, view: map<Id, Meta>, zone: Str, key: Str, o: Opened, kept: bool, mem: Grants,
                         count: nat, c': Cache, view': map<Id, Meta>, p: Str)
    requires o.Found? && o.node in c.nodes && key != []
    requires mem.keyText && |Siblings(view, zone, key, o.path)| < mem.list
    requires ExactPurged(c, view, zone, key, o, kept, Unset, mem, count, c', view')
    ensures var keyed := (zone, p) in view && view[(zone, p)].key == key;
      && (p in c'.disk <==> p in c.disk && if p == o.path then kept else !keyed)
      && (p in c'.disk ==> c'.disk[p] == c.disk[p])
      && ((zone, p) in view' <==> (zone, p) in view && !keyed && p != o.path)
  {
    hide KeyHits, Unlinked;
    HitsMean(view, zone, [], key, p);
    var others := Siblings(view, zone, key, o.path);
    UnlinkedMeans(OpenedGone(c, o, kept), others * OpenedGone(c, o, kept).disk.Keys, []);
    assert (zone, p) in Ids(zone, others + {o.path}) <==> p in others + {o.path};
  }

  /** A soft exact purge, file by file. */
  lemma ExactExpiredMeans(c: Cache, view: map<Id, Meta>, zone: Str, key: Str, o: Opened, mem: Grants, count: nat,
                          c': Cache, p: Str)
    requires o.Found? && o.node in c.nodes && key != []
    requires mem.keyText && |KeyHits(view, zone, key)| < mem.list
    requires ExactExpired(c, view, zone, key, o, Unset, mem, count, c')
    ensures var keyed := (zone, p) in view && view[(zone, p)].key == key;
      && (p in c'.disk <==> p in c.disk)
      && (p in c'.disk ==>
            c'.disk[p] == DiskFile(c.disk[p].key, c.disk[p].tags, c.disk[p].expired || keyed || p == o.path))
  {
    hide KeyHits, Expired;
    HitsMean(view, zone, [], key, p);
    ExpiredMeans(OpenedExpired(c, o), KeyHits(view, zone, key) * c.disk.Keys, p, []);
  }

  /** A wildcard purge by the index: the files whose entry has a key with the prefix,
      letter case included. */
  lemma WildcardByIndex(c: Cache, view: map<Id, Meta>, zone: Str, prefix: Str, soft: bool, walk: seq<Str>, io: Faults,
                        count: nat, c': Cache, view': map<Id, Meta>, some: Str, p: Str)
    requires WildcardPurged(c, view, zone, prefix + [42], soft, walk, io, true, count, c', view')
    requires some in c.disk && (zone, some) in view && prefix <= view[(zone, some)].key
    ensures var hit := (zone, p) in view && prefix <= view[(zone, p)].key;
      && (p in c'.disk <==> p in c.disk && (soft || !hit))
      && (p in c'.disk ==>
            c'.disk[p] == DiskFile(c.disk[p].key, c.disk[p].tags, c.disk[p].expired || (soft && hit)))
      && ((zone, p) in view' <==> (zone, p) in view && (soft || !hit))
  {
    hide PrefixHits, Unlinked, Expired, Walked, WalkHits;
    StarKeys(prefix);
    PrefixHit(view, zone, prefix, some);
    PrefixHit(view, zone, prefix, p);
    var hits := PrefixHits(view, zone, prefix);
    assert !(hits !! c.disk.Keys);
    UnlinkedMeans(c, hits * c.disk.Keys, []);
    ExpiredMeans(c, hits * c.disk.Keys, p, []);
    assert (zone, p) in Ids(zone, hits) <==> p in hits;
  }

  /** By the walk: the visited files whose own key can be read and has the prefix, each
      byte the same or the other case of a letter. */
  lemma WildcardByWalk(c: Cache, view: map<Id, Meta>, zone: Str, prefix: Str, soft: bool, walk: seq<Str>, io: Faults,
                       asked: bool, count: nat, c': Cache, view': map<Id, Meta>, p: Str)
    requires WildcardPurged(c, view, zone, prefix + [42], soft, walk, io, asked, count, c', view') && prefix != []
    requires asked ==> forall q :: q in c.disk && (zone, q) in view ==> !(prefix <= view[(zone, q)].key)
    requires p in c.disk
    ensures var key := c.disk[p].key;
      var matches := |prefix| <= |key| && forall i :: 0 <= i < |prefix| ==>
                       || key[i] == prefix[i]
                       || (65 <= key[i] <= 90 && prefix[i] == key[i] + 32)
                       || (65 <= prefix[i] <= 90 && key[i] == prefix[i] + 32);
      && (!soft ==> (p !in c'.disk <==> p in walk && p !in io.read && p !in io.stat && p !in io.unlink && matches))
      && (soft ==> p in c'.disk && (c'.disk[p].expired <==>
                     c.disk[p].expired || (p in walk && p !in io.read && p !in io.header && matches)))
  {
    hide PrefixHits, Walked, WalkHits;
    StarKeys(prefix);
    var hits := PrefixHits(view, zone, prefix);
    forall q { PrefixHit(view, zone, prefix, q); }
    assert asked ==> hits !! c.disk.Keys;
    WalkedMatching(c, walk, prefix, soft, io, c', p);
  }
}
