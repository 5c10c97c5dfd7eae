/** The purge engine: exact, wildcard, tag and full purges, hard and soft, over the
    files on disk, the cache nodes and the index. One path is handled at a time, and
    the file and the index entry of a path change together. */
module Purge {
  import opened Bytes
  import opened FileNames
  import opened SharedHeap
  import opened HeapView
  import opened IndexHits
  import opened IndexStore
  import opened CacheState
  import opened PurgeSpec

  class Purger {
    const zone: Str
    const index: Store
    // Why the index cannot be used for this zone, or Unset when it can.
    const obstacle: Reason

    var cache: Cache

    // Shared counters: purge operations, and entries purged by them.
    var ops: Counts
    var entries: Counts
    var fanouts: nat
    var wildcardHits: nat

    // The context of the current request.
    var purged: Counts
    var reason: Reason
    var route: Route

    ghost predicate Valid()
      reads this, index
    {
      index.Valid() && Accounted(cache) && obstacle != NotFound
    }

    constructor (zone: Str, index: Store, obstacle: Reason, cache: Cache)
      requires index.Valid() && Accounted(cache) && obstacle != NotFound
      ensures Valid() && this.zone == zone && this.index == index && this.cache == cache
    {
      hide Consistent, Accounted;
      this.zone, this.index, this.obstacle, this.cache := zone, index, obstacle, cache;
      ops, entries, fanouts, wildcardHits := map[], map[], 0, 0;
      purged, reason, route := map[], Unset, NoRoute;
    }

    // ----- counters -----

    method RecordPurge(b: Bucket, count: nat)
      modifies this`entries, this`purged
      ensures Recorded(old(entries), entries, old(purged), purged, b, count)
    {
      if count == 0 {
        return;
      }
      entries := Bump(entries, b, count);
      purged := Bump(purged, b, count);
    }

    method RecordPurgeRequest(b: Bucket)
      modifies this`ops
      ensures CountedOnce(old(ops), ops, b)
    {
      ops := Bump(ops, b, 1);
    }

    // ----- one file -----

    method MarkNodeDeleted(k: NodeKey)
      requires k in cache.nodes && Accounted(cache)
      modifies this`cache
      ensures Accounted(cache) && cache.disk == old(cache).disk
      ensures cache.nodes == old(cache).nodes[k := Dead(old(cache).nodes[k])]
      ensures cache.size == old(cache).size - old(cache).nodes[k].fsSize >= 0
    {
      var node := cache.nodes[k];
      TotalSizeUpdate(cache.nodes, k, Dead(node));
      cache := Cache(cache.disk, cache.nodes[k := Dead(node)], cache.size - node.fsSize);
    }

    /** Hard: the node goes first, then the file. */
    method DeleteCacheFile(path: Str, io: Faults) returns (rc: Rc)
      requires Accounted(cache)
      modifies this`cache
      ensures Accounted(cache)
      ensures rc == ERROR <==> UnlinkFails(path, io, old(cache).disk)
      ensures rc != ERROR ==> (rc == OK <==> path in old(cache).disk)
      ensures rc == ERROR ==> HalfUnlinked(old(cache), path, io, cache)
      ensures path !in old(cache).disk ==> cache == old(cache)
      ensures rc != ERROR ==> UnlinkStep(old(cache), path, cache)
    {
      if path in io.stat {
        return ERROR;
      }
      if path !in cache.disk {
        assert cache.disk - {path} == cache.disk;
        return DECLINED;
      }
      var key := FilenameKey(path);
      if key.Some? && key.value in cache.nodes && cache.nodes[key.value].present {
        MarkNodeDeleted(key.value);
      }
      if path in io.unlink {
        return ERROR;
      }
      cache := cache.(disk := cache.disk - {path});
      return OK;
    }

    /** Marks the header of a file as expired. */
    method SoftHeader(path: Str, io: Faults) returns (rc: Rc)
      requires Accounted(cache)
      modifies this`cache
      ensures Accounted(cache)
      ensures rc == if path in io.header then ERROR else if path in old(cache).disk then OK else DECLINED
      ensures cache == if rc == OK then old(cache).(disk := ExpireAll(old(cache).disk, {path})) else old(cache)
    {
      if path in io.header {
        return ERROR;
      }
      if path !in cache.disk {
        return DECLINED;
      }
      cache := cache.(disk := cache.disk[path := cache.disk[path].(expired := true)]);
      return OK;
    }

    method ExpireNode(k: NodeKey)
      requires Accounted(cache) && k in cache.nodes
      modifies this`cache
      ensures Accounted(cache) && cache == old(cache).(nodes := old(cache).nodes[k := old(cache).nodes[k].(validSec := 0)])
    {
      var node := cache.nodes[k].(validSec := 0);
      TotalSizeUpdate(cache.nodes, k, node);
      cache := cache.(nodes := cache.nodes[k := node]);
    }

    /** Soft: the header goes first, and the node only if that worked. */
    method SoftPath(path: Str, io: Faults) returns (rc: Rc)
      requires Accounted(cache)
      modifies this`cache
      ensures Accounted(cache) && cache.size == old(cache).size
      ensures rc == ERROR <==> path in io.header
      ensures rc != ERROR ==> (rc == OK <==> path in old(cache).disk)
      ensures rc != ERROR ==> ExpireStep(old(cache), path, cache)
      ensures rc != OK ==> cache == old(cache)
    {
      rc := SoftHeader(path, io);
      if rc != OK {
        return;
      }
      var key := FilenameKey(path);
      if key.Some? && key.value in cache.nodes && cache.nodes[key.value].present {
        ExpireNode(key.value);
      }
      return OK;
    }

    // ----- a list of indexed paths -----

    /** by_indexed_path, hard: a path leaves the index together with its file, or
        when it has none. */
    method PurgeIndexedPath(path: Str, io: Faults, now: int) returns (rc: Rc)
      requires Valid()
      modifies this`cache, index`shm, index`view
      ensures Valid()
      ensures rc == ERROR <==> UnlinkFails(path, io, old(cache).disk)
      ensures rc != ERROR ==> (rc == OK <==> path in old(cache).disk)
      ensures rc == ERROR ==> HalfUnlinked(old(cache), path, io, cache) && index.view == old(index.view)
      ensures rc != ERROR ==> UnlinkStep(old(cache), path, cache) && index.view == old(index.view) - {(zone, path)}
    {
      hide Consistent, StateOf, UnlinkStep;
      rc := DeleteCacheFile(path, io);
      if rc != ERROR {
        index.DeleteFile(zone, path, now);
      }
    }

    /** A file error stops the list. */
    method HardLoop(paths: seq<Str>, io: Faults, now: int) returns (rc: Rc, count: nat, ghost done: nat)
      requires Valid() && NoDup(paths)
      modifies this`cache, index`shm, index`view
      ensures Valid() && rc != DECLINED && done <= |paths|
      ensures rc == OK <==> forall p :: p in paths ==> !UnlinkFails(p, io, old(cache).disk)
      ensures rc == OK ==> done == |paths| && cache == Unlinked(old(cache), OnDisk(paths, old(cache).disk))
      ensures rc == ERROR ==>
                done < |paths| && UnlinkFails(paths[done], io, old(cache).disk)
                && HalfUnlinked(Unlinked(old(cache), OnDisk(paths[..done], old(cache).disk)), paths[done], io, cache)
      ensures count == |OnDisk(paths[..done], old(cache).disk)|
      ensures cache.disk == old(cache).disk - OnDisk(paths[..done], old(cache).disk)
      ensures index.view == old(index.view) - Ids(zone, Elements(paths[..done]))
      ensures NoneUncovered(zone, old(index.view), cache.disk, index.view)
    {
      hide NoneUncovered, Unlinked, UnlinkStep, Consistent, StateOf, OnDisk, Ids, Elements, Accounted;
      count, done := 0, 0;
      NoPaths(zone, cache, index.view);
      ghost var c0 := cache;
      for i := 0 to |paths|
        invariant Valid() && done == i
        invariant cache == Unlinked(c0, OnDisk(paths[..i], c0.disk))
        invariant count == |OnDisk(paths[..i], c0.disk)|
        invariant index.view == old(index.view) - Ids(zone, Elements(paths[..i]))
        invariant forall p :: p in paths[..i] ==> !UnlinkFails(p, io, c0.disk)
      {
        assert paths[..i + 1] == paths[..i] + [paths[i]];
        ghost var c := cache;
        UnlinkedDisk(c0, paths[..i], paths[i]);
        UnlinkedSize(c0, OnDisk(paths[..i], c0.disk));
        UnlinkedCovered(zone, old(index.view), paths[..i], c0.disk);
        rc := PurgeIndexedPath(paths[i], io, now);
        if rc == ERROR {
          assert UnlinkFails(paths[i], io, c0.disk) && paths[i] in paths;
          return;
        }
        if rc == OK {
          count := count + 1;
        }
        UnlinkedStep(c0, paths[..i], c, paths[i], cache);
        OnDiskMore(paths[..i], paths[i], c0.disk);
        IdsMore(zone, paths[..i], paths[i]);
        done := done + 1;
      }
      assert paths[..|paths|] == paths;
      UnlinkedSize(c0, OnDisk(paths, c0.disk));
      UnlinkedCovered(zone, old(index.view), paths, c0.disk);
      rc := OK;
    }

    /** The soft lists. The tag purge drops the entries of missing files. */
    method SoftLoop(paths: seq<Str>, dropStale: bool, io: Faults, now: int) returns (rc: Rc, count: nat, ghost done: nat)
      requires Valid() && NoDup(paths)
      modifies this`cache, index`shm, index`view
      ensures Valid() && rc != DECLINED && done <= |paths| && (rc == OK ==> done == |paths|)
      ensures rc == OK <==> forall p :: p in paths ==> p !in io.header
      ensures cache == Expired(old(cache), OnDisk(paths[..done], old(cache).disk))
      ensures count == |OnDisk(paths[..done], old(cache).disk)|
      ensures rc == OK && dropStale ==> index.view == old(index.view) - Ids(zone, Missing(paths, old(cache).disk))
      ensures !dropStale ==> index.view == old(index.view)
      ensures NoneUncovered(zone, old(index.view), cache.disk, index.view)
    {
      hide NoneUncovered, Expired, ExpireStep, Consistent, StateOf, OnDisk, Ids, Missing, Accounted;
      count, done := 0, 0;
      NothingStale(zone, cache, index.view);
      ghost var c0 := cache;
      for i := 0 to |paths|
        invariant Valid() && done == i
        invariant cache == Expired(c0, OnDisk(paths[..i], c0.disk))
        invariant count == |OnDisk(paths[..i], c0.disk)|
        invariant index.view == if dropStale then old(index.view) - Ids(zone, Missing(paths[..i], c0.disk))
                                else old(index.view)
        invariant forall p :: p in paths[..i] ==> p !in io.header
      {
        assert paths[..i + 1] == paths[..i] + [paths[i]];
        ghost var c := cache;
        ExpiredKeys(c0, OnDisk(paths[..i], c0.disk));
        StaleCovered(zone, old(index.view), if dropStale then paths[..i] else [], c0.disk, cache.disk);
        rc := SoftPath(paths[i], io);
        if rc == ERROR {
          return;
        }
        if rc == OK {
          count := count + 1;
        } else if dropStale {
          index.DeleteFile(zone, paths[i], now);
        }
        ExpiredStep(c0, paths[..i], c, paths[i], cache);
        OnDiskMore(paths[..i], paths[i], c0.disk);
        MissingMore(zone, paths[..i], paths[i], c0.disk);
        done := done + 1;
      }
      assert paths[..|paths|] == paths;
      ExpiredKeys(c0, OnDisk(paths, c0.disk));
      StaleCovered(zone, old(index.view), if dropStale then paths else [], c0.disk, cache.disk);
      rc := OK;
    }

    // ----- tag purge -----

    /** The loop of the tag purge over the paths that were found. */
    method PurgeTagged(paths: seq<Str>, soft: bool, io: Faults, now: int) returns (rc: Rc, count: nat)
      requires Valid() && NoDup(paths)
      modifies this`cache, index`shm, index`view
      ensures Valid() && rc != DECLINED
      ensures rc == OK <==> !Faulty(Elements(paths), soft, io, old(cache).disk)
      ensures rc == OK ==> count == |Elements(paths) * old(cache).disk.Keys|
      ensures rc == OK ==> TagPurged(old(cache), old(index.view), zone, Elements(paths), soft, cache, index.view)
      ensures OnlyFiles(Elements(paths), old(cache).disk, cache.disk)
      ensures NoneUncovered(zone, old(index.view), cache.disk, index.view)
    {
      hide NoneUncovered, Consistent, Accounted, StateOf, Unlinked, Expired, OnDisk, Ids, Missing, UnlinkFails;
      ListedFiles(paths, cache);
      assert paths[..|paths|] == paths;
      ghost var done;
      if soft {
        rc, count, done := SoftLoop(paths, true, io, now);
        OthersExpired(old(cache), paths, done);
      } else {
        rc, count, done := HardLoop(paths, io, now);
        OthersUnlinked(old(cache), paths, done);
      }
    }

    /** ngx_http_cache_index_purge. It touches only files of the paths that carry one
        of the tags. Without an obstacle and in a complete zone it purges exactly those,
        unless the list finds no memory or a file fails. */
    method TagPurge(tags: seq<Str>, soft: bool, io: Faults, list: nat, now: int) returns (rc: Rc)
      requires Valid()
      modifies this`cache, this`entries, this`purged, this`reason, this`route, index`shm, index`view
      ensures Valid()
      ensures var hits := TagHits(old(index.view), zone, tags);
        var disk := old(cache).disk;
        var ready := obstacle == Unset && StateOf(old(index.shm), zone).bootstrapComplete;
        && (!ready ==> rc == DECLINED && reason == (if obstacle != Unset then obstacle else IndexNotReady)
                       && cache == old(cache) && index.view == old(index.view))
        && (rc == ERROR <==> ready && TagFails(list, hits, soft, io, disk))
        && (ready && rc != ERROR ==> Settled(rc, reason) && (rc == OK <==> hits * disk.Keys != {})
                                     && TagPurged(old(cache), old(index.view), zone, hits, soft, cache, index.view))
        && Recorded(old(entries), entries, old(purged), purged, (Tag, soft), if rc == OK then |hits * disk.Keys| else 0)
        && OnlyFiles(hits, disk, cache.disk)
        && NoneUncovered(zone, old(index.view), cache.disk, index.view)
      ensures route == if rc == OK then ReusedIndex else old(route)
    {
      hide Consistent, Accounted, StateOf, TagPurged, Elements, TagHits, UnlinkFails, Recorded, NoneUncovered,
          OnlyFiles, CarriesAny, Ids;
      OnlyFilesMore(TagHits(index.view, zone, tags), {}, cache.disk, cache.disk);
      assert TagHits(index.view, zone, tags) + {} == TagHits(index.view, zone, tags);
      NothingRecorded(entries, purged, (Tag, soft));
      AllCovered(zone, index.view, cache.disk);
      if obstacle != Unset {
        reason := obstacle;
        return DECLINED;
      }
      var state := index.GetZoneState(zone, now);
      if !state.bootstrapComplete {
        reason := IndexNotReady;
        return DECLINED;
      }
      var ok, paths := index.CollectPathsByTags(zone, tags, list);
      if !ok {
        return ERROR;
      }
      var count;
      rc, count := PurgeTagged(paths, soft, io, now);
      if rc == ERROR {
        return;
      }
      if count > 0 {
        RecordPurge((Tag, soft), count);
        route := ReusedIndex;
        return OK;
      }
      reason := NotFound;
      return DECLINED;
    }

    // ----- exact purge -----

    /** A failed unlink is only logged: the node is gone, the file stays. */
    method DeleteOpenedFile(o: Opened, io: Faults) returns (rc: Rc)
      requires Accounted(cache) && o.Found? && o.node in cache.nodes
      modifies this`cache
      ensures Accounted(cache) && rc == if Purgeable(o, old(cache)) then OK else DECLINED
      ensures rc == DECLINED ==> cache == old(cache)
      ensures rc == OK ==> cache == OpenedGone(old(cache), o, o.path in io.unlink)
    {
      OpenedGoneAccounted(cache, o, o.path in io.unlink);
      if !cache.nodes[o.node].present {
        return DECLINED;
      }
      MarkNodeDeleted(o.node);
      if o.path !in io.unlink {
        cache := cache.(disk := cache.disk - {o.path});
      }
      return OK;
    }

    method ReleaseUpdating(o: Opened)
      requires Accounted(cache)
      modifies this`cache
      ensures Accounted(cache) && LockReleased(old(cache), o, cache)
    {
      ReleasedAccounted(cache, o);
      ReleasedIff(cache, o, Released(cache, o));
      if o.Found? && o.updating && o.node in cache.nodes {
        var node := cache.nodes[o.node];
        if node.updating && node.lockTime == o.lockTime {
          cache := cache.(nodes := cache.nodes[o.node := node.(updating := false)]);
        }
      }
    }

    method CacheKeyText(key: Str, mem: Grants) returns (text: Option<Str>)
      ensures text == if mem.keyText then Some(key) else None
    {
      text := if mem.keyText then Some(key) else None;
    }

    /** Takes the opened file's entry and then all files with its key, unless the index
        cannot be used or no memory is left for the key or the list. */
    method HardFanout(path: Str, key: Str, io: Faults, mem: Grants, now: int) returns (rc: Rc, count: nat)
      requires Valid()
      modifies this`cache, this`reason, index`shm, index`view
      ensures Valid() && rc != DECLINED
      ensures var others := Siblings(old(index.view), zone, key, path);
        var fans := Fans(obstacle, mem, others);
        && (rc == ERROR <==> fans && SomeFault(others, io, old(cache).disk))
        && (fans && rc == OK ==> HardFanned(old(cache), old(index.view), zone, key, path, count, cache, index.view))
        && (!fans ==> count == 0 && cache == old(cache)
                      && index.view == LessOpened(old(index.view), zone, path, obstacle, mem))
        && OnlyFiles(others, old(cache).disk, cache.disk)
      ensures reason == if obstacle != Unset then obstacle else old(reason)
      ensures path !in cache.disk ==> NoneUncovered(zone, old(index.view), cache.disk, index.view)
    {
      hide NoneUncovered, Consistent, Accounted, StateOf, Unlinked, KeyHits, Siblings, OnDisk, Ids, UnlinkFails;
      AllCovered(zone, index.view, cache.disk);
      if obstacle != Unset {
        reason := obstacle;
        return OK, 0;
      }
      var text := CacheKeyText(key, mem);
      if text.None? {
        return OK, 0;
      }
      index.DeleteFile(zone, path, now);
      OpenedCovered(zone, old(index.view), path, cache.disk);
      SiblingsAre(old(index.view), zone, key, path);
      var ok, paths := index.CollectPathsByExactKey(zone, text.value, mem.list);
      if !ok {
        return OK, 0;
      }
      IdsJoin(zone, old(index.view), path, Elements(paths));
      ListedFiles(paths, cache);
      assert paths[..|paths|] == paths;
      ghost var done;
      rc, count, done := HardLoop(paths, io, now);
      OthersUnlinked(old(cache), paths, done);
      OpenedCovered(zone, old(index.view), path, cache.disk);
    }

    /** exact_purge. The operation is counted before the fan-out, so an error of the
        fan-out leaves it counted; the purged entries are counted only on success. */
    method ExactPurge(o: Opened, key: Str, io: Faults, mem: Grants, now: int) returns (rc: Rc, ghost count: nat)
      requires Valid() && OpenedRight(o, cache)
      modifies this`cache, this`ops, this`entries, this`fanouts, this`purged, this`reason, this`route, index`shm, index`view
      ensures Valid() && Recorded(old(entries), entries, old(purged), purged, (Exact, false), count)
      ensures rc == DECLINED <==> !o.Broken? && !Purgeable(o, old(cache))
      ensures rc == DECLINED ==> reason == NotFound
      ensures rc == ERROR <==>
                HardFails(o, old(cache), OtherFiles(old(index.view), zone, key, o), io, obstacle, mem)
      ensures rc == OK ==>
                Purgeable(o, old(cache))
                && ExactPurged(old(cache), old(index.view), zone, key, o, o.path in io.unlink, obstacle, mem,
                               count, cache, index.view)
      ensures rc != OK ==> count == 0
      ensures Purgeable(o, old(cache)) ==> CountedOnce(old(ops), ops, (Exact, false))
      ensures !Purgeable(o, old(cache)) ==> ops == old(ops) && cache == old(cache) && index.view == old(index.view)
      ensures (o.Found? ==> o.path !in io.unlink) ==> NoneUncovered(zone, old(index.view), cache.disk, index.view)
      ensures fanouts == old(fanouts) + (if rc == OK && count > 1 then 1 else 0)
      ensures route == if rc == OK && count > 1 then ExactKeyFanout else old(route)
    {
      hide NoneUncovered, Consistent, Accounted, StateOf, ExactPurged, Siblings, SomeFault, Recorded, KeyOf,
          CountedOnce, Fans;
      count := 0;
      NothingRecorded(entries, purged, (Exact, false));
      AllCovered(zone, index.view, cache.disk);
      if o.Found? {
        rc, count := PurgeOpened(o, key, io, mem, now);
      } else if o.Broken? {
        rc := ERROR;
      } else {
        reason := NotFound;
        rc := DECLINED;
      }
    }

    method PurgeOpened(o: Opened, key: Str, io: Faults, mem: Grants, now: int) returns (rc: Rc, ghost count: nat)
      requires Valid() && o.Found? && o.node in cache.nodes
      modifies this`cache, this`ops, this`entries, this`fanouts, this`purged, this`reason, this`route, index`shm, index`view
      ensures Valid() && Recorded(old(entries), entries, old(purged), purged, (Exact, false), count)
      ensures rc == DECLINED <==> !Purgeable(o, old(cache))
      ensures rc == DECLINED ==> reason == NotFound && cache == old(cache) && index.view == old(index.view)
                                 && ops == old(ops)
      ensures rc != DECLINED ==> CountedOnce(old(ops), ops, (Exact, false))
      ensures rc == ERROR <==>
                HardFails(o, old(cache), Siblings(old(index.view), zone, key, o.path), io, obstacle, mem)
      ensures rc == OK ==>
                ExactPurged(old(cache), old(index.view), zone, key, o, o.path in io.unlink, obstacle, mem,
                            count, cache, index.view)
      ensures rc != OK ==> count == 0
      ensures o.path !in io.unlink ==> NoneUncovered(zone, old(index.view), cache.disk, index.view)
      ensures fanouts == old(fanouts) + (if rc == OK && count > 1 then 1 else 0)
      ensures route == if rc == OK && count > 1 then ExactKeyFanout else old(route)
    {
      hide NoneUncovered, Consistent, Accounted, StateOf, Unlinked, HardFanned, Siblings, SomeFault, Recorded, KeyOf,
          OpenedGone, Released, LockReleased, OnlyFiles, CountedOnce, Fans, LessOpened;
      count := 0;
      ghost var group := Siblings(index.view, zone, key, o.path);
      NothingRecorded(entries, purged, (Exact, false));
      AllCovered(zone, index.view, cache.disk);
      rc := DeleteOpenedFile(o, io);
      if rc == DECLINED {
        reason := NotFound;
        return;
      }
      RecordPurgeRequest((Exact, false));
      OpenedGoneDisk(old(cache), o, io);
      NoSibling(old(index.view), zone, key, o.path);
      FaultStays(old(cache), o, io, group);
      var others;
      rc, others := HardFanout(o.path, key, io, mem, now);
      OpenedStaysGone(o.path, group, OpenedGone(old(cache), o, o.path in io.unlink).disk, cache.disk);
      if rc == ERROR {
        ReleasedDisk(cache, o);
        ReleaseUpdating(o);
        return;
      }
      NoteFanout(others);
      RecordPurge((Exact, false), 1 + others);
      count := 1 + others;
      FannedReleased(old(cache), old(index.view), zone, key, o, io, others, Fans(obstacle, mem, group), cache, index.view);
      ReleasedDisk(cache, o);
      ReleaseUpdating(o);
    }

    method NoteFanout(others: nat)
      modifies this`route, this`fanouts
      ensures route == if others > 0 then ExactKeyFanout else old(route)
      ensures fanouts == old(fanouts) + if others > 0 then 1 else 0
    {
      if others > 0 {
        route := ExactKeyFanout;
        fanouts := fanouts + 1;
      }
    }

    /** Expires all files with the key, the opened one included if it is indexed. */
    method SoftFanout(key: Str, io: Faults, mem: Grants, now: int) returns (rc: Rc, count: nat)
      requires Valid()
      modifies this`cache, this`reason, index`shm, index`view
      ensures Valid() && rc != DECLINED && index.view == old(index.view)
      ensures var group := KeyHits(index.view, zone, key);
        var fans := Fans(obstacle, mem, group);
        && (rc == ERROR <==> fans && Faulty(group, true, io, old(cache).disk))
        && (fans && rc == OK ==> SoftFanned(old(cache), index.view, zone, key, count, cache))
        && (!fans ==> count == 0 && cache == old(cache))
        && OnlyFiles(group, old(cache).disk, cache.disk)
      ensures reason == if obstacle != Unset then obstacle else old(reason)
    {
      hide Consistent, Accounted, StateOf, Expired, KeyHits, OnDisk, Missing, Ids;
      if obstacle != Unset {
        reason := obstacle;
        return OK, 0;
      }
      var text := CacheKeyText(key, mem);
      if text.None? {
        return OK, 0;
      }
      var ok, paths := index.CollectPathsByExactKey(zone, text.value, mem.list);
      if !ok {
        return OK, 0;
      }
      ListedFiles(paths, cache);
      assert paths[..|paths|] == paths;
      ghost var done;
      rc, count, done := SoftLoop(paths, false, io, now);
      OthersExpired(old(cache), paths, done);
    }

    /** exact_purge_soft. The operation is counted at the end, so no error is. */
    method ExactPurgeSoft(o: Opened, key: Str, io: Faults, mem: Grants, now: int) returns (rc: Rc, ghost count: nat)
      requires Valid() && OpenedRight(o, cache)
      modifies this`cache, this`ops, this`entries, this`fanouts, this`purged, this`reason, this`route, index`shm, index`view
      ensures Valid() && Recorded(old(entries), entries, old(purged), purged, (Exact, true), count)
      ensures index.view == old(index.view)
      ensures rc == DECLINED <==> SoftMisses(o, old(cache), io)
      ensures rc == DECLINED ==> reason == NotFound && cache == old(cache)
      ensures rc == ERROR <==> SoftFails(o, old(cache), KeyHits(index.view, zone, key), io, obstacle, mem)
      ensures rc == OK ==>
                Purgeable(o, old(cache)) && o.path in old(cache).disk
                && ExactExpired(old(cache), index.view, zone, key, o, obstacle, mem, count, cache)
      ensures rc == OK ==> CountedOnce(old(ops), ops, (Exact, true))
      ensures rc != OK ==> ops == old(ops) && count == 0
      ensures fanouts == old(fanouts) + (if rc == OK && count > 1 then 1 else 0)
      ensures route == if rc == OK && count > 1 then ExactKeyFanout else old(route)
    {
      hide Consistent, Accounted, StateOf, ExactExpired, KeyHits, Recorded, KeyOf, CountedOnce, Fans, Faulty;
      count := 0;
      NothingRecorded(entries, purged, (Exact, true));
      if o.Found? {
        rc, count := ExpireOpened(o, key, io, mem, now);
      } else if o.Broken? {
        rc := ERROR;
      } else {
        reason := NotFound;
        rc := DECLINED;
      }
    }

    method ExpireOpened(o: Opened, key: Str, io: Faults, mem: Grants, now: int) returns (rc: Rc, ghost count: nat)
      requires Valid() && o.Found? && o.node in cache.nodes
      modifies this`cache, this`ops, this`entries, this`fanouts, this`purged, this`reason, this`route, index`shm, index`view
      ensures Valid() && Recorded(old(entries), entries, old(purged), purged, (Exact, true), count)
      ensures index.view == old(index.view)
      ensures rc == DECLINED <==> SoftMisses(o, old(cache), io)
      ensures rc == DECLINED ==> reason == NotFound && cache == old(cache)
      ensures rc == ERROR <==> SoftFails(o, old(cache), KeyHits(index.view, zone, key), io, obstacle, mem)
      ensures rc == OK ==> ExactExpired(old(cache), index.view, zone, key, o, obstacle, mem, count, cache)
      ensures rc == OK ==> CountedOnce(old(ops), ops, (Exact, true))
      ensures rc != OK ==> ops == old(ops) && count == 0
      ensures fanouts == old(fanouts) + (if rc == OK && count > 1 then 1 else 0)
      ensures route == if rc == OK && count > 1 then ExactKeyFanout else old(route)
    {
      hide Consistent, Accounted, StateOf, Expired, KeyHits, Recorded, KeyOf, CountedOnce, ExpireAll, Released,
          LockReleased, OnlyFiles, Fans, SomeFault, OpenedRight;
      count := 0;
      NothingRecorded(entries, purged, (Exact, true));
      if !cache.nodes[o.node].present {
        reason := NotFound;
        return DECLINED, count;
      }
      rc := SoftHeader(o.path, io);
      if rc == DECLINED {
        reason := NotFound;
      }
      if rc != OK {
        return;
      }
      ExpireNode(o.node);
      OpenedExpiredDisk(old(cache), o);
      var others;
      rc, others := SoftFanout(key, io, mem, now);
      ReleasedDisk(cache, o);
      if rc == ERROR {
        ReleaseUpdating(o);
        return;
      }
      RecordPurgeRequest((Exact, true));
      NoteFanout(others);
      RecordPurge((Exact, true), 1 + others);
      count := 1 + others;
      ReleaseUpdating(o);
    }

    // ----- wildcard and full purge -----

    /** Hands the paths that the tree walk of nginx visits to the file handler, which
        tells the walk to go on in any case. The full purge has an empty prefix. */
    method WalkTree(walk: seq<Str>, prefix: Str, soft: bool, io: Faults) returns (count: nat)
      requires Accounted(cache) && NoDup(walk)
      modifies this`cache
      ensures Accounted(cache) && Walked(old(cache), walk, prefix, soft, io, cache)
      ensures count == |WalkHits(walk, prefix, soft, io, old(cache).disk)|
    {
      hide Accounted, Walked, WalkHits, PartialMatch, ExpireStep, UnlinkStep;
      count := 0;
      ghost var c0 := cache;
      WalkedNone(c0, prefix, soft, io);
      for i := 0 to |walk|
        invariant Accounted(cache) && Walked(c0, walk[..i], prefix, soft, io, cache)
        invariant count == |WalkHits(walk[..i], prefix, soft, io, c0.disk)|
      {
        var p := walk[i];
        ghost var c := cache;
        assert walk[..i + 1] == walk[..i] + [p];
        WalkedFile(c0, walk[..i], prefix, soft, io, cache, p);
        WalkHitsMore(walk[..i], p, prefix, soft, io, c0.disk);
        var rc := DECLINED;
        if PartialMatch(prefix, p, io, cache.disk) {
          if soft {
            rc := SoftPath(p, io);
          } else {
            rc := DeleteCacheFile(p, io);
          }
        }
        if rc == OK {
          WalkedStep(c0, walk[..i], prefix, soft, io, c, p, cache);
          count := count + 1;
        } else {
          WalkedSkip(c0, walk[..i], prefix, soft, io, c, p, cache);
        }
      }
      assert walk[..|walk|] == walk;
    }

    /** The index branch of the wildcard purge; 0 purged files mean that it is not used. */
    method PurgeByPrefix(prefix: Str, soft: bool, io: Faults, list: nat, now: int) returns (rc: Rc, count: nat)
      requires Valid()
      modifies this`cache, this`reason, index`shm, index`view
      ensures Valid() && rc != DECLINED
      ensures var hits := PrefixHits(old(index.view), zone, prefix);
        var asked := Asked(obstacle, list, hits);
        && (rc == ERROR <==> asked && Faulty(hits, soft, io, old(cache).disk))
        && (asked && rc == OK ==> count == |hits * old(cache).disk.Keys|
                                  && IndexPurged(old(cache), old(index.view), zone, hits, soft, cache, index.view))
        && (!asked ==> count == 0 && cache == old(cache) && index.view == old(index.view))
        && OnlyFiles(hits, old(cache).disk, cache.disk)
        && NoneUncovered(zone, old(index.view), cache.disk, index.view)
      ensures reason == if obstacle != Unset then obstacle else old(reason)
    {
      hide NoneUncovered, Consistent, Accounted, StateOf, Expired, Unlinked, PrefixHits, OnDisk, Missing, Ids, UnlinkFails;
      AllCovered(zone, index.view, cache.disk);
      if obstacle != Unset {
        reason := obstacle;
        return OK, 0;
      }
      var ok, paths := index.CollectPathsByKeyPrefix(zone, prefix, list);
      if !ok {
        return OK, 0;
      }
      ListedFiles(paths, cache);
      assert paths[..|paths|] == paths;
      ghost var done;
      if soft {
        rc, count, done := SoftLoop(paths, false, io, now);
        OthersExpired(old(cache), paths, done);
      } else {
        rc, count, done := HardLoop(paths, io, now);
        OthersUnlinked(old(cache), paths, done);
      }
    }

    /** ngx_http_cache_pilot_partial, with the tree walk in the same thread. `walk` is
        what the walk visits, and it may end early. A star alone is an error. */
    method Partial(key: Str, soft: bool, walk: seq<Str>, finished: bool, io: Faults, mem: Grants, now: int)
      returns (rc: Rc, ghost count: nat)
      requires Valid() && NoDup(walk)
      modifies this`cache, this`ops, this`entries, this`wildcardHits, this`purged, this`reason, this`route,
          index`shm, index`view
      ensures Valid() && rc != DECLINED
      ensures Recorded(old(entries), entries, old(purged), purged, (Wildcard, soft), count)
      ensures rc == OK ==> CountedOnce(old(ops), ops, (Wildcard, soft))
      ensures rc != OK ==> ops == old(ops) && count == 0
      ensures var hits := PrefixHits(old(index.view), zone, IndexPrefix(key));
        var asked := Asked(obstacle, mem.list, hits);
        var byIndex := asked && !(hits !! old(cache).disk.Keys);
        && (rc == ERROR <==> WildcardFails(key, hits, soft, io, finished, old(cache).disk, obstacle, mem))
        && (rc == OK ==>
              WildcardPurged(old(cache), old(index.view), zone, key, soft, walk, io, asked, count, cache, index.view))
        && (rc == OK ==> route == if byIndex then WildcardIndex else FilesystemFallback)
        && wildcardHits == old(wildcardHits) + if rc == OK && byIndex then 1 else 0
      ensures IndexPrefix(key) == [] ==> cache == old(cache) && index.view == old(index.view)
      ensures reason == if IndexPrefix(key) != [] && mem.prefix && obstacle != Unset then obstacle else old(reason)
      ensures key != [] ==>
                OnlyFiles(PrefixHits(old(index.view), zone, IndexPrefix(key))
                            + WalkHits(walk, WalkPrefix(key), soft, io, old(cache).disk),
                          old(cache).disk, cache.disk)
      ensures NoneUncovered(zone, old(index.view), cache.disk, index.view)
    {
      hide NoneUncovered, Consistent, Accounted, StateOf, PrefixHits, IndexPurged, Walked, WalkHits, Recorded, CountedOnce,
          Ids, Faulty, OnlyFiles;
      count := 0;
      NothingRecorded(entries, purged, (Wildcard, soft));
      AllCovered(zone, index.view, cache.disk);
      if key == [] {
        return ERROR, count;
      }
      var prefix := IndexPrefix(key);
      ghost var hits, walked := PrefixHits(index.view, zone, prefix), WalkHits(walk, WalkPrefix(key), soft, io, cache.disk);
      OnlyFilesMore(hits, walked, cache.disk, cache.disk);
      if prefix == [] || !mem.prefix {
        return ERROR, count;
      }
      var found;
      rc, found := PurgeByPrefix(prefix, soft, io, mem.list, now);
      OnlyFilesMore(hits, walked, old(cache).disk, cache.disk);
      if rc == ERROR {
        return;
      }
      SomeCommon(hits, old(cache).disk.Keys);
      if found > 0 {
        RecordPurge((Wildcard, soft), found);
        route := WildcardIndex;
        wildcardHits := wildcardHits + 1;
        RecordPurgeRequest((Wildcard, soft));
        count := found;
        return;
      }
      if Asked(obstacle, mem.list, hits) {
        NothingIndexed(old(cache), old(index.view), zone, hits, soft, cache, index.view);
      }
      if !mem.walk {
        return ERROR, count;
      }
      ghost var disk := cache.disk;
      rc, count := PartialWalk(key, soft, walk, finished, io);
      FewerFilesCovered(zone, old(index.view), walked, disk, cache.disk, index.view);
      OnlyFilesMore(hits, walked, old(cache).disk, cache.disk);
    }

    /** The fallback of the wildcard purge. */
    method PartialWalk(key: Str, soft: bool, walk: seq<Str>, finished: bool, io: Faults) returns (rc: Rc, ghost count: nat)
      requires Accounted(cache) && NoDup(walk) && key != []
      modifies this`cache, this`ops, this`entries, this`purged, this`route
      ensures Accounted(cache) && rc == if finished then OK else ERROR
      ensures Recorded(old(entries), entries, old(purged), purged, (Wildcard, soft), count)
      ensures rc == OK ==> CountedOnce(old(ops), ops, (Wildcard, soft))
      ensures rc != OK ==> ops == old(ops) && count == 0
      ensures Walked(old(cache), walk, WalkPrefix(key), soft, io, cache)
      ensures rc == OK ==> count == |WalkHits(walk, WalkPrefix(key), soft, io, old(cache).disk)|
      ensures OnlyFiles(WalkHits(walk, WalkPrefix(key), soft, io, old(cache).disk), old(cache).disk, cache.disk)
      ensures route == FilesystemFallback
    {
      hide Accounted, Walked, WalkHits, Recorded, CountedOnce;
      NothingRecorded(entries, purged, (Wildcard, soft));
      route := FilesystemFallback;
      var n := WalkTree(walk, WalkPrefix(key), soft, io);
      OthersWalked(old(cache), walk, WalkPrefix(key), soft, io, cache);
      count := 0;
      if !finished {
        return ERROR, count;
      }
      RecordPurge((Wildcard, soft), n);
      RecordPurgeRequest((Wildcard, soft));
      return OK, n;
    }

    /** ngx_http_cache_pilot_all. The index is not asked and keeps all its entries. */
    method PurgeAll(soft: bool, walk: seq<Str>, finished: bool, io: Faults) returns (rc: Rc, ghost count: nat)
      requires Valid() && NoDup(walk)
      modifies this`cache, this`ops, this`entries, this`purged
      ensures Valid() && index.view == old(index.view) && rc == if finished then OK else ERROR
      ensures Recorded(old(entries), entries, old(purged), purged, (All, soft), count)
      ensures rc == OK ==> CountedOnce(old(ops), ops, (All, soft))
      ensures rc != OK ==> ops == old(ops) && count == 0
      ensures Walked(old(cache), walk, [], soft, io, cache)
      ensures rc == OK ==> count == |WalkHits(walk, [], soft, io, old(cache).disk)|
      ensures !soft ==> forall p ::
                p in cache.disk <==> p in old(cache).disk && (p !in walk || p in io.stat || p in io.unlink)
      ensures soft ==> forall p ::
                && (p in cache.disk <==> p in old(cache).disk)
                && (p in cache.disk ==>
                      (cache.disk[p].expired <==> old(cache).disk[p].expired || (p in walk && p !in io.header)))
      ensures rc == OK && !soft ==>
                count == |set p | p in walk && p in old(cache).disk && p !in io.stat && p !in io.unlink|
      ensures rc == OK && soft ==> count == |set p | p in walk && p in old(cache).disk && p !in io.header|
    {
      hide Consistent, Accounted, Walked, WalkHits, Recorded, CountedOnce;
      NothingRecorded(entries, purged, (All, soft));
      var n := WalkTree(walk, [], soft, io);
      WalkedAll(old(cache), walk, soft, io, cache);
      count := 0;
      if !finished {
        return ERROR, count;
      }
      RecordPurge((All, soft), n);
      RecordPurgeRequest((All, soft));
      return OK, n;
    }
  }
}
