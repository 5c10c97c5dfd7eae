/** The index store in shared memory: the operations that run under the mutex of
    the slab pool. Any allocation may be refused. */
module IndexStore {
  import opened Bytes
  import opened OrderedTree
  import opened NameIndex
  import opened SharedHeap
  import opened HeapSteps
  import opened HeapView
  import opened IndexHits
  import opened SlabRequests
  import opened IndexNeeds

  /** Reading one cache file: no memory pool, no key and tags, or both. */
  datatype Parse = NoPool | Unparsed | Parsed(meta: Meta)

  class Store {
    const hashes: Hashes

    // The slab blocks in shared memory, one map for each struct field.
    var shm: Heap
    var allocFailures: nat

    // Which requests the slab pool grants, and how many there were.
    const slab: nat -> bool
    var requests: nat

    // The plain map that the store implements.
    ghost var view: map<Id, Meta>

    ghost predicate Valid()
      reads this
    {
      Consistent(hashes, shm, view, allocFailures) && allocFailures == Refusals(slab, requests)
    }

    constructor (hashes: Hashes, slab: nat -> bool)
      ensures Valid() && view == map[] && allocFailures == 0 && shm.zoneName == map[]
      ensures this.hashes == hashes && this.slab == slab && requests == 0
    {
      this.hashes, this.slab, requests := hashes, slab, 0;
      shm := NEW_HEAP;
      allocFailures := 0;
      view := map[];
    }

    // ----- blocks and entries -----

    /** ngx_slab_alloc_locked: any address that is not in use, or nothing. */
    method AllocLocked() returns (p: Option<Addr>)
      modifies this`allocFailures, this`requests
      ensures p.Some? <==> slab(old(requests))
      ensures requests == old(requests) + 1 && allocFailures == old(allocFailures) + if p.Some? then 0 else 1
      ensures p.Some? ==> p.value !in Blocks(shm.slab)
    {
      p := None;
      if slab(requests) {
        ghost var unused := UnusedAddress(Blocks(shm.slab));
        var a: Addr :| a !in Blocks(shm.slab);
        p := Some(a);
      } else {
        allocFailures := allocFailures + 1;
      }
      requests := requests + 1;
    }

    method LookupZone(name: Str) returns (zone: Option<Addr>)
      requires Linked(hashes, shm)
      ensures zone.Some? ==> zone.value in shm.zoneName && shm.zoneName[zone.value] == name
      ensures zone.None? ==> name !in shm.zoneName.Values
    {
      hide Linked;
      ZonesLive(hashes, shm);
      for q := 0 to |shm.zoneQueue|
        invariant forall i :: 0 <= i < q ==> shm.zoneName[shm.zoneQueue[i]] != name
      {
        if shm.zoneName[shm.zoneQueue[q]] == name {
          return Some(shm.zoneQueue[q]);
        }
      }
      return None;
    }

    method GetZoneLocked(name: Str) returns (zone: Option<Addr>)
      requires Linked(hashes, shm) && Shows(shm, view, {})
      modifies this`shm, this`allocFailures, this`requests
      ensures Linked(hashes, shm) && Shows(shm, view, {})
      ensures zone.None? ==> shm == old(shm) && name !in shm.zoneName.Values && allocFailures == old(allocFailures) + 1
      ensures zone.Some? ==> zone.value in shm.zoneName && shm.zoneName[zone.value] == name
                             && allocFailures == old(allocFailures)
      ensures zone.Some? && zone.value in old(shm).zoneName ==> shm == old(shm)
      ensures zone.Some? && zone.value !in old(shm).zoneName ==>
                name !in old(shm).zoneName.Values && shm == AddZone(old(shm), zone.value, name)
      ensures Spent(slab, old(requests), requests, if name in old(shm).zoneName.Values then 0 else 1, zone.Some?)
    {
      hide Linked, Shows, Spent;
      zone := LookupZone(name);
      SpentNothing(slab, requests);
      SpentOne(slab, requests);
      if zone.Some? {
        return;
      }
      zone := AllocLocked();
      if zone.None? {
        return;
      }
      var z := zone.value;
      FreshBlock(hashes, shm, z);
      AddZoneLinked(hashes, shm, z, name);
      AddZoneShows(hashes, shm, view, z, name);
      shm := AddZone(shm, z, name);
    }

    method LookupKeyEntry(z: Addr, key: Str) returns (entry: Option<Addr>)
      requires Linked(hashes, shm) && z in shm.zoneName
      ensures entry.Some? ==> entry.value in shm.keyHome && shm.keyHome[entry.value] == z
                              && entry.value in shm.keyText && shm.keyText[entry.value] == key
      ensures entry.None? ==> key !in Names(shm.keyHome, shm.keyText, z).Values
    {
      hide Linked, Indexes;
      TreesOf(hashes, shm, z);
      entry := FindName(shm.keyIndex[z], Names(shm.keyHome, shm.keyText, z), hashes.short, hashes.short, key);
    }

    method LookupTagEntry(z: Addr, tag: Str) returns (entry: Option<Addr>)
      requires Linked(hashes, shm) && z in shm.zoneName
      ensures entry.Some? ==> entry.value in shm.tagHome && shm.tagHome[entry.value] == z
                              && entry.value in shm.tagText && shm.tagText[entry.value] == tag
      ensures entry.None? ==> tag !in Names(shm.tagHome, shm.tagText, z).Values
    {
      hide Linked, Indexes;
      TreesOf(hashes, shm, z);
      entry := FindName(shm.tagIndex[z], Names(shm.tagHome, shm.tagText, z), hashes.short, hashes.short, tag);
    }

    /** Finds the file under its current hash or under the one of older versions. */
    method LookupFile(z: Addr, path: Str) returns (file: Option<Addr>)
      requires Linked(hashes, shm) && z in shm.zoneName
      ensures file.Some? ==> file.value in shm.fileHome && shm.fileHome[file.value] == z
                             && file.value in shm.filePath && shm.filePath[file.value] == path
      ensures file.None? ==> path !in Names(shm.fileHome, shm.filePath, z).Values
    {
      hide Linked, Indexes;
      TreesOf(hashes, shm, z);
      file := FindName(shm.pathIndex[z], Names(shm.fileHome, shm.filePath, z), hashes.long, hashes.short, path);
    }

    method GetKeyEntryLocked(z: Addr, key: Str) returns (entry: Option<Addr>)
      requires Linked(hashes, shm) && z in shm.zoneName && key != []
      modifies this`shm, this`allocFailures, this`requests
      ensures Linked(hashes, shm)
      ensures entry.None? ==> shm == old(shm) && allocFailures == old(allocFailures) + 1
      ensures entry.Some? ==> allocFailures == old(allocFailures)
      ensures entry.Some? ==> entry.value in shm.keyHome && shm.keyHome[entry.value] == z
                              && entry.value in shm.keyText && shm.keyText[entry.value] == key
                                  && entry.value in shm.keyFiles
      ensures KeyFieldsOnly(old(shm), shm)
      ensures entry.Some? ==> Empty(shm.keyFiles) <= old(Empty(shm.keyFiles)) + {entry.value}
      ensures Spent(slab, old(requests), requests, KeyNeed(old(shm), z, key), entry.Some?)
    {
      hide Linked, Names, InOrder, Insert, Spent;
      KeysLive(hashes, shm);
      entry := LookupKeyEntry(z, key);
      SpentNothing(slab, requests);
      SpentOne(slab, requests);
      if entry.Some? {
        NamedBlock(shm.keyHome, shm.keyText, entry.value);
      }
      if entry.Some? {
        return;
      }
      entry := AllocLocked();
      if entry.None? {
        return;
      }
      var k := entry.value;
      TreesOf(hashes, shm, z);
      FreshBlock(hashes, shm, k);
      var tree := Rebalanced(InOrder(Insert(shm.keyIndex[z], Slot(hashes.short(key), key, k))));
      AddKeyEntryLinked(hashes, shm, k, z, key, tree);
      shm := AddKeyEntry(shm, k, z, key, tree);
    }

    method GetTagEntryLocked(z: Addr, tag: Str) returns (entry: Option<Addr>)
      requires Linked(hashes, shm) && z in shm.zoneName
      modifies this`shm, this`allocFailures, this`requests
      ensures Linked(hashes, shm)
      ensures entry.None? ==> shm == old(shm) && allocFailures == old(allocFailures) + 1
      ensures entry.Some? ==> allocFailures == old(allocFailures)
      ensures entry.Some? ==> entry.value in shm.tagHome && shm.tagHome[entry.value] == z
                              && entry.value in shm.tagText && shm.tagText[entry.value] == tag
                                  && entry.value in shm.tagMembers
      ensures TagFieldsOnly(old(shm), shm)
      ensures entry.Some? ==> Empty(shm.tagMembers) <= old(Empty(shm.tagMembers)) + {entry.value}
      ensures forall t :: t in old(shm).tagText ==> t in shm.tagText && shm.tagText[t] == old(shm).tagText[t]
      ensures Spent(slab, old(requests), requests, if tag in TagTexts(old(shm), z) then 0 else 1, entry.Some?)
      ensures entry.Some? ==> TagTexts(shm, z) == TagTexts(old(shm), z) + {tag}
    {
      hide Linked, Names, InOrder, Insert, Spent;
      TagsLive(hashes, shm);
      entry := LookupTagEntry(z, tag);
      SpentNothing(slab, requests);
      SpentOne(slab, requests);
      if entry.Some? {
        NamedBlock(shm.tagHome, shm.tagText, entry.value);
        return;
      }
      entry := AllocLocked();
      if entry.None? {
        return;
      }
      var t := entry.value;
      TreesOf(hashes, shm, z);
      FreshBlock(hashes, shm, t);
      var tree := Rebalanced(InOrder(Insert(shm.tagIndex[z], Slot(hashes.short(tag), tag, t))));
      AddTagEntryLinked(hashes, shm, t, z, tag, tree);
      OneMoreText(shm, t, z, tag, tree);
      shm := AddTagEntry(shm, t, z, tag, tree);
    }

    method FreeEmptyKeyEntryLocked(z: Addr, k: Addr)
      requires Linked(hashes, shm) && k in shm.keyHome && shm.keyHome[k] == z && k in shm.keyFiles
      modifies this`shm
      ensures Linked(hashes, shm)
      ensures KeyFieldsOnly(old(shm), shm) && Empty(shm.keyFiles) == old(Empty(shm.keyFiles)) - {k}
    {
      hide Linked, InOrder, RemoveAddr;
      if shm.keyFiles[k] != [] {
        return;
      }
      KeysLive(hashes, shm);
      TreesOf(hashes, shm, z);
      var tree := Rebalanced(RemoveAddr(InOrder(shm.keyIndex[z]), k));
      DropKeyEntryLinked(hashes, shm, k, tree);
      shm := DropKeyEntry(shm, k, tree);
    }

    method FreeEmptyTagEntryLocked(z: Addr, t: Addr)
      requires Linked(hashes, shm) && t in shm.tagHome && shm.tagHome[t] == z && t in shm.tagMembers
      modifies this`shm
      ensures Linked(hashes, shm)
      ensures TagFieldsOnly(old(shm), shm) && Empty(shm.tagMembers) == old(Empty(shm.tagMembers)) - {t}
      ensures Spare(shm) == old(Spare(shm)) - {t}
      ensures shm.tagMembers.Keys <= old(shm.tagMembers.Keys) && shm.tagText.Keys <= old(shm.tagText.Keys)
      ensures forall u :: u in shm.tagText ==> shm.tagText[u] == old(shm).tagText[u]
      ensures forall u :: u in old(shm).tagMembers && old(shm).tagMembers[u] != [] ==> u in shm.tagText
    {
      hide Linked, InOrder, RemoveAddr;
      TagsLive(hashes, shm);
      if shm.tagMembers[t] != [] {
        return;
      }
      TreesOf(hashes, shm, z);
      var tree := Rebalanced(RemoveAddr(InOrder(shm.tagIndex[z]), t));
      DropTagEntryLinked(hashes, shm, t, tree);
      shm := DropTagEntry(shm, t, tree);
    }

    // ----- linking and unlinking a file -----

    /** Takes `file`, which may be linked only in part, out of the store. */
    method RemoveFileLocked(z: Addr, file: Addr)
      requires Linked(hashes, shm) && Shows(shm, view, {file})
      requires file in shm.fileHome && shm.fileHome[file] == z
      requires KeyComplete(shm.fileKey, shm.keyEntry, {file}) && Empty(shm.keyFiles) == {}
      modifies this`shm
      ensures Linked(hashes, shm) && Shows(shm, view, {})
      ensures KeyComplete(shm.fileKey, shm.keyEntry, {}) && Empty(shm.keyFiles) == {}
      ensures Empty(shm.tagMembers) <= old(Empty(shm.tagMembers)) && Spare(shm) == old(Spare(shm))
      ensures shm.zoneName == old(shm).zoneName && shm.zoneState == old(shm).zoneState
      ensures shm.fileHome == old(shm).fileHome - {file} && shm.filePath == old(shm).filePath - {file}
    {
      hide Linked, Shows, InOrder, RemoveAddr, Without, Spare;
      FilesLive(hashes, shm, file);
      if file in shm.keyEntry {
        UnlinkFromKey(z, file);
      }
      while shm.fileMembers[file] != []
        invariant Linked(hashes, shm) && Shows(shm, view, {file}) && SameFiles(old(shm), shm)
        invariant file in shm.fileMembers && file !in shm.keyEntry
        invariant KeyComplete(shm.fileKey, shm.keyEntry, {file}) && Empty(shm.keyFiles) == {}
        invariant Empty(shm.tagMembers) <= old(Empty(shm.tagMembers)) && Spare(shm) == old(Spare(shm))
        decreases |shm.fileMembers[file]|
      {
        RemoveFirstMember(z, file);
      }
      TreesOf(hashes, shm, z);
      ZonesLive(hashes, shm);
      var tree := Rebalanced(RemoveAddr(InOrder(shm.pathIndex[z]), file));
      DropFileLinked(hashes, shm, file, tree);
      DropFileShows(hashes, shm, view, file, tree);
      SpareAfterDrop(shm, file, tree);
      shm := DropFile(shm, file, tree);
    }

    method UnlinkFromKey(z: Addr, file: Addr)
      requires Linked(hashes, shm) && Shows(shm, view, {file}) && Empty(shm.keyFiles) == {}
      requires KeyComplete(shm.fileKey, shm.keyEntry, {file})
      requires file in shm.fileHome && shm.fileHome[file] == z && file in shm.keyEntry
      modifies this`shm
      ensures Linked(hashes, shm) && Shows(shm, view, {file}) && Empty(shm.keyFiles) == {}
      ensures KeyComplete(shm.fileKey, shm.keyEntry, {file})
      ensures SameFiles(old(shm), shm) && file !in shm.keyEntry
      ensures shm.fileMembers == old(shm).fileMembers && shm.tagMembers == old(shm).tagMembers
      ensures Spare(shm) == old(Spare(shm))
    {
      hide Linked, Shows, Without;
      var k := shm.keyEntry[file];
      KeyLinkLive(hashes, shm, file);
      UnlinkKeyLinked(hashes, shm, file, k);
      shm := UnlinkKey(shm, file, k);
      FreeEmptyKeyEntryLocked(z, k);
      OtherFieldsShow(hashes, old(shm), shm, view, {file});
    }

    method RemoveFirstMember(z: Addr, file: Addr)
      requires Linked(hashes, shm) && Shows(shm, view, {file})
      requires file in shm.fileHome && shm.fileHome[file] == z
      requires file in shm.fileMembers && shm.fileMembers[file] != []
      modifies this`shm
      ensures Linked(hashes, shm) && Shows(shm, view, {file}) && SameFiles(old(shm), shm)
      ensures shm.keyEntry == old(shm).keyEntry && shm.keyFiles == old(shm).keyFiles
      ensures file in shm.fileMembers && |shm.fileMembers[file]| < |old(shm).fileMembers[file]|
      ensures Empty(shm.tagMembers) <= old(Empty(shm.tagMembers)) && Spare(shm) == old(Spare(shm))
    {
      hide Linked, Shows, Without, Spare;
      var m := shm.fileMembers[file][0];
      MembersLive(hashes, shm, file);
      MemberLive(hashes, shm, m);
      MemberQueue(hashes, shm, file);
      var t := shm.memberTag[m];
      WithoutOf(shm.fileMembers[file], m);
      RemoveMemberLinked(hashes, shm, m);
      RemoveMemberShows(hashes, shm, view, m, t, file);
      SpareButOne(shm, m, t, file);
      shm := RemoveMember(shm, m, t, file);
      ghost var s := shm;
      FreeEmptyTagEntryLocked(z, t);
      KeptTags(hashes, s, shm);
      OtherFieldsShow(hashes, s, shm, view, {file});
    }

    method LinkExactKeyLocked(z: Addr, file: Addr) returns (ok: bool)
      requires Linked(hashes, shm) && Shows(shm, view, {file}) && Empty(shm.keyFiles) == {}
      requires KeyComplete(shm.fileKey, shm.keyEntry, {file})
      requires file in shm.fileHome && shm.fileHome[file] == z && file !in shm.keyEntry
      modifies this`shm, this`allocFailures, this`requests
      ensures Linked(hashes, shm) && Shows(shm, view, {file}) && Empty(shm.keyFiles) == {}
      ensures KeyComplete(shm.fileKey, shm.keyEntry, if ok then {} else {file})
      ensures SameFiles(old(shm), shm) && shm.fileMembers == old(shm).fileMembers
      ensures shm.tagMembers == old(shm).tagMembers && shm.tagText == old(shm).tagText
          && shm.memberTag == old(shm).memberTag && shm.tagHome == old(shm).tagHome
      ensures allocFailures == old(allocFailures) + if ok then 0 else 1
      ensures file in old(shm).fileKey
      ensures Spent(slab, old(requests), requests, KeyNeed(old(shm), z, old(shm).fileKey[file]), ok)
    {
      hide Linked, Shows, KeyComplete, Empty, Spent, Names;
      FilesLive(hashes, shm, file);
      SpentNothing(slab, requests);
      if shm.fileKey[file] == [] {
        UnkeyedFileClosed(shm, file);
        return true;
      }
      var entry := GetKeyEntryLocked(z, shm.fileKey[file]);
      if entry.None? {
        return false;
      }
      var k := entry.value;
      LinkKeyLinked(hashes, shm, file, k);
      KeyedFileClosed(shm, file, k);
      shm := LinkKey(shm, file, k);
      OtherFieldsShow(hashes, old(shm), shm, view, {file});
      return true;
    }

    method LinkTagsLocked(z: Addr, file: Addr, tags: seq<Str>) returns (ok: bool)
      requires Linked(hashes, shm) && Shows(shm, view, {file})
      requires file in shm.fileHome && shm.fileHome[file] == z
      requires file in shm.fileMembers && shm.fileMembers[file] == []
      modifies this`shm, this`allocFailures, this`requests
      ensures Linked(hashes, shm) && Shows(shm, view, {file}) && SameFiles(old(shm), shm)
      ensures shm.keyEntry == old(shm).keyEntry && shm.keyFiles == old(shm).keyFiles
      ensures file in shm.fileMembers && (ok ==> TagsOf(shm, shm.fileMembers[file]) == tags)
      ensures ok ==> Empty(shm.tagMembers) <= old(Empty(shm.tagMembers)) && allocFailures == old(allocFailures)
      ensures !ok ==> |Empty(shm.tagMembers)| <= |old(Empty(shm.tagMembers))| + 1 && allocFailures == old(allocFailures) + 1
      ensures Spent(slab, old(requests), requests, TagNeed(TagTexts(old(shm), z), tags), ok)
    {
      hide Linked, Shows, TagsOf, Empty, Spent, TagNeed, TagTexts, Elements;
      NoTags(shm);
      ghost var texts := TagTexts(shm, z);
      SpentNothing(slab, requests);
      NoTagNeed(texts, tags);
      for i := 0 to |tags|
        invariant Linked(hashes, shm) && Shows(shm, view, {file}) && SameFiles(old(shm), shm)
        invariant shm.keyEntry == old(shm).keyEntry && shm.keyFiles == old(shm).keyFiles
        invariant file in shm.fileMembers && TagsOf(shm, shm.fileMembers[file]) == tags[..i]
        invariant Empty(shm.tagMembers) <= old(Empty(shm.tagMembers)) && allocFailures == old(allocFailures)
        invariant TagTexts(shm, z) == texts + Elements(tags[..i])
        invariant Spent(slab, old(requests), requests, TagNeed(texts, tags[..i]), true)
      {
        ghost var r := requests;
        var linked, t := LinkTag(z, file, tags[i]);
        TagSpent(slab, old(requests), r, requests, texts, tags, i, linked);
        if !linked {
          SubsetCardinality(Empty(shm.tagMembers), old(Empty(shm.tagMembers)) + {t});
          return false;
        }
        assert tags[..i + 1] == tags[..i] + [tags[i]];
      }
      assert tags[..|tags|] == tags;
      return true;
    }

    /** One round of link_tags. A tag entry may stay behind empty. */
    method LinkTag(z: Addr, file: Addr, tag: Str) returns (ok: bool, ghost t: Addr)
      requires Linked(hashes, shm) && Shows(shm, view, {file})
      requires file in shm.fileHome && shm.fileHome[file] == z && file in shm.fileMembers
      modifies this`shm, this`allocFailures, this`requests
      ensures Linked(hashes, shm) && Shows(shm, view, {file}) && SameFiles(old(shm), shm)
      ensures shm.keyEntry == old(shm).keyEntry && shm.keyFiles == old(shm).keyFiles
      ensures file in shm.fileMembers
      ensures ok ==> Tagged(old(shm), shm, file, tag)
      ensures ok ==> Empty(shm.tagMembers) <= old(Empty(shm.tagMembers)) && allocFailures == old(allocFailures)
      ensures !ok ==> Empty(shm.tagMembers) <= old(Empty(shm.tagMembers)) + {t} && allocFailures == old(allocFailures) + 1
      ensures ok ==> TagTexts(shm, z) == TagTexts(old(shm), z) + {tag}
      ensures Spent(slab, old(requests), requests, 1 + if tag in TagTexts(old(shm), z) then 0 else 1, ok)
    {
      hide Linked, Shows, TagsOf, Spent, TagTexts, Tagged, SameFiles, TagFieldsOnly;
      t := 0;
      FilesLive(hashes, shm, file);
      ghost var n := if tag in TagTexts(shm, z) then 0 else 1;
      var entry := GetTagEntryLocked(z, tag);
      TagFieldsKeepFiles(old(shm), shm);
      ghost var s, r := shm, requests;
      if entry.None? {
        SpentBoth(slab, old(requests), r, r, n, 1, false, false);
        return false, t;
      }
      t := entry.value;
      TagEntryAdded(hashes, old(shm), shm, view, file);
      ok := LinkMember(z, file, entry.value);
      SpentBoth(slab, old(requests), r, requests, n, 1, true, ok);
      if ok {
        TaggedThrough(old(shm), s, shm, file, tag);
      }
      SameTexts(s, shm, z);
    }

    method LinkMember(z: Addr, file: Addr, t: Addr) returns (ok: bool)
      requires Linked(hashes, shm) && Shows(shm, view, {file})
      requires file in shm.fileHome && shm.fileHome[file] == z && file in shm.fileMembers
      requires t in shm.tagHome && shm.tagHome[t] == z && t in shm.tagText && t in shm.tagMembers
      modifies this`shm, this`allocFailures, this`requests
      ensures !ok ==> shm == old(shm) && allocFailures == old(allocFailures) + 1
      ensures ok ==> Linked(hashes, shm) && Shows(shm, view, {file}) && allocFailures == old(allocFailures)
      ensures ok ==> Tagged(old(shm), shm, file, old(shm.tagText[t]))
      ensures ok ==> Empty(shm.tagMembers) == old(Empty(shm.tagMembers)) - {t}
      ensures shm.tagHome == old(shm).tagHome && shm.tagText == old(shm).tagText
      ensures Spent(slab, old(requests), requests, 1, ok)
    {
      hide Linked, Shows, TagsOf, Spent;
      SpentOne(slab, requests);
      var member := AllocLocked();
      if member.None? {
        return false;
      }
      var m := member.value;
      FreshBlock(hashes, shm, m);
      AddMemberLinked(hashes, shm, m, t, file);
      AddMemberShows(hashes, shm, view, m, t, file);
      AddMemberTags(hashes, shm, m, t, file);
      shm := AddMember(shm, m, t, file);
      return true;
    }

    // ----- operations -----

    method UpsertLocked(name: Str, path: Str, key: Str, stat: Stat, tags: seq<Str>, now: int) returns (ok: bool)
      requires Valid()
      modifies this
      ensures Valid()
      ensures ok ==> view == old(view)[(name, path) := Meta(key, tags, stat)]
      ensures !ok ==> view == old(view) - {(name, path)}
      ensures allocFailures == old(allocFailures) + if ok then 0 else 1
      ensures ok ==> name in shm.zoneName.Values
      ensures ZonesTouched(old(shm), shm, if ok then {name} else {}, name, now)
      ensures Spent(slab, old(requests), requests, Needed(old(shm), old(view), name, path, key, tags), ok)
    {
      hide Linked, Shows, ZonesTouched, Names, Spent, FileNeed, TagNeed, Spare, TagTexts, KeyNeed, Refusals;
      SameZones(hashes, shm, shm, name, now);
      ghost var zoneNeed := if name in shm.zoneName.Values then 0 else 1;
      ghost var fileNeed := FileNeed(shm, view, name, path, key, tags);
      var zone := GetZoneLocked(name);
      ghost var r := requests;
      SpentRefusals(slab, old(requests), r, zoneNeed, zone.Some?);
      if zone.None? {
        AbsentZone(hashes, shm, view, name, path);
        SpentBoth(slab, old(requests), r, r, zoneNeed, fileNeed, false, false);
        return false;
      }
      var z := zone.value;
      if z !in old(shm).zoneName {
        CreatedZone(hashes, old(shm), z, name, now);
      }
      SpareKept(old(shm), shm, z, name);
      FileNeedKept(hashes, old(shm), shm, view, name, path, key, tags);
      ghost var s := shm;
      ok := ReplaceFile(z, name, path, key, stat, tags);
      SpentBoth(slab, old(requests), r, requests, zoneNeed, fileNeed, true, ok);
      KeptZones(old(shm), s, shm, name, now);
      if ok {
        TouchedZone(hashes, old(shm), shm, z, name, now);
        Touch(z, now);
      }
    }

    /** The part of the upsert after the zone is there. */
    method ReplaceFile(z: Addr, ghost name: Str, path: Str, key: Str, stat: Stat, tags: seq<Str>) returns (ok: bool)
      requires Valid() && z in shm.zoneName && shm.zoneName[z] == name
      modifies this
      ensures Valid()
      ensures view == if ok then old(view)[(name, path) := Meta(key, tags, stat)] else old(view) - {(name, path)}
      ensures allocFailures == old(allocFailures) + if ok then 0 else 1
      ensures shm.zoneName == old(shm).zoneName && shm.zoneState == old(shm).zoneState
      ensures Spent(slab, old(requests), requests, FileNeed(old(shm), old(view), name, path, key, tags), ok)
    {
      hide Linked, Shows, Names, Spent, FileNeed, TagNeed, Spare, TagTexts, KeyNeed, Refusals;
      var replaced := DropPath(z, name, path);
      FileNeedIs(hashes, old(shm), shm, old(view), view, z, name, path, key, tags);
      ok := InsertFile(z, name, path, key, stat, tags);
    }

    /** The part of the upsert after the old entry is gone. */
    method InsertFile(z: Addr, ghost name: Str, path: Str, key: Str, stat: Stat, tags: seq<Str>) returns (ok: bool)
      requires Valid() && z in shm.zoneName && shm.zoneName[z] == name && (name, path) !in view
      requires path !in Names(shm.fileHome, shm.filePath, z).Values
      modifies this
      ensures Valid() && view == if ok then old(view)[(name, path) := Meta(key, tags, stat)] else old(view)
      ensures allocFailures == old(allocFailures) + if ok then 0 else 1
      ensures shm.zoneName == old(shm).zoneName && shm.zoneState == old(shm).zoneState
      ensures Spent(slab, old(requests), requests, 1 + KeyNeed(old(shm), z, key) + TagNeed(TagTexts(old(shm), z), tags), ok)
    {
      hide Linked, Shows, TagsOf, Names, Spent, TagNeed, TagTexts, KeyNeed, NewFile, Refusals, HasFile;
      ghost var need := 1 + KeyNeed(shm, z, key) + TagNeed(TagTexts(shm, z), tags);
      ghost var file;
      ok, file := LinkedFile(z, path, key, stat, tags);
      SpentRefusals(slab, old(requests), requests, need, ok);
      if ok {
        HasFileShows(hashes, shm, view, file, z, path, key, tags, stat);
        view := view[(name, path) := Meta(key, tags, stat)];
      }
    }

    /** A new file with its key and tags, or no change but for what failures leave. */
    method LinkedFile(z: Addr, path: Str, key: Str, stat: Stat, tags: seq<Str>) returns (ok: bool, ghost a: Addr)
      requires Valid() && z in shm.zoneName && path !in Names(shm.fileHome, shm.filePath, z).Values
      modifies this`shm, this`allocFailures, this`requests
      ensures Linked(hashes, shm) && Empty(shm.keyFiles) == {} && KeyComplete(shm.fileKey, shm.keyEntry, {})
      ensures |Empty(shm.tagMembers)| <= allocFailures && allocFailures == old(allocFailures) + if ok then 0 else 1
      ensures !ok ==> Shows(shm, view, {})
      ensures ok ==> Shows(shm, view, {a}) && HasFile(shm, a, z, path, key, tags, stat)
      ensures shm.zoneName == old(shm).zoneName && shm.zoneState == old(shm).zoneState
      ensures Spent(slab, old(requests), requests, 1 + KeyNeed(old(shm), z, key) + TagNeed(TagTexts(old(shm), z), tags), ok)
    {
      hide Linked, Shows, TagsOf, Names, Spent, TagNeed, TagTexts, KeyNeed, NewFile, Refusals, SameFiles, HasFile,
          KeyComplete, Empty;
      ghost var linkNeed := KeyNeed(shm, z, key) + TagNeed(TagTexts(shm, z), tags);
      var file := AddFileLocked(z, path, key, stat);
      ghost var r := requests;
      if file.None? {
        SpentBoth(slab, old(requests), r, r, 1, linkNeed, false, false);
        return false, 0;
      }
      a := file.value;
      NewFileIs(old(shm), shm, a, z, path, key, stat);
      ghost var s := shm;
      ok := LinkNewFile(z, file.value, tags);
      SpentBoth(slab, old(requests), r, requests, 1, linkNeed, true, ok);
      if ok {
        NewFileHas(s, shm, a, z, path, key, tags, stat);
      }
    }

    /** Removes the file of a path, if there is one. */
    method DropPath(z: Addr, ghost name: Str, path: Str) returns (found: bool)
      requires Valid() && z in shm.zoneName && shm.zoneName[z] == name
      modifies this`shm, this`view
      ensures Valid() && view == old(view) - {(name, path)}
      ensures shm.zoneName == old(shm).zoneName && shm.zoneState == old(shm).zoneState
      ensures path !in Names(shm.fileHome, shm.filePath, z).Values
      ensures found <==> (name, path) in old(view)
      ensures Spare(shm) == old(Spare(shm))
    {
      hide Linked, Shows, Names;
      var file := LookupFile(z, path);
      if file.None? {
        AbsentPath(hashes, shm, view, z, path);
        return false;
      }
      OpenShows(hashes, shm, view, file.value);
      RemovedName(hashes, shm, file.value, z, path);
      view := view - {(name, path)};
      RemoveFileLocked(z, file.value);
      SubsetCardinality(Empty(shm.tagMembers), old(Empty(shm.tagMembers)));
      return true;
    }

    /** Allocates and enters a file that is on no key or tag queue yet. */
    method AddFileLocked(z: Addr, path: Str, key: Str, stat: Stat) returns (file: Option<Addr>)
      requires Linked(hashes, shm) && Shows(shm, view, {}) && KeyComplete(shm.fileKey, shm.keyEntry, {})
      requires z in shm.zoneName && path !in Names(shm.fileHome, shm.filePath, z).Values
      modifies this`shm, this`allocFailures, this`requests
      ensures file.None? ==> shm == old(shm) && allocFailures == old(allocFailures) + 1
      ensures file.Some? ==> Linked(hashes, shm) && Shows(shm, view, {file.value}) && allocFailures == old(allocFailures)
      ensures file.Some? ==> KeyComplete(shm.fileKey, shm.keyEntry, {file.value})
                             && NewFile(old(shm), shm, file.value, z, path, key, stat)
      ensures Spent(slab, old(requests), requests, 1, file.Some?)
    {
      hide Linked, Shows, Names, InOrder, Insert, Indexes, KeyComplete, NewFile, Blocks, Spent;
      SpentOne(slab, requests);
      file := AllocLocked();
      if file.None? {
        return;
      }
      var a := file.value;
      FreshBlock(hashes, shm, a);
      TreesOf(hashes, shm, z);
      ZonesLive(hashes, shm);
      UnkeyedBlock(hashes, shm, a);
      var tree := Rebalanced(InOrder(Insert(shm.pathIndex[z], Slot(hashes.long(path), path, a))));
      AddFileLinked(hashes, shm, a, z, path, key, stat, tree);
      AddFileShows(hashes, shm, view, a, z, path, key, stat, tree);
      NewFileOpen(shm, a, z, path, key, stat, tree);
      shm := AddFile(shm, a, z, path, key, stat, tree);
    }

    /** Links a new file to its key and tags, or takes it out again. */
    method LinkNewFile(z: Addr, file: Addr, tags: seq<Str>) returns (ok: bool)
      requires Linked(hashes, shm) && Shows(shm, view, {file}) && Empty(shm.keyFiles) == {}
      requires KeyComplete(shm.fileKey, shm.keyEntry, {file}) && |Empty(shm.tagMembers)| <= allocFailures
      requires file in shm.fileHome && shm.fileHome[file] == z && file !in shm.keyEntry
      requires file in shm.fileMembers && shm.fileMembers[file] == []
      modifies this`shm, this`allocFailures, this`requests
      ensures Linked(hashes, shm) && Empty(shm.keyFiles) == {} && KeyComplete(shm.fileKey, shm.keyEntry, {})
      ensures |Empty(shm.tagMembers)| <= allocFailures
      ensures allocFailures == old(allocFailures) + if ok then 0 else 1
      ensures ok ==> Shows(shm, view, {file}) && SameFiles(old(shm), shm)
                     && file in shm.fileMembers && TagsOf(shm, shm.fileMembers[file]) == tags
      ensures !ok ==> Shows(shm, view, {})
      ensures shm.zoneName == old(shm).zoneName && shm.zoneState == old(shm).zoneState
      ensures file in old(shm).fileKey
      ensures Spent(slab, old(requests), requests,
                    KeyNeed(old(shm), z, old(shm).fileKey[file]) + TagNeed(TagTexts(old(shm), z), tags), ok)
    {
      hide Linked, Shows, TagsOf, Spent, TagNeed, KeyNeed, Names;
      ghost var tagNeed := TagNeed(TagTexts(shm, z), tags);
      ok := LinkExactKeyLocked(z, file);
      ghost var r, keyNeed := requests, KeyNeed(old(shm), z, old(shm).fileKey[file]);
      if !ok {
        SpentBoth(slab, old(requests), r, r, keyNeed, tagNeed, false, false);
        RemoveFileLocked(z, file);
        SubsetCardinality(Empty(shm.tagMembers), old(Empty(shm.tagMembers)));
        return;
      }
      ok := LinkTagsLocked(z, file, tags);
      SpentBoth(slab, old(requests), r, requests, keyNeed, tagNeed, true, ok);
      if ok {
        SubsetCardinality(Empty(shm.tagMembers), old(Empty(shm.tagMembers)));
        return;
      }
      ghost var left := Empty(shm.tagMembers);
      RemoveFileLocked(z, file);
      SubsetCardinality(Empty(shm.tagMembers), left);
    }

    method Touch(z: Addr, now: int)
      requires Valid() && z in shm.zoneName
      modifies this`shm
      ensures Valid() && z in old(shm).zoneState
      ensures shm == old(shm).(zoneState := old(shm).zoneState[z := old(shm).zoneState[z].(lastUpdatedAt := now)])
    {
      hide Linked, Shows;
      ZonesLive(hashes, shm);
      var state := shm.zoneState[z].(lastUpdatedAt := now);
      TouchShows(hashes, shm, view, z, state);
      shm := shm.(zoneState := shm.zoneState[z := state]);
    }

    method DeleteLocked(name: Str, path: Str, now: int)
      requires Valid()
      modifies this`shm, this`view
      ensures Valid() && view == old(view) - {(name, path)}
      ensures shm.zoneName == old(shm).zoneName
      ensures ZonesTouched(old(shm), shm, if (name, path) in old(view) then {name} else {}, name, now)
    {
      hide Linked, Shows, ZonesTouched, Names;
      SameZones(hashes, shm, shm, name, now);
      var zone := LookupZone(name);
      if zone.None? {
        AbsentZone(hashes, shm, view, name, path);
        return;
      }
      var found := DropPath(zone.value, name, path);
      KeptZones(old(shm), old(shm), shm, name, now);
      if found {
        TouchedZone(hashes, old(shm), shm, zone.value, name, now);
        Touch(zone.value, now);
      }
    }

    /** It succeeds if and only if the slab grants every block that is lacking. A
        success is a point update of the map and of the zone's update time. A failure
        leaves the map without the path, even when it had an entry. */
    method UpsertFileMeta(name: Str, path: Str, key: Str, stat: Stat, tags: seq<Str>, now: int) returns (ok: bool)
      requires Valid()
      modifies this
      ensures Valid()
      ensures ok ==> view == old(view)[(name, path) := Meta(key, tags, stat)]
      ensures !ok ==> view == old(view) - {(name, path)}
      ensures allocFailures == old(allocFailures) + if ok then 0 else 1
      ensures forall n :: StateOf(shm, n) == if ok && n == name then StateOf(old(shm), n).(lastUpdatedAt := now)
                                             else StateOf(old(shm), n)
      ensures Spent(slab, old(requests), requests, Needed(old(shm), old(view), name, path, key, tags), ok)
    {
      hide Linked, Shows, ZonesTouched, StateOf, Spent, Needed;
      ok := UpsertLocked(name, path, key, stat, tags, now);
      forall n {
        TouchedStates(hashes, old(shm), shm, if ok then {name} else {}, name, now, n);
      }
    }

    /** Deletion removes one point, and the zone's update time changes if it was there. */
    method DeleteFile(name: Str, path: Str, now: int)
      requires Valid()
      modifies this`shm, this`view
      ensures Valid() && view == old(view) - {(name, path)}
      ensures forall n :: StateOf(shm, n) == if n == name && (name, path) in old(view)
                                             then StateOf(old(shm), n).(lastUpdatedAt := now)
                                             else StateOf(old(shm), n)
    {
      hide Linked, Shows, ZonesTouched, StateOf;
      DeleteLocked(name, path, now);
      ghost var touched := if (name, path) in old(view) then {name} else {};
      if (name, path) in old(view) {
        ShownZone(hashes, old(shm), old(view), name, path);
      }
      forall n {
        TouchedStates(hashes, old(shm), shm, touched, name, now, n);
      }
    }

    /** Indexes a cache file as parsed from disk. A file that cannot be parsed loses
        its entry, and that counts as a success; without a pool nothing happens. */
    method ProcessFile(name: Str, path: Str, parse: Parse, now: int) returns (ok: bool)
      requires Valid()
      modifies this
      ensures Valid()
      ensures view == if parse.NoPool? then old(view)
                      else if parse.Parsed? && ok then old(view)[(name, path) := parse.meta]
                      else old(view) - {(name, path)}
      ensures parse.NoPool? ==> !ok && allocFailures == old(allocFailures) && shm == old(shm)
      ensures parse.Unparsed? ==> ok
      ensures !parse.NoPool? ==> allocFailures == old(allocFailures) + if ok then 0 else 1
      ensures !parse.Parsed? ==> requests == old(requests)
      ensures parse.Parsed? ==>
                var need := Needed(old(shm), old(view), name, path, parse.meta.key, parse.meta.tags);
                Spent(slab, old(requests), requests, need, ok)
      ensures forall n :: n != name ==> StateOf(shm, n) == StateOf(old(shm), n)
      ensures StateOf(shm, name).bootstrapComplete == StateOf(old(shm), name).bootstrapComplete
      ensures StateOf(shm, name).lastBootstrapAt == StateOf(old(shm), name).lastBootstrapAt
    {
      hide Linked, Shows, StateOf, Spent, Needed;
      match parse {
        case NoPool =>
          ok := false;
        case Unparsed =>
          DeleteFile(name, path, now);
          ok := true;
        case Parsed(meta) =>
          ok := UpsertFileMeta(name, path, meta.key, meta.stat, meta.tags, now);
      }
    }

    // ----- zone states -----

    method GetZoneState(name: Str, now: int) returns (state: ZoneState)
      requires Valid()
      ensures state == Normalized(StateOf(shm, name), now)
    {
      hide Linked, Shows, StateOf;
      state := COLD;
      var zone := LookupZone(name);
      if zone.Some? {
        StateAt(hashes, shm, zone.value);
        state := shm.zoneState[zone.value];
      } else {
        NoZone(shm, name);
      }
      state := Normalized(state, now);
    }

    method SetZoneState(name: Str, state: ZoneState, now: int) returns (ok: bool)
      requires Valid()
      modifies this`shm, this`allocFailures, this`requests
      ensures Valid()
      ensures allocFailures == old(allocFailures) + if ok then 0 else 1
      ensures forall n :: StateOf(shm, n) == if ok && n == name then Normalized(state, now) else StateOf(old(shm), n)
      ensures Spent(slab, old(requests), requests, if name in old(shm).zoneName.Values then 0 else 1, ok)
    {
      hide Linked, Shows, StateOf, Normalized, Spent;
      ghost var need := if name in shm.zoneName.Values then 0 else 1;
      var zone := GetZoneLocked(name);
      SpentRefusals(slab, old(requests), requests, need, zone.Some?);
      if zone.None? {
        return false;
      }
      var z := zone.value;
      var wanted := Normalized(state, now);
      ZonesLive(hashes, shm);
      TouchShows(hashes, shm, view, z, wanted);
      shm := shm.(zoneState := shm.zoneState[z := wanted]);
      forall n {
        SetState(hashes, old(shm), shm, z, wanted, n);
      }
      return true;
    }

    // ----- queries -----

    /** push_path_unique, with a pool that has memory for `room` elements. */
    method PushPathUnique(paths: seq<Str>, path: Str, room: nat) returns (ok: bool, pushed: seq<Str>)
      ensures ok <==> path in paths || |paths| < room
      ensures pushed == if !ok || path in paths then paths else paths + [path]
    {
      for i := 0 to |paths|
        invariant path !in paths[..i]
      {
        if paths[i] == path {
          return true, paths;
        }
      }
      assert paths[..|paths|] == paths;
      ok := |paths| < room;
      pushed := if ok then paths + [path] else paths;
    }

    /** The paths that carry at least one of the tags, byte for byte, once each. The
        pool grants `pool` requests, one for the list and one for each path on it. */
    method CollectPathsByTags(name: Str, tags: seq<Str>, pool: nat) returns (ok: bool, paths: seq<Str>)
      requires Valid()
      ensures ok <==> |TagHits(view, name, tags)| < pool
      ensures ok ==> NoDup(paths) && Elements(paths) == TagHits(view, name, tags)
    {
      hide Linked, Shows, Carries, Names, TagHits, Elements;
      paths := [];
      forall p { TagHit(view, name, tags, p); }
      if pool == 0 {
        return false, paths;
      }
      var zone := LookupZone(name);
      if zone.None? {
        forall p, t ensures !Carries(view, name, p, t) {
          AbsentCarrier(hashes, shm, view, name, p, t);
        }
        AllListed(paths, TagHits(view, name, tags));
        return true, [];
      }
      for i := 0 to |tags|
        invariant |paths| < pool
        invariant NoDup(paths) && forall p :: p in paths <==> CarriesAny(view, name, p, tags[..i])
      {
        ghost var extra;
        ok, paths, extra := CollectTag(zone.value, tags[i], paths, pool - 1);
        if !ok {
          assert tags[i] in tags;
          TooManyHits(paths, extra, TagHits(view, name, tags));
          return;
        }
        assert tags[..i + 1] == tags[..i] + [tags[i]];
      }
      assert tags[..|tags|] == tags;
      AllListed(paths, TagHits(view, name, tags));
      ok := true;
    }

    /** The files of one tag. When it fails, `extra` is a path that had no room. */
    method CollectTag(z: Addr, tag: Str, paths: seq<Str>, room: nat) returns (ok: bool, all: seq<Str>, ghost extra: Str)
      requires Valid() && z in shm.zoneName && NoDup(paths) && |paths| <= room
      ensures NoDup(all) && |all| <= room
      ensures ok ==> forall p :: p in all <==> p in paths || Carries(view, shm.zoneName[z], p, tag)
      ensures !ok ==> |all| == room && extra !in all && Carries(view, shm.zoneName[z], extra, tag)
      ensures !ok ==> forall p :: p in all ==> p in paths || Carries(view, shm.zoneName[z], p, tag)
    {
      hide Linked, Shows, Carries, Names, OnTagQueue;
      all, extra := paths, [];
      var entry := LookupTagEntry(z, tag);
      if entry.None? {
        forall p { NoTagEntry(hashes, shm, view, z, tag, p); }
        return true, paths, extra;
      }
      TagsLive(hashes, shm);
      forall p { TagQueueCarries(hashes, shm, view, z, entry.value, p); }
      ok, all, extra := CollectQueue(entry.value, paths, room);
    }

    /** The files of one member queue. */
    method CollectQueue(entry: Addr, paths: seq<Str>, room: nat) returns (ok: bool, all: seq<Str>, ghost extra: Str)
      requires Valid() && entry in shm.tagMembers && NoDup(paths) && |paths| <= room
      ensures NoDup(all) && |all| <= room
      ensures ok ==> forall p :: p in all <==> p in paths || OnTagQueue(shm, shm.tagMembers[entry], p)
      ensures !ok ==> |all| == room && extra !in all && OnTagQueue(shm, shm.tagMembers[entry], extra)
      ensures !ok ==> forall p :: p in all ==> p in paths || OnTagQueue(shm, shm.tagMembers[entry], p)
    {
      hide Linked, Shows, Carries, Names, OnTagQueue;
      all, extra := paths, [];
      var queue := shm.tagMembers[entry];
      NothingQueued(shm, []);
      for q := 0 to |queue|
        invariant |all| <= room
        invariant NoDup(all) && forall p :: p in all <==> p in paths || OnTagQueue(shm, queue[..q], p)
      {
        MemberCarries(hashes, shm, view, entry, queue[q]);
        forall p { OnTagQueueStep(shm, queue[..q], queue[q], p); }
        ok, all := PushPathUnique(all, shm.filePath[shm.memberFile[queue[q]]], room);
        if !ok {
          TagQueuePart(shm, queue, q);
          extra := shm.filePath[shm.memberFile[queue[q]]];
          return;
        }
        assert queue[..q + 1] == queue[..q] + [queue[q]];
      }
      assert queue[..|queue|] == queue;
      ok := true;
    }

    /** The paths whose key is the key text. Files without a key are not found. */
    method CollectPathsByExactKey(name: Str, key: Str, pool: nat) returns (ok: bool, paths: seq<Str>)
      requires Valid()
      ensures ok <==> |KeyHits(view, name, key)| < pool
      ensures ok ==> NoDup(paths) && Elements(paths) == KeyHits(view, name, key)
    {
      hide Linked, Shows, Keyed, Names, OnFileQueue, KeyHits, Elements, Refusals;
      paths := [];
      forall p { KeyHit(view, name, key, p); }
      if pool == 0 {
        return false, paths;
      }
      var zone := LookupZone(name);
      if zone.None? {
        forall p ensures !Keyed(view, name, p, key) { AbsentKeyed(hashes, shm, view, name, p, key); }
        AllListed(paths, KeyHits(view, name, key));
        return true, [];
      }
      var entry := LookupKeyEntry(zone.value, key);
      if entry.None? {
        forall p { NoKeyEntry(hashes, shm, view, zone.value, key, p); }
        AllListed(paths, KeyHits(view, name, key));
        return true, [];
      }
      KeysLive(hashes, shm);
      forall p { KeyQueueKeyed(hashes, shm, view, zone.value, entry.value, p); }
      ghost var extra;
      ok, paths, extra := CollectFiles(entry.value, pool - 1);
      if ok {
        AllListed(paths, KeyHits(view, name, key));
      } else {
        TooManyHits(paths, extra, KeyHits(view, name, key));
      }
    }

    /** The files of one key entry. When it fails, `extra` is a path that had no room. */
    method CollectFiles(entry: Addr, room: nat) returns (ok: bool, all: seq<Str>, ghost extra: Str)
      requires Valid() && entry in shm.keyFiles
      ensures NoDup(all) && |all| <= room
      ensures ok ==> forall p :: p in all <==> OnFileQueue(shm, shm.keyFiles[entry], p)
      ensures !ok ==> |all| == room && extra !in all && OnFileQueue(shm, shm.keyFiles[entry], extra)
      ensures !ok ==> forall p :: p in all ==> OnFileQueue(shm, shm.keyFiles[entry], p)
    {
      hide Linked, Shows, Keyed, Names, OnFileQueue, Refusals;
      all, extra := [], [];
      var queue := shm.keyFiles[entry];
      NothingQueued(shm, []);
      for q := 0 to |queue|
        invariant |all| <= room
        invariant NoDup(all) && forall p :: p in all <==> OnFileQueue(shm, queue[..q], p)
      {
        FileKeyed(hashes, shm, view, entry, queue[q]);
        forall p { OnFileQueueStep(shm, queue[..q], queue[q], p); }
        ok, all := PushPathUnique(all, shm.filePath[queue[q]], room);
        if !ok {
          FileQueuePart(shm, queue, q);
          extra := shm.filePath[queue[q]];
          return;
        }
        assert queue[..q + 1] == queue[..q] + [queue[q]];
      }
      assert queue[..|queue|] == queue;
      ok := true;
    }

    /** The paths whose key starts with the prefix, case included. */
    method CollectPathsByKeyPrefix(name: Str, prefix: Str, pool: nat) returns (ok: bool, paths: seq<Str>)
      requires Valid()
      ensures ok <==> |PrefixHits(view, name, prefix)| < pool
      ensures ok ==> NoDup(paths) && Elements(paths) == PrefixHits(view, name, prefix)
    {
      hide Linked, Shows, KeyPrefixed, PrefixHits, Elements;
      paths := [];
      forall p { PrefixHit(view, name, prefix, p); }
      if pool == 0 {
        return false, paths;
      }
      var zone := LookupZone(name);
      if zone.None? {
        forall p ensures !KeyPrefixed(view, name, p, prefix) { AbsentPrefixed(hashes, shm, view, name, p, prefix); }
        AllListed(paths, PrefixHits(view, name, prefix));
        return true, [];
      }
      ghost var extra;
      ok, paths, extra := CollectPrefixed(zone.value, prefix, pool - 1);
      if ok {
        AllListed(paths, PrefixHits(view, name, prefix));
      } else {
        TooManyHits(paths, extra, PrefixHits(view, name, prefix));
      }
    }

    /** The files of one zone. When it fails, `extra` is a path that had no room. */
    method CollectPrefixed(z: Addr, prefix: Str, room: nat) returns (ok: bool, all: seq<Str>, ghost extra: Str)
      requires Valid() && z in shm.zoneName
      ensures NoDup(all) && |all| <= room
      ensures ok ==> forall p :: p in all <==> KeyPrefixed(view, shm.zoneName[z], p, prefix)
      ensures !ok ==> |all| == room && extra !in all && KeyPrefixed(view, shm.zoneName[z], extra, prefix)
      ensures !ok ==> forall p :: p in all ==> KeyPrefixed(view, shm.zoneName[z], p, prefix)
    {
      hide Linked, Shows, KeyPrefixed, OnZoneQueue, Refusals, Empty, KeyComplete;
      all, extra := [], [];
      ZonesLive(hashes, shm);
      var queue := shm.zoneFiles[z];
      NothingQueued(shm, prefix);
      forall p { ZoneQueuePrefixed(hashes, shm, view, z, prefix, p); }
      for q := 0 to |queue|
        invariant |all| <= room
        invariant NoDup(all) && forall p :: p in all <==> OnZoneQueue(shm, queue[..q], prefix, p)
      {
        ZoneFileShown(hashes, shm, view, z, queue[q]);
        forall p { OnZoneQueueStep(shm, queue[..q], queue[q], prefix, p); }
        var key := shm.fileKey[queue[q]];
        assert queue[..q + 1] == queue[..q] + [queue[q]];
        if |key| < |prefix| || key[..|prefix|] != prefix {
          continue;
        }
        ok, all := PushPathUnique(all, shm.filePath[queue[q]], room);
        if !ok {
          forall p { OnZoneQueuePart(shm, queue, q, prefix, p); }
          extra := shm.filePath[queue[q]];
          return;
        }
      }
      assert queue[..|queue|] == queue;
      ok := true;
    }
  }

  /** `file` is new in zone z, and nothing links to it yet. */
  ghost predicate NewFile(s: Heap, s': Heap, file: Addr, z: Addr, path: Str, key: Str, stat: Stat) {
    && s'.zoneName == s.zoneName && s'.zoneState == s.zoneState
    && s'.keyFiles == s.keyFiles && s'.keyHome == s.keyHome && s'.keyText == s.keyText
    && s'.tagMembers == s.tagMembers && s'.tagHome == s.tagHome && s'.tagText == s.tagText
    && file in s'.fileHome && s'.fileHome[file] == z && file !in s'.keyEntry
    && file in s'.fileMembers && s'.fileMembers[file] == []
    && file in s'.filePath && s'.filePath[file] == path && file in s'.fileKey && s'.fileKey[file] == key
    && file in s'.fileStat && s'.fileStat[file] == stat
  }

  lemma NewFileIs(s: Heap, s': Heap, a: Addr, z: Addr, path: Str, key: Str, stat: Stat)
    requires NewFile(s, s', a, z, path, key, stat)
    ensures TagTexts(s', z) == TagTexts(s, z) && KeyNeed(s', z, key) == KeyNeed(s, z, key)
    ensures s'.zoneName == s.zoneName && s'.zoneState == s.zoneState
    ensures s'.keyFiles == s.keyFiles && s'.tagMembers == s.tagMembers
    ensures a in s'.fileHome && s'.fileHome[a] == z && a !in s'.keyEntry && a in s'.fileMembers && s'.fileMembers[a] == []
    ensures a in s'.filePath && s'.filePath[a] == path && a in s'.fileKey && s'.fileKey[a] == key
    ensures a in s'.fileStat && s'.fileStat[a] == stat
  {
  }

  lemma TagFieldsKeepFiles(s: Heap, s': Heap)
    requires TagFieldsOnly(s, s')
    ensures SameFiles(s, s') && s'.keyEntry == s.keyEntry && s'.keyFiles == s.keyFiles && s'.fileMembers == s.fileMembers
    ensures s'.fileHome == s.fileHome
  {
  }

  lemma TaggedThrough(s: Heap, s1: Heap, s2: Heap, a: Addr, tag: Str)
    requires SameFiles(s, s1) && s1.keyEntry == s.keyEntry && s1.keyFiles == s.keyFiles && Tagged(s1, s2, a, tag)
    requires TagsOf(s1, At(s1.fileMembers, a, [])) == TagsOf(s, At(s.fileMembers, a, []))
    ensures Tagged(s, s2, a, tag) && SameFiles(s, s2)
    ensures s2.keyEntry == s.keyEntry && s2.keyFiles == s.keyFiles && a in s2.fileMembers
  {
    hide TagsOf;
  }

  lemma SpareKept(s: Heap, s': Heap, z: Addr, name: Str)
    requires s' == s || (z !in s.zoneName && s' == AddZone(s, z, name))
    ensures Spare(s') == Spare(s)
    ensures forall y :: y in s.zoneName ==> y in s'.zoneName && s'.zoneName[y] == s.zoneName[y]
  {
  }

  lemma SameTexts(s: Heap, s': Heap, z: Addr)
    requires s'.tagHome == s.tagHome && s'.tagText == s.tagText
    ensures TagTexts(s', z) == TagTexts(s, z)
  {
  }

  /** The file a of zone z with all that belongs to it. */
  ghost predicate HasFile(s: Heap, a: Addr, z: Addr, path: Str, key: Str, tags: seq<Str>, stat: Stat) {
    && a in s.fileHome && s.fileHome[a] == z && a in s.filePath && s.filePath[a] == path
    && a in s.fileKey && s.fileKey[a] == key && a in s.fileStat && s.fileStat[a] == stat
    && a in s.fileMembers && TagsOf(s, s.fileMembers[a]) == tags
  }

  lemma NewFileHas(s: Heap, s': Heap, a: Addr, z: Addr, path: Str, key: Str, tags: seq<Str>, stat: Stat)
    requires a in s.fileHome && s.fileHome[a] == z && a in s.filePath && s.filePath[a] == path
    requires a in s.fileKey && s.fileKey[a] == key && a in s.fileStat && s.fileStat[a] == stat
    requires SameFiles(s, s') && a in s'.fileMembers && TagsOf(s', s'.fileMembers[a]) == tags
    ensures HasFile(s', a, z, path, key, tags, stat)
  {
    hide TagsOf;
  }

  lemma HasFileShows(h: Hashes, s: Heap, view: map<Id, Meta>, a: Addr, z: Addr, path: Str, key: Str, tags: seq<Str>,
                     stat: Stat)
    requires Linked(h, s) && Shows(s, view, {a}) && HasFile(s, a, z, path, key, tags, stat)
    requires z in s.zoneName && (s.zoneName[z], path) !in view
    ensures Shows(s, view[(s.zoneName[z], path) := Meta(key, tags, stat)], {})
  {
    hide Linked, Shows, TagsOf;
    AddedFileShows(h, s, view, a, z, path, key, tags, stat);
  }

  lemma NewFileOpen(s: Heap, a: Addr, z: Addr, path: Str, key: Str, stat: Stat, tree: Tree)
    requires z in s.zoneFiles && a !in s.keyEntry && KeyComplete(s.fileKey, s.keyEntry, {})
    ensures var s' := AddFile(s, a, z, path, key, stat, tree);
      KeyComplete(s'.fileKey, s'.keyEntry, {a}) && NewFile(s, s', a, z, path, key, stat)
  {
  }

  lemma KeyedFileClosed(s: Heap, a: Addr, k: Addr)
    requires k in s.keyFiles && Empty(s.keyFiles) <= {k} && KeyComplete(s.fileKey, s.keyEntry, {a})
    ensures var s' := LinkKey(s, a, k);
      Empty(s'.keyFiles) == {} && KeyComplete(s'.fileKey, s'.keyEntry, {})
  {
    forall o | o in LinkKey(s, a, k).keyFiles ensures LinkKey(s, a, k).keyFiles[o] != [] {
      if o != k { assert o !in Empty(s.keyFiles); }
    }
  }

  lemma UnkeyedFileClosed(s: Heap, a: Addr)
    requires a in s.fileKey && s.fileKey[a] == [] && KeyComplete(s.fileKey, s.keyEntry, {a})
    ensures KeyComplete(s.fileKey, s.keyEntry, {})
  {
  }
}
