/** What the relinking steps do to the map the heap stands for, and where the
    entries of that map sit in the trees and queues. */
module HeapView {
  import opened Bytes
  import opened OrderedTree
  import opened NameIndex
  import opened Queues
  import opened SharedHeap

  /** The fields of a file's entry, and its place in the map, are as they were. */
  ghost predicate SameEntry(s: Heap, s': Heap, a: Addr) {
    && a in s.fileHome && a in s'.fileHome
    && IdOf(s', a) == IdOf(s, a) && MetaOf(s', a) == MetaOf(s, a)
  }

  lemma ShowsSame(s: Heap, s': Heap, view: map<Id, Meta>, open: set<Addr>, open': set<Addr>)
    requires Shows(s, view, open)
    requires forall a :: a in s.fileHome && a !in open ==> SameEntry(s, s', a) && a !in open'
    requires forall a :: a in s'.fileHome && a !in open' ==> a in s.fileHome && a !in open
    ensures Shows(s', view, open')
  {
    hide MetaOf, IdOf;
    forall a | a in s'.fileHome && a !in open'
      ensures IdOf(s', a) in view && view[IdOf(s', a)] == MetaOf(s', a)
    {
      assert SameEntry(s, s', a);
    }
    forall id | id in view ensures exists a :: Backs(s', a, id, open') {
      var a :| Backs(s, a, id, open);
      assert SameEntry(s, s', a);
      assert Backs(s', a, id, open');
    }
  }

  lemma TagsKept(s: Heap, s': Heap, ms: seq<Addr>)
    requires forall m :: m in ms ==> TagOf(s', m) == TagOf(s, m)
    ensures TagsOf(s', ms) == TagsOf(s, ms)
  {
  }

  lemma NoTags(s: Heap)
    ensures TagsOf(s, []) == []
  {
  }

  lemma FilesLive(h: Hashes, s: Heap, a: Addr)
    requires Linked(h, s) && a in s.fileHome
    ensures a in s.filePath && a in s.fileKey && a in s.fileStat && a in s.fileMembers
    ensures s.fileHome[a] in s.zoneName && s.fileHome[a] in s.zoneFiles && a in s.zoneFiles[s.fileHome[a]]
  {
    hide Forest, Queued, ZoneLinks, KeyMatch, MemberMatch, Disjoint;
    QueuedBack(s.zoneFiles, s.fileHome, a);
  }

  lemma MemberLive(h: Hashes, s: Heap, m: Addr)
    requires Linked(h, s) && m in s.memberFile
    ensures m in s.memberTag && s.memberFile[m] in s.fileHome && s.memberFile[m] in s.fileMembers
    ensures s.memberTag[m] in s.tagHome && s.memberTag[m] in s.tagText && s.memberTag[m] in s.tagMembers
    ensures s.tagHome[s.memberTag[m]] == s.fileHome[s.memberFile[m]]
    ensures m in s.fileMembers[s.memberFile[m]] && m in s.tagMembers[s.memberTag[m]]
  {
    hide Forest, Queued, ZoneLinks, KeyMatch, Disjoint;
    QueuedBack(s.fileMembers, s.memberFile, m);
    QueuedBack(s.tagMembers, s.memberTag, m);
  }

  lemma MembersLive(h: Hashes, s: Heap, a: Addr)
    requires Linked(h, s) && a in s.fileHome
    ensures a in s.fileMembers && s.fileHome[a] in s.zoneName
    ensures forall m :: m in s.fileMembers[a] ==>
              m in s.memberTag && m in s.memberFile && s.memberFile[m] == a && s.memberTag[m] in s.tagText
  {
    hide Linked;
    FilesLive(h, s, a);
    QueuedOwner(h, s, a);
    forall m | m in s.fileMembers[a] ensures m in s.memberTag && s.memberTag[m] in s.tagText {
      MemberLive(h, s, m);
    }
  }

  lemma QueuedOwner(h: Hashes, s: Heap, a: Addr)
    requires Linked(h, s) && a in s.fileMembers
    ensures forall m :: m in s.fileMembers[a] ==> m in s.memberFile && s.memberFile[m] == a
  {
    hide Forest, Queued, ZoneLinks, KeyMatch, MemberMatch, Disjoint;
    QueuedItems(s.fileMembers, s.memberFile, a);
  }

  lemma ZonesLive(h: Hashes, s: Heap)
    requires Linked(h, s)
    ensures forall z :: z in s.zoneQueue <==> z in s.zoneName
    ensures s.zoneName.Keys == s.zoneState.Keys == s.zoneFiles.Keys
    ensures s.zoneName.Keys == s.pathIndex.Keys == s.keyIndex.Keys == s.tagIndex.Keys
  {
    hide Forest, Queued, KeyMatch, MemberMatch, Disjoint;
  }

  lemma FreshBlock(h: Hashes, s: Heap, a: Addr)
    requires Linked(h, s) && a !in Blocks(s.slab)
    ensures a !in s.zoneName && a !in s.fileHome && a !in s.keyHome && a !in s.tagHome && a !in s.memberFile
    ensures a !in s.filePath && a !in s.keyText && a !in s.keyFiles && a !in s.tagText && a !in s.tagMembers
  {
    hide Forest, Queued, KeyMatch, MemberMatch, Disjoint, ZoneLinks;
  }

  lemma KeysLive(h: Hashes, s: Heap)
    requires Linked(h, s)
    ensures s.keyHome.Keys == s.keyText.Keys == s.keyFiles.Keys
    ensures forall k :: k in s.keyHome ==> s.keyHome[k] in s.zoneName
  {
    hide Queued, KeyMatch, MemberMatch, Disjoint, ZoneLinks, Indexes;
  }

  lemma TagsLive(h: Hashes, s: Heap)
    requires Linked(h, s)
    ensures s.tagHome.Keys == s.tagText.Keys == s.tagMembers.Keys
    ensures forall t :: t in s.tagHome ==> s.tagHome[t] in s.zoneName
  {
    hide Queued, KeyMatch, MemberMatch, Disjoint, ZoneLinks, Indexes;
  }

  lemma TreesOf(h: Hashes, s: Heap, z: Addr)
    requires Linked(h, s) && z in s.zoneName
    ensures z in s.pathIndex && Indexes(s.pathIndex[z], Names(s.fileHome, s.filePath, z), h.long, h.short)
    ensures z in s.keyIndex && Indexes(s.keyIndex[z], Names(s.keyHome, s.keyText, z), h.short, h.short)
    ensures z in s.tagIndex && Indexes(s.tagIndex[z], Names(s.tagHome, s.tagText, z), h.short, h.short)
  {
    hide Queued, KeyMatch, MemberMatch, Disjoint, ZoneLinks, Indexes;
  }

  lemma AddZoneShows(h: Hashes, s: Heap, view: map<Id, Meta>, z: Addr, name: Str)
    requires Linked(h, s) && Shows(s, view, {}) && z !in s.zoneName
    ensures Shows(AddZone(s, z, name), view, {})
  {
    hide Linked, Shows;
    var s' := AddZone(s, z, name);
    forall a | a in s.fileHome ensures SameEntry(s, s', a) {
      MembersLive(h, s, a);
      TagsKept(s, s', At(s.fileMembers, a, []));
    }
    ShowsSame(s, s', view, {}, {});
  }

  lemma AddFileShows(h: Hashes, s: Heap, view: map<Id, Meta>, a: Addr, z: Addr, path: Str, key: Str, stat: Stat, tree: Tree)
    requires Linked(h, s) && z in s.zoneFiles
    requires Shows(s, view, {}) && a !in s.fileHome
    ensures Shows(AddFile(s, a, z, path, key, stat, tree), view, {a})
  {
    hide Linked, Shows;
    var s' := AddFile(s, a, z, path, key, stat, tree);
    forall b | b in s.fileHome ensures SameEntry(s, s', b) {
      TagsKept(s, s', At(s.fileMembers, b, []));
    }
    ShowsSame(s, s', view, {}, {a});
  }

  /** Steps that touch no field of a file's entry. */
  lemma OtherFieldsShow(h: Hashes, s: Heap, s': Heap, view: map<Id, Meta>, open: set<Addr>)
    requires Linked(h, s) && Shows(s, view, open)
    requires s'.zoneName == s.zoneName && s'.fileHome == s.fileHome && s'.filePath == s.filePath
    requires s'.fileKey == s.fileKey && s'.fileStat == s.fileStat && s'.fileMembers == s.fileMembers
    requires forall m :: m in s.memberFile && s.memberFile[m] !in open ==> TagOf(s', m) == TagOf(s, m)
    ensures Shows(s', view, open)
  {
    hide Linked, Shows;
    forall a | a in s.fileHome && a !in open ensures SameEntry(s, s', a) {
      MembersLive(h, s, a);
      TagsKept(s, s', At(s.fileMembers, a, []));
    }
    ShowsSame(s, s', view, open, open);
  }

  lemma AddMemberShows(h: Hashes, s: Heap, view: map<Id, Meta>, m: Addr, t: Addr, a: Addr)
    requires Linked(h, s) && t in s.tagMembers && a in s.fileMembers
    requires Shows(s, view, {a}) && m !in s.memberFile
    ensures Shows(AddMember(s, m, t, a), view, {a})
  {
    hide Linked, Shows;
    var s' := AddMember(s, m, t, a);
    forall b | b in s.fileHome && b !in {a} ensures SameEntry(s, s', b) {
      MembersLive(h, s, b);
      TagsKept(s, s', At(s.fileMembers, b, []));
    }
    ShowsSame(s, s', view, {a}, {a});
  }

  lemma RemoveMemberShows(h: Hashes, s: Heap, view: map<Id, Meta>, m: Addr, t: Addr, a: Addr)
    requires Linked(h, s) && t in s.tagMembers && a in s.fileMembers
    requires Shows(s, view, {a}) && m in s.memberFile && s.memberFile[m] == a
    ensures Shows(RemoveMember(s, m, t, a), view, {a})
  {
    hide Linked, Shows;
    var s' := RemoveMember(s, m, t, a);
    forall b | b in s.fileHome && b !in {a} ensures SameEntry(s, s', b) {
      MembersLive(h, s, b);
      TagsKept(s, s', At(s.fileMembers, b, []));
    }
    ShowsSame(s, s', view, {a}, {a});
  }

  lemma DropFileShows(h: Hashes, s: Heap, view: map<Id, Meta>, a: Addr, tree: Tree)
    requires Linked(h, s) && a in s.fileHome && s.fileHome[a] in s.zoneFiles
    requires Shows(s, view, {a})
    ensures Shows(DropFile(s, a, tree), view, {})
  {
    hide Linked, Shows;
    var s' := DropFile(s, a, tree);
    forall b | b in s.fileHome && b !in {a} ensures SameEntry(s, s', b) {
      TagsKept(s, s', At(s.fileMembers, b, []));
    }
    ShowsSame(s, s', view, {a}, {});
  }

  /** A file's place is its own: zone names differ, and so do paths in a zone. */
  lemma IdUnique(h: Hashes, s: Heap, a: Addr, b: Addr)
    requires Linked(h, s) && a in s.fileHome && b in s.fileHome && IdOf(s, a) == IdOf(s, b)
    ensures a == b
  {
    hide Queued, KeyMatch, MemberMatch, Disjoint, Forest;
    FilesLive(h, s, a);
    FilesLive(h, s, b);
    ZoneUnique(h, s, s.fileHome[a], s.fileHome[b]);
    ForestUnique(s.pathIndex, s.fileHome, s.filePath, h.long, h.short, a, b);
  }

  /** Taking a file out of the map, and putting it in. */
  lemma OpenShows(h: Hashes, s: Heap, view: map<Id, Meta>, a: Addr)
    requires Linked(h, s) && Shows(s, view, {}) && a in s.fileHome
    ensures IdOf(s, a) in view && Shows(s, view - {IdOf(s, a)}, {a})
  {
    hide Linked, MetaOf, IdOf;
    forall b | b in s.fileHome && b != a ensures IdOf(s, b) != IdOf(s, a) {
      if IdOf(s, b) == IdOf(s, a) { IdUnique(h, s, a, b); }
    }
    forall id | id in view && id != IdOf(s, a) ensures exists b :: Backs(s, b, id, {a}) {
      var b :| Backs(s, b, id, {});
      assert Backs(s, b, id, {a});
    }
  }

  lemma CloseShows(h: Hashes, s: Heap, view: map<Id, Meta>, a: Addr)
    requires Linked(h, s) && Shows(s, view, {a}) && a in s.fileHome
    requires IdOf(s, a) !in view
    ensures Shows(s, view[IdOf(s, a) := MetaOf(s, a)], {})
  {
    hide Linked, MetaOf, IdOf;
    assert forall b :: b in s.fileHome && b != a ==> IdOf(s, b) != IdOf(s, a);
    assert Backs(s, a, IdOf(s, a), {});
    forall id | id in view ensures exists b :: Backs(s, b, id, {}) {
      var b :| Backs(s, b, id, {a});
      assert Backs(s, b, id, {});
    }
  }

  lemma MemberQueue(h: Hashes, s: Heap, a: Addr)
    requires Linked(h, s) && a in s.fileMembers
    ensures NoDup(s.fileMembers[a])
  {
    hide Forest, Queued, KeyMatch, MemberMatch, Disjoint, ZoneLinks;
    QueuedItems(s.fileMembers, s.memberFile, a);
  }

  /** Dropping an idle tag entry renames no member. */
  lemma KeptTags(h: Hashes, s: Heap, s': Heap)
    requires Linked(h, s) && s'.memberTag == s.memberTag
    requires forall u :: u in s'.tagText ==> u in s.tagText && s'.tagText[u] == s.tagText[u]
    requires forall u :: u in s.tagMembers && s.tagMembers[u] != [] ==> u in s'.tagText
    ensures forall m :: m in s.memberFile ==> TagOf(s', m) == TagOf(s, m)
  {
    hide Linked;
    forall m | m in s.memberFile ensures TagOf(s', m) == TagOf(s, m) {
      MemberLive(h, s, m);
    }
  }

  /** Adding a tag entry renames no member. */
  lemma AddedTagKeepsTags(h: Hashes, s: Heap, s': Heap)
    requires Linked(h, s) && s'.memberTag == s.memberTag
    requires forall t :: t in s.tagText ==> t in s'.tagText && s'.tagText[t] == s.tagText[t]
    ensures forall m :: m in s.memberFile ==> TagOf(s', m) == TagOf(s, m)
  {
    hide Linked;
    forall m | m in s.memberFile ensures TagOf(s', m) == TagOf(s, m) {
      MemberLive(h, s, m);
    }
  }

  lemma TagEntryAdded(h: Hashes, s: Heap, s': Heap, view: map<Id, Meta>, a: Addr)
    requires Linked(h, s) && Shows(s, view, {a}) && a in s.fileHome && a in s.fileMembers
    requires TagFieldsOnly(s, s')
    requires forall t :: t in s.tagText ==> t in s'.tagText && s'.tagText[t] == s.tagText[t]
    ensures Shows(s', view, {a}) && TagsOf(s', s'.fileMembers[a]) == TagsOf(s, s.fileMembers[a])
  {
    hide Linked, Shows, TagsOf, TagOf;
    AddedTagKeepsTags(h, s, s');
    OtherFieldsShow(h, s, s', view, {a});
    MembersLive(h, s, a);
    TagsKept(s, s', s.fileMembers[a]);
  }

  lemma AddMemberTags(h: Hashes, s: Heap, m: Addr, t: Addr, a: Addr)
    requires Linked(h, s) && m !in s.memberFile && t in s.tagText && t in s.tagMembers
    requires a in s.fileHome && a in s.fileMembers
    ensures var s' := AddMember(s, m, t, a);
      TagsOf(s', s'.fileMembers[a]) == TagsOf(s, s.fileMembers[a]) + [s.tagText[t]]
  {
    hide Linked;
    var s' := AddMember(s, m, t, a);
    MembersLive(h, s, a);
    TagsKept(s, s', s.fileMembers[a]);
    assert TagOf(s', m) == s.tagText[t];
  }

  lemma UnkeyedBlock(h: Hashes, s: Heap, a: Addr)
    requires Linked(h, s) && a !in s.fileHome
    ensures a !in s.keyEntry
  {
    hide Forest, Queued, MemberMatch, Disjoint, ZoneLinks;
  }

  /** A file that has got all its tags enters the map. */
  lemma AddedFileShows(h: Hashes, s: Heap, view: map<Id, Meta>, a: Addr, z: Addr,
                       path: Str, key: Str, tags: seq<Str>, stat: Stat)
    requires Linked(h, s) && Shows(s, view, {a}) && a in s.fileHome && s.fileHome[a] == z
    requires a in s.filePath && s.filePath[a] == path && a in s.fileKey && s.fileKey[a] == key
    requires a in s.fileStat && s.fileStat[a] == stat && a in s.fileMembers && TagsOf(s, s.fileMembers[a]) == tags
    requires z in s.zoneName && (s.zoneName[z], path) !in view
    ensures Shows(s, view[(s.zoneName[z], path) := Meta(key, tags, stat)], {})
  {
    hide Linked, Shows, TagsOf;
    assert IdOf(s, a) == (s.zoneName[z], path);
    assert MetaOf(s, a) == Meta(key, tags, stat);
    CloseShows(h, s, view, a);
  }

  // ----- zone states -----

  lemma SameZones(h: Hashes, s: Heap, s': Heap, created: Str, now: int)
    requires Linked(h, s) && s'.zoneName == s.zoneName && s'.zoneState == s.zoneState
    ensures ZonesTouched(s, s', {}, created, now)
  {
    hide Linked;
    ZonesLive(h, s);
  }

  lemma CreatedZone(h: Hashes, s: Heap, z: Addr, name: Str, now: int)
    requires Linked(h, s) && z !in s.zoneName
    ensures ZonesTouched(s, AddZone(s, z, name), {}, name, now)
  {
    hide Linked;
    ZonesLive(h, s);
  }

  lemma KeptZones(s: Heap, s': Heap, s'': Heap, created: Str, now: int)
    requires ZonesTouched(s, s', {}, created, now) && s''.zoneName == s'.zoneName && s''.zoneState == s'.zoneState
    ensures ZonesTouched(s, s'', {}, created, now)
  {
  }

  lemma TouchedZone(h: Hashes, s: Heap, s': Heap, z: Addr, name: Str, now: int)
    requires ZonesTouched(s, s', {}, name, now) && Linked(h, s') && z in s'.zoneName && s'.zoneName[z] == name
    ensures z in s'.zoneState
    ensures var touched := s'.zoneState[z].(lastUpdatedAt := now);
      ZonesTouched(s, s'.(zoneState := s'.zoneState[z := touched]), {name}, name, now)
  {
    hide Linked, ZonesTouched;
    ZonesLive(h, s');
    forall y | y in s'.zoneName && s'.zoneName[y] == name ensures y == z {
      ZoneUnique(h, s', y, z);
    }
    TouchOnly(s, s', z, name, now);
  }

  lemma TouchOnly(s: Heap, s': Heap, z: Addr, name: Str, now: int)
    requires ZonesTouched(s, s', {}, name, now) && z in s'.zoneName && z in s'.zoneState && s'.zoneName[z] == name
    requires forall y :: y in s'.zoneName && s'.zoneName[y] == name ==> y == z
    ensures var touched := s'.zoneState[z].(lastUpdatedAt := now);
      ZonesTouched(s, s'.(zoneState := s'.zoneState[z := touched]), {name}, name, now)
  {
    hide At;
  }

  lemma StateAt(h: Hashes, s: Heap, z: Addr)
    requires Linked(h, s) && z in s.zoneName
    ensures z in s.zoneState && StateOf(s, s.zoneName[z]) == s.zoneState[z]
  {
    hide Linked;
    ZonesLive(h, s);
    ZoneUnique(h, s, ZoneOf(s, s.zoneName[z]), z);
  }

  lemma NoZone(s: Heap, name: Str)
    requires name !in s.zoneName.Values
    ensures StateOf(s, name) == COLD
  {
  }

  lemma ShownZone(h: Hashes, s: Heap, view: map<Id, Meta>, name: Str, path: Str)
    requires Linked(h, s) && Shows(s, view, {}) && (name, path) in view
    ensures name in s.zoneName.Values
  {
    hide Linked, Shows;
    if name !in s.zoneName.Values {
      AbsentZone(h, s, view, name, path);
    }
  }

  /** Writing the state of one zone, which may be new, changes only that one. */
  lemma SetState(h: Hashes, s: Heap, s': Heap, z: Addr, state: ZoneState, n: Str)
    requires Linked(h, s) && Linked(h, s') && z in s'.zoneName
    requires z in s.zoneName ==> s'.zoneName == s.zoneName && s'.zoneState == s.zoneState[z := state]
    requires z !in s.zoneName ==> s'.zoneName == s.zoneName[z := s'.zoneName[z]]
                                  && s'.zoneState == s.zoneState[z := COLD][z := state]
    ensures StateOf(s', n) == if n == s'.zoneName[z] then state else StateOf(s, n)
  {
    hide Linked;
    if HasZone(s', n) {
      var y := ZoneOf(s', n);
      StateAt(h, s', y);
      if y == z {
      } else {
        ZoneDiffers(h, s', y, z);
        StateAt(h, s, y);
      }
    } else {
      assert forall y :: y in s.zoneName ==> y in s'.zoneName && s'.zoneName[y] == s.zoneName[y];
      assert !HasZone(s, n);
    }
  }

  lemma ZoneDiffers(h: Hashes, s: Heap, y: Addr, z: Addr)
    requires Linked(h, s) && y in s.zoneName && z in s.zoneName && y != z
    ensures s.zoneName[y] != s.zoneName[z]
  {
    hide Linked;
    if s.zoneName[y] == s.zoneName[z] {
      ZoneUnique(h, s, y, z);
    }
  }

  lemma TouchedStates(h: Hashes, s: Heap, s': Heap, touched: set<Str>, created: Str, now: int, n: Str)
    requires Linked(h, s) && Linked(h, s') && ZonesTouched(s, s', touched, created, now)
    requires touched <= s'.zoneName.Values
    ensures StateOf(s', n) == if n in touched then StateOf(s, n).(lastUpdatedAt := now) else StateOf(s, n)
  {
    hide Linked;
    ZonesLive(h, s);
    if z' :| z' in s'.zoneName && s'.zoneName[z'] == n {
      StateAt(h, s', z');
      if z' in s.zoneName {
        StateAt(h, s, z');
      } else if z :| z in s.zoneName && s.zoneName[z] == n {
        ZoneUnique(h, s', z, z');
      }
    }
  }

  lemma SubsetCardinality(a: set<Addr>, b: set<Addr>)
    requires a <= b
    ensures |a| <= |b|
  {
    if a != {} {
      var x :| x in a;
      SubsetCardinality(a - {x}, b - {x});
    }
  }

  lemma TouchShows(h: Hashes, s: Heap, view: map<Id, Meta>, z: Addr, state: ZoneState)
    requires Linked(h, s) && Shows(s, view, {}) && z in s.zoneName
    ensures Linked(h, s.(zoneState := s.zoneState[z := state]))
    ensures Shows(s.(zoneState := s.zoneState[z := state]), view, {})
  {
    hide Forest, Queued, KeyMatch, MemberMatch, Disjoint, ZoneLinks, Shows;
    var s' := s.(zoneState := s.zoneState[z := state]);
    Keep(s.zoneState, z, state);
    TouchMatch(s, z, state);
    OtherFieldsShow(h, s, s', view, {});
  }

  lemma TouchMatch(s: Heap, z: Addr, state: ZoneState)
    requires KeyMatch(s) && MemberMatch(s)
    ensures KeyMatch(s.(zoneState := s.zoneState[z := state])) && MemberMatch(s.(zoneState := s.zoneState[z := state]))
  {
  }

  /** A path without a file node has no entry in the map. */
  lemma AbsentPath(h: Hashes, s: Heap, view: map<Id, Meta>, z: Addr, path: Str)
    requires Linked(h, s) && Shows(s, view, {}) && z in s.zoneName
    requires path !in Names(s.fileHome, s.filePath, z).Values
    ensures (s.zoneName[z], path) !in view
  {
    hide Linked, Shows;
    if (s.zoneName[z], path) in view {
      var a := ShownHasFile(h, s, view, z, path);
      NamedPath(s, a);
    }
  }

  lemma NamedPath(s: Heap, a: Addr)
    requires a in s.fileHome && a in s.filePath
    ensures s.filePath[a] in Names(s.fileHome, s.filePath, s.fileHome[a]).Values
  {
    assert Names(s.fileHome, s.filePath, s.fileHome[a])[a] == s.filePath[a];
  }

  /** Neither has any path of a zone that does not exist. */
  lemma AbsentZone(h: Hashes, s: Heap, view: map<Id, Meta>, name: Str, path: Str)
    requires Linked(h, s) && Shows(s, view, {}) && name !in s.zoneName.Values
    ensures (name, path) !in view
  {
    hide Linked;
    if (name, path) in view {
      var a :| Backs(s, a, (name, path), {});
      FilesLive(h, s, a);
    }
  }

  /** Once the file is gone no other file of the zone has its path. */
  lemma RemovedName(h: Hashes, s: Heap, a: Addr, z: Addr, path: Str)
    requires Linked(h, s) && a in s.fileHome && s.fileHome[a] == z && a in s.filePath && s.filePath[a] == path
    ensures path !in Names(s.fileHome - {a}, s.filePath - {a}, z).Values
  {
    hide Linked, Forest;
    FilesLive(h, s, a);
    PathForest(h, s);
    var names := Names(s.fileHome - {a}, s.filePath - {a}, z);
    if path in names.Values {
      var b :| b in names && names[b] == path;
      ForestUnique(s.pathIndex, s.fileHome, s.filePath, h.long, h.short, a, b);
    }
  }

  lemma PathForest(h: Hashes, s: Heap)
    requires Linked(h, s)
    ensures Forest(s.pathIndex, s.fileHome, s.filePath, h.long, h.short)
  {
  }

  // ----- entries of the map and members of the queues -----

  predicate Carries(view: map<Id, Meta>, zone: Str, path: Str, tag: Str) {
    (zone, path) in view && tag in view[(zone, path)].tags
  }

  predicate Keyed(view: map<Id, Meta>, zone: Str, path: Str, key: Str) {
    (zone, path) in view && view[(zone, path)].key == key
  }

  /** A member on a tag's queue stands for a path that carries the tag... */
  lemma MemberCarries(h: Hashes, s: Heap, view: map<Id, Meta>, t: Addr, m: Addr)
    requires Linked(h, s) && Shows(s, view, {}) && t in s.tagMembers && m in s.tagMembers[t]
    ensures m in s.memberFile && s.memberFile[m] in s.filePath && t in s.tagHome && t in s.tagText
    ensures s.tagHome[t] in s.zoneName
    ensures Carries(view, s.zoneName[s.tagHome[t]], s.filePath[s.memberFile[m]], s.tagText[t])
  {
    hide Linked, MetaOf, Shows;
    TagQueueOwner(h, s, t);
    MemberLive(h, s, m);
    var a := s.memberFile[m];
    FilesLive(h, s, a);
    TagShown(s, a, m);
    ShownEntry(s, view, a);
    assert IdOf(s, a) == (s.zoneName[s.tagHome[t]], s.filePath[a]);
  }

  lemma ShownEntry(s: Heap, view: map<Id, Meta>, a: Addr)
    requires Shows(s, view, {}) && a in s.fileHome
    ensures IdOf(s, a) in view && view[IdOf(s, a)] == MetaOf(s, a)
  {
  }

  lemma TagShown(s: Heap, a: Addr, m: Addr)
    requires a in s.fileMembers && m in s.fileMembers[a]
    ensures TagOf(s, m) in MetaOf(s, a).tags
  {
    var i :| 0 <= i < |s.fileMembers[a]| && s.fileMembers[a][i] == m;
    assert MetaOf(s, a).tags[i] == TagOf(s, m);
  }

  lemma TagQueueOwner(h: Hashes, s: Heap, t: Addr)
    requires Linked(h, s) && t in s.tagMembers
    ensures forall m :: m in s.tagMembers[t] ==> m in s.memberFile && m in s.memberTag && s.memberTag[m] == t
  {
    hide Forest, Queued, ZoneLinks, KeyMatch, MemberMatch, Disjoint;
    QueuedItems(s.tagMembers, s.memberTag, t);
  }

  /** ...and every path that carries it has one there. */
  lemma CarrierHasMember(h: Hashes, s: Heap, view: map<Id, Meta>, z: Addr, path: Str, tag: Str)
    returns (t: Addr, m: Addr)
    requires Linked(h, s) && Shows(s, view, {}) && z in s.zoneName
    requires Carries(view, s.zoneName[z], path, tag)
    ensures t in s.tagHome && s.tagHome[t] == z && t in s.tagText && s.tagText[t] == tag
    ensures t in s.tagMembers && m in s.tagMembers[t]
    ensures m in s.memberFile && s.memberFile[m] in s.filePath && s.filePath[s.memberFile[m]] == path
  {
    hide Linked;
    var a :| Backs(s, a, (s.zoneName[z], path), {});
    FilesLive(h, s, a);
    ZoneUnique(h, s, z, s.fileHome[a]);
    var i :| 0 <= i < |MetaOf(s, a).tags| && MetaOf(s, a).tags[i] == tag;
    m := s.fileMembers[a][i];
    MembersLive(h, s, a);
    MemberLive(h, s, m);
    t := s.memberTag[m];
  }

  lemma ZoneUnique(h: Hashes, s: Heap, y: Addr, z: Addr)
    requires Linked(h, s) && y in s.zoneName && z in s.zoneName && s.zoneName[y] == s.zoneName[z]
    ensures y == z
  {
    hide Forest, Queued, KeyMatch, MemberMatch, Disjoint;
  }

  lemma TagEntryUnique(h: Hashes, s: Heap, t: Addr, t': Addr)
    requires Linked(h, s) && t in s.tagHome && t' in s.tagHome && s.tagHome[t] == s.tagHome[t']
    requires t in s.tagText && t' in s.tagText && s.tagText[t] == s.tagText[t']
    ensures t == t'
  {
    hide Forest, Queued, KeyMatch, MemberMatch, Disjoint;
    ForestUnique(s.tagIndex, s.tagHome, s.tagText, h.short, h.short, t, t');
  }

  lemma KeyEntryUnique(h: Hashes, s: Heap, k: Addr, k': Addr)
    requires Linked(h, s) && k in s.keyHome && k' in s.keyHome && s.keyHome[k] == s.keyHome[k']
    requires k in s.keyText && k' in s.keyText && s.keyText[k] == s.keyText[k']
    ensures k == k'
  {
    hide Forest, Queued, KeyMatch, MemberMatch, Disjoint;
    ForestUnique(s.keyIndex, s.keyHome, s.keyText, h.short, h.short, k, k');
  }

  /** A file on a key's queue stands for a path with that key... */
  lemma FileKeyed(h: Hashes, s: Heap, view: map<Id, Meta>, k: Addr, a: Addr)
    requires Linked(h, s) && Shows(s, view, {}) && k in s.keyFiles && a in s.keyFiles[k]
    ensures a in s.filePath && k in s.keyHome && k in s.keyText && s.keyHome[k] in s.zoneName && s.keyText[k] != []
    ensures Keyed(view, s.zoneName[s.keyHome[k]], s.filePath[a], s.keyText[k])
  {
    hide Linked;
    KeyQueueOwner(h, s, k, a);
    FilesLive(h, s, a);
    assert MetaOf(s, a).key == s.keyText[k];
  }

  lemma KeyQueueOwner(h: Hashes, s: Heap, k: Addr, a: Addr)
    requires Linked(h, s) && k in s.keyFiles && a in s.keyFiles[k]
    ensures a in s.keyEntry && s.keyEntry[a] == k && a in s.fileHome && a in s.fileKey
    ensures k in s.keyHome && k in s.keyText && s.keyText[k] == s.fileKey[a] && s.keyHome[k] == s.fileHome[a]
    ensures s.keyText[k] != []
  {
    hide Forest, Queued, ZoneLinks, MemberMatch, Disjoint;
    QueuedItems(s.keyFiles, s.keyEntry, k);
  }

  /** ...and every path with a non-empty key is there. */
  lemma KeyedHasFile(h: Hashes, s: Heap, view: map<Id, Meta>, z: Addr, path: Str, key: Str)
    returns (k: Addr, a: Addr)
    requires Linked(h, s) && Shows(s, view, {}) && KeyComplete(s.fileKey, s.keyEntry, {}) && z in s.zoneName
    requires Keyed(view, s.zoneName[z], path, key) && key != []
    ensures k in s.keyHome && s.keyHome[k] == z && k in s.keyText && s.keyText[k] == key
    ensures k in s.keyFiles && a in s.keyFiles[k] && a in s.filePath && s.filePath[a] == path
  {
    hide Linked;
    a :| Backs(s, a, (s.zoneName[z], path), {});
    FilesLive(h, s, a);
    ZoneUnique(h, s, z, s.fileHome[a]);
    assert MetaOf(s, a).key == key;
    k := s.keyEntry[a];
    KeyLinkLive(h, s, a);
  }

  lemma KeyLinkLive(h: Hashes, s: Heap, a: Addr)
    requires Linked(h, s) && a in s.keyEntry
    ensures a in s.fileHome && a in s.fileKey
    ensures s.keyEntry[a] in s.keyFiles && a in s.keyFiles[s.keyEntry[a]]
    ensures s.keyEntry[a] in s.keyHome && s.keyHome[s.keyEntry[a]] == s.fileHome[a]
    ensures s.keyEntry[a] in s.keyText && s.keyText[s.keyEntry[a]] == s.fileKey[a]
  {
    hide Forest, Queued, ZoneLinks, MemberMatch, Disjoint;
    QueuedBack(s.keyFiles, s.keyEntry, a);
  }

  /** The file queue of a zone stands for its part of the map. */
  lemma ZoneFileShown(h: Hashes, s: Heap, view: map<Id, Meta>, z: Addr, a: Addr)
    requires Linked(h, s) && Shows(s, view, {}) && z in s.zoneName && z in s.zoneFiles && a in s.zoneFiles[z]
    ensures a in s.filePath && a in s.fileKey && Keyed(view, s.zoneName[z], s.filePath[a], s.fileKey[a])
  {
    hide Linked;
    ZoneQueueOwner(h, s, z, a);
    FilesLive(h, s, a);
    assert MetaOf(s, a).key == s.fileKey[a];
  }

  lemma ZoneQueueOwner(h: Hashes, s: Heap, z: Addr, a: Addr)
    requires Linked(h, s) && z in s.zoneFiles && a in s.zoneFiles[z]
    ensures a in s.fileHome && s.fileHome[a] == z
  {
    hide Forest, Queued, ZoneLinks, KeyMatch, MemberMatch, Disjoint;
    QueuedItems(s.zoneFiles, s.fileHome, z);
  }

  lemma ShownHasFile(h: Hashes, s: Heap, view: map<Id, Meta>, z: Addr, path: Str) returns (a: Addr)
    requires Linked(h, s) && Shows(s, view, {}) && z in s.zoneName && (s.zoneName[z], path) in view
    ensures a in s.fileHome && s.fileHome[a] == z && a in s.filePath && s.filePath[a] == path
    ensures z in s.zoneFiles && a in s.zoneFiles[z]
  {
    hide Linked;
    a :| Backs(s, a, (s.zoneName[z], path), {});
    FilesLive(h, s, a);
    ZoneUnique(h, s, z, s.fileHome[a]);
  }

  // ----- the queries -----

  predicate CarriesAny(view: map<Id, Meta>, zone: Str, path: Str, tags: seq<Str>) {
    exists tag :: tag in tags && Carries(view, zone, path, tag)
  }

  function MemberPath(s: Heap, m: Addr): Str {
    At(s.filePath, At(s.memberFile, m, 0), [])
  }

  predicate OnTagQueue(s: Heap, ms: seq<Addr>, path: Str) {
    exists m :: m in ms && MemberPath(s, m) == path
  }

  lemma NothingQueued(s: Heap, prefix: Str)
    ensures forall p :: !OnTagQueue(s, [], p) && !OnFileQueue(s, [], p) && !OnZoneQueue(s, [], prefix, p)
  {
  }

  lemma OnTagQueueStep(s: Heap, ms: seq<Addr>, m: Addr, path: Str)
    ensures OnTagQueue(s, ms + [m], path) <==> OnTagQueue(s, ms, path) || MemberPath(s, m) == path
  {
    if OnTagQueue(s, ms, path) {
      var n :| n in ms && MemberPath(s, n) == path;
      assert n in ms + [m];
    }
    assert m in ms + [m];
  }

  lemma OnFileQueueStep(s: Heap, files: seq<Addr>, a: Addr, path: Str)
    ensures OnFileQueue(s, files + [a], path) <==> OnFileQueue(s, files, path) || At(s.filePath, a, []) == path
  {
    if OnFileQueue(s, files, path) {
      var b :| b in files && At(s.filePath, b, []) == path;
      assert b in files + [a];
    }
    assert a in files + [a];
  }

  lemma OnZoneQueueStep(s: Heap, files: seq<Addr>, a: Addr, prefix: Str, path: Str)
    ensures OnZoneQueue(s, files + [a], prefix, path)
       <==> OnZoneQueue(s, files, prefix, path) || (prefix <= At(s.fileKey, a, []) && At(s.filePath, a, []) == path)
  {
    if OnZoneQueue(s, files, prefix, path) {
      var b :| b in files && prefix <= At(s.fileKey, b, []) && At(s.filePath, b, []) == path;
      assert b in files + [a];
    }
    assert a in files + [a];
  }

  /** What a scan has met, the whole queue has, and so has the next element. */
  lemma TagQueuePart(s: Heap, ms: seq<Addr>, q: nat)
    requires q < |ms|
    ensures forall path :: OnTagQueue(s, ms[..q], path) ==> OnTagQueue(s, ms, path)
    ensures OnTagQueue(s, ms, MemberPath(s, ms[q]))
  {
    assert ms[q] in ms;
  }

  lemma FileQueuePart(s: Heap, files: seq<Addr>, q: nat)
    requires q < |files|
    ensures forall path :: OnFileQueue(s, files[..q], path) ==> OnFileQueue(s, files, path)
    ensures OnFileQueue(s, files, At(s.filePath, files[q], []))
  {
    assert files[q] in files;
  }

  lemma OnZoneQueuePart(s: Heap, files: seq<Addr>, q: nat, prefix: Str, path: Str)
    requires q < |files|
    ensures OnZoneQueue(s, files[..q], prefix, path) ==> OnZoneQueue(s, files, prefix, path)
    ensures prefix <= At(s.fileKey, files[q], []) ==> OnZoneQueue(s, files, prefix, At(s.filePath, files[q], []))
  {
    assert files[q] in files;
  }

  predicate OnFileQueue(s: Heap, files: seq<Addr>, path: Str) {
    exists a :: a in files && At(s.filePath, a, []) == path
  }

  /** A tag's queue holds exactly the paths that carry the tag. */
  lemma TagQueueCarries(h: Hashes, s: Heap, view: map<Id, Meta>, z: Addr, t: Addr, path: Str)
    requires Linked(h, s) && Shows(s, view, {}) && z in s.zoneName
    requires t in s.tagHome && s.tagHome[t] == z && t in s.tagText && t in s.tagMembers
    ensures Carries(view, s.zoneName[z], path, s.tagText[t]) <==> OnTagQueue(s, s.tagMembers[t], path)
  {
    hide Linked, Shows, Carries;
    if OnTagQueue(s, s.tagMembers[t], path) {
      var m :| m in s.tagMembers[t] && MemberPath(s, m) == path;
      MemberCarries(h, s, view, t, m);
    }
    if Carries(view, s.zoneName[z], path, s.tagText[t]) {
      var t', m := CarrierHasMember(h, s, view, z, path, s.tagText[t]);
      TagEntryUnique(h, s, t, t');
      assert MemberPath(s, m) == path;
    }
  }

  /** Without a tag entry nothing carries the tag. */
  lemma NoTagEntry(h: Hashes, s: Heap, view: map<Id, Meta>, z: Addr, tag: Str, path: Str)
    requires Linked(h, s) && Shows(s, view, {}) && z in s.zoneName
    requires tag !in Names(s.tagHome, s.tagText, z).Values
    ensures !Carries(view, s.zoneName[z], path, tag)
  {
    hide Linked, Shows, Carries;
    if Carries(view, s.zoneName[z], path, tag) {
      var t, m := CarrierHasMember(h, s, view, z, path, tag);
      NamedBlock(s.tagHome, s.tagText, t);
    }
  }

  lemma NamedBlock(home: map<Addr, Addr>, name: map<Addr, Str>, a: Addr)
    requires a in home && a in name
    ensures name[a] in Names(home, name, home[a]).Values
  {
    assert Names(home, name, home[a])[a] == name[a];
  }

  /** A key's queue holds exactly the paths with that key. */
  lemma KeyQueueKeyed(h: Hashes, s: Heap, view: map<Id, Meta>, z: Addr, k: Addr, path: Str)
    requires Linked(h, s) && Shows(s, view, {}) && KeyComplete(s.fileKey, s.keyEntry, {}) && z in s.zoneName
    requires k in s.keyHome && s.keyHome[k] == z && k in s.keyText && k in s.keyFiles
    ensures Keyed(view, s.zoneName[z], path, s.keyText[k]) && s.keyText[k] != []
            <==> OnFileQueue(s, s.keyFiles[k], path)
  {
    hide Linked, Shows, Keyed, KeyComplete;
    if OnFileQueue(s, s.keyFiles[k], path) {
      var a :| a in s.keyFiles[k] && At(s.filePath, a, []) == path;
      FileKeyed(h, s, view, k, a);
    }
    if Keyed(view, s.zoneName[z], path, s.keyText[k]) && s.keyText[k] != [] {
      var k', a := KeyedHasFile(h, s, view, z, path, s.keyText[k]);
      KeyEntryUnique(h, s, k, k');
      assert At(s.filePath, a, []) == path;
    }
  }

  lemma NoKeyEntry(h: Hashes, s: Heap, view: map<Id, Meta>, z: Addr, key: Str, path: Str)
    requires Linked(h, s) && Shows(s, view, {}) && KeyComplete(s.fileKey, s.keyEntry, {}) && z in s.zoneName
    requires key !in Names(s.keyHome, s.keyText, z).Values
    ensures !(Keyed(view, s.zoneName[z], path, key) && key != [])
  {
    hide Linked, Shows, Keyed, KeyComplete;
    if Keyed(view, s.zoneName[z], path, key) && key != [] {
      var k, a := KeyedHasFile(h, s, view, z, path, key);
      NamedBlock(s.keyHome, s.keyText, k);
    }
  }

  predicate KeyPrefixed(view: map<Id, Meta>, zone: Str, path: Str, prefix: Str) {
    (zone, path) in view && prefix <= view[(zone, path)].key
  }

  predicate OnZoneQueue(s: Heap, files: seq<Addr>, prefix: Str, path: Str) {
    exists a :: a in files && prefix <= At(s.fileKey, a, []) && At(s.filePath, a, []) == path
  }

  /** The linear scan of a zone's files sees every path whose key has the prefix. */
  lemma ZoneQueuePrefixed(h: Hashes, s: Heap, view: map<Id, Meta>, z: Addr, prefix: Str, path: Str)
    requires Linked(h, s) && Shows(s, view, {}) && z in s.zoneName && z in s.zoneFiles
    ensures KeyPrefixed(view, s.zoneName[z], path, prefix) <==> OnZoneQueue(s, s.zoneFiles[z], prefix, path)
  {
    hide Linked, Shows;
    if OnZoneQueue(s, s.zoneFiles[z], prefix, path) {
      var a :| a in s.zoneFiles[z] && prefix <= At(s.fileKey, a, []) && At(s.filePath, a, []) == path;
      ZoneFileShown(h, s, view, z, a);
    }
    if KeyPrefixed(view, s.zoneName[z], path, prefix) {
      var a := ShownHasFile(h, s, view, z, path);
      ZoneFileShown(h, s, view, z, a);
      assert prefix <= At(s.fileKey, a, []) && At(s.filePath, a, []) == path;
    }
  }

  lemma AbsentCarrier(h: Hashes, s: Heap, view: map<Id, Meta>, name: Str, path: Str, tag: Str)
    requires Linked(h, s) && Shows(s, view, {}) && name !in s.zoneName.Values
    ensures !Carries(view, name, path, tag)
  {
    AbsentZone(h, s, view, name, path);
  }

  lemma AbsentKeyed(h: Hashes, s: Heap, view: map<Id, Meta>, name: Str, path: Str, key: Str)
    requires Linked(h, s) && Shows(s, view, {}) && name !in s.zoneName.Values
    ensures !Keyed(view, name, path, key)
  {
    AbsentZone(h, s, view, name, path);
  }

  lemma AbsentPrefixed(h: Hashes, s: Heap, view: map<Id, Meta>, name: Str, path: Str, prefix: Str)
    requires Linked(h, s) && Shows(s, view, {}) && name !in s.zoneName.Values
    ensures !KeyPrefixed(view, name, path, prefix)
  {
    AbsentZone(h, s, view, name, path);
  }
}
