/** Every relinking step keeps the heap linked. The lemmas ...Match say that the
    remaining blocks still fit together, the lemmas ...Linked put all together. */
module HeapSteps {
  import opened Bytes
  import opened OrderedTree
  import opened NameIndex
  import opened Queues
  import opened SharedHeap

  lemma SlabGrow(l: Slab, a: Addr)
    requires Disjoint(l) && a !in Blocks(l)
    ensures Disjoint(l.(zones := l.zones + {a})) && Disjoint(l.(files := l.files + {a}))
    ensures Disjoint(l.(keys := l.keys + {a})) && Disjoint(l.(tags := l.tags + {a}))
    ensures Disjoint(l.(members := l.members + {a}))
    ensures a !in l.zones && a !in l.files && a !in l.keys && a !in l.tags && a !in l.members
  {
  }

  lemma SlabShrink(l: Slab, a: Addr)
    requires Disjoint(l)
    ensures Disjoint(l.(files := l.files - {a})) && Disjoint(l.(keys := l.keys - {a}))
    ensures Disjoint(l.(tags := l.tags - {a})) && Disjoint(l.(members := l.members - {a}))
  {
  }

  // ----- adding a block -----

  lemma ZoneLinksMore(queue: seq<Addr>, names: map<Addr, Str>, z: Addr, n: Str)
    requires ZoneLinks(queue, names) && z !in names && n !in names.Values
    ensures ZoneLinks(queue + [z], names[z := n])
  {
    hide Injective;
    FreshName(names, z, n);
  }

  lemma AddZoneLinked(h: Hashes, s: Heap, z: Addr, name: Str)
    requires Linked(h, s) && z !in Blocks(s.slab) && name !in s.zoneName.Values
    ensures Linked(h, AddZone(s, z, name))
  {
    hide Queued, Forest, KeyMatch, MemberMatch, Disjoint, ZoneLinks, Blocks;
    SlabGrow(s.slab, z);
    Put(s.zoneName, z, name);
    Put(s.zoneState, z, COLD);
    Put(s.zoneFiles, z, []);
    Put(s.pathIndex, z, Leaf);
    Put(s.keyIndex, z, Leaf);
    Put(s.tagIndex, z, Leaf);
    AddZoneMatch(s, z, name);
    ZoneLinksMore(s.zoneQueue, s.zoneName, z, name);
    QueuedAddOwner(s.zoneFiles, s.fileHome, z);
    ForestAddZone(s.pathIndex, s.fileHome, s.filePath, h.long, h.short, z);
    ForestAddZone(s.keyIndex, s.keyHome, s.keyText, h.short, h.short, z);
    ForestAddZone(s.tagIndex, s.tagHome, s.tagText, h.short, h.short, z);
  }

  lemma AddZoneMatch(s: Heap, z: Addr, name: Str)
    requires KeyMatch(s) && MemberMatch(s)
    ensures KeyMatch(AddZone(s, z, name)) && MemberMatch(AddZone(s, z, name))
  {
  }

  lemma AddFileMatch(s: Heap, a: Addr, z: Addr, path: Str, key: Str, stat: Stat, tree: Tree)
    requires KeyMatch(s) && MemberMatch(s) && z in s.zoneFiles && a !in s.fileHome && a !in s.fileKey
    ensures KeyMatch(AddFile(s, a, z, path, key, stat, tree)) && MemberMatch(AddFile(s, a, z, path, key, stat, tree))
  {
  }

  lemma AddFileLinked(h: Hashes, s: Heap, a: Addr, z: Addr, path: Str, key: Str, stat: Stat, tree: Tree)
    requires Linked(h, s) && a !in Blocks(s.slab) && z in s.zoneName
    requires path !in Names(s.fileHome, s.filePath, z).Values
    requires InOrder(tree) == InOrder(Insert(s.pathIndex[z], Slot(h.long(path), path, a)))
    ensures Linked(h, AddFile(s, a, z, path, key, stat, tree))
  {
    hide Queued, Forest, KeyMatch, MemberMatch, Disjoint, ZoneLinks, Blocks, Names, InOrder, Insert;
    SlabGrow(s.slab, a);
    Put(s.fileHome, a, z);
    Put(s.filePath, a, path);
    Put(s.fileKey, a, key);
    Put(s.fileStat, a, stat);
    Put(s.fileMembers, a, []);
    Keep(s.pathIndex, z, tree);
    Keep(s.zoneFiles, z, s.zoneFiles[z] + [a]);
    AddFileMatch(s, a, z, path, key, stat, tree);
    QueuedPush(s.zoneFiles, s.fileHome, z, a);
    QueuedAddOwner(s.fileMembers, s.memberFile, a);
    ForestInsert(s.pathIndex, s.fileHome, s.filePath, h.long, h.short, a, z, path, tree);
  }

  lemma AddKeyEntryMatch(s: Heap, k: Addr, z: Addr, key: Str, tree: Tree)
    requires KeyMatch(s) && MemberMatch(s) && k !in s.keyHome && k !in s.keyText && key != []
    ensures KeyMatch(AddKeyEntry(s, k, z, key, tree)) && MemberMatch(AddKeyEntry(s, k, z, key, tree))
  {
  }

  lemma AddKeyEntryLinked(h: Hashes, s: Heap, k: Addr, z: Addr, key: Str, tree: Tree)
    requires Linked(h, s) && k !in Blocks(s.slab) && z in s.zoneName && key != []
    requires key !in Names(s.keyHome, s.keyText, z).Values
    requires InOrder(tree) == InOrder(Insert(s.keyIndex[z], Slot(h.short(key), key, k)))
    ensures Linked(h, AddKeyEntry(s, k, z, key, tree))
  {
    hide Queued, Forest, KeyMatch, MemberMatch, Disjoint, ZoneLinks, Blocks, Names, InOrder, Insert;
    SlabGrow(s.slab, k);
    Put(s.keyHome, k, z);
    Put(s.keyText, k, key);
    Put(s.keyFiles, k, []);
    Keep(s.keyIndex, z, tree);
    AddKeyEntryMatch(s, k, z, key, tree);
    QueuedAddOwner(s.keyFiles, s.keyEntry, k);
    ForestInsert(s.keyIndex, s.keyHome, s.keyText, h.short, h.short, k, z, key, tree);
  }

  lemma AddTagEntryMatch(s: Heap, t: Addr, z: Addr, tag: Str, tree: Tree)
    requires KeyMatch(s) && MemberMatch(s) && t !in s.tagHome
    ensures KeyMatch(AddTagEntry(s, t, z, tag, tree)) && MemberMatch(AddTagEntry(s, t, z, tag, tree))
  {
  }

  lemma AddTagEntryLinked(h: Hashes, s: Heap, t: Addr, z: Addr, tag: Str, tree: Tree)
    requires Linked(h, s) && t !in Blocks(s.slab) && z in s.zoneName
    requires tag !in Names(s.tagHome, s.tagText, z).Values
    requires InOrder(tree) == InOrder(Insert(s.tagIndex[z], Slot(h.short(tag), tag, t)))
    ensures Linked(h, AddTagEntry(s, t, z, tag, tree))
  {
    hide Queued, Forest, KeyMatch, MemberMatch, Disjoint, ZoneLinks, Blocks, Names, InOrder, Insert;
    SlabGrow(s.slab, t);
    Put(s.tagHome, t, z);
    Put(s.tagText, t, tag);
    Put(s.tagMembers, t, []);
    Keep(s.tagIndex, z, tree);
    AddTagEntryMatch(s, t, z, tag, tree);
    QueuedAddOwner(s.tagMembers, s.memberTag, t);
    ForestInsert(s.tagIndex, s.tagHome, s.tagText, h.short, h.short, t, z, tag, tree);
  }

  lemma AddMemberMatch(s: Heap, m: Addr, t: Addr, a: Addr)
    requires KeyMatch(s) && MemberMatch(s) && t in s.tagMembers && a in s.fileMembers
    requires t in s.tagHome && a in s.fileHome && s.tagHome[t] == s.fileHome[a]
    ensures KeyMatch(AddMember(s, m, t, a)) && MemberMatch(AddMember(s, m, t, a))
  {
  }

  lemma AddMemberLinked(h: Hashes, s: Heap, m: Addr, t: Addr, a: Addr)
    requires Linked(h, s) && m !in Blocks(s.slab) && t in s.tagHome && a in s.fileHome
    requires s.tagHome[t] == s.fileHome[a]
    ensures Linked(h, AddMember(s, m, t, a))
  {
    hide Queued, Forest, KeyMatch, MemberMatch, Disjoint, ZoneLinks, Blocks;
    SlabGrow(s.slab, m);
    Put(s.memberTag, m, t);
    Put(s.memberFile, m, a);
    Keep(s.tagMembers, t, s.tagMembers[t] + [m]);
    Keep(s.fileMembers, a, s.fileMembers[a] + [m]);
    AddMemberMatch(s, m, t, a);
    QueuedPush(s.tagMembers, s.memberTag, t, m);
    QueuedPush(s.fileMembers, s.memberFile, a, m);
  }

  // ----- moving a file on and off a key entry -----

  lemma LinkKeyMatch(s: Heap, a: Addr, k: Addr)
    requires KeyMatch(s) && MemberMatch(s) && a in s.fileHome && a in s.fileKey
    requires k in s.keyHome && k in s.keyText && k in s.keyFiles
    requires s.keyText[k] == s.fileKey[a] && s.keyHome[k] == s.fileHome[a]
    ensures KeyMatch(LinkKey(s, a, k)) && MemberMatch(LinkKey(s, a, k))
  {
  }

  lemma LinkKeyLinked(h: Hashes, s: Heap, a: Addr, k: Addr)
    requires Linked(h, s) && a in s.fileHome && a !in s.keyEntry && k in s.keyHome
    requires s.keyText[k] == s.fileKey[a] && s.keyHome[k] == s.fileHome[a]
    ensures Linked(h, LinkKey(s, a, k))
  {
    hide Queued, Forest, KeyMatch, MemberMatch, Disjoint, ZoneLinks;
    Keep(s.keyFiles, k, s.keyFiles[k] + [a]);
    LinkKeyMatch(s, a, k);
    QueuedPush(s.keyFiles, s.keyEntry, k, a);
  }

  lemma UnlinkKeyMatch(s: Heap, a: Addr, k: Addr)
    requires KeyMatch(s) && MemberMatch(s) && k in s.keyFiles
    ensures KeyMatch(UnlinkKey(s, a, k)) && MemberMatch(UnlinkKey(s, a, k))
  {
  }

  lemma UnlinkKeyLinked(h: Hashes, s: Heap, a: Addr, k: Addr)
    requires Linked(h, s) && a in s.keyEntry && s.keyEntry[a] == k
    ensures k in s.keyFiles && Linked(h, UnlinkKey(s, a, k))
  {
    hide Queued, Forest, KeyMatch, MemberMatch, Disjoint, ZoneLinks;
    QueuedPull(s.keyFiles, s.keyEntry, k, a);
    Keep(s.keyFiles, k, Without(s.keyFiles[k], a));
    UnlinkKeyMatch(s, a, k);
  }

  // ----- dropping a block nothing points to -----

  lemma RemoveMemberMatch(s: Heap, m: Addr, t: Addr, a: Addr)
    requires KeyMatch(s) && MemberMatch(s) && t in s.tagMembers && a in s.fileMembers
    ensures KeyMatch(RemoveMember(s, m, t, a)) && MemberMatch(RemoveMember(s, m, t, a))
  {
  }

  lemma RemoveMemberLinked(h: Hashes, s: Heap, m: Addr)
    requires Linked(h, s) && m in s.memberFile
    ensures s.memberTag[m] in s.tagMembers && s.memberFile[m] in s.fileMembers
    ensures Linked(h, RemoveMember(s, m, s.memberTag[m], s.memberFile[m]))
  {
    hide Queued, Forest, KeyMatch, MemberMatch, Disjoint, ZoneLinks;
    var t, a := s.memberTag[m], s.memberFile[m];
    QueuedPull(s.tagMembers, s.memberTag, t, m);
    QueuedPull(s.fileMembers, s.memberFile, a, m);
    SlabShrink(s.slab, m);
    Keep(s.tagMembers, t, Without(s.tagMembers[t], m));
    Keep(s.fileMembers, a, Without(s.fileMembers[a], m));
    RemoveMemberMatch(s, m, t, a);
  }

  lemma DropKeyEntryMatch(s: Heap, k: Addr, tree: Tree)
    requires KeyMatch(s) && MemberMatch(s) && k in s.keyHome
    requires Queued(s.keyFiles, s.keyEntry) && k in s.keyFiles && s.keyFiles[k] == []
    ensures KeyMatch(DropKeyEntry(s, k, tree)) && MemberMatch(DropKeyEntry(s, k, tree))
  {
    assert forall a :: a in s.keyEntry ==> s.keyEntry[a] != k;
  }

  lemma DropKeyEntryLinked(h: Hashes, s: Heap, k: Addr, tree: Tree)
    requires Linked(h, s) && k in s.keyHome && s.keyFiles[k] == [] && s.keyHome[k] in s.zoneName
    requires InOrder(tree) == RemoveAddr(InOrder(s.keyIndex[s.keyHome[k]]), k)
    ensures Linked(h, DropKeyEntry(s, k, tree))
  {
    hide Queued, Forest, KeyMatch, MemberMatch, Disjoint, ZoneLinks, InOrder, RemoveAddr;
    SlabShrink(s.slab, k);
    Keep(s.keyIndex, s.keyHome[k], tree);
    DropKeyEntryMatch(s, k, tree);
    QueuedDropOwner(s.keyFiles, s.keyEntry, k);
    ForestDelete(s.keyIndex, s.keyHome, s.keyText, h.short, h.short, k, tree);
  }

  lemma DropTagEntryMatch(s: Heap, t: Addr, tree: Tree)
    requires KeyMatch(s) && MemberMatch(s) && t in s.tagHome && s.memberTag.Keys == s.memberFile.Keys
    requires Queued(s.tagMembers, s.memberTag) && t in s.tagMembers && s.tagMembers[t] == []
    ensures KeyMatch(DropTagEntry(s, t, tree)) && MemberMatch(DropTagEntry(s, t, tree))
  {
    assert forall m :: m in s.memberTag ==> s.memberTag[m] != t;
  }

  lemma DropTagEntryLinked(h: Hashes, s: Heap, t: Addr, tree: Tree)
    requires Linked(h, s) && t in s.tagHome && s.tagMembers[t] == [] && s.tagHome[t] in s.zoneName
    requires InOrder(tree) == RemoveAddr(InOrder(s.tagIndex[s.tagHome[t]]), t)
    ensures Linked(h, DropTagEntry(s, t, tree))
  {
    hide Queued, Forest, KeyMatch, MemberMatch, Disjoint, ZoneLinks, InOrder, RemoveAddr;
    SlabShrink(s.slab, t);
    Keep(s.tagIndex, s.tagHome[t], tree);
    DropTagEntryMatch(s, t, tree);
    QueuedDropOwner(s.tagMembers, s.memberTag, t);
    ForestDelete(s.tagIndex, s.tagHome, s.tagText, h.short, h.short, t, tree);
  }

  lemma DropFileMatch(s: Heap, a: Addr, tree: Tree)
    requires KeyMatch(s) && MemberMatch(s) && a in s.fileHome && s.fileHome[a] in s.zoneFiles
    requires a !in s.keyEntry
    requires Queued(s.fileMembers, s.memberFile) && a in s.fileMembers && s.fileMembers[a] == []
    ensures KeyMatch(DropFile(s, a, tree)) && MemberMatch(DropFile(s, a, tree))
  {
    assert forall m :: m in s.memberFile ==> s.memberFile[m] != a;
  }

  lemma DropFileLinked(h: Hashes, s: Heap, a: Addr, tree: Tree)
    requires Linked(h, s) && a in s.fileHome && a !in s.keyEntry && s.fileMembers[a] == []
    requires s.fileHome[a] in s.zoneName
    requires InOrder(tree) == RemoveAddr(InOrder(s.pathIndex[s.fileHome[a]]), a)
    ensures Linked(h, DropFile(s, a, tree))
  {
    hide Queued, Forest, KeyMatch, MemberMatch, Disjoint, ZoneLinks, InOrder, RemoveAddr;
    SlabShrink(s.slab, a);
    Keep(s.pathIndex, s.fileHome[a], tree);
    Keep(s.zoneFiles, s.fileHome[a], Without(s.zoneFiles[s.fileHome[a]], a));
    DropFileMatch(s, a, tree);
    QueuedPull(s.zoneFiles, s.fileHome, s.fileHome[a], a);
    QueuedDropOwner(s.fileMembers, s.memberFile, a);
    ForestDelete(s.pathIndex, s.fileHome, s.filePath, h.long, h.short, a, tree);
  }
}
