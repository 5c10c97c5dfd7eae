/** Consequences of the store's invariant: the heap determines the map, nothing is
    leaked or linked twice, and any run of updates is a run of map updates. */
module StoreFacts {
  import opened Bytes
  import opened OrderedTree
  import opened NameIndex
  import opened Queues
  import opened SharedHeap
  import opened HeapView
  import opened IndexStore
  import opened SlabRequests
  import opened IndexNeeds

  /** There is no freedom in the map that a heap stands for. */
  lemma HeapDeterminesMap(s: Heap, view: map<Id, Meta>, view': map<Id, Meta>)
    requires Shows(s, view, {}) && Shows(s, view', {})
    ensures view == view'
  {
    hide IdOf, MetaOf;
    forall id ensures id in view <==> id in view' {
      if id in view { var a :| Backs(s, a, id, {}); }
      if id in view' { var a :| Backs(s, a, id, {}); }
    }
    forall id | id in view ensures view[id] == view'[id] {
      var a :| Backs(s, a, id, {});
    }
  }

  lemma Forests(h: Hashes, s: Heap)
    requires Linked(h, s)
    ensures Forest(s.pathIndex, s.fileHome, s.filePath, h.long, h.short)
    ensures Forest(s.keyIndex, s.keyHome, s.keyText, h.short, h.short)
    ensures Forest(s.tagIndex, s.tagHome, s.tagText, h.short, h.short)
  {
  }

  lemma QueueSides(h: Hashes, s: Heap)
    requires Linked(h, s)
    ensures Queued(s.zoneFiles, s.fileHome) && Queued(s.keyFiles, s.keyEntry)
    ensures Queued(s.tagMembers, s.memberTag) && Queued(s.fileMembers, s.memberFile)
  {
  }

  lemma QueuedIff(queues: map<Addr, seq<Addr>>, owner: map<Addr, Addr>, o: Addr, i: Addr)
    requires Queued(queues, owner)
    ensures (o in queues && i in queues[o]) <==> (i in owner && owner[i] == o)
  {
  }

  /** A file is on a zone's queue exactly when it is in that zone's path tree, and
      that is so for one zone only. */
  lemma QueueIffPathTree(h: Hashes, s: Heap, z: Addr, a: Addr)
    requires Linked(h, s)
    ensures (z in s.zoneFiles && a in s.zoneFiles[z]) <==> InTree(s.pathIndex, z, a)
    ensures InTree(s.pathIndex, z, a) <==> a in s.fileHome && s.fileHome[a] == z
  {
    hide Linked, Forest, Queued;
    Forests(h, s);
    QueueSides(h, s);
    ForestHolds(s.pathIndex, s.fileHome, s.filePath, h.long, h.short, z, a);
    QueuedIff(s.zoneFiles, s.fileHome, z, a);
  }

  /** Between operations a file is on the queue of a key entry exactly when its key
      is that entry's key, in its own zone, and not empty. */
  lemma KeyQueueIffKey(h: Hashes, s: Heap, view: map<Id, Meta>, failures: nat, k: Addr, a: Addr)
    requires Consistent(h, s, view, failures) && a in s.fileHome
    ensures a in s.fileKey
    ensures (k in s.keyFiles && a in s.keyFiles[k]) <==>
            (k in s.keyHome && k in s.keyText && s.keyHome[k] == s.fileHome[a]
             && s.keyText[k] == s.fileKey[a] && s.fileKey[a] != [])
  {
    hide Linked, Shows;
    FilesLive(h, s, a);
    if k in s.keyFiles && a in s.keyFiles[k] {
      KeyQueueOwner(h, s, k, a);
    }
    if k in s.keyHome && k in s.keyText && s.keyHome[k] == s.fileHome[a] && s.keyText[k] == s.fileKey[a]
        && s.fileKey[a] != [] {
      KeyLinkLive(h, s, a);
      KeyEntryUnique(h, s, k, s.keyEntry[a]);
    }
  }

  /** A member is on the queue of its own tag entry and of its own file, and on no
      other queue. */
  lemma MemberLinkedTwice(h: Hashes, s: Heap, m: Addr, t: Addr, a: Addr)
    requires Linked(h, s)
    ensures (t in s.tagMembers && m in s.tagMembers[t]) <==> (m in s.memberTag && s.memberTag[m] == t)
    ensures (a in s.fileMembers && m in s.fileMembers[a]) <==> (m in s.memberFile && s.memberFile[m] == a)
    ensures m in s.memberTag <==> m in s.memberFile
  {
    hide Linked, Queued;
    QueueSides(h, s);
    Forks(h, s);
    QueuedIff(s.tagMembers, s.memberTag, t, m);
    QueuedIff(s.fileMembers, s.memberFile, a, m);
  }

  lemma Forks(h: Hashes, s: Heap)
    requires Linked(h, s)
    ensures s.memberTag.Keys == s.memberFile.Keys
  {
    hide Forest, Queued, KeyMatch, MemberMatch, Disjoint, ZoneLinks;
  }

  /** When the tags of a file differ, each has exactly one member on it. */
  lemma OneMemberPerTag(h: Hashes, s: Heap, a: Addr, tag: Str)
    requires Linked(h, s) && a in s.fileHome && NoDup(MetaOf(s, a).tags)
    ensures a in s.fileMembers
    ensures tag in MetaOf(s, a).tags ==> exists m :: m in s.fileMembers[a] && TagOf(s, m) == tag
    ensures forall m, n :: m in s.fileMembers[a] && n in s.fileMembers[a] && TagOf(s, m) == TagOf(s, n) ==> m == n
  {
    hide Linked, TagOf;
    FilesLive(h, s, a);
    var ms := s.fileMembers[a];
    if tag in MetaOf(s, a).tags {
      var i :| 0 <= i < |ms| && MetaOf(s, a).tags[i] == tag;
      assert ms[i] in ms;
    }
    forall m, n | m in ms && n in ms && TagOf(s, m) == TagOf(s, n) ensures m == n {
      var i :| 0 <= i < |ms| && ms[i] == m;
      var j :| 0 <= j < |ms| && ms[j] == n;
      assert MetaOf(s, a).tags[i] == TagOf(s, m) && MetaOf(s, a).tags[j] == TagOf(s, n);
    }
  }

  /** Every live block is reachable from the zone queue by the links of its kind. */
  ghost predicate Reachable(s: Heap, b: Addr) {
    || b in s.zoneQueue
    || (exists z :: z in s.zoneQueue && InTree(s.pathIndex, z, b))
    || (exists z :: z in s.zoneQueue && InTree(s.keyIndex, z, b))
    || (exists z :: z in s.zoneQueue && InTree(s.tagIndex, z, b))
    || (exists a :: a in s.fileMembers && b in s.fileMembers[a])
  }

  lemma NothingLeaked(h: Hashes, s: Heap, b: Addr)
    requires Linked(h, s)
    ensures b in Blocks(s.slab) <==> Reachable(s, b)
  {
    hide Linked, Forest, Blocks;
    Forests(h, s);
    Kinds(h, s, b);
    ZonesLive(h, s);
    KeysLive(h, s);
    TagsLive(h, s);
    if Reachable(s, b) {
      ReachedLive(h, s, b);
    }
    if b in s.fileHome {
      FilesLive(h, s, b);
      ForestHolds(s.pathIndex, s.fileHome, s.filePath, h.long, h.short, s.fileHome[b], b);
    } else if b in s.keyHome {
      ForestHolds(s.keyIndex, s.keyHome, s.keyText, h.short, h.short, s.keyHome[b], b);
    } else if b in s.tagHome {
      ForestHolds(s.tagIndex, s.tagHome, s.tagText, h.short, h.short, s.tagHome[b], b);
    } else if b in s.memberFile {
      MemberLive(h, s, b);
    }
  }

  lemma ReachedLive(h: Hashes, s: Heap, b: Addr)
    requires Linked(h, s) && Reachable(s, b)
    ensures b in Blocks(s.slab)
  {
    hide Linked, Forest, Blocks;
    Forests(h, s);
    Kinds(h, s, b);
    ZonesLive(h, s);
    if z :| z in s.zoneQueue && InTree(s.pathIndex, z, b) {
      ForestHolds(s.pathIndex, s.fileHome, s.filePath, h.long, h.short, z, b);
    }
    if z :| z in s.zoneQueue && InTree(s.keyIndex, z, b) {
      ForestHolds(s.keyIndex, s.keyHome, s.keyText, h.short, h.short, z, b);
    }
    if z :| z in s.zoneQueue && InTree(s.tagIndex, z, b) {
      ForestHolds(s.tagIndex, s.tagHome, s.tagText, h.short, h.short, z, b);
    }
    if a :| a in s.fileMembers && b in s.fileMembers[a] {
      QueuedOwner(h, s, a);
    }
  }

  lemma Kinds(h: Hashes, s: Heap, b: Addr)
    requires Linked(h, s)
    ensures b in Blocks(s.slab)
       <==> b in s.zoneName || b in s.fileHome || b in s.keyHome || b in s.tagHome || b in s.memberFile
  {
    hide Forest, Queued, KeyMatch, MemberMatch, ZoneLinks;
  }

  /** When the map is empty, all that is left are the zones and at most `failures`
      tag entries without members. */
  lemma EmptyMapLeavesLittle(h: Hashes, s: Heap, view: map<Id, Meta>, failures: nat)
    requires Consistent(h, s, view, failures) && view == map[]
    ensures s.fileHome == map[] && s.keyHome == map[] && s.memberFile == map[]
    ensures forall t :: t in s.tagHome ==> t in s.tagMembers && s.tagMembers[t] == []
    ensures |s.tagHome.Keys| <= failures
  {
    hide Linked, KeyComplete;
    forall a ensures a !in s.fileHome {
      if a in s.fileHome { ShownEntry(s, view, a); }
    }
    forall m ensures m !in s.memberFile {
      if m in s.memberFile { MemberLive(h, s, m); }
    }
    KeysLive(h, s);
    TagsLive(h, s);
    forall k ensures k !in s.keyHome {
      if k in s.keyHome {
        assert k !in Empty(s.keyFiles);
        KeyQueueOwner(h, s, k, s.keyFiles[k][0]);
      }
    }
    forall t | t in s.tagHome ensures s.tagMembers[t] == [] {
      TagQueueOwner(h, s, t);
      Unqueued(s.tagMembers[t], s.memberFile);
    }
    assert s.tagHome.Keys == Empty(s.tagMembers);
  }

  lemma Unqueued(items: seq<Addr>, owner: map<Addr, Addr>)
    requires forall i :: i in items ==> i in owner
    ensures items != [] ==> owner != map[]
  {
    if items != [] {
      assert items[0] in items;
    }
  }

  // ----- runs -----

  datatype Update =
    | Upsert(zone: Str, path: Str, meta: Meta)
    | Delete(zone: Str, path: Str)
    | SetState(zone: Str, state: ZoneState)

  /** What one update does to the map, given whether it succeeded. */
  function Applied(view: map<Id, Meta>, u: Update, ok: bool): map<Id, Meta> {
    match u
    case Upsert(z, p, m) => if ok then view[(z, p) := m] else view - {(z, p)}
    case Delete(z, p) => view - {(z, p)}
    case SetState(_, _) => view
  }

  function Run(view: map<Id, Meta>, us: seq<Update>, oks: seq<bool>): map<Id, Meta>
    requires |us| == |oks|
  {
    if us == [] then view else Applied(Run(view, us[..|us| - 1], oks[..|us| - 1]), us[|us| - 1], oks[|us| - 1])
  }

  function Failures(oks: seq<bool>): nat {
    if oks == [] then 0 else Failures(oks[..|oks| - 1]) + if oks[|oks| - 1] then 0 else 1
  }

  /** How many blocks an update lacks. */
  ghost function Lacks(s: Heap, view: map<Id, Meta>, u: Update): nat {
    match u
    case Upsert(z, p, m) => Needed(s, view, z, p, m.key, m.tags)
    case Delete(_, _) => 0
    case SetState(z, _) => if z in s.zoneName.Values then 0 else 1
  }

  method Perform(store: Store, u: Update, now: int) returns (ok: bool)
    requires store.Valid()
    modifies store
    ensures store.Valid() && store.view == Applied(old(store.view), u, ok)
    ensures store.allocFailures == old(store.allocFailures) + if ok then 0 else 1
    ensures store.requests >= old(store.requests)
    ensures ok <==> Granted(store.slab, old(store.requests), Lacks(old(store.shm), old(store.view), u))
  {
    hide Consistent, StateOf, Needed;
    ok := true;
    match u {
      case Upsert(z, p, m) => ok := store.UpsertFileMeta(z, p, m.key, m.stat, m.tags, now);
      case Delete(z, p) => store.DeleteFile(z, p, now);
      case SetState(z, st) => ok := store.SetZoneState(z, st, now);
    }
  }

  /** Whatever allocations fail, a run of updates on the store is the same run on
      the plain map, and every failed update is counted once. */
  method Replay(store: Store, us: seq<Update>, now: int) returns (oks: seq<bool>)
    requires store.Valid()
    modifies store
    ensures store.Valid() && |oks| == |us|
    ensures store.view == Run(old(store.view), us, oks)
    ensures store.allocFailures == old(store.allocFailures) + Failures(oks)
    ensures (forall i :: i >= old(store.requests) ==> store.slab(i)) ==> forall i :: 0 <= i < |us| ==> oks[i]
  {
    hide Consistent, Applied, Lacks, Refusals;
    oks := [];
    for i := 0 to |us|
      invariant store.Valid() && |oks| == i
      invariant store.view == Run(old(store.view), us[..i], oks)
      invariant store.allocFailures == old(store.allocFailures) + Failures(oks)
      invariant store.requests >= old(store.requests)
      invariant (forall j :: j >= old(store.requests) ==> store.slab(j)) ==> forall j :: 0 <= j < i ==> oks[j]
    {
      var ok := Perform(store, us[i], now);
      assert (oks + [ok])[..i] == oks && us[..i + 1][..i] == us[..i];
      oks := oks + [ok];
    }
    assert us[..|us|] == us;
  }

  /** What a run leaves at a place is decided by the last update of that place. */
  lemma {:induction false} LastUpdateWins(view: map<Id, Meta>, us: seq<Update>, oks: seq<bool>, id: Id)
    requires |us| == |oks|
    ensures var last := LastAt(us, id);
      if last < 0 then
        (id in Run(view, us, oks) <==> id in view) && (id in view ==> Run(view, us, oks)[id] == view[id])
      else
        last < |us| && (id in Run(view, us, oks) <==> us[last].Upsert? && oks[last])
        && (us[last].Upsert? && oks[last] ==> Run(view, us, oks)[id] == us[last].meta)
  {
    if us != [] {
      LastUpdateWins(view, us[..|us| - 1], oks[..|us| - 1], id);
    }
  }

  function LastAt(us: seq<Update>, id: Id): int {
    if us == [] then -1
    else
      var u := us[|us| - 1];
      if !u.SetState? && (u.zone, u.path) == id then |us| - 1 else LastAt(us[..|us| - 1], id)
  }
}
