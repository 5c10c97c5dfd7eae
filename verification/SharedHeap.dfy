/** The shared-memory heap of the index store as a value, with one map for each
    struct field, from the address of a block to the field's value. Here are the
    consistency of the links, the map the heap stands for, and every single
    relinking step. Queues are sequences of block addresses. */
module SharedHeap {
  import opened Bytes
  import opened OrderedTree
  import opened NameIndex
  import opened Queues

  datatype ZoneState = ZoneState(bootstrapComplete: bool, lastBootstrapAt: int, lastUpdatedAt: int)

  const COLD := ZoneState(false, 0, 0)

  /** A zone that is not complete has no timestamps, and a complete one was
      bootstrapped at some time and updated no earlier. */
  predicate IsNormal(s: ZoneState) {
    if s.bootstrapComplete then s.lastBootstrapAt != 0 && s.lastBootstrapAt <= s.lastUpdatedAt
    else s.lastBootstrapAt == 0 && s.lastUpdatedAt == 0
  }

  function Normalized(s: ZoneState, now: int): ZoneState {
    if !s.bootstrapComplete then
      s.(lastBootstrapAt := 0, lastUpdatedAt := 0)
    else
      var boot := if s.lastBootstrapAt != 0 then s.lastBootstrapAt
                  else if s.lastUpdatedAt != 0 then s.lastUpdatedAt else now;
      s.(lastBootstrapAt := boot, lastUpdatedAt := if s.lastUpdatedAt < boot then boot else s.lastUpdatedAt)
  }

  /** mtime and size of an indexed file. */
  datatype Stat = Stat(mtime: int, size: int)

  /** The hash functions are arbitrary: `long` for paths, `short` for keys, tags
      and the paths of older versions. */
  datatype Hashes = Hashes(long: Str -> nat, short: Str -> nat)

  /** The live slab blocks, by kind. */
  datatype Slab = Slab(zones: set<Addr>, files: set<Addr>, keys: set<Addr>, tags: set<Addr>, members: set<Addr>)

  // The kinds are auxiliary, and so are fileHome, keyHome and tagHome, the zone
  // that holds the block. A file without a key entry is not in keyEntry.
  datatype Heap = Heap(
    slab: Slab,
    zoneQueue: seq<Addr>,
    zoneName: map<Addr, Str>, zoneState: map<Addr, ZoneState>, zoneFiles: map<Addr, seq<Addr>>,
    pathIndex: map<Addr, Tree>, keyIndex: map<Addr, Tree>, tagIndex: map<Addr, Tree>,
    fileHome: map<Addr, Addr>, filePath: map<Addr, Str>, fileKey: map<Addr, Str>, fileStat: map<Addr, Stat>,
    keyEntry: map<Addr, Addr>, fileMembers: map<Addr, seq<Addr>>,
    keyHome: map<Addr, Addr>, keyText: map<Addr, Str>, keyFiles: map<Addr, seq<Addr>>,
    tagHome: map<Addr, Addr>, tagText: map<Addr, Str>, tagMembers: map<Addr, seq<Addr>>,
    memberTag: map<Addr, Addr>, memberFile: map<Addr, Addr>)

  const NEW_HEAP := Heap(Slab({}, {}, {}, {}, {}), [], map[], map[], map[], map[], map[], map[],
    map[], map[], map[], map[], map[], map[], map[], map[], map[], map[], map[], map[], map[], map[])

  // ----- consistency -----

  function Blocks(l: Slab): set<Addr> {
    l.zones + l.files + l.keys + l.tags + l.members
  }

  lemma UnusedAddress(used: set<Addr>) returns (a: Addr)
    ensures a !in used
  {
    a := 0;
    if used != {} {
      a := MaxAddress(used);
      a := a + 1;
    }
  }

  lemma {:induction false} MaxAddress(used: set<Addr>) returns (a: Addr)
    requires used != {}
    ensures a in used && forall b :: b in used ==> b <= a
    decreases |used|
  {
    var one :| one in used;
    a := one;
    if used - {one} != {} {
      var rest := MaxAddress(used - {one});
      a := if rest > one then rest else one;
    }
    forall b | b in used ensures b <= a {
      assert b != one ==> b in used - {one};
    }
  }

  /** A block is of one kind only. */
  ghost predicate Disjoint(l: Slab) {
    && l.zones !! l.files && l.zones !! l.keys && l.zones !! l.tags && l.zones !! l.members
    && l.files !! l.keys && l.files !! l.tags && l.files !! l.members
    && l.keys !! l.tags && l.keys !! l.members && l.tags !! l.members
  }

  /** The live blocks are exactly those that have the fields of their kind, so no
      block is lost and no field belongs to a freed block. */
  ghost predicate Fields(s: Heap) {
    && s.zoneName.Keys == s.slab.zones && s.zoneState.Keys == s.slab.zones && s.zoneFiles.Keys == s.slab.zones
    && s.pathIndex.Keys == s.slab.zones && s.keyIndex.Keys == s.slab.zones && s.tagIndex.Keys == s.slab.zones
    && s.fileHome.Keys == s.slab.files && s.filePath.Keys == s.slab.files && s.fileKey.Keys == s.slab.files
    && s.fileStat.Keys == s.slab.files && s.fileMembers.Keys == s.slab.files
    && s.keyHome.Keys == s.slab.keys && s.keyText.Keys == s.slab.keys && s.keyFiles.Keys == s.slab.keys
    && s.tagHome.Keys == s.slab.tags && s.tagText.Keys == s.slab.tags && s.tagMembers.Keys == s.slab.tags
    && s.memberTag.Keys == s.slab.members && s.memberFile.Keys == s.slab.members
  }

  /** The zone queue holds every zone once, and zone names differ. */
  ghost predicate ZoneLinks(queue: seq<Addr>, name: map<Addr, Str>) {
    && NoDup(queue)
    && (forall z :: z in queue <==> z in name)
    && Injective(name)
  }

  /** A file hangs only on the entry of its own key, in its own zone. */
  ghost predicate KeyMatch(s: Heap) {
    && (forall a :: a in s.keyEntry ==>
          && a in s.fileHome && a in s.fileKey && s.keyEntry[a] in s.keyHome && s.keyEntry[a] in s.keyText
          && s.keyText[s.keyEntry[a]] == s.fileKey[a] && s.keyHome[s.keyEntry[a]] == s.fileHome[a])
    && (forall k :: k in s.keyText ==> s.keyText[k] != [])
  }

  /** A member joins a file and a tag entry of one zone. */
  ghost predicate MemberMatch(s: Heap) {
    forall m :: m in s.memberFile ==>
      && m in s.memberTag && s.memberFile[m] in s.fileHome && s.memberTag[m] in s.tagHome
      && s.tagHome[s.memberTag[m]] == s.fileHome[s.memberFile[m]]
  }

  ghost predicate Shaped(s: Heap) {
    Fields(s) && Disjoint(s.slab) && KeyMatch(s) && MemberMatch(s)
  }

  /** What every relinking step keeps, also between the steps of one operation:
      the five kinds of queue and the three kinds of tree agree with the blocks. */
  ghost predicate Linked(h: Hashes, s: Heap) {
    && Shaped(s)
    && ZoneLinks(s.zoneQueue, s.zoneName)
    && Queued(s.zoneFiles, s.fileHome)
    && Queued(s.keyFiles, s.keyEntry)
    && Queued(s.tagMembers, s.memberTag)
    && Queued(s.fileMembers, s.memberFile)
    && Forest(s.pathIndex, s.fileHome, s.filePath, h.long, h.short)
    && Forest(s.keyIndex, s.keyHome, s.keyText, h.short, h.short)
    && Forest(s.tagIndex, s.tagHome, s.tagText, h.short, h.short)
  }

  /** Files outside `open` are on a key queue iff their key is not empty. */
  ghost predicate KeyComplete(fileKey: map<Addr, Str>, keyEntry: map<Addr, Addr>, open: set<Addr>) {
    forall a :: a in fileKey && a !in open && fileKey[a] != [] ==> a in keyEntry
  }

  function Empty(queues: map<Addr, seq<Addr>>): set<Addr> {
    set o | o in queues && queues[o] == []
  }

  // ----- the map the heap stands for -----

  datatype Meta = Meta(key: Str, tags: seq<Str>, stat: Stat)

  /** A zone name and a path. */
  type Id = (Str, Str)

  function At<T>(m: map<Addr, T>, a: Addr, default: T): T {
    if a in m then m[a] else default
  }

  function IdOf(s: Heap, a: Addr): Id {
    (At(s.zoneName, At(s.fileHome, a, 0), []), At(s.filePath, a, []))
  }

  function TagOf(s: Heap, m: Addr): Str {
    At(s.tagText, At(s.memberTag, m, 0), [])
  }

  function TagsOf(s: Heap, ms: seq<Addr>): seq<Str> {
    seq(|ms|, i requires 0 <= i < |ms| => TagOf(s, ms[i]))
  }

  function MetaOf(s: Heap, a: Addr): Meta {
    Meta(At(s.fileKey, a, []), TagsOf(s, At(s.fileMembers, a, [])), At(s.fileStat, a, Stat(0, 0)))
  }

  ghost predicate Backs(s: Heap, a: Addr, id: Id, open: set<Addr>) {
    a in s.fileHome && a !in open && IdOf(s, a) == id
  }

  /** The files outside `open` are exactly the entries of `view`. */
  ghost predicate Shows(s: Heap, view: map<Id, Meta>, open: set<Addr>) {
    && (forall a :: a in s.fileHome && a !in open ==> IdOf(s, a) in view && view[IdOf(s, a)] == MetaOf(s, a))
    && (forall id :: id in view ==> exists a :: Backs(s, a, id, open))
  }

  /** The invariant between operations. `failures` counts refused allocations. */
  ghost predicate Consistent(h: Hashes, s: Heap, view: map<Id, Meta>, failures: nat) {
    && Linked(h, s)
    && KeyComplete(s.fileKey, s.keyEntry, {})
    && Empty(s.keyFiles) == {}
    && |Empty(s.tagMembers)| <= failures
    && Shows(s, view, {})
  }

  // ----- one relinking step each -----

  function AddZone(s: Heap, z: Addr, name: Str): Heap {
    s.(slab := s.slab.(zones := s.slab.zones + {z}), zoneQueue := s.zoneQueue + [z], zoneName := s.zoneName[z := name],
       zoneState := s.zoneState[z := COLD], zoneFiles := s.zoneFiles[z := []],
       pathIndex := s.pathIndex[z := Leaf], keyIndex := s.keyIndex[z := Leaf], tagIndex := s.tagIndex[z := Leaf])
  }

  function AddFile(s: Heap, a: Addr, z: Addr, path: Str, key: Str, stat: Stat, tree: Tree): Heap
    requires z in s.zoneFiles
  {
    s.(slab := s.slab.(files := s.slab.files + {a}), fileHome := s.fileHome[a := z], filePath := s.filePath[a := path],
       fileKey := s.fileKey[a := key], fileStat := s.fileStat[a := stat], fileMembers := s.fileMembers[a := []],
       pathIndex := s.pathIndex[z := tree], zoneFiles := s.zoneFiles[z := s.zoneFiles[z] + [a]])
  }

  function DropFile(s: Heap, a: Addr, tree: Tree): Heap
    requires a in s.fileHome && s.fileHome[a] in s.zoneFiles
  {
    var z := s.fileHome[a];
    s.(slab := s.slab.(files := s.slab.files - {a}), fileHome := s.fileHome - {a}, filePath := s.filePath - {a},
       fileKey := s.fileKey - {a}, fileStat := s.fileStat - {a}, fileMembers := s.fileMembers - {a},
       pathIndex := s.pathIndex[z := tree], zoneFiles := s.zoneFiles[z := Without(s.zoneFiles[z], a)])
  }

  function AddKeyEntry(s: Heap, k: Addr, z: Addr, key: Str, tree: Tree): Heap {
    s.(slab := s.slab.(keys := s.slab.keys + {k}), keyHome := s.keyHome[k := z], keyText := s.keyText[k := key],
       keyFiles := s.keyFiles[k := []], keyIndex := s.keyIndex[z := tree])
  }

  function DropKeyEntry(s: Heap, k: Addr, tree: Tree): Heap
    requires k in s.keyHome
  {
    s.(slab := s.slab.(keys := s.slab.keys - {k}), keyHome := s.keyHome - {k}, keyText := s.keyText - {k},
       keyFiles := s.keyFiles - {k}, keyIndex := s.keyIndex[s.keyHome[k] := tree])
  }

  function LinkKey(s: Heap, a: Addr, k: Addr): Heap
    requires k in s.keyFiles
  {
    s.(keyEntry := s.keyEntry[a := k], keyFiles := s.keyFiles[k := s.keyFiles[k] + [a]])
  }

  function UnlinkKey(s: Heap, a: Addr, k: Addr): Heap
    requires k in s.keyFiles
  {
    s.(keyEntry := s.keyEntry - {a}, keyFiles := s.keyFiles[k := Without(s.keyFiles[k], a)])
  }

  function AddTagEntry(s: Heap, t: Addr, z: Addr, tag: Str, tree: Tree): Heap {
    s.(slab := s.slab.(tags := s.slab.tags + {t}), tagHome := s.tagHome[t := z], tagText := s.tagText[t := tag],
       tagMembers := s.tagMembers[t := []], tagIndex := s.tagIndex[z := tree])
  }

  function DropTagEntry(s: Heap, t: Addr, tree: Tree): Heap
    requires t in s.tagHome
  {
    s.(slab := s.slab.(tags := s.slab.tags - {t}), tagHome := s.tagHome - {t}, tagText := s.tagText - {t},
       tagMembers := s.tagMembers - {t}, tagIndex := s.tagIndex[s.tagHome[t] := tree])
  }

  function AddMember(s: Heap, m: Addr, t: Addr, a: Addr): Heap
    requires t in s.tagMembers && a in s.fileMembers
  {
    s.(slab := s.slab.(members := s.slab.members + {m}), memberTag := s.memberTag[m := t],
        memberFile := s.memberFile[m := a],
       tagMembers := s.tagMembers[t := s.tagMembers[t] + [m]],
       fileMembers := s.fileMembers[a := s.fileMembers[a] + [m]])
  }

  function RemoveMember(s: Heap, m: Addr, t: Addr, a: Addr): Heap
    requires t in s.tagMembers && a in s.fileMembers
  {
    s.(slab := s.slab.(members := s.slab.members - {m}), memberTag := s.memberTag - {m}, memberFile := s.memberFile - {m},
       tagMembers := s.tagMembers[t := Without(s.tagMembers[t], m)],
       fileMembers := s.fileMembers[a := Without(s.fileMembers[a], m)])
  }

  // ----- what a step leaves alone -----

  /** Only key entries differ. */
  predicate KeyFieldsOnly(s: Heap, s': Heap) {
    s' == s.(slab := s'.slab, keyHome := s'.keyHome, keyText := s'.keyText, keyFiles := s'.keyFiles,
        keyIndex := s'.keyIndex)
  }

  /** Only tag entries differ. */
  predicate TagFieldsOnly(s: Heap, s': Heap) {
    s' == s.(slab := s'.slab, tagHome := s'.tagHome, tagText := s'.tagText, tagMembers := s'.tagMembers,
        tagIndex := s'.tagIndex)
  }

  /** The zones, the files and the data of the files are the same. */
  predicate SameFiles(s: Heap, s': Heap) {
    && s'.zoneName == s.zoneName && s'.zoneState == s.zoneState
    && s'.fileHome == s.fileHome && s'.filePath == s.filePath && s'.fileKey == s.fileKey && s'.fileStat == s.fileStat
  }

  /** The zones, files and key queues are the same, but file a has one more tag. */
  predicate Tagged(s: Heap, s': Heap, a: Addr, tag: Str) {
    && SameFiles(s, s') && s'.keyEntry == s.keyEntry && s'.keyFiles == s.keyFiles && a in s'.fileMembers
    && TagsOf(s', At(s'.fileMembers, a, [])) == TagsOf(s, At(s.fileMembers, a, [])) + [tag]
  }

  /** The zones keep their names and states, except that a touched zone has a new
      update time and that a zone `created` may have come in cold. */
  ghost predicate ZonesTouched(s: Heap, s': Heap, touched: set<Str>, created: Str, now: int) {
    && (forall z :: z in s.zoneName ==> z in s'.zoneName && s'.zoneName[z] == s.zoneName[z])
    && (forall z :: z in s'.zoneName ==> z in s'.zoneState && (z !in s.zoneName ==> s'.zoneName[z] == created))
    && (forall z :: z in s'.zoneName ==>
          var was := if z in s.zoneName then At(s.zoneState, z, COLD) else COLD;
          s'.zoneState[z] == if s'.zoneName[z] in touched then was.(lastUpdatedAt := now) else was)
  }

  ghost predicate HasZone(s: Heap, name: Str) {
    exists z :: z in s.zoneName && s.zoneName[z] == name
  }

  ghost function ZoneOf(s: Heap, name: Str): Addr
    requires HasZone(s, name)
  {
    var z :| z in s.zoneName && s.zoneName[z] == name;
    z
  }

  /** The state of the zone with a name; a zone that does not exist is cold. */
  ghost function StateOf(s: Heap, name: Str): ZoneState {
    if HasZone(s, name) then At(s.zoneState, ZoneOf(s, name), COLD) else COLD
  }
}
