/** The three tree indexes of the heap in linked form. Looking a name up over the links
    and entering a block there are the same as over the trees that the heap stores. */
module LinkedIndex {
  import opened Bytes
  import opened OrderedTree
  import opened NameIndex
  import opened PointerTree
  import opened SharedHeap
  import opened HeapSteps

  lemma TreeAddrs(trees: map<Addr, Tree>, home: map<Addr, Addr>, name: map<Addr, Str>,
                  current: Str -> nat, legacy: Str -> nat, z: Addr)
    requires Forest(trees, home, name, current, legacy) && z in trees
    ensures Ordered(InOrder(trees[z])) && DistinctAddrs(InOrder(trees[z]))
    ensures forall a :: a in Addrs(trees[z]) <==> a in home && home[a] == z
  {
    assert Indexes(trees[z], Names(home, name, z), current, legacy);
    hide Lists, Indexes;
    forall a ensures a in Addrs(trees[z]) <==> a in home && home[a] == z {
      ForestHolds(trees, home, name, current, legacy, z, a);
    }
  }

  lemma OtherTree(nodes: map<Addr, RbNode>, root: Link, trees: map<Addr, Tree>, home: map<Addr, Addr>,
                  name: map<Addr, Str>, current: Str -> nat, legacy: Str -> nat, z: Addr, a: Addr,
                  nodes': map<Addr, RbNode>, y: Addr)
    requires Forest(trees, home, name, current, legacy) && z in trees && y in trees && y != z && a !in home
    requires Represents(nodes, root, Sentinel, trees[y])
    requires forall b :: b in nodes && b !in Addrs(trees[z]) && b != a ==> b in nodes' && nodes'[b] == nodes[b]
    ensures Represents(nodes', root, Sentinel, trees[y])
  {
    hide Forest, Represents, Addrs, InOrder;
    TreeAddrs(trees, home, name, current, legacy, z);
    TreeAddrs(trees, home, name, current, legacy, y);
    RepresentsFrame(nodes, nodes', root, Sentinel, trees[y]);
  }

  /** One tree changed, and no node of another one. */
  lemma OneTreeChanged(nodes: map<Addr, RbNode>, roots: map<Addr, Link>, trees: map<Addr, Tree>,
                       home: map<Addr, Addr>, name: map<Addr, Str>, current: Str -> nat, legacy: Str -> nat,
                       z: Addr, a: Addr, nodes': map<Addr, RbNode>, root': Link, tree': Tree)
    requires RepresentsAll(nodes, roots, trees) && Forest(trees, home, name, current, legacy) && z in trees && a !in home
    requires Represents(nodes', root', Sentinel, tree')
    requires forall b :: b in nodes && b !in Addrs(trees[z]) && b != a ==> b in nodes' && nodes'[b] == nodes[b]
    ensures RepresentsAll(nodes', roots[z := root'], trees[z := tree'])
  {
    hide Forest, Represents, Addrs;
    forall y | y in trees && y != z ensures Represents(nodes', roots[y], Sentinel, trees[y]) {
      OtherTree(nodes, roots[y], trees, home, name, current, legacy, z, a, nodes', y);
    }
  }

  /** Fills the node in and gives it to ngx_rbtree_insert, which asks insert_generic
      for its place unless the tree is empty. */
  method Enter(f: RbForest, z: Addr, a: Addr, n: Str, ghost trees: map<Addr, Tree>, ghost home: map<Addr, Addr>,
               ghost name: map<Addr, Str>, current: Str -> nat, ghost legacy: Str -> nat)
    requires RepresentsAll(f.nodes, f.roots, trees) && Forest(trees, home, name, current, legacy)
    requires z in trees && a !in home
    modifies f
    ensures RepresentsAll(f.nodes, f.roots, trees[z := Insert(trees[z], Slot(current(n), n, a))])
  {
    hide Forest;
    TreeAddrs(trees, home, name, current, legacy, z);
    ghost var nodes, x := f.nodes, Slot(current(n), n, a);
    f.nodes := f.nodes[a := RbNode(current(n), n, Sentinel, Sentinel, Sentinel)];
    var root := f.roots[z];
    if root == Sentinel {
      root := To(a);
    } else {
      RepresentsFrame(nodes, f.nodes, root, Sentinel, trees[z]);
      f.InsertGeneric(root.at, a, trees[z]);
    }
    OneTreeChanged(nodes, f.roots, trees, home, name, current, legacy, z, a, f.nodes, root, Insert(trees[z], x));
    f.roots := f.roots[z := root];
  }

  /** Probes the current hash over the links, and then the legacy one. */
  method Find(f: RbForest, z: Addr, n: Str, ghost trees: map<Addr, Tree>, ghost home: map<Addr, Addr>,
              ghost name: map<Addr, Str>, current: Str -> nat, legacy: Str -> nat) returns (found: Option<Addr>)
    requires RepresentsAll(f.nodes, f.roots, trees) && Forest(trees, home, name, current, legacy) && z in trees
    ensures found.Some? ==> found.value in home && home[found.value] == z
                            && found.value in name && name[found.value] == n
    ensures found.None? ==> n !in Names(home, name, z).Values
  {
    TreeAddrs(trees, home, name, current, legacy, z);
    ghost var names := Names(home, name, z);
    hide Lists, Indexes;
    forall a {
      ProbesMeetNames(trees[z], names, current, legacy, n, a);
    }
    found := f.LookupGeneric(f.roots[z], current(n), n, trees[z]);
    if found.Some? || legacy(n) == current(n) {
      return found;
    }
    found := f.LookupGeneric(f.roots[z], legacy(n), n, trees[z]);
  }

  lemma Trees(h: Hashes, s: Heap, z: Addr)
    requires Linked(h, s) && z in s.zoneName
    ensures z in s.pathIndex && z in s.keyIndex && z in s.tagIndex && z in s.zoneFiles
    ensures Forest(s.pathIndex, s.fileHome, s.filePath, h.long, h.short)
    ensures Forest(s.keyIndex, s.keyHome, s.keyText, h.short, h.short)
    ensures Forest(s.tagIndex, s.tagHome, s.tagText, h.short, h.short)
    ensures s.fileHome.Keys == s.slab.files && s.keyHome.Keys == s.slab.keys && s.tagHome.Keys == s.slab.tags
  {
    hide Forest;
  }

  lemma NewBlock(s: Heap, a: Addr)
    requires a !in Blocks(s.slab)
    ensures a !in s.slab.files && a !in s.slab.keys && a !in s.slab.tags
  {
  }

  lemma NewRoot(nodes: map<Addr, RbNode>, roots: map<Addr, Link>, trees: map<Addr, Tree>, z: Addr)
    requires RepresentsAll(nodes, roots, trees)
    ensures RepresentsAll(nodes, roots[z := Sentinel], trees[z := Leaf])
  {
  }

  lemma ZoneTrees(h: Hashes, s: Heap, z: Addr, name: Str)
    requires Linked(h, s) && z !in Blocks(s.slab) && name !in s.zoneName.Values
    ensures var s' := AddZone(s, z, name);
      && Linked(h, s') && s'.pathIndex == s.pathIndex[z := Leaf]
      && s'.keyIndex == s.keyIndex[z := Leaf] && s'.tagIndex == s.tagIndex[z := Leaf]
  {
    hide Linked, Blocks;
    AddZoneLinked(h, s, z, name);
  }

  lemma FileTrees(h: Hashes, s: Heap, a: Addr, z: Addr, path: Str, key: Str, stat: Stat)
    requires Linked(h, s) && a !in Blocks(s.slab) && z in s.zoneName && z in s.zoneFiles && z in s.pathIndex
    requires path !in Names(s.fileHome, s.filePath, z).Values
    ensures var tree := Insert(s.pathIndex[z], Slot(h.long(path), path, a));
      var s' := AddFile(s, a, z, path, key, stat, tree);
      && Linked(h, s') && s'.pathIndex == s.pathIndex[z := tree] && s'.keyIndex == s.keyIndex && s'.tagIndex == s.tagIndex
  {
    hide Linked, Blocks, Names, Insert;
    AddFileLinked(h, s, a, z, path, key, stat, Insert(s.pathIndex[z], Slot(h.long(path), path, a)));
  }

  lemma KeyTrees(h: Hashes, s: Heap, a: Addr, z: Addr, key: Str)
    requires Linked(h, s) && a !in Blocks(s.slab) && z in s.zoneName && z in s.keyIndex
    requires key != [] && key !in Names(s.keyHome, s.keyText, z).Values
    ensures var tree := Insert(s.keyIndex[z], Slot(h.short(key), key, a));
      var s' := AddKeyEntry(s, a, z, key, tree);
      && Linked(h, s') && s'.pathIndex == s.pathIndex && s'.keyIndex == s.keyIndex[z := tree] && s'.tagIndex == s.tagIndex
  {
    hide Linked, Blocks, Names, Insert;
    AddKeyEntryLinked(h, s, a, z, key, Insert(s.keyIndex[z], Slot(h.short(key), key, a)));
  }

  lemma TagTrees(h: Hashes, s: Heap, a: Addr, z: Addr, tag: Str)
    requires Linked(h, s) && a !in Blocks(s.slab) && z in s.zoneName && z in s.tagIndex
    requires tag !in Names(s.tagHome, s.tagText, z).Values
    ensures var tree := Insert(s.tagIndex[z], Slot(h.short(tag), tag, a));
      var s' := AddTagEntry(s, a, z, tag, tree);
      && Linked(h, s') && s'.pathIndex == s.pathIndex && s'.keyIndex == s.keyIndex && s'.tagIndex == s.tagIndex[z := tree]
  {
    hide Linked, Blocks, Names, Insert;
    AddTagEntryLinked(h, s, a, z, tag, Insert(s.tagIndex[z], Slot(h.short(tag), tag, a)));
  }

  /** The trees in linked form beside the heap that they stand for. */
  class LinkedTrees {
    const hashes: Hashes
    const paths: RbForest
    const keys: RbForest
    const tags: RbForest
    ghost var heap: Heap

    ghost predicate Valid()
      reads this, paths, keys, tags
    {
      && paths != keys && paths != tags && keys != tags && Linked(hashes, heap)
      && RepresentsAll(paths.nodes, paths.roots, heap.pathIndex)
      && RepresentsAll(keys.nodes, keys.roots, heap.keyIndex)
      && RepresentsAll(tags.nodes, tags.roots, heap.tagIndex)
    }

    constructor (hashes: Hashes)
      ensures Valid() && heap == NEW_HEAP && this.hashes == hashes
      ensures fresh(paths) && fresh(keys) && fresh(tags)
    {
      this.hashes := hashes;
      paths := new RbForest();
      keys := new RbForest();
      tags := new RbForest();
      heap := NEW_HEAP;
    }

    /** A new zone has three empty trees. */
    method EnterZone(z: Addr, ghost name: Str)
      requires Valid() && z !in Blocks(heap.slab) && name !in heap.zoneName.Values
      modifies this`heap, paths, keys, tags
      ensures Valid() && heap == AddZone(old(heap), z, name)
    {
      hide Linked, AddZone, RepresentsAll, Blocks;
      ZoneTrees(hashes, heap, z, name);
      NewRoot(paths.nodes, paths.roots, heap.pathIndex, z);
      NewRoot(keys.nodes, keys.roots, heap.keyIndex, z);
      NewRoot(tags.nodes, tags.roots, heap.tagIndex, z);
      heap := AddZone(heap, z, name);
      paths.roots := paths.roots[z := Sentinel];
      keys.roots := keys.roots[z := Sentinel];
      tags.roots := tags.roots[z := Sentinel];
    }

    method EnterFile(a: Addr, z: Addr, path: Str, ghost key: Str, ghost stat: Stat)
      requires Valid() && a !in Blocks(heap.slab) && z in heap.zoneName
      requires path !in Names(heap.fileHome, heap.filePath, z).Values
      modifies this`heap, paths
      ensures Valid()
      ensures heap == AddFile(old(heap), a, z, path, key, stat,
                          Insert(old(heap).pathIndex[z], Slot(hashes.long(path), path, a)))
    {
      hide Linked, Forest, Names, RepresentsAll, Blocks, Insert, AddFile, AddKeyEntry, AddTagEntry;
      Trees(hashes, heap, z);
      NewBlock(heap, a);
      ghost var tree := Insert(heap.pathIndex[z], Slot(hashes.long(path), path, a));
      FileTrees(hashes, heap, a, z, path, key, stat);
      Enter(paths, z, a, path, heap.pathIndex, heap.fileHome, heap.filePath, hashes.long, hashes.short);
      heap := AddFile(heap, a, z, path, key, stat, tree);
    }

    method EnterKey(a: Addr, z: Addr, key: Str)
      requires Valid() && a !in Blocks(heap.slab) && z in heap.zoneName
      requires key != [] && key !in Names(heap.keyHome, heap.keyText, z).Values
      modifies this`heap, keys
      ensures Valid()
      ensures heap == AddKeyEntry(old(heap), a, z, key,
                          Insert(old(heap).keyIndex[z], Slot(hashes.short(key), key, a)))
    {
      hide Linked, Forest, Names, RepresentsAll, Blocks, Insert, AddFile, AddKeyEntry, AddTagEntry;
      Trees(hashes, heap, z);
      NewBlock(heap, a);
      ghost var tree := Insert(heap.keyIndex[z], Slot(hashes.short(key), key, a));
      KeyTrees(hashes, heap, a, z, key);
      Enter(keys, z, a, key, heap.keyIndex, heap.keyHome, heap.keyText, hashes.short, hashes.short);
      heap := AddKeyEntry(heap, a, z, key, tree);
    }

    method EnterTag(a: Addr, z: Addr, tag: Str)
      requires Valid() && a !in Blocks(heap.slab) && z in heap.zoneName
      requires tag !in Names(heap.tagHome, heap.tagText, z).Values
      modifies this`heap, tags
      ensures Valid()
      ensures heap == AddTagEntry(old(heap), a, z, tag,
                          Insert(old(heap).tagIndex[z], Slot(hashes.short(tag), tag, a)))
    {
      hide Linked, Forest, Names, RepresentsAll, Blocks, Insert, AddFile, AddKeyEntry, AddTagEntry;
      Trees(hashes, heap, z);
      NewBlock(heap, a);
      ghost var tree := Insert(heap.tagIndex[z], Slot(hashes.short(tag), tag, a));
      TagTrees(hashes, heap, a, z, tag);
      Enter(tags, z, a, tag, heap.tagIndex, heap.tagHome, heap.tagText, hashes.short, hashes.short);
      heap := AddTagEntry(heap, a, z, tag, tree);
    }

    method FindFile(z: Addr, path: Str) returns (found: Option<Addr>)
      requires Valid() && z in heap.zoneName
      ensures found.Some? ==> found.value in heap.fileHome && heap.fileHome[found.value] == z
                              && found.value in heap.filePath && heap.filePath[found.value] == path
      ensures found.None? ==> path !in Names(heap.fileHome, heap.filePath, z).Values
    {
      hide Linked, Forest, Names, RepresentsAll;
      Trees(hashes, heap, z);
      found := Find(paths, z, path, heap.pathIndex, heap.fileHome, heap.filePath, hashes.long, hashes.short);
    }

    method FindKey(z: Addr, key: Str) returns (found: Option<Addr>)
      requires Valid() && z in heap.zoneName
      ensures found.Some? ==> found.value in heap.keyHome && heap.keyHome[found.value] == z
                              && found.value in heap.keyText && heap.keyText[found.value] == key
      ensures found.None? ==> key !in Names(heap.keyHome, heap.keyText, z).Values
    {
      hide Linked, Forest, Names, RepresentsAll;
      Trees(hashes, heap, z);
      found := Find(keys, z, key, heap.keyIndex, heap.keyHome, heap.keyText, hashes.short, hashes.short);
    }

    method FindTag(z: Addr, tag: Str) returns (found: Option<Addr>)
      requires Valid() && z in heap.zoneName
      ensures found.Some? ==> found.value in heap.tagHome && heap.tagHome[found.value] == z
                              && found.value in heap.tagText && heap.tagText[found.value] == tag
      ensures found.None? ==> tag !in Names(heap.tagHome, heap.tagText, z).Values
    {
      hide Linked, Forest, Names, RepresentsAll;
      Trees(hashes, heap, z);
      found := Find(tags, z, tag, heap.tagIndex, heap.tagHome, heap.tagText, hashes.short, hashes.short);
    }
  }
}
