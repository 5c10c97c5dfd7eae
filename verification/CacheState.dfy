/** What a purge changes besides the index: the cache files on disk and the nodes
    that nginx keeps for them in shared memory, with their accounted sizes. */
module CacheState {
  import opened Bytes
  import opened FileNames

  /** A cache file: its stored key, the tags its headers carry, and whether its
      header says that it has expired. */
  datatype DiskFile = DiskFile(key: Str, tags: seq<Str>, expired: bool)

  type NodeKey = seq<Octet>

  datatype Node = Node(present: bool, fsSize: nat, validSec: int, updating: bool, lockTime: int)

  datatype Cache = Cache(disk: map<Str, DiskFile>, nodes: map<NodeKey, Node>, size: int)

  /** mark_node_deleted. */
  function Dead(n: Node): Node {
    n.(fsSize := 0, present := false, updating := false)
  }

  /** A purge treats a node that is not present as if it were not there. */
  function DeadIfPresent(n: Node): Node {
    if n.present then Dead(n) else n
  }

  function Stale(n: Node): Node {
    if n.present then n.(validSec := 0) else n
  }

  ghost function MarkAll(nodes: map<NodeKey, Node>, ks: set<NodeKey>): map<NodeKey, Node> {
    map k | k in nodes :: if k in ks then DeadIfPresent(nodes[k]) else nodes[k]
  }

  ghost function StaleAll(nodes: map<NodeKey, Node>, ks: set<NodeKey>): map<NodeKey, Node> {
    map k | k in nodes :: if k in ks then Stale(nodes[k]) else nodes[k]
  }

  function ExpireAll(disk: map<Str, DiskFile>, paths: set<Str>): map<Str, DiskFile> {
    map p | p in disk :: if p in paths then disk[p].(expired := true) else disk[p]
  }

  /** The paths of a list that are on disk. */
  function OnDisk(paths: seq<Str>, disk: map<Str, DiskFile>): set<Str> {
    set p | p in paths && p in disk
  }

  /** The nodes that a set of paths names. */
  ghost function NodesOf(paths: set<Str>): set<NodeKey> {
    set p | p in paths && KeyOf(p).Some? :: KeyOf(p).value
  }

  // ----- sizes -----

  ghost function TotalSize(nodes: map<NodeKey, Node>): nat {
    if nodes == map[] then 0
    else
      var k :| k in nodes;
      nodes[k].fsSize + TotalSize(nodes - {k})
  }

  lemma {:induction false} TotalSizeAt(nodes: map<NodeKey, Node>, k: NodeKey)
    requires k in nodes
    ensures TotalSize(nodes) == nodes[k].fsSize + TotalSize(nodes - {k})
    decreases |nodes|
  {
    var j :| j in nodes && TotalSize(nodes) == nodes[j].fsSize + TotalSize(nodes - {j});
    if j != k {
      TotalSizeAt(nodes - {j}, k);
      TotalSizeAt(nodes - {k}, j);
      assert nodes - {j} - {k} == nodes - {k} - {j};
    }
  }

  lemma TotalSizeUpdate(nodes: map<NodeKey, Node>, k: NodeKey, n: Node)
    requires k in nodes
    ensures TotalSize(nodes[k := n]) == TotalSize(nodes) - nodes[k].fsSize + n.fsSize
  {
    TotalSizeAt(nodes, k);
    TotalSizeAt(nodes[k := n], k);
    assert nodes[k := n] - {k} == nodes - {k};
  }

  /** The accounted size is the sum over all nodes; it cannot be negative then. */
  ghost predicate Accounted(c: Cache) {
    c.size == TotalSize(c.nodes)
  }

  /** The live nodes among ks. */
  function Live(nodes: map<NodeKey, Node>, ks: set<NodeKey>): map<NodeKey, Node> {
    map k | k in nodes && k in ks && nodes[k].present :: nodes[k]
  }

  /** Marking nodes takes exactly the sizes of the live ones off the total. */
  lemma {:induction false} MarkAllSize(nodes: map<NodeKey, Node>, ks: set<NodeKey>)
    ensures TotalSize(MarkAll(nodes, ks)) == TotalSize(nodes) - TotalSize(Live(nodes, ks))
    decreases |nodes|
  {
    if nodes != map[] {
      var k :| k in nodes;
      var rest := nodes - {k};
      MarkAllSize(rest, ks);
      TotalSizeAt(nodes, k);
      TotalSizeAt(MarkAll(nodes, ks), k);
      assert MarkAll(nodes, ks) - {k} == MarkAll(rest, ks);
      if k in ks && nodes[k].present {
        TotalSizeAt(Live(nodes, ks), k);
        assert Live(nodes, ks) - {k} == Live(rest, ks);
      } else {
        assert Live(nodes, ks) == Live(rest, ks);
      }
    } else {
      assert Live(nodes, ks) == map[] && MarkAll(nodes, ks) == map[];
    }
  }

  lemma {:induction false} StaleAllSize(nodes: map<NodeKey, Node>, ks: set<NodeKey>)
    ensures TotalSize(StaleAll(nodes, ks)) == TotalSize(nodes)
    decreases |nodes|
  {
    if nodes != map[] {
      var k :| k in nodes;
      StaleAllSize(nodes - {k}, ks);
      TotalSizeAt(nodes, k);
      TotalSizeAt(StaleAll(nodes, ks), k);
      assert StaleAll(nodes, ks) - {k} == StaleAll(nodes - {k}, ks);
    } else {
      assert StaleAll(nodes, ks) == map[];
    }
  }

  // ----- one path at a time -----

  /** The state after the files `gone` were unlinked and their nodes marked. */
  ghost function Unlinked(c: Cache, gone: set<Str>): Cache {
    var nodes := MarkAll(c.nodes, NodesOf(gone));
    Cache(c.disk - gone, nodes, TotalSize(nodes))
  }

  /** The state after the headers of the files `stale` were expired. */
  ghost function Expired(c: Cache, stale: set<Str>): Cache {
    Cache(ExpireAll(c.disk, stale), StaleAll(c.nodes, NodesOf(stale)), c.size)
  }

  lemma NodesOfMore(paths: set<Str>, p: Str)
    ensures NodesOf(paths + {p}) == if KeyOf(p).Some? then NodesOf(paths) + {KeyOf(p).value} else NodesOf(paths)
  {
  }

  lemma UnlinkedNone(c: Cache)
    requires Accounted(c)
    ensures Unlinked(c, {}) == c
  {
    assert c.disk - {} == c.disk;
    assert MarkAll(c.nodes, NodesOf({})) == c.nodes;
  }

  lemma MarkAllMore(nodes: map<NodeKey, Node>, ks: set<NodeKey>, k: NodeKey)
    ensures MarkAll(nodes, ks + {k})
         == if k in nodes then MarkAll(nodes, ks)[k := DeadIfPresent(MarkAll(nodes, ks)[k])] else MarkAll(nodes, ks)
  {
  }

  lemma UnlinkedMore(c: Cache, gone: set<Str>, p: Str)
    ensures Unlinked(c, gone + {p}).disk == Unlinked(c, gone).disk - {p}
    ensures Unlinked(c, gone + {p}).nodes
         == if KeyOf(p).Some? && KeyOf(p).value in c.nodes
            then Unlinked(c, gone).nodes[KeyOf(p).value := DeadIfPresent(Unlinked(c, gone).nodes[KeyOf(p).value])]
            else Unlinked(c, gone).nodes
  {
    NodesOfMore(gone, p);
    if KeyOf(p).Some? {
      MarkAllMore(c.nodes, NodesOf(gone), KeyOf(p).value);
    }
    assert c.disk - (gone + {p}) == c.disk - gone - {p};
  }

  lemma ExpiredNone(c: Cache)
    ensures Expired(c, {}) == c
  {
    assert ExpireAll(c.disk, {}) == c.disk;
    assert StaleAll(c.nodes, NodesOf({})) == c.nodes;
  }

  lemma ExpiredMore(c: Cache, stale: set<Str>, p: Str)
    requires p in c.disk
    ensures Expired(c, stale + {p}).disk == Expired(c, stale).disk[p := Expired(c, stale).disk[p].(expired := true)]
    ensures Expired(c, stale + {p}).nodes
         == if KeyOf(p).Some? && KeyOf(p).value in c.nodes
            then Expired(c, stale).nodes[KeyOf(p).value := Stale(Expired(c, stale).nodes[KeyOf(p).value])]
            else Expired(c, stale).nodes
  {
    NodesOfMore(stale, p);
  }

  lemma OnDiskMore(paths: seq<Str>, p: Str, disk: map<Str, DiskFile>)
    requires p !in paths
    ensures OnDisk(paths + [p], disk) == if p in disk then OnDisk(paths, disk) + {p} else OnDisk(paths, disk)
    ensures |OnDisk(paths + [p], disk)| == |OnDisk(paths, disk)| + if p in disk then 1 else 0
  {
  }

  // ----- a list of paths, one by one -----

  /** c' is c after the file of p, if there is one, was unlinked. */
  ghost predicate UnlinkStep(c: Cache, p: Str, c': Cache) {
    && Accounted(c')
    && c'.disk == c.disk - {p}
    && c'.nodes == if p in c.disk && KeyOf(p).Some? && KeyOf(p).value in c.nodes
                   then c.nodes[KeyOf(p).value := DeadIfPresent(c.nodes[KeyOf(p).value])]
                   else c.nodes
  }

  /** c' is c after the header of the file of p, if there is one, was expired. */
  ghost predicate ExpireStep(c: Cache, p: Str, c': Cache) {
    && c'.size == c.size
    && c'.disk == (if p in c.disk then c.disk[p := c.disk[p].(expired := true)] else c.disk)
    && c'.nodes == if p in c.disk && KeyOf(p).Some? && KeyOf(p).value in c.nodes
                   then c.nodes[KeyOf(p).value := Stale(c.nodes[KeyOf(p).value])]
                   else c.nodes
  }

  lemma UnlinkedStep(c0: Cache, paths: seq<Str>, c: Cache, p: Str, c': Cache)
    requires c == Unlinked(c0, OnDisk(paths, c0.disk)) && p !in paths && UnlinkStep(c, p, c')
    ensures p in c.disk <==> p in c0.disk
    ensures c' == Unlinked(c0, OnDisk(paths + [p], c0.disk))
  {
    hide MarkAll, NodesOf, TotalSize;
    UnlinkedDisk(c0, paths, p);
    OnDiskMore(paths, p, c0.disk);
    if p in c0.disk {
      UnlinkedOne(c0, OnDisk(paths, c0.disk), c, p, c');
    } else {
      assert c.disk - {p} == c.disk;
      UnlinkedSize(c0, OnDisk(paths, c0.disk));
    }
  }

  lemma UnlinkedOne(c0: Cache, gone: set<Str>, c: Cache, p: Str, c': Cache)
    requires c == Unlinked(c0, gone) && p !in gone && p in c0.disk && UnlinkStep(c, p, c')
    ensures c' == Unlinked(c0, gone + {p})
  {
    hide MarkAll, NodesOf, TotalSize;
    UnlinkedSize(c0, gone + {p});
    UnlinkedSize(c0, gone);
    UnlinkedMore(c0, gone, p);
    UnlinkedKeys(c0, gone);
  }

  lemma ExpiredOne(c0: Cache, stale: set<Str>, c: Cache, p: Str, c': Cache)
    requires c == Expired(c0, stale) && p in c0.disk && ExpireStep(c, p, c')
    ensures c' == Expired(c0, stale + {p})
  {
    hide StaleAll, NodesOf;
    ExpiredKeys(c0, stale);
    ExpiredMore(c0, stale, p);
  }

  lemma UnlinkedDisk(c: Cache, paths: seq<Str>, p: Str)
    requires p !in paths
    ensures p in Unlinked(c, OnDisk(paths, c.disk)).disk <==> p in c.disk
  {
  }

  lemma UnlinkedKeys(c: Cache, gone: set<Str>)
    ensures Unlinked(c, gone).nodes.Keys == c.nodes.Keys
  {
  }

  lemma UnlinkedSize(c: Cache, gone: set<Str>)
    ensures Accounted(Unlinked(c, gone)) && Unlinked(c, gone).disk == c.disk - gone
  {
  }

  lemma ExpiredStep(c0: Cache, paths: seq<Str>, c: Cache, p: Str, c': Cache)
    requires c == Expired(c0, OnDisk(paths, c0.disk)) && p !in paths && ExpireStep(c, p, c')
    ensures p in c.disk <==> p in c0.disk
    ensures c' == Expired(c0, OnDisk(paths + [p], c0.disk))
  {
    hide StaleAll, NodesOf;
    OnDiskMore(paths, p, c0.disk);
    ExpiredKeys(c0, OnDisk(paths, c0.disk));
    if p in c0.disk {
      ExpiredOne(c0, OnDisk(paths, c0.disk), c, p, c');
    }
  }

  lemma ExpiredKeys(c: Cache, stale: set<Str>)
    ensures Expired(c, stale).nodes.Keys == c.nodes.Keys && Expired(c, stale).disk.Keys == c.disk.Keys
  {
  }

  lemma ExpiredSize(c: Cache, stale: set<Str>)
    requires Accounted(c)
    ensures Accounted(Expired(c, stale))
  {
    StaleAllSize(c.nodes, NodesOf(stale));
  }
}
