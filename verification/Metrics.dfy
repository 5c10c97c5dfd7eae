/** The statistics walk over the cache nodes, and what purges do to its counts. */
module Metrics {
  import opened Bytes
  import opened CacheState
  import opened CacheNodes

  datatype Class = Gone | Updating | Fresh | Lapsed

  /** A node that is not present does not count, and one that is being updated counts
      as that, whether or not it has expired. */
  function ClassOf(n: Node, now: int): Class {
    if !n.present then Gone
    else if n.updating then Updating
    else if n.validSec > now then Fresh
    else Lapsed
  }

  function InClass(nodes: map<NodeKey, Node>, now: int, c: Class): set<NodeKey> {
    set k | k in nodes && ClassOf(nodes[k], now) == c
  }

  function Present(nodes: map<NodeKey, Node>): set<NodeKey> {
    set k | k in nodes && nodes[k].present
  }

  lemma InClassJoin(a: map<NodeKey, Node>, b: map<NodeKey, Node>, now: int, c: Class)
    requires a.Keys !! b.Keys
    ensures |InClass(a + b, now, c)| == |InClass(a, now, c)| + |InClass(b, now, c)|
  {
    assert InClass(a + b, now, c) == InClass(a, now, c) + InClass(b, now, c);
    assert InClass(a, now, c) !! InClass(b, now, c);
  }

  lemma ForkCounts(t: NodeTree, now: int, c: Class)
    requires t.Fork? && Distinct(t)
    ensures |InClass(NodesIn(t), now, c)|
         == |InClass(NodesIn(t.left), now, c)| + |InClass(NodesIn(t.right), now, c)|
            + if ClassOf(t.node, now) == c then 1 else 0
  {
    hide NodesIn, Distinct, ClassOf;
    var one := map[t.key := t.node];
    ForkNodes(t);
    InClassJoin(NodesIn(t.left), NodesIn(t.right), now, c);
    InClassJoin(NodesIn(t.left) + NodesIn(t.right), one, now, c);
    assert InClass(one, now, c) == if ClassOf(t.node, now) == c then {t.key} else {};
  }

  lemma ForkNodes(t: NodeTree)
    requires t.Fork? && Distinct(t)
    ensures NodesIn(t) == NodesIn(t.left) + NodesIn(t.right) + map[t.key := t.node]
    ensures NodesIn(t.left).Keys !! NodesIn(t.right).Keys && t.key !in NodesIn(t.left) && t.key !in NodesIn(t.right)
    ensures Distinct(t.left) && Distinct(t.right)
  {
  }

  /** walk_rbtree adds to the three counters. */
  method WalkRbtree(t: NodeTree, now: int, valid: nat, expired: nat, updating: nat)
    returns (valid': nat, expired': nat, updating': nat)
    requires Sorted(t)
    ensures valid' == valid + |InClass(NodesIn(t), now, Fresh)|
    ensures expired' == expired + |InClass(NodesIn(t), now, Lapsed)|
    ensures updating' == updating + |InClass(NodesIn(t), now, Updating)|
    decreases t
  {
    hide Distinct, NodesIn, InClass, KeyCmp;
    if t.Sentinel? {
      NothingCounted(t, now);
      return valid, expired, updating;
    }
    SortedDistinct(t);
    ForkCounts(t, now, Fresh);
    ForkCounts(t, now, Lapsed);
    ForkCounts(t, now, Updating);
    valid', expired', updating' := WalkRbtree(t.left, now, valid, expired, updating);
    valid', expired', updating' := WalkRbtree(t.right, now, valid', expired', updating');
    if !t.node.present {
      return;
    }
    if t.node.updating {
      updating' := updating' + 1;
      return;
    }
    if t.node.validSec > now {
      valid' := valid' + 1;
    } else {
      expired' := expired' + 1;
    }
  }

  lemma NothingCounted(t: NodeTree, now: int)
    requires t.Sentinel?
    ensures forall c :: |InClass(NodesIn(t), now, c)| == 0
  {
    forall c ensures InClass(NodesIn(t), now, c) == {} {
    }
  }

  /** Every present node is counted once. */
  lemma CountsPartition(nodes: map<NodeKey, Node>, now: int)
    ensures var f, s, u := InClass(nodes, now, Fresh), InClass(nodes, now, Lapsed), InClass(nodes, now, Updating);
      f !! s && f !! u && s !! u && f + s + u == Present(nodes) && |f| + |s| + |u| == |Present(nodes)|
  {
    var f, s, u := InClass(nodes, now, Fresh), InClass(nodes, now, Lapsed), InClass(nodes, now, Updating);
    assert f !! s && (f + s) !! u;
    assert f + s + u == Present(nodes);
  }

  /** A hard purge takes exactly the purged nodes out of each count. */
  lemma HardPurgeCounts(c: Cache, gone: set<Str>, now: int, kind: Class)
    requires kind != Gone
    ensures InClass(Unlinked(c, gone).nodes, now, kind) == InClass(c.nodes, now, kind) - NodesOf(gone)
  {
    hide NodesOf;
  }

  /** A soft purge turns the purged nodes that were fresh into stale ones, as long as
      the clock is not negative, and leaves alone those that are being updated. */
  lemma SoftPurgeCounts(c: Cache, expired: set<Str>, now: int)
    requires now >= 0
    ensures var nodes' := Expired(c, expired).nodes;
      && InClass(nodes', now, Fresh) == InClass(c.nodes, now, Fresh) - NodesOf(expired)
      && InClass(nodes', now, Lapsed) == InClass(c.nodes, now, Lapsed) + InClass(c.nodes, now, Fresh) * NodesOf(expired)
      && InClass(nodes', now, Updating) == InClass(c.nodes, now, Updating)
      && Present(nodes') == Present(c.nodes)
  {
    hide NodesOf;
  }
}
