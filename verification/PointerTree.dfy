/** The linked form of the search trees: nodes at addresses with left, right and
    parent links and a shared sentinel. The in-place insertion walk and the lookup
    descent are proved against the shapes of OrderedTree. */
module PointerTree {
  import opened Bytes
  import opened OrderedTree

  datatype Link = Sentinel | To(at: Addr)

  datatype RbNode = RbNode(key: nat, name: Str, parent: Link, left: Link, right: Link)

  function Addrs(t: Tree): set<Addr> {
    set x | x in InOrder(t) :: x.addr
  }

  /** The links below `link` form exactly the tree t, parent links included. */
  predicate Represents(nodes: map<Addr, RbNode>, link: Link, parent: Link, t: Tree)
    decreases t
  {
    match t
    case Leaf => link == Sentinel
    case Node(l, s, r) =>
      && link == To(s.addr) && s.addr in nodes
      && nodes[s.addr].key == s.hash && nodes[s.addr].name == s.name && nodes[s.addr].parent == parent
      && Represents(nodes, nodes[s.addr].left, link, l)
      && Represents(nodes, nodes[s.addr].right, link, r)
  }

  lemma {:induction false} SplitDistinct(t: Tree)
    requires t.Node? && DistinctAddrs(InOrder(t))
    ensures DistinctAddrs(InOrder(t.left)) && DistinctAddrs(InOrder(t.right))
    ensures Addrs(t) == Addrs(t.left) + {t.slot.addr} + Addrs(t.right)
    ensures t.slot.addr !in Addrs(t.left) && t.slot.addr !in Addrs(t.right)
    ensures Addrs(t.left) !! Addrs(t.right)
  {
    DistinctConcat(InOrder(t.left) + [t.slot], InOrder(t.right));
    DistinctConcat(InOrder(t.left), [t.slot]);
    assert t.slot in InOrder(t.left) + [t.slot];
    assert forall x :: x in InOrder(t) <==> x in InOrder(t.left) || x == t.slot || x in InOrder(t.right);
  }

  lemma {:induction false} RepresentsFrame(nodes: map<Addr, RbNode>, other: map<Addr, RbNode>,
                                           link: Link, parent: Link, t: Tree)
    requires Represents(nodes, link, parent, t) && DistinctAddrs(InOrder(t))
    requires forall a :: a in Addrs(t) && a in nodes ==> a in other && other[a] == nodes[a]
    ensures Represents(other, link, parent, t)
    decreases t
  {
    if t.Node? {
      SplitDistinct(t);
      RepresentsFrame(nodes, other, nodes[t.slot.addr].left, link, t.left);
      RepresentsFrame(nodes, other, nodes[t.slot.addr].right, link, t.right);
    }
  }

  /** The node insert_generic stops at, and whether it hangs the new one left. */
  function Descent(t: Tree, x: Slot): (Addr, bool)
    requires t.Node?
  {
    if SlotCmp(x, t.slot) < 0 then
      if t.left.Leaf? then (t.slot.addr, true) else Descent(t.left, x)
    else
      if t.right.Leaf? then (t.slot.addr, false) else Descent(t.right, x)
  }

  lemma {:induction false} DescentInside(t: Tree, x: Slot)
    requires t.Node? && DistinctAddrs(InOrder(t))
    ensures Descent(t, x).0 in Addrs(t)
  {
    SplitDistinct(t);
    if SlotCmp(x, t.slot) < 0 {
      if t.left.Node? { DescentInside(t.left, x); }
    } else {
      if t.right.Node? { DescentInside(t.right, x); }
    }
  }

  function Attached(nodes: map<Addr, RbNode>, at: (Addr, bool), x: Slot): map<Addr, RbNode>
    requires at.0 in nodes
  {
    var parent := nodes[at.0];
    nodes[at.0 := if at.1 then parent.(left := To(x.addr)) else parent.(right := To(x.addr))]
         [x.addr := RbNode(x.hash, x.name, To(at.0), Sentinel, Sentinel)]
  }

  lemma {:induction false} RepresentedLive(nodes: map<Addr, RbNode>, link: Link, parent: Link, t: Tree)
    requires Represents(nodes, link, parent, t)
    ensures forall a :: a in Addrs(t) ==> a in nodes
    decreases t
  {
    if t.Node? {
      RepresentedLive(nodes, nodes[t.slot.addr].left, link, t.left);
      RepresentedLive(nodes, nodes[t.slot.addr].right, link, t.right);
    }
  }

  /** Writing one child link at the end of the descent turns the linked form of t
      into the linked form of Insert(t, x). */
  lemma {:induction false} AttachRepresents(nodes: map<Addr, RbNode>, link: Link, parent: Link, t: Tree, x: Slot)
    requires Represents(nodes, link, parent, t) && t.Node?
    requires DistinctAddrs(InOrder(t)) && x.addr !in Addrs(t)
    ensures Descent(t, x).0 in nodes
    ensures Represents(Attached(nodes, Descent(t, x), x), link, parent, Insert(t, x))
    decreases t
  {
    SplitDistinct(t);
    DescentInside(t, x);
    RepresentedLive(nodes, link, parent, t);
    var n := nodes[t.slot.addr];
    var after := Attached(nodes, Descent(t, x), x);
    if SlotCmp(x, t.slot) < 0 {
      if t.left.Node? {
        DescentInside(t.left, x);
        AttachRepresents(nodes, n.left, link, t.left, x);
      }
      RepresentsFrame(nodes, after, n.right, link, t.right);
    } else {
      if t.right.Node? {
        DescentInside(t.right, x);
        AttachRepresents(nodes, n.right, link, t.right, x);
      }
      RepresentsFrame(nodes, after, n.left, link, t.left);
    }
  }

  /** The links below the roots form exactly these trees, one for each zone. */
  ghost predicate RepresentsAll(nodes: map<Addr, RbNode>, roots: map<Addr, Link>, trees: map<Addr, Tree>) {
    && roots.Keys == trees.Keys
    && forall z :: z in trees ==> Represents(nodes, roots[z], Sentinel, trees[z])
  }

  /** The trees of all zones over one kind of block. */
  class RbForest {
    var roots: map<Addr, Link>
    var nodes: map<Addr, RbNode>

    constructor ()
      ensures roots == map[] && nodes == map[]
    {
      roots, nodes := map[], map[];
    }

    /** Hangs `node`, whose key and string are set, below the root node `temp`. */
    method InsertGeneric(temp: Addr, node: Addr, ghost t: Tree)
      requires Represents(nodes, To(temp), Sentinel, t) && DistinctAddrs(InOrder(t))
      requires node in nodes && node !in Addrs(t)
      modifies this`nodes
      ensures nodes.Keys == old(nodes.Keys)
      ensures Represents(nodes, To(temp), Sentinel, Insert(t, Slot(old(nodes)[node].key, old(nodes)[node].name, node)))
      ensures forall a :: a in nodes && a !in Addrs(t) && a != node ==> nodes[a] == old(nodes)[a]
    {
      var needle := nodes[node].name;
      var key := nodes[node].key;
      ghost var x := Slot(key, needle, node);
      ghost var sub, up := t, Sentinel;
      var at := temp;
      DescentInside(t, x);
      RepresentedLive(nodes, To(temp), Sentinel, t);
      while true
        invariant nodes == old(nodes)
        invariant sub.Node? && at == sub.slot.addr && Represents(nodes, To(at), up, sub)
        invariant DistinctAddrs(InOrder(sub))
        invariant Descent(sub, x) == Descent(t, x)
        decreases sub
      {
        SplitDistinct(sub);
        if key < nodes[at].key || (key == nodes[at].key && Cmp(needle, nodes[at].name) < 0) {
          if nodes[at].left == Sentinel {
            nodes := nodes[at := nodes[at].(left := To(node))];
            break;
          }
          sub, up := sub.left, To(at);
          at := nodes[at].left.at;
        } else {
          if nodes[at].right == Sentinel {
            nodes := nodes[at := nodes[at].(right := To(node))];
            break;
          }
          sub, up := sub.right, To(at);
          at := nodes[at].right.at;
        }
      }
      nodes := nodes[node := RbNode(key, needle, To(at), Sentinel, Sentinel)];
      AttachRepresents(old(nodes), To(temp), Sentinel, t, x);
      assert nodes == Attached(old(nodes), Descent(t, x), x);
    }

    /** The linked descent finds what the shape holds. */
    method LookupGeneric(root: Link, hash: nat, needle: Str, ghost t: Tree) returns (found: Option<Addr>)
      requires Represents(nodes, root, Sentinel, t) && Ordered(InOrder(t))
      ensures found.Some? ==> Holds(t, hash, needle, found.value)
      ensures found.None? ==> forall a :: !Holds(t, hash, needle, a)
    {
      var node := root;
      ghost var sub, up := t, Sentinel;
      while node != Sentinel
        invariant Represents(nodes, node, up, sub) && Ordered(InOrder(sub))
        invariant forall x :: x in InOrder(sub) ==> x in InOrder(t)
        invariant forall a :: Holds(t, hash, needle, a) ==> Holds(sub, hash, needle, a)
        decreases sub
      {
        var n := nodes[node.at];
        SplitAt(sub);
        CmpZero(needle, n.name);
        CmpSwap(needle, n.name);
        forall a {
          SlotCmpLaws(sub.slot, Slot(hash, needle, a), sub.slot);
        }
        var rc := Cmp(needle, n.name);
        if hash == n.key && rc == 0 {
          assert sub.slot == Slot(hash, needle, node.at);
          return Some(node.at);
        }
        up := node;
        if hash < n.key || (hash == n.key && rc < 0) {
          node := n.left;
          sub := sub.left;
        } else {
          node := n.right;
          sub := sub.right;
        }
      }
      return None;
    }
  }
}
