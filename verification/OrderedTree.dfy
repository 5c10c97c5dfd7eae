/** Search trees in (hash, string) order, as the path, key and tag indexes keep
    them. The shape of a tree is a value here; PointerTree.dfy stores it in linked
    nodes. nginx rebalances after every change, so only facts that depend on the
    in-order sequence alone may be relied upon. */
module OrderedTree {
  import opened Bytes

  type Addr = nat

  /** What a node shows the generic routines: its hash, its string and its block. */
  datatype Slot = Slot(hash: nat, name: Str, addr: Addr)

  datatype Tree = Leaf | Node(left: Tree, slot: Slot, right: Tree)

  function InOrder(t: Tree): seq<Slot> {
    match t
    case Leaf => []
    case Node(l, s, r) => InOrder(l) + [s] + InOrder(r)
  }

  function SlotCmp(x: Slot, y: Slot): int {
    if x.hash < y.hash then -1
    else if x.hash > y.hash then 1
    else Cmp(x.name, y.name)
  }

  lemma {:induction false} SlotCmpLaws(x: Slot, y: Slot, z: Slot)
    ensures SlotCmp(x, y) == 0 <==> x.hash == y.hash && x.name == y.name
    ensures SlotCmp(x, y) == -SlotCmp(y, x)
    ensures SlotCmp(x, y) <= 0 && SlotCmp(y, z) <= 0 ==> SlotCmp(x, z) <= 0
    ensures SlotCmp(x, y) < 0 && SlotCmp(y, z) <= 0 ==> SlotCmp(x, z) < 0
    ensures SlotCmp(x, y) <= 0 && SlotCmp(y, z) < 0 ==> SlotCmp(x, z) < 0
  {
    CmpZero(x.name, y.name);
    CmpSwap(x.name, y.name);
    if Cmp(x.name, y.name) <= 0 && Cmp(y.name, z.name) <= 0 {
      CmpTransitive(x.name, y.name, z.name);
    }
  }

  predicate Ordered(s: seq<Slot>) {
    s != [] ==> (forall y :: y in s[1..] ==> SlotCmp(s[0], y) <= 0) && Ordered(s[1..])
  }

  predicate DistinctAddrs(s: seq<Slot>) {
    s != [] ==> (forall y :: y in s[1..] ==> s[0].addr != y.addr) && DistinctAddrs(s[1..])
  }

  lemma {:induction false} OrderedConcat(a: seq<Slot>, b: seq<Slot>)
    ensures Ordered(a + b) <==>
            Ordered(a) && Ordered(b) && forall x, y :: x in a && y in b ==> SlotCmp(x, y) <= 0
  {
    if a == [] {
      assert a + b == b;
    } else {
      OrderedConcat(a[1..], b);
      assert (a + b)[1..] == a[1..] + b;
      assert a == [a[0]] + a[1..];
      assert forall y :: y in (a + b)[1..] <==> y in a[1..] || y in b;
      assert a[0] in a;
    }
  }

  lemma {:induction false} DistinctConcat(a: seq<Slot>, b: seq<Slot>)
    ensures DistinctAddrs(a + b) <==>
            DistinctAddrs(a) && DistinctAddrs(b) && forall x, y :: x in a && y in b ==> x.addr != y.addr
  {
    if a == [] {
      assert a + b == b;
    } else {
      DistinctConcat(a[1..], b);
      assert (a + b)[1..] == a[1..] + b;
      assert a == [a[0]] + a[1..];
    }
  }

  // ----- lookup -----

  /** What every node of a subtree in a search tree satisfies. */
  lemma {:induction false} SplitAt(t: Tree)
    requires t.Node? && Ordered(InOrder(t))
    ensures Ordered(InOrder(t.left)) && Ordered(InOrder(t.right))
    ensures forall x :: x in InOrder(t.left) ==> SlotCmp(x, t.slot) <= 0
    ensures forall y :: y in InOrder(t.right) ==> SlotCmp(t.slot, y) <= 0
    ensures forall x :: x in InOrder(t) <==> x in InOrder(t.left) || x == t.slot || x in InOrder(t.right)
  {
    OrderedConcat(InOrder(t.left) + [t.slot], InOrder(t.right));
    OrderedConcat(InOrder(t.left), [t.slot]);
    assert t.slot in InOrder(t.left) + [t.slot];
  }

  predicate Holds(t: Tree, hash: nat, needle: Str, a: Addr) {
    Slot(hash, needle, a) in InOrder(t)
  }

  /** The descent of lookup_generic. It finds the string exactly when the
      in-order sequence holds it, whatever the shape and however hashes collide. */
  method LookupGeneric(t: Tree, hash: nat, needle: Str) returns (found: Option<Addr>)
    requires Ordered(InOrder(t))
    ensures found.Some? ==> Holds(t, hash, needle, found.value)
    ensures found.None? ==> forall a :: !Holds(t, hash, needle, a)
  {
    var node := t;
    while node.Node?
      invariant Ordered(InOrder(node))
      invariant forall x :: x in InOrder(node) ==> x in InOrder(t)
      invariant forall a :: Holds(t, hash, needle, a) ==> Holds(node, hash, needle, a)
      decreases node
    {
      SplitAt(node);
      forall a {
        SlotCmpLaws(node.slot, Slot(hash, needle, a), node.slot);
      }
      if hash < node.slot.hash {
        node := node.left;
        continue;
      }
      if hash > node.slot.hash {
        node := node.right;
        continue;
      }
      var rc := Cmp(needle, node.slot.name);
      CmpZero(needle, node.slot.name);
      CmpSwap(needle, node.slot.name);
      if rc == 0 {
        assert node.slot == Slot(hash, needle, node.slot.addr);
        return Some(node.slot.addr);
      }
      node := if rc < 0 then node.left else node.right;
    }
    return None;
  }

  // ----- insertion -----

  /** Where insert_generic hangs a new node: equal slots go right. */
  function Insert(t: Tree, x: Slot): Tree {
    match t
    case Leaf => Node(Leaf, x, Leaf)
    case Node(l, s, r) =>
      if SlotCmp(x, s) < 0 then Node(Insert(l, x), s, r) else Node(l, s, Insert(r, x))
  }

  /** The reference: x goes behind every element that is not greater. */
  function UpperInsert(s: seq<Slot>, x: Slot): seq<Slot> {
    if s == [] then [x]
    else if SlotCmp(x, s[0]) < 0 then [x] + s
    else [s[0]] + UpperInsert(s[1..], x)
  }

  lemma {:induction false} UpperInsertBefore(a: seq<Slot>, b: seq<Slot>, x: Slot)
    requires b != [] && SlotCmp(x, b[0]) < 0
    ensures UpperInsert(a + b, x) == UpperInsert(a, x) + b
  {
    if a == [] {
      assert a + b == b;
    } else {
      UpperInsertBefore(a[1..], b, x);
      assert (a + b)[1..] == a[1..] + b;
      if SlotCmp(x, a[0]) < 0 {
        assert [x] + (a + b) == ([x] + a) + b;
      }
    }
  }

  lemma {:induction false} UpperInsertBehind(a: seq<Slot>, b: seq<Slot>, x: Slot)
    requires forall y :: y in a ==> SlotCmp(x, y) >= 0
    ensures UpperInsert(a + b, x) == a + UpperInsert(b, x)
  {
    if a == [] {
      assert a + b == b;
    } else {
      UpperInsertBehind(a[1..], b, x);
      assert (a + b)[1..] == a[1..] + b;
      assert a == [a[0]] + a[1..];
    }
  }

  /** The insertion walk refines insertion into the in-order sequence, so two
      trees that a rotation makes from each other stay interchangeable. */
  lemma {:induction false} InsertInOrder(t: Tree, x: Slot)
    requires Ordered(InOrder(t))
    ensures InOrder(Insert(t, x)) == UpperInsert(InOrder(t), x)
  {
    if t.Node? {
      var l, r := InOrder(t.left), InOrder(t.right);
      SplitAt(t);
      assert InOrder(t) == l + ([t.slot] + r);
      if SlotCmp(x, t.slot) < 0 {
        InsertInOrder(t.left, x);
        UpperInsertBefore(l, [t.slot] + r, x);
        assert UpperInsert(l, x) + [t.slot] + r == UpperInsert(l, x) + ([t.slot] + r);
      } else {
        InsertInOrder(t.right, x);
        forall y | y in l + [t.slot] ensures SlotCmp(x, y) >= 0 {
          SlotCmpLaws(y, t.slot, x);
          SlotCmpLaws(x, t.slot, y);
          SlotCmpLaws(x, y, t.slot);
          SlotCmpLaws(t.slot, t.slot, t.slot);
        }
        UpperInsertBehind(l + [t.slot], r, x);
      }
    }
  }

  lemma {:induction false} UpperInsertOf(s: seq<Slot>, x: Slot)
    requires Ordered(s)
    ensures Ordered(UpperInsert(s, x))
    ensures forall y :: y in UpperInsert(s, x) <==> y in s || y == x
    ensures DistinctAddrs(s) && (forall y :: y in s ==> y.addr != x.addr) ==> DistinctAddrs(UpperInsert(s, x))
  {
    if s != [] {
      assert s == [s[0]] + s[1..];
      if SlotCmp(x, s[0]) < 0 {
        assert ([x] + s)[1..] == s;
        forall y | y in s ensures SlotCmp(x, y) <= 0 {
          SlotCmpLaws(x, s[0], y);
        }
      } else {
        UpperInsertOf(s[1..], x);
        SlotCmpLaws(x, s[0], x);
        assert ([s[0]] + UpperInsert(s[1..], x))[1..] == UpperInsert(s[1..], x);
        SlotCmpLaws(s[0], x, s[0]);
      }
    }
  }

  // ----- deletion and rebalancing -----

  function RotateLeft(t: Tree): Tree
    requires t.Node? && t.right.Node?
  {
    Node(Node(t.left, t.slot, t.right.left), t.right.slot, t.right.right)
  }

  /** A rotation, and with it its reverse, changes no answer: not of a lookup, and
      not after any insertion. */
  lemma RotationUnseen(t: Tree, x: Slot, hash: nat, needle: Str, a: Addr)
    requires t.Node? && t.right.Node? && Ordered(InOrder(t))
    ensures InOrder(RotateLeft(t)) == InOrder(t)
    ensures Holds(Insert(RotateLeft(t), x), hash, needle, a) <==> Holds(Insert(t, x), hash, needle, a)
  {
    assert InOrder(t.left) + [t.slot] + (InOrder(t.right.left) + [t.right.slot] + InOrder(t.right.right))
        == InOrder(t.left) + [t.slot] + InOrder(t.right.left) + [t.right.slot] + InOrder(t.right.right);
    InsertInOrder(t, x);
    InsertInOrder(RotateLeft(t), x);
  }

  /** The in-order sequence after ngx_rbtree_delete of the node at a. */
  function RemoveAddr(s: seq<Slot>, a: Addr): seq<Slot> {
    if s == [] then []
    else if s[0].addr == a then RemoveAddr(s[1..], a)
    else [s[0]] + RemoveAddr(s[1..], a)
  }

  lemma {:induction false} RemoveAddrOf(s: seq<Slot>, a: Addr)
    requires Ordered(s) && DistinctAddrs(s)
    ensures Ordered(RemoveAddr(s, a)) && DistinctAddrs(RemoveAddr(s, a))
    ensures forall y :: y in RemoveAddr(s, a) <==> y in s && y.addr != a
  {
    if s != [] {
      RemoveAddrOf(s[1..], a);
      assert s == [s[0]] + s[1..];
      if s[0].addr != a {
        assert ([s[0]] + RemoveAddr(s[1..], a))[1..] == RemoveAddr(s[1..], a);
      }
    }
  }

  /** A tree for any in-order sequence, so that a rebalanced tree always exists. */
  function Spine(s: seq<Slot>): (t: Tree)
    ensures InOrder(t) == s
  {
    if s == [] then Leaf else Node(Leaf, s[0], Spine(s[1..]))
  }

  /** Any tree with the wanted in-order sequence: rotations and recolouring. */
  method Rebalanced(s: seq<Slot>) returns (t: Tree)
    ensures InOrder(t) == s
  {
    t := *;
    if InOrder(t) != s {
      t := Spine(s);
    }
  }
}
