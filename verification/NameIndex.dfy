/** One index of a zone: a tree whose slots name the live blocks of one kind. */
module NameIndex {
  import opened Bytes
  import opened OrderedTree

  /** A block is found under its current hash, or under the legacy hash when the
      shared memory was filled by an older version. */
  predicate HashFits(x: Slot, current: Str -> nat, legacy: Str -> nat) {
    x.hash == current(x.name) || x.hash == legacy(x.name)
  }

  predicate SlotFor(s: seq<Slot>, a: Addr) {
    exists x :: x in s && x.addr == a
  }

  predicate Injective(names: map<Addr, Str>) {
    forall a, b :: a in names && b in names && names[a] == names[b] ==> a == b
  }

  /** s lists exactly the blocks of `names`, once each and in order, and no two
      blocks share a name. */
  predicate Lists(s: seq<Slot>, names: map<Addr, Str>, current: Str -> nat, legacy: Str -> nat) {
    && Ordered(s) && DistinctAddrs(s)
    && (forall x :: x in s ==> x.addr in names && names[x.addr] == x.name && HashFits(x, current, legacy))
    && (forall a :: a in names ==> SlotFor(s, a))
    && Injective(names)
  }

  predicate Indexes(t: Tree, names: map<Addr, Str>, current: Str -> nat, legacy: Str -> nat) {
    Lists(InOrder(t), names, current, legacy)
  }

  /** A name is in use exactly when one of the two probes can meet it. */
  lemma ProbesMeetNames(t: Tree, names: map<Addr, Str>, current: Str -> nat, legacy: Str -> nat, n: Str, a: Addr)
    requires Indexes(t, names, current, legacy)
    ensures (Holds(t, current(n), n, a) || Holds(t, legacy(n), n, a)) <==> (a in names && names[a] == n)
  {
    if a in names && names[a] == n {
      assert SlotFor(InOrder(t), a);
      var x :| x in InOrder(t) && x.addr == a;
      assert x == Slot(x.hash, n, a);
    }
  }

  lemma InsertedSlots(t: Tree, x: Slot, after: Tree)
    requires Ordered(InOrder(t)) && DistinctAddrs(InOrder(t))
    requires forall y :: y in InOrder(t) ==> y.addr != x.addr
    requires InOrder(after) == InOrder(Insert(t, x))
    ensures Ordered(InOrder(after)) && DistinctAddrs(InOrder(after))
    ensures forall y :: y in InOrder(after) <==> y in InOrder(t) || y == x
  {
    InsertInOrder(t, x);
    UpperInsertOf(InOrder(t), x);
  }

  lemma FreshName(names: map<Addr, Str>, a: Addr, n: Str)
    requires Injective(names) && n !in names.Values
    ensures Injective(names[a := n])
  {
    assert forall b :: b in names ==> names[b] in names.Values;
  }

  lemma ListsInsert(s: seq<Slot>, names: map<Addr, Str>, current: Str -> nat, legacy: Str -> nat,
                    x: Slot, after: seq<Slot>)
    requires Lists(s, names, current, legacy)
    requires x.addr !in names && x.name !in names.Values && HashFits(x, current, legacy)
    requires Ordered(after) && DistinctAddrs(after)
    requires forall y :: y in after <==> y in s || y == x
    ensures Lists(after, names[x.addr := x.name], current, legacy)
  {
    FreshName(names, x.addr, x.name);
    assert x in after;
    forall b | b in names ensures SlotFor(after, b) {
      assert SlotFor(s, b);
      var y :| y in s && y.addr == b;
      assert y in after;
    }
  }

  lemma IndexInsert(t: Tree, names: map<Addr, Str>, current: Str -> nat, legacy: Str -> nat,
                    a: Addr, n: Str, after: Tree)
    requires Indexes(t, names, current, legacy)
    requires a !in names && n !in names.Values
    requires InOrder(after) == InOrder(Insert(t, Slot(current(n), n, a)))
    ensures Indexes(after, names[a := n], current, legacy)
  {
    InsertedSlots(t, Slot(current(n), n, a), after);
    ListsInsert(InOrder(t), names, current, legacy, Slot(current(n), n, a), InOrder(after));
  }

  lemma ListsDelete(s: seq<Slot>, names: map<Addr, Str>, current: Str -> nat, legacy: Str -> nat, a: Addr, after: seq<Slot>)
    requires Lists(s, names, current, legacy) && Ordered(after) && DistinctAddrs(after)
    requires forall y :: y in after <==> y in s && y.addr != a
    ensures Lists(after, names - {a}, current, legacy)
  {
    hide Ordered, DistinctAddrs, HashFits;
    forall b | b in names && b != a ensures SlotFor(after, b) {
      assert SlotFor(s, b);
      var y :| y in s && y.addr == b;
      assert y in after;
    }
  }

  lemma IndexDelete(t: Tree, names: map<Addr, Str>, current: Str -> nat, legacy: Str -> nat,
                    a: Addr, after: Tree)
    requires Indexes(t, names, current, legacy)
    requires InOrder(after) == RemoveAddr(InOrder(t), a)
    ensures Indexes(after, names - {a}, current, legacy)
  {
    hide InOrder, RemoveAddr;
    RemoveAddrOf(InOrder(t), a);
    ListsDelete(InOrder(t), names, current, legacy, a, InOrder(after));
  }

  // ----- the same index of all zones -----

  /** The names of the blocks of one zone. */
  function Names(home: map<Addr, Addr>, name: map<Addr, Str>, z: Addr): map<Addr, Str> {
    map a | a in home && a in name && home[a] == z :: name[a]
  }

  /** Every block is indexed by the tree of its own zone, and by no other. */
  ghost predicate Forest(trees: map<Addr, Tree>, home: map<Addr, Addr>, name: map<Addr, Str>,
                         current: Str -> nat, legacy: Str -> nat) {
    && home.Keys == name.Keys
    && (forall a :: a in home ==> home[a] in trees)
    && (forall z :: z in trees ==> Indexes(trees[z], Names(home, name, z), current, legacy))
  }

  lemma EmptyIndex(current: Str -> nat, legacy: Str -> nat)
    ensures Indexes(Leaf, map[], current, legacy)
  {
  }

  lemma ForestAddZone(trees: map<Addr, Tree>, home: map<Addr, Addr>, name: map<Addr, Str>,
                      current: Str -> nat, legacy: Str -> nat, z: Addr)
    requires Forest(trees, home, name, current, legacy) && z !in trees
    ensures Forest(trees[z := Leaf], home, name, current, legacy)
  {
    assert Names(home, name, z) == map[];
    EmptyIndex(current, legacy);
    hide Indexes, Names;
  }

  lemma NamesInsert(home: map<Addr, Addr>, name: map<Addr, Str>, a: Addr, z: Addr, n: Str, y: Addr)
    requires a !in home
    ensures Names(home[a := z], name[a := n], y)
         == if y == z then Names(home, name, y)[a := n] else Names(home, name, y)
  {
  }

  lemma NamesDelete(home: map<Addr, Addr>, name: map<Addr, Str>, a: Addr, y: Addr)
    requires a in home && a in name
    ensures Names(home - {a}, name - {a}, y)
         == if y == home[a] then Names(home, name, y) - {a} else Names(home, name, y)
  {
  }

  lemma NotNamed(home: map<Addr, Addr>, name: map<Addr, Str>, a: Addr, z: Addr)
    requires a !in home
    ensures a !in Names(home, name, z)
  {
  }

  lemma ForestInsert(trees: map<Addr, Tree>, home: map<Addr, Addr>, name: map<Addr, Str>,
                     current: Str -> nat, legacy: Str -> nat, a: Addr, z: Addr, n: Str, after: Tree)
    requires Forest(trees, home, name, current, legacy) && a !in home && z in trees
    requires n !in Names(home, name, z).Values
    requires InOrder(after) == InOrder(Insert(trees[z], Slot(current(n), n, a)))
    ensures Forest(trees[z := after], home[a := z], name[a := n], current, legacy)
  {
    hide Indexes, Names, InOrder, Insert;
    NotNamed(home, name, a, z);
    IndexInsert(trees[z], Names(home, name, z), current, legacy, a, n, after);
    forall y {
      NamesInsert(home, name, a, z, n, y);
    }
  }

  lemma ForestDelete(trees: map<Addr, Tree>, home: map<Addr, Addr>, name: map<Addr, Str>,
                     current: Str -> nat, legacy: Str -> nat, a: Addr, after: Tree)
    requires Forest(trees, home, name, current, legacy) && a in home
    requires InOrder(after) == RemoveAddr(InOrder(trees[home[a]]), a)
    ensures Forest(trees[home[a] := after], home - {a}, name - {a}, current, legacy)
  {
    hide Indexes, Names, InOrder, RemoveAddr;
    IndexDelete(trees[home[a]], Names(home, name, home[a]), current, legacy, a, after);
    forall y {
      NamesDelete(home, name, a, y);
    }
  }

  predicate InTree(trees: map<Addr, Tree>, z: Addr, a: Addr) {
    z in trees && SlotFor(InOrder(trees[z]), a)
  }

  /** A tree of the forest holds exactly the blocks of its own zone. */
  lemma ForestHolds(trees: map<Addr, Tree>, home: map<Addr, Addr>, name: map<Addr, Str>,
                    current: Str -> nat, legacy: Str -> nat, z: Addr, a: Addr)
    requires Forest(trees, home, name, current, legacy)
    ensures InTree(trees, z, a) <==> a in home && home[a] == z
  {
    if z in trees {
      var names := Names(home, name, z);
      assert Indexes(trees[z], names, current, legacy);
      assert a in names <==> a in home && home[a] == z;
    }
  }

  lemma ForestUnique(trees: map<Addr, Tree>, home: map<Addr, Addr>, name: map<Addr, Str>,
                     current: Str -> nat, legacy: Str -> nat, a: Addr, b: Addr)
    requires Forest(trees, home, name, current, legacy)
    requires a in home && b in home && home[a] == home[b] && name[a] == name[b]
    ensures a == b
  {
    hide Lists;
    var names := Names(home, name, home[a]);
    assert Indexes(trees[home[a]], names, current, legacy);
    IndexedInjective(trees[home[a]], names, current, legacy);
    assert a in names && b in names;
  }

  lemma IndexedInjective(t: Tree, names: map<Addr, Str>, current: Str -> nat, legacy: Str -> nat)
    requires Indexes(t, names, current, legacy)
    ensures Injective(names)
  {
  }

  /** The lookup of the path index: probe the current hash, then the legacy one
      when it differs. Key and tag lookups pass one hash twice. */
  method FindName(t: Tree, ghost names: map<Addr, Str>, current: Str -> nat, legacy: Str -> nat, n: Str)
    returns (found: Option<Addr>)
    requires Indexes(t, names, current, legacy)
    ensures found.Some? ==> found.value in names && names[found.value] == n
    ensures found.None? ==> n !in names.Values
  {
    forall a {
      ProbesMeetNames(t, names, current, legacy, n, a);
    }
    found := LookupGeneric(t, current(n), n);
    if found.Some? || legacy(n) == current(n) {
      return found;
    }
    found := LookupGeneric(t, legacy(n), n);
  }
}
