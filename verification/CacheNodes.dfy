/** The search tree of cache nodes: first by the leading machine word of the key,
    then by the rest of it. */
module CacheNodes {
  import opened Bytes
  import opened FileNames
  import opened CacheState

  datatype NodeTree = Sentinel | Fork(left: NodeTree, key: NodeKey, node: Node, right: NodeTree)

  const WORD := 8

  function NodesIn(t: NodeTree): map<NodeKey, Node> {
    if t.Sentinel? then map[] else NodesIn(t.left) + NodesIn(t.right) + map[t.key := t.node]
  }

  predicate Distinct(t: NodeTree) {
    t.Fork? ==>
      && Distinct(t.left) && Distinct(t.right) && NodesIn(t.left).Keys !! NodesIn(t.right).Keys
      && t.key !in NodesIn(t.left) && t.key !in NodesIn(t.right)
  }

  /** The value that a little-endian machine reads from these octets. */
  function WordOf(s: seq<Octet>): nat {
    if s == [] then 0 else s[0] + 256 * WordOf(s[1..])
  }

  lemma WordMeans(a: Octet, b: Octet, rest: seq<Octet>)
    ensures WORD == 8 && WordOf([]) == 0 && WordOf([a, b]) == a + 256 * b
    ensures WordOf([a] + rest) == a + 256 * WordOf(rest)
  {
    assert [a, b][1..] == [b] && [b][1..] == [] && ([a] + rest)[1..] == rest;
    assert WordOf([b]) == b;
  }

  lemma {:induction false} WordInjective(a: seq<Octet>, b: seq<Octet>)
    requires |a| == |b| && WordOf(a) == WordOf(b)
    ensures a == b
  {
    if a != [] {
      assert a[0] == WordOf(a) % 256 && b[0] == WordOf(b) % 256;
      WordInjective(a[1..], b[1..]);
      assert a == [a[0]] + a[1..] && b == [b[0]] + b[1..];
    }
  }

  /** ngx_memcmp of two blocks of one length. */
  function MemCmp(a: seq<Octet>, b: seq<Octet>): int
    requires |a| == |b|
  {
    if a == [] then 0 else if a[0] != b[0] then a[0] - b[0] else MemCmp(a[1..], b[1..])
  }

  lemma {:induction false} MemCmpZero(a: seq<Octet>, b: seq<Octet>)
    requires |a| == |b|
    ensures MemCmp(a, b) == 0 <==> a == b
  {
    if a != [] && a[0] == b[0] {
      MemCmpZero(a[1..], b[1..]);
      assert a == [a[0]] + a[1..] && b == [b[0]] + b[1..];
    }
  }

  function KeyCmp(a: NodeKey, b: NodeKey): int
    requires |a| == |b| == KEY_LEN
  {
    if WordOf(a[..WORD]) < WordOf(b[..WORD]) then -1
    else if WordOf(a[..WORD]) > WordOf(b[..WORD]) then 1
    else MemCmp(a[WORD..], b[WORD..])
  }

  lemma KeyCmpZero(a: NodeKey, b: NodeKey)
    requires |a| == |b| == KEY_LEN
    ensures KeyCmp(a, b) == 0 <==> a == b
  {
    MemCmpZero(a[WORD..], b[WORD..]);
    if WordOf(a[..WORD]) == WordOf(b[..WORD]) {
      WordInjective(a[..WORD], b[..WORD]);
      assert a == a[..WORD] + a[WORD..] && b == b[..WORD] + b[WORD..];
    }
  }

  predicate Sorted(t: NodeTree) {
    t.Fork? ==>
      && Sorted(t.left) && Sorted(t.right) && |t.key| == KEY_LEN
      && (forall k :: k in NodesIn(t.left) ==> |k| == KEY_LEN && KeyCmp(k, t.key) < 0)
      && (forall k :: k in NodesIn(t.right) ==> |k| == KEY_LEN && KeyCmp(k, t.key) > 0)
  }

  /** ngx_http_cache_pilot_lookup finds the node of a key exactly when there is one,
      so the purges may treat the tree as a map. */
  method Lookup(t: NodeTree, key: NodeKey) returns (node: Option<Node>)
    requires Sorted(t) && |key| == KEY_LEN
    ensures node == if key in NodesIn(t) then Some(NodesIn(t)[key]) else None
  {
    hide MemCmp, WordOf;
    var at := t;
    while at.Fork?
      invariant Sorted(at)
      invariant key in NodesIn(t) <==> key in NodesIn(at)
      invariant key in NodesIn(t) ==> NodesIn(t)[key] == NodesIn(at)[key]
      decreases at
    {
      KeyCmpZero(key, at.key);
      if WordOf(key[..WORD]) < WordOf(at.key[..WORD]) {
        at := at.left;
        continue;
      }
      if WordOf(key[..WORD]) > WordOf(at.key[..WORD]) {
        at := at.right;
        continue;
      }
      var rc := MemCmp(key[WORD..], at.key[WORD..]);
      if rc == 0 {
        return Some(at.node);
      }
      at := if rc < 0 then at.left else at.right;
    }
    node := None;
  }

  lemma {:induction false} SortedDistinct(t: NodeTree)
    requires Sorted(t)
    ensures Distinct(t)
  {
    if t.Fork? {
      SortedDistinct(t.left);
      SortedDistinct(t.right);
      KeyCmpZero(t.key, t.key);
    }
  }
}
