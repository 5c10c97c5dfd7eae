/** Byte strings, their order, and the two comparisons the sources use on them. */
module Bytes {

  /** A byte of a path, key, tag or zone name. None of them contains a NUL, so
      the NUL-terminated comparisons of the sources see the whole string. */
  type Byte = b: int | 0 < b < 256 witness 1

  type Str = seq<Byte>

  datatype Option<+T> = None | Some(value: T)

  /** Lexicographic comparison, a proper prefix first: ngx_memn2cmp. */
  function Cmp(a: Str, b: Str): int {
    if a == [] then (if b == [] then 0 else -1)
    else if b == [] then 1
    else if a[0] < b[0] then -1
    else if a[0] > b[0] then 1
    else Cmp(a[1..], b[1..])
  }

  lemma {:induction false} CmpZero(a: Str, b: Str)
    ensures Cmp(a, b) == 0 <==> a == b
  {
    if a != [] && b != [] && a[0] == b[0] {
      CmpZero(a[1..], b[1..]);
      assert a == [a[0]] + a[1..] && b == [b[0]] + b[1..];
    }
  }

  lemma {:induction false} CmpSwap(a: Str, b: Str)
    ensures Cmp(a, b) == -Cmp(b, a)
  {
    if a != [] && b != [] && a[0] == b[0] {
      CmpSwap(a[1..], b[1..]);
    }
  }

  lemma {:induction false} CmpTransitive(a: Str, b: Str, c: Str)
    requires Cmp(a, b) <= 0 && Cmp(b, c) <= 0
    ensures Cmp(a, c) <= 0
    ensures Cmp(a, b) < 0 || Cmp(b, c) < 0 ==> Cmp(a, c) < 0
  {
    if a != [] && b != [] && c != [] && a[0] == b[0] == c[0] {
      CmpTransitive(a[1..], b[1..], c[1..]);
    }
  }

  /** ASCII lower case, the folding of ngx_strncasecmp. */
  function Lower(c: Byte): Byte {
    if 65 <= c <= 90 then c + 32 else c
  }

  predicate SameFolded(a: Str, b: Str) {
    |a| == |b| && forall i :: 0 <= i < |a| ==> Lower(a[i]) == Lower(b[i])
  }

  predicate NoDup<T(==)>(s: seq<T>) {
    forall i, j :: 0 <= i < j < |s| ==> s[i] != s[j]
  }

  /** Takes the one occurrence of x out of s: ngx_queue_remove. */
  function Without<T(==)>(s: seq<T>, x: T): seq<T> {
    if s == [] then []
    else if s[0] == x then s[1..]
    else [s[0]] + Without(s[1..], x)
  }

  lemma {:induction false} WithoutOf<T>(s: seq<T>, x: T)
    requires NoDup(s)
    ensures NoDup(Without(s, x))
    ensures x in s ==> |Without(s, x)| == |s| - 1
    ensures forall y :: y in Without(s, x) <==> y in s && y != x
  {
    if s != [] {
      WithoutOf(s[1..], x);
      assert s == [s[0]] + s[1..];
      assert s[0] !in s[1..];
      if s[0] != x {
        forall y ensures y in Without(s, x) <==> y in s && y != x {
          assert y in Without(s, x) <==> y == s[0] || y in Without(s[1..], x);
        }
      }
    }
  }

  // ----- the domain of an updated map -----

  lemma Put<T>(m: map<nat, T>, a: nat, x: T)
    ensures m[a := x].Keys == m.Keys + {a}
  {
  }

  lemma Keep<T>(m: map<nat, T>, a: nat, x: T)
    requires a in m
    ensures m[a := x].Keys == m.Keys
  {
  }
}
