/** What the three queries of the index answer, as sets of paths. */
module IndexHits {
  import opened Bytes
  import opened SharedHeap
  import opened HeapView

  function Elements(paths: seq<Str>): set<Str> {
    set p | p in paths
  }

  function TagHits(view: map<Id, Meta>, zone: Str, tags: seq<Str>): set<Str> {
    set id | id in view && id.0 == zone && CarriesAny(view, zone, id.1, tags) :: id.1
  }

  function KeyHits(view: map<Id, Meta>, zone: Str, key: Str): set<Str> {
    if key == [] then {} else set id | id in view && id.0 == zone && view[id].key == key :: id.1
  }

  function PrefixHits(view: map<Id, Meta>, zone: Str, prefix: Str): set<Str> {
    set id | id in view && id.0 == zone && prefix <= view[id].key :: id.1
  }

  lemma TagHit(view: map<Id, Meta>, zone: Str, tags: seq<Str>, p: Str)
    ensures p in TagHits(view, zone, tags) <==> CarriesAny(view, zone, p, tags)
  {
    if CarriesAny(view, zone, p, tags) { assert (zone, p) in view; }
  }

  lemma KeyHit(view: map<Id, Meta>, zone: Str, key: Str, p: Str)
    ensures p in KeyHits(view, zone, key) <==> Keyed(view, zone, p, key) && key != []
  {
    if Keyed(view, zone, p, key) { assert (zone, p) in view; }
  }

  lemma PrefixHit(view: map<Id, Meta>, zone: Str, prefix: Str, p: Str)
    ensures p in PrefixHits(view, zone, prefix) <==> KeyPrefixed(view, zone, p, prefix)
  {
    if KeyPrefixed(view, zone, p, prefix) { assert (zone, p) in view; }
  }

  // ----- lists of hits -----

  lemma {:induction false} ElementCount(paths: seq<Str>)
    requires NoDup(paths)
    ensures |Elements(paths)| == |paths|
  {
    if paths != [] {
      var n := |paths| - 1;
      ElementCount(paths[..n]);
      assert Elements(paths) == Elements(paths[..n]) + {paths[n]};
    }
  }

  /** A list of all hits. */
  lemma AllListed(paths: seq<Str>, hits: set<Str>)
    requires NoDup(paths) && forall p :: p in paths <==> p in hits
    ensures Elements(paths) == hits && |hits| == |paths|
  {
    ElementCount(paths);
    assert Elements(paths) == hits;
  }

  /** A list of hits that has no room for one more. */
  lemma TooManyHits(paths: seq<Str>, extra: Str, hits: set<Str>)
    requires NoDup(paths) && extra !in paths && extra in hits && forall p :: p in paths ==> p in hits
    ensures |hits| > |paths|
  {
    ElementCount(paths);
    var rest := hits - {extra} - Elements(paths);
    assert hits == rest + Elements(paths) + {extra};
  }
}
