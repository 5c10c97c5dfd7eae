/** How many slab blocks an upsert lacks. */
module IndexNeeds {
  import opened Bytes
  import opened OrderedTree
  import opened NameIndex
  import opened SharedHeap
  import opened HeapView
  import opened IndexHits
  import opened SlabRequests

  // ----- in terms of the heap -----

  function TagTexts(s: Heap, z: Addr): set<Str> {
    Names(s.tagHome, s.tagText, z).Values
  }

  function KeyNeed(s: Heap, z: Addr, key: Str): nat {
    if key == [] || key in Names(s.keyHome, s.keyText, z).Values then 0 else 1
  }

  /** A member for each tag, and an entry for each that has none. */
  function TagNeed(texts: set<Str>, tags: seq<Str>): nat {
    |tags| + |Elements(tags) - texts|
  }

  lemma NoTagNeed(texts: set<Str>, tags: seq<Str>)
    ensures TagNeed(texts, tags[..0]) == 0 && texts + Elements(tags[..0]) == texts
  {
    assert Elements(tags[..0]) - texts == {};
  }

  lemma OneMoreTag(texts: set<Str>, tags: seq<Str>, i: nat)
    requires i < |tags|
    ensures TagNeed(texts, tags[..i + 1])
         == TagNeed(texts, tags[..i]) + 1 + if tags[i] in texts + Elements(tags[..i]) then 0 else 1
    ensures texts + Elements(tags[..i + 1]) == texts + Elements(tags[..i]) + {tags[i]}
    ensures TagNeed(texts, tags[..i + 1]) <= TagNeed(texts, tags)
  {
    var before, after := Elements(tags[..i]), Elements(tags[..i + 1]);
    assert after == before + {tags[i]};
    assert after - texts == if tags[i] in texts + before then before - texts else before - texts + {tags[i]};
    Fewer(after - texts, Elements(tags) - texts);
  }

  /** One round of the loop over the tags. */
  lemma TagSpent(slab: nat -> bool, r0: nat, r: nat, r': nat, texts: set<Str>, tags: seq<Str>, i: nat, ok: bool)
    requires i < |tags| && Spent(slab, r0, r, TagNeed(texts, tags[..i]), true)
    requires Spent(slab, r, r', 1 + if tags[i] in texts + Elements(tags[..i]) then 0 else 1, ok)
    ensures texts + Elements(tags[..i + 1]) == texts + Elements(tags[..i]) + {tags[i]}
    ensures ok ==> Spent(slab, r0, r', TagNeed(texts, tags[..i + 1]), true)
    ensures !ok ==> Spent(slab, r0, r', TagNeed(texts, tags), false)
  {
    hide Spent, TagNeed;
    OneMoreTag(texts, tags, i);
    SpentMore(slab, r0, r, r', TagNeed(texts, tags[..i]), 1 + if tags[i] in texts + Elements(tags[..i]) then 0 else 1, ok);
    if !ok {
      SpentStop(slab, r0, r', TagNeed(texts, tags[..i + 1]), TagNeed(texts, tags) - TagNeed(texts, tags[..i + 1]));
    }
  }

  lemma {:induction false} Fewer(a: set<Str>, b: set<Str>)
    requires a <= b
    ensures |a| <= |b|
  {
    assert b == a + (b - a);
  }

  lemma OneMoreText(s: Heap, t: Addr, z: Addr, tag: Str, tree: Tree)
    requires t !in s.tagHome
    ensures TagTexts(AddTagEntry(s, t, z, tag, tree), z) == TagTexts(s, z) + {tag}
  {
    NamesInsert(s.tagHome, s.tagText, t, z, tag, z);
    assert t !in Names(s.tagHome, s.tagText, z);
    hide Names;
    var m := Names(s.tagHome, s.tagText, z);
    assert m[t := tag].Values == m.Values + {tag} by {
      assert m[t := tag][t] == tag;
      forall x | x in m.Values ensures x in m[t := tag].Values {
        var b :| b in m && m[b] == x;
        assert m[t := tag][b] == x;
      }
    }
  }

  // ----- tag entries without members -----

  /** Their zones and texts. */
  function Spare(s: Heap): map<Addr, (Addr, Str)> {
    map t | t in s.tagMembers && s.tagMembers[t] == [] :: (At(s.tagHome, t, 0), At(s.tagText, t, []))
  }

  lemma SpareButOne(s: Heap, m: Addr, t: Addr, a: Addr)
    requires t in s.tagMembers && a in s.fileMembers && s.tagMembers[t] != []
    ensures Spare(RemoveMember(s, m, t, a)) - {t} == Spare(s)
  {
  }

  lemma SpareAfterDrop(s: Heap, a: Addr, tree: Tree)
    requires a in s.fileHome && s.fileHome[a] in s.zoneFiles
    ensures Spare(DropFile(s, a, tree)) == Spare(s)
  {
  }

  // ----- in terms of the map -----

  /** An entry of this tag is left without members. */
  ghost predicate SpareText(s: Heap, name: Str, tag: Str) {
    exists t :: t in Spare(s) && Spare(s)[t].1 == tag && At(s.zoneName, Spare(s)[t].0, []) == name
  }

  /** Another file of the zone has the key. */
  ghost predicate OtherKeyed(view: map<Id, Meta>, name: Str, path: Str, key: Str) {
    exists p :: p != path && Keyed(view, name, p, key)
  }

  ghost predicate OtherCarries(view: map<Id, Meta>, name: Str, path: Str, tag: Str) {
    exists p :: p != path && Carries(view, name, p, tag)
  }

  ghost function NewTags(s: Heap, view: map<Id, Meta>, name: Str, path: Str, tags: seq<Str>): set<Str> {
    set t | t in tags && !SpareText(s, name, t) && !OtherCarries(view, name, path, t)
  }

  /** The file, an entry for its key unless another file has that key, a member for each
      tag, and an entry for each tag that no other file carries and that is not spare. */
  ghost function FileNeed(s: Heap, view: map<Id, Meta>, name: Str, path: Str, key: Str, tags: seq<Str>): nat {
    1 + (if key == [] || OtherKeyed(view, name, path, key) then 0 else 1) + |tags| + |NewTags(s, view, name, path, tags)|
  }

  /** And the zone, if it is new. */
  ghost function Needed(s: Heap, view: map<Id, Meta>, name: Str, path: Str, key: Str, tags: seq<Str>): nat {
    (if name in s.zoneName.Values then 0 else 1) + FileNeed(s, view, name, path, key, tags)
  }

  lemma KeyEntryIff(h: Hashes, s: Heap, view: map<Id, Meta>, z: Addr, key: Str)
    requires Linked(h, s) && Shows(s, view, {}) && KeyComplete(s.fileKey, s.keyEntry, {}) && Empty(s.keyFiles) == {}
    requires z in s.zoneName && key != []
    ensures key in Names(s.keyHome, s.keyText, z).Values <==> exists p :: Keyed(view, s.zoneName[z], p, key)
  {
    hide Linked, Shows, Keyed, KeyComplete;
    if key in Names(s.keyHome, s.keyText, z).Values {
      var k :| k in Names(s.keyHome, s.keyText, z) && Names(s.keyHome, s.keyText, z)[k] == key;
      KeysLive(h, s);
      assert k !in Empty(s.keyFiles);
      FileKeyed(h, s, view, k, s.keyFiles[k][0]);
    } else {
      forall p { NoKeyEntry(h, s, view, z, key, p); }
    }
  }

  lemma TagEntryIff(h: Hashes, s: Heap, view: map<Id, Meta>, z: Addr, tag: Str)
    requires Linked(h, s) && Shows(s, view, {}) && z in s.zoneName
    ensures tag in TagTexts(s, z) <==> SpareText(s, s.zoneName[z], tag) || exists p :: Carries(view, s.zoneName[z], p, tag)
  {
    hide Linked, Shows, Carries;
    TagsLive(h, s);
    if tag in TagTexts(s, z) {
      var t :| t in Names(s.tagHome, s.tagText, z) && Names(s.tagHome, s.tagText, z)[t] == tag;
      if s.tagMembers[t] == [] {
        assert Spare(s)[t] == (z, tag);
      } else {
        MemberCarries(h, s, view, t, s.tagMembers[t][0]);
      }
    } else {
      forall p { NoTagEntry(h, s, view, z, tag, p); }
      SpareNamed(h, s, z, tag);
    }
  }

  lemma SpareNamed(h: Hashes, s: Heap, z: Addr, tag: Str)
    requires Linked(h, s) && z in s.zoneName
    ensures SpareText(s, s.zoneName[z], tag) ==> tag in TagTexts(s, z)
  {
    hide Linked, Names;
    TagsLive(h, s);
    if t :| t in Spare(s) && Spare(s)[t].1 == tag && At(s.zoneName, Spare(s)[t].0, []) == s.zoneName[z] {
      SpareHome(h, s, t);
      ZoneUnique(h, s, z, s.tagHome[t]);
      NamedBlock(s.tagHome, s.tagText, t);
    }
  }

  lemma SpareHome(h: Hashes, s: Heap, t: Addr)
    requires Linked(h, s) && t in Spare(s)
    ensures t in s.tagHome && t in s.tagText && s.tagHome[t] in s.zoneName
  {
    hide Linked;
    TagsLive(h, s);
  }

  /** What the heap s1 lacks after the old entry went, in terms of the state before. */
  lemma FileNeedIs(h: Hashes, s0: Heap, s1: Heap, view0: map<Id, Meta>, view1: map<Id, Meta>, z: Addr, name: Str,
                   path: Str, key: Str, tags: seq<Str>)
    requires Linked(h, s0) && Linked(h, s1) && Shows(s1, view1, {}) && Empty(s1.keyFiles) == {}
    requires KeyComplete(s1.fileKey, s1.keyEntry, {}) && z in s1.zoneName && s1.zoneName[z] == name
    requires view1 == view0 - {(name, path)} && Spare(s1) == Spare(s0)
    requires forall y :: y in s0.zoneName ==> y in s1.zoneName && s1.zoneName[y] == s0.zoneName[y]
    ensures FileNeed(s0, view0, name, path, key, tags) == 1 + KeyNeed(s1, z, key) + TagNeed(TagTexts(s1, z), tags)
  {
    hide Linked, Shows, TagTexts, KeyComplete, Spare;
    if key != [] {
      KeyEntryIff(h, s1, view1, z, key);
      assert (exists p :: Keyed(view1, name, p, key)) <==> OtherKeyed(view0, name, path, key) by {
        forall p ensures Keyed(view1, name, p, key) <==> p != path && Keyed(view0, name, p, key) {
        }
      }
    }
    hide Names, OtherKeyed, Keyed;
    forall t ensures t in TagTexts(s1, z) <==> SpareText(s0, name, t) || OtherCarries(view0, name, path, t) {
      TagEntryIff(h, s1, view1, z, t);
      SameSpare(h, s0, s1, name, t);
      OthersCarry(view0, view1, name, path, t);
    }
    assert NewTags(s0, view0, name, path, tags) == Elements(tags) - TagTexts(s1, z);
  }

  lemma OthersCarry(view0: map<Id, Meta>, view1: map<Id, Meta>, name: Str, path: Str, tag: Str)
    requires view1 == view0 - {(name, path)}
    ensures (exists p :: Carries(view1, name, p, tag)) <==> OtherCarries(view0, name, path, tag)
  {
    forall p ensures Carries(view1, name, p, tag) <==> p != path && Carries(view0, name, p, tag) {
    }
  }

  lemma SameSpare(h: Hashes, s0: Heap, s1: Heap, name: Str, tag: Str)
    requires Linked(h, s0) && Spare(s1) == Spare(s0)
    requires forall y :: y in s0.zoneName ==> y in s1.zoneName && s1.zoneName[y] == s0.zoneName[y]
    ensures SpareText(s1, name, tag) <==> SpareText(s0, name, tag)
  {
    hide Linked;
    forall t | t in Spare(s0) ensures At(s1.zoneName, Spare(s0)[t].0, []) == At(s0.zoneName, Spare(s0)[t].0, []) {
      SpareHome(h, s0, t);
    }
  }

  /** Entering a zone lacks a file no less. */
  lemma FileNeedKept(h: Hashes, s0: Heap, s1: Heap, view: map<Id, Meta>, name: Str, path: Str, key: Str, tags: seq<Str>)
    requires Linked(h, s0) && Spare(s1) == Spare(s0)
    requires forall y :: y in s0.zoneName ==> y in s1.zoneName && s1.zoneName[y] == s0.zoneName[y]
    ensures FileNeed(s1, view, name, path, key, tags) == FileNeed(s0, view, name, path, key, tags)
  {
    hide Linked, Spare, SpareText;
    forall t { SameSpare(h, s0, s1, name, t); }
    assert NewTags(s1, view, name, path, tags) == NewTags(s0, view, name, path, tags);
  }
}
