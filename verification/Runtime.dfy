/** One worker's bootstrap of its zones over the shared store: the directory scan,
    the retry while the cache loader is cold, and the worker's copy of zone states. */
module Runtime {
  import opened Bytes
  import opened SharedHeap
  import opened IndexStore
  import opened SlabRequests
  import opened IndexNeeds
  import opened TagHeaders

  // ----- zone states -----

  /** Normalising gives a normal state unless a complete zone has no time at all and
      the clock says zero; then the state stays as bad as it was. */
  lemma NormalizedIsNormal(s: ZoneState, now: int)
    ensures IsNormal(Normalized(s, now)) <==> !(s.bootstrapComplete && s.lastBootstrapAt == 0
                                              && s.lastUpdatedAt == 0 && now == 0)
    ensures Normalized(s, now).bootstrapComplete == s.bootstrapComplete
  {
  }

  /** Readers at different times agree on a state that was normalised once; a clock
      that steps back cannot put the update before the bootstrap. */
  lemma NormalizedTwice(s: ZoneState, now: int, later: int, touched: int)
    requires now != 0
    ensures Normalized(Normalized(s, now), later) == Normalized(s, now)
    ensures s.bootstrapComplete ==>
              var t := Normalized(Normalized(s, now).(lastUpdatedAt := touched), later);
              IsNormal(t) && t.lastBootstrapAt == Normalized(s, now).lastBootstrapAt && t.lastUpdatedAt >= touched
  {
  }

  /** A zone that is not complete has no times. One that is takes its bootstrap time from
      the update, or from the clock, if it has none, and was updated no earlier. */
  lemma NormalizedMeans(s: ZoneState, now: int)
    ensures var n := Normalized(s, now);
      && n.bootstrapComplete == s.bootstrapComplete
      && (!s.bootstrapComplete ==> n.lastBootstrapAt == 0 == n.lastUpdatedAt)
      && (s.bootstrapComplete && s.lastBootstrapAt != 0 ==> n.lastBootstrapAt == s.lastBootstrapAt)
      && (s.bootstrapComplete && s.lastBootstrapAt == 0 && s.lastUpdatedAt != 0 ==> n.lastBootstrapAt == s.lastUpdatedAt)
      && (s.bootstrapComplete && s.lastBootstrapAt == 0 == s.lastUpdatedAt ==> n.lastBootstrapAt == now)
      && (s.bootstrapComplete && s.lastUpdatedAt >= n.lastBootstrapAt ==> n.lastUpdatedAt == s.lastUpdatedAt)
      && (s.bootstrapComplete && s.lastUpdatedAt <= n.lastBootstrapAt ==> n.lastUpdatedAt == n.lastBootstrapAt)
  {
  }

  // ----- directory trees -----

  /** What the scan meets: a file with what its parse yields, a directory that may not
      open, something else, or an entry whose path finds no memory. */
  datatype Entry = File(path: Str, parse: Parse) | Directory(opens: bool, entries: seq<Entry>) | Other | Unnamed

  type Found = (Str, Parse)

  /** Memory outside the store runs out somewhere in the part of the tree that opens. */
  predicate Refused(e: Entry)
    decreases e
  {
    match e
    case File(_, m) => m.NoPool?
    case Directory(opens, es) => opens && RefusedAny(es)
    case Other => false
    case Unnamed => true
  }

  predicate RefusedAny(es: seq<Entry>)
    decreases es
  {
    es != [] && (RefusedAny(es[..|es| - 1]) || Refused(es[|es| - 1]))
  }

  lemma {:induction false} RefusedPart(es: seq<Entry>, i: nat)
    requires i <= |es|
    ensures RefusedAny(es[..i]) ==> RefusedAny(es)
  {
    if i < |es| {
      RefusedPart(es[..|es| - 1], i);
      assert es[..|es| - 1][..i] == es[..i];
    } else {
      assert es[..i] == es;
    }
  }

  lemma RefusedMore(es: seq<Entry>, e: Entry)
    ensures !RefusedAny([]) && (RefusedAny(es + [e]) <==> RefusedAny(es) || Refused(e))
  {
    assert (es + [e])[..|es|] == es;
  }

  /** The scan of this tree cannot succeed, whatever the store does. */
  predicate Blocked(e: Entry) {
    !(e.Directory? && e.opens) || Refused(e)
  }

  /** The files that the scan reads, in order. */
  function Listing(e: Entry): seq<Found>
    decreases e
  {
    match e
    case File(p, m) => [(p, m)]
    case Directory(opens, es) => if opens then ListingAll(es) else []
    case Other => []
    case Unnamed => []
  }

  function ListingAll(es: seq<Entry>): seq<Found>
    decreases es
  {
    if es == [] then [] else ListingAll(es[..|es| - 1]) + Listing(es[|es| - 1])
  }

  /** What the scan reads: the files of the directories that open, at any depth. Memory
      runs out in the same ones. */
  lemma {:induction false} ListedIn(es: seq<Entry>, x: Found)
    ensures x in ListingAll(es) <==> exists i :: 0 <= i < |es| && x in Listing(es[i])
  {
    hide Listing;
    if es != [] {
      var n := |es| - 1;
      ListedIn(es[..n], x);
      if x in ListingAll(es[..n]) {
        var i :| 0 <= i < n && x in Listing(es[..n][i]);
        assert x in Listing(es[i]);
      }
      if i :| 0 <= i < n && x in Listing(es[i]) {
        assert x in Listing(es[..n][i]);
      }
    }
  }

  lemma {:induction false} RefusedIn(es: seq<Entry>)
    ensures RefusedAny(es) <==> exists i :: 0 <= i < |es| && Refused(es[i])
  {
    hide Refused;
    if es != [] {
      var n := |es| - 1;
      RefusedIn(es[..n]);
      if RefusedAny(es[..n]) {
        var i :| 0 <= i < n && Refused(es[..n][i]);
        assert Refused(es[i]);
      }
      if i :| 0 <= i < n && Refused(es[i]) {
        assert Refused(es[..n][i]);
      }
    }
  }

  lemma ListingMeans(e: Entry, x: Found)
    ensures x in Listing(e) <==>
            || e == File(x.0, x.1)
            || (e.Directory? && e.opens && exists i :: 0 <= i < |e.entries| && x in Listing(e.entries[i]))
    ensures Refused(e) <==>
            || e.Unnamed?
            || (e.File? && e.parse == NoPool)
            || (e.Directory? && e.opens && exists i :: 0 <= i < |e.entries| && Refused(e.entries[i]))
    ensures Blocked(e) <==> !e.Directory? || !e.opens || exists i :: 0 <= i < |e.entries| && Refused(e.entries[i])
  {
    if e.Directory? {
      ListedIn(e.entries, x);
      RefusedIn(e.entries);
    }
  }

  /** The map of the index after these files were processed. */
  function IndexAll(view: map<Id, Meta>, zone: Str, files: seq<Found>): map<Id, Meta> {
    if files == [] then view
    else
      var before := IndexAll(view, zone, files[..|files| - 1]);
      var (p, m) := files[|files| - 1];
      match m
      case Parsed(meta) => before[(zone, p) := meta]
      case Unparsed => before - {(zone, p)}
      case NoPool => before
  }

  lemma {:induction false} IndexAllConcat(view: map<Id, Meta>, zone: Str, a: seq<Found>, b: seq<Found>)
    ensures IndexAll(view, zone, a + b) == IndexAll(IndexAll(view, zone, a), zone, b)
  {
    if b == [] {
      assert a + b == a;
    } else {
      assert (a + b)[..|a + b| - 1] == a + b[..|b| - 1];
      IndexAllConcat(view, zone, a, b[..|b| - 1]);
    }
  }

  /** The scan of a tree that shows each path once indexes exactly what was parsed,
      drops the entries of what was not, and leaves all other entries alone. */
  lemma {:induction false} ScanIndexes(view: map<Id, Meta>, zone: Str, files: seq<Found>, p: Str)
    requires forall i, j :: 0 <= i < j < |files| ==> files[i].0 != files[j].0
    ensures forall m :: (p, Parsed(m)) in files ==>
              (zone, p) in IndexAll(view, zone, files) && IndexAll(view, zone, files)[(zone, p)] == m
    ensures (p, Unparsed) in files ==> (zone, p) !in IndexAll(view, zone, files)
    ensures (forall m :: (p, m) !in files) ==>
              ((zone, p) in IndexAll(view, zone, files) <==> (zone, p) in view)
              && ((zone, p) in view ==> IndexAll(view, zone, files)[(zone, p)] == view[(zone, p)])
  {
    if files != [] {
      var n := |files| - 1;
      ScanIndexes(view, zone, files[..n], p);
      assert files == files[..n] + [files[n]];
      assert files[n].0 == p ==> forall m :: (p, m) in files ==> m == files[n].1;
    }
  }

  // ----- the worker -----

  datatype Progress = OK | DECLINED | AGAIN | ERROR

  /** A configured zone; without a cache path it is passed over. */
  datatype Zone = Zone(name: Str, hasPath: bool)

  ghost predicate Complete(s: Heap, name: Str) {
    StateOf(s, name).bootstrapComplete
  }

  /** Exactly the zones `done` became complete, and none became incomplete. */
  ghost predicate Completed(s: Heap, s': Heap, done: set<Str>) {
    forall n :: Complete(s', n) <==> Complete(s, n) || n in done
  }

  class Worker {
    const zones: seq<Zone>
    // The store, when this worker could attach to it.
    const store: Store?
    // The worker's own copy of the states, for the zones it registered.
    var cached: map<Str, ZoneState>

    /** The copy is never ahead of the store. */
    ghost predicate Valid()
      reads this, store
    {
      && (store != null ==> store.Valid())
      && (forall n :: n in cached && cached[n].bootstrapComplete ==> store != null && Complete(store.shm, n))
    }

    constructor (zones: seq<Zone>, store: Store?)
      requires store != null ==> store.Valid()
      ensures Valid() && this.zones == zones && this.store == store
    {
      hide Consistent, StateOf;
      this.zones, this.store := zones, store;
      cached := map z | z in zones :: z.name := COLD;
    }

    method CacheSet(name: Str, state: ZoneState)
      modifies this`cached
      ensures cached == if name in old(cached) then old(cached)[name := state] else old(cached)
    {
      if name in cached {
        cached := cached[name := state];
      }
    }

    /** scan_recursive. It fails exactly when memory is refused, by the store or outside. */
    method ScanRecursive(db: Store, zone: Str, e: Entry, now: int) returns (rc: Progress)
      requires db.Valid()
      modifies db
      ensures db.Valid() && Completed(old(db.shm), db.shm, {})
      ensures rc == DECLINED <==> !(e.Directory? && e.opens)
      ensures rc == ERROR <==> e.Directory? && e.opens && (Refused(e) || db.allocFailures != old(db.allocFailures))
      ensures rc != AGAIN && db.requests >= old(db.requests)
      ensures rc == OK ==> db.view == IndexAll(old(db.view), zone, Listing(e))
      ensures rc == DECLINED ==> db.view == old(db.view) && db.allocFailures == old(db.allocFailures)
      decreases e, 0
    {
      hide Consistent, StateOf, IndexAll, Listing, ListingAll, Completed, RefusedAny;
      NothingCompleted(db.shm);
      if !e.Directory? || !e.opens {
        return DECLINED;
      }
      var es := e.entries;
      NothingListed(db.view, zone, e);
      RefusedMore([], e);
      for i := 0 to |es|
        invariant db.Valid() && Completed(old(db.shm), db.shm, {})
        invariant db.view == IndexAll(old(db.view), zone, ListingAll(es[..i]))
        invariant !RefusedAny(es[..i]) && db.allocFailures == old(db.allocFailures) && db.requests >= old(db.requests)
      {
        assert es[..i + 1] == es[..i] + [es[i]];
        ListedMore(old(db.view), zone, es[..i], es[i]);
        RefusedMore(es[..i], es[i]);
        RefusedPart(es, i + 1);
        ghost var s := db.shm;
        rc := ScanEntry(db, zone, es[i], now);
        CompletedSteps(old(db.shm), s, db.shm);
        if rc == ERROR {
          return;
        }
      }
      assert es[..|es|] == es;
      rc := OK;
    }

    /** One entry of a directory. A directory that does not open is not noticed. */
    method ScanEntry(db: Store, zone: Str, e: Entry, now: int) returns (rc: Progress)
      requires db.Valid()
      modifies db
      ensures db.Valid() && Completed(old(db.shm), db.shm, {})
      ensures (rc == OK || rc == ERROR) && db.requests >= old(db.requests)
      ensures rc == ERROR <==> Refused(e) || db.allocFailures != old(db.allocFailures)
      ensures rc == OK ==> db.view == IndexAll(old(db.view), zone, Listing(e))
      decreases e, 1
    {
      hide Consistent, StateOf, IndexAll, Listing;
      NothingToList(db.view, zone, e);
      match e {
        case Unnamed =>
          rc := ERROR;
        case Directory(_, _) =>
          rc := ScanRecursive(db, zone, e, now);
          if rc == DECLINED {
            rc := OK;
          }
        case File(p, m) =>
          FileListed(db.view, zone, p, m);
          var ok := db.ProcessFile(zone, p, m, now);
          rc := if ok then OK else ERROR;
        case Other =>
          rc := OK;
      }
    }

    method BootstrapZone(db: Store, zone: Str, tree: Entry, now: int) returns (rc: Progress)
      requires db.Valid()
      modifies db
      ensures db.Valid() && Completed(old(db.shm), db.shm, if rc == OK then {zone} else {})
      ensures (rc == OK || rc == ERROR) && db.requests >= old(db.requests)
      ensures rc == ERROR <==> Blocked(tree) || db.allocFailures != old(db.allocFailures)
      ensures GrantsAll(db.slab, old(db.requests)) ==> (rc == ERROR <==> Blocked(tree))
      ensures rc == OK ==> db.view == IndexAll(old(db.view), zone, Listing(tree))
    {
      hide Consistent, StateOf, IndexAll, Listing, Refused, GrantsAll, Refusals;
      rc := ScanRecursive(db, zone, tree, now);
      AllGranted(db.slab, old(db.requests), db.requests);
      if rc != OK {
        return ERROR;
      }
      var ok := db.SetZoneState(zone, ZoneState(true, now, now), now);
      AllGranted(db.slab, old(db.requests), db.requests);
      if !ok {
        return ERROR;
      }
    }

    /** One attempt to bootstrap all zones. OK means that every zone with a path is
        complete; AGAIN means that a loader was cold, and all the other zones are; an
        error means that a tree cannot be scanned or the store refused memory. */
    method TryBootstrapZones(trees: Str -> Entry, cold: set<Str>, single: bool, now: int) returns (rc: Progress)
      requires Valid()
      modifies this`cached, store
      ensures Valid() && rc != DECLINED
      ensures store == null ==> rc == OK && cached == old(cached)
      ensures store != null ==> forall n :: Complete(old(store.shm), n) ==> Complete(store.shm, n)
      ensures store != null ==> forall n :: Complete(store.shm, n) ==>
                || Complete(old(store.shm), n)
                || exists z :: z in zones && z.name == n && Tried(z, cold, single) && !Blocked(trees(n))
      ensures store != null && (rc == OK || rc == AGAIN) ==>
                forall z :: z in zones && Tried(z, cold, single) ==> Complete(store.shm, z.name) && Believed(cached, z.name)
      ensures store != null && rc == OK ==> forall z :: z in zones && z.hasPath ==> Tried(z, cold, single)
      ensures rc == AGAIN ==> exists z :: z in zones && z.hasPath && !Tried(z, cold, single)
      ensures store != null ==>
                (rc == ERROR <==>
                  || store.allocFailures != old(store.allocFailures)
                  || exists z ::
                       z in zones && Tried(z, cold, single) && !Complete(old(store.shm), z.name) && Blocked(trees(z.name)))
      ensures store != null && GrantsAll(store.slab, old(store.requests)) ==>
                (rc == ERROR <==>
                  exists z :: z in zones && z.hasPath && (z.name !in cold || single)
                              && !Complete(old(store.shm), z.name) && Blocked(trees(z.name)))
      ensures rc == AGAIN ==> !single && exists z :: z in zones && z.hasPath && z.name in cold
      ensures store != null && (rc == OK || rc == AGAIN) ==>
                forall z :: z in zones && z.hasPath && z.name !in cold ==> Complete(store.shm, z.name)
      ensures store != null && rc == OK ==> forall z :: z in zones && z.hasPath ==> Complete(store.shm, z.name)
      ensures store != null && !single ==>
                forall n :: n in cold && Complete(store.shm, n) ==> Complete(old(store.shm), n)
    {
      hide Consistent, StateOf, IndexAll, Listing, Complete, Normalized, Blocked, GrantsAll, Refusals;
      if store == null {
        return OK;
      }
      var db: Store := store;
      var deferred := false;
      ghost var done: set<Str> := {};
      for i := 0 to |zones|
        invariant Valid() && store == db && Completed(old(store.shm), db.shm, done)
        invariant db.allocFailures == old(store.allocFailures) && db.requests >= old(store.requests)
        invariant forall n :: n in done ==>
                    !Blocked(trees(n)) && exists z :: z in zones[..i] && z.name == n && Tried(z, cold, single)
        invariant forall z :: z in zones[..i] && Tried(z, cold, single) ==>
                    Complete(db.shm, z.name) && Believed(cached, z.name)
        invariant deferred <==> exists z :: z in zones[..i] && z.hasPath && !Tried(z, cold, single)
      {
        var z := zones[i];
        assert zones[..i + 1] == zones[..i] + [z];
        if !z.hasPath {
          continue;
        }
        if z.name in cold && !single {
          assert z in zones[..i + 1] && !Tried(z, cold, single);
          deferred := true;
          continue;
        }
        assert z in zones[..i + 1] && Tried(z, cold, single);
        ghost var isNew := !Complete(db.shm, z.name);
        rc := TryZone(db, z, trees(z.name), now);
        AllGranted(db.slab, old(store.requests), db.requests);
        if rc == ERROR {
          return;
        }
        if isNew {
          done := done + {z.name};
        }
      }
      assert zones[..|zones|] == zones;
      rc := if deferred then AGAIN else OK;
    }

    /** The part of the attempt for one zone whose loader is warm. */
    method TryZone(db: Store, z: Zone, tree: Entry, now: int) returns (rc: Progress)
      requires Valid() && store == db
      modifies this`cached, db
      ensures Valid() && Completed(old(db.shm), db.shm, if rc == OK then {z.name} else {}) && (rc == OK || rc == ERROR)
      ensures rc == OK ==> Complete(db.shm, z.name) && Believed(cached, z.name)
      ensures forall n :: Believed(old(cached), n) ==> Believed(cached, n)
      ensures db.requests >= old(db.requests)
      ensures Complete(old(db.shm), z.name) ==>
                rc == OK && db.shm == old(db.shm) && db.view == old(db.view) && db.allocFailures == old(db.allocFailures)
      ensures !Complete(old(db.shm), z.name) ==>
                && (rc == ERROR <==> Blocked(tree) || db.allocFailures != old(db.allocFailures))
                && (rc == OK ==> db.view == IndexAll(old(db.view), z.name, Listing(tree)))
    {
      hide Consistent, StateOf, IndexAll, Listing, Blocked;
      var state := db.GetZoneState(z.name, now);
      NormalizedIsNormal(StateOf(db.shm, z.name), now);
      if state.bootstrapComplete {
        CacheSet(z.name, state);
        return OK;
      }
      rc := BootstrapZone(db, z.name, tree, now);
      if rc != OK {
        return;
      }
      state := db.GetZoneState(z.name, now);
      NormalizedIsNormal(StateOf(db.shm, z.name), now);
      CacheSet(z.name, state);
    }

    /** The commit of one written file in the log phase. Nothing tells the client or a
        later scan when it is skipped or fails. */
    method LogHandler(r: Response, now: int) returns (outcome: Outcome)
      requires Valid()
      modifies store
      ensures Valid() && (store != null ==> Completed(old(store.shm), store.shm, {}))
      ensures outcome == Skipped <==> store == null || Due(r).None?
      ensures store != null && outcome == Skipped ==>
                store.view == old(store.view) && store.allocFailures == old(store.allocFailures)
      ensures outcome == Failed ==>
                && store.view == old(store.view) - {(Due(r).value.0, r.path)}
                && store.allocFailures == old(store.allocFailures) + 1
      ensures outcome == Committed ==>
                var (zone, tags) := Due(r).value;
                && store.view == old(store.view)[(zone, r.path) := Meta(r.key, tags, Stat(now, 0))]
                && store.allocFailures == old(store.allocFailures)
      ensures store != null && r.path != [] && r.keyText && r.stashed.Some? ==>
                var zone, tags := r.stashed.value.0, r.stashed.value.1;
                var need := Needed(old(store.shm), old(store.view), zone, r.path, r.key, tags);
                && (outcome == if Granted(store.slab, old(store.requests), need) then Committed else Failed)
                && store.view == if outcome == Committed
                                 then old(store.view)[(zone, r.path) := Meta(r.key, tags, Stat(now, 0))]
                                 else old(store.view) - {(zone, r.path)}
      ensures store != null && r.path != [] && r.keyText && r.stashed.None? && !r.hit && r.indexed && r.zone.Some?
              && 1 + |TagsIn(r.headers, r.wanted)| <= r.pool ==>
                var zone, tags := r.zone.value, TagsIn(r.headers, r.wanted);
                var need := Needed(old(store.shm), old(store.view), zone, r.path, r.key, tags);
                && (outcome == if Granted(store.slab, old(store.requests), need) then Committed else Failed)
                && store.view == if outcome == Committed
                                 then old(store.view)[(zone, r.path) := Meta(r.key, tags, Stat(now, 0))]
                                 else old(store.view) - {(zone, r.path)}
      ensures r.path == [] || !r.keyText || (r.stashed.None? && (!r.indexed || r.zone.None?)) ==> outcome == Skipped
      ensures r.stashed.None? && 1 + |TagsIn(r.headers, r.wanted)| > r.pool ==> outcome == Skipped
      ensures r.stashed.None? && r.hit ==> outcome == Skipped && (store != null ==> store.view == old(store.view))
    {
      hide Consistent, StateOf, TagsIn, Needed;
      outcome := Skipped;
      if r.path == [] {
        return;
      }
      var tags, zone;
      if r.stashed.Some? {
        tags, zone := r.stashed.value.1, r.stashed.value.0;
      } else {
        if r.hit || !r.indexed || r.zone.None? {
          return;
        }
        var ok, found := RequestHeaders(r.headers, r.wanted, r.pool);
        if !ok {
          return;
        }
        tags, zone := found, r.zone.value;
      }
      if store == null || !r.keyText {
        return;
      }
      var done := store.UpsertFileMeta(zone, r.path, r.key, Stat(now, 0), tags, now);
      outcome := if done then Committed else Failed;
    }

    /** zone_state_cache_sync at startup. */
    method CacheSync(now: int)
      requires Valid()
      modifies this`cached
      ensures Valid() && cached.Keys == old(cached).Keys
      ensures forall z :: z in zones && z.name in cached ==>
                cached[z.name] == if store == null then COLD else Normalized(StateOf(store.shm, z.name), now)
    {
      hide Consistent, StateOf, Normalized;
      for i := 0 to |zones|
        invariant Valid() && cached.Keys == old(cached).Keys
        invariant forall z :: z in zones[..i] && z.name in cached ==>
                    cached[z.name] == if store == null then COLD else Normalized(StateOf(store.shm, z.name), now)
      {
        assert zones[..i + 1] == zones[..i] + [zones[i]];
        var state := COLD;
        if store != null {
          state := store.GetZoneState(zones[i].name, now);
          NormalizedIsNormal(StateOf(store.shm, zones[i].name), now);
        }
        CacheSet(zones[i].name, state);
      }
      assert zones[..|zones|] == zones;
    }

    /** zone_bootstrap_complete_sync: the copy when it says yes, else the store. For a
        registered zone the answer is the shared state, however old the copy is. */
    method CompleteSync(name: Str, now: int) returns (complete: bool)
      requires Valid()
      modifies this`cached
      ensures Valid() && cached.Keys == old(cached).Keys
      ensures name in cached && store != null ==> (complete <==> Complete(store.shm, name))
      ensures complete ==> store != null && Complete(store.shm, name) && Believed(cached, name)
    {
      hide Consistent, StateOf;
      if name in cached && cached[name].bootstrapComplete {
        return true;
      }
      if name !in cached || store == null {
        return false;
      }
      var state := store.GetZoneState(name, now);
      NormalizedIsNormal(StateOf(store.shm, name), now);
      CacheSet(name, state);
      return state.bootstrapComplete;
    }
  }

  /** How a response that went through the cache ends in the log phase. The header
      filter may have stashed the zone and the tags; else they are worked out late, with
      what the pool grants for the list of tags. It also has to grant the key's text. */
  datatype Response = Response(path: Str, key: Str, stashed: Option<(Str, seq<Str>)>, hit: bool, indexed: bool,
                               zone: Option<Str>, headers: seq<Header>, wanted: seq<Str>, pool: nat, keyText: bool)

  /** From request r on the slab refuses nothing. */
  ghost predicate GrantsAll(slab: nat -> bool, r: nat) {
    forall i :: i >= r ==> slab(i)
  }

  lemma AllGranted(slab: nat -> bool, r: nat, r': nat)
    requires r <= r'
    ensures GrantsAll(slab, r) ==> Refusals(slab, r') == Refusals(slab, r)
  {
    if GrantsAll(slab, r) {
      GrantedRefusals(slab, r, r' - r);
    }
  }

  datatype Outcome = Skipped | Failed | Committed

  /** Where there is something to commit, and with which tags. */
  function Due(r: Response): Option<(Str, seq<Str>)> {
    if r.path == [] || !r.keyText then None
    else if r.stashed.Some? then r.stashed
    else if r.hit || !r.indexed || r.zone.None? || |TagsIn(r.headers, r.wanted)| >= r.pool then None
    else Some((r.zone.value, TagsIn(r.headers, r.wanted)))
  }

  /** An attempt passes over zones without a path, and puts off those whose loader is
      cold, unless there is only one process. */
  predicate Tried(z: Zone, cold: set<Str>, single: bool) {
    z.hasPath && (z.name !in cold || single)
  }

  predicate Believed(cached: map<Str, ZoneState>, name: Str) {
    name in cached ==> cached[name].bootstrapComplete
  }

  lemma NothingListed(view: map<Id, Meta>, zone: Str, e: Entry)
    requires e.Directory? && e.opens
    ensures view == IndexAll(view, zone, ListingAll([])) && Listing(e) == ListingAll(e.entries)
    ensures e.entries[..0] == []
  {
  }

  lemma ListedMore(view: map<Id, Meta>, zone: Str, es: seq<Entry>, e: Entry)
    ensures IndexAll(view, zone, ListingAll(es + [e])) == IndexAll(IndexAll(view, zone, ListingAll(es)), zone, Listing(e))
  {
    assert (es + [e])[..|es|] == es;
    IndexAllConcat(view, zone, ListingAll(es), Listing(e));
  }

  lemma NothingToList(view: map<Id, Meta>, zone: Str, e: Entry)
    ensures e.Other? || (e.Directory? && !e.opens) ==> IndexAll(view, zone, Listing(e)) == view
  {
  }

  lemma NothingCompleted(s: Heap)
    ensures Completed(s, s, {})
  {
  }

  lemma CompletedSteps(a: Heap, b: Heap, c: Heap)
    requires Completed(a, b, {}) && Completed(b, c, {})
    ensures Completed(a, c, {})
  {
  }

  lemma FileListed(view: map<Id, Meta>, zone: Str, p: Str, m: Parse)
    ensures m.Parsed? ==> IndexAll(view, zone, Listing(File(p, m))) == view[(zone, p) := m.meta]
    ensures m.Unparsed? ==> IndexAll(view, zone, Listing(File(p, m))) == view - {(zone, p)}
  {
    assert [(p, m)][..0] == [];
  }
}
