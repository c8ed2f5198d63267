/**
 The per-backend schema cache: an LRU over a catalog that other backends write. `CacheState` is the specification,
 `Cache` the pair of statics the backend changes, and `World` adds the catalog and the undelivered invalidations.
 */
module SchemaCache {
  import opened Wrappers

  type Oid = nat
  const INVALID_OID: Oid := 0
  const CAPACITY: nat := 128

  datatype CachedSchema = CachedSchema(bfbs: seq<nat>, rootTable: string, fileIdentifier: Option<string>)
  datatype LookupError = NotRegistered | FailedVerification
  datatype Entry = Entry(name: string, schema: CachedSchema)

  /** The rows of `flatbuffers_schemas`, and the FlatBuffers verifier. */
  datatype Catalog = Catalog(rows: map<string, CachedSchema>, verifies: seq<nat> -> bool)

  /** A read of the catalog that goes around the cache. */
  function DirectRead(catalog: Catalog, name: string): Result<CachedSchema, LookupError> {
    if name !in catalog.rows then Err(NotRegistered)
    else if !catalog.verifies(catalog.rows[name].bfbs) then Err(FailedVerification)
    else Ok(catalog.rows[name])
  }

  // The LRU, most recently used first.

  datatype CacheState = CacheState(entries: seq<Entry>, catalogOid: Option<Oid>)

  function Without(entries: seq<Entry>, name: string): (r: seq<Entry>)
    ensures |r| <= |entries|
    ensures forall e :: e in r <==> e in entries && e.name != name
  {
    if entries == [] then []
    else if entries[0].name == name then Without(entries[1..], name)
    else [entries[0]] + Without(entries[1..], name)
  }

  function Cached(entries: seq<Entry>, name: string): Option<CachedSchema> {
    if entries == [] then None
    else if entries[0].name == name then Some(entries[0].schema)
    else Cached(entries[1..], name)
  }

  /** `put`: the least recently used entry makes room. */
  function Put(entries: seq<Entry>, name: string, schema: CachedSchema): seq<Entry> {
    var others := Without(entries, name);
    [Entry(name, schema)] + if |others| >= CAPACITY then others[..CAPACITY - 1] else others
  }

  datatype Looked = Looked(state: CacheState, result: Result<CachedSchema, LookupError>)

  /** `lookup_schema`; `oid` is what the catalog query for the relation's OID returns. */
  function Lookup(st: CacheState, name: string, catalog: Catalog, oid: Oid): Looked {
    match Cached(st.entries, name)
    case Some(hit) => Looked(st.(entries := Put(st.entries, name, hit)), Ok(hit))
    case None =>
      var resolved := if st.catalogOid.Some? then st.catalogOid else Some(oid);
      match DirectRead(catalog, name)
      case Err(e) => Looked(st.(catalogOid := resolved), Err(e))
      case Ok(schema) => Looked(CacheState(Put(st.entries, name, schema), resolved), Ok(schema))
  }

  predicate Matches(st: CacheState, relid: Oid) {
    relid == INVALID_OID || st.catalogOid == Some(relid)
  }

  /** `relcache_callback`. */
  function Invalidated(st: CacheState, relid: Oid): CacheState {
    if Matches(st, relid) then st.(entries := []) else st
  }

  // The statics.

  class Cache {
    var entries: seq<Entry>
    var catalogOid: Option<Oid>

    function State(): CacheState
      reads this
    {
      CacheState(entries, catalogOid)
    }

    constructor ()
      ensures State() == CacheState([], None)
    {
      entries, catalogOid := [], None;
    }

    method LookupSchema(name: string, catalog: Catalog, oid: Oid) returns (r: Result<CachedSchema, LookupError>)
      modifies this
      ensures Looked(State(), r) == Lookup(old(State()), name, catalog, oid)
    {
      var hit := Cached(entries, name);
      if hit.Some? {
        entries := Put(entries, name, hit.value);
        return Ok(hit.value);
      }
      r := LoadAndInsert(name, catalog, oid);
    }

    method LoadAndInsert(name: string, catalog: Catalog, oid: Oid) returns (r: Result<CachedSchema, LookupError>)
      modifies this
      ensures catalogOid == Some(if old(catalogOid).Some? then old(catalogOid).value else oid)
      ensures r == DirectRead(catalog, name)
      ensures forall c :: r == Ok(c) <==>
                name in catalog.rows && catalog.rows[name] == c && catalog.verifies(c.bfbs)
      ensures entries == if r.Ok? then Put(old(entries), name, r.value) else old(entries)
    {
      ResolveOid(oid);
      if name !in catalog.rows { return Err(NotRegistered); }
      if !catalog.verifies(catalog.rows[name].bfbs) { return Err(FailedVerification); }
      var schema := catalog.rows[name];
      entries := Put(entries, name, schema);
      return Ok(schema);
    }

    /** `catalog_oid`: resolved once, kept for the backend's lifetime. */
    method ResolveOid(oid: Oid)
      modifies this`catalogOid
      ensures catalogOid == Some(if old(catalogOid).Some? then old(catalogOid).value else oid)
    {
      if catalogOid.None? { catalogOid := Some(oid); }
    }

    method Invalidate(name: string)
      modifies this`entries
      ensures entries == Without(old(entries), name)
    {
      entries := Without(entries, name);
    }

    method InvalidateAll()
      modifies this`entries
      ensures entries == []
    {
      entries := [];
    }

    method RelcacheCallback(relid: Oid)
      modifies this`entries
      ensures State() == Invalidated(old(State()), relid)
      ensures entries == if relid == 0 || old(catalogOid) == Some(relid) then [] else old(entries)
    {
      if relid == INVALID_OID || catalogOid == Some(relid) { InvalidateAll(); }
    }
  }

  // Runs.

  /** `oid` is the catalog relation's, fixed for the run; `pending` are invalidations not yet delivered. */
  datatype World = World(cache: CacheState, catalog: Catalog, oid: Oid, pending: seq<Oid>)

  datatype Event =
    | Commit(rows: map<string, CachedSchema>)   // any backend commits a write to the catalog
    | OtherRelation(relid: Oid)                 // some relation's cache entry is invalidated
    | Deliver                                   // the backend processes one message
    | LookUp(name: string)                      // a statement: drain the queue, then look up
    | LookUpAgain(name: string)                 // a lookup within a statement, without draining
    | Forget(name: string)                      // one entry leaves the cache

  function DeliverAll(st: CacheState, pending: seq<Oid>): CacheState
    decreases |pending|
  {
    if pending == [] then st else DeliverAll(Invalidated(st, pending[0]), pending[1..])
  }

  function Step(w: World, e: Event): World {
    match e
    case Commit(rows) => w.(catalog := w.catalog.(rows := rows), pending := w.pending + [w.oid])
    case OtherRelation(relid) => w.(pending := w.pending + [relid])
    case Deliver => if w.pending == [] then w
      else w.(cache := Invalidated(w.cache, w.pending[0]), pending := w.pending[1..])
    case LookUp(name) =>
      w.(cache := Lookup(DeliverAll(w.cache, w.pending), name, w.catalog, w.oid).state, pending := [])
    case LookUpAgain(name) => w.(cache := Lookup(w.cache, name, w.catalog, w.oid).state)
    case Forget(name) => w.(cache := w.cache.(entries := Without(w.cache.entries, name)))
  }

  function Run(w: World, events: seq<Event>): World {
    if events == [] then w else Step(Run(w, events[..|events| - 1]), events[|events| - 1])
  }

  function Answer(w: World, name: string): Result<CachedSchema, LookupError> {
    Lookup(DeliverAll(w.cache, w.pending), name, w.catalog, w.oid).result
  }

  predicate DistinctNames(entries: seq<Entry>) {
    forall i, j :: 0 <= i < j < |entries| ==> entries[i].name != entries[j].name
  }

  /** Every entry is what the catalog holds. */
  predicate Fresh(entries: seq<Entry>, catalog: Catalog) {
    forall e :: e in entries ==> DirectRead(catalog, e.name) == Ok(e.schema)
  }

  /** Entries are fresh, unless a message that will flush them is on its way. */
  predicate Coherent(w: World) {
    && (w.cache.catalogOid == None || w.cache.catalogOid == Some(w.oid))
    && (w.cache.entries != [] ==> w.cache.catalogOid == Some(w.oid))
    && |w.cache.entries| <= CAPACITY && DistinctNames(w.cache.entries)
    && (w.oid !in w.pending ==> Fresh(w.cache.entries, w.catalog))
  }

  lemma {:induction false} WithoutDistinct(entries: seq<Entry>, name: string)
    requires DistinctNames(entries)
    ensures DistinctNames(Without(entries, name))
  {
    if entries != [] {
      WithoutDistinct(entries[1..], name);
      var rest := Without(entries[1..], name);
      if entries[0].name != name {
        forall j | 0 <= j < |rest| ensures rest[j].name != entries[0].name {
          assert rest[j] in rest;
          var k :| 0 <= k < |entries[1..]| && entries[1..][k] == rest[j];
          assert entries[k + 1] == rest[j];
        }
      }
    }
  }

  /** A put brings its entry to the front and keeps the names distinct and the size bounded. */
  lemma {:induction false} PutKeeps(entries: seq<Entry>, name: string, schema: CachedSchema)
    requires DistinctNames(entries) && |entries| <= CAPACITY
    ensures DistinctNames(Put(entries, name, schema)) && |Put(entries, name, schema)| <= CAPACITY
    ensures Put(entries, name, schema)[0] == Entry(name, schema)
    ensures forall e :: e in Put(entries, name, schema) ==> e == Entry(name, schema) || e in entries
  {
    hide Without;
    WithoutDistinct(entries, name);
    var others := Without(entries, name);
    var r := Put(entries, name, schema);
    forall j | 0 < j < |r| ensures r[j] == others[j - 1] && r[j] in others { }
  }

  /** What a put drops is the last entry, and only from a cache of 128 that lacks the name. */
  lemma {:induction false} PutEvictsLast(entries: seq<Entry>, name: string, schema: CachedSchema, e: Entry)
    requires |entries| <= CAPACITY && e in entries && e.name != name && e !in Put(entries, name, schema)
    ensures |entries| == 128 && e == entries[127] && forall x :: x in entries ==> x.name != name
  {
    hide Without;
    var others := Without(entries, name);
    var r := Put(entries, name, schema);
    forall k | 0 <= k < |r| - 1 ensures others[k] in r { assert r[k + 1] == others[k]; }
    var k :| 0 <= k < |others| && others[k] == e;
    NothingRemoved(entries, name);
  }

  lemma {:induction false} NothingRemoved(entries: seq<Entry>, name: string)
    ensures |Without(entries, name)| == |entries| ==>
              Without(entries, name) == entries && forall x :: x in entries ==> x.name != name
  {
    if entries != [] {
      NothingRemoved(entries[1..], name);
      assert entries == [entries[0]] + entries[1..];
    }
  }

  lemma {:induction false} CachedIsListed(entries: seq<Entry>, name: string)
    ensures Cached(entries, name).Some? ==> Entry(name, Cached(entries, name).value) in entries
  {
    if entries != [] { CachedIsListed(entries[1..], name); }
  }

  /** The OID is known whenever there is something to flush, so the catalog's message always flushes. */
  lemma {:induction false} MatchingMessageFlushes(w: World)
    requires Coherent(w)
    ensures Invalidated(w.cache, w.oid).entries == []
    ensures Invalidated(w.cache, INVALID_OID).entries == []
  {
  }

  /** A message about another relation changes nothing. */
  lemma {:induction false} OtherMessagesKeep(st: CacheState, relid: Oid)
    requires relid != 0 && st.catalogOid != Some(relid)
    ensures Invalidated(st, relid) == st
  {
  }

  /** What a lookup answers with is the first entry from then on, and a second lookup needs no catalog. */
  lemma {:induction false} LookupCaches(st: CacheState, name: string, catalog: Catalog, oid: Oid, later: Catalog)
    requires Lookup(st, name, catalog, oid).result.Ok?
    ensures var (next, c) := (Lookup(st, name, catalog, oid).state, Lookup(st, name, catalog, oid).result.value);
            && next.entries != [] && next.entries[0] == Entry(name, c)
            && Lookup(next, name, later, oid) == Looked(next, Ok(c))
  {
    hide DirectRead, Without;
    var next := Lookup(st, name, catalog, oid).state;
    PutAgain(st.entries, name, Lookup(st, name, catalog, oid).result.value);
  }

  lemma {:induction false} PutAgain(entries: seq<Entry>, name: string, schema: CachedSchema)
    ensures var r := Put(entries, name, schema);
            Cached(r, name) == Some(schema) && Put(r, name, schema) == r
  {
    var r := Put(entries, name, schema);
    var others := r[1..];
    forall e | e in others ensures e.name != name { assert e in Without(entries, name); }
    NoneWithout(others, name);
    assert r == [Entry(name, schema)] + others;
  }

  lemma {:induction false} NoneWithout(entries: seq<Entry>, name: string)
    requires forall e :: e in entries ==> e.name != name
    ensures Without(entries, name) == entries
  {
    if entries != [] {
      NoneWithout(entries[1..], name);
      assert entries == [entries[0]] + entries[1..];
    }
  }

  /** Delivering everything leaves only fresh entries. */
  lemma {:induction false} Drained(w: World)
    requires Coherent(w)
    ensures var st := DeliverAll(w.cache, w.pending);
            Fresh(st.entries, w.catalog) && Coherent(w.(cache := st, pending := []))
    decreases |w.pending|
  {
    if w.pending != [] {
      var next := w.(cache := Invalidated(w.cache, w.pending[0]), pending := w.pending[1..]);
      Delivered(w);
      Drained(next);
    }
  }

  lemma {:induction false} Delivered(w: World)
    requires Coherent(w) && w.pending != []
    ensures Coherent(w.(cache := Invalidated(w.cache, w.pending[0]), pending := w.pending[1..]))
  {
    if w.pending[0] == w.oid {
      MatchingMessageFlushes(w);
    } else if w.oid in w.pending {
      assert w.oid in w.pending[1..];
    }
  }

  lemma {:induction false} LookupKeeps(w: World, name: string)
    requires Coherent(w)
    ensures Coherent(w.(cache := Lookup(w.cache, name, w.catalog, w.oid).state))
    ensures w.oid !in w.pending ==> Lookup(w.cache, name, w.catalog, w.oid).result == DirectRead(w.catalog, name)
  {
    hide Put;
    CachedIsListed(w.cache.entries, name);
    var hit := Cached(w.cache.entries, name);
    if hit.Some? {
      PutKeeps(w.cache.entries, name, hit.value);
    } else if DirectRead(w.catalog, name).Ok? {
      PutKeeps(w.cache.entries, name, DirectRead(w.catalog, name).value);
    }
  }

  lemma {:induction false} StepKeepsCoherence(w: World, e: Event)
    requires Coherent(w)
    ensures Coherent(Step(w, e))
  {
    hide DirectRead, Lookup;
    match e {
      case Deliver => if w.pending != [] { Delivered(w); }
      case LookUp(name) =>
        Drained(w);
        LookupKeeps(w.(cache := DeliverAll(w.cache, w.pending), pending := []), name);
      case LookUpAgain(name) => LookupKeeps(w, name);
      case Forget(name) => WithoutDistinct(w.cache.entries, name);
      case Commit(_) => assert w.oid in w.pending + [w.oid];
      case OtherRelation(relid) => if w.oid in w.pending { assert w.oid in w.pending + [relid]; }
    }
  }

  predicate Initial(w: World) {
    w.cache == CacheState([], None)
  }

  lemma {:induction false} RunsAreCoherent(w: World, events: seq<Event>)
    requires Initial(w)
    ensures Coherent(Run(w, events))
  {
    hide Step, Coherent;
    if events == [] {
      InitialIsCoherent(w);
    } else {
      RunsAreCoherent(w, events[..|events| - 1]);
      StepKeepsCoherence(Run(w, events[..|events| - 1]), events[|events| - 1]);
    }
  }

  lemma {:induction false} InitialIsCoherent(w: World)
    requires Initial(w)
    ensures Coherent(w)
  {
  }

  /**
   After any run of commits, messages, lookups with and without draining, and evictions, a lookup that
   first drains the queue answers with a schema exactly if the catalog holds that schema under the name now
   and it verifies. Otherwise the error says which of the two it is not.
   */
  lemma {:induction false} LookupsReadTheCatalog(w: World, events: seq<Event>, name: string)
    requires Initial(w)
    ensures var now := Run(w, events);
            && (forall c :: Answer(now, name) == Ok(c) <==>
                  name in now.catalog.rows && now.catalog.rows[name] == c && now.catalog.verifies(c.bfbs))
            && (Answer(now, name) == Err(NotRegistered) <==> name !in now.catalog.rows)
            && (Answer(now, name) == Err(FailedVerification) <==>
                  name in now.catalog.rows && !now.catalog.verifies(now.catalog.rows[name].bfbs))
  {
    hide Lookup, Coherent, Run;
    RunsAreCoherent(w, events);
    var now := Run(w, events);
    Drained(now);
    LookupKeeps(now.(cache := DeliverAll(now.cache, now.pending), pending := []), name);
  }

  /** In every reachable state every cached schema verifies, whatever the catalog holds by now. */
  lemma {:induction false} CachedSchemasVerify(w: World, events: seq<Event>)
    requires Initial(w)
    ensures var now := Run(w, events);
            && now.catalog.verifies == w.catalog.verifies
            && forall e :: e in now.cache.entries ==> w.catalog.verifies(e.schema.bfbs)
  {
    hide Step;
    if events != [] {
      var before := Run(w, events[..|events| - 1]);
      CachedSchemasVerify(w, events[..|events| - 1]);
      RunsAreCoherent(w, events[..|events| - 1]);
      StepVerifies(before, events[|events| - 1]);
    }
  }

  predicate AllVerify(entries: seq<Entry>, verifies: seq<nat> -> bool) {
    forall e :: e in entries ==> verifies(e.schema.bfbs)
  }

  lemma {:induction false} StepVerifies(w: World, e: Event)
    requires Coherent(w) && AllVerify(w.cache.entries, w.catalog.verifies)
    ensures Step(w, e).catalog.verifies == w.catalog.verifies && AllVerify(Step(w, e).cache.entries, w.catalog.verifies)
  {
    hide Lookup, DirectRead, Coherent;
    match e {
      case LookUp(name) =>
        Drained(w);
        DrainedVerifies(w.cache, w.pending, w.catalog.verifies);
        LookupVerifies(w.(cache := DeliverAll(w.cache, w.pending), pending := []), name);
      case LookUpAgain(name) => LookupVerifies(w, name);
      case _ =>
    }
  }

  lemma {:induction false} DrainedVerifies(st: CacheState, pending: seq<Oid>, verifies: seq<nat> -> bool)
    requires AllVerify(st.entries, verifies)
    ensures AllVerify(DeliverAll(st, pending).entries, verifies)
    decreases |pending|
  {
    if pending != [] { DrainedVerifies(Invalidated(st, pending[0]), pending[1..], verifies); }
  }

  lemma {:induction false} LookupVerifies(w: World, name: string)
    requires Coherent(w) && AllVerify(w.cache.entries, w.catalog.verifies)
    ensures AllVerify(Lookup(w.cache, name, w.catalog, w.oid).state.entries, w.catalog.verifies)
  {
    hide Put;
    CachedIsListed(w.cache.entries, name);
    var hit := Cached(w.cache.entries, name);
    if hit.Some? {
      PutKeeps(w.cache.entries, name, hit.value);
    } else if DirectRead(w.catalog, name).Ok? {
      PutKeeps(w.cache.entries, name, DirectRead(w.catalog, name).value);
    }
  }

  // Recency.

  predicate LooksUp(e: Event, name: string) {
    (e.LookUp? || e.LookUpAgain?) && e.name == name
  }

  /** When the name was last looked up: the number of events up to then, or 0. */
  function LastUse(events: seq<Event>, name: string): nat {
    if events == [] then 0
    else if LooksUp(events[|events| - 1], name) then |events|
    else LastUse(events[..|events| - 1], name)
  }

  /** Entries stand in the order of their last lookups, the latest first. */
  predicate ByRecency(entries: seq<Entry>, events: seq<Event>) {
    forall i, j :: 0 <= i < j < |entries| ==> LastUse(events, entries[i].name) > LastUse(events, entries[j].name)
  }

  /**
   In every reachable state the entries stand in the order of their last lookups, so what `PutEvictsLast`
   drops is the one that has not been looked up for the longest time.
   */
  lemma {:induction false} EntriesByRecency(w: World, events: seq<Event>)
    requires Initial(w)
    ensures ByRecency(Run(w, events).cache.entries, events)
  {
    hide Step;
    if events != [] {
      var init := events[..|events| - 1];
      EntriesByRecency(w, init);
      RunsAreCoherent(w, init);
      StepKeepsOrder(Run(w, init), init, events[|events| - 1]);
      assert init + [events[|events| - 1]] == events;
    }
  }

  lemma {:induction false} LaterUse(events: seq<Event>, e: Event, name: string)
    ensures LastUse(events + [e], name) == if LooksUp(e, name) then |events| + 1 else LastUse(events, name)
    ensures LastUse(events, name) <= |events|
  {
    assert (events + [e])[..|events|] == events;
    if events != [] && !LooksUp(events[|events| - 1], name) {
      LaterUse(events[..|events| - 1], e, name);
    }
  }

  lemma {:induction false} StepKeepsOrder(w: World, events: seq<Event>, e: Event)
    requires Coherent(w) && ByRecency(w.cache.entries, events)
    ensures ByRecency(Step(w, e).cache.entries, events + [e])
  {
    hide Lookup, Coherent, LastUse, ByRecency, DirectRead;
    match e {
      case LookUp(name) =>
        Drained(w);
        DrainedOrder(w.cache, w.pending, events);
        LookupOrder(w.(cache := DeliverAll(w.cache, w.pending), pending := []), events, e, name);
      case LookUpAgain(name) => LookupOrder(w, events, e, name);
      case Forget(name) =>
        WithoutOrder(w.cache.entries, name, events);
        SameUse(Without(w.cache.entries, name), events, e);
      case Deliver =>
        if w.pending != [] { NoneOrder(events); }
        SameUse(w.cache.entries, events, e);
        NoneOrder(events + [e]);
      case _ => SameUse(w.cache.entries, events, e);
    }
  }

  lemma {:induction false} NoneOrder(events: seq<Event>)
    ensures ByRecency([], events)
  {
  }

  lemma {:induction false} SameUse(entries: seq<Entry>, events: seq<Event>, e: Event)
    requires ByRecency(entries, events) && forall i :: 0 <= i < |entries| ==> !LooksUp(e, entries[i].name)
    ensures ByRecency(entries, events + [e])
  {
    hide LastUse;
    forall i | 0 <= i < |entries|
      ensures LastUse(events + [e], entries[i].name) == LastUse(events, entries[i].name)
    {
      LaterUse(events, e, entries[i].name);
    }
  }

  lemma {:induction false} DrainedOrder(st: CacheState, pending: seq<Oid>, events: seq<Event>)
    requires ByRecency(st.entries, events)
    ensures ByRecency(DeliverAll(st, pending).entries, events)
    decreases |pending|
  {
    hide LastUse, ByRecency;
    if pending != [] {
      NoneOrder(events);
      DrainedOrder(Invalidated(st, pending[0]), pending[1..], events);
    }
  }

  /** Removing an entry keeps the others in their order. */
  lemma {:induction false} WithoutOrder(entries: seq<Entry>, name: string, events: seq<Event>)
    requires ByRecency(entries, events)
    ensures ByRecency(Without(entries, name), events)
  {
    hide LastUse, ByRecency;
    if entries != [] {
      RestInOrder(entries, events);
      WithoutOrder(entries[1..], name, events);
      if entries[0].name != name { FrontInOrder(entries[0], Without(entries[1..], name), events); }
    } else {
      NoneOrder(events);
    }
  }

  predicate UsedBefore(e: Entry, front: Entry, events: seq<Event>) {
    LastUse(events, e.name) < LastUse(events, front.name)
  }

  lemma {:induction false} RestInOrder(entries: seq<Entry>, events: seq<Event>)
    requires ByRecency(entries, events) && entries != []
    ensures ByRecency(entries[1..], events)
      && forall e :: e in entries[1..] ==> UsedBefore(e, entries[0], events)
  {
    hide LastUse;
  }

  lemma {:induction false} FrontInOrder(front: Entry, rest: seq<Entry>, events: seq<Event>)
    requires ByRecency(rest, events) && forall e :: e in rest ==> UsedBefore(e, front, events)
    ensures ByRecency([front] + rest, events)
  {
    hide LastUse;
    forall j | 0 <= j < |rest| ensures LastUse(events, front.name) > LastUse(events, rest[j].name) {
      assert UsedBefore(rest[j], front, events);
    }
  }

  lemma {:induction false} PutOrder(entries: seq<Entry>, name: string, schema: CachedSchema, events: seq<Event>,
                                    e: Event)
    requires ByRecency(entries, events) && LooksUp(e, name) && forall n :: LooksUp(e, n) ==> n == name
    ensures ByRecency(Put(entries, name, schema), events + [e])
  {
    hide LastUse, Without;
    WithoutOrder(entries, name, events);
    var others := Without(entries, name);
    var r := Put(entries, name, schema);
    forall j | 0 < j < |r| ensures r[j] == others[j - 1] && r[j].name != name { assert others[j - 1] in others; }
    forall j | 0 <= j < |r|
      ensures LastUse(events + [e], r[j].name) == if j == 0 then |events| + 1 else LastUse(events, r[j].name)
      ensures LastUse(events, r[j].name) <= |events|
    {
      LaterUse(events, e, r[j].name);
    }
  }

  lemma {:induction false} LookupOrder(w: World, events: seq<Event>, e: Event, name: string)
    requires ByRecency(w.cache.entries, events) && LooksUp(e, name)
    ensures ByRecency(Lookup(w.cache, name, w.catalog, w.oid).state.entries, events + [e])
  {
    hide Put, LastUse, ByRecency, DirectRead;
    var hit := Cached(w.cache.entries, name);
    if hit.Some? {
      PutOrder(w.cache.entries, name, hit.value, events, e);
    } else if DirectRead(w.catalog, name).Ok? {
      PutOrder(w.cache.entries, name, DirectRead(w.catalog, name).value, events, e);
    } else {
      NotListed(w.cache.entries, name);
      SameUse(w.cache.entries, events, e);
    }
  }

  lemma {:induction false} NotListed(entries: seq<Entry>, name: string)
    ensures Cached(entries, name).None? ==> forall i :: 0 <= i < |entries| ==> entries[i].name != name
  {
    if entries != [] {
      NotListed(entries[1..], name);
      forall i | 0 < i < |entries| ensures entries[i] == entries[1..][i - 1] { }
    }
  }

  /** The cache never grows past 128 entries, and is empty until the catalog's OID is known. */
  lemma {:induction false} CacheIsBounded(w: World, events: seq<Event>)
    requires Initial(w)
    ensures var st := Run(w, events).cache; |st.entries| <= 128 && (st.catalogOid == None ==> st.entries == [])
  {
    hide Run;
    RunsAreCoherent(w, events);
  }

  /** Delivery is needed: a lookup that does not drain the queue can answer from before the last commit. */
  lemma {:induction false} StaleWithoutDelivery(w: World, name: string, a: CachedSchema, b: CachedSchema)
    requires Initial(w) && w.pending == [] && a != b && w.catalog.verifies(a.bfbs) && w.catalog.verifies(b.bfbs)
    ensures var now := Step(Step(Step(w, Commit(map[name := a])), LookUp(name)), Commit(map[name := b]));
            Lookup(now.cache, name, now.catalog, now.oid).result == Ok(a) && DirectRead(now.catalog, name) == Ok(b)
  {
    var one := Step(w, Commit(map[name := a]));
    assert DeliverAll(one.cache, one.pending) == one.cache by { assert one.pending == [w.oid]; }
    assert Step(one, LookUp(name)).cache.entries == [Entry(name, a)];
  }
}
