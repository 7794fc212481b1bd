/** Cache-aside list endpoints over an asynchronously replicated database. Readers look in Redis, read
    the replica on a miss, and SET with a TTL; writers commit on the primary, then SCAN for the cached
    lists of their table and DEL them. All steps of all requests interleave. */
module ListCache {
  import opened Strings
  import opened Tables

  /** cache.DefaultTTL, 5 minutes in milliseconds. */
  const TTL := 300_000

  /** What a list endpoint caches; total is cached for students only and is 0 elsewhere. */
  datatype Listing = Listing(rows: seq<Row>, total: nat)

  /** The SQL engine on the list query of a table for a raw query string; None is an SQL error. */
  datatype Sql = Sql(list: (string, string, Rows) -> Option<seq<Row>>)

  datatype CacheEntry = CacheEntry(value: Listing, expireAt: nat) {
    predicate Live(now: nat) {
      now < expireAt
    }
  }

  type Store = map<string, CacheEntry>

  function Prefix(t: string): string {
    "cache:" + t + ":list:"
  }

  function CacheKey(t: string, query: string): string {
    Prefix(t) + query
  }

  datatype ReaderPhase =
    | Missed                                                       // redis.Nil, or GET failed
    | RowsRead(rows: seq<Row>, rowsAt: nat)
    | Loaded(value: Listing, rowsAt: nat, totalAt: Option<nat>)
    | Served(value: Listing)
    | Failed

  datatype Reader = Reader(table: string, query: string, phase: ReaderPhase)

  datatype WriterPhase =
    | Committed                        // InvalidatePattern not started
    | Scanning(seen: Store)            // the store when the SCAN started
    | Deleting(keys: set<string>)
    | Finished
    | GaveUp                           // SCAN or DEL failed, or the process died

  datatype Writer = Writer(table: string, phase: WriterPhase) {
    /** Between the commit and the end of the DEL. */
    predicate Active() {
      phase.Committed? || phase.Scanning? || phase.Deleting?
    }
  }

  /** Where a cached value came from: positions in the primary's commit history, and when it was SET. */
  datatype Origin = Origin(table: string, query: string, rowsAt: nat, totalAt: Option<nat>, setAt: nat)

  datatype State = State(
    now: nat,
    commits: seq<Db>,                  // every state of the primary, oldest first
    replica: nat,                      // the replica shows commits[replica]
    store: Store,
    readers: map<nat, Reader>,
    writers: map<nat, Writer>,
    origins: map<string, Origin>)      // bookkeeping about the past

  datatype Event =
    | Tick(ms: nat)
    | Replicate
    | Get(id: nat, table: string, query: string, redisOk: bool)
    | ReadRows(id: nat)
    | ReadTotal(id: nat, ok: bool)     // a failed COUNT gives total 0
    | SetEntry(id: nat, takesEffect: bool)
    | Leave(id: nat)                   // the reader's process dies or its request is given up
    | Commit(id: nat, table: string, rows: Rows)
    | HiddenWrite(table: string, row: int, columns: Row, nulls: set<Column>)
    | ScanStart(id: nat)
    | ScanEnd(id: nat, keys: set<string>)
    | Del(id: nat)
    | GiveUp(id: nat)

  function Primary(s: State): Db
    requires s.commits != []
  {
    s.commits[|s.commits| - 1]
  }

  function Replica(s: State): Db
    requires s.replica < |s.commits|
  {
    s.commits[s.replica]
  }

  predicate Cached(s: State, key: string) {
    key in s.store && s.store[key].Live(s.now)
  }

  /** SCAN returns only keys that match, and every matching key that was there all the time. */
  predicate ScanMayReturn(s: State, seen: Store, t: string, keys: set<string>) {
    && (forall k :: k in keys ==> Prefix(t) <= k)
    && (forall k :: k in seen && Cached(s, k) && seen[k] == s.store[k] && Prefix(t) <= k ==> k in keys)
  }

  predicate Enabled(sql: Sql, s: State, e: Event) {
    match e
    case Tick(_) => true
    case Replicate => s.replica + 1 < |s.commits|
    case Get(id, t, _, _) => id !in s.readers && IsTable(t)
    case ReadRows(id) => id in s.readers && s.readers[id].phase.Missed? && s.replica < |s.commits|
    case ReadTotal(id, _) => id in s.readers && s.readers[id].phase.RowsRead? && s.replica < |s.commits|
    case SetEntry(id, _) => id in s.readers && s.readers[id].phase.Loaded?
    case Leave(id) => id in s.readers && !s.readers[id].phase.Served?
    case Commit(id, t, _) => id !in s.writers && IsTable(t) && s.commits != []
    case HiddenWrite(t, _, columns, nulls) =>
      IsTable(t) && columns.Keys + nulls <= HiddenColumns && s.commits != []
    case ScanStart(id) => id in s.writers && s.writers[id].phase.Committed?
    case ScanEnd(id, keys) =>
      id in s.writers && s.writers[id].phase.Scanning? &&
      ScanMayReturn(s, s.writers[id].phase.seen, s.writers[id].table, keys)
    case Del(id) => id in s.writers && s.writers[id].phase.Deleting?
    case GiveUp(id) => id in s.writers && s.writers[id].Active()
  }

  predicate ReaderStep(e: Event) {
    e.Get? || e.ReadRows? || e.ReadTotal? || e.SetEntry? || e.Leave?
  }

  function WithReader(s: State, id: nat, p: ReaderPhase): State
    requires id in s.readers
  {
    s.(readers := s.readers[id := s.readers[id].(phase := p)])
  }

  function WithWriter(s: State, id: nat, p: WriterPhase): State
    requires id in s.writers
  {
    s.(writers := s.writers[id := s.writers[id].(phase := p)])
  }

  function Next(sql: Sql, s: State, e: Event): State
    requires Enabled(sql, s, e)
  {
    match e
    case Tick(ms) => s.(now := s.now + ms)
    case Replicate => s.(replica := s.replica + 1)
    case Get(id, t, query, redisOk) =>
      var key := CacheKey(t, query);
      var phase := if redisOk && Cached(s, key) then Served(s.store[key].value) else Missed;
      s.(readers := s.readers[id := Reader(t, query, phase)])
    case ReadRows(id) =>
      var r := s.readers[id];
      var rows := sql.list(r.table, r.query, Visible(Replica(s), r.table));
      if rows.None? then WithReader(s, id, Failed)
      else if r.table == STUDENTS then WithReader(s, id, RowsRead(rows.value, s.replica))
      else WithReader(s, id, Loaded(Listing(rows.value, 0), s.replica, None))
    case ReadTotal(id, ok) =>
      var p := s.readers[id].phase;
      var total := if ok then |RowsOf(Replica(s), s.readers[id].table).Keys| else 0;
      WithReader(s, id, Loaded(Listing(p.rows, total), p.rowsAt, if ok then Some(s.replica) else None))
    case SetEntry(id, takesEffect) =>
      var r := s.readers[id];
      var key := CacheKey(r.table, r.query);
      var t := WithReader(s, id, Served(r.phase.value));
      if takesEffect
      then t.(store := s.store[key := CacheEntry(r.phase.value, s.now + TTL)],
              origins := s.origins[key := Origin(r.table, r.query, r.phase.rowsAt, r.phase.totalAt, s.now)])
      else t
    case Leave(id) => WithReader(s, id, Failed)
    case Commit(id, t, rows) =>
      s.(commits := s.commits + [Primary(s)[t := rows]], writers := s.writers[id := Writer(t, Committed)])
    case HiddenWrite(t, row, columns, nulls) =>
      s.(commits := s.commits + [SetColumns(Primary(s), t, row, columns, nulls)])
    case ScanStart(id) => WithWriter(s, id, Scanning(s.store))
    case ScanEnd(id, keys) => WithWriter(s, id, Deleting(keys))
    case Del(id) => WithWriter(s, id, Finished).(store := s.store - s.writers[id].phase.keys)
    case GiveUp(id) => WithWriter(s, id, GaveUp)
  }

  function Init(db: Db): State {
    State(0, [db], 0, map[], map[], map[], map[])
  }

  ghost predicate Runs(sql: Sql, s0: State, es: seq<Event>, s1: State)
    decreases |es|
  {
    if es == [] then s0 == s1
    else Enabled(sql, s0, es[0]) && Runs(sql, Next(sql, s0, es[0]), es[1..], s1)
  }

  // ---------------------------------------------------------------- bounded staleness

  /** The total that a list of t would show, read from this database state. */
  function TotalIn(db: Db, t: string): nat {
    if t == STUDENTS then |RowsOf(db, t).Keys| else 0
  }

  /** A listing made of rows read from commit i and a total read from commit j (or a failed COUNT). */
  predicate ReadFrom(sql: Sql, commits: seq<Db>, v: Listing, t: string, query: string, i: nat, j: Option<nat>) {
    && i < |commits|
    && sql.list(t, query, Visible(commits[i], t)) == Some(v.rows)
    && (j.Some? ==> i <= j.value < |commits| && v.total == TotalIn(commits[j.value], t))
    && (j.None? ==> v.total == 0)
  }

  predicate ReaderOk(sql: Sql, commits: seq<Db>, replica: nat, r: Reader) {
    && IsTable(r.table)
    && (r.phase.RowsRead? ==>
          && r.table == STUDENTS && r.phase.rowsAt <= replica < |commits|
          && sql.list(r.table, r.query, Visible(commits[r.phase.rowsAt], r.table)) == Some(r.phase.rows))
    && (r.phase.Loaded? ==>
          ReadFrom(sql, commits, r.phase.value, r.table, r.query, r.phase.rowsAt, r.phase.totalAt))
  }

  ghost predicate ReadersOk(sql: Sql, s: State) {
    forall id :: id in s.readers ==> ReaderOk(sql, s.commits, s.replica, s.readers[id])
  }

  ghost predicate EntryOk(sql: Sql, s: State, key: string) {
    && key in s.store && key in s.origins
    && var o := s.origins[key];
       && key == CacheKey(o.table, o.query) && IsTable(o.table)
       && o.setAt <= s.now
       && s.store[key].expireAt == o.setAt + TTL
       && ReadFrom(sql, s.commits, s.store[key].value, o.table, o.query, o.rowsAt, o.totalAt)
  }

  ghost predicate StoreOk(sql: Sql, s: State) {
    forall key :: key in s.store ==> EntryOk(sql, s, key)
  }

  ghost predicate Inv(sql: Sql, s: State) {
    && s.replica < |s.commits|
    && ReadersOk(sql, s)
    && StoreOk(sql, s)
    && WritersOk(s)
  }

  /** What a writer is about to delete matches the pattern of its own table. */
  ghost predicate WritersOk(s: State) {
    forall id :: id in s.writers ==>
      && IsTable(s.writers[id].table)
      && (s.writers[id].phase.Deleting? ==>
            forall k :: k in s.writers[id].phase.keys ==> Prefix(s.writers[id].table) <= k)
  }

  lemma NextKeepsWriters(sql: Sql, s: State, e: Event)
    requires WritersOk(s) && Enabled(sql, s, e)
    ensures WritersOk(Next(sql, s, e))
  {
  }

  /** Commits are only ever added, so what was read stays read. */
  lemma ReadFromGrows(sql: Sql, a: seq<Db>, b: seq<Db>, v: Listing, t: string, q: string, i: nat, j: Option<nat>)
    requires a <= b && ReadFrom(sql, a, v, t, q, i, j)
    ensures ReadFrom(sql, b, v, t, q, i, j)
  {
  }

  lemma NewEntry(sql: Sql, s: State, e: Event)
    requires ReadersOk(sql, s) && Enabled(sql, s, e) && e.SetEntry? && e.takesEffect
    ensures EntryOk(sql, Next(sql, s, e), CacheKey(s.readers[e.id].table, s.readers[e.id].query))
  {
    assert ReaderOk(sql, s.commits, s.replica, s.readers[e.id]);
  }

  lemma OldEntry(sql: Sql, s: State, e: Event, key: string)
    requires Enabled(sql, s, e) && EntryOk(sql, s, key) && key in Next(sql, s, e).store
    requires e.SetEntry? && e.takesEffect ==> key != CacheKey(s.readers[e.id].table, s.readers[e.id].query)
    ensures EntryOk(sql, Next(sql, s, e), key)
  {
    var t := Next(sql, s, e);
    var o := s.origins[key];
    assert s.commits <= t.commits && s.now <= t.now;
    assert key in t.origins && t.origins[key] == o && t.store[key] == s.store[key];
    ReadFromGrows(sql, s.commits, t.commits, s.store[key].value, o.table, o.query, o.rowsAt, o.totalAt);
  }

  lemma NextKeepsStore(sql: Sql, s: State, e: Event)
    requires Inv(sql, s) && Enabled(sql, s, e)
    ensures StoreOk(sql, Next(sql, s, e))
  {
    var t := Next(sql, s, e);
    assert s.commits <= t.commits;
    forall key | key in t.store
      ensures EntryOk(sql, t, key)
    {
      if e.SetEntry? && e.takesEffect && key == CacheKey(s.readers[e.id].table, s.readers[e.id].query) {
        NewEntry(sql, s, e);
      } else {
        OldEntry(sql, s, e, key);
      }
    }
  }

  lemma ReaderGrows(sql: Sql, a: seq<Db>, i: nat, b: seq<Db>, j: nat, r: Reader)
    requires a <= b && i <= j < |b| && ReaderOk(sql, a, i, r)
    ensures ReaderOk(sql, b, j, r)
  {
  }

  /** The reader that takes a step. */
  lemma ActingReader(sql: Sql, s: State, e: Event)
    requires Inv(sql, s) && Enabled(sql, s, e)
    requires ReaderStep(e)
    requires !e.Get? ==> ReaderOk(sql, s.commits, s.replica, s.readers[e.id])
    ensures ReaderOk(sql, s.commits, s.replica, Next(sql, s, e).readers[e.id])
  {
    var r := Next(sql, s, e).readers[e.id];
    match e
    case Get(_, t, query, _) => assert r.table == t && (r.phase.Served? || r.phase.Missed?);
    case ReadRows(id) => assert r.phase.Failed? || r.phase.RowsRead? || r.phase.Loaded?;
    case ReadTotal(id, ok) => assert r.phase.Loaded? && r.phase.rowsAt == s.readers[id].phase.rowsAt;
    case SetEntry(_, _) => assert r.phase.Served?;
    case Leave(_) => assert r.phase.Failed?;
  }

  lemma BystanderReader(sql: Sql, s: State, e: Event, id: nat)
    requires s.replica < |s.commits| && ReadersOk(sql, s) && Enabled(sql, s, e) && id in Next(sql, s, e).readers
    requires ReaderStep(e) ==> id != e.id
    ensures ReaderOk(sql, Next(sql, s, e).commits, Next(sql, s, e).replica, Next(sql, s, e).readers[id])
  {
    var t := Next(sql, s, e);
    assert id in s.readers && t.readers[id] == s.readers[id];
    assert s.commits <= t.commits && s.replica <= t.replica < |t.commits|;
    ReaderGrows(sql, s.commits, s.replica, t.commits, t.replica, s.readers[id]);
  }

  lemma NextKeepsReaders(sql: Sql, s: State, e: Event)
    requires Inv(sql, s) && Enabled(sql, s, e)
    ensures ReadersOk(sql, Next(sql, s, e))
  {
    var t := Next(sql, s, e);
    forall id | id in t.readers
      ensures ReaderOk(sql, t.commits, t.replica, t.readers[id])
    {
      if ReaderStep(e) && id == e.id {
        ActingReader(sql, s, e);
      } else {
        BystanderReader(sql, s, e, id);
      }
    }
  }

  lemma NextKeepsInv(sql: Sql, s: State, e: Event)
    requires Inv(sql, s) && Enabled(sql, s, e)
    ensures Inv(sql, Next(sql, s, e))
  {
    NextKeepsStore(sql, s, e);
    NextKeepsReaders(sql, s, e);
    NextKeepsWriters(sql, s, e);
  }

  lemma {:induction false} RunKeepsInv(sql: Sql, s0: State, es: seq<Event>, s1: State)
    requires Inv(sql, s0) && Runs(sql, s0, es, s1)
    ensures Inv(sql, s1)
    decreases |es|
  {
    if es != [] {
      NextKeepsInv(sql, s0, es[0]);
      RunKeepsInv(sql, Next(sql, s0, es[0]), es[1..], s1);
    }
  }

  ghost predicate Reachable(sql: Sql, s: State) {
    exists db, es :: Runs(sql, Init(db), es, s)
  }

  lemma ReachableInv(sql: Sql, s: State)
    requires Reachable(sql, s)
    ensures Inv(sql, s)
  {
    var db, es :| Runs(sql, Init(db), es, s);
    RunKeepsInv(sql, Init(db), es, s);
  }

  lemma TablesHaveNoColon(t: string)
    requires IsTable(t)
    ensures ':' !in t
  {
  }

  /** The key names one table and one query. */
  lemma CacheKeyInjective(t: string, q: string, u: string, r: string)
    requires ':' !in t && ':' !in u && CacheKey(t, q) == CacheKey(u, r)
    ensures t == u && q == r
  {
    var x, y := "list:" + q, "list:" + r;
    assert CacheKey(t, q) == "cache:" + (t + [':'] + x);
    assert CacheKey(u, r) == "cache:" + (u + [':'] + y);
    assert t + [':'] + x == CacheKey(t, q)[6..];
    assert u + [':'] + y == CacheKey(u, r)[6..];
    SplitFirst(':', t, x, u, y);
    assert q == x[5..] && r == y[5..];
  }

  /** The SCAN pattern of a table matches the cached lists of that table and no others. */
  lemma PatternMatchesOwnTable(t: string, u: string, q: string)
    requires IsTable(t) && IsTable(u)
    ensures Prefix(t) <= CacheKey(u, q) <==> t == u
  {
    TablesHaveNoColon(t);
    TablesHaveNoColon(u);
    var k := CacheKey(u, q);
    if Prefix(t) <= k {
      assert k == CacheKey(t, k[|Prefix(t)|..]);
      CacheKeyInjective(t, k[|Prefix(t)|..], u, q);
    }
  }

  /** Bounded staleness: in every run, under any interleaving, replica lag and Redis failure, a hit at
      time now on the list (t, query) returns rows that the query gave on one commit of the primary
      and a total from the same or a later commit (0 if the COUNT failed), as put together by a load
      whose SET took effect less than TTL ago. Nothing else can be in the cache. */
  lemma BoundedStaleness(sql: Sql, s: State, t: string, query: string) returns (o: Origin)
    requires Reachable(sql, s) && IsTable(t) && Cached(s, CacheKey(t, query))
    ensures CacheKey(t, query) in s.origins && o == s.origins[CacheKey(t, query)]
    ensures s.now < o.setAt + TTL && o.setAt <= s.now
    ensures ReadFrom(sql, s.commits, s.store[CacheKey(t, query)].value, t, query, o.rowsAt, o.totalAt)
    ensures o.rowsAt < |s.commits| && (o.totalAt.Some? ==> o.rowsAt <= o.totalAt.value < |s.commits|)
  {
    ReachableInv(sql, s);
    var key := CacheKey(t, query);
    assert EntryOk(sql, s, key);
    o := s.origins[key];
    TablesHaveNoColon(t);
    TablesHaveNoColon(o.table);
    CacheKeyInjective(t, query, o.table, o.query);
  }

  lemma GetStep(sql: Sql, s: State, id: nat, t: string, query: string, redisOk: bool)
    requires Enabled(sql, s, Get(id, t, query, redisOk))
    ensures id in Next(sql, s, Get(id, t, query, redisOk)).readers
    ensures var r := Next(sql, s, Get(id, t, query, redisOk)).readers[id]; var key := CacheKey(t, query);
            && r.table == t && r.query == query
            && (r.phase.Served? <==> redisOk && key in s.store && s.now < s.store[key].expireAt)
            && (r.phase.Served? ==> r.phase.value == s.store[key].value)
            && (!r.phase.Served? ==> r.phase == Missed)
  {
  }

  /** In every run a request is served from the cache exactly when Redis answers and a load of this very
      list was SET less than TTL ago and not deleted since; after that it has to load. */
  lemma GetServesIff(sql: Sql, s: State, id: nat, t: string, query: string, redisOk: bool)
    requires Reachable(sql, s) && Enabled(sql, s, Get(id, t, query, redisOk))
    ensures id in Next(sql, s, Get(id, t, query, redisOk)).readers
    ensures var r := Next(sql, s, Get(id, t, query, redisOk)).readers[id]; var key := CacheKey(t, query);
            && (key in s.store ==> key in s.origins)
            && (r.phase.Served? <==> redisOk && key in s.store && s.now < s.origins[key].setAt + TTL)
            && (!r.phase.Served? ==> r.phase == Missed)
  {
    ReachableInv(sql, s);
    GetStep(sql, s, id, t, query, redisOk);
    if CacheKey(t, query) in s.store {
      assert EntryOk(sql, s, CacheKey(t, query));
    }
  }

  /** Whatever a request is served was read from the primary's history by a load that was SET less than
      TTL ago: by this request just now, or, when Redis answered, by the one that the cache remembers. */
  lemma ServedIsReadFrom(sql: Sql, s: State, e: Event) returns (o: Origin)
    requires Reachable(sql, s) && Enabled(sql, s, e) && (e.Get? || e.SetEntry?)
    requires Next(sql, s, e).readers[e.id].phase.Served?
    ensures var r := Next(sql, s, e).readers[e.id];
            && ReadFrom(sql, s.commits, r.phase.value, r.table, r.query, o.rowsAt, o.totalAt)
            && o.setAt <= s.now < o.setAt + TTL
            && (e.SetEntry? ==> o.setAt == s.now)
            && (e.Get? ==> e.redisOk && CacheKey(r.table, r.query) in s.store
                           && CacheKey(r.table, r.query) in s.origins && o == s.origins[CacheKey(r.table, r.query)])
  {
    ReachableInv(sql, s);
    if e.SetEntry? {
      var r := s.readers[e.id];
      assert ReaderOk(sql, s.commits, s.replica, r);
      o := Origin(r.table, r.query, r.phase.rowsAt, r.phase.totalAt, s.now);
    } else {
      GetStep(sql, s, e.id, e.table, e.query, e.redisOk);
      o := BoundedStaleness(sql, s, e.table, e.query);
    }
  }

  // ---------------------------------------------------------------- exactness

  function ListingIn(sql: Sql, db: Db, t: string, query: string): Option<Listing> {
    var rows := sql.list(t, query, Visible(db, t));
    if rows.None? then None else Some(Listing(rows.value, TotalIn(db, t)))
  }

  /** The list query run on the primary right now. */
  function Fresh(sql: Sql, s: State, t: string, query: string): Option<Listing>
    requires s.commits != []
  {
    ListingIn(sql, Primary(s), t, query)
  }

  predicate Quiet(s: State, t: string) {
    forall id :: id in s.writers && s.writers[id].table == t ==> !s.writers[id].Active()
  }

  predicate NobodyLoads(s: State, t: string) {
    forall id :: id in s.readers && s.readers[id].table == t ==>
                   !s.readers[id].phase.RowsRead? && !s.readers[id].phase.Loaded?
  }

  /** Loads of a table and write-to-DEL spans on it do not overlap, the replica has caught up when it
      is read, no COUNT fails, and every writer completes its invalidation. */
  predicate Orderly(s: State, e: Event) {
    match e
    case ReadRows(id) => id in s.readers && s.replica + 1 == |s.commits| && Quiet(s, s.readers[id].table)
    case ReadTotal(id, ok) => ok && s.replica + 1 == |s.commits|
    case Commit(_, t, _) => NobodyLoads(s, t)
    case GiveUp(_) => false
    case _ => true
  }

  ghost predicate OrderlyRuns(sql: Sql, s0: State, es: seq<Event>, s1: State)
    decreases |es|
  {
    if es == [] then s0 == s1
    else Enabled(sql, s0, es[0]) && Orderly(s0, es[0]) && OrderlyRuns(sql, Next(sql, s0, es[0]), es[1..], s1)
  }

  /** A list that is being loaded: nobody writes its table, and what was read is what the primary holds. */
  predicate LoadFresh(sql: Sql, s: State, r: Reader)
    requires s.commits != []
  {
    && (r.phase.RowsRead? ==>
          Quiet(s, r.table) && sql.list(r.table, r.query, Visible(Primary(s), r.table)) == Some(r.phase.rows))
    && (r.phase.Loaded? ==>
          Quiet(s, r.table) && Fresh(sql, s, r.table, r.query) == Some(r.phase.value))
  }

  /** A cached list of a table that nobody writes is what the primary holds. */
  predicate EntryFresh(sql: Sql, s: State, k: string)
    requires s.commits != [] && k in s.store && k in s.origins
  {
    Cached(s, k) && Quiet(s, s.origins[k].table) ==>
      Fresh(sql, s, s.origins[k].table, s.origins[k].query) == Some(s.store[k].value)
  }

  /** A writer that has scanned will delete everything that is cached for its table. */
  predicate Covers(s: State, w: Writer, k: string)
    requires k in s.store && k in s.origins
  {
    Cached(s, k) && s.origins[k].table == w.table ==>
      && (w.phase.Scanning? ==> k in w.phase.seen && w.phase.seen[k] == s.store[k])
      && (w.phase.Deleting? ==> k in w.phase.keys)
  }

  ghost predicate ExactInv(sql: Sql, s: State) {
    && Inv(sql, s)
    && (forall id :: id in s.readers ==> LoadFresh(sql, s, s.readers[id]))
    && (forall k :: k in s.store ==> k in s.origins && EntryFresh(sql, s, k))
    && (forall id, k :: id in s.writers && k in s.store ==> k in s.origins && Covers(s, s.writers[id], k))
  }

  lemma SameVisibleSameListing(sql: Sql, a: Db, b: Db, t: string, query: string)
    requires Visible(a, t) == Visible(b, t)
    ensures ListingIn(sql, a, t, query) == ListingIn(sql, b, t, query)
  {
    assert Visible(a, t).Keys == RowsOf(a, t).Keys;
    assert Visible(b, t).Keys == RowsOf(b, t).Keys;
  }

  /** Only a commit of its own table changes what a list shows on the primary. */
  lemma PrimaryStep(sql: Sql, s: State, e: Event, t: string)
    requires Enabled(sql, s, e) && s.commits != [] && IsTable(t) && (e.Commit? ==> e.table != t)
    ensures Next(sql, s, e).commits != []
    ensures Visible(Primary(Next(sql, s, e)), t) == Visible(Primary(s), t)
  {
    match e
    case Commit(_, u, rows) => WriteKeepsOtherTables(Primary(s), u, rows, t);
    case HiddenWrite(u, row, columns, nulls) => HiddenWriteKeepsVisible(Primary(s), u, row, columns, nulls, t);
    case _ => assert Next(sql, s, e).commits == s.commits;
  }

  lemma FreshUnchanged(sql: Sql, s: State, e: Event, t: string, query: string)
    requires Enabled(sql, s, e) && s.commits != [] && IsTable(t) && (e.Commit? ==> e.table != t)
    ensures Next(sql, s, e).commits != [] && Fresh(sql, Next(sql, s, e), t, query) == Fresh(sql, s, t, query)
  {
    PrimaryStep(sql, s, e, t);
    SameVisibleSameListing(sql, Primary(Next(sql, s, e)), Primary(s), t, query);
  }

  lemma QuietKept(sql: Sql, s: State, e: Event, t: string)
    requires Enabled(sql, s, e) && Quiet(s, t) && (e.Commit? ==> e.table != t)
    ensures Quiet(Next(sql, s, e), t)
  {
  }

  lemma BystanderLoad(sql: Sql, s: State, e: Event, r: Reader)
    requires Enabled(sql, s, e) && s.commits != [] && IsTable(r.table) && LoadFresh(sql, s, r)
    requires e.Commit? && e.table == r.table ==> !r.phase.RowsRead? && !r.phase.Loaded?
    ensures Next(sql, s, e).commits != [] && LoadFresh(sql, Next(sql, s, e), r)
  {
    if r.phase.RowsRead? || r.phase.Loaded? {
      QuietKept(sql, s, e, r.table);
      PrimaryStep(sql, s, e, r.table);
      FreshUnchanged(sql, s, e, r.table, r.query);
    }
  }

  lemma ActingLoad(sql: Sql, s: State, e: Event)
    requires Enabled(sql, s, e) && Orderly(s, e) && s.commits != []
    requires ReaderStep(e)
    requires !e.Get? ==> LoadFresh(sql, s, s.readers[e.id])
    requires e.ReadTotal? ==> s.readers[e.id].table == STUDENTS
    ensures LoadFresh(sql, s, Next(sql, s, e).readers[e.id])
  {
    var r := Next(sql, s, e).readers[e.id];
    match e
    case ReadRows(id) =>
      assert Replica(s) == Primary(s);
      assert r.phase.Failed? || r.phase.RowsRead? || r.phase.Loaded?;
    case ReadTotal(_, _) => assert Replica(s) == Primary(s) && r.phase.Loaded?;
    case Get(_, _, _, _) => assert r.phase.Served? || r.phase.Missed?;
    case SetEntry(_, _) => assert r.phase.Served?;
    case Leave(_) => assert r.phase.Failed?;
  }

  lemma LoadsStayFresh(sql: Sql, s: State, e: Event)
    requires ExactInv(sql, s) && Enabled(sql, s, e) && Orderly(s, e)
    ensures var t := Next(sql, s, e);
            t.commits != [] && forall id :: id in t.readers ==> LoadFresh(sql, t, t.readers[id])
  {
    var t := Next(sql, s, e);
    forall id | id in t.readers
      ensures t.commits != [] && LoadFresh(sql, t, t.readers[id])
    {
      if ReaderStep(e) && id == e.id {
        if !e.Get? {
          assert ReaderOk(sql, s.commits, s.replica, s.readers[id]);
        }
        ActingLoad(sql, s, e);
        BystanderLoad(sql, s, e, t.readers[id]);
      } else {
        assert ReaderOk(sql, s.commits, s.replica, s.readers[id]);
        assert LoadFresh(sql, s, s.readers[id]);
        BystanderLoad(sql, s, e, s.readers[id]);
      }
    }
  }

  /** A table falls quiet only by a DEL of its last writer. */
  lemma FallsQuiet(sql: Sql, s: State, e: Event, t: string)
    requires Enabled(sql, s, e) && Orderly(s, e) && !Quiet(s, t) && Quiet(Next(sql, s, e), t)
    ensures e.Del? && s.writers[e.id].table == t
  {
    var id :| id in s.writers && s.writers[id].table == t && s.writers[id].Active();
    assert id in Next(sql, s, e).writers;
  }

  lemma EntryStaysFresh(sql: Sql, s: State, e: Event, k: string)
    requires Enabled(sql, s, e) && Orderly(s, e) && s.commits != []
    requires k in s.store && k in s.origins && IsTable(s.origins[k].table)
    requires EntryFresh(sql, s, k)
    requires k in Next(sql, s, e).store && Next(sql, s, e).store[k] == s.store[k]
    requires k in Next(sql, s, e).origins && Next(sql, s, e).origins[k] == s.origins[k]
    requires e.Del? ==> Covers(s, s.writers[e.id], k)
    ensures Next(sql, s, e).commits != [] && EntryFresh(sql, Next(sql, s, e), k)
  {
    var t, o := Next(sql, s, e), s.origins[k];
    if Cached(t, k) && Quiet(t, o.table) {
      if !Quiet(s, o.table) {
        FallsQuiet(sql, s, e, o.table);
        assert false;
      }
      assert e.Commit? ==> e.table != o.table by {
        if e.Commit? {
          assert t.writers[e.id].Active();
        }
      }
      FreshUnchanged(sql, s, e, o.table, o.query);
    }
  }

  lemma NewEntryIsFresh(sql: Sql, s: State, e: Event)
    requires s.replica < |s.commits| && Enabled(sql, s, e) && Orderly(s, e) && e.SetEntry? && e.takesEffect
    requires LoadFresh(sql, s, s.readers[e.id]) && ReaderOk(sql, s.commits, s.replica, s.readers[e.id])
    ensures var k := CacheKey(s.readers[e.id].table, s.readers[e.id].query); var t := Next(sql, s, e);
            t.commits != [] && k in t.store && k in t.origins && EntryFresh(sql, t, k)
  {
    FreshUnchanged(sql, s, e, s.readers[e.id].table, s.readers[e.id].query);
  }

  lemma OldEntryIsFresh(sql: Sql, s: State, e: Event, k: string)
    requires Enabled(sql, s, e) && Orderly(s, e) && s.commits != [] && k in Next(sql, s, e).store
    requires e.SetEntry? && e.takesEffect ==> k != CacheKey(s.readers[e.id].table, s.readers[e.id].query)
    requires EntryOk(sql, s, k) && EntryFresh(sql, s, k)
    requires e.Del? ==> Covers(s, s.writers[e.id], k)
    ensures var t := Next(sql, s, e); t.commits != [] && k in t.origins && EntryFresh(sql, t, k)
  {
    var t := Next(sql, s, e);
    assert k in s.store && t.store[k] == s.store[k];
    assert k in t.origins && t.origins[k] == s.origins[k];
    EntryStaysFresh(sql, s, e, k);
  }

  lemma EntriesStayFresh(sql: Sql, s: State, e: Event)
    requires ExactInv(sql, s) && Enabled(sql, s, e) && Orderly(s, e)
    ensures var t := Next(sql, s, e);
            t.commits != [] && forall k :: k in t.store ==> k in t.origins && EntryFresh(sql, t, k)
  {
    var t := Next(sql, s, e);
    forall k | k in t.store
      ensures t.commits != [] && k in t.origins && EntryFresh(sql, t, k)
    {
      if e.SetEntry? && e.takesEffect && k == CacheKey(s.readers[e.id].table, s.readers[e.id].query) {
        assert LoadFresh(sql, s, s.readers[e.id]);
        assert ReaderOk(sql, s.commits, s.replica, s.readers[e.id]);
        NewEntryIsFresh(sql, s, e);
      } else {
        assert EntryOk(sql, s, k) && EntryFresh(sql, s, k);
        if e.Del? {
          assert Covers(s, s.writers[e.id], k);
        }
        OldEntryIsFresh(sql, s, e, k);
      }
    }
  }

  lemma WriterStillCovers(sql: Sql, s: State, e: Event, id: nat, k: string)
    requires Enabled(sql, s, e) && (k in s.store ==> k in s.origins)
    requires id in Next(sql, s, e).writers && k in Next(sql, s, e).store
    requires id in s.writers && k in s.store ==> Covers(s, s.writers[id], k)
    requires e.SetEntry? ==> Quiet(s, s.readers[e.id].table)
    requires e.ScanEnd? && k in s.store && s.origins[k].table == s.writers[e.id].table ==>
               Prefix(s.writers[e.id].table) <= k
    ensures k in Next(sql, s, e).origins && Covers(Next(sql, s, e), Next(sql, s, e).writers[id], k)
  {
  }

  lemma WritersStillCover(sql: Sql, s: State, e: Event)
    requires ExactInv(sql, s) && Enabled(sql, s, e)
    ensures var t := Next(sql, s, e);
            forall id, k :: id in t.writers && k in t.store ==> k in t.origins && Covers(t, t.writers[id], k)
  {
    var t := Next(sql, s, e);
    forall id, k | id in t.writers && k in t.store
      ensures k in t.origins && Covers(t, t.writers[id], k)
    {
      if e.SetEntry? {
        assert LoadFresh(sql, s, s.readers[e.id]);
      }
      if e.ScanEnd? {
        assert EntryOk(sql, s, k);
        PatternMatchesOwnTable(s.writers[e.id].table, s.origins[k].table, s.origins[k].query);
      }
      WriterStillCovers(sql, s, e, id, k);
    }
  }

  lemma NextKeepsExact(sql: Sql, s: State, e: Event)
    requires ExactInv(sql, s) && Enabled(sql, s, e) && Orderly(s, e)
    ensures ExactInv(sql, Next(sql, s, e))
  {
    var t := Next(sql, s, e);
    NextKeepsInv(sql, s, e);
    LoadsStayFresh(sql, s, e);
    EntriesStayFresh(sql, s, e);
    WritersStillCover(sql, s, e);
  }

  lemma {:induction false} OrderlyRunIsExact(sql: Sql, s0: State, es: seq<Event>, s1: State)
    requires ExactInv(sql, s0) && OrderlyRuns(sql, s0, es, s1)
    ensures ExactInv(sql, s1)
    decreases |es|
  {
    if es != [] {
      NextKeepsExact(sql, s0, es[0]);
      OrderlyRunIsExact(sql, Next(sql, s0, es[0]), es[1..], s1);
    }
  }

  ghost predicate OrderlyReachable(sql: Sql, s: State) {
    exists db, es :: OrderlyRuns(sql, Init(db), es, s)
  }

  lemma OrderlyReachableInv(sql: Sql, s: State)
    requires OrderlyReachable(sql, s)
    ensures ExactInv(sql, s)
  {
    var db, es :| OrderlyRuns(sql, Init(db), es, s);
    OrderlyRunIsExact(sql, Init(db), es, s);
  }

  /** Cache exactness: in every orderly run, whatever photo, password and reset-code writes happen in
      between, a hit on a list of a table that no writer is between commit and DEL on returns exactly
      what the same query returns on the primary. */
  lemma CacheExact(sql: Sql, s: State, t: string, query: string)
    requires OrderlyReachable(sql, s) && IsTable(t)
    requires Cached(s, CacheKey(t, query)) && Quiet(s, t)
    ensures s.commits != [] && Fresh(sql, s, t, query) == Some(s.store[CacheKey(t, query)].value)
  {
    OrderlyReachableInv(sql, s);
    var key := CacheKey(t, query);
    assert EntryOk(sql, s, key) && EntryFresh(sql, s, key);
    var o := s.origins[key];
    TablesHaveNoColon(t);
    TablesHaveNoColon(o.table);
    CacheKeyInjective(t, query, o.table, o.query);
  }

  /** What readers see of it: in every orderly run, whatever a request is served, from the cache of a table
      that no writer is between commit and DEL on or from its own load, is what the query returns on the
      primary at that moment. */
  lemma ServedIsExact(sql: Sql, s: State, e: Event)
    requires OrderlyReachable(sql, s) && Enabled(sql, s, e)
    requires e.SetEntry? || (e.Get? && Quiet(s, e.table))
    requires Next(sql, s, e).readers[e.id].phase.Served?
    ensures var r := Next(sql, s, e).readers[e.id];
            s.commits != [] && Fresh(sql, s, r.table, r.query) == Some(r.phase.value)
  {
    OrderlyReachableInv(sql, s);
    if e.SetEntry? {
      assert LoadFresh(sql, s, s.readers[e.id]);
    } else {
      GetStep(sql, s, e.id, e.table, e.query, e.redisOk);
      CacheExact(sql, s, e.table, e.query);
    }
  }

  /** In an orderly run a DEL leaves no list of its table cached. */
  lemma DelClearsTable(sql: Sql, s: State, id: nat, query: string)
    requires OrderlyReachable(sql, s) && Enabled(sql, s, Del(id))
    ensures !Cached(Next(sql, s, Del(id)), CacheKey(s.writers[id].table, query))
  {
    OrderlyReachableInv(sql, s);
    var t := s.writers[id].table;
    var k := CacheKey(t, query);
    if k in s.store && Cached(s, k) {
      assert EntryOk(sql, s, k) && Covers(s, s.writers[id], k);
      TablesHaveNoColon(t);
      TablesHaveNoColon(s.origins[k].table);
      CacheKeyInjective(t, query, s.origins[k].table, s.origins[k].query);
    }
  }

  /** Invalidation frame: in every run a DEL touches no cached list of another table. */
  lemma DelSparesOtherTables(sql: Sql, s: State, id: nat, t: string, query: string)
    requires Reachable(sql, s) && Enabled(sql, s, Del(id)) && IsTable(t) && t != s.writers[id].table
    ensures var k := CacheKey(t, query); var after := Next(sql, s, Del(id));
            (k in after.store <==> k in s.store) && (k in s.store ==> after.store[k] == s.store[k])
  {
    ReachableInv(sql, s);
    PatternMatchesOwnTable(s.writers[id].table, t, query);
  }

  lemma {:induction false} RunsStep(sql: Sql, s0: State, es: seq<Event>, s1: State, e: Event)
    requires Runs(sql, s0, es, s1) && Enabled(sql, s1, e)
    ensures Runs(sql, s0, es + [e], Next(sql, s1, e))
    decreases |es|
  {
    if es == [] {
      assert Runs(sql, Next(sql, s1, e), [], Next(sql, s1, e));
    } else {
      RunsStep(sql, Next(sql, s0, es[0]), es[1..], s1, e);
      assert (es + [e])[1..] == es[1..] + [e];
    }
  }

  lemma ReachStep(sql: Sql, s: State, e: Event)
    requires Reachable(sql, s) && Enabled(sql, s, e)
    ensures Reachable(sql, Next(sql, s, e))
  {
    var db, es :| Runs(sql, Init(db), es, s);
    RunsStep(sql, Init(db), es, s, e);
  }

  /** A failed COUNT is cached as a total of 0, and that is wrong exactly when there are students. */
  lemma CachedTotal(sql: Sql, s: State, id: nat, ok: bool)
    requires Reachable(sql, s) && Enabled(sql, s, ReadTotal(id, ok))
    ensures Enabled(sql, Next(sql, s, ReadTotal(id, ok)), SetEntry(id, true))
    ensures var t := Next(sql, Next(sql, s, ReadTotal(id, ok)), SetEntry(id, true));
            var key := CacheKey(STUDENTS, s.readers[id].query); var total := TotalIn(Replica(s), STUDENTS);
            && Cached(t, key)
            && (t.store[key].value.total == total <==> ok || total == 0)
            && (!ok ==> t.store[key].value.total == 0)
  {
    ReachableInv(sql, s);
    assert ReaderOk(sql, s.commits, s.replica, s.readers[id]);
    var loaded := Next(sql, s, ReadTotal(id, ok));
    assert loaded.readers[id].phase.Loaded? && loaded.now == s.now;
  }

  /** Such a list is served from the cache although the replica is up to date. */
  lemma FailedCountIsCached(sql: Sql)
    requires sql.list(STUDENTS, "", map[1 := map[]]).Some?
    ensures exists s: State ::
              && Reachable(sql, s) && s.commits != [] && s.replica + 1 == |s.commits|
              && Cached(s, CacheKey(STUDENTS, "")) && s.store[CacheKey(STUDENTS, "")].value.total == 0
              && TotalIn(Primary(s), STUDENTS) == 1
  {
    var s0 := BeforeCount(sql);
    CachedTotal(sql, s0, 1, false);
    ReachStep(sql, s0, ReadTotal(1, false));
    var s1 := Next(sql, s0, ReadTotal(1, false));
    ReachStep(sql, s1, SetEntry(1, true));
    var s := Next(sql, s1, SetEntry(1, true));
    assert RowsOf(Primary(s), STUDENTS).Keys == {1};
  }

  lemma EmptyRowShows(db: Db)
    requires STUDENTS in db && db[STUDENTS] == map[1 := map[]]
    ensures Visible(db, STUDENTS) == map[1 := map[]]
  {
    var rows := Visible(db, STUDENTS);
    assert RowsOf(db, STUDENTS).Keys == {1};
    assert rows.Keys == {1};
    assert rows[1] == Restrict(map[], ListColumns(STUDENTS)) == map[];
  }

  /** A reader has the rows of the only student and is about to count. */
  lemma BeforeCount(sql: Sql) returns (s: State)
    requires sql.list(STUDENTS, "", map[1 := map[]]).Some?
    ensures Reachable(sql, s) && s.commits == [map[STUDENTS := map[1 := map[]]]] && s.replica == 0
    ensures 1 in s.readers && s.readers[1].phase.RowsRead? && s.readers[1].query == ""
  {
    var db: Db := map[STUDENTS := map[1 := map[]]];
    var s0 := Init(db);
    assert Runs(sql, s0, [], s0);
    EmptyRowShows(db);
    ReachStep(sql, s0, Get(1, STUDENTS, "", true));
    var s1 := Next(sql, s0, Get(1, STUDENTS, "", true));
    ReachStep(sql, s1, ReadRows(1));
    s := Next(sql, s1, ReadRows(1));
  }

  /** The condition that loads and writes do not overlap is needed: a reader that counts no students,
      then a writer that adds one and completes its invalidation, then the reader's SET, leave the old
      total in the cache although nobody is writing, the replica is up to date and nothing failed. */
  lemma OverlapLeavesStale(sql: Sql)
    requires sql.list(STUDENTS, "", map[]) == Some([])
    ensures exists s: State ::
              && Reachable(sql, s) && s.commits != [] && s.replica + 1 == |s.commits| && Quiet(s, STUDENTS)
              && Cached(s, CacheKey(STUDENTS, ""))
              && Fresh(sql, s, STUDENTS, "") != Some(s.store[CacheKey(STUDENTS, "")].value)
  {
    var s0 := Init(map[]);
    assert Runs(sql, s0, [], s0);
    var s1 := LoadEmpty(sql, s0);
    var s2 := AddStudent(sql, s1);
    var s3 := SetOldTotal(sql, s2);
  }

  lemma SetOldTotal(sql: Sql, s0: State) returns (s: State)
    requires Reachable(sql, s0) && s0.commits == [map[], map[STUDENTS := map[1 := map[]]]] && s0.replica == 1
    requires s0.readers == map[1 := Reader(STUDENTS, "", Loaded(Listing([], 0), 0, Some(0)))]
    requires s0.writers == map[2 := Writer(STUDENTS, Finished)]
    ensures Reachable(sql, s) && s.commits != [] && s.replica + 1 == |s.commits| && Quiet(s, STUDENTS)
    ensures Cached(s, CacheKey(STUDENTS, "")) && s.store[CacheKey(STUDENTS, "")].value == Listing([], 0)
    ensures Fresh(sql, s, STUDENTS, "") != Some(Listing([], 0))
  {
    ReachStep(sql, s0, SetEntry(1, true));
    s := Next(sql, s0, SetEntry(1, true));
    assert RowsOf(Primary(s), STUDENTS).Keys == {1};
  }

  lemma LoadEmpty(sql: Sql, s0: State) returns (s: State)
    requires sql.list(STUDENTS, "", map[]) == Some([])
    requires s0 == Init(map[]) && Reachable(sql, s0)
    ensures Reachable(sql, s)
    ensures s == s0.(readers := map[1 := Reader(STUDENTS, "", Loaded(Listing([], 0), 0, Some(0)))])
  {
    ReachStep(sql, s0, Get(1, STUDENTS, "", true));
    var s1 := Next(sql, s0, Get(1, STUDENTS, "", true));
    ReachStep(sql, s1, ReadRows(1));
    var s2 := Next(sql, s1, ReadRows(1));
    ReachStep(sql, s2, ReadTotal(1, true));
    assert RowsOf(Replica(s2), STUDENTS).Keys == {};
    s := Next(sql, s2, ReadTotal(1, true));
  }

  lemma AddStudent(sql: Sql, s0: State) returns (s: State)
    requires s0 == Init(map[]).(readers := map[1 := Reader(STUDENTS, "", Loaded(Listing([], 0), 0, Some(0)))])
    requires Reachable(sql, s0)
    ensures Reachable(sql, s)
    ensures s == s0.(commits := [map[], map[STUDENTS := map[1 := map[]]]], replica := 1,
                     writers := map[2 := Writer(STUDENTS, Finished)])
  {
    var rows: Rows := map[1 := map[]];
    ReachStep(sql, s0, Commit(2, STUDENTS, rows));
    var s1 := Next(sql, s0, Commit(2, STUDENTS, rows));
    assert s1.commits == [map[], map[STUDENTS := map[1 := map[]]]];
    var s2 := InvalidateNothing(sql, s1);
    ReachStep(sql, s2, Replicate);
    s := Next(sql, s2, Replicate);
  }

  /** InvalidatePattern on an empty cache. */
  lemma InvalidateNothing(sql: Sql, s0: State) returns (s: State)
    requires Reachable(sql, s0) && s0.store == map[] && s0.writers == map[2 := Writer(STUDENTS, Committed)]
    ensures Reachable(sql, s) && s == s0.(writers := map[2 := Writer(STUDENTS, Finished)])
  {
    var s1 := ScanNothing(sql, s0);
    ReachStep(sql, s1, Del(2));
    s := Next(sql, s1, Del(2));
    assert s.store == map[];
  }

  lemma ScanNothing(sql: Sql, s0: State) returns (s: State)
    requires Reachable(sql, s0) && s0.store == map[] && s0.writers == map[2 := Writer(STUDENTS, Committed)]
    ensures Reachable(sql, s) && s == s0.(writers := map[2 := Writer(STUDENTS, Deleting({}))])
  {
    ReachStep(sql, s0, ScanStart(2));
    var s1 := Next(sql, s0, ScanStart(2));
    assert s1.writers == map[2 := Writer(STUDENTS, Scanning(map[]))];
    ReachStep(sql, s1, ScanEnd(2, {}));
    s := Next(sql, s1, ScanEnd(2, {}));
    assert s.writers == map[2 := Writer(STUDENTS, Deleting({}))];
  }
}
