/** Profile photos: an object in the bucket, a key in a row of the primary, and handlers that work on
    both without a transaction. Uploads go presign, PUT, confirm; a delete reads the key on the replica,
    clears the row and only then removes the object, and may stop after any of these. */
module PhotoLifecycle {
  import opened Strings
  import opened Tables

  // ---------------------------------------------------------------- keys

  /** What a confirmed key must start with. */
  function KeyPrefix(t: string, id: nat): string {
    "photos/" + t + "/" + Itoa(id) + "/profile"
  }

  function BuildKey(entity: string, id: nat, ext: string): string {
    "photos/" + entity + "/" + Itoa(id) + "/profile" + (if ext == "" then ".jpg" else ext)
  }

  predicate ConfirmAccepts(t: string, id: nat, key: string) {
    KeyPrefix(t, id) <= key
  }

  lemma TablesHaveNoSlash(t: string)
    requires IsTable(t)
    ensures '/' !in t
  {
  }

  lemma PrefixSplit(t: string, id: nat, key: string)
    requires KeyPrefix(t, id) <= key
    ensures |key| >= 7 && key[7..] == t + ['/'] + (Itoa(id) + ['/'] + ("profile" + key[|KeyPrefix(t, id)|..]))
  {
    var rest := key[|KeyPrefix(t, id)|..];
    assert key == KeyPrefix(t, id) + rest;
    assert "/profile" == ['/'] + "profile";
    assert KeyPrefix(t, id) + rest == "photos/" + (t + ['/'] + (Itoa(id) + ['/'] + ("profile" + rest)));
    assert |"photos/"| == 7;
  }

  /** No key is acceptable for two rows. */
  lemma OwnerIsUnique(t: string, id: nat, u: string, j: nat, key: string)
    requires IsTable(t) && IsTable(u)
    requires ConfirmAccepts(t, id, key) && ConfirmAccepts(u, j, key)
    ensures t == u && id == j
  {
    PrefixSplit(t, id, key);
    PrefixSplit(u, j, key);
    TablesHaveNoSlash(t);
    TablesHaveNoSlash(u);
    var x := Itoa(id) + ['/'] + ("profile" + key[|KeyPrefix(t, id)|..]);
    var y := Itoa(j) + ['/'] + ("profile" + key[|KeyPrefix(u, j)|..]);
    SplitFirst('/', t, x, u, y);
    assert '/' !in Itoa(id) && '/' !in Itoa(j);
    SplitFirst('/', Itoa(id), "profile" + key[|KeyPrefix(t, id)|..], Itoa(j), "profile" + key[|KeyPrefix(u, j)|..]);
    ItoaInjective(id, j);
  }

  /** A key that presigning hands out passes confirmation for its own row, and for no other. */
  lemma IssuedKeysConfirm(t: string, id: nat, ext: string, u: string, j: nat)
    requires IsTable(t) && IsTable(u)
    ensures ConfirmAccepts(u, j, BuildKey(t, id, ext)) <==> u == t && j == id
  {
    var e := if ext == "" then ".jpg" else ext;
    assert BuildKey(t, id, ext) == KeyPrefix(t, id) + e;
    assert ConfirmAccepts(t, id, BuildKey(t, id, ext));
    if ConfirmAccepts(u, j, BuildKey(t, id, ext)) {
      OwnerIsUnique(t, id, u, j, BuildKey(t, id, ext));
    }
  }

  // ---------------------------------------------------------------- rows

  predicate HasRow(db: Db, t: string, id: int) {
    id in RowsOf(db, t)
  }

  /** The photo key of a row; "" when the row is missing or the column is NULL or empty. */
  function Photo(db: Db, t: string, id: int): string {
    if HasRow(db, t, id) && PhotoS3Key in RowsOf(db, t)[id] then RowsOf(db, t)[id][PhotoS3Key] else ""
  }

  /** UPDATE t SET photo_s3_key = ? WHERE id = ?; the empty key is stored as NULL. */
  function SetPhoto(db: Db, t: string, id: int, key: string): Db {
    if !HasRow(db, t, id) then db
    else
      var row := RowsOf(db, t)[id];
      db[t := RowsOf(db, t)[id := if key == "" then row - {PhotoS3Key} else row[PhotoS3Key := key]]]
  }

  /** The database counts a row as affected only if the UPDATE changed it. */
  predicate Affected(db: Db, t: string, id: int, key: string) {
    && HasRow(db, t, id)
    && var row := RowsOf(db, t)[id];
       if key == "" then PhotoS3Key in row else !(PhotoS3Key in row && row[PhotoS3Key] == key)
  }

  lemma AffectedIsChange(db: Db, t: string, id: int, key: string)
    ensures Affected(db, t, id, key) <==> SetPhoto(db, t, id, key) != db
  {
    if HasRow(db, t, id) {
      var row := RowsOf(db, t)[id];
      var after := if key == "" then row - {PhotoS3Key} else row[PhotoS3Key := key];
      assert t in db && SetPhoto(db, t, id, key)[t][id] == after;
      if Affected(db, t, id, key) {
        assert after != row;
      } else {
        assert after == row;
        assert RowsOf(db, t)[id := after] == RowsOf(db, t);
        assert db[t := db[t]] == db;
      }
    }
  }

  /** What became of column c in row j of table u when a photo key was written to row id of table t. */
  predicate CellAfter(before: Db, after: Db, t: string, id: int, key: string, u: string, j: int, c: Column) {
    && (HasRow(after, u, j) <==> HasRow(before, u, j))
    && (HasRow(before, u, j) ==>
          var b, a := RowsOf(before, u)[j], RowsOf(after, u)[j];
          if (u, j, c) == (t, id, PhotoS3Key) then (c in a <==> key != "") && (key != "" ==> a[c] == key)
          else (c in a <==> c in b) && (c in b ==> a[c] == b[c]))
  }

  /** One cell: the photo column of one row holds the key, or is NULL for the empty key; every other value of
      every row of every table, and whether there is one, is what it was. */
  ghost predicate OnlyPhotoChanged(before: Db, after: Db, t: string, id: int, key: string) {
    forall u, j, c :: CellAfter(before, after, t, id, key, u, j, c)
  }

  /** The UPDATE of a photo key touches one cell. */
  lemma SetPhotoCells(db: Db, t: string, id: int, key: string)
    ensures OnlyPhotoChanged(db, SetPhoto(db, t, id, key), t, id, key)
  {
    forall u, j, c
      ensures CellAfter(db, SetPhoto(db, t, id, key), t, id, key, u, j, c)
    {
    }
  }

  /** Storing and clearing a photo key are hidden writes: no list of any table can show them. */
  lemma PhotoWriteIsHidden(db: Db, t: string, id: int, key: string, other: string)
    requires IsTable(t)
    ensures Visible(SetPhoto(db, t, id, key), other) == Visible(db, other)
  {
    var columns: Row := if key == "" then map[] else map[PhotoS3Key := key];
    var nulls := if key == "" then {PhotoS3Key} else {};
    if HasRow(db, t, id) {
      var row := RowsOf(db, t)[id];
      assert (row + columns) - nulls == if key == "" then row - {PhotoS3Key} else row[PhotoS3Key := key];
    }
    assert SetPhoto(db, t, id, key) == SetColumns(db, t, id, columns, nulls);
    HiddenWriteKeepsVisible(db, t, id, columns, nulls, other);
  }

  // ---------------------------------------------------------------- the step machine

  /** A client between its PUT and its confirm. */
  datatype Upload = Upload(table: string, id: nat, key: string)

  /** A delete handler that has read the key, and maybe cleared the row. */
  datatype Deletion = Deletion(table: string, id: nat, key: string, cleared: bool)

  datatype State = State(
    commits: seq<Db>,              // every state of the primary, oldest first
    replica: nat,                  // the replica shows commits[replica]
    objects: set<string>,          // keys present in the bucket
    uploads: map<nat, Upload>,
    deletions: map<nat, Deletion>)

  datatype Event =
    | Replicate
    | InsertRow(table: string, row: int, fields: Row)
    | WriteRow(table: string, row: int, columns: Row, nulls: set<Column>)
    | DeleteRow(table: string, row: int)
    | Put(client: nat, table: string, id: nat, ext: string)      // to a presigned URL
    | Confirm(client: nat, table: string, id: nat, key: string, fails: bool)
    | Abandon(client: nat)
    | ReadKey(req: nat, table: string, id: nat)
    | ClearRow(req: nat, fails: bool)
    | DeleteObject(req: nat, fails: bool)   // S3 resolves the request, whether its handler still waits or not
    | Crash(req: nat)                       // the handler dies before it has sent that request

  function Primary(s: State): Db
    requires s.commits != []
  {
    s.commits[|s.commits| - 1]
  }

  function Replica(s: State): Db
    requires s.replica < |s.commits|
  {
    s.commits[s.replica]
  }

  /** Rows are inserted without a photo, and the other UPDATE statements do not name its column. */
  predicate Enabled(s: State, e: Event) {
    && s.replica < |s.commits|
    && match e
       case Replicate => s.replica + 1 < |s.commits|
       case InsertRow(t, id, row) =>
         IsTable(t) && !HasRow(Primary(s), t, id) && (PhotoS3Key in row ==> row[PhotoS3Key] == "")
       case WriteRow(t, id, columns, nulls) => IsTable(t) && PhotoS3Key !in columns && PhotoS3Key !in nulls
       case DeleteRow(t, id) => HasRow(Primary(s), t, id)
       case Put(client, t, id, _) => client !in s.uploads && IsTable(t) && id > 0
       case Confirm(_, t, id, key, _) => IsTable(t) && id > 0 && ConfirmAccepts(t, id, key)
       case Abandon(client) => client in s.uploads
       case ReadKey(req, t, id) =>
         req !in s.deletions && IsTable(t) && id > 0 && Photo(Replica(s), t, id) != ""
       case ClearRow(req, _) => req in s.deletions && !s.deletions[req].cleared
       case DeleteObject(req, _) => req in s.deletions && s.deletions[req].cleared
       case Crash(req) => req in s.deletions
  }

  function Committed(s: State, db: Db): State {
    s.(commits := s.commits + [db])
  }

  function Next(s: State, e: Event): State
    requires Enabled(s, e)
  {
    match e
    case Replicate => s.(replica := s.replica + 1)
    case InsertRow(t, id, row) =>
      Committed(s, Primary(s)[t := RowsOf(Primary(s), t)[id := row]])
    case WriteRow(t, id, columns, nulls) => Committed(s, SetColumns(Primary(s), t, id, columns, nulls))
    case DeleteRow(t, id) => Committed(s, Primary(s)[t := RowsOf(Primary(s), t) - {id}])
    case Put(client, t, id, ext) =>
      s.(objects := s.objects + {BuildKey(t, id, ext)},
         uploads := s.uploads[client := Upload(t, id, BuildKey(t, id, ext))])
    case Confirm(client, t, id, key, fails) =>
      (if fails || !Affected(Primary(s), t, id, key) then s
       else Committed(s, SetPhoto(Primary(s), t, id, key))).(uploads := s.uploads - {client})
    case Abandon(client) => s.(uploads := s.uploads - {client})
    case ReadKey(req, t, id) =>
      s.(deletions := s.deletions[req := Deletion(t, id, Photo(Replica(s), t, id), false)])
    case ClearRow(req, fails) =>
      var d := s.deletions[req];
      if fails || !Affected(Primary(s), d.table, d.id, "")
      then s.(deletions := s.deletions - {req})        // an error response, nothing else happens
      else Committed(s, SetPhoto(Primary(s), d.table, d.id, "")).(
             deletions := s.deletions[req := d.(cleared := true)])
    case DeleteObject(req, fails) =>
      s.(objects := if fails then s.objects else s.objects - {s.deletions[req].key},
         deletions := s.deletions - {req})
    case Crash(req) => s.(deletions := s.deletions - {req})
  }

  predicate NoPhotos(db: Db) {
    forall t, id | t in db && id in db[t] :: Photo(db, t, id) == ""
  }

  predicate IsInit(s: State) {
    && s.replica < |s.commits| && (forall n :: 0 <= n < |s.commits| ==> NoPhotos(s.commits[n]))
    && s.uploads == map[] && s.deletions == map[]
  }

  ghost predicate Runs(s0: State, es: seq<Event>, s1: State)
    decreases |es|
  {
    if es == [] then s0 == s1
    else Enabled(s0, es[0]) && Runs(Next(s0, es[0]), es[1..], s1)
  }

  // ---------------------------------------------------------------- any run: a key has one owner

  predicate Own(t: string, id: int, key: string) {
    key != "" ==> IsTable(t) && id > 0 && ConfirmAccepts(t, id, key)
  }

  ghost predicate DbOk(db: Db) {
    forall t, id :: Own(t, id, Photo(db, t, id))
  }

  ghost predicate KeysOk(s: State) {
    && s.replica < |s.commits|
    && (forall n :: 0 <= n < |s.commits| ==> DbOk(s.commits[n]))
    && FlowsOk(s)
  }

  /** Uploads and deletes under way carry keys of their own rows. */
  predicate FlowsOk(s: State) {
    && (forall r :: r in s.deletions ==>
          var d := s.deletions[r]; IsTable(d.table) && d.id > 0 && ConfirmAccepts(d.table, d.id, d.key))
    && (forall c :: c in s.uploads ==>
          var u := s.uploads[c]; IsTable(u.table) && u.id > 0 && ConfirmAccepts(u.table, u.id, u.key))
  }

  lemma PhotoAfterWrite(db: Db, t: string, id: int, columns: Row, nulls: set<Column>, u: string, j: int)
    requires PhotoS3Key !in columns && PhotoS3Key !in nulls
    ensures Photo(SetColumns(db, t, id, columns, nulls), u, j) == Photo(db, u, j)
  {
  }

  /** The write of a key reaches one row. */
  lemma PhotoAfterSet(db: Db, t: string, id: int, key: string, u: string, j: int)
    ensures Photo(SetPhoto(db, t, id, key), u, j)
         == if (u, j) == (t, id) && HasRow(db, t, id) then key else Photo(db, u, j)
  {
  }

  lemma PhotoAfterInsert(db: Db, t: string, id: int, row: Row, u: string, j: int)
    requires !HasRow(db, t, id) && (PhotoS3Key in row ==> row[PhotoS3Key] == "")
    ensures Photo(db[t := RowsOf(db, t)[id := row]], u, j) == Photo(db, u, j)
  {
  }

  lemma PhotoAfterDelete(db: Db, t: string, id: int, u: string, j: int)
    ensures Photo(db[t := RowsOf(db, t) - {id}], u, j) == if (u, j) == (t, id) then "" else Photo(db, u, j)
  {
  }

  /** What one step does to the photo keys of the primary. */
  function StepKey(s: State, e: Event, t: string, id: int): string
    requires Enabled(s, e)
  {
    match e
    case DeleteRow(u, j) => if (t, id) == (u, j) then "" else Photo(Primary(s), t, id)
    case Confirm(_, u, j, key, fails) =>
      if !fails && (t, id) == (u, j) && HasRow(Primary(s), u, j) then key else Photo(Primary(s), t, id)
    case ClearRow(r, fails) =>
      if !fails && (t, id) == (s.deletions[r].table, s.deletions[r].id) then "" else Photo(Primary(s), t, id)
    case _ => Photo(Primary(s), t, id)
  }

  lemma PrimaryStep(s: State, e: Event, t: string, id: int)
    requires Enabled(s, e)
    ensures Next(s, e).commits != [] && Photo(Primary(Next(s, e)), t, id) == StepKey(s, e, t, id)
  {
    match e
    case InsertRow(u, j, row) => PhotoAfterInsert(Primary(s), u, j, row, t, id);
    case WriteRow(u, j, columns, nulls) => PhotoAfterWrite(Primary(s), u, j, columns, nulls, t, id);
    case DeleteRow(u, j) => PhotoAfterDelete(Primary(s), u, j, t, id);
    case Confirm(_, u, j, key, _) => PhotoAfterSet(Primary(s), u, j, key, t, id);
    case ClearRow(r, _) => PhotoAfterSet(Primary(s), s.deletions[r].table, s.deletions[r].id, "", t, id);
    case _ =>
  }

  lemma HistoryGrows(s: State, e: Event)
    requires Enabled(s, e)
    ensures Next(s, e).commits == s.commits
            || (|Next(s, e).commits| == |s.commits| + 1 && s.commits <= Next(s, e).commits)
  {
  }

  lemma StepKeepsKeys(s: State, e: Event)
    requires KeysOk(s) && Enabled(s, e)
    ensures KeysOk(Next(s, e))
  {
    HistoryGrows(s, e);
    PrimaryKeepsKeys(s, e);
    FlowsKeepKeys(s, e);
  }

  lemma PrimaryKeepsKeys(s: State, e: Event)
    requires KeysOk(s) && Enabled(s, e)
    ensures Next(s, e).commits != [] && DbOk(Primary(Next(s, e)))
  {
    PrimaryStep(s, e, "", 0);
    assert DbOk(Primary(s));
    forall t, id ensures Own(t, id, Photo(Primary(Next(s, e)), t, id)) {
      PrimaryStep(s, e, t, id);
      assert Own(t, id, Photo(Primary(s), t, id));
    }
  }

  lemma FlowsKeepKeys(s: State, e: Event)
    requires KeysOk(s) && Enabled(s, e)
    ensures FlowsOk(Next(s, e))
  {
    if e.Put? { IssuedKeysConfirm(e.table, e.id, e.ext, e.table, e.id); }
    if e.ReadKey? {
      assert DbOk(Replica(s));
      assert Own(e.table, e.id, Photo(Replica(s), e.table, e.id));
    }
  }

  lemma {:induction false} RunKeepsKeys(s0: State, es: seq<Event>, s1: State)
    requires KeysOk(s0) && Runs(s0, es, s1)
    ensures KeysOk(s1)
    decreases |es|
  {
    if es != [] {
      StepKeepsKeys(s0, es[0]);
      RunKeepsKeys(Next(s0, es[0]), es[1..], s1);
    }
  }

  lemma InitKeysOk(s: State)
    requires IsInit(s)
    ensures KeysOk(s)
  {
    forall n | 0 <= n < |s.commits| ensures DbOk(s.commits[n]) {
      assert NoPhotos(s.commits[n]);
    }
  }

  ghost predicate Reachable(s: State) {
    exists s0, es :: IsInit(s0) && Runs(s0, es, s)
  }

  /** In every run, whatever clients confirm and however deletes interleave, no two rows of any tables
      ever hold the same key, not even in two different states of the primary. So the key that a GET
      reads on the replica was never another row's. */
  lemma KeysAreDistinct(s: State, m: nat, n: nat, t: string, id: int, u: string, j: int)
    requires Reachable(s) && m < |s.commits| && n < |s.commits|
    requires Photo(s.commits[m], t, id) != "" && Photo(s.commits[m], t, id) == Photo(s.commits[n], u, j)
    ensures t == u && id == j
  {
    var s0, es :| IsInit(s0) && Runs(s0, es, s);
    InitKeysOk(s0);
    RunKeepsKeys(s0, es, s);
    assert DbOk(s.commits[m]) && DbOk(s.commits[n]);
    var key := Photo(s.commits[m], t, id);
    assert Own(t, id, key) && Own(u, j, key);
    OwnerIsUnique(t, id, u, j, key);
  }

  // ---------------------------------------------------------------- orderly runs: a key names an object

  predicate Uploading(s: State, t: string, id: nat) {
    exists c :: c in s.uploads && s.uploads[c].table == t && s.uploads[c].id == id
  }

  predicate Deleting(s: State, t: string, id: nat) {
    exists r :: r in s.deletions && s.deletions[r].table == t && s.deletions[r].id == id
  }

  /** A client confirms the key it has just PUT, and no PUT-then-confirm of a row overlaps a delete of
      its photo; a delete lasts until it gives up or S3 has resolved its request. */
  predicate Orderly(s: State, e: Event) {
    match e
    case Put(_, t, id, _) => !Deleting(s, t, id)
    case Confirm(client, t, id, key, _) => client in s.uploads && s.uploads[client] == Upload(t, id, key)
    case ReadKey(_, t, id) => !Uploading(s, t, id)
    case _ => true
  }

  ghost predicate OrderlyRuns(s0: State, es: seq<Event>, s1: State)
    decreases |es|
  {
    if es == [] then s0 == s1
    else Enabled(s0, es[0]) && Orderly(s0, es[0]) && OrderlyRuns(Next(s0, es[0]), es[1..], s1)
  }

  ghost predicate OrderlyReachable(s: State) {
    exists s0, es :: IsInit(s0) && OrderlyRuns(s0, es, s)
  }

  ghost predicate RowsHaveObjects(s: State)
    requires s.commits != []
  {
    forall t, id :: Photo(Primary(s), t, id) != "" ==> Photo(Primary(s), t, id) in s.objects
  }

  predicate Apart(s: State) {
    forall c, r :: c in s.uploads && r in s.deletions ==>
      (s.uploads[c].table, s.uploads[c].id) != (s.deletions[r].table, s.deletions[r].id)
  }

  predicate UploadsStored(s: State) {
    forall c :: c in s.uploads ==> s.uploads[c].key in s.objects
  }

  predicate ClearedRows(s: State)
    requires s.commits != []
  {
    forall r :: r in s.deletions && s.deletions[r].cleared ==>
      Photo(Primary(s), s.deletions[r].table, s.deletions[r].id) == ""
  }

  ghost predicate Inv(s: State) {
    KeysOk(s) && RowsHaveObjects(s) && Apart(s) && UploadsStored(s) && ClearedRows(s)
  }

  /** Removing the object of a cleared row takes it from no other row and from no upload. */
  lemma RemovalIsHarmless(s: State, r: nat, t: string, id: int, c: nat)
    requires Inv(s) && r in s.deletions && s.deletions[r].cleared
    ensures Photo(Primary(s), t, id) != "" ==> Photo(Primary(s), t, id) != s.deletions[r].key
    ensures c in s.uploads ==> s.uploads[c].key != s.deletions[r].key
  {
    var d := s.deletions[r];
    var key := Photo(Primary(s), t, id);
    assert DbOk(Primary(s));
    assert Own(t, id, key);
    if key != "" && key == d.key {
      OwnerIsUnique(t, id, d.table, d.id, key);
      assert false;
    }
    if c in s.uploads && s.uploads[c].key == d.key {
      OwnerIsUnique(s.uploads[c].table, s.uploads[c].id, d.table, d.id, d.key);
      assert false;
    }
  }

  lemma StepKeepsObjects(s: State, e: Event)
    requires Inv(s) && Enabled(s, e) && Orderly(s, e)
    ensures Next(s, e).commits != [] && RowsHaveObjects(Next(s, e))
  {
    var n := Next(s, e);
    PrimaryStep(s, e, "", 0);
    forall t, id | Photo(Primary(n), t, id) != "" ensures Photo(Primary(n), t, id) in n.objects {
      PrimaryStep(s, e, t, id);
      if e.DeleteObject? { RemovalIsHarmless(s, e.req, t, id, 0); }
    }
  }

  lemma StepKeepsApart(s: State, e: Event)
    requires Apart(s) && Enabled(s, e) && Orderly(s, e)
    ensures Apart(Next(s, e))
  {
  }

  lemma StepKeepsUploads(s: State, e: Event)
    requires Inv(s) && Enabled(s, e) && Orderly(s, e)
    ensures UploadsStored(Next(s, e)) && Apart(Next(s, e))
  {
    var n := Next(s, e);
    StepKeepsApart(s, e);
    forall c | c in n.uploads ensures n.uploads[c].key in n.objects {
      if e.DeleteObject? { RemovalIsHarmless(s, e.req, "", 0, c); }
    }
  }

  lemma ClearedRowStays(s: State, e: Event, r: nat)
    requires Inv(s) && Enabled(s, e) && Orderly(s, e)
    requires r in Next(s, e).deletions && Next(s, e).deletions[r].cleared
    ensures StepKey(s, e, Next(s, e).deletions[r].table, Next(s, e).deletions[r].id) == ""
  {
    if !(e.ClearRow? && e.req == r) {
      assert r in s.deletions && s.deletions[r] == Next(s, e).deletions[r];
    }
  }

  lemma StepKeepsCleared(s: State, e: Event)
    requires Inv(s) && Enabled(s, e) && Orderly(s, e)
    ensures Next(s, e).commits != [] && ClearedRows(Next(s, e))
  {
    var n := Next(s, e);
    PrimaryStep(s, e, "", 0);
    forall r | r in n.deletions && n.deletions[r].cleared
      ensures Photo(Primary(n), n.deletions[r].table, n.deletions[r].id) == ""
    {
      PrimaryStep(s, e, n.deletions[r].table, n.deletions[r].id);
      ClearedRowStays(s, e, r);
    }
  }

  lemma {:induction false} RunKeepsInv(s0: State, es: seq<Event>, s1: State)
    requires Inv(s0) && OrderlyRuns(s0, es, s1)
    ensures Inv(s1)
    decreases |es|
  {
    if es != [] {
      StepKeepsKeys(s0, es[0]);
      StepKeepsObjects(s0, es[0]);
      StepKeepsUploads(s0, es[0]);
      StepKeepsCleared(s0, es[0]);
      RunKeepsInv(Next(s0, es[0]), es[1..], s1);
    }
  }

  lemma InitInv(s: State)
    requires IsInit(s)
    ensures Inv(s)
  {
    InitKeysOk(s);
    assert NoPhotos(Primary(s));
  }

  /** As long as no PUT-then-confirm overlaps a delete of the same row's photo, a non-empty key on the
      primary names an object that exists: at every moment, also after crashes between clearing the row
      and removing the object, failed removals and deletes that read a stale key. */
  lemma PhotoSafety(s: State, t: string, id: int)
    requires OrderlyReachable(s) && s.commits != [] && Photo(Primary(s), t, id) != ""
    ensures Photo(Primary(s), t, id) in s.objects
  {
    var s0, es :| IsInit(s0) && OrderlyRuns(s0, es, s);
    InitInv(s0);
    RunKeepsInv(s0, es, s);
  }

  lemma RunPrepend(s: State, e: Event, es: seq<Event>, s1: State)
    requires Enabled(s, e) && Runs(Next(s, e), es, s1)
    ensures Runs(s, [e] + es, s1)
  {
    assert ([e] + es)[1..] == es;
  }

  /** The first half of a delete whose replica is up to date. */
  lemma DeleteBegins(s: State, t: string, id: nat)
    requires s.replica < |s.commits| && IsTable(t) && id > 0 && s.deletions == map[]
    requires Photo(Primary(s), t, id) == Photo(Replica(s), t, id) != ""
    ensures Enabled(s, ReadKey(0, t, id)) && Enabled(Next(s, ReadKey(0, t, id)), ClearRow(0, false))
    ensures var n := Next(Next(s, ReadKey(0, t, id)), ClearRow(0, false));
            && n.uploads == s.uploads && n.replica < |n.commits| && HasRow(Primary(n), t, id)
            && n.deletions == map[0 := Deletion(t, id, Photo(Primary(s), t, id), true)]
  {
    var r := Next(s, ReadKey(0, t, id));
    assert Primary(r) == Primary(s);
    assert Affected(Primary(r), t, id, "");
  }

  lemma ConfirmLands(s: State, t: string, id: nat, key: string)
    requires s.replica < |s.commits| && IsTable(t) && id > 0 && HasRow(Primary(s), t, id)
    requires ConfirmAccepts(t, id, key)
    ensures Enabled(s, Confirm(0, t, id, key, false))
    ensures var n := Next(s, Confirm(0, t, id, key, false));
            n.deletions == s.deletions && n.replica < |n.commits| && Photo(Primary(n), t, id) == key
  {
    PhotoAfterSet(Primary(s), t, id, key, t, id);
    if !Affected(Primary(s), t, id, key) {
      assert key != "";
    }
  }

  /** An upload and its confirm. */
  lemma UploadLands(s: State, t: string, id: nat, ext: string)
    requires s.replica < |s.commits| && IsTable(t) && id > 0 && 0 !in s.uploads && HasRow(Primary(s), t, id)
    ensures var put := Put(0, t, id, ext); var confirm := Confirm(0, t, id, BuildKey(t, id, ext), false);
            && Enabled(s, put) && Enabled(Next(s, put), confirm)
            && var n := Next(Next(s, put), confirm);
            && n.deletions == s.deletions && n.replica < |n.commits| && Photo(Primary(n), t, id) == BuildKey(t, id, ext)
  {
    IssuedKeysConfirm(t, id, ext, t, id);
    var put := Next(s, Put(0, t, id, ext));
    assert Primary(put) == Primary(s);
    ConfirmLands(put, t, id, BuildKey(t, id, ext));
  }

  /** The upload slips in, then the delete goes on. */
  lemma UploadThenRemoval(s: State, t: string, id: nat, ext: string) returns (es: seq<Event>, s1: State)
    requires s.replica < |s.commits| && IsTable(t) && id > 0 && 0 !in s.uploads && HasRow(Primary(s), t, id)
    requires s.deletions == map[0 := Deletion(t, id, BuildKey(t, id, ext), true)]
    ensures Runs(s, es, s1) && s1.commits != []
    ensures Photo(Primary(s1), t, id) == BuildKey(t, id, ext) && BuildKey(t, id, ext) !in s1.objects
  {
    var key := BuildKey(t, id, ext);
    UploadLands(s, t, id, ext);
    var put, confirm, remove := Put(0, t, id, ext), Confirm(0, t, id, key, false), DeleteObject(0, false);
    var a := Next(s, put);
    var b := Next(a, confirm);
    s1 := Next(b, remove);
    assert Primary(s1) == Primary(b);
    assert Runs(s1, [], s1);
    RunPrepend(b, remove, [], s1);
    RunPrepend(a, confirm, [remove] + [], s1);
    RunPrepend(s, put, [confirm] + ([remove] + []), s1);
    es := [put] + ([confirm] + ([remove] + []));
  }

  /** The condition is needed: an upload that slips between the two halves of a delete of the same key
      leaves a row whose object is gone. */
  lemma OverlapDangles(s: State, t: string, id: nat, ext: string)
    requires s.replica < |s.commits| && IsTable(t) && id > 0 && s.uploads == map[] && s.deletions == map[]
    requires Photo(Primary(s), t, id) == Photo(Replica(s), t, id) == BuildKey(t, id, ext)
    ensures exists es, s1 :: Runs(s, es, s1) && s1.commits != []
                          && Photo(Primary(s1), t, id) == BuildKey(t, id, ext) && BuildKey(t, id, ext) !in s1.objects
  {
    var es, s1 := OverlappingRun(s, t, id, ext);
  }

  lemma OverlappingRun(s: State, t: string, id: nat, ext: string) returns (es: seq<Event>, s1: State)
    requires s.replica < |s.commits| && IsTable(t) && id > 0 && s.uploads == map[] && s.deletions == map[]
    requires Photo(Primary(s), t, id) == Photo(Replica(s), t, id) == BuildKey(t, id, ext)
    ensures Runs(s, es, s1) && s1.commits != []
    ensures Photo(Primary(s1), t, id) == BuildKey(t, id, ext) && BuildKey(t, id, ext) !in s1.objects
  {
    var key := BuildKey(t, id, ext);
    assert key != "" by { IssuedKeysConfirm(t, id, ext, t, id); assert |KeyPrefix(t, id)| > 0; }
    DeleteBegins(s, t, id);
    var a, b := ReadKey(0, t, id), ClearRow(0, false);
    var cleared := Next(Next(s, a), b);
    es, s1 := UploadThenRemoval(cleared, t, id, ext);
    RunPrepend(Next(s, a), b, es, s1);
    RunPrepend(s, a, [b] + es, s1);
    es := [a] + ([b] + es);
  }

  /** A student whose photo has been uploaded, confirmed and replicated, and nothing else under way. */
  lemma PhotoReplicated() returns (s0: State, e1: Event, e2: Event, e3: Event)
    ensures IsInit(s0) && Enabled(s0, e1) && Enabled(Next(s0, e1), e2) && Enabled(Next(Next(s0, e1), e2), e3)
    ensures var s := Next(Next(Next(s0, e1), e2), e3);
            && s.replica < |s.commits| && s.uploads == map[] && s.deletions == map[]
            && Photo(Primary(s), STUDENTS, 1) == Photo(Replica(s), STUDENTS, 1) == BuildKey(STUDENTS, 1, "")
  {
    var db: Db := map[STUDENTS := map[1 := map[]]];
    s0 := State([db], 0, {}, map[], map[]);
    var key := BuildKey(STUDENTS, 1, "");
    e1, e2, e3 := Put(0, STUDENTS, 1, ""), Confirm(0, STUDENTS, 1, key, false), Replicate;
    UploadLands(s0, STUDENTS, 1, "");
    var landed := Next(Next(s0, e1), e2);
    assert landed.uploads == map[];
    assert Affected(db, STUDENTS, 1, key);
    assert |landed.commits| == 2;
  }

  /** And such a run starts from a system without photos: a reachable state has a dangling key. */
  lemma DanglingIsReachable()
    ensures exists s: State ::
              && Reachable(s) && s.commits != []
              && Photo(Primary(s), STUDENTS, 1) == BuildKey(STUDENTS, 1, "") && BuildKey(STUDENTS, 1, "") !in s.objects
  {
    var s0, e1, e2, e3 := PhotoReplicated();
    var es, s := OverlappingRun(Next(Next(Next(s0, e1), e2), e3), STUDENTS, 1, "");
    AfterThree(s0, e1, e2, e3, es, s);
  }

  lemma AfterThree(s0: State, e1: Event, e2: Event, e3: Event, es: seq<Event>, s: State)
    requires IsInit(s0) && Enabled(s0, e1) && Enabled(Next(s0, e1), e2) && Enabled(Next(Next(s0, e1), e2), e3)
    requires Runs(Next(Next(Next(s0, e1), e2), e3), es, s)
    ensures Reachable(s)
  {
    TwoMore(Next(s0, e1), e2, e3, es, s);
    RunPrepend(s0, e1, [e2] + ([e3] + es), s);
  }

  lemma TwoMore(s0: State, e1: Event, e2: Event, es: seq<Event>, s: State)
    requires Enabled(s0, e1) && Enabled(Next(s0, e1), e2) && Runs(Next(Next(s0, e1), e2), es, s)
    ensures Runs(s0, [e1] + ([e2] + es), s)
  {
    RunPrepend(Next(s0, e1), e2, es, s);
    RunPrepend(s0, e1, [e2] + es, s);
  }
}
