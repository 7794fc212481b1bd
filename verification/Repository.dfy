/** The write methods of the repository layer on the primary: batch patch, single patch, batch delete
    and batch insert. Faults of the database are inputs; a transaction works on a copy that a commit
    publishes and a rollback drops. */
module Repository {
  import opened Strings
  import opened Tables
  import opened BatchPatch

  // ---------------------------------------------------------------- JSON bodies and models

  datatype JsonValue = JText(text: string) | JNumber(trunc: int) | JBool(flag: bool) | JNull | JNested

  /** A key of a JSON object, named by the model field whose JSON tag it equals. */
  datatype Key = IdKey | FieldKey(column: Column) | OtherKey(name: string)

  type Body = map<Key, JsonValue>

  /** The Go type of a model field: string, bool, or a struct such as sql.NullString. */
  datatype Kind = Text | Flag | Struct

  /** A model and its UPDATE statement: the fields that have a JSON tag, the columns that the SELECT
      before the UPDATE reads, the columns that the UPDATE writes, and the zero value of each. */
  datatype Schema = Schema(fields: map<Column, Kind>, read: set<Column>, written: set<Column>, zero: Row) {
    ghost predicate Valid() {
      read <= written <= fields.Keys && written <= zero.Keys
    }
  }

  function TextOf(v: JsonValue): string {
    match v
    case JText(text) => text
    case JBool(flag) => if flag then "1" else "0"
    case _ => ""
  }

  /** reflect's ConvertibleTo for values that encoding/json decodes. */
  predicate Convertible(v: JsonValue, kind: Kind) {
    (kind.Text? && v.JText?) || (kind.Flag? && v.JBool?)
  }

  predicate ConvertibleBy(schema: Schema, body: Body, keys: set<Key>) {
    forall c :: c in schema.fields && FieldKey(c) in body && FieldKey(c) in keys ==>
      Convertible(body[FieldKey(c)], schema.fields[c])
  }

  /** Text fields are given texts and flags are given booleans; nothing else has a JSON value. */
  predicate AllConvertible(schema: Schema, body: Body) {
    forall c :: c in schema.fields && FieldKey(c) in body ==>
      match schema.fields[c]
      case Text => body[FieldKey(c)].JText?
      case Flag => body[FieldKey(c)].JBool?
      case Struct => false
  }

  predicate NullFree(body: Body) {
    forall k :: k in body ==> !body[k].JNull?
  }

  /** The model fields that some keys of a body set. */
  function SetBy(schema: Schema, body: Body, keys: set<Key>): Row {
    map c | c in schema.fields && FieldKey(c) in body && FieldKey(c) in keys :: TextOf(body[FieldKey(c)])
  }

  /** The model fields that a body sets. */
  function SetFields(schema: Schema, body: Body): Row {
    SetBy(schema, body, body.Keys)
  }

  /** The column text is what the JSON value says: a text as it is, true and false as 1 and 0. */
  predicate Says(v: JsonValue, text: string) {
    v == JText(text) || (v == JBool(true) && text == "1") || (v == JBool(false) && text == "0")
  }

  /** A row patched by a body: the named columns say what the body says, the others are what they were. */
  ghost predicate RowPatched(columns: set<Column>, body: Body, before: Row, after: Row) {
    forall c :: if c in columns && FieldKey(c) in body then c in after && Says(body[FieldKey(c)], after[c])
                else && (c in before ==> c in after && after[c] == before[c])
                     && (c !in before && c !in columns ==> c !in after)
  }

  /** The columns that a body changes through the UPDATE statement. */
  function Changes(schema: Schema, body: Body): Row {
    Restrict(SetFields(schema, body), schema.written)
  }

  datatype Filled = FilledIn(model: Row) | Unconvertible | Panic

  lemma SetByNone(schema: Schema, body: Body, base: Row)
    ensures base + SetBy(schema, body, {}) == base && ConvertibleBy(schema, body, {})
  {
  }

  lemma SetByAndOne(schema: Schema, body: Body, keys: set<Key>, c: Column)
    requires FieldKey(c) in body && c in schema.fields
    ensures SetBy(schema, body, keys + {FieldKey(c)}) == SetBy(schema, body, keys)[c := TextOf(body[FieldKey(c)])]
  {
  }

  lemma AddedAndOne(base: Row, row: Row, c: Column, text: string)
    ensures base + row[c := text] == (base + row)[c := text]
  {
  }

  lemma SetByOneMore(schema: Schema, body: Body, keys: set<Key>, c: Column, base: Row)
    requires FieldKey(c) in body && c in schema.fields
    requires ConvertibleBy(schema, body, keys) && Convertible(body[FieldKey(c)], schema.fields[c])
    ensures base + SetBy(schema, body, keys + {FieldKey(c)})
         == (base + SetBy(schema, body, keys))[c := TextOf(body[FieldKey(c)])]
    ensures ConvertibleBy(schema, body, keys + {FieldKey(c)})
  {
    SetByAndOne(schema, body, keys, c);
    AddedAndOne(base, SetBy(schema, body, keys), c, TextOf(body[FieldKey(c)]));
  }

  lemma SetByUnknown(schema: Schema, body: Body, keys: set<Key>, k: Key)
    requires k.FieldKey? ==> k.column !in schema.fields
    requires ConvertibleBy(schema, body, keys)
    ensures SetBy(schema, body, keys + {k}) == SetBy(schema, body, keys) && ConvertibleBy(schema, body, keys + {k})
  {
  }

  lemma AllIsByEvery(schema: Schema, body: Body)
    ensures AllConvertible(schema, body) <==> ConvertibleBy(schema, body, body.Keys)
  {
  }

  lemma AddedSays(schema: Schema, body: Body, base: Row)
    requires AllConvertible(schema, body)
    ensures RowPatched(schema.fields.Keys, body, base, base + SetFields(schema, body))
  {
  }

  /** The reflection loop over the body: map iteration order is arbitrary, and does not matter for the
      result unless the body holds a null. */
  method FillModel(schema: Schema, base: Row, body: Body) returns (r: Filled)
    ensures r.FilledIn? <==> AllConvertible(schema, body)
    ensures r.FilledIn? ==> r.model == base + SetFields(schema, body)
    ensures r.FilledIn? ==> RowPatched(schema.fields.Keys, body, base, r.model)
    ensures NullFree(body) ==> !r.Panic?
  {
    var model := base;
    var pending := body.Keys;
    ghost var done: set<Key> := {};
    SetByNone(schema, body, base);
    while pending != {}
      invariant body.Keys == pending + done
      invariant ConvertibleBy(schema, body, done) && model == base + SetBy(schema, body, done)
      decreases |pending|
    {
      var k :| k in pending;
      if k.FieldKey? && k.column in schema.fields {
        if body[k].JNull? {
          return Panic;
        }
        if !Convertible(body[k], schema.fields[k.column]) {
          return Unconvertible;
        }
        SetByOneMore(schema, body, done, k.column, base);
        model := model[k.column := TextOf(body[k])];
      } else {
        SetByUnknown(schema, body, done, k);
      }
      pending, done := pending - {k}, done + {k};
    }
    assert done == body.Keys;
    AllIsByEvery(schema, body);
    AddedSays(schema, body, base);
    r := FilledIn(model);
  }

  // ---------------------------------------------------------------- outcomes

  datatype Reason = Begin | BadId | NoSuchRow | Query | Statement | CommitFailed | NothingDeleted

  /** Applied and SilentlyDropped both come back as a nil error. */
  datatype PatchOutcome = Applied | SilentlyDropped | Rejected(reason: Reason) | Panicked

  datatype DeleteOutcome = Deleted(ids: seq<int>) | DeleteFailed(reason: Reason)

  datatype AddOutcome = Added(ids: seq<int>) | AddFailed

  /** Which calls to the database fail: begin or prepare, the i-th query, the i-th statement, the i-th
      result inspection, the commit. */
  datatype Faults = Faults(
    begin: bool, query: nat -> bool, statement: nat -> bool, result: nat -> bool, commit: bool)

  function IdOf(body: Body): Option<int> {
    if IdKey in body && body[IdKey].JText? then Atoi(body[IdKey].text) else None
  }

  function PatchOf(schema: Schema, body: Body): Patch {
    Patch(if IdOf(body).Some? then IdOf(body).value else 0, Changes(schema, body))
  }

  function Patches(schema: Schema, bodies: seq<Body>): seq<Patch> {
    seq(|bodies|, i requires 0 <= i < |bodies| => PatchOf(schema, bodies[i]))
  }

  predicate Acceptable(rows: Rows, schema: Schema, body: Body) {
    IdOf(body).Some? && IdOf(body).value in rows && AllConvertible(schema, body)
  }

  /** Every body can be applied and the database does its part. */
  ghost predicate Clean(rows: Rows, schema: Schema, bodies: seq<Body>, faults: Faults) {
    && !faults.begin && !faults.commit
    && (forall i :: 0 <= i < |bodies| ==>
          Acceptable(rows, schema, bodies[i]) && !faults.query(i) && !faults.statement(i))
  }

  /** Body i is the first one that cannot be applied, and what stops it is a value of the wrong type. */
  ghost predicate DropsAt(rows: Rows, schema: Schema, bodies: seq<Body>, faults: Faults, i: nat) {
    && !faults.begin && i < |bodies|
    && (forall j :: 0 <= j < i ==> Acceptable(rows, schema, bodies[j]) && !faults.query(j) && !faults.statement(j))
    && IdOf(bodies[i]).Some? && !faults.query(i) && IdOf(bodies[i]).value in rows
    && !AllConvertible(schema, bodies[i])
  }

  ghost predicate Drops(rows: Rows, schema: Schema, bodies: seq<Body>, faults: Faults) {
    exists i :: DropsAt(rows, schema, bodies, faults, i)
  }

  /** The batch loop has come to body i. */
  ghost predicate Reached(rows: Rows, schema: Schema, bodies: seq<Body>, faults: Faults, i: nat) {
    && !faults.begin && i <= |bodies|
    && (forall j :: 0 <= j < i ==> Acceptable(rows, schema, bodies[j]) && !faults.query(j) && !faults.statement(j))
  }

  lemma AtBody(rows: Rows, schema: Schema, bodies: seq<Body>, faults: Faults, i: nat)
    requires Reached(rows, schema, bodies, faults, i) && i < |bodies|
    ensures var fine := Acceptable(rows, schema, bodies[i]) && !faults.query(i) && !faults.statement(i);
            && (fine ==> Reached(rows, schema, bodies, faults, i + 1))
            && (!fine ==> !Clean(rows, schema, bodies, faults))
            && (!fine ==> (Drops(rows, schema, bodies, faults) <==> DropsAt(rows, schema, bodies, faults, i)))
  {
    forall k: nat | DropsAt(rows, schema, bodies, faults, k)
      ensures i <= k
    {
    }
  }

  lemma AtEnd(rows: Rows, schema: Schema, bodies: seq<Body>, faults: Faults)
    requires Reached(rows, schema, bodies, faults, |bodies|)
    ensures Clean(rows, schema, bodies, faults) <==> !faults.commit
    ensures !Drops(rows, schema, bodies, faults)
    ensures forall j :: 0 <= j < |bodies| ==> Acceptable(rows, schema, bodies[j])
  {
  }

  /** Body i is the last one for an id. */
  ghost predicate LastFor(bodies: seq<Body>, id: int, i: int) {
    && 0 <= i < |bodies| && IdOf(bodies[i]) == Some(id)
    && forall j :: i < j < |bodies| ==> IdOf(bodies[j]) != Some(id)
  }

  /** What a batch PATCH promises, column by column: every row is patched by the last body for its id, on
      what it held before the batch, and the rows without one are untouched. */
  ghost predicate BatchPatched(before: Rows, columns: set<Column>, bodies: seq<Body>, after: Rows) {
    && after.Keys == before.Keys
    && (forall id, i :: id in before && LastFor(bodies, id, i) ==>
          RowPatched(columns, bodies[i], before[id], after[id]))
    && (forall id :: id in before && (forall i :: 0 <= i < |bodies| ==> IdOf(bodies[i]) != Some(id)) ==>
          after[id] == before[id])
  }

  lemma LastBodyShows(rows: Rows, schema: Schema, bodies: seq<Body>, id: int, i: nat)
    requires schema.Valid() && id in rows && LastFor(bodies, id, i)
    requires forall j :: 0 <= j < |bodies| ==> Acceptable(rows, schema, bodies[j])
    ensures id in Batch(rows, schema.written, Patches(schema, bodies))
    ensures RowPatched(schema.written, bodies[i], rows[id], Batch(rows, schema.written, Patches(schema, bodies))[id])
  {
    var ps := Patches(schema, bodies);
    BatchKeys(rows, schema.written, ps);
    assert ps[i] == PatchOf(schema, bodies[i]) && ps[i].id == id;
    assert forall j :: i < j < |ps| ==> ps[j].id != id by {
      assert forall j :: i < j < |bodies| ==> ps[j].id == IdOf(bodies[j]).value;
    }
    forall c: Column
      ensures var after := Batch(rows, schema.written, ps)[id];
              if c in schema.written && FieldKey(c) in bodies[i]
              then c in after && Says(bodies[i][FieldKey(c)], after[c])
              else && (c in rows[id] ==> c in after && after[c] == rows[id][c])
                   && (c !in rows[id] && c !in schema.written ==> c !in after)
    {
      BatchLast(rows, schema.written, ps, i, c);
      if c !in schema.written {
        BatchOutside(rows, schema.written, ps, id, c);
      }
    }
  }

  lemma BatchShows(rows: Rows, schema: Schema, bodies: seq<Body>)
    requires schema.Valid() && forall j :: 0 <= j < |bodies| ==> Acceptable(rows, schema, bodies[j])
    ensures BatchPatched(rows, schema.written, bodies, Batch(rows, schema.written, Patches(schema, bodies)))
  {
    var ps := Patches(schema, bodies);
    BatchKeys(rows, schema.written, ps);
    forall id, i | id in rows && LastFor(bodies, id, i)
      ensures RowPatched(schema.written, bodies[i], rows[id], Batch(rows, schema.written, ps)[id])
    {
      LastBodyShows(rows, schema, bodies, id, i);
    }
    forall id | id in rows && forall i :: 0 <= i < |bodies| ==> IdOf(bodies[i]) != Some(id)
      ensures Batch(rows, schema.written, ps)[id] == rows[id]
    {
      assert forall j :: 0 <= j < |ps| ==> Some(ps[j].id) == IdOf(bodies[j]);
      BatchUntouched(rows, schema.written, ps, id);
    }
  }

  class Primary {
    var db: Db
    var nextId: map<string, int>

    /** Rows of table t, with auto-increment ahead of every id in use. */
    ghost predicate HasTable(t: string)
      reads this
    {
      t in db && t in nextId && forall id :: id in db[t] ==> id < nextId[t]
    }

    /** PatchStudents, PatchTeachers and PatchExecs. */
    method PatchMany(t: string, schema: Schema, bodies: seq<Body>, faults: Faults) returns (outcome: PatchOutcome)
      requires schema.Valid() && schema.read == schema.written && HasTable(t)
      modifies this`db
      ensures outcome.Applied? <==> Clean(old(db)[t], schema, bodies, faults)
      ensures outcome.Applied? ==>
                db == old(db)[t := Batch(old(db)[t], schema.written, Patches(schema, bodies))]
      ensures outcome.Applied? ==> BatchPatched(old(db)[t], schema.written, bodies, db[t])
      ensures !outcome.Applied? ==> db == old(db)
      ensures (forall i :: 0 <= i < |bodies| ==> NullFree(bodies[i])) ==> !outcome.Panicked?
      ensures (forall i :: 0 <= i < |bodies| ==> NullFree(bodies[i])) ==>
                (outcome.SilentlyDropped? <==> Drops(old(db)[t], schema, bodies, faults))
    {
      if faults.begin {
        return Rejected(Begin);
      }
      var committed, tx := db[t], db[t];
      var i := 0;
      while i < |bodies|
        invariant 0 <= i <= |bodies| && db == old(db)
        invariant Reached(committed, schema, bodies, faults, i)
        invariant tx == Batch(committed, schema.written, Patches(schema, bodies[..i]))
      {
        AtBody(committed, schema, bodies, faults, i);
        var body := bodies[i];
        if IdKey !in body || !body[IdKey].JText? {
          return Rejected(BadId);
        }
        var id := Atoi(body[IdKey].text);
        if id.None? {
          return Rejected(BadId);
        }
        // the SELECT runs outside the transaction and sees the committed table
        if faults.query(i) {
          return Rejected(Query);
        }
        if id.value !in committed {
          return Rejected(NoSuchRow);
        }
        var filled := FillModel(schema, Restrict(committed[id.value], schema.read), body);
        match filled {
          case Panic => return Panicked;
          case Unconvertible => return SilentlyDropped;
          case FilledIn(model) =>
            if faults.statement(i) {
              return Rejected(Statement);
            }
            WrittenIsRestricted(schema, committed[id.value], body);
            BatchExtends(committed, schema, bodies, i);
            if id.value in tx {
              tx := tx[id.value := tx[id.value] + Restrict(model, schema.written)];
            }
        }
        i := i + 1;
      }
      assert bodies[..i] == bodies;
      AtEnd(committed, schema, bodies, faults);
      if faults.commit {
        return Rejected(CommitFailed);
      }
      BatchShows(committed, schema, bodies);
      db := db[t := tx];
      outcome := Applied;
    }

    /** PatchOneStudent, PatchOneTeacher and PatchOneExec. Every unconvertible value panics here. */
    method PatchOne(t: string, schema: Schema, id: int, body: Body, queryFails: bool, statementFails: bool)
      returns (outcome: PatchOutcome)
      requires schema.Valid() && t in db
      modifies this`db
      ensures outcome.Applied? <==>
                id in old(db)[t] && Settable(schema, body) && !queryFails && !statementFails
      ensures outcome.Applied? ==> db == old(db)[t := PatchedOne(old(db)[t], schema, id, body)]
      ensures outcome.Applied? && IdKey !in body ==> OnePatched(old(db)[t], schema, id, id, body, db[t])
      ensures outcome.Applied? && IdKey in body ==>
                body[IdKey].JNumber? && OnePatched(old(db)[t], schema, id, body[IdKey].trunc, body, db[t])
      ensures !outcome.Applied? ==> db == old(db) && (outcome.Rejected? || outcome.Panicked?)
      ensures outcome.Panicked? <==> !queryFails && id in old(db)[t] && !Settable(schema, body)
    {
      if queryFails {
        return Rejected(Query);
      }
      if id !in db[t] {
        return Rejected(NoSuchRow);
      }
      if IdKey in body && !body[IdKey].JNumber? {
        return Panicked;
      }
      var filled := FillModel(schema, schema.zero + Restrict(db[t][id], schema.read), body);
      if !filled.FilledIn? {
        return Panicked;
      }
      if statementFails {
        return Rejected(Statement);
      }
      ghost var target, values := Target(id, body), Restrict(filled.model, schema.written);
      Update(t, if IdKey in body then body[IdKey].trunc else id, Restrict(filled.model, schema.written));
      UpdatedIs(old(db)[t], db[t], target, values);
      OnePatchShows(old(db)[t], schema, id, body);
      outcome := Applied;
    }

    /** UPDATE t SET values WHERE id = ?. Only the named columns of the named row change. */
    method Update(t: string, id: int, values: Row)
      requires t in db
      modifies this`db
      ensures t in db && db == old(db)[t := db[t]] && db[t].Keys == old(db)[t].Keys
      ensures forall i :: i in db[t] && i != id ==> db[t][i] == old(db)[t][i]
      ensures id in db[t] ==> forall c ::
                && (c in db[t][id] <==> c in old(db)[t][id] || c in values)
                && (c in db[t][id] ==> db[t][id][c] == if c in values then values[c] else old(db)[t][id][c])
    {
      var rows := db[t];
      if id in rows {
        rows := rows[id := rows[id] + values];
      }
      db := db[t := rows];
    }

    /** DeleteStudents and DeleteTeachers. */
    method DeleteMany(t: string, ids: seq<int>, faults: Faults) returns (outcome: DeleteOutcome)
      requires HasTable(t)
      modifies this`db
      ensures outcome.Deleted? <==>
                && ids != [] && (forall i, j :: 0 <= i < j < |ids| ==> ids[i] != ids[j])
                && (forall i :: 0 <= i < |ids| ==> ids[i] in old(db)[t])
                && !faults.begin && !faults.commit
                && (forall i :: 0 <= i < |ids| ==> !faults.statement(i) && !faults.result(i))
      ensures outcome.Deleted? ==> outcome.ids == ids && db == old(db)[t := old(db)[t] - (set id | id in ids)]
      ensures !outcome.Deleted? ==> db == old(db)
    {
      if faults.begin {
        return DeleteFailed(Begin);
      }
      var tx := db[t];
      var deleted: seq<int> := [];
      var i := 0;
      while i < |ids|
        invariant 0 <= i <= |ids| && db == old(db)
        invariant deleted == ids[..i]
        invariant tx == db[t] - (set id | id in ids[..i])
        invariant forall j, k :: 0 <= j < k < i ==> ids[j] != ids[k]
        invariant forall j :: 0 <= j < i ==> ids[j] in db[t] && !faults.statement(j) && !faults.result(j)
      {
        var id := ids[i];
        if faults.statement(i) {
          return DeleteFailed(Statement);
        }
        var affected := if id in tx then 1 else 0;
        tx := tx - {id};
        if faults.result(i) {
          return DeleteFailed(Statement);
        }
        if affected > 0 {
          deleted := deleted + [id];
        }
        if affected < 1 {
          assert id !in db[t] || id in ids[..i];
          return DeleteFailed(NoSuchRow);
        }
        assert ids[..i + 1] == ids[..i] + [id];
        i := i + 1;
      }
      assert ids[..i] == ids;
      if faults.commit {
        return DeleteFailed(CommitFailed);
      }
      if |deleted| < 1 {
        assert db[t] - (set id | id in ids) == db[t];
        return DeleteFailed(NothingDeleted);
      }
      db := db[t := tx];
      outcome := Deleted(deleted);
    }

    /** Table t is what it was in db0 plus these rows under the next ids. */
    ghost predicate After(t: string, db0: Db, next0: map<string, int>, done: seq<Row>)
      reads this
    {
      && HasTable(t) && t in db0 && t in next0
      && db == db0[t := Inserted(db0[t], next0[t], done)] && nextId == next0[t := next0[t] + |done|]
    }

    /** INSERTs of one or more rows, each under the next auto-increment id. */
    method Insert(t: string, more: seq<Row>, ghost done: seq<Row>, ghost db0: Db, ghost next0: map<string, int>)
      requires After(t, db0, next0, done)
      modifies this
      ensures After(t, db0, next0, done + more)
    {
      InsertedTwice(db0[t], next0[t], done, more);
      InsertedBelow(db[t], nextId[t], more);
      db := db[t := Inserted(db[t], nextId[t], more)];
      nextId := nextId[t := nextId[t] + |more|];
    }

    /** What others insert before row i, and then row i. */
    method InsertNext(t: string, rows: seq<Row>, others: nat -> seq<Row>, i: nat,
                      ghost db0: Db, ghost next0: map<string, int>)
      returns (id: int)
      requires i < |rows| && After(t, db0, next0, Merged(rows, others, i))
      modifies this
      ensures After(t, db0, next0, Merged(rows, others, i + 1)) && id == IdAt(next0[t], rows, others, i)
    {
      ghost var done := Merged(rows, others, i);
      Insert(t, others(i), done, db0, next0);
      id := nextId[t];
      Insert(t, [rows[i]], done + others(i), db0, next0);
      assert Merged(rows, others, i + 1) == done + others(i) + [rows[i]];
    }

    /** The i-th turn of the insert loop; no id means that the loop stops with an error. */
    method Turn(t: string, rows: seq<Row>, others: nat -> seq<Row>, faults: Faults, i: nat,
                ghost db0: Db, ghost next0: map<string, int>)
      returns (id: Option<int>, ghost count: nat)
      requires i < |rows| && After(t, db0, next0, Merged(rows, others, i)) && FaultFree(faults, i)
      modifies this
      ensures count <= |rows| && After(t, db0, next0, Merged(rows, others, count))
      ensures id.Some? ==> count == i + 1 && FaultFree(faults, i + 1) && id.value == IdAt(next0[t], rows, others, i)
      ensures id.None? ==> !FaultFree(faults, |rows|) && FirstFault(faults, |rows|, count)
    {
      FaultAt(faults, |rows|, i);
      if faults.statement(i) { return None, i; }
      var last := InsertNext(t, rows, others, i, db0, next0);
      id, count := if faults.result(i) then None else Some(last), i + 1;
    }

    /** AddStudentsDBHandler and its siblings: no transaction, so the rows before a failure stay, and other
        requests may insert rows of their own (others(i)) before the i-th INSERT. The count of inserted
        rows is the position of the first failing INSERT, or one more than that of the first failing
        LastInsertId. */
    method AddMany(t: string, rows: seq<Row>, others: nat -> seq<Row>, faults: Faults)
      returns (outcome: AddOutcome, ghost count: nat)
      requires HasTable(t)
      modifies this
      ensures count <= |rows| && After(t, old(db), old(nextId), Merged(rows, others, count))
      ensures outcome == if FaultFree(faults, |rows|) then Added(Ids(old(nextId)[t], rows, others, |rows|)) else AddFailed
      ensures outcome.Added? ==> count == |rows|
      ensures outcome.AddFailed? ==> FirstFault(faults, |rows|, count)
    {
      ghost var db0, next0 := db, nextId;
      count := 0;
      assert After(t, db0, next0, Merged(rows, others, 0));
      if faults.begin { return AddFailed, 0; }
      var ids: seq<int> := [];
      for i := 0 to |rows|
        invariant count == i && After(t, db0, next0, Merged(rows, others, i))
        invariant ids == Ids(next0[t], rows, others, i) && FaultFree(faults, i)
      {
        var id;
        IdsMore(next0[t], rows, others, i);
        id, count := Turn(t, rows, others, faults, i, db0, next0);
        if id.None? { return AddFailed, count; }
        ids := ids + [id.value];
      }
      outcome := Added(ids);
    }
  }

  /** The first n rows of a request with the rows that other requests inserted in between. */
  function Merged(rows: seq<Row>, others: nat -> seq<Row>, n: nat): seq<Row>
    requires n <= |rows|
  {
    if n == 0 then [] else Merged(rows, others, n - 1) + others(n - 1) + [rows[n - 1]]
  }

  /** The id of row i. */
  function IdAt(start: int, rows: seq<Row>, others: nat -> seq<Row>, i: nat): int
    requires i < |rows|
  {
    start + |Merged(rows, others, i)| + |others(i)|
  }

  function Ids(start: int, rows: seq<Row>, others: nat -> seq<Row>, n: nat): seq<int>
    requires n <= |rows|
  {
    seq(n, i requires 0 <= i < n => IdAt(start, rows, others, i))
  }

  lemma IdsMore(start: int, rows: seq<Row>, others: nat -> seq<Row>, n: nat)
    requires n < |rows|
    ensures Ids(start, rows, others, n + 1) == Ids(start, rows, others, n) + [IdAt(start, rows, others, n)]
  {
  }

  /** The insert loop stopped after `count` rows because of the first fault. */
  ghost predicate FirstFault(faults: Faults, n: nat, count: nat) {
    || (count == 0 && faults.begin)
    || (count < n && FaultFree(faults, count) && faults.statement(count))
    || (0 < count <= n && FaultFree(faults, count - 1) && !faults.statement(count - 1) && faults.result(count - 1))
  }

  ghost predicate FaultFree(faults: Faults, n: nat) {
    !faults.begin && forall i :: 0 <= i < n ==> !faults.statement(i) && !faults.result(i)
  }

  lemma FaultAt(faults: Faults, n: nat, i: nat)
    requires i < n && FaultFree(faults, i)
    ensures faults.statement(i) ==> !FaultFree(faults, n) && FirstFault(faults, n, i)
    ensures !faults.statement(i) && faults.result(i) ==> !FaultFree(faults, n) && FirstFault(faults, n, i + 1)
    ensures !faults.statement(i) && !faults.result(i) ==> FaultFree(faults, i + 1)
  {
  }

  /** The table after inserting rows under consecutive ids. */
  function Inserted(table: Rows, next: int, rows: seq<Row>): Rows {
    if rows == [] then table
    else Inserted(table, next, rows[..|rows| - 1])[next + |rows| - 1 := rows[|rows| - 1]]
  }

  lemma InsertedBelow(table: Rows, next: int, rows: seq<Row>)
    requires forall id :: id in table ==> id < next
    ensures forall id :: id in Inserted(table, next, rows) ==> id < next + |rows|
  {
    InsertedMeaning(table, next, rows);
  }

  lemma {:induction false} InsertedTwice(table: Rows, next: int, a: seq<Row>, b: seq<Row>)
    ensures Inserted(Inserted(table, next, a), next + |a|, b) == Inserted(table, next, a + b)
  {
    if b == [] {
      assert a + b == a;
    } else {
      InsertedTwice(table, next, a, b[..|b| - 1]);
      assert (a + b)[..|a + b| - 1] == a + b[..|b| - 1];
    }
  }

  /** Inserting touches no row that was there, and row i stands under the i-th new id. */
  lemma {:induction false} InsertedMeaning(table: Rows, next: int, rows: seq<Row>)
    requires forall id :: id in table ==> id < next
    ensures forall id :: id in Inserted(table, next, rows) <==> id in table || next <= id < next + |rows|
    ensures forall id :: id in table ==> Inserted(table, next, rows)[id] == table[id]
    ensures forall id :: next <= id < next + |rows| ==> Inserted(table, next, rows)[id] == rows[id - next]
  {
    if rows != [] {
      InsertedMeaning(table, next, rows[..|rows| - 1]);
    }
  }

  lemma {:induction false} MergedAt(rows: seq<Row>, others: nat -> seq<Row>, n: nat, i: nat)
    requires i < n <= |rows|
    ensures |Merged(rows, others, i)| + |others(i)| < |Merged(rows, others, n)|
    ensures Merged(rows, others, n)[|Merged(rows, others, i)| + |others(i)|] == rows[i]
  {
    if i < n - 1 {
      MergedAt(rows, others, n - 1, i);
    }
  }

  lemma AddedRow(table: Rows, start: int, rows: seq<Row>, others: nat -> seq<Row>, n: nat, i: nat)
    requires i < n <= |rows| && forall id :: id in table ==> id < start
    ensures var id := IdAt(start, rows, others, i); var after := Inserted(table, start, Merged(rows, others, n));
            id !in table && id in after && after[id] == rows[i]
  {
    var merged, id := Merged(rows, others, n), IdAt(start, rows, others, i);
    InsertedMeaning(table, start, merged);
    MergedAt(rows, others, n, i);
    assert Inserted(table, start, merged)[id] == merged[id - start];
  }

  /** Whatever other requests insert meanwhile, every row of the request stands under the id that it is
      answered with, the ids are new and increase, and no row that was there is touched. */
  lemma AddedRows(table: Rows, start: int, rows: seq<Row>, others: nat -> seq<Row>, n: nat)
    requires n <= |rows| && forall id :: id in table ==> id < start
    ensures var after := Inserted(table, start, Merged(rows, others, n)); var ids := Ids(start, rows, others, n);
            && (forall id :: id in table ==> id in after && after[id] == table[id])
            && (forall i :: 0 <= i < n ==> ids[i] !in table && ids[i] in after && after[ids[i]] == rows[i])
            && (forall i, j :: 0 <= i < j < n ==> ids[i] < ids[j])
  {
    InsertedMeaning(table, start, Merged(rows, others, n));
    forall i | 0 <= i < n
      ensures var id := IdAt(start, rows, others, i); var after := Inserted(table, start, Merged(rows, others, n));
              id !in table && id in after && after[id] == rows[i]
    {
      AddedRow(table, start, rows, others, n, i);
    }
    forall i, j | 0 <= i < j < n
      ensures IdAt(start, rows, others, i) < IdAt(start, rows, others, j)
    {
      MergedAt(rows, others, j, i);
    }
  }

  lemma WrittenIsRestricted(schema: Schema, row: Row, body: Body)
    requires schema.read == schema.written
    ensures Restrict(Restrict(row, schema.read) + SetFields(schema, body), schema.written)
         == Restrict(row, schema.written) + Changes(schema, body)
  {
  }

  lemma BatchExtends(committed: Rows, schema: Schema, bodies: seq<Body>, i: nat)
    requires i < |bodies|
    ensures Batch(committed, schema.written, Patches(schema, bodies[..i + 1]))
         == WriteBack(committed, Batch(committed, schema.written, Patches(schema, bodies[..i])),
                      schema.written, PatchOf(schema, bodies[i]))
  {
    assert Patches(schema, bodies[..i + 1]) == Patches(schema, bodies[..i]) + [PatchOf(schema, bodies[i])];
    BatchFromAppend(committed, committed, schema.written, Patches(schema, bodies[..i]), PatchOf(schema, bodies[i]));
  }

  // ---------------------------------------------------------------- the single patch

  predicate Settable(schema: Schema, body: Body) {
    AllConvertible(schema, body) && (IdKey in body ==> body[IdKey].JNumber?)
  }

  /** The row that the UPDATE of a single patch goes to: an "id" in the body replaces the id of the path. */
  function Target(id: int, body: Body): int {
    if IdKey in body && body[IdKey].JNumber? then body[IdKey].trunc else id
  }

  function UpdateWhere(rows: Rows, id: int, values: Row): Rows {
    if id in rows then rows[id := rows[id] + values] else rows
  }

  lemma UpdatedIs(before: Rows, after: Rows, id: int, values: Row)
    requires after.Keys == before.Keys && forall i :: i in after && i != id ==> after[i] == before[i]
    requires id in after ==> forall c ::
               && (c in after[id] <==> c in before[id] || c in values)
               && (c in after[id] ==> after[id][c] == if c in values then values[c] else before[id][c])
    ensures after == UpdateWhere(before, id, values)
  {
    var expected := UpdateWhere(before, id, values);
    if id in after {
      assert after[id] == before[id] + values;
    }
    assert after.Keys == expected.Keys;
    forall i | i in after ensures after[i] == expected[i] {}
  }

  function PatchedOne(rows: Rows, schema: Schema, id: int, body: Body): Rows
    requires id in rows
  {
    var model := schema.zero + Restrict(rows[id], schema.read) + SetFields(schema, body);
    UpdateWhere(rows, Target(id, body), Restrict(model, schema.written))
  }

  /** What a single PATCH of row `id` promises when its UPDATE goes to row `target`, column by column: the
      named columns say what the body says, the columns read from row `id` come along, the rest of the
      written ones get their zero value, and nothing else changes. */
  ghost predicate OnePatched(before: Rows, schema: Schema, id: int, target: int, body: Body, after: Rows)
    requires id in before && schema.Valid()
  {
    && after.Keys == before.Keys
    && (forall j :: j in before && j != target ==> after[j] == before[j])
    && (target in before ==> forall c ::
          if c !in schema.written then
            (c in after[target] <==> c in before[target]) && (c in before[target] ==> after[target][c] == before[target][c])
          else
            && c in after[target]
            && if FieldKey(c) in body then Says(body[FieldKey(c)], after[target][c])
               else after[target][c] == if c in schema.read && c in before[id] then before[id][c] else schema.zero[c])
  }

  lemma OnePatchShows(rows: Rows, schema: Schema, id: int, body: Body)
    requires schema.Valid() && id in rows && AllConvertible(schema, body)
    ensures OnePatched(rows, schema, id, Target(id, body), body, PatchedOne(rows, schema, id, body))
  {
    var target := Target(id, body);
    var model := schema.zero + Restrict(rows[id], schema.read) + SetFields(schema, body);
    var values := Restrict(model, schema.written);
    ModelSays(schema, rows[id], body);
    if target in rows {
      assert PatchedOne(rows, schema, id, body)[target] == rows[target] + values;
    }
  }

  lemma ModelSays(schema: Schema, row: Row, body: Body)
    requires schema.Valid() && AllConvertible(schema, body)
    ensures var values := Restrict(schema.zero + Restrict(row, schema.read) + SetFields(schema, body), schema.written);
            && values.Keys == schema.written
            && forall c :: c in schema.written ==>
                 if FieldKey(c) in body then Says(body[FieldKey(c)], values[c])
                 else values[c] == if c in schema.read && c in row then row[c] else schema.zero[c]
  {
  }

  /** A single patch does what one patch of a batch does, on every table, exactly when its body does not
      name another id and every column that it writes is one it has read or one that the body sets. */
  lemma PatchedOneIsPatchIff(schema: Schema, id: int, body: Body)
    requires schema.Valid() && schema.written != {}
    ensures (forall rows: Rows :: id in rows && (forall i :: i in rows ==> schema.written <= rows[i].Keys) ==>
               PatchedOne(rows, schema, id, body) == PatchRow(rows, Patch(id, Changes(schema, body))))
        <==> Target(id, body) == id && schema.written <= schema.read + Changes(schema, body).Keys
  {
    if Target(id, body) != id {
      var c :| c in schema.written;
      RedirectShows(schema, id, body, c);
    } else if !(schema.written <= schema.read + Changes(schema, body).Keys) {
      UnreadShows(schema, id, body);
    } else {
      forall rows: Rows | id in rows && (forall i :: i in rows ==> schema.written <= rows[i].Keys)
        ensures PatchedOne(rows, schema, id, body) == PatchRow(rows, Patch(id, Changes(schema, body)))
      {
        ReadWrittenBack(schema, rows[id], body);
      }
    }
  }

  lemma ReadWrittenBack(schema: Schema, row: Row, body: Body)
    requires schema.Valid() && schema.written <= row.Keys
    requires schema.written <= schema.read + Changes(schema, body).Keys
    ensures row + Restrict(schema.zero + Restrict(row, schema.read) + SetFields(schema, body), schema.written)
         == row + Changes(schema, body)
  {
  }

  lemma UnreadShows(schema: Schema, id: int, body: Body)
    requires schema.Valid() && Target(id, body) == id
    requires !(schema.written <= schema.read + Changes(schema, body).Keys)
    ensures exists rows: Rows ::
              && id in rows && (forall i :: i in rows ==> schema.written <= rows[i].Keys)
              && PatchedOne(rows, schema, id, body) != PatchRow(rows, Patch(id, Changes(schema, body)))
  {
    var c :| c in schema.written && c !in schema.read && c !in Changes(schema, body);
    UnreadColumnShows(schema, id, body, c);
  }

  lemma UnreadColumnShows(schema: Schema, id: int, body: Body, c: Column)
    requires schema.Valid() && Target(id, body) == id
    requires c in schema.written && c !in schema.read && c !in Changes(schema, body)
    ensures var rows := Uniform({id}, schema.written, schema.zero[c] + "x");
            PatchedOne(rows, schema, id, body) != PatchRow(rows, Patch(id, Changes(schema, body)))
  {
    var rows := Uniform({id}, schema.written, schema.zero[c] + "x");
    assert PatchedOne(rows, schema, id, body)[id][c] == schema.zero[c];
    assert PatchRow(rows, Patch(id, Changes(schema, body)))[id][c] == schema.zero[c] + "x";
    assert |schema.zero[c] + "x"| != |schema.zero[c]|;
  }

  lemma RedirectShows(schema: Schema, id: int, body: Body, c: Column)
    requires schema.Valid() && c in schema.written && Target(id, body) != id
    ensures exists rows: Rows ::
              && id in rows && (forall i :: i in rows ==> schema.written <= rows[i].Keys)
              && PatchedOne(rows, schema, id, body) != PatchRow(rows, Patch(id, Changes(schema, body)))
  {
    var n := Target(id, body);
    var source := Uniform({id}, schema.written, "");
    var model := schema.zero + Restrict(source[id], schema.read) + SetFields(schema, body);
    var other := Uniform({n}, schema.written, model[c] + "x");
    var rows := source + other;
    assert PatchedOne(rows, schema, id, body)[n][c] == model[c];
    assert PatchRow(rows, Patch(id, Changes(schema, body)))[n][c] == model[c] + "x";
    assert |model[c] + "x"| != |model[c]|;
  }

  // ---------------------------------------------------------------- the three models

  const PERSON: set<Column> := {FirstName, LastName, Email, Class}

  const STUDENT := Schema(
    map[FirstName := Text, LastName := Text, Email := Text, Class := Text],
    PERSON, PERSON, map[FirstName := "", LastName := "", Email := "", Class := ""])

  const TEACHER := Schema(
    STUDENT.fields[Subject := Text], PERSON + {Subject}, PERSON + {Subject}, STUDENT.zero[Subject := ""])

  const EXEC_FIELDS: map<Column, Kind> :=
    map[FirstName := Text, LastName := Text, Email := Text, Username := Text, Password := Text,
        PasswordChangedAt := Struct, UserCreatedAt := Struct, ResetCode := Struct, ResetCodeExpires := Struct,
        InactiveStatus := Flag, Role := Text]

  const EXEC_READ: set<Column> := {FirstName, LastName, Email, Username}

  const EXEC_ZERO: Row :=
    map[FirstName := "", LastName := "", Email := "", Username := "",
        UserCreatedAt := "NULL", InactiveStatus := "0", Role := ""]

  /** PatchExecs writes back the columns it reads. */
  const EXEC_MANY := Schema(EXEC_FIELDS, EXEC_READ, EXEC_READ, EXEC_ZERO)

  /** PatchOneExec also writes three columns that it does not read. */
  const EXEC_ONE := Schema(EXEC_FIELDS, EXEC_READ, EXEC_READ + {UserCreatedAt, InactiveStatus, Role}, EXEC_ZERO)

  lemma PersonSchemasValid()
    ensures STUDENT.Valid() && TEACHER.Valid()
  {
  }

  lemma ExecSchemasValid()
    ensures EXEC_MANY.Valid() && EXEC_ONE.Valid()
  {
  }

  /** Which bodies the reflection loop accepts, model by model. */
  lemma AcceptedPersons(body: Body)
    ensures AllConvertible(STUDENT, body) <==>
              forall c :: c in {FirstName, LastName, Email, Class} && FieldKey(c) in body ==> body[FieldKey(c)].JText?
    ensures AllConvertible(TEACHER, body) <==>
              forall c :: c in {FirstName, LastName, Email, Class, Subject} && FieldKey(c) in body ==>
                body[FieldKey(c)].JText?
  {
  }

  lemma AcceptedExecs(body: Body)
    ensures AllConvertible(EXEC_ONE, body) <==>
              && (FieldKey(InactiveStatus) in body ==> body[FieldKey(InactiveStatus)].JBool?)
              && (forall c :: c in {FirstName, LastName, Email, Username, Password, Role} && FieldKey(c) in body ==>
                    body[FieldKey(c)].JText?)
              && (forall c :: c in {PasswordChangedAt, UserCreatedAt, ResetCode, ResetCodeExpires} ==>
                    FieldKey(c) !in body)
    ensures AllConvertible(EXEC_MANY, body) <==> AllConvertible(EXEC_ONE, body)
  {
    assert EXEC_ONE.fields == EXEC_MANY.fields;
  }

  /** A PATCH writes exactly the columns that the table's list selects; a batch PATCH of execs writes those
      of them that it reads. */
  lemma PatchWritesListedColumns()
    ensures STUDENT.written == SelectedColumns(STUDENTS) && TEACHER.written == SelectedColumns(TEACHERS)
    ensures EXEC_ONE.written == SelectedColumns(EXECS)
    ensures EXEC_MANY.written == EXEC_ONE.read == SelectedColumns(EXECS) - {UserCreatedAt, InactiveStatus, Role}
  {
  }

  /** Students and teachers: a single PATCH is a patch of its row exactly when the body names no other id. */
  lemma PersonPatchIff(schema: Schema, id: int, body: Body)
    requires schema == STUDENT || schema == TEACHER
    ensures (forall rows: Rows :: id in rows && (forall i :: i in rows ==> schema.written <= rows[i].Keys) ==>
               PatchedOne(rows, schema, id, body) == PatchRow(rows, Patch(id, Changes(schema, body))))
        <==> Target(id, body) == id
  {
    PersonSchemasValid();
    assert Class in schema.written;
    PatchedOneIsPatchIff(schema, id, body);
  }

  /** Execs: no body that is accepted makes a single PATCH a patch of its row, because the creation time
      is written back as NULL and cannot be given. */
  lemma ExecPatchNeverExact(id: int, body: Body)
    requires Settable(EXEC_ONE, body)
    ensures exists rows: Rows ::
              && id in rows && (forall i :: i in rows ==> EXEC_ONE.written <= rows[i].Keys)
              && PatchedOne(rows, EXEC_ONE, id, body) != PatchRow(rows, Patch(id, Changes(EXEC_ONE, body)))
  {
    ExecSchemasValid();
    assert UserCreatedAt in EXEC_ONE.written && UserCreatedAt !in EXEC_ONE.read;
    assert EXEC_ONE.fields[UserCreatedAt] == Struct;
    assert UserCreatedAt !in Changes(EXEC_ONE, body);
    PatchedOneIsPatchIff(EXEC_ONE, id, body);
  }

  // ---------------------------------------------------------------- a nil error that applied nothing

  const NO_FAULTS := Faults(false, _ => false, _ => false, _ => false, false)

  /** A number for a name, in a patch of student 1. */
  const NUMBER_AS_NAME: Body := map[IdKey := JText("1"), FieldKey(FirstName) := JNumber(5)]

  lemma NumberAsNameDrops(rows: Rows)
    requires 1 in rows
    ensures NullFree(NUMBER_AS_NAME) && DropsAt(rows, STUDENT, [NUMBER_AS_NAME], NO_FAULTS, 0)
  {
    assert "1"[..0] == "" && DigitsValue("1") == 1;
    assert IdOf(NUMBER_AS_NAME) == Some(1);
    assert FirstName in STUDENT.fields && !Convertible(JNumber(5), Text);
  }

  /** The batch PATCH answers nil and changes nothing. */
  method PatchNumberAsName(p: Primary) returns (outcome: PatchOutcome)
    requires p.HasTable(STUDENTS) && 1 in p.db[STUDENTS]
    modifies p`db
    ensures outcome.SilentlyDropped? && p.db == old(p.db)
  {
    PersonSchemasValid();
    NumberAsNameDrops(p.db[STUDENTS]);
    outcome := p.PatchMany(STUDENTS, STUDENT, [NUMBER_AS_NAME], NO_FAULTS);
  }
}
