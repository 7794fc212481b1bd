/** What the batch PATCH and the single PATCH of a table do to its rows. A patch is the list of columns
    that one JSON object sets for one id. */
module BatchPatch {
  import opened Tables

  datatype Patch = Patch(id: int, changes: Row)

  /** Every row has a value in every patchable column, and patches set patchable columns only. */
  ghost predicate Fits(rows: Rows, columns: set<Column>, patches: seq<Patch>) {
    && (forall id :: id in rows ==> columns <= rows[id].Keys)
    && (forall p :: p in patches ==> p.id in rows && p.changes.Keys <= columns)
  }

  /** The batch loop: each row is read from the committed table, outside the transaction, changed, and
      written back over all patchable columns inside it. */
  function WriteBack(committed: Rows, tx: Rows, columns: set<Column>, p: Patch): Rows {
    if p.id in committed && p.id in tx
    then tx[p.id := tx[p.id] + (Restrict(committed[p.id], columns) + p.changes)]
    else tx
  }

  function BatchFrom(committed: Rows, tx: Rows, columns: set<Column>, patches: seq<Patch>): Rows {
    if patches == [] then tx
    else BatchFrom(committed, WriteBack(committed, tx, columns, patches[0]), columns, patches[1..])
  }

  function Batch(rows: Rows, columns: set<Column>, patches: seq<Patch>): Rows {
    BatchFrom(rows, rows, columns, patches)
  }

  /** The same patches applied one request at a time. */
  function PatchRow(rows: Rows, p: Patch): Rows {
    if p.id in rows then rows[p.id := rows[p.id] + p.changes] else rows
  }

  function OneByOne(rows: Rows, patches: seq<Patch>): Rows {
    if patches == [] then rows else OneByOne(PatchRow(rows, patches[0]), patches[1..])
  }

  /** The changes of the last patch for an id; nothing if there is none. */
  function LastChanges(patches: seq<Patch>, id: int): Row {
    if patches == [] then map[]
    else if patches[|patches| - 1].id == id then patches[|patches| - 1].changes
    else LastChanges(patches[..|patches| - 1], id)
  }

  /** All changes for an id, later patches winning. */
  function AllChanges(patches: seq<Patch>, id: int): Row {
    if patches == [] then map[]
    else
      var before := AllChanges(patches[..|patches| - 1], id);
      if patches[|patches| - 1].id == id then before + patches[|patches| - 1].changes else before
  }

  lemma {:induction false} BatchFromAppend(committed: Rows, tx: Rows, columns: set<Column>, a: seq<Patch>, p: Patch)
    ensures BatchFrom(committed, tx, columns, a + [p])
         == WriteBack(committed, BatchFrom(committed, tx, columns, a), columns, p)
  {
    if a == [] {
      assert a + [p] == [p];
    } else {
      assert (a + [p])[1..] == a[1..] + [p];
      BatchFromAppend(committed, WriteBack(committed, tx, columns, a[0]), columns, a[1..], p);
    }
  }

  lemma {:induction false} OneByOneAppend(rows: Rows, a: seq<Patch>, p: Patch)
    ensures OneByOne(rows, a + [p]) == PatchRow(OneByOne(rows, a), p)
  {
    if a == [] {
      assert a + [p] == [p];
    } else {
      assert (a + [p])[1..] == a[1..] + [p];
      OneByOneAppend(PatchRow(rows, a[0]), a[1..], p);
    }
  }

  /** Batch meaning: a committed batch leaves each row equal to the last patch for its id applied to
      the row as it was before the batch; no row appears or disappears. */
  lemma {:induction false} BatchMeaning(rows: Rows, columns: set<Column>, patches: seq<Patch>)
    requires Fits(rows, columns, patches)
    ensures Batch(rows, columns, patches).Keys == rows.Keys
    ensures forall id :: id in rows ==>
              Batch(rows, columns, patches)[id] == rows[id] + LastChanges(patches, id)
  {
    if patches == [] {
      assert forall id :: id in rows ==> rows[id] + map[] == rows[id];
    } else {
      var n := |patches| - 1;
      var p := patches[n];
      assert patches == patches[..n] + [p];
      BatchMeaning(rows, columns, patches[..n]);
      BatchFromAppend(rows, rows, columns, patches[..n], p);
      var before := Batch(rows, columns, patches[..n]);
      ChangesFit(patches[..n], p.id, columns);
      WriteBackOverwrites(rows[p.id], LastChanges(patches[..n], p.id), p.changes, columns);
      assert Batch(rows, columns, patches) == before[p.id := rows[p.id] + p.changes];
    }
  }

  lemma {:induction false} BatchKeys(rows: Rows, columns: set<Column>, patches: seq<Patch>)
    ensures Batch(rows, columns, patches).Keys == rows.Keys
  {
    if patches != [] {
      var n := |patches| - 1;
      assert patches == patches[..n] + [patches[n]];
      BatchKeys(rows, columns, patches[..n]);
      BatchFromAppend(rows, rows, columns, patches[..n], patches[n]);
    }
  }

  /** A row that no patch names stays. */
  lemma {:induction false} BatchUntouched(rows: Rows, columns: set<Column>, patches: seq<Patch>, id: int)
    requires id in rows && forall j :: 0 <= j < |patches| ==> patches[j].id != id
    ensures id in Batch(rows, columns, patches) && Batch(rows, columns, patches)[id] == rows[id]
  {
    if patches != [] {
      var n := |patches| - 1;
      assert patches == patches[..n] + [patches[n]];
      BatchUntouched(rows, columns, patches[..n], id);
      BatchFromAppend(rows, rows, columns, patches[..n], patches[n]);
    }
  }

  /** A column that the statement does not write stays, in every row. */
  lemma {:induction false} BatchOutside(rows: Rows, columns: set<Column>, patches: seq<Patch>, id: int, c: Column)
    requires id in rows && c !in columns && forall p :: p in patches ==> p.changes.Keys <= columns
    ensures id in Batch(rows, columns, patches)
    ensures c in Batch(rows, columns, patches)[id] <==> c in rows[id]
    ensures c in rows[id] ==> Batch(rows, columns, patches)[id][c] == rows[id][c]
  {
    if patches != [] {
      var n := |patches| - 1;
      assert patches == patches[..n] + [patches[n]];
      assert patches[n] in patches;
      BatchOutside(rows, columns, patches[..n], id, c);
      BatchFromAppend(rows, rows, columns, patches[..n], patches[n]);
    }
  }

  /** In the row of a patch that no later one follows, a column that it changes holds its value, and a
      column that was read holds what the row held before the batch, whatever an earlier patch wrote. */
  lemma {:induction false} BatchLast(rows: Rows, columns: set<Column>, patches: seq<Patch>, i: nat, c: Column)
    requires i < |patches| && patches[i].id in rows
    requires forall j :: i < j < |patches| ==> patches[j].id != patches[i].id
    ensures patches[i].id in Batch(rows, columns, patches)
    ensures var row := Batch(rows, columns, patches)[patches[i].id];
            && (c in patches[i].changes ==> c in row && row[c] == patches[i].changes[c])
            && (c !in patches[i].changes && c in columns && c in rows[patches[i].id] ==>
                  c in row && row[c] == rows[patches[i].id][c])
  {
    var n := |patches| - 1;
    assert patches == patches[..n] + [patches[n]];
    BatchKeys(rows, columns, patches[..n]);
    BatchFromAppend(rows, rows, columns, patches[..n], patches[n]);
    if i < n {
      BatchLast(rows, columns, patches[..n], i, c);
    }
  }

  /** Writing all patchable columns back removes whatever an earlier patch of the batch wrote. */
  lemma WriteBackOverwrites(row: Row, earlier: Row, changes: Row, columns: set<Column>)
    requires columns <= row.Keys && earlier.Keys <= columns && changes.Keys <= columns
    ensures (row + earlier) + (Restrict(row, columns) + changes) == row + changes
  {
  }

  lemma {:induction false} ChangesFit(patches: seq<Patch>, id: int, columns: set<Column>)
    requires forall p :: p in patches ==> p.changes.Keys <= columns
    ensures LastChanges(patches, id).Keys <= AllChanges(patches, id).Keys <= columns
  {
    if patches != [] {
      ChangesFit(patches[..|patches| - 1], id, columns);
      assert patches[|patches| - 1] in patches;
    }
  }

  lemma AddedInTurn(row: Row, a: Row, b: Row)
    ensures (row + a) + b == row + (a + b)
  {
  }

  lemma {:induction false} OneByOneMeaning(rows: Rows, columns: set<Column>, patches: seq<Patch>)
    requires Fits(rows, columns, patches)
    ensures OneByOne(rows, patches).Keys == rows.Keys
    ensures forall id :: id in rows ==> OneByOne(rows, patches)[id] == rows[id] + AllChanges(patches, id)
  {
    if patches == [] {
      assert forall id :: id in rows ==> rows[id] + map[] == rows[id];
    } else {
      var n := |patches| - 1;
      var p := patches[n];
      assert patches == patches[..n] + [p];
      OneByOneMeaning(rows, columns, patches[..n]);
      OneByOneAppend(rows, patches[..n], p);
      AddedInTurn(rows[p.id], AllChanges(patches[..n], p.id), p.changes);
    }
  }

  /** Every column that some patch sets for an id is set by the last patch for that id. */
  ghost predicate LastSubsumes(patches: seq<Patch>) {
    forall p :: p in patches ==> p.changes.Keys <= LastChanges(patches, p.id).Keys
  }

  lemma {:induction false} SubsumedChangesAgree(patches: seq<Patch>, id: int)
    requires forall p :: p in patches && p.id == id ==> p.changes.Keys <= LastChanges(patches, id).Keys
    ensures AllChanges(patches, id) == LastChanges(patches, id)
  {
    if patches != [] {
      var n := |patches| - 1;
      if patches[n].id == id {
        AllChangesBound(patches[..n], id, patches[n].changes.Keys);
      } else {
        SubsumedChangesAgree(patches[..n], id);
      }
    }
  }

  lemma {:induction false} AllChangesBound(patches: seq<Patch>, id: int, columns: set<Column>)
    requires forall p :: p in patches && p.id == id ==> p.changes.Keys <= columns
    ensures AllChanges(patches, id).Keys <= columns
  {
    if patches != [] {
      AllChangesBound(patches[..|patches| - 1], id, columns);
      assert patches[|patches| - 1] in patches;
    }
  }

  lemma {:induction false} AllChangesCover(patches: seq<Patch>, p: Patch)
    requires p in patches
    ensures p.changes.Keys <= AllChanges(patches, p.id).Keys
  {
    var n := |patches| - 1;
    if patches[n] != p {
      assert patches == patches[..n] + [patches[n]];
      AllChangesCover(patches[..n], p);
    }
  }

  /** A batch equals the same patches applied one at a time, on every table they fit, exactly when the
      last patch for each id sets every column that the earlier ones for that id set. */
  lemma BatchIsOneByOneIff(columns: set<Column>, patches: seq<Patch>)
    requires forall p :: p in patches ==> p.changes.Keys <= columns
    ensures (forall rows: Rows :: Fits(rows, columns, patches) ==>
               Batch(rows, columns, patches) == OneByOne(rows, patches))
        <==> LastSubsumes(patches)
  {
    if LastSubsumes(patches) {
      forall rows: Rows | Fits(rows, columns, patches)
        ensures Batch(rows, columns, patches) == OneByOne(rows, patches)
      {
        BatchMeaning(rows, columns, patches);
        OneByOneMeaning(rows, columns, patches);
        var a, b := Batch(rows, columns, patches), OneByOne(rows, patches);
        forall id | id in rows
          ensures a[id] == b[id]
        {
          SubsumedChangesAgree(patches, id);
        }
        assert a.Keys == b.Keys;
      }
    } else {
      var p :| p in patches && !(p.changes.Keys <= LastChanges(patches, p.id).Keys);
      var c :| c in p.changes && c !in LastChanges(patches, p.id);
      AllChangesCover(patches, p);
      var v := AllChanges(patches, p.id)[c];
      var rows := Uniform(set q | q in patches :: q.id, columns, v + "x");
      assert Fits(rows, columns, patches);
      BatchMeaning(rows, columns, patches);
      OneByOneMeaning(rows, columns, patches);
      assert Batch(rows, columns, patches)[p.id][c] == v + "x";
      assert OneByOne(rows, patches)[p.id][c] == v;
      assert |v + "x"| != |v|;
    }
  }

  /** A table whose rows hold the same text everywhere. */
  function Uniform(ids: set<int>, columns: set<Column>, text: string): (rows: Rows)
    ensures rows.Keys == ids
    ensures forall id :: id in ids ==> rows[id].Keys == columns
    ensures forall id, c :: id in ids && c in columns ==> rows[id][c] == text
  {
    var row: Row := map c | c in columns :: text;
    map id | id in ids :: row
  }

  /** Patches for distinct ids are such a batch. */
  lemma DistinctIdsSubsume(patches: seq<Patch>)
    requires forall i, j :: 0 <= i < j < |patches| ==> patches[i].id != patches[j].id
    ensures LastSubsumes(patches)
  {
    forall p | p in patches
      ensures p.changes.Keys <= LastChanges(patches, p.id).Keys
    {
      LastOfDistinct(patches, p);
    }
  }

  lemma {:induction false} LastOfDistinct(patches: seq<Patch>, p: Patch)
    requires forall i, j :: 0 <= i < j < |patches| ==> patches[i].id != patches[j].id
    requires p in patches
    ensures LastChanges(patches, p.id) == p.changes
  {
    var n := |patches| - 1;
    if patches[n] != p {
      assert patches == patches[..n] + [patches[n]];
      LastOfDistinct(patches[..n], p);
    }
  }
}
