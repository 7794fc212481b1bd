/** The photo handlers, run to their end or to the crash that stops them, on the rows of the primary, the
    replica and the bucket. */
module PhotoHandlers {
  import opened Strings
  import opened Tables
  import opened PhotoLifecycle

  const NO_CONTENT := 204
  const OK := 200
  const BAD_REQUEST := 400
  const NOT_FOUND := 404
  const SERVER_ERROR := 500

  /** How far a delete gets. */
  datatype DeleteFate = DiesBeforeClear | ClearFails | DiesAfterClear | RemovalFails | Works

  /** The positive id in a path segment. */
  function PathId(text: string): Option<nat> {
    match Atoi(text)
    case None => None
    case Some(id) => if id <= 0 then None else Some(id)
  }

  /** The positive ids of 64 bits are read back, and no negative number is an id. */
  lemma PathIdReads(n: nat)
    ensures PathId(Itoa(n)) == if 0 < n <= INT64_MAX then Some(n) else None
    ensures PathId("-" + Itoa(n)).None?
  {
    AtoiOfItoa(n);
  }

  /** A delete handler alone, from its read of the key. */
  function AfterDelete(s: State, req: nat, t: string, id: nat, fate: DeleteFate): State
    requires Enabled(s, ReadKey(req, t, id))
  {
    var read := Next(s, ReadKey(req, t, id));
    if fate.DiesBeforeClear? then Next(read, Crash(req))
    else if fate.ClearFails? then Next(read, ClearRow(req, true))
    else
      var cleared := Next(read, ClearRow(req, false));
      if req !in cleared.deletions then cleared
      else if fate.DiesAfterClear? then Next(cleared, Crash(req))
      else Next(cleared, DeleteObject(req, fate.RemovalFails?))
  }

  predicate Clears(s: State, t: string, id: nat, fate: DeleteFate)
    requires s.commits != []
  {
    !fate.DiesBeforeClear? && !fate.ClearFails? && Affected(Primary(s), t, id, "")
  }

  /** A delete that does not clear the row does nothing at all; one that does writes that row once, and
      then removes at most the object that the replica named. */
  lemma DeleteInOneStep(s: State, req: nat, t: string, id: nat, fate: DeleteFate)
    requires Enabled(s, ReadKey(req, t, id))
    ensures AfterDelete(s, req, t, id, fate)
         == if !Clears(s, t, id, fate) then s
            else s.(commits := s.commits + [SetPhoto(Primary(s), t, id, "")],
                    objects := if fate.Works? then s.objects - {Photo(Replica(s), t, id)} else s.objects)
  {
    var read := Next(s, ReadKey(req, t, id));
    assert Primary(read) == Primary(s);
    assert read.deletions - {req} == s.deletions;
    var d := Deletion(t, id, Photo(Replica(s), t, id), true);
    assert read.deletions[req := d] - {req} == s.deletions;
  }

  /** What that means for the rows: exactly the row named loses its key, and only if the clear ran. */
  lemma DeleteMeaning(s: State, req: nat, t: string, id: nat, fate: DeleteFate, u: string, j: int)
    requires Enabled(s, ReadKey(req, t, id))
    ensures var n := AfterDelete(s, req, t, id, fate);
            && n.commits != []
            && Photo(Primary(n), u, j) == if (u, j) == (t, id) && Clears(s, t, id, fate) then "" else Photo(Primary(s), u, j)
  {
    DeleteInOneStep(s, req, t, id, fate);
    PhotoAfterSet(Primary(s), t, id, "", u, j);
  }

  /** Clearing pays off only on a fresh replica: the object that the primary named before a complete
      delete is gone if and only if the replica named the same one. */
  lemma StaleKeyLeavesOrphan(s: State, req: nat, t: string, id: nat)
    requires Enabled(s, ReadKey(req, t, id))
    requires Photo(Primary(s), t, id) != "" && Photo(Primary(s), t, id) in s.objects
    ensures Photo(Primary(s), t, id) !in AfterDelete(s, req, t, id, Works).objects
            <==> Photo(Replica(s), t, id) == Photo(Primary(s), t, id)
  {
    DeleteInOneStep(s, req, t, id, Works);
    assert Affected(Primary(s), t, id, "");
  }

  /** Confirming the key that a row already holds changes nothing and is reported as a failure; any other
      acceptable key of an existing row is stored and reported as a success. */
  lemma ConfirmIsReported(db: Db, t: string, id: nat, key: string)
    requires key != ""
    ensures Affected(db, t, id, key) <==> HasRow(db, t, id) && Photo(db, t, id) != key
    ensures !Affected(SetPhoto(db, t, id, key), t, id, key)
    ensures SetPhoto(SetPhoto(db, t, id, key), t, id, key) == SetPhoto(db, t, id, key)
  {
    AffectedIsChange(SetPhoto(db, t, id, key), t, id, key);
  }

  /** One commit later, and only the photo cell of one row can differ: it holds the key. */
  ghost predicate OneCellAfter(before: seq<Db>, after: seq<Db>, t: string, id: int, key: string) {
    && before != [] && |after| == |before| + 1 && after[..|before|] == before
    && OnlyPhotoChanged(before[|before| - 1], after[|before|], t, id, key)
  }

  lemma OneCellCommit(commits: seq<Db>, t: string, id: int, key: string)
    requires commits != []
    ensures OneCellAfter(commits, commits + [SetPhoto(commits[|commits| - 1], t, id, key)], t, id, key)
  {
    SetPhotoCells(commits[|commits| - 1], t, id, key);
  }

  lemma DeleteTouchesOneCell(s: State, req: nat, t: string, id: nat, fate: DeleteFate)
    requires Enabled(s, ReadKey(req, t, id))
    ensures var n := AfterDelete(s, req, t, id, fate);
            n.commits == s.commits || OneCellAfter(s.commits, n.commits, t, id, "")
  {
    DeleteInOneStep(s, req, t, id, fate);
    OneCellCommit(s.commits, t, id, "");
  }

  lemma Forgotten(deletions: map<nat, Deletion>, req: nat, d: Deletion, e: Deletion)
    requires req !in deletions
    ensures deletions[req := d] - {req} == deletions
    ensures deletions[req := d][req := e] - {req} == deletions
  {
  }

  class Service {
    var commits: seq<Db>
    var replica: nat
    var objects: set<string>
    var uploads: map<nat, Upload>
    var deletions: map<nat, Deletion>

    ghost function Abs(): State
      reads this
    {
      State(commits, replica, objects, uploads, deletions)
    }

    constructor (db: Db)
      requires NoPhotos(db)
      ensures IsInit(Abs()) && Primary(Abs()) == db
    {
      commits, replica, objects := [db], 0, {};
      uploads, deletions := map[], map[];
    }

    /** SetStudentPhotoKey and its twins: false is an error response. */
    method SetPhotoKey(t: string, id: nat, key: string, fails: bool) returns (ok: bool)
      requires commits != []
      modifies this`commits
      ensures commits != []
      ensures ok <==> !fails && Affected(old(Primary(Abs())), t, id, key)
      ensures commits == if ok then old(commits) + [SetPhoto(old(Primary(Abs())), t, id, key)] else old(commits)
      ensures ok ==> OneCellAfter(old(commits), commits, t, id, key)
    {
      var db := commits[|commits| - 1];
      OneCellCommit(commits, t, id, key);
      if fails || t !in db || id !in db[t] { return false; }
      var row: Row := db[t][id];
      var after: Row := if key == "" then row - {PhotoS3Key} else row[PhotoS3Key := key];
      ok := after != row;
      if ok {
        commits := commits + [db[t := db[t][id := after]]];
      }
      AffectedIsChange(db, t, id, key);
      assert SetPhoto(db, t, id, key)[t][id] == after;
      if !ok {
        assert db[t][id := after] == db[t];
        assert db[t := db[t]] == db;
      }
    }

    method Confirm(client: nat, t: string, idText: string, key: string, fails: bool) returns (status: nat)
      requires replica < |commits| && IsTable(t)
      modifies this
      ensures (PathId(idText).None? || !ConfirmAccepts(t, PathId(idText).value, key))
              ==> status == BAD_REQUEST && Abs() == old(Abs())
      ensures PathId(idText).Some? && ConfirmAccepts(t, PathId(idText).value, key) ==>
                var e := PhotoLifecycle.Confirm(client, t, PathId(idText).value, key, fails);
                && Enabled(old(Abs()), e) && Abs() == Next(old(Abs()), e)
                && status == if !fails && Affected(old(Primary(Abs())), t, PathId(idText).value, key)
                             then NO_CONTENT else SERVER_ERROR
      ensures status != NO_CONTENT ==> commits == old(commits)
      ensures status == NO_CONTENT ==>
                PathId(idText).Some? && OneCellAfter(old(commits), commits, t, PathId(idText).value, key)
    {
      var id := PathId(idText);
      if id.None? || !(KeyPrefix(t, id.value) <= key) { return BAD_REQUEST; }
      var ok := SetPhotoKey(t, id.value, key, fails);
      uploads := uploads - {client};
      status := if ok then NO_CONTENT else SERVER_ERROR;
    }

    /** GetStudentPhotoKey and its twins, on the replica: no key is an error response. */
    method GetPhotoKey(t: string, id: nat, fails: bool) returns (key: Option<string>)
      requires replica < |commits|
      ensures key == if fails || !HasRow(Replica(Abs()), t, id) then None else Some(Photo(Replica(Abs()), t, id))
    {
      var db := commits[replica];
      if fails || !(t in db && id in db[t]) { return None; }
      var row := db[t][id];
      key := Some(if PhotoS3Key in row then row[PhotoS3Key] else "");
    }

    /** The key that the signed URL is for. */
    method Get(t: string, idText: string, lookupFails: bool, signingFails: bool) returns (status: nat, key: string)
      requires replica < |commits|
      ensures status in {OK, NOT_FOUND, BAD_REQUEST, SERVER_ERROR}
      ensures status == BAD_REQUEST <==> PathId(idText).None?
      ensures PathId(idText).Some? ==>
                var db, id := Replica(Abs()), PathId(idText).value;
                && (status == OK <==> !lookupFails && !signingFails && Photo(db, t, id) != "")
                && (status == NOT_FOUND <==> !lookupFails && HasRow(db, t, id) && Photo(db, t, id) == "")
                && (status == OK ==> key == Photo(db, t, id))
    {
      var id := PathId(idText);
      if id.None? { return BAD_REQUEST, ""; }
      var found := GetPhotoKey(t, id.value, lookupFails);
      if found.None? { return SERVER_ERROR, ""; }
      if found.value == "" { return NOT_FOUND, ""; }
      if signingFails { return SERVER_ERROR, ""; }
      return OK, found.value;
    }

    /** No status means that the process died before it answered. */
    method Delete(req: nat, t: string, idText: string, lookupFails: bool, fate: DeleteFate)
      returns (status: Option<nat>)
      requires replica < |commits| && IsTable(t) && req !in deletions
      modifies this
      ensures PathId(idText).None? ==> status == Some(BAD_REQUEST) && Abs() == old(Abs())
      ensures PathId(idText).Some? && (lookupFails || Photo(old(Replica(Abs())), t, PathId(idText).value) == "") ==>
                && Abs() == old(Abs())
                && status == Some(if !lookupFails && HasRow(old(Replica(Abs())), t, PathId(idText).value)
                                  then NO_CONTENT else SERVER_ERROR)
      ensures PathId(idText).Some? && !lookupFails && Photo(old(Replica(Abs())), t, PathId(idText).value) != "" ==>
                && Enabled(old(Abs()), ReadKey(req, t, PathId(idText).value))
                && Abs() == AfterDelete(old(Abs()), req, t, PathId(idText).value, fate)
                && status == (if fate.DiesBeforeClear? then None
                              else if !Clears(old(Abs()), t, PathId(idText).value, fate) then Some(SERVER_ERROR)
                              else if fate.DiesAfterClear? then None
                              else Some(NO_CONTENT))
      ensures commits == old(commits)
              || (PathId(idText).Some? && OneCellAfter(old(commits), commits, t, PathId(idText).value, ""))
      ensures status == Some(NO_CONTENT) ==>
                || Photo(old(Replica(Abs())), t, PathId(idText).value) == ""
                || (commits != [] && Photo(Primary(Abs()), t, PathId(idText).value) == ""
                    && (fate.Works? ==> Photo(old(Replica(Abs())), t, PathId(idText).value) !in objects))
    {
      var id := PathId(idText);
      if id.None? { return Some(BAD_REQUEST); }
      var key := GetPhotoKey(t, id.value, lookupFails);
      if key.None? { return Some(SERVER_ERROR); }
      if key.value == "" { return Some(NO_CONTENT); }
      status := DeleteFound(req, t, id.value, key.value, fate);
    }

    /** A delete whose lookup found a key: the machine's steps, and at most one cell of the database. */
    method DeleteFound(req: nat, t: string, id: nat, key: string, fate: DeleteFate) returns (status: Option<nat>)
      requires Enabled(Abs(), ReadKey(req, t, id)) && key == Photo(Replica(Abs()), t, id)
      modifies this`commits, this`objects, this`deletions
      ensures Abs() == AfterDelete(old(Abs()), req, t, id, fate)
      ensures status == if fate.DiesBeforeClear? then None
                        else if !Clears(old(Abs()), t, id, fate) then Some(SERVER_ERROR)
                        else if fate.DiesAfterClear? then None
                        else Some(NO_CONTENT)
      ensures commits == old(commits) || OneCellAfter(old(commits), commits, t, id, "")
      ensures status == Some(NO_CONTENT) ==>
                && commits != [] && Photo(Primary(Abs()), t, id) == ""
                && (fate.Works? ==> key !in objects)
    {
      DeleteInOneStep(Abs(), req, t, id, fate);
      DeleteMeaning(Abs(), req, t, id, fate, t, id);
      DeleteTouchesOneCell(Abs(), req, t, id, fate);
      status := ClearAndRemove(req, t, id, key, fate);
    }

    /** The rest of a delete whose lookup found a key. */
    method ClearAndRemove(req: nat, t: string, id: nat, key: string, fate: DeleteFate) returns (status: Option<nat>)
      requires commits != [] && req !in deletions
      modifies this`commits, this`objects, this`deletions
      ensures deletions == old(deletions)
      ensures commits == if Clears(old(Abs()), t, id, fate)
                         then old(commits) + [SetPhoto(Primary(old(Abs())), t, id, "")] else old(commits)
      ensures objects == if Clears(old(Abs()), t, id, fate) && fate.Works? then old(objects) - {key} else old(objects)
      ensures status == if fate.DiesBeforeClear? then None
                        else if !Clears(old(Abs()), t, id, fate) then Some(SERVER_ERROR)
                        else if fate.DiesAfterClear? then None
                        else Some(NO_CONTENT)
    {
      Forgotten(deletions, req, Deletion(t, id, key, false), Deletion(t, id, key, true));
      deletions := deletions[req := Deletion(t, id, key, false)];
      if fate.DiesBeforeClear? {
        deletions := deletions - {req};
        return None;
      }
      var cleared := SetPhotoKey(t, id, "", fate.ClearFails?);
      if cleared && !fate.DiesAfterClear? {
        deletions := deletions[req := Deletion(t, id, key, true)];
        if fate.Works? { objects := objects - {key}; }
      }
      deletions := deletions - {req};
      status := if !cleared then Some(SERVER_ERROR) else if fate.DiesAfterClear? then None else Some(NO_CONTENT);
    }
  }
}
