/** The write handlers of the list endpoints: a repository write, and after a nil error the invalidation
    of the table's cached lists. */
module WriteHandlers {
  import opened Strings
  import opened Tables
  import opened ListCache
  import opened CacheClient
  import opened Repository

  const OK := 200
  const NO_CONTENT := 204
  const SERVER_ERROR := 500

  /** No status means that the handler panicked. */
  type Status = Option<nat>

  /** No cached list of table t is left, and the lists of the other tables are what they were. */
  ghost predicate OwnListsGone(before: Store, after: Store, t: string) {
    && (forall q :: CacheKey(t, q) !in after)
    && (forall u, q :: IsTable(u) && u != t ==>
          && (CacheKey(u, q) in after <==> CacheKey(u, q) in before)
          && (CacheKey(u, q) in after ==> after[CacheKey(u, q)] == before[CacheKey(u, q)]))
  }

  lemma PrefixGoneIsListsGone(before: Store, after: Store, t: string)
    requires IsTable(t)
    requires forall k :: k in after <==> k in before && !(Prefix(t) <= k)
    requires forall k :: k in after ==> after[k] == before[k]
    ensures OwnListsGone(before, after, t)
  {
    forall q ensures CacheKey(t, q) !in after {
      PatternMatchesOwnTable(t, t, q);
    }
    forall u, q | IsTable(u) && u != t
      ensures CacheKey(u, q) in after <==> CacheKey(u, q) in before
    {
      PatternMatchesOwnTable(t, u, q);
    }
  }

  class Api {
    const primary: Primary
    const redis: Redis

    constructor (primary: Primary, redis: Redis)
      ensures this.primary == primary && this.redis == redis
    {
      this.primary, this.redis := primary, redis;
    }

    /** The cached lists of t are gone and nothing else is; all are left when Redis cannot be reached. */
    ghost predicate Invalidated(before: Store, t: string, scanFails: bool, delFails: bool)
      reads redis
    {
      if redis.connected && !scanFails && !delFails then OwnListsGone(before, redis.store, t)
      else redis.store == before
    }

    /** InvalidatePattern(KeyPrefix + "students:list:*") and its siblings. */
    method InvalidateLists(t: string, scanFails: bool, delFails: bool)
      requires IsTable(t)
      modifies redis`store
      ensures Invalidated(old(redis.store), t, scanFails, delFails)
    {
      var keys := redis.InvalidatePattern(Prefix(t), scanFails, delFails);
      if redis.connected && !scanFails && !delFails {
        PrefixGoneIsListsGone(old(redis.store), redis.store, t);
      }
    }

    /** DeleteStudentsHandler and DeleteTeachersHandler on decoded ids. */
    method DeleteMany(t: string, ids: seq<int>, faults: Faults, scanFails: bool, delFails: bool)
      returns (status: nat, deleted: seq<int>)
      requires IsTable(t) && primary.HasTable(t)
      modifies primary`db, redis`store
      ensures status == OK || status == SERVER_ERROR
      ensures status == OK <==>
                && ids != [] && (forall i, j :: 0 <= i < j < |ids| ==> ids[i] != ids[j])
                && (forall i :: 0 <= i < |ids| ==> ids[i] in old(primary.db)[t])
                && !faults.begin && !faults.commit
                && (forall i :: 0 <= i < |ids| ==> !faults.statement(i) && !faults.result(i))
      ensures status == SERVER_ERROR ==> primary.db == old(primary.db) && redis.store == old(redis.store)
      ensures status == OK ==>
                && deleted == ids
                && primary.db == old(primary.db)[t := old(primary.db)[t] - (set id | id in ids)]
                && Invalidated(old(redis.store), t, scanFails, delFails)
    {
      var outcome := primary.DeleteMany(t, ids, faults);
      if outcome.DeleteFailed? { return SERVER_ERROR, []; }
      InvalidateLists(t, scanFails, delFails);
      return OK, outcome.ids;
    }

    /** PatchOneStudentHandler and its siblings on a decoded body. */
    method PatchOne(t: string, schema: Schema, id: int, body: Body, queryFails: bool, statementFails: bool,
                    scanFails: bool, delFails: bool)
      returns (status: Status)
      requires IsTable(t) && schema.Valid() && primary.HasTable(t)
      modifies primary`db, redis`store
      ensures status == Some(OK) <==>
                id in old(primary.db)[t] && Settable(schema, body) && !queryFails && !statementFails
      ensures status == None <==> !queryFails && id in old(primary.db)[t] && !Settable(schema, body)
      ensures status in {Some(OK), Some(SERVER_ERROR), None}
      ensures status == Some(OK) ==>
                && primary.db == old(primary.db)[t := PatchedOne(old(primary.db)[t], schema, id, body)]
                && OnePatched(old(primary.db)[t], schema, id, if IdKey in body then body[IdKey].trunc else id, body,
                              primary.db[t])
                && Invalidated(old(redis.store), t, scanFails, delFails)
      ensures status != Some(OK) ==> primary.db == old(primary.db) && redis.store == old(redis.store)
    {
      var outcome := primary.PatchOne(t, schema, id, body, queryFails, statementFails);
      match outcome {
        case Panicked => return None;
        case Rejected(_) => return Some(SERVER_ERROR);
        case _ =>
      }
      InvalidateLists(t, scanFails, delFails);
      status := Some(OK);
    }

    /** PatchStudentsHandler and its siblings on decoded bodies: 204 also when the patch was dropped. */
    method PatchMany(t: string, schema: Schema, bodies: seq<Body>, faults: Faults, scanFails: bool, delFails: bool)
      returns (status: Status)
      requires IsTable(t) && schema.Valid() && schema.read == schema.written && primary.HasTable(t)
      modifies primary`db, redis`store
      ensures status in {Some(NO_CONTENT), Some(SERVER_ERROR), None}
      ensures Clean(old(primary.db)[t], schema, bodies, faults) ==>
                && status == Some(NO_CONTENT)
                && t in primary.db && primary.db == old(primary.db)[t := primary.db[t]]
                && BatchPatched(old(primary.db)[t], schema.written, bodies, primary.db[t])
      ensures !Clean(old(primary.db)[t], schema, bodies, faults) ==> primary.db == old(primary.db)
      ensures (forall i :: 0 <= i < |bodies| ==> NullFree(bodies[i])) ==>
                && status != None
                && (status == Some(NO_CONTENT) <==>
                      || Clean(old(primary.db)[t], schema, bodies, faults)
                      || Drops(old(primary.db)[t], schema, bodies, faults))
      ensures status == Some(NO_CONTENT) ==> Invalidated(old(redis.store), t, scanFails, delFails)
      ensures status != Some(NO_CONTENT) ==> redis.store == old(redis.store)
    {
      var outcome := primary.PatchMany(t, schema, bodies, faults);
      match outcome {
        case Panicked => return None;
        case Rejected(_) => return Some(SERVER_ERROR);
        case _ =>
      }
      InvalidateLists(t, scanFails, delFails);
      status := Some(NO_CONTENT);
    }
  }
}
