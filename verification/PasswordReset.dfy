/** The two handlers of the password-reset flow as they run when nothing comes between their SELECT and
    their UPDATE, on the execs table of the primary. */
module PasswordReset {
  import opened Strings
  import opened ResetToken

  class Primary {
    const sha: Hash
    const sameEmail: (string, string) -> bool   // equality under the column's collation
    var now: int
    var execs: map<int, Exec>
    ghost var run: State      // where the step machine stands

    ghost predicate Valid()
      reads this
    {
      && OrderlyReachable(sha, run) && run.issuing == map[] && run.resetting == map[]
      && run.now == now && run.execs == execs
    }

    constructor (sha: Hash, sameEmail: (string, string) -> bool)
      requires CollisionFree(sha)
      ensures Valid() && this.sha == sha && this.sameEmail == sameEmail && execs == map[] && now == 0
    {
      this.sha, this.sameEmail := sha, sameEmail;
      now, execs, run := 0, map[], Init;
      assert OrderlyRuns(sha, Init, [], Init);
    }

    method Wait(seconds: nat)
      requires Valid()
      modifies this
      ensures Valid() && now == old(now) + seconds && execs == old(execs)
      ensures run == old(run).(now := now)
    {
      TimePasses(sha, run, seconds);
      now, run := now + seconds, run.(now := now + seconds);
    }

    /** PrepareResetToken with the random bytes it drew; fails says that the UPDATE fails. */
    method PrepareResetToken(email: string, minutes: int, bytes: Bytes, fails: bool)
      returns (token: Option<string>, ghost id: int)
      requires Valid() && |bytes| == 32
      requires forall i :: 0 <= i < |run.issued| ==> run.issued[i].bytes != bytes
      modifies this
      ensures Valid() && now == old(now)
      ensures token.Some? <==> !fails && exists row :: row in old(execs) && sameEmail(old(execs)[row].email, email)
      ensures token.None? ==> execs == old(execs) && run.issued == old(run.issued) && run.resets == old(run.resets)
      ensures token.Some? ==>
                && token.value == HexEncode(bytes) && id in old(execs) && sameEmail(old(execs)[id].email, email)
                && execs == old(execs)[id := old(execs)[id].(code := Some(Code(sha(bytes), now + 60 * minutes)))]
                && run.issued == old(run.issued) + [Issue(id, bytes, now + 60 * minutes)]
                && run.resets == old(run.resets)
    {
      token, id := None, 0;
      if row :| row in execs && sameEmail(execs[row].email, email) {
        var expires := now + 60 * minutes;
        ghost var select, update := PrepareSelect(0, row, minutes), PrepareUpdate(0, bytes, !fails);
        ReachStep(sha, run, select);
        run := Next(sha, run, select);
        ReachStep(sha, run, update);
        run := Next(sha, run, update);
        id := row;
        if !fails {
          execs := execs[row := execs[row].(code := Some(Code(sha(bytes), expires)))];
          token := Some(HexEncode(bytes));
        }
      }
    }

    /** ResetPasswordDBHandler; fails says that the UPDATE fails. */
    method ResetPassword(token: string, password: string, fails: bool) returns (ok: bool, ghost id: int)
      requires Valid()
      modifies this
      ensures Valid() && now == old(now) && run.issued == old(run.issued)
      ensures ok <==> !fails && password != "" && exists row :: Matches(sha, old(run), token, row)
      ensures !ok ==> execs == old(execs) && run.resets == old(run.resets)
      ensures ok ==>
                && Matches(sha, old(run), token, id)
                && execs == old(execs)[id := old(execs)[id].(password := password, code := None)]
                && |run.resets| == |old(run.resets)| + 1
                && run.resets[|old(run.resets)|].id == id
                && run.resets[|old(run.resets)|].bytes == HexDecode(token).value
    {
      ok, id := false, 0;
      var decoded := HexDecode(token);
      if decoded.None? { return; }
      var hash := sha(decoded.value);
      if row :| row in execs && execs[row].code.Some? && execs[row].code.value.hash == hash && execs[row].code.value.expires > now {
        assert Matches(sha, run, token, row);
        if password == "" { return; }
        ghost var select, update := ResetSelect(0, token, row, password), ResetUpdate(0, !fails);
        ReachStep(sha, run, select);
        run := Next(sha, run, select);
        ReachStep(sha, run, update);
        run := Next(sha, run, update);
        if !fails {
          execs := execs[row := execs[row].(password := password, code := None)];
          ok, id := true, row;
        }
      }
    }

    /** ForgotPasswordHandler: store the token, then queue the mail. When the queue refuses, the answer is
        503 but the new code is already stored, so an older token of the exec is dead either way. */
    method ForgotPassword(email: string, minutes: int, bytes: Bytes, fails: bool, queued: bool)
      returns (status: nat, mailed: Option<string>, ghost id: int)
      requires Valid() && |bytes| == 32
      requires forall i :: 0 <= i < |run.issued| ==> run.issued[i].bytes != bytes
      modifies this
      ensures Valid() && now == old(now)
      ensures status == 400 <==> fails || !exists row :: row in old(execs) && sameEmail(old(execs)[row].email, email)
      ensures status == 400 ==> execs == old(execs) && run.issued == old(run.issued) && mailed == None
      ensures status != 400 ==>
                && status == (if queued then 202 else 503)
                && mailed == (if queued then Some(HexEncode(bytes)) else None)
                && IsNewest(run.issued, id, |old(run.issued)|) && run.issued[|old(run.issued)|].bytes == bytes
                && id in old(execs) && sameEmail(old(execs)[id].email, email)
                && execs == old(execs)[id := old(execs)[id].(code := Some(Code(sha(bytes), now + 60 * minutes)))]
                && run.resets == old(run.resets)
      ensures status != 400 ==> forall k, token, row ::
                0 <= k < |old(run.issued)| && run.issued[k].id == id && HexDecode(token) == Some(run.issued[k].bytes)
                ==> !Matches(sha, run, token, row)
    {
      ghost var before := run;
      var token;
      mailed := None;
      token, id := PrepareResetToken(email, minutes, bytes, fails);
      if token.None? { return 400, None, id; }
      assert run.issued == before.issued + [Issue(id, bytes, now + 60 * minutes)];
      assert IsNewest(run.issued, id, |before.issued|);
      forall k: nat, text, row | k < |before.issued| && run.issued[k].id == id
                                 && HexDecode(text) == Some(run.issued[k].bytes)
        ensures !Matches(sha, run, text, row)
      {
        OldTokenIsDead(sha, run, k, |before.issued|, text, row);
      }
      if queued {
        status, mailed := 202, token;
      } else {
        status := 503;
      }
    }

    /** ResetPasswordHandler on a decoded body. */
    method ResetPasswordRequest(token: string, password: string, again: string, fails: bool) returns (status: nat)
      requires Valid()
      modifies this
      ensures Valid() && status in {200, 400}
      ensures status == 200 <==>
                password == again && !fails && password != "" && exists row :: Matches(sha, old(run), token, row)
      ensures status == 400 ==> execs == old(execs)
      ensures status == 200 ==> exists row ::
                && Matches(sha, old(run), token, row)
                && execs == old(execs)[row := old(execs)[row].(password := password, code := None)]
    {
      if password != again { return 400; }
      var ok, id := ResetPassword(token, password, fails);
      status := if ok then 200 else 400;
    }

    /** A token that was just mailed resets its exec within its life, once: the second attempt fails. */
    method UseTwice(email: string, minutes: nat, bytes: Bytes, delay: nat, password: string)
      returns (first: bool, second: bool)
      requires Valid() && |bytes| == 32 && password != ""
      requires forall i :: 0 <= i < |run.issued| ==> run.issued[i].bytes != bytes
      requires exists row :: row in execs && sameEmail(execs[row].email, email)
      modifies this
      ensures Valid() && !second
      ensures first <==> delay < 60 * minutes
    {
      OrderlyReachableInv(sha, run);
      FreshIsUnused(run, bytes);
      var token, id := PrepareResetToken(email, minutes, bytes, false);
      ghost var k := |run.issued| - 1;
      Wait(delay);
      HexRoundTrip(bytes);
      NewestDecides(sha, run, token.value, id, k);
      ghost var who;
      first, who := ResetPassword(token.value, password, false);
      assert first ==> run.resets[|run.resets| - 1] in run.resets;
      NewestDecides(sha, run, token.value, id, k);
      second, who := ResetPassword(token.value, password, false);
    }
  }

  lemma TimePasses(sha: Hash, s: State, seconds: nat)
    requires OrderlyReachable(sha, s)
    ensures OrderlyReachable(sha, s.(now := s.now + seconds))
  {
    ReachStep(sha, s, Tick(seconds));
  }

  /** Whether the text of the newest token of an exec finds a row at all. */
  lemma NewestDecides(sha: Hash, s: State, token: string, id: int, k: nat)
    requires OrderlyReachable(sha, s) && IsNewest(s.issued, id, k) && HexDecode(token) == Some(s.issued[k].bytes)
    ensures (exists row :: Matches(sha, s, token, row))
            <==> id in s.execs && s.now < s.issued[k].expires && !Used(s, s.issued[k].bytes)
  {
    MatchesExactly(sha, s, token, id, k);
    forall row | Matches(sha, s, token, row) ensures row == id {
      MatchesOnlyItsExec(sha, s, token, row, row);
    }
  }

  /** A token that a newer one of the same exec replaced matches nobody. */
  lemma OldTokenIsDead(sha: Hash, s: State, k: nat, newer: nat, token: string, row: int)
    requires OrderlyReachable(sha, s) && k < newer < |s.issued| && s.issued[k].id == s.issued[newer].id
    requires HexDecode(token) == Some(s.issued[k].bytes)
    ensures !Matches(sha, s, token, row)
  {
    OrderlyReachableInv(sha, s);
    if Matches(sha, s, token, row) {
      MatchesOnlyItsExec(sha, s, token, row, row);
      assert false;
    }
  }
}
