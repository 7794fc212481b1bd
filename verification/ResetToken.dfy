/** Password-reset tokens on the primary: PrepareResetToken stores the hash of 32 random bytes and mails
    their hex text; ResetPasswordDBHandler finds the exec by the hash of the decoded text and then
    writes the password and clears the code. Both are a SELECT followed by an UPDATE. */
module ResetToken {
  import opened Strings

  // ---------------------------------------------------------------- hex, section 8 of RFC 4648

  type Byte = b: nat | b < 256
  type Bytes = seq<Byte>

  function HexDigit(d: nat): char
    requires d < 16
  {
    if d < 10 then '0' + d as char else 'a' + (d - 10) as char
  }

  function HexValue(c: char): Option<nat> {
    if '0' <= c <= '9' then Some((c - '0') as int)
    else if 'a' <= c <= 'f' then Some((c - 'a') as int + 10)
    else if 'A' <= c <= 'F' then Some((c - 'A') as int + 10)
    else None
  }

  function HexEncode(bytes: Bytes): string {
    if bytes == [] then "" else [HexDigit(bytes[0] / 16), HexDigit(bytes[0] % 16)] + HexEncode(bytes[1..])
  }

  /** hex.DecodeString: an even number of hex digits of either case. */
  function HexDecode(s: string): Option<Bytes> {
    if s == "" then Some([])
    else if |s| == 1 || HexValue(s[0]).None? || HexValue(s[1]).None? then None
    else
      var hi, lo := HexValue(s[0]).value, HexValue(s[1]).value;
      var rest := HexDecode(s[2..]);
      if rest.None? || hi >= 16 || lo >= 16 then None else Some([16 * hi + lo] + rest.value)
  }

  lemma HexDigitValue(d: nat)
    requires d < 16
    ensures HexValue(HexDigit(d)) == Some(d)
  {
  }

  lemma {:induction false} HexRoundTrip(bytes: Bytes)
    ensures HexDecode(HexEncode(bytes)) == Some(bytes)
  {
    if bytes != [] {
      var s := HexEncode(bytes);
      HexDigitValue(bytes[0] / 16);
      HexDigitValue(bytes[0] % 16);
      assert s[2..] == HexEncode(bytes[1..]);
      HexRoundTrip(bytes[1..]);
      assert 16 * (bytes[0] / 16) + bytes[0] % 16 == bytes[0];
      assert [bytes[0]] + bytes[1..] == bytes;
    }
  }

  /** A text decodes exactly when it is two hex digits for every byte, high half first. */
  lemma {:induction false} HexDecodeIff(s: string, bytes: Bytes)
    ensures HexDecode(s) == Some(bytes) <==>
              && |s| == 2 * |bytes|
              && forall i :: 0 <= i < |bytes| ==>
                   HexValue(s[2 * i]) == Some(bytes[i] / 16) && HexValue(s[2 * i + 1]) == Some(bytes[i] % 16)
  {
    if |s| >= 2 && bytes != [] {
      HexDecodeIff(s[2..], bytes[1..]);
      assert bytes == [bytes[0]] + bytes[1..];
    }
  }

  /** Two lower-case digits for every byte. */
  lemma {:induction false} HexIsLower(bytes: Bytes)
    ensures |HexEncode(bytes)| == 2 * |bytes|
    ensures forall c :: c in HexEncode(bytes) ==> '0' <= c <= '9' || 'a' <= c <= 'f'
  {
    if bytes != [] {
      HexIsLower(bytes[1..]);
    }
  }

  // ---------------------------------------------------------------- the step machine

  /** password_reset_code and password_reset_code_expires. */
  datatype Code = Code(hash: string, expires: int)

  datatype Exec = Exec(email: string, password: string, code: Option<Code>)

  /** A token as it was given out. */
  datatype Issue = Issue(id: int, bytes: Bytes, expires: int)

  /** A password reset that took effect: by which issue, when its SELECT ran, and how many tokens had
      been issued by then. */
  datatype Reset = Reset(
    id: int, bytes: Bytes, issue: nat, selectedAt: int, issuedBefore: nat, lookup: Lookup)

  /** What a SELECT saw: the position of the exec's newest token then, how many tokens had been issued, and
      how many resets had taken effect. */
  datatype Lookup = Lookup(newest: nat, issued: nat, resets: nat)

  datatype Issuing = Issuing(id: int, expires: int)
  datatype Resetting = Resetting(id: int, bytes: Bytes, password: string, selectedAt: int, lookup: Lookup)

  /** Times are in seconds. The last four fields are bookkeeping about the past. */
  datatype State = State(
    now: int,
    execs: map<int, Exec>,
    issuing: map<nat, Issuing>,
    resetting: map<nat, Resetting>,
    used: set<int>,              // exec ids ever given out
    issued: seq<Issue>,
    newest: map<int, nat>,       // position of the newest token of an exec
    resets: seq<Reset>)

  datatype Event =
    | Tick(seconds: nat)
    | AddExec(id: int, email: string, password: string)
    | DeleteExec(id: int)
    | ChangePassword(id: int, password: string)
    | PrepareSelect(req: nat, id: int, minutes: int)     // whichever row the email finds
    | PrepareUpdate(req: nat, bytes: Bytes, takesEffect: bool)
    | ResetSelect(req: nat, token: string, id: int, password: string)
    | ResetUpdate(req: nat, takesEffect: bool)

  type Hash = Bytes -> string

  /** The row that the SELECT of a reset may return. */
  predicate Matches(sha: Hash, s: State, token: string, id: int) {
    && HexDecode(token).Some?
    && id in s.execs && s.execs[id].code.Some?
    && s.execs[id].code.value.hash == sha(HexDecode(token).value)
    && s.execs[id].code.value.expires > s.now
  }

  predicate Enabled(sha: Hash, s: State, e: Event) {
    match e
    case Tick(_) => true
    case AddExec(id, _, _) => id !in s.used
    case DeleteExec(id) => id in s.execs
    case ChangePassword(id, _) => id in s.execs
    case PrepareSelect(req, id, _) => req !in s.issuing && id in s.execs
    case PrepareUpdate(req, bytes, _) => req in s.issuing && |bytes| == 32
    case ResetSelect(req, token, id, password) =>
      req !in s.resetting && Matches(sha, s, token, id) && password != ""    // HashPassword refuses ""
    case ResetUpdate(req, _) => req in s.resetting
  }

  /** The position of the newest token of an exec; 0 if it has none. */
  function NewestOf(s: State, id: int): nat {
    if id in s.newest then s.newest[id] else 0
  }

  function Next(sha: Hash, s: State, e: Event): State
    requires Enabled(sha, s, e)
  {
    match e
    case Tick(seconds) => s.(now := s.now + seconds)
    case AddExec(id, email, password) =>
      s.(execs := s.execs[id := Exec(email, password, None)], used := s.used + {id})
    case DeleteExec(id) => s.(execs := s.execs - {id})
    case ChangePassword(id, password) => s.(execs := s.execs[id := s.execs[id].(password := password)])
    case PrepareSelect(req, id, minutes) =>
      s.(issuing := s.issuing[req := Issuing(id, s.now + 60 * minutes)])
    case PrepareUpdate(req, bytes, takesEffect) =>
      var i := s.issuing[req];
      var t := s.(issuing := s.issuing - {req});
      if takesEffect && i.id in s.execs
      then t.(execs := s.execs[i.id := s.execs[i.id].(code := Some(Code(sha(bytes), i.expires)))],
              issued := s.issued + [Issue(i.id, bytes, i.expires)],
              newest := s.newest[i.id := |s.issued|])
      else t
    case ResetSelect(req, token, id, password) =>
      s.(resetting := s.resetting[req := Resetting(
        id, HexDecode(token).value, password, s.now, Lookup(NewestOf(s, id), |s.issued|, |s.resets|))])
    case ResetUpdate(req, takesEffect) =>
      var r := s.resetting[req];
      var t := s.(resetting := s.resetting - {req});
      if takesEffect && r.id in s.execs
      then t.(execs := s.execs[r.id := s.execs[r.id].(password := r.password, code := None)],
              resets := s.resets + [Reset(r.id, r.bytes, NewestOf(s, r.id), r.selectedAt, |s.issued|, r.lookup)])
      else t
  }

  const Init := State(0, map[], map[], map[], {}, [], map[], [])

  ghost predicate CollisionFree(sha: Hash) {
    forall a, b :: sha(a) == sha(b) ==> a == b
  }

  /** No reset of an exec is between its SELECT and its UPDATE. */
  predicate NotResetting(s: State, id: int) {
    forall req :: req in s.resetting ==> s.resetting[req].id != id
  }

  /** Random bytes do not repeat. */
  predicate Fresh(s: State, e: Event) {
    e.PrepareUpdate? ==> forall i :: 0 <= i < |s.issued| ==> s.issued[i].bytes != e.bytes
  }

  /** The SELECT/UPDATE pair of a reset is not interleaved with another reset or a new code of the same
      exec, and random bytes do not repeat. */
  predicate Orderly(s: State, e: Event) {
    && Fresh(s, e)
    && match e
       case PrepareUpdate(req, _, _) => req in s.issuing ==> NotResetting(s, s.issuing[req].id)
       case ResetSelect(_, _, id, _) => NotResetting(s, id)
       case _ => true
  }

  ghost predicate OrderlyRuns(sha: Hash, s0: State, es: seq<Event>, s1: State)
    decreases |es|
  {
    if es == [] then s0 == s1
    else Enabled(sha, s0, es[0]) && Orderly(s0, es[0]) && OrderlyRuns(sha, Next(sha, s0, es[0]), es[1..], s1)
  }

  ghost predicate OrderlyReachable(sha: Hash, s: State) {
    CollisionFree(sha) && exists es :: OrderlyRuns(sha, Init, es, s)
  }

  // ---------------------------------------------------------------- invariant

  predicate Used(s: State, bytes: Bytes) {
    exists r :: r in s.resets && r.bytes == bytes
  }

  /** A stored code is that of the newest token of the exec, not used yet; and such a token is stored. */
  ghost predicate CodeOk(sha: Hash, s: State, id: int) {
    && (id in s.newest ==> s.newest[id] < |s.issued| && s.issued[s.newest[id]].id == id)
    && (id in s.execs ==> id in s.used)
    && (id in s.execs && s.execs[id].code.Some? ==>
          && id in s.newest
          && var i := s.issued[s.newest[id]];
             s.execs[id].code == Some(Code(sha(i.bytes), i.expires)) && !Used(s, i.bytes))
    && (id in s.execs && id in s.newest && !Used(s, s.issued[s.newest[id]].bytes) ==> s.execs[id].code.Some?)
    && (id in s.newest ==> id in s.used)
  }

  ghost predicate IssuesOk(s: State) {
    && (forall i, j :: 0 <= i < j < |s.issued| ==> s.issued[i].bytes != s.issued[j].bytes)
    && (forall i :: 0 <= i < |s.issued| ==> s.issued[i].id in s.newest && i <= s.newest[s.issued[i].id])
  }

  ghost predicate ResettingOk(sha: Hash, s: State) {
    && (forall a, b :: a in s.resetting && b in s.resetting && s.resetting[a].id == s.resetting[b].id ==> a == b)
    && (forall req :: req in s.resetting ==>
          var r := s.resetting[req];
          && r.selectedAt <= s.now && r.id in s.used
          && (r.id in s.execs ==>
                s.execs[r.id].code.Some? && s.execs[r.id].code.value.hash == sha(r.bytes)
                && s.execs[r.id].code.value.expires > r.selectedAt))
  }

  /** What a reset that took effect must look like. */
  predicate ResetOk(issued: seq<Issue>, r: Reset) {
    && r.issue < r.issuedBefore <= |issued|
    && issued[r.issue].id == r.id && issued[r.issue].bytes == r.bytes
    && r.selectedAt < issued[r.issue].expires
    && (forall j :: r.issue < j < r.issuedBefore ==> issued[j].id != r.id)
  }

  ghost predicate ResetsOk(s: State) {
    && (forall r :: r in s.resets ==> ResetOk(s.issued, r))
    && (forall a, b :: 0 <= a < b < |s.resets| ==> s.resets[a].bytes != s.resets[b].bytes)
  }

  ghost predicate Inv(sha: Hash, s: State) {
    && (forall id: int :: CodeOk(sha, s, id))
    && IssuesOk(s)
    && ResettingOk(sha, s)
    && ResetsOk(s)
  }

  lemma InitInv(sha: Hash)
    ensures Inv(sha, Init)
  {
  }

  // ---------------------------------------------------------------- steps that touch no token

  lemma OtherStepKeepsInv(sha: Hash, s: State, e: Event)
    requires Inv(sha, s) && Enabled(sha, s, e)
    requires e.Tick? || e.AddExec? || e.DeleteExec? || e.ChangePassword? || e.PrepareSelect?
    ensures Inv(sha, Next(sha, s, e))
  {
    var t := Next(sha, s, e);
    assert t.issued == s.issued && t.newest == s.newest && t.resets == s.resets && t.resetting == s.resetting;
    forall id: int ensures CodeOk(sha, t, id) {
      assert CodeOk(sha, s, id);
      assert forall b :: Used(t, b) == Used(s, b);
    }
  }

  lemma ResetSelectKeepsInv(sha: Hash, s: State, e: Event)
    requires Inv(sha, s) && Enabled(sha, s, e) && Orderly(s, e) && e.ResetSelect?
    ensures Inv(sha, Next(sha, s, e))
  {
    var t := Next(sha, s, e);
    assert CodeOk(sha, s, e.id);
    forall id: int ensures CodeOk(sha, t, id) {
      assert CodeOk(sha, s, id);
      assert forall b :: Used(t, b) == Used(s, b);
    }
  }

  // ---------------------------------------------------------------- a new token

  lemma FreshIsUnused(s: State, bytes: Bytes)
    requires ResetsOk(s)
    requires forall i :: 0 <= i < |s.issued| ==> s.issued[i].bytes != bytes
    ensures !Used(s, bytes)
  {
    forall r | r in s.resets ensures r.bytes != bytes {
      assert ResetOk(s.issued, r);
    }
  }

  lemma PrepareKeepsCode(sha: Hash, s: State, e: Event, id: int)
    requires Inv(sha, s) && Enabled(sha, s, e) && Orderly(s, e) && e.PrepareUpdate?
    ensures CodeOk(sha, Next(sha, s, e), id)
  {
    var t := Next(sha, s, e);
    FreshIsUnused(s, e.bytes);
    assert CodeOk(sha, s, id);
    assert CodeOk(sha, s, s.issuing[e.req].id);
    assert forall b :: Used(t, b) == Used(s, b);
  }

  lemma PrepareKeepsResets(sha: Hash, s: State, e: Event)
    requires Inv(sha, s) && Enabled(sha, s, e) && Orderly(s, e) && e.PrepareUpdate?
    ensures ResetsOk(Next(sha, s, e))
  {
    var t := Next(sha, s, e);
    forall r | r in t.resets ensures ResetOk(t.issued, r) {
      assert ResetOk(s.issued, r);
    }
  }

  lemma PrepareKeepsInv(sha: Hash, s: State, e: Event)
    requires Inv(sha, s) && Enabled(sha, s, e) && Orderly(s, e) && e.PrepareUpdate?
    ensures Inv(sha, Next(sha, s, e))
  {
    forall id: int ensures CodeOk(sha, Next(sha, s, e), id) { PrepareKeepsCode(sha, s, e, id); }
    PrepareKeepsResets(sha, s, e);
    assert CodeOk(sha, s, s.issuing[e.req].id);
  }

  // ---------------------------------------------------------------- a reset takes effect

  /** The token of a pending reset is the newest one of its exec, unexpired when it was looked up and
      not used since. */
  lemma PendingIsNewest(sha: Hash, s: State, req: nat)
    requires CollisionFree(sha) && Inv(sha, s)
    requires req in s.resetting && s.resetting[req].id in s.execs
    ensures var r := s.resetting[req];
            r.id in s.newest && s.newest[r.id] < |s.issued| && s.issued[s.newest[r.id]].id == r.id
            && s.issued[s.newest[r.id]].bytes == r.bytes && r.selectedAt < s.issued[s.newest[r.id]].expires
            && !Used(s, r.bytes)
  {
    var r := s.resetting[req];
    assert CodeOk(sha, s, r.id);
    var i := s.issued[s.newest[r.id]];
    assert sha(i.bytes) == sha(r.bytes);
  }

  /** What a reset that takes effect adds to the log. */
  lemma LoggedReset(sha: Hash, s: State, e: Event)
    requires CollisionFree(sha) && Inv(sha, s) && Enabled(sha, s, e) && e.ResetUpdate?
    requires e.takesEffect && s.resetting[e.req].id in s.execs
    ensures var t := Next(sha, s, e); var r := s.resetting[e.req];
            |t.resets| == |s.resets| + 1 && ResetOk(t.issued, t.resets[|s.resets|])
            && t.resets[|s.resets|].bytes == r.bytes && !Used(s, r.bytes)
  {
    PendingIsNewest(sha, s, e.req);
    var r := s.resetting[e.req];
    var n := s.newest[r.id];
    forall j | n < j < |s.issued| ensures s.issued[j].id != r.id {
      assert s.issued[j].id in s.newest && j <= s.newest[s.issued[j].id];
    }
  }

  lemma ResetKeepsCode(sha: Hash, s: State, e: Event, id: int)
    requires CollisionFree(sha) && Inv(sha, s) && Enabled(sha, s, e) && e.ResetUpdate?
    requires e.takesEffect && s.resetting[e.req].id in s.execs
    ensures CodeOk(sha, Next(sha, s, e), id)
  {
    var t := Next(sha, s, e);
    var r := s.resetting[e.req];
    PendingIsNewest(sha, s, e.req);
    assert CodeOk(sha, s, id);
    var last := t.resets[|s.resets|];
    assert last in t.resets && last.bytes == r.bytes;
    forall b ensures Used(t, b) <==> Used(s, b) || b == r.bytes {
      if Used(s, b) {
        var x :| x in s.resets && x.bytes == b;
        assert x in t.resets;
      }
    }
    if id != r.id && id in s.newest {
      assert s.issued[s.newest[id]].bytes != r.bytes;
    }
  }

  lemma ResetUpdateKeepsInv(sha: Hash, s: State, e: Event)
    requires CollisionFree(sha) && Inv(sha, s) && Enabled(sha, s, e) && e.ResetUpdate?
    ensures Inv(sha, Next(sha, s, e))
  {
    var t := Next(sha, s, e);
    var r := s.resetting[e.req];
    if e.takesEffect && r.id in s.execs {
      forall id: int ensures CodeOk(sha, t, id) { ResetKeepsCode(sha, s, e, id); }
      LoggedReset(sha, s, e);
      forall x | x in t.resets ensures ResetOk(t.issued, x) {}
      forall a, b | 0 <= a < b < |t.resets| ensures t.resets[a].bytes != t.resets[b].bytes {
        assert s.resets[a] in s.resets;
      }
      forall req | req in t.resetting ensures t.resetting[req].id != r.id {}
    } else {
      forall id: int ensures CodeOk(sha, t, id) {
        assert CodeOk(sha, s, id);
        assert forall b :: Used(t, b) == Used(s, b);
      }
    }
  }

  // ---------------------------------------------------------------- runs

  lemma NextKeepsInv(sha: Hash, s: State, e: Event)
    requires CollisionFree(sha) && Inv(sha, s) && Enabled(sha, s, e) && Orderly(s, e)
    ensures Inv(sha, Next(sha, s, e))
  {
    match e
    case PrepareUpdate(_, _, _) => PrepareKeepsInv(sha, s, e);
    case ResetSelect(_, _, _, _) => ResetSelectKeepsInv(sha, s, e);
    case ResetUpdate(_, _) => ResetUpdateKeepsInv(sha, s, e);
    case _ => OtherStepKeepsInv(sha, s, e);
  }

  lemma {:induction false} RunKeepsInv(sha: Hash, s0: State, es: seq<Event>, s1: State)
    requires CollisionFree(sha) && Inv(sha, s0) && OrderlyRuns(sha, s0, es, s1)
    ensures Inv(sha, s1)
    decreases |es|
  {
    if es != [] {
      NextKeepsInv(sha, s0, es[0]);
      RunKeepsInv(sha, Next(sha, s0, es[0]), es[1..], s1);
    }
  }

  lemma OrderlyReachableInv(sha: Hash, s: State)
    requires OrderlyReachable(sha, s)
    ensures Inv(sha, s)
  {
    var es :| OrderlyRuns(sha, Init, es, s);
    InitInv(sha);
    RunKeepsInv(sha, Init, es, s);
  }

  lemma {:induction false} RunExtends(sha: Hash, s0: State, es: seq<Event>, s1: State, e: Event)
    requires OrderlyRuns(sha, s0, es, s1) && Enabled(sha, s1, e) && Orderly(s1, e)
    ensures OrderlyRuns(sha, s0, es + [e], Next(sha, s1, e))
    decreases |es|
  {
    if es == [] {
      assert [e][1..] == [];
      assert es + [e] == [e];
    } else {
      RunExtends(sha, Next(sha, s0, es[0]), es[1..], s1, e);
      assert (es + [e])[0] == es[0] && (es + [e])[1..] == es[1..] + [e];
    }
  }

  lemma ReachStep(sha: Hash, s: State, e: Event)
    requires OrderlyReachable(sha, s) && Enabled(sha, s, e) && Orderly(s, e)
    ensures OrderlyReachable(sha, Next(sha, s, e))
  {
    var es :| OrderlyRuns(sha, Init, es, s);
    RunExtends(sha, Init, es, s, e);
  }

  // ---------------------------------------------------------------- what holds in any order

  ghost predicate Runs(sha: Hash, s0: State, es: seq<Event>, s1: State)
    decreases |es|
  {
    if es == [] then s0 == s1
    else Enabled(sha, s0, es[0]) && Runs(sha, Next(sha, s0, es[0]), es[1..], s1)
  }

  /** A lookup found the newest token of the exec, by its very bytes, before its expiry. */
  predicate LookupOk(issued: seq<Issue>, id: int, bytes: Bytes, at: int, l: Lookup) {
    && l.newest < l.issued <= |issued|
    && issued[l.newest].id == id && issued[l.newest].bytes == bytes && at < issued[l.newest].expires
    && (forall j :: l.newest < j < l.issued ==> issued[j].id != id)
  }

  ghost predicate NewestIsLast(s: State) {
    && (forall id :: id in s.newest ==> s.newest[id] < |s.issued| && s.issued[s.newest[id]].id == id)
    && (forall i :: 0 <= i < |s.issued| ==> s.issued[i].id in s.newest && i <= s.newest[s.issued[i].id])
  }

  ghost predicate CodesAreNewest(sha: Hash, s: State) {
    forall id :: id in s.execs && s.execs[id].code.Some? ==>
      && id in s.newest && s.newest[id] < |s.issued|
      && var i := s.issued[s.newest[id]]; s.execs[id].code.value == Code(sha(i.bytes), i.expires)
  }

  ghost predicate CodesKnown(s: State) {
    && (forall id :: id in s.newest ==> id in s.used)
    && (forall id :: id in s.execs ==> id in s.used)
  }

  ghost predicate LookupsOk(s: State) {
    && (forall req :: req in s.resetting ==>
          var r := s.resetting[req]; LookupOk(s.issued, r.id, r.bytes, r.selectedAt, r.lookup))
    && (forall r :: r in s.resets ==> LookupOk(s.issued, r.id, r.bytes, r.selectedAt, r.lookup))
  }

  ghost predicate LooseInv(sha: Hash, s: State) {
    NewestIsLast(s) && CodesAreNewest(sha, s) && CodesKnown(s) && LookupsOk(s)
  }

  lemma AnyStepKeepsNewest(sha: Hash, s: State, e: Event)
    requires NewestIsLast(s) && Enabled(sha, s, e)
    ensures NewestIsLast(Next(sha, s, e))
  {
  }

  lemma AnyStepKeepsKnown(sha: Hash, s: State, e: Event)
    requires CodesKnown(s) && Enabled(sha, s, e)
    ensures CodesKnown(Next(sha, s, e))
  {
  }

  lemma AnyStepKeepsCodes(sha: Hash, s: State, e: Event)
    requires NewestIsLast(s) && CodesAreNewest(sha, s) && CodesKnown(s) && Enabled(sha, s, e)
    ensures CodesAreNewest(sha, Next(sha, s, e))
  {
    var t := Next(sha, s, e);
    assert s.issued <= t.issued;
    forall id | id in t.execs && t.execs[id].code.Some?
      ensures id in t.newest && t.newest[id] < |t.issued|
      ensures var i := t.issued[t.newest[id]]; t.execs[id].code.value == Code(sha(i.bytes), i.expires)
    {
      if e.PrepareUpdate? && id == s.issuing[e.req].id && e.takesEffect {
        assert t.newest[id] == |s.issued|;
      } else {
        assert id in s.execs && t.execs[id].code == s.execs[id].code && t.newest[id] == s.newest[id];
      }
    }
  }

  lemma AnyStepKeepsLookups(sha: Hash, s: State, e: Event)
    requires CollisionFree(sha) && LooseInv(sha, s) && Enabled(sha, s, e)
    ensures LookupsOk(Next(sha, s, e))
  {
    var t := Next(sha, s, e);
    assert s.issued <= t.issued;
    forall req | req in t.resetting
      ensures var r := t.resetting[req]; LookupOk(t.issued, r.id, r.bytes, r.selectedAt, r.lookup)
    {
      if e.ResetSelect? && req == e.req {
        NewLookup(sha, s, e);
      } else {
        LookupKept(s.issued, t.issued, s.resetting[req].id, s.resetting[req].bytes, s.resetting[req].selectedAt,
                   s.resetting[req].lookup);
      }
    }
    forall r | r in t.resets ensures LookupOk(t.issued, r.id, r.bytes, r.selectedAt, r.lookup) {
      LookupsStay(sha, s, e, r);
    }
  }

  lemma LookupKept(a: seq<Issue>, b: seq<Issue>, id: int, bytes: Bytes, at: int, l: Lookup)
    requires a <= b && LookupOk(a, id, bytes, at, l)
    ensures LookupOk(b, id, bytes, at, l)
  {
  }

  lemma LookupsStay(sha: Hash, s: State, e: Event, r: Reset)
    requires LookupsOk(s) && Enabled(sha, s, e) && r in Next(sha, s, e).resets
    ensures LookupOk(Next(sha, s, e).issued, r.id, r.bytes, r.selectedAt, r.lookup)
  {
    var t := Next(sha, s, e);
    assert s.issued <= t.issued;
    if r in s.resets {
      LookupKept(s.issued, t.issued, r.id, r.bytes, r.selectedAt, r.lookup);
    } else {
      var p := s.resetting[e.req];
      assert r.id == p.id && r.bytes == p.bytes && r.selectedAt == p.selectedAt && r.lookup == p.lookup;
      LookupKept(s.issued, t.issued, p.id, p.bytes, p.selectedAt, p.lookup);
    }
  }

  lemma NewLookup(sha: Hash, s: State, e: Event)
    requires CollisionFree(sha) && NewestIsLast(s) && CodesAreNewest(sha, s) && Enabled(sha, s, e) && e.ResetSelect?
    ensures var r := Next(sha, s, e).resetting[e.req]; LookupOk(s.issued, r.id, r.bytes, r.selectedAt, r.lookup)
  {
    var i := s.issued[s.newest[e.id]];
    assert sha(i.bytes) == sha(HexDecode(e.token).value);
    forall j | s.newest[e.id] < j < |s.issued| ensures s.issued[j].id != e.id {
      assert s.issued[j].id in s.newest && j <= s.newest[s.issued[j].id];
    }
  }

  lemma {:induction false} AnyRunKeepsInv(sha: Hash, s0: State, es: seq<Event>, s1: State)
    requires CollisionFree(sha) && LooseInv(sha, s0) && Runs(sha, s0, es, s1)
    ensures LooseInv(sha, s1)
    decreases |es|
  {
    if es != [] {
      AnyStepKeepsNewest(sha, s0, es[0]);
      AnyStepKeepsKnown(sha, s0, es[0]);
      AnyStepKeepsCodes(sha, s0, es[0]);
      AnyStepKeepsLookups(sha, s0, es[0]);
      AnyRunKeepsInv(sha, Next(sha, s0, es[0]), es[1..], s1);
    }
  }

  /** In every run, in whatever order SELECTs and UPDATEs come and even if random bytes repeat: a reset
      that took effect had looked up a token that was then the newest one issued to that very exec, and
      not expired. */
  lemma LookupSafety(sha: Hash, es: seq<Event>, s: State, k: nat)
    requires CollisionFree(sha) && Runs(sha, Init, es, s) && k < |s.resets|
    ensures var r := s.resets[k];
            && r.lookup.newest < r.lookup.issued <= |s.issued|
            && s.issued[r.lookup.newest].id == r.id && s.issued[r.lookup.newest].bytes == r.bytes
            && r.selectedAt < s.issued[r.lookup.newest].expires
            && (forall j :: r.lookup.newest < j < r.lookup.issued ==> s.issued[j].id != r.id)
  {
    AnyRunKeepsInv(sha, Init, es, s);
    assert s.resets[k] in s.resets;
  }

  // ---------------------------------------------------------------- what holds when bytes do not repeat

  ghost predicate FreshRuns(sha: Hash, s0: State, es: seq<Event>, s1: State)
    decreases |es|
  {
    if es == [] then s0 == s1
    else Enabled(sha, s0, es[0]) && Fresh(s0, es[0]) && FreshRuns(sha, Next(sha, s0, es[0]), es[1..], s1)
  }

  /** Reached in any order of SELECTs and UPDATEs, with random bytes that do not repeat. */
  ghost predicate FreshReachable(sha: Hash, s: State) {
    CollisionFree(sha) && exists es :: FreshRuns(sha, Init, es, s)
  }

  lemma {:induction false} FreshRunExtends(sha: Hash, s0: State, es: seq<Event>, s1: State, e: Event)
    requires FreshRuns(sha, s0, es, s1) && Enabled(sha, s1, e) && Fresh(s1, e)
    ensures FreshRuns(sha, s0, es + [e], Next(sha, s1, e))
    decreases |es|
  {
    if es == [] {
      assert [e][1..] == [];
      assert es + [e] == [e];
    } else {
      FreshRunExtends(sha, Next(sha, s0, es[0]), es[1..], s1, e);
      assert (es + [e])[0] == es[0] && (es + [e])[1..] == es[1..] + [e];
    }
  }

  lemma FreshReachStep(sha: Hash, s: State, e: Event)
    requires FreshReachable(sha, s) && Enabled(sha, s, e) && Fresh(s, e)
    ensures FreshReachable(sha, Next(sha, s, e))
  {
    var es :| FreshRuns(sha, Init, es, s);
    FreshRunExtends(sha, Init, es, s, e);
  }

  lemma {:induction false} OrderlyRunIsFresh(sha: Hash, s0: State, es: seq<Event>, s1: State)
    requires OrderlyRuns(sha, s0, es, s1)
    ensures FreshRuns(sha, s0, es, s1)
    decreases |es|
  {
    if es != [] {
      OrderlyRunIsFresh(sha, Next(sha, s0, es[0]), es[1..], s1);
    }
  }

  lemma OrderlyIsFresh(sha: Hash, s: State)
    requires OrderlyReachable(sha, s)
    ensures FreshReachable(sha, s)
  {
    var es :| OrderlyRuns(sha, Init, es, s);
    OrderlyRunIsFresh(sha, Init, es, s);
  }

  predicate DistinctBytes(issued: seq<Issue>) {
    forall i, j :: 0 <= i < j < |issued| ==> issued[i].bytes != issued[j].bytes
  }

  /** The token behind a stored code has not reset anybody. */
  predicate CodesUnspent(s: State) {
    forall id :: id in s.execs && s.execs[id].code.Some? && id in s.newest && s.newest[id] < |s.issued| ==>
      !Used(s, s.issued[s.newest[id]].bytes)
  }

  /** A reset by the same bytes as a lookup took effect after that lookup. */
  ghost predicate LookedUpBefore(s: State) {
    && (forall req :: req in s.resetting ==> s.resetting[req].lookup.resets <= |s.resets|)
    && (forall req, a :: req in s.resetting && 0 <= a < |s.resets| && s.resets[a].bytes == s.resetting[req].bytes ==>
          s.resetting[req].lookup.resets <= a)
    && (forall a, b :: 0 <= a < b < |s.resets| && s.resets[a].bytes == s.resets[b].bytes ==>
          s.resets[b].lookup.resets <= a)
  }

  ghost predicate FreshInv(sha: Hash, s: State) {
    LooseInv(sha, s) && DistinctBytes(s.issued) && CodesUnspent(s) && LookedUpBefore(s)
  }

  lemma FreshStepKeepsUnspent(sha: Hash, s: State, e: Event)
    requires FreshInv(sha, s) && Enabled(sha, s, e) && Fresh(s, e)
    ensures CodesUnspent(Next(sha, s, e))
  {
    var t := Next(sha, s, e);
    forall id | id in t.execs && t.execs[id].code.Some? && id in t.newest && t.newest[id] < |t.issued|
      ensures !Used(t, t.issued[t.newest[id]].bytes)
    {
      UnspentCode(sha, s, e, id);
    }
  }

  lemma UnspentCode(sha: Hash, s: State, e: Event, id: int)
    requires FreshInv(sha, s) && Enabled(sha, s, e) && Fresh(s, e)
    requires var t := Next(sha, s, e); id in t.execs && t.execs[id].code.Some? && id in t.newest && t.newest[id] < |t.issued|
    ensures var t := Next(sha, s, e); !Used(t, t.issued[t.newest[id]].bytes)
  {
    var t := Next(sha, s, e);
    forall r | r in t.resets ensures r.bytes != t.issued[t.newest[id]].bytes {
      OtherBytes(sha, s, e, id, r);
    }
  }

  lemma OtherBytes(sha: Hash, s: State, e: Event, id: int, r: Reset)
    requires FreshInv(sha, s) && Enabled(sha, s, e) && Fresh(s, e) && r in Next(sha, s, e).resets
    requires var t := Next(sha, s, e); id in t.execs && t.execs[id].code.Some? && id in t.newest && t.newest[id] < |t.issued|
    ensures var t := Next(sha, s, e); r.bytes != t.issued[t.newest[id]].bytes
  {
    if e.PrepareUpdate? && e.takesEffect && s.issuing[e.req].id == id {
      assert r in s.resets;
      assert LookupOk(s.issued, r.id, r.bytes, r.selectedAt, r.lookup);
    } else {
      KeptCode(sha, s, e, id);
      if r in s.resets {
        assert Used(s, r.bytes);
      } else {
        NewResetIsOther(sha, s, e, id, r);
      }
    }
  }

  /** The exec that was just reset has no code; the token of another one has other bytes. */
  lemma NewResetIsOther(sha: Hash, s: State, e: Event, id: int, r: Reset)
    requires LookupsOk(s) && DistinctBytes(s.issued) && Enabled(sha, s, e)
    requires r in Next(sha, s, e).resets && r !in s.resets
    requires id in Next(sha, s, e).execs && Next(sha, s, e).execs[id].code.Some?
    requires id in s.newest && s.newest[id] < |s.issued| && s.issued[s.newest[id]].id == id
    ensures r.bytes != s.issued[s.newest[id]].bytes
  {
    assert e.ResetUpdate?;
    var p := s.resetting[e.req];
    assert r.id == p.id && r.bytes == p.bytes && p.id != id;
    assert LookupOk(s.issued, p.id, p.bytes, p.selectedAt, p.lookup);
  }

  /** A stored code that is not new was stored before, for the same token. */
  lemma KeptCode(sha: Hash, s: State, e: Event, id: int)
    requires FreshInv(sha, s) && Enabled(sha, s, e)
    requires id in Next(sha, s, e).execs && Next(sha, s, e).execs[id].code.Some?
    requires !(e.PrepareUpdate? && e.takesEffect && s.issuing[e.req].id == id)
    ensures id in s.newest && s.newest[id] < |s.issued| && s.issued[s.newest[id]].id == id
    ensures var t := Next(sha, s, e);
            id in t.newest && t.newest[id] == s.newest[id] && s.newest[id] < |t.issued|
            && t.issued[t.newest[id]] == s.issued[s.newest[id]]
    ensures !Used(s, s.issued[s.newest[id]].bytes)
  {
    assert id in s.execs && s.execs[id].code.Some?;
  }

  lemma FreshStepKeepsOrder(sha: Hash, s: State, e: Event)
    requires CollisionFree(sha) && FreshInv(sha, s) && Enabled(sha, s, e)
    ensures LookedUpBefore(Next(sha, s, e))
  {
    var t := Next(sha, s, e);
    if e.ResetSelect? {
      SelectIsUnused(sha, s, e);
    } else if e.ResetUpdate? {
      UpdateKeepsOrder(sha, s, e);
    } else {
      assert t.resets == s.resets && t.resetting == s.resetting;
    }
  }

  lemma SelectIsUnused(sha: Hash, s: State, e: Event)
    requires CollisionFree(sha) && CodesAreNewest(sha, s) && CodesUnspent(s) && Enabled(sha, s, e) && e.ResetSelect?
    ensures forall a :: 0 <= a < |s.resets| ==> s.resets[a].bytes != HexDecode(e.token).value
  {
    var i := s.issued[s.newest[e.id]];
    assert sha(i.bytes) == sha(HexDecode(e.token).value);
    assert !Used(s, i.bytes);
    forall a | 0 <= a < |s.resets| ensures s.resets[a].bytes != i.bytes {
      assert s.resets[a] in s.resets;
    }
  }

  lemma UpdateKeepsOrder(sha: Hash, s: State, e: Event)
    requires LookedUpBefore(s) && Enabled(sha, s, e) && e.ResetUpdate?
    ensures LookedUpBefore(Next(sha, s, e))
  {
  }

  lemma {:induction false} FreshRunKeepsInv(sha: Hash, s0: State, es: seq<Event>, s1: State)
    requires CollisionFree(sha) && FreshInv(sha, s0) && FreshRuns(sha, s0, es, s1)
    ensures FreshInv(sha, s1)
    decreases |es|
  {
    if es != [] {
      FreshStepKeepsInv(sha, s0, es[0]);
      FreshRunKeepsInv(sha, Next(sha, s0, es[0]), es[1..], s1);
    }
  }

  lemma FreshStepKeepsInv(sha: Hash, s: State, e: Event)
    requires CollisionFree(sha) && FreshInv(sha, s) && Enabled(sha, s, e) && Fresh(s, e)
    ensures FreshInv(sha, Next(sha, s, e))
  {
    AnyStepKeepsNewest(sha, s, e);
    AnyStepKeepsKnown(sha, s, e);
    AnyStepKeepsCodes(sha, s, e);
    AnyStepKeepsLookups(sha, s, e);
    FreshStepKeepsUnspent(sha, s, e);
    FreshStepKeepsOrder(sha, s, e);
  }

  lemma FreshReachableInv(sha: Hash, s: State)
    requires FreshReachable(sha, s)
    ensures FreshInv(sha, s)
  {
    var es :| FreshRuns(sha, Init, es, s);
    FreshRunKeepsInv(sha, Init, es, s);
  }

  /** In whatever order SELECTs and UPDATEs come: once a reset with a token has taken effect, no text of
      that token finds anybody any more. */
  lemma SpentMatchesNobody(sha: Hash, s: State, token: string, id: int)
    requires FreshReachable(sha, s) && HexDecode(token).Some? && Used(s, HexDecode(token).value)
    ensures !Matches(sha, s, token, id)
  {
    FreshReachableInv(sha, s);
    if id in s.execs && s.execs[id].code.Some? {
      var i := s.issued[s.newest[id]];
      assert i.bytes != HexDecode(token).value;
      assert sha(i.bytes) != sha(HexDecode(token).value);
    }
  }

  /** No token was issued to an exec while the number of issued tokens went from one to the other. */
  predicate NoneIssuedBetween(issued: seq<Issue>, id: int, m: nat, n: nat) {
    forall j :: (if m < n then m else n) <= j < (if m < n then n else m) && j < |issued| ==> issued[j].id != id
  }

  /** Exactly when two resets use one token: they are of the same exec, and no token was issued to it
      between their SELECTs. And then they overlap: the SELECT of the second came before the UPDATE of
      the first. */
  lemma SecondUseIff(sha: Hash, s: State, a: nat, b: nat)
    requires FreshReachable(sha, s) && a < b < |s.resets|
    ensures var x, y := s.resets[a], s.resets[b];
            && (x.bytes == y.bytes <==>
                  x.id == y.id && NoneIssuedBetween(s.issued, x.id, x.lookup.issued, y.lookup.issued))
            && (x.bytes == y.bytes ==> y.lookup.resets <= a)
  {
    FreshReachableInv(sha, s);
    assert s.resets[a] in s.resets && s.resets[b] in s.resets;
    var x, y := s.resets[a], s.resets[b];
    assert LookupOk(s.issued, x.id, x.bytes, x.selectedAt, x.lookup);
    assert LookupOk(s.issued, y.id, y.bytes, y.selectedAt, y.lookup);
    SameNewestIff(s.issued, x.id, x.lookup, y.id, y.lookup);
  }

  lemma SameNewestIff(issued: seq<Issue>, id: int, l: Lookup, other: int, m: Lookup)
    requires l.newest < l.issued <= |issued| && issued[l.newest].id == id
    requires m.newest < m.issued <= |issued| && issued[m.newest].id == other
    requires forall j :: l.newest < j < l.issued ==> issued[j].id != id
    requires forall j :: m.newest < j < m.issued ==> issued[j].id != other
    ensures l.newest == m.newest <==> id == other && NoneIssuedBetween(issued, id, l.issued, m.issued)
  {
  }

  // ---------------------------------------------------------------- the answer

  /** The UPDATE of a reset is answered with nil whenever the statement works. */
  predicate AnswersNil(e: Event) {
    e.ResetUpdate? && e.takesEffect
  }

  /** A reset that is answered with nil has set the password exactly when the exec still existed. */
  lemma NilMeansResetIff(sha: Hash, s: State, e: Event)
    requires Enabled(sha, s, e) && AnswersNil(e)
    ensures var r := s.resetting[e.req]; var t := Next(sha, s, e);
            && ((r.id in t.execs && t.execs[r.id].password == r.password && t.execs[r.id].code.None?) <==> r.id in s.execs)
            && (r.id !in s.execs ==> t.execs == s.execs)
            && |t.resets| == |s.resets| + (if r.id in s.execs then 1 else 0)
  {
  }

  /** And it may be gone: in an orderly run an exec is deleted between the SELECT and the UPDATE. */
  lemma NilForDeletedExec(sha: Hash, bytes: Bytes)
    requires CollisionFree(sha) && |bytes| == 32
    ensures exists s, e :: OrderlyReachable(sha, s) && Enabled(sha, s, e) && Orderly(s, e) && AnswersNil(e)
                           && s.resetting[e.req].id !in s.execs
  {
    assert OrderlyRuns(sha, Init, [], Init);
    var s0 := TokenIssued(sha, bytes);
    var select := ResetSelect(0, HexEncode(bytes), 1, "new");
    HexRoundTrip(bytes);
    ReachStep(sha, s0, select);
    var s1 := Next(sha, s0, select);
    ReachStep(sha, s1, DeleteExec(1));
    var s2 := Next(sha, s1, DeleteExec(1));
    assert Enabled(sha, s2, ResetUpdate(0, true)) && AnswersNil(ResetUpdate(0, true));
  }

  lemma TokenIssued(sha: Hash, bytes: Bytes) returns (s: State)
    requires OrderlyReachable(sha, Init) && |bytes| == 32
    ensures OrderlyReachable(sha, s) && s.resetting == map[] && s.now == 0 && s.resets == []
    ensures 1 in s.execs && s.execs[1].code == Some(Code(sha(bytes), 60))
  {
    ReachStep(sha, Init, AddExec(1, "a", "old"));
    var s1 := Next(sha, Init, AddExec(1, "a", "old"));
    ReachStep(sha, s1, PrepareSelect(0, 1, 1));
    var s2 := Next(sha, s1, PrepareSelect(0, 1, 1));
    ReachStep(sha, s2, PrepareUpdate(0, bytes, true));
    s := Next(sha, s2, PrepareUpdate(0, bytes, true));
  }

  // ---------------------------------------------------------------- what a token can do

  /** In every orderly run, a reset that took effect used a token issued to that very exec, looked it up
      before its expiry, was preceded by no newer token of that exec, and no token reset twice. */
  lemma ResetSafety(sha: Hash, s: State, k: nat)
    requires OrderlyReachable(sha, s) && k < |s.resets|
    ensures var r := s.resets[k];
            && r.issue < |s.issued| && s.issued[r.issue].id == r.id && s.issued[r.issue].bytes == r.bytes
            && r.selectedAt < s.issued[r.issue].expires
            && (forall j :: r.issue < j < r.issuedBefore <= |s.issued| ==> s.issued[j].id != r.id)
            && (forall m :: 0 <= m < |s.resets| && m != k ==> s.resets[m].bytes != r.bytes)
  {
    OrderlyReachableInv(sha, s);
    assert s.resets[k] in s.resets;
    forall m | 0 <= m < |s.resets| && m != k ensures s.resets[m].bytes != s.resets[k].bytes {
      if m < k { assert s.resets[m].bytes != s.resets[k].bytes; } else { assert s.resets[k].bytes != s.resets[m].bytes; }
    }
  }

  /** Token k is the newest one issued to an exec. */
  predicate IsNewest(issued: seq<Issue>, id: int, k: nat) {
    k < |issued| && issued[k].id == id && forall j :: k < j < |issued| ==> issued[j].id != id
  }

  lemma NewestIsKept(sha: Hash, s: State, id: int, k: nat)
    requires Inv(sha, s) && IsNewest(s.issued, id, k)
    ensures id in s.newest && s.newest[id] == k
  {
    assert CodeOk(sha, s, id);
    assert s.issued[k].id in s.newest && k <= s.newest[s.issued[k].id];
  }

  /** Which text resets whom: exactly the hex text of the newest token of an exec that still exists, as
      long as it has neither expired nor been used. */
  lemma MatchesExactly(sha: Hash, s: State, token: string, id: int, k: nat)
    requires OrderlyReachable(sha, s) && IsNewest(s.issued, id, k)
    ensures Matches(sha, s, token, id)
            <==> && id in s.execs && HexDecode(token) == Some(s.issued[k].bytes)
                 && s.now < s.issued[k].expires && !Used(s, s.issued[k].bytes)
  {
    OrderlyReachableInv(sha, s);
    NewestIsKept(sha, s, id, k);
    assert CodeOk(sha, s, id);
    if HexDecode(token).Some? && sha(HexDecode(token).value) == sha(s.issued[k].bytes) {
      assert HexDecode(token).value == s.issued[k].bytes;
    }
  }

  /** Nobody else is reset by a token: whatever text matches an exec is the newest token issued to that
      exec, so no text matches two execs. */
  lemma MatchesOnlyItsExec(sha: Hash, s: State, token: string, id: int, other: int)
    requires OrderlyReachable(sha, s) && Matches(sha, s, token, id)
    ensures exists k: nat :: IsNewest(s.issued, id, k) && HexDecode(token) == Some(s.issued[k].bytes)
    ensures forall k :: 0 <= k < |s.issued| && HexDecode(token) == Some(s.issued[k].bytes) ==> s.issued[k].id == id
    ensures Matches(sha, s, token, other) ==> other == id
  {
    OrderlyReachableInv(sha, s);
    assert CodeOk(sha, s, id);
    assert CodeOk(sha, s, other);
    var k := s.newest[id];
    forall j | k < j < |s.issued| ensures s.issued[j].id != id {
      assert s.issued[j].id in s.newest && j <= s.newest[s.issued[j].id];
    }
    assert sha(s.issued[k].bytes) == sha(HexDecode(token).value);
    assert IsNewest(s.issued, id, k);
    if Matches(sha, s, token, other) {
      assert sha(s.issued[k].bytes) == sha(s.issued[s.newest[other]].bytes);
      assert k == s.newest[other];
    }
  }

  /** The newest unused unexpired token always works: with a password that can be hashed, both halves of
      the reset can run, and they leave the exec with that password and no code, every other exec as it
      was, and the token spent. */
  lemma NewestTokenWorks(sha: Hash, s: State, req: nat, id: int, k: nat, password: string)
    requires OrderlyReachable(sha, s) && IsNewest(s.issued, id, k) && id in s.execs
    requires s.now < s.issued[k].expires && !Used(s, s.issued[k].bytes)
    requires req !in s.resetting && password != "" && NotResetting(s, id)
    ensures var select := ResetSelect(req, HexEncode(s.issued[k].bytes), id, password);
            && Enabled(sha, s, select) && Orderly(s, select)
            && var t := Next(sha, s, select); var update := ResetUpdate(req, true);
            && Enabled(sha, t, update) && Orderly(t, update)
            && Next(sha, t, update).execs == s.execs[id := s.execs[id].(password := password, code := None)]
            && Used(Next(sha, t, update), s.issued[k].bytes)
  {
    var bytes := s.issued[k].bytes;
    HexRoundTrip(bytes);
    MatchesExactly(sha, s, HexEncode(bytes), id, k);
    var select := ResetSelect(req, HexEncode(bytes), id, password);
    var t := Next(sha, Next(sha, s, select), ResetUpdate(req, true));
    assert t.resets[|s.resets|] in t.resets;
  }

  /** Without that order the guarantee is lost: two requests that both look a token up before either
      writes reset the password twice with it. */
  lemma InterleavedUseIsTwice(sha: Hash, s: State, id: int, token: string)
    requires s.resetting == map[] && Matches(sha, s, token, id)
    ensures exists a, b, c, d ::
              && Enabled(sha, s, a)
              && var s1 := Next(sha, s, a);
              && Enabled(sha, s1, b)
              && var s2 := Next(sha, s1, b);
              && Enabled(sha, s2, c)
              && var s3 := Next(sha, s2, c);
              && Enabled(sha, s3, d)
              && var s4 := Next(sha, s3, d);
              && |s4.resets| == |s.resets| + 2
              && s4.resets[|s.resets|].bytes == s4.resets[|s.resets| + 1].bytes
  {
    var a, b := ResetSelect(0, token, id, "first"), ResetSelect(1, token, id, "second");
    var c, d := ResetUpdate(0, true), ResetUpdate(1, true);
    var s1 := Next(sha, s, a);
    var s2 := Next(sha, s1, b);
    var s3 := Next(sha, s2, c);
    assert Enabled(sha, s3, d);
    var s4 := Next(sha, s3, d);
    assert s4.resets[|s.resets|].bytes == s4.resets[|s.resets| + 1].bytes;
  }

  /** Such a state is reachable, and so is the one that two interleaved requests leave. */
  lemma TokenUsedTwice(sha: Hash, bytes: Bytes)
    requires CollisionFree(sha) && |bytes| == 32
    ensures exists s :: FreshReachable(sha, s) && |s.resets| == 2 && s.resets[0].bytes == s.resets[1].bytes == bytes
                        && s.resets[1].lookup.resets == 0
  {
    assert OrderlyRuns(sha, Init, [], Init);
    var s0 := TokenIssued(sha, bytes);
    OrderlyIsFresh(sha, s0);
    HexRoundTrip(bytes);
    var s1 := TwoLookups(sha, s0, bytes);
    FreshReachStep(sha, s1, ResetUpdate(0, true));
    var s2 := Next(sha, s1, ResetUpdate(0, true));
    FreshReachStep(sha, s2, ResetUpdate(1, true));
    var s := Next(sha, s2, ResetUpdate(1, true));
    assert |s.resets| == 2;
  }

  lemma TwoLookups(sha: Hash, s0: State, bytes: Bytes) returns (s: State)
    requires FreshReachable(sha, s0) && s0.resetting == map[] && s0.now == 0 && s0.resets == []
    requires 1 in s0.execs && s0.execs[1].code == Some(Code(sha(bytes), 60))
    requires HexDecode(HexEncode(bytes)) == Some(bytes)
    ensures FreshReachable(sha, s) && s.resets == [] && 1 in s.execs && 0 in s.resetting && 1 in s.resetting
    ensures forall r :: r == 0 || r == 1 ==>
              s.resetting[r].id == 1 && s.resetting[r].bytes == bytes && s.resetting[r].lookup.resets == 0
  {
    var a, b := ResetSelect(0, HexEncode(bytes), 1, "first"), ResetSelect(1, HexEncode(bytes), 1, "second");
    FreshReachStep(sha, s0, a);
    var s1 := Next(sha, s0, a);
    FreshReachStep(sha, s1, b);
    s := Next(sha, s1, b);
  }
}
