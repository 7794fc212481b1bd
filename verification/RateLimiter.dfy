/** The fixed-window rate limiter that every application instance shares through Redis.
    A request reads the clock, sends INCR, sends EXPIRE when the count came back as 1,
    and then decides. The steps of different requests interleave freely. */
module RateLimiter {
  import opened Strings

  /** Clock readings are in milliseconds; policies and TTLs are in whole seconds. */
  const MS := 1000

  datatype Policy = Policy(limit: nat, window: nat) {
    predicate Valid() {
      limit >= 1 && window >= 1
    }
  }

  /** One policy per limiter name. */
  type Config = map<string, Policy>

  ghost predicate ValidConfig(cfg: Config) {
    forall n :: n in cfg ==> cfg[n].Valid() && ':' !in n
  }

  // ---------------------------------------------------------------- Redis

  /** A counter and the instant at which it stops existing, if a TTL was set. */
  datatype Entry = Entry(count: nat, expireAt: Option<nat>) {
    predicate Live(now: nat) {
      expireAt.None? || now < expireAt.value
    }
  }

  type Store = map<string, Entry>

  predicate Present(store: Store, now: nat, key: string) {
    key in store && store[key].Live(now)
  }

  /** INCR: atomic, keeps the TTL of a live key, starts a missing or expired one at 1 without TTL. */
  function Incr(store: Store, now: nat, key: string): Store {
    if Present(store, now, key)
    then store[key := Entry(store[key].count + 1, store[key].expireAt)]
    else store[key := Entry(1, None)]
  }

  /** EXPIRE: sets the TTL of a live key. */
  function Expire(store: Store, now: nat, key: string, seconds: nat): Store {
    if Present(store, now, key)
    then store[key := store[key].(expireAt := Some(now + seconds * MS))]
    else store
  }

  // ---------------------------------------------------------------- keys and clock arithmetic

  function Unix(now: nat): nat {
    now / MS
  }

  function BucketAt(p: Policy, now: nat): nat
    requires p.Valid()
  {
    Unix(now) / p.window
  }

  function Key(name: string, ip: string, bucket: nat): string {
    "rl:" + name + ":" + ip + ":" + Itoa(bucket)
  }

  /** The key text names one limiter, one IP and one bucket, whatever colons the IP holds. */
  lemma KeyInjective(n1: string, ip1: string, b1: nat, n2: string, ip2: string, b2: nat)
    requires ':' !in n1 && ':' !in n2
    requires Key(n1, ip1, b1) == Key(n2, ip2, b2)
    ensures n1 == n2 && ip1 == ip2 && b1 == b2
  {
    var x, y := ip1 + ":" + Itoa(b1), ip2 + ":" + Itoa(b2);
    assert Key(n1, ip1, b1) == "rl:" + (n1 + [':'] + x);
    assert Key(n2, ip2, b2) == "rl:" + (n2 + [':'] + y);
    assert n1 + [':'] + x == Key(n1, ip1, b1)[3..] == n2 + [':'] + y;
    SplitFirst(':', n1, x, n2, y);
    SplitLast(':', ip1, Itoa(b1), ip2, Itoa(b2));
    ItoaInjective(b1, b2);
  }

  function ResetHeader(p: Policy, bucket: nat): nat {
    (bucket + 1) * p.window
  }

  function RetryAfter(p: Policy, now: nat): nat
    requires p.Valid()
  {
    p.window - Unix(now) % p.window
  }

  /** Retry-After lies between 1 and the window and waiting that long reaches the first second of
      the next bucket; it agrees with X-RateLimit-Reset exactly when the decision is taken
      in the bucket that the request was counted in. */
  lemma RetryAfterReachesNextBucket(p: Policy, bucket: nat, now: nat)
    requires p.Valid()
    ensures 1 <= RetryAfter(p, now) <= p.window
    ensures (Unix(now) + RetryAfter(p, now)) % p.window == 0
    ensures BucketAt(p, (Unix(now) + RetryAfter(p, now)) * MS) == BucketAt(p, now) + 1
    ensures BucketAt(p, (Unix(now) + RetryAfter(p, now) - 1) * MS) == BucketAt(p, now)
    ensures ResetHeader(p, bucket) == Unix(now) + RetryAfter(p, now) <==> bucket == BucketAt(p, now)
  {
    var u, w := Unix(now), p.window;
    var q := u / w;
    DivisionBounds(u, w);
    assert u + RetryAfter(p, now) == (q + 1) * w;
    QuotientOf(q + 1, w, 0);
    QuotientOf(q, w, w - 1);
    SameMultiple(bucket + 1, q + 1, w);
  }

  lemma DivisionBounds(u: nat, w: nat)
    requires w >= 1
    ensures u == u / w * w + u % w && u % w < w
    ensures u / w * w <= u < (u / w + 1) * w
  {
  }

  lemma QuotientOf(q: nat, w: nat, r: nat)
    requires r < w
    ensures (q * w + r) / w == q && (q * w + r) % w == r
  {
    var u := q * w + r;
    DivisionBounds(u, w);
    var d := u / w - q;
    assert d * w == r - u % w;
    if d >= 1 {
      MulMonotone(1, d, w);
      assert false;
    }
    if d <= -1 {
      MulMonotone(d, -1, w);
      assert false;
    }
  }

  lemma MulMonotone(a: int, b: int, w: nat)
    requires a <= b
    ensures a * w <= b * w
  {
  }

  lemma SameMultiple(a: nat, b: nat, w: nat)
    requires w >= 1
    ensures a * w == b * w <==> a == b
  {
    if a < b {
      MulMonotone(a + 1, b, w);
    } else if b < a {
      MulMonotone(b + 1, a, w);
    }
  }

  // ---------------------------------------------------------------- the step machine

  datatype Phase =
    | Arrived                                  // clock read, INCR not answered yet
    | Counted(count: nat)                      // INCR answered with 1, EXPIRE still to be sent
    | Deciding(count: nat)                     // headers next
    | FailedOpen                               // INCR reported an error: the request was passed on
    | Admitted(count: nat)
    | Refused(count: nat, retryAfter: nat)     // 429 with Retry-After
  {
    predicate HasCount() {
      Counted? || Deciding? || Admitted? || Refused?
    }

    predicate Passed() {
      Admitted? || FailedOpen?
    }
  }

  datatype Request = Request(name: string, ip: string, bucket: nat, key: string, arrivedAt: nat, phase: Phase)

  /** One life of a key, from an INCR that found it missing or expired until its expiry. */
  datatype Life = Life(key: string, nth: nat)

  /** Where and when the INCR of a request took effect: the life of its key and the place in it. */
  datatype Landing = Landing(at: nat, life: Life, place: nat)

  /** lives, tally and landed are bookkeeping about the past. */
  datatype State = State(
    now: nat,
    store: Store,
    requests: map<nat, Request>,
    unheard: set<nat>,                         // EXPIREs reported as failed that may still take effect
    lives: map<string, nat>,
    tally: map<Life, seq<nat>>,
    landed: map<nat, Landing>)

  datatype Event =
    | Tick(ms: nat)
    | Arrive(id: nat, name: string, ip: string)
    | IncrAnswered(id: nat)
    | IncrFailed(id: nat)                      // error or timeout reported to the request
    | StrayIncr(id: nat)                       // an INCR reported as failed takes effect after all
    | ExpireSent(id: nat, ok: bool)
    | StrayExpire(id: nat)                     // an EXPIRE reported as failed takes effect after all
    | Decide(id: nat)

  predicate Enabled(cfg: Config, s: State, e: Event) {
    match e
    case Tick(_) => true
    case Arrive(id, name, _) => id !in s.requests && name in cfg && cfg[name].Valid()
    case IncrAnswered(id) => id in s.requests && s.requests[id].phase.Arrived?
    case IncrFailed(id) => id in s.requests && s.requests[id].phase.Arrived?
    case StrayIncr(id) => id in s.requests && s.requests[id].phase.FailedOpen? && id !in s.landed
    case ExpireSent(id, _) =>
      id in s.requests && s.requests[id].phase.Counted? && s.requests[id].name in cfg
    case StrayExpire(id) => id in s.unheard && id in s.requests && s.requests[id].name in cfg
    case Decide(id) =>
      id in s.requests && s.requests[id].phase.Deciding? && s.requests[id].name in cfg &&
      cfg[s.requests[id].name].Valid()
  }

  function WithPhase(s: State, id: nat, p: Phase): State
    requires id in s.requests
  {
    s.(requests := s.requests[id := s.requests[id].(phase := p)])
  }

  /** The life that an INCR of this key joins or starts now. */
  function LifeAt(s: State, key: string): Life {
    var n := if key in s.lives then s.lives[key] else 0;
    if Present(s.store, s.now, key) && n > 0 then Life(key, n - 1) else Life(key, n)
  }

  /** The effect of the INCR of request id, wherever its answer goes. */
  function Land(s: State, id: nat): State
    requires id in s.requests
  {
    var key := s.requests[id].key;
    var life := LifeAt(s, key);
    var ids := if life in s.tally then s.tally[life] else [];
    s.(store := Incr(s.store, s.now, key),
       lives := s.lives[key := life.nth + 1],
       tally := s.tally[life := ids + [id]],
       landed := s.landed[id := Landing(s.now, life, |ids|)])
  }

  function AfterIncr(count: nat): Phase {
    if count == 1 then Counted(count) else Deciding(count)
  }

  function Decision(p: Policy, count: nat, now: nat): Phase
    requires p.Valid()
  {
    if count > p.limit then Refused(count, RetryAfter(p, now)) else Admitted(count)
  }

  function Next(cfg: Config, s: State, e: Event): State
    requires Enabled(cfg, s, e)
  {
    match e
    case Tick(ms) => s.(now := s.now + ms)
    case Arrive(id, name, ip) =>
      var bucket := BucketAt(cfg[name], s.now);
      s.(requests := s.requests[id := Request(name, ip, bucket, Key(name, ip, bucket), s.now, Arrived)])
    case IncrAnswered(id) =>
      var t := Land(s, id);
      WithPhase(t, id, AfterIncr(t.store[s.requests[id].key].count))
    case IncrFailed(id) => WithPhase(s, id, FailedOpen)
    case StrayIncr(id) => Land(s, id)
    case ExpireSent(id, ok) =>
      var r := s.requests[id];
      var t := WithPhase(s, id, Deciding(r.phase.count));
      if ok then t.(store := Expire(s.store, s.now, r.key, cfg[r.name].window))
      else t.(unheard := s.unheard + {id})
    case StrayExpire(id) =>
      var r := s.requests[id];
      s.(store := Expire(s.store, s.now, r.key, cfg[r.name].window), unheard := s.unheard - {id})
    case Decide(id) =>
      var r := s.requests[id];
      WithPhase(s, id, Decision(cfg[r.name], r.phase.count, s.now))
  }

  const Init := State(0, map[], map[], {}, map[], map[], map[])

  /** s1 is reached from s0 by the given steps. */
  ghost predicate Runs(cfg: Config, s0: State, es: seq<Event>, s1: State)
    decreases |es|
  {
    if es == [] then s0 == s1
    else Enabled(cfg, s0, es[0]) && Runs(cfg, Next(cfg, s0, es[0]), es[1..], s1)
  }

  // ---------------------------------------------------------------- invariant

  /** The first millisecond after the bucket of a request. */
  function EndOf(cfg: Config, r: Request): nat {
    if r.name in cfg then (r.bucket + 1) * cfg[r.name].window * MS else 0
  }

  ghost predicate RequestsOk(cfg: Config, s: State) {
    forall id :: id in s.requests ==>
      var r := s.requests[id];
      && r.name in cfg && cfg[r.name].Valid() && ':' !in r.name
      && r.arrivedAt <= s.now
      && r.bucket == BucketAt(cfg[r.name], r.arrivedAt)
      && (r.phase.Arrived? ==> id !in s.landed)
      && (r.phase.HasCount() ==> id in s.landed && s.landed[id].place == r.phase.count - 1)
      && (r.phase.Admitted? ==> r.phase.count <= cfg[r.name].limit)
      && (r.phase.Refused? ==> r.phase.count > cfg[r.name].limit)
  }

  ghost predicate KeysOk(requests: map<nat, Request>) {
    forall id :: id in requests ==>
      var r := requests[id];
      r.key == Key(r.name, r.ip, r.bucket)
  }

  /** Every landed INCR stands in the tally, at the place its landing says. */
  ghost predicate LandedOk(s: State) {
    forall id :: id in s.landed ==>
      var l := s.landed[id];
      && id in s.requests
      && s.requests[id].arrivedAt <= l.at <= s.now
      && l.life.key == s.requests[id].key
      && l.life in s.tally
      && l.place < |s.tally[l.life]|
      && s.tally[l.life][l.place] == id
  }

  /** Every id in the tally has landed there. */
  ghost predicate TallyOk(tally: map<Life, seq<nat>>, landed: map<nat, Landing>) {
    forall life, i :: life in tally && 0 <= i < |tally[life]| ==>
      var id := tally[life][i];
      id in landed && landed[id].life == life && landed[id].place == i
  }

  /** The counter of a key is the number of landings in its last life. */
  ghost predicate CounterOk(store: Store, lives: map<string, nat>, tally: map<Life, seq<nat>>, key: string) {
    && key in store && key in lives
    && lives[key] > 0
    && Life(key, lives[key] - 1) in tally
    && store[key].count == |tally[Life(key, lives[key] - 1)]| >= 1
  }

  ghost predicate StoreOk(store: Store, lives: map<string, nat>, tally: map<Life, seq<nat>>) {
    && (forall k :: k in store || k in lives ==> CounterOk(store, lives, tally, k))
    && (forall life :: life in tally ==> life.key in lives && life.nth < lives[life.key])
  }

  /** A TTL never ends before the bucket that the key is for. */
  ghost predicate ExpiryOk(cfg: Config, requests: map<nat, Request>, store: Store) {
    forall id :: id in requests && requests[id].key in store && store[requests[id].key].expireAt.Some? ==>
      store[requests[id].key].expireAt.value >= EndOf(cfg, requests[id])
  }

  /** Only an INCR that lands after its bucket has ended belongs to a second or later life. */
  ghost predicate LateOk(cfg: Config, requests: map<nat, Request>, landed: map<nat, Landing>) {
    forall id :: id in landed && id in requests && landed[id].life.nth > 0 ==>
      landed[id].at >= EndOf(cfg, requests[id])
  }

  /** Places in one life are in time order. */
  ghost predicate OrderOk(landed: map<nat, Landing>) {
    forall a, b :: a in landed && b in landed
                   && landed[a].life == landed[b].life && landed[a].place <= landed[b].place ==>
      landed[a].at <= landed[b].at
  }

  ghost predicate Inv(cfg: Config, s: State) {
    && ValidConfig(cfg)
    && RequestsOk(cfg, s)
    && KeysOk(s.requests)
    && LandedOk(s)
    && TallyOk(s.tally, s.landed)
    && StoreOk(s.store, s.lives, s.tally)
    && ExpiryOk(cfg, s.requests, s.store)
    && LateOk(cfg, s.requests, s.landed)
    && OrderOk(s.landed)
  }

  /** A bucket starts no later than any instant in it. */
  lemma BucketStarts(p: Policy, now: nat)
    requires p.Valid()
    ensures BucketAt(p, now) * p.window * MS <= now
    ensures (BucketAt(p, now) + 1) * p.window * MS == BucketAt(p, now) * p.window * MS + p.window * MS
  {
    DivisionBounds(Unix(now), p.window);
    assert (BucketAt(p, now) + 1) * p.window == BucketAt(p, now) * p.window + p.window;
  }

  /** A request that arrived in a bucket finds the clock at or after that bucket's start, so a TTL
      set now reaches the end of the bucket. */
  lemma TtlReachesEnd(cfg: Config, s: State, id: nat)
    requires RequestsOk(cfg, s) && id in s.requests
    ensures s.now + cfg[s.requests[id].name].window * MS >= EndOf(cfg, s.requests[id])
  {
    var r := s.requests[id];
    BucketStarts(cfg[r.name], r.arrivedAt);
  }

  lemma SameKeySameRequestTriple(cfg: Config, s: State, a: nat, b: nat)
    requires RequestsOk(cfg, s) && KeysOk(s.requests)
    requires a in s.requests && b in s.requests && s.requests[a].key == s.requests[b].key
    ensures s.requests[a].name == s.requests[b].name
    ensures s.requests[a].ip == s.requests[b].ip
    ensures s.requests[a].bucket == s.requests[b].bucket
    ensures EndOf(cfg, s.requests[a]) == EndOf(cfg, s.requests[b])
  {
    var r, q := s.requests[a], s.requests[b];
    KeyInjective(r.name, r.ip, r.bucket, q.name, q.ip, q.bucket);
  }

  lemma LifeFacts(s: State, key: string)
    requires StoreOk(s.store, s.lives, s.tally)
    ensures LifeAt(s, key) in s.tally <==> Present(s.store, s.now, key)
    ensures Present(s.store, s.now, key) ==>
              key in s.lives && LifeAt(s, key).nth == s.lives[key] - 1 &&
              s.store[key].count == |s.tally[LifeAt(s, key)]|
  {
  }

  lemma LandKeepsStore(s: State, id: nat)
    requires StoreOk(s.store, s.lives, s.tally) && id in s.requests
    ensures StoreOk(Land(s, id).store, Land(s, id).lives, Land(s, id).tally)
    ensures Land(s, id).landed[id].place == Land(s, id).store[s.requests[id].key].count - 1
  {
    var key, t := s.requests[id].key, Land(s, id);
    LifeFacts(s, key);
    forall k | k in t.store || k in t.lives
      ensures CounterOk(t.store, t.lives, t.tally, k)
    {
      if k != key {
        assert CounterOk(s.store, s.lives, s.tally, k);
      }
    }
  }

  lemma LandKeepsTally(s: State, id: nat)
    requires TallyOk(s.tally, s.landed) && id in s.requests && id !in s.landed
    ensures TallyOk(Land(s, id).tally, Land(s, id).landed)
  {
  }

  lemma LandKeepsLanded(s: State, id: nat)
    requires LandedOk(s) && id in s.requests && id !in s.landed
    requires s.requests[id].arrivedAt <= s.now
    ensures LandedOk(Land(s, id))
  {
  }

  lemma LandKeepsExpiry(cfg: Config, s: State, id: nat)
    requires ExpiryOk(cfg, s.requests, s.store) && id in s.requests
    ensures ExpiryOk(cfg, s.requests, Land(s, id).store)
  {
  }

  /** A landing that starts a later life of its key found the key expired, hence its bucket over. */
  lemma LandKeepsLate(cfg: Config, s: State, id: nat)
    requires Inv(cfg, s) && id in s.requests && id !in s.landed
    ensures LateOk(cfg, s.requests, Land(s, id).landed)
  {
    var t, key := Land(s, id), s.requests[id].key;
    LifeFacts(s, key);
    if t.landed[id].life.nth > 0 {
      assert CounterOk(s.store, s.lives, s.tally, key);
      if Present(s.store, s.now, key) {
        var first := s.tally[LifeAt(s, key)][0];
        SameKeySameRequestTriple(cfg, s, first, id);
      }
    }
  }

  lemma LandKeepsOrder(s: State, id: nat)
    requires OrderOk(s.landed) && LandedOk(s) && id in s.requests && id !in s.landed
    ensures OrderOk(Land(s, id).landed)
  {
  }

  lemma LandKeepsInvExceptPhases(cfg: Config, s: State, id: nat)
    requires Inv(cfg, s) && id in s.requests && id !in s.landed
    ensures var t := Land(s, id);
            && KeysOk(t.requests) && LandedOk(t) && TallyOk(t.tally, t.landed) && StoreOk(t.store, t.lives, t.tally)
            && ExpiryOk(cfg, t.requests, t.store) && LateOk(cfg, t.requests, t.landed) && OrderOk(t.landed)
            && t.landed[id].place == t.store[s.requests[id].key].count - 1
  {
    LandKeepsStore(s, id);
    LandKeepsTally(s, id);
    LandKeepsLanded(s, id);
    LandKeepsExpiry(cfg, s, id);
    LandKeepsLate(cfg, s, id);
    LandKeepsOrder(s, id);
  }

  /** What the invariant says about requests without their phases survives a change of phase. */
  lemma PhaseChangeKeepsBounds(cfg: Config, s: State, id: nat, p: Phase)
    requires KeysOk(s.requests) && id in s.requests
    requires ExpiryOk(cfg, s.requests, s.store) && LateOk(cfg, s.requests, s.landed)
    ensures var requests := WithPhase(s, id, p).requests;
            KeysOk(requests) && ExpiryOk(cfg, requests, s.store) && LateOk(cfg, requests, s.landed)
  {
  }

  lemma PhaseChangeKeepsLanded(s: State, id: nat, p: Phase)
    requires LandedOk(s) && id in s.requests
    ensures LandedOk(WithPhase(s, id, p))
  {
  }

  lemma PhaseChangeKeepsInv(cfg: Config, s: State, id: nat, p: Phase)
    requires ValidConfig(cfg) && KeysOk(s.requests) && LandedOk(s)
    requires TallyOk(s.tally, s.landed) && StoreOk(s.store, s.lives, s.tally) && OrderOk(s.landed)
    requires ExpiryOk(cfg, s.requests, s.store) && LateOk(cfg, s.requests, s.landed)
    requires id in s.requests && RequestsOk(cfg, WithPhase(s, id, p))
    ensures Inv(cfg, WithPhase(s, id, p))
  {
    PhaseChangeKeepsBounds(cfg, s, id, p);
    PhaseChangeKeepsLanded(s, id, p);
  }

  lemma ExpireKeepsInv(cfg: Config, s: State, id: nat)
    requires Inv(cfg, s) && id in s.requests
    ensures var r := s.requests[id];
            Inv(cfg, s.(store := Expire(s.store, s.now, r.key, cfg[r.name].window)))
  {
    var r := s.requests[id];
    var t := s.(store := Expire(s.store, s.now, r.key, cfg[r.name].window));
    TtlReachesEnd(cfg, s, id);
    forall i | i in t.requests && t.requests[i].key in t.store && t.store[t.requests[i].key].expireAt.Some?
      ensures t.store[t.requests[i].key].expireAt.value >= EndOf(cfg, t.requests[i])
    {
      if t.requests[i].key == r.key {
        SameKeySameRequestTriple(cfg, s, i, id);
      }
    }
    forall k | k in t.store || k in t.lives
      ensures CounterOk(t.store, t.lives, t.tally, k)
    {
      assert CounterOk(s.store, s.lives, s.tally, k);
    }
  }

  /** A new request finds the bound that earlier requests of its key established. */
  lemma ArriveKeepsExpiry(cfg: Config, s: State, id: nat, name: string, ip: string)
    requires Inv(cfg, s) && Enabled(cfg, s, Arrive(id, name, ip))
    ensures ExpiryOk(cfg, Next(cfg, s, Arrive(id, name, ip)).requests, s.store)
  {
    var t := Next(cfg, s, Arrive(id, name, ip));
    var r := t.requests[id];
    if r.key in s.store {
      assert CounterOk(s.store, s.lives, s.tally, r.key);
      var life := Life(r.key, s.lives[r.key] - 1);
      var first := s.tally[life][0];
      assert s.landed[first].life == life;
      var q := s.requests[first];
      KeyInjective(q.name, q.ip, q.bucket, r.name, r.ip, r.bucket);
    }
  }

  lemma ArriveKeepsInv(cfg: Config, s: State, id: nat, name: string, ip: string)
    requires Inv(cfg, s) && Enabled(cfg, s, Arrive(id, name, ip))
    ensures Inv(cfg, Next(cfg, s, Arrive(id, name, ip)))
  {
    ArriveKeepsExpiry(cfg, s, id, name, ip);
    ArriveKeepsRequests(cfg, s, id, name, ip);
    ArriveKeepsLanded(cfg, s, id, name, ip);
  }

  lemma ArriveKeepsRequests(cfg: Config, s: State, id: nat, name: string, ip: string)
    requires ValidConfig(cfg) && RequestsOk(cfg, s) && KeysOk(s.requests)
    requires (forall i :: i in s.landed ==> i in s.requests) && Enabled(cfg, s, Arrive(id, name, ip))
    ensures var t := Next(cfg, s, Arrive(id, name, ip)); RequestsOk(cfg, t) && KeysOk(t.requests)
  {
  }

  lemma ArriveKeepsLanded(cfg: Config, s: State, id: nat, name: string, ip: string)
    requires LandedOk(s) && LateOk(cfg, s.requests, s.landed) && Enabled(cfg, s, Arrive(id, name, ip))
    ensures var t := Next(cfg, s, Arrive(id, name, ip)); LandedOk(t) && LateOk(cfg, t.requests, t.landed)
  {
  }

  lemma AnswerKeepsInv(cfg: Config, s: State, id: nat)
    requires Inv(cfg, s) && Enabled(cfg, s, IncrAnswered(id))
    ensures Inv(cfg, Next(cfg, s, IncrAnswered(id)))
  {
    LandKeepsInvExceptPhases(cfg, s, id);
    var t := Land(s, id);
    AnswerKeepsRequests(cfg, s, id);
    PhaseChangeKeepsInv(cfg, t, id, AfterIncr(t.store[s.requests[id].key].count));
  }

  lemma AnswerKeepsRequests(cfg: Config, s: State, id: nat)
    requires RequestsOk(cfg, s) && Enabled(cfg, s, IncrAnswered(id))
    requires Land(s, id).landed[id].place == Land(s, id).store[s.requests[id].key].count - 1
    ensures RequestsOk(cfg, Next(cfg, s, IncrAnswered(id)))
  {
  }

  lemma StrayKeepsInv(cfg: Config, s: State, id: nat)
    requires Inv(cfg, s) && Enabled(cfg, s, StrayIncr(id))
    ensures Inv(cfg, Next(cfg, s, StrayIncr(id)))
  {
    LandKeepsInvExceptPhases(cfg, s, id);
    StrayKeepsRequests(cfg, s, id);
  }

  lemma StrayKeepsRequests(cfg: Config, s: State, id: nat)
    requires RequestsOk(cfg, s) && Enabled(cfg, s, StrayIncr(id))
    ensures RequestsOk(cfg, Land(s, id))
  {
  }

  lemma PhaseKeepsRequests(cfg: Config, s: State, id: nat, p: Phase)
    requires RequestsOk(cfg, s) && id in s.requests && s.requests[id].name in cfg && !p.Arrived?
    requires p.HasCount() ==> id in s.landed && s.landed[id].place == p.count - 1
    requires p.Admitted? ==> p.count <= cfg[s.requests[id].name].limit
    requires p.Refused? ==> p.count > cfg[s.requests[id].name].limit
    ensures RequestsOk(cfg, WithPhase(s, id, p))
  {
  }

  lemma ExpireSentKeepsInv(cfg: Config, s: State, id: nat, ok: bool)
    requires Inv(cfg, s) && Enabled(cfg, s, ExpireSent(id, ok))
    ensures Inv(cfg, Next(cfg, s, ExpireSent(id, ok)))
  {
    PhaseKeepsRequests(cfg, s, id, Deciding(s.requests[id].phase.count));
    PhaseChangeKeepsInv(cfg, s, id, Deciding(s.requests[id].phase.count));
    var t := WithPhase(s, id, Deciding(s.requests[id].phase.count));
    if ok {
      ExpireKeepsInv(cfg, t, id);
    } else {
      UnheardIsFree(cfg, t, t.unheard + {id});
    }
  }

  lemma StrayExpireKeepsInv(cfg: Config, s: State, id: nat)
    requires Inv(cfg, s) && Enabled(cfg, s, StrayExpire(id))
    ensures Inv(cfg, Next(cfg, s, StrayExpire(id)))
  {
    ExpireKeepsInv(cfg, s, id);
    var r := s.requests[id];
    UnheardIsFree(cfg, s.(store := Expire(s.store, s.now, r.key, cfg[r.name].window)), s.unheard - {id});
  }

  lemma UnheardIsFree(cfg: Config, s: State, unheard: set<nat>)
    requires Inv(cfg, s)
    ensures Inv(cfg, s.(unheard := unheard))
  {
  }

  lemma NextKeepsInv(cfg: Config, s: State, e: Event)
    requires Inv(cfg, s) && Enabled(cfg, s, e)
    ensures Inv(cfg, Next(cfg, s, e))
  {
    match e
    case Tick(_) =>
    case Arrive(id, name, ip) =>
      ArriveKeepsInv(cfg, s, id, name, ip);
    case IncrAnswered(id) =>
      AnswerKeepsInv(cfg, s, id);
    case IncrFailed(id) =>
      PhaseKeepsRequests(cfg, s, id, FailedOpen);
      PhaseChangeKeepsInv(cfg, s, id, FailedOpen);
    case StrayIncr(id) =>
      StrayKeepsInv(cfg, s, id);
    case ExpireSent(id, ok) =>
      ExpireSentKeepsInv(cfg, s, id, ok);
    case StrayExpire(id) =>
      StrayExpireKeepsInv(cfg, s, id);
    case Decide(id) =>
      var r := s.requests[id];
      PhaseKeepsRequests(cfg, s, id, Decision(cfg[r.name], r.phase.count, s.now));
      PhaseChangeKeepsInv(cfg, s, id, Decision(cfg[r.name], r.phase.count, s.now));
  }

  lemma {:induction false} RunKeepsInv(cfg: Config, s0: State, es: seq<Event>, s1: State)
    requires Inv(cfg, s0) && Runs(cfg, s0, es, s1)
    ensures Inv(cfg, s1)
    decreases |es|
  {
    if es != [] {
      NextKeepsInv(cfg, s0, es[0]);
      RunKeepsInv(cfg, Next(cfg, s0, es[0]), es[1..], s1);
    }
  }

  ghost predicate Reachable(cfg: Config, s: State) {
    ValidConfig(cfg) && exists es :: Runs(cfg, Init, es, s)
  }

  lemma {:induction false} RunsStep(cfg: Config, s0: State, es: seq<Event>, s1: State, e: Event)
    requires Runs(cfg, s0, es, s1) && Enabled(cfg, s1, e)
    ensures Runs(cfg, s0, es + [e], Next(cfg, s1, e))
    decreases |es|
  {
    if es == [] {
      assert Runs(cfg, Next(cfg, s1, e), [], Next(cfg, s1, e));
    } else {
      RunsStep(cfg, Next(cfg, s0, es[0]), es[1..], s1, e);
      assert (es + [e])[1..] == es[1..] + [e];
    }
  }

  lemma ReachStep(cfg: Config, s: State, e: Event)
    requires Reachable(cfg, s) && Enabled(cfg, s, e)
    ensures Reachable(cfg, Next(cfg, s, e))
  {
    var es :| Runs(cfg, Init, es, s);
    RunsStep(cfg, Init, es, s, e);
  }

  lemma ReachableInv(cfg: Config, s: State)
    requires Reachable(cfg, s)
    ensures Inv(cfg, s)
  {
    var es :| Runs(cfg, Init, es, s);
    RunKeepsInv(cfg, Init, es, s);
  }

  // ---------------------------------------------------------------- what every run guarantees

  ghost function Elems(xs: seq<nat>): set<nat> {
    set x | x in xs
  }

  lemma {:induction false} ElemsBound(xs: seq<nat>)
    ensures |Elems(xs)| <= |xs|
  {
    if xs != [] {
      var last := xs[|xs| - 1];
      var rest := xs[..|xs| - 1];
      ElemsBound(rest);
      assert xs == rest + [last];
      assert Elems(xs) == Elems(rest) + {last};
    }
  }

  lemma WithinBound(ids: set<nat>, xs: seq<nat>)
    requires forall id :: id in ids ==> id in xs
    ensures |ids| <= |xs|
  {
    ElemsBound(xs);
    SubsetBound(ids, Elems(xs));
  }

  lemma SubsetBound<T>(a: set<T>, b: set<T>)
    requires a <= b
    ensures |a| <= |b|
  {
    assert b == a + (b - a);
  }

  ghost predicate For(r: Request, name: string, ip: string) {
    r.name == name && r.ip == ip
  }

  /** Requests of this limiter and IP that were handed to the next handler. */
  ghost function Passed(s: State, name: string, ip: string): set<nat> {
    set id | id in s.requests && For(s.requests[id], name, ip) && s.requests[id].phase.Passed()
  }

  /** Requests whose INCR reported an error, or took effect only after its bucket had ended. */
  ghost predicate Irregular(cfg: Config, s: State, id: nat) {
    id in s.requests &&
    (s.requests[id].phase.FailedOpen? ||
     (id in s.landed && s.landed[id].at >= EndOf(cfg, s.requests[id])))
  }

  ghost function InBucket(s: State, ids: set<nat>, bucket: nat): set<nat> {
    set id | id in ids && id in s.requests && s.requests[id].bucket == bucket
  }

  ghost function IrregularIn(cfg: Config, s: State, ids: set<nat>): set<nat> {
    set id | id in ids && Irregular(cfg, s, id)
  }

  function Min(a: nat, b: nat): nat {
    if a < b then a else b
  }

  /** The first n landings of the first life of a key. */
  function FirstLandings(s: State, key: string, n: nat): seq<nat> {
    if Life(key, 0) in s.tally then s.tally[Life(key, 0)][..Min(|s.tally[Life(key, 0)]|, n)] else []
  }

  /** A passed request that is not irregular is among the first `limit` landings of the first life
      of its key. */
  lemma RegularIsFirst(cfg: Config, s: State, id: nat)
    requires Reachable(cfg, s) && id in s.requests && s.requests[id].phase.Passed() && !Irregular(cfg, s, id)
    ensures var r := s.requests[id];
            r.name in cfg && id in FirstLandings(s, Key(r.name, r.ip, r.bucket), cfg[r.name].limit)
  {
    ReachableInv(cfg, s);
    var r, l := s.requests[id], s.landed[id];
    assert l.life == Life(r.key, 0);
    assert s.tally[l.life][l.place] == id && l.place < cfg[r.name].limit;
  }

  lemma RegularAreFirst(cfg: Config, s: State, ids: set<nat>, name: string, ip: string, bucket: nat)
    requires Reachable(cfg, s) && name in cfg
    requires forall id :: id in ids ==>
               && id in s.requests && s.requests[id].phase.Passed() && !Irregular(cfg, s, id)
               && For(s.requests[id], name, ip) && s.requests[id].bucket == bucket
    ensures |ids| <= cfg[name].limit
  {
    var first := FirstLandings(s, Key(name, ip, bucket), cfg[name].limit);
    forall id | id in ids
      ensures id in first
    {
      RegularIsFirst(cfg, s, id);
    }
    WithinBound(ids, first);
  }

  /** Shared cap: in every run, with any interleaving of any number of instances, the requests passed
      per limiter name, IP and bucket number at most the limit plus those whose INCR failed or came
      late. */
  lemma SharedCap(cfg: Config, s: State, name: string, ip: string, bucket: nat)
    requires Reachable(cfg, s) && name in cfg
    ensures var ids := InBucket(s, Passed(s, name, ip), bucket);
            |ids| <= cfg[name].limit + |IrregularIn(cfg, s, ids)|
  {
    var ids := InBucket(s, Passed(s, name, ip), bucket);
    RegularAreFirst(cfg, s, ids - IrregularIn(cfg, s, ids), name, ip, bucket);
    assert ids == (ids - IrregularIn(cfg, s, ids)) + IrregularIn(cfg, s, ids);
  }

  ghost function ArrivedBetween(s: State, ids: set<nat>, lo: nat, hi: nat): set<nat> {
    set id | id in ids && id in s.requests && lo <= s.requests[id].arrivedAt < hi
  }

  lemma {:induction false} RegularInBuckets(
      cfg: Config, s: State, ids: set<nat>, name: string, ip: string, first: nat, n: nat)
    requires Reachable(cfg, s) && name in cfg
    requires forall id :: id in ids ==>
               && id in s.requests && s.requests[id].phase.Passed() && !Irregular(cfg, s, id)
               && For(s.requests[id], name, ip) && first <= s.requests[id].bucket < first + n
    ensures |ids| <= n * cfg[name].limit
  {
    if n > 0 {
      var last := InBucket(s, ids, first + n - 1);
      RegularInBuckets(cfg, s, ids - last, name, ip, first, n - 1);
      RegularAreFirst(cfg, s, last, name, ip, first + n - 1);
      assert ids == (ids - last) + last;
      assert n * cfg[name].limit == (n - 1) * cfg[name].limit + cfg[name].limit;
    } else {
      assert forall id :: id !in ids;
    }
  }

  lemma BucketMonotone(p: Policy, a: nat, b: nat)
    requires p.Valid() && a <= b
    ensures BucketAt(p, a) <= BucketAt(p, b)
  {
    var u, v, w := Unix(a), Unix(b), p.window;
    DivisionBounds(u, w);
    DivisionBounds(v, w);
    if u / w > v / w {
      MulMonotone(v / w + 1, u / w, w);
      assert false;
    }
  }

  lemma BucketAfterWindows(p: Policy, lo: nat, k: nat)
    requires p.Valid()
    ensures BucketAt(p, lo + k * p.window * MS) == BucketAt(p, lo) + k
  {
    var u, w := Unix(lo), p.window;
    assert Unix(lo + k * w * MS) == u + k * w;
    DivisionBounds(u, w);
    QuotientOf(u / w + k, w, u % w);
    assert (u / w + k) * w + u % w == u + k * w;
  }

  /** Sliding bound: any span of k window lengths, however aligned to the buckets, passes at most
      (k + 1) times the limit, plus the irregular requests of the span. */
  lemma SlidingBound(cfg: Config, s: State, name: string, ip: string, lo: nat, k: nat)
    requires Reachable(cfg, s) && name in cfg
    ensures var ids := ArrivedBetween(s, Passed(s, name, ip), lo, lo + k * cfg[name].window * MS);
            |ids| <= (k + 1) * cfg[name].limit + |IrregularIn(cfg, s, ids)|
  {
    assert cfg[name].Valid();
    var p := cfg[name];
    var hi := lo + k * p.window * MS;
    var ids := ArrivedBetween(s, Passed(s, name, ip), lo, hi);
    var regular := ids - IrregularIn(cfg, s, ids);
    forall id | id in ids
      ensures BucketAt(p, lo) <= s.requests[id].bucket < BucketAt(p, lo) + (k + 1)
    {
      RequestBucket(cfg, s, id);
      BucketMonotone(p, lo, s.requests[id].arrivedAt);
      BucketMonotone(p, s.requests[id].arrivedAt, hi);
      BucketAfterWindows(p, lo, k);
    }
    RegularInBuckets(cfg, s, regular, name, ip, BucketAt(p, lo), k + 1);
    assert ids == regular + IrregularIn(cfg, s, ids);
  }

  lemma RequestBucket(cfg: Config, s: State, id: nat)
    requires Reachable(cfg, s) && id in s.requests
    ensures var r := s.requests[id];
            r.name in cfg && cfg[r.name].Valid() && r.bucket == BucketAt(cfg[r.name], r.arrivedAt)
  {
    ReachableInv(cfg, s);
  }

  /** No false refusals: behind a refused request stand at least `limit` other requests of the same
      limiter, IP and bucket, whose INCR took effect no later than its own. */
  lemma NoFalseRefusal(cfg: Config, s: State, id: nat) returns (earlier: set<nat>)
    requires Reachable(cfg, s) && id in s.requests && s.requests[id].phase.Refused?
    ensures s.requests[id].name in cfg && |earlier| >= cfg[s.requests[id].name].limit
    ensures id !in earlier && id in s.landed
    ensures forall e :: e in earlier ==>
              && e in s.requests && e in s.landed
              && s.requests[e].name == s.requests[id].name
              && s.requests[e].ip == s.requests[id].ip
              && s.requests[e].bucket == s.requests[id].bucket
              && s.landed[e].at <= s.landed[id].at
  {
    ReachableInv(cfg, s);
    var l := s.landed[id];
    var ids := s.tally[l.life];
    earlier := set i | 0 <= i < l.place :: ids[i];
    forall e | e in earlier
      ensures e in s.requests && e in s.landed && s.landed[e].life == l.life && s.landed[e].place < l.place
      ensures s.requests[e].name == s.requests[id].name
      ensures s.requests[e].ip == s.requests[id].ip
      ensures s.requests[e].bucket == s.requests[id].bucket
    {
      var i :| 0 <= i < l.place && ids[i] == e;
      assert s.landed[e].life == l.life;
      SameKeySameRequestTriple(cfg, s, e, id);
    }
    DistinctPrefixSize(s, l.life, l.place);
  }

  /** The first n landings of a life are n different requests. */
  lemma {:induction false} DistinctPrefixSize(s: State, life: Life, n: nat)
    requires TallyOk(s.tally, s.landed) && life in s.tally && n <= |s.tally[life]|
    ensures |set i | 0 <= i < n :: s.tally[life][i]| == n
  {
    var ids := s.tally[life];
    if n > 0 {
      DistinctPrefixSize(s, life, n - 1);
      var before := set i | 0 <= i < n - 1 :: ids[i];
      assert ids[n - 1] !in before;
      assert (set i | 0 <= i < n :: ids[i]) == before + {ids[n - 1]};
    }
  }

  // ---------------------------------------------------------------- how long a counter lives

  /** An EXPIRE takes effect on a key. */
  predicate SetsTtl(s: State, e: Event, key: string) {
    (e.StrayExpire? || (e.ExpireSent? && e.ok)) && e.id in s.requests && s.requests[e.id].key == key
  }

  ghost predicate NeverSetsTtl(cfg: Config, s0: State, es: seq<Event>, key: string)
    decreases |es|
  {
    es == [] || (Enabled(cfg, s0, es[0]) && !SetsTtl(s0, es[0], key)
                 && NeverSetsTtl(cfg, Next(cfg, s0, es[0]), es[1..], key))
  }

  /** The key is in its n-th life and alive. */
  predicate InLife(s: State, key: string, n: nat) {
    key in s.lives && s.lives[key] == n && Present(s.store, s.now, key)
  }

  /** Life n is alive without a TTL. */
  predicate Endless(s: State, key: string, n: nat) {
    key in s.lives && s.lives[key] == n && key in s.store && s.store[key].expireAt.None?
  }

  /** Life n has a TTL or is over. */
  predicate Bounded(s: State, key: string, n: nat) {
    key in s.lives && key in s.store && (s.lives[key] > n || (s.lives[key] == n && s.store[key].expireAt.Some?))
  }

  lemma EndlessStep(cfg: Config, s: State, e: Event, key: string, n: nat)
    requires KeysOk(s.requests) && n > 0 && Enabled(cfg, s, e) && Endless(s, key, n)
    ensures if SetsTtl(s, e, key) then Bounded(Next(cfg, s, e), key, n)
            else Endless(Next(cfg, s, e), key, n) && Next(cfg, s, e).store[key].count >= s.store[key].count
  {
  }

  lemma BoundedStep(cfg: Config, s: State, e: Event, key: string, n: nat)
    requires KeysOk(s.requests) && Enabled(cfg, s, e) && Bounded(s, key, n) && s.lives[key] > 0
    ensures Bounded(Next(cfg, s, e), key, n)
  {
  }

  lemma {:induction false} BoundedRun(cfg: Config, s0: State, es: seq<Event>, s1: State, key: string, n: nat)
    requires Inv(cfg, s0) && Runs(cfg, s0, es, s1) && Bounded(s0, key, n)
    ensures Bounded(s1, key, n)
    decreases |es|
  {
    if es != [] {
      NextKeepsInv(cfg, s0, es[0]);
      assert CounterOk(s0.store, s0.lives, s0.tally, key);
      BoundedStep(cfg, s0, es[0], key, n);
      BoundedRun(cfg, Next(cfg, s0, es[0]), es[1..], s1, key, n);
    }
  }

  /** Over any run, a counter that is alive without a TTL stays so, in the same life and never counting
      less, if and only if no EXPIRE for its key takes effect. */
  lemma {:induction false} WithoutExpireForeverIff(
      cfg: Config, s0: State, es: seq<Event>, s1: State, key: string, n: nat)
    requires Inv(cfg, s0) && Runs(cfg, s0, es, s1) && Endless(s0, key, n)
    ensures Endless(s1, key, n) <==> NeverSetsTtl(cfg, s0, es, key)
    ensures Endless(s1, key, n) ==> InLife(s1, key, n) && s1.store[key].count >= s0.store[key].count
    decreases |es|
  {
    if es != [] {
      var t := Next(cfg, s0, es[0]);
      NextKeepsInv(cfg, s0, es[0]);
      assert CounterOk(s0.store, s0.lives, s0.tally, key);
      EndlessStep(cfg, s0, es[0], key, n);
      if SetsTtl(s0, es[0], key) {
        BoundedRun(cfg, t, es[1..], s1, key, n);
      } else {
        WithoutExpireForeverIff(cfg, t, es[1..], s1, key, n);
      }
    }
  }

  /** Life n ends at instant x, or has ended. */
  predicate EndsAt(s: State, key: string, n: nat, x: nat) {
    && key in s.lives && key in s.store
    && ((s.lives[key] == n && s.store[key].expireAt == Some(x)) || (s.lives[key] > n && s.now >= x))
  }

  lemma EndsAtStep(cfg: Config, s: State, e: Event, key: string, n: nat, x: nat)
    requires KeysOk(s.requests) && Enabled(cfg, s, e) && EndsAt(s, key, n, x) && s.lives[key] > 0
    requires !SetsTtl(s, e, key)
    ensures EndsAt(Next(cfg, s, e), key, n, x)
  {
  }

  lemma {:induction false} EndsAtRun(
      cfg: Config, s0: State, es: seq<Event>, s1: State, key: string, n: nat, x: nat)
    requires Inv(cfg, s0) && Runs(cfg, s0, es, s1) && EndsAt(s0, key, n, x) && NeverSetsTtl(cfg, s0, es, key)
    ensures EndsAt(s1, key, n, x)
    decreases |es|
  {
    if es != [] {
      NextKeepsInv(cfg, s0, es[0]);
      assert CounterOk(s0.store, s0.lives, s0.tally, key);
      EndsAtStep(cfg, s0, es[0], key, n, x);
      EndsAtRun(cfg, Next(cfg, s0, es[0]), es[1..], s1, key, n, x);
    }
  }

  lemma ExpireSetsEnd(cfg: Config, s: State, e: Event, key: string, n: nat)
    requires Enabled(cfg, s, e) && SetsTtl(s, e, key) && InLife(s, key, n)
    ensures s.requests[e.id].name in cfg
    ensures EndsAt(Next(cfg, s, e), key, n, s.now + cfg[s.requests[e.id].name].window * MS)
  {
  }

  /** Once an EXPIRE has taken effect on a counter and no later one does, its life lasts exactly one
      window from that EXPIRE on, whatever else happens; a new INCR after that starts another life. */
  lemma LifeEndsAfterExpire(cfg: Config, s0: State, e: Event, es: seq<Event>, s1: State, key: string, n: nat)
    requires Reachable(cfg, s0) && Enabled(cfg, s0, e) && SetsTtl(s0, e, key) && InLife(s0, key, n)
    requires Runs(cfg, Next(cfg, s0, e), es, s1) && NeverSetsTtl(cfg, Next(cfg, s0, e), es, key)
    ensures s0.requests[e.id].name in cfg
    ensures InLife(s1, key, n) <==> s1.now < s0.now + cfg[s0.requests[e.id].name].window * MS
  {
    ReachStep(cfg, s0, e);
    ExpireSetsEnd(cfg, s0, e, key, n);
    EndsWhereItShould(cfg, Next(cfg, s0, e), es, s1, key, n, s0.now + cfg[s0.requests[e.id].name].window * MS);
  }

  lemma EndsWhereItShould(cfg: Config, s0: State, es: seq<Event>, s1: State, key: string, n: nat, x: nat)
    requires Reachable(cfg, s0) && Runs(cfg, s0, es, s1) && EndsAt(s0, key, n, x) && NeverSetsTtl(cfg, s0, es, key)
    ensures InLife(s1, key, n) <==> s1.now < x
  {
    ReachableInv(cfg, s0);
    EndsAtRun(cfg, s0, es, s1, key, n, x);
  }

  const ONE_A_SECOND: Config := map["g" := Policy(1, 1)]

  /** Two reachable states with a counter that is alive when the window after its first request, and its
      bucket, are over: one whose EXPIRE was lost and which has no TTL, and one whose EXPIRE came half a
      window after the INCR. */
  lemma CounterOutlivesWindow()
    ensures exists s: State ::
              && Reachable(ONE_A_SECOND, s) && 1 in s.landed && s.landed[1].at == 0 && s.now == 1000
              && Endless(s, Key("g", "a", 0), 1)
    ensures exists s: State ::
              && Reachable(ONE_A_SECOND, s) && 1 in s.landed && s.landed[1].at == 0 && s.now == 1200
              && InLife(s, Key("g", "a", 0), 1) && s.store[Key("g", "a", 0)].expireAt == Some(1500)
  {
    var s0 := CountedOne();
    ReachStep(ONE_A_SECOND, s0, ExpireSent(1, false));
    var s1 := Next(ONE_A_SECOND, s0, ExpireSent(1, false));
    ReachStep(ONE_A_SECOND, s1, Tick(1000));
    var lost := Next(ONE_A_SECOND, s1, Tick(1000));
    assert Endless(lost, Key("g", "a", 0), 1);
    var late := ExpireHalfway(s0);
  }

  /** One request has been counted and its EXPIRE is due. */
  lemma CountedOne() returns (s: State)
    ensures Reachable(ONE_A_SECOND, s) && s.now == 0 && s.lives == map[Key("g", "a", 0) := 1]
    ensures s.store == map[Key("g", "a", 0) := Entry(1, None)]
    ensures s.requests == map[1 := Request("g", "a", 0, Key("g", "a", 0), 0, Counted(1))]
    ensures 1 in s.landed && s.landed[1].at == 0
  {
    assert Runs(ONE_A_SECOND, Init, [], Init);
    assert ValidConfig(ONE_A_SECOND);
    ReachStep(ONE_A_SECOND, Init, Arrive(1, "g", "a"));
    var s1 := Next(ONE_A_SECOND, Init, Arrive(1, "g", "a"));
    ReachStep(ONE_A_SECOND, s1, IncrAnswered(1));
    s := Next(ONE_A_SECOND, s1, IncrAnswered(1));
  }

  lemma ExpireHalfway(s0: State) returns (s: State)
    requires Reachable(ONE_A_SECOND, s0) && s0.now == 0 && s0.lives == map[Key("g", "a", 0) := 1]
    requires s0.store == map[Key("g", "a", 0) := Entry(1, None)]
    requires s0.requests == map[1 := Request("g", "a", 0, Key("g", "a", 0), 0, Counted(1))]
    ensures Reachable(ONE_A_SECOND, s) && s.now == 1200 && s.landed == s0.landed
    ensures InLife(s, Key("g", "a", 0), 1) && s.store[Key("g", "a", 0)].expireAt == Some(1500)
  {
    ReachStep(ONE_A_SECOND, s0, Tick(500));
    var s1 := Next(ONE_A_SECOND, s0, Tick(500));
    ReachStep(ONE_A_SECOND, s1, ExpireSent(1, true));
    var s2 := Next(ONE_A_SECOND, s1, ExpireSent(1, true));
    ReachStep(ONE_A_SECOND, s2, Tick(700));
    s := Next(ONE_A_SECOND, s2, Tick(700));
  }

  /** The condition on late INCRs is needed: with limit 1 and a one-second window, an INCR sent in
      bucket 0 that lands when that bucket has just ended finds its key expired and is admitted as a
      second request of the bucket, without any error. */
  lemma LateIncrExceedsCap()
    ensures exists cfg: Config, s: State ::
              && Reachable(cfg, s) && "g" in cfg && cfg["g"].limit == 1
              && |InBucket(s, Passed(s, "g", "a"), 0)| == 2
              && (forall id :: id in s.requests ==> !s.requests[id].phase.FailedOpen?)
  {
    var cfg := map["g" := Policy(1, 1)];
    var s := LateRun(cfg);
    assert Reachable(cfg, s);
    assert InBucket(s, Passed(s, "g", "a"), 0) == {1, 2};
  }

  lemma LateRun(cfg: Config) returns (end: State)
    requires cfg == map["g" := Policy(1, 1)]
    ensures Reachable(cfg, end) && end.requests.Keys == {1, 2}
    ensures forall id :: id in end.requests ==>
              end.requests[id] == Request("g", "a", 0, Key("g", "a", 0), 0, Admitted(1))
  {
    assert Runs(cfg, Init, [], Init);
    var two := ArriveBoth(cfg);
    var one := AdmitFirst(cfg, two);
    end := AdmitSecond(cfg, one);
  }

  lemma ArriveBoth(cfg: Config) returns (s: State)
    requires cfg == map["g" := Policy(1, 1)] && Reachable(cfg, Init)
    ensures Reachable(cfg, s)
    ensures var r := Request("g", "a", 0, Key("g", "a", 0), 0, Arrived);
            s == State(0, map[], map[1 := r, 2 := r], {}, map[], map[], map[])
  {
    ReachStep(cfg, Init, Arrive(1, "g", "a"));
    var s1 := Next(cfg, Init, Arrive(1, "g", "a"));
    ReachStep(cfg, s1, Arrive(2, "g", "a"));
    s := Next(cfg, s1, Arrive(2, "g", "a"));
  }

  lemma AdmitFirst(cfg: Config, s0: State) returns (s: State)
    requires cfg == map["g" := Policy(1, 1)] && Reachable(cfg, s0)
    requires var r := Request("g", "a", 0, Key("g", "a", 0), 0, Arrived);
             s0 == State(0, map[], map[1 := r, 2 := r], {}, map[], map[], map[])
    ensures Reachable(cfg, s)
    ensures var k := Key("g", "a", 0);
            var r := Request("g", "a", 0, k, 0, Arrived);
            && s.now == 0 && s.store == map[k := Entry(1, Some(1000))]
            && s.requests == map[1 := r.(phase := Admitted(1)), 2 := r]
  {
    ReachStep(cfg, s0, IncrAnswered(1));
    var s1 := Next(cfg, s0, IncrAnswered(1));
    ReachStep(cfg, s1, ExpireSent(1, true));
    var s2 := Next(cfg, s1, ExpireSent(1, true));
    ReachStep(cfg, s2, Decide(1));
    s := Next(cfg, s2, Decide(1));
  }

  lemma AdmitSecond(cfg: Config, s0: State) returns (s: State)
    requires cfg == map["g" := Policy(1, 1)] && Reachable(cfg, s0)
    requires var k := Key("g", "a", 0);
             var r := Request("g", "a", 0, k, 0, Arrived);
             && s0.now == 0 && s0.store == map[k := Entry(1, Some(1000))]
             && s0.requests == map[1 := r.(phase := Admitted(1)), 2 := r]
    ensures Reachable(cfg, s) && s.requests.Keys == {1, 2}
    ensures forall id :: id in s.requests ==>
              s.requests[id] == Request("g", "a", 0, Key("g", "a", 0), 0, Admitted(1))
  {
    ReachStep(cfg, s0, Tick(1000));
    var s1 := Next(cfg, s0, Tick(1000));
    ReachStep(cfg, s1, IncrAnswered(2));
    var s2 := Next(cfg, s1, IncrAnswered(2));
    ReachStep(cfg, s2, ExpireSent(2, true));
    var s3 := Next(cfg, s2, ExpireSent(2, true));
    ReachStep(cfg, s3, Decide(2));
    s := Next(cfg, s3, Decide(2));
  }
}
