/** The handler that RedisRateLimit returns, over the Redis that all instances share. Every method
    below is one atomic step; ServeHTTP takes them in the order of the source. */
module RateLimitHandler {
  import opened Strings
  import opened RateLimiter

  /** X-RateLimit-Limit, X-RateLimit-Remaining, X-RateLimit-Reset and, on a 429, Retry-After. */
  datatype Headers = Headers(limit: nat, remaining: nat, reset: nat, retryAfter: Option<nat>)

  /** The INCRs that the key of the current bucket has had in its present life. */
  function CountBefore(store: Store, now: nat, name: string, ip: string, window: nat): nat
    requires window > 0
  {
    var key := Key(name, ip, now / 1000 / window);
    if key in store && store[key].Live(now) then store[key].count else 0
  }

  /** What the headers say after `before` earlier INCRs, in seconds: what is left of the limit, the first
      second of the next bucket, and on a refusal the wait that ends on that second. */
  predicate Reports(h: Headers, p: Policy, now: nat, before: nat) {
    var second := now / 1000;
    && h.limit == p.limit
    && h.remaining == (if before + 1 <= p.limit then p.limit - before - 1 else 0)
    && second < h.reset <= second + p.window && h.reset % p.window == 0
    && (h.retryAfter.Some? <==> before >= p.limit)
    && (h.retryAfter.Some? ==> 1 <= h.retryAfter.value <= p.window && second + h.retryAfter.value == h.reset)
  }

  /** The TTL that INCR leaves in place. */
  function TtlOf(store: Store, now: nat, key: string): Option<nat> {
    if key in store && store[key].Live(now) then store[key].expireAt else None
  }

  lemma HeadersReport(p: Policy, now: nat, before: nat, h: Headers)
    requires p.Valid() && h.limit == p.limit && h.reset == ResetHeader(p, BucketAt(p, now))
    requires h.remaining == if before + 1 <= p.limit then p.limit - before - 1 else 0
    requires h.retryAfter == if before + 1 > p.limit then Some(RetryAfter(p, now)) else None
    ensures Reports(h, p, now, before)
  {
    RetryAfterReachesNextBucket(p, BucketAt(p, now), now);
  }

  class Service {
    const cfg: Config
    var now: nat
    var store: Store
    var requests: map<nat, Request>
    var unheard: set<nat>
    ghost var lives: map<string, nat>
    ghost var tally: map<Life, seq<nat>>
    ghost var landed: map<nat, Landing>

    ghost function Abs(): State
      reads this
    {
      State(now, store, requests, unheard, lives, tally, landed)
    }

    constructor (cfg: Config)
      ensures this.cfg == cfg && Abs() == Init
    {
      this.cfg := cfg;
      now, store, requests, unheard := 0, map[], map[], {};
      lives, tally, landed := map[], map[], map[];
    }

    method ReadClock(id: nat, name: string, ip: string)
      requires Enabled(cfg, Abs(), Arrive(id, name, ip))
      modifies this`requests
      ensures Abs() == Next(cfg, old(Abs()), Arrive(id, name, ip))
    {
      var bucket := now / MS / cfg[name].window;
      var key := "rl:" + name + ":" + ip + ":" + Itoa(bucket);
      requests := requests[id := Request(name, ip, bucket, key, now, Arrived)];
    }

    /** The INCR command itself. */
    method IncrCommand(id: nat) returns (count: nat)
      requires id in requests
      modifies this`store, this`lives, this`tally, this`landed
      ensures store == old(store)[requests[id].key := Entry(count, TtlOf(old(store), now, requests[id].key))]
      ensures Abs() == Land(old(Abs()), id) && count == store[requests[id].key].count
    {
      ghost var after := Land(Abs(), id);
      var key := requests[id].key;
      count := 1;
      var ttl: Option<nat> := None;
      if key in store && store[key].Live(now) {
        count, ttl := store[key].count + 1, store[key].expireAt;
      }
      store := store[key := Entry(count, ttl)];
      lives, tally, landed := after.lives, after.tally, after.landed;
    }

    method SendIncr(id: nat) returns (count: nat)
      requires Enabled(cfg, Abs(), IncrAnswered(id))
      modifies this`store, this`requests, this`lives, this`tally, this`landed
      ensures var key := old(requests[id].key); store == old(store)[key := Entry(count, TtlOf(old(store), now, key))]
      ensures Abs() == Next(cfg, old(Abs()), IncrAnswered(id))
      ensures id in requests && requests[id].phase == AfterIncr(count)
      ensures requests[id] == old(requests[id]).(phase := AfterIncr(count))
      ensures var key := old(requests[id].key);
              count == 1 + if Present(old(store), now, key) then old(store)[key].count else 0
    {
      count := IncrCommand(id);
      requests := requests[id := requests[id].(phase := if count == 1 then Counted(1) else Deciding(count))];
    }

    method FailIncr(id: nat)
      requires Enabled(cfg, Abs(), IncrFailed(id))
      modifies this`requests
      ensures Abs() == Next(cfg, old(Abs()), IncrFailed(id))
    {
      requests := requests[id := requests[id].(phase := FailedOpen)];
    }

    method SendExpire(id: nat, ok: bool)
      requires Enabled(cfg, Abs(), ExpireSent(id, ok))
      modifies this`store, this`unheard, this`requests
      ensures var r := old(requests[id]);
              store == if ok && Present(old(store), now, r.key)
                       then old(store)[r.key := Entry(old(store)[r.key].count, Some(now + cfg[r.name].window * 1000))]
                       else old(store)
      ensures Abs() == Next(cfg, old(Abs()), ExpireSent(id, ok))
    {
      var r := requests[id];
      if ok && r.key in store && store[r.key].Live(now) {
        store := store[r.key := Entry(store[r.key].count, Some(now + cfg[r.name].window * MS))];
      }
      if !ok { unheard := unheard + {id}; }
      requests := requests[id := r.(phase := Deciding(r.phase.count))];
    }

    method Respond(id: nat) returns (headers: Headers)
      requires Enabled(cfg, Abs(), RateLimiter.Decide(id))
      modifies this`requests
      ensures Abs() == Next(cfg, old(Abs()), RateLimiter.Decide(id))
      ensures var r := old(requests[id]);
              var p := cfg[r.name];
              && headers.limit == p.limit
              && headers.remaining == (if r.phase.count <= p.limit then p.limit - r.phase.count else 0)
              && headers.reset == ResetHeader(p, r.bucket)
              && headers.retryAfter == (if r.phase.count > p.limit then Some(RetryAfter(p, now)) else None)
    {
      var r := requests[id];
      var p := cfg[r.name];
      var remaining: int := p.limit - r.phase.count;
      if remaining < 0 {
        remaining := 0;
      }
      headers := Headers(p.limit, remaining, (r.bucket + 1) * p.window, None);
      if r.phase.count > p.limit {
        var retryAfter := p.window - now / MS % p.window;
        headers := headers.(retryAfter := Some(retryAfter));
        requests := requests[id := r.(phase := Refused(r.phase.count, retryAfter))];
      } else {
        requests := requests[id := r.(phase := Admitted(r.phase.count))];
      }
    }

    /** INCR, and EXPIRE when the count comes back as 1. */
    method Count(id: nat, expireFails: bool) returns (count: nat)
      requires Enabled(cfg, Abs(), IncrAnswered(id)) && requests[id].name in cfg
      modifies this`store, this`unheard, this`requests, this`lives, this`tally, this`landed
      ensures var r := old(requests[id]);
              store == old(store)[r.key := Entry(count, if count == 1 && !expireFails
                                                        then Some(now + cfg[r.name].window * 1000)
                                                        else TtlOf(old(store), now, r.key))]
      ensures Abs() == ExpiredOnce(cfg, Next(cfg, old(Abs()), IncrAnswered(id)), id, !expireFails)
      ensures id in requests && requests[id] == old(requests[id]).(phase := Deciding(count))
      ensures var key := old(requests[id].key);
              count == 1 + if Present(old(store), now, key) then old(store)[key].count else 0
    {
      count := SendIncr(id);
      if count == 1 {
        SendExpire(id, !expireFails);
      }
    }

    /** The rest of a request that read the clock in this bucket and whose INCR is answered. */
    method CountAndRespond(id: nat, expireFails: bool) returns (h: Headers)
      requires Enabled(cfg, Abs(), IncrAnswered(id)) && requests[id].name in cfg && cfg[requests[id].name].Valid()
      requires requests[id].bucket == BucketAt(cfg[requests[id].name], now)
      modifies this`store, this`unheard, this`requests, this`lives, this`tally, this`landed
      ensures var counted := ExpiredOnce(cfg, Next(cfg, old(Abs()), IncrAnswered(id)), id, !expireFails);
              && Enabled(cfg, counted, RateLimiter.Decide(id)) && Abs() == Next(cfg, counted, RateLimiter.Decide(id))
      ensures var r := old(requests[id]);
              var count := 1 + if Present(old(store), now, r.key) then old(store)[r.key].count else 0;
              && store == old(store)[r.key := Entry(count, if count == 1 && !expireFails
                                                           then Some(now + cfg[r.name].window * 1000)
                                                           else TtlOf(old(store), now, r.key))]
              && Reports(h, cfg[r.name], now, count - 1)
              && id in requests && requests[id].phase.Passed() == (count <= cfg[r.name].limit)
    {
      var count := Count(id, expireFails);
      h := Respond(id);
      ghost var r := old(requests[id]);
      HeadersReport(cfg[r.name], now, count - 1, h);
    }

    /** One request served without interleaving, in the order of the source. */
    method ServeHTTP(id: nat, name: string, ip: string, incrFails: bool, expireFails: bool)
      returns (passed: bool, headers: Option<Headers>)
      requires Enabled(cfg, Abs(), Arrive(id, name, ip))
      modifies this`store, this`unheard, this`requests, this`lives, this`tally, this`landed
      ensures var key := Key(name, ip, now / 1000 / cfg[name].window);
              var before := CountBefore(old(store), now, name, ip, cfg[name].window);
              store == if incrFails then old(store)
                       else old(store)[key := Entry(before + 1, if before == 0 && !expireFails
                                                                then Some(now + cfg[name].window * 1000)
                                                                else TtlOf(old(store), now, key))]
      ensures Abs() == Served(cfg, old(Abs()), id, name, ip, incrFails, expireFails)
      ensures id in requests && passed == requests[id].phase.Passed()
      ensures headers.None? <==> incrFails
      ensures headers.Some? ==> headers.value.retryAfter.Some? == !passed
      ensures passed <==> incrFails || CountBefore(old(store), now, name, ip, cfg[name].window) < cfg[name].limit
      ensures headers.Some? ==>
                Reports(headers.value, cfg[name], now, CountBefore(old(store), now, name, ip, cfg[name].window))
    {
      ReadClock(id, name, ip);
      if incrFails {
        FailIncr(id);
        return true, None;
      }
      var h := CountAndRespond(id, expireFails);
      passed, headers := h.retryAfter.None?, Some(h);
    }
  }

  function ExpiredOnce(cfg: Config, s: State, id: nat, ok: bool): State
    requires id in s.requests && s.requests[id].name in cfg
  {
    if s.requests[id].phase.Counted? then Next(cfg, s, ExpireSent(id, ok)) else s
  }

  function CountedBy(cfg: Config, s: State, id: nat, name: string, ip: string): State
    requires Enabled(cfg, s, Arrive(id, name, ip))
  {
    Next(cfg, Next(cfg, s, Arrive(id, name, ip)), IncrAnswered(id))
  }

  function WithTtl(cfg: Config, s: State, id: nat, name: string, ip: string, expireFails: bool): State
    requires Enabled(cfg, s, Arrive(id, name, ip))
  {
    ExpiredOnce(cfg, CountedBy(cfg, s, id, name, ip), id, !expireFails)
  }

  /** The state after one request served alone. */
  function Served(cfg: Config, s: State, id: nat, name: string, ip: string, incrFails: bool, expireFails: bool): State
    requires Enabled(cfg, s, Arrive(id, name, ip))
  {
    if incrFails then Next(cfg, Next(cfg, s, Arrive(id, name, ip)), IncrFailed(id))
    else Next(cfg, WithTtl(cfg, s, id, name, ip, expireFails), RateLimiter.Decide(id))
  }

  /** Serving a request alone is a run of the step machine, so it keeps what every run keeps. */
  lemma ServedReachable(
      cfg: Config, s: State, id: nat, name: string, ip: string, incrFails: bool, expireFails: bool)
    requires Reachable(cfg, s) && Enabled(cfg, s, Arrive(id, name, ip))
    ensures Reachable(cfg, Served(cfg, s, id, name, ip, incrFails, expireFails))
  {
    var s1 := Next(cfg, s, Arrive(id, name, ip));
    ReachStep(cfg, s, Arrive(id, name, ip));
    if incrFails {
      ReachStep(cfg, s1, IncrFailed(id));
    } else {
      ReachStep(cfg, s1, IncrAnswered(id));
      var s2 := CountedBy(cfg, s, id, name, ip);
      if s2.requests[id].phase.Counted? {
        ReachStep(cfg, s2, ExpireSent(id, !expireFails));
      }
      ReachStep(cfg, WithTtl(cfg, s, id, name, ip, expireFails), RateLimiter.Decide(id));
    }
  }

  /** A request served alone is passed exactly when its INCR fails or fewer than `limit` INCRs of its
      key came before it in the life of the key. */
  lemma ServedDecision(
      cfg: Config, s: State, id: nat, name: string, ip: string, incrFails: bool, expireFails: bool)
    requires Enabled(cfg, s, Arrive(id, name, ip))
    ensures var t := Served(cfg, s, id, name, ip, incrFails, expireFails);
            var key := Key(name, ip, BucketAt(cfg[name], s.now));
            var before := if Present(s.store, s.now, key) then s.store[key].count else 0;
            && (t.requests[id].phase.Passed() <==> incrFails || before < cfg[name].limit)
            && (incrFails ==> t.store == s.store)
            && (!incrFails ==> Present(t.store, t.now, key) && t.store[key].count == before + 1)
  {
    if !incrFails {
      var t := WithTtl(cfg, s, id, name, ip, expireFails);
      var key := Key(name, ip, BucketAt(cfg[name], s.now));
      assert Present(CountedBy(cfg, s, id, name, ip).store, s.now, key);
      assert cfg[name].window * MS > 0;
      assert Present(t.store, s.now, key);
    }
  }
}
