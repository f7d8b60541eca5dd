/** The token-bucket rate limiter (internal/api/middleware.go).

    Times are integer nanoseconds, tokens are reals. A limiter's whole state is `Limits`; the class
    keeps it in fields the way the source does and each method is proved against a function of it. */
module Limiter {
  import opened Common

  const SWEEP_EVERY: int := 300 * SECOND

  type Key = string

  datatype Bucket = Bucket(tokens: real, updated: int)

  // What newRateLimiter fixes: a rate in tokens per second and a burst.
  datatype Config = Config(perSec: real, burst: real) {
    ghost predicate Ok() {
      perSec > 0.0 && burst > 0.0
    }

    // Tokens earned over `dt` nanoseconds.
    function Earned(dt: int): real {
      dt as real / SECOND as real * perSec
    }

    // The idle time after which a bucket is full whatever it held, truncated to whole nanoseconds.
    function RefillTime(): int
      requires perSec > 0.0
    {
      (burst / perSec * SECOND as real).Floor
    }

    // The tokens a bucket holds when it is next looked at.
    function Refilled(b: Bucket, now: int): real {
      var t := b.tokens + Earned(now - b.updated);
      if t <= burst then t else burst
    }
  }

  datatype Limits = Limits(buckets: map<Key, Bucket>, sweepAt: int)

  function NewConfig(perMin: int, burst: int): Config {
    var b := if burst <= 0 then perMin else burst;
    Config(perMin as real / 60.0, b as real)
  }

  // A bucket that has been idle for longer than the refill time.
  predicate Idle(cfg: Config, b: Bucket, now: int)
    requires cfg.Ok()
  {
    now - b.updated > cfg.RefillTime()
  }

  function Swept(cfg: Config, m: map<Key, Bucket>, now: int): map<Key, Bucket>
    requires cfg.Ok()
  {
    map k | k in m && !Idle(cfg, m[k], now) :: m[k]
  }

  function MaybeSwept(cfg: Config, s: Limits, now: int): Limits
    requires cfg.Ok()
  {
    if now > s.sweepAt then Limits(Swept(cfg, s.buckets, now), now + SWEEP_EVERY) else s
  }

  // Spend from one client's bucket, refilled first; a client without one starts full.
  function Spend(cfg: Config, m: map<Key, Bucket>, key: Key, cost: real, now: int): (map<Key, Bucket>, bool) {
    var tokens := if key in m then cfg.Refilled(m[key], now) else cfg.burst;
    if tokens < cost then (m[key := Bucket(tokens, now)], false)
    else (m[key := Bucket(tokens - cost, now)], true)
  }

  class RateLimiter {
    const cfg: Config
    var buckets: map<Key, Bucket>
    var sweepAt: int

    ghost function State(): Limits
      reads this
    {
      Limits(buckets, sweepAt)
    }

    constructor (perMin: int, burst: int)
      requires perMin > 0
      ensures cfg == NewConfig(perMin, burst) && cfg.Ok()
      ensures State() == Limits(map[], 0)
    {
      cfg := NewConfig(perMin, burst);
      buckets := map[];
      sweepAt := 0;
    }

    method Sweep(now: int)
      requires cfg.Ok()
      modifies this`buckets
      ensures buckets == Swept(cfg, old(buckets), now)
    {
      var refillTime := cfg.RefillTime();
      var todo := buckets.Keys;
      while todo != {}
        invariant todo <= buckets.Keys <= old(buckets).Keys
        invariant forall k :: k in buckets ==> buckets[k] == old(buckets)[k]
        invariant forall k :: k in old(buckets) && k !in todo ==> (k in buckets <==> !Idle(cfg, old(buckets)[k], now))
        decreases todo
      {
        var key :| key in todo;
        if now - buckets[key].updated > refillTime {
          buckets := buckets - {key};
        }
        todo := todo - {key};
      }
    }

    method Allow(key: Key, cost: real, now: int) returns (ok: bool)
      requires cfg.Ok()
      modifies this
      ensures ok == Spend(cfg, MaybeSwept(cfg, old(State()), now).buckets, key, cost, now).1
      ensures State() == var s := MaybeSwept(cfg, old(State()), now);
                         s.(buckets := Spend(cfg, s.buckets, key, cost, now).0)
    {
      if now > sweepAt {
        Sweep(now);
        sweepAt := now + SWEEP_EVERY;
      }
      var b;
      if key !in buckets {
        b := Bucket(cfg.burst, now);
      } else {
        b := Bucket(cfg.Refilled(buckets[key], now), now);
      }
      if b.tokens < cost {
        buckets := buckets[key := b];
        return false;
      }
      buckets := buckets[key := b.(tokens := b.tokens - cost)];
      return true;
    }
  }

  // ---------- runs ----------

  datatype Request = Request(key: Key, cost: real, now: int)

  ghost predicate Ordered(reqs: seq<Request>) {
    forall i, j :: 0 <= i < j < |reqs| ==> reqs[i].now <= reqs[j].now
  }

  ghost predicate Costs(reqs: seq<Request>) {
    forall r :: r in reqs ==> r.cost >= 0.0
  }

  // The limiter's state after a run, and its decision on each request.
  ghost function Run(cfg: Config, reqs: seq<Request>): (r: (Limits, seq<bool>))
    requires cfg.Ok()
    ensures |r.1| == |reqs|
  {
    if reqs == [] then (Limits(map[], 0), [])
    else
      var r := reqs[|reqs| - 1];
      var (s, out) := Run(cfg, reqs[..|reqs| - 1]);
      var s' := MaybeSwept(cfg, s, r.now);
      var (m, ok) := Spend(cfg, s'.buckets, r.key, r.cost, r.now);
      (s'.(buckets := m), out + [ok])
  }

  // The same limiter, never sweeping.
  ghost function RunUnswept(cfg: Config, reqs: seq<Request>): (r: (map<Key, Bucket>, seq<bool>))
    requires cfg.Ok()
    ensures |r.1| == |reqs|
  {
    if reqs == [] then (map[], [])
    else
      var r := reqs[|reqs| - 1];
      var (m, out) := RunUnswept(cfg, reqs[..|reqs| - 1]);
      var (m', ok) := Spend(cfg, m, r.key, r.cost, r.now);
      (m', out + [ok])
  }

  // What `key` could spend at time `now`: a missing bucket is a full one.
  ghost function Available(cfg: Config, m: map<Key, Bucket>, key: Key, now: int): real {
    if key in m then cfg.Refilled(m[key], now) else cfg.burst
  }

  // Every bucket holds between nothing and the burst, and none is from the future.
  ghost predicate Sane(cfg: Config, m: map<Key, Bucket>, now: int) {
    forall k :: k in m ==> 0.0 <= m[k].tokens <= cfg.burst && m[k].updated <= now
  }

  lemma EarnedMonotone(cfg: Config, a: int, b: int)
    requires cfg.Ok() && a <= b
    ensures cfg.Earned(a) <= cfg.Earned(b) && cfg.Earned(b) - cfg.Earned(a) == cfg.Earned(b - a)
    ensures cfg.Earned(0) == 0.0 <= cfg.Earned(b - a)
  {
    var x, y, s := a as real / SECOND as real, b as real / SECOND as real, (b - a) as real / SECOND as real;
    assert y - x == s;
    assert y * cfg.perSec - x * cfg.perSec == s * cfg.perSec;
  }

  lemma MoreEarnsMore(x: real, y: real, rate: real)
    requires x < y && rate > 0.0
    ensures x * rate < y * rate
  {
    var d := y - x;
    assert d * rate > 0.0;
    assert y * rate == (x + d) * rate == x * rate + d * rate;
  }

  // The truncation of the refill time is harmless: strictly longer idle means full.
  lemma IdleIsFull(cfg: Config, b: Bucket, now: int)
    requires cfg.Ok() && b.tokens >= 0.0 && Idle(cfg, b, now)
    ensures cfg.Refilled(b, now) == cfg.burst
  {
    EarnsTheBurst(cfg, now - b.updated);
  }

  // Strictly more than the truncated refill time earns more than the burst.
  lemma EarnsTheBurst(cfg: Config, n: int)
    requires cfg.Ok() && n > cfg.RefillTime()
    ensures cfg.Earned(n) > cfg.burst
  {
    var full, seconds := cfg.burst / cfg.perSec, n as real / SECOND as real;
    assert n as real > full * SECOND as real;
    assert seconds > full;
    MoreEarnsMore(full, seconds, cfg.perSec);
    DivMul(cfg.burst, cfg.perSec);
  }

  lemma DivMul(x: real, rate: real)
    requires rate > 0.0
    ensures x / rate * rate == x
  {
  }

  // Sweeping never changes what anyone can spend, now or later.
  lemma SweepInvisible(cfg: Config, m: map<Key, Bucket>, now: int, key: Key, later: int)
    requires cfg.Ok() && Sane(cfg, m, now) && now <= later
    ensures Available(cfg, Swept(cfg, m, now), key, later) == Available(cfg, m, key, later)
  {
    if key in m && Idle(cfg, m[key], now) {
      assert Idle(cfg, m[key], later);
      IdleIsFull(cfg, m[key], later);
    }
  }

  // What a spend leaves: the spender pays exactly what was admitted, nobody else is touched.
  lemma SpendLedger(cfg: Config, m: map<Key, Bucket>, r: Request, key: Key, later: int)
    requires cfg.Ok() && Sane(cfg, m, r.now) && r.cost >= 0.0 && r.now <= later
    ensures var (m', ok) := Spend(cfg, m, r.key, r.cost, r.now);
            && Sane(cfg, m', later)
            && (key != r.key ==> Available(cfg, m', key, later) == Available(cfg, m, key, later))
            && (key == r.key ==> ok == (Available(cfg, m, key, r.now) >= r.cost))
            && Available(cfg, m', key, r.now)
               == Available(cfg, m, key, r.now) - (if key == r.key && ok then r.cost else 0.0)
  {
    assert cfg.Earned(0) == 0.0 by { EarnedMonotone(cfg, 0, 0); }
    if r.key in m {
      EarnedMonotone(cfg, 0, r.now - m[r.key].updated);
    }
  }

  // Refilling in two looks is refilling in one.
  lemma AvailableGrows(cfg: Config, m: map<Key, Bucket>, key: Key, a: int, b: int)
    requires cfg.Ok() && Sane(cfg, m, a) && a <= b
    ensures Available(cfg, m, key, a) <= Available(cfg, m, key, b)
         <= Available(cfg, m, key, a) + cfg.Earned(b - a)
    ensures 0.0 <= Available(cfg, m, key, a) <= cfg.burst
  {
    EarnedMonotone(cfg, a, b);
    if key in m {
      EarnedMonotone(cfg, a - m[key].updated, b - m[key].updated);
      EarnedMonotone(cfg, 0, a - m[key].updated);
    }
  }

  // In every run of a nondecreasing clock the limiter decides exactly as one that never sweeps.
  lemma {:induction false} SweepNeverChangesADecision(cfg: Config, reqs: seq<Request>)
    requires cfg.Ok() && Ordered(reqs) && Costs(reqs)
    ensures Run(cfg, reqs).1 == RunUnswept(cfg, reqs).1
    ensures forall now :: AtOrAfter(reqs, now) ==>
              SameToAll(cfg, Run(cfg, reqs).0.buckets, RunUnswept(cfg, reqs).0, now)
  {
    if reqs != [] {
      var before, r := reqs[..|reqs| - 1], reqs[|reqs| - 1];
      SweepNeverChangesADecision(cfg, before);
      var (s, m) := (Run(cfg, before).0, RunUnswept(cfg, before).0);
      assert AtOrAfter(before, r.now);
      assert SameToAll(cfg, s.buckets, m, r.now);
      forall now | AtOrAfter(reqs, now)
        ensures SameToAll(cfg, Run(cfg, reqs).0.buckets, RunUnswept(cfg, reqs).0, now)
      {
        SpendSame(cfg, s, m, r, now);
      }
      SpendSame(cfg, s, m, r, r.now);
    }
  }

  ghost predicate AtOrAfter(reqs: seq<Request>, now: int) {
    forall r :: r in reqs ==> r.now <= now
  }

  // Two sane bucket maps that nobody can tell apart from `now` on.
  ghost predicate SameToAll(cfg: Config, a: map<Key, Bucket>, b: map<Key, Bucket>, now: int) {
    && Sane(cfg, a, now) && Sane(cfg, b, now)
    && forall key, later :: now <= later ==> Available(cfg, a, key, later) == Available(cfg, b, key, later)
  }

  lemma SpendSame(cfg: Config, s: Limits, m: map<Key, Bucket>, r: Request, now: int)
    requires cfg.Ok() && r.cost >= 0.0 && r.now <= now
    requires SameToAll(cfg, s.buckets, m, r.now)
    ensures var s' := MaybeSwept(cfg, s, r.now).buckets;
            && Spend(cfg, s', r.key, r.cost, r.now).1 == Spend(cfg, m, r.key, r.cost, r.now).1
            && SameToAll(cfg, Spend(cfg, s', r.key, r.cost, r.now).0, Spend(cfg, m, r.key, r.cost, r.now).0, now)
  {
    var s' := MaybeSwept(cfg, s, r.now).buckets;
    forall key, later | r.now <= later
      ensures Available(cfg, s', key, later) == Available(cfg, m, key, later)
    {
      SweepInvisible(cfg, s.buckets, r.now, key, later);
    }
    forall key, later | now <= later
      ensures Available(cfg, Spend(cfg, s', r.key, r.cost, r.now).0, key, later)
           == Available(cfg, Spend(cfg, m, r.key, r.cost, r.now).0, key, later)
    {
      SpendLedger(cfg, s', r, key, later);
      SpendLedger(cfg, m, r, key, later);
    }
    SpendLedger(cfg, s', r, r.key, now);
    SpendLedger(cfg, m, r, r.key, now);
  }

  ghost function Own(reqs: seq<Request>, key: Key): seq<Request> {
    if reqs == [] then []
    else if reqs[|reqs| - 1].key == key then Own(reqs[..|reqs| - 1], key) + [reqs[|reqs| - 1]]
    else Own(reqs[..|reqs| - 1], key)
  }

  ghost predicate SameBucket(a: map<Key, Bucket>, b: map<Key, Bucket>, key: Key) {
    if key in a then key in b && a[key] == b[key] else key !in b
  }

  lemma SpendOwn(cfg: Config, a: map<Key, Bucket>, b: map<Key, Bucket>, r: Request, key: Key)
    requires SameBucket(a, b, key)
    ensures r.key != key ==> SameBucket(Spend(cfg, a, r.key, r.cost, r.now).0, b, key)
    ensures r.key == key ==>
              && Spend(cfg, a, key, r.cost, r.now).1 == Spend(cfg, b, key, r.cost, r.now).1
              && SameBucket(Spend(cfg, a, key, r.cost, r.now).0, Spend(cfg, b, key, r.cost, r.now).0, key)
  {
  }

  lemma {:induction false} OwnBucket(cfg: Config, reqs: seq<Request>, key: Key)
    requires cfg.Ok()
    ensures SameBucket(RunUnswept(cfg, reqs).0, RunUnswept(cfg, Own(reqs, key)).0, key)
  {
    if reqs != [] {
      var before, r, own := reqs[..|reqs| - 1], reqs[|reqs| - 1], Own(reqs, key);
      OwnBucket(cfg, before, key);
      SpendOwn(cfg, RunUnswept(cfg, before).0, RunUnswept(cfg, Own(before, key)).0, r, key);
      if r.key == key {
        assert own[..|own| - 1] == Own(before, key);
      }
    }
  }

  // Clients are isolated: the decision on a request follows from that client's own requests alone,
  // whatever the others do and whenever sweeps happen.
  lemma OwnHistoryDecides(cfg: Config, reqs: seq<Request>)
    requires cfg.Ok() && Ordered(reqs) && Costs(reqs) && reqs != []
    ensures var own := Own(reqs, reqs[|reqs| - 1].key);
            own != [] && Run(cfg, reqs).1[|reqs| - 1] == RunUnswept(cfg, own).1[|own| - 1]
  {
    var before, key := reqs[..|reqs| - 1], reqs[|reqs| - 1].key;
    OwnBucket(cfg, before, key);
    SpendOwn(cfg, RunUnswept(cfg, before).0, RunUnswept(cfg, Own(before, key)).0, reqs[|reqs| - 1], key);
    SweepNeverChangesADecision(cfg, reqs);
    assert Own(reqs, key)[..|Own(reqs, key)| - 1] == Own(before, key);
  }

  // The total cost admitted to `key` at times from `t` to `t'`.
  ghost function Admitted(cfg: Config, reqs: seq<Request>, key: Key, t: int, t': int): real
    requires cfg.Ok()
  {
    if reqs == [] then 0.0
    else
      var r := reqs[|reqs| - 1];
      Admitted(cfg, reqs[..|reqs| - 1], key, t, t')
      + if r.key == key && t <= r.now <= t' && Run(cfg, reqs).1[|reqs| - 1] then r.cost else 0.0
  }

  // No client is ever admitted more than the burst plus what the rate earns, over any interval at all.
  lemma {:induction false} AdmissionBound(cfg: Config, reqs: seq<Request>, key: Key, t: int, t': int)
    requires cfg.Ok() && Ordered(reqs) && Costs(reqs) && t <= t'
    ensures Admitted(cfg, reqs, key, t, t') <= cfg.burst + cfg.Earned(t' - t)
  {
    EarnedMonotone(cfg, 0, t' - t);
    if reqs != [] {
      var before, r := reqs[..|reqs| - 1], reqs[|reqs| - 1];
      if t <= r.now <= t' {
        Ledger(cfg, reqs, key, t, t');
        RunSane(cfg, reqs, r.now);
        AvailableGrows(cfg, Run(cfg, reqs).0.buckets, key, r.now, r.now);
        EarnedMonotone(cfg, r.now - t, t' - t);
      } else {
        AdmissionBound(cfg, before, key, t, t');
      }
    }
  }

  // What `key` was admitted from `t` on, plus what it can still spend now.
  ghost function Account(cfg: Config, reqs: seq<Request>, key: Key, t: int, t': int): real
    requires cfg.Ok() && reqs != []
  {
    Admitted(cfg, reqs, key, t, t') + Available(cfg, Run(cfg, reqs).0.buckets, key, reqs[|reqs| - 1].now)
  }

  // The account never exceeds the burst plus what time has earned.
  lemma {:induction false} Ledger(cfg: Config, reqs: seq<Request>, key: Key, t: int, t': int)
    requires cfg.Ok() && Ordered(reqs) && Costs(reqs)
    requires reqs != [] && t <= reqs[|reqs| - 1].now <= t'
    ensures Account(cfg, reqs, key, t, t') <= cfg.burst + cfg.Earned(reqs[|reqs| - 1].now - t)
  {
    var before, now := reqs[..|reqs| - 1], reqs[|reqs| - 1].now;
    AccountStep(cfg, reqs, key, t, t');
    EarlierOnes(reqs);
    if before != [] && t <= before[|before| - 1].now {
      var last := before[|before| - 1].now;
      Ledger(cfg, before, key, t, t');
      EarnedMonotone(cfg, last - t, now - t);
      assert now - t - (last - t) == now - last;
    } else {
      NoneBefore(cfg, before, key, t, t');
      EarnedMonotone(cfg, 0, now - t);
    }
  }

  lemma EarlierOnes(reqs: seq<Request>)
    requires Ordered(reqs) && Costs(reqs) && reqs != []
    ensures var before := reqs[..|reqs| - 1];
            && Ordered(before) && Costs(before)
            && (before != [] ==> before[|before| - 1].now <= reqs[|reqs| - 1].now)
            && forall r :: r in before && before != [] ==> r.now <= before[|before| - 1].now
  {
  }

  // Whatever a request is admitted comes out of what was available before it.
  lemma AccountIs(cfg: Config, reqs: seq<Request>, key: Key, t: int, t': int)
    requires cfg.Ok() && Ordered(reqs) && Costs(reqs)
    requires reqs != [] && t <= reqs[|reqs| - 1].now <= t'
    ensures var before, now := reqs[..|reqs| - 1], reqs[|reqs| - 1].now;
            Account(cfg, reqs, key, t, t') ==
            Admitted(cfg, before, key, t, t') + Available(cfg, Run(cfg, before).0.buckets, key, now)
  {
    var before, r := reqs[..|reqs| - 1], reqs[|reqs| - 1];
    RunSane(cfg, before, r.now);
    Paid(cfg, Run(cfg, before).0, r, key);
  }

  // One request adds to the account no more than the time since the last one earns.
  lemma AccountStep(cfg: Config, reqs: seq<Request>, key: Key, t: int, t': int)
    requires cfg.Ok() && Ordered(reqs) && Costs(reqs)
    requires reqs != [] && t <= reqs[|reqs| - 1].now <= t'
    ensures var before, now := reqs[..|reqs| - 1], reqs[|reqs| - 1].now;
            && Account(cfg, reqs, key, t, t') <= Admitted(cfg, before, key, t, t') + cfg.burst
            && (before != [] ==>
                  Account(cfg, reqs, key, t, t')
                  <= Account(cfg, before, key, t, t') + cfg.Earned(now - before[|before| - 1].now))
  {
    var before, now := reqs[..|reqs| - 1], reqs[|reqs| - 1].now;
    EarlierOnes(reqs);
    AccountIs(cfg, reqs, key, t, t');
    AvailableAtMost(cfg, before, key, now);
    if before != [] {
      AvailableSince(cfg, before, key, now);
    }
  }

  lemma AvailableAtMost(cfg: Config, reqs: seq<Request>, key: Key, now: int)
    requires cfg.Ok() && Ordered(reqs) && Costs(reqs) && AtOrAfter(reqs, now)
    ensures Available(cfg, Run(cfg, reqs).0.buckets, key, now) <= cfg.burst
  {
    RunSane(cfg, reqs, now);
    AvailableGrows(cfg, Run(cfg, reqs).0.buckets, key, now, now);
  }

  lemma AvailableSince(cfg: Config, reqs: seq<Request>, key: Key, now: int)
    requires cfg.Ok() && Ordered(reqs) && Costs(reqs) && AtOrAfter(reqs, now) && reqs != []
    ensures var (m, last) := (Run(cfg, reqs).0.buckets, reqs[|reqs| - 1].now);
            Available(cfg, m, key, now) <= Available(cfg, m, key, last) + cfg.Earned(now - last)
  {
    var last := reqs[|reqs| - 1].now;
    assert reqs[|reqs| - 1] in reqs && AtOrAfter(reqs, last);
    RunSane(cfg, reqs, last);
    AvailableGrows(cfg, Run(cfg, reqs).0.buckets, key, last, now);
  }

  lemma RunSane(cfg: Config, reqs: seq<Request>, now: int)
    requires cfg.Ok() && Ordered(reqs) && Costs(reqs) && AtOrAfter(reqs, now)
    ensures Sane(cfg, Run(cfg, reqs).0.buckets, now)
  {
    SweepNeverChangesADecision(cfg, reqs);
    assert SameToAll(cfg, Run(cfg, reqs).0.buckets, RunUnswept(cfg, reqs).0, now);
  }

  // One step, sweep included: what `key` can still spend drops by exactly what it was just admitted.
  lemma Paid(cfg: Config, s: Limits, r: Request, key: Key)
    requires cfg.Ok() && Sane(cfg, s.buckets, r.now) && r.cost >= 0.0
    ensures var (m, ok) := Spend(cfg, MaybeSwept(cfg, s, r.now).buckets, r.key, r.cost, r.now);
            Available(cfg, m, key, r.now) + (if key == r.key && ok then r.cost else 0.0)
            == Available(cfg, s.buckets, key, r.now)
  {
    SweepInvisible(cfg, s.buckets, r.now, key, r.now);
    SpendLedger(cfg, MaybeSwept(cfg, s, r.now).buckets, r, key, r.now);
  }

  lemma {:induction false} NoneBefore(cfg: Config, reqs: seq<Request>, key: Key, t: int, t': int)
    requires cfg.Ok() && forall r :: r in reqs ==> r.now < t
    ensures Admitted(cfg, reqs, key, t, t') == 0.0
  {
    if reqs != [] {
      NoneBefore(cfg, reqs[..|reqs| - 1], key, t, t');
    }
  }

  // ---------- memory ----------

  // The next sweep is due, and no bucket will be older by then than the refill time and one interval.
  ghost predicate Tidy(cfg: Config, s: Limits, now: int)
    requires cfg.Ok()
  {
    && now <= s.sweepAt <= now + SWEEP_EVERY
    && forall k :: k in s.buckets ==> s.sweepAt - s.buckets[k].updated <= cfg.RefillTime() + SWEEP_EVERY
  }

  // Each bucket dates from a request of its client.
  ghost predicate FromRequests(s: Limits, reqs: seq<Request>) {
    forall k :: k in s.buckets ==> exists r :: r in reqs && r.key == k && r.now == s.buckets[k].updated
  }

  lemma {:induction false} RunTidy(cfg: Config, reqs: seq<Request>)
    requires cfg.Ok() && Ordered(reqs) && reqs != [] && reqs[0].now > 0
    ensures Tidy(cfg, Run(cfg, reqs).0, reqs[|reqs| - 1].now)
  {
    assert cfg.burst / cfg.perSec * SECOND as real >= 0.0;
    var before := reqs[..|reqs| - 1];
    if before == [] {
      assert Run(cfg, before) == (Limits(map[], 0), []);
    } else {
      RunTidy(cfg, before);
    }
  }

  lemma {:induction false} RunFromRequests(cfg: Config, reqs: seq<Request>)
    requires cfg.Ok()
    ensures FromRequests(Run(cfg, reqs).0, reqs)
  {
    if reqs != [] {
      var before, r := reqs[..|reqs| - 1], reqs[|reqs| - 1];
      RunFromRequests(cfg, before);
      assert reqs == before + [r];
      assert r in reqs && forall x :: x in before ==> x in reqs;
    }
  }

  // The clients heard from since `since`.
  ghost function Callers(reqs: seq<Request>, since: int): set<Key> {
    set r | r in reqs && r.now >= since :: r.key
  }

  // After every request the limiter has buckets only for clients heard from within the refill time and one
  // sweep interval, however many others it has ever served.
  lemma MemoryIsBounded(cfg: Config, reqs: seq<Request>)
    requires cfg.Ok() && Ordered(reqs) && reqs != [] && reqs[0].now > 0
    ensures var recent := Callers(reqs, reqs[|reqs| - 1].now - cfg.RefillTime() - SWEEP_EVERY);
            Run(cfg, reqs).0.buckets.Keys <= recent && |Run(cfg, reqs).0.buckets| <= |recent|
  {
    var s, recent := Run(cfg, reqs).0, Callers(reqs, reqs[|reqs| - 1].now - cfg.RefillTime() - SWEEP_EVERY);
    RunTidy(cfg, reqs);
    RunFromRequests(cfg, reqs);
    forall k | k in s.buckets ensures k in recent {
      var r :| r in reqs && r.key == k && r.now == s.buckets[k].updated;
    }
    SubsetSize(s.buckets.Keys, recent);
  }

  // ---------- exactly what is admitted ----------

  // The cost admitted to `key` by the requests from the `i`-th on.
  ghost function AdmittedFrom(cfg: Config, reqs: seq<Request>, key: Key, i: nat): real
    requires cfg.Ok()
  {
    if |reqs| <= i then 0.0
    else
      var r := reqs[|reqs| - 1];
      AdmittedFrom(cfg, reqs[..|reqs| - 1], key, i)
      + if r.key == key && Run(cfg, reqs).1[|reqs| - 1] then r.cost else 0.0
  }

  // What is left of the burst and of `dt` nanoseconds of earning once `spent` is taken.
  ghost function LeftOf(cfg: Config, dt: int, spent: real): real {
    cfg.burst + cfg.perSec * (dt as real / 1_000_000_000.0) - spent
  }

  // What the `i`-th request and everything after it leave of the burst and of the time since.
  ghost function Room(cfg: Config, reqs: seq<Request>, key: Key, i: nat, now: int): real
    requires cfg.Ok() && i < |reqs|
  {
    LeftOf(cfg, now - reqs[i].now, AdmittedFrom(cfg, reqs, key, i))
  }

  lemma EarnedIs(cfg: Config, dt: int)
    ensures cfg.Earned(dt) == cfg.perSec * (dt as real / 1_000_000_000.0)
  {
  }

  // What `tokens` become in `dt` nanoseconds.
  ghost function Grown(cfg: Config, tokens: real, dt: int): real {
    var later := tokens + cfg.Earned(dt);
    if later <= cfg.burst then later else cfg.burst
  }

  lemma GrowsExactly(cfg: Config, m: map<Key, Bucket>, key: Key, a: int, b: int)
    requires cfg.Ok() && Sane(cfg, m, a) && a <= b
    ensures Available(cfg, m, key, b) == Grown(cfg, Available(cfg, m, key, a), b - a)
  {
    EarnedMonotone(cfg, a, b);
    if key in m {
      EarnedMonotone(cfg, a - m[key].updated, b - m[key].updated);
      EarnedMonotone(cfg, 0, a - m[key].updated);
    }
  }

  ghost predicate IsRoom(cfg: Config, reqs: seq<Request>, key: Key, now: int, a: real)
    requires cfg.Ok()
  {
    && a <= cfg.burst
    && (forall i :: 0 <= i < |reqs| ==> a <= Room(cfg, reqs, key, i, now))
    && (a == cfg.burst || exists i :: 0 <= i < |reqs| && a == Room(cfg, reqs, key, i, now))
  }

  lemma LeftLater(cfg: Config, a: int, b: int, spent: real, paid: real)
    ensures LeftOf(cfg, a + b, spent + paid) == LeftOf(cfg, a, spent) - paid + cfg.Earned(b)
  {
    EarnedIs(cfg, a);
    EarnedIs(cfg, b);
    EarnedIs(cfg, a + b);
    Adds(cfg, a, b);
  }

  // One request: the room left by every earlier stretch shrinks by what is paid and grows with time.
  lemma RoomNext(cfg: Config, before: seq<Request>, r: Request, key: Key, i: nat, now: int, paid: real)
    requires cfg.Ok() && i < |before|
    requires AdmittedFrom(cfg, before + [r], key, i) == AdmittedFrom(cfg, before, key, i) + paid
    ensures Room(cfg, before + [r], key, i, now)
         == Room(cfg, before, key, i, r.now) - paid + cfg.Earned(now - r.now)
  {
    var a, b := r.now - before[i].now, now - r.now;
    assert (before + [r])[i] == before[i] && a + b == now - before[i].now;
    LeftLater(cfg, a, b, AdmittedFrom(cfg, before, key, i), paid);
  }

  // The stretch that begins with the request itself.
  lemma RoomOfLast(cfg: Config, before: seq<Request>, r: Request, key: Key, now: int, paid: real)
    requires cfg.Ok() && AdmittedFrom(cfg, before + [r], key, |before|) == paid
    ensures Room(cfg, before + [r], key, |before|, now) == cfg.burst - paid + cfg.Earned(now - r.now)
  {
    EarnedIs(cfg, now - r.now);
  }

  lemma AdmittedNext(cfg: Config, before: seq<Request>, r: Request, key: Key, i: nat)
    requires cfg.Ok() && i <= |before|
    ensures AdmittedFrom(cfg, before + [r], key, i)
         == (if i < |before| then AdmittedFrom(cfg, before, key, i) else 0.0)
            + if r.key == key && Run(cfg, before + [r]).1[|before|] then r.cost else 0.0
  {
    assert (before + [r])[..|before|] == before;
  }

  lemma Adds(cfg: Config, a: int, b: int)
    ensures cfg.Earned(a + b) == cfg.Earned(a) + cfg.Earned(b)
  {
    var x, y := a as real / SECOND as real, b as real / SECOND as real;
    assert (a + b) as real / SECOND as real == x + y;
    assert (x + y) * cfg.perSec == x * cfg.perSec + y * cfg.perSec;
  }

  // Whatever the request pays is added to every stretch.
  ghost predicate Pays(cfg: Config, before: seq<Request>, r: Request, key: Key, paid: real)
    requires cfg.Ok()
  {
    && (forall i :: 0 <= i < |before| ==>
          AdmittedFrom(cfg, before + [r], key, i) == AdmittedFrom(cfg, before, key, i) + paid)
    && AdmittedFrom(cfg, before + [r], key, |before|) == paid
  }

  lemma PaysIs(cfg: Config, before: seq<Request>, r: Request, key: Key)
    requires cfg.Ok()
    ensures Pays(cfg, before, r, key, if r.key == key && Run(cfg, before + [r]).1[|before|] then r.cost else 0.0)
  {
    forall i: nat | i <= |before| {
      AdmittedNext(cfg, before, r, key, i);
    }
  }

  lemma RoomStep(cfg: Config, before: seq<Request>, r: Request, key: Key, now: int, a: real, paid: real, a': real)
    requires cfg.Ok() && r.now <= now && paid >= 0.0 && IsRoom(cfg, before, key, r.now, a)
    requires Pays(cfg, before, r, key, paid)
    requires a' == Grown(cfg, a - paid, now - r.now)
    ensures IsRoom(cfg, before + [r], key, now, a')
  {
    var reqs := before + [r];
    forall i | 0 <= i < |reqs| ensures a' <= Room(cfg, reqs, key, i, now) {
      if i < |before| {
        RoomNext(cfg, before, r, key, i, now, paid);
      } else {
        RoomOfLast(cfg, before, r, key, now, paid);
      }
    }
    if a' != cfg.burst {
      if a == cfg.burst {
        RoomOfLast(cfg, before, r, key, now, paid);
        assert a' == Room(cfg, reqs, key, |before|, now);
      } else {
        var i :| 0 <= i < |before| && a == Room(cfg, before, key, i, r.now);
        RoomNext(cfg, before, r, key, i, now, paid);
        assert a' == Room(cfg, reqs, key, i, now);
      }
    }
  }

  // The same for buckets before and after.
  lemma BucketsStep(cfg: Config, before: seq<Request>, r: Request, key: Key, now: int, paid: real,
                    m: map<Key, Bucket>, m': map<Key, Bucket>)
    requires cfg.Ok() && r.now <= now && paid >= 0.0 && Pays(cfg, before, r, key, paid)
    requires IsRoom(cfg, before, key, r.now, Available(cfg, m, key, r.now)) && Sane(cfg, m', r.now)
    requires Available(cfg, m', key, r.now) == Available(cfg, m, key, r.now) - paid
    ensures IsRoom(cfg, before + [r], key, now, Available(cfg, m', key, now))
  {
    GrowsExactly(cfg, m', key, r.now, now);
    RoomStep(cfg, before, r, key, now, Available(cfg, m, key, r.now), paid, Available(cfg, m', key, now));
  }

  lemma AvailableStep(cfg: Config, before: seq<Request>, r: Request, key: Key, now: int)
    requires cfg.Ok() && Ordered(before + [r]) && Costs(before + [r]) && r.now <= now
    requires IsRoom(cfg, before, key, r.now, Available(cfg, Run(cfg, before).0.buckets, key, r.now))
    ensures IsRoom(cfg, before + [r], key, now, Available(cfg, Run(cfg, before + [r]).0.buckets, key, now))
  {
    var paid := if r.key == key && Run(cfg, before + [r]).1[|before|] then r.cost else 0.0;
    Earlier(before, r);
    PaysIs(cfg, before, r, key);
    PaidHere(cfg, before, r, key);
    BucketsStep(cfg, before, r, key, now, paid, Run(cfg, before).0.buckets, Run(cfg, before + [r]).0.buckets);
  }

  // What a request pays comes out of what was available before it.
  lemma PaidHere(cfg: Config, before: seq<Request>, r: Request, key: Key)
    requires cfg.Ok() && Ordered(before + [r]) && Costs(before + [r])
    ensures var (s, reqs) := (Run(cfg, before).0, before + [r]);
            && Sane(cfg, Run(cfg, reqs).0.buckets, r.now)
            && Available(cfg, Run(cfg, reqs).0.buckets, key, r.now)
               == Available(cfg, s.buckets, key, r.now)
                  - if r.key == key && Run(cfg, reqs).1[|before|] then r.cost else 0.0
  {
    assert (before + [r])[..|before|] == before;
    Earlier(before, r);
    RunSane(cfg, before, r.now);
    RunSane(cfg, before + [r], r.now);
    Paid(cfg, Run(cfg, before).0, r, key);
  }

  // What a client can spend is exactly what the tightest stretch of its past leaves it.
  lemma {:induction false} AvailableIsRoom(cfg: Config, reqs: seq<Request>, key: Key, now: int)
    requires cfg.Ok() && Ordered(reqs) && Costs(reqs) && AtOrAfter(reqs, now)
    ensures IsRoom(cfg, reqs, key, now, Available(cfg, Run(cfg, reqs).0.buckets, key, now))
  {
    if reqs != [] {
      var before, r := reqs[..|reqs| - 1], reqs[|reqs| - 1];
      assert reqs == before + [r] && r in reqs;
      Earlier(before, r);
      AvailableIsRoom(cfg, before, key, r.now);
      AvailableStep(cfg, before, r, key, now);
    }
  }

  // A request is admitted if and only if its client can spend its cost.
  lemma DecidedBy(cfg: Config, before: seq<Request>, r: Request)
    requires cfg.Ok() && Ordered(before + [r]) && Costs(before + [r])
    ensures Run(cfg, before + [r]).1[|before|] <==>
            r.cost <= Available(cfg, Run(cfg, before).0.buckets, r.key, r.now)
  {
    var s := Run(cfg, before).0;
    assert (before + [r])[..|before|] == before;
    Earlier(before, r);
    RunSane(cfg, before, r.now);
    SweepInvisible(cfg, s.buckets, r.now, r.key, r.now);
    SpendDecides(cfg, MaybeSwept(cfg, s, r.now).buckets, r);
  }

  lemma SpendDecides(cfg: Config, m: map<Key, Bucket>, r: Request)
    ensures Spend(cfg, m, r.key, r.cost, r.now).1 <==> r.cost <= Available(cfg, m, r.key, r.now)
  {
  }

  // A cost fits into what is available if and only if it fits into the burst and into every stretch.
  lemma FitsAll(cfg: Config, before: seq<Request>, key: Key, now: int, a: real, cost: real)
    requires cfg.Ok() && IsRoom(cfg, before, key, now, a)
    ensures cost <= a <==> cost <= cfg.burst && forall i :: 0 <= i < |before| ==> cost <= Room(cfg, before, key, i, now)
  {
  }

  // A request is admitted if and only if it fits: its cost is at most the burst and, with everything admitted
  // since any earlier request, at most the burst and the rate times the time since.
  lemma AdmittedExactlyWhen(cfg: Config, before: seq<Request>, r: Request)
    requires cfg.Ok() && Ordered(before + [r]) && Costs(before + [r])
    ensures Run(cfg, before + [r]).1[|before|] <==>
            && r.cost <= cfg.burst
            && forall i :: 0 <= i < |before| ==> r.cost <= Room(cfg, before, r.key, i, r.now)
  {
    var a := Available(cfg, Run(cfg, before).0.buckets, r.key, r.now);
    Earlier(before, r);
    AvailableIsRoom(cfg, before, r.key, r.now);
    DecidedBy(cfg, before, r);
    FitsAll(cfg, before, r.key, r.now, a, r.cost);
  }

  lemma Earlier(before: seq<Request>, r: Request)
    requires Ordered(before + [r]) && Costs(before + [r])
    ensures Ordered(before) && Costs(before) && AtOrAfter(before, r.now) && r.cost >= 0.0
  {
    var reqs := before + [r];
    assert forall i :: 0 <= i < |before| ==> before[i] == reqs[i];
    assert reqs[|before|] == r && forall x :: x in before ==> x in reqs;
  }

  // The bound in plain numbers.
  lemma AdmissionInNumbers(cfg: Config, reqs: seq<Request>, key: Key, t: int, t': int)
    requires cfg.Ok() && Ordered(reqs) && Costs(reqs) && t <= t'
    ensures Admitted(cfg, reqs, key, t, t') <= cfg.burst + cfg.perSec * ((t' - t) as real / 1_000_000_000.0)
  {
    AdmissionBound(cfg, reqs, key, t, t');
    EarnedIs(cfg, t' - t);
  }

  // The budget is given by the minute; a missing burst is a minute's budget.
  lemma ConfigTells(perMin: int, burst: int)
    requires perMin > 0
    ensures var cfg := NewConfig(perMin, burst);
            && cfg.Ok() && cfg.perSec * 60.0 == perMin as real
            && (burst > 0 ==> cfg.burst == burst as real)
            && (burst <= 0 ==> cfg.burst == cfg.perSec * 60.0)
  {
  }

  // The bound on memory in plain numbers: the time to refill and five minutes.
  lemma MemoryInNumbers(cfg: Config, reqs: seq<Request>, key: Key)
    requires cfg.Ok() && Ordered(reqs) && reqs != [] && reqs[0].now > 0
    requires key in Run(cfg, reqs).0.buckets
    ensures exists r :: r in reqs && r.key == key &&
              (reqs[|reqs| - 1].now - r.now) as real <= cfg.burst / cfg.perSec * 1_000_000_000.0 + 300_000_000_000.0
  {
    var now := reqs[|reqs| - 1].now;
    MemoryIsBounded(cfg, reqs);
    assert key in Callers(reqs, now - cfg.RefillTime() - SWEEP_EVERY);
    var r :| r in reqs && r.now >= now - cfg.RefillTime() - SWEEP_EVERY && r.key == key;
    assert (now - r.now) as real <= cfg.RefillTime() as real + SWEEP_EVERY as real;
  }
}
