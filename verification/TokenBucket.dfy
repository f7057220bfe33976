/** Per-IP token buckets with idle eviction, as one map keyed by address. Time is real-valued and a
    request's lookup, touch and take form one step. */
module TokenBucket {
  import opened Netmatch

  datatype Params = Params(rps: real, burst: nat, idleTTL: real) {
    // What config validation demands of every limiter.
    predicate Valid() {
      rps > 0.0 && burst > 0
    }
  }

  datatype Bucket = Bucket(tokens: real, last: real)

  datatype Entry = Entry(bucket: Bucket, lastSeen: real)

  type Buckets = map<Addr, Entry>

  function Refill(p: Params, dt: real): real {
    p.rps * dt
  }

  function Level(p: Params, b: Bucket, now: real): real {
    var filled := b.tokens + Refill(p, now - b.last);
    if filled < p.burst as real then filled else p.burst as real
  }

  // Take one token if there is one; a refusal leaves the bucket as it was.
  function Take(p: Params, b: Bucket, now: real): (Bucket, bool) {
    if Level(p, b, now) >= 1.0 then (Bucket(Level(p, b, now) - 1.0, now), true) else (b, false)
  }

  function NewBucket(p: Params, now: real): Bucket {
    Bucket(p.burst as real, now)
  }

  function BucketFor(p: Params, m: Buckets, ip: Addr, now: real): Bucket {
    if ip in m then m[ip].bucket else NewBucket(p, now)
  }

  function Put(m: Buckets, ip: Addr, e: Entry): Buckets {
    m[ip := e]
  }

  function Allow(p: Params, m: Buckets, ip: Addr, now: real): (Buckets, bool) {
    var (b, ok) := Take(p, BucketFor(p, m, ip, now), now);
    (Put(m, ip, Entry(b, now)), ok)
  }

  predicate Idle(p: Params, e: Entry, at: real) {
    e.lastSeen < at - p.idleTTL
  }

  // A sweep of some of the addresses with a cutoff computed at time `at`.
  function Sweep(p: Params, m: Buckets, among: Addr -> bool, at: real): Buckets {
    map ip | ip in m && !(among(ip) && Idle(p, m[ip], at)) :: m[ip]
  }

  // ----- runs

  // A sweep visits one shard; its cutoff time may lie behind the clock, since the source computes
  // it once and then walks the shards.
  datatype Event = Request(ip: Addr, now: real) | SweepSome(among: Addr -> bool, at: real, now: real)

  ghost function Step(p: Params, m: Buckets, e: Event, evicting: bool): Buckets {
    match e
    case Request(ip, now) => Allow(p, m, ip, now).0
    case SweepSome(among, at, _) => if evicting then Sweep(p, m, among, at) else m
  }

  ghost function Run(p: Params, m: Buckets, es: seq<Event>, evicting: bool): Buckets {
    if es == [] then m else Step(p, Run(p, m, es[..|es| - 1], evicting), es[|es| - 1], evicting)
  }

  // The answers to the requests of a run, in order.
  ghost function Answers(p: Params, m: Buckets, es: seq<Event>, evicting: bool): seq<bool> {
    if es == [] then []
    else
      var front := es[..|es| - 1];
      match es[|es| - 1]
      case Request(ip, now) => Answers(p, m, front, evicting) + [Allow(p, Run(p, m, front, evicting), ip, now).1]
      case SweepSome(_, _, _) => Answers(p, m, front, evicting)
  }

  ghost predicate Clocked(es: seq<Event>, from: real, to: real) {
    && from <= to
    && (forall i :: 0 <= i < |es| ==> from <= es[i].now <= to)
    && (forall i :: 0 <= i < |es| && es[i].SweepSome? ==> es[i].at <= es[i].now)
    && forall i, j :: 0 <= i < j < |es| ==> es[i].now <= es[j].now
  }

  ghost predicate Sound(p: Params, m: Buckets, t: real) {
    forall ip :: ip in m ==>
      0.0 <= m[ip].bucket.tokens <= p.burst as real && m[ip].bucket.last <= m[ip].lastSeen <= t
  }

  // A missing bucket counts as a full one.
  ghost function LevelOf(p: Params, m: Buckets, ip: Addr, t: real): real {
    if ip in m then Level(p, m[ip].bucket, t) else p.burst as real
  }

  lemma RefillGrows(p: Params, dt: real)
    requires p.rps >= 0.0 && dt >= 0.0
    ensures Refill(p, dt) >= 0.0
  {
  }

  lemma RefillAdds(p: Params, a: real, b: real)
    ensures Refill(p, a + b) == Refill(p, a) + Refill(p, b)
  {
  }

  lemma LevelAdvances(p: Params, b: Bucket, t: real, t': real)
    requires p.rps >= 0.0 && t <= t'
    ensures Level(p, b, t') ==
            var grown := Level(p, b, t) + Refill(p, t' - t);
            if grown < p.burst as real then grown else p.burst as real
    ensures Level(p, b, t) <= Level(p, b, t') <= Level(p, b, t) + Refill(p, t' - t)
  {
    assert t' - b.last == (t - b.last) + (t' - t);
    RefillAdds(p, t - b.last, t' - t);
    RefillGrows(p, t' - t);
  }

  lemma LevelBounds(p: Params, m: Buckets, ip: Addr, t: real)
    requires p.rps >= 0.0 && Sound(p, m, t)
    ensures 0.0 <= LevelOf(p, m, ip, t) <= p.burst as real
  {
    if ip in m {
      assert m[ip].bucket.last <= m[ip].lastSeen <= t;
      RefillGrows(p, t - m[ip].bucket.last);
    }
  }

  // Right after a take the bucket holds what it left; a refusal leaves the level alone.
  lemma TakeMeaning(p: Params, b: Bucket, now: real)
    requires p.rps >= 0.0 && b.tokens >= 0.0 && b.last <= now && b.tokens <= p.burst as real
    ensures var (b', ok) := Take(p, b, now);
            && 0.0 <= b'.tokens <= p.burst as real && b'.last <= now
            && (ok <==> Level(p, b, now) >= 1.0)
            && Level(p, b', now) == Level(p, b, now) - (if ok then 1.0 else 0.0)
  {
    RefillGrows(p, now - b.last);
    assert Refill(p, now - now) == 0.0;
  }

  // One request moves only its own address's level, down by one exactly when it is admitted, and
  // is admitted exactly when a whole token is there.
  lemma AllowMeaning(p: Params, m: Buckets, ip: Addr, now: real, u: Addr)
    requires p.rps >= 0.0 && Sound(p, m, now)
    ensures var (m', ok) := Allow(p, m, ip, now);
            && Sound(p, m', now)
            && (ok <==> LevelOf(p, m, ip, now) >= 1.0)
            && LevelOf(p, m', u, now) == LevelOf(p, m, u, now) - (if u == ip && ok then 1.0 else 0.0)
  {
    var b := BucketFor(p, m, ip, now);
    TakeMeaning(p, b, now);
    assert Refill(p, now - now) == 0.0;
    assert LevelOf(p, m, ip, now) == Level(p, b, now);
  }

  // The tokens of a bucket that gains rps a second since it was last charged, up to burst.
  ghost function Grown(p: Params, b: Bucket, now: real): real {
    var filled := b.tokens + p.rps * (now - b.last);
    if filled < p.burst as real then filled else p.burst as real
  }

  lemma LevelOutright(p: Params, b: Bucket, now: real)
    ensures Level(p, b, now) == Grown(p, b, now)
  {
    assert Refill(p, now - b.last) == p.rps * (now - b.last);
  }

  lemma TakeOutright(p: Params, b: Bucket, now: real)
    ensures var level := Grown(p, b, now);
            Take(p, b, now) == if level >= 1.0 then (Bucket(level - 1.0, now), true) else (b, false)
  {
    LevelOutright(p, b, now);
  }

  /** What one request does, outright: a missing bucket starts full; a whole grown token admits and is spent,
      and a refusal leaves the bucket as it was. Either way the address was seen now, and no other address is
      touched. */
  lemma AllowOutright(p: Params, m: Buckets, ip: Addr, now: real)
    ensures var (m', ok) := Allow(p, m, ip, now);
            var b := if ip in m then m[ip].bucket else Bucket(p.burst as real, now);
            var level := Grown(p, b, now);
            && (ok <==> level >= 1.0)
            && m' == m[ip := Entry(if ok then Bucket(level - 1.0, now) else b, now)]
  {
    TakeOutright(p, BucketFor(p, m, ip, now), now);
  }

  /** What a sweep keeps, outright: every entry seen since the cutoff, and those it does not visit. */
  lemma SweepOutright(p: Params, m: Buckets, among: Addr -> bool, at: real, ip: Addr)
    ensures ip in Sweep(p, m, among, at) <==> ip in m && (among(ip) ==> m[ip].lastSeen >= at - p.idleTTL)
    ensures ip in Sweep(p, m, among, at) ==> Sweep(p, m, among, at)[ip] == m[ip]
  {
  }

  // An evicted bucket was already full, when idling that long refills any bucket.
  lemma IdleMeansFull(p: Params, e: Entry, at: real, now: real)
    requires p.rps >= 0.0 && Refill(p, p.idleTTL) >= p.burst as real
    requires at <= now && e.bucket.tokens >= 0.0 && e.bucket.last <= e.lastSeen
    requires Idle(p, e, at)
    ensures Level(p, e.bucket, now) == p.burst as real
  {
    var extra := now - e.bucket.last - p.idleTTL;
    RefillGrows(p, extra);
    RefillAdds(p, p.idleTTL, extra);
    assert now - e.bucket.last == p.idleTTL + extra;
  }

  lemma StepSound(p: Params, m: Buckets, e: Event, evicting: bool, t: real)
    requires p.rps >= 0.0 && Sound(p, m, t) && t <= e.now
    ensures Sound(p, Step(p, m, e, evicting), e.now)
  {
    if e.Request? {
      AllowMeaning(p, m, e.ip, e.now, e.ip);
    }
  }

  // ----- eviction is invisible

  ghost predicate SameLevels(p: Params, m: Buckets, m': Buckets, t: real) {
    forall ip :: LevelOf(p, m, ip, t) == LevelOf(p, m', ip, t)
  }

  lemma SameLevelsLater(p: Params, m: Buckets, m': Buckets, t: real, t': real)
    requires p.rps >= 0.0 && t <= t' && SameLevels(p, m, m', t)
    ensures SameLevels(p, m, m', t')
  {
    forall ip
      ensures LevelOf(p, m, ip, t') == LevelOf(p, m', ip, t')
    {
      assert LevelOf(p, m, ip, t) == LevelOf(p, m', ip, t);
      RefillGrows(p, t' - t);
      if ip in m {
        LevelAdvances(p, m[ip].bucket, t, t');
      }
      if ip in m' {
        LevelAdvances(p, m'[ip].bucket, t, t');
      }
    }
  }

  // The simulation step: the left machine evicts, the right one never does.
  lemma SimStep(p: Params, m: Buckets, m': Buckets, e: Event, t: real)
    requires p.rps >= 0.0 && Refill(p, p.idleTTL) >= p.burst as real
    requires Sound(p, m, t) && Sound(p, m', t) && SameLevels(p, m, m', t)
    requires t <= e.now && (e.SweepSome? ==> e.at <= e.now)
    ensures Sound(p, Step(p, m, e, true), e.now) && Sound(p, Step(p, m', e, false), e.now)
    ensures SameLevels(p, Step(p, m, e, true), Step(p, m', e, false), e.now)
    ensures e.Request? ==> Allow(p, m, e.ip, e.now).1 == Allow(p, m', e.ip, e.now).1
  {
    SameLevelsLater(p, m, m', t, e.now);
    StepSound(p, m, e, true, t);
    StepSound(p, m', e, false, t);
    var n, n' := Step(p, m, e, true), Step(p, m', e, false);
    forall ip
      ensures LevelOf(p, n, ip, e.now) == LevelOf(p, n', ip, e.now)
    {
      assert LevelOf(p, m, ip, e.now) == LevelOf(p, m', ip, e.now);
      match e
      case Request(ip', now) =>
        assert LevelOf(p, m, ip', now) == LevelOf(p, m', ip', now);
        AllowMeaning(p, m, ip', now, ip);
        AllowMeaning(p, m', ip', now, ip);
      case SweepSome(among, at, now) =>
        if ip in m && ip !in n {
          IdleMeansFull(p, m[ip], at, now);
        }
    }
    if e.Request? {
      AllowMeaning(p, m, e.ip, e.now, e.ip);
      AllowMeaning(p, m', e.ip, e.now, e.ip);
    }
  }

  lemma {:induction false} SimRun(p: Params, m: Buckets, m': Buckets, es: seq<Event>, s: real, t: real)
    requires p.rps >= 0.0 && Refill(p, p.idleTTL) >= p.burst as real
    requires Sound(p, m, s) && Sound(p, m', s) && SameLevels(p, m, m', s) && Clocked(es, s, t)
    ensures Sound(p, Run(p, m, es, true), t) && Sound(p, Run(p, m', es, false), t)
    ensures SameLevels(p, Run(p, m, es, true), Run(p, m', es, false), t)
    ensures Answers(p, m, es, true) == Answers(p, m', es, false)
  {
    if es == [] {
      SameLevelsLater(p, m, m', s, t);
    } else {
      var front, e := es[..|es| - 1], es[|es| - 1];
      assert Clocked(front, s, e.now);
      SimRun(p, m, m', front, s, e.now);
      var n, n' := Run(p, m, front, true), Run(p, m', front, false);
      SimStep(p, n, n', e, e.now);
      SameLevelsLater(p, Run(p, m, es, true), Run(p, m', es, false), e.now, t);
    }
  }

  // ----- and visible otherwise

  ghost function Burst(ip: Addr, n: nat, now: real): seq<Event> {
    seq(n, _ => Request(ip, now))
  }

  // `n` requests at one instant use up one token each while whole tokens last.
  lemma {:induction false} BurstRun(p: Params, m: Buckets, ip: Addr, n: nat, now: real)
    requires p.rps >= 0.0 && Sound(p, m, now)
    ensures var m' := Run(p, m, Burst(ip, n, now), true);
            && Sound(p, m', now)
            && (n > 0 ==> ip in m' && m'[ip].lastSeen == now)
            && (LevelOf(p, m, ip, now) >= n as real ==> LevelOf(p, m', ip, now) == LevelOf(p, m, ip, now) - n as real)
            && |Answers(p, m, Burst(ip, n, now), true)| == n
            && ((forall i :: 0 <= i < n ==> Answers(p, m, Burst(ip, n, now), true)[i])
                <==> LevelOf(p, m, ip, now) >= n as real)
  {
    LevelBounds(p, m, ip, now);
    var es := Burst(ip, n, now);
    if n > 0 {
      assert es[..n - 1] == Burst(ip, n - 1, now);
      BurstRun(p, m, ip, n - 1, now);
      var mid := Run(p, m, es[..n - 1], true);
      AllowMeaning(p, mid, ip, now, ip);
      var as', before := Answers(p, m, es, true), Answers(p, m, es[..n - 1], true);
      assert as' == before + [Allow(p, mid, ip, now).1];
      if forall i :: 0 <= i < n ==> as'[i] {
        assert forall i :: 0 <= i < n - 1 ==> before[i] == as'[i];
        assert as'[n - 1];
      }
    }
  }

  // With no sweep in it, a run does not depend on whether the limiter evicts.
  lemma {:induction false} NoSweepSame(p: Params, m: Buckets, es: seq<Event>)
    requires forall i :: 0 <= i < |es| ==> es[i].Request?
    ensures Run(p, m, es, true) == Run(p, m, es, false)
    ensures Answers(p, m, es, true) == Answers(p, m, es, false)
  {
    if es != [] {
      NoSweepSame(p, m, es[..|es| - 1]);
    }
  }

  lemma {:induction false} RunConcat(p: Params, m: Buckets, a: seq<Event>, b: seq<Event>, evicting: bool)
    ensures Run(p, m, a + b, evicting) == Run(p, Run(p, m, a, evicting), b, evicting)
    ensures Answers(p, m, a + b, evicting)
            == Answers(p, m, a, evicting) + Answers(p, Run(p, m, a, evicting), b, evicting)
  {
    if b == [] {
      assert a + b == a;
    } else {
      var n := |b| - 1;
      assert (a + b)[..|a + b| - 1] == a + b[..n];
      RunConcat(p, m, a, b[..n], evicting);
    }
  }

  // Empty the bucket, idle just past the TTL, sweep, and ask for a full burst again.
  ghost function Probe(p: Params, ip: Addr, t: real): seq<Event> {
    Burst(ip, p.burst, 0.0) + [SweepSome(_ => true, t, t)] + Burst(ip, p.burst, t)
  }

  ghost predicate AllYes(answers: seq<bool>) {
    forall i :: 0 <= i < |answers| ==> answers[i]
  }

  // After a first burst at time zero the bucket is empty and was last seen then.
  lemma FirstBurst(p: Params, ip: Addr, evicting: bool)
    requires p.Valid()
    ensures var m := Run(p, map[], Burst(ip, p.burst, 0.0), evicting);
            && Sound(p, m, 0.0) && ip in m && m[ip].lastSeen == 0.0 && LevelOf(p, m, ip, 0.0) == 0.0
            && AllYes(Answers(p, map[], Burst(ip, p.burst, 0.0), evicting))
  {
    BurstRun(p, map[], ip, p.burst, 0.0);
    NoSweepSame(p, map[], Burst(ip, p.burst, 0.0));
  }

  // Then at time t a full burst is admitted whole exactly if the bucket was evicted meanwhile.
  lemma SecondBurst(p: Params, m: Buckets, ip: Addr, t: real, evicting: bool)
    requires p.Valid() && 0.0 <= t && p.idleTTL < t && Refill(p, t) < p.burst as real
    requires Sound(p, m, 0.0) && ip in m && m[ip].lastSeen == 0.0 && LevelOf(p, m, ip, 0.0) == 0.0
    ensures var m1 := Step(p, m, SweepSome(_ => true, t, t), evicting);
            AllYes(Answers(p, m1, Burst(ip, p.burst, t), evicting)) <==> evicting
  {
    var sweep := SweepSome(_ => true, t, t);
    var m1 := Step(p, m, sweep, evicting);
    StepSound(p, m, sweep, evicting, 0.0);
    LevelAdvances(p, m[ip].bucket, 0.0, t);
    assert LevelOf(p, m1, ip, t) >= p.burst as real <==> evicting;
    BurstRun(p, m1, ip, p.burst, t);
    NoSweepSame(p, m1, Burst(ip, p.burst, t));
  }

  lemma ProbeAnswers(p: Params, ip: Addr, t: real, evicting: bool)
    requires p.Valid() && 0.0 <= t && p.idleTTL < t && Refill(p, t) < p.burst as real
    ensures AllYes(Answers(p, map[], Probe(p, ip, t), evicting)) <==> evicting
  {
    var a, sweep, b := Burst(ip, p.burst, 0.0), [SweepSome(_ => true, t, t)], Burst(ip, p.burst, t);
    FirstBurst(p, ip, evicting);
    var m := Run(p, map[], a, evicting);
    SecondBurst(p, m, ip, t, evicting);
    RunConcat(p, map[], a, sweep, evicting);
    RunConcat(p, map[], a + sweep, b, evicting);
    assert sweep[..0] == [];
    assert Answers(p, m, sweep, evicting) == [];
    assert Run(p, m, sweep, evicting) == Step(p, m, sweep[0], evicting);
    var x, y := Answers(p, map[], a, evicting), Answers(p, Run(p, m, sweep, evicting), b, evicting);
    assert Answers(p, map[], Probe(p, ip, t), evicting) == x + y;
    assert forall i :: 0 <= i < |y| ==> (x + y)[|x| + i] == y[i];
  }

  // A moment past the TTL at which an emptied bucket is still not full.
  lemma ProbeTime(p: Params) returns (t: real)
    requires p.Valid() && Refill(p, p.idleTTL) < p.burst as real
    ensures 0.0 <= t && p.idleTTL < t && Refill(p, t) < p.burst as real
  {
    var full := p.burst as real / p.rps;
    assert p.rps * full == p.burst as real;
    if full <= p.idleTTL {
      RefillGrows(p, p.idleTTL - full);
      RefillAdds(p, full, p.idleTTL - full);
    }
    t := ((if p.idleTTL < 0.0 then 0.0 else p.idleTTL) + full) / 2.0;
    RefillAdds(p, t, full - t);
    assert p.rps * (full - t) > 0.0;
  }

  lemma EvictionShows(p: Params) returns (es: seq<Event>, t: real)
    requires p.Valid() && Refill(p, p.idleTTL) < p.burst as real
    ensures Clocked(es, 0.0, t) && Answers(p, map[], es, true) != Answers(p, map[], es, false)
  {
    t := ProbeTime(p);
    var ip := Addr(false, 0);
    es := Probe(p, ip, t);
    ProbeAnswers(p, ip, t, true);
    ProbeAnswers(p, ip, t, false);
    ProbeClocked(p, ip, t);
  }

  lemma ProbeClocked(p: Params, ip: Addr, t: real)
    requires 0.0 <= t
    ensures Clocked(Probe(p, ip, t), 0.0, t)
  {
  }

  /** Eviction is invisible if and only if idling for the TTL refills a whole bucket: exactly then
      every run of requests and sweeps gets the answers of a limiter that never evicts. */
  lemma EvictionInvisible(p: Params)
    requires p.Valid()
    ensures (forall es, t :: Clocked(es, 0.0, t) ==> Answers(p, map[], es, true) == Answers(p, map[], es, false))
            <==> p.rps * p.idleTTL >= p.burst as real
  {
    assert Refill(p, p.idleTTL) == p.rps * p.idleTTL;
    if Refill(p, p.idleTTL) >= p.burst as real {
      forall es, t | Clocked(es, 0.0, t)
        ensures Answers(p, map[], es, true) == Answers(p, map[], es, false)
      {
        SimRun(p, map[], map[], es, 0.0, t);
      }
    } else {
      var es, t := EvictionShows(p);
    }
  }

  // ----- the rate bound

  ghost function Admitted(p: Params, m: Buckets, es: seq<Event>, evicting: bool, ip: Addr): nat {
    if es == [] then 0
    else
      var front, e := es[..|es| - 1], es[|es| - 1];
      Admitted(p, m, front, evicting, ip)
      + if e.Request? && e.ip == ip && Allow(p, Run(p, m, front, evicting), ip, e.now).1 then 1 else 0
  }

  // How often the address's own bucket was evicted.
  ghost function Evictions(p: Params, m: Buckets, es: seq<Event>, ip: Addr): nat {
    if es == [] then 0
    else
      var front, e := es[..|es| - 1], es[|es| - 1];
      var before := Run(p, m, front, true);
      Evictions(p, m, front, ip)
      + if e.SweepSome? && ip in before && ip !in Step(p, before, e, true) then 1 else 0
  }

  // What one event does to an address's level, with its admission and its eviction counted.
  lemma PotentialStep(p: Params, m: Buckets, e: Event, evicting: bool, ip: Addr)
    requires p.rps >= 0.0 && Sound(p, m, e.now)
    ensures var m' := Step(p, m, e, evicting);
            var admitted := if e.Request? && e.ip == ip && Allow(p, m, ip, e.now).1 then 1.0 else 0.0;
            && Sound(p, m', e.now)
            && (ip in m && ip !in m' ==>
                  admitted == 0.0 && LevelOf(p, m', ip, e.now) <= LevelOf(p, m, ip, e.now) + p.burst as real)
            && (!(ip in m && ip !in m') ==> admitted + LevelOf(p, m', ip, e.now) == LevelOf(p, m, ip, e.now))
            && (e.Request? || !evicting ==> !(ip in m && ip !in m'))
  {
    LevelBounds(p, m, ip, e.now);
    StepSound(p, m, e, evicting, e.now);
    if e.Request? {
      AllowMeaning(p, m, e.ip, e.now, ip);
    }
  }

  // Tokens are conserved: what was admitted plus what is left never exceeds what was there, what
  // time refilled and what evictions forgave.
  lemma {:induction false} Potential(p: Params, m: Buckets, es: seq<Event>, ip: Addr, s: real, t: real)
    requires p.rps >= 0.0 && Sound(p, m, s) && Clocked(es, s, t)
    ensures Sound(p, Run(p, m, es, true), t)
    ensures Admitted(p, m, es, true, ip) as real + LevelOf(p, Run(p, m, es, true), ip, t)
            <= LevelOf(p, m, ip, s) + Refill(p, t - s) + FullBuckets(p, Evictions(p, m, es, ip))
  {
    if es == [] {
      LevelGrowth(p, m, ip, s, t);
    } else {
      var front, e := es[..|es| - 1], es[|es| - 1];
      assert Clocked(front, s, e.now);
      Potential(p, m, front, ip, s, e.now);
      PotentialNext(p, m, es, ip, s, t);
    }
  }

  lemma PotentialNext(p: Params, m: Buckets, es: seq<Event>, ip: Addr, s: real, t: real)
    requires p.rps >= 0.0 && es != [] && es[|es| - 1].now <= t
    requires var front, now := es[..|es| - 1], es[|es| - 1].now;
             && Sound(p, Run(p, m, front, true), now)
             && Admitted(p, m, front, true, ip) as real + LevelOf(p, Run(p, m, front, true), ip, now)
                <= LevelOf(p, m, ip, s) + Refill(p, now - s) + FullBuckets(p, Evictions(p, m, front, ip))
    ensures Sound(p, Run(p, m, es, true), t)
    ensures Admitted(p, m, es, true, ip) as real + LevelOf(p, Run(p, m, es, true), ip, t)
            <= LevelOf(p, m, ip, s) + Refill(p, t - s) + FullBuckets(p, Evictions(p, m, es, ip))
  {
    var now := es[|es| - 1].now;
    PotentialStep(p, Run(p, m, es[..|es| - 1], true), es[|es| - 1], true, ip);
    CountStep(p, m, es, ip);
    LevelGrowth(p, Run(p, m, es, true), ip, now, t);
    RefillSplits(p, s, now, t);
  }

  lemma RefillSplits(p: Params, s: real, mid: real, t: real)
    ensures Refill(p, t - s) == Refill(p, mid - s) + Refill(p, t - mid)
  {
    RefillAdds(p, mid - s, t - mid);
    assert t - s == (mid - s) + (t - mid);
  }

  // The two counts after one more event.
  lemma CountStep(p: Params, m: Buckets, es: seq<Event>, ip: Addr)
    requires es != []
    ensures var front, e := es[..|es| - 1], es[|es| - 1];
            var before, after := Run(p, m, front, true), Run(p, m, es, true);
            && after == Step(p, before, e, true)
            && Admitted(p, m, es, true, ip) as real == Admitted(p, m, front, true, ip) as real
               + (if e.Request? && e.ip == ip && Allow(p, before, ip, e.now).1 then 1.0 else 0.0)
            && FullBuckets(p, Evictions(p, m, es, ip)) == FullBuckets(p, Evictions(p, m, front, ip))
               + (if ip in before && ip !in after then p.burst as real else 0.0)
  {
    var front, e := es[..|es| - 1], es[|es| - 1];
    var before, after := Run(p, m, front, true), Run(p, m, es, true);
    assert e.Request? && ip in before ==> ip in after;
  }

  // The tokens of `n` full buckets.
  ghost function FullBuckets(p: Params, n: nat): real {
    if n == 0 then 0.0 else FullBuckets(p, n - 1) + p.burst as real
  }

  lemma {:induction false} FullBucketsIsProduct(p: Params, n: nat)
    ensures FullBuckets(p, n) == p.burst as real * n as real
  {
    if n > 0 {
      FullBucketsIsProduct(p, n - 1);
      Distribute(p.burst as real, (n - 1) as real, 1.0);
    }
  }

  lemma Distribute(x: real, y: real, z: real)
    ensures x * (y + z) == x * y + x * z
  {
  }

  lemma LevelGrowth(p: Params, m: Buckets, ip: Addr, s: real, t: real)
    requires p.rps >= 0.0 && s <= t
    ensures LevelOf(p, m, ip, t) <= LevelOf(p, m, ip, s) + Refill(p, t - s)
  {
    RefillGrows(p, t - s);
    if ip in m {
      LevelAdvances(p, m[ip].bucket, s, t);
    }
  }

  lemma WindowBound(p: Params, prefix': seq<Event>, window: seq<Event>, ip: Addr, s: real, t: real)
    requires p.Valid() && Clocked(prefix', 0.0, s) && Clocked(window, s, t)
    ensures var m := Run(p, map[], prefix', true);
            Admitted(p, m, window, true, ip) as real
            <= p.burst as real + Refill(p, t - s) + FullBuckets(p, Evictions(p, m, window, ip))
  {
    var m := Run(p, map[], prefix', true);
    Potential(p, map[], prefix', ip, 0.0, s);
    Potential(p, m, window, ip, s, t);
    LevelBounds(p, m, ip, s);
    LevelBounds(p, Run(p, m, window, true), ip, t);
  }

  // At most burst * (1 + evictions) + extra.
  ghost predicate Within(p: Params, admitted: nat, evictions: nat, extra: real) {
    admitted as real <= p.burst as real * (1 + evictions) as real + extra
  }

  lemma AsProduct(p: Params, admitted: nat, evictions: nat, extra: real)
    requires admitted as real <= p.burst as real + extra + FullBuckets(p, evictions)
    ensures Within(p, admitted, evictions, extra)
  {
    FullBucketsIsProduct(p, 1 + evictions);
  }

  /** The rate bound: in every window [s, t] of every run, one address is admitted at most
      burst * (1 + E) + rps * (t - s) times, E counting the evictions of its bucket in the window. */
  lemma RateBound(p: Params, prefix': seq<Event>, window: seq<Event>, ip: Addr, s: real, t: real)
    requires p.Valid() && Clocked(prefix', 0.0, s) && Clocked(window, s, t)
    ensures var m := Run(p, map[], prefix', true);
            Within(p, Admitted(p, m, window, true, ip), Evictions(p, m, window, ip), Refill(p, t - s))
  {
    WindowBound(p, prefix', window, ip, s, t);
    var m := Run(p, map[], prefix', true);
    AsProduct(p, Admitted(p, m, window, true, ip), Evictions(p, m, window, ip), Refill(p, t - s));
  }

  lemma {:induction false} AdmittedSame(p: Params, m: Buckets, m': Buckets, es: seq<Event>, ip: Addr, s: real, t: real)
    requires p.rps >= 0.0 && Refill(p, p.idleTTL) >= p.burst as real
    requires Sound(p, m, s) && Sound(p, m', s) && SameLevels(p, m, m', s) && Clocked(es, s, t)
    ensures Admitted(p, m, es, true, ip) == Admitted(p, m', es, false, ip)
  {
    if es != [] {
      var front, e := es[..|es| - 1], es[|es| - 1];
      assert Clocked(front, s, e.now);
      AdmittedSame(p, m, m', front, ip, s, e.now);
      SimRun(p, m, m', front, s, e.now);
      SimStep(p, Run(p, m, front, true), Run(p, m', front, false), e, e.now);
    }
  }

  // The never-evicting limiter, by the same conservation argument without the eviction term.
  lemma {:induction false} PotentialKept(p: Params, m: Buckets, es: seq<Event>, ip: Addr, s: real, t: real)
    requires p.rps >= 0.0 && Sound(p, m, s) && Clocked(es, s, t)
    ensures Sound(p, Run(p, m, es, false), t)
    ensures Admitted(p, m, es, false, ip) as real + LevelOf(p, Run(p, m, es, false), ip, t)
            <= LevelOf(p, m, ip, s) + Refill(p, t - s)
  {
    if es == [] {
      LevelGrowth(p, m, ip, s, t);
    } else {
      var front, e := es[..|es| - 1], es[|es| - 1];
      assert Clocked(front, s, e.now);
      PotentialKept(p, m, front, ip, s, e.now);
      PotentialStep(p, Run(p, m, front, false), e, false, ip);
      LevelGrowth(p, Run(p, m, es, false), ip, e.now, t);
      RefillSplits(p, s, e.now, t);
    }
  }

  /** When idling refills a whole bucket the bound is that of one bucket: burst + rps * (t - s). */
  lemma TightRateBound(p: Params, prefix': seq<Event>, window: seq<Event>, ip: Addr, s: real, t: real)
    requires p.Valid() && Refill(p, p.idleTTL) >= p.burst as real
    requires Clocked(prefix', 0.0, s) && Clocked(window, s, t)
    ensures Admitted(p, Run(p, map[], prefix', true), window, true, ip) as real <= p.burst as real + Refill(p, t - s)
  {
    var m, m' := Run(p, map[], prefix', true), Run(p, map[], prefix', false);
    SimRun(p, map[], map[], prefix', 0.0, s);
    AdmittedSame(p, m, m', window, ip, s, t);
    PotentialKept(p, m', window, ip, s, t);
    LevelBounds(p, m', ip, s);
    LevelBounds(p, Run(p, m', window, false), ip, t);
  }
}
