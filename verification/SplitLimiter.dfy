/** The limiter with a request split as the source splits it. A call reads the clock once, before it
    looks its entry up, and touches and charges the entry with that reading. The shard lock covers only
    the lookup, so time may pass and other calls may run in between, and a sweep may drop an entry that
    a call has found and not yet charged; that call then charges an orphan no later call can see. */
module SplitLimiter {
  import opened Netmatch
  import opened TokenBucket

  type Ref = nat
  type CallId = nat

  // A call under way: the entry it found and the clock reading it carries.
  datatype Pc = Found(ref: Ref, at: real) | Touched(ref: Ref, at: real)

  datatype Obj = Obj(ip: Addr, entry: Entry)

  datatype Sys = Sys(objs: seq<Obj>, table: map<Addr, Ref>, calls: map<CallId, Pc>)

  // `now` is the time of the step; `at` the earlier reading that a call or a sweep works with.
  datatype SplitEvent =
    | Lookup(c: CallId, ip: Addr, at: real, now: real)
    | Touch(c: CallId, now: real)
    | Charge(c: CallId, now: real)
    | SplitSweep(among: Addr -> bool, at: real, now: real)

  // ----- a bucket charged with a clock reading of any age

  function Later(a: real, b: real): real {
    if a < b then b else a
  }

  // What the bucket shows a call that read the clock at `at`: a reading older than the bucket's own
  // clock refills nothing.
  function Shown(p: Params, b: Bucket, at: real): real {
    Level(p, b, Later(at, b.last))
  }

  // A charge sets the bucket's clock to the call's reading, even backwards.
  function TakeAt(p: Params, b: Bucket, at: real): (Bucket, bool) {
    if Shown(p, b, at) >= 1.0 then (Bucket(Shown(p, b, at) - 1.0, at), true) else (b, false)
  }

  ghost predicate InBounds(p: Params, b: Bucket, now: real) {
    0.0 <= b.tokens <= p.burst as real && b.last <= now
  }

  // A charge with an old reading may win back the refill of the time since, and no more.
  lemma TakeAtMeaning(p: Params, b: Bucket, at: real, now: real)
    requires p.rps >= 0.0 && InBounds(p, b, now) && at <= now
    ensures var (b', ok) := TakeAt(p, b, at);
            && InBounds(p, b', now)
            && (!ok ==> b' == b)
            && (ok ==> 1.0 + Level(p, b', now) <= Level(p, b, now) + Refill(p, now - at))
  {
    var m := Later(at, b.last);
    RefillGrows(p, m - b.last);
    LevelAdvances(p, b, m, now);
    RefillGrows(p, now - at);
  }

  // ----- the steps

  // References stay inside the heap, the table maps each address to one of its own entries, and
  // every bucket and every call's reading is within bounds.
  ghost predicate Good(p: Params, s: Sys, t: real) {
    && (forall ip :: ip in s.table ==> s.table[ip] < |s.objs| && s.objs[s.table[ip]].ip == ip)
    && (forall c :: c in s.calls ==> s.calls[c].ref < |s.objs| && s.calls[c].at <= t)
    && forall r :: 0 <= r < |s.objs| ==> InBounds(p, s.objs[r].entry.bucket, t)
  }

  // A new entry carries a zero last-seen time until its call touches it.
  ghost function DoLookup(p: Params, s: Sys, c: CallId, ip: Addr, at: real): Sys {
    if ip in s.table then s.(calls := s.calls[c := Found(s.table[ip], at)])
    else
      Sys(
        s.objs + [Obj(ip, Entry(NewBucket(p, at), 0.0))], s.table[ip := |s.objs|],
        s.calls[c := Found(|s.objs|, at)])
  }

  ghost function WithEntry(s: Sys, r: Ref, e: Entry): seq<Obj>
    requires r < |s.objs|
  {
    s.objs[r := s.objs[r].(entry := e)]
  }

  ghost function DoTouch(s: Sys, c: CallId): Sys
    requires c in s.calls && s.calls[c].ref < |s.objs|
  {
    var r, at := s.calls[c].ref, s.calls[c].at;
    s.(objs := WithEntry(s, r, s.objs[r].entry.(lastSeen := at)), calls := s.calls[c := Touched(r, at)])
  }

  ghost function DoCharge(p: Params, s: Sys, c: CallId): Sys
    requires c in s.calls && s.calls[c].ref < |s.objs|
  {
    var r := s.calls[c].ref;
    var b := TakeAt(p, s.objs[r].entry.bucket, s.calls[c].at).0;
    s.(objs := WithEntry(s, r, s.objs[r].entry.(bucket := b)), calls := s.calls - {c})
  }

  ghost predicate Swept(p: Params, s: Sys, ip: Addr, among: Addr -> bool, at: real) {
    ip in s.table && s.table[ip] < |s.objs| && among(ip) && Idle(p, s.objs[s.table[ip]].entry, at)
  }

  ghost function DoSweep(p: Params, s: Sys, among: Addr -> bool, at: real): Sys {
    s.(table := map ip | ip in s.table && !Swept(p, s, ip, among, at) :: s.table[ip])
  }

  ghost predicate Ready(s: Sys, c: CallId, touched: bool) {
    c in s.calls && s.calls[c].ref < |s.objs| && s.calls[c].Touched? == touched
  }

  // A step that its call cannot take now changes nothing.
  ghost function SplitStep(p: Params, s: Sys, e: SplitEvent): Sys {
    match e
    case Lookup(c, ip, at, _) => if c in s.calls then s else DoLookup(p, s, c, ip, at)
    case Touch(c, _) => if Ready(s, c, false) then DoTouch(s, c) else s
    case Charge(c, _) => if Ready(s, c, true) then DoCharge(p, s, c) else s
    case SplitSweep(among, at, _) => DoSweep(p, s, among, at)
  }

  ghost function SplitRun(p: Params, s: Sys, es: seq<SplitEvent>): Sys {
    if es == [] then s else SplitStep(p, SplitRun(p, s, es[..|es| - 1]), es[|es| - 1])
  }

  ghost predicate SplitClocked(es: seq<SplitEvent>, from: real, to: real) {
    && from <= to
    && (forall i :: 0 <= i < |es| ==> from <= es[i].now <= to)
    && (forall i :: 0 <= i < |es| && (es[i].Lookup? || es[i].SplitSweep?) ==> es[i].at <= es[i].now)
    && forall i, j :: 0 <= i < j < |es| ==> es[i].now <= es[j].now
  }

  // ----- what is counted

  // The step admits a request of `ip`.
  ghost predicate Admits(p: Params, s: Sys, e: SplitEvent, ip: Addr) {
    && e.Charge? && Ready(s, e.c, true)
    && s.objs[s.calls[e.c].ref].ip == ip
    && TakeAt(p, s.objs[s.calls[e.c].ref].entry.bucket, s.calls[e.c].at).1
  }

  // The step drops the entry of `ip` from the table.
  ghost predicate Evicts(p: Params, s: Sys, e: SplitEvent, ip: Addr) {
    e.SplitSweep? && Swept(p, s, ip, e.among, e.at)
  }

  // That is: it was there before and is gone after.
  lemma EvictsMeaning(p: Params, s: Sys, e: SplitEvent, ip: Addr, t: real)
    requires Good(p, s, t)
    ensures Evicts(p, s, e, ip) <==> ip in s.table && ip !in SplitStep(p, s, e).table
  {
  }

  // Requests of `ip` that hold the entry in the table, and those that hold an orphan.
  ghost function Holders(s: Sys, ip: Addr): set<CallId> {
    set c | c in s.calls && ip in s.table && s.calls[c].ref == s.table[ip]
  }

  ghost function Stranded(s: Sys, ip: Addr): set<CallId> {
    set c | c in s.calls && s.calls[c].ref < |s.objs| && s.objs[s.calls[c].ref].ip == ip
            && !(ip in s.table && s.calls[c].ref == s.table[ip])
  }

  // The step admits a request of `ip` that charges an orphan.
  ghost predicate AdmitsOrphan(p: Params, s: Sys, e: SplitEvent, ip: Addr) {
    Admits(p, s, e, ip) && e.c in Stranded(s, ip)
  }

  // How old the clock reading was with which the step admits a request of `ip` on the live entry.
  ghost function Lag(p: Params, s: Sys, e: SplitEvent, ip: Addr): real {
    if Admits(p, s, e, ip) && !AdmitsOrphan(p, s, e, ip) then e.now - s.calls[e.c].at else 0.0
  }

  ghost function SplitAdmitted(p: Params, s: Sys, es: seq<SplitEvent>, ip: Addr): nat {
    if es == [] then 0
    else
      var front := es[..|es| - 1];
      SplitAdmitted(p, s, front, ip) + if Admits(p, SplitRun(p, s, front), es[|es| - 1], ip) then 1 else 0
  }

  ghost function SplitEvictions(p: Params, s: Sys, es: seq<SplitEvent>, ip: Addr): nat {
    if es == [] then 0
    else
      var front := es[..|es| - 1];
      SplitEvictions(p, s, front, ip) + if Evicts(p, SplitRun(p, s, front), es[|es| - 1], ip) then 1 else 0
  }

  ghost function OrphansAdmitted(p: Params, s: Sys, es: seq<SplitEvent>, ip: Addr): nat {
    if es == [] then 0
    else
      var front := es[..|es| - 1];
      OrphansAdmitted(p, s, front, ip) + if AdmitsOrphan(p, SplitRun(p, s, front), es[|es| - 1], ip) then 1 else 0
  }

  // How many requests were left holding an entry at the moment it was evicted.
  ghost function Strandings(p: Params, s: Sys, es: seq<SplitEvent>, ip: Addr): nat {
    if es == [] then 0
    else
      var front := es[..|es| - 1];
      var before := SplitRun(p, s, front);
      Strandings(p, s, front, ip) + if Evicts(p, before, es[|es| - 1], ip) then |Holders(before, ip)| else 0
  }

  ghost function Lags(p: Params, s: Sys, es: seq<SplitEvent>, ip: Addr): real {
    if es == [] then 0.0
    else
      var front := es[..|es| - 1];
      Lags(p, s, front, ip) + Lag(p, SplitRun(p, s, front), es[|es| - 1], ip)
  }

  ghost function LiveLevel(p: Params, s: Sys, ip: Addr, t: real): real {
    if ip in s.table && s.table[ip] < |s.objs| then Level(p, s.objs[s.table[ip]].entry.bucket, t) else p.burst as real
  }

  // ----- one step

  lemma LiveBounds(p: Params, s: Sys, ip: Addr, t: real)
    requires p.rps >= 0.0 && Good(p, s, t)
    ensures 0.0 <= LiveLevel(p, s, ip, t) <= p.burst as real
  {
    if ip in s.table {
      RefillGrows(p, t - s.objs[s.table[ip]].entry.bucket.last);
    }
  }

  lemma LiveGrowth(p: Params, s: Sys, ip: Addr, t: real, t': real)
    requires p.rps >= 0.0 && t <= t'
    ensures LiveLevel(p, s, ip, t') <= LiveLevel(p, s, ip, t) + Refill(p, t' - t)
  {
    RefillGrows(p, t' - t);
    if ip in s.table && s.table[ip] < |s.objs| {
      LevelAdvances(p, s.objs[s.table[ip]].entry.bucket, t, t');
    }
  }

  lemma FindStep(p: Params, s: Sys, c: CallId, u: Addr, at: real, now: real, ip: Addr)
    requires Good(p, s, now) && c !in s.calls && at <= now && u in s.table
    ensures var s' := DoLookup(p, s, c, u, at);
            && Good(p, s', now)
            && LiveLevel(p, s', ip, now) == LiveLevel(p, s, ip, now) && Stranded(s', ip) == Stranded(s, ip)
  {
    var s' := DoLookup(p, s, c, u, at);
    assert c !in Stranded(s', ip);
  }

  lemma CreateStep(p: Params, s: Sys, c: CallId, u: Addr, at: real, now: real, ip: Addr)
    requires p.rps >= 0.0 && Good(p, s, now) && c !in s.calls && at <= now && u !in s.table
    ensures var s' := DoLookup(p, s, c, u, at);
            && Good(p, s', now)
            && LiveLevel(p, s', ip, now) == LiveLevel(p, s, ip, now) && Stranded(s', ip) == Stranded(s, ip)
  {
    var s' := DoLookup(p, s, c, u, at);
    NewIsFull(p, at, now);
    assert forall r :: 0 <= r < |s.objs| ==> s'.objs[r] == s.objs[r];
    assert c !in Stranded(s', ip);
    assert forall d :: d in s.calls ==> (d in Stranded(s', ip) <==> d in Stranded(s, ip));
  }

  lemma NewIsFull(p: Params, at: real, now: real)
    requires p.rps >= 0.0 && at <= now
    ensures InBounds(p, NewBucket(p, at), now) && Level(p, NewBucket(p, at), now) == p.burst as real
  {
    RefillGrows(p, now - at);
  }

  lemma LookupStep(p: Params, s: Sys, c: CallId, u: Addr, at: real, now: real, ip: Addr)
    requires p.rps >= 0.0 && Good(p, s, now) && c !in s.calls && at <= now
    ensures var s' := DoLookup(p, s, c, u, at);
            && Good(p, s', now)
            && LiveLevel(p, s', ip, now) == LiveLevel(p, s, ip, now) && Stranded(s', ip) == Stranded(s, ip)
  {
    if u in s.table {
      FindStep(p, s, c, u, at, now, ip);
    } else {
      CreateStep(p, s, c, u, at, now, ip);
    }
  }

  lemma TouchStep(p: Params, s: Sys, c: CallId, now: real, ip: Addr)
    requires Good(p, s, now) && Ready(s, c, false)
    ensures var s' := DoTouch(s, c);
            && Good(p, s', now)
            && LiveLevel(p, s', ip, now) == LiveLevel(p, s, ip, now) && Stranded(s', ip) == Stranded(s, ip)
  {
  }

  // A charge on the live entry costs a token, less what an old reading wins back; a charge on an orphan
  // leaves the live entry alone and uses up one stranded request.
  lemma ChargeStep(p: Params, s: Sys, c: CallId, now: real, ip: Addr)
    requires p.rps >= 0.0 && Good(p, s, now) && Ready(s, c, true)
    ensures var s' := DoCharge(p, s, c);
            var admitted := if Admits(p, s, Charge(c, now), ip) then 1.0 else 0.0;
            && Good(p, s', now)
            && Stranded(s', ip) == Stranded(s, ip) - {c}
            && (c in Stranded(s, ip) ==> LiveLevel(p, s', ip, now) == LiveLevel(p, s, ip, now))
            && (c !in Stranded(s, ip) ==>
                  admitted + LiveLevel(p, s', ip, now)
                  <= LiveLevel(p, s, ip, now) + Refill(p, Lag(p, s, Charge(c, now), ip)))
  {
    TakeAtMeaning(p, s.objs[s.calls[c].ref].entry.bucket, s.calls[c].at, now);
    assert Refill(p, 0.0) == 0.0;
  }

  lemma SweepStep(p: Params, s: Sys, among: Addr -> bool, at: real, now: real, ip: Addr)
    requires Good(p, s, now) && p.rps >= 0.0
    ensures var s' := DoSweep(p, s, among, at);
            && Good(p, s', now)
            && (Swept(p, s, ip, among, at) ==>
                  && LiveLevel(p, s', ip, now) == p.burst as real
                  && Stranded(s', ip) == Stranded(s, ip) + Holders(s, ip) && Stranded(s, ip) !! Holders(s, ip))
            && (!Swept(p, s, ip, among, at) ==>
                  LiveLevel(p, s', ip, now) == LiveLevel(p, s, ip, now) && Stranded(s', ip) == Stranded(s, ip))
  {
  }

  // What a step costs, and what it grants: for an eviction a full bucket, for an admission on an orphan
  // that admission, for one on the live entry the refill of its lag.
  ghost function Cost(p: Params, s: Sys, e: SplitEvent, ip: Addr): real {
    if Admits(p, s, e, ip) then 1.0 else 0.0
  }

  ghost function OrphanGrant(p: Params, s: Sys, e: SplitEvent, ip: Addr): real {
    if AdmitsOrphan(p, s, e, ip) then 1.0 else 0.0
  }

  ghost function SweepGrant(p: Params, s: Sys, e: SplitEvent, ip: Addr): real {
    if Evicts(p, s, e, ip) then p.burst as real else 0.0
  }

  ghost function Grant(p: Params, s: Sys, e: SplitEvent, ip: Addr): real {
    SweepGrant(p, s, e, ip) + OrphanGrant(p, s, e, ip) + Refill(p, Lag(p, s, e, ip))
  }

  ghost function Granted(p: Params, s: Sys, es: seq<SplitEvent>, ip: Addr): real {
    FullBuckets(p, SplitEvictions(p, s, es, ip)) + OrphansAdmitted(p, s, es, ip) as real
    + Refill(p, Lags(p, s, es, ip))
  }

  ghost predicate Timed(e: SplitEvent) {
    e.Lookup? ==> e.at <= e.now
  }

  // The live level and what the step grants pay for what it admits.
  ghost predicate Paid(p: Params, s: Sys, e: SplitEvent, ip: Addr) {
    var s' := SplitStep(p, s, e);
    && Good(p, s', e.now)
    && Cost(p, s, e, ip) + LiveLevel(p, s', ip, e.now) <= LiveLevel(p, s, ip, e.now) + Grant(p, s, e, ip)
  }

  lemma ChargePaid(p: Params, s: Sys, e: SplitEvent, ip: Addr)
    requires p.rps >= 0.0 && Good(p, s, e.now) && e.Charge? && Ready(s, e.c, true)
    ensures Paid(p, s, e, ip)
  {
    ChargeStep(p, s, e.c, e.now, ip);
    assert Refill(p, 0.0) == 0.0;
  }

  lemma SweepPaid(p: Params, s: Sys, e: SplitEvent, ip: Addr)
    requires p.rps >= 0.0 && Good(p, s, e.now) && e.SplitSweep?
    ensures Paid(p, s, e, ip)
  {
    SweepStep(p, s, e.among, e.at, e.now, ip);
    LiveBounds(p, s, ip, e.now);
    assert Refill(p, 0.0) == 0.0;
  }

  lemma StepPaid(p: Params, s: Sys, e: SplitEvent, ip: Addr)
    requires p.rps >= 0.0 && Good(p, s, e.now) && Timed(e)
    ensures Paid(p, s, e, ip)
  {
    if e.SplitSweep? {
      SweepPaid(p, s, e, ip);
    } else if e.Charge? && Ready(s, e.c, true) {
      ChargePaid(p, s, e, ip);
    } else {
      assert Refill(p, 0.0) == 0.0;
      if e.Lookup? && e.c !in s.calls {
        LookupStep(p, s, e.c, e.ip, e.at, e.now, ip);
      } else if e.Touch? && Ready(s, e.c, false) {
        TouchStep(p, s, e.c, e.now, ip);
      }
    }
  }

  // Requests admitted on orphans were stranded before.
  lemma StrandedStep(p: Params, s: Sys, e: SplitEvent, ip: Addr)
    requires p.rps >= 0.0 && Good(p, s, e.now) && Timed(e)
    ensures (if AdmitsOrphan(p, s, e, ip) then 1 else 0) + |Stranded(SplitStep(p, s, e), ip)|
            <= |Stranded(s, ip)| + if Evicts(p, s, e, ip) then |Holders(s, ip)| else 0
  {
    match e
    case Lookup(c, u, at, now) =>
      if c !in s.calls {
        LookupStep(p, s, c, u, at, now, ip);
      }
    case Touch(c, now) =>
      if Ready(s, c, false) {
        TouchStep(p, s, c, now, ip);
      }
    case Charge(c, now) =>
      if Ready(s, c, true) {
        ChargeStep(p, s, c, now, ip);
        if c !in Stranded(s, ip) {
          assert Stranded(s, ip) - {c} == Stranded(s, ip);
        }
      }
    case SplitSweep(among, at, now) => SweepStep(p, s, among, at, now, ip);
  }

  lemma LagsNext(p: Params, s: Sys, es: seq<SplitEvent>, ip: Addr)
    requires es != []
    ensures var front := es[..|es| - 1];
            Lags(p, s, es, ip) == Lags(p, s, front, ip) + Lag(p, SplitRun(p, s, front), es[|es| - 1], ip)
  {
  }

  lemma LagsStep(p: Params, s: Sys, es: seq<SplitEvent>, ip: Addr)
    requires es != []
    ensures var front, e := es[..|es| - 1], es[|es| - 1];
            Refill(p, Lags(p, s, es, ip))
            == Refill(p, Lags(p, s, front, ip)) + Refill(p, Lag(p, SplitRun(p, s, front), e, ip))
  {
    var front, e := es[..|es| - 1], es[|es| - 1];
    LagsNext(p, s, es, ip);
    RefillAdds(p, Lags(p, s, front, ip), Lag(p, SplitRun(p, s, front), e, ip));
  }

  lemma CountsStep(p: Params, s: Sys, es: seq<SplitEvent>, ip: Addr)
    requires es != []
    ensures var front, e := es[..|es| - 1], es[|es| - 1];
            var before := SplitRun(p, s, front);
            && SplitAdmitted(p, s, es, ip) as real == SplitAdmitted(p, s, front, ip) as real + Cost(p, before, e, ip)
            && OrphansAdmitted(p, s, es, ip) as real
               == OrphansAdmitted(p, s, front, ip) as real + OrphanGrant(p, before, e, ip)
            && FullBuckets(p, SplitEvictions(p, s, es, ip))
               == FullBuckets(p, SplitEvictions(p, s, front, ip)) + SweepGrant(p, before, e, ip)
  {
  }

  // ----- whole runs

  // The books of a run: what was admitted and is left, against the first level, time and grants.
  ghost predicate Ledger(admitted: real, left: real, first: real, time: real, granted: real) {
    admitted + left <= first + time + granted
  }

  lemma LedgerNext(
    admitted: real, left: real, first: real, time: real, granted: real,
    cost: real, stepped: real, grant: real, later: real, more: real)
    requires Ledger(admitted, left, first, time, granted)
    requires cost + stepped <= left + grant && later <= stepped + more
    ensures Ledger(admitted + cost, later, first, time + more, granted + grant)
  {
  }

  ghost predicate Balanced(p: Params, s: Sys, es: seq<SplitEvent>, ip: Addr, from: real, to: real) {
    var s' := SplitRun(p, s, es);
    && Good(p, s', to)
    && Ledger(
         SplitAdmitted(p, s, es, ip) as real, LiveLevel(p, s', ip, to), LiveLevel(p, s, ip, from),
         Refill(p, to - from), Granted(p, s, es, ip))
  }

  lemma {:induction false} Credit(p: Params, s: Sys, es: seq<SplitEvent>, ip: Addr, from: real, to: real)
    requires p.rps >= 0.0 && Good(p, s, from) && SplitClocked(es, from, to)
    ensures Balanced(p, s, es, ip, from, to)
  {
    if es == [] {
      assert Refill(p, 0.0) == 0.0;
      LiveGrowth(p, s, ip, from, to);
    } else {
      var front, e := es[..|es| - 1], es[|es| - 1];
      assert SplitClocked(front, from, e.now);
      Credit(p, s, front, ip, from, e.now);
      CreditNext(p, s, es, ip, from, to);
    }
  }

  lemma CreditNext(p: Params, s: Sys, es: seq<SplitEvent>, ip: Addr, from: real, to: real)
    requires p.rps >= 0.0 && es != [] && es[|es| - 1].now <= to && Timed(es[|es| - 1])
    requires Balanced(p, s, es[..|es| - 1], ip, from, es[|es| - 1].now)
    ensures Balanced(p, s, es, ip, from, to)
  {
    var front, e := es[..|es| - 1], es[|es| - 1];
    var before, after := SplitRun(p, s, front), SplitRun(p, s, es);
    StepPaid(p, before, e, ip);
    CountsStep(p, s, es, ip);
    LagsStep(p, s, es, ip);
    LiveGrowth(p, after, ip, e.now, to);
    RefillSplits(p, from, e.now, to);
    LedgerNext(
      SplitAdmitted(p, s, front, ip) as real, LiveLevel(p, before, ip, e.now), LiveLevel(p, s, ip, from),
      Refill(p, e.now - from), Granted(p, s, front, ip), Cost(p, before, e, ip), LiveLevel(p, after, ip, e.now),
      Grant(p, before, e, ip), LiveLevel(p, after, ip, to), Refill(p, to - e.now));
  }

  /** Every request admitted on an orphan held its entry when the entry was evicted, in the window or before
      it. */
  lemma {:induction false} OrphansWereStranded(
    p: Params, s: Sys, es: seq<SplitEvent>, ip: Addr, from: real, to: real)
    requires p.rps >= 0.0 && Good(p, s, from) && SplitClocked(es, from, to)
    ensures OrphansAdmitted(p, s, es, ip) + |Stranded(SplitRun(p, s, es), ip)|
            <= |Stranded(s, ip)| + Strandings(p, s, es, ip)
  {
    if es != [] {
      var front, e := es[..|es| - 1], es[|es| - 1];
      assert SplitClocked(front, from, e.now);
      OrphansWereStranded(p, s, front, ip, from, e.now);
      Credit(p, s, front, ip, from, e.now);
      StrandedStep(p, SplitRun(p, s, front), e, ip);
    }
  }

  ghost function Empty(): Sys {
    Sys([], map[], map[])
  }

  // What a window may admit beyond full buckets and the passing of time.
  ghost function Slack(p: Params, s: Sys, window: seq<SplitEvent>, ip: Addr): real {
    OrphansAdmitted(p, s, window, ip) as real + Refill(p, Lags(p, s, window, ip))
  }

  lemma SplitWindow(p: Params, s: Sys, window: seq<SplitEvent>, ip: Addr, from: real, to: real)
    requires p.rps >= 0.0 && Good(p, s, from) && SplitClocked(window, from, to)
    ensures SplitAdmitted(p, s, window, ip) as real
            <= p.burst as real + (Refill(p, to - from) + Slack(p, s, window, ip))
               + FullBuckets(p, SplitEvictions(p, s, window, ip))
  {
    Credit(p, s, window, ip, from, to);
    LiveBounds(p, s, ip, from);
    LiveBounds(p, SplitRun(p, s, window), ip, to);
  }

  lemma Reachable(p: Params, prefix': seq<SplitEvent>, from: real)
    requires p.Valid() && SplitClocked(prefix', 0.0, from)
    ensures Good(p, SplitRun(p, Empty(), prefix'), from)
  {
    Credit(p, Empty(), prefix', Addr(false, 0), 0.0, from);
  }

  /** The rate bound with split requests: in every window of every interleaving, one address is
      admitted at most burst * (1 + E) + rps * (to - from) times, plus once for each request admitted on
      an entry already evicted, plus the refill of the time that the others admitted spent between
      reading the clock and charging. */
  lemma SplitRateBound(p: Params, prefix': seq<SplitEvent>, window: seq<SplitEvent>, ip: Addr, from: real, to: real)
    requires p.Valid() && SplitClocked(prefix', 0.0, from) && SplitClocked(window, from, to)
    ensures var s := SplitRun(p, Empty(), prefix');
            Within(
              p, SplitAdmitted(p, s, window, ip), SplitEvictions(p, s, window, ip),
              Refill(p, to - from) + Slack(p, s, window, ip))
    ensures var s := SplitRun(p, Empty(), prefix');
            OrphansAdmitted(p, s, window, ip) <= |Stranded(s, ip)| + Strandings(p, s, window, ip)
  {
    var s := SplitRun(p, Empty(), prefix');
    Reachable(p, prefix', from);
    SplitWindow(p, s, window, ip, from, to);
    OrphansWereStranded(p, s, window, ip, from, to);
    AsProduct(
      p, SplitAdmitted(p, s, window, ip), SplitEvictions(p, s, window, ip),
      Refill(p, to - from) + Slack(p, s, window, ip));
  }

  /** The plain bound, by evictions and time alone, holds in every window in which no request is admitted on
      an evicted entry or with an old clock reading. */
  lemma PlainBoundHolds(p: Params, prefix': seq<SplitEvent>, window: seq<SplitEvent>, ip: Addr, from: real, to: real)
    requires p.Valid() && SplitClocked(prefix', 0.0, from) && SplitClocked(window, from, to)
    requires var s := SplitRun(p, Empty(), prefix');
             OrphansAdmitted(p, s, window, ip) == 0 && Lags(p, s, window, ip) == 0.0
    ensures var s := SplitRun(p, Empty(), prefix');
            Within(p, SplitAdmitted(p, s, window, ip), SplitEvictions(p, s, window, ip), Refill(p, to - from))
  {
    SplitRateBound(p, prefix', window, ip, from, to);
    assert Refill(p, 0.0) == 0.0;
  }

  // ----- both kinds of slack are needed, whatever the parameters

  lemma Snoc(p: Params, s: Sys, es: seq<SplitEvent>, e: SplitEvent, ip: Addr)
    ensures SplitRun(p, s, es + [e]) == SplitStep(p, SplitRun(p, s, es), e)
    ensures SplitAdmitted(p, s, es + [e], ip)
            == SplitAdmitted(p, s, es, ip) + if Admits(p, SplitRun(p, s, es), e, ip) then 1 else 0
    ensures Lags(p, s, es + [e], ip) == Lags(p, s, es, ip) + Lag(p, SplitRun(p, s, es), e, ip)
  {
    assert (es + [e])[..|es|] == es;
  }

  lemma {:induction false} RunConcat(p: Params, s: Sys, a: seq<SplitEvent>, b: seq<SplitEvent>)
    ensures SplitRun(p, s, a + b) == SplitRun(p, SplitRun(p, s, a), b)
  {
    if b == [] {
      assert a + b == a;
    } else {
      assert (a + b)[..|a + b| - 1] == a + b[..|b| - 1];
      RunConcat(p, s, a, b[..|b| - 1]);
    }
  }

  lemma {:induction false} AdmittedConcat(p: Params, s: Sys, a: seq<SplitEvent>, b: seq<SplitEvent>, ip: Addr)
    ensures SplitAdmitted(p, s, a + b, ip) == SplitAdmitted(p, s, a, ip) + SplitAdmitted(p, SplitRun(p, s, a), b, ip)
  {
    if b == [] {
      assert a + b == a;
    } else {
      assert (a + b)[..|a + b| - 1] == a + b[..|b| - 1];
      RunConcat(p, s, a, b[..|b| - 1]);
      AdmittedConcat(p, s, a, b[..|b| - 1], ip);
    }
  }

  lemma {:induction false} LagsConcat(p: Params, s: Sys, a: seq<SplitEvent>, b: seq<SplitEvent>, ip: Addr)
    ensures Lags(p, s, a + b, ip) == Lags(p, s, a, ip) + Lags(p, SplitRun(p, s, a), b, ip)
  {
    if b == [] {
      assert a + b == a;
    } else {
      assert (a + b)[..|a + b| - 1] == a + b[..|b| - 1];
      RunConcat(p, s, a, b[..|b| - 1]);
      LagsConcat(p, s, a, b[..|b| - 1], ip);
    }
  }

  lemma SplitConcat(p: Params, s: Sys, a: seq<SplitEvent>, b: seq<SplitEvent>, ip: Addr)
    ensures SplitRun(p, s, a + b) == SplitRun(p, SplitRun(p, s, a), b)
    ensures SplitAdmitted(p, s, a + b, ip) == SplitAdmitted(p, s, a, ip) + SplitAdmitted(p, SplitRun(p, s, a), b, ip)
    ensures Lags(p, s, a + b, ip) == Lags(p, s, a, ip) + Lags(p, SplitRun(p, s, a), b, ip)
  {
    RunConcat(p, s, a, b);
    AdmittedConcat(p, s, a, b, ip);
    LagsConcat(p, s, a, b, ip);
  }

  ghost predicate NoSweep(es: seq<SplitEvent>) {
    forall i :: 0 <= i < |es| ==> !es[i].SplitSweep?
  }

  lemma {:induction false} NoSweepNoEviction(p: Params, s: Sys, es: seq<SplitEvent>, ip: Addr)
    requires NoSweep(es)
    ensures SplitEvictions(p, s, es, ip) == 0 && Strandings(p, s, es, ip) == 0
  {
    if es != [] {
      NoSweepNoEviction(p, s, es[..|es| - 1], ip);
    }
  }

  // A whole request that read the clock at `at` and takes its steps at `now`.
  ghost function Visit(c: CallId, ip: Addr, at: real, now: real): seq<SplitEvent> {
    [Lookup(c, ip, at, now)] + [Touch(c, now)] + [Charge(c, now)]
  }

  ghost function VisibleTo(p: Params, s: Sys, ip: Addr, at: real): real {
    if ip in s.table && s.table[ip] < |s.objs| then Shown(p, s.objs[s.table[ip]].entry.bucket, at)
    else p.burst as real
  }

  ghost predicate HasBucket(s: Sys, ip: Addr, b: Bucket) {
    ip in s.table && s.table[ip] < |s.objs| && s.objs[s.table[ip]].entry.bucket == b
  }

  lemma LookupFinds(p: Params, s: Sys, c: CallId, ip: Addr, at: real, now: real)
    requires p.rps >= 0.0 && Good(p, s, now) && c !in s.calls && at <= now
    ensures var s' := SplitStep(p, s, Lookup(c, ip, at, now));
            && Good(p, s', now) && s'.calls == s.calls[c := Found(s'.table[ip], at)]
            && ip in s'.table && VisibleTo(p, s', ip, at) == VisibleTo(p, s, ip, at)
  {
    LookupStep(p, s, c, ip, at, now, ip);
    assert Refill(p, at - at) == 0.0;
  }

  lemma TouchAndCharge(p: Params, s: Sys, c: CallId, ip: Addr, at: real, now: real)
    requires p.rps >= 0.0 && Good(p, s, now) && at <= now && ip in s.table
    requires c in s.calls && s.calls[c] == Found(s.table[ip], at) && VisibleTo(p, s, ip, at) >= 1.0
    ensures var s1 := SplitStep(p, s, Touch(c, now));
            var s2 := SplitStep(p, s1, Charge(c, now));
            && Good(p, s2, now) && s2.calls == s.calls - {c}
            && HasBucket(s2, ip, Bucket(VisibleTo(p, s, ip, at) - 1.0, at))
            && Admits(p, s1, Charge(c, now), ip) && Lag(p, s1, Charge(c, now), ip) == now - at
  {
    var s1 := SplitStep(p, s, Touch(c, now));
    TouchStep(p, s, c, now, ip);
    assert s1.calls[c] == Touched(s.table[ip], at) && s1.objs[s.table[ip]].ip == ip;
    assert s1.objs[s.table[ip]].entry.bucket == s.objs[s.table[ip]].entry.bucket;
    ChargeStep(p, s1, c, now, ip);
  }

  // A visit that sees a whole token is admitted and leaves one less, on the clock of its reading.
  lemma VisitRun(p: Params, s: Sys, c: CallId, ip: Addr, at: real, now: real)
    requires p.Valid() && Good(p, s, now) && c !in s.calls && at <= now && VisibleTo(p, s, ip, at) >= 1.0
    ensures var s' := SplitRun(p, s, Visit(c, ip, at, now));
            && Good(p, s', now) && s'.calls == s.calls
            && HasBucket(s', ip, Bucket(VisibleTo(p, s, ip, at) - 1.0, at))
            && SplitAdmitted(p, s, Visit(c, ip, at, now), ip) == 1
            && Lags(p, s, Visit(c, ip, at, now), ip) == now - at
  {
    var e1, e2, e3 := Lookup(c, ip, at, now), Touch(c, now), Charge(c, now);
    Snoc(p, s, [], e1, ip);
    Snoc(p, s, [] + [e1], e2, ip);
    Snoc(p, s, [] + [e1] + [e2], e3, ip);
    assert Visit(c, ip, at, now) == [] + [e1] + [e2] + [e3];
    LookupFinds(p, s, c, ip, at, now);
    TouchAndCharge(p, SplitStep(p, s, e1), c, ip, at, now);
  }

  // ----- run without interruption, the split limiter is the one map

  // The table as one map from addresses to entries.
  ghost function Entries(s: Sys): Buckets {
    map ip | ip in s.table && s.table[ip] < |s.objs| :: s.objs[s.table[ip]].entry
  }

  // The call has found an entry of its address that no other address maps to, full if it is new.
  ghost predicate HasFound(p: Params, s: Sys, s': Sys, c: CallId, ip: Addr, now: real) {
    && ip in s'.table && s'.table[ip] < |s'.objs| && s'.objs[s'.table[ip]].ip == ip
    && s'.calls == s.calls[c := Found(s'.table[ip], now)]
    && s'.objs[s'.table[ip]].entry.bucket == BucketFor(p, Entries(s), ip, now)
    && Entries(s') == Entries(s)[ip := s'.objs[s'.table[ip]].entry]
    && forall u :: u in s'.table && u != ip ==> s'.table[u] != s'.table[ip]
  }

  lemma FoundOld(p: Params, s: Sys, c: CallId, ip: Addr, now: real)
    requires Good(p, s, now) && ip in s.table
    ensures HasFound(p, s, DoLookup(p, s, c, ip, now), c, ip, now)
  {
    var s' := DoLookup(p, s, c, ip, now);
    assert s'.objs == s.objs && s'.table == s.table;
    assert Entries(s') == Entries(s);
  }

  lemma FoundNew(p: Params, s: Sys, c: CallId, ip: Addr, now: real)
    requires Good(p, s, now) && ip !in s.table
    ensures HasFound(p, s, DoLookup(p, s, c, ip, now), c, ip, now)
  {
    var s' := DoLookup(p, s, c, ip, now);
    var m, m' := Entries(s), Entries(s');
    assert forall u :: u in m' <==> u in m || u == ip;
    assert forall u :: u in m ==> m'[u] == m[u];
  }

  lemma FoundEntries(p: Params, s: Sys, c: CallId, ip: Addr, now: real)
    requires Good(p, s, now)
    ensures HasFound(p, s, DoLookup(p, s, c, ip, now), c, ip, now)
  {
    if ip in s.table {
      FoundOld(p, s, c, ip, now);
    } else {
      FoundNew(p, s, c, ip, now);
    }
  }

  // The entry of `ip` becomes `e`, and no other entry changes.
  lemma EntrySet(s: Sys, s': Sys, ip: Addr, e: Entry)
    requires ip in s.table && s.table[ip] < |s.objs| && s'.table == s.table
    requires s'.objs == WithEntry(s, s.table[ip], e)
    requires forall u :: u in s.table && u != ip ==> s.table[u] != s.table[ip]
    ensures Entries(s') == Entries(s)[ip := e]
  {
    var m, m' := Entries(s), Entries(s');
    assert forall u :: u in m' <==> u in m;
    assert forall u :: u in m && u != ip ==> m'[u] == m[u];
  }

  lemma TouchEntries(s: Sys, c: CallId, ip: Addr)
    requires ip in s.table && Ready(s, c, false) && s.calls[c].ref == s.table[ip]
    requires forall u :: u in s.table && u != ip ==> s.table[u] != s.table[ip]
    ensures var s' := DoTouch(s, c); var r, at := s.table[ip], s.calls[c].at;
            && Entries(s') == Entries(s)[ip := s.objs[r].entry.(lastSeen := at)]
            && s'.table == s.table && |s'.objs| == |s.objs| && s'.calls == s.calls[c := Touched(r, at)]
            && s'.objs[r] == s.objs[r].(entry := s.objs[r].entry.(lastSeen := at))
  {
    EntrySet(s, DoTouch(s, c), ip, s.objs[s.table[ip]].entry.(lastSeen := s.calls[c].at));
  }

  lemma ChargeEntries(p: Params, s: Sys, c: CallId, ip: Addr)
    requires ip in s.table && Ready(s, c, true) && s.calls[c].ref == s.table[ip]
    requires forall u :: u in s.table && u != ip ==> s.table[u] != s.table[ip]
    ensures var s' := DoCharge(p, s, c); var r := s.table[ip];
            && Entries(s') ==
               Entries(s)[ip := s.objs[r].entry.(bucket := TakeAt(p, s.objs[r].entry.bucket, s.calls[c].at).0)]
            && s'.calls == s.calls - {c}
  {
    var e := s.objs[s.table[ip]].entry;
    EntrySet(s, DoCharge(p, s, c), ip, e.(bucket := TakeAt(p, e.bucket, s.calls[c].at).0));
  }

  // The states between the steps of an uninterrupted request.
  ghost predicate Uninterrupted(p: Params, s: Sys, s1: Sys, s2: Sys, c: CallId, ip: Addr, now: real) {
    && s1 == DoLookup(p, s, c, ip, now) && Ready(s1, c, false)
    && s2 == DoTouch(s1, c) && Ready(s2, c, true)
  }

  lemma VisitSteps(p: Params, s: Sys, s1: Sys, s2: Sys, c: CallId, ip: Addr, now: real)
    requires c !in s.calls && Uninterrupted(p, s, s1, s2, c, ip, now)
    ensures SplitRun(p, s, Visit(c, ip, now, now)) == DoCharge(p, s2, c)
    ensures SplitAdmitted(p, s, Visit(c, ip, now, now), ip) == if Admits(p, s2, Charge(c, now), ip) then 1 else 0
  {
    var e1, e2, e3 := Lookup(c, ip, now, now), Touch(c, now), Charge(c, now);
    Snoc(p, s, [], e1, ip);
    Snoc(p, s, [] + [e1], e2, ip);
    Snoc(p, s, [] + [e1] + [e2], e3, ip);
    assert SplitStep(p, s, e1) == s1 && SplitStep(p, s1, e2) == s2;
  }

  lemma TakesAlike(p: Params, b: Bucket, now: real)
    requires b.last <= now
    ensures TakeAt(p, b, now) == Take(p, b, now)
  {
  }

  // The whole request, given what its lookup found.
  lemma VisitFrom(p: Params, s: Sys, s1: Sys, c: CallId, ip: Addr, now: real)
    requires c !in s.calls && HasFound(p, s, s1, c, ip, now) && s1 == DoLookup(p, s, c, ip, now)
    ensures var b := BucketFor(p, Entries(s), ip, now); var s' := SplitRun(p, s, Visit(c, ip, now, now));
            && Entries(s') == Put(Entries(s), ip, Entry(TakeAt(p, b, now).0, now)) && s'.calls == s.calls
            && SplitAdmitted(p, s, Visit(c, ip, now, now), ip) == if TakeAt(p, b, now).1 then 1 else 0
  {
    var s2 := DoTouch(s1, c);
    TouchEntries(s1, c, ip);
    assert Uninterrupted(p, s, s1, s2, c, ip, now);
    VisitSteps(p, s, s1, s2, c, ip, now);
    ChargeEntries(p, s2, c, ip);
    var b := BucketFor(p, Entries(s), ip, now);
    ReplacedThrice(Entries(s), ip, s1.objs[s1.table[ip]].entry, Entry(b, now), Entry(TakeAt(p, b, now).0, now));
    CallDone(s.calls, c, Found(s1.table[ip], now), Touched(s1.table[ip], now));
  }

  /** A request whose three steps nothing interrupts is one request of the one-map limiter: same entries, same
      answer. */
  lemma VisitIsAllow(p: Params, s: Sys, c: CallId, ip: Addr, now: real)
    requires Good(p, s, now) && c !in s.calls
    ensures var s' := SplitRun(p, s, Visit(c, ip, now, now));
            var (m', ok) := Allow(p, Entries(s), ip, now);
            && Entries(s') == m' && s'.calls == s.calls
            && SplitAdmitted(p, s, Visit(c, ip, now, now), ip) == if ok then 1 else 0
  {
    FoundEntries(p, s, c, ip, now);
    VisitFrom(p, s, DoLookup(p, s, c, ip, now), c, ip, now);
    BucketNotAhead(p, s, ip, now);
    TakesAlike(p, BucketFor(p, Entries(s), ip, now), now);
  }

  lemma BucketNotAhead(p: Params, s: Sys, ip: Addr, now: real)
    requires Good(p, s, now)
    ensures BucketFor(p, Entries(s), ip, now).last <= now
  {
  }

  lemma ReplacedThrice(m: Buckets, ip: Addr, a: Entry, b: Entry, e: Entry)
    ensures m[ip := a][ip := b][ip := e] == Put(m, ip, e)
  {
  }

  lemma CallDone(calls: map<CallId, Pc>, c: CallId, a: Pc, b: Pc)
    requires c !in calls
    ensures calls[c := a][c := b] - {c} == calls
  {
  }

  /** A sweep drops from the table what a sweep of the one map drops. */
  lemma SplitSweepIsSweep(p: Params, s: Sys, among: Addr -> bool, at: real)
    ensures Entries(DoSweep(p, s, among, at)) == Sweep(p, Entries(s), among, at)
  {
  }

  /** A charge with a reading older than the bucket's clock finds no refill, spends a whole token if one is
      there, and sets the clock back. */
  lemma OldReadingTakes(p: Params, b: Bucket, at: real)
    requires at <= b.last && b.tokens <= p.burst as real
    ensures TakeAt(p, b, at) == if b.tokens >= 1.0 then (Bucket(b.tokens - 1.0, at), true) else (b, false)
  {
    assert Refill(p, b.last - b.last) == 0.0;
  }

  ghost function Visits(c: CallId, ip: Addr, at: real, now: real, n: nat): seq<SplitEvent> {
    if n == 0 then [] else Visits(c, ip, at, now, n - 1) + Visit(c, ip, at, now)
  }

  // Steps of one instant may follow each other.
  ghost predicate Instant(es: seq<SplitEvent>, now: real) {
    forall i :: 0 <= i < |es| ==> es[i].now == now && Timed(es[i]) && !es[i].SplitSweep?
  }

  lemma InstantMeaning(es: seq<SplitEvent>, now: real)
    requires Instant(es, now)
    ensures SplitClocked(es, now, now) && NoSweep(es)
  {
  }

  lemma {:induction false} VisitsClocked(c: CallId, ip: Addr, at: real, now: real, n: nat)
    requires at <= now
    ensures Instant(Visits(c, ip, at, now, n), now)
  {
    if n > 0 {
      VisitsClocked(c, ip, at, now, n - 1);
    }
  }

  // A bucket just charged at `at` shows a call with the same reading what is left.
  lemma ShownAgain(p: Params, s: Sys, ip: Addr, tokens: real, at: real)
    requires HasBucket(s, ip, Bucket(tokens, at)) && tokens <= p.burst as real
    ensures VisibleTo(p, s, ip, at) == tokens
  {
    assert Refill(p, at - at) == 0.0;
  }

  // `es` admits `n` requests, leaves `left` tokens on the clock `at`, and no call under way of its own.
  ghost predicate Uses(
    p: Params, s: Sys, es: seq<SplitEvent>, ip: Addr, at: real, now: real, left: nat, n: nat)
  {
    var s' := SplitRun(p, s, es);
    && Good(p, s', now) && s'.calls == s.calls && VisibleTo(p, s', ip, at) == left as real
    && (n > 0 ==> HasBucket(s', ip, Bucket(left as real, at)))
    && SplitAdmitted(p, s, es, ip) == n && (at == now ==> Lags(p, s, es, ip) == 0.0)
  }

  lemma VisitNext(p: Params, s: Sys, c: CallId, ip: Addr, at: real, now: real, left: nat)
    requires p.Valid() && Good(p, s, now) && c !in s.calls && at <= now && left < p.burst
    requires VisibleTo(p, s, ip, at) == (left + 1) as real
    ensures Uses(p, s, Visit(c, ip, at, now), ip, at, now, left, 1)
  {
    VisitRun(p, s, c, ip, at, now);
    assert (left + 1) as real - 1.0 == left as real;
    ShownAgain(p, SplitRun(p, s, Visit(c, ip, at, now)), ip, left as real, at);
  }

  lemma UsesBoth(
    p: Params, s: Sys, a: seq<SplitEvent>, b: seq<SplitEvent>, ip: Addr, at: real, now: real,
    mid: nat, left: nat, n: nat)
    requires Uses(p, s, a, ip, at, now, mid, n) && Uses(p, SplitRun(p, s, a), b, ip, at, now, left, 1)
    ensures Uses(p, s, a + b, ip, at, now, left, n + 1)
  {
    SplitConcat(p, s, a, b, ip);
  }

  lemma {:induction false} VisitsRun(p: Params, s: Sys, c: CallId, ip: Addr, at: real, now: real, n: nat)
    requires p.Valid() && Good(p, s, now) && c !in s.calls && at <= now
    requires VisibleTo(p, s, ip, at) == p.burst as real && n <= p.burst
    ensures Uses(p, s, Visits(c, ip, at, now, n), ip, at, now, p.burst - n, n)
  {
    if n > 0 {
      VisitsRun(p, s, c, ip, at, now, n - 1);
      var front := Visits(c, ip, at, now, n - 1);
      VisitNext(p, SplitRun(p, s, front), c, ip, at, now, p.burst - n);
      UsesBoth(p, s, front, Visit(c, ip, at, now), ip, at, now, p.burst - (n - 1), p.burst - n, n - 1);
    }
  }

  // At one instant: a call finds its new entry, and a sweep drops it before the call touches it.
  ghost function Stall(ip: Addr, t: real): seq<SplitEvent> {
    [] + [Lookup(0, ip, t, t)] + [SplitSweep(_ => true, t, t)] + [Touch(0, t)]
  }

  lemma StallRun(p: Params, ip: Addr, t: real)
    requires p.Valid() && 0.0 <= t && p.idleTTL < t
    ensures SplitClocked(Stall(ip, t), 0.0, t)
    ensures SplitRun(p, Empty(), Stall(ip, t)) ==
            Sys([Obj(ip, Entry(NewBucket(p, t), t))], map[], map[0 := Touched(0, t)])
  {
    var e1, e2, e3 := Lookup(0, ip, t, t), SplitSweep(_ => true, t, t), Touch(0, t);
    Snoc(p, Empty(), [], e1, ip);
    Snoc(p, Empty(), [] + [e1], e2, ip);
    Snoc(p, Empty(), [] + [e1] + [e2], e3, ip);
    var s1 := SplitStep(p, Empty(), e1);
    assert s1 == Sys([Obj(ip, Entry(NewBucket(p, t), 0.0))], map[ip := 0], map[0 := Found(0, t)]);
    assert SplitStep(p, s1, e2).table == map[];
  }

  lemma StalledCharge(p: Params, ip: Addr, t: real)
    requires p.Valid()
    ensures var s := Sys([Obj(ip, Entry(NewBucket(p, t), t))], map[], map[0 := Touched(0, t)]);
            var s' := SplitStep(p, s, Charge(0, t));
            && Admits(p, s, Charge(0, t), ip) && Lag(p, s, Charge(0, t), ip) == 0.0
            && Good(p, s, t) && Good(p, s', t) && s'.table == map[] && s'.calls == map[]
  {
    var s := Sys([Obj(ip, Entry(NewBucket(p, t), t))], map[], map[0 := Touched(0, t)]);
    assert Refill(p, t - t) == 0.0;
    TakeAtMeaning(p, NewBucket(p, t), t, t);
  }

  lemma OrphanThenNew(p: Params, ip: Addr, t: real)
    requires p.Valid() && 0.0 <= t
    ensures var s := Sys([Obj(ip, Entry(NewBucket(p, t), t))], map[], map[0 := Touched(0, t)]);
            var window := [Charge(0, t)] + Visits(1, ip, t, t, p.burst);
            Lags(p, s, window, ip) == 0.0 && SplitAdmitted(p, s, window, ip) == p.burst + 1
  {
    var s := Sys([Obj(ip, Entry(NewBucket(p, t), t))], map[], map[0 := Touched(0, t)]);
    var first, rest := [Charge(0, t)], Visits(1, ip, t, t, p.burst);
    StalledCharge(p, ip, t);
    Snoc(p, s, [], Charge(0, t), ip);
    assert [] + [Charge(0, t)] == first;
    VisitsRun(p, SplitRun(p, s, first), 1, ip, t, t, p.burst);
    SplitConcat(p, s, first, rest, ip);
  }

  /** Charges on orphans break the plain bound, for every limiter: some window of one instant, with no
      eviction in it and no old clock reading, admits burst + 1 requests of one address. */
  lemma OrphansBreakPlainBound(p: Params, ip: Addr) returns (prefix': seq<SplitEvent>, window: seq<SplitEvent>, t: real)
    requires p.Valid()
    ensures SplitClocked(prefix', 0.0, t) && SplitClocked(window, t, t)
    ensures var s := SplitRun(p, Empty(), prefix');
            && SplitEvictions(p, s, window, ip) == 0 && Strandings(p, s, window, ip) == 0
            && Lags(p, s, window, ip) == 0.0
            && SplitAdmitted(p, s, window, ip) == p.burst + 1
  {
    t := (if p.idleTTL < 0.0 then 0.0 else p.idleTTL) + 1.0;
    prefix' := Stall(ip, t);
    StallRun(p, ip, t);
    var s := SplitRun(p, Empty(), prefix');
    window := [Charge(0, t)] + Visits(1, ip, t, t, p.burst);
    OrphanThenNew(p, ip, t);
    VisitsClocked(1, ip, t, t, p.burst);
    InstantMeaning(window, t);
    NoSweepNoEviction(p, s, window, ip);
  }

  /** So do old clock readings: some window of one instant, with no eviction and no admission on an orphan,
      admits burst + 1 requests of one address. */
  lemma OldReadingsBreakPlainBound(p: Params, ip: Addr) returns (window: seq<SplitEvent>, t: real)
    requires p.Valid()
    ensures 0.0 <= t && SplitClocked(window, t, t)
    ensures SplitEvictions(p, Empty(), window, ip) == 0 && OrphansAdmitted(p, Empty(), window, ip) == 0
    ensures SplitAdmitted(p, Empty(), window, ip) == p.burst + 1
  {
    t := 1.0 / p.rps;
    var old' := Visits(0, ip, 0.0, t, p.burst);
    window := old' + Visit(0, ip, t, t);
    OldThenNew(p, ip, t);
    VisitsClocked(0, ip, 0.0, t, p.burst);
    InstantMeaning(window, t);
    NoSweepNoEviction(p, Empty(), window, ip);
    OrphansWereStranded(p, Empty(), window, ip, t, t);
  }

  lemma OldThenNew(p: Params, ip: Addr, t: real)
    requires p.Valid() && t == 1.0 / p.rps
    ensures SplitAdmitted(p, Empty(), Visits(0, ip, 0.0, t, p.burst) + Visit(0, ip, t, t), ip) == p.burst + 1
  {
    var old' := Visits(0, ip, 0.0, t, p.burst);
    VisitsRun(p, Empty(), 0, ip, 0.0, t, p.burst);
    var s := SplitRun(p, Empty(), old');
    RefilledOne(p, s, ip, t);
    VisitRun(p, s, 0, ip, t, t);
    AdmittedConcat(p, Empty(), old', Visit(0, ip, t, t), ip);
  }

  lemma RefilledOne(p: Params, s: Sys, ip: Addr, t: real)
    requires p.Valid() && t == 1.0 / p.rps && HasBucket(s, ip, Bucket(0.0, 0.0))
    ensures VisibleTo(p, s, ip, t) == 1.0
  {
    assert t >= 0.0 && Later(t, 0.0) == t && t - 0.0 == t;
    assert Refill(p, t) == 1.0;
  }
}
