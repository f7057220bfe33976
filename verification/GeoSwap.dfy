/** Swapping the geo database while lookups run. A lookup holds the read lock for the whole call into
    the database; a reload opens a new database, swaps it in under the write lock and closes the
    displaced one after unlocking. Steps of any number of goroutines interleave freely; the lock is
    modelled with no preference between readers and writers, which allows every order Go's does. */
module GeoSwap {
  import opened Wrappers

  type Tid = nat
  type Db = nat

  datatype Pc =
    | Idle
    | ReadLocked
    | Reading(db: Db)
    | Built(next: Option<Db>)
    | WriteLocked(next: Option<Db>)
    | Swapped(old': Option<Db>)
    | Unlocked(old': Option<Db>)

  // `made` counts the databases opened so far and names the next; `closes` logs the close calls of
  // reloads and `shuts` those of shutdowns; `leaked` are those whose reload gave up after opening them.
  datatype Sys = Sys(
    pcs: map<Tid, Pc>, geo: Option<Db>, made: nat, closes: seq<Db>, shuts: seq<Db>, leaked: set<Db>)

  datatype Action =
    | RLock(t: Tid) | StartRead(t: Tid) | EndRead(t: Tid) | RUnlock(t: Tid)
    | Build(t: Tid, withDb: bool) | GiveUp(t: Tid) | Lock(t: Tid) | Swap(t: Tid) | Unlock(t: Tid) | CloseOld(t: Tid)
    | Shutdown(t: Tid)

  ghost function PcOf(s: Sys, t: Tid): Pc {
    if t in s.pcs then s.pcs[t] else Idle
  }

  ghost function Goto(s: Sys, t: Tid, pc: Pc): Sys {
    s.(pcs := s.pcs[t := pc])
  }

  ghost predicate HoldsRead(pc: Pc) {
    pc.ReadLocked? || pc.Reading?
  }

  ghost predicate HoldsWrite(pc: Pc) {
    pc.WriteLocked? || pc.Swapped?
  }

  ghost predicate NoWriter(s: Sys) {
    forall t :: !HoldsWrite(PcOf(s, t))
  }

  ghost predicate LockFree(s: Sys) {
    forall t :: !HoldsWrite(PcOf(s, t)) && !HoldsRead(PcOf(s, t))
  }

  // The database a reload has in hand: opened and not installed, or displaced and not closed.
  ghost function InHand(pc: Pc): Option<Db> {
    match pc
    case Built(d) => d
    case WriteLocked(d) => d
    case Swapped(d) => d
    case Unlocked(d) => d
    case _ => None
  }

  // An action that is blocked or out of place changes nothing.
  ghost function Step(s: Sys, a: Action): Sys {
    var pc := PcOf(s, a.t);
    match a
    case RLock(t) => if pc.Idle? && NoWriter(s) then Goto(s, t, ReadLocked) else s
    case StartRead(t) => if pc.ReadLocked? && s.geo.Some? then Goto(s, t, Reading(s.geo.value)) else s
    case EndRead(t) => if pc.Reading? then Goto(s, t, ReadLocked) else s
    case RUnlock(t) => if pc.ReadLocked? then Goto(s, t, Idle) else s
    case Build(t, withDb) =>
      if !pc.Idle? then s
      else if withDb then Goto(s, t, Built(Some(s.made))).(made := s.made + 1)
      else Goto(s, t, Built(None))
    case GiveUp(t) =>
      if !pc.Built? then s
      else Goto(s, t, Idle).(leaked := s.leaked + if pc.next.Some? then {pc.next.value} else {})
    case Lock(t) => if pc.Built? && LockFree(s) then Goto(s, t, WriteLocked(pc.next)) else s
    case Swap(t) => if pc.WriteLocked? then Goto(s, t, Swapped(s.geo)).(geo := pc.next) else s
    case Unlock(t) => if pc.Swapped? then Goto(s, t, Unlocked(pc.old')) else s
    case CloseOld(t) =>
      if !pc.Unlocked? then s
      else Goto(s, t, Idle).(closes := s.closes + if pc.old'.Some? then [pc.old'.value] else [])
    // Closes the installed database under the read lock, and leaves it installed.
    case Shutdown(t) => if pc.ReadLocked? && s.geo.Some? then s.(shuts := s.shuts + [s.geo.value]) else s
  }

  ghost function Exec(s: Sys, actions: seq<Action>): Sys {
    if actions == [] then s else Step(Exec(s, actions[..|actions| - 1]), actions[|actions| - 1])
  }

  // Startup, with or without a database.
  ghost function Init(withDb: bool): Sys {
    if withDb then Sys(map[], Some(0), 1, [], [], {}) else Sys(map[], None, 0, [], [], {})
  }

  // ----- invariant

  // Where a database can be: installed, in one reload's hand, closed, or leaked.
  ghost predicate Loose(s: Sys, d: Db) {
    d < s.made && d !in s.closes && d !in s.leaked
  }

  ghost predicate Locks(s: Sys) {
    && (forall t, u :: HoldsWrite(PcOf(s, t)) && HoldsRead(PcOf(s, u)) ==> false)
    && (forall t, u :: HoldsWrite(PcOf(s, t)) && HoldsWrite(PcOf(s, u)) ==> t == u)
    && forall t :: PcOf(s, t).Reading? ==> s.geo == Some(PcOf(s, t).db)
  }

  ghost predicate Owned(s: Sys) {
    && (s.geo.Some? ==> Loose(s, s.geo.value))
    && (forall t :: InHand(PcOf(s, t)).Some? ==> Loose(s, InHand(PcOf(s, t)).value) && s.geo != InHand(PcOf(s, t)))
    && forall t, u :: t != u && InHand(PcOf(s, t)).Some? ==> InHand(PcOf(s, t)) != InHand(PcOf(s, u))
  }

  ghost predicate ClosedOnce(s: Sys) {
    && (forall i, j :: 0 <= i < j < |s.closes| ==> s.closes[i] != s.closes[j])
    && (forall d :: d in s.closes ==> d < s.made && d !in s.leaked)
    && forall d :: d in s.leaked ==> d < s.made
  }

  ghost predicate Accounted(s: Sys, d: Db) {
    s.geo == Some(d) || d in s.closes || d in s.leaked || exists t :: InHand(PcOf(s, t)) == Some(d)
  }

  ghost predicate SysInv(s: Sys) {
    Locks(s) && Owned(s) && ClosedOnce(s) && forall d: Db :: d < s.made ==> Accounted(s, d)
  }

  // ----- preservation

  lemma StepLocks(s: Sys, a: Action)
    requires SysInv(s)
    ensures Locks(Step(s, a))
  {
    var s' := Step(s, a);
    assert forall u :: u != a.t ==> PcOf(s', u) == PcOf(s, u);
    if a.Swap? && PcOf(s, a.t).WriteLocked? {
      assert HoldsWrite(PcOf(s, a.t));
      assert forall u :: !HoldsRead(PcOf(s, u));
    }
  }

  lemma StepOwned(s: Sys, a: Action)
    requires SysInv(s)
    ensures Owned(Step(s, a))
  {
    var s', t := Step(s, a), a.t;
    assert forall u :: u != t ==> PcOf(s', u) == PcOf(s, u);
    assert forall d :: d in s'.closes ==> d in s.closes || InHand(PcOf(s, t)) == Some(d);
  }

  lemma StepClosedOnce(s: Sys, a: Action)
    requires SysInv(s)
    ensures ClosedOnce(Step(s, a))
  {
    var s', pc := Step(s, a), PcOf(s, a.t);
    if InHand(pc).Some? {
      assert Loose(s, InHand(pc).value);
    }
    assert forall d :: d in s'.closes ==> d in s.closes || InHand(pc) == Some(d);
  }

  lemma StepAccounted(s: Sys, a: Action, d: Db)
    requires SysInv(s) && d < Step(s, a).made
    ensures Accounted(Step(s, a), d)
  {
    var s', t := Step(s, a), a.t;
    var pc := PcOf(s, t);
    assert forall u :: u != t ==> PcOf(s', u) == PcOf(s, u);
    if d < s.made {
      assert Accounted(s, d);
      if u :| InHand(PcOf(s, u)) == Some(d) && u != t {
        assert InHand(PcOf(s', u)) == Some(d);
      } else if InHand(pc) == Some(d) || s.geo == Some(d) {
        assert InHand(PcOf(s', t)) == Some(d) || s'.geo == Some(d) || d in s'.leaked || s'.closes == s.closes + [d];
      }
    } else {
      assert InHand(PcOf(s', t)) == Some(d);
    }
  }

  lemma {:induction false} ExecKeeps(withDb: bool, actions: seq<Action>)
    ensures SysInv(Exec(Init(withDb), actions))
  {
    if actions != [] {
      var s, a := Exec(Init(withDb), actions[..|actions| - 1]), actions[|actions| - 1];
      ExecKeeps(withDb, actions[..|actions| - 1]);
      StepLocks(s, a);
      StepOwned(s, a);
      StepClosedOnce(s, a);
      forall d: Db | d < Step(s, a).made
        ensures Accounted(Step(s, a), d)
      {
        StepAccounted(s, a, d);
      }
    }
  }

  // ----- the theorems

  /** No use after a reload's close: in every interleaving, shutdowns included, a database that any
      lookup is reading is the installed one and no reload has closed it; and the write lock excludes
      everyone. */
  lemma NoUseAfterClose(withDb: bool, actions: seq<Action>, t: Tid)
    ensures var s := Exec(Init(withDb), actions);
            && (PcOf(s, t).Reading? ==> s.geo == Some(PcOf(s, t).db) && PcOf(s, t).db !in s.closes)
            && (HoldsWrite(PcOf(s, t)) ==> forall u :: u != t ==> !HoldsRead(PcOf(s, u)) && !HoldsWrite(PcOf(s, u)))
  {
    ExecKeeps(withDb, actions);
  }

  /** Every database ever opened is at all times in exactly one place: installed, in the hand of
      exactly one reload, closed exactly once, or leaked. */
  lemma OnePlaceEach(withDb: bool, actions: seq<Action>, d: Db)
    requires d < Exec(Init(withDb), actions).made
    ensures var s := Exec(Init(withDb), actions);
            var inHand := exists t :: InHand(PcOf(s, t)) == Some(d);
            && (s.geo == Some(d) || d in s.closes || d in s.leaked || inHand)
            && !(s.geo == Some(d) && (d in s.closes || d in s.leaked || inHand))
            && !(d in s.closes && (d in s.leaked || inHand)) && !(d in s.leaked && inHand)
            && (forall t, u :: InHand(PcOf(s, t)) == Some(d) && InHand(PcOf(s, u)) == Some(d) ==> t == u)
            && multiset(s.closes)[d] <= 1
  {
    ExecKeeps(withDb, actions);
    var s := Exec(Init(withDb), actions);
    assert Accounted(s, d);
    CountNoDup(s.closes, d);
  }

  lemma {:induction false} CountNoDup(xs: seq<Db>, d: Db)
    requires forall i, j :: 0 <= i < j < |xs| ==> xs[i] != xs[j]
    ensures multiset(xs)[d] == if d in xs then 1 else 0
  {
    if xs != [] {
      var n := |xs| - 1;
      CountNoDup(xs[..n], d);
      assert xs == xs[..n] + [xs[n]];
      assert xs[n] !in xs[..n];
    }
  }

  /** Once no reload is under way, the databases closed are exactly those opened and no longer
      installed, each closed once; the exception is a database whose reload gave up. */
  lemma AllDisplacedClosed(withDb: bool, actions: seq<Action>, d: Db)
    requires var s := Exec(Init(withDb), actions);
             forall t :: InHand(PcOf(s, t)).None?
    ensures var s := Exec(Init(withDb), actions);
            multiset(s.closes)[d] == if d < s.made && s.geo != Some(d) && d !in s.leaked then 1 else 0
  {
    ExecKeeps(withDb, actions);
    var s := Exec(Init(withDb), actions);
    CountNoDup(s.closes, d);
    if d < s.made {
      assert Accounted(s, d);
    }
  }

  // ----- shutdown

  ghost predicate Swaps(s: Sys, a: Action) {
    a.Swap? && PcOf(s, a.t).WriteLocked?
  }

  ghost predicate Shuts(s: Sys, a: Action) {
    a.Shutdown? && PcOf(s, a.t).ReadLocked? && s.geo.Some?
  }

  ghost predicate StartsRead(s: Sys, a: Action) {
    a.StartRead? && PcOf(s, a.t).ReadLocked? && s.geo.Some?
  }

  ghost predicate SomeoneReads(s: Sys) {
    exists t :: PcOf(s, t).Reading?
  }

  // Some lookup is reading a database that was closed, by a reload or by a shutdown.
  ghost predicate ReadsClosed(s: Sys) {
    exists t :: PcOf(s, t).Reading? && (PcOf(s, t).db in s.closes || PcOf(s, t).db in s.shuts)
  }

  // Databases that shutdowns closed exist, were installed, and are not waiting to be.
  ghost predicate ShutOk(s: Sys) {
    && (forall d :: d in s.shuts ==> d < s.made && d !in s.leaked)
    && forall t :: Waiting(PcOf(s, t)).Some? ==> Waiting(PcOf(s, t)).value !in s.shuts
  }

  // The database a reload is about to install.
  ghost function Waiting(pc: Pc): Option<Db> {
    if pc.Built? || pc.WriteLocked? then pc.next else None
  }

  lemma StepShutOk(s: Sys, a: Action)
    requires SysInv(s) && ShutOk(s)
    ensures ShutOk(Step(s, a))
  {
    var s', t := Step(s, a), a.t;
    assert forall d :: d in s'.shuts ==> d in s.shuts || s.geo == Some(d);
    forall u | Waiting(PcOf(s', u)).Some?
      ensures Waiting(PcOf(s', u)).value !in s'.shuts
    {
      assert u != t ==> PcOf(s', u) == PcOf(s, u);
      assert InHand(PcOf(s, u)).Some? ==> s.geo != InHand(PcOf(s, u));
    }
  }

  // What one action does to the installed database, to the shutdown log and to the readers.
  lemma Effects(s: Sys, a: Action)
    ensures var s' := Step(s, a);
            && s'.geo == (if Swaps(s, a) then Waiting(PcOf(s, a.t)) else s.geo)
            && s'.shuts == (if Shuts(s, a) then s.shuts + [s.geo.value] else s.shuts)
            && (SomeoneReads(s') ==> SomeoneReads(s) || StartsRead(s, a))
            && (StartsRead(s, a) || (Shuts(s, a) && SomeoneReads(s)) ==> SomeoneReads(s'))
            && !(StartsRead(s, a) && (Shuts(s, a) || Swaps(s, a))) && !(Shuts(s, a) && Swaps(s, a))
  {
    var s' := Step(s, a);
    assert forall u :: u != a.t ==> PcOf(s', u) == PcOf(s, u);
    if t :| PcOf(s', t).Reading? {
      assert PcOf(s, t).Reading? || (t == a.t && StartsRead(s, a));
    }
    if StartsRead(s, a) {
      assert PcOf(s', a.t).Reading?;
    }
    if t :| Shuts(s, a) && PcOf(s, t).Reading? {
      assert PcOf(s', t).Reading?;
    }
  }

  // ----- runs with their states

  ghost predicate Goes(actions: seq<Action>, tr: seq<Sys>, n: nat)
    requires n < |actions| && |tr| == |actions| + 1
  {
    tr[n + 1] == Step(tr[n], actions[n])
  }

  // `tr` lists the states that a run of `actions` from startup goes through.
  ghost predicate IsRun(withDb: bool, actions: seq<Action>, tr: seq<Sys>) {
    && |tr| == |actions| + 1 && tr[0] == Init(withDb)
    && forall n: nat :: n < |actions| ==> Goes(actions, tr, n)
  }

  // Every sequence of actions is a run.
  lemma RunOf(withDb: bool, actions: seq<Action>) returns (tr: seq<Sys>)
    ensures IsRun(withDb, actions, tr) && tr[|actions|] == Exec(Init(withDb), actions)
  {
    tr := seq(|actions| + 1, n requires 0 <= n <= |actions| => Exec(Init(withDb), actions[..n]));
    forall n: nat | n < |actions|
      ensures Goes(actions, tr, n)
    {
      assert actions[..n + 1][..n] == actions[..n];
    }
    assert actions[..|actions|] == actions;
  }

  lemma {:induction false} RunStates(withDb: bool, actions: seq<Action>, tr: seq<Sys>, n: nat)
    requires IsRun(withDb, actions, tr) && n <= |actions|
    ensures tr[n] == Exec(Init(withDb), actions[..n]) && SysInv(tr[n]) && ShutOk(tr[n])
  {
    if n > 0 {
      RunStates(withDb, actions, tr, n - 1);
      assert Goes(actions, tr, n - 1);
      assert actions[..n][..n - 1] == actions[..n - 1];
      StepShutOk(tr[n - 1], actions[n - 1]);
    }
    ExecKeeps(withDb, actions[..n]);
  }

  // Among the first `n` actions there is a shutdown, and no swap after it.
  ghost predicate ShutSinceSwap(actions: seq<Action>, tr: seq<Sys>, n: nat)
    requires n <= |actions| < |tr|
  {
    exists k :: 0 <= k < n && Shuts(tr[k], actions[k]) && forall i :: k < i < n ==> !Swaps(tr[i], actions[i])
  }

  lemma ShutSinceSwapNext(actions: seq<Action>, tr: seq<Sys>, n: nat)
    requires n < |actions| < |tr|
    ensures ShutSinceSwap(actions, tr, n + 1) <==>
            Shuts(tr[n], actions[n]) || (ShutSinceSwap(actions, tr, n) && !Swaps(tr[n], actions[n]))
  {
    if ShutSinceSwap(actions, tr, n) && !Swaps(tr[n], actions[n]) {
      var k :| 0 <= k < n && Shuts(tr[k], actions[k]) && forall i :: k < i < n ==> !Swaps(tr[i], actions[i]);
      assert Shuts(tr[k], actions[k]) && forall i :: k < i < n + 1 ==> !Swaps(tr[i], actions[i]);
    }
  }

  // The installed database has been shut exactly if a shutdown came after the last swap.
  lemma {:induction false} InstalledShut(withDb: bool, actions: seq<Action>, tr: seq<Sys>, n: nat)
    requires IsRun(withDb, actions, tr) && n <= |actions|
    ensures tr[n].geo.Some? && tr[n].geo.value in tr[n].shuts <==> ShutSinceSwap(actions, tr, n)
  {
    if n > 0 {
      InstalledShut(withDb, actions, tr, n - 1);
      RunStates(withDb, actions, tr, n - 1);
      assert Goes(actions, tr, n - 1);
      ShutSinceSwapNext(actions, tr, n - 1);
      InstalledShutStep(tr[n - 1], actions[n - 1]);
    }
  }

  lemma InstalledShutStep(s: Sys, a: Action)
    requires ShutOk(s)
    ensures var s' := Step(s, a);
            s'.geo.Some? && s'.geo.value in s'.shuts <==>
            Shuts(s, a) || (s.geo.Some? && s.geo.value in s.shuts && !Swaps(s, a))
  {
    Effects(s, a);
  }

  // A lookup reads a closed database exactly when one reads at all and a shutdown came after the last
  // swap.
  lemma ReadsClosedNow(withDb: bool, actions: seq<Action>, tr: seq<Sys>, n: nat)
    requires IsRun(withDb, actions, tr) && n <= |actions|
    ensures ReadsClosed(tr[n]) <==> SomeoneReads(tr[n]) && ShutSinceSwap(actions, tr, n)
  {
    InstalledShut(withDb, actions, tr, n);
    RunStates(withDb, actions, tr, n);
    var s := tr[n];
    assert forall t :: PcOf(s, t).Reading? ==> s.geo == Some(PcOf(s, t).db) && PcOf(s, t).db !in s.closes;
  }

  // A shutdown while a lookup reads, or a read that starts after a shutdown and before the next swap.
  ghost predicate Exposes(actions: seq<Action>, tr: seq<Sys>, j: nat)
    requires j < |actions| < |tr|
  {
    || (Shuts(tr[j], actions[j]) && SomeoneReads(tr[j]))
    || (StartsRead(tr[j], actions[j]) && ShutSinceSwap(actions, tr, j))
  }

  // Reading a closed database starts exactly with such an action.
  lemma ReadsClosedNext(withDb: bool, actions: seq<Action>, tr: seq<Sys>, j: nat)
    requires IsRun(withDb, actions, tr) && j < |actions|
    ensures Exposes(actions, tr, j) ==> ReadsClosed(tr[j + 1])
    ensures ReadsClosed(tr[j + 1]) ==> ReadsClosed(tr[j]) || Exposes(actions, tr, j)
  {
    assert Goes(actions, tr, j);
    Effects(tr[j], actions[j]);
    ShutSinceSwapNext(actions, tr, j);
    ReadsClosedNow(withDb, actions, tr, j);
    ReadsClosedNow(withDb, actions, tr, j + 1);
  }

  /** When shutdown endangers lookups: in every interleaving, some lookup comes to read a closed
      database if and only if a shutdown happens while a lookup reads, or a read starts after a shutdown
      and before the next swap. */
  lemma ShutdownRaces(withDb: bool, actions: seq<Action>, tr: seq<Sys>)
    requires IsRun(withDb, actions, tr)
    ensures (exists n :: 0 <= n <= |actions| && ReadsClosed(tr[n])) <==>
            (exists j :: 0 <= j < |actions| && Exposes(actions, tr, j))
  {
    if j :| 0 <= j < |actions| && Exposes(actions, tr, j) {
      ReadsClosedNext(withDb, actions, tr, j);
      assert ReadsClosed(tr[j + 1]);
    }
    if n :| 0 <= n <= |actions| && ReadsClosed(tr[n]) {
      var j := Exposure(withDb, actions, tr, n);
    }
  }

  lemma {:induction false} Exposure(withDb: bool, actions: seq<Action>, tr: seq<Sys>, n: nat) returns (j: nat)
    requires IsRun(withDb, actions, tr) && n <= |actions| && ReadsClosed(tr[n])
    ensures j < n && Exposes(actions, tr, j)
  {
    ReadsClosedNow(withDb, actions, tr, n);
    ReadsClosedNext(withDb, actions, tr, n - 1);
    if ReadsClosed(tr[n - 1]) {
      j := Exposure(withDb, actions, tr, n - 1);
    } else {
      j := n - 1;
    }
  }

  // ----- closed twice

  // Action `k` is a shutdown that closes `d`.
  ghost predicate ShutsDb(actions: seq<Action>, tr: seq<Sys>, k: nat, d: Db)
    requires |actions| < |tr|
  {
    k < |actions| && Shuts(tr[k], actions[k]) && tr[k].geo == Some(d)
  }

  ghost predicate ShutTwice(actions: seq<Action>, tr: seq<Sys>, n: nat, d: Db)
    requires |actions| < |tr|
  {
    exists k: nat, j: nat :: k < j < n && ShutsDb(actions, tr, k, d) && ShutsDb(actions, tr, j, d)
  }

  ghost predicate ShutOnce(actions: seq<Action>, tr: seq<Sys>, n: nat, d: Db)
    requires |actions| < |tr|
  {
    exists k: nat :: k < n && ShutsDb(actions, tr, k, d)
  }

  lemma CountsNext(actions: seq<Action>, tr: seq<Sys>, n: nat, d: Db)
    requires n < |actions| < |tr|
    ensures ShutOnce(actions, tr, n + 1, d) <==> ShutOnce(actions, tr, n, d) || ShutsDb(actions, tr, n, d)
    ensures ShutTwice(actions, tr, n + 1, d) <==>
            ShutTwice(actions, tr, n, d) || (ShutOnce(actions, tr, n, d) && ShutsDb(actions, tr, n, d))
  {
  }

  lemma {:induction false} ShutLog(withDb: bool, actions: seq<Action>, tr: seq<Sys>, n: nat, d: Db)
    requires IsRun(withDb, actions, tr) && n <= |actions|
    ensures multiset(tr[n].shuts)[d] >= 1 <==> ShutOnce(actions, tr, n, d)
    ensures multiset(tr[n].shuts)[d] >= 2 <==> ShutTwice(actions, tr, n, d)
  {
    if n > 0 {
      ShutLog(withDb, actions, tr, n - 1, d);
      CountsNext(actions, tr, n - 1, d);
      assert Goes(actions, tr, n - 1);
      Effects(tr[n - 1], actions[n - 1]);
    }
  }

  ghost predicate SwapBetween(actions: seq<Action>, tr: seq<Sys>, k: nat, n: nat)
    requires n <= |actions| < |tr|
  {
    exists j :: k < j < n && Swaps(tr[j], actions[j])
  }

  // After a shutdown of `d` it stays in the shutdown log, and stays installed until the first swap.
  lemma {:induction false} AfterShut(withDb: bool, actions: seq<Action>, tr: seq<Sys>, k: nat, n: nat, d: Db)
    requires IsRun(withDb, actions, tr) && k < n <= |actions| && ShutsDb(actions, tr, k, d)
    ensures d in tr[n].shuts && (tr[n].geo == Some(d) <==> !SwapBetween(actions, tr, k, n))
  {
    assert Goes(actions, tr, n - 1);
    Effects(tr[n - 1], actions[n - 1]);
    if k < n - 1 {
      AfterShut(withDb, actions, tr, k, n - 1, d);
      RunStates(withDb, actions, tr, n - 1);
      assert SwapBetween(actions, tr, k, n) <==>
             SwapBetween(actions, tr, k, n - 1) || Swaps(tr[n - 1], actions[n - 1]);
    }
  }

  /** When shutdown makes for a double close: once no reload is under way, a database has been closed
      more than once if and only if a shutdown closed it and then a reload swapped it out, or another
      shutdown closed it too. */
  lemma ClosedTwice(withDb: bool, actions: seq<Action>, tr: seq<Sys>, d: Db)
    requires IsRun(withDb, actions, tr) && forall t :: InHand(PcOf(tr[|actions|], t)).None?
    ensures var s, n := tr[|actions|], |actions|;
            multiset(s.closes + s.shuts)[d] >= 2 <==>
            || ShutTwice(actions, tr, n, d)
            || exists k: nat :: ShutsDb(actions, tr, k, d) && SwapBetween(actions, tr, k, n)
  {
    var s, n := tr[|actions|], |actions|;
    RunStates(withDb, actions, tr, n);
    assert actions[..n] == actions;
    AllDisplacedClosed(withDb, actions, d);
    ShutLog(withDb, actions, tr, n, d);
    assert multiset(s.closes + s.shuts)[d] == multiset(s.closes)[d] + multiset(s.shuts)[d];
    forall k: nat | ShutsDb(actions, tr, k, d)
      ensures multiset(s.closes)[d] == 1 <==> SwapBetween(actions, tr, k, n)
    {
      AfterShut(withDb, actions, tr, k, n, d);
    }
  }

  // ----- runs that go wrong, one for each way

  lemma {:induction false} ExecConcat(s: Sys, a: seq<Action>, b: seq<Action>)
    ensures Exec(s, a + b) == Exec(Exec(s, a), b)
  {
    if b == [] {
      assert a + b == a;
    } else {
      assert (a + b)[..|a + b| - 1] == a + b[..|b| - 1];
      ExecConcat(s, a, b[..|b| - 1]);
    }
  }

  lemma ExecTwo(s: Sys, a: Action, b: Action)
    ensures Exec(s, [a, b]) == Step(Step(s, a), b)
  {
    assert [a, b][..1] == [a] && [a][..0] == [];
    assert Exec(s, [a]) == Step(s, a);
  }

  // A shutdown by one goroutine: it closes under the read lock and lets go.
  ghost function Closing(t: Tid): seq<Action> {
    [RLock(t), Shutdown(t)] + [RUnlock(t)]
  }

  lemma ClosingRun(s: Sys, t: Tid)
    requires PcOf(s, t).Idle? && NoWriter(s) && s.geo.Some?
    ensures var s' := Exec(s, Closing(t));
            && s'.shuts == s.shuts + [s.geo.value] && s'.(pcs := s.pcs, shuts := s.shuts) == s
            && forall u :: PcOf(s', u) == PcOf(s, u)
  {
    ExecTwo(s, RLock(t), Shutdown(t));
    ExecConcat(s, [RLock(t), Shutdown(t)], [RUnlock(t)]);
    assert [RUnlock(t)][..0] == [];
  }

  ghost function Looking(t: Tid): seq<Action> {
    [RLock(t), StartRead(t)]
  }

  lemma LookingRun(s: Sys, t: Tid)
    requires PcOf(s, t).Idle? && NoWriter(s) && s.geo.Some?
    ensures Exec(s, Looking(t)) == s.(pcs := s.pcs[t := Reading(s.geo.value)])
  {
    ExecTwo(s, RLock(t), StartRead(t));
    assert s.pcs[t := ReadLocked][t := Reading(s.geo.value)] == s.pcs[t := Reading(s.geo.value)];
  }

  /** A lookup after the shutdown reads the closed database, whichever goroutines they are. */
  lemma ReadAfterShutdown(t: Tid, u: Tid)
    ensures ReadsClosed(Exec(Init(true), Closing(t) + Looking(u)))
  {
    ClosingRun(Init(true), t);
    ExecConcat(Init(true), Closing(t), Looking(u));
    LookingRun(Exec(Init(true), Closing(t)), u);
    assert PcOf(Exec(Init(true), Closing(t) + Looking(u)), u) == Reading(0);
  }

  /** So does a lookup that the shutdown finds reading. */
  lemma ReadDuringShutdown(t: Tid, u: Tid)
    requires t != u
    ensures ReadsClosed(Exec(Init(true), Looking(u) + Closing(t)))
  {
    LookingRun(Init(true), u);
    ExecConcat(Init(true), Looking(u), Closing(t));
    ClosingRun(Exec(Init(true), Looking(u)), t);
    assert PcOf(Exec(Init(true), Looking(u) + Closing(t)), u) == Reading(0);
  }

  /** Two shutdowns close the installed database twice. */
  lemma ShutDownTwice(t: Tid, u: Tid)
    ensures Exec(Init(true), Closing(t) + Closing(u)).shuts == [0, 0]
  {
    ClosingRun(Init(true), t);
    ExecConcat(Init(true), Closing(t), Closing(u));
    ClosingRun(Exec(Init(true), Closing(t)), u);
  }

  // A reload to a config with a database, or without.
  ghost function Reloading(t: Tid, withDb: bool): seq<Action> {
    [Build(t, withDb), Lock(t)] + [Swap(t), Unlock(t)] + [CloseOld(t)]
  }

  ghost function Opened(s: Sys, withDb: bool): Option<Db> {
    if withDb then Some(s.made) else None
  }

  /** A reload after the shutdown closes the displaced database a second time. */
  lemma ReloadAfterShutdown(t: Tid, u: Tid)
    ensures var s := Exec(Init(true), Closing(t) + Reloading(u, true)); s.shuts == [0] && s.closes == [0]
  {
    ClosingRun(Init(true), t);
    ExecConcat(Init(true), Closing(t), Reloading(u, true));
    ReloadingRun(Exec(Init(true), Closing(t)), u, true);
  }

  lemma BuildThenLock(s: Sys, t: Tid, withDb: bool)
    requires forall u :: PcOf(s, u).Idle?
    ensures var s' := Exec(s, [Build(t, withDb), Lock(t)]);
            && PcOf(s', t) == WriteLocked(Opened(s, withDb)) && (forall u :: u != t ==> PcOf(s', u) == PcOf(s, u))
            && s'.(pcs := s.pcs, made := s.made) == s && s'.made == s.made + if withDb then 1 else 0
  {
    ExecTwo(s, Build(t, withDb), Lock(t));
    var s1 := Step(s, Build(t, withDb));
    assert s1 == Goto(s, t, Built(Opened(s, withDb))).(made := s1.made);
    forall u
      ensures !HoldsWrite(PcOf(s1, u)) && !HoldsRead(PcOf(s1, u))
    {
      assert u != t ==> PcOf(s1, u) == PcOf(s, u);
    }
  }

  lemma SwapThenUnlock(s: Sys, t: Tid)
    requires PcOf(s, t).WriteLocked?
    ensures var s' := Exec(s, [Swap(t), Unlock(t)]);
            && PcOf(s', t) == Unlocked(s.geo) && (forall u :: u != t ==> PcOf(s', u) == PcOf(s, u))
            && s'.geo == PcOf(s, t).next && s'.(pcs := s.pcs, geo := s.geo) == s
  {
    ExecTwo(s, Swap(t), Unlock(t));
  }

  /** A whole reload with nobody else under way: the new database is installed, or none, the old one closed, nothing is
      leaked and everyone is idle again. */
  lemma ReloadingRun(s: Sys, t: Tid, withDb: bool)
    requires forall u :: PcOf(s, u).Idle?
    ensures var s' := Exec(s, Reloading(t, withDb));
            && s'.geo == (if withDb then Some(s.made) else None) && s'.made == s.made + (if withDb then 1 else 0)
            && s'.shuts == s.shuts && s'.leaked == s.leaked
            && s'.closes == s.closes + (if s.geo.Some? then [s.geo.value] else [])
            && forall u :: PcOf(s', u).Idle?
  {
    var first, middle := [Build(t, withDb), Lock(t)], [Swap(t), Unlock(t)];
    ExecConcat(s, first + middle, [CloseOld(t)]);
    ExecConcat(s, first, middle);
    BuildThenLock(s, t, withDb);
    SwapThenUnlock(Exec(s, first), t);
    var s3 := Exec(s, first + middle);
    assert [CloseOld(t)][..0] == [];
    assert Exec(s3, [CloseOld(t)]) == Step(s3, CloseOld(t));
    forall u
      ensures PcOf(Exec(s, Reloading(t, withDb)), u).Idle?
    {
      assert u != t ==> PcOf(Exec(s, Reloading(t, withDb)), u) == PcOf(s3, u) == PcOf(s, u);
    }
  }

  /** A reload that opens its database and then fails leaves the old one installed, and leaks the new one. */
  lemma FailedReload(s: Sys, t: Tid)
    requires PcOf(s, t).Idle?
    ensures var s' := Exec(s, [Build(t, true), GiveUp(t)]);
            && s' == s.(pcs := s'.pcs, made := s.made + 1, leaked := s.leaked + {s.made})
            && forall u :: PcOf(s', u) == PcOf(s, u)
  {
    ExecTwo(s, Build(t, true), GiveUp(t));
  }

  /** A whole lookup reads the installed database and leaves everything as it was. */
  lemma LookupRun(s: Sys, t: Tid)
    requires PcOf(s, t).Idle? && NoWriter(s) && s.geo.Some?
    ensures PcOf(Exec(s, Looking(t)), t) == Reading(s.geo.value)
    ensures var s' := Exec(s, Looking(t) + [EndRead(t), RUnlock(t)]);
            s'.(pcs := s.pcs) == s && forall u :: PcOf(s', u) == PcOf(s, u)
  {
    LookingRun(s, t);
    ExecConcat(s, Looking(t), [EndRead(t), RUnlock(t)]);
    ExecTwo(Exec(s, Looking(t)), EndRead(t), RUnlock(t));
  }

  // A reload that has built its state cannot lock while anyone reads.
  lemma LockWaits(s: Sys, t: Tid, u: Tid)
    requires PcOf(s, t).Reading? && PcOf(s, u).Idle?
    ensures PcOf(Exec(s, [Build(u, true), Lock(u)]), u) == Built(Some(s.made))
  {
    ExecTwo(s, Build(u, true), Lock(u));
    var built := Step(s, Build(u, true));
    assert PcOf(built, t).Reading?;
  }

  /** While a lookup reads no reload can lock; once the lookup is over the reload goes through. */
  lemma LookupThenReload(s: Sys, t: Tid, u: Tid)
    requires s.geo.Some? && t != u && forall v :: PcOf(s, v).Idle?
    ensures PcOf(Exec(Exec(s, Looking(t)), [Build(u, true), Lock(u)]), u) == Built(Some(s.made))
    ensures Exec(Exec(s, Looking(t) + [EndRead(t), RUnlock(t)]), Reloading(u, true)).geo == Some(s.made)
  {
    assert NoWriter(s);
    LookingRun(s, t);
    assert PcOf(Exec(s, Looking(t)), u) == PcOf(s, u);
    LockWaits(Exec(s, Looking(t)), t, u);
    LookupRun(s, t);
    var s' := Exec(s, Looking(t) + [EndRead(t), RUnlock(t)]);
    forall v
      ensures PcOf(s', v).Idle?
    {
      assert PcOf(s', v) == PcOf(s, v);
    }
    ReloadingRun(s', u, true);
  }
}
