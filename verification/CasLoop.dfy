/** The lock-free retry loop that several packages share: load a pointer, compute on the immutable
    snapshot, and swap only if the pointer has not moved.

    The shared pointer holds a reference into a growing heap of immutable states. A goroutine loads the
    pointer, settles its call on that snapshot or allocates the state it wants to publish, and then
    swaps only if the pointer still holds the reference it loaded. Steps of any number of goroutines
    interleave freely. What a call does with a snapshot is a parameter. */
module CasLoop {
  // One turn of a retry loop on a snapshot: return at once, or try to swap in a new state.
  datatype Attempt<S, R> = Settled(outcome: R) | Swap(next: S, outcome: R)

  type StepFn<!S, !O, !R> = (O, S) -> Attempt<S, R>

  // A call run alone.
  ghost function Apply<S, O, R>(attempt: StepFn<S, O, R>, s: S, op: O): (S, R) {
    match attempt(op, s)
    case Settled(o) => (s, o)
    case Swap(next, o) => (next, o)
  }

  ghost function Run<S, O, R>(attempt: StepFn<S, O, R>, s: S, ops: seq<O>): S {
    if ops == [] then s else Apply(attempt, Run(attempt, s, ops[..|ops| - 1]), ops[|ops| - 1]).0
  }

  lemma RunSnoc<S, O, R>(attempt: StepFn<S, O, R>, s: S, ops: seq<O>, op: O)
    ensures Run(attempt, s, ops + [op]) == Apply(attempt, Run(attempt, s, ops), op).0
  {
    assert (ops + [op])[..|ops|] == ops;
  }

  lemma {:induction false} RunConcat<S, O, R>(attempt: StepFn<S, O, R>, s: S, a: seq<O>, b: seq<O>)
    ensures Run(attempt, s, a + b) == Run(attempt, Run(attempt, s, a), b)
  {
    if b == [] {
      assert a + b == a;
    } else {
      var n := |b| - 1;
      assert (a + b)[..|a + b| - 1] == a + b[..n];
      RunConcat(attempt, s, a, b[..n]);
    }
  }

  type Tid = nat
  type Ref = nat

  // A commit: the call took effect, at a successful swap or at the load that settled it.
  datatype Commit<O, R> = Commit(tid: Tid, op: O, outcome: R, swapped: bool)

  // A call that took effect, with the log length at its invocation and its place in the log.
  datatype Call<O, R> = Call(op: O, outcome: R, invokedAt: nat, committedAt: nat)

  datatype Pc<O, R> =
    | Idle
    | Pending(op: O, invokedAt: nat)
    | Racing(op: O, invokedAt: nat, loadedAt: nat, seen: Ref, mine: Ref, outcome: R)
    | Returning(call: Call<O, R>)

  datatype Goroutine<O, R> = Goroutine(past: seq<Call<O, R>>, pc: Pc<O, R>)

  datatype Sys<S, O, R> = Sys(heap: seq<S>, ptr: Ref, gs: map<Tid, Goroutine<O, R>>, log: seq<Commit<O, R>>)

  datatype Action<O> = Invoke(t: Tid, op: O) | Load(t: Tid) | Cas(t: Tid) | Return(t: Tid)

  ghost function G<S, O, R>(s: Sys<S, O, R>, t: Tid): Goroutine<O, R> {
    if t in s.gs then s.gs[t] else Goroutine([], Idle)
  }

  ghost function Goto<S, O, R>(s: Sys<S, O, R>, t: Tid, pc: Pc<O, R>): Sys<S, O, R> {
    s.(gs := s.gs[t := Goroutine(G(s, t).past, pc)])
  }

  ghost function CommitCall<S, O, R>(
    s: Sys<S, O, R>, t: Tid, op: O, invokedAt: nat, outcome: R, swapped: bool)
    : Sys<S, O, R> {
    Goto(s, t, Returning(Call(op, outcome, invokedAt, |s.log|))).(log := s.log + [Commit(t, op, outcome, swapped)])
  }

  ghost function DoLoad<S, O, R>(attempt: StepFn<S, O, R>, s: Sys<S, O, R>, t: Tid, op: O, invokedAt: nat): Sys<S, O, R>
    requires s.ptr < |s.heap|
  {
    match attempt(op, s.heap[s.ptr])
    case Settled(o) => CommitCall(s, t, op, invokedAt, o, false)
    case Swap(next, o) =>
      Goto(s, t, Racing(op, invokedAt, |s.log|, s.ptr, |s.heap|, o)).(heap := s.heap + [next])
  }

  ghost function DoCas<S, O, R>(s: Sys<S, O, R>, t: Tid, r: Pc<O, R>): Sys<S, O, R>
    requires r.Racing?
  {
    if s.ptr == r.seen then CommitCall(s, t, r.op, r.invokedAt, r.outcome, true).(ptr := r.mine)
    else Goto(s, t, Pending(r.op, r.invokedAt))
  }

  ghost function DoReturn<S, O, R>(s: Sys<S, O, R>, t: Tid, call: Call<O, R>): Sys<S, O, R> {
    s.(gs := s.gs[t := Goroutine(G(s, t).past + [call], Idle)])
  }

  // An action that its goroutine cannot take now changes nothing.
  ghost function Step<S, O, R>(attempt: StepFn<S, O, R>, s: Sys<S, O, R>, a: Action<O>): Sys<S, O, R> {
    var pc := G(s, a.t).pc;
    match a
    case Invoke(t, op) => if pc.Idle? then Goto(s, t, Pending(op, |s.log|)) else s
    case Load(t) => if pc.Pending? && s.ptr < |s.heap| then DoLoad(attempt, s, t, pc.op, pc.invokedAt) else s
    case Cas(t) => if pc.Racing? then DoCas(s, t, pc) else s
    case Return(t) => if pc.Returning? then DoReturn(s, t, pc.call) else s
  }

  ghost function Exec<S, O, R>(attempt: StepFn<S, O, R>, s: Sys<S, O, R>, actions: seq<Action<O>>): Sys<S, O, R> {
    if actions == [] then s else Step(attempt, Exec(attempt, s, actions[..|actions| - 1]), actions[|actions| - 1])
  }

  ghost function Init<S, O, R>(s: S): Sys<S, O, R> {
    Sys([s], 0, map[], [])
  }

  // ----- the sequential reading of a log

  ghost function OpsOf<O, R>(log: seq<Commit<O, R>>): seq<O> {
    seq(|log|, i requires 0 <= i < |log| => log[i].op)
  }

  ghost function Final<S, O, R>(attempt: StepFn<S, O, R>, init: S, log: seq<Commit<O, R>>): S {
    Run(attempt, init, OpsOf(log))
  }

  // Running the log's calls one at a time returns the logged outcomes, and a commit that swapped
  // nothing changes nothing.
  ghost predicate Sequential<S, O, R>(attempt: StepFn<S, O, R>, init: S, log: seq<Commit<O, R>>) {
    forall i :: 0 <= i < |log| ==>
      && Apply(attempt, Final(attempt, init, log[..i]), log[i].op).1 == log[i].outcome
      && (!log[i].swapped ==>
            Apply(attempt, Final(attempt, init, log[..i]), log[i].op).0 == Final(attempt, init, log[..i]))
  }

  ghost function CommitsBy<O, R>(log: seq<Commit<O, R>>, t: Tid): seq<Commit<O, R>> {
    if log == [] then []
    else
      var front := CommitsBy(log[..|log| - 1], t);
      if log[|log| - 1].tid == t then front + [log[|log| - 1]] else front
  }

  ghost function CallsOf<O, R>(g: Goroutine<O, R>): seq<Call<O, R>> {
    if g.pc.Returning? then g.past + [g.pc.call] else g.past
  }

  ghost predicate SwapSince<O, R>(log: seq<Commit<O, R>>, from: nat) {
    exists k :: from <= k < |log| && log[k].swapped
  }

  ghost predicate QuietSince<O, R>(log: seq<Commit<O, R>>, from: nat, t: Tid) {
    forall k :: from <= k < |log| ==> log[k].tid != t
  }

  // A goroutine's calls are exactly its commits, in order, each committed after its invocation.
  ghost predicate CallsMatch<O, R>(log: seq<Commit<O, R>>, t: Tid, calls: seq<Call<O, R>>) {
    && |CommitsBy(log, t)| == |calls|
    && (forall i :: 0 <= i < |calls| ==>
          && calls[i].invokedAt <= calls[i].committedAt < |log|
          && log[calls[i].committedAt] == CommitsBy(log, t)[i]
          && log[calls[i].committedAt].tid == t
          && log[calls[i].committedAt].op == calls[i].op
          && log[calls[i].committedAt].outcome == calls[i].outcome)
    && forall i, j :: 0 <= i < j < |calls| ==> calls[i].committedAt < calls[j].invokedAt
  }

  ghost predicate PcOk<S, O, R>(attempt: StepFn<S, O, R>, s: Sys<S, O, R>, t: Tid, pc: Pc<O, R>) {
    match pc
    case Idle => true
    case Returning(_) => true
    case Pending(_, at) => at <= |s.log| && QuietSince(s.log, at, t)
    case Racing(op, at, loaded, seen, mine, o) =>
      && at <= loaded <= |s.log| && QuietSince(s.log, at, t)
      && seen < |s.heap| && mine < |s.heap| && mine != s.ptr && mine != seen
      && attempt(op, s.heap[seen]) == Swap(s.heap[mine], o)
      && (seen == s.ptr <==> !SwapSince(s.log, loaded))
  }

  ghost predicate Apart<O, R>(g: Goroutine<O, R>, h: Goroutine<O, R>) {
    g.pc.Racing? && h.pc.Racing? ==> g.pc.mine != h.pc.mine && g.pc.mine != h.pc.seen
  }

  ghost predicate SharedOk<S, O, R>(attempt: StepFn<S, O, R>, init: S, s: Sys<S, O, R>) {
    s.ptr < |s.heap| && s.heap[s.ptr] == Final(attempt, init, s.log) && Sequential(attempt, init, s.log)
  }

  ghost predicate SysInv<S, O, R>(attempt: StepFn<S, O, R>, init: S, s: Sys<S, O, R>) {
    && SharedOk(attempt, init, s)
    && (forall t: Tid :: PcOk(attempt, s, t, G(s, t).pc))
    && (forall t: Tid :: CallsMatch(s.log, t, CallsOf(G(s, t))))
    && forall t: Tid, u: Tid :: t != u ==> Apart(G(s, t), G(s, u))
  }

  // ----- preservation

  lemma AppendFinal<S, O, R>(attempt: StepFn<S, O, R>, init: S, log: seq<Commit<O, R>>, c: Commit<O, R>)
    ensures Final(attempt, init, log + [c]) == Apply(attempt, Final(attempt, init, log), c.op).0
  {
    var ops := OpsOf(log + [c]);
    assert ops[..|ops| - 1] == OpsOf(log);
  }

  lemma AppendSequential<S, O, R>(attempt: StepFn<S, O, R>, init: S, log: seq<Commit<O, R>>, c: Commit<O, R>)
    requires Sequential(attempt, init, log)
    requires Apply(attempt, Final(attempt, init, log), c.op).1 == c.outcome
    requires !c.swapped ==> Apply(attempt, Final(attempt, init, log), c.op).0 == Final(attempt, init, log)
    ensures Sequential(attempt, init, log + [c])
  {
    var log' := log + [c];
    forall i | 0 <= i < |log'|
      ensures log'[..i] == log[..i]
    {
    }
    assert log'[..|log|] == log;
  }

  lemma AppendCalls<O, R>(log: seq<Commit<O, R>>, c: Commit<O, R>, t: Tid, calls: seq<Call<O, R>>)
    requires CallsMatch(log, t, calls) && c.tid != t
    ensures CallsMatch(log + [c], t, calls)
  {
    assert (log + [c])[..|log|] == log;
  }

  lemma AppendOwnCall<O, R>(log: seq<Commit<O, R>>, c: Commit<O, R>, calls: seq<Call<O, R>>, invokedAt: nat)
    requires CallsMatch(log, c.tid, calls)
    requires invokedAt <= |log| && QuietSince(log, invokedAt, c.tid)
    ensures CallsMatch(log + [c], c.tid, calls + [Call(c.op, c.outcome, invokedAt, |log|)])
  {
    assert (log + [c])[..|log|] == log;
  }

  // A commit that does not move the pointer leaves every other goroutine's snapshot as good as it was.
  lemma OthersAfterQuietCommit<S, O, R>(
    attempt: StepFn<S, O, R>, s: Sys<S, O, R>, s': Sys<S, O, R>, c: Commit<O, R>, u: Tid)
    requires u != c.tid && !c.swapped && PcOk(attempt, s, u, G(s, u).pc)
    requires s'.log == s.log + [c] && s'.heap == s.heap && s'.ptr == s.ptr && G(s', u) == G(s, u)
    ensures PcOk(attempt, s', u, G(s', u).pc)
  {
    var pc := G(s, u).pc;
    if pc.Racing? && SwapSince(s.log, pc.loadedAt) {
      var k :| pc.loadedAt <= k < |s.log| && s.log[k].swapped;
      assert s'.log[k].swapped;
    }
  }

  // A swap installs a reference nobody else has loaded, so every other racer will fail.
  lemma OthersAfterSwap<S, O, R>(attempt: StepFn<S, O, R>, s: Sys<S, O, R>, s': Sys<S, O, R>, c: Commit<O, R>, u: Tid)
    requires u != c.tid && c.swapped && PcOk(attempt, s, u, G(s, u).pc)
    requires s'.log == s.log + [c] && s'.heap == s.heap && s'.ptr < |s'.heap| && G(s', u) == G(s, u)
    requires G(s, u).pc.Racing? ==> s'.ptr != G(s, u).pc.mine && s'.ptr != G(s, u).pc.seen
    ensures PcOk(attempt, s', u, G(s', u).pc)
  {
    assert s'.log[|s.log|].swapped;
  }

  // The log after a commit whose outcome is that of the call run alone on the published state.
  lemma CommitShared<S, O, R>(attempt: StepFn<S, O, R>, init: S, s: Sys<S, O, R>, c: Commit<O, R>)
    requires SharedOk(attempt, init, s)
    requires Apply(attempt, s.heap[s.ptr], c.op).1 == c.outcome
    requires !c.swapped ==> Apply(attempt, s.heap[s.ptr], c.op).0 == s.heap[s.ptr]
    ensures Final(attempt, init, s.log + [c]) == Apply(attempt, s.heap[s.ptr], c.op).0
    ensures Sequential(attempt, init, s.log + [c])
  {
    AppendFinal(attempt, init, s.log, c);
    AppendSequential(attempt, init, s.log, c);
  }

  lemma CallsAfterCommit<S, O, R>(s: Sys<S, O, R>, s': Sys<S, O, R>, c: Commit<O, R>, invokedAt: nat)
    requires forall u: Tid :: CallsMatch(s.log, u, CallsOf(G(s, u)))
    requires invokedAt <= |s.log| && QuietSince(s.log, invokedAt, c.tid) && !G(s, c.tid).pc.Returning?
    requires s'.log == s.log + [c]
    requires forall u: Tid :: u != c.tid ==> G(s', u) == G(s, u)
    requires CallsOf(G(s', c.tid)) == CallsOf(G(s, c.tid)) + [Call(c.op, c.outcome, invokedAt, |s.log|)]
    ensures forall u: Tid :: CallsMatch(s'.log, u, CallsOf(G(s', u)))
  {
    forall u: Tid
      ensures CallsMatch(s'.log, u, CallsOf(G(s', u)))
    {
      assert CallsMatch(s.log, u, CallsOf(G(s, u)));
      if u == c.tid {
        AppendOwnCall(s.log, c, CallsOf(G(s, u)), invokedAt);
      } else {
        AppendCalls(s.log, c, u, CallsOf(G(s, u)));
      }
    }
  }

  lemma PcsAfterQuietCommit<S, O, R>(
    attempt: StepFn<S, O, R>, s: Sys<S, O, R>, s': Sys<S, O, R>, c: Commit<O, R>)
    requires forall u: Tid :: PcOk(attempt, s, u, G(s, u).pc)
    requires !c.swapped && s'.log == s.log + [c] && s'.heap == s.heap && s'.ptr == s.ptr
    requires G(s', c.tid).pc.Returning? && forall u: Tid :: u != c.tid ==> G(s', u) == G(s, u)
    ensures forall u: Tid :: PcOk(attempt, s', u, G(s', u).pc)
  {
    forall u: Tid
      ensures PcOk(attempt, s', u, G(s', u).pc)
    {
      if u != c.tid {
        assert PcOk(attempt, s, u, G(s, u).pc);
        OthersAfterQuietCommit(attempt, s, s', c, u);
      }
    }
  }

  // What `CommitCall` makes of the log and the goroutines.
  lemma Committed<S, O, R>(s: Sys<S, O, R>, t: Tid, op: O, invokedAt: nat, o: R, swapped: bool)
    requires !G(s, t).pc.Returning?
    ensures var s' := CommitCall(s, t, op, invokedAt, o, swapped); var call := Call(op, o, invokedAt, |s.log|);
            && s'.heap == s.heap && s'.ptr == s.ptr && s'.log == s.log + [Commit(t, op, o, swapped)]
            && G(s', t).pc == Returning(call) && CallsOf(G(s', t)) == CallsOf(G(s, t)) + [call]
            && forall u: Tid :: u != t ==> G(s', u) == G(s, u)
  {
  }

  lemma CommitKeeps<S, O, R>(attempt: StepFn<S, O, R>, init: S, s: Sys<S, O, R>, t: Tid, op: O, invokedAt: nat, o: R)
    requires SysInv(attempt, init, s)
    requires !G(s, t).pc.Returning? && invokedAt <= |s.log| && QuietSince(s.log, invokedAt, t)
    requires Apply(attempt, s.heap[s.ptr], op) == (s.heap[s.ptr], o)
    ensures SysInv(attempt, init, CommitCall(s, t, op, invokedAt, o, false))
  {
    var c := Commit(t, op, o, false);
    var s' := CommitCall(s, t, op, invokedAt, o, false);
    Committed(s, t, op, invokedAt, o, false);
    CommitShared(attempt, init, s, c);
    PcsAfterQuietCommit(attempt, s, s', c);
    CallsAfterCommit(s, s', c, invokedAt);
    ApartKept(s, s', t);
  }

  lemma ApartKept<S, O, R>(s: Sys<S, O, R>, s': Sys<S, O, R>, t: Tid)
    requires forall u: Tid, v: Tid :: u != v ==> Apart(G(s, u), G(s, v))
    requires forall u: Tid :: u != t ==> G(s', u) == G(s, u)
    requires !G(s', t).pc.Racing?
    ensures forall u: Tid, v: Tid :: u != v ==> Apart(G(s', u), G(s', v))
  {
    forall u: Tid, v: Tid | u != v
      ensures Apart(G(s', u), G(s', v))
    {
      assert Apart(G(s, u), G(s, v));
    }
  }

  // Goroutine `t` has put `next` into a new cell and started to race for the pointer.
  ghost predicate Grown<S, O, R>(s: Sys<S, O, R>, s': Sys<S, O, R>, t: Tid, race: Pc<O, R>, next: S) {
    && s'.heap == s.heap + [next] && s'.ptr == s.ptr && s'.log == s.log
    && G(s', t) == Goroutine(G(s, t).past, race)
    && forall u: Tid :: u != t ==> G(s', u) == G(s, u)
  }

  lemma OtherPcGrown<S, O, R>(
    attempt: StepFn<S, O, R>, s: Sys<S, O, R>, s': Sys<S, O, R>, t: Tid, race: Pc<O, R>, next: S, u: Tid)
    requires Grown(s, s', t, race, next) && u != t && PcOk(attempt, s, u, G(s, u).pc)
    ensures PcOk(attempt, s', u, G(s', u).pc)
  {
  }

  lemma OwnPcGrown<S, O, R>(
    attempt: StepFn<S, O, R>, s: Sys<S, O, R>, s': Sys<S, O, R>, t: Tid, op: O, invokedAt: nat, next: S, o: R)
    requires Grown(s, s', t, Racing(op, invokedAt, |s.log|, s.ptr, |s.heap|, o), next) && s.ptr < |s.heap|
    requires PcOk(attempt, s, t, Pending(op, invokedAt)) && attempt(op, s.heap[s.ptr]) == Swap(next, o)
    ensures PcOk(attempt, s', t, G(s', t).pc)
  {
  }

  lemma CallsGrown<S, O, R>(s: Sys<S, O, R>, s': Sys<S, O, R>, t: Tid, race: Pc<O, R>, next: S)
    requires Grown(s, s', t, race, next) && race.Racing? && !G(s, t).pc.Returning?
    requires forall u: Tid :: CallsMatch(s.log, u, CallsOf(G(s, u)))
    ensures forall u: Tid :: CallsMatch(s'.log, u, CallsOf(G(s', u)))
  {
    forall u: Tid
      ensures CallsMatch(s'.log, u, CallsOf(G(s', u)))
    {
      assert CallsOf(G(s', u)) == CallsOf(G(s, u));
    }
  }

  // A new cell is apart from every cell in use.
  lemma RaceApart<S, O, R>(
    attempt: StepFn<S, O, R>, s: Sys<S, O, R>, u: Tid, g: Goroutine<O, R>, h: Goroutine<O, R>)
    requires s.ptr < |s.heap| && PcOk(attempt, s, u, g.pc)
    requires h.pc.Racing? && h.pc.seen == s.ptr && h.pc.mine == |s.heap|
    ensures Apart(g, h) && Apart(h, g)
  {
  }

  lemma ApartGrown<S, O, R>(
    attempt: StepFn<S, O, R>, s: Sys<S, O, R>, s': Sys<S, O, R>, t: Tid, race: Pc<O, R>, next: S, u: Tid, v: Tid)
    requires Grown(s, s', t, race, next) && s.ptr < |s.heap|
    requires race.Racing? && race.seen == s.ptr && race.mine == |s.heap|
    requires u != v && Apart(G(s, u), G(s, v))
    requires PcOk(attempt, s, u, G(s, u).pc) && PcOk(attempt, s, v, G(s, v).pc)
    ensures Apart(G(s', u), G(s', v))
  {
    if u == t {
      RaceApart(attempt, s, v, G(s, v), G(s', t));
    } else if v == t {
      RaceApart(attempt, s, u, G(s, u), G(s', t));
    }
  }

  lemma StartRaceKeeps<S, O, R>(
    attempt: StepFn<S, O, R>, init: S, s: Sys<S, O, R>, t: Tid, op: O, invokedAt: nat, next: S, o: R)
    requires SysInv(attempt, init, s) && G(s, t).pc == Pending(op, invokedAt)
    requires attempt(op, s.heap[s.ptr]) == Swap(next, o)
    ensures SysInv(attempt, init, DoLoad(attempt, s, t, op, invokedAt))
  {
    var s' := DoLoad(attempt, s, t, op, invokedAt);
    var race := Racing(op, invokedAt, |s.log|, s.ptr, |s.heap|, o);
    assert Grown(s, s', t, race, next);
    GrownKeeps(attempt, init, s, s', t, op, invokedAt, next, o);
  }

  lemma GrownKeeps<S, O, R>(
    attempt: StepFn<S, O, R>, init: S, s: Sys<S, O, R>, s': Sys<S, O, R>, t: Tid, op: O, invokedAt: nat, next: S, o: R)
    requires SysInv(attempt, init, s) && G(s, t).pc == Pending(op, invokedAt)
    requires attempt(op, s.heap[s.ptr]) == Swap(next, o)
    requires Grown(s, s', t, Racing(op, invokedAt, |s.log|, s.ptr, |s.heap|, o), next)
    ensures SysInv(attempt, init, s')
  {
    var race := Racing(op, invokedAt, |s.log|, s.ptr, |s.heap|, o);
    forall u: Tid
      ensures PcOk(attempt, s', u, G(s', u).pc)
    {
      assert PcOk(attempt, s, u, G(s, u).pc);
      if u == t {
        OwnPcGrown(attempt, s, s', t, op, invokedAt, next, o);
      } else {
        OtherPcGrown(attempt, s, s', t, race, next, u);
      }
    }
    CallsGrown(s, s', t, race, next);
    forall u: Tid, v: Tid | u != v
      ensures Apart(G(s', u), G(s', v))
    {
      ApartGrown(attempt, s, s', t, race, next, u, v);
    }
  }

  lemma CasKeeps<S, O, R>(attempt: StepFn<S, O, R>, init: S, s: Sys<S, O, R>, t: Tid)
    requires SysInv(attempt, init, s) && G(s, t).pc.Racing?
    ensures SysInv(attempt, init, DoCas(s, t, G(s, t).pc))
  {
    var r := G(s, t).pc;
    var s' := DoCas(s, t, r);
    assert PcOk(attempt, s, t, r);
    if s.ptr == r.seen {
      var c := Commit(t, r.op, r.outcome, true);
      CommitShared(attempt, init, s, c);
      forall u: Tid
        ensures PcOk(attempt, s', u, G(s', u).pc)
      {
        if u != t {
          assert Apart(G(s, t), G(s, u));
          OthersAfterSwap(attempt, s, s', c, u);
        }
      }
      CallsAfterCommit(s, s', c, r.invokedAt);
      ApartKept(s, s', t);
    } else {
      GotoKeeps(attempt, init, s, t, Pending(r.op, r.invokedAt));
    }
  }

  lemma GotoKeeps<S, O, R>(attempt: StepFn<S, O, R>, init: S, s: Sys<S, O, R>, t: Tid, pc: Pc<O, R>)
    requires SysInv(attempt, init, s) && !G(s, t).pc.Returning? && pc.Pending?
    requires pc.invokedAt <= |s.log| && QuietSince(s.log, pc.invokedAt, t)
    ensures SysInv(attempt, init, Goto(s, t, pc))
  {
    var s' := Goto(s, t, pc);
    forall u: Tid
      ensures PcOk(attempt, s', u, G(s', u).pc) && CallsMatch(s'.log, u, CallsOf(G(s', u)))
    {
      assert PcOk(attempt, s, u, G(s, u).pc) && CallsMatch(s.log, u, CallsOf(G(s, u)));
    }
    ApartKept(s, s', t);
  }

  lemma ReturnKeeps<S, O, R>(attempt: StepFn<S, O, R>, init: S, s: Sys<S, O, R>, t: Tid)
    requires SysInv(attempt, init, s) && G(s, t).pc.Returning?
    ensures SysInv(attempt, init, DoReturn(s, t, G(s, t).pc.call))
  {
    var s' := DoReturn(s, t, G(s, t).pc.call);
    forall u: Tid
      ensures PcOk(attempt, s', u, G(s', u).pc) && CallsMatch(s'.log, u, CallsOf(G(s', u)))
    {
      assert PcOk(attempt, s, u, G(s, u).pc) && CallsMatch(s.log, u, CallsOf(G(s, u)));
    }
    ApartKept(s, s', t);
  }

  lemma StepKeeps<S, O, R>(attempt: StepFn<S, O, R>, init: S, s: Sys<S, O, R>, a: Action<O>)
    requires SysInv(attempt, init, s)
    ensures SysInv(attempt, init, Step(attempt, s, a))
  {
    var pc := G(s, a.t).pc;
    assert PcOk(attempt, s, a.t, pc);
    match a
    case Invoke(t, op) =>
      if pc.Idle? {
        GotoKeeps(attempt, init, s, t, Pending(op, |s.log|));
      }
    case Load(t) =>
      if pc.Pending? {
        match attempt(pc.op, s.heap[s.ptr]) {
          case Settled(o) => CommitKeeps(attempt, init, s, t, pc.op, pc.invokedAt, o);
          case Swap(next, o) => StartRaceKeeps(attempt, init, s, t, pc.op, pc.invokedAt, next, o);
        }
      }
    case Cas(t) =>
      if pc.Racing? {
        CasKeeps(attempt, init, s, t);
      }
    case Return(t) =>
      if pc.Returning? {
        ReturnKeeps(attempt, init, s, t);
      }
  }

  lemma {:induction false} ExecKeeps<S, O, R>(attempt: StepFn<S, O, R>, init: S, actions: seq<Action<O>>)
    ensures SysInv(attempt, init, Exec(attempt, Init(init), actions))
  {
    if actions != [] {
      ExecKeeps(attempt, init, actions[..|actions| - 1]);
      StepKeeps(attempt, init, Exec(attempt, Init(init), actions[..|actions| - 1]), actions[|actions| - 1]);
    } else {
      assert OpsOf<O, R>([]) == [];
    }
  }

  // ----- the theorems

  /** Linearizability. After any interleaving of any goroutines' calls, the published state and
      every returned outcome are those of running the committed calls one at a time in commit
      order; each goroutine's calls appear there once each, in its own order; and every call
      commits after it was invoked. */
  lemma Linearizable<S, O, R>(attempt: StepFn<S, O, R>, init: S, actions: seq<Action<O>>)
    ensures var s := Exec(attempt, Init(init), actions);
            && s.ptr < |s.heap|
            && s.heap[s.ptr] == Run(attempt, init, OpsOf(s.log))
            && (forall i :: 0 <= i < |s.log| ==>
                  Apply(attempt, Run(attempt, init, OpsOf(s.log[..i])), s.log[i].op).1 == s.log[i].outcome)
            && (forall t: Tid :: CallsMatch(s.log, t, CallsOf(G(s, t))))
  {
    ExecKeeps(attempt, init, actions);
    var s := Exec(attempt, Init(init), actions);
    forall i | 0 <= i < |s.log|
      ensures Apply(attempt, Run(attempt, init, OpsOf(s.log[..i])), s.log[i].op).1 == s.log[i].outcome
    {
      assert Final(attempt, init, s.log[..i]) == Run(attempt, init, OpsOf(s.log[..i]));
    }
  }

  /** A swap fails only because another goroutine's swap committed after this one's load; and a
      swap that succeeds acts on the state it loaded. So some call always makes progress. */
  lemma CasFailsOnlyToProgress<S, O, R>(attempt: StepFn<S, O, R>, init: S, actions: seq<Action<O>>, t: Tid)
    requires G(Exec(attempt, Init(init), actions), t).pc.Racing?
    ensures var s := Exec(attempt, Init(init), actions);
            var r := G(s, t).pc;
            (r.seen != s.ptr <==> exists k :: r.loadedAt <= k < |s.log| && s.log[k].swapped && s.log[k].tid != t)
  {
    ExecKeeps(attempt, init, actions);
    var s := Exec(attempt, Init(init), actions);
    var r := G(s, t).pc;
    assert PcOk(attempt, s, t, r);
    if r.seen != s.ptr {
      var k :| r.loadedAt <= k < |s.log| && s.log[k].swapped;
      assert s.log[k].tid != t;
    }
  }

  // Nothing but goroutine `t` has moved.
  ghost predicate OthersStand<S, O, R>(s: Sys<S, O, R>, s': Sys<S, O, R>, t: Tid) {
    forall u: Tid :: u != t ==> G(s', u) == G(s, u)
  }

  /** What a swap does. If another goroutine's swap committed since the load, the call goes back to load
      again and nothing else changes; otherwise the call publishes its state, is logged with its outcome,
      and is about to return. */
  lemma CasOutcome<S, O, R>(attempt: StepFn<S, O, R>, init: S, actions: seq<Action<O>>, t: Tid)
    requires G(Exec(attempt, Init(init), actions), t).pc.Racing?
    ensures var s := Exec(attempt, Init(init), actions);
            var r, past, s' := G(s, t).pc, G(s, t).past, Step(attempt, s, Cas(t));
            && OthersStand(s, s', t) && s'.heap == s.heap
            && if exists k :: r.loadedAt <= k < |s.log| && s.log[k].swapped && s.log[k].tid != t then
                 s'.ptr == s.ptr && s'.log == s.log && G(s', t) == Goroutine(past, Pending(r.op, r.invokedAt))
               else
                 && s'.ptr == r.mine && s'.log == s.log + [Commit(t, r.op, r.outcome, true)]
                 && G(s', t) == Goroutine(past, Returning(Call(r.op, r.outcome, r.invokedAt, |s.log|)))
  {
    CasFailsOnlyToProgress(attempt, init, actions, t);
  }

  lemma ExecFour<S, O, R>(
    attempt: StepFn<S, O, R>, s: Sys<S, O, R>, a: Action<O>, b: Action<O>, c: Action<O>, d: Action<O>)
    ensures Exec(attempt, s, [a, b, c, d]) == Step(attempt, Step(attempt, Step(attempt, Step(attempt, s, a), b), c), d)
  {
    assert [a, b, c, d][..3] == [a, b, c] && [a, b, c][..2] == [a, b] && [a, b][..1] == [a] && [a][..0] == [];
    assert Exec(attempt, s, [a]) == Step(attempt, s, a);
    assert Exec(attempt, s, [a, b]) == Step(attempt, Exec(attempt, s, [a]), b);
    assert Exec(attempt, s, [a, b, c]) == Step(attempt, Exec(attempt, s, [a, b]), c);
  }

  // From `s` to `s'` goroutine `t` alone has moved: it made one call of `op` on the state published in `s`,
  // invoked when the log had `invokedAt` entries.
  ghost predicate Called<S, O, R>(
    attempt: StepFn<S, O, R>, s: Sys<S, O, R>, s': Sys<S, O, R>, t: Tid, op: O, invokedAt: nat)
  {
    && s.ptr < |s.heap| && s'.ptr < |s'.heap| && OthersStand(s, s', t)
    && match attempt(op, s.heap[s.ptr]) {
         case Settled(o) =>
           && s'.heap[s'.ptr] == s.heap[s.ptr] && s'.log == s.log + [Commit(t, op, o, false)]
           && G(s', t) == Goroutine(G(s, t).past + [Call(op, o, invokedAt, |s.log|)], Idle)
         case Swap(next, o) =>
           && s'.heap[s'.ptr] == next && s'.log == s.log + [Commit(t, op, o, true)]
           && G(s', t) == Goroutine(G(s, t).past + [Call(op, o, invokedAt, |s.log|)], Idle)
       }
  }

  // Load, swap and return, with nobody in between.
  lemma TurnAlone<S, O, R>(attempt: StepFn<S, O, R>, s: Sys<S, O, R>, t: Tid)
    requires s.ptr < |s.heap| && G(s, t).pc.Pending?
    ensures var pc, s' := G(s, t).pc, Step(attempt, Step(attempt, Step(attempt, s, Load(t)), Cas(t)), Return(t));
            Called(attempt, s, s', t, pc.op, pc.invokedAt)
  {
    var s1 := Step(attempt, s, Load(t));
    var s2 := Step(attempt, s1, Cas(t));
    var s3 := Step(attempt, s2, Return(t));
    assert OthersStand(s, s1, t) && OthersStand(s1, s2, t) && OthersStand(s2, s3, t);
  }

  /** A call that nobody interferes with, from any state that a run can reach, takes one turn: it acts on the
      published state, is logged once and returns. */
  lemma CallAlone<S, O, R>(attempt: StepFn<S, O, R>, init: S, actions: seq<Action<O>>, t: Tid, op: O)
    requires G(Exec(attempt, Init(init), actions), t).pc.Idle?
    ensures var s := Exec(attempt, Init(init), actions);
            Called(attempt, s, Exec(attempt, s, [Invoke(t, op), Load(t), Cas(t), Return(t)]), t, op, |s.log|)
  {
    ExecKeeps(attempt, init, actions);
    var s := Exec(attempt, Init(init), actions);
    ExecFour(attempt, s, Invoke(t, op), Load(t), Cas(t), Return(t));
    var s1 := Step(attempt, s, Invoke(t, op));
    assert OthersStand(s, s1, t);
    TurnAlone(attempt, s1, t);
  }

  /** And a call already under way, however its race stands, ends within one more turn once it is left
      alone: with its own swap, or by loading again. */
  lemma EndsAlone<S, O, R>(attempt: StepFn<S, O, R>, init: S, actions: seq<Action<O>>, t: Tid)
    requires var pc := G(Exec(attempt, Init(init), actions), t).pc; pc.Pending? || pc.Racing?
    ensures var s := Exec(attempt, Init(init), actions);
            var pc, s' := G(s, t).pc, Exec(attempt, s, [Cas(t), Load(t), Cas(t), Return(t)]);
            Called(attempt, s, s', t, pc.op, pc.invokedAt)
  {
    ExecKeeps(attempt, init, actions);
    var s := Exec(attempt, Init(init), actions);
    ExecFour(attempt, s, Cas(t), Load(t), Cas(t), Return(t));
    assert PcOk(attempt, s, t, G(s, t).pc);
    if G(s, t).pc.Racing? && G(s, t).pc.seen == s.ptr {
      WinsAlone(attempt, s, t);
    } else {
      var s1 := Step(attempt, s, Cas(t));
      assert OthersStand(s, s1, t) && s1.heap == s.heap && s1.ptr == s.ptr && s1.log == s.log;
      TurnAlone(attempt, s1, t);
    }
  }

  // A race that nobody has spoilt: the swap goes through, and the next turn has nothing to do.
  lemma WinsAlone<S, O, R>(attempt: StepFn<S, O, R>, s: Sys<S, O, R>, t: Tid)
    requires s.ptr < |s.heap| && G(s, t).pc.Racing? && G(s, t).pc.seen == s.ptr && PcOk(attempt, s, t, G(s, t).pc)
    ensures var pc := G(s, t).pc;
            var s' := Step(attempt, Step(attempt, Step(attempt, Step(attempt, s, Cas(t)), Load(t)), Cas(t)), Return(t));
            Called(attempt, s, s', t, pc.op, pc.invokedAt)
  {
    var s1 := Step(attempt, s, Cas(t));
    assert G(s1, t).pc.Returning?;
    assert Step(attempt, Step(attempt, s1, Load(t)), Cas(t)) == s1;
    assert OthersStand(s, s1, t) && OthersStand(s1, Step(attempt, s1, Return(t)), t);
  }

  lemma StepGrows<S, O, R>(attempt: StepFn<S, O, R>, s: Sys<S, O, R>, a: Action<O>, t: Tid)
    ensures var s' := Step(attempt, s, a);
            var calls, calls' := CallsOf(G(s, t)), CallsOf(G(s', t));
            && |s.log| <= |s'.log|
            && (calls' == calls || (calls' == calls + [calls'[|calls|]] && calls'[|calls|].committedAt == |s.log|))
  {
    var pc := G(s, a.t).pc;
    match a
    case Load(u) =>
      if pc.Pending? && s.ptr < |s.heap| {
        var att := attempt(pc.op, s.heap[s.ptr]);
        assert att.Settled? || att.Swap?;
      }
    case _ =>
  }

  lemma {:induction false} CallsOnlyGrow<S, O, R>(
    attempt: StepFn<S, O, R>, s: Sys<S, O, R>, actions: seq<Action<O>>, t: Tid)
    ensures var s' := Exec(attempt, s, actions);
            var old', new' := CallsOf(G(s, t)), CallsOf(G(s', t));
            && |s.log| <= |s'.log|
            && old' <= new'
            && forall j :: |old'| <= j < |new'| ==> |s.log| <= new'[j].committedAt
  {
    if actions != [] {
      CallsOnlyGrow(attempt, s, actions[..|actions| - 1], t);
      StepGrows(attempt, Exec(attempt, s, actions[..|actions| - 1]), actions[|actions| - 1], t);
    }
  }

  /** Commit order respects real time: at any moment of any run, every call that has taken effect
      stands before every call, of any goroutine, that takes effect later. */
  lemma RealTimeOrder<S, O, R>(
    attempt: StepFn<S, O, R>, init: S, before: seq<Action<O>>, after: seq<Action<O>>, t: Tid, u: Tid, i: nat, j: nat)
    requires var s := Exec(attempt, Init(init), before);
             var s' := Exec(attempt, s, after);
             i < |CallsOf(G(s, u))| <= |CallsOf(G(s', u))| && |CallsOf(G(s, t))| <= j < |CallsOf(G(s', t))|
    ensures var s := Exec(attempt, Init(init), before);
            var s' := Exec(attempt, s, after);
            && CallsOf(G(s', u))[i] == CallsOf(G(s, u))[i]
            && CallsOf(G(s', u))[i].committedAt < CallsOf(G(s', t))[j].committedAt
  {
    var s := Exec(attempt, Init(init), before);
    ExecKeeps(attempt, init, before);
    assert CallsMatch(s.log, u, CallsOf(G(s, u)));
    CallsOnlyGrow(attempt, s, after, t);
    CallsOnlyGrow(attempt, s, after, u);
  }
}
