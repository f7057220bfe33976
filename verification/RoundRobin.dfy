/** Upstream choice: passive health from recent failures, and round robin over the healthy. */
module RoundRobin {
  import opened Word

  const FAILURE_THRESHOLD := 3
  const DOWN_COOLDOWN := 30_000_000_000

  // ----- passive health

  // The failure count is an int32 and wraps; times are in nanoseconds since the epoch.
  datatype Health = Health(failures: int, downUntil: int) {
    predicate Up(now: int) {
      downUntil == 0 || now >= downUntil
    }
  }

  function Wrap32(n: int): int {
    (n + TWO_31) % TWO_32 - TWO_31
  }

  /** One more failure on an int32 count: the largest value is followed by the smallest. */
  lemma CountWraps(n: int)
    requires -0x8000_0000 <= n <= 0x7fff_ffff
    ensures Wrap32(n + 1) == if n == 0x7fff_ffff then -0x8000_0000 else n + 1
  {
    if n != 0x7fff_ffff {
      assert 0 <= n + 1 + 0x8000_0000 < 0x1_0000_0000;
    }
  }

  function AfterSuccess(h: Health): Health {
    Health(0, 0)
  }

  function AfterFailure(h: Health, at: int): Health {
    var n := Wrap32(h.failures + 1);
    Health(n, if n >= FAILURE_THRESHOLD then at + DOWN_COOLDOWN else h.downUntil)
  }

  datatype Outcome = Success | Failure(at: int)

  ghost function HealthAfter(history: seq<Outcome>): Health {
    if history == [] then Health(0, 0)
    else
      var h := HealthAfter(history[..|history| - 1]);
      match history[|history| - 1]
      case Success => AfterSuccess(h)
      case Failure(at) => AfterFailure(h, at)
  }

  // Failures since the last success.
  ghost function FailuresInARow(history: seq<Outcome>): nat {
    if history == [] || history[|history| - 1].Success? then 0
    else 1 + FailuresInARow(history[..|history| - 1])
  }

  lemma {:induction false} HealthState(history: seq<Outcome>)
    requires FailuresInARow(history) < TWO_31
    ensures HealthAfter(history).failures == FailuresInARow(history)
    ensures HealthAfter(history).downUntil ==
            if FailuresInARow(history) >= FAILURE_THRESHOLD
            then history[|history| - 1].at + DOWN_COOLDOWN else 0
  {
    if history != [] && history[|history| - 1].Failure? {
      HealthState(history[..|history| - 1]);
    }
  }

  /** Health refines history: an upstream is down at a moment exactly when at least three failures
      have come since its last success and the last of them is less than the cooldown ago. So after
      a cooldown one more failure takes it down again. */
  lemma HealthRefinesHistory(history: seq<Outcome>, now: int)
    requires FailuresInARow(history) < TWO_31
    requires forall i :: 0 <= i < |history| && history[i].Failure? ==> history[i].at >= 0
    ensures !HealthAfter(history).Up(now) <==>
            FailuresInARow(history) >= 3 && now < history[|history| - 1].at + 30_000_000_000
  {
    HealthState(history);
  }

  // ----- round robin

  // Index arithmetic in uint64: the sum wraps before the remainder is taken.
  function Probe(n: nat, start: nat, i: nat): (k: nat)
    requires n > 0
    ensures k < n
  {
    (start + i) % TWO_64 % n
  }

  // The first healthy upstream at or after offset `i`, or the first of all if none is healthy.
  function Scan(up: seq<bool>, start: nat, i: nat): (k: nat)
    requires |up| > 0 && i <= |up|
    ensures k < |up|
    decreases |up| - i
  {
    if i == |up| then Probe(|up|, start, 0)
    else if up[Probe(|up|, start, i)] then Probe(|up|, start, i)
    else Scan(up, start, i + 1)
  }

  function Picked(up: seq<bool>, start: nat): (k: nat)
    requires |up| > 0
    ensures k < |up|
  {
    Scan(up, start, 0)
  }

  ghost predicate SomeUp(up: seq<bool>) {
    exists k :: 0 <= k < |up| && up[k]
  }

  lemma {:induction false} ScanMeaning(up: seq<bool>, start: nat, i: nat)
    requires |up| > 0 && i <= |up|
    ensures (exists d :: i <= d < |up| && up[Probe(|up|, start, d)] && Scan(up, start, i) == Probe(|up|, start, d)
               && forall j :: i <= j < d ==> !up[Probe(|up|, start, j)])
            || (Scan(up, start, i) == Probe(|up|, start, 0) && forall j :: i <= j < |up| ==> !up[Probe(|up|, start, j)])
    decreases |up| - i
  {
    if i < |up| && !up[Probe(|up|, start, i)] {
      ScanMeaning(up, start, i + 1);
    }
  }

  // ----- which starts pick which upstream

  // How far ahead of `start` upstream `u` lies in cyclic order.
  function Ahead(n: nat, start: nat, u: nat): (d: nat)
    requires n > 0 && u < n
    ensures d < n
  {
    var r := start % n;
    if u >= r then u - r else u - r + n
  }

  // The upstream `j` places before `u` in cyclic order.
  function Before(n: nat, u: nat, j: nat): (k: nat)
    requires u < n && j < n
    ensures k < n
  {
    if j <= u then u - j else u - j + n
  }

  lemma MulAtLeast(a: int, n: int)
    requires a >= 1 && n > 0
    ensures a * n >= n
  {
  }

  lemma DivMod(n: int, q: int, r: int)
    requires 0 <= r < n
    ensures (q * n + r) % n == r
  {
    var x := q * n + r;
    var e, m := x / n, x % n;
    assert x == e * n + m && 0 <= m < n;
    assert (q - e) * n == m - r && (e - q) * n == r - m;
    if q > e {
      MulAtLeast(q - e, n);
    } else if e > q {
      MulAtLeast(e - q, n);
    }
  }

  lemma RemainderShifts(n: nat, start: nat, k: nat)
    requires n > 0 && k < n
    ensures (start + k) % n == if start % n + k < n then start % n + k else start % n + k - n
  {
    var r, q := start % n, start / n;
    assert start == q * n + r;
    if r + k < n {
      DivMod(n, q, r + k);
      assert start + k == q * n + (r + k);
    } else {
      DivMod(n, q + 1, r + k - n);
      assert start + k == (q + 1) * n + (r + k - n);
    }
  }

  lemma ProbeIsBefore(n: nat, start: nat, u: nat, i: nat)
    requires n > 0 && u < n && i < n && start + n <= TWO_64
    ensures Probe(n, start, i) == u <==> i == Ahead(n, start, u)
    ensures i <= Ahead(n, start, u) ==> Probe(n, start, i) == Before(n, u, Ahead(n, start, u) - i)
  {
    assert (start + i) % TWO_64 == start + i;
    RemainderShifts(n, start, i);
  }

  // The number of down upstreams just before `u` in cyclic order, counting from `j` places back.
  function DownRun(up: seq<bool>, u: nat, j: nat): (d: nat)
    requires u < |up| && 0 < j <= |up|
    ensures d <= |up| - j
    decreases |up| - j
  {
    if j == |up| || up[Before(|up|, u, j)] then 0 else 1 + DownRun(up, u, j + 1)
  }

  lemma {:induction false} DownRunMeaning(up: seq<bool>, u: nat, j: nat, d: nat)
    requires u < |up| && 0 < j <= |up| && d < |up|
    ensures d < j + DownRun(up, u, j) <==> forall i :: j <= i <= d ==> !up[Before(|up|, u, i)]
    decreases |up| - j
  {
    if j < |up| && !up[Before(|up|, u, j)] {
      DownRunMeaning(up, u, j + 1, d);
    }
  }

  /** A start picks a healthy upstream exactly when it lies no further back than the run of down
      upstreams before it. */
  lemma PickedExactly(up: seq<bool>, start: nat, u: nat)
    requires u < |up| && up[u] && start + |up| <= TWO_64
    ensures Picked(up, start) == u <==> Ahead(|up|, start, u) <= DownRun(up, u, 1)
  {
    var n, a := |up|, Ahead(|up|, start, u);
    DownRunMeaning(up, u, 1, a);
    ScanMeaning(up, start, 0);
    forall i | 0 <= i < n
      ensures Probe(n, start, i) == u <==> i == a
      ensures i <= a ==> Probe(n, start, i) == Before(n, u, a - i)
    {
      ProbeIsBefore(n, start, u, i);
    }
    if Picked(up, start) == u {
      var d :| 0 <= d < n && up[Probe(n, start, d)] && Picked(up, start) == Probe(n, start, d)
        && forall j :: 0 <= j < d ==> !up[Probe(n, start, j)];
      forall i | 1 <= i <= a
        ensures !up[Before(n, u, i)]
      {
        assert Probe(n, start, a - i) == Before(n, u, i);
      }
    }
    if forall i :: 1 <= i <= a ==> !up[Before(n, u, i)] {
      forall j | 0 <= j < a
        ensures !up[Probe(n, start, j)]
      {
        assert Probe(n, start, j) == Before(n, u, a - j);
      }
      assert up[Probe(n, start, a)];
    }
  }

  // ----- fairness

  ghost function CountPicks(up: seq<bool>, start: nat, m: nat, u: nat): nat
    requires |up| > 0
  {
    if m == 0 then 0
    else CountPicks(up, start, m - 1, u) + if Picked(up, start + m - 1) == u then 1 else 0
  }

  function Max0(x: int): nat {
    if x < 0 then 0 else x
  }

  // How many of the first m starts lie at most d behind an upstream that is c ahead of the first.
  function Close(n: nat, c: nat, d: nat, m: nat): nat {
    Max0((if m < c + 1 then m else c + 1) - Max0(c - d)) + Max0(m - (c + n - d))
  }

  lemma AheadShifts(n: nat, start: nat, k: nat, u: nat)
    requires n > 0 && u < n && k < n
    ensures var c := Ahead(n, start, u);
            Ahead(n, start + k, u) == if k <= c then c - k else c - k + n
  {
    RemainderShifts(n, start, k);
  }

  lemma {:induction false} CountClose(up: seq<bool>, start: nat, m: nat, u: nat)
    requires u < |up| && up[u] && m <= |up| && start + m + |up| <= TWO_64
    ensures CountPicks(up, start, m, u) == Close(|up|, Ahead(|up|, start, u), DownRun(up, u, 1), m)
  {
    if m > 0 {
      CountClose(up, start, m - 1, u);
      PickedExactly(up, start + m - 1, u);
      AheadShifts(|up|, start, m - 1, u);
    }
  }

  // What a round of picks gives an upstream: a healthy one its own turn and those of the down upstreams
  // just before it in cyclic order.
  function Share(up: seq<bool>, u: nat): nat
    requires u < |up|
  {
    if up[u] then 1 + DownRun(up, u, 1) else 0
  }

  lemma OneRound(up: seq<bool>, start: nat, u: nat)
    requires u < |up| && SomeUp(up) && start + 2 * |up| <= TWO_64
    ensures CountPicks(up, start, |up|, u) == Share(up, u)
  {
    if up[u] {
      CountClose(up, start, |up|, u);
    } else {
      NeverDown(up, start, |up|, u);
    }
  }

  lemma OneMore(k: nat, x: nat)
    ensures (k + 1) * x == k * x + x
  {
  }

  /** Fairness with outages: over any number of rounds of n picks, with the health of the n upstreams fixed
      and one of them up, a down upstream is never picked, and in each round a healthy one is picked once
      plus once for each down upstream just before it in cyclic order. */
  lemma {:induction false} FairWithOutages(up: seq<bool>, start: nat, rounds: nat, u: nat)
    requires u < |up| && SomeUp(up) && start + (rounds + 1) * |up| <= TWO_64
    ensures CountPicks(up, start, rounds * |up|, u) == rounds * Share(up, u)
  {
    var n := |up|;
    if rounds == 0 {
      assert 0 * n == 0 && 0 * Share(up, u) == 0;
    } else {
      var k := rounds - 1;
      OneMore(k, n);
      OneMore(k + 1, n);
      OneMore(k, Share(up, u));
      FairWithOutages(up, start, k, u);
      OneRound(up, start + k * n, u);
      CountSplit(up, start, k * n, n, u);
    }
  }

  lemma PicksUp(up: seq<bool>, start: nat)
    requires SomeUp(up) && start + |up| <= TWO_64
    ensures up[Picked(up, start)]
  {
    var k :| 0 <= k < |up| && up[k];
    ScanMeaning(up, start, 0);
    ProbeIsBefore(|up|, start, k, Ahead(|up|, start, k));
  }

  lemma {:induction false} NeverDown(up: seq<bool>, start: nat, m: nat, u: nat)
    requires u < |up| && !up[u] && SomeUp(up) && start + m + |up| <= TWO_64
    ensures CountPicks(up, start, m, u) == 0
  {
    if m > 0 {
      NeverDown(up, start, m - 1, u);
      PicksUp(up, start + m - 1);
    }
  }

  // ----- all healthy, or all down

  ghost predicate Uniform(up: seq<bool>) {
    |up| > 0 && forall i :: 0 <= i < |up| ==> up[i] == up[0]
  }

  lemma FirstProbe(n: nat, start: nat)
    requires n > 0 && start < TWO_64
    ensures Probe(n, start, 0) == start % n
  {
    assert (start + 0) % TWO_64 == start;
  }

  lemma AheadOfSelf(n: nat, start: nat, u: nat)
    requires n > 0 && u < n
    ensures Ahead(n, start, u) == 0 <==> start % n == u
  {
  }

  lemma UniformScan(up: seq<bool>, start: nat)
    requires Uniform(up)
    ensures Picked(up, start) == Probe(|up|, start, 0)
  {
    if !up[0] {
      ScanMeaning(up, start, 0);
    }
  }

  lemma UniformPick(up: seq<bool>, start: nat, u: nat)
    requires Uniform(up) && start < TWO_64 && u < |up|
    ensures Picked(up, start) == u <==> Ahead(|up|, start, u) == 0
  {
    UniformScan(up, start);
    FirstProbe(|up|, start);
    AheadOfSelf(|up|, start, u);
  }

  lemma UniformTurn(up: seq<bool>, start: nat, k: nat, u: nat)
    requires Uniform(up) && u < |up| && k < |up| && start + k < TWO_64
    ensures Picked(up, start + k) == u <==> k == Ahead(|up|, start, u)
  {
    UniformPick(up, start + k, u);
    AheadShifts(|up|, start, k, u);
  }

  lemma {:induction false} UniformCount(up: seq<bool>, start: nat, m: nat, u: nat)
    requires Uniform(up) && u < |up| && m <= |up| && start + m <= TWO_64
    ensures CountPicks(up, start, m, u) == if Ahead(|up|, start, u) < m then 1 else 0
  {
    if m > 0 {
      UniformCount(up, start, m - 1, u);
      UniformTurn(up, start, m - 1, u);
      assert start + m - 1 == start + (m - 1);
    }
  }

  lemma {:induction false} CountSplit(up: seq<bool>, start: nat, a: nat, b: nat, u: nat)
    requires |up| > 0
    ensures CountPicks(up, start, a + b, u) == CountPicks(up, start, a, u) + CountPicks(up, start + a, b, u)
  {
    if b > 0 {
      CountSplit(up, start, a, b - 1, u);
      assert start + (a + b) - 1 == start + a + b - 1;
    }
  }

  // Whole rounds in m picks.
  ghost function Rounds(m: nat, n: nat): nat
    requires n > 0
  {
    if m < n then 0 else 1 + Rounds(m - n, n)
  }

  lemma {:induction false} RoundsEach(up: seq<bool>, start: nat, m: nat, u: nat)
    requires Uniform(up) && u < |up| && start + m <= TWO_64
    ensures Rounds(m, |up|) <= CountPicks(up, start, m, u) <= Rounds(m, |up|) + 1
  {
    var n := |up|;
    if m < n {
      UniformCount(up, start, m, u);
    } else {
      RoundsEach(up, start, m - n, u);
      CountSplit(up, start, m - n, n, u);
      UniformCount(up, start + (m - n), n, u);
    }
  }

  /** With every upstream healthy, or every upstream down, any number of consecutive picks favours no
      upstream over another by more than one. */
  lemma FairWhenUniform(up: seq<bool>, start: nat, m: nat, u: nat, v: nat)
    requires Uniform(up) && u < |up| && v < |up| && start + m <= TWO_64
    ensures CountPicks(up, start, m, u) <= CountPicks(up, start, m, v) + 1
  {
    RoundsEach(up, start, m, u);
    RoundsEach(up, start, m, v);
  }
}
