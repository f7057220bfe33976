/** The reverse proxy's request path: pick an upstream, forward, and on failure retry at most once
    elsewhere. The transport is an oracle that says how each attempt ends and when. */
module Proxy {
  import opened Wrappers
  import opened RoundRobin
  import opened Word

  const BAD_GATEWAY := 502

  class Upstream {
    const addr: string
    var failureCount: int
    var downUntil: int

    function State(): Health
      reads this
    {
      Health(failureCount, downUntil)
    }

    predicate Healthy(now: int)
      reads this
    {
      State().Up(now)
    }

    constructor (addr: string)
      ensures this.addr == addr && State() == Health(0, 0)
    {
      this.addr := addr;
      failureCount, downUntil := 0, 0;
    }

    method RecordSuccess()
      modifies this
      ensures State() == AfterSuccess(old(State()))
    {
      failureCount := 0;
      downUntil := 0;
    }

    method RecordFailure(now: int)
      modifies this
      ensures State() == AfterFailure(old(State()), now)
      ensures -0x8000_0000 <= old(failureCount) <= 0x7fff_ffff ==>
                failureCount == if old(failureCount) == 0x7fff_ffff then -0x8000_0000 else old(failureCount) + 1
    {
      if -0x8000_0000 <= failureCount <= 0x7fff_ffff {
        CountWraps(failureCount);
      }
      failureCount := Wrap32(failureCount + 1);
      if failureCount >= FAILURE_THRESHOLD {
        downUntil := now + DOWN_COOLDOWN;
      }
    }
  }

  // The per-request record that the access logger reads back.
  class Recorder {
    var blocked: bool
    var upstream: string
    var status: int
    var errorReason: string

    constructor ()
      ensures !blocked && upstream == "" && status == 0 && errorReason == ""
    {
      blocked, upstream, status, errorReason := false, "", 0, "";
    }
  }

  // How the transport ends one attempt: with a response, with an error, or with a response that asks to
  // switch protocols followed by an error in doing so.
  datatype Attempt = Responded(status: int) | Failed(reason: string) | Dropped(status: int, reason: string) {
    predicate Fails() {
      !Responded?
    }
  }

  // What the n-th attempt of the request does, the clock when it ends, and the clock as the search that
  // follows a failure reaches each upstream.
  datatype Oracle = Oracle(outcome: nat -> Attempt, clock: nat -> int, search: nat -> nat -> int)

  datatype Req = Req(verb: string, contentLength: int, noBody: bool)

  predicate Safe(verb: string) {
    verb == "GET" || verb == "HEAD" || verb == "OPTIONS"
  }

  predicate Bodiless(r: Req) {
    r.contentLength == 0 && r.noBody
  }

  // The code's rule: a bodiless request of any method, or any GET, HEAD or OPTIONS.
  predicate IsRetryable(r: Req) {
    Bodiless(r) || Safe(r.verb)
  }

  // The documented rule: safe requests are retried, and requests with a body are not.
  predicate DocumentedRetry(r: Req) {
    Safe(r.verb) && Bodiless(r)
  }

  /** The code retries everything the documentation says it does, and differs exactly on requests that
      are safe or bodiless and not both. */
  lemma RetryRuleDiffers(r: Req)
    ensures DocumentedRetry(r) ==> IsRetryable(r)
    ensures (IsRetryable(r) <==> DocumentedRetry(r)) <==> (Safe(r.verb) <==> Bodiless(r))
  {
  }

  /** A POST without a body, and a GET with one: both retried, neither documented. */
  lemma RetriedBeyondDocumentation(n: int)
    requires n != 0
    ensures var post, get := Req("POST", 0, true), Req("GET", n, false);
            IsRetryable(post) && !DocumentedRetry(post) && IsRetryable(get) && !DocumentedRetry(get)
  {
    assert "POST"[0] == 'P';
  }

  class ReverseProxy {
    const upstreams: seq<Upstream>
    var next: nat

    ghost predicate Valid()
      reads this
    {
      next < TWO_64 && forall i, j :: 0 <= i < j < |upstreams| ==> upstreams[i] != upstreams[j]
    }

    // The upstream that the i-th probe reaches is healthy as the clock then reads.
    ghost predicate ProbeUp(start: nat, i: nat, clock: nat -> int)
      requires upstreams != []
      reads upstreams
    {
      upstreams[Probe(|upstreams|, start, i)].Healthy(clock(i))
    }

    // The first probe that finds a healthy upstream, or the first of all if none does.
    ghost predicate Chosen(start: nat, k: nat, clock: nat -> int)
      requires upstreams != []
      reads upstreams
    {
      var n := |upstreams|;
      || (exists d :: 0 <= d < n && ProbeUp(start, d, clock) && k == Probe(n, start, d)
                      && forall i :: 0 <= i < d ==> !ProbeUp(start, i, clock))
      || (k == Probe(n, start, 0) && forall i :: 0 <= i < n ==> !ProbeUp(start, i, clock))
    }

    // Health that does not change during the probes.
    ghost predicate Steady(up: seq<bool>, start: nat, clock: nat -> int)
      reads upstreams
    {
      |up| == |upstreams| > 0 && forall i :: 0 <= i < |up| ==> up[Probe(|up|, start, i)] == ProbeUp(start, i, clock)
    }

    /** While health is steady the choice is the one whose fairness `RoundRobin` proves. */
    lemma ChosenIsPicked(up: seq<bool>, start: nat, k: nat, clock: nat -> int)
      requires Steady(up, start, clock)
      ensures Chosen(start, k, clock) <==> k == Picked(up, start)
    {
      ScanMeaning(up, start, 0);
      assert forall i :: 0 <= i < |up| ==> up[Probe(|up|, start, i)] == ProbeUp(start, i, clock);
    }

    constructor (upstreams: seq<Upstream>)
      requires forall i, j :: 0 <= i < j < |upstreams| ==> upstreams[i] != upstreams[j]
      ensures Valid() && this.upstreams == upstreams && next == 0
    {
      this.upstreams := upstreams;
      next := 0;
    }

    /** The round-robin choice by the health each probe finds; none at all only when there are no
        upstreams. Upstreams are named by their place in the list. */
    method Pick(clock: nat -> int) returns (u: Option<nat>)
      requires Valid()
      modifies this`next
      ensures Valid()
      ensures u.None? <==> upstreams == []
      ensures u.None? ==> next == old(next)
      ensures u.Some? ==> u.value < |upstreams| && next == (old(next) + 1) % 0x1_0000_0000_0000_0000
                           && Chosen(next, u.value, clock)
    {
      var n := |upstreams|;
      if n == 0 {
        return None;
      }
      next := (next + 1) % TWO_64;
      var start := next;
      var i := 0;
      while i < n
        invariant 0 <= i <= n && next == start
        invariant forall j :: 0 <= j < i ==> !ProbeUp(start, j, clock)
      {
        var k := Probe(n, start, i);
        if upstreams[k].Healthy(clock(i)) {
          assert ProbeUp(start, i, clock);
          return Some(k);
        }
        i := i + 1;
      }
      u := Some(Probe(n, start, 0));
    }

    /** The first healthy upstream other than the given one, if there is one, by the clock as the search
        reaches each. */
    method PickOtherThan(exclude: nat, clock: nat -> int) returns (u: Option<nat>)
      requires Valid() && exclude < |upstreams|
      ensures u.Some? ==>
                && u.value < |upstreams| && u.value != exclude && upstreams[u.value].Healthy(clock(u.value))
                && forall k :: 0 <= k < u.value && k != exclude ==> !upstreams[k].Healthy(clock(k))
      ensures u.None? <==> NoOtherUp(exclude, clock)
    {
      for i := 0 to |upstreams|
        invariant forall k :: 0 <= k < i && k != exclude ==> !upstreams[k].Healthy(clock(k))
      {
        if upstreams[i] != upstreams[exclude] && upstreams[i].Healthy(clock(i)) {
          return Some(i);
        }
      }
      u := None;
    }

    // The health an attempt leaves behind.
    ghost function Outcome(h: Health, o: Oracle, n: nat): Health {
      match o.outcome(n)
      case Responded(_) => AfterSuccess(h)
      case Failed(_) => AfterFailure(h, o.clock(n))
      case Dropped(_, _) => AfterFailure(AfterSuccess(h), o.clock(n))
    }

    // The recorder after the last attempt, on upstream `u`: the response status, or a blocked outcome.
    ghost predicate Recorded(rec: Recorder, u: nat, a: Attempt, wasBlocked: bool)
      requires u < |upstreams|
      reads rec
    {
      && rec.upstream == upstreams[u].addr
      && match a {
           case Responded(status) => rec.status == status && rec.blocked == wasBlocked
           case _ => rec.blocked && rec.status == 502 && rec.errorReason == a.reason
         }
    }

    // No upstream but `u` is healthy when the search reaches it.
    ghost predicate NoOtherUp(u: nat, clock: nat -> int)
      reads upstreams
    {
      forall k :: 0 <= k < |upstreams| && k != u ==> !upstreams[k].Healthy(clock(k))
    }

    /** Forwards the n-th attempt, to `u`. `retry` is the second upstream attempted, if any: there is
        one exactly when `u` fails on a retryable request and another upstream is healthy at that
        moment, and no third attempt is ever made. Health is recorded for those tried and nobody
        else, and the recorder tells of the last attempt. */
    method Forward(u: nat, retryable: bool, o: Oracle, n: nat, rec: Recorder) returns (retry: Option<nat>)
      requires Valid() && u < |upstreams|
      modifies upstreams, rec
      ensures retry.Some? <==> retryable && o.outcome(n).Fails() && !old(NoOtherUp(u, o.search(n)))
      ensures retry.Some? ==>
                && retry.value < |upstreams| && retry.value != u
                && old(upstreams[retry.value].Healthy(o.search(n)(retry.value)))
                && upstreams[retry.value].State() == Outcome(old(upstreams[retry.value].State()), o, n + 1)
                && Recorded(rec, retry.value, o.outcome(n + 1), old(rec.blocked))
      ensures retry.None? ==> Recorded(rec, u, o.outcome(n), old(rec.blocked))
      ensures upstreams[u].State() == Outcome(old(upstreams[u].State()), o, n)
      ensures forall k :: 0 <= k < |upstreams| && k != u && retry != Some(k) ==>
                upstreams[k].State() == old(upstreams[k].State())
      decreases retryable, 1
    {
      retry := None;
      if !o.outcome(n).Failed? {
        upstreams[u].RecordSuccess();
        rec.upstream, rec.status := upstreams[u].addr, o.outcome(n).status;
        assert forall k :: 0 <= k < |upstreams| && k != u ==> upstreams[k].State() == old(upstreams[k].State());
        assert forall k :: 0 <= k < |upstreams| && k != u ==>
                 upstreams[k].Healthy(o.search(n)(k)) == old(upstreams[k].Healthy(o.search(n)(k)));
      }
      if o.outcome(n).Fails() {
        retry := HandleError(u, retryable, o.outcome(n).reason, o, n, rec);
      }
    }

    /** The error handler: records the failure, then retries elsewhere or gives up. */
    method HandleError(u: nat, retryable: bool, reason: string, o: Oracle, n: nat, rec: Recorder)
      returns (retry: Option<nat>)
      requires Valid() && u < |upstreams| && o.outcome(n).Fails() && o.outcome(n).reason == reason
      modifies upstreams, rec
      ensures retry.Some? <==> retryable && !old(NoOtherUp(u, o.search(n)))
      ensures retry.Some? ==>
                && retry.value < |upstreams| && retry.value != u
                && old(upstreams[retry.value].Healthy(o.search(n)(retry.value)))
                && upstreams[retry.value].State() == Outcome(old(upstreams[retry.value].State()), o, n + 1)
                && Recorded(rec, retry.value, o.outcome(n + 1), old(rec.blocked))
      ensures retry.None? ==> Recorded(rec, u, o.outcome(n), old(rec.blocked))
      ensures upstreams[u].State() == AfterFailure(old(upstreams[u].State()), o.clock(n))
      ensures forall k :: 0 <= k < |upstreams| && k != u && retry != Some(k) ==>
                upstreams[k].State() == old(upstreams[k].State())
      decreases retryable, 0
    {
      upstreams[u].RecordFailure(o.clock(n));
      assert forall k :: 0 <= k < |upstreams| && k != u ==> upstreams[k].State() == old(upstreams[k].State());
      assert forall k :: 0 <= k < |upstreams| && k != u ==>
               upstreams[k].Healthy(o.search(n)(k)) == old(upstreams[k].Healthy(o.search(n)(k)));
      if retryable && |upstreams| > 1 {
        retry := PickOtherThan(u, o.search(n));
        if retry.Some? {
          var again := Forward(retry.value, false, o, n + 1, rec);
          return;
        }
      }
      rec.blocked, rec.upstream, rec.status, rec.errorReason := true, upstreams[u].addr, BAD_GATEWAY, reason;
      retry := None;
    }

    /** A whole request: at most two attempts, on different upstreams. There is a second exactly when the
        first fails on a retryable request while another upstream is healthy, and it goes to such a one;
        the recorder shows an upstream error exactly when the last attempt failed, or there was none
        to make, and names that attempt's upstream. */
    method ServeHTTP(r: Req, clock: nat -> int, o: Oracle, rec: Recorder)
      returns (first: Option<nat>, second: Option<nat>)
      requires Valid() && !rec.blocked
      modifies this`next, upstreams, rec
      ensures Valid()
      ensures first.None? <==> upstreams == []
      ensures first.Some? ==>
                && first.value < |upstreams| && next == (old(next) + 1) % TWO_64
                && old(Chosen((next + 1) % TWO_64, first.value, clock))
      ensures first.None? ==>
                && second.None? && rec.blocked && rec.errorReason == "no-upstream-available"
                && rec.upstream == old(rec.upstream) && rec.status == old(rec.status)
      ensures first.Some? ==>
                (second.Some? <==>
                 && ((r.contentLength == 0 && r.noBody) || r.verb == "GET" || r.verb == "HEAD" || r.verb == "OPTIONS")
                 && !o.outcome(0).Responded? && !old(NoOtherUp(first.value, o.search(0))))
      ensures second.Some? ==>
                && second.value < |upstreams| && second != first
                && old(upstreams[second.value].Healthy(o.search(0)(second.value)))
                && Recorded(rec, second.value, o.outcome(1), false)
                && upstreams[second.value].State() == Outcome(old(upstreams[second.value].State()), o, 1)
      ensures first.Some? && second.None? ==> Recorded(rec, first.value, o.outcome(0), false)
      ensures first.Some? ==> upstreams[first.value].State() == Outcome(old(upstreams[first.value].State()), o, 0)
      ensures forall k :: 0 <= k < |upstreams| && first != Some(k) && second != Some(k) ==>
                upstreams[k].State() == old(upstreams[k].State())
    {
      first := Pick(clock);
      if first.None? {
        rec.blocked, rec.errorReason := true, "no-upstream-available";
        return None, None;
      }
      second := Forward(first.value, IsRetryable(r), o, 0, rec);
    }
  }
}
