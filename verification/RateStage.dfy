/** The rate-limiting stage: a default limiter and per-route ones, all swapped together on reload. */
module RateStage {
  import opened Text
  import opened Wrappers
  import opened TokenBucket
  import opened ShardedLimiter

  datatype Limit = Limit(rps: real, burst: nat)

  datatype Route = Route(path: string, limit: Limit)

  datatype RateConfig = RateConfig(enabled: bool, standard: Limit, idleTTL: real, perRoute: seq<Route>)

  datatype RouteLimiter = RouteLimiter(path: string, limiter: Limiter)

  datatype StageState = Off | On(standard: Limiter, routes: seq<RouteLimiter>)

  function ParamsOf(l: Limit, idleTTL: real): Params {
    Params(l.rps, l.burst, idleTTL)
  }

  // A limiter as it starts out: the config's parameters and no buckets.
  ghost predicate Pristine(l: Limiter, limit: Limit, idleTTL: real)
    reads l
  {
    && l.Valid() && l.place == ShardIndex && l.contents == map[] && !l.stopped
    && l.p.rps == limit.rps && l.p.burst == limit.burst && l.p.idleTTL == idleTTL
  }

  // The path begins with the route's, character by character.
  ghost predicate Under(path: string, route: string) {
    |route| <= |path| && forall k :: 0 <= k < |route| ==> path[k] == route[k]
  }

  ghost function Limiters(s: StageState): set<Limiter> {
    match s
    case Off => {}
    case On(standard, routes) => {standard} + set i | 0 <= i < |routes| :: routes[i].limiter
  }

  ghost predicate BuiltFrom(s: StageState, cfg: RateConfig)
    reads Limiters(s)
  {
    && (s.On? <==> cfg.enabled)
    && (s.On? ==>
          && Pristine(s.standard, cfg.standard, cfg.idleTTL)
          && |s.routes| == |cfg.perRoute|
          && forall i :: 0 <= i < |s.routes| ==>
               && s.routes[i].path == cfg.perRoute[i].path
               && Pristine(s.routes[i].limiter, cfg.perRoute[i].limit, cfg.idleTTL))
  }

  method BuildState(cfg: RateConfig) returns (s: StageState)
    ensures BuiltFrom(s, cfg) && fresh(Limiters(s))
  {
    if !cfg.enabled {
      return Off;
    }
    var standard := new Limiter(ParamsOf(cfg.standard, cfg.idleTTL));
    var routes: seq<RouteLimiter> := [];
    for i := 0 to |cfg.perRoute|
      invariant |routes| == i && fresh(standard) && Pristine(standard, cfg.standard, cfg.idleTTL)
      invariant forall k :: 0 <= k < i ==>
                  && fresh(routes[k].limiter) && routes[k].path == cfg.perRoute[k].path
                  && Pristine(routes[k].limiter, cfg.perRoute[k].limit, cfg.idleTTL)
    {
      var l := new Limiter(ParamsOf(cfg.perRoute[i].limit, cfg.idleTTL));
      routes := routes + [RouteLimiter(cfg.perRoute[i].path, l)];
    }
    s := On(standard, routes);
  }

  /** The first route whose prefix matches; the standard limiter exactly when none does. */
  method LimiterFor(s: StageState, path: string) returns (l: Limiter, ghost route: Option<nat>)
    requires s.On?
    ensures route.Some? ==>
              && route.value < |s.routes| && l == s.routes[route.value].limiter
              && Under(path, s.routes[route.value].path)
              && forall k :: 0 <= k < route.value ==> !Under(path, s.routes[k].path)
    ensures route.None? ==> l == s.standard && forall k :: 0 <= k < |s.routes| ==> !Under(path, s.routes[k].path)
  {
    for i := 0 to |s.routes|
      invariant forall k :: 0 <= k < i ==> !HasPrefix(path, s.routes[k].path)
    {
      if HasPrefix(path, s.routes[i].path) {
        return s.routes[i].limiter, Some(i);
      }
    }
    return s.standard, None;
  }

  method StopAll(s: StageState)
    modifies Limiters(s)`stopped
    ensures forall l :: l in Limiters(s) ==> l.stopped
  {
    if s.Off? {
      return;
    }
    s.standard.Stop();
    for i := 0 to |s.routes|
      invariant s.standard.stopped && forall k :: 0 <= k < i ==> s.routes[k].limiter.stopped
    {
      assert s.routes[i].limiter in Limiters(s);
      s.routes[i].limiter.Stop();
    }
  }

  class Stage {
    var state: StageState

    constructor (cfg: RateConfig)
      ensures BuiltFrom(state, cfg) && fresh(Limiters(state))
    {
      var s := BuildState(cfg);
      state := s;
    }

    /** Every limiter is replaced by a new one with full buckets, and the old ones are stopped. */
    method Reload(cfg: RateConfig)
      modifies this, Limiters(state)`stopped
      ensures BuiltFrom(state, cfg) && fresh(Limiters(state))
      ensures forall l :: l in old(Limiters(state)) ==> l.stopped
    {
      var next := BuildState(cfg);
      var was := state;
      state := next;
      assert Limiters(was) !! Limiters(next);
      StopAll(was);
    }
  }
}
