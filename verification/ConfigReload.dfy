/** Reloading on SIGHUP: load and validate the config, then swap the WAF rules, the IP lists and the
    rate limits, in that order, stopping at the first failure. */
module ConfigReload {
  import opened Wrappers
  import opened Netmatch
  import opened Overlay
  import opened IpFilter
  import Waf
  import WafEngine
  import RateStage
  import Admin
  import Runs = AdminRuns

  datatype Config = Config(trustedProxies: seq<string>, ipLists: IpListConfig, rate: RateStage.RateConfig)

  method ValidateCIDRs(parse: Parser, cidrs: seq<string>) returns (ok: bool)
    ensures ok <==> AllParse(parse, cidrs)
  {
    for i := 0 to |cidrs|
      invariant AllParse(parse, cidrs[..i])
    {
      if parse(cidrs[i]).None? {
        assert cidrs[i] in cidrs;
        return false;
      }
    }
    assert cidrs[..|cidrs|] == cidrs;
    ok := true;
  }

  ghost predicate ListsValid(parse: Parser, c: Config) {
    AllParse(parse, c.trustedProxies) && AllParse(parse, c.ipLists.allow) && AllParse(parse, c.ipLists.deny)
  }

  /** `decoded` is the decoded file, absent when it cannot be read; `restOk` is the verdict of the
      checks that do not concern the lists. */
  method Load(parse: Parser, decoded: Option<Config>, restOk: bool) returns (cfg: Option<Config>)
    ensures cfg.Some? <==> decoded.Some? && restOk && ListsValid(parse, decoded.value)
    ensures cfg.Some? ==> cfg == decoded
  {
    if decoded.None? || !restOk {
      return None;
    }
    var proxies := ValidateCIDRs(parse, decoded.value.trustedProxies);
    var allow := ValidateCIDRs(parse, decoded.value.ipLists.allow);
    var deny := ValidateCIDRs(parse, decoded.value.ipLists.deny);
    if !proxies || !allow || !deny {
      return None;
    }
    cfg := decoded;
  }

  // What a reload brings, to the runs of the admin state.
  ghost function AsAction(
    parse: Parser, decoded: Option<Config>, restOk: bool, rules: Option<seq<Waf.Rule>>, db: Option<GeoDb>): Runs.Action
  {
    if decoded.Some? && restOk && AllParse(parse, decoded.value.trustedProxies) then
      var lists := decoded.value.ipLists;
      Runs.Sighup(Some(Runs.Lists(lists.allow, lists.deny)), rules, GeoActive(lists.geo) ==> db.Some?)
    else Runs.Sighup(None, rules, true)
  }

  lemma AsStep(
    env: Runs.Env, w: Runs.World, decoded: Option<Config>, restOk: bool, rules: Option<seq<Waf.Rule>>,
    db: Option<GeoDb>)
    ensures var w' := Runs.Step(env, w, AsAction(env.parse, decoded, restOk, rules, db));
            if !(decoded.Some? && restOk && ListsValid(env.parse, decoded.value)) then w' == w
            else if w.rules.Some? && !(rules.Some? && Waf.WellFormed(env.lib, rules.value)) then w' == w
            else
              var lists := decoded.value.ipLists;
              var w1 := if w.rules.Some? then w.(rules := rules) else w;
              if GeoActive(lists.geo) && db.None? then w' == w1
              else w' == w1.(allow := Apply(env.parse, w.allow, Overlay.Reload(lists.allow)).0,
                             deny := Apply(env.parse, w.deny, Overlay.Reload(lists.deny)).0)
  {
  }

  datatype Result = AllOld | AllNew | RulesOnly

  class Process {
    const engine: WafEngine.Engine?
    const filter: Filter
    const rate: RateStage.Stage

    ghost predicate Valid()
      reads this, filter, filter.allow, filter.deny, engine
    {
      filter.Valid() && (engine != null ==> engine.Valid())
    }

    constructor (engine: WafEngine.Engine?, filter: Filter, rate: RateStage.Stage)
      requires filter.Valid() && (engine != null ==> engine.Valid())
      ensures Valid() && this.engine == engine && this.filter == filter && this.rate == rate
    {
      this.engine := engine;
      this.filter := filter;
      this.rate := rate;
    }

    /** For every reachable overlay and every config, one of three things happens. Everything changes
        to the new config; or nothing changes; or, exactly when a loaded config asks for a geo database
        that does not open and the process has a WAF whose rules do load, the rules are new and the
        lists, geo check and limits old. Rebuilding the lists never fails by itself. Overrides and
        list overlays survive in every case. */
    method ReloadOnce(decoded: Option<Config>, restOk: bool, rules: Option<seq<Waf.Rule>>, db: Option<GeoDb>)
      returns (result: Result)
      requires Valid()
      modifies engine, filter`geo, filter.allow`state, filter.deny`state, rate, RateStage.Limiters(rate.state)`stopped
      ensures Valid()
      ensures var loads := decoded.Some? && restOk && ListsValid(filter.parse, decoded.value);
              var rulesLoad := engine != null ==> rules.Some? && Waf.WellFormed(engine.lib, rules.value);
              var geoOpens := decoded.Some? && (GeoActive(decoded.value.ipLists.geo) ==> db.Some?);
              && (result == AllNew <==> loads && rulesLoad && geoOpens)
              && (result == RulesOnly <==> loads && engine != null && rulesLoad && !geoOpens)
      ensures result == AllNew ==>
                && filter.allow.state
                   == Apply(filter.parse, old(filter.allow.state), Overlay.Reload(decoded.value.ipLists.allow)).0
                && filter.deny.state
                   == Apply(filter.parse, old(filter.deny.state), Overlay.Reload(decoded.value.ipLists.deny)).0
                && filter.allow.state.base == decoded.value.ipLists.allow
                && filter.deny.state.base == decoded.value.ipLists.deny
                && filter.geo == GeoFrom(decoded.value.ipLists.geo, db, filter.upper)
                && RateStage.BuiltFrom(rate.state, decoded.value.rate)
                && (forall l :: l in old(RateStage.Limiters(rate.state)) ==> l.stopped)
      ensures result != AllNew ==>
                && filter.allow.state == old(filter.allow.state) && filter.deny.state == old(filter.deny.state)
                && filter.geo == old(filter.geo) && rate.state == old(rate.state)
                && (forall l :: l in RateStage.Limiters(rate.state) ==> l.stopped == old(l.stopped))
      ensures engine != null ==>
                && engine.overrides == old(engine.overrides)
                && (result == AllOld ==> engine.ruleSet == old(engine.ruleSet))
                && (result != AllOld ==> engine.ruleSet.all == rules.value)
      ensures filter.allow.state.added == old(filter.allow.state).added
      ensures filter.allow.state.removed == old(filter.allow.state).removed
      ensures filter.deny.state.added == old(filter.deny.state).added
      ensures filter.deny.state.removed == old(filter.deny.state).removed
    {
      var cfg := Load(filter.parse, decoded, restOk);
      if cfg.None? {
        return AllOld;
      }
      if engine != null {
        var rulesOk := engine.Reload(rules);
        if !rulesOk {
          return AllOld;
        }
      }
      var swapped := ReloadListsAndLimits(cfg.value, db);
      if !swapped {
        return if engine != null then RulesOnly else AllOld;
      }
      result := AllNew;
    }

    // The part after the rules: lists and geo check, then the limits.
    method ReloadListsAndLimits(cfg: Config, db: Option<GeoDb>) returns (ok: bool)
      requires Valid() && ListsValid(filter.parse, cfg)
      modifies filter`geo, filter.allow`state, filter.deny`state, rate, RateStage.Limiters(rate.state)`stopped
      ensures Valid()
      ensures ok <==> (GeoActive(cfg.ipLists.geo) ==> db.Some?)
      ensures ok ==>
                && filter.allow.state
                   == Apply(filter.parse, old(filter.allow.state), Overlay.Reload(cfg.ipLists.allow)).0
                && filter.deny.state
                   == Apply(filter.parse, old(filter.deny.state), Overlay.Reload(cfg.ipLists.deny)).0
                && filter.allow.state.base == cfg.ipLists.allow && filter.deny.state.base == cfg.ipLists.deny
                && filter.geo == GeoFrom(cfg.ipLists.geo, db, filter.upper)
                && RateStage.BuiltFrom(rate.state, cfg.rate)
                && (forall l :: l in old(RateStage.Limiters(rate.state)) ==> l.stopped)
      ensures !ok ==>
                && filter.allow.state == old(filter.allow.state) && filter.deny.state == old(filter.deny.state)
                && filter.geo == old(filter.geo) && rate.state == old(rate.state)
                && (forall l :: l in RateStage.Limiters(rate.state) ==> l.stopped == old(l.stopped))
      ensures filter.allow.state.added == old(filter.allow.state).added
      ensures filter.allow.state.removed == old(filter.allow.state).removed
      ensures filter.deny.state.added == old(filter.deny.state).added
      ensures filter.deny.state.removed == old(filter.deny.state).removed
    {
      var listsOk := filter.Reload(cfg.ipLists, db);
      if !listsOk {
        return false;
      }
      rate.Reload(cfg.rate);
      ok := true;
    }

    /** One signal, answered by one reload. Whatever the state file holds, it is one step of the runs of
        the admin state. */
    method OnSighup(
      decoded: Option<Config>, restOk: bool, rules: Option<seq<Waf.Rule>>, db: Option<GeoDb>,
      ghost env: Runs.Env, ghost file: Option<Runs.State>)
      requires Valid() && env.parse == filter.parse && (engine != null ==> env.lib == engine.lib)
      modifies engine, filter`geo, filter.allow`state, filter.deny`state, rate, RateStage.Limiters(rate.state)`stopped
      ensures Valid()
      ensures Admin.Live(filter, engine, file) ==
              Runs.Step(env, old(Admin.Live(filter, engine, file)), AsAction(filter.parse, decoded, restOk, rules, db))
    {
      AsStep(env, Admin.Live(filter, engine, file), decoded, restOk, rules, db);
      var _ := ReloadOnce(decoded, restOk, rules, db);
    }
  }
}
