/** The admin server: live edits of the lists and rule overrides, each saved as a snapshot of the whole
    overlay, and the replay of a snapshot at startup. Handlers run one at a time. */
module Admin {
  import opened Wrappers
  import opened Netmatch
  import opened Overlay
  import CasLoop
  import opened IpFilter
  import opened ListPersistence
  import Waf
  import opened WafEngine
  import Runs = AdminRuns

  datatype Status = NoContent | BadRequest | NotFound

  // What the processes' runs are about: the live lists, rules and overrides, and the state file.
  ghost function Live(filter: Filter, engine: Engine?, file: Option<Runs.State>): Runs.World
    reads filter, filter.allow, filter.deny, engine
  {
    Runs.World(
      filter.allow.state, filter.deny.state, if engine != null then Some(engine.ruleSet.all) else None,
      if engine != null then engine.overrides else map[], file)
  }

  class Server {
    const lib: Waf.Lib
    const filter: Filter
    const engine: Engine?          // null when the WAF is disabled
    const hasStore: bool           // whether a state file is configured
    var file: Option<Runs.State>   // what the state file holds

    ghost predicate Valid()
      reads this, filter, filter.allow, filter.deny, engine
    {
      filter.Valid() && (engine != null ==> engine.Valid() && engine.lib == lib)
    }

    ghost function Env(): Runs.Env {
      Runs.Env(filter.parse, lib, hasStore)
    }

    ghost function World(): Runs.World
      reads this, filter, filter.allow, filter.deny, engine
    {
      Live(filter, engine, file)
    }

    constructor (lib: Waf.Lib, filter: Filter, engine: Engine?, hasStore: bool, file: Option<Runs.State>)
      requires filter.Valid() && (engine != null ==> engine.Valid() && engine.lib == lib)
      ensures Valid() && this.lib == lib && this.filter == filter && this.engine == engine
      ensures this.hasStore == hasStore && this.file == file
    {
      this.lib := lib;
      this.filter := filter;
      this.engine := engine;
      this.hasStore := hasStore;
      this.file := file;
    }

    method CurrentState() returns (s: Runs.State)
      requires Valid()
      ensures s == Runs.Snapshot(World())
    {
      var a, d := filter.allow.state, filter.deny.state;
      var os: Overrides := map[];
      if engine != null {
        os := engine.overrides;
      }
      s := Runs.State(SavedList(a.added, a.removed), SavedList(d.added, d.removed), os);
    }

    /** A save that fails leaves the old file; the edit has already taken effect. */
    method Persist(saveOk: bool)
      requires Valid()
      modifies this`file
      ensures Valid() && World() == Runs.AfterSave(Env(), old(World()), saveOk)
    {
      if !hasStore {
        return;
      }
      var s := CurrentState();
      if saveOk {
        file := Some(s);
      }
    }

    /** Adds to the named list and saves. A refused request changes neither the lists nor the file. */
    method AddIp(list: Runs.ListName, cidr: string, saveOk: bool) returns (status: Status)
      requires Valid()
      modifies this`file, filter.allow`state, filter.deny`state
      ensures Valid()
      ensures status == NoContent <==> !list.UnknownList? && filter.parse(cidr).Some?
      ensures status == NotFound <==> list.UnknownList?
      ensures filter.allow.state ==
              (if list.AllowList? then Apply(filter.parse, old(filter.allow.state), Add(cidr)).0
               else old(filter.allow.state))
      ensures filter.deny.state ==
              (if list.DenyList? then Apply(filter.parse, old(filter.deny.state), Add(cidr)).0
               else old(filter.deny.state))
      ensures World() == Runs.Step(Env(), old(World()), Runs.AddCidr(list, cidr, saveOk))
      ensures status != NoContent ==> World() == old(World())
    {
      var ok;
      match list {
        case AllowList => ok := filter.allow.Add(cidr);
        case DenyList => ok := filter.deny.Add(cidr);
        case UnknownList => return NotFound;
      }
      if !ok {
        return BadRequest;
      }
      Persist(saveOk);
      status := NoContent;
    }

    method RemoveIp(list: Runs.ListName, cidr: string, saveOk: bool) returns (status: Status)
      requires Valid()
      modifies this`file, filter.allow`state, filter.deny`state
      ensures Valid()
      ensures status == NoContent <==>
              || (list.AllowList? && cidr in old(filter.allow.state).effective)
              || (list.DenyList? && cidr in old(filter.deny.state).effective)
      ensures status != BadRequest
      ensures filter.allow.state ==
              (if list.AllowList? then Apply(filter.parse, old(filter.allow.state), Remove(cidr)).0
               else old(filter.allow.state))
      ensures filter.deny.state ==
              (if list.DenyList? then Apply(filter.parse, old(filter.deny.state), Remove(cidr)).0
               else old(filter.deny.state))
      ensures World() == Runs.Step(Env(), old(World()), Runs.RemoveCidr(list, cidr, saveOk))
      ensures status != NoContent ==> World() == old(World())
    {
      var found, ok;
      match list {
        case AllowList => found, ok := filter.allow.Remove(cidr);
        case DenyList => found, ok := filter.deny.Remove(cidr);
        case UnknownList => return NotFound;
      }
      if !ok {
        return BadRequest;
      }
      if !found {
        return NotFound;
      }
      Persist(saveOk);
      status := NoContent;
    }

    method PatchRule(id: int, enabled: Option<bool>, action: Option<string>, saveOk: bool) returns (status: Status)
      requires Valid()
      modifies this`file, engine
      ensures Valid()
      ensures status == NotFound <==> engine == null
      ensures engine != null ==>
                && engine.ruleSet == old(engine.ruleSet)
                && (status == NoContent <==>
                    Patch(engine.ruleSet.all, old(engine.overrides), id, enabled, action).Some?)
      ensures status != NoContent ==> World() == old(World())
      ensures World() == Runs.Step(Env(), old(World()), Runs.PatchRule(id, enabled, action, saveOk))
    {
      if engine == null {
        return NotFound;
      }
      ghost var w, a := World(), Runs.PatchRule(id, enabled, action, saveOk);
      var ok := engine.PatchRule(id, enabled, action);
      assert Runs.Edited(Env(), w, a) == if ok then Some(World()) else None;
      if !ok {
        return BadRequest;
      }
      Persist(saveOk);
      status := NoContent;
    }
  }

  /** Removes each listed CIDR in turn, then adds each; entries that no longer apply are skipped. */
  method ReplayList(p: ListPointer, saved: SavedList)
    requires p.Valid()
    modifies p`state
    ensures p.Valid()
    ensures p.state == Overlay.Run(p.parse, old(p.state), ReplayOps(saved))
  {
    ghost var s0, parse := p.state, p.parse;
    for i := 0 to |saved.removed|
      invariant p.Valid() && p.state == Overlay.Run(parse, s0, Removals(saved.removed[..i]))
    {
      assert Removals(saved.removed[..i + 1])[..i] == Removals(saved.removed[..i]);
      var _, _ := p.Remove(saved.removed[i]);
    }
    assert saved.removed[..|saved.removed|] == saved.removed;
    ghost var s1 := p.state;
    for i := 0 to |saved.added|
      invariant p.Valid() && p.state == Overlay.Run(parse, s1, Additions(saved.added[..i]))
    {
      assert Additions(saved.added[..i + 1])[..i] == Additions(saved.added[..i]);
      var _ := p.Add(saved.added[i]);
    }
    assert saved.added[..|saved.added|] == saved.added;
    CasLoop.RunConcat(ListStep(parse), s0, Removals(saved.removed), Additions(saved.added));
  }

  /** Sets each saved override, in the order in which the map happens to yield them. */
  method ReplayEngine(e: Engine, saved: Overrides, order: seq<int>)
    requires e.Valid() && Enumerates(order, saved)
    modifies e`overrides
    ensures e.Valid()
    ensures e.overrides == ReplayOverrides(e.ruleSet.all, old(e.overrides), saved, order)
  {
    for i := 0 to |order|
      invariant e.Valid()
      invariant e.overrides == ReplayOverrides(e.ruleSet.all, old(e.overrides), saved, order[..i])
    {
      assert order[..i + 1][..i] == order[..i];
      var _ := e.SetOverride(order[i], saved[order[i]].enabled, saved[order[i]].action);
    }
    assert order[..|order|] == order;
  }

  method ReplayState(state: Runs.State, filter: Filter, engine: Engine?, order: seq<int>)
    requires filter.Valid() && (engine != null ==> engine.Valid()) && Enumerates(order, state.overrides)
    modifies filter.allow`state, filter.deny`state, engine
    ensures filter.Valid() && (engine != null ==> engine.Valid() && engine.ruleSet == old(engine.ruleSet))
    ensures filter.allow.state == Overlay.Run(filter.parse, old(filter.allow.state), ReplayOps(state.allow))
    ensures filter.deny.state == Overlay.Run(filter.parse, old(filter.deny.state), ReplayOps(state.deny))
    ensures engine != null ==>
              engine.overrides == ReplayOverrides(engine.ruleSet.all, old(engine.overrides), state.overrides, order)
  {
    ReplayList(filter.allow, state.allow);
    ReplayList(filter.deny, state.deny);
    if engine != null {
      ReplayEngine(engine, state.overrides, order);
    }
  }

  datatype WafConfig = WafOff | WafOn(logOnly: bool, rules: Option<seq<Waf.Rule>>)

  ghost function RulesOf(waf: WafConfig): Option<seq<Waf.Rule>> {
    if waf.WafOn? then waf.rules else None
  }

  /** Starting over a config and whatever the state file holds. `file` is absent when there is none;
      `readable` is false when reading it fails otherwise, which refuses the start. The lists hold the
      config's entries less the saved removals plus the saved additions that parse, and the overrides are
      the saved ones that still apply. */
  method Start(
    parse: Parser, upper: string -> string, lib: Waf.Lib, cfg: IpListConfig, db: Option<GeoDb>, waf: WafConfig,
    hasStore: bool, file: Option<Runs.State>, readable: bool, order: seq<int>)
    returns (now: Option<Server>)
    requires Enumerates(order, Runs.Saved(Runs.Env(parse, lib, hasStore), file).overrides)
    ensures now.Some? <==>
            && AllParse(parse, cfg.allow) && AllParse(parse, cfg.deny) && (GeoActive(cfg.geo) ==> db.Some?)
            && (waf.WafOn? ==> waf.rules.Some? && Waf.WellFormed(lib, waf.rules.value))
            && (hasStore ==> readable)
    ensures now.Some? ==>
              var env, base := Runs.Env(parse, lib, hasStore), Runs.Lists(cfg.allow, cfg.deny);
              var saved, w := Runs.Saved(env, file), now.value;
              && w.Valid() && w.Env() == env && w.filter.geo == GeoFrom(cfg.geo, db, upper)
              && w.filter.upper == upper
              && (w.engine != null <==> waf.WafOn?) && (w.engine != null ==> w.engine.logOnly == waf.logOnly)
              && Runs.Starts(env, file, base, RulesOf(waf), order)
              && w.World() == Runs.DoRestart(env, file, base, RulesOf(waf), order)
              && ListFrom(parse, w.filter.allow.state, cfg.allow, saved.allow)
              && ListFrom(parse, w.filter.deny.state, cfg.deny, saved.deny)
              && w.World().overrides == Runs.StillApply(RulesOf(waf), saved.overrides)
  {
    var f := NewFilter(parse, upper, cfg, db);
    if f.None? {
      return None;
    }
    var e := StartEngine(lib, waf);
    if e.None? {
      return None;
    }
    if hasStore {
      if !readable {
        return None;
      }
      var state := Runs.NoState();
      if file.Some? {
        state := file.value;
      }
      ReplayState(state, f.value, e.value, order);
    }
    var server := new Server(lib, f.value, e.value, hasStore, file);
    now := Some(server);
    Runs.RestartMeaning(server.Env(), file, Runs.Lists(cfg.allow, cfg.deny), RulesOf(waf), order);
  }

  /** The engine of a start: none with the WAF off, a failure on rules that do not load. */
  method StartEngine(lib: Waf.Lib, waf: WafConfig) returns (e: Option<Engine?>)
    ensures e.Some? <==> (waf.WafOn? ==> waf.rules.Some? && Waf.WellFormed(lib, waf.rules.value))
    ensures e.Some? ==> (e.value != null <==> waf.WafOn?)
    ensures e.Some? && e.value != null ==>
              && fresh(e.value) && e.value.Valid() && e.value.lib == lib && e.value.logOnly == waf.logOnly
              && Some(e.value.ruleSet.all) == waf.rules && e.value.overrides == map[]
  {
    if waf.WafOff? {
      return Some(null);
    }
    if waf.rules.None? {
      return None;
    }
    var rs := Waf.LoadRuleSet(lib, waf.rules.value);
    if rs.None? {
      return None;
    }
    var engine := new Engine(lib, waf.logOnly, rs.value);
    e := Some(engine);
  }
}
