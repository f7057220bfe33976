/** The IP filter stage: two list pointers edited live and a geo-IP allow-list. Each method is the
    sequential reading of the source's compare-and-swap loop; `CasLoop` and `OverlayCas` cover interleavings. */
module IpFilter {
  import opened Wrappers
  import opened Netmatch
  import opened Overlay

  method ContainsStr(s: seq<string>, v: string) returns (found: bool)
    ensures found <==> v in s
  {
    for i := 0 to |s|
      invariant v !in s[..i]
    {
      if s[i] == v {
        return true;
      }
    }
    found := false;
  }

  method RemoveStr(s: seq<string>, v: string) returns (out: seq<string>)
    ensures out == Minus(s, {v})
    ensures forall x :: x in out <==> x in s && x != v
  {
    out := [];
    for i := 0 to |s|
      invariant out == Minus(s[..i], {v})
    {
      assert s[..i + 1][..i] == s[..i];
      if s[i] != v {
        out := out + [s[i]];
      }
    }
    assert s[..|s|] == s;
    MinusMeaning(s, {v});
  }

  /** One pass of the de-duplicating loop over a layer. */
  method CollectLayer(cs: seq<string>, removed: set<string>, start: seq<string>, startSeen: set<string>)
    returns (out: seq<string>, seen: set<string>)
    requires startSeen == Elems(start)
    ensures out == Collect(cs, removed, start) && seen == Elems(out)
  {
    out, seen := start, startSeen;
    for i := 0 to |cs|
      invariant out == Collect(cs[..i], removed, start) && seen == Elems(out)
    {
      assert cs[..i + 1][..i] == cs[..i];
      if cs[i] in removed || cs[i] in seen {
        continue;
      }
      seen := seen + {cs[i]};
      out := out + [cs[i]];
    }
    assert cs[..|cs|] == cs;
  }

  method EffectiveCIDRs(base: seq<string>, added: seq<string>, removed: seq<string>) returns (out: seq<string>)
    ensures out == Effective(base, added, removed)
    ensures NoDup(out) && Elems(out) == (Elems(base) + Elems(added)) - Elems(removed)
    ensures InFirstOrder(out, base + added)
  {
    var gone: set<string> := {};
    for i := 0 to |removed|
      invariant gone == Elems(removed[..i])
    {
      gone := gone + {removed[i]};
    }
    assert removed[..|removed|] == removed;
    var seen: set<string>;
    out, seen := CollectLayer(base, gone, [], {});
    out, seen := CollectLayer(added, gone, out, seen);
    EffectiveMeaning(base, added, removed);
  }

  method NewListState(parse: Parser, base: seq<string>, added: seq<string>, removed: seq<string>)
    returns (r: Option<ListState>)
    ensures r == MakeState(parse, base, added, removed)
  {
    var effective := EffectiveCIDRs(base, added, removed);
    var m := NewMatcher(parse, effective);
    r := if m.None? then None else Some(ListState(base, added, removed, effective, m.value));
  }

  /** A pointer to the current list state. */
  class ListPointer {
    const parse: Parser
    var state: ListState

    ghost predicate Valid()
      reads this
    {
      Inv(parse, state)
    }

    constructor (parse: Parser, initial: ListState)
      requires Inv(parse, initial)
      ensures Valid() && this.parse == parse && state == initial
    {
      this.parse := parse;
      state := initial;
    }

    method Add(cidr: string) returns (ok: bool)
      requires Valid()
      modifies this`state
      ensures Valid()
      ensures state == Apply(parse, old(state), Overlay.Add(cidr)).0
      ensures ok <==> parse(cidr).Some?
      ensures ok ==> Elems(state.effective) == Elems(old(state).effective) + {cidr}
      ensures !ok ==> state == old(state)
    {
      AddMeaning(parse, state, cidr);
      if parse(cidr).None? {
        return false;
      }
      var s := state;
      var present := ContainsStr(s.effective, cidr);
      if present {
        return true;
      }
      var removed := RemoveStr(s.removed, cidr);
      var added := s.added;
      var inBase := ContainsStr(s.base, cidr);
      if !inBase {
        added := s.added + [cidr];
      }
      var next := NewListState(parse, s.base, added, removed);
      if next.None? {
        return false;
      }
      state := next.value;
      ok := true;
    }

    method Remove(cidr: string) returns (found: bool, ok: bool)
      requires Valid()
      modifies this`state
      ensures Valid()
      ensures state == Apply(parse, old(state), Overlay.Remove(cidr)).0
      ensures ok && (found <==> cidr in old(state).effective)
      ensures Elems(state.effective) == Elems(old(state).effective) - {cidr}
      ensures !found ==> state == old(state)
    {
      RemoveMeaning(parse, state, cidr);
      var s := state;
      var present := ContainsStr(s.effective, cidr);
      if !present {
        return false, true;
      }
      var added := RemoveStr(s.added, cidr);
      var removed := s.removed;
      var inBase := ContainsStr(s.base, cidr);
      if inBase {
        removed := s.removed + [cidr];
      }
      var next := NewListState(parse, s.base, added, removed);
      if next.None? {
        return false, false;
      }
      state := next.value;
      return true, true;
    }

    /** Replaces the base and keeps both overlay sequences. */
    method Reload(base: seq<string>) returns (ok: bool)
      requires Valid()
      modifies this`state
      ensures Valid()
      ensures state == Apply(parse, old(state), Overlay.Reload(base)).0
      ensures ok <==> AllParse(parse, base)
      ensures state.added == old(state).added && state.removed == old(state).removed
      ensures if ok then state.base == base else state == old(state)
    {
      ReloadMeaning(parse, state, base);
      var next := NewListState(parse, base, state.added, state.removed);
      if next.None? {
        return false;
      }
      state := next.value;
      ok := true;
    }
  }

  // ----- the filter

  // A geo database: the country of an address, when it has one.
  type GeoDb = Addr -> Option<string>

  datatype GeoState = GeoState(db: Option<GeoDb>, allowCountries: set<string>)

  datatype GeoConfig = GeoConfig(enabled: bool, dbPath: string, allowCountries: seq<string>)

  datatype IpListConfig = IpListConfig(allow: seq<string>, deny: seq<string>, geo: GeoConfig)

  datatype Verdict = Allowed | IpDeny | GeoDeny

  predicate GeoActive(cfg: GeoConfig) {
    cfg.enabled && cfg.allowCountries != []
  }

  function GeoFrom(cfg: GeoConfig, db: Option<GeoDb>, upper: string -> string): GeoState {
    if !GeoActive(cfg) then GeoState(None, {})
    else GeoState(db, set c | c in cfg.allowCountries :: upper(c))
  }

  /** `db` is what opening the database file yields; it is consulted only when the geo check
      is configured. */
  method BuildGeoState(cfg: GeoConfig, db: Option<GeoDb>, upper: string -> string) returns (r: Option<GeoState>)
    ensures r.None? <==> cfg.enabled && cfg.allowCountries != [] && db.None?
    ensures r.Some? ==> r.value == GeoFrom(cfg, db, upper)
    ensures r.Some? ==> r.value.db == if cfg.enabled && cfg.allowCountries != [] then db else None
    ensures r.Some? && r.value.db.Some? ==>
              forall x :: x in r.value.allowCountries <==> exists c :: c in cfg.allowCountries && x == upper(c)
  {
    if !cfg.enabled || |cfg.allowCountries| == 0 {
      return Some(GeoState(None, {}));
    }
    if db.None? {
      return None;
    }
    var countries: set<string> := {};
    for i := 0 to |cfg.allowCountries|
      invariant countries == set c | c in cfg.allowCountries[..i] :: upper(c)
    {
      countries := countries + {upper(cfg.allowCountries[i])};
    }
    assert cfg.allowCountries[..|cfg.allowCountries|] == cfg.allowCountries;
    r := Some(GeoState(db, countries));
  }

  class Filter {
    const parse: Parser
    const upper: string -> string
    const allow: ListPointer
    const deny: ListPointer
    var geo: GeoState

    ghost predicate Valid()
      reads this, allow, deny
    {
      allow != deny && allow.parse == parse && deny.parse == parse && allow.Valid() && deny.Valid()
    }

    constructor (parse: Parser, upper: string -> string, allowState: ListState, denyState: ListState, geo: GeoState)
      requires Inv(parse, allowState) && Inv(parse, denyState)
      ensures Valid() && fresh(allow) && fresh(deny)
      ensures this.parse == parse && this.upper == upper
      ensures allow.state == allowState && deny.state == denyState && this.geo == geo
    {
      this.parse := parse;
      this.upper := upper;
      allow := new ListPointer(parse, allowState);
      deny := new ListPointer(parse, denyState);
      this.geo := geo;
    }

    /** The decision reads off the effective lists: an empty allow list admits everyone, the deny
        list is authoritative, and with a geo database an unresolvable address is refused. */
    method Decide(ip: Addr) returns (v: Verdict)
      requires Valid()
      ensures v == IpDeny <==>
              || (allow.state.effective != [] && !ListCovers(parse, allow.state.effective, ip))
              || ListCovers(parse, deny.state.effective, ip)
      ensures v == GeoDeny <==>
              && v != IpDeny && geo.db.Some?
              && (geo.db.value(ip).None? || geo.db.value(ip).value !in geo.allowCountries)
    {
      InvMeaning(parse, allow.state);
      InvMeaning(parse, deny.state);
      if |allow.state.effective| > 0 {
        var listed := Contains(allow.state.matcher, ip);
        if !listed {
          return IpDeny;
        }
      }
      var denied := Contains(deny.state.matcher, ip);
      if denied {
        return IpDeny;
      }
      if geo.db.Some? {
        var country := geo.db.value(ip);
        if country.None? || country.value !in geo.allowCountries {
          return GeoDeny;
        }
      }
      v := Allowed;
    }

    /** Geo first, then allow, then deny, then the geo swap; each failure leaves what was not yet
        swapped. A config whose lists parse is applied whole unless the database cannot open, in
        which case nothing changes. */
    method Reload(cfg: IpListConfig, db: Option<GeoDb>) returns (ok: bool)
      requires Valid()
      modifies this`geo, allow`state, deny`state
      ensures Valid()
      ensures ok <==> (GeoActive(cfg.geo) ==> db.Some?) && AllParse(parse, cfg.allow) && AllParse(parse, cfg.deny)
      ensures ok ==>
                && allow.state == Apply(parse, old(allow.state), Overlay.Reload(cfg.allow)).0
                && deny.state == Apply(parse, old(deny.state), Overlay.Reload(cfg.deny)).0
                && allow.state.base == cfg.allow && deny.state.base == cfg.deny
                && geo == GeoFrom(cfg.geo, db, upper)
      ensures !ok ==> geo == old(geo) && deny.state == old(deny.state)
      ensures allow.state.added == old(allow.state).added && allow.state.removed == old(allow.state).removed
      ensures deny.state.added == old(deny.state).added && deny.state.removed == old(deny.state).removed
      ensures !ok ==> allow.state == (if GeoActive(cfg.geo) && db.None? then old(allow.state)
                                      else Apply(parse, old(allow.state), Overlay.Reload(cfg.allow)).0)
    {
      var newGeo := BuildGeoState(cfg.geo, db, upper);
      if newGeo.None? {
        return false;
      }
      var allowOk := allow.Reload(cfg.allow);
      if !allowOk {
        return false;
      }
      var denyOk := deny.Reload(cfg.deny);
      if !denyOk {
        return false;
      }
      geo := newGeo.value;
      ok := true;
    }
  }

  /** Startup over a config: fails when a list does not parse or the database does not open, and
      otherwise starts with empty overlays over the config's lists. */
  method NewFilter(parse: Parser, upper: string -> string, cfg: IpListConfig, db: Option<GeoDb>)
    returns (f: Option<Filter>)
    ensures f.Some? <==> AllParse(parse, cfg.allow) && AllParse(parse, cfg.deny) && (GeoActive(cfg.geo) ==> db.Some?)
    ensures f.Some? ==>
              && fresh(f.value) && fresh(f.value.allow) && fresh(f.value.deny)
              && f.value.Valid() && f.value.parse == parse && f.value.upper == upper
              && MakeState(parse, cfg.allow, [], []) == Some(f.value.allow.state)
              && MakeState(parse, cfg.deny, [], []) == Some(f.value.deny.state)
              && f.value.geo == GeoFrom(cfg.geo, db, upper)
  {
    FreshMeaning(parse, cfg.allow);
    FreshMeaning(parse, cfg.deny);
    var a := NewListState(parse, cfg.allow, [], []);
    if a.None? {
      return None;
    }
    var d := NewListState(parse, cfg.deny, [], []);
    if d.None? {
      return None;
    }
    var g := BuildGeoState(cfg.geo, db, upper);
    if g.None? {
      return None;
    }
    var filter := new Filter(parse, upper, a.value, d.value, g.value);
    f := Some(filter);
  }
}
