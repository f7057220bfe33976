/** The live engine: a swappable rule set under a layer of per-rule overrides, the PATCH request that
    edits the layer, and saving and replaying it. */
module WafEngine {
  import opened Wrappers
  import opened Waf

  predicate ValidAction(action: string) {
    action == "" || action == "block" || action == "log"
  }

  ghost predicate Loaded(rules: seq<Rule>, id: int) {
    exists i :: 0 <= i < |rules| && rules[i].id == id
  }

  type Overrides = map<int, Override>

  ghost predicate AllValid(os: Overrides) {
    forall id :: id in os ==> ValidAction(os[id].action)
  }

  // ----- the effective view

  datatype RuleInfo = RuleInfo(rule: Rule, action: string, enabled: bool, overridden: bool)

  function InfoOf(os: Overrides, r: Rule): RuleInfo {
    if r.id in os then
      RuleInfo(r, if os[r.id].action != "" then os[r.id].action else r.action, os[r.id].enabled, true)
    else RuleInfo(r, r.action, true, false)
  }

  /** The view and the search agree: a rule can block exactly when the view shows it enabled with
      action block and the engine is not in log-only mode. */
  lemma ViewAgreesWithCheck(os: Overrides, logOnly: bool, r: Rule)
    ensures ResolvedAction(Mode(os, logOnly), r) == Some(ACTION_BLOCK) <==>
            InfoOf(os, r).enabled && InfoOf(os, r).action == ACTION_BLOCK && !logOnly
  {
    assert ACTION_LOG[0] != ACTION_BLOCK[0];
  }

  // ----- edits of the override layer

  ghost function WithOverride(rules: seq<Rule>, os: Overrides, id: int, enabled: bool, action: string)
    : Option<Overrides>
  {
    if !ValidAction(action) || !Loaded(rules, id) then None else Some(os[id := Override(enabled, action)])
  }

  function Pick<T>(given: Option<T>, otherwise: T): T {
    match given
    case Some(v) => v
    case None => otherwise
  }

  // A PATCH starts from the effective state: the shown enabled flag and, for a rule that already has
  // an override, the shown action.
  ghost function Patch(rules: seq<Rule>, os: Overrides, id: int, enabled: Option<bool>, action: Option<string>)
    : Option<Overrides>
  {
    if Loaded(rules, id) then
      var i :| 0 <= i < |rules| && rules[i].id == id;
      var info := InfoOf(os, rules[i]);
      WithOverride(
        rules, os, id, Pick(enabled, info.enabled), Pick(action, if info.overridden then info.action else ""))
    else None
  }

  // What the patch asks to show for the rule; the empty action asks for the file's own.
  ghost function Asked(r: Rule, info: RuleInfo, enabled: Option<bool>, action: Option<string>): (bool, string) {
    (Pick(enabled, info.enabled),
     match action {
       case Some(a) => if a == "" then r.action else a
       case None => info.action
     })
  }

  /** A PATCH succeeds exactly for a loaded rule and, if it gives an action, a valid one. It shows what
      it asked for, leaves an omitted field as it was shown, and every other rule as it was. */
  lemma PatchMeaning(lib: Lib, rules: seq<Rule>, os: Overrides, id: int, enabled: Option<bool>, action: Option<string>)
    requires WellFormed(lib, rules) && AllValid(os)
    ensures var p := Patch(rules, os, id, enabled, action);
            && (p.Some? <==> Loaded(rules, id) && (action.Some? ==> ValidAction(action.value)))
            && (p.Some? ==> AllValid(p.value))
            && (p.Some? ==> forall r :: r in rules ==>
                  var before, after := InfoOf(os, r), InfoOf(p.value, r);
                  if r.id == id then (after.enabled, after.action) == Asked(r, before, enabled, action)
                  else after == before)
  {
    if Loaded(rules, id) {
      var i :| 0 <= i < |rules| && rules[i].id == id;
      assert forall k :: 0 <= k < |rules| && rules[k].id == id ==> k == i;
      var info := InfoOf(os, rules[i]);
      assert RuleOk(lib, rules[i]);
      assert ValidAction(info.action) && info.action != "";
    }
  }

  // The patch asks for what is stored: both fields as they are, or omitted. An omitted action counts only
  // if one is stored, since otherwise the shown one gets stored.
  predicate AsksForStored(os: Overrides, id: int, enabled: Option<bool>, action: Option<string>) {
    && id in os
    && (enabled.Some? ==> enabled.value == os[id].enabled)
    && (if action.Some? then action.value == os[id].action else os[id].action != "")
  }

  /** An accepted PATCH leaves the stored overrides as they were exactly when it asks for what is stored. */
  lemma PatchChanges(lib: Lib, rules: seq<Rule>, os: Overrides, id: int, enabled: Option<bool>, action: Option<string>)
    requires WellFormed(lib, rules) && AllValid(os) && Patch(rules, os, id, enabled, action).Some?
    ensures Patch(rules, os, id, enabled, action).value == os <==> AsksForStored(os, id, enabled, action)
  {
    var os' := Patch(rules, os, id, enabled, action).value;
    var i :| 0 <= i < |rules| && rules[i].id == id && os' ==
        os[id := Override(Pick(enabled, InfoOf(os, rules[i]).enabled),
                          Pick(action, if id in os then InfoOf(os, rules[i]).action else ""))];
    assert RuleOk(lib, rules[i]);
    assert rules[i].action != "";
    if id in os {
      assert os' == os <==> os'[id] == os[id];
    }
  }

  /** A PATCH of the enabled flag alone keeps the rule on its file's action, so that a later rules
      reload can change it, exactly when the rule had no override before. On a rule with an override
      it stores the action then shown, for good. */
  lemma PatchFollowsFile(lib: Lib, rules: seq<Rule>, os: Overrides, r: Rule, enabled: bool)
    requires WellFormed(lib, rules) && AllValid(os) && r in rules
    ensures Patch(rules, os, r.id, Some(enabled), None).Some?
    ensures var os' := Patch(rules, os, r.id, Some(enabled), None).value;
            (forall r': Rule :: r'.id == r.id ==> InfoOf(os', r').action == r'.action) <==> r.id !in os
  {
    var i :| 0 <= i < |rules| && rules[i] == r;
    assert RuleOk(lib, rules[i]);
    assert forall k :: 0 <= k < |rules| && rules[k].id == r.id ==> k == i;
    assert Loaded(rules, r.id);
    PatchMeaning(lib, rules, os, r.id, Some(enabled), None);
    var os' := Patch(rules, os, r.id, Some(enabled), None).value;
    if r.id in os {
      var other := if os'[r.id].action == ACTION_BLOCK then ACTION_LOG else ACTION_BLOCK;
      assert ACTION_LOG[0] != ACTION_BLOCK[0];
      var r' := r.(action := other);
      assert InfoOf(os', r').action != r'.action;
    }
  }

  /** So a second PATCH of the flag alone pins the action: a rule that had no override follows its file
      after the first, and after the second shows the action the file gave it then, whatever a later
      file says. */
  lemma SecondPatchPins(lib: Lib, rules: seq<Rule>, os: Overrides, r: Rule, first: bool, second: bool, later: Rule)
    requires WellFormed(lib, rules) && AllValid(os) && r in rules && r.id !in os && later.id == r.id
    ensures var once := Patch(rules, os, r.id, Some(first), None);
            && once.Some? && InfoOf(once.value, later).action == later.action
            && var twice := Patch(rules, once.value, r.id, Some(second), None);
               twice.Some? && InfoOf(twice.value, later).action == r.action
  {
    PatchFollowsFile(lib, rules, os, r, first);
    PatchMeaning(lib, rules, os, r.id, Some(first), None);
    var once := Patch(rules, os, r.id, Some(first), None).value;
    assert InfoOf(once, r).action == r.action;
    PatchMeaning(lib, rules, once, r.id, Some(second), None);
    var i :| 0 <= i < |rules| && rules[i] == r;
    assert RuleOk(lib, rules[i]) && r.action != "";
    assert forall k :: 0 <= k < |rules| && rules[k].id == r.id ==> k == i;
    assert Patch(rules, once, r.id, Some(second), None).value[r.id].action == r.action;
  }

  // ----- saving and replaying

  // Replays saved overrides in some order; entries that no longer apply are skipped.
  ghost function ReplayOverrides(rules: seq<Rule>, os: Overrides, saved: Overrides, order: seq<int>): Overrides
    requires forall id :: id in order ==> id in saved
  {
    if order == [] then os
    else
      var id := order[|order| - 1];
      var before := ReplayOverrides(rules, os, saved, order[..|order| - 1]);
      match WithOverride(rules, before, id, saved[id].enabled, saved[id].action)
      case Some(next) => next
      case None => before
  }

  ghost predicate Enumerates(order: seq<int>, saved: Overrides) {
    forall id :: id in order <==> id in saved
  }

  // The saved overrides that still apply: their rules are loaded and their actions are valid, as every
  // action the engine stored itself is.
  ghost function Restricted(rules: seq<Rule>, saved: Overrides): Overrides {
    map id | id in saved && Loaded(rules, id) && ValidAction(saved[id].action) :: saved[id]
  }

  lemma {:induction false} ReplayPrefix(rules: seq<Rule>, saved: Overrides, order: seq<int>)
    requires forall id :: id in order ==> id in saved
    ensures ReplayOverrides(rules, map[], saved, order)
            == map id | id in saved && id in order && Loaded(rules, id) && ValidAction(saved[id].action) :: saved[id]
  {
    if order != [] {
      var n := |order| - 1;
      ReplayPrefix(rules, saved, order[..n]);
      assert forall id :: id in order <==> id in order[..n] || id == order[n];
    }
  }

  /** Replaying any saved map, in any order it may be yielded, restores exactly the overrides that still
      apply, in their raw form. */
  lemma ReplayRestores(rules: seq<Rule>, saved: Overrides, order: seq<int>)
    requires Enumerates(order, saved)
    ensures ReplayOverrides(rules, map[], saved, order) == Restricted(rules, saved)
    ensures AllValid(Restricted(rules, saved))
  {
    ReplayPrefix(rules, saved, order);
  }

  // ----- the engine object

  class Engine {
    const lib: Lib
    const logOnly: bool
    var ruleSet: RuleSet
    var overrides: Overrides

    ghost predicate Valid()
      reads this
    {
      WellFormed(lib, ruleSet.all) && Indexes(lib, ruleSet, ruleSet.all) && AllValid(overrides)
    }

    constructor (lib: Lib, logOnly: bool, rs: RuleSet)
      requires WellFormed(lib, rs.all) && Indexes(lib, rs, rs.all)
      ensures Valid() && this.lib == lib && this.logOnly == logOnly && ruleSet == rs && overrides == map[]
    {
      this.lib := lib;
      this.logOnly := logOnly;
      ruleSet := rs;
      overrides := map[];
    }

    /** `file` is the decoded rules file, absent when it cannot be read. A file that does not load
        leaves the old rules serving; overrides stay either way. */
    method Reload(file: Option<seq<Rule>>) returns (ok: bool)
      requires Valid()
      modifies this`ruleSet
      ensures Valid()
      ensures ok <==> file.Some? && WellFormed(lib, file.value)
      ensures if ok then ruleSet.all == file.value else ruleSet == old(ruleSet)
    {
      if file.None? {
        return false;
      }
      var rs := LoadRuleSet(lib, file.value);
      if rs.None? {
        return false;
      }
      ruleSet := rs.value;
      ok := true;
    }

    method SetOverride(id: int, enabled: bool, action: string) returns (ok: bool)
      requires Valid()
      modifies this`overrides
      ensures Valid()
      ensures ok <==> WithOverride(ruleSet.all, old(overrides), id, enabled, action).Some?
      ensures ok ==> Some(overrides) == WithOverride(ruleSet.all, old(overrides), id, enabled, action)
      ensures !ok ==> overrides == old(overrides)
    {
      if action != "" && action != ACTION_BLOCK && action != ACTION_LOG {
        return false;
      }
      var found := false;
      for i := 0 to |ruleSet.all|
        invariant !found && forall k :: 0 <= k < i ==> ruleSet.all[k].id != id
      {
        if ruleSet.all[i].id == id {
          found := true;
          break;
        }
      }
      if !found {
        return false;
      }
      overrides := overrides[id := Override(enabled, action)];
      ok := true;
    }

    method ClearOverride(id: int)
      requires Valid()
      modifies this`overrides
      ensures Valid()
      ensures overrides == old(overrides) - {id}
    {
      if id !in overrides {
        return;
      }
      overrides := overrides - {id};
    }

    method ListRules() returns (out: seq<RuleInfo>)
      requires Valid()
      ensures |out| == |ruleSet.all|
      ensures forall i :: 0 <= i < |out| ==>
                var r := ruleSet.all[i];
                && out[i] == InfoOf(overrides, r)
                && (r.id !in overrides ==> out[i] == RuleInfo(r, r.action, true, false))
                && (r.id in overrides ==>
                      && out[i].rule == r && out[i].overridden && out[i].enabled == overrides[r.id].enabled
                      && out[i].action == if overrides[r.id].action == "" then r.action else overrides[r.id].action)
    {
      out := [];
      for i := 0 to |ruleSet.all|
        invariant |out| == i && forall k :: 0 <= k < i ==> out[k] == InfoOf(overrides, ruleSet.all[k])
      {
        var r := ruleSet.all[i];
        var info := RuleInfo(r, r.action, true, false);
        if r.id in overrides {
          var o := overrides[r.id];
          info := info.(enabled := o.enabled, overridden := true);
          if o.action != "" {
            info := info.(action := o.action);
          }
        }
        out := out + [info];
      }
    }

    /** Blocks exactly when the flat rule list, under the current overrides, says to. */
    method Inspect(req: Request) returns (result: Inspection)
      requires Valid()
      ensures !req.body.BodyUnreadable? ==>
                (result.Blocked? <==>
                 exists r :: r in ruleSet.all && RuleBlocks(lib, Mode(overrides, logOnly), req, r))
      ensures result.Blocked? ==>
                && result.rule in ruleSet.all
                && RuleBlocks(lib, Mode(overrides, logOnly), req, result.rule)
                && InfoOf(overrides, result.rule).enabled && InfoOf(overrides, result.rule).action == ACTION_BLOCK
    {
      result := Waf.Inspect(lib, Mode(overrides, logOnly), ruleSet, ruleSet.all, req);
      if result.Blocked? {
        ViewAgreesWithCheck(overrides, logOnly, result.rule);
      }
    }

    /** The state change of an admin PATCH. */
    method PatchRule(id: int, enabled: Option<bool>, action: Option<string>) returns (ok: bool)
      requires Valid()
      modifies this`overrides
      ensures Valid()
      ensures ok <==> Patch(ruleSet.all, old(overrides), id, enabled, action).Some?
      ensures ok ==> Some(overrides) == Patch(ruleSet.all, old(overrides), id, enabled, action)
      ensures !ok ==> overrides == old(overrides)
    {
      var on, act := true, "";
      var infos := ListRules();
      var i := 0;
      while i < |infos| && infos[i].rule.id != id
        invariant i <= |infos| && forall k :: 0 <= k < i ==> ruleSet.all[k].id != id
      {
        i := i + 1;
      }
      if i < |infos| {
        on := infos[i].enabled;
        if infos[i].overridden {
          act := infos[i].action;
        }
      }
      if enabled.Some? {
        on := enabled.value;
      }
      if action.Some? {
        act := action.value;
      }
      ok := SetOverride(id, on, act);
    }
  }
}
