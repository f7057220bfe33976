/** The admin state over whole runs: edits through the dashboard, each followed by a save that may fail,
    reloads on SIGHUP, and restarts that replay whatever the state file holds. Handlers run one at a
    time. */
module AdminRuns {
  import opened Wrappers
  import opened Netmatch
  import opened Overlay
  import opened ListPersistence
  import Waf
  import opened WafEngine

  // The state file's content.
  datatype State = State(allow: SavedList, deny: SavedList, overrides: Overrides)

  // What a missing file stands for.
  function NoState(): State {
    State(SavedList([], []), SavedList([], []), map[])
  }

  datatype ListName = AllowList | DenyList | UnknownList

  datatype Lists = Lists(allow: seq<string>, deny: seq<string>)

  // What stays fixed: the libraries, and whether a state file is configured.
  datatype Env = Env(parse: Parser, lib: Waf.Lib, hasStore: bool)

  // A process without a WAF has no rules. `file` is what the state file holds, if there is one.
  datatype World = World(
    allow: ListState, deny: ListState, rules: Option<seq<Waf.Rule>>, overrides: Overrides, file: Option<State>)

  // The live overlay, as a state to save.
  ghost function Snapshot(w: World): State {
    State(Save(w.allow), Save(w.deny), w.overrides)
  }

  // A reload brings a decoded config, if there is one, and the rules file; a restart the config it starts
  // over, with rules if its WAF is on, and the order in which it happens to read the saved overrides.
  datatype Action =
    | AddCidr(list: ListName, cidr: string, saveOk: bool)
    | RemoveCidr(list: ListName, cidr: string, saveOk: bool)
    | PatchRule(id: int, enabled: Option<bool>, action: Option<string>, saveOk: bool)
    | Sighup(lists: Option<Lists>, file: Option<seq<Waf.Rule>>, geoOpens: bool)
    | Restart(base: Lists, rules: Option<seq<Waf.Rule>>, order: seq<int>)

  // ----- steps

  ghost function EditLists(env: Env, w: World, list: ListName, op: Op): World {
    match list
    case AllowList => w.(allow := Apply(env.parse, w.allow, op).0)
    case DenyList => w.(deny := Apply(env.parse, w.deny, op).0)
    case UnknownList => w
  }

  ghost function Listed(w: World, list: ListName): seq<string> {
    match list
    case AllowList => w.allow.effective
    case DenyList => w.deny.effective
    case UnknownList => []
  }

  // What a handler makes of the world before it saves; nothing if it refuses the request.
  ghost function Edited(env: Env, w: World, a: Action): Option<World> {
    match a
    case AddCidr(list, c, _) =>
      if list.UnknownList? || env.parse(c).None? then None else Some(EditLists(env, w, list, Add(c)))
    case RemoveCidr(list, c, _) =>
      if c !in Listed(w, list) then None else Some(EditLists(env, w, list, Remove(c)))
    case PatchRule(id, enabled, action, _) => (
      match if w.rules.Some? then Patch(w.rules.value, w.overrides, id, enabled, action) else None
      case Some(os) => Some(w.(overrides := os))
      case None => None)
    case _ => None
  }

  ghost predicate IsEdit(a: Action) {
    a.AddCidr? || a.RemoveCidr? || a.PatchRule?
  }

  ghost function AfterSave(env: Env, w: World, saveOk: bool): World {
    if env.hasStore && saveOk then w.(file := Some(Snapshot(w))) else w
  }

  ghost function DoEdit(env: Env, w: World, a: Action): World
    requires IsEdit(a)
  {
    match Edited(env, w, a)
    case Some(w') => AfterSave(env, w', a.saveOk)
    case None => w
  }

  ghost function DoSighup(
    env: Env, w: World, lists: Option<Lists>, file: Option<seq<Waf.Rule>>, geoOpens: bool): World
  {
    if lists.None? || !AllParse(env.parse, lists.value.allow) || !AllParse(env.parse, lists.value.deny) then w
    else if w.rules.Some? && (file.None? || !Waf.WellFormed(env.lib, file.value)) then w
    else
      var w' := if w.rules.Some? then w.(rules := file) else w;
      if !geoOpens then w'
      else
        w'.(allow := Apply(env.parse, w.allow, Reload(lists.value.allow)).0,
            deny := Apply(env.parse, w.deny, Reload(lists.value.deny)).0)
  }

  // What a start finds saved; a missing file counts as empty.
  ghost function Saved(env: Env, file: Option<State>): State {
    if env.hasStore && file.Some? then file.value else NoState()
  }

  ghost predicate Starts(
    env: Env, file: Option<State>, base: Lists, rules: Option<seq<Waf.Rule>>, order: seq<int>)
  {
    && AllParse(env.parse, base.allow) && AllParse(env.parse, base.deny)
    && (rules.Some? ==> Waf.WellFormed(env.lib, rules.value)) && Enumerates(order, Saved(env, file).overrides)
  }

  ghost function DoRestart(
    env: Env, file: Option<State>, base: Lists, rules: Option<seq<Waf.Rule>>, order: seq<int>): World
    requires Starts(env, file, base, rules, order)
  {
    var saved := Saved(env, file);
    World(
      Replay(env.parse, base.allow, saved.allow), Replay(env.parse, base.deny, saved.deny),
      rules, if rules.Some? then ReplayOverrides(rules.value, map[], saved.overrides, order) else map[],
      file)
  }

  // A refused request, a config that does not load and a start that is refused change nothing.
  ghost function Step(env: Env, w: World, a: Action): World {
    match a
    case Sighup(lists, file, geoOpens) => DoSighup(env, w, lists, file, geoOpens)
    case Restart(base, rules, order) =>
      if Starts(env, w.file, base, rules, order) then DoRestart(env, w.file, base, rules, order) else w
    case _ => DoEdit(env, w, a)
  }

  ghost function Run(env: Env, w: World, actions: seq<Action>): World {
    if actions == [] then w else Step(env, Run(env, w, actions[..|actions| - 1]), actions[|actions| - 1])
  }

  // ----- invariant

  ghost predicate WorldOk(env: Env, w: World) {
    && Inv(env.parse, w.allow) && Inv(env.parse, w.deny)
    && AllValid(w.overrides)
    && if w.rules.Some? then Waf.WellFormed(env.lib, w.rules.value) else w.overrides == map[]
  }

  lemma ListEditKeeps(env: Env, w: World, list: ListName, op: Op)
    requires WorldOk(env, w)
    ensures WorldOk(env, EditLists(env, w, list, op))
  {
    ApplyKeepsInv(env.parse, w.allow, op);
    ApplyKeepsInv(env.parse, w.deny, op);
  }

  lemma PatchKeeps(env: Env, w: World, a: Action)
    requires WorldOk(env, w) && a.PatchRule? && Edited(env, w, a).Some?
    ensures WorldOk(env, Edited(env, w, a).value)
  {
    PatchMeaning(env.lib, w.rules.value, w.overrides, a.id, a.enabled, a.action);
  }

  lemma EditKeeps(env: Env, w: World, a: Action)
    requires WorldOk(env, w) && IsEdit(a) && Edited(env, w, a).Some?
    ensures WorldOk(env, Edited(env, w, a).value)
  {
    match a
    case AddCidr(list, c, _) => ListEditKeeps(env, w, list, Add(c));
    case RemoveCidr(list, c, _) => ListEditKeeps(env, w, list, Remove(c));
    case PatchRule(_, _, _, _) => PatchKeeps(env, w, a);
  }

  /** A reload whose lists parse and whose rules load, but whose geo database does not open, is applied in
      part: new rules under old lists. */
  lemma ReloadInPart(env: Env, w: World, lists: Lists, rules: seq<Waf.Rule>)
    requires AllParse(env.parse, lists.allow) && AllParse(env.parse, lists.deny)
    requires w.rules.Some? && Waf.WellFormed(env.lib, rules)
    ensures Step(env, w, Sighup(Some(lists), Some(rules), false)) == w.(rules := Some(rules))
  {
  }

  lemma SighupKeeps(env: Env, w: World, lists: Option<Lists>, file: Option<seq<Waf.Rule>>, geoOpens: bool)
    requires WorldOk(env, w)
    ensures var w' := DoSighup(env, w, lists, file, geoOpens);
            WorldOk(env, w') && Snapshot(w') == Snapshot(w) && w'.file == w.file
  {
    if lists.Some? {
      ReloadMeaning(env.parse, w.allow, lists.value.allow);
      ReloadMeaning(env.parse, w.deny, lists.value.deny);
    }
  }

  // The saved overrides that apply to what a restart loads: none without a WAF.
  ghost function StillApply(rules: Option<seq<Waf.Rule>>, saved: Overrides): Overrides {
    if rules.Some? then Restricted(rules.value, saved) else map[]
  }

  /** A restart over any file, even one no process wrote. */
  lemma RestartMeaning(env: Env, file: Option<State>, base: Lists, rules: Option<seq<Waf.Rule>>, order: seq<int>)
    requires Starts(env, file, base, rules, order)
    ensures var r := DoRestart(env, file, base, rules, order); var saved := Saved(env, file);
            && WorldOk(env, r)
            && ListFrom(env.parse, r.allow, base.allow, saved.allow)
            && ListFrom(env.parse, r.deny, base.deny, saved.deny)
            && r.overrides == StillApply(rules, saved.overrides)
  {
    var saved := Saved(env, file);
    ReplayAnyFile(env.parse, base.allow, saved.allow);
    ReplayAnyFile(env.parse, base.deny, saved.deny);
    if rules.Some? {
      ReplayRestores(rules.value, saved.overrides, order);
    }
  }

  lemma StepKeeps(env: Env, w: World, a: Action)
    requires WorldOk(env, w)
    ensures WorldOk(env, Step(env, w, a))
  {
    match a
    case Sighup(lists, file, geoOpens) => SighupKeeps(env, w, lists, file, geoOpens);
    case Restart(base, rules, order) =>
      if Starts(env, w.file, base, rules, order) {
        RestartMeaning(env, w.file, base, rules, order);
      }
    case _ =>
      if Edited(env, w, a).Some? {
        EditKeeps(env, w, a);
      }
  }

  /** Over every run of edits, failing saves, reloads and restarts, whatever the state file held at first:
      both lists satisfy their invariant, the loaded rules are well-formed and every stored action is
      valid. */
  lemma {:induction false} RunKeeps(env: Env, w: World, actions: seq<Action>)
    requires WorldOk(env, w)
    ensures WorldOk(env, Run(env, w, actions))
  {
    if actions != [] {
      RunKeeps(env, w, actions[..|actions| - 1]);
      StepKeeps(env, Run(env, w, actions[..|actions| - 1]), actions[|actions| - 1]);
    }
  }

  // ----- what the file holds

  // The action is an accepted edit whose save worked.
  ghost predicate Saves(env: Env, w: World, a: Action) {
    IsEdit(a) && Edited(env, w, a).Some? && env.hasStore && a.saveOk
  }

  // The world right after the last good save of a run.
  ghost function LastSave(env: Env, w: World, actions: seq<Action>): Option<World> {
    if actions == [] then None
    else
      var front, a := actions[..|actions| - 1], actions[|actions| - 1];
      if Saves(env, Run(env, w, front), a) then Some(Run(env, w, actions)) else LastSave(env, w, front)
  }

  lemma FileStep(env: Env, w: World, a: Action)
    requires WorldOk(env, w)
    ensures Step(env, w, a).file == if Saves(env, w, a) then Some(Snapshot(Step(env, w, a))) else w.file
  {
    if a.Sighup? {
      SighupKeeps(env, w, a.lists, a.file, a.geoOpens);
    }
  }

  /** The file always holds the overlay as it was right after the last good save, or what it held at
      first. */
  lemma {:induction false} FileIsLastSave(env: Env, w: World, actions: seq<Action>)
    requires WorldOk(env, w)
    ensures Run(env, w, actions).file ==
            match LastSave(env, w, actions) { case Some(v) => Some(Snapshot(v)) case None => w.file }
    ensures LastSave(env, w, actions).Some? ==> env.hasStore && WorldOk(env, LastSave(env, w, actions).value)
  {
    RunKeeps(env, w, actions);
    if actions != [] {
      var front, a := actions[..|actions| - 1], actions[|actions| - 1];
      FileIsLastSave(env, w, front);
      RunKeeps(env, w, front);
      FileStep(env, Run(env, w, front), a);
    }
  }

  // ----- when the file is current

  ghost predicate Current(w: World) {
    w.file == Some(Snapshot(w))
  }

  // Every rule with an override is among those loaded.
  ghost predicate AllLoaded(rules: Option<seq<Waf.Rule>>, os: Overrides) {
    forall id :: id in os ==> rules.Some? && Loaded(rules.value, id)
  }

  // The action, taken while the file is current, changes the live overlay: an add of a CIDR not yet
  // effective, a removal of one that is, an accepted patch that asks for something not stored, a restart
  // over a config that makes part of the overlay meaningless, or one that reads no file though there is
  // an overlay.
  ghost predicate Changes(env: Env, w: World, a: Action) {
    match a
    case AddCidr(list, c, _) => !list.UnknownList? && env.parse(c).Some? && c !in Listed(w, list)
    case RemoveCidr(list, c, _) => c in Listed(w, list)
    case PatchRule(id, enabled, action, _) =>
      && w.rules.Some? && Loaded(w.rules.value, id) && (action.Some? ==> ValidAction(action.value))
      && !AsksForStored(w.overrides, id, enabled, action)
    case Sighup(_, _, _) => false
    case Restart(base, rules, order) =>
      && Starts(env, w.file, base, rules, order)
      && if env.hasStore then
           !(Fits(w.allow, base.allow) && Fits(w.deny, base.deny) && AllLoaded(rules, w.overrides))
         else Snapshot(w) != NoState()
  }

  lemma AddChanges(parse: Parser, s: ListState, c: string)
    requires Inv(parse, s) && parse(c).Some?
    ensures Save(Apply(parse, s, Add(c)).0) != Save(s) <==> c !in s.effective
  {
    AddMeaning(parse, s, c);
    InvMembers(parse, s);
    var s' := Apply(parse, s, Add(c)).0;
    if c !in s.effective {
      assert c in s.removed || (c !in s.added && c in s'.added);
    }
  }

  lemma RemoveChanges(parse: Parser, s: ListState, c: string)
    requires Inv(parse, s)
    ensures Save(Apply(parse, s, Remove(c)).0) != Save(s) <==> c in s.effective
  {
    RemoveMeaning(parse, s, c);
    InvMembers(parse, s);
    var s' := Apply(parse, s, Remove(c)).0;
    if c in s.effective {
      assert c in s.added || (c !in s.removed && c in s'.removed);
    }
  }

  lemma PatchRuleChanges(env: Env, w: World, a: Action)
    requires WorldOk(env, w) && a.PatchRule?
    ensures Edited(env, w, a).Some? && Edited(env, w, a).value.overrides != w.overrides <==> Changes(env, w, a)
  {
    if w.rules.Some? {
      PatchMeaning(env.lib, w.rules.value, w.overrides, a.id, a.enabled, a.action);
      if Edited(env, w, a).Some? {
        PatchChanges(env.lib, w.rules.value, w.overrides, a.id, a.enabled, a.action);
      }
    }
  }

  lemma AllStillApply(rules: Option<seq<Waf.Rule>>, os: Overrides)
    requires AllValid(os)
    ensures StillApply(rules, os) == os <==> AllLoaded(rules, os)
  {
    var kept := StillApply(rules, os);
    assert forall id :: id in kept <==> id in os && rules.Some? && Loaded(rules.value, id);
    assert forall id :: id in kept ==> kept[id] == os[id];
    if AllLoaded(rules, os) {
      assert forall id :: id in os ==> id in kept;
      assert kept == os;
    }
  }

  lemma RestartFromFile(env: Env, w: World, base: Lists, rules: Option<seq<Waf.Rule>>, order: seq<int>)
    requires WorldOk(env, w) && Current(w) && env.hasStore && Starts(env, w.file, base, rules, order)
    ensures Snapshot(DoRestart(env, w.file, base, rules, order)) == Snapshot(w)
            <==> Fits(w.allow, base.allow) && Fits(w.deny, base.deny) && AllLoaded(rules, w.overrides)
  {
    RestartMeaning(env, w.file, base, rules, order);
    OverlayRoundTrip(env.parse, w.allow, base.allow);
    OverlayRoundTrip(env.parse, w.deny, base.deny);
    AllStillApply(rules, w.overrides);
  }

  /** With no file to read, a restart comes up with the config's lists alone and no override. */
  lemma RestartWithoutFile(
    env: Env, file: Option<State>, base: Lists, rules: Option<seq<Waf.Rule>>, order: seq<int>)
    requires Starts(env, file, base, rules, order) && (!env.hasStore || file.None?)
    ensures var r := DoRestart(env, file, base, rules, order);
            && r.allow == Fresh(env.parse, base.allow) && r.deny == Fresh(env.parse, base.deny)
            && Snapshot(r) == NoState()
  {
    assert ReplayOps(SavedList([], [])) == [];
    FreshMeaning(env.parse, base.allow);
    FreshMeaning(env.parse, base.deny);
    RestartMeaning(env, file, base, rules, order);
    assert StillApply(rules, map[]) == map[];
  }

  lemma ListEditChanges(env: Env, w: World, a: Action)
    requires WorldOk(env, w) && (a.AddCidr? || a.RemoveCidr?)
    ensures Snapshot(Step(env, w, a)) != Snapshot(w) <==> Changes(env, w, a)
  {
    if a.RemoveCidr? {
      RemoveChanges(env.parse, w.allow, a.cidr);
      RemoveChanges(env.parse, w.deny, a.cidr);
    } else if env.parse(a.cidr).Some? {
      AddChanges(env.parse, w.allow, a.cidr);
      AddChanges(env.parse, w.deny, a.cidr);
    }
  }

  lemma RestartChanges(env: Env, w: World, a: Action)
    requires WorldOk(env, w) && Current(w) && a.Restart?
    ensures Snapshot(Step(env, w, a)) != Snapshot(w) <==> Changes(env, w, a)
  {
    if Starts(env, w.file, a.base, a.rules, a.order) {
      if env.hasStore {
        RestartFromFile(env, w, a.base, a.rules, a.order);
      } else {
        RestartWithoutFile(env, w.file, a.base, a.rules, a.order);
      }
    }
  }

  /** What changes the overlay, in terms of the request, the config and the state alone. */
  lemma ChangesExactly(env: Env, w: World, a: Action)
    requires WorldOk(env, w) && (a.Restart? ==> Current(w))
    ensures Snapshot(Step(env, w, a)) != Snapshot(w) <==> Changes(env, w, a)
  {
    match a
    case PatchRule(_, _, _, _) => PatchRuleChanges(env, w, a);
    case Sighup(lists, file, geoOpens) => SighupKeeps(env, w, lists, file, geoOpens);
    case Restart(_, _, _) => RestartChanges(env, w, a);
    case _ => ListEditChanges(env, w, a);
  }

  /** From a file that is current, the next action leaves it current if and only if it saves or changes
      nothing. So a reload keeps it current, and an edit whose save fails does exactly if it was already
      in effect. */
  lemma StaysCurrent(env: Env, w: World, a: Action)
    requires WorldOk(env, w) && Current(w)
    ensures Current(Step(env, w, a)) <==> Saves(env, w, a) || !Changes(env, w, a)
  {
    ChangesExactly(env, w, a);
    if a.Sighup? {
      SighupKeeps(env, w, a.lists, a.file, a.geoOpens);
    }
  }

  // How many actions of the run there are up to and with its last good save; none if nothing was saved.
  ghost function SavedAt(env: Env, w: World, actions: seq<Action>): nat {
    if actions == [] then 0
    else
      var front, a := actions[..|actions| - 1], actions[|actions| - 1];
      if Saves(env, Run(env, w, front), a) then |actions| else SavedAt(env, w, front)
  }

  // The file is current after the run, and was after each of its prefixes of at least `from` actions.
  ghost predicate CurrentSince(env: Env, w: World, actions: seq<Action>, from: nat) {
    Current(Run(env, w, actions)) && (|actions| <= from || CurrentSince(env, w, actions[..|actions| - 1], from))
  }

  // No action of the run from the given one on changes the overlay.
  ghost predicate NoneChanges(env: Env, w: World, actions: seq<Action>, from: nat) {
    |actions| <= from
    || (var front, a := actions[..|actions| - 1], actions[|actions| - 1];
        NoneChanges(env, w, front, from) && !Changes(env, Run(env, w, front), a))
  }

  lemma SinceUnsaved(env: Env, w: World, actions: seq<Action>, n: nat)
    requires n < |actions|
    requires var front, a := actions[..|actions| - 1], actions[|actions| - 1];
             && WorldOk(env, Run(env, w, front)) && !Saves(env, Run(env, w, front), a)
    ensures var front, a := actions[..|actions| - 1], actions[|actions| - 1];
            CurrentSince(env, w, actions, n) <==>
            CurrentSince(env, w, front, n) && !Changes(env, Run(env, w, front), a)
  {
    var front, a := actions[..|actions| - 1], actions[|actions| - 1];
    if CurrentSince(env, w, front, n) {
      StaysCurrent(env, Run(env, w, front), a);
    }
  }

  lemma SavesCurrent(env: Env, w: World, a: Action)
    requires WorldOk(env, w) && Saves(env, w, a)
    ensures Current(Step(env, w, a))
  {
    FileStep(env, w, a);
  }

  /** Over every run: the file is current, and was all the time since the last good save or the start, if
      and only if there was a save or the file was current at the start, and no action since then changed
      the live overlay. */
  lemma {:induction false} CurrentSinceSave(env: Env, w: World, actions: seq<Action>)
    requires WorldOk(env, w)
    ensures var n := SavedAt(env, w, actions);
            && n <= |actions|
            && (CurrentSince(env, w, actions, n) <==>
                (n > 0 || Current(w)) && NoneChanges(env, w, actions, n))
  {
    if actions != [] {
      var front, a := actions[..|actions| - 1], actions[|actions| - 1];
      RunKeeps(env, w, front);
      if Saves(env, Run(env, w, front), a) {
        SavesCurrent(env, Run(env, w, front), a);
      } else {
        CurrentSinceSave(env, w, front);
        SinceUnsaved(env, w, actions, SavedAt(env, w, front));
      }
    }
  }

  /** At the end of a run alone: the file is current if and only if the overlay is what it was right after
      the last good save, or at the start what the file held. */
  lemma FileCurrent(env: Env, w: World, actions: seq<Action>)
    requires WorldOk(env, w)
    ensures Current(Run(env, w, actions)) <==>
            match LastSave(env, w, actions) {
              case Some(v) => Snapshot(Run(env, w, actions)) == Snapshot(v)
              case None => w.file == Some(Snapshot(Run(env, w, actions)))
            }
  {
    FileIsLastSave(env, w, actions);
  }

  /** So the file can be current again after unsaved changes, when they undo each other: adding a CIDR
      that no layer mentions and removing it again, both with failing saves. */
  lemma UndoneEditsStayCurrent(env: Env, w: World, c: string)
    requires WorldOk(env, w) && Current(w) && env.parse(c).Some?
    requires c !in w.allow.base && c !in w.allow.added && c !in w.allow.removed
    ensures var a, b := AddCidr(AllowList, c, false), RemoveCidr(AllowList, c, false);
            var w1 := Step(env, w, a);
            && !Saves(env, w, a) && Changes(env, w, a) && !Current(w1)
            && !Saves(env, w1, b) && Changes(env, w1, b) && Current(Step(env, w1, b))
  {
    var a, b := AddCidr(AllowList, c, false), RemoveCidr(AllowList, c, false);
    AddThenRemove(env.parse, w.allow, c);
    StaysCurrent(env, w, a);
    var w1 := Step(env, w, a);
    assert w1 == w.(allow := Apply(env.parse, w.allow, Add(c)).0);
    assert Step(env, w1, b) == w1.(allow := Apply(env.parse, w1.allow, Remove(c)).0);
  }

  lemma AddThenRemove(parse: Parser, s: ListState, c: string)
    requires Inv(parse, s) && parse(c).Some? && c !in s.base && c !in s.added && c !in s.removed
    ensures var s1 := Apply(parse, s, Add(c)).0;
            c !in s.effective && c in s1.effective && Save(Apply(parse, s1, Remove(c)).0) == Save(s)
  {
    InvMembers(parse, s);
    AddMeaning(parse, s, c);
    var s1 := AddedState(parse, s, c);
    assert c in Elems(s1.effective);
    var s2 := RemovedState(parse, s1, c);
    MinusAppend(s.added, c, {c});
    MinusSame(s.added, {c});
    MinusSame(s.removed, {c});
  }

  // ----- restarts

  // The lists that reloading the config would have left in world `v`, and its overrides that still apply.
  ghost predicate Restores(env: Env, r: World, v: World, base: Lists, rules: Option<seq<Waf.Rule>>) {
    var allow, deny := Apply(env.parse, v.allow, Reload(base.allow)).0, Apply(env.parse, v.deny, Reload(base.deny)).0;
    && r.allow.effective == allow.effective && r.allow.matcher == allow.matcher
    && r.deny.effective == deny.effective && r.deny.matcher == deny.matcher
    && r.overrides == StillApply(rules, v.overrides)
  }

  lemma StartsAgain(env: Env, w: World, base: Lists, rules: Option<seq<Waf.Rule>>, order: seq<int>)
    requires Starts(env, w.file, base, rules, order)
    ensures Step(env, w, Restart(base, rules, order)) == DoRestart(env, w.file, base, rules, order)
  {
  }

  lemma RestartOfSnapshot(env: Env, v: World, base: Lists, rules: Option<seq<Waf.Rule>>, order: seq<int>)
    requires WorldOk(env, v) && env.hasStore && Starts(env, Some(Snapshot(v)), base, rules, order)
    ensures Restores(env, DoRestart(env, Some(Snapshot(v)), base, rules, order), v, base, rules)
  {
    RestartEqualsReload(env.parse, v.allow, base.allow);
    RestartEqualsReload(env.parse, v.deny, base.deny);
    RestartMeaning(env, Some(Snapshot(v)), base, rules, order);
  }

  /** A restart restores exactly what was last saved: after any run in which a save worked, both lists come
      up entry by entry as a reload of the new config would have left them at that save, and the
      overrides are those saved whose rules are loaded. */
  lemma RestartRestoresLastSave(
    env: Env, w: World, actions: seq<Action>, base: Lists, rules: Option<seq<Waf.Rule>>, order: seq<int>)
    requires WorldOk(env, w) && LastSave(env, w, actions).Some?
    requires Starts(env, Run(env, w, actions).file, base, rules, order)
    ensures var r := Step(env, Run(env, w, actions), Restart(base, rules, order));
            Restores(env, r, LastSave(env, w, actions).value, base, rules)
  {
    FileIsLastSave(env, w, actions);
    RestartOfSnapshot(env, LastSave(env, w, actions).value, base, rules, order);
    StartsAgain(env, Run(env, w, actions), base, rules, order);
  }

  /** After a restart from a current file the file is current exactly when the new config leaves the whole
      overlay meaningful: no saved addition is in its lists, every saved removal is, and every rule with
      a saved override is loaded. */
  lemma RestartStaysCurrent(env: Env, w: World, base: Lists, rules: Option<seq<Waf.Rule>>, order: seq<int>)
    requires WorldOk(env, w) && Current(w) && env.hasStore && Starts(env, w.file, base, rules, order)
    ensures Current(Step(env, w, Restart(base, rules, order))) <==>
            Fits(w.allow, base.allow) && Fits(w.deny, base.deny) && AllLoaded(rules, w.overrides)
  {
    StaysCurrent(env, w, Restart(base, rules, order));
  }

  // The override of one rule id after a run, read off the run: the last accepted patch of that id, or what
  // the last restart found saved for it.
  ghost function OverrideAfter(env: Env, w: World, actions: seq<Action>, id: int): Option<Waf.Override> {
    if actions == [] then Lookup(w.overrides, id)
    else
      var front, a := actions[..|actions| - 1], actions[|actions| - 1];
      var before := Run(env, w, front);
      match a
      case PatchRule(id', enabled, action, _) =>
        if id' == id && Edited(env, before, a).Some? then Lookup(Edited(env, before, a).value.overrides, id)
        else OverrideAfter(env, w, front, id)
      case Restart(base, rules, order) =>
        if !Starts(env, before.file, base, rules, order) then OverrideAfter(env, w, front, id)
        else
          var saved := match LastSave(env, w, front) {
                         case Some(v) => v.overrides
                         case None => Saved(env, w.file).overrides
                       };
          Lookup(StillApply(rules, saved), id)
      case _ => OverrideAfter(env, w, front, id)
  }

  ghost function Lookup(os: Overrides, id: int): Option<Waf.Override> {
    if id in os then Some(os[id]) else None
  }

  /** Over every run of edits, failing saves, reloads and restarts, an override changes only by an accepted
      patch of its own id or by a restart, which brings back what was last saved for it if its rule is
      loaded. A reload never touches one, even of a rule it drops. */
  lemma {:induction false} OverrideRuns(env: Env, w: World, actions: seq<Action>, id: int)
    requires WorldOk(env, w)
    ensures Lookup(Run(env, w, actions).overrides, id) == OverrideAfter(env, w, actions, id)
  {
    if actions != [] {
      var front, a := actions[..|actions| - 1], actions[|actions| - 1];
      OverrideRuns(env, w, front, id);
      OverrideStep(env, Run(env, w, front), a, id);
      FileIsLastSave(env, w, front);
    }
  }

  lemma OverrideStep(env: Env, w: World, a: Action, id: int)
    ensures var os := Step(env, w, a).overrides;
            match a {
              case PatchRule(id', _, _, _) =>
                Lookup(os, id) == (if id' == id && Edited(env, w, a).Some?
                                   then Lookup(Edited(env, w, a).value.overrides, id) else Lookup(w.overrides, id))
              case Restart(base, rules, order) =>
                Lookup(os, id) == (if !Starts(env, w.file, base, rules, order) then Lookup(w.overrides, id)
                                   else Lookup(StillApply(rules, Saved(env, w.file).overrides), id))
              case _ => os == w.overrides
            }
  {
    match a
    case Restart(base, rules, order) =>
      if Starts(env, w.file, base, rules, order) {
        RestartMeaning(env, w.file, base, rules, order);
      }
    case _ =>
  }
}
