/** The WAF: rules grouped by the request field they target, an override layer, a global log-only
    switch, and the proof that the grouped search means what the flat rule list says. */
module Waf {
  import opened Text
  import opened Wrappers

  const ACTION_BLOCK := "block"
  const ACTION_LOG := "log"
  const HEADER_PREFIX := "headers:"

  // The library functions the engine calls, kept abstract.
  datatype Lib = Lib(
    compiles: string -> bool,
    matches: (string, string) -> bool,
    canonical: string -> string,
    pathUnescape: string -> Option<string>,
    queryUnescape: string -> Option<string>)

  datatype Rule = Rule(
    id: int, category: string, severity: string, action: string, description: string,
    targets: seq<string>, pattern: string)

  // A request field that rules can target; the empty header name stands for all headers.
  datatype Field = Line | Path | Query | Body | Header(name: string)

  function FieldOf(lib: Lib, target: string): Option<Field> {
    if target == "line" then Some(Line)
    else if target == "path" then Some(Path)
    else if target == "query" then Some(Query)
    else if target == "body" then Some(Body)
    else if target == "headers" then Some(Header(""))
    else if HasPrefix(target, HEADER_PREFIX) then Some(Header(lib.canonical(target[|HEADER_PREFIX|..])))
    else None
  }

  // The target names that a rule file may use.
  ghost predicate Known(t: string) {
    t == "line" || t == "path" || t == "query" || t == "body" || t == "headers" || (|t| >= 8 && t[..8] == "headers:")
  }

  lemma KnownTargets(lib: Lib, t: string)
    ensures FieldOf(lib, t).Some? <==> Known(t)
  {
  }

  lemma AllKnown(lib: Lib, targets: seq<string>)
    ensures (forall t :: t in targets ==> Known(t)) <==> forall t :: t in targets ==> FieldOf(lib, t).Some?
  {
    forall t
      ensures FieldOf(lib, t).Some? <==> Known(t)
    {
      KnownTargets(lib, t);
    }
  }

  ghost predicate Targets(lib: Lib, r: Rule, f: Field) {
    exists t :: t in r.targets && FieldOf(lib, t) == Some(f)
  }

  // ----- the grouped rule set

  datatype RuleSet = RuleSet(
    all: seq<Rule>, line: seq<Rule>, path: seq<Rule>, query: seq<Rule>, body: seq<Rule>,
    headers: map<string, seq<Rule>>)
  {
    function Of(f: Field): seq<Rule> {
      match f
      case Line => line
      case Path => path
      case Query => query
      case Body => body
      case Header(name) => if name in headers then headers[name] else []
    }

    // Appends a rule to one group.
    function Push(f: Field, r: Rule): RuleSet {
      match f
      case Line => this.(line := line + [r])
      case Path => this.(path := path + [r])
      case Query => this.(query := query + [r])
      case Body => this.(body := body + [r])
      case Header(name) => this.(headers := headers[name := Of(f) + [r]])
    }
  }

  // One copy of the rule for each of the targets that names the field.
  ghost function Copies(lib: Lib, targets: seq<string>, r: Rule, f: Field): seq<Rule> {
    if targets == [] then []
    else
      var front := Copies(lib, targets[..|targets| - 1], r, f);
      if FieldOf(lib, targets[|targets| - 1]) == Some(f) then front + [r] else front
  }

  ghost function Group(lib: Lib, rules: seq<Rule>, f: Field): seq<Rule> {
    if rules == [] then []
    else
      var r := rules[|rules| - 1];
      Group(lib, rules[..|rules| - 1], f) + Copies(lib, r.targets, r, f)
  }

  // The rule set is the index of the flat list.
  ghost predicate Indexes(lib: Lib, rs: RuleSet, rules: seq<Rule>) {
    rs.all == rules && forall f :: rs.Of(f) == Group(lib, rules, f)
  }

  // ----- loading

  ghost predicate RuleOk(lib: Lib, r: Rule) {
    && r.id != 0
    && (r.action == "block" || r.action == "log")
    && r.targets != []
    && lib.compiles(r.pattern)
    && forall t :: t in r.targets ==> Known(t)
  }

  ghost predicate WellFormed(lib: Lib, rules: seq<Rule>) {
    && (forall i :: 0 <= i < |rules| ==> RuleOk(lib, rules[i]))
    && forall i, j :: 0 <= i < j < |rules| ==> rules[i].id != rules[j].id
  }

  /** Accepts exactly the well-formed rule lists, and indexes them. */
  method LoadRuleSet(lib: Lib, rules: seq<Rule>) returns (loaded: Option<RuleSet>)
    ensures loaded.Some? <==> WellFormed(lib, rules)
    ensures loaded.Some? ==> Indexes(lib, loaded.value, rules)
  {
    var rs := RuleSet([], [], [], [], [], map[]);
    var seen: set<int> := {};
    for i := 0 to |rules|
      invariant WellFormed(lib, rules[..i])
      invariant Indexes(lib, rs, rules[..i])
      invariant seen == set k | 0 <= k < i :: rules[k].id
    {
      var r := rules[i];
      if r.id == 0 {
        return None;
      }
      if r.id in seen {
        return None;
      }
      seen := seen + {r.id};
      if r.action != ACTION_BLOCK && r.action != ACTION_LOG {
        return None;
      }
      if |r.targets| == 0 {
        return None;
      }
      if !lib.compiles(r.pattern) {
        return None;
      }
      var grouped := AddTargets(lib, rs, rules[..i], r);
      if grouped.None? {
        return None;
      }
      rs := grouped.value;
      assert rules[..i + 1] == rules[..i] + [r];
    }
    assert rules[..|rules|] == rules;
    loaded := Some(rs);
  }

  // The index of `before`, with `r` filed under its first `j` targets.
  ghost predicate Filed(lib: Lib, rs: RuleSet, before: seq<Rule>, r: Rule, j: nat)
    requires j <= |r.targets|
  {
    && rs.all == before + [r]
    && forall f :: rs.Of(f) == Group(lib, before, f) + Copies(lib, r.targets[..j], r, f)
  }

  lemma CopiesNext(lib: Lib, targets: seq<string>, j: nat, r: Rule, f: Field)
    requires j < |targets|
    ensures Copies(lib, targets[..j + 1], r, f) ==
            Copies(lib, targets[..j], r, f) + if FieldOf(lib, targets[j]) == Some(f) then [r] else []
  {
    assert targets[..j + 1][..j] == targets[..j];
  }

  lemma PushFilesAt(lib: Lib, rs: RuleSet, group: seq<Rule>, r: Rule, j: nat, field: Field, f: Field)
    requires j < |r.targets| && FieldOf(lib, r.targets[j]) == Some(field)
    requires rs.Of(f) == group + Copies(lib, r.targets[..j], r, f)
    ensures rs.Push(field, r).Of(f) == group + Copies(lib, r.targets[..j + 1], r, f)
  {
    PushOf(rs, field, r, f);
    CopiesNext(lib, r.targets, j, r, f);
  }

  lemma PushFiles(lib: Lib, rs: RuleSet, before: seq<Rule>, r: Rule, j: nat, field: Field)
    requires j < |r.targets| && Filed(lib, rs, before, r, j) && FieldOf(lib, r.targets[j]) == Some(field)
    ensures Filed(lib, rs.Push(field, r), before, r, j + 1)
  {
    forall f
      ensures rs.Push(field, r).Of(f) == Group(lib, before, f) + Copies(lib, r.targets[..j + 1], r, f)
    {
      PushFilesAt(lib, rs, Group(lib, before, f), r, j, field, f);
    }
  }

  lemma PushOf(rs: RuleSet, field: Field, r: Rule, f: Field)
    ensures rs.Push(field, r).Of(f) == if f == field then rs.Of(f) + [r] else rs.Of(f)
  {
  }

  lemma FiledAll(lib: Lib, rs: RuleSet, before: seq<Rule>, r: Rule)
    requires Filed(lib, rs, before, r, |r.targets|)
    ensures Indexes(lib, rs, before + [r])
  {
    assert r.targets[..|r.targets|] == r.targets;
    assert (before + [r])[..|before|] == before;
  }

  /** The inner loop: files one rule under each of its targets, or stops at an unknown target. */
  method AddTargets(lib: Lib, rs: RuleSet, ghost before: seq<Rule>, r: Rule) returns (out: Option<RuleSet>)
    requires Indexes(lib, rs, before)
    ensures out.Some? <==> forall t :: t in r.targets ==> Known(t)
    ensures out.Some? ==> Indexes(lib, out.value, before + [r])
  {
    var cur := rs.(all := rs.all + [r]);
    assert Filed(lib, cur, before, r, 0) by {
      assert forall f :: cur.Of(f) == rs.Of(f);
    }
    for j := 0 to |r.targets|
      invariant Filed(lib, cur, before, r, j)
      invariant forall t :: t in r.targets[..j] ==> FieldOf(lib, t).Some?
    {
      var field := FieldOf(lib, r.targets[j]);
      if field.None? {
        AllKnown(lib, r.targets);
        return None;
      }
      PushFiles(lib, cur, before, r, j, field.value);
      cur := cur.Push(field.value, r);
    }
    FiledAll(lib, cur, before, r);
    AllKnown(lib, r.targets);
    out := Some(cur);
  }

  // ----- overrides and actions

  datatype Override = Override(enabled: bool, action: string)

  datatype Mode = Mode(overrides: map<int, Override>, logOnly: bool)

  function ResolvedAction(mode: Mode, r: Rule): Option<string> {
    var o := if r.id in mode.overrides then mode.overrides[r.id] else Override(true, "");
    if !o.enabled then None
    else if mode.logOnly then Some(ACTION_LOG)
    else Some(if o.action != "" then o.action else r.action)
  }

  predicate Blocks(lib: Lib, mode: Mode, r: Rule, v: string) {
    ResolvedAction(mode, r) == Some(ACTION_BLOCK) && lib.matches(r.pattern, v)
  }

  function FirstBlock(lib: Lib, mode: Mode, rules: seq<Rule>, v: string): Option<Rule> {
    if rules == [] then None
    else if Blocks(lib, mode, rules[0], v) then Some(rules[0])
    else FirstBlock(lib, mode, rules[1..], v)
  }

  /** The first rule in file order that targets the field and blocks the value: the flat reading. */
  ghost function FirstHit(lib: Lib, mode: Mode, rules: seq<Rule>, f: Field, v: string): Option<Rule> {
    if rules == [] then None
    else if Targets(lib, rules[0], f) && Blocks(lib, mode, rules[0], v) then Some(rules[0])
    else FirstHit(lib, mode, rules[1..], f, v)
  }

  lemma {:induction false} FirstHitMeaning(lib: Lib, mode: Mode, rules: seq<Rule>, f: Field, v: string)
    ensures match FirstHit(lib, mode, rules, f, v) {
              case None => forall r :: r in rules ==> !(Targets(lib, r, f) && Blocks(lib, mode, r, v))
              case Some(r) =>
                exists i :: 0 <= i < |rules| && rules[i] == r && Targets(lib, r, f) && Blocks(lib, mode, r, v)
                  && forall k :: 0 <= k < i ==> !(Targets(lib, rules[k], f) && Blocks(lib, mode, rules[k], v))
            }
  {
    if rules == [] {
    } else if Targets(lib, rules[0], f) && Blocks(lib, mode, rules[0], v) {
      assert rules[0] == FirstHit(lib, mode, rules, f, v).value;
    } else {
      FirstHitMeaning(lib, mode, rules[1..], f, v);
      if FirstHit(lib, mode, rules, f, v).Some? {
        var r := FirstHit(lib, mode, rules, f, v).value;
        var i :| 0 <= i < |rules[1..]| && rules[1..][i] == r
          && forall k :: 0 <= k < i ==> !(Targets(lib, rules[1..][k], f) && Blocks(lib, mode, rules[1..][k], v));
        assert rules[i + 1] == r;
        forall k | 0 <= k < i + 1
          ensures !(Targets(lib, rules[k], f) && Blocks(lib, mode, rules[k], v))
        {
          assert k > 0 ==> rules[k] == rules[1..][k - 1];
        }
      }
    }
  }

  lemma {:induction false} FirstBlockConcat(lib: Lib, mode: Mode, a: seq<Rule>, b: seq<Rule>, v: string)
    ensures FirstBlock(lib, mode, a + b, v) ==
            if FirstBlock(lib, mode, a, v).Some? then FirstBlock(lib, mode, a, v) else FirstBlock(lib, mode, b, v)
  {
    if a == [] {
      assert a + b == b;
    } else {
      assert (a + b)[1..] == a[1..] + b;
      FirstBlockConcat(lib, mode, a[1..], b, v);
    }
  }

  lemma {:induction false} FirstHitConcat(lib: Lib, mode: Mode, a: seq<Rule>, b: seq<Rule>, f: Field, v: string)
    ensures FirstHit(lib, mode, a + b, f, v) ==
            if FirstHit(lib, mode, a, f, v).Some? then FirstHit(lib, mode, a, f, v) else FirstHit(lib, mode, b, f, v)
  {
    if a == [] {
      assert a + b == b;
    } else {
      assert (a + b)[1..] == a[1..] + b;
      FirstHitConcat(lib, mode, a[1..], b, f, v);
    }
  }

  lemma {:induction false} CopiesMeaning(lib: Lib, mode: Mode, targets: seq<string>, r: Rule, f: Field, v: string)
    ensures FirstBlock(lib, mode, Copies(lib, targets, r, f), v) ==
            if (exists t :: t in targets && FieldOf(lib, t) == Some(f)) && Blocks(lib, mode, r, v) then Some(r)
            else None
  {
    if targets != [] {
      var n := |targets| - 1;
      CopiesMeaning(lib, mode, targets[..n], r, f, v);
      assert forall t :: t in targets <==> t in targets[..n] || t == targets[n];
      FirstBlockConcat(lib, mode, Copies(lib, targets[..n], r, f), [r], v);
      assert FirstBlock(lib, mode, [r], v) == if Blocks(lib, mode, r, v) then Some(r) else None;
    }
  }

  /** Searching a group finds what scanning the whole rule file for that field finds. */
  lemma {:induction false} GroupSearch(lib: Lib, mode: Mode, rules: seq<Rule>, f: Field, v: string)
    ensures FirstBlock(lib, mode, Group(lib, rules, f), v) == FirstHit(lib, mode, rules, f, v)
  {
    if rules != [] {
      var n := |rules| - 1;
      var front, r := rules[..n], rules[n];
      GroupSearch(lib, mode, front, f, v);
      CopiesMeaning(lib, mode, r.targets, r, f, v);
      FirstBlockConcat(lib, mode, Group(lib, front, f), Copies(lib, r.targets, r, f), v);
      FirstHitConcat(lib, mode, front, [r], f, v);
      assert rules == front + [r];
      assert [r][1..] == [];
    }
  }

  // ----- requests

  datatype RequestBody = NoBody | BodyPrefix(text: string) | BodyUnreadable

  datatype Request = Request(
    verb: string, path: string, rawQuery: string, headers: map<string, seq<string>>, body: RequestBody)

  function DecodedPath(lib: Lib, req: Request): string {
    match lib.pathUnescape(req.path)
    case Some(p) => p
    case None => req.path
  }

  function DecodedQuery(lib: Lib, req: Request): string {
    match lib.queryUnescape(req.rawQuery)
    case Some(q) => q
    case None => req.rawQuery
  }

  function RequestLine(lib: Lib, req: Request): string {
    var query := DecodedQuery(lib, req);
    req.verb + " " + DecodedPath(lib, req) + if query != "" then "?" + query else ""
  }

  function HeaderValues(lib: Lib, req: Request, name: string): seq<string> {
    if lib.canonical(name) in req.headers then req.headers[lib.canonical(name)] else []
  }

  // The values a field has in a request. An empty decoded query is no query value.
  ghost predicate HasValue(lib: Lib, req: Request, f: Field, v: string) {
    match f
    case Line => v == RequestLine(lib, req)
    case Path => v == DecodedPath(lib, req)
    case Query => v != "" && v == DecodedQuery(lib, req)
    case Body => req.body == BodyPrefix(v)
    case Header(name) =>
      if name == "" then exists k :: k in req.headers && v in req.headers[k]
      else v in HeaderValues(lib, req, name)
  }

  // Some value of field `f` is blocked by rule `r`.
  ghost predicate HitBy(lib: Lib, mode: Mode, req: Request, r: Rule, f: Field) {
    Targets(lib, r, f) && exists v :: HasValue(lib, req, f, v) && Blocks(lib, mode, r, v)
  }

  ghost predicate FieldHit(lib: Lib, mode: Mode, rules: seq<Rule>, req: Request, f: Field) {
    exists r :: r in rules && HitBy(lib, mode, req, r, f)
  }

  ghost predicate HeaderHit(lib: Lib, mode: Mode, rules: seq<Rule>, req: Request) {
    exists name :: FieldHit(lib, mode, rules, req, Header(name))
  }

  /** The flat meaning: some rule in the file blocks some value of a field it targets. */
  ghost predicate ShouldBlock(lib: Lib, mode: Mode, rules: seq<Rule>, req: Request) {
    exists f :: FieldHit(lib, mode, rules, req, f)
  }

  // ----- the meaning, outright

  // The pattern matches some value of the request that the target, as the rule file writes it, names.
  ghost predicate TargetMatches(lib: Lib, req: Request, pattern: string, t: string) {
    var path := match lib.pathUnescape(req.path) { case Some(p) => p case None => req.path };
    var query := match lib.queryUnescape(req.rawQuery) { case Some(q) => q case None => req.rawQuery };
    match t
    case "line" => lib.matches(pattern, req.verb + " " + path + if query != "" then "?" + query else "")
    case "path" => lib.matches(pattern, path)
    case "query" => query != "" && lib.matches(pattern, query)
    case "body" => req.body.BodyPrefix? && lib.matches(pattern, req.body.text)
    case "headers" => AnyHeaderMatches(lib, req, pattern)
    case _ =>
      && |t| >= 8 && t[..8] == "headers:"
      && var name := lib.canonical(t[8..]);
         if name == "" then AnyHeaderMatches(lib, req, pattern)
         else
           var key := lib.canonical(name);
           key in req.headers && exists v :: v in req.headers[key] && lib.matches(pattern, v)
  }

  ghost predicate AnyHeaderMatches(lib: Lib, req: Request, pattern: string) {
    exists k, v :: k in req.headers && v in req.headers[k] && lib.matches(pattern, v)
  }

  // The rule is enabled and blocking, the engine is not log-only, and one of its targets matches.
  ghost predicate RuleBlocks(lib: Lib, mode: Mode, req: Request, r: Rule) {
    && !mode.logOnly
    && (r.id in mode.overrides ==> mode.overrides[r.id].enabled)
    && (if r.id in mode.overrides && mode.overrides[r.id].action != "" then mode.overrides[r.id].action else r.action)
       == "block"
    && exists t :: t in r.targets && TargetMatches(lib, req, r.pattern, t)
  }

  // Some value of the field is matched by the pattern.
  ghost predicate FieldMatches(lib: Lib, req: Request, pattern: string, f: Field) {
    exists v :: HasValue(lib, req, f, v) && lib.matches(pattern, v)
  }

  lemma HeaderMatches(lib: Lib, req: Request, pattern: string, name: string)
    ensures FieldMatches(lib, req, pattern, Header(name)) <==>
            if name == "" then AnyHeaderMatches(lib, req, pattern)
            else exists v :: v in HeaderValues(lib, req, name) && lib.matches(pattern, v)
  {
    if FieldMatches(lib, req, pattern, Header(name)) {
      var v :| HasValue(lib, req, Header(name), v) && lib.matches(pattern, v);
    }
    if name == "" && AnyHeaderMatches(lib, req, pattern) {
      var k, v :| k in req.headers && v in req.headers[k] && lib.matches(pattern, v);
      assert HasValue(lib, req, Header(""), v);
    } else if v :| name != "" && v in HeaderValues(lib, req, name) && lib.matches(pattern, v) {
      assert HasValue(lib, req, Header(name), v);
    }
  }

  lemma UrlFieldMatches(lib: Lib, req: Request, pattern: string)
    ensures FieldMatches(lib, req, pattern, Line) <==> TargetMatches(lib, req, pattern, "line")
    ensures FieldMatches(lib, req, pattern, Path) <==> TargetMatches(lib, req, pattern, "path")
    ensures FieldMatches(lib, req, pattern, Query) <==> TargetMatches(lib, req, pattern, "query")
    ensures FieldMatches(lib, req, pattern, Body) <==> TargetMatches(lib, req, pattern, "body")
  {
    assert HasValue(lib, req, Line, RequestLine(lib, req)) && HasValue(lib, req, Path, DecodedPath(lib, req));
    assert DecodedQuery(lib, req) != "" ==> HasValue(lib, req, Query, DecodedQuery(lib, req));
    assert req.body.BodyPrefix? ==> HasValue(lib, req, Body, req.body.text);
  }

  lemma TargetMeaning(lib: Lib, req: Request, pattern: string, t: string)
    ensures TargetMatches(lib, req, pattern, t) <==>
            FieldOf(lib, t).Some? && FieldMatches(lib, req, pattern, FieldOf(lib, t).value)
  {
    UrlFieldMatches(lib, req, pattern);
    if FieldOf(lib, t).Some? && FieldOf(lib, t).value.Header? {
      HeaderMatches(lib, req, pattern, FieldOf(lib, t).value.name);
    }
  }

  lemma BlockingAction(lib: Lib, mode: Mode, r: Rule, v: string)
    ensures Blocks(lib, mode, r, v) <==>
            && !mode.logOnly && (r.id in mode.overrides ==> mode.overrides[r.id].enabled)
            && (if r.id in mode.overrides && mode.overrides[r.id].action != "" then mode.overrides[r.id].action
                else r.action) == "block"
            && lib.matches(r.pattern, v)
  {
    assert ACTION_LOG[0] != "block"[0];
  }

  /** The search's reading of a rule is the outright one. */
  lemma HitOutright(lib: Lib, mode: Mode, req: Request, r: Rule)
    ensures (exists f :: HitBy(lib, mode, req, r, f)) <==> RuleBlocks(lib, mode, req, r)
  {
    if f :| HitBy(lib, mode, req, r, f) {
      var t :| t in r.targets && FieldOf(lib, t) == Some(f);
      var v :| HasValue(lib, req, f, v) && Blocks(lib, mode, r, v);
      BlockingAction(lib, mode, r, v);
      TargetMeaning(lib, req, r.pattern, t);
    }
    if RuleBlocks(lib, mode, req, r) {
      var t :| t in r.targets && TargetMatches(lib, req, r.pattern, t);
      TargetMeaning(lib, req, r.pattern, t);
      var f := FieldOf(lib, t).value;
      var v :| HasValue(lib, req, f, v) && lib.matches(r.pattern, v);
      BlockingAction(lib, mode, r, v);
      assert HitBy(lib, mode, req, r, f);
    }
  }

  lemma ShouldBlockOutright(lib: Lib, mode: Mode, rules: seq<Rule>, req: Request)
    ensures ShouldBlock(lib, mode, rules, req) <==> exists r :: r in rules && RuleBlocks(lib, mode, req, r)
  {
    if ShouldBlock(lib, mode, rules, req) {
      var f :| FieldHit(lib, mode, rules, req, f);
      var r :| r in rules && HitBy(lib, mode, req, r, f);
      HitOutright(lib, mode, req, r);
    }
    if r :| r in rules && RuleBlocks(lib, mode, req, r) {
      HitOutright(lib, mode, req, r);
      var f :| HitBy(lib, mode, req, r, f);
      assert FieldHit(lib, mode, rules, req, f);
    }
  }

  lemma {:induction false} BodyGroup(lib: Lib, rules: seq<Rule>)
    ensures Group(lib, rules, Body) != [] <==> exists r :: r in rules && "body" in r.targets
  {
    if rules != [] {
      var n := |rules| - 1;
      var r := rules[n];
      BodyGroup(lib, rules[..n]);
      BodyCopies(lib, r.targets, r);
      assert forall x :: x in rules <==> x in rules[..n] || x == r;
    }
  }

  lemma {:induction false} BodyCopies(lib: Lib, targets: seq<string>, r: Rule)
    ensures Copies(lib, targets, r, Body) != [] <==> "body" in targets
  {
    if targets != [] {
      var n := |targets| - 1;
      BodyCopies(lib, targets[..n], r);
      assert forall t :: t in targets <==> t in targets[..n] || t == targets[n];
    }
  }

  lemma SingleValue(lib: Lib, mode: Mode, rules: seq<Rule>, req: Request, f: Field, v: string)
    requires HasValue(lib, req, f, v)
    ensures var hit := FirstHit(lib, mode, rules, f, v);
            && (hit.Some? ==> hit.value in rules && HitBy(lib, mode, req, hit.value, f))
            && ((forall v' :: HasValue(lib, req, f, v') ==> v' == v) ==>
                  (hit.Some? <==> FieldHit(lib, mode, rules, req, f)))
  {
    FirstHitMeaning(lib, mode, rules, f, v);
  }

  // ----- the search, as the source runs it

  /** Skips disabled rules and log-action matches; returns the first blocking match. */
  method Check(lib: Lib, mode: Mode, rules: seq<Rule>, v: string) returns (hit: Option<Rule>)
    ensures hit == FirstBlock(lib, mode, rules, v)
  {
    for i := 0 to |rules|
      invariant FirstBlock(lib, mode, rules[i..], v) == FirstBlock(lib, mode, rules, v)
    {
      var r := rules[i];
      var action := r.action;
      assert rules[i..][1..] == rules[i + 1..];
      if r.id in mode.overrides {
        var o := mode.overrides[r.id];
        if !o.enabled {
          continue;
        }
        if o.action != "" {
          action := o.action;
        }
      }
      if mode.logOnly {
        action := ACTION_LOG;
      }
      if !lib.matches(r.pattern, v) {
        continue;
      }
      if action == ACTION_BLOCK {
        return Some(r);
      }
    }
    hit := None;
  }

  // All the values of one header group, first hit wins.
  method CheckValues(
    lib: Lib, mode: Mode, rs: RuleSet, rules: seq<Rule>, req: Request, name: string, values: seq<string>)
    returns (hit: Option<Rule>)
    requires Indexes(lib, rs, rules)
    requires forall v :: v in values ==> HasValue(lib, req, Header(name), v)
    ensures hit.Some? ==> hit.value in rules && HitBy(lib, mode, req, hit.value, Header(name))
    ensures hit.None? ==> forall v :: v in values ==> FirstHit(lib, mode, rules, Header(name), v).None?
  {
    for i := 0 to |values|
      invariant forall v :: v in values[..i] ==> FirstHit(lib, mode, rules, Header(name), v).None?
    {
      GroupSearch(lib, mode, rules, Header(name), values[i]);
      SingleValue(lib, mode, rules, req, Header(name), values[i]);
      hit := Check(lib, mode, rs.Of(Header(name)), values[i]);
      if hit.Some? {
        return;
      }
    }
    hit := None;
  }

  // The group for all headers: every value of every header, in whatever order the map yields them.
  method CheckEveryHeader(lib: Lib, mode: Mode, rs: RuleSet, rules: seq<Rule>, req: Request) returns (hit: Option<Rule>)
    requires Indexes(lib, rs, rules)
    ensures hit.Some? ==> hit.value in rules && HitBy(lib, mode, req, hit.value, Header(""))
    ensures hit.None? ==>
              forall v :: HasValue(lib, req, Header(""), v) ==> FirstHit(lib, mode, rules, Header(""), v).None?
  {
    var todo := req.headers.Keys;
    while todo != {}
      invariant todo <= req.headers.Keys
      invariant forall k, v :: k in req.headers && k !in todo && v in req.headers[k] ==>
                  FirstHit(lib, mode, rules, Header(""), v).None?
    {
      var k :| k in todo;
      hit := CheckValues(lib, mode, rs, rules, req, "", req.headers[k]);
      if hit.Some? {
        return;
      }
      todo := todo - {k};
    }
    hit := None;
  }

  lemma NoHit(lib: Lib, mode: Mode, rules: seq<Rule>, req: Request, f: Field)
    requires forall v :: HasValue(lib, req, f, v) ==> FirstHit(lib, mode, rules, f, v).None?
    ensures !FieldHit(lib, mode, rules, req, f)
  {
    if FieldHit(lib, mode, rules, req, f) {
      var r :| r in rules && HitBy(lib, mode, req, r, f);
      var v :| HasValue(lib, req, f, v) && Blocks(lib, mode, r, v);
      FirstHitMeaning(lib, mode, rules, f, v);
    }
  }

  // A header name without a group is targeted by no rule.
  lemma UngroupedHeader(lib: Lib, mode: Mode, rs: RuleSet, rules: seq<Rule>, req: Request, name: string)
    requires Indexes(lib, rs, rules) && name !in rs.headers
    ensures !FieldHit(lib, mode, rules, req, Header(name))
  {
    forall v
      ensures FirstHit(lib, mode, rules, Header(name), v).None?
    {
      GroupSearch(lib, mode, rules, Header(name), v);
      assert rs.Of(Header(name)) == [];
    }
    NoHit(lib, mode, rules, req, Header(name));
  }

  /** The header groups, in whatever order the map yields them. */
  method CheckHeaders(lib: Lib, mode: Mode, rs: RuleSet, rules: seq<Rule>, req: Request) returns (hit: Option<Rule>)
    requires Indexes(lib, rs, rules)
    ensures hit.Some? <==> HeaderHit(lib, mode, rules, req)
    ensures hit.Some? ==> hit.value in rules && exists name :: HitBy(lib, mode, req, hit.value, Header(name))
  {
    var todo := rs.headers.Keys;
    while todo != {}
      invariant todo <= rs.headers.Keys
      invariant forall name :: name in rs.headers && name !in todo ==> !FieldHit(lib, mode, rules, req, Header(name))
    {
      var name :| name in todo;
      if name == "" {
        hit := CheckEveryHeader(lib, mode, rs, rules, req);
      } else {
        hit := CheckValues(lib, mode, rs, rules, req, name, HeaderValues(lib, req, name));
      }
      if hit.Some? {
        assert FieldHit(lib, mode, rules, req, Header(name));
        return;
      }
      NoHit(lib, mode, rules, req, Header(name));
      todo := todo - {name};
    }
    hit := None;
    forall name
      ensures !FieldHit(lib, mode, rules, req, Header(name))
    {
      if name !in rs.headers {
        UngroupedHeader(lib, mode, rs, rules, req, name);
      }
    }
  }

  datatype Inspection = Passed | Blocked(rule: Rule) | ReadError

  // The rule that the request-line, path and query groups settle on, in that order.
  ghost function UrlHit(lib: Lib, mode: Mode, rules: seq<Rule>, req: Request): Option<Rule> {
    var line := FirstHit(lib, mode, rules, Line, RequestLine(lib, req));
    var path := FirstHit(lib, mode, rules, Path, DecodedPath(lib, req));
    var query := FirstHit(lib, mode, rules, Query, DecodedQuery(lib, req));
    if line.Some? then line
    else if path.Some? then path
    else if DecodedQuery(lib, req) != "" then query
    else None
  }

  lemma UrlHitMeaning(lib: Lib, mode: Mode, rules: seq<Rule>, req: Request)
    ensures var hit := UrlHit(lib, mode, rules, req);
            && (hit.Some? <==>
                exists f: Field :: (f.Line? || f.Path? || f.Query?) && FieldHit(lib, mode, rules, req, f))
            && (hit.Some? ==> hit.value in rules && exists f :: HitBy(lib, mode, req, hit.value, f))
  {
    SingleValue(lib, mode, rules, req, Line, RequestLine(lib, req));
    SingleValue(lib, mode, rules, req, Path, DecodedPath(lib, req));
    if DecodedQuery(lib, req) != "" {
      SingleValue(lib, mode, rules, req, Query, DecodedQuery(lib, req));
    } else {
      NoHit(lib, mode, rules, req, Query);
    }
  }

  method CheckUrl(lib: Lib, mode: Mode, rs: RuleSet, rules: seq<Rule>, req: Request) returns (hit: Option<Rule>)
    requires Indexes(lib, rs, rules)
    ensures hit == UrlHit(lib, mode, rules, req)
  {
    var path, query, line := DecodedPath(lib, req), DecodedQuery(lib, req), RequestLine(lib, req);
    GroupSearch(lib, mode, rules, Line, line);
    GroupSearch(lib, mode, rules, Path, path);
    GroupSearch(lib, mode, rules, Query, query);
    assert rs.Of(Line) == rs.line && rs.Of(Path) == rs.path && rs.Of(Query) == rs.query;
    hit := Check(lib, mode, rs.line, line);
    if hit.Some? {
      return;
    }
    hit := Check(lib, mode, rs.path, path);
    if hit.Some? {
      return;
    }
    if query != "" {
      hit := Check(lib, mode, rs.query, query);
    }
  }

  /** The index preserves meaning. With the body readable, the request is blocked exactly when some
      rule of the flat list blocks a value of a field it targets, and the returned rule is one that
      does. Outside the header groups it is the first such rule in file order of the first group
      that blocks. An unreadable body is an error only when rules target bodies and nothing else
      blocked. */
  method Inspect(lib: Lib, mode: Mode, rs: RuleSet, rules: seq<Rule>, req: Request) returns (result: Inspection)
    requires Indexes(lib, rs, rules)
    ensures !req.body.BodyUnreadable? ==>
              (result.Blocked? <==> exists r :: r in rules && RuleBlocks(lib, mode, req, r)) && !result.ReadError?
    ensures result.Blocked? ==> result.rule in rules && RuleBlocks(lib, mode, req, result.rule)
    ensures UrlHit(lib, mode, rules, req).Some? ==> result == Blocked(UrlHit(lib, mode, rules, req).value)
    ensures result.Blocked? && UrlHit(lib, mode, rules, req).None? && !HeaderHit(lib, mode, rules, req) ==>
              req.body.BodyPrefix? && FirstHit(lib, mode, rules, Body, req.body.text) == Some(result.rule)
    ensures result.ReadError? <==>
            && req.body.BodyUnreadable? && (exists r :: r in rules && "body" in r.targets)
            && UrlHit(lib, mode, rules, req).None? && !HeaderHit(lib, mode, rules, req)
  {
    UrlHitMeaning(lib, mode, rules, req);
    ShouldBlockOutright(lib, mode, rules, req);
    BodyGroup(lib, rules);
    forall r
      ensures (exists f :: HitBy(lib, mode, req, r, f)) ==> RuleBlocks(lib, mode, req, r)
    {
      HitOutright(lib, mode, req, r);
    }
    var url := CheckUrl(lib, mode, rs, rules, req);
    if url.Some? {
      return Blocked(url.value);
    }
    var header := CheckHeaders(lib, mode, rs, rules, req);
    if header.Some? {
      return Blocked(header.value);
    }
    assert rs.Of(Body) == rs.body;
    if |rs.body| > 0 && !req.body.NoBody? {
      if req.body.BodyUnreadable? {
        return ReadError;
      }
      GroupSearch(lib, mode, rules, Body, req.body.text);
      SingleValue(lib, mode, rules, req, Body, req.body.text);
      var body := Check(lib, mode, rs.body, req.body.text);
      if body.Some? {
        return Blocked(body.value);
      }
    } else if req.body.BodyPrefix? {
      GroupSearch(lib, mode, rules, Body, req.body.text);
      SingleValue(lib, mode, rules, req, Body, req.body.text);
    } else {
      NoHit(lib, mode, rules, req, Body);
    }
    result := Passed;
  }
}
