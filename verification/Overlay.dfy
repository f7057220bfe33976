/** One IP list: a config-file base layer under an admin overlay of added and removed CIDRs.
    Published list states are immutable values; an edit computes a new one. */
module Overlay {
  import opened Wrappers
  import opened Netmatch
  import CasLoop

  ghost function Elems(s: seq<string>): set<string> {
    set x | x in s
  }

  ghost predicate NoDup(s: seq<string>) {
    forall i, j :: 0 <= i < j < |s| ==> s[i] != s[j]
  }

  // `s` without the strings in `drop`, in order.
  function Minus(s: seq<string>, drop: set<string>): (r: seq<string>) {
    if s == [] then []
    else
      var front := Minus(s[..|s| - 1], drop);
      if s[|s| - 1] in drop then front else front + [s[|s| - 1]]
  }

  lemma {:induction false} MinusMeaning(s: seq<string>, drop: set<string>)
    ensures forall x :: x in Minus(s, drop) <==> x in s && x !in drop
    ensures NoDup(s) ==> NoDup(Minus(s, drop))
  {
    if s != [] {
      var n := |s| - 1;
      MinusMeaning(s[..n], drop);
      assert forall x :: x in s <==> x in s[..n] || x == s[n];
    }
  }

  lemma {:induction false} MinusSame(s: seq<string>, drop: set<string>)
    requires forall x :: x in s ==> x !in drop
    ensures Minus(s, drop) == s
  {
    if s != [] {
      MinusSame(s[..|s| - 1], drop);
      assert s == s[..|s| - 1] + [s[|s| - 1]];
    }
  }

  // `s` cut down to the strings in `keep`, in order.
  ghost function Only(s: seq<string>, keep: set<string>): seq<string> {
    Minus(s, Elems(s) - keep)
  }

  // ----- the effective list

  // One turn of either loop that builds the effective list.
  function Keep(out: seq<string>, removed: set<string>, c: string): seq<string> {
    if c in removed || c in out then out else out + [c]
  }

  function Collect(cs: seq<string>, removed: set<string>, out: seq<string>): (r: seq<string>) {
    if cs == [] then out else Keep(Collect(cs[..|cs| - 1], removed, out), removed, cs[|cs| - 1])
  }

  ghost function Effective(base: seq<string>, added: seq<string>, removed: seq<string>): seq<string> {
    Collect(added, Elems(removed), Collect(base, Elems(removed), []))
  }

  lemma {:induction false} CollectMeaning(cs: seq<string>, removed: set<string>, out: seq<string>)
    ensures forall x :: x in Collect(cs, removed, out) <==> x in out || (x in cs && x !in removed)
    ensures NoDup(out) ==> NoDup(Collect(cs, removed, out))
    ensures out <= Collect(cs, removed, out)
  {
    if cs != [] {
      var n := |cs| - 1;
      CollectMeaning(cs[..n], removed, out);
      assert forall x :: x in cs <==> x in cs[..n] || x == cs[n];
      var r := Collect(cs[..n], removed, out);
      assert forall x :: x in r + [cs[n]] <==> x in r || x == cs[n];
    }
  }

  // Position of the first occurrence of `x`.
  ghost function FirstAt(s: seq<string>, x: string): (i: nat)
    requires x in s
    ensures i < |s| && s[i] == x && x !in s[..i]
  {
    if s[0] == x then 0
    else
      assert x in s[1..];
      var k := FirstAt(s[1..], x);
      assert s[..k + 1] == [s[0]] + s[1..][..k];
      1 + k
  }

  lemma FirstAtUnique(s: seq<string>, x: string, i: nat)
    requires i < |s| && s[i] == x && x !in s[..i]
    ensures FirstAt(s, x) == i
  {
  }

  ghost predicate InFirstOrder(out: seq<string>, src: seq<string>) {
    && (forall i :: 0 <= i < |out| ==> out[i] in src)
    && forall i, j :: 0 <= i < j < |out| ==> FirstAt(src, out[i]) < FirstAt(src, out[j])
  }

  lemma FirstAtPrefix(s: seq<string>, n: nat, x: string)
    requires n <= |s| && x in s[..n]
    ensures x in s && FirstAt(s, x) == FirstAt(s[..n], x)
  {
    var i := FirstAt(s[..n], x);
    assert s[..n][..i] == s[..i];
    FirstAtUnique(s, x, i);
  }

  lemma {:induction false} CollectOrder(cs: seq<string>, removed: set<string>)
    ensures InFirstOrder(Collect(cs, removed, []), cs)
  {
    if cs != [] {
      var n := |cs| - 1;
      var front := cs[..n];
      CollectOrder(front, removed);
      CollectMeaning(front, removed, []);
      var out := Collect(front, removed, []);
      forall i | 0 <= i < |out|
        ensures out[i] in cs && FirstAt(cs, out[i]) == FirstAt(front, out[i])
      {
        FirstAtPrefix(cs, n, out[i]);
      }
      var c := cs[n];
      if c !in removed && c !in out {
        assert c !in front;
        FirstAtUnique(cs, c, n);
      }
    }
  }

  lemma {:induction false} CollectConcat(a: seq<string>, b: seq<string>, removed: set<string>, out: seq<string>)
    ensures Collect(a + b, removed, out) == Collect(b, removed, Collect(a, removed, out))
  {
    if b == [] {
      assert a + b == a;
    } else {
      var n := |b| - 1;
      assert (a + b)[..|a + b| - 1] == a + b[..n];
      CollectConcat(a, b[..n], removed, out);
    }
  }

  /** The effective list is pinned down by the layers: membership is (base + added) minus removed,
      nothing repeats, and entries stand in order of first occurrence in base followed by added. */
  lemma EffectiveMeaning(base: seq<string>, added: seq<string>, removed: seq<string>)
    ensures Elems(Effective(base, added, removed)) == (Elems(base) + Elems(added)) - Elems(removed)
    ensures NoDup(Effective(base, added, removed))
    ensures InFirstOrder(Effective(base, added, removed), base + added)
  {
    var r := Elems(removed);
    CollectMeaning(base, r, []);
    CollectMeaning(added, r, Collect(base, r, []));
    CollectConcat(base, added, r, []);
    CollectOrder(base + added, r);
  }

  // ----- list states

  datatype ListState = ListState(
    base: seq<string>, added: seq<string>, removed: seq<string>, effective: seq<string>, matcher: Matcher)

  ghost function MakeState(parse: Parser, base: seq<string>, added: seq<string>, removed: seq<string>)
    : Option<ListState>
  {
    var effective := Effective(base, added, removed);
    var m := Build(parse, effective);
    if m.None? then None else Some(ListState(base, added, removed, effective, m.value))
  }

  /** What every reachable list state satisfies. */
  ghost predicate Inv(parse: Parser, s: ListState) {
    && NoDup(s.added) && NoDup(s.removed)
    && (forall c :: c in s.added ==> c !in s.removed)
    && AllParse(parse, s.base) && AllParse(parse, s.added) && AllParse(parse, s.removed)
    && MakeState(parse, s.base, s.added, s.removed) == Some(s)
  }

  /** The consequences callers rely on: the cached list is duplicate-free with the advertised
      membership, and the matcher answers every address as that list reads. */
  lemma InvMeaning(parse: Parser, s: ListState)
    requires Inv(parse, s)
    ensures Elems(s.effective) == (Elems(s.base) + Elems(s.added)) - Elems(s.removed)
    ensures forall c :: c in s.effective <==> (c in s.base || c in s.added) && c !in s.removed
    ensures NoDup(s.effective) && InFirstOrder(s.effective, s.base + s.added)
    ensures AllParse(parse, s.effective)
    ensures s.matcher.Valid() && forall ip: Addr :: s.matcher.Covers(ip) <==> ListCovers(parse, s.effective, ip)
  {
    EffectiveMeaning(s.base, s.added, s.removed);
    assert forall c :: c in s.effective <==> c in Elems(s.effective);
    BuildMeaning(parse, s.effective);
  }

  lemma InvMembers(parse: Parser, s: ListState)
    requires Inv(parse, s)
    ensures forall c :: c in s.effective <==> (c in s.base || c in s.added) && c !in s.removed
  {
    EffectiveMeaning(s.base, s.added, s.removed);
    assert forall c :: c in s.effective <==> c in Elems(s.effective);
  }

  // Rebuilding fails exactly when an entry that stays effective does not parse.
  lemma MakeStateOk(parse: Parser, base: seq<string>, added: seq<string>, removed: seq<string>)
    ensures MakeState(parse, base, added, removed).Some? <==>
            forall c :: (c in base || c in added) && c !in removed ==> parse(c).Some?
  {
    EffectiveMeaning(base, added, removed);
    var e := Effective(base, added, removed);
    assert forall c :: c in e <==> c in Elems(e);
    BuildMeaning(parse, e);
  }

  // ----- edits

  datatype Op = Add(cidr: string) | Remove(cidr: string) | Reload(base: seq<string>)

  // What a call returns: nil, an error, or the found flag of a removal.
  datatype Outcome = Done | Rejected | Removed | NotPresent

  type Attempt = CasLoop.Attempt<ListState, Outcome>

  // What is left of a turn once the new state is built, or failed to build.
  ghost function Publish(next: Option<ListState>, outcome: Outcome): Attempt {
    if next.None? then CasLoop.Settled(Rejected) else CasLoop.Swap(next.value, outcome)
  }

  ghost function AddedAfterAdd(s: ListState, c: string): seq<string> {
    if c in s.base then s.added else s.added + [c]
  }

  ghost function RemovedAfterRemove(s: ListState, c: string): seq<string> {
    if c in s.base then s.removed + [c] else s.removed
  }

  // One turn of the retry loop of a call, on a snapshot.
  ghost function TryOnce(parse: Parser, op: Op, s: ListState): Attempt {
    match op
    case Add(c) =>
      if parse(c).None? then CasLoop.Settled(Rejected)
      else if c in s.effective then CasLoop.Settled(Done)
      else Publish(MakeState(parse, s.base, AddedAfterAdd(s, c), Minus(s.removed, {c})), Done)
    case Remove(c) =>
      if c !in s.effective then CasLoop.Settled(NotPresent)
      else Publish(MakeState(parse, s.base, Minus(s.added, {c}), RemovedAfterRemove(s, c)), Removed)
    case Reload(base) =>
      Publish(MakeState(parse, base, s.added, s.removed), Done)
  }

  ghost function ListStep(parse: Parser): CasLoop.StepFn<ListState, Op, Outcome> {
    (op: Op, s: ListState) => TryOnce(parse, op, s)
  }

  // A call run alone, and calls run one after the other.
  ghost function Apply(parse: Parser, s: ListState, op: Op): (ListState, Outcome) {
    CasLoop.Apply(ListStep(parse), s, op)
  }

  ghost function Run(parse: Parser, s: ListState, ops: seq<Op>): ListState {
    CasLoop.Run(ListStep(parse), s, ops)
  }

  lemma AppendElems(s: seq<string>, c: string)
    ensures forall x :: x in s + [c] <==> x in s || x == c
    ensures NoDup(s) && c !in s ==> NoDup(s + [c])
  {
  }

  // Well-formed layers always build, into a state that satisfies the invariant.
  lemma MakeStateMeaning(parse: Parser, base: seq<string>, added: seq<string>, removed: seq<string>)
    requires NoDup(added) && NoDup(removed) && forall c :: c in added ==> c !in removed
    requires AllParse(parse, base) && AllParse(parse, added) && AllParse(parse, removed)
    ensures var r := MakeState(parse, base, added, removed);
            && r.Some? && Inv(parse, r.value)
            && r.value.base == base && r.value.added == added && r.value.removed == removed
  {
    MakeStateOk(parse, base, added, removed);
  }

  /** Adding: succeeds exactly on CIDRs that parse, then the CIDR is effective and nothing else
      changes membership; the base stays and the invariant is kept. */
  lemma AddMeaning(parse: Parser, s: ListState, c: string)
    requires Inv(parse, s)
    ensures var (s', o) := Apply(parse, s, Add(c));
            && Inv(parse, s') && s'.base == s.base
            && o == (if parse(c).Some? then Done else Rejected)
            && (o == Rejected ==> s' == s)
            && (o == Done ==> forall x :: x in s'.effective <==> x in s.effective || x == c)
            && (o == Done ==> c !in s'.removed && (c in s'.added <==> c in s.added || c !in s.base))
  {
    InvMembers(parse, s);
    if parse(c).Some? && c !in s.effective {
      var s' := AddedState(parse, s, c);
      InvMembers(parse, s');
    }
  }

  lemma AddedState(parse: Parser, s: ListState, c: string) returns (s': ListState)
    requires Inv(parse, s) && parse(c).Some? && c !in s.effective
    ensures TryOnce(parse, Add(c), s) == CasLoop.Swap(s', Done)
    ensures Inv(parse, s') && s'.base == s.base
    ensures s'.added == AddedAfterAdd(s, c) && s'.removed == Minus(s.removed, {c})
    ensures forall x :: x in s'.added <==> x in s.added || (x == c && c !in s.base)
    ensures forall x :: x in s'.removed <==> x in s.removed && x != c
  {
    InvMembers(parse, s);
    MinusMeaning(s.removed, {c});
    AppendElems(s.added, c);
    var added, removed := AddedAfterAdd(s, c), Minus(s.removed, {c});
    assert forall x :: x in added <==> x in s.added || (x == c && c !in s.base);
    assert NoDup(added);
    MakeStateMeaning(parse, s.base, added, removed);
    s' := MakeState(parse, s.base, added, removed).value;
  }

  /** Removing: reports whether the CIDR was effective, then it no longer is and nothing else
      changes membership; it never fails, the base stays and the invariant is kept. */
  lemma RemoveMeaning(parse: Parser, s: ListState, c: string)
    requires Inv(parse, s)
    ensures var (s', o) := Apply(parse, s, Remove(c));
            && Inv(parse, s') && s'.base == s.base
            && o == (if c in s.effective then Removed else NotPresent)
            && (o == NotPresent ==> s' == s)
            && (forall x :: x in s'.effective <==> x in s.effective && x != c)
            && (o == Removed ==> c !in s'.added && (c in s'.removed <==> c in s.base))
  {
    InvMembers(parse, s);
    if c in s.effective {
      var s' := RemovedState(parse, s, c);
      InvMembers(parse, s');
    }
  }

  lemma RemovedState(parse: Parser, s: ListState, c: string) returns (s': ListState)
    requires Inv(parse, s) && c in s.effective
    ensures TryOnce(parse, Remove(c), s) == CasLoop.Swap(s', Removed)
    ensures Inv(parse, s') && s'.base == s.base
    ensures s'.added == Minus(s.added, {c}) && s'.removed == RemovedAfterRemove(s, c)
    ensures forall x :: x in s'.added <==> x in s.added && x != c
    ensures forall x :: x in s'.removed <==> x in s.removed || (x == c && c in s.base)
  {
    InvMembers(parse, s);
    MinusMeaning(s.added, {c});
    AppendElems(s.removed, c);
    var added, removed := Minus(s.added, {c}), RemovedAfterRemove(s, c);
    assert forall x :: x in removed <==> x in s.removed || (x == c && c in s.base);
    assert NoDup(removed);
    MakeStateMeaning(parse, s.base, added, removed);
    s' := MakeState(parse, s.base, added, removed).value;
  }

  /** Reloading: succeeds exactly when every entry of the new base parses, keeps both overlay
      sequences, and lays them over the new base. */
  lemma ReloadMeaning(parse: Parser, s: ListState, base: seq<string>)
    requires Inv(parse, s)
    ensures var (s', o) := Apply(parse, s, Reload(base));
            && Inv(parse, s')
            && (o == Done <==> AllParse(parse, base)) && (o == Rejected <==> !AllParse(parse, base))
            && (o == Rejected ==> s' == s)
            && s'.added == s.added && s'.removed == s.removed
            && (o == Done ==> s'.base == base && s'.effective == Effective(base, s.added, s.removed))
            && (o == Done ==> Elems(s'.effective) == (Elems(base) + Elems(s.added)) - Elems(s.removed))
  {
    MakeStateOk(parse, base, s.added, s.removed);
    EffectiveMeaning(base, s.added, s.removed);
  }

  /** A list built from a base alone: the state at startup. */
  lemma FreshMeaning(parse: Parser, base: seq<string>)
    ensures MakeState(parse, base, [], []).Some? <==> AllParse(parse, base)
    ensures AllParse(parse, base) ==>
              var s := MakeState(parse, base, [], []).value;
              Inv(parse, s) && s.base == base && Elems(s.effective) == Elems(base)
  {
    MakeStateOk(parse, base, [], []);
    EffectiveMeaning(base, [], []);
  }

  lemma ApplyKeepsInv(parse: Parser, s: ListState, op: Op)
    requires Inv(parse, s)
    ensures Inv(parse, Apply(parse, s, op).0)
  {
    match op
    case Add(c) => AddMeaning(parse, s, c);
    case Remove(c) => RemoveMeaning(parse, s, c);
    case Reload(base) => ReloadMeaning(parse, s, base);
  }

  /** The invariant over every run of adds, removals and reloads. */
  lemma {:induction false} RunKeepsInv(parse: Parser, s: ListState, ops: seq<Op>)
    requires Inv(parse, s)
    ensures Inv(parse, Run(parse, s, ops))
  {
    if ops != [] {
      RunKeepsInv(parse, s, ops[..|ops| - 1]);
      ApplyKeepsInv(parse, Run(parse, s, ops[..|ops| - 1]), ops[|ops| - 1]);
    }
  }

  // ----- what a run of edits means

  ghost predicate NoReload(ops: seq<Op>) {
    forall op :: op in ops ==> !op.Reload?
  }

  // The last edit of `c` that the code accepts: Some(true) an add, Some(false) a removal.
  ghost function LastEdit(parse: Parser, ops: seq<Op>, c: string): Option<bool> {
    if ops == [] then None
    else
      match ops[|ops| - 1]
      case Add(x) => if x == c && parse(c).Some? then Some(true) else LastEdit(parse, ops[..|ops| - 1], c)
      case Remove(x) => if x == c then Some(false) else LastEdit(parse, ops[..|ops| - 1], c)
      case Reload(_) => LastEdit(parse, ops[..|ops| - 1], c)
  }

  lemma EditStep(parse: Parser, s: ListState, op: Op, c: string)
    requires Inv(parse, s) && !op.Reload?
    ensures Apply(parse, s, op).0.base == s.base
    ensures c in Apply(parse, s, op).0.effective <==>
            match op {
              case Add(x) => c in s.effective || (x == c && parse(c).Some?)
              case Remove(x) => c in s.effective && x != c
            }
  {
    match op
    case Add(x) => AddMeaning(parse, s, x);
    case Remove(x) => RemoveMeaning(parse, s, x);
  }

  /** Until the base changes the last edit of a CIDR wins, and CIDRs nobody edits stay as they
      were; so edits of different CIDRs commute on membership. */
  lemma {:induction false} LastEditWins(parse: Parser, s: ListState, ops: seq<Op>, c: string)
    requires Inv(parse, s) && NoReload(ops)
    ensures c in Run(parse, s, ops).effective <==>
            match LastEdit(parse, ops, c) { case Some(present) => present case None => c in s.effective }
    ensures Run(parse, s, ops).base == s.base
  {
    if ops != [] {
      var front, op := ops[..|ops| - 1], ops[|ops| - 1];
      LastEditWins(parse, s, front, c);
      RunKeepsInv(parse, s, front);
      EditStep(parse, Run(parse, s, front), op, c);
    }
  }

  /** Two edits of different CIDRs give the same members in either order. */
  lemma EditsCommute(parse: Parser, s: ListState, a: Op, b: Op)
    requires Inv(parse, s) && !a.Reload? && !b.Reload? && a.cidr != b.cidr
    ensures Elems(Run(parse, s, [a, b]).effective) == Elems(Run(parse, s, [b, a]).effective)
  {
    forall c
      ensures c in Run(parse, s, [a, b]).effective <==> c in Run(parse, s, [b, a]).effective
    {
      LastEditWins(parse, s, [a, b], c);
      LastEditWins(parse, s, [b, a], c);
      assert [a, b][..1] == [a] && [b, a][..1] == [b] && [a][..0] == [] && [b][..0] == [];
      assert LastEdit(parse, [a], c) == LastEdit(parse, [b, a], c)
        || LastEdit(parse, [b], c) == LastEdit(parse, [a, b], c);
    }
  }

  // ----- one CIDR over runs with reloads

  // How the layers stand on one CIDR.
  datatype Mark = Mark(inBase: bool, added: bool, removed: bool) {
    predicate Listed() {
      (inBase || added) && !removed
    }
  }

  ghost function MarkOf(s: ListState, c: string): Mark {
    Mark(c in s.base, c in s.added, c in s.removed)
  }

  // The three bits are a machine of their own: only edits of the CIDR itself and reloads move it.
  ghost function NextMark(parse: Parser, m: Mark, op: Op, c: string): Mark {
    match op
    case Add(x) =>
      if x != c || parse(c).None? || m.Listed() then m else Mark(m.inBase, m.added || !m.inBase, false)
    case Remove(x) =>
      if x != c || !m.Listed() then m else Mark(m.inBase, false, m.inBase)
    case Reload(base) =>
      if AllParse(parse, base) then m.(inBase := c in base) else m
  }

  ghost function MarkAfter(parse: Parser, m: Mark, ops: seq<Op>, c: string): Mark {
    if ops == [] then m
    else NextMark(parse, MarkAfter(parse, m, ops[..|ops| - 1], c), ops[|ops| - 1], c)
  }

  lemma MarkStep(parse: Parser, s: ListState, op: Op, c: string)
    requires Inv(parse, s)
    ensures MarkOf(Apply(parse, s, op).0, c) == NextMark(parse, MarkOf(s, c), op, c)
  {
    InvMembers(parse, s);
    match op
    case Add(x) =>
      if parse(x).Some? && x !in s.effective {
        var s' := AddedState(parse, s, x);
      }
    case Remove(x) =>
      if x in s.effective {
        var s' := RemovedState(parse, s, x);
      }
    case Reload(base) => ReloadMeaning(parse, s, base);
  }

  /** Over every run, reloads included, one CIDR's membership and its places in the layers are those of
      its three-bit machine. */
  lemma {:induction false} MarksDecide(parse: Parser, s: ListState, ops: seq<Op>, c: string)
    requires Inv(parse, s)
    ensures MarkOf(Run(parse, s, ops), c) == MarkAfter(parse, MarkOf(s, c), ops, c)
    ensures c in Run(parse, s, ops).effective <==> MarkAfter(parse, MarkOf(s, c), ops, c).Listed()
  {
    RunKeepsInv(parse, s, ops);
    InvMembers(parse, Run(parse, s, ops));
    if ops != [] {
      var front, op := ops[..|ops| - 1], ops[|ops| - 1];
      MarksDecide(parse, s, front, c);
      RunKeepsInv(parse, s, front);
      MarkStep(parse, Run(parse, s, front), op, c);
    }
  }

  // The reloads of a run and its edits of `c`.
  ghost function Concerning(ops: seq<Op>, c: string): seq<Op> {
    if ops == [] then []
    else
      var front, op := Concerning(ops[..|ops| - 1], c), ops[|ops| - 1];
      if op.Reload? || op.cidr == c then front + [op] else front
  }

  lemma {:induction false} ConcerningMark(parse: Parser, m: Mark, ops: seq<Op>, c: string)
    ensures MarkAfter(parse, m, ops, c) == MarkAfter(parse, m, Concerning(ops, c), c)
  {
    if ops != [] {
      var front, op := ops[..|ops| - 1], ops[|ops| - 1];
      ConcerningMark(parse, m, front, c);
      var kept := Concerning(front, c);
      assert (kept + [op])[..|kept|] == kept;
    }
  }

  /** Edits of other CIDRs never matter: a CIDR ends up as if only its own edits and the reloads had been
      made. */
  lemma OnlyOwnEditsMatter(parse: Parser, s: ListState, ops: seq<Op>, c: string)
    requires Inv(parse, s)
    ensures var full, own := Run(parse, s, ops), Run(parse, s, Concerning(ops, c));
            MarkOf(full, c) == MarkOf(own, c) && (c in full.effective <==> c in own.effective)
  {
    MarksDecide(parse, s, ops, c);
    MarksDecide(parse, s, Concerning(ops, c), c);
    ConcerningMark(parse, MarkOf(s, c), ops, c);
  }

  // ----- do edits survive reloads?

  // The run holds no edit of `c`; it may reload any number of times.
  ghost predicate Spares(ops: seq<Op>, c: string) {
    forall op :: op in ops ==> op.Reload? || op.cidr != c
  }

  lemma {:induction false} SparedMark(parse: Parser, m: Mark, ops: seq<Op>, c: string)
    requires Spares(ops, c)
    ensures var m' := MarkAfter(parse, m, ops, c); m'.added == m.added && m'.removed == m.removed
  {
    if ops != [] {
      SparedMark(parse, m, ops[..|ops| - 1], c);
    }
  }

  lemma AfterOneReload(parse: Parser, s: ListState, base: seq<string>, c: string)
    requires Inv(parse, s) && AllParse(parse, base)
    ensures c in Run(parse, s, [Reload(base)]).effective <==> (c in base || c in s.added) && c !in s.removed
  {
    MarksDecide(parse, s, [Reload(base)], c);
    assert [Reload(base)][..0] == [];
  }

  /** An accepted add outlives every later run without an edit of its CIDR, however often it reloads, if
      and only if, when it was made, the CIDR was already admin-added or was missing from the base.
      Adding a CIDR the base already covers is recorded nowhere, so a base without it drops it. */
  lemma AddSurvivesReload(parse: Parser, s: ListState, c: string)
    requires Inv(parse, s) && parse(c).Some?
    ensures (forall ops :: Spares(ops, c) ==> c in Run(parse, Apply(parse, s, Add(c)).0, ops).effective)
            <==> (c in s.added || c !in s.base)
  {
    AddMeaning(parse, s, c);
    var s1 := Apply(parse, s, Add(c)).0;
    forall ops | Spares(ops, c)
      ensures c in s1.added ==> c in Run(parse, s1, ops).effective
    {
      MarksDecide(parse, s1, ops, c);
      SparedMark(parse, MarkOf(s1, c), ops, c);
    }
    if c !in s1.added {
      AfterOneReload(parse, s1, [], c);
      assert Spares([Reload([])], c);
    }
  }

  /** After a removal its CIDR stays out over every later run without an edit of it, however often it
      reloads, if and only if the removal took it out of the base, or the overlay removed it already, or it does not
      parse and so can never be listed.
      Removing an admin-added CIDR only forgets the addition, so a base that lists it brings it back. */
  lemma RemoveSurvivesReload(parse: Parser, s: ListState, c: string)
    requires Inv(parse, s)
    ensures (forall ops :: Spares(ops, c) ==> c !in Run(parse, Apply(parse, s, Remove(c)).0, ops).effective)
            <==> parse(c).None? || c in s.removed || (c in s.effective && c in s.base)
  {
    InvMembers(parse, s);
    RemoveMeaning(parse, s, c);
    var s1 := Apply(parse, s, Remove(c)).0;
    forall ops | Spares(ops, c)
      ensures c in s1.removed || parse(c).None? ==> c !in Run(parse, s1, ops).effective
    {
      MarksDecide(parse, s1, ops, c);
      SparedMark(parse, MarkOf(s1, c), ops, c);
      RunKeepsInv(parse, s1, ops);
    }
    if c !in s1.removed && parse(c).Some? {
      AfterOneReload(parse, s1, [c], c);
      assert Spares([Reload([c])], c);
    }
  }
}
