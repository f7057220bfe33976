/** Saving one list's overlay and replaying it onto a list freshly built over some base. */
module ListPersistence {
  import opened Wrappers
  import opened Netmatch
  import opened Overlay
  import CasLoop

  // The saved form: two current sets, kept as sequences, not a log of operations.
  datatype SavedList = SavedList(added: seq<string>, removed: seq<string>)

  ghost function Save(s: ListState): SavedList {
    SavedList(s.added, s.removed)
  }

  ghost function Removals(cs: seq<string>): seq<Op> {
    seq(|cs|, i requires 0 <= i < |cs| => Remove(cs[i]))
  }

  ghost function Additions(cs: seq<string>): seq<Op> {
    seq(|cs|, i requires 0 <= i < |cs| => Add(cs[i]))
  }

  // Replay order in the source: removals first, then additions.
  ghost function ReplayOps(saved: SavedList): seq<Op> {
    Removals(saved.removed) + Additions(saved.added)
  }

  ghost function Fresh(parse: Parser, base: seq<string>): ListState
    requires AllParse(parse, base)
  {
    FreshMeaning(parse, base);
    MakeState(parse, base, [], []).value
  }

  ghost function Replay(parse: Parser, base: seq<string>, saved: SavedList): ListState
    requires AllParse(parse, base)
  {
    Run(parse, Fresh(parse, base), ReplayOps(saved))
  }

  // The overlay that replaying onto `base` leaves: only what the base does not already say.
  ghost function NormalAdded(saved: SavedList, base: seq<string>): seq<string> {
    Minus(saved.added, Elems(base))
  }

  ghost function NormalRemoved(saved: SavedList, base: seq<string>): seq<string> {
    Only(saved.removed, Elems(base))
  }

  lemma {:induction false} OnlyMeaning(s: seq<string>, keep: set<string>)
    ensures forall x :: x in Only(s, keep) <==> x in s && x in keep
    ensures NoDup(s) ==> NoDup(Only(s, keep))
  {
    MinusMeaning(s, Elems(s) - keep);
  }

  lemma MinusAppend(s: seq<string>, c: string, drop: set<string>)
    ensures Minus(s + [c], drop) == if c in drop then Minus(s, drop) else Minus(s, drop) + [c]
  {
    assert (s + [c])[..|s|] == s;
  }

  lemma {:induction false} MinusAgree(s: seq<string>, drop: set<string>, drop': set<string>)
    requires forall x :: x in s ==> (x in drop <==> x in drop')
    ensures Minus(s, drop) == Minus(s, drop')
  {
    if s != [] {
      MinusAgree(s[..|s| - 1], drop, drop');
    }
  }

  lemma OnlyAppend(s: seq<string>, c: string, keep: set<string>)
    ensures Only(s + [c], keep) == if c in keep then Only(s, keep) + [c] else Only(s, keep)
  {
    var drop := Elems(s + [c]) - keep;
    MinusAppend(s, c, drop);
    MinusAgree(s, drop, Elems(s) - keep);
  }

  // ----- replaying the removals, then the additions

  ghost predicate Overlays(s: ListState, base: seq<string>, added: seq<string>, removed: seq<string>) {
    s.base == base && s.added == added && s.removed == removed
  }

  lemma RunSnocRemoval(parse: Parser, s: ListState, cs: seq<string>)
    requires cs != []
    ensures Run(parse, s, Removals(cs))
            == Apply(parse, Run(parse, s, Removals(cs[..|cs| - 1])), Remove(cs[|cs| - 1])).0
  {
    assert Removals(cs)[..|cs| - 1] == Removals(cs[..|cs| - 1]);
  }

  lemma {:induction false} ReplayRemovals(parse: Parser, base: seq<string>, cs: seq<string>)
    requires AllParse(parse, base) && NoDup(cs)
    ensures Inv(parse, Run(parse, Fresh(parse, base), Removals(cs)))
    ensures Overlays(Run(parse, Fresh(parse, base), Removals(cs)), base, [], Only(cs, Elems(base)))
  {
    if cs == [] {
      FreshMeaning(parse, base);
      assert Removals(cs) == [];
    } else {
      var n := |cs| - 1;
      var front, c := cs[..n], cs[n];
      ReplayRemovals(parse, base, front);
      assert cs == front + [c];
      RunSnocRemoval(parse, Fresh(parse, base), cs);
      ReplayRemoval(parse, Run(parse, Fresh(parse, base), Removals(front)), front, c);
    }
  }

  lemma ReplayRemoval(parse: Parser, s: ListState, front: seq<string>, c: string)
    requires Inv(parse, s) && s.added == [] && s.removed == Only(front, Elems(s.base)) && c !in front
    ensures var s' := Apply(parse, s, Remove(c)).0;
            Inv(parse, s') && Overlays(s', s.base, [], Only(front + [c], Elems(s.base)))
  {
    InvMembers(parse, s);
    OnlyMeaning(front, Elems(s.base));
    OnlyAppend(front, c, Elems(s.base));
    if c in s.effective {
      var s' := RemovedState(parse, s, c);
      MinusSame([], {c});
    }
  }

  lemma RunSnocAddition(parse: Parser, s: ListState, cs: seq<string>)
    requires cs != []
    ensures Run(parse, s, Additions(cs))
            == Apply(parse, Run(parse, s, Additions(cs[..|cs| - 1])), Add(cs[|cs| - 1])).0
  {
    assert Additions(cs)[..|cs| - 1] == Additions(cs[..|cs| - 1]);
  }

  lemma {:induction false} ReplayAdditions(parse: Parser, s: ListState, cs: seq<string>)
    requires Inv(parse, s) && s.added == [] && NoDup(cs) && AllParse(parse, cs)
    requires forall c :: c in cs ==> c !in s.removed
    ensures Inv(parse, Run(parse, s, Additions(cs)))
    ensures Overlays(Run(parse, s, Additions(cs)), s.base, Minus(cs, Elems(s.base)), s.removed)
  {
    if cs == [] {
      assert Additions(cs) == [];
    } else {
      var n := |cs| - 1;
      var front, c := cs[..n], cs[n];
      assert cs == front + [c] && c in cs;
      RunSnocAddition(parse, s, cs);
      ReplayAdditions(parse, s, front);
      ReplayAddition(parse, Run(parse, s, Additions(front)), front, c);
    }
  }

  lemma ReplayAddition(parse: Parser, s: ListState, front: seq<string>, c: string)
    requires Inv(parse, s) && s.added == Minus(front, Elems(s.base))
    requires c !in front && parse(c).Some? && c !in s.removed
    ensures var s' := Apply(parse, s, Add(c)).0;
            Inv(parse, s') && Overlays(s', s.base, Minus(front + [c], Elems(s.base)), s.removed)
  {
    MinusAppend(front, c, Elems(s.base));
    AddUnlessInBase(parse, s, front, c);
    if c !in s.base {
      var s' := AddedState(parse, s, c);
      MinusSame(s.removed, {c});
    }
  }

  // A CIDR nobody added or removed so far is effective exactly if the base has it.
  lemma AddUnlessInBase(parse: Parser, s: ListState, front: seq<string>, c: string)
    requires Inv(parse, s) && s.added == Minus(front, Elems(s.base))
    requires c !in front && c !in s.removed
    ensures c in s.effective <==> c in s.base
  {
    InvMembers(parse, s);
    MinusMeaning(front, Elems(s.base));
  }

  /** Replaying leaves exactly the normal form of the saved overlay: the additions the base lacks
      and the removals the base has, in their saved order. */
  lemma ReplayNormalises(parse: Parser, base: seq<string>, s: ListState)
    requires AllParse(parse, base) && Inv(parse, s)
    ensures var r := Replay(parse, base, Save(s));
            && Inv(parse, r)
            && Overlays(r, base, NormalAdded(Save(s), base), NormalRemoved(Save(s), base))
  {
    ReplayRemovals(parse, base, s.removed);
    var mid := Run(parse, Fresh(parse, base), Removals(s.removed));
    OnlyMeaning(s.removed, Elems(base));
    ReplayAdditions(parse, mid, s.added);
    CasLoop.RunConcat(ListStep(parse), Fresh(parse, base), Removals(s.removed), Additions(s.added));
  }

  // ----- the normal form reads the same

  lemma {:induction false} CollectAgree(cs: seq<string>, r: set<string>, r': set<string>, out: seq<string>)
    requires forall c :: c in cs ==> (c in r <==> c in r')
    ensures Collect(cs, r, out) == Collect(cs, r', out)
  {
    if cs != [] {
      CollectAgree(cs[..|cs| - 1], r, r', out);
    }
  }

  // Entries that are removed or already listed contribute nothing.
  lemma {:induction false} CollectSkip(cs: seq<string>, r: set<string>, out: seq<string>, drop: set<string>)
    requires forall c :: c in cs && c in drop ==> c in r || c in out
    ensures Collect(cs, r, out) == Collect(Minus(cs, drop), r, out)
  {
    if cs != [] {
      var n := |cs| - 1;
      CollectSkip(cs[..n], r, out, drop);
      var c := cs[n];
      if c in drop {
        CollectMeaning(cs[..n], r, out);
      } else {
        var m := Minus(cs[..n], drop);
        assert (m + [c])[..|m|] == m;
      }
    }
  }

  lemma NormalFormReadsTheSame(base: seq<string>, saved: SavedList)
    requires forall c :: c in saved.added ==> c !in saved.removed
    ensures Effective(base, saved.added, saved.removed)
            == Effective(base, NormalAdded(saved, base), NormalRemoved(saved, base))
  {
    var r, r' := Elems(saved.removed), Elems(NormalRemoved(saved, base));
    OnlyMeaning(saved.removed, Elems(base));
    CollectAgree(base, r, r', []);
    var out := Collect(base, r, []);
    CollectMeaning(base, r, []);
    CollectSkip(saved.added, r, out, Elems(base));
    MinusMeaning(saved.added, Elems(base));
    CollectAgree(NormalAdded(saved, base), r, r', out);
  }

  // ----- the theorems

  /** Restart equals reload: for every reachable overlay and every base that parses, saving and
      replaying onto a fresh list over that base publishes exactly the sequence, and the matcher,
      that reloading the base in the running process publishes. */
  lemma RestartEqualsReload(parse: Parser, s: ListState, base: seq<string>)
    requires Inv(parse, s) && AllParse(parse, base)
    ensures var restarted := Replay(parse, base, Save(s));
            var (reloaded, o) := Apply(parse, s, Reload(base));
            && o == Done
            && restarted.effective == reloaded.effective
            && restarted.matcher == reloaded.matcher
  {
    ReplayNormalises(parse, base, s);
    ReloadMeaning(parse, s, base);
    NormalFormReadsTheSame(base, Save(s));
  }

  // Every entry of the overlay makes a difference over this base.
  ghost predicate Fits(s: ListState, base: seq<string>) {
    (forall c :: c in s.added ==> c !in base) && (forall c :: c in s.removed ==> c in base)
  }

  /** The overlay itself comes back unchanged exactly when no addition is in the base and every
      removal is. */
  lemma OverlayRoundTrip(parse: Parser, s: ListState, base: seq<string>)
    requires Inv(parse, s) && AllParse(parse, base)
    ensures Save(Replay(parse, base, Save(s))) == Save(s) <==> Fits(s, base)
  {
    ReplayNormalises(parse, base, s);
    MinusMeaning(s.added, Elems(base));
    OnlyMeaning(s.removed, Elems(base));
    if forall c :: c in s.added ==> c !in base {
      MinusSame(s.added, Elems(base));
    }
    if forall c :: c in s.removed ==> c in base {
      MinusSame(s.removed, Elems(s.removed) - Elems(base));
    }
  }

  /** Replay order does not matter for membership: any sequence of edits that adds only saved
      additions, removes only saved removals and mentions each of them gives the same members. */
  lemma AnyReplayOrder(parse: Parser, s: ListState, base: seq<string>, ops: seq<Op>)
    requires Inv(parse, s) && AllParse(parse, base)
    requires forall op :: op in ops ==> (op.Add? && op.cidr in s.added) || (op.Remove? && op.cidr in s.removed)
    requires forall c :: c in s.added ==> Add(c) in ops
    requires forall c :: c in s.removed ==> Remove(c) in ops
    ensures Elems(Run(parse, Fresh(parse, base), ops).effective) == Elems(Replay(parse, base, Save(s)).effective)
  {
    RestartEqualsReload(parse, s, base);
    ReloadMeaning(parse, s, base);
    FreshMeaning(parse, base);
    var fresh' := Fresh(parse, base);
    forall c
      ensures c in Run(parse, fresh', ops).effective <==> (c in base || c in s.added) && c !in s.removed
    {
      LastEditWins(parse, fresh', ops, c);
      assert c in fresh'.effective <==> c in Elems(fresh'.effective);
      ReplayLastEdit(parse, s, ops, c);
    }
    var e := Effective(base, s.added, s.removed);
    assert Elems(e) == (Elems(base) + Elems(s.added)) - Elems(s.removed);
  }

  lemma {:induction false} ReplayLastEdit(parse: Parser, s: ListState, ops: seq<Op>, c: string)
    requires Inv(parse, s)
    requires forall op :: op in ops ==> (op.Add? && op.cidr in s.added) || (op.Remove? && op.cidr in s.removed)
    ensures LastEdit(parse, ops, c) ==
            if Add(c) in ops then Some(true) else if Remove(c) in ops then Some(false) else None
  {
    if ops != [] {
      var front, op := ops[..|ops| - 1], ops[|ops| - 1];
      assert forall x :: x in ops <==> x in front || x == op;
      ReplayLastEdit(parse, s, front, c);
    }
  }

  // ----- any saved file at all

  lemma {:induction false} LastEditConcat(parse: Parser, a: seq<Op>, b: seq<Op>, c: string)
    ensures LastEdit(parse, a + b, c) ==
            if LastEdit(parse, b, c).Some? then LastEdit(parse, b, c) else LastEdit(parse, a, c)
  {
    if b == [] {
      assert a + b == a;
    } else {
      assert (a + b)[..|a + b| - 1] == a + b[..|b| - 1];
      LastEditConcat(parse, a, b[..|b| - 1], c);
    }
  }

  lemma {:induction false} LastRemoval(parse: Parser, cs: seq<string>, c: string)
    ensures LastEdit(parse, Removals(cs), c) == if c in cs then Some(false) else None
  {
    if cs != [] {
      var n := |cs| - 1;
      LastRemoval(parse, cs[..n], c);
      assert Removals(cs)[..n] == Removals(cs[..n]) && cs == cs[..n] + [cs[n]];
    }
  }

  lemma {:induction false} LastAddition(parse: Parser, cs: seq<string>, c: string)
    ensures LastEdit(parse, Additions(cs), c) == if c in cs && parse(c).Some? then Some(true) else None
  {
    if cs != [] {
      var n := |cs| - 1;
      LastAddition(parse, cs[..n], c);
      assert Additions(cs)[..n] == Additions(cs[..n]) && cs == cs[..n] + [cs[n]];
    }
  }

  // The base, less what the file removes, plus what it adds and parses.
  ghost predicate ListFrom(parse: Parser, s: ListState, base: seq<string>, saved: SavedList) {
    forall c :: c in s.effective <==> (c in saved.added && parse(c).Some?) || (c in base && c !in saved.removed)
  }

  lemma ReplayMember(parse: Parser, base: seq<string>, saved: SavedList, c: string)
    requires AllParse(parse, base)
    ensures Replay(parse, base, saved).base == base
    ensures c in Replay(parse, base, saved).effective <==>
            (c in saved.added && parse(c).Some?) || (c in base && c !in saved.removed)
  {
    var s, ops := Fresh(parse, base), ReplayOps(saved);
    FreshMeaning(parse, base);
    assert c in s.effective <==> c in Elems(s.effective);
    LastEditWins(parse, s, ops, c);
    LastEditConcat(parse, Removals(saved.removed), Additions(saved.added), c);
    LastRemoval(parse, saved.removed, c);
    LastAddition(parse, saved.added, c);
  }

  /** Replaying any file, even one no process wrote, gives a valid list whose members the base and the
      file determine; an entry the file both removes and adds is a member. */
  lemma ReplayAnyFile(parse: Parser, base: seq<string>, saved: SavedList)
    requires AllParse(parse, base)
    ensures Inv(parse, Replay(parse, base, saved)) && Replay(parse, base, saved).base == base
    ensures ListFrom(parse, Replay(parse, base, saved), base, saved)
  {
    FreshMeaning(parse, base);
    RunKeepsInv(parse, Fresh(parse, base), ReplayOps(saved));
    ReplayMember(parse, base, saved, "");
    forall c
      ensures c in Replay(parse, base, saved).effective <==>
              (c in saved.added && parse(c).Some?) || (c in base && c !in saved.removed)
    {
      ReplayMember(parse, base, saved, c);
    }
  }

  // ----- a list that was never reloaded restarts identically

  lemma {:induction false} EditsStayFit(parse: Parser, s: ListState, ops: seq<Op>)
    requires Inv(parse, s) && Fits(s, s.base) && NoReload(ops)
    ensures Fits(Run(parse, s, ops), s.base) && Run(parse, s, ops).base == s.base
  {
    if ops != [] {
      var front, op := ops[..|ops| - 1], ops[|ops| - 1];
      EditsStayFit(parse, s, front);
      RunKeepsInv(parse, s, front);
      FitStep(parse, Run(parse, s, front), op);
    }
  }

  lemma FitStep(parse: Parser, s: ListState, op: Op)
    requires Inv(parse, s) && Fits(s, s.base) && !op.Reload?
    ensures Fits(Apply(parse, s, op).0, s.base) && Apply(parse, s, op).0.base == s.base
  {
    match op
    case Add(c) =>
      if parse(c).Some? && c !in s.effective {
        var s' := AddedState(parse, s, c);
        InvMembers(parse, s);
      }
    case Remove(c) =>
      if c in s.effective {
        var s' := RemovedState(parse, s, c);
        InvMembers(parse, s);
      }
  }

  /** After any run of adds and removals since startup, a restart over the same config restores the
      very same list state. */
  lemma RestartIsIdentity(parse: Parser, base: seq<string>, ops: seq<Op>)
    requires AllParse(parse, base) && NoReload(ops)
    ensures var s := Run(parse, Fresh(parse, base), ops);
            Replay(parse, base, Save(s)) == s
  {
    var s0 := Fresh(parse, base);
    FreshMeaning(parse, base);
    EditsStayFit(parse, s0, ops);
    RunKeepsInv(parse, s0, ops);
    var s := Run(parse, s0, ops);
    OverlayRoundTrip(parse, s, base);
    ReplayNormalises(parse, base, s);
  }
}
