/** Any number of goroutines editing one IP list through the retry loops of the IP filter. */
module OverlayCas {
  import opened Wrappers
  import opened Netmatch
  import opened Overlay
  import opened CasLoop

  type ListSys = Sys<ListState, Op, Outcome>

  ghost function ListExec(parse: Parser, init: ListState, actions: seq<Action<Op>>): ListSys {
    Exec(ListStep(parse), Init(init), actions)
  }

  /** After any interleaving of any goroutines' adds, removals and reloads, the published list and
      every returned outcome are those of running the committed calls one at a time in commit order,
      and the list invariant holds. */
  lemma ListLinearizable(parse: Parser, init: ListState, actions: seq<Action<Op>>)
    requires Inv(parse, init)
    ensures var s := ListExec(parse, init, actions);
            && s.ptr < |s.heap|
            && s.heap[s.ptr] == Overlay.Run(parse, init, OpsOf(s.log)) && Inv(parse, s.heap[s.ptr])
            && forall i :: 0 <= i < |s.log| ==>
                 Overlay.Apply(parse, Overlay.Run(parse, init, OpsOf(s.log[..i])), s.log[i].op).1 == s.log[i].outcome
  {
    Linearizable(ListStep(parse), init, actions);
    var s := ListExec(parse, init, actions);
    RunKeepsInv(parse, init, OpsOf(s.log));
  }

  /** No edit is lost, whatever the interleaving and however many reloads race it: a CIDR's membership
      and its places in the layers are what its own committed edits and the committed reloads, in commit
      order, make of them. While no reload has committed, its last committed edit decides. */
  lemma NoEditLost(parse: Parser, init: ListState, actions: seq<Action<Op>>, c: string)
    requires Inv(parse, init)
    ensures var s := ListExec(parse, init, actions);
            var m := MarkAfter(parse, MarkOf(init, c), Concerning(OpsOf(s.log), c), c);
            && s.ptr < |s.heap|
            && MarkOf(s.heap[s.ptr], c) == m && (c in s.heap[s.ptr].effective <==> m.Listed())
            && (NoReload(OpsOf(s.log)) ==>
                  (c in s.heap[s.ptr].effective <==>
                   match LastEdit(parse, OpsOf(s.log), c) {
                     case Some(present) => present
                     case None => c in init.effective
                   }))
  {
    ListLinearizable(parse, init, actions);
    var ops := OpsOf(ListExec(parse, init, actions).log);
    MarksDecide(parse, init, ops, c);
    ConcerningMark(parse, MarkOf(init, c), ops, c);
    if NoReload(ops) {
      LastEditWins(parse, init, ops, c);
    }
  }

  // The calls committed after the i-th, and the list as the i-th found it.
  ghost function Later(log: seq<Commit<Op, Outcome>>, i: nat): seq<Op>
    requires i < |log|
  {
    OpsOf(log[i + 1..])
  }

  ghost function Found(parse: Parser, init: ListState, log: seq<Commit<Op, Outcome>>, i: nat): ListState
    requires i <= |log|
  {
    Overlay.Run(parse, init, OpsOf(log[..i]))
  }

  lemma LaterCalls(log: seq<Commit<Op, Outcome>>, i: nat)
    requires i < |log|
    ensures OpsOf(log) == OpsOf(log[..i + 1]) + Later(log, i)
  {
    assert log == log[..i + 1] + log[i + 1..];
  }

  lemma RunFrom(parse: Parser, init: ListState, log: seq<Commit<Op, Outcome>>, i: nat)
    requires i < |log| && Inv(parse, init)
    ensures Inv(parse, Found(parse, init, log, i))
    ensures Overlay.Run(parse, init, OpsOf(log))
            == Overlay.Run(parse, Overlay.Apply(parse, Found(parse, init, log, i), log[i].op).0, Later(log, i))
  {
    RunKeepsInv(parse, init, OpsOf(log[..i]));
    NextState(parse, init, log, i);
    LaterCalls(log, i);
    CasLoop.RunConcat(ListStep(parse), init, OpsOf(log[..i + 1]), Later(log, i));
  }

  /** A committed edit that nobody commits another edit of its CIDR over stands against every interleaving
      of later edits and reloads: an add whose CIDR the overlay records, and a removal that it records. */
  lemma CommittedEditStands(parse: Parser, init: ListState, actions: seq<Action<Op>>, i: nat, c: string)
    requires Inv(parse, init) && i < |ListExec(parse, init, actions).log|
    requires Spares(Later(ListExec(parse, init, actions).log, i), c)
    ensures var s := ListExec(parse, init, actions);
            var found := Found(parse, init, s.log, i);
            && s.ptr < |s.heap|
            && (s.log[i].op == Add(c) && parse(c).Some? && (c in found.added || c !in found.base) ==>
                  c in s.heap[s.ptr].effective)
            && (s.log[i].op == Remove(c) && (c in found.removed || (c in found.effective && c in found.base)) ==>
                  c !in s.heap[s.ptr].effective)
  {
    ListLinearizable(parse, init, actions);
    var log := ListExec(parse, init, actions).log;
    RunFrom(parse, init, log, i);
    if log[i].op == Add(c) && parse(c).Some? {
      AddSurvivesReload(parse, Found(parse, init, log, i), c);
    } else if log[i].op == Remove(c) {
      RemoveSurvivesReload(parse, Found(parse, init, log, i), c);
    }
  }

  /** A reload never clobbers an edit: whatever the interleaving, the overlay it leaves is the one
      that was live when it committed. */
  lemma ReloadNeverClobbers(parse: Parser, init: ListState, actions: seq<Action<Op>>, i: nat)
    requires Inv(parse, init)
    requires i < |ListExec(parse, init, actions).log| && ListExec(parse, init, actions).log[i].op.Reload?
    ensures var log := ListExec(parse, init, actions).log;
            var before, after := Found(parse, init, log, i), Found(parse, init, log, i + 1);
            && after.added == before.added && after.removed == before.removed
            && (log[i].outcome == Done ==> after.base == log[i].op.base)
  {
    ListLinearizable(parse, init, actions);
    var log := ListExec(parse, init, actions).log;
    var before := Found(parse, init, log, i);
    RunKeepsInv(parse, init, OpsOf(log[..i]));
    NextState(parse, init, log, i);
    ReloadKeepsOverlay(parse, before, log[i].op);
  }

  lemma NextState(parse: Parser, init: ListState, log: seq<Commit<Op, Outcome>>, i: nat)
    requires i < |log|
    ensures Overlay.Run(parse, init, OpsOf(log[..i + 1]))
            == Overlay.Apply(parse, Overlay.Run(parse, init, OpsOf(log[..i])), log[i].op).0
  {
    var ops := OpsOf(log[..i + 1]);
    assert ops[..|ops| - 1] == OpsOf(log[..i]);
  }

  lemma ReloadKeepsOverlay(parse: Parser, s: ListState, op: Op)
    requires Inv(parse, s) && op.Reload?
    ensures var (s', o) := Overlay.Apply(parse, s, op);
            s'.added == s.added && s'.removed == s.removed && (o == Done ==> s'.base == op.base)
  {
    ReloadMeaning(parse, s, op.base);
  }

  /** An add that nobody interferes with, from any reachable state, returns in one turn with its CIDR listed,
      and a removal with its CIDR gone; neither touches any other CIDR. */
  lemma EditAlone(parse: Parser, init: ListState, actions: seq<Action<Op>>, t: Tid, op: Op, c: string)
    requires Inv(parse, init) && !op.Reload? && (op.Add? ==> parse(op.cidr).Some?)
    requires G(ListExec(parse, init, actions), t).pc.Idle?
    ensures var s := ListExec(parse, init, actions);
            var s' := Exec(ListStep(parse), s, [Invoke(t, op), Load(t), Cas(t), Return(t)]);
            && s.ptr < |s.heap| && s'.ptr < |s'.heap| && G(s', t).pc.Idle? && |s'.log| == |s.log| + 1
            && (c in s'.heap[s'.ptr].effective <==> if c == op.cidr then op.Add? else c in s.heap[s.ptr].effective)
  {
    ListLinearizable(parse, init, actions);
    var s := ListExec(parse, init, actions);
    CallAlone(ListStep(parse), init, actions, t, op);
    EditStep(parse, s.heap[s.ptr], op, c);
  }
}
