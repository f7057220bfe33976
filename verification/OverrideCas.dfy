/** Any number of goroutines editing the override map through the retry loops of the WAF engine. A set
    call has checked its id and action before it enters its loop. */
module OverrideCas {
  import opened Wrappers
  import opened Waf
  import opened WafEngine
  import opened CasLoop

  datatype Edit = Put(id: int, o: Override) | Clear(id: int)

  ghost function TryEdit(e: Edit, os: Overrides): Attempt<Overrides, ()> {
    match e
    case Put(id, o) => Swap(os[id := o], ())
    case Clear(id) => if id !in os then Settled(()) else Swap(os - {id}, ())
  }

  ghost function EditStep(): StepFn<Overrides, Edit, ()> {
    (e: Edit, os: Overrides) => TryEdit(e, os)
  }

  // The override that the last edit of `id` leaves.
  ghost function LastPut(os: Overrides, edits: seq<Edit>, id: int): Option<Override> {
    if edits == [] then if id in os then Some(os[id]) else None
    else
      var e := edits[|edits| - 1];
      if e.id != id then LastPut(os, edits[..|edits| - 1], id)
      else match e { case Put(_, o) => Some(o) case Clear(_) => None }
  }

  lemma {:induction false} RunEdits(os: Overrides, edits: seq<Edit>, id: int)
    ensures var os' := CasLoop.Run(EditStep(), os, edits);
            (if id in os' then Some(os'[id]) else None) == LastPut(os, edits, id)
  {
    if edits != [] {
      RunEdits(os, edits[..|edits| - 1], id);
    }
  }

  /** No override edit is lost: whatever the interleaving of sets and clears, every id ends with what
      its last committed edit left, and ids nobody edited keep their override. */
  lemma NoOverrideLost(os: Overrides, actions: seq<CasLoop.Action<Edit>>, id: int)
    ensures var s := Exec(EditStep(), Init(os), actions);
            && s.ptr < |s.heap|
            && (if id in s.heap[s.ptr] then Some(s.heap[s.ptr][id]) else None) == LastPut(os, OpsOf(s.log), id)
  {
    Linearizable(EditStep(), os, actions);
    RunEdits(os, OpsOf(Exec(EditStep(), Init(os), actions).log), id);
  }
}
