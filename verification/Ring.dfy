/** The access log's ring buffer: a fixed array that refines the history of everything added. */
module Ring {
  import opened Wrappers

  const DEFAULT_CAPACITY := 1000

  function Min(a: nat, b: nat): nat {
    if a < b then a else b
  }

  ghost predicate Wanted<T(!new)>(filter: Option<T -> bool>, e: T) {
    filter.Some? ==> filter.value(e)
  }

  // The wanted entries, newest first.
  ghost function NewestFirst<T(!new)>(history: seq<T>, filter: Option<T -> bool>): seq<T> {
    if history == [] then []
    else
      var e := history[|history| - 1];
      (if Wanted(filter, e) then [e] else []) + NewestFirst(history[..|history| - 1], filter)
  }

  ghost function Limited<T>(s: seq<T>, limit: int): seq<T> {
    if limit > 0 && limit < |s| then s[..limit] else s
  }

  lemma {:induction false} NewestFirstConcat<T(!new)>(a: seq<T>, b: seq<T>, filter: Option<T -> bool>)
    ensures NewestFirst(a + b, filter) == NewestFirst(b, filter) + NewestFirst(a, filter)
  {
    if b == [] {
      assert a + b == a;
    } else {
      var b' := b[..|b| - 1];
      assert (a + b)[..|a + b| - 1] == a + b';
      NewestFirstConcat(a, b', filter);
      var e := b[|b| - 1];
      var head := if Wanted(filter, e) then [e] else [];
      assert NewestFirst(a + b, filter) == head + (NewestFirst(b', filter) + NewestFirst(a, filter));
    }
  }

  /** The listing is the history read backwards with the unwanted entries left out: every wanted entry
      appears, nothing else does, and a later entry comes first. */
  lemma {:induction false} NewestFirstMeaning<T(!new)>(
    history: seq<T>, filter: Option<T -> bool>, a: seq<T>, e: T, b: seq<T>)
    requires history == a + [e] + b
    ensures NewestFirst(history, filter)
            == NewestFirst(b, filter) + (if Wanted(filter, e) then [e] else []) + NewestFirst(a, filter)
    ensures forall x :: x in NewestFirst(b, filter) ==> x in b && Wanted(filter, x)
  {
    NewestFirstConcat(a + [e], b, filter);
    NewestFirstConcat(a, [e], filter);
    assert [e][..0] == [];
    OnlyWanted(b, filter);
  }

  lemma {:induction false} OnlyWanted<T(!new)>(s: seq<T>, filter: Option<T -> bool>)
    ensures forall x :: x in NewestFirst(s, filter) <==> x in s && Wanted(filter, x)
  {
    if s != [] {
      OnlyWanted(s[..|s| - 1], filter);
      assert s == s[..|s| - 1] + [s[|s| - 1]];
    }
  }

  // `out` lists what stands after the k oldest entries.
  ghost predicate Listed<T(!new)>(s: seq<T>, filter: Option<T -> bool>, k: nat, out: seq<T>) {
    k <= |s| && NewestFirst(s, filter) == out + NewestFirst(s[..k], filter)
  }

  lemma ListStart<T(!new)>(s: seq<T>, filter: Option<T -> bool>)
    ensures Listed(s, filter, |s|, [])
  {
    assert s[..|s|] == s;
  }

  lemma ListNext<T(!new)>(s: seq<T>, filter: Option<T -> bool>, k: nat, e: T, out: seq<T>)
    requires 0 < k && Listed(s, filter, k, out) && e == s[k - 1]
    ensures Listed(s, filter, k - 1, out + if Wanted(filter, e) then [e] else [])
  {
    assert s[..k][..k - 1] == s[..k - 1];
  }

  lemma ListEnd<T(!new)>(s: seq<T>, filter: Option<T -> bool>, k: nat, out: seq<T>, limit: int)
    requires Listed(s, filter, k, out)
    requires (k == 0 && (limit > 0 ==> |out| < limit)) || (limit > 0 && |out| == limit)
    ensures out == Limited(NewestFirst(s, filter), limit)
  {
    assert k == 0 ==> NewestFirst(s[..k], filter) == [];
  }

  // Where the i-th newest entry sits.
  function Slot(next: nat, i: nat, cap: nat): (k: nat)
    requires next < cap && i < cap
    ensures k < cap
  {
    if i < next then next - 1 - i else next - 1 - i + cap
  }

  /** The modular index the code computes is that slot, so it is always in range. */
  method IndexOf(next: nat, i: nat, cap: nat) returns (k: nat)
    requires next < cap && i < cap
    ensures k == Slot(next, i, cap)
  {
    k := (next - 1 - i + cap) % cap;
    if i < next {
      ModShift(next - 1 - i, cap);
    }
  }

  method Advance(next: nat, cap: nat) returns (k: nat)
    requires next < cap
    ensures k == if next + 1 == cap then 0 else next + 1
  {
    k := (next + 1) % cap;
  }

  lemma ModShift(x: nat, cap: nat)
    requires x < cap
    ensures (x + cap) % cap == x
  {
    assert (x + cap) / cap == 1;
  }

  class RingBuffer<T(0, !new)> {
    var entries: array<T>
    var next: nat
    var size: nat
    ghost var history: seq<T>

    // The array holds the last `size` entries ever added, the newest just before `next`.
    ghost predicate Valid()
      reads this, entries
    {
      && next < entries.Length
      && size == Min(entries.Length, |history|)
      && forall i :: 0 <= i < size ==> entries[Slot(next, i, entries.Length)] == history[|history| - 1 - i]
    }

    // The entries still retained.
    ghost function Retained(): seq<T>
      requires Valid()
      reads this, entries
    {
      history[|history| - size..]
    }

    constructor (capacity: int)
      ensures Valid() && fresh(entries) && history == []
      ensures entries.Length == if capacity <= 0 then 1000 else capacity
    {
      entries := new T[if capacity <= 0 then DEFAULT_CAPACITY else capacity];
      next, size := 0, 0;
      history := [];
    }

    /** Adding appends to the history and forgets at most the oldest retained entry. */
    method Add(e: T)
      requires Valid()
      modifies this, entries
      ensures Valid() && entries == old(entries)
      ensures history == old(history) + [e]
    {
      var cap := entries.Length;
      ghost var n, m := next, size;
      entries[next] := e;
      next := Advance(next, cap);
      if size < cap {
        size := size + 1;
      }
      history := history + [e];
      forall i | 0 <= i < size
        ensures entries[Slot(next, i, cap)] == history[|history| - 1 - i]
      {
        if i == 0 {
          assert Slot(next, 0, cap) == n;
        } else {
          assert Slot(next, i, cap) == Slot(n, i - 1, cap) != n;
          assert old(entries[Slot(n, i - 1, cap)]) == old(history)[|old(history)| - 1 - (i - 1)];
        }
      }
    }

    // The i-th newest entry.
    method Nth(i: nat) returns (e: T)
      requires Valid() && i < size
      ensures e == Retained()[size - 1 - i]
    {
      var idx := IndexOf(next, i, entries.Length);
      e := entries[idx];
    }

    /** Newest first, filtered, cut at a positive limit: exactly the reading of the last
        min(capacity, adds) entries of the history. */
    method Recent(limit: int, filter: Option<T -> bool>) returns (out: seq<T>)
      requires Valid()
      ensures out == Limited(NewestFirst(Retained(), filter), limit)
    {
      out := [];
      ghost var kept := Retained();
      ListStart(kept, filter);
      for i := 0 to size
        invariant kept == Retained() && Listed(kept, filter, size - i, out)
        invariant limit > 0 ==> |out| < limit
      {
        var e := Nth(i);
        ghost var k := size - i;
        ListNext(kept, filter, k, e, out);
        if filter.Some? && !filter.value(e) {
          assert out + [] == out;
          continue;
        }
        out := out + [e];
        if limit > 0 && |out| >= limit {
          ListEnd(kept, filter, k - 1, out, limit);
          return;
        }
      }
      ListEnd(kept, filter, 0, out, limit);
    }
  }
}
