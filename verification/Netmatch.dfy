/** CIDR matching: the linear prefix scan, the sorted and merged range set with binary search, and
    the proof that callers cannot tell them apart. */
module Netmatch {
  import opened Wrappers

  // List size up to which the linear scan is used.
  const RADIX_THRESHOLD := 16

  function Pow2(n: nat): (p: nat)
    ensures p > 0
  {
    if n == 0 then 1 else 2 * Pow2(n - 1)
  }

  function Width(v6: bool): nat {
    if v6 then 128 else 32
  }

  // A zoneless IP address: its family and its bits as a number.
  datatype Addr = Addr(v6: bool, value: nat)

  datatype RawPrefix = RawPrefix(addr: Addr, bits: nat)

  // An address and the number of leading bits that count (section 3.1 of RFC 4632).
  type Prefix = p: RawPrefix | p.bits <= Width(p.addr.v6) witness RawPrefix(Addr(false, 0), 0)

  type Parser = string -> Option<Prefix>

  // Number of addresses under the prefix.
  function BlockSize(p: Prefix): (b: nat)
    ensures b > 0
  {
    Pow2(Width(p.addr.v6) - p.bits)
  }

  // Same family, and the leading bits agree.
  predicate PrefixContains(p: Prefix, ip: Addr) {
    p.addr.v6 == ip.v6 && ip.value / BlockSize(p) == p.addr.value / BlockSize(p)
  }

  // ----- ranges

  // Inclusive range of addresses of one family.
  datatype Range = Range(v6: bool, lo: int, hi: int) {
    predicate Contains(ip: Addr) {
      v6 == ip.v6 && lo <= ip.value <= hi
    }
  }

  // Address order: every IPv4 address comes before every IPv6 address.
  predicate KeyLess(v6: bool, value: int, v6': bool, value': int) {
    (!v6 && v6') || (v6 == v6' && value < value')
  }

  predicate StartsNoLater(a: Range, b: Range) {
    !KeyLess(b.v6, b.lo, a.v6, a.lo)
  }

  predicate EndsBefore(a: Range, b: Range) {
    KeyLess(a.v6, a.hi, b.v6, b.lo)
  }

  function RangeOf(p: Prefix): (r: Range)
    ensures r.lo <= r.hi
  {
    var first := p.addr.value / BlockSize(p) * BlockSize(p);
    Range(p.addr.v6, first, first + BlockSize(p) - 1)
  }

  lemma SameBlock(x: int, y: int, d: int)
    requires d > 0
    ensures x / d == y / d <==> y / d * d <= x < y / d * d + d
  {
    var q := y / d;
    assert x == x / d * d + x % d;
    if x / d < q {
      MulOrder(x / d + 1, q, d);
    } else if x / d > q {
      MulOrder(q + 1, x / d, d);
    }
  }

  lemma MulOrder(a: int, b: int, d: int)
    requires a <= b && d > 0
    ensures a * d <= b * d
  {
  }

  lemma QuotientIs(x: int, n: int, a: int, rest: int)
    requires n > 0 && x == a * n + rest && 0 <= rest < n
    ensures x / n == a
  {
    var e, m := x / n, x % n;
    assert x == e * n + m && (a - e) * n == m - rest && (e - a) * n == rest - m;
    if a > e {
      MulOrder(1, a - e, n);
    } else if e > a {
      MulOrder(1, e - a, n);
    }
  }

  // A number shifted right by `k` bits.
  ghost function Halved(x: nat, k: nat): nat {
    if k == 0 then x else Halved(x / 2, k - 1)
  }

  lemma Quotients(x: int, d: int)
    requires d > 0
    ensures x == x / d * d + x % d && 0 <= x % d < d
  {
  }

  lemma TwiceAsMany(x: int, h: int, low: int, q: int, d: int, rest: int)
    requires x == 2 * h + low && h == q * d + rest && 0 <= low < 2 && 0 <= rest < d
    ensures x == q * (2 * d) + (2 * rest + low) && 0 <= 2 * rest + low < 2 * d
  {
    assert q * (2 * d) == 2 * (q * d);
  }

  lemma {:induction false} HalvedIsQuotient(x: nat, k: nat)
    ensures Halved(x, k) == x / Pow2(k)
  {
    if k > 0 {
      HalvedIsQuotient(x / 2, k - 1);
      var d, h := Pow2(k - 1), x / 2;
      Quotients(h, d);
      TwiceAsMany(x, h, x % 2, h / d, d, h % d);
      QuotientIs(x, 2 * d, h / d, 2 * (h % d) + x % 2);
    }
  }

  // The network of the prefix, read bit by bit: the addresses agree once the bits past the prefix length
  // are shifted out.
  ghost predicate SameNetwork(p: Prefix, ip: Addr) {
    && p.addr.v6 == ip.v6
    && var past := (if ip.v6 then 128 else 32) - p.bits; Halved(ip.value, past) == Halved(p.addr.value, past)
  }

  /** The arithmetic test is that bit test. */
  lemma PrefixContainsMeaning(p: Prefix, ip: Addr)
    ensures PrefixContains(p, ip) <==> SameNetwork(p, ip)
  {
    if p.addr.v6 == ip.v6 {
      HalvedIsQuotient(ip.value, Width(ip.v6) - p.bits);
      HalvedIsQuotient(p.addr.value, Width(ip.v6) - p.bits);
    }
  }

  /** The range of a prefix holds exactly the addresses of its network. */
  lemma RangeOfMeaning(p: Prefix, ip: Addr)
    ensures RangeOf(p).Contains(ip) <==> PrefixContains(p, ip)
    ensures RangeOf(p).Contains(ip) <==> SameNetwork(p, ip)
  {
    SameBlock(ip.value, p.addr.value, BlockSize(p));
    PrefixContainsMeaning(p, ip);
  }

  ghost predicate InRanges(rs: seq<Range>, ip: Addr) {
    exists r :: r in rs && r.Contains(ip)
  }

  ghost predicate AllProper(rs: seq<Range>) {
    forall r :: r in rs ==> r.lo <= r.hi
  }

  ghost predicate SortedByStart(rs: seq<Range>) {
    forall i, j :: 0 <= i < j < |rs| ==> StartsNoLater(rs[i], rs[j])
  }

  // What the range set promises: proper ranges, in order, none overlapping another.
  ghost predicate Normal(rs: seq<Range>) {
    AllProper(rs) && forall i, j :: 0 <= i < j < |rs| ==> EndsBefore(rs[i], rs[j])
  }

  function Insert(r: Range, rs: seq<Range>): (out: seq<Range>)
    ensures forall x :: x in out <==> x == r || x in rs
  {
    if rs == [] || StartsNoLater(r, rs[0]) then [r] + rs
    else
      var rest := Insert(r, rs[1..]);
      assert forall x :: x in rs <==> x == rs[0] || x in rs[1..];
      [rs[0]] + rest
  }

  lemma {:induction false} InsertSorted(r: Range, rs: seq<Range>)
    requires SortedByStart(rs)
    ensures SortedByStart(Insert(r, rs))
  {
    if rs == [] || StartsNoLater(r, rs[0]) {
    } else {
      InsertSorted(r, rs[1..]);
      var rest := Insert(r, rs[1..]);
      forall x | x in rest
        ensures StartsNoLater(rs[0], x)
      {
      }
    }
  }

  function Sort(rs: seq<Range>): (out: seq<Range>)
    ensures forall x :: x in out <==> x in rs
  {
    if rs == [] then []
    else
      assert forall x :: x in rs <==> x == rs[0] || x in rs[1..];
      Insert(rs[0], Sort(rs[1..]))
  }

  lemma {:induction false} SortSorts(rs: seq<Range>)
    ensures SortedByStart(Sort(rs))
  {
    if rs != [] {
      SortSorts(rs[1..]);
      InsertSorted(rs[0], Sort(rs[1..]));
    }
  }

  // One step of the merge loop: `r` starts no earlier than anything already in `out`.
  function MergeInto(out: seq<Range>, r: Range): (res: seq<Range>) {
    if out == [] then [r]
    else
      var last := out[|out| - 1];
      if last.v6 == r.v6 && r.lo <= last.hi + 1 then
        out[|out| - 1 := Range(last.v6, last.lo, if last.hi < r.hi then r.hi else last.hi)]
      else out + [r]
  }

  function MergeSorted(rs: seq<Range>): (res: seq<Range>) {
    if rs == [] then [] else MergeInto(MergeSorted(rs[..|rs| - 1]), rs[|rs| - 1])
  }

  lemma MergeIntoKeeps(out: seq<Range>, r: Range)
    requires Normal(out) && r.lo <= r.hi
    requires forall x :: x in out ==> StartsNoLater(x, r)
    ensures Normal(MergeInto(out, r))
    ensures forall x :: x in MergeInto(out, r) ==> StartsNoLater(x, r)
    ensures forall ip: Addr :: InRanges(MergeInto(out, r), ip) <==> InRanges(out, ip) || r.Contains(ip)
  {
    var res := MergeInto(out, r);
    if out != [] {
      var n := |out| - 1;
      assert out[n] in out;
      forall i | 0 <= i < n
        ensures EndsBefore(out[i], res[n])
      {
        assert EndsBefore(out[i], out[n]);
      }
      if |res| == |out| {
        assert forall x :: x in res ==> x in out || x == res[n];
      } else {
        assert forall i :: 0 <= i <= n ==> EndsBefore(res[i], res[n + 1]);
        assert forall x :: x in res ==> x in out || x == r;
      }
    }
    forall ip: Addr
      ensures InRanges(res, ip) <==> InRanges(out, ip) || r.Contains(ip)
    {
      MergeIntoMembers(out, r, ip);
    }
  }

  lemma MergeIntoMembers(out: seq<Range>, r: Range, ip: Addr)
    requires Normal(out) && r.lo <= r.hi
    requires forall x :: x in out ==> StartsNoLater(x, r)
    ensures InRanges(MergeInto(out, r), ip) <==> InRanges(out, ip) || r.Contains(ip)
  {
    var res := MergeInto(out, r);
    if out != [] {
      var n := |out| - 1;
      var last := out[n];
      if |res| == |out| {
        assert last in out && StartsNoLater(last, r);
        assert res[n].Contains(ip) <==> last.Contains(ip) || r.Contains(ip);
        assert res[n] in res && last in out;
        assert forall i :: 0 <= i < n ==> res[i] == out[i];
        if InRanges(out, ip) {
          var x :| x in out && x.Contains(ip);
          var i :| 0 <= i < |out| && out[i] == x;
          assert res[i] in res && res[i].Contains(ip);
        }
        if InRanges(res, ip) {
          var x :| x in res && x.Contains(ip);
          var i :| 0 <= i < |res| && res[i] == x;
          assert i < n ==> out[i] in out;
        }
      } else {
        assert res == out + [r];
        assert forall x :: x in res <==> x in out || x == r;
      }
    } else {
      assert res == [r] && r in res;
    }
  }

  /** Merging a sorted list keeps every covered address, adds none, and leaves disjoint ordered
      ranges. */
  lemma {:induction false} MergeSortedMeaning(rs: seq<Range>)
    requires SortedByStart(rs) && AllProper(rs)
    ensures Normal(MergeSorted(rs))
    ensures rs != [] ==> forall x :: x in MergeSorted(rs) ==> StartsNoLater(x, rs[|rs| - 1])
    ensures forall ip: Addr :: InRanges(MergeSorted(rs), ip) <==> InRanges(rs, ip)
  {
    if rs != [] {
      var n := |rs| - 1;
      var front := rs[..n];
      MergeSortedMeaning(front);
      var out := MergeSorted(front);
      forall x | x in out
        ensures StartsNoLater(x, rs[n])
      {
        assert front != [];
        assert StartsNoLater(front[n - 1], rs[n]);
      }
      MergeIntoKeeps(out, rs[n]);
      assert forall x :: x in rs <==> x in front || x == rs[n];
    }
  }

  // ----- matchers

  datatype Matcher = Linear(prefixes: seq<Prefix>) | RangeSet(ranges: seq<Range>) {
    ghost predicate Valid() {
      RangeSet? ==> Normal(ranges)
    }

    ghost predicate Covers(ip: Addr) {
      match this
      case Linear(ps) => exists p :: p in ps && PrefixContains(p, ip)
      case RangeSet(rs) => InRanges(rs, ip)
    }
  }

  function RangesOf(ps: seq<Prefix>): (rs: seq<Range>)
    ensures |rs| == |ps| && forall i :: 0 <= i < |ps| ==> rs[i] == RangeOf(ps[i])
  {
    seq(|ps|, i requires 0 <= i < |ps| => RangeOf(ps[i]))
  }

  function BuildRangeSet(ps: seq<Prefix>): (m: Matcher) {
    RangeSet(MergeSorted(Sort(RangesOf(ps))))
  }

  /** The range set built from any list of prefixes answers every address as the linear scan. */
  lemma ThresholdUnobservable(ps: seq<Prefix>)
    ensures BuildRangeSet(ps).Valid()
    ensures forall ip: Addr :: BuildRangeSet(ps).Covers(ip) <==> Linear(ps).Covers(ip)
  {
    var rs := RangesOf(ps);
    SortSorts(rs);
    MergeSortedMeaning(Sort(rs));
    forall ip: Addr
      ensures InRanges(rs, ip) <==> Linear(ps).Covers(ip)
    {
      if InRanges(rs, ip) {
        var r :| r in rs && r.Contains(ip);
        var i :| 0 <= i < |rs| && rs[i] == r;
        RangeOfMeaning(ps[i], ip);
        assert ps[i] in ps;
      }
      if Linear(ps).Covers(ip) {
        var p :| p in ps && PrefixContains(p, ip);
        var i :| 0 <= i < |ps| && ps[i] == p;
        RangeOfMeaning(p, ip);
        assert rs[i] in rs;
      }
    }
  }

  function ParseAll(parse: Parser, cidrs: seq<string>): (r: Option<seq<Prefix>>)
    ensures r.Some? ==> |r.value| == |cidrs|
  {
    if cidrs == [] then Some([])
    else
      var n := |cidrs| - 1;
      var front := ParseAll(parse, cidrs[..n]);
      if front.None? || parse(cidrs[n]).None? then None else Some(front.value + [parse(cidrs[n]).value])
  }

  ghost predicate AllParse(parse: Parser, cidrs: seq<string>) {
    forall c :: c in cidrs ==> parse(c).Some?
  }

  lemma {:induction false} ParseAllMeaning(parse: Parser, cidrs: seq<string>)
    ensures ParseAll(parse, cidrs).Some? <==> AllParse(parse, cidrs)
    ensures ParseAll(parse, cidrs).Some? ==>
              forall i :: 0 <= i < |cidrs| ==> parse(cidrs[i]) == Some(ParseAll(parse, cidrs).value[i])
  {
    if cidrs != [] {
      var n := |cidrs| - 1;
      ParseAllMeaning(parse, cidrs[..n]);
      assert forall c :: c in cidrs <==> c in cidrs[..n] || c == cidrs[n];
    }
  }

  function Build(parse: Parser, cidrs: seq<string>): (m: Option<Matcher>) {
    var ps := ParseAll(parse, cidrs);
    if ps.None? then None
    else if |ps.value| <= RADIX_THRESHOLD then Some(Linear(ps.value))
    else Some(BuildRangeSet(ps.value))
  }

  // Some listed CIDR contains the address: the meaning of a matcher, with no data structure in it.
  ghost predicate ListCovers(parse: Parser, cidrs: seq<string>, ip: Addr) {
    exists c :: c in cidrs && parse(c).Some? && SameNetwork(parse(c).value, ip)
  }

  /** Building succeeds exactly on lists that parse, and the matcher, whichever form it takes,
      answers every address as the listed CIDRs do. */
  lemma BuildMeaning(parse: Parser, cidrs: seq<string>)
    ensures Build(parse, cidrs).Some? <==> AllParse(parse, cidrs)
    ensures Build(parse, cidrs).Some? ==>
              && Build(parse, cidrs).value.Valid()
              && forall ip: Addr :: Build(parse, cidrs).value.Covers(ip) <==> ListCovers(parse, cidrs, ip)
  {
    ParseAllMeaning(parse, cidrs);
    var parsed := ParseAll(parse, cidrs);
    if parsed.Some? {
      var ps := parsed.value;
      ThresholdUnobservable(ps);
      forall ip: Addr
        ensures Linear(ps).Covers(ip) <==> ListCovers(parse, cidrs, ip)
      {
        if Linear(ps).Covers(ip) {
          var p :| p in ps && PrefixContains(p, ip);
          var i :| 0 <= i < |ps| && ps[i] == p;
          PrefixContainsMeaning(p, ip);
          assert cidrs[i] in cidrs;
        }
        if ListCovers(parse, cidrs, ip) {
          var c :| c in cidrs && parse(c).Some? && SameNetwork(parse(c).value, ip);
          PrefixContainsMeaning(parse(c).value, ip);
          var i :| 0 <= i < |cidrs| && cidrs[i] == c;
          assert ps[i] in ps;
        }
      }
    }
  }

  // ----- the searches and the constructor, as the source runs them

  method LinearContains(prefixes: seq<Prefix>, ip: Addr) returns (found: bool)
    ensures found <==> Linear(prefixes).Covers(ip)
    ensures found <==> exists p :: p in prefixes && SameNetwork(p, ip)
  {
    for i := 0 to |prefixes|
      invariant forall k :: 0 <= k < i ==> !PrefixContains(prefixes[k], ip)
      invariant forall k :: 0 <= k < i ==> !SameNetwork(prefixes[k], ip)
    {
      PrefixContainsMeaning(prefixes[i], ip);
      if PrefixContains(prefixes[i], ip) {
        return true;
      }
    }
    found := false;
  }

  /** Binary search for the last range that starts no later than `ip`. */
  method RangeSetContains(ranges: seq<Range>, ip: Addr) returns (found: bool)
    requires Normal(ranges)
    ensures found <==> InRanges(ranges, ip)
  {
    var lo, hi := 0, |ranges|;
    while lo < hi
      invariant 0 <= lo <= hi <= |ranges|
      invariant forall k :: 0 <= k < lo ==> !KeyLess(ip.v6, ip.value, ranges[k].v6, ranges[k].lo)
      invariant forall k :: hi <= k < |ranges| ==> KeyLess(ip.v6, ip.value, ranges[k].v6, ranges[k].lo)
    {
      var mid := (lo + hi) / 2;
      assert ranges[mid] in ranges;
      if KeyLess(ip.v6, ip.value, ranges[mid].v6, ranges[mid].lo) {
        forall k | mid <= k < |ranges|
          ensures KeyLess(ip.v6, ip.value, ranges[k].v6, ranges[k].lo)
        {
          assert mid < k ==> EndsBefore(ranges[mid], ranges[k]);
        }
        hi := mid;
      } else {
        forall k | 0 <= k < mid + 1
          ensures !KeyLess(ip.v6, ip.value, ranges[k].v6, ranges[k].lo)
        {
          assert ranges[k] in ranges;
          assert k < mid ==> EndsBefore(ranges[k], ranges[mid]);
        }
        lo := mid + 1;
      }
    }
    if lo == 0 {
      return false;
    }
    found := ranges[lo - 1].Contains(ip);
    assert ranges[lo - 1] in ranges;
    assert forall k :: 0 <= k < lo - 1 ==> EndsBefore(ranges[k], ranges[lo - 1]);
  }

  method Contains(m: Matcher, ip: Addr) returns (found: bool)
    requires m.Valid()
    ensures found <==> m.Covers(ip)
  {
    match m
    case Linear(ps) => found := LinearContains(ps, ip);
    case RangeSet(rs) => found := RangeSetContains(rs, ip);
  }

  /** Answers as the list reads: parse everything, then pick the form by size. */
  method NewMatcher(parse: Parser, cidrs: seq<string>) returns (m: Option<Matcher>)
    ensures m == Build(parse, cidrs)
    ensures m.Some? <==> AllParse(parse, cidrs)
    ensures m.Some? ==> m.value.Valid() && forall ip: Addr :: m.value.Covers(ip) <==> ListCovers(parse, cidrs, ip)
  {
    BuildMeaning(parse, cidrs);
    ParseAllMeaning(parse, cidrs);
    var prefixes: seq<Prefix> := [];
    for i := 0 to |cidrs|
      invariant ParseAll(parse, cidrs[..i]) == Some(prefixes)
    {
      var p := parse(cidrs[i]);
      if p.None? {
        assert cidrs[i] in cidrs;
        return None;
      }
      assert cidrs[..i + 1][..i] == cidrs[..i];
      prefixes := prefixes + [p.value];
    }
    assert cidrs[..|cidrs|] == cidrs;
    if |prefixes| <= RADIX_THRESHOLD {
      return Some(Linear(prefixes));
    }
    m := Some(BuildRangeSet(prefixes));
  }
}
