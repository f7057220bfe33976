/** The limiter as the source stores it: 32 maps selected by an FNV-1a hash of the address, refining
    the single map of `TokenBucket`. */
module ShardedLimiter {
  import opened Word
  import opened Netmatch
  import opened TokenBucket

  const NUM_SHARDS := 32
  const FNV_OFFSET := 2166136261
  const FNV_PRIME := 16777619

  // The address in network byte order, 4 or 16 bytes.
  function AsSlice(ip: Addr): (bytes: seq<nat>)
    ensures |bytes| == if ip.v6 then 16 else 4
  {
    BigEndian(ip.value, Width(ip.v6) / 8)
  }

  function BigEndian(v: nat, n: nat): (bytes: seq<nat>)
    ensures |bytes| == n
  {
    seq(n, i requires 0 <= i < n => v / Pow2(8 * (n - 1 - i)) % 256)
  }

  function FromBytes(bytes: seq<nat>): nat {
    if bytes == [] then 0 else FromBytes(bytes[..|bytes| - 1]) * 256 + bytes[|bytes| - 1]
  }

  // Dividing by 256 d is dividing by d and dropping a byte.
  lemma ByteStep(x: nat, d: nat)
    requires d > 0
    ensures x / d == x / (256 * d) * 256 + x / d % 256
  {
    var q, r := x / d, x % d;
    Regroup(x, d, q, r, q / 256, q % 256);
    QuotientIs(x, 256 * d, q / 256, q % 256 * d + r);
  }

  lemma Regroup(x: int, d: int, q: int, r: int, a: int, b: int)
    requires x == q * d + r && 0 <= r < d && q == 256 * a + b && 0 <= b < 256
    ensures x == a * (256 * d) + (b * d + r) && 0 <= b * d + r < 256 * d
  {
    MulOrder(b, 255, d);
    MulOrder(0, b, d);
    assert q * d == 256 * a * d + b * d;
  }

  lemma {:induction false} LeadingBytes(v: nat, n: nat, k: nat)
    requires k <= n && v < Pow2(8 * n)
    ensures FromBytes(BigEndian(v, n)[..k]) == v / Pow2(8 * (n - k))
  {
    var bytes := BigEndian(v, n);
    if k == 0 {
      QuotientIs(v, Pow2(8 * n), 0, v);
    } else {
      LeadingBytes(v, n, k - 1);
      assert bytes[..k][..k - 1] == bytes[..k - 1];
      var m := 8 * (n - k);
      Pow2Byte(m);
      assert 8 * (n - (k - 1)) == m + 8;
      ByteStep(v, Pow2(m));
    }
  }

  lemma Pow2Byte(m: nat)
    ensures Pow2(m + 8) == 256 * Pow2(m)
  {
    assert Pow2(m + 8) == 2 * Pow2(m + 7) && Pow2(m + 7) == 2 * Pow2(m + 6) && Pow2(m + 6) == 2 * Pow2(m + 5);
    assert Pow2(m + 5) == 2 * Pow2(m + 4) && Pow2(m + 4) == 2 * Pow2(m + 3) && Pow2(m + 3) == 2 * Pow2(m + 2);
    assert Pow2(m + 2) == 2 * Pow2(m + 1);
  }

  /** The bytes are the address: reading them back gives its value. */
  lemma SliceRoundTrip(ip: Addr)
    requires ip.value < Pow2(Width(ip.v6))
    ensures FromBytes(AsSlice(ip)) == ip.value
  {
    var n := Width(ip.v6) / 8;
    LeadingBytes(ip.value, n, n);
    assert AsSlice(ip)[..n] == AsSlice(ip) && Pow2(0) == 1;
  }

  // Bitwise exclusive or of the low `bits` bits.
  function Xor(a: nat, b: nat, bits: nat): nat {
    if bits == 0 then 0 else (if a % 2 == b % 2 then 0 else 1) + 2 * Xor(a / 2, b / 2, bits - 1)
  }

  /** Exclusive or stays within its bits, does not care for order, and undoes itself. */
  lemma {:induction false} XorMeaning(a: nat, b: nat, bits: nat)
    requires a < Pow2(bits) && b < Pow2(bits)
    ensures Xor(a, b, bits) < Pow2(bits)
    ensures Xor(a, b, bits) == Xor(b, a, bits)
    ensures Xor(Xor(a, b, bits), b, bits) == a
  {
    if bits > 0 {
      XorMeaning(a / 2, b / 2, bits - 1);
      var x := Xor(a, b, bits);
      assert x / 2 == Xor(a / 2, b / 2, bits - 1) && x % 2 == if a % 2 == b % 2 then 0 else 1;
    }
  }

  /** Bit by bit: a bit of the result is set exactly when the two numbers differ in it. */
  lemma {:induction false} XorBits(a: nat, b: nat, bits: nat, i: nat)
    requires i < bits
    ensures Halved(Xor(a, b, bits), i) % 2 == 1 <==> Halved(a, i) % 2 != Halved(b, i) % 2
  {
    var x := Xor(a, b, bits);
    assert x / 2 == Xor(a / 2, b / 2, bits - 1) && x % 2 == if a % 2 == b % 2 then 0 else 1;
    if i > 0 {
      XorBits(a / 2, b / 2, bits - 1, i - 1);
    }
  }

  // One round of FNV-1a in uint32: exclusive-or the byte into the low bits, then multiply and wrap.
  function FnvRound(h: nat, b: nat): nat {
    Mixed(h, b) * FNV_PRIME % TWO_32
  }

  function Fnv(bytes: seq<nat>): nat {
    if bytes == [] then FNV_OFFSET else FnvRound(Fnv(bytes[..|bytes| - 1]), bytes[|bytes| - 1])
  }

  /** The 32-bit parameters of FNV-1a: the hash starts at 2166136261, and each byte is exclusive-ored into the
      low byte before the multiplication by 16777619. */
  lemma FnvOutright(bytes: seq<nat>, b: nat)
    ensures Fnv([]) == 2166136261
    ensures var h := Fnv(bytes); var low := Xor(h % 256, b, 8);
            Fnv(bytes + [b]) == (h - h % 256 + low) * 16777619 % 0x1_0000_0000
  {
    assert (bytes + [b])[..|bytes|] == bytes;
  }

  // The multiplicative inverse of the prime modulo 2^32.
  const FNV_INVERSE := 899433627

  // The value that a round multiplies.
  function Mixed(h: nat, b: nat): nat {
    h - h % 256 + Xor(h % 256, b, 8)
  }

  function Unmultiplied(h: nat): nat {
    h * FNV_INVERSE % TWO_32
  }

  lemma RemainderOf(y: int, j: int)
    requires 0 <= y < TWO_32
    ensures (y + TWO_32 * j) % TWO_32 == y
  {
  }

  lemma MultiplyUndone(y: nat)
    requires y < TWO_32
    ensures Unmultiplied(y * FNV_PRIME % TWO_32) == y
  {
    var k := y * FNV_PRIME / TWO_32;
    assert FNV_PRIME * FNV_INVERSE == 1 + TWO_32 * 3513497;
    assert (y * FNV_PRIME - TWO_32 * k) * FNV_INVERSE == y + TWO_32 * (y * 3513497 - k * FNV_INVERSE);
    RemainderOf(y, y * 3513497 - k * FNV_INVERSE);
  }

  lemma MixedMeaning(h: nat, b: nat)
    requires h < TWO_32 && b < 256
    ensures Mixed(h, b) < TWO_32 && Mixed(Mixed(h, b), b) == h && Mixed(h, b) % 256 == Xor(h % 256, b, 8)
  {
    assert Pow2(8) == 256 by { Pow2Byte(0); }
    XorMeaning(h % 256, b, 8);
    LowByte(h, Xor(h % 256, b, 8));
  }

  lemma LowByte(h: nat, x: nat)
    requires h < TWO_32 && x < 256
    ensures h - h % 256 + x < TWO_32 && (h - h % 256 + x) % 256 == x
  {
  }

  /** A round loses nothing: the hash before it can be computed from the hash after it and the byte. */
  lemma RoundUndone(h: nat, b: nat)
    requires h < TWO_32 && b < 256
    ensures FnvRound(h, b) < TWO_32 && Mixed(Unmultiplied(FnvRound(h, b)), b) == h
  {
    MixedMeaning(h, b);
    MultiplyUndone(Mixed(h, b));
  }

  lemma {:induction false} FnvRange(bytes: seq<nat>)
    requires forall i :: 0 <= i < |bytes| ==> bytes[i] < 256
    ensures Fnv(bytes) < TWO_32
  {
    if bytes != [] {
      FnvRange(bytes[..|bytes| - 1]);
      RoundUndone(Fnv(bytes[..|bytes| - 1]), bytes[|bytes| - 1]);
    }
  }

  /** Addresses that differ in their last byte alone never share a hash. */
  lemma LastByteSeparates(bytes: seq<nat>, b: nat, b': nat)
    requires (forall i :: 0 <= i < |bytes| ==> bytes[i] < 256) && b < 256 && b' < 256 && b != b'
    ensures Fnv(bytes + [b]) != Fnv(bytes + [b'])
  {
    var h := Fnv(bytes);
    FnvRange(bytes);
    assert (bytes + [b])[..|bytes|] == bytes && (bytes + [b'])[..|bytes|] == bytes;
    MixedSeparates(h, b, b');
    RoundSeparates(Mixed(h, b), Mixed(h, b'));
  }

  lemma RoundSeparates(y: nat, y': nat)
    requires y < TWO_32 && y' < TWO_32 && y != y'
    ensures y * FNV_PRIME % TWO_32 != y' * FNV_PRIME % TWO_32
  {
    MultiplyUndone(y);
    MultiplyUndone(y');
  }

  lemma XorSeparates(a: nat, b: nat, b': nat)
    requires a < 256 && b < 256 && b' < 256 && b != b'
    ensures Xor(a, b, 8) != Xor(a, b', 8)
  {
    assert Pow2(8) == 256 by { Pow2Byte(0); }
    XorMeaning(b, a, 8);
    XorMeaning(b', a, 8);
  }

  lemma MixedSeparates(h: nat, b: nat, b': nat)
    requires h < TWO_32 && b < 256 && b' < 256 && b != b'
    ensures Mixed(h, b) < TWO_32 && Mixed(h, b') < TWO_32 && Mixed(h, b) != Mixed(h, b')
  {
    MixedMeaning(h, b);
    MixedMeaning(h, b');
    XorSeparates(h % 256, b, b');
  }

  function ShardIndex(ip: Addr): (i: nat)
    ensures i < NUM_SHARDS
  {
    Fnv(AsSlice(ip)) % NUM_SHARDS
  }

  method ComputeShardIndex(ip: Addr) returns (i: nat)
    ensures i == ShardIndex(ip) && i == Fnv(AsSlice(ip)) % 32
  {
    var bytes := AsSlice(ip);
    var h := FNV_OFFSET;
    for k := 0 to |bytes|
      invariant h == Fnv(bytes[..k])
    {
      assert bytes[..k + 1][..k] == bytes[..k];
      h := FnvRound(h, bytes[k]);
    }
    assert bytes[..|bytes|] == bytes;
    i := h % NUM_SHARDS;
  }

  type Shards = seq<Buckets>

  // The refinement holds for any placement function.
  type Placement = Addr -> nat

  // The shards hold exactly the entries of `m`, each in the shard its placement selects.
  ghost predicate Refines(place: Placement, shards: Shards, m: Buckets) {
    && |shards| == NUM_SHARDS
    && (forall i, ip :: 0 <= i < NUM_SHARDS ==> (ip in shards[i] <==> ip in m && place(ip) == i))
    && (forall i, ip :: 0 <= i < NUM_SHARDS && ip in shards[i] ==> shards[i][ip] == m[ip])
    && (forall ip :: ip in m ==> place(ip) < NUM_SHARDS)
  }

  lemma SetRefines(place: Placement, shards: Shards, m: Buckets, ip: Addr, e: Entry)
    requires Refines(place, shards, m) && place(ip) < NUM_SHARDS
    ensures Refines(place, shards[place(ip) := Put(shards[place(ip)], ip, e)], Put(m, ip, e))
  {
  }

  ghost function SweepBelow(p: Params, place: Placement, m: Buckets, n: nat, at: real): Buckets {
    Sweep(p, m, (ip: Addr) => place(ip) < n, at)
  }

  lemma SweepEnds(p: Params, place: Placement, shards: Shards, m: Buckets, at: real)
    requires Refines(place, shards, m)
    ensures SweepBelow(p, place, m, 0, at) == m
    ensures SweepBelow(p, place, m, NUM_SHARDS, at) == Sweep(p, m, _ => true, at)
  {
  }

  // Sweeping the next shard extends the sweep of the map to that shard's addresses.
  lemma SweepRefines(p: Params, place: Placement, shards: Shards, m: Buckets, n: nat, at: real)
    requires n < NUM_SHARDS && Refines(place, shards, SweepBelow(p, place, m, n, at))
    ensures Refines(place, shards[n := Sweep(p, shards[n], _ => true, at)], SweepBelow(p, place, m, n + 1, at))
  {
    var m1, m2 := SweepBelow(p, place, m, n, at), SweepBelow(p, place, m, n + 1, at);
    var shards' := shards[n := Sweep(p, shards[n], _ => true, at)];
    forall ip
      ensures ip in m2 <==> ip in m1 && !(place(ip) == n && Idle(p, m1[ip], at))
    {
    }
    forall i, ip | 0 <= i < NUM_SHARDS
      ensures ip in shards'[i] <==> ip in m2 && place(ip) == i
    {
      assert ip in shards[i] <==> ip in m1 && place(ip) == i;
    }
  }

  ghost function SumSizes(shards: Shards, n: nat): nat
    requires n <= |shards|
  {
    if n == 0 then 0 else SumSizes(shards, n - 1) + |shards[n - 1]|
  }

  ghost function PlacedBelow(place: Placement, m: Buckets, n: nat): set<Addr> {
    set ip | ip in m && place(ip) < n
  }

  lemma PlacedNone(place: Placement, m: Buckets)
    ensures PlacedBelow(place, m, 0) == {}
  {
  }

  lemma PlacedNext(place: Placement, shards: Shards, m: Buckets, n: nat)
    requires Refines(place, shards, m) && n < NUM_SHARDS
    ensures PlacedBelow(place, m, n + 1) == PlacedBelow(place, m, n) + shards[n].Keys
    ensures PlacedBelow(place, m, n) !! shards[n].Keys
  {
    forall ip
      ensures ip in shards[n].Keys <==> ip in m && place(ip) == n
    {
      assert ip in shards[n] <==> ip in m && place(ip) == n;
    }
  }

  lemma DisjointSize<T>(a: set<T>, b: set<T>)
    requires a !! b
    ensures |a + b| == |a| + |b|
  {
  }

  lemma KeyCount<K, V>(m: map<K, V>)
    ensures |m.Keys| == |m|
  {
  }

  lemma PlacedSize(place: Placement, shards: Shards, m: Buckets, n: nat)
    requires Refines(place, shards, m) && n < NUM_SHARDS
    ensures |PlacedBelow(place, m, n + 1)| == |PlacedBelow(place, m, n)| + |shards[n]|
  {
    PlacedNext(place, shards, m, n);
    DisjointSize(PlacedBelow(place, m, n), shards[n].Keys);
    KeyCount(shards[n]);
  }

  lemma {:induction false} SumUp(shards: Shards, totals: seq<nat>, n: nat)
    requires n <= |shards| < |totals| && totals[0] == 0
    requires forall k :: 0 <= k < |shards| ==> totals[k + 1] == totals[k] + |shards[k]|
    ensures totals[n] == SumSizes(shards, n)
  {
    if n > 0 {
      SumUp(shards, totals, n - 1);
    }
  }

  lemma CountKeys(place: Placement, shards: Shards, m: Buckets, n: nat)
    requires Refines(place, shards, m) && n <= NUM_SHARDS
    ensures |PlacedBelow(place, m, n)| == SumSizes(shards, n)
  {
    var totals := seq(NUM_SHARDS + 1, k requires 0 <= k => |PlacedBelow(place, m, k)|);
    PlacedNone(place, m);
    forall k | 0 <= k < NUM_SHARDS
      ensures totals[k + 1] == totals[k] + |shards[k]|
    {
      PlacedSize(place, shards, m, k);
    }
    SumUp(shards, totals, n);
  }

  /** Every method acts as on one map keyed by address, the ghost field `contents`. */
  class Limiter {
    const p: Params
    const place: Placement
    var shards: Shards
    var stopped: bool         // whether the eviction loop has been told to end
    ghost var contents: Buckets

    ghost predicate Valid()
      reads this
    {
      Refines(place, shards, contents)
    }

    constructor (p: Params)
      ensures Valid() && contents == map[] && this.p == p && place == ShardIndex && !stopped
    {
      stopped := false;
      this.p := p;
      place := ShardIndex;
      shards := seq(NUM_SHARDS, _ => map[]);
      contents := map[];
    }

    method AllowAt(ip: Addr, now: real) returns (ok: bool)
      requires Valid() && place == ShardIndex
      modifies this`shards, this`contents
      ensures Valid()
      ensures contents == Allow(p, old(contents), ip, now).0
      ensures ok == Allow(p, old(contents), ip, now).1
      ensures ip in contents && contents[ip].lastSeen == now && contents - {ip} == old(contents) - {ip}
    {
      var i := ComputeShardIndex(ip);
      var b := if ip in shards[i] then shards[i][ip].bucket else NewBucket(p, now);
      assert b == BucketFor(p, contents, ip, now);
      var (b', admitted) := Take(p, b, now);
      SetRefines(place, shards, contents, ip, Entry(b', now));
      shards := shards[i := Put(shards[i], ip, Entry(b', now))];
      contents := Put(contents, ip, Entry(b', now));
      ok := admitted;
    }

    /** Walks the shards in order, dropping the entries not seen since the cutoff. */
    method EvictIdle(now: real)
      requires Valid()
      modifies this`shards, this`contents
      ensures Valid()
      ensures contents == Sweep(p, old(contents), _ => true, now)
      ensures forall ip :: ip in contents <==> ip in old(contents) && old(contents)[ip].lastSeen >= now - p.idleTTL
      ensures forall ip :: ip in contents ==> contents[ip] == old(contents)[ip]
    {
      ghost var m, left := contents, contents;
      SweepEnds(p, place, shards, m, now);
      for i := 0 to NUM_SHARDS
        invariant contents == m && left == SweepBelow(p, place, m, i, now) && Refines(place, shards, left)
      {
        SweepRefines(p, place, shards, m, i, now);
        var swept := SweepOne(p, shards[i], now);
        shards := shards[i := swept];
        left := SweepBelow(p, place, m, i + 1, now);
      }
      contents := left;
    }

    method Stop()
      modifies this`stopped
      ensures stopped
    {
      stopped := true;
    }

    /** The number of distinct tracked addresses. */
    method ActiveCount() returns (n: nat)
      requires Valid()
      ensures n == |contents|
    {
      n := 0;
      for i := 0 to NUM_SHARDS
        invariant n == SumSizes(shards, i)
      {
        n := n + |shards[i]|;
      }
      CountKeys(place, shards, contents, NUM_SHARDS);
      assert PlacedBelow(place, contents, NUM_SHARDS) == contents.Keys;
    }
  }

  // Deletes idle entries one by one, in whatever order the map yields its keys.
  method SweepOne(p: Params, shard: Buckets, now: real) returns (out: Buckets)
    ensures out == Sweep(p, shard, _ => true, now)
    ensures forall ip :: ip in out <==> ip in shard && shard[ip].lastSeen >= now - p.idleTTL
    ensures forall ip :: ip in out ==> out[ip] == shard[ip]
  {
    out := shard;
    var todo := shard.Keys;
    while todo != {}
      invariant todo <= shard.Keys
      invariant forall ip :: ip in out <==> ip in shard && (ip in todo || !Idle(p, shard[ip], now))
      invariant forall ip :: ip in out ==> out[ip] == shard[ip]
    {
      var ip :| ip in todo;
      if Idle(p, shard[ip], now) {
        out := out - {ip};
      }
      todo := todo - {ip};
    }
    assert out.Keys == Sweep(p, shard, _ => true, now).Keys;
  }
}
