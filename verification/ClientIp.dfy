/** Resolving the client address: X-Forwarded-For is read right to left, and only when the TCP peer is
    a trusted proxy. */
module ClientIp {
  import opened Word
  import opened Wrappers
  import opened Netmatch

  // Address text parsing, kept abstract; an entry is trimmed before it is parsed.
  datatype Env = Env(trim: string -> string, parseAddr: string -> Option<Addr>) {
    // Blank text is no address.
    ghost predicate Valid() {
      parseAddr(trim("")).None?
    }
  }

  // IPv4-mapped IPv6 addresses (section 2.5.5.2 of RFC 4291) become the IPv4 address they carry.
  function Unmap(a: Addr): (r: Addr)
    ensures r.v6 ==> r == a
    ensures !a.v6 ==> r == a
  {
    if a.v6 && a.value / TWO_32 == 0xffff then Addr(false, a.value % TWO_32) else a
  }

  /** Unmapping undoes the mapping of section 2.5.5.2 of RFC 4291, leaves every address outside the mapped
      block as it is, and unmapping twice adds nothing. */
  lemma UnmapMeaning(v: nat, a: Addr)
    ensures v < 0x1_0000_0000 ==> Unmap(Addr(true, 0xffff_0000_0000 + v)) == Addr(false, v)
    ensures !a.v6 || a.value < 0xffff_0000_0000 || a.value >= 0x1_0000_0000_0000 ==> Unmap(a) == a
    ensures Unmap(Unmap(a)) == Unmap(a)
  {
  }

  // ----- splitting at commas

  // One more character of the text: a comma starts a part, anything else extends the last one.
  function Extend(parts: seq<string>, c: char): (r: seq<string>)
    requires parts != []
    ensures r != []
  {
    if c == ',' then parts + [""]
    else parts[..|parts| - 1] + [parts[|parts| - 1] + [c]]
  }

  function Split(s: string): (parts: seq<string>)
    ensures parts != []
  {
    if s == "" then [""] else Extend(Split(s[..|s| - 1]), s[|s| - 1])
  }

  function Join(parts: seq<string>): string
    requires parts != []
  {
    if |parts| == 1 then parts[0] else Join(parts[..|parts| - 1]) + "," + parts[|parts| - 1]
  }

  lemma ExtendJoin(parts: seq<string>, c: char)
    requires parts != [] && forall p :: p in parts ==> ',' !in p
    ensures Join(Extend(parts, c)) == Join(parts) + [c]
    ensures forall p :: p in Extend(parts, c) ==> ',' !in p
  {
    var k := |parts| - 1;
    var front, last := parts[..k], parts[k];
    var ext := Extend(parts, c);
    assert last in parts;
    if c == ',' {
      assert ext[..|parts|] == parts;
      assert Join(ext) == Join(parts) + "," + "";
    } else {
      assert ext[..k] == front;
      if k > 0 {
        assert Join(ext) == Join(front) + "," + (last + [c]);
        assert Join(ext) == Join(front) + "," + last + [c];
      }
    }
  }

  /** Splitting is undone by joining, and no part holds a comma. */
  lemma {:induction false} SplitRoundTrip(s: string)
    ensures Join(Split(s)) == s
    ensures forall p :: p in Split(s) ==> ',' !in p
  {
    if s != "" {
      var n := |s| - 1;
      SplitRoundTrip(s[..n]);
      ExtendJoin(Split(s[..n]), s[n]);
      assert s == s[..n] + [s[n]];
    }
  }

  lemma SplitSnoc(s: string, c: char)
    ensures Split(s + [c]) == Extend(Split(s), c)
  {
    assert (s + [c])[..|s|] == s;
  }

  lemma ExtendConcat(x: seq<string>, y: seq<string>, c: char)
    requires y != []
    ensures Extend(x + y, c) == x + Extend(y, c)
  {
    assert (x + y)[..|x + y| - 1] == x + y[..|y| - 1];
  }

  /** Splitting a text put before a comma and a header splits the text and then the header. */
  lemma {:induction false} SplitConcat(a: string, b: string)
    ensures Split(a + "," + b) == Split(a) + Split(b)
  {
    if b == "" {
      assert a + "," + b == a + [','];
      SplitSnoc(a, ',');
    } else {
      var b', c := b[..|b| - 1], b[|b| - 1];
      SplitConcat(a, b');
      assert b == b' + [c];
      assert a + "," + b == (a + "," + b') + [c];
      SplitSnoc(a + "," + b', c);
      SplitSnoc(b', c);
      ExtendConcat(Split(a), Split(b'), c);
    }
  }

  // ----- the resolution rule

  // The address an entry names, when it parses and is not itself trusted.
  ghost function Candidate(env: Env, trusted: Matcher, part: string): Option<Addr> {
    match env.parseAddr(env.trim(part))
    case Some(a) => if trusted.Covers(Unmap(a)) then None else Some(Unmap(a))
    case None => None
  }

  ghost function Rightmost(env: Env, trusted: Matcher, parts: seq<string>): Option<Addr> {
    if parts == [] then None
    else
      var last := Candidate(env, trusted, parts[|parts| - 1]);
      if last.Some? then last else Rightmost(env, trusted, parts[..|parts| - 1])
  }

  // Entry `i` names the untrusted address `a`, and nothing to its right names any.
  ghost predicate NamedAt(env: Env, trusted: Matcher, parts: seq<string>, a: Addr, i: nat) {
    && i < |parts| && Candidate(env, trusted, parts[i]) == Some(a)
    && forall k :: i < k < |parts| ==> Candidate(env, trusted, parts[k]).None?
  }

  ghost predicate NoneNamed(env: Env, trusted: Matcher, parts: seq<string>) {
    forall i :: 0 <= i < |parts| ==> Candidate(env, trusted, parts[i]).None?
  }

  lemma {:induction false} RightmostMeaning(env: Env, trusted: Matcher, parts: seq<string>)
    ensures Rightmost(env, trusted, parts).None? ==> NoneNamed(env, trusted, parts)
    ensures Rightmost(env, trusted, parts).Some? ==>
              exists i: nat :: NamedAt(env, trusted, parts, Rightmost(env, trusted, parts).value, i)
  {
    if parts != [] {
      var n := |parts| - 1;
      RightmostMeaning(env, trusted, parts[..n]);
      if Candidate(env, trusted, parts[n]).Some? {
        assert NamedAt(env, trusted, parts, Rightmost(env, trusted, parts).value, n);
      } else if Rightmost(env, trusted, parts).Some? {
        var a := Rightmost(env, trusted, parts).value;
        var i: nat :| NamedAt(env, trusted, parts[..n], a, i);
        assert forall k :: i < k < n ==> parts[k] == parts[..n][k];
        assert NamedAt(env, trusted, parts, a, i);
      }
    }
  }

  lemma {:induction false} RightmostConcat(env: Env, trusted: Matcher, a: seq<string>, b: seq<string>)
    ensures Rightmost(env, trusted, a + b) ==
            if Rightmost(env, trusted, b).Some? then Rightmost(env, trusted, b) else Rightmost(env, trusted, a)
  {
    if b == [] {
      assert a + b == a;
    } else {
      assert (a + b)[..|a + b| - 1] == a + b[..|b| - 1];
      RightmostConcat(env, trusted, a, b[..|b| - 1]);
    }
  }

  // The untrusted address the header names, if any.
  ghost function Named(env: Env, trusted: Matcher, xff: string): Option<Addr> {
    Rightmost(env, trusted, Split(xff))
  }

  lemma BlankNamesNobody(env: Env, trusted: Matcher)
    requires env.Valid()
    ensures Split("") == [""] && Candidate(env, trusted, "").None? && Named(env, trusted, "").None?
  {
    var parts := Split("");
    assert |parts| == 1 && parts[0] == "" && parts[..0] == [];
    assert Rightmost(env, trusted, parts[..0]).None?;
    assert Rightmost(env, trusted, parts) == Rightmost(env, trusted, parts[..0]);
  }

  ghost function Resolve(env: Env, trusted: Matcher, peer: Addr, xff: string): Addr {
    if trusted.Covers(peer) && xff != "" && Named(env, trusted, xff).Some? then Named(env, trusted, xff).value
    else peer
  }

  /** The method as the source runs it. `remote` is the parsed TCP peer; no matcher means that nothing
      is trusted. */
  method ResolveClientIP(env: Env, trusted: Option<Matcher>, remote: Option<Addr>, xff: string)
    returns (ip: Option<Addr>)
    requires trusted.Some? ==> trusted.value.Valid()
    ensures ip.Some? <==> remote.Some?
    ensures remote.Some? && trusted.None? ==> ip == Some(Unmap(remote.value))
    ensures remote.Some? && trusted.Some? ==> ip == Some(Resolve(env, trusted.value, Unmap(remote.value), xff))
  {
    if remote.None? {
      return None;
    }
    var peer := Unmap(remote.value);
    if trusted.None? {
      return Some(peer);
    }
    var peerTrusted := Contains(trusted.value, peer);
    if !peerTrusted || xff == "" {
      return Some(peer);
    }
    var parts := Split(xff);
    var i := |parts|;
    assert parts[..i] == parts;
    while i > 0
      invariant 0 <= i <= |parts|
      invariant Rightmost(env, trusted.value, parts[..i]) == Rightmost(env, trusted.value, parts)
    {
      i := i - 1;
      assert parts[..i + 1][..i] == parts[..i];
      var entry := env.parseAddr(env.trim(parts[i]));
      if entry.None? {
        continue;
      }
      var candidate := Unmap(entry.value);
      var skip := Contains(trusted.value, candidate);
      if !skip {
        return Some(candidate);
      }
    }
    ip := Some(peer);
  }

  // ----- the theorems

  /** What comes back: an untrusted peer is taken at its word; behind a trusted one it is the rightmost
      entry that parses and is not trusted, and else the peer. */
  lemma ResolveMeaning(env: Env, trusted: Matcher, peer: Addr, xff: string)
    requires env.Valid()
    ensures var r, parts := Resolve(env, trusted, peer, xff), Split(xff);
            if !trusted.Covers(peer) || NoneNamed(env, trusted, parts) then r == peer
            else exists i: nat :: NamedAt(env, trusted, parts, r, i)
  {
    BlankNamesNobody(env, trusted);
    var parts := Split(xff);
    RightmostMeaning(env, trusted, parts);
    if Rightmost(env, trusted, parts).Some? {
      var i: nat :| NamedAt(env, trusted, parts, Rightmost(env, trusted, parts).value, i);
      assert !NoneNamed(env, trusted, parts) && xff != "";
      assert trusted.Covers(peer) ==> NamedAt(env, trusted, parts, Resolve(env, trusted, peer, xff), i);
    }
  }

  /** The law of left extension: whatever text a client puts before the header, the header's own
      untrusted entry decides if it has one, then the text's, then the peer. */
  lemma LeftExtension(env: Env, trusted: Matcher, peer: Addr, text: string, xff: string)
    requires env.Valid() && trusted.Covers(peer)
    ensures Resolve(env, trusted, peer, text + "," + xff) ==
            if Named(env, trusted, xff).Some? then Named(env, trusted, xff).value
            else if Named(env, trusted, text).Some? then Named(env, trusted, text).value
            else peer
  {
    SplitConcat(text, xff);
    RightmostConcat(env, trusted, Split(text), Split(xff));
  }

  /** So no text a client prepends can change the result exactly when the peer is untrusted, or the
      header names an untrusted address, or no text at all does. */
  lemma LeftExtensionIndependence(env: Env, trusted: Matcher, peer: Addr, xff: string)
    requires env.Valid()
    ensures (forall text :: Resolve(env, trusted, peer, text + "," + xff) == Resolve(env, trusted, peer, xff))
            <==> (|| !trusted.Covers(peer)
                  || Named(env, trusted, xff).Some?
                  || forall text :: Named(env, trusted, text).None?)
  {
    BlankNamesNobody(env, trusted);
    if trusted.Covers(peer) {
      forall text
        ensures Resolve(env, trusted, peer, text + "," + xff) == Resolve(env, trusted, peer, xff) <==>
                Named(env, trusted, xff).Some? || Named(env, trusted, text).None?
      {
        LeftExtension(env, trusted, peer, text, xff);
        RightmostMeaning(env, trusted, Split(text));
      }
    }
  }
}
