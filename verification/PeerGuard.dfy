/** The start-up guard that keeps the forwarding proxies a server trusts apart from the
    networks whose peers it authenticates. */
module PeerGuard {
  import opened Wrappers

  // ---- addresses and networks -----------------------------------------------------

  datatype Version = V4 | V6

  function Width(v: Version): nat { if v == V4 then 32 else 128 }

  function Pow2(n: nat): (r: nat)
    ensures r > 0
  {
    if n == 0 then 1 else 2 * Pow2(n - 1)
  }

  datatype Address = Address(version: Version, ip: nat)

  predicate ValidAddress(a: Address) { a.ip < Pow2(Width(a.version)) }

  /** A block of Pow2(hostBits) addresses, aligned to its size: section 3.1 of RFC 4632. */
  datatype Network = Network(version: Version, base: nat, hostBits: nat)

  predicate ValidNetwork(n: Network) {
    && n.hostBits <= Width(n.version)
    && n.base % Pow2(n.hostBits) == 0
    && n.base + Pow2(n.hostBits) <= Pow2(Width(n.version))
  }

  function Broadcast(n: Network): int { n.base + Pow2(n.hostBits) - 1 }

  /** Membership by masking: equal once the host bits are cleared. */
  predicate Contains(n: Network, a: Address) {
    n.version == a.version && a.ip / Pow2(n.hostBits) * Pow2(n.hostBits) == n.base
  }

  /** The library's test: some end of one block lies in the other. */
  predicate Overlaps(a: Network, b: Network) {
    || Contains(a, Address(b.version, b.base))
    || (Broadcast(b) >= 0 && Contains(a, Address(b.version, Broadcast(b))))
    || Contains(b, Address(a.version, a.base))
    || (Broadcast(a) >= 0 && Contains(b, Address(a.version, Broadcast(a))))
  }

  /** An IPv4 address written in IPv6 as ::ffff:a.b.c.d, section 2.5.5.2 of RFC 4291. */
  const MAPPED_PREFIX: nat := 0xffff * 0x1_0000_0000

  function Mapped(a: Address): Option<Address> {
    if a.version == V6 && MAPPED_PREFIX <= a.ip < MAPPED_PREFIX + 0x1_0000_0000
    then Some(Address(V4, a.ip - MAPPED_PREFIX)) else None
  }

  function Plain(a: Address): Address {
    match Mapped(a) case Some(v4) => v4 case None => a
  }

  // ---- masks and ranges --------------------------------------------------------------

  lemma DivRange(x: nat, m: nat, base: nat)
    requires m > 0 && base % m == 0
    ensures x / m * m == base <==> base <= x < base + m
  {
    var q := base / m;
    assert base == q * m;
    if base <= x < base + m {
      assert x / m == q by {
        DivBetween(x, m, q);
      }
    }
    if x / m * m == base {
      assert x == x / m * m + x % m;
    }
  }

  lemma DivBetween(x: nat, m: nat, q: nat)
    requires m > 0 && q * m <= x < q * m + m
    ensures x / m == q
  {
    var d := x / m;
    assert d * m <= x < d * m + m;
    MulOrder(d + 1, q, m);
    MulOrder(q + 1, d, m);
  }

  lemma MulOrder(a: nat, b: nat, m: nat)
    ensures a <= b ==> a * m <= b * m
  {
  }

  /** A block contains exactly the addresses from its base up to its broadcast address. */
  lemma ContainsRange(n: Network, a: Address)
    requires ValidNetwork(n)
    ensures Contains(n, a) <==> n.version == a.version && n.base <= a.ip <= Broadcast(n)
  {
    DivRange(a.ip, Pow2(n.hostBits), n.base);
  }

  /** Some address lies in both blocks. */
  ghost predicate Share(a: Network, b: Network) {
    exists x :: ValidAddress(x) && Contains(a, x) && Contains(b, x)
  }

  lemma Ends(n: Network)
    requires ValidNetwork(n)
    ensures ValidAddress(Address(n.version, n.base)) && Contains(n, Address(n.version, n.base))
    ensures Broadcast(n) >= n.base
    ensures ValidAddress(Address(n.version, Broadcast(n))) && Contains(n, Address(n.version, Broadcast(n)))
  {
    ContainsRange(n, Address(n.version, n.base));
    ContainsRange(n, Address(n.version, Broadcast(n)));
  }

  /** Testing the ends of the blocks is enough: they overlap exactly when they share an address. */
  lemma OverlapsIffShare(a: Network, b: Network)
    requires ValidNetwork(a) && ValidNetwork(b)
    ensures Overlaps(a, b) <==> Share(a, b)
  {
    Ends(a);
    Ends(b);
    if Share(a, b) {
      var x :| ValidAddress(x) && Contains(a, x) && Contains(b, x);
      ContainsRange(a, x);
      ContainsRange(b, x);
      ContainsRange(a, Address(b.version, b.base));
      ContainsRange(b, Address(a.version, a.base));
    }
  }

  // ---- reading the environment value ----------------------------------------------------

  function Split(s: string): (parts: seq<string>)
    ensures |parts| > 0
  {
    if s == "" then [""]
    else
      var rest := Split(s[1..]);
      if s[0] == ',' then [""] + rest else [[s[0]] + rest[0]] + rest[1..]
  }

  predicate IsSpace(c: char) {
    c in " \t\n\r" || c == 11 as char || c == 12 as char || (28 as char <= c <= 31 as char)
    || c == '\U{85}' || c == '\U{A0}' || c == '\U{1680}' || ('\U{2000}' <= c <= '\U{200A}')
    || c in ['\U{2028}', '\U{2029}', '\U{202F}', '\U{205F}', '\U{3000}']
  }

  function Strip(s: string): string
    decreases |s|
  {
    if s == "" then ""
    else if IsSpace(s[0]) then Strip(s[1..])
    else if IsSpace(s[|s| - 1]) then Strip(s[..|s| - 1])
    else s
  }

  /** The address library's two parsers; an entry they refuse is no entry. */
  datatype Parsers = Parsers(network: string -> Option<Network>, address: string -> Option<Address>)

  ghost predicate Sound(p: Parsers) {
    && (forall s :: p.network(s).Some? ==> ValidNetwork(p.network(s).value))
    && (forall s :: p.address(s).Some? ==> ValidAddress(p.address(s).value))
  }

  /** What one entry makes the server trust: a whole block, one (normalised) peer, or nothing. */
  ghost predicate EntryTrusts(p: Parsers, entry: string, a: Address) {
    var e := Strip(entry);
    if e == "" then false
    else if '/' in e then p.network(e).Some? && Contains(p.network(e).value, a)
    else p.address(e).Some? && a == Plain(p.address(e).value)
  }

  ghost predicate Trusted(p: Parsers, raw: string, a: Address) {
    exists i :: 0 <= i < |Split(raw)| && EntryTrusts(p, Split(raw)[i], a)
  }

  ghost predicate Allowed(allowed: seq<Network>, a: Address) {
    exists i :: 0 <= i < |allowed| && Contains(allowed[i], a)
  }

  ghost predicate InSets(networks: set<Network>, hosts: set<Address>, a: Address) {
    a in hosts || exists n :: n in networks && Contains(n, a)
  }

  /** The classified sets trust exactly the addresses the entries trust, one by one. */
  method Classify(p: Parsers, raw: string) returns (networks: set<Network>, hosts: set<Address>)
    requires Sound(p)
    ensures forall n :: n in networks ==> ValidNetwork(n)
    ensures forall h :: h in hosts ==> ValidAddress(h)
    ensures forall a :: InSets(networks, hosts, a) <==> Trusted(p, raw, a)
  {
    networks, hosts := {}, {};
    var parts := Split(raw);
    for i := 0 to |parts|
      invariant forall n :: n in networks ==> ValidNetwork(n)
      invariant forall h :: h in hosts ==> ValidAddress(h)
      invariant forall a :: InSets(networks, hosts, a) <==> exists j :: 0 <= j < i && EntryTrusts(p, parts[j], a)
    {
      var entry := Strip(parts[i]);
      ghost var networks0, hosts0 := networks, hosts;
      if entry != "" {
        if '/' in entry {
          var n := p.network(entry);
          if n.Some? {
            networks := networks + {n.value};
          }
        } else {
          var host := p.address(entry);
          if host.Some? {
            PlainValid(host.value);
            hosts := hosts + {Plain(host.value)};
          }
        }
      }
      forall a ensures InSets(networks, hosts, a) <==> InSets(networks0, hosts0, a) || EntryTrusts(p, parts[i], a) {}
    }
  }

  lemma PlainValid(a: Address)
    requires ValidAddress(a)
    ensures ValidAddress(Plain(a))
  {
    Pow2Known();
  }

  lemma Pow2Known()
    ensures Pow2(32) == 0x1_0000_0000
  {
    assert Pow2(8) == 256;
    assert Pow2(16) == 65536;
    assert Pow2(24) == 16777216;
  }

  // ---- the search ---------------------------------------------------------------------------

  datatype Peer = Block(network: Network) | Host(address: Address)

  ghost predicate PeerHas(t: Peer, a: Address) {
    match t case Block(n) => Contains(n, a) case Host(h) => a == h
  }

  ghost predicate Clash(p: Parsers, raw: string, allowed: seq<Network>) {
    exists a :: ValidAddress(a) && Trusted(p, raw, a) && Allowed(allowed, a)
  }

  /** Nothing is found exactly when no address is both trusted and allowed; what is found
      really shares an address with the allowed network it is reported against. */
  method FindOverlap(p: Parsers, raw: string, allowed: seq<Network>) returns (r: Option<(Peer, Network)>)
    requires Sound(p) && forall i :: 0 <= i < |allowed| ==> ValidNetwork(allowed[i])
    ensures r.None? <==> !Clash(p, raw, allowed)
    ensures r.Some? ==> r.value.1 in allowed
    ensures r.Some? ==>
      exists a :: ValidAddress(a) && PeerHas(r.value.0, a) && Trusted(p, raw, a) && Contains(r.value.1, a)
  {
    var networks, hosts := Classify(p, raw);
    for i := 0 to |allowed|
      invariant forall a :: ValidAddress(a) && InSets(networks, hosts, a) ==> !Allowed(allowed[..i], a)
    {
      var net := allowed[i];
      var n := FirstNetwork(networks, net);
      if n.Some? {
        var x :| ValidAddress(x) && Contains(n.value, x) && Contains(net, x);
        assert InSets(networks, hosts, x) && PeerHas(Block(n.value), x);
        return Some((Block(n.value), net));
      }
      var h := FirstHost(hosts, net);
      if h.Some? {
        assert InSets(networks, hosts, h.value) && PeerHas(Host(h.value), h.value);
        return Some((Host(h.value), net));
      }
      forall a | ValidAddress(a) && InSets(networks, hosts, a) ensures !Allowed(allowed[..i + 1], a) {
        assert !Allowed(allowed[..i], a);
        assert !Contains(net, a);
      }
    }
    assert allowed[..|allowed|] == allowed;
    return None;
  }

  method FirstNetwork(networks: set<Network>, net: Network) returns (r: Option<Network>)
    requires ValidNetwork(net) && forall n :: n in networks ==> ValidNetwork(n)
    ensures r.Some? ==> r.value in networks && Share(r.value, net)
    ensures r.None? ==> forall n :: n in networks ==> !Share(n, net)
  {
    var rest := networks;
    while rest != {}
      invariant rest <= networks
      invariant forall n :: n in networks - rest ==> !Share(n, net)
      decreases |rest|
    {
      var n :| n in rest;
      OverlapsIffShare(n, net);
      if n.version == net.version && Overlaps(n, net) {
        return Some(n);
      }
      rest := rest - {n};
    }
    return None;
  }

  method FirstHost(hosts: set<Address>, net: Network) returns (r: Option<Address>)
    ensures r.Some? ==> r.value in hosts && Contains(net, r.value)
    ensures r.None? ==> forall h :: h in hosts ==> !Contains(net, h)
  {
    var rest := hosts;
    while rest != {}
      invariant rest <= hosts
      invariant forall h :: h in hosts - rest ==> !Contains(net, h)
      decreases |rest|
    {
      var h :| h in rest;
      if h.version == net.version && Contains(net, h) {
        return Some(h);
      }
      rest := rest - {h};
    }
    return None;
  }

  const DEFAULT_TRUSTED := "127.0.0.1"

  /** The value the guard reads: the environment's, or the server's own default, stripped. */
  function Effective(environment: Option<string>): string {
    Strip(match environment case Some(value) => value case None => DEFAULT_TRUSTED)
  }

  ghost predicate Refuses(p: Parsers, environment: Option<string>, allowed: seq<Network>) {
    allowed != [] && (Effective(environment) == "*" || Clash(p, Effective(environment), allowed))
  }

  /** Start-up is refused exactly when peers are authenticated and either everyone is trusted
      to forward or some single address is both trusted and allowed. */
  method CheckForwarded(p: Parsers, environment: Option<string>, allowed: seq<Network>) returns (refused: bool)
    requires Sound(p) && forall i :: 0 <= i < |allowed| ==> ValidNetwork(allowed[i])
    ensures refused <==> Refuses(p, environment, allowed)
  {
    if allowed == [] {
      return false;
    }
    var raw := Effective(environment);
    if raw == "*" {
      return true;
    }
    var overlap := FindOverlap(p, raw, allowed);
    return overlap.Some?;
  }
}
