/** How the guard reads its environment value: entries between commas, blanks around them, and
    what one entry makes the server trust, in plain numbers. */
module PeerEntries {
  import opened PeerGuard
  import opened Wrappers

  // ---- sizes ----------------------------------------------------------------------

  lemma {:induction false} PowSum(m: nat, n: nat)
    ensures Pow2(m + n) == Pow2(m) * Pow2(n)
  {
    if m > 0 {
      PowSum(m - 1, n);
    }
  }

  /** Addresses have 32 and 128 bits. */
  lemma AddressSizes(a: Address)
    ensures ValidAddress(a) <==>
            a.ip < if a.version == V4 then 0x1_0000_0000 else 0x1_0000_0000_0000_0000_0000_0000_0000_0000
  {
    Pow2Known();
    PowSum(32, 32);
    PowSum(64, 64);
  }

  /** The largest block is the whole address space. */
  lemma WholeSpace(a: Address)
    requires ValidAddress(a)
    ensures var all := Network(a.version, 0, if a.version == V4 then 32 else 128);
            ValidNetwork(all) && Contains(all, a)
  {
    var all := Network(a.version, 0, if a.version == V4 then 32 else 128);
    assert 0 % Pow2(all.hostBits) == 0;
    ContainsRange(all, a);
  }

  lemma OneHostBits()
    ensures Pow2(0) == 1
  {
  }

  /** The smallest is a single address. */
  lemma SingleAddress(a: Address, b: Address)
    requires ValidAddress(a)
    ensures ValidNetwork(Network(a.version, a.ip, 0))
    ensures Contains(Network(a.version, a.ip, 0), b) <==> a == b
  {
    OneHostBits();
    ContainsRange(Network(a.version, a.ip, 0), b);
  }

  // ---- commas and blanks ------------------------------------------------------------

  function Join(parts: seq<string>): string
    requires |parts| > 0
  {
    if |parts| == 1 then parts[0] else parts[0] + "," + Join(parts[1..])
  }

  ghost predicate NoCommas(parts: seq<string>) {
    forall i :: 0 <= i < |parts| ==> ',' !in parts[i]
  }

  lemma {:induction false} SplitOne(s: string)
    requires ',' !in s
    ensures Split(s) == [s]
  {
    if s != "" {
      SplitOne(s[1..]);
      assert s == [s[0]] + s[1..];
    }
  }

  lemma {:induction false} SplitFirst(s: string, rest: string)
    requires ',' !in s
    ensures Split(s + "," + rest) == [s] + Split(rest)
  {
    var whole := s + "," + rest;
    if s == "" {
      assert whole[1..] == rest;
    } else {
      assert whole[1..] == s[1..] + "," + rest;
      SplitFirst(s[1..], rest);
      assert s == [s[0]] + s[1..];
    }
  }

  /** Splitting gives back the entries that were joined. */
  lemma {:induction false} SplitJoin(parts: seq<string>)
    requires |parts| > 0 && NoCommas(parts)
    ensures Split(Join(parts)) == parts
  {
    if |parts| == 1 {
      SplitOne(parts[0]);
    } else {
      SplitJoin(parts[1..]);
      SplitFirst(parts[0], Join(parts[1..]));
      assert parts == [parts[0]] + parts[1..];
    }
  }

  ghost predicate Blank(s: string) { forall i :: 0 <= i < |s| ==> IsSpace(s[i]) }

  /** Neither end is blank. */
  ghost predicate Trimmed(s: string) { s == "" || (!IsSpace(s[0]) && !IsSpace(s[|s| - 1])) }

  lemma SpacesAre(c: char)
    ensures IsSpace(c) <==>
              || 9 <= c as int <= 13 || 28 <= c as int <= 32 || c as int == 0x85 || c as int == 0xA0
              || c as int == 0x1680 || 0x2000 <= c as int <= 0x200A || c as int == 0x2028 || c as int == 0x2029
              || c as int == 0x202F || c as int == 0x205F || c as int == 0x3000
  {
  }

  /** Stripping removes exactly the outer blanks. */
  lemma {:induction false} StripExact(before: string, s: string, after: string)
    requires Blank(before) && Trimmed(s) && Blank(after)
    ensures Strip(before + s + after) == s
    decreases |before| + |after|
  {
    var whole := before + s + after;
    if before != "" {
      assert whole[1..] == before[1..] + s + after;
      StripExact(before[1..], s, after);
    } else if s == "" && after != "" {
      assert whole == after && whole[1..] == "" + "" + after[1..];
      StripExact("", "", after[1..]);
    } else if after != "" {
      var k := |after| - 1;
      assert whole[0] == s[0] && whole[|whole| - 1] == after[k];
      assert whole[..|whole| - 1] == "" + s + after[..k];
      StripExact("", s, after[..k]);
    } else {
      assert whole == s;
    }
  }

  /** An unset variable means this machine's own proxy. */
  lemma DefaultIsLocal()
    ensures Effective(None) == "127.0.0.1"
  {
    assert "" + "127.0.0.1" + "" == "127.0.0.1";
    StripExact("", "127.0.0.1", "");
  }

  // ---- bare hosts --------------------------------------------------------------------------

  /** The entry, without its blanks, is a bare address that the address parser reads as h. */
  ghost predicate ReadsAs(p: Parsers, entry: string, h: Address) {
    exists before, s, after ::
      Blank(before) && Trimmed(s) && Blank(after) && entry == before + s + after
      && s != "" && '/' !in s && p.address(s) == Some(h)
  }

  lemma BareEntry(p: Parsers, entry: string, h: Address, a: Address)
    requires ReadsAs(p, entry, h)
    ensures EntryTrusts(p, entry, a) <==> a == Plain(h)
  {
    var before, s, after :| Blank(before) && Trimmed(s) && Blank(after) && entry == before + s + after
                            && s != "" && '/' !in s && p.address(s) == Some(h);
    StripExact(before, s, after);
  }

  /** A bare IPv6 host that carries an IPv4 address trusts exactly that IPv4 address. */
  lemma MappedHostTrusts(p: Parsers, entry: string, ip: nat, a: Address)
    requires ip < 0x1_0000_0000 && ReadsAs(p, entry, Address(V6, 0xffff_0000_0000 + ip))
    ensures EntryTrusts(p, entry, a) <==> a == Address(V4, ip)
  {
    BareEntry(p, entry, Address(V6, 0xffff_0000_0000 + ip), a);
  }

  /** Any other bare host trusts exactly the address it names. */
  lemma OtherHostTrusts(p: Parsers, entry: string, h: Address, a: Address)
    requires ReadsAs(p, entry, h) && (h.version == V6 ==> h.ip < 0xffff_0000_0000 || h.ip >= 0x1_0000_0000_0000)
    ensures EntryTrusts(p, entry, a) <==> a == h
  {
    BareEntry(p, entry, h, a);
  }

  /** A declared block trusts exactly its own range, mapped or not. */
  lemma BlockTrusts(p: Parsers, before: string, s: string, after: string, n: Network, a: Address)
    requires Blank(before) && Trimmed(s) && Blank(after) && '/' in s && p.network(s) == Some(n) && ValidNetwork(n)
    ensures EntryTrusts(p, before + s + after, a) <==>
              a.version == n.version && n.base <= a.ip < n.base + Pow2(n.hostBits)
  {
    StripExact(before, s, after);
    ContainsRange(n, a);
  }

  // ---- the refusal -----------------------------------------------------------------------------

  /** Start-up is refused when an entry names, in mapped form, an IPv4 address inside an allowed
      block, whatever the other entries and blocks are. */
  lemma MappedHostRefused(p: Parsers, environment: Option<string>, parts: seq<string>, j: nat, ip: nat,
                          allowed: seq<Network>, i: nat)
    requires |parts| > 0 && NoCommas(parts) && Effective(environment) == Join(parts)
    requires j < |parts| && ip < 0x1_0000_0000 && ReadsAs(p, parts[j], Address(V6, 0xffff_0000_0000 + ip))
    requires i < |allowed| && ValidNetwork(allowed[i]) && allowed[i].version == V4
    requires allowed[i].base <= ip < allowed[i].base + Pow2(allowed[i].hostBits)
    ensures Refuses(p, environment, allowed)
  {
    var a := Address(V4, ip);
    Pow2Known();
    SplitJoin(parts);
    MappedHostTrusts(p, parts[j], ip, a);
    ContainsRange(allowed[i], a);
    assert Split(Effective(environment))[j] == parts[j];
    assert ValidAddress(a) && Trusted(p, Effective(environment), a) && Allowed(allowed, a);
  }

  /** And when one names any allowed address outright. */
  lemma NamedHostRefused(p: Parsers, environment: Option<string>, parts: seq<string>, j: nat, h: Address,
                         allowed: seq<Network>, i: nat)
    requires |parts| > 0 && NoCommas(parts) && Effective(environment) == Join(parts)
    requires j < |parts| && ReadsAs(p, parts[j], h) && ValidAddress(h)
    requires h.version == V6 ==> h.ip < 0xffff_0000_0000 || h.ip >= 0x1_0000_0000_0000
    requires i < |allowed| && ValidNetwork(allowed[i]) && allowed[i].version == h.version
    requires allowed[i].base <= h.ip < allowed[i].base + Pow2(allowed[i].hostBits)
    ensures Refuses(p, environment, allowed)
  {
    SplitJoin(parts);
    OtherHostTrusts(p, parts[j], h, h);
    ContainsRange(allowed[i], h);
    assert Split(Effective(environment))[j] == parts[j];
    assert Trusted(p, Effective(environment), h) && Allowed(allowed, h);
  }
}
