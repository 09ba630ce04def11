/** The key bytes userspace and the packet program agree on: a 32-bit head
    (family, protocol, destination port in network order) and a 128-bit address
    field in which an IPv4 address fills the first four bytes. */
module Encoding {

  import opened Bits
  import opened Net
  import opened LpmTrie

  type U8 = x: nat | x < 0x100
  type U16 = x: nat | x < 0x1_0000

  const FAMILY_V4: U8 := 4
  const FAMILY_V6: U8 := 6
  const PROTO_ANY: U8 := 0
  const PROTO_ICMP: U8 := 1
  const PROTO_TCP: U8 := 6
  const PROTO_UDP: U8 := 17

  function FamilyCode(f: Family): U8
  {
    if f == V4 then FAMILY_V4 else FAMILY_V6
  }

  function AddrBytes(ip: Ip): (b: Bits)
    ensures |b| == 128
  {
    ip.bits + Zeros(128 - |ip.bits|)
  }

  function LpmPrefixLen(prefix: nat): nat
  {
    32 + prefix
  }

  /** Head of rule and temporary-ban keys. */
  function ScopedHead(f: Family, proto: U8, dport: U16): (b: Bits)
    ensures |b| == 32
  {
    ToBits(FamilyCode(f), 8) + ToBits(proto, 8) + ToBits(dport, 16)
  }

  /** Head of trusted and GeoIP keys: the three bytes after the family are padding. */
  function SourceHead(f: Family): (b: Bits)
    ensures |b| == 32
  {
    ToBits(FamilyCode(f), 8) + Zeros(24)
  }

  function ScopedKey(net: Cidr, proto: U8, dport: U16): LpmKey
  {
    LpmKey(LpmPrefixLen(net.prefix), ScopedHead(net.addr.family, proto, dport) + AddrBytes(net.addr))
  }

  function SourceKey(net: Cidr): LpmKey
  {
    LpmKey(LpmPrefixLen(net.prefix), SourceHead(net.addr.family) + AddrBytes(net.addr))
  }

  /** The packet program looks a source up with all of its address bits. */
  function FullPrefixLen(f: Family): nat
  {
    if f == V4 then 64 else 160
  }

  function ScopedQuery(src: Ip, proto: U8, dport: U16): Bits
  {
    (ScopedHead(src.family, proto, dport) + AddrBytes(src))[..FullPrefixLen(src.family)]
  }

  function SourceQuery(src: Ip): Bits
  {
    (SourceHead(src.family) + AddrBytes(src))[..FullPrefixLen(src.family)]
  }

  lemma CutScopedKey(net: Cidr, proto: U8, dport: U16)
    ensures Cut(ScopedKey(net, proto, dport)) == ScopedHead(net.addr.family, proto, dport) + Stem(net)
    ensures Canonical(net) ==> CanonicalKey(ScopedKey(net, proto, dport))
  {
  }

  lemma CutSourceKey(net: Cidr)
    ensures Cut(SourceKey(net)) == SourceHead(net.addr.family) + Stem(net)
    ensures Canonical(net) ==> CanonicalKey(SourceKey(net))
  {
  }

  lemma HeadsDiffer(f: Family, p: U8, d: U16, f': Family, p': U8, d': U16)
    requires ScopedHead(f, p, d) == ScopedHead(f', p', d')
    ensures f == f' && p == p' && d == d'
  {
    var h, h' := ScopedHead(f, p, d), ScopedHead(f', p', d');
    assert Pow2(8) == 256 && Pow2(16) == 65536 by {
      assert Pow2(4) == 16;
      assert Pow2(12) == 4096;
    }
    assert h[..8] == ToBits(FamilyCode(f), 8) && h'[..8] == ToBits(FamilyCode(f'), 8);
    assert h[8..16] == ToBits(p, 8) && h'[8..16] == ToBits(p', 8);
    assert h[16..] == ToBits(d, 16) && h'[16..] == ToBits(d', 16);
    ToBitsInjective(FamilyCode(f), FamilyCode(f'), 8);
    ToBitsInjective(p, p', 8);
    ToBitsInjective(d, d', 16);
  }

  /** A scoped key is a prefix of a packet's query exactly when protocol and port
      are equal and the network contains the source; so IPv4 and IPv6 entries,
      and entries of another scope, never match. */
  lemma ScopedKeyMatches(net: Cidr, proto: U8, dport: U16, src: Ip, qproto: U8, qdport: U16)
    ensures Cut(ScopedKey(net, proto, dport)) <= ScopedQuery(src, qproto, qdport)
       <==> proto == qproto && dport == qdport && Contains(net, src)
  {
    CutScopedKey(net, proto, dport);
    var kh, qh := ScopedHead(net.addr.family, proto, dport), ScopedHead(src.family, qproto, qdport);
    assert ScopedQuery(src, qproto, qdport) == qh + src.bits;
    PrefixSplits(kh, Stem(net), qh, src.bits);
    if kh == qh {
      HeadsDiffer(net.addr.family, proto, dport, src.family, qproto, qdport);
    }
  }

  lemma SourceKeyMatches(net: Cidr, src: Ip)
    ensures Cut(SourceKey(net)) <= SourceQuery(src) <==> Contains(net, src)
  {
    CutSourceKey(net);
    SourceQueryBits(src);
    PrefixSplits(SourceHead(net.addr.family), Stem(net), SourceHead(src.family), src.bits);
    if SourceHead(net.addr.family) == SourceHead(src.family) {
      SourceHeadsDiffer(net.addr.family, src.family);
    }
  }

  lemma SourceQueryBits(src: Ip)
    ensures SourceQuery(src) == SourceHead(src.family) + src.bits
  {
  }

  lemma SourceHeadsDiffer(f: Family, f': Family)
    requires SourceHead(f) == SourceHead(f')
    ensures f == f'
  {
    assert Pow2(8) == 256 by { assert Pow2(4) == 16; }
    assert SourceHead(f)[..8] == ToBits(FamilyCode(f), 8);
    assert SourceHead(f')[..8] == ToBits(FamilyCode(f'), 8);
    ToBitsInjective(FamilyCode(f), FamilyCode(f'), 8);
  }

  /** Prefix comparison of two strings whose heads have the same length. */
  lemma PrefixSplits(h: Bits, s: Bits, h': Bits, s': Bits)
    requires |h| == |h'|
    ensures h + s <= h' + s' <==> h == h' && s <= s'
  {
    if h + s <= h' + s' {
      assert (h + s)[..|h|] == h && (h' + s')[..|h|] == h';
      assert (h + s)[|h|..] == s && (h' + s')[|h|..] == s';
      assert h + s == (h' + s')[..|h + s|];
      assert h == h';
      assert s == s'[..|s|];
    }
    if h == h' && s <= s' {
      assert s' == s + s'[|s|..];
      assert h' + s' == (h + s) + s'[|s|..];
    }
  }
}
