/** IP addresses and CIDR networks. An address is its bits in network order;
    a `Cidr` is an address with a prefix length, host bits allowed, as the
    `IpNet` values the control plane parses are. */
module Net {

  import opened Bits

  datatype Family = V4 | V6

  function Width(f: Family): (w: nat)
    ensures w <= 128
  {
    match f
    case V4 => 32
    case V6 => 128
  }

  datatype RawIp = Ip(family: Family, bits: Bits)

  type Ip = a: RawIp | |a.bits| == Width(a.family) witness Ip(V4, Zeros(32))

  datatype RawCidr = Cidr(addr: Ip, prefix: nat)

  type Cidr = c: RawCidr | c.prefix <= Width(c.addr.family) witness Cidr(Ip(V4, Zeros(32)), 0)

  /** The network's leading bits: what every member starts with. */
  function Stem(c: Cidr): (s: Bits)
    ensures |s| == c.prefix
  {
    c.addr.bits[..c.prefix]
  }

  /** The first address of the network. */
  function Network(c: Cidr): Ip
  {
    Ip(c.addr.family, Stem(c) + Zeros(Width(c.addr.family) - c.prefix))
  }

  function Trunc(c: Cidr): Cidr
  {
    Cidr(Network(c), c.prefix)
  }

  predicate Canonical(c: Cidr)
  {
    c.addr == Network(c)
  }

  predicate Contains(c: Cidr, ip: Ip)
  {
    c.addr.family == ip.family && Stem(c) <= ip.bits
  }

  /** Some network of the list contains the address. */
  predicate Covered(nets: seq<Cidr>, ip: Ip)
  {
    exists p <- nets :: Contains(p, ip)
  }

  /** Every address of `inner` lies in `outer`. */
  predicate Within(outer: Cidr, inner: Cidr)
  {
    outer.addr.family == inner.addr.family && Stem(outer) <= Stem(inner)
  }

  lemma TruncSameNetwork(c: Cidr)
    ensures Canonical(Trunc(c)) && Stem(Trunc(c)) == Stem(c)
    ensures forall ip: Ip :: Contains(Trunc(c), ip) <==> Contains(c, ip)
  {
  }

  /** A shorter or equal prefix contains a network's first address exactly when
      it contains the whole network. */
  lemma ContainsNetworkIsWithin(outer: Cidr, inner: Cidr)
    requires outer.prefix <= inner.prefix
    ensures Contains(outer, Network(inner)) <==> Within(outer, inner)
  {
  }

  lemma WithinContains(outer: Cidr, inner: Cidr, ip: Ip)
    requires Within(outer, inner) && Contains(inner, ip)
    ensures Contains(outer, ip)
  {
  }

  lemma WithinTransitive(a: Cidr, b: Cidr, c: Cidr)
    requires Within(a, b) && Within(b, c)
    ensures Within(a, c)
  {
  }

  /** Canonical networks are determined by their stem. */
  lemma CanonicalDetermined(a: Cidr, b: Cidr)
    requires Canonical(a) && Canonical(b)
    requires Within(a, b) && a.prefix == b.prefix
    ensures a == b
  {
  }

  /** The last address of the network. */
  function Broadcast(c: Cidr): Ip
  {
    Ip(c.addr.family, Stem(c) + Ones(Width(c.addr.family) - c.prefix))
  }

  /** As numbers: a network contains the addresses of its family from its first to its
      last. */
  lemma ContainsIsRange(c: Cidr, ip: Ip)
    ensures Contains(c, ip) <==>
            && c.addr.family == ip.family
            && ToNat(Network(c).bits) <= ToNat(ip.bits) <= ToNat(Broadcast(c).bits)
  {
    if c.addr.family == ip.family {
      StemIsRange(Stem(c), ip.bits, Width(ip.family) - c.prefix);
    }
  }
}
