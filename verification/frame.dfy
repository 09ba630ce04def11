/** Reading a frame: Ethernet, IPv4 or IPv6 with its extension headers, and the
    destination port of TCP and UDP. */
module Frame {

  import opened Bits
  import opened Net
  import opened Encoding
  import opened Classifier
  import opened Results

  type Bytes = seq<U8>

  const ETH_HEADER: nat := 14
  const IPV4_HEADER: nat := 20
  const IPV6_HEADER: nat := 40
  const TCP_HEADER: nat := 20
  const UDP_HEADER: nat := 8
  const ETH_P_IP: nat := 0x0800
  const ETH_P_IPV6: nat := 0x86DD
  const IPV6_HOP_BY_HOP: U8 := 0
  const IPV6_ROUTING: U8 := 43
  const IPV6_FRAGMENT: U8 := 44
  const IPV6_DESTINATION: U8 := 60
  const MAX_EXTENSIONS: nat := 8

  /** `Ignored` frames pass uncounted, `Malformed` ones are dropped. */
  datatype Parsed = Ignored | Malformed | Good(pkt: Packet)

  function BitsOf(bytes: Bytes): (b: Bits)
    ensures |b| == 8 * |bytes|
  {
    if bytes == [] then [] else ToBits(bytes[0], 8) + BitsOf(bytes[1..])
  }

  function Be16(hi: U8, lo: U8): U16
  {
    hi * 256 + lo
  }

  predicate IsExtension(proto: U8)
  {
    proto == IPV6_HOP_BY_HOP || proto == IPV6_ROUTING || proto == IPV6_FRAGMENT || proto == IPV6_DESTINATION
  }

  /** A place in the header chain: where the next header starts and what it is. */
  datatype Place = Place(cursor: nat, proto: U8)

  /** What the header at a place says. */
  datatype Header = NotExtension | Leaves | Last(next: Place) | More(next: Place)

  /** One extension header: its first byte names the next header; a fragment header
      is eight bytes, any other is eight bytes times its length field plus one. */
  function HeaderAt(data: Bytes, p: Place): (h: Header)
    ensures h.Last? || h.More? ==> p.cursor < h.next.cursor <= |data|
  {
    if !IsExtension(p.proto) then NotExtension
    else if p.proto == IPV6_FRAGMENT then
      if p.cursor + 8 > |data| then Leaves else Last(Place(p.cursor + 8, data[p.cursor]))
    else if p.cursor + 2 > |data| then Leaves
    else
      var units: nat := data[p.cursor + 1];
      var next := p.cursor + (units + 1) * 8;
      if next > |data| then Leaves else More(Place(next, data[p.cursor]))
  }

  /** The whole chain, however long: up to the first header that is no extension,
      or through the first fragment header; None if it runs out of the buffer. */
  function WalkAll(data: Bytes, p: Place): Option<Place>
    requires p.cursor <= |data|
    decreases |data| - p.cursor
  {
    match HeaderAt(data, p)
    case NotExtension => Some(p)
    case Leaves => None
    case Last(next) => Some(next)
    case More(next) => WalkAll(data, next)
  }

  /** How many extension headers that walk looks at. */
  function HeadersSeen(data: Bytes, p: Place): nat
    requires p.cursor <= |data|
    decreases |data| - p.cursor
  {
    match HeaderAt(data, p)
    case NotExtension => 0
    case Leaves => 1
    case Last(_) => 1
    case More(next) => 1 + HeadersSeen(data, next)
  }

  /** The walk cut off after `n` headers. */
  function Walk(data: Bytes, p: Place, n: nat): (r: Option<Place>)
    requires p.cursor <= |data|
    ensures r.Some? ==> p.cursor <= r.value.cursor <= |data|
    decreases n
  {
    if n == 0 then Some(p)
    else
      match HeaderAt(data, p)
      case NotExtension => Some(p)
      case Leaves => None
      case Last(next) => Some(next)
      case More(next) => Walk(data, next, n - 1)
  }

  /** The packet program's loop. */
  method SkipIpv6Extensions(data: Bytes, start: Place) returns (r: Option<Place>)
    requires start.cursor <= |data|
    ensures r == Walk(data, start, MAX_EXTENSIONS)
  {
    var cursor: nat, proto: U8 := start.cursor, start.proto;
    for i := 0 to MAX_EXTENSIONS
      invariant cursor <= |data|
      invariant Walk(data, start, MAX_EXTENSIONS) == Walk(data, Place(cursor, proto), MAX_EXTENSIONS - i)
    {
      if !IsExtension(proto) {
        return Some(Place(cursor, proto));
      }
      if proto == IPV6_FRAGMENT {
        if cursor + 8 > |data| {
          return None;
        }
        proto := data[cursor];
        return Some(Place(cursor + 8, proto));
      }
      if cursor + 2 > |data| {
        return None;
      }
      var ext, units: nat := cursor, data[cursor + 1];
      cursor := cursor + (units + 1) * 8;
      if cursor > |data| {
        return None;
      }
      proto := data[ext];
    }
    r := Some(Place(cursor, proto));
  }

  /** The cut-off walk refines the whole chain: it is the chain's result when the
      chain looks at no more than `n` headers, and otherwise it stops inside the
      buffer at an extension header from which the chain would go on. */
  lemma {:induction false} WalkRefinesChain(data: Bytes, p: Place, n: nat)
    requires p.cursor <= |data|
    ensures HeadersSeen(data, p) <= n ==> Walk(data, p, n) == WalkAll(data, p)
    ensures HeadersSeen(data, p) > n ==>
              var r := Walk(data, p, n);
              && r.Some? && IsExtension(r.value.proto)
              && WalkAll(data, r.value) == WalkAll(data, p)
              && HeadersSeen(data, r.value) == HeadersSeen(data, p) - n
    decreases n
  {
    if n == 0 || !HeaderAt(data, p).More? {
    } else {
      WalkRefinesChain(data, HeaderAt(data, p).next, n - 1);
    }
  }

  /** TCP and UDP carry a destination port; nothing else does. */
  function ParseTransport(data: Bytes, src: Ip, p: Place): Parsed
  {
    var need := if p.proto == PROTO_TCP then TCP_HEADER else if p.proto == PROTO_UDP then UDP_HEADER else 0;
    if need == 0 then Good(Packet(src, p.proto, 0))
    else if p.cursor + need > |data| then Malformed
    else Good(Packet(src, p.proto, Be16(data[p.cursor + 2], data[p.cursor + 3])))
  }

  function Parse(data: Bytes): Parsed
  {
    if |data| < ETH_HEADER then Ignored
    else
      var ethProto := Be16(data[12], data[13]);
      if ethProto == ETH_P_IP then
        if |data| < ETH_HEADER + IPV4_HEADER then Ignored
        else
          var words := data[14] % 16;
          var cursor := ETH_HEADER + words * 4;
          if words < 5 || cursor > |data| then Malformed
          else ParseTransport(data, Ip(V4, BitsOf(data[26..30])), Place(cursor, data[23]))
      else if ethProto == ETH_P_IPV6 then
        if |data| < ETH_HEADER + IPV6_HEADER then Ignored
        else
          var place := Walk(data, Place(ETH_HEADER + IPV6_HEADER, data[20]), MAX_EXTENSIONS);
          if place.None? then Malformed
          else ParseTransport(data, Ip(V6, BitsOf(data[22..38])), place.value)
      else Ignored
  }

  /** The program's reading of a frame, step by step. */
  method ReadFrame(data: Bytes) returns (parsed: Parsed)
    ensures parsed == Parse(data)
  {
    if |data| < ETH_HEADER {
      return Ignored;
    }
    var ethProto := Be16(data[12], data[13]);
    if ethProto == ETH_P_IP {
      if |data| < ETH_HEADER + IPV4_HEADER {
        return Ignored;
      }
      var words := data[14] % 16;
      if words < 5 || ETH_HEADER + words * 4 > |data| {
        return Malformed;
      }
      return ParseTransport(data, Ip(V4, BitsOf(data[26..30])), Place(ETH_HEADER + words * 4, data[23]));
    }
    if ethProto == ETH_P_IPV6 {
      if |data| < ETH_HEADER + IPV6_HEADER {
        return Ignored;
      }
      var place := SkipIpv6Extensions(data, Place(ETH_HEADER + IPV6_HEADER, data[20]));
      if place.None? {
        return Malformed;
      }
      return ParseTransport(data, Ip(V6, BitsOf(data[22..38])), place.value);
    }
    parsed := Ignored;
  }

  // --------------------------------------------- frames as the standards lay them out

  /** A hop-by-hop, routing or destination header: next header, length in units of eight
      bytes beyond the first eight, and the rest. */
  datatype RawExtension = Extension(kind: U8, units: U8, body: Bytes)

  type Extension = e: RawExtension |
    e.kind in {IPV6_HOP_BY_HOP, IPV6_ROUTING, IPV6_DESTINATION} && |e.body| == 6 + 8 * e.units
    witness Extension(IPV6_HOP_BY_HOP, 0, [0, 0, 0, 0, 0, 0])

  /** What the field before a chain of headers names: the first of them, or what follows. */
  function Named(exts: seq<Extension>, upper: U8): U8
  {
    if exts == [] then upper else exts[0].kind
  }

  /** The headers one after the other, each naming its successor. */
  function Chain(exts: seq<Extension>, upper: U8): (b: Bytes)
    ensures |b| == ChainLength(exts)
  {
    if exts == [] then []
    else [Named(exts[1..], upper), exts[0].units] + exts[0].body + Chain(exts[1..], upper)
  }

  function ChainLength(exts: seq<Extension>): nat
  {
    if exts == [] then 0 else 8 * (exts[0].units + 1) + ChainLength(exts[1..])
  }

  /** The header at the start of a laid-out chain says where the rest of it starts. */
  lemma FirstHeader(data: Bytes, at: nat, exts: seq<Extension>, upper: U8)
    requires at <= |data| && exts != [] && Chain(exts, upper) <= data[at..]
    ensures var next := Place(at + 8 * (exts[0].units + 1), Named(exts[1..], upper));
            && HeaderAt(data, Place(at, exts[0].kind)) == More(next)
            && next.cursor <= |data| && Chain(exts[1..], upper) <= data[next.cursor..]
  {
    var block := [Named(exts[1..], upper), exts[0].units] + exts[0].body;
    var rest := Chain(exts[1..], upper);
    assert Chain(exts, upper) == block + rest;
    var seen := data[at..];
    assert seen[0] == block[0] && seen[1] == block[1];
    assert data[at] == seen[0] && data[at + 1] == seen[1];
    assert seen[|block|..] == data[at + |block|..];
    assert rest == Chain(exts, upper)[|block|..];
    assert seen[|block|..|block| + |rest|] == rest;
  }

  /** The headers' extents and what follows them, as the walk sees them. */
  ghost predicate LaidOut(data: Bytes, at: nat, exts: seq<Extension>, upper: U8)
    decreases exts
  {
    && at <= |data|
    && (exts != [] ==>
          var next := Place(at + 8 * (exts[0].units + 1), Named(exts[1..], upper));
          HeaderAt(data, Place(at, exts[0].kind)) == More(next) && LaidOut(data, next.cursor, exts[1..], upper))
  }

  lemma LaidOutStep(data: Bytes, at: nat, exts: seq<Extension>, upper: U8, next: Place)
    requires at <= |data| && exts != [] && next == Place(at + 8 * (exts[0].units + 1), Named(exts[1..], upper))
    requires HeaderAt(data, Place(at, exts[0].kind)) == More(next) && LaidOut(data, next.cursor, exts[1..], upper)
    ensures LaidOut(data, at, exts, upper)
  {
  }

  lemma {:induction false} ChainIsLaidOut(data: Bytes, at: nat, exts: seq<Extension>, upper: U8)
    requires at <= |data| && Chain(exts, upper) <= data[at..]
    ensures LaidOut(data, at, exts, upper)
    decreases exts
  {
    if exts == [] {
    } else {
      FirstHeader(data, at, exts, upper);
      var next := Place(at + 8 * (exts[0].units + 1), Named(exts[1..], upper));
      ChainIsLaidOut(data, next.cursor, exts[1..], upper);
      LaidOutStep(data, at, exts, upper, next);
    }
  }

  /** The whole walk goes through a laid-out chain block by block, however long it is. */
  lemma {:induction false} WalkAllThroughChain(data: Bytes, at: nat, exts: seq<Extension>, upper: U8)
    requires LaidOut(data, at, exts, upper)
    ensures at + ChainLength(exts) <= |data|
    ensures var behind := Place(at + ChainLength(exts), upper);
            && WalkAll(data, Place(at, Named(exts, upper))) == WalkAll(data, behind)
            && HeadersSeen(data, Place(at, Named(exts, upper))) == |exts| + HeadersSeen(data, behind)
    decreases exts
  {
    if exts == [] {
    } else {
      WalkAllThroughChain(data, at + 8 * (exts[0].units + 1), exts[1..], upper);
    }
  }

  lemma WalkStep(data: Bytes, p: Place, next: Place, n: nat)
    requires p.cursor <= |data| && n > 0 && HeaderAt(data, p) == More(next)
    ensures Walk(data, p, n) == Walk(data, next, n - 1)
  {
  }

  /** The cut-off walk goes through as many of the headers as it may look at. */
  lemma {:induction false} WalkThroughChain(data: Bytes, at: nat, exts: seq<Extension>, upper: U8, n: nat)
    requires LaidOut(data, at, exts, upper)
    ensures at + ChainLength(exts) <= |data|
    ensures |exts| <= n ==>
              Walk(data, Place(at, Named(exts, upper)), n) ==
              Walk(data, Place(at + ChainLength(exts), upper), n - |exts|)
    ensures |exts| > n ==>
              var r := Walk(data, Place(at, Named(exts, upper)), n);
              r.Some? && r.value.proto == exts[n].kind
    decreases exts
  {
    WalkAllThroughChain(data, at, exts, upper);
    if exts == [] || n == 0 {
    } else {
      var next := Place(at + 8 * (exts[0].units + 1), Named(exts[1..], upper));
      WalkStep(data, Place(at, exts[0].kind), next, n);
      WalkThroughChain(data, next.cursor, exts[1..], upper, n - 1);
    }
  }

  /** In a buffer that ends inside the chain: its first header leaves the buffer, or a later
      one does. */
  lemma CutHeader(data: Bytes, at: nat, exts: seq<Extension>, upper: U8)
    requires at <= |data| && data[at..] < Chain(exts, upper)
    ensures exts != []
    ensures var h, next := HeaderAt(data, Place(at, exts[0].kind)), at + 8 * (exts[0].units + 1);
            h == Leaves || (h == More(Place(next, Named(exts[1..], upper))) && data[next..] < Chain(exts[1..], upper))
  {
    var block := [Named(exts[1..], upper), exts[0].units] + exts[0].body;
    var seen, chain := data[at..], Chain(exts, upper);
    assert chain == block + Chain(exts[1..], upper);
    if |seen| >= 2 {
      assert data[at] == seen[0] == chain[0] && data[at + 1] == seen[1] == chain[1];
    }
    if |seen| >= |block| {
      assert data[at + |block|..] == seen[|block|..] && chain[|block|..] == Chain(exts[1..], upper);
    }
  }

  /** The buffer ends inside one of the headers. */
  ghost predicate EndsInside(data: Bytes, at: nat, exts: seq<Extension>, upper: U8)
    decreases exts
  {
    && at <= |data| && exts != []
    && var next := at + 8 * (exts[0].units + 1);
       match HeaderAt(data, Place(at, exts[0].kind))
       case Leaves => true
       case More(place) => place == Place(next, Named(exts[1..], upper)) && EndsInside(data, next, exts[1..], upper)
       case _ => false
  }

  lemma EndsInsideStep(data: Bytes, at: nat, exts: seq<Extension>, upper: U8, h: Header, next: Place)
    requires at <= |data| && exts != [] && next == Place(at + 8 * (exts[0].units + 1), Named(exts[1..], upper))
    requires h == HeaderAt(data, Place(at, exts[0].kind))
    requires h == Leaves || (h == More(next) && EndsInside(data, next.cursor, exts[1..], upper))
    ensures EndsInside(data, at, exts, upper)
  {
  }

  lemma {:induction false} CutChainEndsInside(data: Bytes, at: nat, exts: seq<Extension>, upper: U8)
    requires at <= |data| && data[at..] < Chain(exts, upper)
    ensures EndsInside(data, at, exts, upper)
    decreases exts
  {
    CutHeader(data, at, exts, upper);
    var h := HeaderAt(data, Place(at, exts[0].kind));
    var next := Place(at + 8 * (exts[0].units + 1), Named(exts[1..], upper));
    if h.More? {
      CutChainEndsInside(data, next.cursor, exts[1..], upper);
    }
    EndsInsideStep(data, at, exts, upper, h, next);
  }

  /** Then the walk leaves it. */
  lemma {:induction false} CutChainLeaves(data: Bytes, at: nat, exts: seq<Extension>, upper: U8, n: nat)
    requires EndsInside(data, at, exts, upper) && |exts| <= n
    ensures Walk(data, Place(at, Named(exts, upper)), n).None?
    decreases exts
  {
    if HeaderAt(data, Place(at, exts[0].kind)).More? {
      CutChainLeaves(data, at + 8 * (exts[0].units + 1), exts[1..], upper, n - 1);
    }
  }

  /** The destination port, high byte first. */
  function PortAt(data: Bytes, cursor: nat): (port: U16)
    requires cursor + 4 <= |data|
  {
    256 * (data[cursor + 2] as int) + data[cursor + 3] as int
  }

  /** What a packet is read as from its transport header on: for TCP and UDP, whose
      headers are twenty and eight bytes, the destination port is in the third and fourth. */
  predicate ReadFrom(data: Bytes, cursor: nat, src: Ip, proto: U8, parsed: Parsed)
  {
    && (proto == 6 ==>
          parsed == if cursor + 20 <= |data| then Good(Packet(src, 6, PortAt(data, cursor)))
                    else Malformed)
    && (proto == 17 ==>
          parsed == if cursor + 8 <= |data| then Good(Packet(src, 17, PortAt(data, cursor)))
                    else Malformed)
    && (proto != 6 && proto != 17 ==> parsed == Good(Packet(src, proto, 0)))
  }

  function BigEndian(bytes: Bytes): nat
  {
    if bytes == [] then 0 else 256 * BigEndian(bytes[..|bytes| - 1]) + bytes[|bytes| - 1]
  }

  lemma {:induction false} BitsOfParts(a: Bytes, b: Bytes)
    ensures BitsOf(a + b) == BitsOf(a) + BitsOf(b)
  {
    if a == [] {
      assert a + b == b;
    } else {
      assert (a + b)[1..] == a[1..] + b;
      BitsOfParts(a[1..], b);
    }
  }

  /** Address fields are numbers in network byte order. */
  lemma {:induction false} AddressIsBigEndian(bytes: Bytes)
    ensures ToNat(BitsOf(bytes)) == BigEndian(bytes)
  {
    if bytes == [] {
    } else {
      var front, last := bytes[..|bytes| - 1], bytes[|bytes| - 1];
      AddressIsBigEndian(front);
      BitsOfLast(bytes, front, last);
      ToNatOfParts(BitsOf(front), ToBits(last, 8));
      ByteValue(last);
    }
  }

  lemma ByteValue(byte: U8)
    ensures Pow2(8) == 256 && ToNat(ToBits(byte, 8)) == byte
  {
    assert Pow2(8) == 256 by {
      assert Pow2(4) == 16;
    }
    ToNatOfToBits(byte, 8);
  }

  lemma BitsOfLast(bytes: Bytes, front: Bytes, last: U8)
    requires bytes == front + [last]
    ensures BitsOf(bytes) == BitsOf(front) + ToBits(last, 8)
  {
    BitsOfParts(front, [last]);
    assert BitsOf([last]) == ToBits(last, 8) + [];
  }

  /** An Ethernet frame with a whole IPv6 header, whose next-header and source fields are
      the given ones. */
  predicate IsIpv6(data: Bytes, next: U8, src: Bytes)
    requires |src| == 16
  {
    |data| >= 54 && data[12] == 0x86 && data[13] == 0xDD && data[20] == next && data[22..38] == src
  }

  /** And with a whole minimal IPv4 header, said to be so many words long. */
  predicate IsIpv4(data: Bytes, words: nat, proto: U8, src: Bytes)
    requires |src| == 4
  {
    |data| >= 34 && data[12] == 8 && data[13] == 0 && data[14] % 16 == words && data[23] == proto && data[26..30] == src
  }

  lemma TransportMeans(data: Bytes, src: Ip, place: Place)
    ensures ReadFrom(data, place.cursor, src, place.proto, ParseTransport(data, src, place))
  {
  }

  lemma Ipv4Parsed(data: Bytes, words: nat, proto: U8, src: Bytes)
    requires |src| == 4 && IsIpv4(data, words, proto, src)
    ensures Parse(data) == if words < 5 || 14 + 4 * words > |data| then Malformed
                           else ParseTransport(data, Ip(V4, BitsOf(src)), Place(14 + 4 * words, proto))
  {
  }

  lemma Ipv6Parsed(data: Bytes, src: Bytes, next: U8, n: nat)
    requires |src| == 16 && IsIpv6(data, next, src) && n == MAX_EXTENSIONS
    ensures Parse(data) ==
            match Walk(data, Place(54, next), n)
            case None => Malformed
            case Some(place) => ParseTransport(data, Ip(V6, BitsOf(src)), place)
  {
  }

  lemma ParseIsWalk(data: Bytes, src: Bytes, next: U8, n: nat)
    requires |src| == 16 && IsIpv6(data, next, src) && n == MAX_EXTENSIONS
    ensures var place := Walk(data, Place(54, next), n);
            if place.None? then Parse(data) == Malformed
            else ReadFrom(data, place.value.cursor, Ip(V6, BitsOf(src)), place.value.proto, Parse(data))
  {
    Ipv6Parsed(data, src, next, n);
    var place := Walk(data, Place(54, next), n);
    if place.Some? {
      TransportMeans(data, Ip(V6, BitsOf(src)), place.value);
    }
  }

  /** Where a walk of at most `n` headers ends, for a chain that starts behind the IPv6 header. */
  ghost predicate ChainEnds(data: Bytes, exts: seq<Extension>, upper: U8, n: nat, place: Option<Place>)
  {
    var cursor := 54 + ChainLength(exts);
    && (|exts| <= n && !IsExtension(upper) ==> place == Some(Place(cursor, upper)))
    && (|exts| < n && upper == IPV6_FRAGMENT ==>
          place == if cursor + 8 <= |data| then Some(Place(cursor + 8, data[cursor])) else None)
    && (|exts| > n ==> place.Some? && place.value.proto == exts[n].kind)
  }

  lemma WalkEnds(data: Bytes, p: Place, n: nat)
    requires p.cursor <= |data|
    ensures !IsExtension(p.proto) ==> Walk(data, p, n) == Some(p)
    ensures n > 0 && p.proto == IPV6_FRAGMENT ==>
              Walk(data, p, n) == if p.cursor + 8 <= |data| then Some(Place(p.cursor + 8, data[p.cursor])) else None
  {
  }

  lemma LaidOutWalk(data: Bytes, exts: seq<Extension>, upper: U8, n: nat, place: Option<Place>)
    requires |data| >= 54 && LaidOut(data, 54, exts, upper)
    requires place == Walk(data, Place(54, Named(exts, upper)), n)
    ensures ChainEnds(data, exts, upper, n, place)
  {
    WalkThroughChain(data, 54, exts, upper, n);
    if |exts| <= n {
      WalkEnds(data, Place(54 + ChainLength(exts), upper), n - |exts|);
    }
  }

  /** What a frame is read as when the walk of its chain has ended. */
  predicate ReadBehind(data: Bytes, ip: Ip, exts: seq<Extension>, upper: U8, n: nat, parsed: Parsed)
  {
    var cursor := 54 + ChainLength(exts);
    && (|exts| <= n && !IsExtension(upper) ==> ReadFrom(data, cursor, ip, upper, parsed))
    && (|exts| < n && upper == IPV6_FRAGMENT ==>
          if cursor + 8 <= |data| then ReadFrom(data, cursor + 8, ip, data[cursor], parsed) else parsed == Malformed)
    && (|exts| > n ==> parsed == Good(Packet(ip, exts[n].kind, 0)))
  }

  lemma ReadAtChainEnd(data: Bytes, ip: Ip, exts: seq<Extension>, upper: U8, n: nat, place: Option<Place>,
                       parsed: Parsed)
    requires ChainEnds(data, exts, upper, n, place)
    requires if place.None? then parsed == Malformed
             else ReadFrom(data, place.value.cursor, ip, place.value.proto, parsed)
    ensures ReadBehind(data, ip, exts, upper, n, parsed)
  {
    if |exts| > n {
      NoPortRead(data, place.value.cursor, ip, exts[n], parsed);
    }
  }

  lemma NoPortRead(data: Bytes, cursor: nat, ip: Ip, e: Extension, parsed: Parsed)
    requires ReadFrom(data, cursor, ip, e.kind, parsed)
    ensures parsed == Good(Packet(ip, e.kind, 0))
  {
  }

  /** Reading an IPv6 frame laid out as section 4 of RFC 8200 says: up to eight extension
      headers are gone through, to the transport header or through a fragment header; a
      frame that ends inside them is malformed; of a longer chain the ninth header is taken
      for the protocol. */
  lemma Ipv6LayoutRead(data: Bytes, src: Bytes, exts: seq<Extension>, upper: U8)
    requires |src| == 16 && IsIpv6(data, Named(exts, upper), src)
    requires Chain(exts, upper) <= data[54..]
    ensures ReadBehind(data, Ip(V6, BitsOf(src)), exts, upper, 8, Parse(data))
  {
    ChainIsLaidOut(data, 54, exts, upper);
    LaidOutReads(data, src, exts, upper, MAX_EXTENSIONS, Parse(data));
  }

  lemma LaidOutReads(data: Bytes, src: Bytes, exts: seq<Extension>, upper: U8, n: nat, parsed: Parsed)
    requires |src| == 16 && IsIpv6(data, Named(exts, upper), src) && LaidOut(data, 54, exts, upper)
    requires n == MAX_EXTENSIONS && parsed == Parse(data)
    ensures ReadBehind(data, Ip(V6, BitsOf(src)), exts, upper, n, parsed)
  {
    var place := Walk(data, Place(54, Named(exts, upper)), n);
    LaidOutWalk(data, exts, upper, n, place);
    ParseIsWalk(data, src, Named(exts, upper), n);
    ReadAtChainEnd(data, Ip(V6, BitsOf(src)), exts, upper, n, place, parsed);
  }

  lemma CutIpv6Malformed(data: Bytes, src: Bytes, exts: seq<Extension>, upper: U8)
    requires |src| == 16 && IsIpv6(data, Named(exts, upper), src)
    requires data[54..] < Chain(exts, upper) && |exts| <= 8
    ensures Parse(data) == Malformed
  {
    CutChainEndsInside(data, 54, exts, upper);
    CutChainLeaves(data, 54, exts, upper, MAX_EXTENSIONS);
    ParseIsWalk(data, src, Named(exts, upper), MAX_EXTENSIONS);
  }

  /** Reading an IPv4 frame: the transport header starts behind the header's words, its
      options included; a header of fewer than five words, or that leaves the frame, is
      malformed. */
  lemma Ipv4LayoutRead(data: Bytes, words: nat, proto: U8, src: Bytes)
    requires |src| == 4 && IsIpv4(data, words, proto, src)
    ensures if words < 5 || 14 + 4 * words > |data| then Parse(data) == Malformed
            else ReadFrom(data, 14 + 4 * words, Ip(V4, BitsOf(src)), proto, Parse(data))
  {
    Ipv4Parsed(data, words, proto, src);
    if words >= 5 && 14 + 4 * words <= |data| {
      TransportMeans(data, Ip(V4, BitsOf(src)), Place(14 + 4 * words, proto));
    }
  }

  /** A frame passes unread exactly if it has no whole Ethernet header, is neither IPv4 nor
      IPv6, or has no whole minimal IP header. */
  lemma IgnoredIff(data: Bytes)
    ensures Parse(data) == Ignored <==>
            && !(|data| >= 34 && data[12..14] == [8, 0])
            && !(|data| >= 54 && data[12..14] == [0x86, 0xDD])
  {
    if |data| >= 14 {
      assert data[12..14] == [data[12], data[13]];
    }
  }

  // ------------------------------------------------- which packets are read

  lemma ParsedIsReadable(data: Bytes)
    ensures Parse(data).Good? ==> Readable(Parse(data).pkt)
  {
  }

  function ByteOf(b: Bits): U8
    requires |b| == 8
  {
    ToBitsOfToNat(b);
    assert Pow2(8) == 256 by {
      assert Pow2(4) == 16;
    }
    ToNat(b)
  }

  function BytesOf(b: Bits): (bytes: Bytes)
    requires |b| % 8 == 0
    ensures |bytes| == |b| / 8
  {
    if b == [] then [] else [ByteOf(b[..8])] + BytesOf(b[8..])
  }

  lemma {:induction false} BitsOfBytes(b: Bits)
    requires |b| % 8 == 0
    ensures BitsOf(BytesOf(b)) == b
  {
    if b == [] {
    } else {
      BitsOfBytes(b[8..]);
      ToBitsOfToNat(b[..8]);
      assert BytesOf(b)[1..] == BytesOf(b[8..]);
    }
  }

  function ZeroBytes(n: nat): (z: Bytes)
    ensures |z| == n
  {
    seq(n, _ => 0)
  }

  /** Source port, destination port, and enough for either transport header. */
  function Transport(dport: U16): (t: Bytes)
    ensures |t| == TCP_HEADER && Be16(t[2], t[3]) == dport
  {
    ZeroBytes(2) + [dport / 256, dport % 256] + ZeroBytes(16)
  }

  /** Everything up to the transport header of a plain IPv4 frame. */
  function Ipv4Head(proto: U8, src: Bytes): (h: Bytes)
    requires |src| == 4
    ensures |h| == ETH_HEADER + IPV4_HEADER && Be16(h[12], h[13]) == ETH_P_IP
    ensures h[14] % 16 == 5 && h[23] == proto && h[26..30] == src
  {
    ZeroBytes(12) + [8, 0] + [0x45] + ZeroBytes(8) + [proto] + ZeroBytes(2) + src + ZeroBytes(4)
  }

  /** And of an IPv6 frame with one fragment header, which may name any next header. */
  function Ipv6Head(proto: U8, src: Bytes): (h: Bytes)
    requires |src| == 16
    ensures |h| == ETH_HEADER + IPV6_HEADER + 8 && Be16(h[12], h[13]) == ETH_P_IPV6
    ensures h[20] == IPV6_FRAGMENT && h[54] == proto && h[22..38] == src
  {
    ZeroBytes(12) + [0x86, 0xDD] + ZeroBytes(6) + [IPV6_FRAGMENT] + ZeroBytes(1) + src + ZeroBytes(16)
    + [proto] + ZeroBytes(7)
  }

  function FrameOf(pkt: Packet): Bytes
  {
    var src := BytesOf(pkt.src.bits);
    (if pkt.src.family == V4 then Ipv4Head(pkt.proto, src) else Ipv6Head(pkt.proto, src)) + Transport(pkt.dport)
  }

  lemma TransportRead(head: Bytes, pkt: Packet, data: Bytes)
    requires data == head + Transport(pkt.dport) && Readable(pkt)
    ensures ParseTransport(data, pkt.src, Place(|head|, pkt.proto)) == Good(pkt)
  {
    assert data[|head| + 2] == Transport(pkt.dport)[2] && data[|head| + 3] == Transport(pkt.dport)[3];
  }

  lemma FragmentRead(data: Bytes, proto: U8)
    requires |data| >= 62 && data[54] == proto
    ensures Walk(data, Place(54, IPV6_FRAGMENT), MAX_EXTENSIONS) == Some(Place(62, proto))
  {
  }

  lemma Ipv4FrameRead(pkt: Packet)
    requires Readable(pkt) && pkt.src.family == V4
    ensures Parse(FrameOf(pkt)) == Good(pkt)
  {
    var src, data := BytesOf(pkt.src.bits), FrameOf(pkt);
    var head := Ipv4Head(pkt.proto, src);
    BitsOfBytes(pkt.src.bits);
    assert data[..|head|] == head && data[26..30] == head[26..30];
    assert data[12] == head[12] && data[13] == head[13] && data[14] == head[14] && data[23] == head[23];
    TransportRead(head, pkt, data);
  }

  lemma Ipv6FrameRead(pkt: Packet)
    requires Readable(pkt) && pkt.src.family == V6
    ensures Parse(FrameOf(pkt)) == Good(pkt)
  {
    var src, data := BytesOf(pkt.src.bits), FrameOf(pkt);
    var head := Ipv6Head(pkt.proto, src);
    BitsOfBytes(pkt.src.bits);
    assert data[..|head|] == head && data[22..38] == head[22..38];
    assert data[12] == head[12] && data[13] == head[13] && data[20] == head[20] && data[54] == head[54];
    FragmentRead(data, pkt.proto);
    TransportRead(head, pkt, data);
  }

  /** The packets frames are read as are exactly those without a port or of a protocol
      that has ports. */
  lemma ReadableIffParsed(pkt: Packet)
    ensures Readable(pkt) <==> exists data: Bytes :: Parse(data) == Good(pkt)
  {
    if Readable(pkt) {
      if pkt.src.family == V4 {
        Ipv4FrameRead(pkt);
      } else {
        Ipv6FrameRead(pkt);
      }
    } else {
      forall data: Bytes
        ensures Parse(data) != Good(pkt)
      {
        ParsedIsReadable(data);
      }
    }
  }
}
