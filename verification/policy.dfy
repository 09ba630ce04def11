/** Policy as the control plane stores it, and its compiled form. */
module Policy {

  import opened Net
  import opened Encoding
  import opened Results

  datatype RuleAction = Allow | Deny

  datatype L4Protocol = Any | Tcp | Udp | Icmp

  function ProtoCode(p: L4Protocol): U8
  {
    match p
    case Any => PROTO_ANY
    case Tcp => PROTO_TCP
    case Udp => PROTO_UDP
    case Icmp => PROTO_ICMP
  }

  /** A line with this protocol and port is about packets of that protocol number and
      destination port; the numbers are those IANA assigns. */
  predicate About(protocol: L4Protocol, port: Option<U16>, proto: U8, dport: U16)
  {
    && (match protocol case Any => true case Tcp => proto == 6 case Udp => proto == 17 case Icmp => proto == 1)
    && (HasPort(port) ==> port.value == dport)
  }

  /** Port 0 counts as none. */
  predicate HasPort(port: Option<U16>)
  {
    port.Some? && port.value != 0
  }

  /** A line for one protocol comes before one for any, and among those a line for one
      port before one for every port. */
  predicate Narrower(protocol: L4Protocol, port: Option<U16>, otherProtocol: L4Protocol, otherPort: Option<U16>)
  {
    || (protocol != Any && otherProtocol == Any)
    || ((protocol == Any <==> otherProtocol == Any) && HasPort(port) && !HasPort(otherPort))
  }

  type I32 = x: int | -0x8000_0000 <= x < 0x8000_0000
  type U32 = x: nat | x < 0x1_0000_0000

  const I32_MIN: I32 := -0x8000_0000

  /** A normalized country code: two upper-case letters. */
  datatype RawCountry = Country(first: U8, second: U8)

  type Country = c: RawCountry | IsUpperLetter(c.first) && IsUpperLetter(c.second) witness Country(65, 65)

  predicate IsUpperLetter(b: U8)
  {
    65 <= b <= 90
  }

  function EncodeCountry(c: Country): U16
  {
    c.first * 256 + c.second
  }

  /** Times are abstract instants of one clock. */
  type Time = nat

  datatype FirewallRule = FirewallRule(
    priority: I32, action: RuleAction, cidr: Cidr, protocol: L4Protocol, port: Option<U16>)

  datatype GeoCountryPolicy = GeoCountryPolicy(country: Country, action: RuleAction)

  datatype GeoIpPrefixPolicy = GeoIpPrefixPolicy(cidr: Cidr, country: Country)

  datatype TempBanPolicy = TempBanPolicy(
    cidr: Cidr, protocol: L4Protocol, port: Option<U16>, expiresAt: Time)

  datatype DynamicDefensePolicy = DynamicDefensePolicy(
    enabled: bool,
    ipRateLimitEnabled: bool, ipPacketsPerSecond: Option<U32>, ipBurst: Option<U32>,
    floodEnabled: bool, floodPacketsPerSecond: Option<U32>, floodBurst: Option<U32>,
    floodBlockSeconds: Option<U32>)

  datatype DynamicRateLimitPolicy = DynamicRateLimitPolicy(
    priority: I32, protocol: L4Protocol, port: Option<U16>, packetsPerSecond: U32, burst: U32)

  /** Threat prefixes reach the compiler already cut to their network address. */
  type ThreatPrefix = c: Cidr | Canonical(c) witness Cidr(Ip(V4, seq(32, _ => false)), 0)

  datatype PolicySnapshot = PolicySnapshot(
    trustedCidrs: seq<Cidr>,
    rules: seq<FirewallRule>,
    geoCountries: seq<GeoCountryPolicy>,
    geoPrefixes: seq<GeoIpPrefixPolicy>,
    tempBans: seq<TempBanPolicy>,
    dynamicDefense: DynamicDefensePolicy,
    dynamicRateLimits: seq<DynamicRateLimitPolicy>,
    threatPrefixes: seq<ThreatPrefix>)

  datatype RuleSource = FirewallSource | ThreatIntel

  datatype XdpPrefixRule = XdpPrefixRule(
    net: Cidr, priority: I32, action: RuleAction, protocol: L4Protocol, port: U16, source: RuleSource)

  datatype XdpGeoPrefix = XdpGeoPrefix(net: Cidr, country: U16)

  datatype XdpCountryRule = XdpCountryRule(country: U16, action: RuleAction)

  datatype XdpTempBan = XdpTempBan(net: Cidr, protocol: L4Protocol, port: U16, expiresAt: Time)

  datatype XdpDynamicDefense = XdpDynamicDefense(
    enabled: bool,
    ipRateLimitEnabled: bool, ipPacketsPerSecond: U32, ipBurst: U32,
    floodEnabled: bool, floodPacketsPerSecond: U32, floodBurst: U32, floodBlockSeconds: U32)

  datatype XdpDynamicRateLimit = XdpDynamicRateLimit(
    protocol: L4Protocol, port: U16, packetsPerSecond: U32, burst: U32)

  datatype CompiledPolicy = CompiledPolicy(
    trustedPrefixes: seq<Cidr>,
    rules: seq<XdpPrefixRule>,
    countryRules: seq<XdpCountryRule>,
    tempBans: seq<XdpTempBan>,
    dynamicDefense: XdpDynamicDefense,
    dynamicRateLimits: seq<XdpDynamicRateLimit>,
    geoPrefixes: seq<XdpGeoPrefix>,
    threatPrefixes: seq<XdpPrefixRule>)

  lemma EncodeCountryInjective(a: Country, b: Country)
    requires EncodeCountry(a) == EncodeCountry(b)
    ensures a == b
  {
  }
}
