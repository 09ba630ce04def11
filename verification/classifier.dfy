/** The stateless half of the packet program: table lookups in a fixed order. */
module Classifier {

  import opened Bits
  import opened Net
  import opened LpmTrie
  import opened Encoding
  import opened Policy
  import opened Compaction
  import opened Pending
  import opened Results

  datatype Packet = Packet(src: Ip, proto: U8, dport: U16)

  /** What a frame can be read as: only TCP and UDP carry a port. */
  predicate Readable(pkt: Packet)
  {
    pkt.dport == 0 || pkt.proto == PROTO_TCP || pkt.proto == PROTO_UDP
  }

  datatype DropReason =
    | RuleDrop(source: RuleSource)
    | GeoDrop(country: U16)
    | RateDrop
    | FloodDrop
    | CustomRateDrop
    | ParseDrop
    | TempBanDrop

  /** What the stateless stages decide; `Continue` hands over to dynamic defense. */
  datatype Stage = Pass | Drop(reason: DropReason) | Continue

  datatype KernelTables = KernelTables(
    trusted: map<Bits, bool>,
    tempBans: map<Bits, Time>,
    rules: map<Bits, RuleValue>,
    geo: map<Bits, U16>,
    countries: map<U16, RuleAction>)

  /** A protocol and port a lookup is made for. */
  datatype Scope = Scope(proto: U8, dport: U16)

  /** The four lookups of a packet: exact, any port, any protocol, any both. */
  function ScopeOf(pkt: Packet, k: nat): Scope
  {
    Scope(if k < 2 then pkt.proto else PROTO_ANY, if k % 2 == 0 then pkt.dport else 0)
  }

  function Query(pkt: Packet, scope: Scope): Bits
  {
    ScopedQuery(pkt.src, scope.proto, scope.dport)
  }

  function LookupRule(rules: map<Bits, RuleValue>, pkt: Packet): Option<RuleValue>
  {
    var exact := Lookup(rules, Query(pkt, ScopeOf(pkt, 0)));
    if exact.Some? then exact else
    var anyPort := Lookup(rules, Query(pkt, ScopeOf(pkt, 1)));
    if anyPort.Some? then anyPort else
    var anyProto := Lookup(rules, Query(pkt, ScopeOf(pkt, 2)));
    if anyProto.Some? then anyProto else
    Lookup(rules, Query(pkt, ScopeOf(pkt, 3)))
  }

  predicate TempBanValueActive(value: Option<Time>, now: Time)
  {
    value.Some? && value.value > now
  }

  predicate TempBanActive(bans: map<Bits, Time>, pkt: Packet, now: Time)
  {
    || TempBanValueActive(Lookup(bans, Query(pkt, ScopeOf(pkt, 0))), now)
    || TempBanValueActive(Lookup(bans, Query(pkt, ScopeOf(pkt, 1))), now)
    || TempBanValueActive(Lookup(bans, Query(pkt, ScopeOf(pkt, 2))), now)
    || TempBanValueActive(Lookup(bans, Query(pkt, ScopeOf(pkt, 3))), now)
  }

  /** The stages of packet handling before dynamic defense. */
  function StatelessStage(t: KernelTables, pkt: Packet, now: Time): Stage
  {
    if Lookup(t.trusted, SourceQuery(pkt.src)).Some? then Pass
    else if TempBanActive(t.tempBans, pkt, now) then Drop(TempBanDrop)
    else
      var rule := LookupRule(t.rules, pkt);
      if rule.Some? && rule.value.action == Deny then Drop(RuleDrop(rule.value.source))
      else if rule.Some? && rule.value.action == Allow then Pass
      else
        var geo := Lookup(t.geo, SourceQuery(pkt.src));
        if geo.Some? && geo.value in t.countries && t.countries[geo.value] == Deny
        then Drop(GeoDrop(geo.value))
        else Continue
  }

  // -------------------------------------------------- what userspace writes

  function TrustedTable(prefixes: seq<Cidr>): map<Bits, bool>
  {
    FirstWins(TrustedCandidates(Compacted(prefixes, TrustedPrefixCovers)))
  }

  function TempBanTable(bans: seq<XdpTempBan>, locals: seq<Ip>, wallNow: Time): map<Bits, Time>
  {
    FirstWins(BanCandidates(Compacted(bans, TempBanCoversOrSupersedes), locals, wallNow))
  }

  function RuleTable(policy: CompiledPolicy, locals: seq<Ip>): map<Bits, RuleValue>
  {
    FirstWins(RuleCandidates(OrderedPolicyRules(policy), locals))
  }

  function GeoTable(prefixes: seq<XdpGeoPrefix>): map<Bits, U16>
  {
    FirstWins(GeoCandidates(prefixes))
  }

  function TablesOf(policy: CompiledPolicy, locals: seq<Ip>, wallNow: Time): KernelTables
  {
    KernelTables(
      TrustedTable(policy.trustedPrefixes),
      TempBanTable(policy.tempBans, locals, wallNow),
      RuleTable(policy, locals),
      GeoTable(policy.geoPrefixes),
      FirstTable(CountryCandidates(policy.countryRules)))
  }
}
