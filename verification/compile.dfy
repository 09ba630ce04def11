/** The policy compiler: every network is cut to its network address, a missing
    port becomes 0, expired bans are left out. */
module Compile {

  import opened Net
  import opened Encoding
  import opened Policy
  import opened Results

  datatype CompileError = InvalidDynamicDefense | InvalidDynamicRateLimit

  function Positive(value: Option<U32>): bool
  {
    value.Some? && value.value > 0
  }

  predicate ValidDynamicDefense(p: DynamicDefensePolicy)
  {
    p.enabled ==>
      && (p.ipRateLimitEnabled ==> Positive(p.ipPacketsPerSecond) && Positive(p.ipBurst))
      && (p.floodEnabled ==>
            Positive(p.floodPacketsPerSecond) && Positive(p.floodBurst) && Positive(p.floodBlockSeconds))
  }

  predicate ValidDynamicRateLimit(l: DynamicRateLimitPolicy)
  {
    l.packetsPerSecond > 0 && l.burst > 0 && !(l.protocol == Icmp && l.port.Some?)
  }

  /** The limits that are switched on are positive numbers, and so is the block. */
  predicate Usable(d: DynamicDefensePolicy)
  {
    d.enabled ==>
      && (d.floodEnabled ==>
            match (d.floodPacketsPerSecond, d.floodBurst, d.floodBlockSeconds)
            case (Some(rate), Some(burst), Some(seconds)) => rate > 0 && burst > 0 && seconds > 0
            case _ => false)
      && (d.ipRateLimitEnabled ==>
            match (d.ipPacketsPerSecond, d.ipBurst)
            case (Some(rate), Some(burst)) => rate > 0 && burst > 0
            case _ => false)
  }

  function CompilePolicy(s: PolicySnapshot, now: Time): (r: Result<CompiledPolicy, CompileError>)
    ensures r.Ok? ==> Usable(s.dynamicDefense)
  {
    if !ValidDynamicDefense(s.dynamicDefense) then Err(InvalidDynamicDefense)
    else if exists l <- s.dynamicRateLimits :: !ValidDynamicRateLimit(l) then Err(InvalidDynamicRateLimit)
    else Ok(CompiledPolicy(
      CompileTrusted(s.trustedCidrs),
      CompileRules(s.rules),
      CompileCountries(s.geoCountries),
      CompileActiveTempBans(s.tempBans, now),
      CompileDefense(s.dynamicDefense),
      CompileRateLimits(s.dynamicRateLimits),
      CompileGeo(s.geoPrefixes),
      CompileThreats(s.threatPrefixes)))
  }

  function CompileTrusted(cidrs: seq<Cidr>): (r: seq<Cidr>)
    ensures |r| == |cidrs| && forall i :: 0 <= i < |r| ==> r[i] == Trunc(cidrs[i])
  {
    seq(|cidrs|, i requires 0 <= i < |cidrs| => Trunc(cidrs[i]))
  }

  function CompileRule(rule: FirewallRule): XdpPrefixRule
  {
    XdpPrefixRule(Trunc(rule.cidr), rule.priority, rule.action, rule.protocol,
                  rule.port.GetOr(0), FirewallSource)
  }

  function CompileRules(rules: seq<FirewallRule>): (r: seq<XdpPrefixRule>)
    ensures |r| == |rules| && forall i :: 0 <= i < |r| ==> r[i] == CompileRule(rules[i])
  {
    seq(|rules|, i requires 0 <= i < |rules| => CompileRule(rules[i]))
  }

  function CompileThreat(prefix: ThreatPrefix): XdpPrefixRule
  {
    XdpPrefixRule(prefix, I32_MIN, Deny, Any, 0, ThreatIntel)
  }

  function CompileThreats(prefixes: seq<ThreatPrefix>): (r: seq<XdpPrefixRule>)
    ensures |r| == |prefixes| && forall i :: 0 <= i < |r| ==> r[i] == CompileThreat(prefixes[i])
  {
    seq(|prefixes|, i requires 0 <= i < |prefixes| => CompileThreat(prefixes[i]))
  }

  function CompileCountries(policies: seq<GeoCountryPolicy>): (r: seq<XdpCountryRule>)
    ensures |r| == |policies|
    ensures forall i :: 0 <= i < |r| ==>
              r[i] == XdpCountryRule(EncodeCountry(policies[i].country), policies[i].action)
  {
    seq(|policies|, i requires 0 <= i < |policies| =>
      XdpCountryRule(EncodeCountry(policies[i].country), policies[i].action))
  }

  function CompileGeo(prefixes: seq<GeoIpPrefixPolicy>): (r: seq<XdpGeoPrefix>)
    ensures |r| == |prefixes|
    ensures forall i :: 0 <= i < |r| ==>
              r[i] == XdpGeoPrefix(Trunc(prefixes[i].cidr), EncodeCountry(prefixes[i].country))
  {
    seq(|prefixes|, i requires 0 <= i < |prefixes| =>
      XdpGeoPrefix(Trunc(prefixes[i].cidr), EncodeCountry(prefixes[i].country)))
  }

  function CompileBan(ban: TempBanPolicy): XdpTempBan
  {
    XdpTempBan(Trunc(ban.cidr), ban.protocol, ban.port.GetOr(0), ban.expiresAt)
  }

  function CompileActiveTempBans(bans: seq<TempBanPolicy>, now: Time): (r: seq<XdpTempBan>)
    ensures forall b <- bans :: b.expiresAt > now ==> CompileBan(b) in r
    ensures forall x <- r :: exists b <- bans :: b.expiresAt > now && x == CompileBan(b)
  {
    if bans == [] then []
    else
      var rest := CompileActiveTempBans(bans[1..], now);
      assert forall b <- bans :: b == bans[0] || b in bans[1..];
      if bans[0].expiresAt > now then [CompileBan(bans[0])] + rest else rest
  }

  function CompileDefense(p: DynamicDefensePolicy): XdpDynamicDefense
  {
    XdpDynamicDefense(
      p.enabled,
      p.ipRateLimitEnabled, p.ipPacketsPerSecond.GetOr(0), p.ipBurst.GetOr(0),
      p.floodEnabled, p.floodPacketsPerSecond.GetOr(0), p.floodBurst.GetOr(0),
      p.floodBlockSeconds.GetOr(0))
  }

  function CompileRateLimits(limits: seq<DynamicRateLimitPolicy>): (r: seq<XdpDynamicRateLimit>)
    ensures |r| == |limits|
    ensures forall i :: 0 <= i < |r| ==>
              r[i] == XdpDynamicRateLimit(limits[i].protocol, limits[i].port.GetOr(0),
                                          limits[i].packetsPerSecond, limits[i].burst)
  {
    seq(|limits|, i requires 0 <= i < |limits| =>
      XdpDynamicRateLimit(limits[i].protocol, limits[i].port.GetOr(0),
                          limits[i].packetsPerSecond, limits[i].burst))
  }
}
