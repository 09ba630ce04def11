/** What a policy means, evaluated directly on its CIDR lists by linear scans, and
    the proof that the compiled, compacted, encoded tries decide the same. */
module Meaning {

  import opened Bits
  import opened Net
  import opened LpmTrie
  import opened Encoding
  import opened Policy
  import opened Compile
  import opened Compaction
  import opened Pending
  import opened Classifier
  import opened Results

  // --------------------------------------------------------------- rule lines

  /** A user rule or threat prefix as the policy states it. */
  datatype Line = Line(cidr: Cidr, protocol: L4Protocol, port: Option<U16>, value: RuleValue)

  function ThreatLine(t: ThreatPrefix): Line
  {
    Line(t, Any, None, RuleValue(Deny, ThreatIntel, I32_MIN))
  }

  function RuleLine(r: FirewallRule): Line
  {
    Line(r.cidr, r.protocol, r.port, RuleValue(r.action, FirewallSource, r.priority))
  }

  function ThreatLines(ts: seq<ThreatPrefix>): (ls: seq<Line>)
    ensures |ls| == |ts| && forall i :: 0 <= i < |ls| ==> ls[i] == ThreatLine(ts[i])
  {
    seq(|ts|, i requires 0 <= i < |ts| => ThreatLine(ts[i]))
  }

  function RuleLines(rs: seq<FirewallRule>): (ls: seq<Line>)
    ensures |ls| == |rs| && forall i :: 0 <= i < |ls| ==> ls[i] == RuleLine(rs[i])
  {
    seq(|rs|, i requires 0 <= i < |rs| => RuleLine(rs[i]))
  }

  function PolicyLines(s: PolicySnapshot): seq<Line>
  {
    ThreatLines(s.threatPrefixes) + RuleLines(s.rules)
  }

  predicate HasLocal(cidr: Cidr, locals: seq<Ip>)
  {
    exists ip <- locals :: Contains(cidr, ip)
  }

  /** The line speaks about this scope and source, and is not a deny that would
      block one of the agent's own addresses. */
  predicate Governs(line: Line, scope: Scope, src: Ip, locals: seq<Ip>)
  {
    && Scope(ProtoCode(line.protocol), line.port.GetOr(0)) == scope
    && Contains(line.cidr, src)
    && !(line.value.action == Deny && HasLocal(line.cidr, locals))
  }

  /** The governing line with the longest prefix; among equal networks the lowest
      priority number, then threat intelligence, then the earlier line. */
  function BestLine(lines: seq<Line>, scope: Scope, src: Ip, locals: seq<Ip>): (r: Option<Line>)
    ensures r.Some? ==> r.value in lines && Governs(r.value, scope, src, locals)
    ensures forall l <- lines :: Governs(l, scope, src, locals) ==>
              r.Some? && (l.cidr.prefix < r.value.cidr.prefix
                          || (l.cidr.prefix == r.value.cidr.prefix && RankLe(r.value.value, l.value)))
  {
    if lines == [] then None
    else
      var rest := BestLine(lines[1..], scope, src, locals);
      assert forall l <- lines :: l == lines[0] || l in lines[1..];
      if Governs(lines[0], scope, src, locals)
         && (rest.None? || lines[0].cidr.prefix > rest.value.cidr.prefix
             || (lines[0].cidr.prefix == rest.value.cidr.prefix && RankLe(lines[0].value, rest.value.value)))
      then Some(lines[0])
      else rest
  }

  /** The first non-empty scope decides. */
  function RuleDecision(s: PolicySnapshot, pkt: Packet, locals: seq<Ip>, k: nat): Option<Line>
    requires k <= 4
    decreases 4 - k
  {
    if k == 4 then None
    else
      var best := BestLine(PolicyLines(s), ScopeOf(pkt, k), pkt.src, locals);
      if best.Some? then best else RuleDecision(s, pkt, locals, k + 1)
  }

  // ------------------------------------------------ which line decides, field by field

  /** The line is about the packet, and not a deny that is refused. */
  predicate Bears(line: Line, pkt: Packet, locals: seq<Ip>)
  {
    && About(line.protocol, line.port, pkt.proto, pkt.dport)
    && Contains(line.cidr, pkt.src)
    && !(line.value.action == Deny && HasLocal(line.cidr, locals))
  }

  /** In one scope: the longer prefix, then the lower priority number, then threat
      intelligence before rules. */
  predicate Outranks(a: Line, b: Line)
  {
    || a.cidr.prefix > b.cidr.prefix
    || (a.cidr.prefix == b.cidr.prefix && a.value.priority < b.value.priority)
    || (a.cidr.prefix == b.cidr.prefix && a.value.priority == b.value.priority
        && a.value.source == ThreatIntel && b.value.source == FirewallSource)
  }

  /** The packet's own protocol before any, then its own port before any, then the rank. */
  predicate Preferred(a: Line, b: Line)
  {
    || Narrower(a.protocol, a.port, b.protocol, b.port)
    || (!Narrower(b.protocol, b.port, a.protocol, a.port) && Outranks(a, b))
  }

  /** A threat prefix comes before every rule for any protocol and port whose network is no
      smaller. */
  lemma ThreatsComeFirst(t: ThreatPrefix, r: FirewallRule)
    requires r.protocol == Any && !HasPort(r.port) && r.cidr.prefix <= t.prefix
    ensures Preferred(ThreatLine(t), RuleLine(r)) && !Preferred(RuleLine(r), ThreatLine(t))
    ensures ThreatLine(t).value.action == Deny
  {
  }

  /** The i-th line bears on the packet, none that does is preferred to it, and it is
      preferred to every earlier one. */
  ghost predicate Decisive(lines: seq<Line>, i: nat, pkt: Packet, locals: seq<Ip>)
    requires i < |lines|
  {
    && Bears(lines[i], pkt, locals)
    && forall j :: 0 <= j < |lines| && Bears(lines[j], pkt, locals) ==>
         !Preferred(lines[j], lines[i]) && (j < i ==> Preferred(lines[i], lines[j]))
  }

  /** The same inside one scope. */
  ghost predicate BestAt(lines: seq<Line>, i: nat, scope: Scope, src: Ip, locals: seq<Ip>)
    requires i < |lines|
  {
    && Governs(lines[i], scope, src, locals)
    && forall j :: 0 <= j < |lines| && Governs(lines[j], scope, src, locals) ==>
         !Outranks(lines[j], lines[i]) && (j < i ==> Outranks(lines[i], lines[j]))
  }

  lemma {:induction false} BestLineAt(lines: seq<Line>, scope: Scope, src: Ip, locals: seq<Ip>) returns (i: nat)
    requires BestLine(lines, scope, src, locals).Some?
    ensures i < |lines| && BestLine(lines, scope, src, locals) == Some(lines[i])
    ensures BestAt(lines, i, scope, src, locals)
  {
    var rest := BestLine(lines[1..], scope, src, locals);
    assert forall j :: 0 < j < |lines| ==> lines[j] == lines[1..][j - 1];
    if rest.None? {
      i := 0;
      assert forall j :: 0 < j < |lines| ==> lines[j] in lines[1..];
    } else {
      var k := BestLineAt(lines[1..], scope, src, locals);
      i := if BestLine(lines, scope, src, locals) == Some(lines[0]) then 0 else k + 1;
    }
  }

  /** Which of the four lookups finds a line by its own protocol and port. */
  function ClassOf(line: Line): nat
  {
    (if line.protocol == Any then 2 else 0) + (if HasPort(line.port) then 0 else 1)
  }

  /** A line that bears on the packet governs the scope of its class, and whatever governs
      one of the four scopes bears on the packet. */
  lemma BearsInItsScope(line: Line, pkt: Packet, locals: seq<Ip>, k: nat)
    ensures Bears(line, pkt, locals) <==> Governs(line, ScopeOf(pkt, ClassOf(line)), pkt.src, locals)
    ensures k < 4 && Governs(line, ScopeOf(pkt, k), pkt.src, locals) ==> ScopeOf(pkt, ClassOf(line)) == ScopeOf(pkt, k)
    ensures ClassOf(line) < 4
  {
  }

  /** The first of four candidates that is there. */
  lemma FirstOfFour(best: nat -> Option<Line>, first: Option<Line>) returns (k: nat)
    requires first == if best(0).Some? then best(0) else if best(1).Some? then best(1)
                      else if best(2).Some? then best(2) else best(3)
    ensures k < 4 && first == best(k) && forall m :: 0 <= m < k ==> best(m).None?
    ensures first.None? ==> forall m :: 0 <= m < 4 ==> best(m).None?
  {
    k := if best(0).Some? then 0 else if best(1).Some? then 1 else if best(2).Some? then 2 else 3;
  }

  lemma RuleDecisionUnfolds(s: PolicySnapshot, pkt: Packet, locals: seq<Ip>)
    ensures var best := (k: nat) => BestLine(PolicyLines(s), ScopeOf(pkt, k), pkt.src, locals);
            RuleDecision(s, pkt, locals, 0) ==
              if best(0).Some? then best(0) else if best(1).Some? then best(1)
              else if best(2).Some? then best(2) else best(3)
  {
  }

  /** The decision is the best line of the first scope that has one. */
  lemma FirstScope(s: PolicySnapshot, pkt: Packet, locals: seq<Ip>, best: nat -> Option<Line>) returns (k: nat)
    requires best == ((k: nat) => BestLine(PolicyLines(s), ScopeOf(pkt, k), pkt.src, locals))
    ensures k < 4 && RuleDecision(s, pkt, locals, 0) == best(k) && forall m :: 0 <= m < k ==> best(m).None?
    ensures RuleDecision(s, pkt, locals, 0).None? ==> forall m :: 0 <= m < 4 ==> best(m).None?
  {
    RuleDecisionUnfolds(s, pkt, locals);
    k := FirstOfFour(best, RuleDecision(s, pkt, locals, 0));
  }

  lemma NarrowerIsLowerClass(a: Line, b: Line)
    ensures Narrower(a.protocol, a.port, b.protocol, b.port) <==> ClassOf(a) < ClassOf(b)
  {
  }

  /** If no scope before the k-th is that of `b`, then `a`, found in the k-th, is of no
      higher class than `b`. */
  lemma EarlierScopeLowerClass(a: Line, b: Line, pkt: Packet, locals: seq<Ip>, k: nat)
    requires k < 4 && Governs(a, ScopeOf(pkt, k), pkt.src, locals) && Bears(b, pkt, locals)
    requires forall m :: 0 <= m < k ==> ScopeOf(pkt, m) != ScopeOf(pkt, ClassOf(b))
    ensures ClassOf(a) <= ClassOf(b)
    ensures ClassOf(a) == ClassOf(b) ==> Governs(b, ScopeOf(pkt, k), pkt.src, locals)
  {
    BearsInItsScope(a, pkt, locals, k);
    BearsInItsScope(b, pkt, locals, ClassOf(b));
    assert k > 0 ==> ScopeOf(pkt, 0) != ScopeOf(pkt, ClassOf(b));
    assert k > ClassOf(b) ==> ScopeOf(pkt, ClassOf(b)) != ScopeOf(pkt, ClassOf(b));
  }

  /** What bears on the packet is behind the best line of the first scope that has any. */
  lemma FirstScopeDecides(lines: seq<Line>, pkt: Packet, locals: seq<Ip>, k: nat, i: nat, j: nat,
                          best: nat -> Option<Line>)
    requires best == ((k: nat) => BestLine(lines, ScopeOf(pkt, k), pkt.src, locals))
    requires i < |lines| && j < |lines| && k < 4 && BestAt(lines, i, ScopeOf(pkt, k), pkt.src, locals)
    requires (forall m :: 0 <= m < k ==> best(m).None?) && Bears(lines[j], pkt, locals)
    ensures !Preferred(lines[j], lines[i]) && (j < i ==> Preferred(lines[i], lines[j]))
  {
    var own := ClassOf(lines[j]);
    BearsInItsScope(lines[j], pkt, locals, own);
    forall m | 0 <= m < k
      ensures ScopeOf(pkt, m) != ScopeOf(pkt, own)
    {
      assert best(m).None? && lines[j] in lines;
    }
    EarlierScopeLowerClass(lines[i], lines[j], pkt, locals, k);
    NarrowerIsLowerClass(lines[i], lines[j]);
    NarrowerIsLowerClass(lines[j], lines[i]);
  }

  /** The decision, in the policy's own fields: a line decides exactly if it bears on the
      packet and no line that does is preferred to it; of equals the first. */
  lemma DecisionIsDecisive(s: PolicySnapshot, pkt: Packet, locals: seq<Ip>)
    ensures var decision, lines := RuleDecision(s, pkt, locals, 0), PolicyLines(s);
            && (decision.None? <==> forall i :: 0 <= i < |lines| ==> !Bears(lines[i], pkt, locals))
            && (decision.Some? ==> exists i :: 0 <= i < |lines| && decision == Some(lines[i])
                                               && Decisive(lines, i, pkt, locals))
  {
    var decision, lines := RuleDecision(s, pkt, locals, 0), PolicyLines(s);
    var best := (k: nat) => BestLine(PolicyLines(s), ScopeOf(pkt, k), pkt.src, locals);
    var k := FirstScope(s, pkt, locals, best);
    if decision.Some? {
      var i := BestLineAt(lines, ScopeOf(pkt, k), pkt.src, locals);
      BearsInItsScope(lines[i], pkt, locals, k);
      forall j | 0 <= j < |lines| && Bears(lines[j], pkt, locals)
        ensures !Preferred(lines[j], lines[i]) && (j < i ==> Preferred(lines[i], lines[j]))
      {
        FirstScopeDecides(lines, pkt, locals, k, i, j, best);
      }
      assert Decisive(lines, i, pkt, locals);
    } else {
      forall i | 0 <= i < |lines|
        ensures !Bears(lines[i], pkt, locals)
      {
        BearsInItsScope(lines[i], pkt, locals, 0);
        assert best(ClassOf(lines[i])).None? && lines[i] in lines;
      }
    }
  }

  // ------------------------------------------------------- bans, trust, geo

  /** A ban matches its own protocol or any, its own port or any. */
  predicate BanApplies(ban: TempBanPolicy, pkt: Packet, now: Time, locals: seq<Ip>)
  {
    && ban.expiresAt > now
    && (ban.protocol == Any || ProtoCode(ban.protocol) == pkt.proto)
    && (ban.port.GetOr(0) == 0 || ban.port.GetOr(0) == pkt.dport)
    && Contains(ban.cidr, pkt.src)
    && !HasLocal(ban.cidr, locals)
  }

  predicate Banned(s: PolicySnapshot, pkt: Packet, now: Time, locals: seq<Ip>)
  {
    exists b <- s.tempBans :: BanApplies(b, pkt, now, locals)
  }

  /** The most specific country network containing the source, first listed on ties. */
  function BestGeo(prefixes: seq<GeoIpPrefixPolicy>, src: Ip): Option<GeoIpPrefixPolicy>
  {
    if prefixes == [] then None
    else
      var rest := BestGeo(prefixes[1..], src);
      if Contains(prefixes[0].cidr, src) && (rest.None? || prefixes[0].cidr.prefix >= rest.value.cidr.prefix)
      then Some(prefixes[0])
      else rest
  }

  function CountryAction(rules: seq<GeoCountryPolicy>, country: Country): Option<RuleAction>
  {
    if rules == [] then None
    else if rules[0].country == country then Some(rules[0].action)
    else CountryAction(rules[1..], country)
  }

  /** Rules, then countries: what an unbanned packet from an untrusted source meets. */
  function RulesAndCountries(s: PolicySnapshot, pkt: Packet, locals: seq<Ip>): (stage: Stage)
    ensures stage != Drop(TempBanDrop)
  {
    var rule := RuleDecision(s, pkt, locals, 0);
    if rule.Some? && rule.value.value.action == Deny then Drop(RuleDrop(rule.value.value.source))
    else if rule.Some? then Pass
    else
      var geo := BestGeo(s.geoPrefixes, pkt.src);
      if geo.Some? && CountryAction(s.geoCountries, geo.value.country) == Some(Deny)
      then Drop(GeoDrop(EncodeCountry(geo.value.country)))
      else Continue
  }

  /** The documented enforcement order, once it is known whether the packet is banned. */
  function Decide(s: PolicySnapshot, pkt: Packet, banned: bool, locals: seq<Ip>): Stage
  {
    if Covered(s.trustedCidrs, pkt.src) then Pass
    else if banned then Drop(TempBanDrop)
    else RulesAndCountries(s, pkt, locals)
  }

  /** What the policy itself says about a packet. */
  function PolicyStage(s: PolicySnapshot, pkt: Packet, now: Time, locals: seq<Ip>): Stage
  {
    Decide(s, pkt, Banned(s, pkt, now, locals), locals)
  }

  // --------------------------------------------- what the policy says, field by field

  /** A running ban about the packet that spares the agent's addresses. */
  predicate BanBears(ban: TempBanPolicy, pkt: Packet, now: Time, locals: seq<Ip>)
  {
    && ban.expiresAt > now
    && About(ban.protocol, ban.port, pkt.proto, pkt.dport)
    && Contains(ban.cidr, pkt.src)
    && forall ip <- locals :: !Contains(ban.cidr, ip)
  }

  lemma BannedMeans(s: PolicySnapshot, pkt: Packet, now: Time, locals: seq<Ip>)
    ensures Banned(s, pkt, now, locals) <==> exists b <- s.tempBans :: BanBears(b, pkt, now, locals)
  {
    forall b: TempBanPolicy
      ensures BanApplies(b, pkt, now, locals) <==> BanBears(b, pkt, now, locals)
    {
    }
  }

  /** The i-th country network contains the source, no longer one does, and no earlier one
      as long. */
  predicate GeoDecisive(prefixes: seq<GeoIpPrefixPolicy>, i: nat, src: Ip)
    requires i < |prefixes|
  {
    && Contains(prefixes[i].cidr, src)
    && forall j :: 0 <= j < |prefixes| && Contains(prefixes[j].cidr, src) ==>
         && prefixes[j].cidr.prefix <= prefixes[i].cidr.prefix
         && (j < i ==> prefixes[j].cidr.prefix < prefixes[i].cidr.prefix)
  }

  lemma {:induction false} BestGeoAt(prefixes: seq<GeoIpPrefixPolicy>, src: Ip)
    ensures BestGeo(prefixes, src).None? ==> forall i :: 0 <= i < |prefixes| ==> !Contains(prefixes[i].cidr, src)
    ensures BestGeo(prefixes, src).Some? ==>
              exists i :: 0 <= i < |prefixes| && BestGeo(prefixes, src) == Some(prefixes[i])
                          && GeoDecisive(prefixes, i, src)
  {
    if prefixes == [] {
    } else {
      var rest := prefixes[1..];
      BestGeoAt(rest, src);
      assert forall j :: 0 < j < |prefixes| ==> prefixes[j] == rest[j - 1];
      var best, behind := BestGeo(prefixes, src), BestGeo(rest, src);
      if best == Some(prefixes[0]) && (behind.None? || prefixes[0].cidr.prefix >= behind.value.cidr.prefix) {
        assert GeoDecisive(prefixes, 0, src);
      } else if best.Some? {
        var k :| 0 <= k < |rest| && behind == Some(rest[k]) && GeoDecisive(rest, k, src);
        assert GeoDecisive(prefixes, k + 1, src);
      }
    }
  }

  /** The first rule for a country, if there is one, and it denies. */
  ghost predicate Denied(rules: seq<GeoCountryPolicy>, country: Country)
  {
    exists i :: 0 <= i < |rules| && rules[i] == GeoCountryPolicy(country, Deny)
                && forall j :: 0 <= j < i ==> rules[j].country != country
  }

  lemma {:induction false} CountryActionMeans(rules: seq<GeoCountryPolicy>, country: Country)
    ensures CountryAction(rules, country) == Some(Deny) <==> Denied(rules, country)
  {
    if rules == [] {
    } else {
      var rest := rules[1..];
      CountryActionMeans(rest, country);
      assert forall j :: 0 < j < |rules| ==> rules[j] == rest[j - 1];
      if rules[0].country != country {
        if Denied(rest, country) {
          var i :| 0 <= i < |rest| && rest[i] == GeoCountryPolicy(country, Deny)
                   && forall j :: 0 <= j < i ==> rest[j].country != country;
          assert rules[i + 1] == rest[i];
        }
        if Denied(rules, country) {
          var i :| 0 <= i < |rules| && rules[i] == GeoCountryPolicy(country, Deny)
                   && forall j :: 0 <= j < i ==> rules[j].country != country;
          assert rest[i - 1] == rules[i];
          assert forall j :: 0 <= j < i - 1 ==> rest[j] == rules[j + 1];
        }
      }
    }
  }

  ghost predicate DecidedBy(s: PolicySnapshot, pkt: Packet, locals: seq<Ip>, action: RuleAction, source: RuleSource)
  {
    exists i :: 0 <= i < |PolicyLines(s)| && Decisive(PolicyLines(s), i, pkt, locals)
                && PolicyLines(s)[i].value.action == action && PolicyLines(s)[i].value.source == source
  }

  ghost predicate NoLineBears(s: PolicySnapshot, pkt: Packet, locals: seq<Ip>)
  {
    forall i :: 0 <= i < |PolicyLines(s)| ==> !Bears(PolicyLines(s)[i], pkt, locals)
  }

  ghost predicate GeoDenied(s: PolicySnapshot, src: Ip, country: Country)
  {
    && (exists i :: 0 <= i < |s.geoPrefixes| && GeoDecisive(s.geoPrefixes, i, src)
                    && s.geoPrefixes[i].country == country)
    && Denied(s.geoCountries, country)
  }

  /** At most one line is decisive. */
  lemma OneDecides(lines: seq<Line>, i: nat, j: nat, pkt: Packet, locals: seq<Ip>)
    requires i < |lines| && j < |lines| && Decisive(lines, i, pkt, locals) && Decisive(lines, j, pkt, locals)
    ensures i == j
  {
  }

  lemma OneGeoDecides(prefixes: seq<GeoIpPrefixPolicy>, i: nat, j: nat, src: Ip)
    requires i < |prefixes| && j < |prefixes| && GeoDecisive(prefixes, i, src) && GeoDecisive(prefixes, j, src)
    ensures i == j
  {
  }

  /** The rule decision of a packet, by action and source. */
  lemma RuleDecides(s: PolicySnapshot, pkt: Packet, locals: seq<Ip>)
    ensures RuleDecision(s, pkt, locals, 0).None? <==> NoLineBears(s, pkt, locals)
    ensures forall action, source :: DecidedBy(s, pkt, locals, action, source) <==>
              var d := RuleDecision(s, pkt, locals, 0);
              d.Some? && d.value.value.action == action && d.value.value.source == source
  {
    DecisionIsDecisive(s, pkt, locals);
    var lines := PolicyLines(s);
    forall action, source
      ensures DecidedBy(s, pkt, locals, action, source) <==>
                var d := RuleDecision(s, pkt, locals, 0);
                d.Some? && d.value.value.action == action && d.value.value.source == source
    {
      if DecidedBy(s, pkt, locals, action, source) {
        var i :| 0 <= i < |lines| && Decisive(lines, i, pkt, locals)
                 && lines[i].value.action == action && lines[i].value.source == source;
        var k :| 0 <= k < |lines| && RuleDecision(s, pkt, locals, 0) == Some(lines[k])
                 && Decisive(lines, k, pkt, locals);
        OneDecides(lines, i, k, pkt, locals);
      }
    }
  }

  lemma GeoDecides(s: PolicySnapshot, src: Ip, country: Country)
    ensures GeoDenied(s, src, country) <==>
            var geo := BestGeo(s.geoPrefixes, src);
            geo.Some? && geo.value.country == country && CountryAction(s.geoCountries, country) == Some(Deny)
  {
    BestGeoAt(s.geoPrefixes, src);
    CountryActionMeans(s.geoCountries, country);
    if GeoDenied(s, src, country) {
      var i :| 0 <= i < |s.geoPrefixes| && GeoDecisive(s.geoPrefixes, i, src) && s.geoPrefixes[i].country == country;
      var k :| 0 <= k < |s.geoPrefixes| && BestGeo(s.geoPrefixes, src) == Some(s.geoPrefixes[k])
               && GeoDecisive(s.geoPrefixes, k, src);
      OneGeoDecides(s.geoPrefixes, i, k, src);
    }
  }

  /** Everything the policy says about a packet, in its own fields: trust before bans, bans
      before rules, rules before countries, and to the limits what none of them settles. */
  lemma PolicyStageMeans(s: PolicySnapshot, pkt: Packet, now: Time, locals: seq<Ip>)
    ensures var stage, trusted := PolicyStage(s, pkt, now, locals), exists c <- s.trustedCidrs :: Contains(c, pkt.src);
            var banned := exists b <- s.tempBans :: BanBears(b, pkt, now, locals);
            && (stage == Drop(TempBanDrop) <==> !trusted && banned)
            && (stage == Pass <==> trusted || (!banned && exists source :: DecidedBy(s, pkt, locals, Allow, source)))
            && (forall source :: stage == Drop(RuleDrop(source)) <==>
                  !trusted && !banned && DecidedBy(s, pkt, locals, Deny, source))
            && (stage.Drop? && stage.reason.GeoDrop? ==>
                  exists country :: stage.reason.country == EncodeCountry(country) && GeoDenied(s, pkt.src, country))
            && (stage == Continue <==>
                  && !trusted && !banned && NoLineBears(s, pkt, locals)
                  && forall country :: !GeoDenied(s, pkt.src, country))
  {
    BannedMeans(s, pkt, now, locals);
    RuleDecides(s, pkt, locals);
    forall country
      ensures GeoDenied(s, pkt.src, country) <==>
              var geo := BestGeo(s.geoPrefixes, pkt.src);
              geo.Some? && geo.value.country == country && CountryAction(s.geoCountries, country) == Some(Deny)
    {
      GeoDecides(s, pkt.src, country);
    }
    var rule, geo := RuleDecision(s, pkt, locals, 0), BestGeo(s.geoPrefixes, pkt.src);
    if rule.Some? {
      assert DecidedBy(s, pkt, locals, rule.value.value.action, rule.value.value.source);
    }
    if geo.Some? {
      GeoDecides(s, pkt.src, geo.value.country);
    }
  }

  // -------------------------------------------------------------- rules agree

  function CompileLine(l: Line): XdpPrefixRule
  {
    XdpPrefixRule(Trunc(l.cidr), l.value.priority, l.value.action, l.protocol, l.port.GetOr(0), l.value.source)
  }

  function CompileLines(lines: seq<Line>): (r: seq<XdpPrefixRule>)
    ensures |r| == |lines| && forall i :: 0 <= i < |r| ==> r[i] == CompileLine(lines[i])
  {
    seq(|lines|, i requires 0 <= i < |lines| => CompileLine(lines[i]))
  }

  ghost predicate Ranked(rules: seq<XdpPrefixRule>)
  {
    forall i, j :: 0 <= i < j < |rules| ==> RankLe(ValueOf(rules[i]), ValueOf(rules[j]))
  }

  lemma {:induction false} InsertKeepsRanked(rule: XdpPrefixRule, sorted: seq<XdpPrefixRule>)
    requires Ranked(sorted)
    ensures Ranked(InsertRanked(rule, sorted))
  {
    if sorted == [] || RankLe(ValueOf(rule), ValueOf(sorted[0])) {
    } else {
      var rest := InsertRanked(rule, sorted[1..]);
      InsertKeepsRanked(rule, sorted[1..]);
      forall j | 0 <= j < |rest|
        ensures RankLe(ValueOf(sorted[0]), ValueOf(rest[j]))
      {
        assert rest[j] in multiset(rest);
        assert rest[j] == rule || rest[j] in sorted[1..];
      }
    }
  }

  lemma {:induction false} SortIsRanked(rules: seq<XdpPrefixRule>)
    ensures Ranked(SortRanked(rules))
  {
    if rules == [] {
    } else {
      SortIsRanked(rules[1..]);
      InsertKeepsRanked(rules[0], SortRanked(rules[1..]));
    }
  }

  predicate Beats(e: LpmEntry<RuleValue>, f: LpmEntry<RuleValue>)
  {
    |Cut(e.key)| > |Cut(f.key)| || (|Cut(e.key)| == |Cut(f.key)| && RankLe(e.value, f.value))
  }

  function Pick(e: LpmEntry<RuleValue>, eligible: bool, best: Option<LpmEntry<RuleValue>>): Option<LpmEntry<RuleValue>>
  {
    if eligible && (best.None? || Beats(e, best.value)) then Some(e) else best
  }

  predicate Eligible(rule: XdpPrefixRule, q: Bits, locals: seq<Ip>)
  {
    !DenyMatchesLocal(rule, locals) && Cut(RuleEntry(rule).key) <= q
  }

  /** How one more rule changes the best entry when rank breaks ties. */
  function Combine(rule: XdpPrefixRule, best: Option<LpmEntry<RuleValue>>, q: Bits,
                   locals: seq<Ip>): Option<LpmEntry<RuleValue>>
  {
    Pick(RuleEntry(rule), Eligible(rule, q, locals), best)
  }

  function ScanRules(rules: seq<XdpPrefixRule>, q: Bits, locals: seq<Ip>): Option<LpmEntry<RuleValue>>
  {
    ScanLongest(RuleCandidates(rules, locals), q)
  }

  /** Whatever a ranked list's scan finds is ranked no better than the list's head. */
  lemma ScanRanksBelowHead(sorted: seq<XdpPrefixRule>, q: Bits, locals: seq<Ip>)
    requires Ranked(sorted) && ScanRules(sorted, q, locals).Some?
    ensures sorted != [] && RankLe(ValueOf(sorted[0]), ScanRules(sorted, q, locals).value.value)
  {
  }

  /** An entry keeps its place against one of a strictly worse rank. */
  lemma PickCommutes(e: LpmEntry<RuleValue>, eligible: bool, f: LpmEntry<RuleValue>, eligible': bool,
                     best: Option<LpmEntry<RuleValue>>)
    requires !RankLe(f.value, e.value)
    requires best.Some? ==> RankLe(e.value, best.value.value)
    ensures Pick(e, eligible, Pick(f, eligible', best)) == Pick(f, eligible', Pick(e, eligible, best))
  {
  }

  /** At the head of a ranked list, first-wins and rank agree. */
  lemma ScanRulesIsCombine(head: XdpPrefixRule, tail: seq<XdpPrefixRule>, q: Bits, locals: seq<Ip>)
    requires Ranked([head] + tail)
    ensures ScanRules([head] + tail, q, locals) == Combine(head, ScanRules(tail, q, locals), q, locals)
  {
  }

  /** Sorting moves a rule among its ranks without changing which entry wins. */
  lemma {:induction false} InsertScans(rule: XdpPrefixRule, sorted: seq<XdpPrefixRule>, q: Bits, locals: seq<Ip>)
    requires Ranked(sorted)
    ensures ScanRules(InsertRanked(rule, sorted), q, locals) == Combine(rule, ScanRules(sorted, q, locals), q, locals)
  {
    InsertKeepsRanked(rule, sorted);
    if sorted == [] || RankLe(ValueOf(rule), ValueOf(sorted[0])) {
      ScanRulesIsCombine(rule, sorted, q, locals);
    } else {
      var head, tail := sorted[0], sorted[1..];
      assert sorted == [head] + tail;
      InsertScans(rule, tail, q, locals);
      ScanRulesIsCombine(head, InsertRanked(rule, tail), q, locals);
      ScanRulesIsCombine(head, tail, q, locals);
      var best := ScanRules(tail, q, locals);
      if best.Some? {
        ScanRanksBelowHead(tail, q, locals);
        assert RankLe(ValueOf(sorted[0]), ValueOf(sorted[1]));
      }
      PickCommutes(RuleEntry(head), Eligible(head, q, locals), RuleEntry(rule), Eligible(rule, q, locals), best);
    }
  }

  lemma LineMatches(l: Line, scope: Scope, pkt: Packet, locals: seq<Ip>)
    ensures var rule := CompileLine(l);
            && (Governs(l, scope, pkt.src, locals) <==> Eligible(rule, Query(pkt, scope), locals))
            && |Cut(RuleEntry(rule).key)| == 32 + l.cidr.prefix
  {
    var rule := CompileLine(l);
    ScopedKeyMatches(rule.net, ProtoCode(rule.protocol), rule.port, pkt.src, scope.proto, scope.dport);
    CutScopedKey(rule.net, ProtoCode(rule.protocol), rule.port);
    TruncSameNetwork(l.cidr);
    TruncSameNetwork(rule.net);
  }

  function LineEntry(best: Option<Line>): Option<LpmEntry<RuleValue>>
  {
    if best.Some? then Some(RuleEntry(CompileLine(best.value))) else None
  }

  /** One more line at the front, combined by rank. */
  lemma BestLineStep(lines: seq<Line>, scope: Scope, pkt: Packet, locals: seq<Ip>)
    requires lines != []
    ensures LineEntry(BestLine(lines, scope, pkt.src, locals)) ==
            Combine(CompileLine(lines[0]), LineEntry(BestLine(lines[1..], scope, pkt.src, locals)),
                    Query(pkt, scope), locals)
  {
    LineMatches(lines[0], scope, pkt, locals);
    var rest := BestLine(lines[1..], scope, pkt.src, locals);
    if rest.Some? {
      LineMatches(rest.value, scope, pkt, locals);
    }
  }

  /** Sorted, filtered, encoded and scanned: the best line of the policy. */
  lemma {:induction false} SortedScanIsBestLine(lines: seq<Line>, scope: Scope, pkt: Packet, locals: seq<Ip>)
    ensures ScanRules(SortRanked(CompileLines(lines)), Query(pkt, scope), locals) ==
            LineEntry(BestLine(lines, scope, pkt.src, locals))
  {
    if lines == [] {
    } else {
      SortedScanIsBestLine(lines[1..], scope, pkt, locals);
      assert CompileLines(lines)[1..] == CompileLines(lines[1..]);
      SortIsRanked(CompileLines(lines[1..]));
      InsertScans(CompileLine(lines[0]), SortRanked(CompileLines(lines[1..])), Query(pkt, scope), locals);
      BestLineStep(lines, scope, pkt, locals);
    }
  }

  lemma LinesCompile(s: PolicySnapshot, compiled: CompiledPolicy)
    requires compiled.threatPrefixes == CompileThreats(s.threatPrefixes)
    requires compiled.rules == CompileRules(s.rules)
    ensures compiled.threatPrefixes + compiled.rules == CompileLines(PolicyLines(s))
  {
  }

  /** The rule the packet program finds is the policy's decision: first non-empty
      scope, longest prefix inside it, then priority and source. */
  lemma RuleLookupMeaning(s: PolicySnapshot, compiled: CompiledPolicy, pkt: Packet, locals: seq<Ip>)
    requires compiled.threatPrefixes == CompileThreats(s.threatPrefixes)
    requires compiled.rules == CompileRules(s.rules)
    ensures var decision := RuleDecision(s, pkt, locals, 0);
            LookupRule(RuleTable(compiled, locals), pkt) ==
              if decision.Some? then Some(decision.value.value) else None
  {
    LinesCompile(s, compiled);
    var candidates := RuleCandidates(OrderedPolicyRules(compiled), locals);
    forall k | 0 <= k < 4
      ensures var best := BestLine(PolicyLines(s), ScopeOf(pkt, k), pkt.src, locals);
              Lookup(FirstWins(candidates), Query(pkt, ScopeOf(pkt, k))) ==
                if best.Some? then Some(best.value.value) else None
    {
      LookupIsScan(candidates, Query(pkt, ScopeOf(pkt, k)));
      SortedScanIsBestLine(PolicyLines(s), ScopeOf(pkt, k), pkt, locals);
    }
    RuleDecisionUnfolds(s, pkt, locals);
  }

  // --------------------------------------------------------------- bans agree

  /** A compiled ban that the writer does not refuse and that speaks about the packet. */
  predicate LiveBan(b: XdpTempBan, pkt: Packet, now: Time, locals: seq<Ip>)
  {
    && b.expiresAt > now
    && (b.protocol == Any || ProtoCode(b.protocol) == pkt.proto)
    && (b.port == 0 || b.port == pkt.dport)
    && Contains(b.net, pkt.src)
    && !BanMatchesLocal(b, locals)
  }

  predicate InScope(b: XdpTempBan, scope: Scope)
  {
    Scope(ProtoCode(b.protocol), b.port) == scope
  }

  /** A ban entry matches a query exactly when it is of the scope and contains the source. */
  lemma BanEntryMatches(b: XdpTempBan, pkt: Packet, scope: Scope)
    ensures Cut(BanEntry(b).key) <= Query(pkt, scope) <==> InScope(b, scope) && Contains(b.net, pkt.src)
    ensures |Cut(BanEntry(b).key)| == 32 + b.net.prefix
  {
    ScopedKeyMatches(b.net, ProtoCode(b.protocol), b.port, pkt.src, scope.proto, scope.dport);
    CutScopedKey(b.net, ProtoCode(b.protocol), b.port);
  }

  predicate LiveInScope(b: XdpTempBan, pkt: Packet, scope: Scope, now: Time, locals: seq<Ip>)
  {
    InScope(b, scope) && b.expiresAt > now && Contains(b.net, pkt.src) && !BanMatchesLocal(b, locals)
  }

  predicate Speaks(b: XdpTempBan, pkt: Packet, scope: Scope)
  {
    InScope(b, scope) && Contains(b.net, pkt.src)
  }

  /** Among bans that match one query, a longer prefix expires no sooner. */
  ghost predicate LongerExpiresLater(kept: seq<XdpTempBan>, pkt: Packet, scope: Scope)
  {
    forall a <- kept, b <- kept ::
      Speaks(a, pkt, scope) && Speaks(b, pkt, scope) && a.net.prefix <= b.net.prefix ==> a.expiresAt <= b.expiresAt
  }

  lemma KeptLongerExpiresLater(bans: seq<XdpTempBan>, pkt: Packet, scope: Scope)
    requires CanonicalBans(bans)
    ensures LongerExpiresLater(Compacted(bans, TempBanCoversOrSupersedes), pkt, scope)
  {
    var kept := Compacted(bans, TempBanCoversOrSupersedes);
    forall a <- kept, b <- kept | Speaks(a, pkt, scope) && Speaks(b, pkt, scope) && a.net.prefix <= b.net.prefix
      ensures a.expiresAt <= b.expiresAt
    {
      LongerKeptExpiresLater(bans, a, b, pkt.src);
    }
  }

  /** The longest of the written bans that match is unexpired exactly when one is. */
  lemma LongestDecides(kept: seq<XdpTempBan>, candidates: seq<LpmEntry<Time>>, scan: Option<LpmEntry<Time>>,
                       pkt: Packet, scope: Scope, now: Time, wallNow: Time, locals: seq<Ip>)
    requires LongerExpiresLater(kept, pkt, scope) && wallNow <= now
    requires candidates == BanCandidates(kept, locals, wallNow) && scan == ScanLongest(candidates, Query(pkt, scope))
    ensures (scan.Some? && scan.value.value > now) <==> exists b <- kept :: LiveInScope(b, pkt, scope, now, locals)
  {
    if b :| b in kept && LiveInScope(b, pkt, scope, now, locals) {
      BanEntryMatches(b, pkt, scope);
      assert BanEntry(b) in candidates;
      var longest := WrittenBan(kept, candidates, scan.value, locals, wallNow);
      BanEntryMatches(longest, pkt, scope);
      assert Speaks(b, pkt, scope) && Speaks(longest, pkt, scope);
    }
    if scan.Some? && scan.value.value > now {
      var longest := WrittenBan(kept, candidates, scan.value, locals, wallNow);
      BanEntryMatches(longest, pkt, scope);
      assert LiveInScope(longest, pkt, scope, now, locals);
    }
  }

  lemma WrittenBan(kept: seq<XdpTempBan>, candidates: seq<LpmEntry<Time>>, e: LpmEntry<Time>, locals: seq<Ip>,
                   wallNow: Time)
    returns (b: XdpTempBan)
    requires candidates == BanCandidates(kept, locals, wallNow) && e in candidates
    ensures b in kept && e == BanEntry(b) && b.expiresAt > wallNow && !BanMatchesLocal(b, locals)
  {
    b :| b in kept && e == BanEntry(b) && b.expiresAt > wallNow && !BanMatchesLocal(b, locals);
  }

  /** One longest-prefix lookup sees an unexpired entry exactly when some kept ban
      of the scope is unexpired. */
  lemma BanLookupExact(bans: seq<XdpTempBan>, pkt: Packet, scope: Scope, now: Time, wallNow: Time, locals: seq<Ip>)
    requires CanonicalBans(bans) && wallNow <= now
    ensures TempBanValueActive(Lookup(TempBanTable(bans, locals, wallNow), Query(pkt, scope)), now) <==>
            exists b <- Compacted(bans, TempBanCoversOrSupersedes) :: LiveInScope(b, pkt, scope, now, locals)
  {
    var kept := Compacted(bans, TempBanCoversOrSupersedes);
    var candidates := BanCandidates(kept, locals, wallNow);
    LookupIsScan(candidates, Query(pkt, scope));
    KeptLongerExpiresLater(bans, pkt, scope);
    LongestDecides(kept, candidates, ScanLongest(candidates, Query(pkt, scope)), pkt, scope, now, wallNow, locals);
  }

  /** The four scopes are exactly "own protocol or any, own port or any". */
  lemma ScopesCover(b: XdpTempBan, pkt: Packet)
    ensures (b.protocol == Any || ProtoCode(b.protocol) == pkt.proto) && (b.port == 0 || b.port == pkt.dport)
       <==> exists k :: 0 <= k < 4 && InScope(b, ScopeOf(pkt, k))
  {
    assert b.protocol == Any <==> ProtoCode(b.protocol) == PROTO_ANY;
    var proto := ProtoCode(b.protocol);
    if proto == pkt.proto && b.port == pkt.dport {
      assert InScope(b, ScopeOf(pkt, 0));
    }
    if proto == pkt.proto && b.port == 0 {
      assert InScope(b, ScopeOf(pkt, 1));
    }
    if proto == PROTO_ANY && b.port == pkt.dport {
      assert InScope(b, ScopeOf(pkt, 2));
    }
    if proto == PROTO_ANY && b.port == 0 {
      assert InScope(b, ScopeOf(pkt, 3));
    }
  }

  /** For one scope: the lookup is live exactly when a live kept ban is in the scope. */
  lemma ScopeLookupIsLiveBan(
    bans: seq<XdpTempBan>, pkt: Packet, k: nat, now: Time, wallNow: Time, locals: seq<Ip>)
    requires CanonicalBans(bans) && wallNow <= now && k < 4
    ensures TempBanValueActive(Lookup(TempBanTable(bans, locals, wallNow), Query(pkt, ScopeOf(pkt, k))), now) <==>
            SomeLive(Compacted(bans, TempBanCoversOrSupersedes), pkt, k, now, locals)
  {
    var kept := Compacted(bans, TempBanCoversOrSupersedes);
    BanLookupExact(bans, pkt, ScopeOf(pkt, k), now, wallNow, locals);
    forall b <- kept | InScope(b, ScopeOf(pkt, k))
      ensures LiveBan(b, pkt, now, locals) <==> LiveInScope(b, pkt, ScopeOf(pkt, k), now, locals)
    {
      ScopesCover(b, pkt);
    }
    if b :| b in kept && LiveInScope(b, pkt, ScopeOf(pkt, k), now, locals) {
      assert InScope(b, ScopeOf(pkt, k)) && LiveBan(b, pkt, now, locals);
    }
  }

  predicate SomeLive(kept: seq<XdpTempBan>, pkt: Packet, k: nat, now: Time, locals: seq<Ip>)
    requires k < 4
  {
    exists b <- kept :: InScope(b, ScopeOf(pkt, k)) && LiveBan(b, pkt, now, locals)
  }

  /** A live ban is in one of the four scopes. */
  lemma LiveInSomeScope(kept: seq<XdpTempBan>, pkt: Packet, now: Time, locals: seq<Ip>)
    ensures (exists b <- kept :: LiveBan(b, pkt, now, locals)) <==>
            || SomeLive(kept, pkt, 0, now, locals) || SomeLive(kept, pkt, 1, now, locals)
            || SomeLive(kept, pkt, 2, now, locals) || SomeLive(kept, pkt, 3, now, locals)
  {
    if b :| b in kept && LiveBan(b, pkt, now, locals) {
      ScopesCover(b, pkt);
      var k :| 0 <= k < 4 && InScope(b, ScopeOf(pkt, k));
      assert SomeLive(kept, pkt, k, now, locals);
      assert k == 0 || k == 1 || k == 2 || k == 3;
    }
  }

  /** The packet is dropped exactly when some ban that survived compaction, and
      that was not refused, is unexpired and speaks about it. */
  lemma TempBanActiveIsKeptBan(bans: seq<XdpTempBan>, pkt: Packet, now: Time, wallNow: Time, locals: seq<Ip>)
    requires CanonicalBans(bans) && wallNow <= now
    ensures TempBanActive(TempBanTable(bans, locals, wallNow), pkt, now) <==>
            exists b <- Compacted(bans, TempBanCoversOrSupersedes) :: LiveBan(b, pkt, now, locals)
  {
    ScopeLookupIsLiveBan(bans, pkt, 0, now, wallNow, locals);
    ScopeLookupIsLiveBan(bans, pkt, 1, now, wallNow, locals);
    ScopeLookupIsLiveBan(bans, pkt, 2, now, wallNow, locals);
    ScopeLookupIsLiveBan(bans, pkt, 3, now, wallNow, locals);
    LiveInSomeScope(Compacted(bans, TempBanCoversOrSupersedes), pkt, now, locals);
  }

  /** A protocol for which the ban speaks about packets a frame can be read as. With a
      port, those are TCP and UDP only: a ban on any protocol splits into the two, and a
      ban on another protocol speaks about nothing. */
  predicate ReadAs(b: XdpTempBan, protocol: L4Protocol)
  {
    if b.port == 0 then protocol == b.protocol
    else (protocol == Tcp || protocol == Udp) && (b.protocol == Any || b.protocol == protocol)
  }

  /** The kept ban `k` does for one address and protocol what `b` does: it is written,
      speaks about the protocol and every port `b` speaks about, and expires no sooner. */
  predicate StandsIn(k: XdpTempBan, b: XdpTempBan, protocol: L4Protocol, src: Ip, locals: seq<Ip>)
  {
    && !BanMatchesLocal(k, locals)
    && (k.protocol == Any || k.protocol == protocol)
    && (k.port == 0 || k.port == b.port)
    && Contains(k.net, src)
    && k.expiresAt >= b.expiresAt
  }

  /** Every address of a running ban that is not refused, apart from exempt addresses,
      has a kept ban that stands in for it, protocol by protocol. It speaks of the list
      alone, not of packets, lookups or later times. */
  ghost predicate EveryAddressKept(bans: seq<XdpTempBan>, wallNow: Time, locals: seq<Ip>, exempt: seq<Cidr>)
  {
    forall b: XdpTempBan, protocol: L4Protocol, src: Ip ::
      b in bans && ReadAs(b, protocol) && AddressAtStake(b, src, wallNow, locals, exempt) ==>
        SomeStandsIn(Compacted(bans, TempBanCoversOrSupersedes), b, protocol, src, locals)
  }

  predicate SomeStandsIn(kept: seq<XdpTempBan>, b: XdpTempBan, protocol: L4Protocol, src: Ip, locals: seq<Ip>)
  {
    exists k <- kept :: StandsIn(k, b, protocol, src, locals)
  }

  predicate AddressAtStake(b: XdpTempBan, src: Ip, wallNow: Time, locals: seq<Ip>, exempt: seq<Cidr>)
  {
    b.expiresAt > wallNow && !BanMatchesLocal(b, locals) && Contains(b.net, src) && !Covered(exempt, src)
  }

  /** What the bans of a compiled policy ask for. */
  ghost predicate BansAgree(bans: seq<XdpTempBan>, pkt: Packet, now: Time, wallNow: Time, locals: seq<Ip>)
  {
    TempBanActive(TempBanTable(bans, locals, wallNow), pkt, now) <==> exists b <- bans :: LiveBan(b, pkt, now, locals)
  }

  /** At every packet a frame can be read as, from an address that is not exempt, and
      every later time. */
  ghost predicate BansAlwaysAgree(bans: seq<XdpTempBan>, wallNow: Time, locals: seq<Ip>, exempt: seq<Cidr>)
  {
    forall pkt: Packet, now: Time :: Readable(pkt) && wallNow <= now && !Covered(exempt, pkt.src) ==>
      BansAgree(bans, pkt, now, wallNow, locals)
  }

  /** The protocol under which a readable packet meets a ban. */
  function MetAs(b: XdpTempBan, pkt: Packet): L4Protocol
  {
    if b.port == 0 then b.protocol else if pkt.proto == PROTO_TCP then Tcp else Udp
  }

  lemma LiveBanIsReadAs(b: XdpTempBan, pkt: Packet, now: Time, locals: seq<Ip>)
    requires Readable(pkt) && LiveBan(b, pkt, now, locals)
    ensures ReadAs(b, MetAs(b, pkt))
  {
  }

  lemma StandInIsLive(k: XdpTempBan, b: XdpTempBan, pkt: Packet, now: Time, locals: seq<Ip>)
    requires Readable(pkt) && LiveBan(b, pkt, now, locals) && StandsIn(k, b, MetAs(b, pkt), pkt.src, locals)
    ensures LiveBan(k, pkt, now, locals)
  {
  }

  /** A protocol number only bans of the given protocol, or of any, speak about. */
  function TellingProto(p: L4Protocol): U8
  {
    if p == Any then 255 else ProtoCode(p)
  }

  /** A packet that meets the ban as the given protocol and tells stand-ins apart. */
  function TellingPacket(b: XdpTempBan, protocol: L4Protocol, src: Ip): Packet
  {
    Packet(src, TellingProto(protocol), b.port)
  }

  lemma TellingPacketMeets(b: XdpTempBan, protocol: L4Protocol, src: Ip, locals: seq<Ip>)
    requires ReadAs(b, protocol) && b.expiresAt > 0 && !BanMatchesLocal(b, locals) && Contains(b.net, src)
    ensures Readable(TellingPacket(b, protocol, src))
    ensures LiveBan(b, TellingPacket(b, protocol, src), b.expiresAt - 1, locals)
  {
  }

  /** What is live at the telling packet in the ban's last moment stands in for it. */
  lemma LiveStandsIn(k: XdpTempBan, b: XdpTempBan, protocol: L4Protocol, src: Ip, locals: seq<Ip>)
    requires ReadAs(b, protocol) && b.expiresAt > 0
    requires LiveBan(k, TellingPacket(b, protocol, src), b.expiresAt - 1, locals)
    ensures StandsIn(k, b, protocol, src, locals)
  {
  }

  lemma KeptAddressAgrees(bans: seq<XdpTempBan>, pkt: Packet, now: Time, wallNow: Time, locals: seq<Ip>,
                          exempt: seq<Cidr>)
    requires CanonicalBans(bans) && Readable(pkt) && wallNow <= now && !Covered(exempt, pkt.src)
    requires EveryAddressKept(bans, wallNow, locals, exempt)
    ensures BansAgree(bans, pkt, now, wallNow, locals)
  {
    TempBanActiveIsKeptBan(bans, pkt, now, wallNow, locals);
    var kept := Compacted(bans, TempBanCoversOrSupersedes);
    if b :| b in bans && LiveBan(b, pkt, now, locals) {
      LiveBanIsReadAs(b, pkt, now, locals);
      assert AddressAtStake(b, pkt.src, wallNow, locals, exempt);
      assert SomeStandsIn(kept, b, MetAs(b, pkt), pkt.src, locals);
      var k :| k in kept && StandsIn(k, b, MetAs(b, pkt), pkt.src, locals);
      StandInIsLive(k, b, pkt, now, locals);
    }
    forall b | b in kept
      ensures b in bans
    {
    }
  }

  lemma AgreementKeepsAddress(bans: seq<XdpTempBan>, wallNow: Time, locals: seq<Ip>, exempt: seq<Cidr>,
                              b: XdpTempBan, protocol: L4Protocol, src: Ip)
    requires CanonicalBans(bans) && BansAlwaysAgree(bans, wallNow, locals, exempt)
    requires b in bans && ReadAs(b, protocol) && AddressAtStake(b, src, wallNow, locals, exempt)
    ensures SomeStandsIn(Compacted(bans, TempBanCoversOrSupersedes), b, protocol, src, locals)
  {
    var pkt, last := TellingPacket(b, protocol, src), b.expiresAt - 1;
    TellingPacketMeets(b, protocol, src, locals);
    TempBanActiveIsKeptBan(bans, pkt, last, wallNow, locals);
    assert BansAgree(bans, pkt, last, wallNow, locals);
    var k :| k in Compacted(bans, TempBanCoversOrSupersedes) && LiveBan(k, pkt, last, locals);
    LiveStandsIn(k, b, protocol, src, locals);
  }

  /** Compaction followed by refusal is exact for a list of bans, at every packet a frame
      can be read as and every later time, exactly when every address is kept. */
  lemma TempBansExactIff(bans: seq<XdpTempBan>, wallNow: Time, locals: seq<Ip>, exempt: seq<Cidr>)
    requires CanonicalBans(bans)
    ensures BansAlwaysAgree(bans, wallNow, locals, exempt) <==> EveryAddressKept(bans, wallNow, locals, exempt)
  {
    if EveryAddressKept(bans, wallNow, locals, exempt) {
      forall pkt: Packet, now: Time | Readable(pkt) && wallNow <= now && !Covered(exempt, pkt.src)
        ensures BansAgree(bans, pkt, now, wallNow, locals)
      {
        KeptAddressAgrees(bans, pkt, now, wallNow, locals, exempt);
      }
    }
    if BansAlwaysAgree(bans, wallNow, locals, exempt) {
      forall b: XdpTempBan, protocol: L4Protocol, src: Ip |
        b in bans && ReadAs(b, protocol) && AddressAtStake(b, src, wallNow, locals, exempt)
        ensures SomeStandsIn(Compacted(bans, TempBanCoversOrSupersedes), b, protocol, src, locals)
      {
        AgreementKeepsAddress(bans, wallNow, locals, exempt, b, protocol, src);
      }
    }
  }

  /** No refused ban is the reason another, harmless ban was compacted away. */
  ghost predicate NoRefusedCover(bans: seq<XdpTempBan>, locals: seq<Ip>)
  {
    forall u <- bans, b <- bans ::
      BanMatchesLocal(u, locals) && !BanMatchesLocal(b, locals) ==> !TempBanCoversOrSupersedes(u, b)
  }

  /** Then every address is kept: the ban kept in place of another stands in for it. */
  lemma NoRefusedCoverKeeps(bans: seq<XdpTempBan>, wallNow: Time, locals: seq<Ip>)
    requires CanonicalBans(bans) && NoRefusedCover(bans, locals)
    ensures EveryAddressKept(bans, wallNow, locals, [])
  {
    forall b: XdpTempBan, protocol: L4Protocol, src: Ip |
      b in bans && ReadAs(b, protocol) && AddressAtStake(b, src, wallNow, locals, [])
      ensures SomeStandsIn(Compacted(bans, TempBanCoversOrSupersedes), b, protocol, src, locals)
    {
      var cover := UnrefusedCover(bans, b, locals);
      WithinContains(cover.net, b.net, src);
      assert StandsIn(cover, b, protocol, src, locals);
    }
  }

  /** The ban kept in place of a harmless one is harmless itself. */
  lemma UnrefusedCover(bans: seq<XdpTempBan>, b: XdpTempBan, locals: seq<Ip>) returns (cover: XdpTempBan)
    requires CanonicalBans(bans) && NoRefusedCover(bans, locals) && b in bans && !BanMatchesLocal(b, locals)
    ensures cover in Compacted(bans, TempBanCoversOrSupersedes)
    ensures Outlasts(cover, b) && !BanMatchesLocal(cover, locals)
  {
    var i :| 0 <= i < |bans| && bans[i] == b;
    var k := KeptBanOutlasts(bans, i);
    cover := bans[k];
    SupersedesMeans(cover, b);
  }

  /** A list in which no refused ban stands in for a harmless one is exact, at every packet
      whatever its protocol and port. */
  lemma TempBansExact(bans: seq<XdpTempBan>, pkt: Packet, now: Time, wallNow: Time, locals: seq<Ip>)
    requires CanonicalBans(bans) && wallNow <= now
    requires NoRefusedCover(bans, locals)
    ensures BansAgree(bans, pkt, now, wallNow, locals)
  {
    TempBanActiveIsKeptBan(bans, pkt, now, wallNow, locals);
    var kept := Compacted(bans, TempBanCoversOrSupersedes);
    if b :| b in bans && LiveBan(b, pkt, now, locals) {
      var cover := UnrefusedCover(bans, b, locals);
      WithinContains(cover.net, b.net, pkt.src);
      assert LiveBan(cover, pkt, now, locals);
    }
    forall b | b in kept
      ensures b in bans
    {
    }
  }

  /** Whatever the agent's addresses, a packet is only ever banned for a ban of the policy. */
  lemma TempBansNeverOverblock(bans: seq<XdpTempBan>, pkt: Packet, now: Time, wallNow: Time, locals: seq<Ip>)
    requires CanonicalBans(bans) && wallNow <= now
    requires TempBanActive(TempBanTable(bans, locals, wallNow), pkt, now)
    ensures exists b <- bans :: LiveBan(b, pkt, now, locals)
  {
    TempBanActiveIsKeptBan(bans, pkt, now, wallNow, locals);
    var b :| b in Compacted(bans, TempBanCoversOrSupersedes) && LiveBan(b, pkt, now, locals);
    assert b in bans;
  }

  /** Refusal runs after compaction: a ban on everything that outlives a host ban
      drops it and is then refused for containing the agent, so the host ban is
      never written. The control plane turns away a ban that covers an address of a node
      it knows; the wider one was stored before the agent reported this address. */
  lemma RefusedCoverLosesBan(locals: seq<Ip>, local: Ip, other: Ip) returns (bans: seq<XdpTempBan>, pkt: Packet)
    requires local in locals && other !in locals && other.family == local.family
    ensures Readable(pkt) && CanonicalBans(bans) && !BansAgree(bans, pkt, 0, 0, locals)
    ensures exists b <- bans :: LiveBan(b, pkt, 0, locals)
  {
    var zero := Ip(local.family, Zeros(Width(local.family)));
    var everything := XdpTempBan(Cidr(zero, 0), Any, 0, 1);
    var host := XdpTempBan(Cidr(other, Width(local.family)), Any, 0, 1);
    bans := [everything, host];
    pkt := Packet(other, PROTO_TCP, 80);
    assert Stem(host.net) == other.bits && Network(host.net).bits == other.bits;
    TruncSameNetwork(host.net);
    TruncSameNetwork(everything.net);
    assert Contains(Trunc(everything.net), local);
    assert BanMatchesLocal(everything, locals);
    HostContainsItself(other, locals);
    assert bans[1] == host && LiveBan(host, pkt, 0, locals);
    SupersedesMeans(everything, host);
    assert TempBanCoversOrSupersedes(bans[0], bans[1]);
    assert Dropped(bans, TempBanCoversOrSupersedes, 1);
    TempBanActiveIsKeptBan(bans, pkt, 0, 0, locals);
    forall b | b in Compacted(bans, TempBanCoversOrSupersedes)
      ensures b == everything
    {
    }
  }

  lemma HostContainsItself(host: Ip, locals: seq<Ip>)
    requires host !in locals
    ensures var net := Cidr(host, Width(host.family));
            Contains(net, host) && forall ip <- locals :: !Contains(Trunc(net), ip)
  {
    var net := Cidr(host, Width(host.family));
    assert Stem(net) == host.bits;
    TruncSameNetwork(net);
    forall ip <- locals
      ensures !Contains(net, ip)
    {
      assert ip.bits == host.bits && ip.family == host.family ==> ip == host;
    }
  }

  /** The agent owns an address of a family but not all of that family. */
  ghost predicate HasAddressToSpare(locals: seq<Ip>)
  {
    exists local <- locals, other: Ip :: other.family == local.family && other !in locals
  }

  /** Refusal after compaction can lose a ban exactly when the agent has an
      address, and there are others, in some family. */
  lemma RefusalLosesBansIff(locals: seq<Ip>)
    ensures HasAddressToSpare(locals) <==>
            exists bans: seq<XdpTempBan>, pkt, now, wallNow ::
              Readable(pkt) && CanonicalBans(bans) && wallNow <= now && !BansAgree(bans, pkt, now, wallNow, locals)
  {
    if HasAddressToSpare(locals) {
      var local: Ip, other: Ip :| local in locals && other.family == local.family && other !in locals;
      var bans, pkt := RefusedCoverLosesBan(locals, local, other);
    } else {
      forall bans: seq<XdpTempBan>, pkt, now, wallNow | CanonicalBans(bans) && wallNow <= now
        ensures BansAgree(bans, pkt, now, wallNow, locals)
      {
        forall u <- bans, b <- bans | BanMatchesLocal(u, locals) && !BanMatchesLocal(b, locals)
          ensures !TempBanCoversOrSupersedes(u, b)
        {
          SupersedesMeans(u, b);
          TruncSameNetwork(u.net);
          TruncSameNetwork(b.net);
          var local :| local in locals && Contains(Trunc(u.net), local);
          if u.net.addr.family == b.net.addr.family {
            assert b.net.addr !in locals by {
              assert Contains(b.net, b.net.addr);
            }
            assert false;
          }
        }
        TempBansExact(bans, pkt, now, wallNow, locals);
      }
    }
  }

  // ------------------------------------------------------- geo and the whole

  /** What a scan found and what the policy's best network is say the same. */
  ghost predicate SameGeo(scan: Option<LpmEntry<U16>>, best: Option<GeoIpPrefixPolicy>)
  {
    && (scan.Some? <==> best.Some?)
    && (best.Some? ==> |Cut(scan.value.key)| == 32 + best.value.cidr.prefix
                       && scan.value.value == EncodeCountry(best.value.country))
  }

  lemma GeoKeyMatches(p: GeoIpPrefixPolicy, src: Ip)
    ensures var key := SourceKey(Trunc(p.cidr));
            (Cut(key) <= SourceQuery(src) <==> Contains(p.cidr, src)) && |Cut(key)| == 32 + p.cidr.prefix
  {
    SourceKeyMatches(Trunc(p.cidr), src);
    CutSourceKey(Trunc(p.cidr));
    TruncSameNetwork(p.cidr);
  }

  lemma {:induction false} GeoScanIsBest(prefixes: seq<GeoIpPrefixPolicy>, src: Ip)
    ensures SameGeo(ScanLongest(GeoCandidates(CompileGeo(prefixes)), SourceQuery(src)), BestGeo(prefixes, src))
  {
    if prefixes == [] {
    } else {
      var candidates := GeoCandidates(CompileGeo(prefixes));
      GeoScanIsBest(prefixes[1..], src);
      assert candidates[1..] == GeoCandidates(CompileGeo(prefixes[1..]));
      GeoKeyMatches(prefixes[0], src);
    }
  }

  /** The table has the country's action, if the policy names one. */
  ghost predicate CountryMeans(table: map<U16, RuleAction>, rules: seq<GeoCountryPolicy>, country: Country)
  {
    var action := CountryAction(rules, country);
    && (EncodeCountry(country) in table <==> action.Some?)
    && (action.Some? ==> table[EncodeCountry(country)] == action.value)
  }

  lemma {:induction false} CountryTableMeaning(rules: seq<GeoCountryPolicy>, country: Country)
    ensures CountryMeans(FirstTable(CountryCandidates(CompileCountries(rules))), rules, country)
  {
    if rules == [] {
    } else {
      CountryTableMeaning(rules[1..], country);
      assert CountryCandidates(CompileCountries(rules))[1..] == CountryCandidates(CompileCountries(rules[1..]));
      if EncodeCountry(rules[0].country) == EncodeCountry(country) {
        EncodeCountryInjective(rules[0].country, country);
      }
    }
  }

  /** A source is looked up as trusted exactly when some policy CIDR contains it. */
  lemma TrustedLookupMeaning(cidrs: seq<Cidr>, src: Ip)
    ensures Lookup(TrustedTable(CompileTrusted(cidrs)), SourceQuery(src)).Some? <==> Covered(cidrs, src)
  {
    var compiled := CompileTrusted(cidrs);
    forall i | 0 <= i < |cidrs|
      ensures Canonical(compiled[i]) && (Contains(compiled[i], src) <==> Contains(cidrs[i], src))
    {
      TruncSameNetwork(cidrs[i]);
    }
    TrustedCompactionExact(compiled);
    CoveredByIndex(compiled, src);
    CoveredByIndex(cidrs, src);
    TrustedKeptLookup(Compacted(compiled, TrustedPrefixCovers), src);
  }

  lemma CoveredByIndex(nets: seq<Cidr>, ip: Ip)
    ensures Covered(nets, ip) <==> exists i :: 0 <= i < |nets| && Contains(nets[i], ip)
  {
  }

  lemma TrustedKeptLookup(kept: seq<Cidr>, src: Ip)
    ensures Lookup(FirstWins(TrustedCandidates(kept)), SourceQuery(src)).Some? <==> Covered(kept, src)
  {
    var candidates := TrustedCandidates(kept);
    var q := SourceQuery(src);
    LookupIsScan(candidates, q);
    forall i | 0 <= i < |kept|
      ensures Cut(candidates[i].key) <= q <==> Contains(kept[i], src)
    {
      SourceKeyMatches(kept[i], src);
    }
    if p :| p in kept && Contains(p, src) {
      var i :| 0 <= i < |kept| && kept[i] == p;
      assert candidates[i] in candidates;
    }
  }

  lemma CompiledBansMeaning(bans: seq<TempBanPolicy>, compileNow: Time, pkt: Packet, now: Time, locals: seq<Ip>)
    requires compileNow <= now
    ensures CanonicalBans(CompileActiveTempBans(bans, compileNow))
    ensures (exists b <- CompileActiveTempBans(bans, compileNow) :: LiveBan(b, pkt, now, locals)) <==>
            exists b <- bans :: BanApplies(b, pkt, now, locals)
  {
    var compiled := CompileActiveTempBans(bans, compileNow);
    forall b: TempBanPolicy
      ensures Canonical(CompileBan(b).net)
      ensures LiveBan(CompileBan(b), pkt, now, locals) <==> BanApplies(b, pkt, now, locals)
    {
      TruncSameNetwork(b.cidr);
      TruncSameNetwork(CompileBan(b).net);
    }
  }

  lemma GeoLookupMeaning(s: PolicySnapshot, src: Ip)
    ensures var best := BestGeo(s.geoPrefixes, src);
            Lookup(GeoTable(CompileGeo(s.geoPrefixes)), SourceQuery(src)) ==
              if best.Some? then Some(EncodeCountry(best.value.country)) else None
  {
    LookupIsScan(GeoCandidates(CompileGeo(s.geoPrefixes)), SourceQuery(src));
    GeoScanIsBest(s.geoPrefixes, src);
  }

  /** Some compiled ban that was kept, and that was not refused, is running and speaks
      about the packet. */
  ghost predicate KeptBanned(s: PolicySnapshot, compileNow: Time, pkt: Packet, now: Time, locals: seq<Ip>)
  {
    exists b <- Compacted(CompileActiveTempBans(s.tempBans, compileNow), TempBanCoversOrSupersedes) ::
      LiveBan(b, pkt, now, locals)
  }

  lemma BansMeaning(s: PolicySnapshot, compileNow: Time, wallNow: Time, now: Time, locals: seq<Ip>, pkt: Packet)
    requires compileNow <= wallNow <= now
    ensures var bans := CompileActiveTempBans(s.tempBans, compileNow);
            && CanonicalBans(bans)
            && (TempBanActive(TempBanTable(bans, locals, wallNow), pkt, now) <==>
                  KeptBanned(s, compileNow, pkt, now, locals))
            && (BansAgree(bans, pkt, now, wallNow, locals) <==>
                  (KeptBanned(s, compileNow, pkt, now, locals) <==> Banned(s, pkt, now, locals)))
  {
    CompiledBansMeaning(s.tempBans, compileNow, pkt, now, locals);
    TempBanActiveIsKeptBan(CompileActiveTempBans(s.tempBans, compileNow), pkt, now, wallNow, locals);
  }

  /** The tables hold for this packet what the policy says, the ban table apart. */
  ghost predicate TablesMean(t: KernelTables, s: PolicySnapshot, pkt: Packet, locals: seq<Ip>)
  {
    var rule, geo := RuleDecision(s, pkt, locals, 0), BestGeo(s.geoPrefixes, pkt.src);
    && (Lookup(t.trusted, SourceQuery(pkt.src)).Some? <==> Covered(s.trustedCidrs, pkt.src))
    && LookupRule(t.rules, pkt) == (if rule.Some? then Some(rule.value.value) else None)
    && Lookup(t.geo, SourceQuery(pkt.src)) == (if geo.Some? then Some(EncodeCountry(geo.value.country)) else None)
    && (geo.Some? ==> CountryMeans(t.countries, s.geoCountries, geo.value.country))
  }

  lemma CompiledTablesMean(s: PolicySnapshot, compileNow: Time, wallNow: Time, locals: seq<Ip>, pkt: Packet)
    requires CompilePolicy(s, compileNow).Ok?
    ensures TablesMean(TablesOf(CompilePolicy(s, compileNow).value, locals, wallNow), s, pkt, locals)
  {
    TrustedLookupMeaning(s.trustedCidrs, pkt.src);
    RuleLookupMeaning(s, CompilePolicy(s, compileNow).value, pkt, locals);
    GeoLookupMeaning(s, pkt.src);
    var geo := BestGeo(s.geoPrefixes, pkt.src);
    if geo.Some? {
      CountryTableMeaning(s.geoCountries, geo.value.country);
    }
  }

  /** Tables that mean the policy decide as the policy does. */
  lemma MeaningDecides(t: KernelTables, s: PolicySnapshot, pkt: Packet, now: Time, locals: seq<Ip>)
    requires TablesMean(t, s, pkt, locals)
    ensures StatelessStage(t, pkt, now) == Decide(s, pkt, TempBanActive(t.tempBans, pkt, now), locals)
  {
  }

  /** Compilation preserves meaning: what the packet program decides from the tries
      userspace wrote is what the policy says, for every snapshot, packet and later time,
      with the bans that were kept and not refused in place of all of them. */
  lemma CompilationPreservesMeaning(
    s: PolicySnapshot, compileNow: Time, wallNow: Time, now: Time, locals: seq<Ip>, pkt: Packet)
    requires CompilePolicy(s, compileNow).Ok?
    requires compileNow <= wallNow <= now
    ensures StatelessStage(TablesOf(CompilePolicy(s, compileNow).value, locals, wallNow), pkt, now) ==
            Decide(s, pkt, KeptBanned(s, compileNow, pkt, now, locals), locals)
  {
    var tables := TablesOf(CompilePolicy(s, compileNow).value, locals, wallNow);
    CompiledTablesMean(s, compileNow, wallNow, locals, pkt);
    MeaningDecides(tables, s, pkt, now, locals);
    BansMeaning(s, compileNow, wallNow, now, locals, pkt);
  }

  /** The packet program decides this packet as the policy does. */
  ghost predicate StageAgrees(
    s: PolicySnapshot, compileNow: Time, wallNow: Time, now: Time, locals: seq<Ip>, pkt: Packet)
    requires CompilePolicy(s, compileNow).Ok?
  {
    StatelessStage(TablesOf(CompilePolicy(s, compileNow).value, locals, wallNow), pkt, now) ==
    PolicyStage(s, pkt, now, locals)
  }

  /** No later stage can make up for a lost ban. */
  lemma BanDecides(s: PolicySnapshot, pkt: Packet, a: bool, b: bool, locals: seq<Ip>)
    ensures Decide(s, pkt, a, locals) == Decide(s, pkt, b, locals) <==> Covered(s.trustedCidrs, pkt.src) || a == b
  {
  }

  /** Decisions agree wherever the source is trusted or the bans agree, and nowhere else. */
  lemma StageAgreesIff(s: PolicySnapshot, compileNow: Time, wallNow: Time, now: Time, locals: seq<Ip>, pkt: Packet)
    requires CompilePolicy(s, compileNow).Ok? && compileNow <= wallNow <= now
    ensures StageAgrees(s, compileNow, wallNow, now, locals, pkt) <==>
            || Covered(s.trustedCidrs, pkt.src)
            || BansAgree(CompileActiveTempBans(s.tempBans, compileNow), pkt, now, wallNow, locals)
  {
    CompilationPreservesMeaning(s, compileNow, wallNow, now, locals, pkt);
    BansMeaning(s, compileNow, wallNow, now, locals, pkt);
    BanDecides(s, pkt, KeptBanned(s, compileNow, pkt, now, locals), Banned(s, pkt, now, locals), locals);
  }

  /** The packet program decides every packet a frame can be read as, at every later time,
      as the policy does, exactly when every address of a running ban that is not refused,
      and whose source is not trusted anyway, is kept. */
  lemma CompilationExactIff(s: PolicySnapshot, compileNow: Time, wallNow: Time, locals: seq<Ip>)
    requires CompilePolicy(s, compileNow).Ok? && compileNow <= wallNow
    ensures (forall pkt: Packet, now: Time :: Readable(pkt) && wallNow <= now ==>
               StageAgrees(s, compileNow, wallNow, now, locals, pkt)) <==>
            EveryAddressKept(CompileActiveTempBans(s.tempBans, compileNow), wallNow, locals, s.trustedCidrs)
  {
    var bans := CompileActiveTempBans(s.tempBans, compileNow);
    forall pkt: Packet, now: Time | wallNow <= now
      ensures StageAgrees(s, compileNow, wallNow, now, locals, pkt) <==>
              Covered(s.trustedCidrs, pkt.src) || BansAgree(bans, pkt, now, wallNow, locals)
    {
      StageAgreesIff(s, compileNow, wallNow, now, locals, pkt);
    }
    BansMeaning(s, compileNow, wallNow, wallNow, locals, Packet(Ip(V4, Zeros(32)), 0, 0));
    TempBansExactIff(bans, wallNow, locals, s.trustedCidrs);
  }
}
