/** The rate limits a policy states, in its own units, and what sources meet. */
module PolicyLimits {

  import opened Net
  import opened LpmTrie
  import opened Encoding
  import opened Policy
  import opened Compile
  import opened Pending
  import opened Classifier
  import opened TokenBucket
  import opened Ledger
  import opened Defense
  import opened Manager
  import opened Results

  /** What the packet program reads once a policy is applied in full. */
  function ConfigOf(p: CompiledPolicy, locals: seq<Ip>, wallNow: Time): Config
  {
    Config(TablesOf(p, locals, wallNow), DefenseValueOf(p.dynamicDefense), MapsOf(p, locals, wallNow).customRates)
  }

  // ------------------------------------------------------ the governing custom limit

  /** The i-th limit governs the packet: it is about it, and no other that is comes
      before it, by scope or else by place. */
  predicate Governing(limits: seq<DynamicRateLimitPolicy>, i: nat, pkt: Packet)
    requires i < |limits|
  {
    && IsAbout(limits[i], pkt)
    && forall j :: 0 <= j < |limits| && IsAbout(limits[j], pkt) ==>
         && !Narrower(limits[j].protocol, limits[j].port, limits[i].protocol, limits[i].port)
         && (j < i ==> Narrower(limits[i].protocol, limits[i].port, limits[j].protocol, limits[j].port))
  }

  predicate IsAbout(limit: DynamicRateLimitPolicy, pkt: Packet)
  {
    About(limit.protocol, limit.port, pkt.proto, pkt.dport)
  }

  function KeyOf(limit: DynamicRateLimitPolicy): CustomRateKey
  {
    CustomRateKey(ProtoCode(limit.protocol), limit.port.GetOr(0))
  }

  function RatesOf(limits: seq<DynamicRateLimitPolicy>): map<CustomRateKey, RateLimit>
  {
    FirstTable(CustomRateCandidates(CompileRateLimits(limits)))
  }

  predicate States(limit: DynamicRateLimitPolicy, key: CustomRateKey, rate: RateLimit)
  {
    key == KeyOf(limit) && rate == RateLimit(limit.packetsPerSecond, limit.burst)
  }

  predicate FirstOfItsKey(limits: seq<DynamicRateLimitPolicy>, i: nat)
    requires i < |limits|
  {
    forall j :: 0 <= j < i ==> KeyOf(limits[j]) != KeyOf(limits[i])
  }

  ghost predicate FirstListed(limits: seq<DynamicRateLimitPolicy>, rates: map<CustomRateKey, RateLimit>,
                              key: CustomRateKey)
  {
    if key in rates
    then exists i :: 0 <= i < |limits| && States(limits[i], key, rates[key]) && FirstOfItsKey(limits, i)
    else forall i :: 0 <= i < |limits| ==> KeyOf(limits[i]) != key
  }

  /** One more limit in front takes its key over. */
  lemma FirstListedStep(limit: DynamicRateLimitPolicy, rest: seq<DynamicRateLimitPolicy>,
                        rates: map<CustomRateKey, RateLimit>, key: CustomRateKey)
    requires FirstListed(rest, rates, key)
    ensures FirstListed([limit] + rest, rates[KeyOf(limit) := RateLimit(limit.packetsPerSecond, limit.burst)], key)
  {
    var limits := [limit] + rest;
    if KeyOf(limit) == key {
      assert FirstOfItsKey(limits, 0);
    } else if key in rates {
      var i :| 0 <= i < |rest| && States(rest[i], key, rates[key]) && FirstOfItsKey(rest, i);
      assert limits[i + 1] == rest[i] && FirstOfItsKey(limits, i + 1);
    }
  }

  lemma RatesStep(limits: seq<DynamicRateLimitPolicy>)
    requires limits != []
    ensures RatesOf(limits) ==
            RatesOf(limits[1..])[KeyOf(limits[0]) := RateLimit(limits[0].packetsPerSecond, limits[0].burst)]
  {
    var candidates := CustomRateCandidates(CompileRateLimits(limits));
    assert candidates[1..] == CustomRateCandidates(CompileRateLimits(limits[1..]));
  }

  /** The table holds the first listed limit of each key, and nothing else. */
  lemma {:induction false} RatesAreFirstListed(limits: seq<DynamicRateLimitPolicy>, key: CustomRateKey)
    ensures FirstListed(limits, RatesOf(limits), key)
  {
    if limits == [] {
    } else {
      RatesAreFirstListed(limits[1..], key);
      RatesStep(limits);
      FirstListedStep(limits[0], limits[1..], RatesOf(limits[1..]), key);
      assert [limits[0]] + limits[1..] == limits;
    }
  }

  lemma AboutIsFourKeys(limit: DynamicRateLimitPolicy, pkt: Packet)
    ensures IsAbout(limit, pkt) <==>
            KeyOf(limit) in {CustomRateKey(pkt.proto, pkt.dport), CustomRateKey(pkt.proto, 0),
                             CustomRateKey(PROTO_ANY, pkt.dport), CustomRateKey(PROTO_ANY, 0)}
  {
  }

  /** The custom limit a packet is held to is the governing line of the policy: the packet's
      own protocol before any, then its own port before any, then the first listed. */
  lemma CustomLimitGoverns(limits: seq<DynamicRateLimitPolicy>, pkt: Packet)
    ensures var key := MatchedCustom(RatesOf(limits), pkt);
            && (key.None? <==> forall i :: 0 <= i < |limits| ==> !IsAbout(limits[i], pkt))
            && (key.Some? ==> exists i :: 0 <= i < |limits| && Governing(limits, i, pkt)
                                          && States(limits[i], key.value, RatesOf(limits)[key.value]))
  {
    var rates := RatesOf(limits);
    var key := MatchedCustom(rates, pkt);
    RatesAreFirstListed(limits, CustomRateKey(pkt.proto, pkt.dport));
    RatesAreFirstListed(limits, CustomRateKey(pkt.proto, 0));
    RatesAreFirstListed(limits, CustomRateKey(PROTO_ANY, pkt.dport));
    RatesAreFirstListed(limits, CustomRateKey(PROTO_ANY, 0));
    forall i | 0 <= i < |limits|
      ensures IsAbout(limits[i], pkt) ==> key.Some? && !ComesBefore(KeyOf(limits[i]), key.value)
    {
      AboutIsFourKeys(limits[i], pkt);
    }
    if key.Some? {
      var i :| 0 <= i < |limits| && States(limits[i], key.value, rates[key.value]) && FirstOfItsKey(limits, i);
      AboutIsFourKeys(limits[i], pkt);
      FirstOfItsKeyGoverns(limits, i, pkt);
    }
  }

  predicate ComesBefore(a: CustomRateKey, b: CustomRateKey)
  {
    || (a.proto != PROTO_ANY && b.proto == PROTO_ANY)
    || ((a.proto == PROTO_ANY <==> b.proto == PROTO_ANY) && a.dport != 0 && b.dport == 0)
  }

  lemma NarrowerIsBefore(a: DynamicRateLimitPolicy, b: DynamicRateLimitPolicy)
    ensures Narrower(a.protocol, a.port, b.protocol, b.port) <==> ComesBefore(KeyOf(a), KeyOf(b))
  {
  }

  lemma FirstOfItsKeyGoverns(limits: seq<DynamicRateLimitPolicy>, i: nat, pkt: Packet)
    requires i < |limits| && IsAbout(limits[i], pkt)
    requires FirstOfItsKey(limits, i)
    requires forall j :: 0 <= j < |limits| && IsAbout(limits[j], pkt) ==>
               !ComesBefore(KeyOf(limits[j]), KeyOf(limits[i]))
    ensures Governing(limits, i, pkt)
  {
    forall j | 0 <= j < |limits| && IsAbout(limits[j], pkt)
      ensures !Narrower(limits[j].protocol, limits[j].port, limits[i].protocol, limits[i].port)
      ensures j < i ==> Narrower(limits[i].protocol, limits[i].port, limits[j].protocol, limits[j].port)
    {
      NarrowerIsBefore(limits[j], limits[i]);
      NarrowerIsBefore(limits[i], limits[j]);
      AboutIsFourKeys(limits[i], pkt);
      AboutIsFourKeys(limits[j], pkt);
    }
  }

  // -------------------------------------------------------------- what sources meet

  /** Passes of a run among packets of one kind. */
  function PassesAmong(c: Config, b: Buckets, events: seq<Event>, among: Packet -> bool): nat
    decreases events
  {
    if events == [] then 0
    else
      (if among(events[0].pkt) && ChainPasses(c, b, events[0]) then 1 else 0)
      + PassesAmong(c, Handle(c, b, events[0]).0, events[1..], among)
  }

  lemma {:induction false} AmongIsCharged(c: Config, b: Buckets, events: seq<Event>, among: Packet -> bool,
                                          charge: Charge)
    requires forall e: Event :: among(e.pkt) <==> ChargedTo(c, e, charge)
    ensures PassesAmong(c, b, events, among) == PassesCharged(c, b, events, charge)
    decreases events
  {
    if events == [] {
    } else {
      var after := Handle(c, b, events[0]).0;
      PassesChargedStep(c, b, events, charge, after);
      AmongIsCharged(c, after, events[1..], among, charge);
    }
  }

  /** What is charged to one bucket keeps to its limit, from empty buckets on. */
  lemma AmongKeepsLimit(c: Config, events: seq<Event>, among: Packet -> bool, charge: Charge)
    requires forall e: Event :: among(e.pkt) <==> ChargedTo(c, e, charge)
    requires events != [] && ReadsMonotone(events, charge.key.kind) && Active(charge.limits)
    ensures WithinLimit(PassesAmong(c, map[], events, among), ReadOf(events[0], charge.key.kind),
                        LastRead(events, charge.key.kind), charge.limits)
  {
    AmongIsCharged(c, map[], events, among, charge);
    PassesObeyLimit(c, map[], events, charge);
  }

  function From(src: Ip): Packet -> bool
  {
    (pkt: Packet) => pkt.src == src
  }

  /** Packets of one source that the i-th custom limit governs. */
  function GovernedFrom(limits: seq<DynamicRateLimitPolicy>, i: nat, src: Ip): Packet -> bool
    requires i < |limits|
  {
    (pkt: Packet) => pkt.src == src && Governing(limits, i, pkt)
  }

  /** A burst and a rate as the policy states them, in whole packets and seconds. */
  predicate KeepsTo(passes: nat, fromNs: Clock64, toNs: Clock64, burst: U32, packetsPerSecond: U32)
  {
    fromNs <= toNs && passes * 1_000_000_000 <= burst * 1_000_000_000 + (toNs - fromNs) * packetsPerSecond
  }

  lemma SourceOwnsItsBucket(c: Config, src: Ip, kind: RateKind, limits: Limits)
    requires kind != CustomKind && c.defense.enabled
    requires limits == (if kind == FloodKind then c.defense.flood else c.defense.ip)
    requires if kind == FloodKind then c.defense.floodEnabled else c.defense.ipRateLimitEnabled
    ensures forall e: Event :: From(src)(e.pkt) <==>
              ChargedTo(c, e, Charge(SourceKeyOf(kind, src, PROTO_ANY, 0), limits))
  {
    var charge := Charge(SourceKeyOf(kind, src, PROTO_ANY, 0), limits);
    forall e: Event | ChargedTo(c, e, charge)
      ensures e.pkt.src == src
    {
      OwnerUnique(src, e.pkt.src, charge.key);
    }
  }

  /** Only such policies compile: their custom limits let packets through, and none asks for
      a port of a protocol without ports. */
  lemma CompilesIffUsable(s: PolicySnapshot, now: Time)
    ensures CompilePolicy(s, now).Ok? <==>
            && Usable(s.dynamicDefense)
            && forall i :: 0 <= i < |s.dynamicRateLimits| ==>
                 var l := s.dynamicRateLimits[i];
                 l.packetsPerSecond > 0 && l.burst > 0 && (l.protocol == Icmp ==> l.port == None)
  {
    forall i | 0 <= i < |s.dynamicRateLimits|
      ensures s.dynamicRateLimits[i] in s.dynamicRateLimits
    {
    }
    assert ValidDynamicDefense(s.dynamicDefense) <==> Usable(s.dynamicDefense);
  }

  /** The packet program's flood and address limits are those of the policy, the block in
      nanoseconds. */
  ghost predicate DefendsAs(c: Config, d: DynamicDefensePolicy)
    requires Usable(d)
  {
    && c.defense.enabled == d.enabled
    && (d.enabled ==> c.defense.floodEnabled == d.floodEnabled && c.defense.ipRateLimitEnabled == d.ipRateLimitEnabled)
    && (d.enabled && d.floodEnabled ==>
          c.defense.flood == Limits(d.floodPacketsPerSecond.value, d.floodBurst.value,
                                    d.floodBlockSeconds.value * 1_000_000_000))
    && (d.enabled && d.ipRateLimitEnabled ==>
          c.defense.ip == Limits(d.ipPacketsPerSecond.value, d.ipBurst.value, 0))
  }

  lemma CompiledDefends(s: PolicySnapshot, compileNow: Time, wallNow: Time, locals: seq<Ip>, c: Config)
    requires CompilePolicy(s, compileNow).Ok? && c == ConfigOf(CompilePolicy(s, compileNow).value, locals, wallNow)
    ensures DefendsAs(c, s.dynamicDefense)
    ensures c.customRates == RatesOf(s.dynamicRateLimits)
  {
  }

  lemma FloodLimitHolds(c: Config, d: DynamicDefensePolicy, events: seq<Event>, src: Ip)
    requires Usable(d) && DefendsAs(c, d) && d.enabled && d.floodEnabled
    requires events != [] && ReadsMonotone(events, FloodKind)
    ensures KeepsTo(PassesAmong(c, map[], events, From(src)), events[0].flood, events[|events| - 1].flood,
                    d.floodBurst.value, d.floodPacketsPerSecond.value)
  {
    SourceOwnsItsBucket(c, src, FloodKind, c.defense.flood);
    AmongKeepsLimit(c, events, From(src), Charge(SourceKeyOf(FloodKind, src, PROTO_ANY, 0), c.defense.flood));
  }

  lemma AddressLimitHolds(c: Config, d: DynamicDefensePolicy, events: seq<Event>, src: Ip)
    requires Usable(d) && DefendsAs(c, d) && d.enabled && d.ipRateLimitEnabled
    requires events != [] && ReadsMonotone(events, IpKind)
    ensures KeepsTo(PassesAmong(c, map[], events, From(src)), events[0].ip, events[|events| - 1].ip,
                    d.ipBurst.value, d.ipPacketsPerSecond.value)
  {
    SourceOwnsItsBucket(c, src, IpKind, c.defense.ip);
    AmongKeepsLimit(c, events, From(src), Charge(SourceKeyOf(IpKind, src, PROTO_ANY, 0), c.defense.ip));
  }

  /** Two limits cannot both govern, and the one that does is the one the packet is charged
      to. */
  lemma GovernedIsCharged(c: Config, limits: seq<DynamicRateLimitPolicy>, i: nat, src: Ip, charge: Charge)
    requires c.defense.enabled && c.customRates == RatesOf(limits) && i < |limits|
    requires charge == Charge(SourceKeyOf(CustomKind, src, KeyOf(limits[i]).proto, KeyOf(limits[i]).dport),
                              Limits(limits[i].packetsPerSecond, limits[i].burst, 0))
    requires FirstOfItsKey(limits, i)
    ensures forall e: Event :: GovernedFrom(limits, i, src)(e.pkt) <==> ChargedTo(c, e, charge)
  {
    forall e: Event
      ensures GovernedFrom(limits, i, src)(e.pkt) <==> ChargedTo(c, e, charge)
    {
      GovernedPacket(c, limits, i, src, charge, e);
    }
  }

  lemma GovernedPacket(c: Config, limits: seq<DynamicRateLimitPolicy>, i: nat, src: Ip, charge: Charge, e: Event)
    requires c.defense.enabled && c.customRates == RatesOf(limits) && i < |limits|
    requires charge == Charge(SourceKeyOf(CustomKind, src, KeyOf(limits[i]).proto, KeyOf(limits[i]).dport),
                              Limits(limits[i].packetsPerSecond, limits[i].burst, 0))
    requires FirstOfItsKey(limits, i)
    ensures e.pkt.src == src && Governing(limits, i, e.pkt) <==> ChargedTo(c, e, charge)
  {
    CustomLimitGoverns(limits, e.pkt);
    var key := MatchedCustom(c.customRates, e.pkt);
    if ChargedTo(c, e, charge) {
      OwnerUnique(src, e.pkt.src, charge.key);
    }
    if key.Some? {
      var k :| 0 <= k < |limits| && Governing(limits, k, e.pkt)
               && States(limits[k], key.value, c.customRates[key.value]);
      OneGoverns(limits, i, k, e.pkt);
    }
  }

  /** Limits that both govern a packet are one and the same. */
  lemma OneGoverns(limits: seq<DynamicRateLimitPolicy>, i: nat, k: nat, pkt: Packet)
    requires i < |limits| && k < |limits| && Governing(limits, k, pkt) && FirstOfItsKey(limits, i)
    ensures Governing(limits, i, pkt) || KeyOf(limits[i]) == KeyOf(limits[k]) <==> i == k
  {
    AboutIsFourKeys(limits[i], pkt);
    AboutIsFourKeys(limits[k], pkt);
    NarrowerIsBefore(limits[i], limits[k]);
    NarrowerIsBefore(limits[k], limits[i]);
  }

  lemma CustomLimitHolds(c: Config, limits: seq<DynamicRateLimitPolicy>, i: nat, events: seq<Event>, src: Ip)
    requires c.defense.enabled && c.customRates == RatesOf(limits) && i < |limits|
    requires limits[i].packetsPerSecond > 0 && limits[i].burst > 0
    requires events != [] && ReadsMonotone(events, CustomKind)
    ensures KeepsTo(PassesAmong(c, map[], events, GovernedFrom(limits, i, src)), events[0].custom,
                    events[|events| - 1].custom, limits[i].burst, limits[i].packetsPerSecond)
  {
    if FirstOfItsKey(limits, i) {
      FirstLimitHolds(c, limits, i, events, src);
    } else {
      ShadowedLimitHolds(c, limits, i, events, src);
    }
  }

  lemma FirstLimitHolds(c: Config, limits: seq<DynamicRateLimitPolicy>, i: nat, events: seq<Event>, src: Ip)
    requires c.defense.enabled && c.customRates == RatesOf(limits) && i < |limits| && FirstOfItsKey(limits, i)
    requires limits[i].packetsPerSecond > 0 && limits[i].burst > 0
    requires events != [] && ReadsMonotone(events, CustomKind)
    ensures KeepsTo(PassesAmong(c, map[], events, GovernedFrom(limits, i, src)), events[0].custom,
                    events[|events| - 1].custom, limits[i].burst, limits[i].packetsPerSecond)
  {
    var charge := Charge(SourceKeyOf(CustomKind, src, KeyOf(limits[i]).proto, KeyOf(limits[i]).dport),
                         Limits(limits[i].packetsPerSecond, limits[i].burst, 0));
    GovernedIsCharged(c, limits, i, src, charge);
    AmongKeepsLimit(c, events, GovernedFrom(limits, i, src), charge);
  }

  lemma ShadowedLimitHolds(c: Config, limits: seq<DynamicRateLimitPolicy>, i: nat, events: seq<Event>, src: Ip)
    requires i < |limits| && !FirstOfItsKey(limits, i) && events != [] && ReadsMonotone(events, CustomKind)
    ensures KeepsTo(PassesAmong(c, map[], events, GovernedFrom(limits, i, src)), events[0].custom,
                    events[|events| - 1].custom, limits[i].burst, limits[i].packetsPerSecond)
  {
    NeverGoverns(limits, i);
    NoneAmong(c, map[], events, GovernedFrom(limits, i, src));
    RunReadsForward(events, CustomKind);
    NoneIsWithin(events[0].custom, events[|events| - 1].custom, Limits(limits[i].packetsPerSecond, limits[i].burst, 0));
  }

  lemma NeverGoverns(limits: seq<DynamicRateLimitPolicy>, i: nat)
    requires i < |limits| && !FirstOfItsKey(limits, i)
    ensures forall pkt: Packet :: !Governing(limits, i, pkt)
  {
    var j :| 0 <= j < i && KeyOf(limits[j]) == KeyOf(limits[i]);
    forall pkt: Packet
      ensures !Governing(limits, i, pkt)
    {
      AboutIsFourKeys(limits[i], pkt);
      AboutIsFourKeys(limits[j], pkt);
      NarrowerIsBefore(limits[i], limits[j]);
    }
  }

  lemma {:induction false} NoneAmong(c: Config, b: Buckets, events: seq<Event>, among: Packet -> bool)
    requires forall pkt: Packet :: !among(pkt)
    ensures PassesAmong(c, b, events, among) == 0
    decreases events
  {
    if events == [] {
    } else {
      NoneAmong(c, Handle(c, b, events[0]).0, events[1..], among);
    }
  }

  /** The policy's limits, on the packet program a compiled policy runs: over every run from
      empty buckets and for every source, what passes the chain keeps to the flood limit, to
      the address limit and to every custom limit, each counted over the packets it governs,
      and each in the policy's own numbers. */
  lemma StatedLimitsHold(s: PolicySnapshot, compileNow: Time, wallNow: Time, locals: seq<Ip>, c: Config,
                         events: seq<Event>, src: Ip)
    requires CompilePolicy(s, compileNow).Ok? && c == ConfigOf(CompilePolicy(s, compileNow).value, locals, wallNow)
    requires s.dynamicDefense.enabled && events != []
    ensures var d, last := s.dynamicDefense, events[|events| - 1];
            && (d.floodEnabled && ReadsMonotone(events, FloodKind) ==>
                  KeepsTo(PassesAmong(c, map[], events, From(src)), events[0].flood, last.flood,
                          d.floodBurst.value, d.floodPacketsPerSecond.value))
            && (d.ipRateLimitEnabled && ReadsMonotone(events, IpKind) ==>
                  KeepsTo(PassesAmong(c, map[], events, From(src)), events[0].ip, last.ip,
                          d.ipBurst.value, d.ipPacketsPerSecond.value))
            && (ReadsMonotone(events, CustomKind) ==>
                  forall i :: 0 <= i < |s.dynamicRateLimits| ==>
                    KeepsTo(PassesAmong(c, map[], events, GovernedFrom(s.dynamicRateLimits, i, src)), events[0].custom,
                            last.custom, s.dynamicRateLimits[i].burst, s.dynamicRateLimits[i].packetsPerSecond))
  {
    CompilesIffUsable(s, compileNow);
    CompiledDefends(s, compileNow, wallNow, locals, c);
    var d := s.dynamicDefense;
    if d.floodEnabled && ReadsMonotone(events, FloodKind) {
      FloodLimitHolds(c, d, events, src);
    }
    if d.ipRateLimitEnabled && ReadsMonotone(events, IpKind) {
      AddressLimitHolds(c, d, events, src);
    }
    if ReadsMonotone(events, CustomKind) {
      forall i | 0 <= i < |s.dynamicRateLimits|
        ensures KeepsTo(PassesAmong(c, map[], events, GovernedFrom(s.dynamicRateLimits, i, src)), events[0].custom,
                        events[|events| - 1].custom, s.dynamicRateLimits[i].burst,
                        s.dynamicRateLimits[i].packetsPerSecond)
      {
        CustomLimitHolds(c, s.dynamicRateLimits, i, events, src);
      }
    }
  }

  /** No burst the policy states is below `n`. */
  predicate StatedBurstsAtLeast(s: PolicySnapshot, n: nat)
    requires Usable(s.dynamicDefense)
  {
    var d := s.dynamicDefense;
    d.enabled ==>
      && (d.floodEnabled ==> n <= d.floodBurst.value)
      && (d.ipRateLimitEnabled ==> n <= d.ipBurst.value)
      && forall i :: 0 <= i < |s.dynamicRateLimits| ==> n <= s.dynamicRateLimits[i].burst
  }

  /** And the limits take nothing more: a source with no more packets than the smallest
      burst loses none of those that reach the chain, and with the defence switched off
      nobody loses any. */
  lemma StatedBurstsPass(s: PolicySnapshot, compileNow: Time, wallNow: Time, locals: seq<Ip>, c: Config,
                         events: seq<Event>, src: Ip)
    requires CompilePolicy(s, compileNow).Ok? && c == ConfigOf(CompilePolicy(s, compileNow).value, locals, wallNow)
    requires StatedBurstsAtLeast(s, ReachingChain(c, events, src))
    ensures PassesOf(c, map[], events, src) == ReachingChain(c, events, src)
  {
    var n := ReachingChain(c, events, src);
    CompiledDefends(s, compileNow, wallNow, locals, c);
    forall pkt: Packet, kind | ChargeOf(c, pkt, kind).Some?
      ensures n <= ChargeOf(c, pkt, kind).value.limits.burst
    {
      if kind == CustomKind {
        CustomLimitGoverns(s.dynamicRateLimits, pkt);
      }
    }
    FirstPacketsPass(c, events, src);
  }

  /** From the packet that empties a source's flood bucket on, none of its packets passes
      the chain for as many seconds as the policy says, if their end fits the clock. */
  lemma StatedBlockHolds(s: PolicySnapshot, compileNow: Time, wallNow: Time, locals: seq<Ip>, c: Config, b: Buckets,
                         events: seq<Event>, src: Ip)
    requires CompilePolicy(s, compileNow).Ok? && c == ConfigOf(CompilePolicy(s, compileNow).value, locals, wallNow)
    requires s.dynamicDefense.enabled && s.dynamicDefense.floodEnabled
    requires events != [] && events[0].pkt.src == src && EmptiesFlood(c, b, events[0])
    requires var end := events[0].flood + s.dynamicDefense.floodBlockSeconds.value * 1_000_000_000;
             && end < 0x1_0000_0000_0000_0000
             && forall i :: 0 <= i < |events| && events[i].pkt.src == src ==> events[i].flood < end
    ensures PassesAmong(c, b, events, From(src)) == 0
  {
    CompiledDefends(s, compileNow, wallNow, locals, c);
    EmptyingShutsTheSource(c, b, events, src, Handle(c, b, events[0]).0);
    AmongIsPassesOf(c, b, events, src);
  }

  lemma {:induction false} AmongIsPassesOf(c: Config, b: Buckets, events: seq<Event>, src: Ip)
    ensures PassesAmong(c, b, events, From(src)) == PassesOf(c, b, events, src)
    decreases events
  {
    if events == [] {
    } else {
      AmongIsPassesOf(c, Handle(c, b, events[0]).0, events[1..], src);
    }
  }
}
