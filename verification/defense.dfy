/** Dynamic defense: per-source token buckets, and packet handling over whole runs
    of interleaved sources. */
module Defense {

  import opened Bits
  import opened Net
  import opened Encoding
  import opened Policy
  import opened Pending
  import opened Classifier
  import opened TokenBucket
  import opened Ledger
  import opened Results

  datatype RateKind = CustomKind | IpKind | FloodKind

  datatype RateKey = RateKey(kind: RateKind, family: U8, proto: U8, dport: U16, addr: Bits)

  type Buckets = map<RateKey, Bucket>

  datatype DefenseValue = DefenseValue(
    enabled: bool,
    ipRateLimitEnabled: bool, ip: Limits,
    floodEnabled: bool, flood: Limits)

  /** The value written to the packet program; the window is kept in nanoseconds. */
  function DefenseValueOf(d: XdpDynamicDefense): DefenseValue
  {
    DefenseValue(
      d.enabled,
      d.ipRateLimitEnabled, Limits(d.ipPacketsPerSecond, d.ipBurst, 0),
      d.floodEnabled, Limits(d.floodPacketsPerSecond, d.floodBurst, d.floodBlockSeconds * NS))
  }

  datatype Config = Config(
    tables: KernelTables,
    defense: DefenseValue,
    customRates: map<CustomRateKey, RateLimit>)

  /** One packet, with the clock value each stage that reads the clock sees. */
  datatype Event = Event(pkt: Packet, ban: Time, custom: Clock64, flood: Clock64, ip: Clock64)

  datatype Verdict = VPass | VDrop(reason: DropReason)

  /** A bucket a packet may be charged to. */
  datatype Charge = Charge(key: RateKey, limits: Limits)

  function SourceKeyOf(kind: RateKind, src: Ip, proto: U8, dport: U16): RateKey
  {
    RateKey(kind, FamilyCode(src.family), proto, dport, AddrBytes(src))
  }

  /** The key of the custom limit that governs the packet: exact, any port, any
      protocol, any both. */
  function MatchedCustom(rates: map<CustomRateKey, RateLimit>, pkt: Packet): Option<CustomRateKey>
  {
    if CustomRateKey(pkt.proto, pkt.dport) in rates then Some(CustomRateKey(pkt.proto, pkt.dport))
    else if CustomRateKey(pkt.proto, 0) in rates then Some(CustomRateKey(pkt.proto, 0))
    else if CustomRateKey(PROTO_ANY, pkt.dport) in rates then Some(CustomRateKey(PROTO_ANY, pkt.dport))
    else if CustomRateKey(PROTO_ANY, 0) in rates then Some(CustomRateKey(PROTO_ANY, 0))
    else None
  }

  function CustomCharge(c: Config, pkt: Packet): Option<Charge>
  {
    var matched := MatchedCustom(c.customRates, pkt);
    if matched.None? then None
    else
      var limit := c.customRates[matched.value];
      Some(Charge(SourceKeyOf(CustomKind, pkt.src, matched.value.proto, matched.value.dport),
                  Limits(limit.packetsPerSecond, limit.burst, 0)))
  }

  function FloodCharge(c: Config, pkt: Packet): Option<Charge>
  {
    if c.defense.floodEnabled
    then Some(Charge(SourceKeyOf(FloodKind, pkt.src, PROTO_ANY, 0), c.defense.flood)) else None
  }

  function IpCharge(c: Config, pkt: Packet): Option<Charge>
  {
    if c.defense.ipRateLimitEnabled
    then Some(Charge(SourceKeyOf(IpKind, pkt.src, PROTO_ANY, 0), c.defense.ip)) else None
  }

  function BucketAt(b: Buckets, key: RateKey): Option<Bucket>
  {
    if key in b then Some(b[key]) else None
  }

  function SetBucket(b: Buckets, key: RateKey, v: Option<Bucket>): Buckets
  {
    if v.Some? then b[key := v.value] else b
  }

  /** One bucket call on the shared table. */
  function TokenCall(b: Buckets, charge: Charge, now: Clock64): (Buckets, bool)
  {
    var (after, limited) := Step(BucketAt(b, charge.key), charge.limits, now);
    (SetBucket(b, charge.key, after), limited)
  }

  function OptionalCall(b: Buckets, charge: Option<Charge>, now: Clock64): (Buckets, bool)
  {
    if charge.None? then (b, false) else TokenCall(b, charge.value, now)
  }

  function DefenseStep(c: Config, b: Buckets, e: Event): (Buckets, Option<DropReason>)
  {
    if !c.defense.enabled then (b, None)
    else
      var (b1, customLimited) := OptionalCall(b, CustomCharge(c, e.pkt), e.custom);
      if customLimited then (b1, Some(CustomRateDrop))
      else
        var (b2, floodLimited) := OptionalCall(b1, FloodCharge(c, e.pkt), e.flood);
        if floodLimited then (b2, Some(FloodDrop))
        else
          var (b3, ipLimited) := OptionalCall(b2, IpCharge(c, e.pkt), e.ip);
          (b3, if ipLimited then Some(RateDrop) else None)
  }

  /** What becomes of a packet once the stateless stages are through with it. */
  function HandleStaged(c: Config, b: Buckets, e: Event, stage: Stage): (Buckets, Verdict)
  {
    match stage
    case Pass => (b, VPass)
    case Drop(reason) => (b, VDrop(reason))
    case Continue =>
      var (after, drop) := DefenseStep(c, b, e);
      (after, if drop.Some? then VDrop(drop.value) else VPass)
  }

  function Handle(c: Config, b: Buckets, e: Event): (Buckets, Verdict)
  {
    HandleStaged(c, b, e, StatelessStage(c.tables, e.pkt, e.ban))
  }

  // ------------------------------------------------------------------ runs

  function Handling(c: Config): (Buckets, Event) -> Buckets
  {
    (x: Buckets, e: Event) => Handle(c, x, e).0
  }

  function BucketsAfter(c: Config, b: Buckets, events: seq<Event>): Buckets
  {
    RunState(Handling(c), b, events)
  }

  /** The verdicts of the packets one source sent, in order. */
  function VerdictsFor(c: Config, b: Buckets, events: seq<Event>, src: Ip): seq<Verdict>
    decreases events
  {
    if events == [] then []
    else
      var (after, verdict) := Handle(c, b, events[0]);
      (if events[0].pkt.src == src then [verdict] else []) + VerdictsFor(c, after, events[1..], src)
  }

  function OnlyFrom(events: seq<Event>, src: Ip): seq<Event>
  {
    if events == [] then []
    else (if events[0].pkt.src == src then [events[0]] else []) + OnlyFrom(events[1..], src)
  }

  predicate Owns(src: Ip, key: RateKey)
  {
    key.family == FamilyCode(src.family) && key.addr == AddrBytes(src)
  }

  lemma OwnerUnique(a: Ip, b: Ip, key: RateKey)
    requires Owns(a, key) && Owns(b, key)
    ensures a == b
  {
    assert a.family == b.family;
    assert AddrBytes(a)[..|a.bits|] == a.bits && AddrBytes(b)[..|b.bits|] == b.bits;
  }

  /** The two tables hold the same buckets for one source. */
  ghost predicate AgreeFor(src: Ip, x: Buckets, y: Buckets)
  {
    forall key :: Owns(src, key) ==> BucketAt(x, key) == BucketAt(y, key)
  }

  lemma CallTouchesOnlyOwner(b: Buckets, charge: Option<Charge>, now: Clock64, src: Ip)
    requires charge.Some? ==> !Owns(src, charge.value.key)
    ensures AgreeFor(src, b, OptionalCall(b, charge, now).0)
  {
  }

  lemma CallDependsOnOwner(x: Buckets, y: Buckets, charge: Option<Charge>, now: Clock64, src: Ip)
    requires charge.Some? ==> Owns(src, charge.value.key)
    requires AgreeFor(src, x, y)
    ensures OptionalCall(x, charge, now).1 == OptionalCall(y, charge, now).1
    ensures AgreeFor(src, OptionalCall(x, charge, now).0, OptionalCall(y, charge, now).0)
  {
  }

  lemma ChargesOwned(c: Config, pkt: Packet)
    ensures CustomCharge(c, pkt).Some? ==> Owns(pkt.src, CustomCharge(c, pkt).value.key)
    ensures FloodCharge(c, pkt).Some? ==> Owns(pkt.src, FloodCharge(c, pkt).value.key)
    ensures IpCharge(c, pkt).Some? ==> Owns(pkt.src, IpCharge(c, pkt).value.key)
  {
  }

  lemma DefenseDependsOnOwner(c: Config, x: Buckets, y: Buckets, e: Event)
    requires AgreeFor(e.pkt.src, x, y)
    ensures DefenseStep(c, x, e).1 == DefenseStep(c, y, e).1
    ensures AgreeFor(e.pkt.src, DefenseStep(c, x, e).0, DefenseStep(c, y, e).0)
  {
    ChargesOwned(c, e.pkt);
    var src, custom, flood := e.pkt.src, CustomCharge(c, e.pkt), FloodCharge(c, e.pkt);
    CallDependsOnOwner(x, y, custom, e.custom, src);
    var x1, y1 := OptionalCall(x, custom, e.custom).0, OptionalCall(y, custom, e.custom).0;
    CallDependsOnOwner(x1, y1, flood, e.flood, src);
    var x2, y2 := OptionalCall(x1, flood, e.flood).0, OptionalCall(y1, flood, e.flood).0;
    CallDependsOnOwner(x2, y2, IpCharge(c, e.pkt), e.ip, src);
  }

  lemma HandleDependsOnOwner(c: Config, x: Buckets, y: Buckets, e: Event)
    requires AgreeFor(e.pkt.src, x, y)
    ensures Handle(c, x, e).1 == Handle(c, y, e).1
    ensures AgreeFor(e.pkt.src, Handle(c, x, e).0, Handle(c, y, e).0)
  {
    DefenseDependsOnOwner(c, x, y, e);
  }

  lemma DefenseLeavesOthers(c: Config, b: Buckets, e: Event, src: Ip)
    requires e.pkt.src != src
    ensures AgreeFor(src, b, DefenseStep(c, b, e).0)
  {
    ChargesOwned(c, e.pkt);
    forall key | Owns(e.pkt.src, key)
      ensures !Owns(src, key)
    {
      if Owns(src, key) {
        OwnerUnique(src, e.pkt.src, key);
      }
    }
    var custom, flood := CustomCharge(c, e.pkt), FloodCharge(c, e.pkt);
    CallTouchesOnlyOwner(b, custom, e.custom, src);
    var b1 := OptionalCall(b, custom, e.custom).0;
    CallTouchesOnlyOwner(b1, flood, e.flood, src);
    var b2 := OptionalCall(b1, flood, e.flood).0;
    CallTouchesOnlyOwner(b2, IpCharge(c, e.pkt), e.ip, src);
  }

  lemma HandleLeavesOthers(c: Config, b: Buckets, e: Event, src: Ip)
    requires e.pkt.src != src
    ensures AgreeFor(src, b, Handle(c, b, e).0)
  {
    DefenseLeavesOthers(c, b, e, src);
  }

  lemma OwnPacketStep(c: Config, x: Buckets, events: seq<Event>, src: Ip, after: Buckets, verdict: Verdict)
    requires events != [] && Handle(c, x, events[0]) == (after, verdict)
    ensures VerdictsFor(c, x, events, src) ==
            (if events[0].pkt.src == src then [verdict] else []) + VerdictsFor(c, after, events[1..], src)
    ensures OnlyFrom(events, src) ==
            (if events[0].pkt.src == src then [events[0]] else []) + OnlyFrom(events[1..], src)
  {
  }

  /** Isolation: the verdicts a source gets in any interleaving are those it gets
      when only its own packets are replayed at the same times. */
  lemma {:induction false} SourcesIsolated(c: Config, x: Buckets, y: Buckets, events: seq<Event>, src: Ip)
    requires AgreeFor(src, x, y)
    ensures VerdictsFor(c, x, events, src) == VerdictsFor(c, y, OnlyFrom(events, src), src)
    decreases events
  {
    if events == [] {
    } else {
      var e, rest := events[0], events[1..];
      var (after, verdict) := Handle(c, x, e);
      OwnPacketStep(c, x, events, src, after, verdict);
      if e.pkt.src == src {
        HandleDependsOnOwner(c, x, y, e);
        var (after', verdict') := Handle(c, y, e);
        SourcesIsolated(c, after, after', rest, src);
        var mine := OnlyFrom(events, src);
        assert mine[1..] == OnlyFrom(rest, src);
        OwnPacketStep(c, y, mine, src, after', verdict');
      } else {
        HandleLeavesOthers(c, x, e, src);
        SourcesIsolated(c, after, y, rest, src);
        assert OnlyFrom(events, src) == OnlyFrom(rest, src);
      }
    }
  }

  // ------------------------------------------------------- passes are charged

  /** The packet went through the whole defense chain. */
  predicate ChainPasses(c: Config, b: Buckets, e: Event)
  {
    StatelessStage(c.tables, e.pkt, e.ban) == Continue && DefenseStep(c, b, e).1.None?
  }

  function ChargeOf(c: Config, pkt: Packet, kind: RateKind): Option<Charge>
  {
    if !c.defense.enabled then None
    else
      match kind
      case CustomKind => CustomCharge(c, pkt)
      case FloodKind => FloodCharge(c, pkt)
      case IpKind => IpCharge(c, pkt)
  }

  function ReadOf(e: Event, kind: RateKind): Clock64
  {
    match kind
    case CustomKind => e.custom
    case FloodKind => e.flood
    case IpKind => e.ip
  }

  lemma OptionalCallElsewhere(b: Buckets, charge: Option<Charge>, now: Clock64, key: RateKey)
    requires charge.Some? ==> charge.value.key != key
    ensures BucketAt(OptionalCall(b, charge, now).0, key) == BucketAt(b, key)
  {
  }

  lemma OptionalCallHere(b: Buckets, charge: Charge, now: Clock64)
    requires Active(charge.limits)
    ensures BucketAt(OptionalCall(b, Some(charge), now).0, charge.key) ==
            Step(BucketAt(b, charge.key), charge.limits, now).0
  {
  }

  predicate OtherKey(charge: Option<Charge>, key: RateKey)
  {
    charge.Some? ==> charge.value.key != key
  }

  /** The state of a bucket after one optional call among three. */
  lemma CallAmongThree(b: Buckets, x: Option<Charge>, tx: Clock64, y: Option<Charge>, ty: Clock64,
                       z: Option<Charge>, tz: Clock64, charge: Charge, now: Clock64)
    requires Active(charge.limits)
    requires (x == Some(charge) && tx == now && OtherKey(y, charge.key) && OtherKey(z, charge.key))
          || (y == Some(charge) && ty == now && OtherKey(x, charge.key) && OtherKey(z, charge.key))
          || (z == Some(charge) && tz == now && OtherKey(x, charge.key) && OtherKey(y, charge.key))
    ensures var (b1, l1) := OptionalCall(b, x, tx);
            var (b2, l2) := OptionalCall(b1, y, ty);
            var (b3, l3) := OptionalCall(b2, z, tz);
            var (stepped, limited) := Step(BucketAt(b, charge.key), charge.limits, now);
            && (forall m <- [b1, b2, b3] ::
                  BucketAt(m, charge.key) == BucketAt(b, charge.key) || BucketAt(m, charge.key) == stepped)
            && BucketAt(b3, charge.key) == stepped
            && (!l1 && !l2 && !l3 ==> !limited)
  {
    var b1 := OptionalCall(b, x, tx).0;
    var b2 := OptionalCall(b1, y, ty).0;
    if x == Some(charge) {
      OptionalCallHere(b, charge, tx);
      OptionalCallElsewhere(b1, y, ty, charge.key);
      OptionalCallElsewhere(b2, z, tz, charge.key);
    } else if y == Some(charge) {
      OptionalCallElsewhere(b, x, tx, charge.key);
      OptionalCallHere(b1, charge, ty);
      OptionalCallElsewhere(b2, z, tz, charge.key);
    } else {
      OptionalCallElsewhere(b, x, tx, charge.key);
      OptionalCallElsewhere(b1, y, ty, charge.key);
      OptionalCallHere(b2, charge, tz);
    }
  }

  lemma DefenseCallsOnce(c: Config, b: Buckets, e: Event, kind: RateKind, charge: Charge)
    requires ChargeOf(c, e.pkt, kind) == Some(charge) && Active(charge.limits)
    ensures var after := BucketAt(DefenseStep(c, b, e).0, charge.key);
            var (stepped, limited) := Step(BucketAt(b, charge.key), charge.limits, ReadOf(e, kind));
            && (after == BucketAt(b, charge.key) || after == stepped)
            && (DefenseStep(c, b, e).1.None? ==> after == stepped && !limited)
  {
    CallAmongThree(b, CustomCharge(c, e.pkt), e.custom, FloodCharge(c, e.pkt), e.flood,
                   IpCharge(c, e.pkt), e.ip, charge, ReadOf(e, kind));
  }

  /** Handling a packet either leaves a bucket alone or makes one call on it; a
      packet the chain passes has been admitted by every bucket it is charged to. */
  lemma HandleCallsOnce(c: Config, b: Buckets, e: Event, kind: RateKind, charge: Charge)
    requires ChargeOf(c, e.pkt, kind) == Some(charge) && Active(charge.limits)
    ensures var after := BucketAt(Handle(c, b, e).0, charge.key);
            var (stepped, limited) := Step(BucketAt(b, charge.key), charge.limits, ReadOf(e, kind));
            && (after == BucketAt(b, charge.key) || after == stepped)
            && (ChainPasses(c, b, e) ==> after == stepped && !limited)
  {
    DefenseCallsOnce(c, b, e, kind, charge);
  }

  lemma DefenseElsewhere(c: Config, b: Buckets, e: Event, key: RateKey)
    requires ChargeOf(c, e.pkt, key.kind).None? || ChargeOf(c, e.pkt, key.kind).value.key != key
    ensures BucketAt(DefenseStep(c, b, e).0, key) == BucketAt(b, key)
  {
    if c.defense.enabled {
      var custom, flood, ip := CustomCharge(c, e.pkt), FloodCharge(c, e.pkt), IpCharge(c, e.pkt);
      OptionalCallElsewhere(b, custom, e.custom, key);
      var b1 := OptionalCall(b, custom, e.custom).0;
      OptionalCallElsewhere(b1, flood, e.flood, key);
      var b2 := OptionalCall(b1, flood, e.flood).0;
      OptionalCallElsewhere(b2, ip, e.ip, key);
    }
  }

  /** A packet not charged to a bucket does not touch it. */
  lemma HandleElsewhere(c: Config, b: Buckets, e: Event, key: RateKey)
    requires ChargeOf(c, e.pkt, key.kind).None? || ChargeOf(c, e.pkt, key.kind).value.key != key
    ensures BucketAt(Handle(c, b, e).0, key) == BucketAt(b, key)
  {
    DefenseElsewhere(c, b, e, key);
  }

  predicate ChargedTo(c: Config, e: Event, charge: Charge)
  {
    ChargeOf(c, e.pkt, charge.key.kind) == Some(charge)
  }

  predicate PassesChargedTo(c: Config, b: Buckets, e: Event, charge: Charge)
  {
    ChargedTo(c, e, charge) && ChainPasses(c, b, e)
  }

  /** Packets of the run that the chain passed and that are charged to the bucket. */
  function PassesCharged(c: Config, b: Buckets, events: seq<Event>, charge: Charge): nat
  {
    Count(Handling(c), Counting(c, charge), b, events)
  }

  function Counting(c: Config, charge: Charge): (Buckets, Event) -> bool
  {
    (x: Buckets, e: Event) => PassesChargedTo(c, x, e, charge)
  }

  function Reading(kind: RateKind): Event -> Clock64
  {
    (e: Event) => ReadOf(e, kind)
  }

  ghost predicate ReadsMonotone(events: seq<Event>, kind: RateKind)
  {
    TimesMonotone(Reading(kind), events)
  }

  /** One key has one limit under a fixed policy. */
  lemma SameKeySameCharge(c: Config, e: Event, f: Event, charge: Charge)
    requires ChargedTo(c, e, charge)
    requires ChargeOf(c, f.pkt, charge.key.kind).Some? && ChargeOf(c, f.pkt, charge.key.kind).value.key == charge.key
    ensures ChargedTo(c, f, charge)
  {
  }

  lemma HandleOnKey(c: Config, b: Buckets, e: Event, charge: Charge, witnessed: Event)
    requires ChargedTo(c, witnessed, charge) && Active(charge.limits)
    ensures var after := BucketAt(Handle(c, b, e).0, charge.key);
            var (stepped, limited) := Step(BucketAt(b, charge.key), charge.limits, ReadOf(e, charge.key.kind));
            && (after == BucketAt(b, charge.key) || after == stepped)
            && (ChargedTo(c, e, charge) && ChainPasses(c, b, e) ==> after == stepped && !limited)
  {
    var mine := ChargeOf(c, e.pkt, charge.key.kind);
    if mine.Some? && mine.value.key == charge.key {
      SameKeySameCharge(c, witnessed, e, charge);
      HandleCallsOnce(c, b, e, charge.key.kind, charge);
    } else {
      HandleElsewhere(c, b, e, charge.key);
    }
  }

  /** A bucket left alone or stepped once, against its potential. */
  lemma EitherSpends(b: Bucket, l: Limits, t: Clock64, now: Clock64, after: Option<Bucket>, passed: bool)
    requires Active(l) && b.tokens <= l.burst && b.updatedNs <= t <= now
    requires after == Some(b) || after == Step(Some(b), l, now).0
    requires passed ==> after == Step(Some(b), l, now).0 && !Step(Some(b), l, now).1
    ensures after.Some? && after.value.tokens <= l.burst && after.value.updatedNs <= now
    ensures StepPays(if passed then 1 else 0, Potential(after.value, l, now), Potential(b, l, t), t, now,
                     l.packetsPerSecond)
  {
    StepSpendsPotential(b, l, t, now);
    CreditGrows(b, l, t, now);
    StepKeepsValid(Some(b), l, t, now);
  }

  ghost predicate BucketOk(b: Buckets, charge: Charge, t: Clock64)
  {
    charge.key in b && b[charge.key].tokens <= charge.limits.burst && b[charge.key].updatedNs <= t
  }

  /** One handled packet against an existing bucket's potential. */
  lemma HandleSpendsPotential(c: Config, b: Buckets, e: Event, charge: Charge, t: Clock64, witnessed: Event,
                              now: Clock64, after: Option<Bucket>, passed: bool)
    requires ChargedTo(c, witnessed, charge) && Active(charge.limits) && BucketOk(b, charge, t)
    requires now == ReadOf(e, charge.key.kind) && t <= now
    requires after == BucketAt(Handle(c, b, e).0, charge.key) && passed == PassesChargedTo(c, b, e, charge)
    ensures after.Some? && after.value.tokens <= charge.limits.burst && after.value.updatedNs <= now
    ensures StepPays(if passed then 1 else 0, Potential(after.value, charge.limits, now),
                     Potential(b[charge.key], charge.limits, t), t, now, charge.limits.packetsPerSecond)
  {
    HandleOnKey(c, b, e, charge, witnessed);
    EitherSpends(b[charge.key], charge.limits, t, now, after, passed);
  }

  ghost function BucketOkAt(charge: Charge): (Buckets, Clock64) -> bool
  {
    (x: Buckets, t: Clock64) => BucketOk(x, charge, t)
  }

  ghost function PotentialAt(charge: Charge): (Buckets, Clock64) -> nat
  {
    (x: Buckets, t: Clock64) => if charge.key in x then Potential(x[charge.key], charge.limits, t) else 0
  }

  lemma LedgerReads(c: Config, charge: Charge, x: Buckets, e: Event, t: Clock64)
    ensures Handling(c)(x, e) == Handle(c, x, e).0 && Counting(c, charge)(x, e) == PassesChargedTo(c, x, e, charge)
    ensures Reading(charge.key.kind)(e) == ReadOf(e, charge.key.kind)
    ensures BucketOkAt(charge)(x, t) == BucketOk(x, charge, t)
    ensures charge.key in x ==> PotentialAt(charge)(x, t) == Potential(x[charge.key], charge.limits, t)
  {
  }

  /** A step whose successor's bucket is within reach of its potential pays. */
  lemma PaidIsPaysAt(c: Config, charge: Charge, x: Buckets, e: Event, t: Clock64, now: Clock64, y: Buckets,
                     passed: bool)
    requires now == ReadOf(e, charge.key.kind) && y == Handle(c, x, e).0 && passed == PassesChargedTo(c, x, e, charge)
    requires BucketOk(x, charge, t) && BucketOk(y, charge, now)
    requires StepPays(if passed then 1 else 0, Potential(y[charge.key], charge.limits, now),
                      Potential(x[charge.key], charge.limits, t), t, now, charge.limits.packetsPerSecond)
    ensures PaysAt(Handling(c), Counting(c, charge), Reading(charge.key.kind), BucketOkAt(charge), PotentialAt(charge),
                   charge.limits.packetsPerSecond, x, e, t)
  {
    LedgerReads(c, charge, x, e, t);
    LedgerReads(c, charge, y, e, now);
  }

  lemma HandlingPays(c: Config, charge: Charge, witnessed: Event, x: Buckets, e: Event, t: Clock64)
    requires ChargedTo(c, witnessed, charge) && Active(charge.limits)
    ensures PaysAt(Handling(c), Counting(c, charge), Reading(charge.key.kind), BucketOkAt(charge), PotentialAt(charge),
                   charge.limits.packetsPerSecond, x, e, t)
  {
    var now := ReadOf(e, charge.key.kind);
    if BucketOk(x, charge, t) && t <= now {
      var y, passed := Handle(c, x, e).0, PassesChargedTo(c, x, e, charge);
      HandleSpendsPotential(c, x, e, charge, t, witnessed, now, BucketAt(y, charge.key), passed);
      PaidIsPaysAt(c, charge, x, e, t, now, y, passed);
    }
  }

  lemma AlwaysPays(c: Config, charge: Charge, witnessed: Event)
    requires ChargedTo(c, witnessed, charge) && Active(charge.limits)
    ensures Pays(Handling(c), Counting(c, charge), Reading(charge.key.kind), BucketOkAt(charge), PotentialAt(charge),
                 charge.limits.packetsPerSecond)
  {
    forall x: Buckets, e: Event, now: Clock64
      ensures PaysAt(Handling(c), Counting(c, charge), Reading(charge.key.kind), BucketOkAt(charge),
                     PotentialAt(charge), charge.limits.packetsPerSecond, x, e, now)
    {
      HandlingPays(c, charge, witnessed, x, e, now);
    }
  }

  function LastRead(events: seq<Event>, kind: RateKind): Clock64
    requires events != []
  {
    ReadOf(events[|events| - 1], kind)
  }

  /** The start and the end of a run as the ledger sees them. */
  lemma RunInTheLedger(b: Buckets, events: seq<Event>, charge: Charge, t: Clock64)
    requires events != [] && BucketOk(b, charge, t)
    ensures BucketOkAt(charge)(b, t) && PotentialAt(charge)(b, t) == Potential(b[charge.key], charge.limits, t)
    ensures Reading(charge.key.kind)(events[0]) == ReadOf(events[0], charge.key.kind)
    ensures Reading(charge.key.kind)(events[|events| - 1]) == LastRead(events, charge.key.kind)
  {
  }

  /** What an existing bucket still allows a run to pass. */
  lemma PassesWithinPotential(c: Config, b: Buckets, events: seq<Event>, charge: Charge, t: Clock64, witnessed: Event,
                              potential: nat, to: Clock64)
    requires ChargedTo(c, witnessed, charge) && Active(charge.limits) && BucketOk(b, charge, t)
    requires events != [] && ReadsMonotone(events, charge.key.kind) && t <= ReadOf(events[0], charge.key.kind)
    requires potential == Potential(b[charge.key], charge.limits, t) && to == LastRead(events, charge.key.kind)
    ensures PaidFor(PassesCharged(c, b, events, charge), potential, t, to, charge.limits.packetsPerSecond)
  {
    AlwaysPays(c, charge, witnessed);
    RunInTheLedger(b, events, charge, t);
    CountWithinPotential(Handling(c), Counting(c, charge), Reading(charge.key.kind), BucketOkAt(charge),
                         PotentialAt(charge), charge.limits.packetsPerSecond, b, t, events);
  }

  lemma PassesChargedStep(c: Config, b: Buckets, events: seq<Event>, charge: Charge, after: Buckets)
    requires events != [] && after == Handle(c, b, events[0]).0
    ensures PassesCharged(c, b, events, charge) ==
            (if PassesChargedTo(c, b, events[0], charge) then 1 else 0) + PassesCharged(c, after, events[1..], charge)
  {
  }

  lemma CreationStep(c: Config, b: Buckets, e: Event, charge: Charge, after: Buckets)
    requires charge.key !in b && Active(charge.limits) && after == Handle(c, b, e).0
    requires ChargedTo(c, e, charge) && charge.key in after
    ensures var now := ReadOf(e, charge.key.kind);
            && BucketOk(after, charge, now)
            && Potential(after[charge.key], charge.limits, now) == (charge.limits.burst - 1) * NS
  {
    var now := ReadOf(e, charge.key.kind);
    HandleCallsOnce(c, b, e, charge.key.kind, charge);
    assert BucketAt(after, charge.key) == Some(Bucket(charge.limits.burst - 1, now, 0));
    FreshCredit(charge.limits.burst - 1, 0, charge.limits, now);
  }

  /** A burst, and what the rate adds. */
  predicate WithinLimit(passes: nat, from: Clock64, to: Clock64, limits: Limits)
  {
    from <= to && passes * NS <= limits.burst * NS + (to - from) * limits.packetsPerSecond
  }

  lemma OneMorePass(passes: nat, from: Clock64, to: Clock64, limits: Limits)
    requires limits.burst > 0 && PaidFor(passes, (limits.burst - 1) * NS, from, to, limits.packetsPerSecond)
    ensures WithinLimit(1 + passes, from, to, limits)
  {
  }

  lemma NoneIsWithin(from: Clock64, to: Clock64, limits: Limits)
    requires from <= to
    ensures WithinLimit(0, from, to, limits)
  {
    WiderWindow(0, to - from, limits.packetsPerSecond);
  }

  lemma EarlierStart(passes: nat, from: Clock64, later: Clock64, to: Clock64, limits: Limits)
    requires from <= later && WithinLimit(passes, later, to, limits)
    ensures WithinLimit(passes, from, to, limits)
  {
    WiderWindow(to - later, to - from, limits.packetsPerSecond);
  }

  /** The rest of a run reads its clock later, and ends with the run. */
  lemma RestReadsLater(events: seq<Event>, kind: RateKind)
    requires |events| > 1 && ReadsMonotone(events, kind)
    ensures ReadsMonotone(events[1..], kind) && ReadOf(events[0], kind) <= ReadOf(events[1], kind)
    ensures LastRead(events[1..], kind) == LastRead(events, kind)
  {
    var read := Reading(kind);
    assert read(events[0]) <= read(events[1]);
  }

  lemma RunReadsForward(events: seq<Event>, kind: RateKind)
    requires events != [] && ReadsMonotone(events, kind)
    ensures ReadOf(events[0], kind) <= LastRead(events, kind)
  {
    var read := Reading(kind);
    assert |events| > 1 ==> read(events[0]) <= read(events[|events| - 1]);
  }

  /** What passes after the bucket was created, counting the packet that created it. */
  lemma PassesAfterCreation(c: Config, rest: seq<Event>, charge: Charge, after: Buckets, witnessed: Event,
                            from: Clock64, to: Clock64)
    requires ChargedTo(c, witnessed, charge) && Active(charge.limits) && BucketOk(after, charge, from)
    requires Potential(after[charge.key], charge.limits, from) == (charge.limits.burst - 1) * NS
    requires rest != [] && ReadsMonotone(rest, charge.key.kind)
    requires from <= ReadOf(rest[0], charge.key.kind) && to == LastRead(rest, charge.key.kind)
    ensures WithinLimit(1 + PassesCharged(c, after, rest, charge), from, to, charge.limits)
  {
    RunReadsForward(rest, charge.key.kind);
    PassesWithinPotential(c, after, rest, charge, from, witnessed, (charge.limits.burst - 1) * NS, to);
    OneMorePass(PassesCharged(c, after, rest, charge), from, to, charge.limits);
  }

  /** The packet that creates the bucket, and everything after it. */
  lemma PassesFromCreation(c: Config, b: Buckets, events: seq<Event>, charge: Charge, after: Buckets)
    requires charge.key !in b && Active(charge.limits) && events != [] && after == Handle(c, b, events[0]).0
    requires ChargedTo(c, events[0], charge) && charge.key in after
    requires ReadsMonotone(events, charge.key.kind)
    ensures WithinLimit(PassesCharged(c, b, events, charge), ReadOf(events[0], charge.key.kind),
                        LastRead(events, charge.key.kind), charge.limits)
  {
    CreationStep(c, b, events[0], charge, after);
    PassesChargedStep(c, b, events, charge, after);
    PassesSinceCreation(c, events, charge, after, PassesChargedTo(c, b, events[0], charge));
  }

  lemma PassesSinceCreation(c: Config, events: seq<Event>, charge: Charge, after: Buckets, passed: bool)
    requires events != [] && ReadsMonotone(events, charge.key.kind)
    requires ChargedTo(c, events[0], charge) && Active(charge.limits)
    requires BucketOk(after, charge, ReadOf(events[0], charge.key.kind))
    requires Potential(after[charge.key], charge.limits, ReadOf(events[0], charge.key.kind)) ==
             (charge.limits.burst - 1) * NS
    ensures WithinLimit((if passed then 1 else 0) + PassesCharged(c, after, events[1..], charge),
                        ReadOf(events[0], charge.key.kind), LastRead(events, charge.key.kind), charge.limits)
  {
    var from, to := ReadOf(events[0], charge.key.kind), LastRead(events, charge.key.kind);
    if |events| == 1 {
      AtMostOnePass(passed, from, charge.limits);
    } else {
      RestReadsLater(events, charge.key.kind);
      PassesAfterCreation(c, events[1..], charge, after, events[0], from, to);
      FewerPasses(passed, PassesCharged(c, after, events[1..], charge), from, to, charge.limits);
    }
  }

  lemma AtMostOnePass(passed: bool, at: Clock64, limits: Limits)
    requires Active(limits)
    ensures WithinLimit(if passed then 1 else 0, at, at, limits)
  {
  }

  lemma FewerPasses(passed: bool, passes: nat, from: Clock64, to: Clock64, limits: Limits)
    requires WithinLimit(1 + passes, from, to, limits)
    ensures WithinLimit((if passed then 1 else 0) + passes, from, to, limits)
  {
  }

  lemma CreatedByCharge(c: Config, b: Buckets, e: Event, key: RateKey)
    requires key !in b && key in Handle(c, b, e).0
    ensures ChargeOf(c, e.pkt, key.kind).Some? && ChargeOf(c, e.pkt, key.kind).value.key == key
  {
    if ChargeOf(c, e.pkt, key.kind).None? || ChargeOf(c, e.pkt, key.kind).value.key != key {
      HandleElsewhere(c, b, e, key);
    }
  }

  /** The first touch of the bucket settles the whole run. */
  lemma BoundAtCreation(c: Config, b: Buckets, events: seq<Event>, charge: Charge, after: Buckets)
    requires charge.key !in b && Active(charge.limits) && events != [] && after == Handle(c, b, events[0]).0
    requires charge.key in after && ReadsMonotone(events, charge.key.kind)
    ensures WithinLimit(PassesCharged(c, b, events, charge), ReadOf(events[0], charge.key.kind),
                        LastRead(events, charge.key.kind), charge.limits)
  {
    CreatedByCharge(c, b, events[0], charge.key);
    if ChargedTo(c, events[0], charge) {
      PassesFromCreation(c, b, events, charge, after);
    } else {
      NeverCharged(c, b, events, charge, events[0]);
      RunReadsForward(events, charge.key.kind);
      NoneIsWithin(ReadOf(events[0], charge.key.kind), LastRead(events, charge.key.kind), charge.limits);
    }
  }

  lemma NotTouched(c: Config, b: Buckets, events: seq<Event>, charge: Charge, after: Buckets)
    requires Active(charge.limits) && events != [] && after == Handle(c, b, events[0]).0
    requires charge.key !in after
    ensures PassesCharged(c, b, events, charge) == PassesCharged(c, after, events[1..], charge)
  {
    PassNeedsBucket(c, b, events[0], charge);
    PassesChargedStep(c, b, events, charge, after);
  }

  /** Over any run from empty buckets, the passes charged to one enabled bucket obey
      its limit: a source passes at most burst + rate * time packets, for the flood,
      the address and the governing custom limit alike, so for the smallest. */
  lemma {:induction false} PassesObeyLimit(c: Config, b: Buckets, events: seq<Event>, charge: Charge)
    requires charge.key !in b && Active(charge.limits)
    requires events != [] && ReadsMonotone(events, charge.key.kind)
    ensures WithinLimit(PassesCharged(c, b, events, charge), ReadOf(events[0], charge.key.kind),
                        LastRead(events, charge.key.kind), charge.limits)
    decreases events
  {
    var after, kind := Handle(c, b, events[0]).0, charge.key.kind;
    if charge.key in after {
      BoundAtCreation(c, b, events, charge, after);
    } else {
      NotTouched(c, b, events, charge, after);
      if |events| == 1 {
        NoneIsWithin(ReadOf(events[0], kind), ReadOf(events[0], kind), charge.limits);
      } else {
        RestReadsLater(events, kind);
        PassesObeyLimit(c, after, events[1..], charge);
        EarlierStart(PassesCharged(c, after, events[1..], charge), ReadOf(events[0], kind), ReadOf(events[1], kind),
                     LastRead(events, kind), charge.limits);
      }
    }
  }

  /** Passes of a run over a window, in nanoseconds of tokens: one more than the burst. */
  predicate WithinWindow(passes: nat, from: Clock64, to: Clock64, limits: Limits)
  {
    from <= to && passes * NS < limits.burst * NS + NS + (to - from) * limits.packetsPerSecond
  }

  lemma LimitIsWithinWindow(passes: nat, from: Clock64, to: Clock64, limits: Limits)
    requires WithinLimit(passes, from, to, limits)
    ensures WithinWindow(passes, from, to, limits)
  {
  }

  lemma EarlierWindow(passes: nat, from: Clock64, later: Clock64, to: Clock64, limits: Limits)
    requires from <= later && WithinWindow(passes, later, to, limits)
    ensures WithinWindow(passes, from, to, limits)
  {
    WiderWindow(to - later, to - from, limits.packetsPerSecond);
  }

  /** A pass that leaves little, and what that little still pays for. */
  lemma PassThenRest(potential: nat, more: nat, from: Clock64, to: Clock64, limits: Limits)
    requires NS + potential < limits.burst * NS + NS
    requires PaidFor(more, potential, from, to, limits.packetsPerSecond)
    ensures WithinWindow(1 + more, from, to, limits)
  {
  }

  /** A packet that passes leaves at most a full bucket, its own token included. */
  lemma PassLeavesLittle(c: Config, b: Buckets, e: Event, charge: Charge, after: Buckets, now: Clock64)
    requires BucketOk(b, charge, now) && Active(charge.limits) && PassesChargedTo(c, b, e, charge)
    requires after == Handle(c, b, e).0 && now == ReadOf(e, charge.key.kind)
    ensures BucketOk(after, charge, now)
    ensures NS + Potential(after[charge.key], charge.limits, now) < charge.limits.burst * NS + NS
  {
    HandleCallsOnce(c, b, e, charge.key.kind, charge);
    EvaluatedStepCapped(Some(b[charge.key]), charge.limits, now);
    StepKeepsValid(Some(b[charge.key]), charge.limits, now, now);
  }

  /** A packet under this policy keeps a valid bucket valid. */
  lemma HandleKeepsOk(c: Config, b: Buckets, e: Event, charge: Charge, witnessed: Event, now: Clock64)
    requires BucketOk(b, charge, now) && Active(charge.limits) && ChargedTo(c, witnessed, charge)
    requires now == ReadOf(e, charge.key.kind)
    ensures BucketOk(Handle(c, b, e).0, charge, now)
  {
    HandleOnKey(c, b, e, charge, witnessed);
    StepKeepsValid(Some(b[charge.key]), charge.limits, now, now);
  }

  /** From the first packet of the run that passes: it, and what follows. */
  lemma WindowFromPass(c: Config, b: Buckets, events: seq<Event>, charge: Charge, after: Buckets)
    requires Active(charge.limits) && events != [] && ReadsMonotone(events, charge.key.kind)
    requires BucketOk(b, charge, ReadOf(events[0], charge.key.kind)) && after == Handle(c, b, events[0]).0
    requires PassesChargedTo(c, b, events[0], charge)
    ensures WithinWindow(PassesCharged(c, b, events, charge), ReadOf(events[0], charge.key.kind),
                         LastRead(events, charge.key.kind), charge.limits)
  {
    var kind := charge.key.kind;
    var from, to := ReadOf(events[0], kind), LastRead(events, kind);
    PassLeavesLittle(c, b, events[0], charge, after, from);
    var potential := Potential(after[charge.key], charge.limits, from);
    PassesChargedStep(c, b, events, charge, after);
    if |events| == 1 {
      NothingToPay(potential, from, charge.limits.packetsPerSecond);
      PassThenRest(potential, 0, from, to, charge.limits);
    } else {
      RestReadsLater(events, kind);
      PassesWithinPotential(c, after, events[1..], charge, from, events[0], potential, to);
      PassThenRest(potential, PassesCharged(c, after, events[1..], charge), from, to, charge.limits);
    }
  }

  lemma NoneInWindow(from: Clock64, to: Clock64, limits: Limits)
    requires from <= to
    ensures WithinWindow(0, from, to, limits)
  {
    NoneIsWithin(from, to, limits);
    LimitIsWithinWindow(0, from, to, limits);
  }

  /** A packet that does not pass only moves the start of the window. */
  lemma {:induction false} PassesOverWindow(c: Config, b: Buckets, events: seq<Event>, charge: Charge, witnessed: Event)
    requires Active(charge.limits) && ChargedTo(c, witnessed, charge)
    requires events != [] && ReadsMonotone(events, charge.key.kind)
    requires BucketOk(b, charge, ReadOf(events[0], charge.key.kind))
    ensures WithinWindow(PassesCharged(c, b, events, charge), ReadOf(events[0], charge.key.kind),
                         LastRead(events, charge.key.kind), charge.limits)
    decreases events
  {
    var after, kind := Handle(c, b, events[0]).0, charge.key.kind;
    var from, to := ReadOf(events[0], kind), LastRead(events, kind);
    if PassesChargedTo(c, b, events[0], charge) {
      WindowFromPass(c, b, events, charge, after);
    } else {
      RunReadsForward(events, kind);
      PassesChargedStep(c, b, events, charge, after);
      if |events| == 1 {
        NoneInWindow(from, to, charge.limits);
      } else {
        RestReadsLater(events, kind);
        HandleKeepsOk(c, b, events[0], charge, witnessed, from);
        PassesOverWindow(c, after, events[1..], charge, witnessed);
        EarlierWindow(PassesCharged(c, after, events[1..], charge), from, ReadOf(events[1], kind), to, charge.limits);
      }
    }
  }

  /** If no packet of the run is charged to this bucket, none passes under it. */
  lemma {:induction false} UnchargedRun(c: Config, b: Buckets, events: seq<Event>, charge: Charge)
    requires forall i :: 0 <= i < |events| ==> !ChargedTo(c, events[i], charge)
    ensures PassesCharged(c, b, events, charge) == 0
    decreases events
  {
    if events == [] {
    } else {
      PassesChargedStep(c, b, events, charge, Handle(c, b, events[0]).0);
      UnchargedRun(c, Handle(c, b, events[0]).0, events[1..], charge);
    }
  }

  lemma WindowInTokens(passes: nat, from: Clock64, to: Clock64, limits: Limits)
    requires WithinWindow(passes, from, to, limits)
    ensures var width := (to - from) * limits.packetsPerSecond;
            passes <= limits.burst + (width + NS - 1) / NS <= limits.burst + 1 + width / NS
  {
    var span: nat := to - from;
    WholeTokensOver(passes, limits.burst, span, limits.packetsPerSecond);
  }

  /** In any window of a run, whatever came before it: passes charged to one bucket are at
      most the burst, one more, and what the rate allows over the window's length. */
  lemma PassesInWindow(c: Config, b: Buckets, events: seq<Event>, charge: Charge)
    requires Active(charge.limits) && events != [] && ReadsMonotone(events, charge.key.kind)
    requires charge.key in b ==> BucketOk(b, charge, ReadOf(events[0], charge.key.kind))
    ensures var span := LastRead(events, charge.key.kind) - ReadOf(events[0], charge.key.kind);
            var width := span * charge.limits.packetsPerSecond;
            PassesCharged(c, b, events, charge) <= charge.limits.burst + (width + NS - 1) / NS
                                                <= charge.limits.burst + 1 + width / NS
  {
    var from, to := ReadOf(events[0], charge.key.kind), LastRead(events, charge.key.kind);
    PassesWindowHolds(c, b, events, charge, from, to);
    WindowInTokens(PassesCharged(c, b, events, charge), from, to, charge.limits);
  }

  lemma PassesWindowHolds(c: Config, b: Buckets, events: seq<Event>, charge: Charge, from: Clock64, to: Clock64)
    requires Active(charge.limits) && events != [] && ReadsMonotone(events, charge.key.kind)
    requires from == ReadOf(events[0], charge.key.kind) && to == LastRead(events, charge.key.kind)
    requires charge.key in b ==> BucketOk(b, charge, from)
    ensures WithinWindow(PassesCharged(c, b, events, charge), from, to, charge.limits)
  {
    RunReadsForward(events, charge.key.kind);
    if charge.key !in b {
      PassesObeyLimit(c, b, events, charge);
      LimitIsWithinWindow(PassesCharged(c, b, events, charge), from, to, charge.limits);
    } else if i :| 0 <= i < |events| && ChargedTo(c, events[i], charge) {
      PassesOverWindow(c, b, events, charge, events[i]);
    } else {
      UnchargedRun(c, b, events, charge);
      NoneInWindow(from, to, charge.limits);
    }
  }

  /** If the key's limit under the policy is another one, nothing is charged here. */
  lemma {:induction false} NeverCharged(c: Config, b: Buckets, events: seq<Event>, charge: Charge, witnessed: Event)
    requires ChargeOf(c, witnessed.pkt, charge.key.kind).Some?
    requires ChargeOf(c, witnessed.pkt, charge.key.kind).value.key == charge.key
    requires !ChargedTo(c, witnessed, charge)
    ensures PassesCharged(c, b, events, charge) == 0
    decreases events
  {
    if events == [] {
    } else {
      if ChargedTo(c, events[0], charge) {
        SameKeySameCharge(c, events[0], witnessed, charge);
      }
      NeverCharged(c, Handle(c, b, events[0]).0, events[1..], charge, witnessed);
    }
  }

  lemma PassNeedsBucket(c: Config, b: Buckets, e: Event, charge: Charge)
    requires Active(charge.limits) && charge.key !in Handle(c, b, e).0
    ensures !PassesChargedTo(c, b, e, charge)
  {
    if PassesChargedTo(c, b, e, charge) {
      HandleCallsOnce(c, b, e, charge.key.kind, charge);
    }
  }

  // ------------------------------------------- where the chain stops, and who passes

  /** The bucket of this kind turns the packet away. */
  predicate LimitedBy(c: Config, b: Buckets, e: Event, kind: RateKind)
  {
    var charge := ChargeOf(c, e.pkt, kind);
    charge.Some? && Step(BucketAt(b, charge.value.key), charge.value.limits, ReadOf(e, kind)).1
  }

  function ReasonOf(kind: RateKind): DropReason
  {
    match kind
    case CustomKind => CustomRateDrop
    case FloodKind => FloodDrop
    case IpKind => RateDrop
  }

  /** Custom limits come before the flood limit, and that before the address limit. */
  predicate Earlier(a: RateKind, b: RateKind)
  {
    (a.CustomKind? && !b.CustomKind?) || (a.FloodKind? && b.IpKind?)
  }

  predicate StoppedBefore(c: Config, b: Buckets, e: Event, kind: RateKind)
  {
    exists k :: Earlier(k, kind) && LimitedBy(c, b, e, k)
  }

  lemma OneCall(b: Buckets, charge: Charge, now: Clock64)
    ensures var (stepped, limited) := Step(BucketAt(b, charge.key), charge.limits, now);
            var (after, dropped) := OptionalCall(b, Some(charge), now);
            BucketAt(after, charge.key) == stepped && dropped == limited
  {
  }

  /** The calls before one of them do not touch its bucket. */
  lemma CallsBefore(b: Buckets, x: Option<Charge>, tx: Clock64, y: Option<Charge>, ty: Clock64, key: RateKey)
    requires OtherKey(x, key) && OtherKey(y, key)
    ensures var b1 := OptionalCall(b, x, tx).0;
            BucketAt(b1, key) == BucketAt(b, key) == BucketAt(OptionalCall(b1, y, ty).0, key)
  {
    OptionalCallElsewhere(b, x, tx, key);
    OptionalCallElsewhere(OptionalCall(b, x, tx).0, y, ty, key);
  }

  /** The packet is dropped by the first bucket in the chain that turns it away, for that
      bucket's reason, and by none if none does; the buckets up to there are stepped and
      those behind it are left alone. */
  lemma ChainStopsAtFirstLimit(c: Config, b: Buckets, e: Event, kind: RateKind)
    ensures DefenseStep(c, b, e).1 == Some(ReasonOf(kind)) <==>
            LimitedBy(c, b, e, kind) && !StoppedBefore(c, b, e, kind)
    ensures DefenseStep(c, b, e).1.None? <==> forall k :: !LimitedBy(c, b, e, k)
    ensures var charge := ChargeOf(c, e.pkt, kind);
            charge.Some? ==>
              var before := BucketAt(b, charge.value.key);
              BucketAt(DefenseStep(c, b, e).0, charge.value.key) ==
                if StoppedBefore(c, b, e, kind) then before else Step(before, charge.value.limits, ReadOf(e, kind)).0
  {
    if c.defense.enabled {
      var custom, flood, ip := CustomCharge(c, e.pkt), FloodCharge(c, e.pkt), IpCharge(c, e.pkt);
      var b1 := OptionalCall(b, custom, e.custom).0;
      var b2 := OptionalCall(b1, flood, e.flood).0;
      if custom.Some? {
        OneCall(b, custom.value, e.custom);
        CallsBefore(b1, flood, e.flood, ip, e.ip, custom.value.key);
      }
      if flood.Some? {
        CallsBefore(b, None, 0, custom, e.custom, flood.value.key);
        OneCall(b1, flood.value, e.flood);
        CallsBefore(b2, None, 0, ip, e.ip, flood.value.key);
      }
      if ip.Some? {
        CallsBefore(b, custom, e.custom, flood, e.flood, ip.value.key);
        OneCall(b2, ip.value, e.ip);
      }
      FirstOfThree(c, b, e);
    }
  }

  lemma FirstOfThree(c: Config, b: Buckets, e: Event)
    ensures !StoppedBefore(c, b, e, CustomKind)
    ensures StoppedBefore(c, b, e, FloodKind) <==> LimitedBy(c, b, e, CustomKind)
    ensures StoppedBefore(c, b, e, IpKind) <==> LimitedBy(c, b, e, CustomKind) || LimitedBy(c, b, e, FloodKind)
    ensures (exists k :: LimitedBy(c, b, e, k)) <==> StoppedBefore(c, b, e, IpKind) || LimitedBy(c, b, e, IpKind)
  {
    assert Earlier(CustomKind, FloodKind) && Earlier(CustomKind, IpKind) && Earlier(FloodKind, IpKind);
  }

  /** What becomes of a packet: it passes if the stateless stages let it, or hand it over
      and no bucket turns it away; it is dropped for their reason, or for that of the first
      bucket that does; and only a packet handed over touches a bucket. */
  lemma VerdictMeans(c: Config, b: Buckets, e: Event, reason: DropReason)
    ensures var stage, verdict := StatelessStage(c.tables, e.pkt, e.ban), Handle(c, b, e).1;
            && (verdict == VPass <==> stage == Pass || (stage == Continue && forall k :: !LimitedBy(c, b, e, k)))
            && (verdict == VDrop(reason) <==>
                  || stage == Drop(reason)
                  || (stage == Continue
                      && exists k :: reason == ReasonOf(k) && LimitedBy(c, b, e, k) && !StoppedBefore(c, b, e, k)))
            && (stage != Continue ==> Handle(c, b, e).0 == b)
  {
    ChainStopsAtFirstLimit(c, b, e, CustomKind);
    ChainStopsAtFirstLimit(c, b, e, FloodKind);
    ChainStopsAtFirstLimit(c, b, e, IpKind);
  }

  /** A packet whose buckets each still hold a token, or are yet to be created, passes. */
  lemma TokensMeanPass(c: Config, b: Buckets, e: Event)
    requires StatelessStage(c.tables, e.pkt, e.ban) == Continue
    requires forall kind :: ChargeOf(c, e.pkt, kind).Some? ==>
               HoldsTokens(b, ChargeOf(c, e.pkt, kind).value, ReadOf(e, kind), 1)
    ensures ChainPasses(c, b, e)
  {
    ChainStopsAtFirstLimit(c, b, e, CustomKind);
    forall kind
      ensures !LimitedBy(c, b, e, kind)
    {
      if ChargeOf(c, e.pkt, kind).Some? {
        assert HoldsTokens(b, ChargeOf(c, e.pkt, kind).value, ReadOf(e, kind), 1);
      }
    }
  }

  /** The bucket does not block and holds at least `n` tokens, or would on creation. */
  predicate HoldsTokens(b: Buckets, charge: Charge, now: Clock64, n: nat)
  {
    Active(charge.limits) ==>
      if charge.key in b
      then !Blocked(b[charge.key], charge.limits, now) && n <= b[charge.key].tokens <= charge.limits.burst
      else n <= charge.limits.burst
  }

  /** Every bucket packets of the source may be charged to holds `n` tokens, and never
      blocked. */
  ghost predicate Ample(c: Config, b: Buckets, src: Ip, n: nat)
  {
    forall pkt: Packet, kind :: pkt.src == src && ChargeOf(c, pkt, kind).Some? ==>
      AmpleFor(b, ChargeOf(c, pkt, kind).value, n)
  }

  predicate AmpleFor(b: Buckets, charge: Charge, n: nat)
  {
    HoldsTokens(b, charge, 0, n) && (charge.key in b ==> b[charge.key].blockedUntilNs == 0)
  }

  /** One packet of the source takes at most one token of each of its buckets. */
  lemma OwnPacketTakesOne(c: Config, b: Buckets, e: Event, n: nat)
    requires n > 0 && Ample(c, b, e.pkt.src, n)
    ensures Ample(c, Handle(c, b, e).0, e.pkt.src, n - 1)
  {
    forall pkt: Packet, kind | pkt.src == e.pkt.src && ChargeOf(c, pkt, kind).Some?
      ensures AmpleFor(Handle(c, b, e).0, ChargeOf(c, pkt, kind).value, n - 1)
    {
      assert AmpleFor(b, ChargeOf(c, pkt, kind).value, n);
      OneTokenLess(c, b, e, n, ChargeOf(c, pkt, kind).value, Event(pkt, 0, 0, 0, 0));
    }
  }

  lemma OneTokenLess(c: Config, b: Buckets, e: Event, n: nat, charge: Charge, witnessed: Event)
    requires n > 0 && ChargedTo(c, witnessed, charge) && AmpleFor(b, charge, n)
    ensures AmpleFor(Handle(c, b, e).0, charge, n - 1)
  {
    if Active(charge.limits) {
      HandleOnKey(c, b, e, charge, witnessed);
    } else {
      InactiveUntouched(c, b, e, charge, witnessed);
    }
  }

  lemma InactiveUntouched(c: Config, b: Buckets, e: Event, charge: Charge, witnessed: Event)
    requires ChargedTo(c, witnessed, charge) && !Active(charge.limits)
    ensures BucketAt(Handle(c, b, e).0, charge.key) == BucketAt(b, charge.key)
  {
    var mine := ChargeOf(c, e.pkt, charge.key.kind);
    if mine.Some? && mine.value.key == charge.key {
      SameKeySameCharge(c, witnessed, e, charge);
      ChainStopsAtFirstLimit(c, b, e, charge.key.kind);
    } else {
      HandleElsewhere(c, b, e, charge.key);
    }
  }

  lemma OtherPacketTakesNone(c: Config, b: Buckets, e: Event, src: Ip, n: nat)
    requires e.pkt.src != src && Ample(c, b, src, n)
    ensures Ample(c, Handle(c, b, e).0, src, n)
  {
    var after := Handle(c, b, e).0;
    HandleLeavesOthers(c, b, e, src);
    forall pkt: Packet, kind | pkt.src == src && ChargeOf(c, pkt, kind).Some?
      ensures AmpleFor(after, ChargeOf(c, pkt, kind).value, n)
    {
      var charge := ChargeOf(c, pkt, kind).value;
      ChargesOwned(c, pkt);
      assert AmpleFor(b, charge, n) && BucketAt(after, charge.key) == BucketAt(b, charge.key);
    }
  }

  /** Packets of one source that get as far as the chain. */
  function ReachingChain(c: Config, events: seq<Event>, src: Ip): nat
  {
    if events == [] then 0
    else
      (if events[0].pkt.src == src && StatelessStage(c.tables, events[0].pkt, events[0].ban) == Continue then 1 else 0)
      + ReachingChain(c, events[1..], src)
  }

  /** Packets of one source that the run passed through the chain. */
  function PassesOf(c: Config, b: Buckets, events: seq<Event>, src: Ip): nat
    decreases events
  {
    if events == [] then 0
    else
      (if events[0].pkt.src == src && ChainPasses(c, b, events[0]) then 1 else 0)
      + PassesOf(c, Handle(c, b, events[0]).0, events[1..], src)
  }

  /** As long as no more packets of a source have reached the chain than its buckets hold
      tokens, all of them pass it, whatever other sources send in between. */
  lemma {:induction false} AmpleTokensPass(c: Config, b: Buckets, events: seq<Event>, src: Ip)
    requires Ample(c, b, src, ReachingChain(c, events, src))
    ensures PassesOf(c, b, events, src) == ReachingChain(c, events, src)
    decreases events
  {
    if events == [] {
    } else {
      var e, after := events[0], Handle(c, b, events[0]).0;
      var n := ReachingChain(c, events, src);
      if e.pkt.src != src {
        OtherPacketTakesNone(c, b, e, src, n);
      } else if StatelessStage(c.tables, e.pkt, e.ban) == Continue {
        OwnPacketTakesOne(c, b, e, n);
        forall kind | ChargeOf(c, e.pkt, kind).Some?
          ensures HoldsTokens(b, ChargeOf(c, e.pkt, kind).value, ReadOf(e, kind), 1)
        {
          assert AmpleFor(b, ChargeOf(c, e.pkt, kind).value, n);
        }
        TokensMeanPass(c, b, e);
      }
      AmpleTokensPass(c, after, events[1..], src);
    }
  }

  /** No limit that may govern a packet of the source has a burst below `n`. */
  ghost predicate BurstsAtLeast(c: Config, src: Ip, n: nat)
  {
    forall pkt: Packet, kind ::
      pkt.src == src && ChargeOf(c, pkt, kind).Some? && Active(ChargeOf(c, pkt, kind).value.limits) ==>
        n <= ChargeOf(c, pkt, kind).value.limits.burst
  }

  /** From empty buckets: a source with no more packets than the smallest burst loses none
      of them to the chain. */
  lemma FirstPacketsPass(c: Config, events: seq<Event>, src: Ip)
    requires BurstsAtLeast(c, src, ReachingChain(c, events, src))
    ensures PassesOf(c, map[], events, src) == ReachingChain(c, events, src)
  {
    forall pkt: Packet, kind | pkt.src == src && ChargeOf(c, pkt, kind).Some?
      ensures AmpleFor(map[], ChargeOf(c, pkt, kind).value, ReachingChain(c, events, src))
    {
    }
    AmpleTokensPass(c, map[], events, src);
  }

  // --------------------------------------------------------- flood window

  function FloodKeyOf(src: Ip): RateKey
  {
    SourceKeyOf(FloodKind, src, PROTO_ANY, 0)
  }

  ghost predicate FloodGuarded(c: Config)
  {
    c.defense.enabled && c.defense.floodEnabled && Active(c.defense.flood) && c.defense.flood.blockNs > 0
  }

  /** A packet during the window: it does not pass if it is the source's own, and the
      bucket stays as it is. */
  lemma WindowStep(c: Config, b: Buckets, e: Event, src: Ip)
    requires FloodGuarded(c) && FloodKeyOf(src) in b
    requires e.pkt.src == src ==> e.flood < b[FloodKeyOf(src)].blockedUntilNs
    ensures BucketAt(Handle(c, b, e).0, FloodKeyOf(src)) == Some(b[FloodKeyOf(src)])
    ensures e.pkt.src == src ==> !ChainPasses(c, b, e)
    ensures !PassesChargedTo(c, b, e, Charge(FloodKeyOf(src), c.defense.flood))
  {
    var charge := Charge(FloodKeyOf(src), c.defense.flood);
    if e.pkt.src == src {
      HandleCallsOnce(c, b, e, FloodKind, charge);
    } else {
      HandleLeavesOthers(c, b, e, src);
      if ChargedTo(c, e, charge) {
        OwnerUnique(src, e.pkt.src, charge.key);
      }
    }
  }

  /** Once a source's flood bucket is in its blocking window, no packet of that
      source passes the chain before the window ends, and none moves the end. */
  lemma {:induction false} FloodWindowHolds(c: Config, b: Buckets, events: seq<Event>, src: Ip)
    requires FloodGuarded(c) && FloodKeyOf(src) in b
    requires forall i :: 0 <= i < |events| && events[i].pkt.src == src ==>
               events[i].flood < b[FloodKeyOf(src)].blockedUntilNs
    ensures BucketAt(BucketsAfter(c, b, events), FloodKeyOf(src)) == Some(b[FloodKeyOf(src)])
    ensures PassesOf(c, b, events, src) == 0
    ensures PassesCharged(c, b, events, Charge(FloodKeyOf(src), c.defense.flood)) == 0
    decreases events
  {
    if events == [] {
    } else {
      var after := Handle(c, b, events[0]).0;
      WindowStep(c, b, events[0], src);
      FloodWindowHolds(c, after, events[1..], src);
      PassesChargedStep(c, b, events, Charge(FloodKeyOf(src), c.defense.flood), after);
    }
  }

  /** A packet the flood limit drops has made its call on the flood bucket. */
  lemma FloodDropSteps(c: Config, b: Buckets, e: Event)
    requires FloodGuarded(c) && DefenseStep(c, b, e).1 == Some(FloodDrop)
    ensures var (stepped, limited) := Step(BucketAt(b, FloodKeyOf(e.pkt.src)), c.defense.flood, e.flood);
            BucketAt(DefenseStep(c, b, e).0, FloodKeyOf(e.pkt.src)) == stepped && limited
  {
    var charge := Charge(FloodKeyOf(e.pkt.src), c.defense.flood);
    var b1 := OptionalCall(b, CustomCharge(c, e.pkt), e.custom).0;
    OptionalCallElsewhere(b, CustomCharge(c, e.pkt), e.custom, charge.key);
    OptionalCallHere(b1, charge, e.flood);
  }

  /** The packet found its flood bucket open and left it empty. */
  predicate EmptiesFlood(c: Config, b: Buckets, e: Event)
  {
    && StatelessStage(c.tables, e.pkt, e.ban) == Continue && DefenseStep(c, b, e).1 == Some(FloodDrop)
    && FloodKeyOf(e.pkt.src) in b && !Blocked(b[FloodKeyOf(e.pkt.src)], c.defense.flood, e.flood)
  }

  lemma EmptyingStartsTheWindow(c: Config, b: Buckets, e: Event)
    requires FloodGuarded(c) && EmptiesFlood(c, b, e) && e.flood + c.defense.flood.blockNs < U64
    ensures var after := Handle(c, b, e).0;
            && FloodKeyOf(e.pkt.src) in after
            && after[FloodKeyOf(e.pkt.src)].blockedUntilNs == e.flood + c.defense.flood.blockNs
    ensures !ChainPasses(c, b, e)
  {
    FloodDropSteps(c, b, e);
    assert Handle(c, b, e).0 == DefenseStep(c, b, e).0;
  }

  /** From the packet that empties a source's flood bucket on: if the end of the block
      fits the clock, no packet of the source passes the chain before time + block. */
  lemma EmptyingShutsTheSource(c: Config, b: Buckets, events: seq<Event>, src: Ip, after: Buckets)
    requires FloodGuarded(c) && events != [] && events[0].pkt.src == src && after == Handle(c, b, events[0]).0
    requires EmptiesFlood(c, b, events[0]) && events[0].flood + c.defense.flood.blockNs < U64
    requires forall i :: 0 <= i < |events| && events[i].pkt.src == src ==>
               events[i].flood < events[0].flood + c.defense.flood.blockNs
    ensures PassesOf(c, b, events, src) == 0
    ensures BucketAt(BucketsAfter(c, after, events[1..]), FloodKeyOf(src)) == BucketAt(after, FloodKeyOf(src))
  {
    EmptyingStartsTheWindow(c, b, events[0]);
    FloodWindowHolds(c, after, events[1..], src);
  }
}
