/** The packet program itself, updating its buckets and counters in place, and what
    the counters add up to. */
module Program {

  import opened Net
  import opened Encoding
  import opened Policy
  import opened Pending
  import opened Classifier
  import opened TokenBucket
  import opened Defense
  import opened Frame
  import opened Results

  const STAT_PASS: nat := 0
  const STAT_MAX: nat := 8

  function StatIndex(reason: DropReason): (i: nat)
    ensures 0 < i < STAT_MAX
  {
    match reason
    case RuleDrop(_) => 1
    case GeoDrop(_) => 2
    case RateDrop => 3
    case FloodDrop => 4
    case CustomRateDrop => 5
    case ParseDrop => 6
    case TempBanDrop => 7
  }

  type Stats = s: seq<nat> | |s| == STAT_MAX witness seq(8, _ => 0)

  /** The clock values the stages of one frame read. */
  datatype Instants = Instants(ban: Time, custom: Clock64, flood: Clock64, ip: Clock64)

  /** A frame's effect on buckets, and its verdict if it is counted at all. */
  function FrameStep(c: Config, b: Buckets, data: Bytes, at: Instants): (Buckets, Option<Verdict>)
  {
    match Parse(data)
    case Ignored => (b, None)
    case Malformed => (b, Some(VDrop(ParseDrop)))
    case Good(pkt) =>
      var (after, verdict) := Handle(c, b, Event(pkt, at.ban, at.custom, at.flood, at.ip));
      (after, Some(verdict))
  }

  /** A frame has no verdict exactly if it is ignored, is dropped as unreadable exactly if it
      is malformed, and touches a bucket only if it is read. */
  lemma FrameVerdict(c: Config, b: Buckets, data: Bytes, at: Instants)
    ensures var (after, verdict) := FrameStep(c, b, data, at);
            && (verdict.None? <==> Parse(data) == Ignored)
            && (verdict == Some(VDrop(ParseDrop)) <==> Parse(data) == Malformed)
            && (after != b ==> Parse(data).Good? && StatelessStage(c.tables, Parse(data).pkt, at.ban) == Continue)
  {
    if Parse(data).Good? {
      var e := Event(Parse(data).pkt, at.ban, at.custom, at.flood, at.ip);
      VerdictMeans(c, b, e, ParseDrop);
    }
  }

  function Bumped(stats: Stats, verdict: Option<Verdict>): Stats
  {
    match verdict
    case None => stats
    case Some(VPass) => stats[STAT_PASS := stats[STAT_PASS] + 1]
    case Some(VDrop(reason)) => stats[StatIndex(reason) := stats[StatIndex(reason)] + 1]
  }

  class XdpProgram {
    const config: Config
    var buckets: Buckets
    var stats: Stats

    constructor (config: Config)
      ensures this.config == config && buckets == map[] && stats == seq(STAT_MAX, _ => 0)
    {
      this.config := config;
      buckets, stats := map[], seq(STAT_MAX, _ => 0);
    }

    method IncrStat(index: nat)
      requires index < STAT_MAX
      modifies this`stats
      ensures stats == old(stats)[index := old(stats)[index] + 1]
    {
      stats := stats[index := stats[index] + 1];
    }

    method TokenBucketLimited(key: RateKey, limits: Limits, now: Clock64) returns (limited: bool)
      modifies this`buckets
      ensures (buckets, limited) == TokenCall(old(buckets), Charge(key, limits), now)
    {
      assert key in buckets ==> buckets[key := buckets[key]] == buckets;
      if limits.packetsPerSecond == 0 || limits.burst == 0 {
        return false;
      }
      if key !in buckets {
        buckets := buckets[key := Bucket(limits.burst - 1, now, 0)];
        return false;
      }
      var bucket := buckets[key];
      if limits.blockNs > 0 && bucket.blockedUntilNs > now {
        return true;
      }
      var elapsed := (now - bucket.updatedNs) % U64;
      var refill := elapsed * limits.packetsPerSecond % U64 / NS;
      var tokens := bucket.tokens;
      if refill > 0 {
        tokens := tokens + refill;
        if tokens > limits.burst {
          tokens := limits.burst;
        }
        bucket := bucket.(updatedNs := now);
      }
      if tokens == 0 {
        if limits.blockNs > 0 {
          bucket := bucket.(blockedUntilNs := (now + limits.blockNs) % U64);
        }
        buckets := buckets[key := bucket];
        return true;
      }
      bucket := bucket.(tokens := tokens - 1);
      buckets := buckets[key := bucket];
      limited := false;
    }

    method CustomDynamicRateLimited(pkt: Packet, now: Clock64) returns (limited: bool)
      modifies this`buckets
      ensures (buckets, limited) == OptionalCall(old(buckets), CustomCharge(config, pkt), now)
    {
      var matched := MatchedCustom(config.customRates, pkt);
      if matched.None? {
        return false;
      }
      var limit := config.customRates[matched.value];
      limited := TokenBucketLimited(
        SourceKeyOf(CustomKind, pkt.src, matched.value.proto, matched.value.dport),
        Limits(limit.packetsPerSecond, limit.burst, 0), now);
    }

    method DynamicDefenseLimited(e: Event) returns (drop: Option<DropReason>)
      modifies this`buckets
      ensures (buckets, drop) == DefenseStep(config, old(buckets), e)
    {
      if !config.defense.enabled {
        return None;
      }
      var custom := CustomDynamicRateLimited(e.pkt, e.custom);
      if custom {
        return Some(CustomRateDrop);
      }
      if config.defense.floodEnabled {
        var flood := TokenBucketLimited(SourceKeyOf(FloodKind, e.pkt.src, PROTO_ANY, 0), config.defense.flood, e.flood);
        if flood {
          return Some(FloodDrop);
        }
      }
      if config.defense.ipRateLimitEnabled {
        var rate := TokenBucketLimited(SourceKeyOf(IpKind, e.pkt.src, PROTO_ANY, 0), config.defense.ip, e.ip);
        if rate {
          return Some(RateDrop);
        }
      }
      drop := None;
    }

    method HandlePacket(e: Event) returns (verdict: Verdict)
      modifies this
      ensures (buckets, verdict) == Handle(config, old(buckets), e)
      ensures stats == Bumped(old(stats), Some(verdict))
    {
      verdict := Finish(e, StatelessStage(config.tables, e.pkt, e.ban));
    }

    /** Acts on the stateless stages' result, going through the defense chain if it is
        open, and counts the verdict. */
    method Finish(e: Event, stage: Stage) returns (verdict: Verdict)
      modifies this
      ensures (buckets, verdict) == HandleStaged(config, old(buckets), e, stage)
      ensures stats == Bumped(old(stats), Some(verdict))
    {
      match stage {
        case Pass =>
          verdict := VPass;
        case Drop(reason) =>
          verdict := VDrop(reason);
        case Continue =>
          var drop := DynamicDefenseLimited(e);
          verdict := if drop.Some? then VDrop(drop.value) else VPass;
      }
      IncrStat(if verdict.VPass? then STAT_PASS else StatIndex(verdict.reason));
    }

    /** The entry point: reads the frame, drops what it cannot read, hands the rest on. */
    method XdpFirewall(data: Bytes, at: Instants) returns (verdict: Option<Verdict>)
      modifies this
      ensures (buckets, verdict) == FrameStep(config, old(buckets), data, at)
      ensures stats == Bumped(old(stats), verdict)
    {
      var parsed := ReadFrame(data);
      match parsed {
        case Ignored =>
          verdict := None;
        case Malformed =>
          IncrStat(StatIndex(ParseDrop));
          verdict := Some(VDrop(ParseDrop));
        case Good(pkt) =>
          var v := HandlePacket(Event(pkt, at.ban, at.custom, at.flood, at.ip));
          verdict := Some(v);
      }
    }
  }

  // ------------------------------------------------------------- accounting

  datatype Arrival = Arrival(data: Bytes, at: Instants)

  function Verdicts(c: Config, b: Buckets, run: seq<Arrival>): seq<Option<Verdict>>
    decreases run
  {
    if run == [] then []
    else
      var (after, verdict) := FrameStep(c, b, run[0].data, run[0].at);
      [verdict] + Verdicts(c, after, run[1..])
  }

  function StatsAfter(stats: Stats, verdicts: seq<Option<Verdict>>): Stats
    decreases verdicts
  {
    if verdicts == [] then stats else StatsAfter(Bumped(stats, verdicts[0]), verdicts[1..])
  }

  function TotalDrop(s: Stats): nat
  {
    s[1] + s[2] + s[3] + s[4] + s[5] + s[6] + s[7]
  }

  function CountDrops(verdicts: seq<Option<Verdict>>): nat
  {
    if verdicts == [] then 0
    else (if verdicts[0].Some? && verdicts[0].value.VDrop? then 1 else 0) + CountDrops(verdicts[1..])
  }

  function CountIgnored(run: seq<Arrival>): nat
  {
    if run == [] then 0 else (if Parse(run[0].data).Ignored? then 1 else 0) + CountIgnored(run[1..])
  }

  lemma BumpCounts(s: Stats, verdict: Option<Verdict>)
    ensures var t := Bumped(s, verdict);
            && TotalDrop(t) == TotalDrop(s) + (if verdict.Some? && verdict.value.VDrop? then 1 else 0)
            && t[STAT_PASS] == s[STAT_PASS] + (if verdict.Some? && verdict.value.VPass? then 1 else 0)
  {
  }

  lemma IgnoredHasNoVerdict(c: Config, b: Buckets, a: Arrival)
    ensures FrameStep(c, b, a.data, a.at).1.None? <==> Parse(a.data).Ignored?
  {
  }

  /** The seven drop counters together count the drop verdicts; with the pass counter
      they count every frame except those passed before the IP header was read. */
  lemma {:induction false} CountersAddUp(c: Config, b: Buckets, stats: Stats, run: seq<Arrival>)
    ensures var verdicts := Verdicts(c, b, run);
            var final := StatsAfter(stats, verdicts);
            && TotalDrop(final) == TotalDrop(stats) + CountDrops(verdicts)
            && final[STAT_PASS] + TotalDrop(final) + CountIgnored(run)
               == stats[STAT_PASS] + TotalDrop(stats) + |run|
    decreases run
  {
    if run == [] {
    } else {
      var (after, verdict) := FrameStep(c, b, run[0].data, run[0].at);
      IgnoredHasNoVerdict(c, b, run[0]);
      BumpCounts(stats, verdict);
      CountersAddUp(c, after, Bumped(stats, verdict), run[1..]);
      VerdictsStep(c, b, run, after, verdict, Verdicts(c, after, run[1..]));
    }
  }

  lemma VerdictsStep(c: Config, b: Buckets, run: seq<Arrival>, after: Buckets, verdict: Option<Verdict>,
                     rest: seq<Option<Verdict>>)
    requires run != [] && FrameStep(c, b, run[0].data, run[0].at) == (after, verdict)
    requires rest == Verdicts(c, after, run[1..])
    ensures Verdicts(c, b, run) == [verdict] + rest && ([verdict] + rest)[1..] == rest
  {
  }

  /** The verdicts each counter is for, by its index in the statistics map. */
  predicate CountedAt(verdict: Verdict, i: nat)
  {
    match verdict
    case VPass => i == 0
    case VDrop(RuleDrop(_)) => i == 1
    case VDrop(GeoDrop(_)) => i == 2
    case VDrop(RateDrop) => i == 3
    case VDrop(FloodDrop) => i == 4
    case VDrop(CustomRateDrop) => i == 5
    case VDrop(ParseDrop) => i == 6
    case VDrop(TempBanDrop) => i == 7
  }

  function CountAt(verdicts: seq<Option<Verdict>>, i: nat): nat
  {
    if verdicts == [] then 0
    else (if verdicts[0].Some? && CountedAt(verdicts[0].value, i) then 1 else 0) + CountAt(verdicts[1..], i)
  }

  /** Every counter moves by the number of verdicts it is for, and for nothing else. */
  lemma {:induction false} EachCounterCounts(stats: Stats, verdicts: seq<Option<Verdict>>, i: nat)
    requires i < STAT_MAX
    ensures StatsAfter(stats, verdicts)[i] == stats[i] + CountAt(verdicts, i)
    decreases verdicts
  {
    if verdicts == [] {
    } else {
      EachCounterCounts(Bumped(stats, verdicts[0]), verdicts[1..], i);
    }
  }
}
