/** The agent's map writer: sizes the maps, puts every new entry, then removes what
    is stale. */
module Manager {

  import opened Bits
  import opened Net
  import opened LpmTrie
  import opened Encoding
  import opened Policy
  import opened Compile
  import opened Compaction
  import opened Pending
  import opened Classifier
  import opened Defense
  import opened MapSizes
  import opened Meaning
  import opened Frame
  import opened Results

  ghost predicate CanonicalPolicy(p: CompiledPolicy)
  {
    && (forall i :: 0 <= i < |p.rules| ==> Canonical(p.rules[i].net))
    && (forall i :: 0 <= i < |p.threatPrefixes| ==> Canonical(p.threatPrefixes[i].net))
    && (forall b <- p.tempBans :: Canonical(b.net))
    && (forall i :: 0 <= i < |p.trustedPrefixes| ==> Canonical(p.trustedPrefixes[i]))
    && (forall i :: 0 <= i < |p.geoPrefixes| ==> Canonical(p.geoPrefixes[i].net))
  }

  /** The compiler only ever produces canonical networks. */
  lemma CompiledIsCanonical(s: PolicySnapshot, now: Time)
    requires CompilePolicy(s, now).Ok?
    ensures CanonicalPolicy(CompilePolicy(s, now).value)
  {
    forall c: Cidr
      ensures Canonical(Trunc(c))
    {
      TruncSameNetwork(c);
    }
  }

  function TrustedEntries(p: CompiledPolicy): seq<LpmEntry<bool>>
  {
    TrustedCandidates(Compacted(p.trustedPrefixes, TrustedPrefixCovers))
  }

  function BanEntries(p: CompiledPolicy, locals: seq<Ip>, wallNow: Time): seq<LpmEntry<Time>>
  {
    BanCandidates(Compacted(p.tempBans, TempBanCoversOrSupersedes), locals, wallNow)
  }

  function RuleEntries(p: CompiledPolicy, locals: seq<Ip>): seq<LpmEntry<RuleValue>>
  {
    RuleCandidates(OrderedPolicyRules(p), locals)
  }

  function GeoEntries(p: CompiledPolicy): seq<LpmEntry<U16>>
  {
    GeoCandidates(p.geoPrefixes)
  }

  lemma TrustedEntriesCanonical(p: CompiledPolicy)
    requires CanonicalPolicy(p)
    ensures CanonicalEntries(TrustedEntries(p))
    ensures |TrustedEntries(p)| == |Compacted(p.trustedPrefixes, TrustedPrefixCovers)|
  {
    var kept := Compacted(p.trustedPrefixes, TrustedPrefixCovers);
    forall i | 0 <= i < |kept|
      ensures CanonicalKey(TrustedEntries(p)[i].key)
    {
      assert kept[i] in kept;
      CutSourceKey(kept[i]);
    }
  }

  lemma GeoEntriesCanonical(p: CompiledPolicy)
    requires CanonicalPolicy(p)
    ensures CanonicalEntries(GeoEntries(p)) && |GeoEntries(p)| == |p.geoPrefixes|
  {
  }

  lemma {:induction false} RuleCandidatesCanonical(rules: seq<XdpPrefixRule>, locals: seq<Ip>)
    requires forall i :: 0 <= i < |rules| ==> Canonical(rules[i].net)
    ensures CanonicalEntries(RuleCandidates(rules, locals)) && |RuleCandidates(rules, locals)| <= |rules|
  {
    if rules == [] {
    } else {
      RuleCandidatesCanonical(rules[1..], locals);
      CutScopedKey(rules[0].net, ProtoCode(rules[0].protocol), rules[0].port);
    }
  }

  lemma RuleEntriesCanonical(p: CompiledPolicy, locals: seq<Ip>)
    requires CanonicalPolicy(p)
    ensures CanonicalEntries(RuleEntries(p, locals))
    ensures |RuleEntries(p, locals)| <= |p.rules| + |p.threatPrefixes|
  {
    var all, sorted := p.threatPrefixes + p.rules, OrderedPolicyRules(p);
    assert |multiset(sorted)| == |sorted| && |multiset(all)| == |all|;
    forall i | 0 <= i < |sorted|
      ensures Canonical(sorted[i].net)
    {
      assert sorted[i] in multiset(sorted);
      assert sorted[i] in all;
    }
    RuleCandidatesCanonical(sorted, locals);
  }

  lemma BanEntriesCanonical(bans: seq<XdpTempBan>, entries: seq<LpmEntry<Time>>)
    requires forall b <- bans :: Canonical(b.net)
    requires forall e <- entries :: exists b <- bans :: e == BanEntry(b)
    ensures CanonicalEntries(entries)
  {
    forall i | 0 <= i < |entries|
      ensures CanonicalKey(entries[i].key)
    {
      assert entries[i] in entries;
      var b :| b in bans && entries[i] == BanEntry(b);
      CutScopedKey(b.net, ProtoCode(b.protocol), b.port);
    }
  }

  lemma {:induction false} BanCandidatesAtMost(bans: seq<XdpTempBan>, locals: seq<Ip>, wallNow: Time)
    ensures |BanCandidates(bans, locals, wallNow)| <= |bans|
  {
    if bans == [] {
    } else {
      BanCandidatesAtMost(bans[1..], locals, wallNow);
    }
  }

  lemma BanCandidatesCanonical(bans: seq<XdpTempBan>, locals: seq<Ip>, wallNow: Time)
    requires forall b <- bans :: Canonical(b.net)
    ensures CanonicalEntries(BanCandidates(bans, locals, wallNow)) && |BanCandidates(bans, locals, wallNow)| <= |bans|
  {
    BanEntriesCanonical(bans, BanCandidates(bans, locals, wallNow));
    BanCandidatesAtMost(bans, locals, wallNow);
  }

  // ----------------------------------------------------------- required sizes

  function CountryCodes(rules: seq<XdpCountryRule>): set<U16>
  {
    set i | 0 <= i < |rules| :: rules[i].country
  }

  /** Entry counts the policy needs; None when a count does not fit 32 bits. */
  function RequiredSizes(p: CompiledPolicy, rate: U32): Option<XdpMapSizes>
  {
    var rules, geo := |p.rules| + |p.threatPrefixes|, |p.geoPrefixes|;
    var trusted := |Compacted(p.trustedPrefixes, TrustedPrefixCovers)|;
    var countries, custom := |CountryCodes(p.countryRules)|, |p.dynamicRateLimits|;
    var bans := |Compacted(p.tempBans, TempBanCoversOrSupersedes)|;
    if rules < U32_LIMIT && geo < U32_LIMIT && trusted < U32_LIMIT && countries < U32_LIMIT
       && custom < U32_LIMIT && bans < U32_LIMIT
    then Some(XdpMapSizes(rules, geo, trusted, countries, rate, custom, bans))
    else None
  }

  /** A write into an empty map never needs more room than there are candidates. */
  lemma EmptyMapHasRoom<K, V>(candidates: seq<Entry<K, V>>, puts: seq<Entry<K, V>>, capacity: nat)
    requires |puts| <= |candidates| <= capacity
    ensures UnionFits(map[], puts, capacity)
  {
    WrittenAtMost(puts);
    assert {} + Written(puts).Keys == Written(puts).Keys;
  }

  lemma EmptyTrieHasRoom<V>(candidates: seq<LpmEntry<V>>, capacity: nat)
    requires |candidates| <= capacity
    ensures UnionFits(map[], TriePuts(candidates), capacity)
  {
    FirstPerKeyAtMost(candidates, |candidates|);
    WrittenAtMost(TriePuts(candidates));
    assert {} + Written(TriePuts(candidates)).Keys == Written(TriePuts(candidates)).Keys;
  }

  lemma CountriesHaveRoom(rules: seq<XdpCountryRule>, capacity: nat)
    requires |CountryCodes(rules)| <= capacity
    ensures var candidates := CountryCandidates(rules);
            UnionFits(map[], FirstPerKey(candidates, |candidates|), capacity)
  {
    var candidates := CountryCandidates(rules);
    var puts := FirstPerKey(candidates, |candidates|);
    forall k | k in Written(puts)
      ensures k in CountryCodes(rules)
    {
      WrittenKeys(puts, k);
      FirstPerKeyMembers(candidates, |candidates|, k);
    }
    assert {} + Written(puts).Keys == Written(puts).Keys;
    SubsetSize(Written(puts).Keys, CountryCodes(rules));
  }

  lemma {:induction false} FirstPerKeyMembers<K, V>(candidates: seq<Entry<K, V>>, n: nat, k: K)
    requires n <= |candidates| && HasKey(FirstPerKey(candidates, n), k)
    ensures exists i :: 0 <= i < n && candidates[i].key == k
  {
    if candidates[n - 1].key == k {
    } else {
      var r := FirstPerKey(candidates, n - 1);
      var j :| 0 <= j < |FirstPerKey(candidates, n)| && FirstPerKey(candidates, n)[j].key == k;
      assert j < |r| && r[j].key == k;
      FirstPerKeyMembers(candidates, n - 1, k);
    }
  }

  // ------------------------------------------------------------- the manager

  /** The policy maps of one interface. */
  datatype Maps = Maps(
    tempBans: map<Bits, Time>, customRates: map<CustomRateKey, RateLimit>, trusted: map<Bits, bool>,
    rules: map<Bits, RuleValue>, geo: map<Bits, U16>, countries: map<U16, RuleAction>)

  const EMPTY_MAPS: Maps := Maps(map[], map[], map[], map[], map[], map[])

  /** What a policy asks to write, list by list. */
  datatype Candidates = Candidates(
    tempBans: seq<LpmEntry<Time>>, customRates: seq<Entry<CustomRateKey, RateLimit>>, trusted: seq<LpmEntry<bool>>,
    rules: seq<LpmEntry<RuleValue>>, geo: seq<LpmEntry<U16>>, countries: seq<Entry<U16, RuleAction>>)

  function CandidatesOf(p: CompiledPolicy, locals: seq<Ip>, wallNow: Time): Candidates
  {
    Candidates(BanEntries(p, locals, wallNow), CustomRateCandidates(p.dynamicRateLimits), TrustedEntries(p),
               RuleEntries(p, locals), GeoEntries(p), CountryCandidates(p.countryRules))
  }

  ghost predicate CanonicalCandidates(c: Candidates)
  {
    CanonicalEntries(c.tempBans) && CanonicalEntries(c.trusted) && CanonicalEntries(c.rules) && CanonicalEntries(c.geo)
  }

  lemma CandidatesCanonical(p: CompiledPolicy, locals: seq<Ip>, wallNow: Time)
    requires CanonicalPolicy(p)
    ensures CanonicalCandidates(CandidatesOf(p, locals, wallNow))
  {
    BanCandidatesCanonical(Compacted(p.tempBans, TempBanCoversOrSupersedes), locals, wallNow);
    TrustedEntriesCanonical(p);
    RuleEntriesCanonical(p, locals);
    GeoEntriesCanonical(p);
  }

  /** What the maps hold once every list is written and nothing else is left. */
  function TablesFor(c: Candidates): Maps
  {
    Maps(FirstWins(c.tempBans), FirstTable(c.customRates), FirstWins(c.trusted),
         FirstWins(c.rules), FirstWins(c.geo), FirstTable(c.countries))
  }

  /** What the maps hold once a policy is fully applied. */
  function MapsOf(p: CompiledPolicy, locals: seq<Ip>, wallNow: Time): Maps
  {
    TablesFor(CandidatesOf(p, locals, wallNow))
  }

  function Over(held: Maps, m: Maps): Maps
  {
    Maps(held.tempBans + m.tempBans, held.customRates + m.customRates, held.trusted + m.trusted,
         held.rules + m.rules, held.geo + m.geo, held.countries + m.countries)
  }

  lemma MapsOfIsTables(p: CompiledPolicy, locals: seq<Ip>, wallNow: Time)
    ensures var m := MapsOf(p, locals, wallNow);
            TablesOf(p, locals, wallNow) == KernelTables(m.trusted, m.tempBans, m.rules, m.geo, m.countries)
  {
  }

  /** The packet program on these maps decides the packet as the policy does. */
  ghost predicate DecidesAsPolicy(s: PolicySnapshot, tables: KernelTables, now: Time, locals: seq<Ip>, pkt: Packet)
  {
    StatelessStage(tables, pkt, now) == PolicyStage(s, pkt, now, locals)
  }

  /** And the frame, if it is one that can be read. */
  ghost predicate DecidesFrame(s: PolicySnapshot, tables: KernelTables, now: Time, locals: seq<Ip>, data: Bytes)
  {
    Parse(data).Good? ==> DecidesAsPolicy(s, tables, now, locals, Parse(data).pkt)
  }

  ghost predicate DecidesEveryFrame(s: PolicySnapshot, tables: KernelTables, now: Time, locals: seq<Ip>)
  {
    forall data: Bytes :: DecidesFrame(s, tables, now, locals, data)
  }

  ghost predicate DecidesEveryPacket(s: PolicySnapshot, tables: KernelTables, now: Time, locals: seq<Ip>)
  {
    forall pkt: Packet :: Readable(pkt) ==> DecidesAsPolicy(s, tables, now, locals, pkt)
  }

  lemma FramesAreReadable(s: PolicySnapshot, tables: KernelTables, now: Time, locals: seq<Ip>)
    ensures DecidesEveryFrame(s, tables, now, locals) <==> DecidesEveryPacket(s, tables, now, locals)
  {
    if DecidesEveryFrame(s, tables, now, locals) {
      forall pkt: Packet | Readable(pkt)
        ensures DecidesAsPolicy(s, tables, now, locals, pkt)
      {
        ReadableIffParsed(pkt);
        var data: Bytes :| Parse(data) == Good(pkt);
        assert DecidesFrame(s, tables, now, locals, data);
      }
    }
    if DecidesEveryPacket(s, tables, now, locals) {
      forall data: Bytes
        ensures DecidesFrame(s, tables, now, locals, data)
      {
        ParsedIsReadable(data);
      }
    }
  }

  lemma CompiledAlwaysDecides(s: PolicySnapshot, compileNow: Time, wallNow: Time, locals: seq<Ip>, tables: KernelTables)
    requires CompilePolicy(s, compileNow).Ok? && compileNow <= wallNow
    requires tables == TablesOf(CompilePolicy(s, compileNow).value, locals, wallNow)
    ensures (forall now: Time :: wallNow <= now ==> DecidesEveryPacket(s, tables, now, locals)) <==>
            EveryAddressKept(CompileActiveTempBans(s.tempBans, compileNow), wallNow, locals, s.trustedCidrs)
  {
    CompilationExactIff(s, compileNow, wallNow, locals);
    if forall pkt: Packet, now: Time :: Readable(pkt) && wallNow <= now ==>
         StageAgrees(s, compileNow, wallNow, now, locals, pkt) {
      forall now: Time | wallNow <= now
        ensures DecidesEveryPacket(s, tables, now, locals)
      {
        forall pkt: Packet | Readable(pkt)
          ensures DecidesAsPolicy(s, tables, now, locals, pkt)
        {
          assert StageAgrees(s, compileNow, wallNow, now, locals, pkt);
        }
      }
    }
    if forall now: Time :: wallNow <= now ==> DecidesEveryPacket(s, tables, now, locals) {
      forall pkt: Packet, now: Time | Readable(pkt) && wallNow <= now
        ensures StageAgrees(s, compileNow, wallNow, now, locals, pkt)
      {
        assert DecidesEveryPacket(s, tables, now, locals);
        assert DecidesAsPolicy(s, tables, now, locals, pkt);
      }
    }
  }

  /** A snapshot compiled and applied in full decides every frame at every later time as
      the policy says, exactly when compaction and refusal keep every banned address. */
  lemma AppliedPolicyDecides(s: PolicySnapshot, compileNow: Time, wallNow: Time, locals: seq<Ip>, m: Maps,
                             tables: KernelTables)
    requires CompilePolicy(s, compileNow).Ok? && compileNow <= wallNow
    requires m == MapsOf(CompilePolicy(s, compileNow).value, locals, wallNow)
    requires tables == KernelTables(m.trusted, m.tempBans, m.rules, m.geo, m.countries)
    ensures (forall now: Time :: wallNow <= now ==> DecidesEveryFrame(s, tables, now, locals)) <==>
            EveryAddressKept(CompileActiveTempBans(s.tempBans, compileNow), wallNow, locals, s.trustedCidrs)
  {
    MapsOfIsTables(CompilePolicy(s, compileNow).value, locals, wallNow);
    forall now: Time
      ensures DecidesEveryFrame(s, tables, now, locals) <==> DecidesEveryPacket(s, tables, now, locals)
    {
      FramesAreReadable(s, tables, now, locals);
    }
    CompiledAlwaysDecides(s, compileNow, wallNow, locals, tables);
  }

  ghost predicate RoomyLists(m: Maps, sizes: XdpMapSizes, c: Candidates)
  {
    && UnionFits(m.tempBans, TriePuts(c.tempBans), sizes.tempBans)
    && UnionFits(m.customRates, FirstPerKey(c.customRates, |c.customRates|), sizes.customRates)
    && UnionFits(m.trusted, TriePuts(c.trusted), sizes.trusted)
  }

  ghost predicate RoomyRules(m: Maps, sizes: XdpMapSizes, c: Candidates)
  {
    && UnionFits(m.rules, TriePuts(c.rules), sizes.rules)
    && UnionFits(m.geo, TriePuts(c.geo), sizes.geo)
    && UnionFits(m.countries, FirstPerKey(c.countries, |c.countries|), sizes.countries)
  }

  /** Old and new entries fit side by side in every map. */
  ghost predicate Roomy(m: Maps, sizes: XdpMapSizes, c: Candidates)
  {
    RoomyLists(m, sizes, c) && RoomyRules(m, sizes, c)
  }

  /** What a write that stopped may leave: no map has lost a key, and every entry is an old
      one or a new one. */
  ghost predicate HalfWay(held: Maps, m: Maps, c: Candidates)
  {
    HalfWayLists(held, m, c) && HalfWayRules(held, m, c)
  }

  ghost predicate HalfWayLists(held: Maps, m: Maps, c: Candidates)
  {
    && Between(held.tempBans, m.tempBans, FirstWins(c.tempBans))
    && Between(held.customRates, m.customRates, FirstTable(c.customRates))
    && Between(held.trusted, m.trusted, FirstWins(c.trusted))
  }

  ghost predicate HalfWayRules(held: Maps, m: Maps, c: Candidates)
  {
    && Between(held.rules, m.rules, FirstWins(c.rules))
    && Between(held.geo, m.geo, FirstWins(c.geo))
    && Between(held.countries, m.countries, FirstTable(c.countries))
  }

  lemma Untouched(held: Maps, c: Candidates)
    ensures HalfWay(held, held, c)
  {
  }

  /** Key ids a policy still needs. */
  datatype PendingIds = PendingIds(
    tempBans: set<LpmKey>, customRates: set<CustomRateKey>, trusted: set<LpmKey>,
    rules: set<LpmKey>, geo: set<LpmKey>, countries: set<U16>)

  function PendingIdsOf(c: Candidates): PendingIds
  {
    PendingIds(
      Ids(c.tempBans, |c.tempBans|), FirstTable(c.customRates).Keys, Ids(c.trusted, |c.trusted|),
      Ids(c.rules, |c.rules|), Ids(c.geo, |c.geo|), FirstTable(c.countries).Keys)
  }

  ghost predicate Sound(m: Maps, sizes: XdpMapSizes)
  {
    && |m.tempBans| <= sizes.tempBans
    && |m.customRates| <= sizes.customRates
    && |m.trusted| <= sizes.trusted
    && |m.rules| <= sizes.rules
    && |m.geo| <= sizes.geo
    && |m.countries| <= sizes.countries
  }

  lemma EmptyIsRoomy(sizes: XdpMapSizes, p: CompiledPolicy, locals: seq<Ip>, wallNow: Time, required: XdpMapSizes)
    requires CanonicalPolicy(p)
    requires RequiredSizes(p, required.rate) == Some(required) && Fits(required, sizes)
    ensures Roomy(EMPTY_MAPS, sizes, CandidatesOf(p, locals, wallNow))
  {
    BanCandidatesCanonical(Compacted(p.tempBans, TempBanCoversOrSupersedes), locals, wallNow);
    EmptyTrieHasRoom(BanEntries(p, locals, wallNow), sizes.tempBans);
    var custom := CustomRateCandidates(p.dynamicRateLimits);
    FirstPerKeyAtMost(custom, |custom|);
    EmptyMapHasRoom(custom, FirstPerKey(custom, |custom|), sizes.customRates);
    TrustedEntriesCanonical(p);
    EmptyTrieHasRoom(TrustedEntries(p), sizes.trusted);
    RuleEntriesCanonical(p, locals);
    EmptyTrieHasRoom(RuleEntries(p, locals), sizes.rules);
    EmptyTrieHasRoom(GeoEntries(p), sizes.geo);
    CountriesHaveRoom(p.countryRules, sizes.countries);
  }

  /** Empty maps of the sizes the policy needs have room for its candidates. */
  ghost predicate FitsFromEmpty(p: CompiledPolicy, c: Candidates)
  {
    forall sizes: XdpMapSizes :: Needs(p, sizes) ==> Roomy(EMPTY_MAPS, sizes, c)
  }

  ghost predicate Needs(p: CompiledPolicy, sizes: XdpMapSizes)
  {
    RequiredSizes(p, sizes.rate).Some? && Fits(RequiredSizes(p, sizes.rate).value, sizes)
  }

  lemma FitFromEmpty(p: CompiledPolicy, locals: seq<Ip>, wallNow: Time)
    requires CanonicalPolicy(p)
    ensures FitsFromEmpty(p, CandidatesOf(p, locals, wallNow))
  {
    forall sizes: XdpMapSizes | Needs(p, sizes)
      ensures Roomy(EMPTY_MAPS, sizes, CandidatesOf(p, locals, wallNow))
    {
      EmptyIsRoomy(sizes, p, locals, wallNow, RequiredSizes(p, sizes.rate).value);
    }
  }

  lemma {:induction false} DistinctFillTrie<V>(entries: seq<LpmEntry<V>>)
    requires CanonicalEntries(entries) && DistinctKeys(entries)
    ensures |FirstWins(entries)| == |entries|
  {
    if entries == [] {
    } else {
      DistinctFillTrie(entries[1..]);
      if Cut(entries[0].key) in FirstWins(entries[1..]) {
        var i := FirstWinsKey(entries[1..], Cut(entries[0].key));
        CutInjective(entries[0].key, entries[i + 1].key);
      }
    }
  }

  lemma {:induction false} FirstTableKeys<K, V>(candidates: seq<Entry<K, V>>, k: K)
    ensures k in FirstTable(candidates) <==> HasKey(candidates, k)
  {
    if candidates == [] {
    } else {
      FirstTableKeys(candidates[1..], k);
      if HasKey(candidates[1..], k) {
        var j :| 0 <= j < |candidates[1..]| && candidates[1..][j].key == k;
        assert candidates[j + 1].key == k;
      }
      if HasKey(candidates, k) && candidates[0].key != k {
        var j :| 0 <= j < |candidates| && candidates[j].key == k;
        assert candidates[1..][j - 1].key == k;
      }
    }
  }

  lemma {:induction false} DistinctFillTable<K, V>(candidates: seq<Entry<K, V>>)
    requires DistinctKeys(candidates)
    ensures |FirstTable(candidates)| == |candidates|
  {
    if candidates == [] {
    } else {
      DistinctFillTable(candidates[1..]);
      FirstTableKeys(candidates[1..], candidates[0].key);
    }
  }

  lemma CountriesFill(rules: seq<XdpCountryRule>)
    ensures FirstTable(CountryCandidates(rules)).Keys == CountryCodes(rules)
  {
    forall k
      ensures k in FirstTable(CountryCandidates(rules)) <==> k in CountryCodes(rules)
    {
      FirstTableKeys(CountryCandidates(rules), k);
      if k in CountryCodes(rules) {
        var i :| 0 <= i < |rules| && rules[i].country == k;
        assert CountryCandidates(rules)[i].key == k;
      }
    }
  }

  /** The sizes count no entry that is not written: where no key repeats and nothing is
      refused, every map ends up exactly as full as was required, and the country map always. */
  lemma RequiredIsReached(p: CompiledPolicy, locals: seq<Ip>, wallNow: Time, required: XdpMapSizes, c: Candidates)
    requires CanonicalPolicy(p) && c == CandidatesOf(p, locals, wallNow)
    requires RequiredSizes(p, required.rate) == Some(required)
    ensures |FirstTable(c.countries)| == required.countries
    ensures DistinctKeys(c.customRates) ==> |FirstTable(c.customRates)| == required.customRates
    ensures DistinctKeys(c.trusted) ==> |FirstWins(c.trusted)| == required.trusted
    ensures DistinctKeys(c.geo) ==> |FirstWins(c.geo)| == required.geo
    ensures DistinctKeys(c.rules) && |c.rules| == |p.threatPrefixes| + |p.rules| ==>
              |FirstWins(c.rules)| == required.rules
    ensures DistinctKeys(c.tempBans) && |c.tempBans| == |Compacted(p.tempBans, TempBanCoversOrSupersedes)| ==>
              |FirstWins(c.tempBans)| == required.tempBans
  {
    CandidatesCanonical(p, locals, wallNow);
    CountriesFill(p.countryRules);
    if DistinctKeys(c.customRates) {
      DistinctFillTable(c.customRates);
    }
    if DistinctKeys(c.trusted) {
      DistinctFillTrie(c.trusted);
    }
    if DistinctKeys(c.geo) {
      DistinctFillTrie(c.geo);
    }
    if DistinctKeys(c.rules) {
      DistinctFillTrie(c.rules);
    }
    if DistinctKeys(c.tempBans) {
      DistinctFillTrie(c.tempBans);
    }
  }

  class XdpManager {
    var maps: Maps
    var defense: DefenseValue
    var sizes: XdpMapSizes
    const locals: seq<Ip>
    const autoResize: bool

    ghost predicate Valid()
      reads this
    {
      Sound(maps, sizes)
    }

    constructor (sizes: XdpMapSizes, locals: seq<Ip>, autoResize: bool)
      ensures Valid() && maps == EMPTY_MAPS
      ensures this.sizes == sizes && this.locals == locals && this.autoResize == autoResize
    {
      this.sizes, this.locals, this.autoResize := sizes, locals, autoResize;
      maps := EMPTY_MAPS;
      defense := DefenseValueOf(XdpDynamicDefense(false, false, 0, 0, false, 0, 0, 0));
    }

    /** Writes into the current maps. It goes through exactly when old and new entries
        fit together; then the maps hold the candidates and nothing else, whatever they
        held before. If it stops, the same candidates stop again on what is left. */
    method WriteCandidates(c: Candidates) returns (ok: bool)
      requires Valid() && CanonicalCandidates(c)
      modifies this`maps
      ensures Valid()
      ensures ok <==> old(Roomy(maps, sizes, c))
      ensures ok ==> maps == TablesFor(c)
      ensures !ok ==> !Roomy(maps, sizes, c)
      ensures !ok ==> HalfWay(old(maps), maps, c)
    {
      var written;
      written, ok := Rewrite(maps, sizes, c);
      maps := written;
    }

    /** Applies a policy, growing the maps first when it needs more room. A grown
        manager starts from empty maps and always succeeds; one that keeps its maps
        succeeds exactly when old and new entries fit together. */
    method Apply(p: CompiledPolicy, wallNow: Time) returns (ok: bool)
      requires Valid() && CanonicalPolicy(p)
      modifies this
      ensures Valid()
      ensures ok <==> old(Sized(p) && (Keeps(p) ==> Roomy(maps, sizes, CandidatesOf(p, locals, wallNow))))
      ensures ok ==> maps == MapsOf(p, locals, wallNow)
      ensures !ok ==> HalfWay(old(maps), maps, CandidatesOf(p, locals, wallNow))
      ensures defense == if old(Sized(p)) then DefenseValueOf(p.dynamicDefense) else old(defense)
    {
      CandidatesCanonical(p, locals, wallNow);
      FitFromEmpty(p, locals, wallNow);
      ok := ApplyCandidates(p, CandidatesOf(p, locals, wallNow));
    }

    method ApplyCandidates(p: CompiledPolicy, c: Candidates) returns (ok: bool)
      requires Valid() && CanonicalCandidates(c) && FitsFromEmpty(p, c)
      modifies this
      ensures Valid()
      ensures ok <==> old(Sized(p) && (Keeps(p) ==> Roomy(maps, sizes, c)))
      ensures ok ==> maps == TablesFor(c)
      ensures !ok ==> HalfWay(old(maps), maps, c)
      ensures defense == if old(Sized(p)) then DefenseValueOf(p.dynamicDefense) else old(defense)
    {
      ok := MakeRoom(p, c);
      if ok {
        defense := DefenseValueOf(p.dynamicDefense);
        ok := WriteCandidates(c);
      }
    }

    /** Grows the maps when the policy needs more room than they have; the grown
        manager starts from empty maps. */
    method MakeRoom(p: CompiledPolicy, ghost c: Candidates) returns (ready: bool)
      requires Valid() && FitsFromEmpty(p, c)
      modifies this`maps, this`sizes
      ensures Valid()
      ensures ready <==> old(Sized(p))
      ensures !ready || old(Keeps(p)) ==> maps == old(maps) && sizes == old(sizes)
      ensures ready && !old(Keeps(p)) ==> Roomy(maps, sizes, c)
    {
      var required := RequiredSizes(p, sizes.rate);
      if required.None? {
        return false;
      }
      ResizeIffShort(sizes, required.value);
      match ResizedMapSizes(sizes, required.value) {
        case Overflow =>
          return false;
        case Keep =>
        case Grow(resized) =>
          if !autoResize {
            return false;
          }
          maps, sizes := EMPTY_MAPS, resized;
          assert Needs(p, sizes);
      }
      ready := true;
    }

    /** The policy can be counted, and its sizes are there or may be grown. */
    ghost predicate Sized(p: CompiledPolicy)
      reads this
    {
      var required := RequiredSizes(p, sizes.rate);
      && required.Some?
      && match ResizedMapSizes(sizes, required.value)
         case Keep => true
         case Grow(_) => autoResize
         case Overflow => false
    }

    ghost predicate Keeps(p: CompiledPolicy)
      reads this
    {
      Needs(p, sizes)
    }
  }

  /** The held maps after the first three lists went in. */
  function ListsOver(held: Maps, t: Maps): Maps
  {
    held.(tempBans := held.tempBans + t.tempBans, customRates := held.customRates + t.customRates,
          trusted := held.trusted + t.trusted)
  }

  /** Writes bans, custom limits and trusted networks, in this order. */
  method PutLists(held: Maps, sizes: XdpMapSizes, c: Candidates)
    returns (m: Maps, bans: set<LpmKey>, custom: set<CustomRateKey>, trusted: set<LpmKey>, ok: bool)
    requires Sound(held, sizes) && CanonicalCandidates(c)
    ensures Sound(m, sizes)
    ensures ok <==> RoomyLists(held, sizes, c)
    ensures ok ==> m == ListsOver(held, TablesFor(c))
    ensures ok ==>
              var ids := PendingIdsOf(c);
              bans == ids.tempBans && custom == ids.customRates && trusted == ids.trusted
    ensures !ok ==> !RoomyLists(m, sizes, c)
    ensures HalfWayLists(held, m, c)
    ensures m == held.(tempBans := m.tempBans, customRates := m.customRates, trusted := m.trusted)
  {
    custom, trusted := {}, {};
    m := held;
    Untouched(held, c);
    var banMap, customMap, trustedMap;
    banMap, bans, ok := PutTrie(m.tempBans, sizes.tempBans, c.tempBans);
    m := m.(tempBans := banMap);
    if !ok {
      return;
    }
    customMap, custom, ok := PutHash(m.customRates, sizes.customRates, c.customRates);
    m := m.(customRates := customMap);
    if !ok {
      return;
    }
    trustedMap, trusted, ok := PutTrie(m.trusted, sizes.trusted, c.trusted);
    m := m.(trusted := trustedMap);
  }

  /** Writes rules, GeoIP networks and countries over maps that took the first lists. */
  method PutRules(held: Maps, sizes: XdpMapSizes, c: Candidates)
    returns (m: Maps, rules: set<LpmKey>, geo: set<LpmKey>, countries: set<U16>, ok: bool)
    requires Sound(held, sizes) && CanonicalCandidates(c)
    ensures Sound(m, sizes)
    ensures ok <==> RoomyRules(held, sizes, c)
    ensures ok ==> var t := TablesFor(c);
                   m == held.(rules := held.rules + t.rules, geo := held.geo + t.geo,
                              countries := held.countries + t.countries)
    ensures ok ==>
              var ids := PendingIdsOf(c);
              rules == ids.rules && geo == ids.geo && countries == ids.countries
    ensures !ok ==> !RoomyRules(m, sizes, c)
    ensures HalfWayRules(held, m, c)
    ensures m == held.(rules := m.rules, geo := m.geo, countries := m.countries)
  {
    geo, countries := {}, {};
    m := held;
    Untouched(held, c);
    var ruleMap, geoMap, countryMap;
    ruleMap, rules, ok := PutTrie(m.rules, sizes.rules, c.rules);
    m := m.(rules := ruleMap);
    if !ok {
      return;
    }
    geoMap, geo, ok := PutTrie(m.geo, sizes.geo, c.geo);
    m := m.(geo := geoMap);
    if !ok {
      return;
    }
    countryMap, countries, ok := PutHash(m.countries, sizes.countries, c.countries);
    m := m.(countries := countryMap);
  }

  method PutCandidates(held: Maps, sizes: XdpMapSizes, c: Candidates) returns (m: Maps, ids: PendingIds, ok: bool)
    requires Sound(held, sizes) && CanonicalCandidates(c)
    ensures Sound(m, sizes)
    ensures ok <==> Roomy(held, sizes, c)
    ensures ok ==> m == Over(held, TablesFor(c)) && ids == PendingIdsOf(c)
    ensures !ok ==> !Roomy(m, sizes, c)
    ensures HalfWay(held, m, c)
  {
    var bans, custom, trusted, rules, geo, countries;
    m, bans, custom, trusted, ok := PutLists(held, sizes, c);
    rules, geo, countries := {}, {}, {};
    if ok {
      m, rules, geo, countries, ok := PutRules(m, sizes, c);
    }
    ids := PendingIds(bans, custom, trusted, rules, geo, countries);
  }

  method RemoveStalePolicyKeys(full: Maps, ghost held: Maps, ghost c: Candidates, ids: PendingIds) returns (m: Maps)
    requires CanonicalCandidates(c) && full == Over(held, TablesFor(c)) && ids == PendingIdsOf(c)
    ensures m == TablesFor(c)
  {
    var rules := DropStaleTrie(full.rules, ids.rules, held.rules, c.rules);
    var geo := DropStaleTrie(full.geo, ids.geo, held.geo, c.geo);
    var trusted := DropStaleTrie(full.trusted, ids.trusted, held.trusted, c.trusted);
    var countries := DropStaleHash(full.countries, ids.countries, held.countries, FirstTable(c.countries));
    var custom := DropStaleHash(full.customRates, ids.customRates, held.customRates, FirstTable(c.customRates));
    var bans := DropStaleTrie(full.tempBans, ids.tempBans, held.tempBans, c.tempBans);
    m := Maps(bans, custom, trusted, rules, geo, countries);
  }

  /** Puts the new entries and, if all went in, removes what is stale. */
  method Rewrite(held: Maps, sizes: XdpMapSizes, c: Candidates) returns (m: Maps, ok: bool)
    requires Sound(held, sizes) && CanonicalCandidates(c)
    ensures Sound(m, sizes)
    ensures ok <==> Roomy(held, sizes, c)
    ensures ok ==> m == TablesFor(c)
    ensures !ok ==> !Roomy(m, sizes, c) && HalfWay(held, m, c)
  {
    var ids;
    m, ids, ok := PutCandidates(held, sizes, c);
    if ok {
      SoundWithin(held, TablesFor(c), sizes);
      m := RemoveStalePolicyKeys(m, held, c, ids);
    }
  }

  method DropStaleHash<K, V>(full: map<K, V>, ids: set<K>, ghost held: map<K, V>, ghost table: map<K, V>)
    returns (m: map<K, V>)
    requires full == held + table && ids == table.Keys
    ensures m == table
  {
    m := RemoveStale(full, ids);
  }

  lemma Shrinks<K, V>(held: map<K, V>, table: map<K, V>)
    ensures |table| <= |held + table|
  {
    SubsetSize(table.Keys, (held + table).Keys);
  }

  lemma SoundWithin(held: Maps, m: Maps, sizes: XdpMapSizes)
    requires Sound(Over(held, m), sizes)
    ensures Sound(m, sizes)
  {
    Shrinks(held.tempBans, m.tempBans);
    Shrinks(held.customRates, m.customRates);
    Shrinks(held.trusted, m.trusted);
    Shrinks(held.rules, m.rules);
    Shrinks(held.geo, m.geo);
    Shrinks(held.countries, m.countries);
  }
}
