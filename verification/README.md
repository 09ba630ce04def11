# xdp-firewall: a verified model

A Dafny model of xdp-firewall's packet path, of the control plane that feeds it, and of
the incremental algorithms around it, with proofs of what they promise. The whole project
is verified with `dafny verify dfyconfig.toml`.

## What is modelled

**The packet path.** A policy snapshot of CIDR rules, temporary bans, GeoIP prefixes,
trusted networks and rate limits is compiled (`compile.dfy`), compacted
(`compaction.dfy`), encoded into trie keys (`encoding.dfy`), deduplicated and written over
what the maps held (`pending.dfy`, `manager.dfy`), and then read back by the packet
program with longest-prefix lookups (`trie.dfy`, `classifier.dfy`), token buckets
(`token_bucket.dfy`, `defense.dfy`) and frame parsing (`frame.dfy`, `program.dfy`).
`meaning.dfy` says, without tries, keys or compaction, what a policy decides about a
packet, and proves that the pipeline computes that, and `limits.dfy` what the rate limits
of a policy, in its own numbers, mean for the packets of a source. `map_sizes.dfy` is the
growth of the maps.

**Policy distribution.** `policy_stream.dfy` and `agent.dfy` are the two ends of a policy
stream; `xds.dfy` lets writers, the stream task and the agent interleave between single
database reads, sends and applies. `convergence.dfy` proves what holds in every reachable
state and where the protocol settles, `progress.dfy` that it always can.

**Around it.** `lease.dfy` is the database lock of the refreshes, `geo_pages.dfy` the
paged GeoIP fetch, `http_lines.dfy` the chunked line reader, `runtime_cidrs.dfy` the
trusted networks found at run time, `drop_registry.dfy` the count of drop subscriptions,
and `btmp.dfy` the failed-login monitor.

Objects that the program updates in place are classes, and loops are loops; each method is
proved against a function of its inputs or of the old state, and the properties are proved
about those functions, over every input, every run or every interleaving.

## What the proofs found

Each of these is a statement about the code as it is, with a concrete run where it is
negative and the exact condition under which the expected property holds.

1. One longest-prefix lookup per scope decides temporary bans exactly, because among kept
   bans a longer prefix expires later (`Compaction.LongerKeptExpiresLater`). A ban that
   covers one of the agent's own addresses is refused only after compaction, so narrower
   harmless bans dropped in its favour are lost with it. The packet program then decides
   by the bans that were kept and not refused, for every snapshot
   (`Meaning.CompilationPreservesMeaning`). It decides every frame at every later time as
   the policy does exactly when every address of a running ban that is not refused, its
   source not trusted anyway, has a kept ban that stands in for it: not refused, around the
   address, of the same or wider scope, expiring no sooner (`Meaning.CompilationExactIff`,
   `Manager.AppliedPolicyDecides`). Frames carry a port only for TCP and UDP
   (`Frame.ReadableIffParsed`), so a ban on any protocol with a port needs a stand-in for
   TCP and one for UDP, not necessarily the same, and a ban on ICMP with a port needs none.
   A list that fails this exists for every agent that owns an address, but not all, of a
   family (`Meaning.RefusalLosesBansIff`). The control plane turns away a new ban that
   covers an address of a node it knows (src/control_plane/api/temp_bans/create.rs:48-58,
   src/control_plane/api/validation/network.rs:29-54), so the wider ban of such a list was
   stored before the agent reported the address.
2. Two spellings of one runtime trusted network (`10.0.0.1/8`, `10.0.0.2/8`) cover each
   other and are both dropped. `RuntimeCidrs.CompactionCovers` says exactly which addresses
   are lost, `RuntimeCidrs.RuntimeTrustIsTheUnion` exactly when none is.
3. New entries are put before stale ones are removed, and only the number of new entries is
   compared with a map's capacity. An apply that keeps its maps goes through exactly when
   old and new entries fit side by side, and one that stops stops again on what it left
   (`Manager.XdpManager.WriteCandidates`, `Pending.RetryStopsAgain`).
4. A server creates the version row before it serves (src/server_commands.rs:18-23, 46-51;
   src/policy/seed.rs:22-56), and from there every run that settles leaves the agent with
   the active policy, under every configuration (`Convergence.SeededRunsConverge`). Only a
   stand-by server, which skips that, could serve a database without the row. There the
   first write can slip between reading the label and reading the version, the policy is
   sent a second time under its own label, and if the second apply stops half-way it is
   never repeated (`Convergence.FirstWriteRace`). The maps hold that very policy by then,
   so by `Manager.XdpManager.WriteCandidates` it takes an error of the maps other than want
   of room. `Convergence.PolicyConvergesIff` says that nothing but the row, or configured
   runtime networks, rules this out.
5. The drop monitor may stay on after the last subscriber left while the agent was away: a
   new stream says nothing when nobody watches. `Convergence.MonitorConvergesIff` names the
   configurations where this cannot happen.
6. Lock exclusion needs the lock row to exist beforehand: creating the row and taking it
   write the same instant, and the compare-and-swap of a second attempt then succeeds too
   (`Lease.ExclusiveIffRowExists`, `Lease.CreationRace`).
7. A growing map fails to grow exactly when the larger of what is required and twice its
   size exceeds 2^31, even if what is required would fit (`MapSizes.GrowthIsTight`).
8. The flood bucket's block is honoured exactly when its end fits 64 bits; otherwise it is
   not honoured at all (`TokenBucket.BlockHonoredIff`).

README.md:237 of the repository says rules are found by longest prefix first. The code
looks at four protocol and port scopes in turn and compares prefixes only inside one
(`Meaning.DecisionIsDecisive`); the model follows the code. A frame with more than eight
IPv6 extension headers is read with the ninth header's number as its protocol
(`Frame.Ipv6LayoutRead`). A file truncated in place and regrown past the cursor between two
rounds of the failed-login monitor is taken for the old file; the theorem about rounds is
for files that grow or are replaced.

## Model

| member | source | states |
|---|---|---|
| LpmTrie.LookupIsScan | bpf/xdp_firewall.c:286-313 | A trie lookup returns what scanning every entry for the longest match returns, the earliest of equal keys, for any entry list |
| LpmTrie.CutInjective | src/data_plane/xdp/encoding/keys.rs:90-135 | Canonical keys that name the same trie node are equal, so key ids in userspace and node identity in the kernel agree |
| Net.ContainsIsRange | src/data_plane/xdp/local/compaction.rs:64-69 | A network contains exactly the addresses of its family whose number lies between its first and its last address |
| Encoding.ScopedKeyMatches | src/data_plane/xdp/encoding/keys.rs:20-36 | A rule or ban key is a prefix of a packet's query exactly when protocol and port are equal, the families agree and the network contains the source |
| Encoding.SourceKeyMatches | src/data_plane/xdp/encoding/keys.rs:38-60 | A trusted or GeoIP key matches exactly the sources its network contains, never across address families |
| Encoding.CutScopedKey | src/data_plane/xdp/encoding/keys.rs:73-88 | The bits a scoped key counts are its head and the network's stem; canonical networks give canonical keys |
| Encoding.HeadsDiffer | src/data_plane/xdp/encoding/keys.rs:20-36 | Equal key heads mean equal family, protocol and port |
| Compaction.CompactTempBans | src/data_plane/xdp/local/compaction.rs:19-30 | The loop keeps, in order, exactly the bans no other entry covers or supersedes |
| Compaction.CompactTrustedPrefixes | src/data_plane/xdp/local/compaction.rs:4-17 | The loop keeps, in order, exactly the trusted networks no other entry covers |
| Compaction.KeptInOrder | src/data_plane/xdp/local/compaction.rs:4-30 | What is kept keeps its order and its repetitions |
| Compaction.SupersedesMeans | src/data_plane/xdp/local/compaction.rs:78-99 | On canonical bans the cover test is true exactly for another ban of the same scope around it that lasts at least as long |
| Compaction.KeptBanOutlasts | src/data_plane/xdp/local/compaction.rs:19-30 | Every ban is outlasted by one that is kept |
| Compaction.LongerKeptExpiresLater | src/data_plane/xdp/local/compaction.rs:78-99 | Among kept bans of one scope around an address a longer prefix expires strictly later |
| Compaction.TwoSpellingsDropEachOther | src/data_plane/xdp/local/compaction.rs:78-99 | Without canonical form two spellings of one ban drop each other |
| Compaction.TrustedCompactionExact | src/data_plane/xdp/local/compaction.rs:4-17 | For canonical networks the compacted list covers the same addresses and keeps no network inside another |
| Pending.CollectFirst | src/data_plane/xdp/linux/pending/sets.rs:45-58 | Collecting with an id set keeps the first candidate of every key |
| Pending.SortRanked | src/data_plane/xdp/linux/pending/rules.rs:18-30 | Ordering rules by priority and source loses and adds none |
| Pending.FirstPerKeyWritesFirstWins | src/data_plane/xdp/linux/pending/rules.rs:32-54 | Deduplicating by key id and writing in order leaves the table in which the first candidate of each trie node wins |
| Pending.BanCandidates | src/data_plane/xdp/linux/pending/temp_bans.rs:20-42 | Exactly the kept bans that are unexpired and cover no own address become entries |
| Pending.PutAll | src/data_plane/xdp/linux/apply/write.rs:25-42 | On a map that refuses new keys when full, writing goes through exactly when old and new keys fit together, and then leaves old entries overwritten by the new; otherwise everything before the first key that does not fit is written |
| Pending.RetryStopsAgain | src/data_plane/xdp/linux/apply/write.rs:25-42 | A write stopped by a full map stops again on what it left |
| Pending.RemoveStale | src/data_plane/xdp/linux/apply/cleanup.rs:66-78 | Listing and removing keeps exactly the pending keys |
| Pending.StaleExactlyUnwritten | src/data_plane/xdp/linux/apply/cleanup.rs:24-36 | Comparing ids of listed keys removes exactly the trie nodes nothing pending was written to |
| Pending.PutTrie | src/data_plane/xdp/linux/apply/write.rs:25-39 | Collecting, deduplicating and putting one trie's entries: succeeds exactly if there is room, and what stops stops again, has lost no key and holds only old and new entries |
| Pending.DropStaleTrie | src/data_plane/xdp/linux/apply/cleanup.rs:24-64 | After removal a trie holds the candidates' first-wins table and nothing it held before |
| Pending.PutHash | src/data_plane/xdp/linux/apply/write.rs:28-42 | The same for hash maps, whose keys are their own identity |
| MapSizes.GrowthIsTight | src/data_plane/xdp/maps.rs:70-84 | A grown capacity is a power of two, at least what is required and twice the old, below twice the larger of these; growth fails exactly above 2^31 |
| MapSizes.ResizeIffShort | src/data_plane/xdp/maps.rs:32-63 | A resize is proposed exactly when the capacity check would fail, unless some map would need more than 2^31; each map that is short gets the tightest power of two and every other keeps its size |
| MapSizes.AtMost31Growths | src/data_plane/xdp/maps.rs:70-84 | Over any run of policies a non-empty map grows at most 31 times |
| Manager.CompiledIsCanonical | src/policy/compile.rs:146-151 | Every network the compiler produces is canonical |
| Manager.EmptyIsRoomy | src/data_plane/xdp/linux/apply.rs:25-56 | Maps sized as required have room for the policy's entries after deduplication and refusal |
| Manager.RequiredIsReached | src/data_plane/xdp/linux/apply.rs:25-56 | No entry is counted that is not written: without repeated keys and refusals every map ends up exactly as full as required, the country map always |
| Manager.RemoveStalePolicyKeys | src/data_plane/xdp/linux/apply/cleanup.rs:11-22 | Six removals turn maps holding old and new entries into exactly the new policy's maps |
| Manager.PutLists | src/data_plane/xdp/linux/apply/write.rs:25-33 | Bans, custom limits and trusted networks go in exactly if all three maps have room; on failure they have no room afterwards either |
| Manager.PutRules | src/data_plane/xdp/linux/apply/write.rs:34-42 | The same for rules, GeoIP prefixes and countries |
| Manager.XdpManager.WriteCandidates | src/data_plane/xdp/linux/apply/write.rs:17-46 | The write succeeds exactly when old and new entries fit side by side; then the maps hold the policy whatever they held; otherwise no map has lost a key, every entry is an old or a new one, and a retry fails too |
| Manager.XdpManager.MakeRoom | src/data_plane/xdp/linux/apply.rs:14-23 | Maps are replaced by empty larger ones exactly when the policy needs more room and growing is allowed |
| Manager.XdpManager.Apply | src/data_plane/xdp/linux/apply.rs:14-23 | Apply succeeds exactly when sizes can be counted and grown, and, keeping the maps, old and new entries fit; then the maps are those of the policy, otherwise between the old and the new; the defence is new as soon as the sizes are there |
| Manager.AppliedPolicyDecides | src/data_plane/xdp/linux/apply/write.rs:17-46 | The maps of a snapshot compiled and applied in full decide every frame at every later time as the policy says, exactly when compaction and refusal keep every banned address |
| Meaning.SortedScanIsBestLine | src/data_plane/xdp/linux/pending/rules.rs:18-30 | Scanning the sorted, encoded rules finds the longest prefix of the scope, ties broken by priority, then source, then position |
| Meaning.RuleLookupMeaning | bpf/xdp_firewall.c:286-313 | The four rule lookups return the policy's decision: first scope with a match, longest prefix in it, then priority and source |
| Meaning.DecisionIsDecisive | bpf/xdp_firewall.c:286-313 | The deciding line in the policy's own fields: own protocol before any, own port before any, longer prefix, lower priority number, threat intelligence before rules, earlier line; it is preferred to every other line about the packet, and there is none exactly if no line is |
| Meaning.PolicyStageMeans | bpf/xdp_firewall.c:528-565 | Each outcome of the stateless stages in the policy's own fields, both directions: trusted first, then running bans, then the decisive line, then the country of the longest network |
| Meaning.BanLookupExact | bpf/xdp_firewall.c:372-401 | One lookup sees an unexpired entry exactly when some kept, not refused ban of the scope is unexpired |
| Meaning.TempBanActiveIsKeptBan | bpf/xdp_firewall.c:372-401 | The four lookups are true exactly when some kept, not refused ban speaks about the packet and is unexpired |
| Meaning.TempBansExactIff | src/data_plane/xdp/linux/pending/temp_bans.rs:6-42 | For any canonical list: the lookups agree with the original bans that are not refused, at every packet a frame can be read as and every later time, exactly when each of their addresses has, protocol by protocol, a kept ban standing in for it |
| Meaning.TempBansNeverOverblock | src/data_plane/xdp/linux/pending/temp_bans.rs:6-42 | Whatever is refused, a banned packet is matched by an original unexpired ban |
| Meaning.RefusedCoverLosesBan | src/data_plane/xdp/linux/pending/temp_bans.rs:20-42 | A concrete ban list and packet for which refusing after compaction loses a ban |
| Meaning.RefusalLosesBansIff | src/data_plane/xdp/linux/pending/temp_bans.rs:6-42 | Some ban list loses a ban exactly when the agent owns an address, but not all, of a family |
| Meaning.TrustedLookupMeaning | bpf/xdp_firewall.c:356-362 | A source is found trusted exactly when some CIDR of the policy contains it |
| Meaning.GeoLookupMeaning | bpf/xdp_firewall.c:346-354 | The GeoIP lookup returns the country of the longest listed prefix around the source |
| Meaning.CountryTableMeaning | src/policy/compile.rs:93-103 | The country table has an entry for exactly the listed countries, with the first action listed |
| Meaning.CompilationPreservesMeaning | bpf/xdp_firewall.c:528-565 | For every snapshot, packet and later time, the stateless stages over compiled, compacted, encoded, refused and deduplicated tables decide as the policy does with its kept and not refused bans for its bans |
| Meaning.StageAgreesIff | bpf/xdp_firewall.c:528-565 | A packet is decided as the policy says exactly when its source is trusted or the bans agree about it: no later stage makes up for a lost ban |
| Meaning.CompilationExactIff | bpf/xdp_firewall.c:528-565 | For every snapshot: all packets a frame can be read as, at all later times, are decided as the policy says, exactly when every banned address that is not trusted is kept |
| TokenBucket.TokensConserved | bpf/xdp_firewall.c:413-445 | Admitted packets, tokens left and tokens clamped away equal the burst and what was refilled, for every run |
| TokenBucket.AdmittedSinceCreation | bpf/xdp_firewall.c:403-446 | At most burst plus rate times elapsed time is admitted since creation, even if the 64-bit product wraps |
| TokenBucket.AdmittedInWindow | bpf/xdp_firewall.c:403-446 | In any window, from any valid bucket, at most burst + 1 + floor(rate * width) packets are admitted |
| TokenBucket.LimitedIffSpent | bpf/xdp_firewall.c:427-445 | An unblocked bucket turns a packet away exactly when it holds no token and the time since its refill mark is worth none |
| TokenBucket.FirstBurstAdmitted | bpf/xdp_firewall.c:416-425 | The first calls after creation, up to the burst, are all admitted whatever the clock reads |
| TokenBucket.SpacedCallsAdmitted | bpf/xdp_firewall.c:430-445 | Calls spaced so that each gap is worth a token, and short enough not to wrap, are all admitted, however many |
| TokenBucket.LimitedMeansSpent | bpf/xdp_firewall.c:427-445 | If a run's last call is turned away, a whole burst and everything refilled since was admitted since some call that found the bucket full |
| TokenBucket.RefillKeepsPace | bpf/xdp_firewall.c:430-438 | One call never refills more than the time its refill mark moves is worth, and at least half of that exactly when it does not refill from a product that wrapped |
| TokenBucket.RefillsKeepPace | bpf/xdp_firewall.c:430-438 | Over every run, however long, refills are at most rate times the time up to the last refill even if products wrap, and at least half of it if no refill came from a wrapped product |
| TokenBucket.BlockHonoredIff | bpf/xdp_firewall.c:427-442 | After a bucket empties it blocks until now + window exactly when that fits 64 bits, and otherwise never |
| TokenBucket.EmptiedStaysShut | bpf/xdp_firewall.c:427-442 | Calls inside the blocking window admit nothing and leave the bucket as it is |
| Ledger.CountWithinPotential | bpf/xdp_firewall.c:427-445 | Any system whose counted steps are paid for by a potential that grows at a rate counts no more than the potential and the rate allow |
| Defense.SourcesIsolated | bpf/xdp_firewall.c:403-446 | The verdicts a source gets in any interleaving equal those of replaying only its own packets at the same times |
| Defense.HandleCallsOnce | bpf/xdp_firewall.c:504-526 | A packet makes at most one call on a bucket it is charged to; a packet the chain passes was admitted by each |
| Defense.ChainStopsAtFirstLimit | bpf/xdp_firewall.c:504-526 | A packet is dropped by the first of custom, flood and address bucket that turns it away, for that one's reason; buckets up to there are stepped, those behind it untouched |
| Defense.VerdictMeans | bpf/xdp_firewall.c:528-576 | When a packet passes, for which reason it is dropped, and that only a packet handed to the chain touches a bucket |
| Defense.AmpleTokensPass | bpf/xdp_firewall.c:504-526 | While no more packets of a source reached the chain than its buckets hold tokens, all of them pass, in any interleaving |
| Defense.FirstPacketsPass | bpf/xdp_firewall.c:504-526 | From empty buckets a source with no more packets than the smallest burst loses none to the chain |
| Defense.HandleElsewhere | bpf/xdp_firewall.c:490-526 | A packet does not touch a bucket it is not charged to |
| Defense.PassesObeyLimit | bpf/xdp_firewall.c:490-526 | From a bucket's creation on, what the chain passes of packets charged to it is at most burst plus rate times time, for address, flood and governing custom limit alike |
| Defense.PassesInWindow | bpf/xdp_firewall.c:490-526 | In any window of a run, from any valid bucket, what the chain passes of packets charged to it is at most burst + 1 + floor(rate * width) |
| Defense.FloodWindowHolds | bpf/xdp_firewall.c:427-442 | Inside the flood window no packet of the source passes the chain and none moves the window's end |
| Defense.EmptyingShutsTheSource | bpf/xdp_firewall.c:427-442 | From the packet that empties a source's flood bucket on, no packet of the source passes the chain before its time plus the block, in any interleaving, if that fits 64 bits |
| PolicyLimits.CustomLimitGoverns | bpf/xdp_firewall.c:448-488 | The custom limit a packet is held to is the policy's line about it with its own protocol before any, then its own port before any, then the first listed; none exactly if no line is about it |
| PolicyLimits.CompilesIffUsable | src/policy/validate.rs:4-40 | A policy compiles exactly if the limits it switches on are positive and no custom limit asks for a port of ICMP |
| PolicyLimits.StatedLimitsHold | src/data_plane/xdp/linux/apply/write/values.rs:8-30 | For every compiled policy, source and run from empty buckets: passes keep to the flood, address and every custom limit in the policy's own numbers |
| PolicyLimits.StatedBurstsPass | bpf/xdp_firewall.c:504-526 | A source with no more packets reaching the chain than the smallest stated burst loses none; with the defence off nobody does |
| PolicyLimits.StatedBlockHolds | src/data_plane/xdp/linux/apply/write/values.rs:8-30 | From the packet that empties the flood bucket on, none of the source passes for as many seconds as the policy says |
| Frame.SkipIpv6Extensions | bpf/xdp_firewall.c:321-344 | The loop is the extension-header walk of eight steps, never leaving the buffer |
| Frame.WalkRefinesChain | bpf/xdp_firewall.c:321-344 | The walk equals the unbounded chain of section 4 of RFC 8200 stopped after a fragment header when that has at most eight headers, and otherwise stops at the header from which the chain goes on |
| Frame.WalkAllThroughChain | bpf/xdp_firewall.c:321-344 | Any chain of hop-by-hop, routing and destination headers, laid out as blocks of 8 * (length + 1) bytes that name their successor, is walked to its end |
| Frame.Ipv6LayoutRead | bpf/xdp_firewall.c:635-664 | A frame laid out with up to eight such headers, or seven and a fragment header, is read at the transport header behind them; with more, the ninth is taken for the protocol |
| Frame.CutIpv6Malformed | bpf/xdp_firewall.c:321-344 | A frame that ends anywhere inside its extension headers is malformed |
| Frame.Ipv4LayoutRead | bpf/xdp_firewall.c:596-632 | An IPv4 frame is read behind its header words, options included, and is malformed if they are fewer than five or leave the frame |
| Frame.AddressIsBigEndian | bpf/xdp_firewall.c:271-279 | An address read from a frame is the big-endian number of its bytes |
| Frame.IgnoredIff | bpf/xdp_firewall.c:579-664 | A frame passes unread exactly if it lacks a whole Ethernet or minimal IP header or is neither IPv4 nor IPv6 |
| Frame.ReadFrame | bpf/xdp_firewall.c:579-664 | The program's reading of a frame is the frame's parse: source, protocol and port, malformed, or ignored |
| Frame.ReadableIffParsed | bpf/xdp_firewall.c:579-664 | The packets frames are read as are exactly those with port 0 or of TCP or UDP, from any source address |
| Program.XdpProgram.TokenBucketLimited | bpf/xdp_firewall.c:403-446 | The in-place bucket update with 64-bit wrap-around is one bucket step and touches no other bucket |
| Program.XdpProgram.DynamicDefenseLimited | bpf/xdp_firewall.c:504-526 | Custom, flood and address limits in this order, stopping at the first that drops |
| Program.XdpProgram.HandlePacket | bpf/xdp_firewall.c:528-576 | Buckets and verdict are those of the packet semantics, and exactly one counter moves |
| Program.XdpProgram.XdpFirewall | bpf/xdp_firewall.c:579-664 | A frame is parsed, dropped or handled; frames passed before the IP header is read move no counter |
| Program.CountersAddUp | src/data_plane/xdp/types.rs:129-139 | Over every frame sequence the seven drop counters count the drop verdicts, and with the pass counter every frame that was not ignored |
| Program.FrameVerdict | bpf/xdp_firewall.c:579-664 | A frame has no verdict exactly if it is ignored, is dropped as unreadable exactly if it is malformed, and touches a bucket only if it is read and handed to the chain |
| Program.EachCounterCounts | bpf/xdp_firewall.c:29-39 | Each of the eight counters moves by the number of verdicts of its own reason |
| PolicyStream.PolicyVersions.NextPolicyVersion | src/db/policy_version.rs:33-59 | A bump moves the latest version up by one, from 0 when the row is missing |
| PolicyStream.PolicyVersions.EnsureBuiltinPolicy | src/policy/seed.rs:22-56 | Before serving, the version row exists: a missing policy is created at version 1, an existing one bumped only when sources were added |
| PolicyStream.PolicyStreamTask.constructor | src/control_plane/xds/policy_stream.rs:35-55 | A stream starts at the version asked from, with no fingerprint, and tells a watched agent at once |
| PolicyStream.PolicyStreamTask.SendAvailablePolicyUpdate | src/control_plane/xds/policy_stream.rs:74-133 | The cursor moves to label, fingerprint and flag of a policy only when the policy was put on the channel; a full channel closes the stream |
| PolicyStream.PolicyStreamTask.SendDropMonitorChange | src/control_plane/xds/policy_stream/drop_monitor.rs:6-48 | A changed flag is kept and sent, an unchanged one is not, a full channel closes the stream |
| PolicyStream.SelectedExactly | src/intelligence/threat/persisted.rs:16-35 | A snapshot loads exactly the threat rows of the enabled sources, in order and as often as stored, and none without sources |
| PolicyStream.ActiveTables | src/policy/firewall.rs:27-65 | The active policy holds every table whole, except that of threat prefixes, of which it holds those of its own sources |
| Agent.AgentRuntime.HandleControlPlaneFailure | src/agent/sync/runtime/offline_handling.rs:26-54 | A failure is counted, and one that reaches the limit empties the rules, turns the monitor off and resets the version to -1 |
| Agent.AgentRuntime.ProcessPolicyUpdate | src/agent/sync/runtime/stream.rs:65-123 | The three endings of an apply: version and content kept with the counters cleared, nothing or a mix installed, a failed report counted |
| Agent.OfflineTellsTheRun | src/agent/offline.rs:14-38 | Over every run of events the saturating counter and the flag say how long the streak of failures is and whether the limit was reached since the last applied policy |
| Agent.UnloadedExactlyOnce | src/agent/offline.rs:29-37 | Rules are emptied exactly at the first failure since the last applied policy that completes a streak of at least the limit |
| Convergence.OfflineFollowsTheRun | src/agent/sync/runtime/stream.rs:65-123 | In every reached state the agent's failure counter is that of the run's failures, reports and applied policies |
| Convergence.EmptiedOncePerApply | src/agent/sync/runtime/offline_handling.rs:26-54 | In every run of the protocol a failure empties the agent exactly when it is the first since the last applied policy to complete a streak of at least the limit |
| Xds.InvStep | src/control_plane/xds/state/snapshot.rs:18-44 | Every step of any interleaving keeps: each table read at or after its label, pages matching the version they were asked for, the cursor at the newest policy sent |
| Xds.ReadKeepsOk | src/policy/firewall.rs:27-65 | One more table read at the current version keeps every table of a snapshot at least as new as its version, threat prefixes selected by the sources read before |
| Xds.PagedStaysOnTrack | src/control_plane/xds/fetch/geo_prefixes.rs:12-43 | While the database stands still every step of a paged fetch keeps what is fetched and what is to come equal to the unpaged listing |
| Xds.FetchOkEnvironment | src/control_plane/xds/fetch/geo_prefixes.rs:36-43 | A write moves the database past every version a fetch may still be matching |
| Xds.AgentTakesInOrder | src/agent/sync/runtime/stream.rs:65-123 | The agent takes policies in the order sent, is done with one when it is applied, and loses all when it reconnects |
| Convergence.NoLostUpdate | src/control_plane/xds/state/snapshot.rs:18-44 | In every reachable state each installed table is at least as new as the applied version, which is at least the label; an agent at the database's version runs the database's policy or was left half-written by an apply that stopped |
| Convergence.ActiveGeo | src/intelligence/geo/persisted.rs:16-37 | The GeoIP prefixes of an active policy are exactly those listed in the rows of its countries |
| Convergence.EmptiedAgentReloads | src/control_plane/xds/state/snapshot.rs:57-67 | An emptied agent is at version -1, and every poll of a stream that sent it nothing yet finds a full policy due |
| Convergence.UnloadEndsTheStream | src/agent/sync/runtime/offline_handling.rs:26-54 | The step that empties the agent is a control-plane failure at the limit, and the stream in use then is gone |
| Convergence.MonitorOkStep | src/control_plane/xds/policy_stream/drop_monitor.rs:6-48 | The newest flag on its way, or else the agent's monitor, is the flag the cursor keeps |
| Convergence.NoticeOkStep | src/control_plane/xds/drop_events/subscriptions.rs:26-76 | The cursor's flag says whether someone watches, unless a change is still to be announced or noticed |
| Convergence.OrderedStep | src/control_plane/xds/state/snapshot.rs:57-67 | With a version row and no runtime networks, policies in flight carry rising labels above the applied version |
| Convergence.SeededRunsConverge | src/control_plane/xds/policy_stream.rs:51-105 | From a database that was seeded before serving, every settled state of every run and configuration has the active policy |
| Convergence.ConvergesWhenEnabled | src/control_plane/xds/policy_stream.rs:51-105 | With runtime networks configured every settled state has the active policy, the runtime networks and the right monitor flag |
| Convergence.ConvergesWithVersionRow | src/control_plane/xds/policy_stream.rs:51-105 | Without them, but with a version row, every settled state has the active policy |
| Progress.CanAlwaysSettle | src/control_plane/xds/policy_stream.rs:51-105 | From every state of every run in which the GeoIP rows load, server and agent alone reach a settled state with the same database and subscriptions, the agent on the active policy if the database was seeded or runtime networks are configured |
| Convergence.FirstWriteRace | src/policy/firewall/loaders.rs:21-26 | A concrete run from a database without version row, as only a stand-by server could serve, that settles on a half-written policy: the first write falls between label and version |
| Convergence.UnwatchedWhileAway | src/control_plane/xds/policy_stream.rs:51-72 | A concrete run that settles with the drop monitor on and nobody watching |
| Convergence.PolicyConvergesIff | src/control_plane/xds/policy_stream.rs:51-105 | Were the row allowed to be missing: every settling run ends with the active policy exactly when runtime networks are configured or the row exists from the start |
| Convergence.MonitorConvergesIff | src/control_plane/xds/policy_stream/drop_monitor.rs:6-48 | Every settling run ends with the right monitor flag exactly when runtime networks are configured, or the row exists and the first failure empties the agent |
| Lease.FreshForTheLimit | src/intelligence/refresh_lock.rs:11-19 | Cutting ages to whole seconds changes nothing: a lease is fresh for exactly the limit |
| Lease.RefreshLockTable.EnsureLockRow | src/intelligence/geo/lock.rs:45-68 | A missing row is created idle with the attempt's instant; an existing one is left alone |
| Lease.RefreshLockTable.MarkLockRunning | src/intelligence/geo/lock.rs:88-115 | The row is taken exactly if its timestamp is still the one seen |
| Lease.RefreshLockTable.ReleaseLock | src/intelligence/threat/lock.rs:135-151 | A release changes the row only if it names the releasing owner |
| Lease.RefreshLockTable.TryAcquire | src/intelligence/geo/lock.rs:19-30 | Without interference an attempt takes the lock exactly when the row is missing or idle, or both its instants are at least the limit in the past |
| Lease.InvStep | src/intelligence/threat/lock.rs:21-35 | Every step keeps: a timestamp in the row was written by the one attempt it names, and whoever lost the row is past the limit |
| Lease.CreationRace | src/intelligence/geo/lock.rs:45-68 | A concrete run in which two first attempts both hold the lock |
| Lease.ExclusiveIffRowExists | src/intelligence/geo/lock.rs:77-115 | In every interleaving at most one holder is younger than the limit, exactly when the row exists beforehand |
| Lease.YoungHolderKeepsTheRow | src/intelligence/geo/lock.rs:117-136 | No step of anyone, the late release of an earlier holder included, changes the row of a young holder |
| Lease.FreshAttemptTakesIffFree | src/intelligence/geo/lock.rs:19-30 | From every interleaved state, an attempt that runs undisturbed ends holding the lock exactly when it is free by that measure, a crashed holder's row included |
| Lease.ReleaseFreesTheRow | src/intelligence/geo/lock.rs:117-136 | The undisturbed release of a young holder leaves the row idle, free at every later instant |
| GeoPages.CountryRoundTrip | src/intelligence/geo/country.rs:13-32 | A country code survives encoding, printing and normalizing |
| GeoPages.NormalizeMeans | src/intelligence/geo/country.rs:13-32 | A country code is two letters in either case with any white space around them, kept in upper case; anything else is none |
| GeoPages.WireRoundTrip | src/control_plane/xds/client/geo_prefixes.rs:41-56 | What the server decodes to text and the agent normalizes again are the policies of the prefixes, one by one |
| GeoPages.AppendGeoPrefixes | src/control_plane/xds/client/geo_prefixes.rs:41-56 | A page is appended if all of it converts, and is an error otherwise |
| GeoPages.LoadPersistedGeoPrefixes | src/intelligence/geo/persisted.rs:16-37 | The unpaged load returns every country's prefixes in order up to where its row turns malformed, or fails on an invalid country |
| GeoPages.ListingHolds | src/intelligence/geo/persisted.rs:16-37 | The listing holds exactly the networks, cut to their address and with the country's code, that come before the first malformed element of a listed country's row |
| GeoPages.TokenRoundTrip | src/intelligence/geo/persisted/page.rs:123-138 | A printed page token parses back to its position and never reads as no token |
| GeoPages.TokenRead | src/intelligence/geo/persisted/page.rs:123-138 | What any other token is read as: a blank one as the start, one without a colon or with a part that is no number as an error |
| GeoPages.GeoPrefixPageBuilder.CollectPrefix | src/intelligence/geo/persisted/page.rs:97-109 | A prefix goes on the page if there is room; the first that does not fit becomes the next position |
| GeoPages.GeoPrefixPageBuilder.CollectCountry | src/intelligence/geo/persisted/page.rs:79-95 | Walking one row fills the page from the skipped offset on and stops where the row turns malformed |
| GeoPages.LoadPersistedGeoPrefixPage | src/intelligence/geo/persisted/page.rs:10-36 | The country loop computes the page from the position on; a page size of 0 counts as 1 |
| GeoPages.PageIsTake | src/intelligence/geo/persisted/page.rs:10-36 | A page is the next so many prefixes of the listing, and names a next position exactly when one remains, where the rest begins |
| GeoPages.FetchGeoPrefixPage | src/control_plane/xds/fetch/geo_prefixes.rs:12-63 | The response for a token carries the page of the clamped size with its countries as text, with an empty token on the last |
| GeoPages.ResponseSize | src/control_plane/xds/fetch/geo_prefixes.rs:45-63 | A response carries as many prefixes as asked, 4096 by default and 10000 at most, or all that are left; its token is empty exactly on the last page |
| GeoPages.FetchGeoPrefixes | src/control_plane/xds/client/geo_prefixes.rs:10-25 | Following tokens ends and returns exactly the policies of the unpaged listing, for every page size, and fails exactly when the unpaged load fails |
| HttpLines.LinesAreCompleteAndLeft | src/intelligence/http_limited.rs:58-98 | A body's lines are its complete lines and what is left over, if anything is |
| HttpLines.MoreBytes | src/intelligence/http_limited.rs:58-73 | What follows a body only meets what the body left over |
| HttpLines.DrainCompleteLines | src/intelligence/http_limited.rs:58-73 | Draining parses the buffer's complete lines in order, up to the first bad one, and leaves the rest |
| HttpLines.ParseAllMeans | src/intelligence/http_limited.rs:58-73 | Parsing gives the error of the first bad line if there is one, and otherwise exactly the values of the lines that have one |
| HttpLines.ReadLimitedLines | src/intelligence/http_limited.rs:19-42 | However a body is cut into chunks, within the limit the answer is that of the whole body's lines, the first bad line included; over the limit it is an error |
| HttpLines.WrittenLinesRead | src/intelligence/http_limited.rs:91-98 | Lines written with either line ending read back as they were |
| HttpLines.LastLineRead | src/intelligence/http_limited.rs:75-98 | A last line without its line feed is read too, with one carriage return removed |
| RuntimeCidrs.CidrCoversMeans | src/control_plane/xds/runtime_cidrs/compaction.rs:56-65 | One value covers another exactly when it is a different value and its network contains the other's |
| RuntimeCidrs.CompactCoveredCidrs | src/control_plane/xds/runtime_cidrs/compaction.rs:10-27 | The loop keeps, in order, exactly what no other entry covers, and counts the rest |
| RuntimeCidrs.CurrentSnapshot | src/control_plane/xds/runtime_cidrs.rs:43-79 | Configured networks, then discovered ones, without repeats, compacted |
| RuntimeCidrs.CompactionCovers | src/control_plane/xds/runtime_cidrs/compaction.rs:10-27 | An address stays covered exactly when it was covered and lies in no network spelled twice with nothing larger around it |
| RuntimeCidrs.CompactRuntimeTrustedCidrsWithSnapshot | src/control_plane/xds/runtime_cidrs/snapshot.rs:32-66 | What is injected is what compaction together with the stored networks leaves of the runtime ones |
| RuntimeCidrs.InjectRuntimeTrustedCidrs | src/control_plane/xds/runtime_cidrs/snapshot.rs:68-94 | Injection appends what is new and nothing else, without repeats |
| RuntimeCidrs.LeftOutIsStored | src/control_plane/xds/runtime_cidrs/snapshot.rs:32-66 | A runtime network left out when merging lies in a stored one |
| RuntimeCidrs.MergedIsMinimal | src/control_plane/xds/runtime_cidrs/snapshot.rs:32-66 | What is injected is exactly what compaction kept of the runtime networks and no stored network contains |
| RuntimeCidrs.RuntimeTrustEndToEnd | src/control_plane/xds/runtime_cidrs/snapshot.rs:32-94 | After compaction, merging, injection, compilation and the data plane's compaction a source is trusted exactly when a stored network contains it, or a runtime one does and it is not lost to a second spelling |
| RuntimeCidrs.RuntimeTrustIsTheUnion | src/control_plane/xds/runtime_cidrs/snapshot.rs:32-94 | The union of stored and runtime networks is trusted exactly when every address of a network spelled twice is stored anyway; canonical networks always qualify |
| RuntimeCidrs.TwoSpellingsLoseTrust | src/control_plane/xds/runtime_cidrs/compaction.rs:56-65 | Two spellings of one network leave its addresses untrusted |
| DropRegistry.DropSubscriptionRegistry.Add | src/control_plane/xds/drop_events/subscriptions.rs:26-37 | Adding counts one more live subscription under its normalized filter and announces a change |
| DropRegistry.DropSubscriptionRegistry.Remove | src/control_plane/xds/drop_events/subscriptions.rs:39-53 | Removing takes one live subscription of the filter away, if there is one, and announces a change |
| DropRegistry.DropSubscriptionRegistry.EnabledForNode | src/control_plane/xds/drop_events/subscriptions.rs:59-70 | A node is enabled exactly when a live subscription names it or every node |
| DropRegistry.CountsDecide | src/control_plane/xds/drop_events/subscriptions.rs:59-70 | Counts that match the live subscriptions decide for a node what those say |
| DropRegistry.FilterMeans | src/control_plane/xds/drop_events/subscriptions.rs:78-82 | White space around a filter does not count; nothing, and "all" in any case, stand for every node, anything else for the node of that name |
| Btmp.ReadAttempts | tools/btmp-monitor/src/btmp.rs:51-94 | A round reads the whole records from the cursor on, or from the start of a changed or shorter file, and ends after the last whole one |
| Btmp.AttemptsSplit | tools/btmp-monitor/src/btmp.rs:76-93 | A scan can stop after any number of whole records and go on from there |
| Btmp.WindowHolds | tools/btmp-monitor/src/monitor.rs:177-191 | A time is in an address's window exactly if an attempt of that address and time was seen and is not before the cutoff |
| Btmp.Monitor.MergeAttempts | tools/btmp-monitor/src/monitor.rs:177-191 | Pushing new times and dropping old ones leaves exactly the window of everything seen, at the new cutoff |
| Btmp.Monitor.RunOnce | tools/btmp-monitor/src/monitor.rs:165-191 | A round adds to the window what the file holds from the cursor on, or from its start if it is another file or a shorter one, and moves the cursor behind the last whole record |
| Btmp.RoundsEqualOneScan | tools/btmp-monitor/src/monitor.rs:165-191 | However a file that grows and is replaced is cut into rounds, every address ends with the times one scan of each file gives, and no record is read twice |

## Left out

- Eviction from the bucket map, races of several CPUs on one bucket, and limits that change during a run: the bucket map is unbounded, calls are atomic and the policy is fixed.
- Wrap-around of the 64-bit packet counters.
- Conversion of ban expiry from wall clock to monotonic time: one clock serves both, and a ban's expiry always fits it.
- Drop events and their configuration map: they change no verdict.
- The order of a map's entries and partial failures of removal: a removal always succeeds.
- Pending.PutAll: a full map is taken to refuse new keys only. Kernels before Linux 6.13 also refuse to replace an entry of a full longest-prefix trie in place; there a full trie stops an apply even if nothing is new.
- Btmp.RoundsEqualOneScan: leaves out files truncated in place and regrown past the cursor between two rounds, which the code does not recognise.
- Selection of unexpired bans while a snapshot is read: a table is what the database holds, and expiry is compared when the policy is compiled and written.
- Each transaction that changes policy content and its version is one step, as is sending on a channel together with moving the cursor, and noticing a change together with reading the flag.
- A stream left behind by a reconnecting agent: nobody hears it and it changes nothing.
- Whether enabling the drop monitor on the agent succeeds.
- Fingerprints of runtime networks as text: a fingerprint is the set of networks, which its sorted text determines.
- Snapshots with GeoIP prefixes inside: agents always ask for external prefixes.
- The stand-by server, except that it is the only one that can start without a version row: it records no heartbeats and cleans up no bans, and is otherwise the server that is modelled.
- A restart of the agent while the kernel keeps pinned maps: a fresh agent counts as having nothing installed.
- Page tokens and country text inside the interleaved protocol: there a page's next position and its country codes travel as values; `geo_pages.dfy` proves that the texts lose nothing.
- Parsing and deduplication of the networks inside a stored threat row: a row stands for them.
- Text forms of addresses and networks, UTF-8 decoding and JSON: parsed values stand for them, and a row, a line or a record that does not parse is an error value.
- Parsing of failed-login records and of provider lines: parameters, functions of the bytes alone.
- Transport errors between chunks or pages: a fetch that breaks is a step of its own in the protocol, and the line reader sees every chunk.
- MMDB building and lookup, REST handlers, the frontend, Kubernetes discovery, netlink, loading and attaching programs, logging: foreign calls or plumbing.
- Refresh limiters, field normalizers and enum tables: each is a single branch or a fixed table, with no invariant or run behind it.
