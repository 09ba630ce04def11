/** Trusted networks found at run time: made distinct, compacted, merged with the stored
    ones and injected into a policy snapshot. They are parsed with their host bits, so
    one network may be spelled in several ways. */
module RuntimeCidrs {

  import opened Net
  import opened Policy
  import opened Encoding
  import opened LpmTrie
  import opened Compile
  import opened Compaction
  import opened Classifier
  import opened Meaning
  import opened Results

  predicate CidrCovers(cover: Cidr, cidr: Cidr)
  {
    if cover == cidr || cover.prefix > cidr.prefix then false else Contains(cover, Network(cidr))
  }

  lemma CidrCoversMeans(cover: Cidr, cidr: Cidr)
    ensures CidrCovers(cover, cidr) <==> Within(cover, cidr) && cover != cidr
  {
  }

  method CompactCoveredCidrs(cidrs: seq<Cidr>) returns (compacted: seq<Cidr>, covered: int)
    ensures compacted == Compacted(cidrs, CidrCovers) && covered == |cidrs| - |compacted|
  {
    compacted := [];
    for index := 0 to |cidrs|
      invariant compacted == Kept(cidrs, CidrCovers, index)
    {
      if Dropped(cidrs, CidrCovers, index) {
        continue;
      }
      compacted := compacted + [cidrs[index]];
    }
    covered := |cidrs| - |compacted|;
  }

  // ------------------------------------------- exactly what compaction covers

  predicate SameNetwork(a: Cidr, b: Cidr)
  {
    Within(a, b) && Within(b, a)
  }

  /** The i-th network is listed under another spelling too, and no larger one that
      contains it is. */
  ghost predicate TwiceSpelled(cidrs: seq<Cidr>, i: nat)
    requires i < |cidrs|
  {
    && (exists j :: 0 <= j < |cidrs| && SameNetwork(cidrs[j], cidrs[i]) && cidrs[j] != cidrs[i])
    && (forall k :: 0 <= k < |cidrs| && Within(cidrs[k], cidrs[i]) ==> Within(cidrs[i], cidrs[k]))
  }

  /** The address lies in a network spelled twice. */
  ghost predicate Lost(cidrs: seq<Cidr>, ip: Ip)
  {
    exists i :: 0 <= i < |cidrs| && TwiceSpelled(cidrs, i) && Contains(cidrs[i], ip)
  }

  /** A network is kept, or lies in a kept one, or in one spelled twice. */
  lemma {:induction false} KeptOrLost(cidrs: seq<Cidr>, i: nat, ip: Ip)
    requires i < |cidrs| && Contains(cidrs[i], ip)
    ensures Covered(Compacted(cidrs, CidrCovers), ip) || Lost(cidrs, ip)
    decreases cidrs[i].prefix
  {
    if !Dropped(cidrs, CidrCovers, i) || TwiceSpelled(cidrs, i) {
    } else {
      var j :| 0 <= j < |cidrs| && j != i && CidrCovers(cidrs[j], cidrs[i]);
      CidrCoversMeans(cidrs[j], cidrs[i]);
      var k := j;
      if SameNetwork(cidrs[j], cidrs[i]) {
        k :| 0 <= k < |cidrs| && Within(cidrs[k], cidrs[i]) && !Within(cidrs[i], cidrs[k]);
      }
      Narrower(cidrs[k], cidrs[i]);
      WithinContains(cidrs[k], cidrs[i], ip);
      KeptOrLost(cidrs, k, ip);
    }
  }

  lemma Narrower(outer: Cidr, inner: Cidr)
    requires Within(outer, inner) && !Within(inner, outer)
    ensures outer.prefix < inner.prefix
  {
  }

  /** Nothing inside a network spelled twice is kept: each spelling drops the other. */
  lemma LostIsNotKept(cidrs: seq<Cidr>, i: nat, k: nat, ip: Ip)
    requires i < |cidrs| && k < |cidrs| && TwiceSpelled(cidrs, i)
    requires Contains(cidrs[i], ip) && Contains(cidrs[k], ip)
    ensures Dropped(cidrs, CidrCovers, k)
  {
  }

  /** An address stays covered exactly when it was covered and lies in no network that is
      spelled twice with nothing larger around it. */
  lemma CompactionCovers(cidrs: seq<Cidr>, ip: Ip)
    ensures Covered(Compacted(cidrs, CidrCovers), ip) <==> Covered(cidrs, ip) && !Lost(cidrs, ip)
  {
    var kept := Compacted(cidrs, CidrCovers);
    if Covered(kept, ip) {
      var p :| p in kept && Contains(p, ip);
      var k :| 0 <= k < |cidrs| && p == cidrs[k] && !Dropped(cidrs, CidrCovers, k);
      if Lost(cidrs, ip) {
        var i :| 0 <= i < |cidrs| && TwiceSpelled(cidrs, i) && Contains(cidrs[i], ip);
        LostIsNotKept(cidrs, i, k, ip);
      }
    } else if Covered(cidrs, ip) {
      var p :| p in cidrs && Contains(p, ip);
      var i :| 0 <= i < |cidrs| && cidrs[i] == p;
      KeptOrLost(cidrs, i, ip);
    }
  }

  /** Canonical networks have one spelling each, so nothing is lost. */
  lemma CanonicalNeverLost(cidrs: seq<Cidr>, ip: Ip)
    requires forall c <- cidrs :: Canonical(c)
    ensures !Lost(cidrs, ip)
  {
    if Lost(cidrs, ip) {
      var i :| 0 <= i < |cidrs| && TwiceSpelled(cidrs, i);
      var j :| 0 <= j < |cidrs| && SameNetwork(cidrs[j], cidrs[i]) && cidrs[j] != cidrs[i];
      CanonicalDetermined(cidrs[j], cidrs[i]);
    }
  }

  lemma KeptDoNotCover(cidrs: seq<Cidr>, a: Cidr, b: Cidr)
    requires a in Compacted(cidrs, CidrCovers) && b in Compacted(cidrs, CidrCovers)
    ensures !CidrCovers(a, b)
  {
  }

  // ------------------------------------------------------- the current snapshot

  function Distinct(cidrs: seq<Cidr>): (r: seq<Cidr>)
    ensures forall c :: c in r <==> c in cidrs
  {
    if cidrs == [] then []
    else
      var r := Distinct(cidrs[..|cidrs| - 1]);
      if cidrs[|cidrs| - 1] in r then r else r + [cidrs[|cidrs| - 1]]
  }

  /** Nothing is listed twice. */
  lemma {:induction false} DistinctHasNoRepeats(cidrs: seq<Cidr>)
    ensures forall i, j :: 0 <= i < j < |Distinct(cidrs)| ==> Distinct(cidrs)[i] != Distinct(cidrs)[j]
  {
    if cidrs == [] {
    } else {
      DistinctHasNoRepeats(cidrs[..|cidrs| - 1]);
    }
  }

  lemma DistinctOneMore(cidrs: seq<Cidr>, i: nat)
    requires i < |cidrs|
    ensures Distinct(cidrs[..i + 1]) ==
            if cidrs[i] in Distinct(cidrs[..i]) then Distinct(cidrs[..i]) else Distinct(cidrs[..i]) + [cidrs[i]]
  {
    assert cidrs[..i + 1][..i] == cidrs[..i];
  }

  datatype RuntimeSnapshot = RuntimeSnapshot(configured: seq<Cidr>, all: seq<Cidr>, inject: seq<Cidr>)

  /** The set holds the members of the list. */
  ghost predicate Tracks(seen: set<Cidr>, list: seq<Cidr>)
  {
    forall c :: c in seen <==> c in list
  }

  /** The first `n` networks without repeats, and the set of them. */
  ghost predicate Collected(all: seq<Cidr>, n: nat, list: seq<Cidr>, seen: set<Cidr>)
  {
    n <= |all| && list == Distinct(all[..n]) && Tracks(seen, list)
  }

  lemma CollectOneMore(all: seq<Cidr>, n: nat, list: seq<Cidr>, seen: set<Cidr>, c: Cidr)
    requires n < |all| && all[n] == c && Collected(all, n, list, seen)
    ensures if c in seen then Collected(all, n + 1, list, seen) else Collected(all, n + 1, list + [c], seen + {c})
  {
    DistinctOneMore(all, n);
  }

  lemma CollectedAtBothEnds(before: seq<Cidr>, more: seq<Cidr>, list: seq<Cidr>, seen: set<Cidr>)
    ensures Collected(before + more, |before|, list, seen) <==> list == Distinct(before) && Tracks(seen, list)
    ensures Collected(before + more, |before + more|, list, seen) <==>
            list == Distinct(before + more) && Tracks(seen, list)
  {
    assert (before + more)[..|before|] == before && (before + more)[..|before + more|] == before + more;
  }

  /** Appends the networks that were not seen before. */
  method AppendUnseen(list: seq<Cidr>, seen: set<Cidr>, more: seq<Cidr>, ghost before: seq<Cidr>)
    returns (longer: seq<Cidr>, after: set<Cidr>)
    requires list == Distinct(before) && Tracks(seen, list)
    ensures longer == Distinct(before + more) && Tracks(after, longer)
  {
    longer, after := list, seen;
    ghost var all := before + more;
    CollectedAtBothEnds(before, more, list, seen);
    for i := 0 to |more|
      invariant Collected(all, |before| + i, longer, after)
    {
      CollectOneMore(all, |before| + i, longer, after, more[i]);
      if more[i] !in after {
        after := after + {more[i]};
        longer := longer + [more[i]];
      }
    }
    CollectedAtBothEnds(before, more, longer, after);
  }

  /** Configured networks first, then the discovered ones that are new. */
  method CurrentSnapshot(configured: seq<Cidr>, discovered: Option<seq<Cidr>>) returns (s: RuntimeSnapshot)
    ensures s.all == s.inject == Compacted(Distinct(configured + discovered.GetOr([])), CidrCovers)
    ensures s.configured == Compacted(Distinct(configured), CidrCovers)
  {
    var list, seen := AppendUnseen([], {}, configured, []);
    assert [] + configured == configured;
    var compactedConfigured, _ := CompactCoveredCidrs(list);
    if discovered.None? {
      assert configured + [] == configured;
      return RuntimeSnapshot(compactedConfigured, compactedConfigured, compactedConfigured);
    }
    list, seen := AppendUnseen(list, seen, discovered.value, configured);
    var all, _ := CompactCoveredCidrs(list);
    s := RuntimeSnapshot(compactedConfigured, all, all);
  }

  // ----------------------------------------------------- merged with the stored

  function NotIn(cidrs: seq<Cidr>, stored: seq<Cidr>): (r: seq<Cidr>)
    ensures forall c :: c in r <==> c in cidrs && c !in stored
  {
    if cidrs == [] then []
    else if cidrs[0] in stored then NotIn(cidrs[1..], stored)
    else [cidrs[0]] + NotIn(cidrs[1..], stored)
  }

  function Effective(stored: seq<Cidr>, runtime: seq<Cidr>): seq<Cidr>
  {
    if runtime == [] || stored == [] then runtime
    else NotIn(Compacted(stored + runtime, CidrCovers), stored)
  }

  method CompactRuntimeTrustedCidrsWithSnapshot(stored: seq<Cidr>, runtime: RuntimeSnapshot)
    returns (s: RuntimeSnapshot)
    requires runtime.inject == runtime.all
    ensures s == runtime.(all := Effective(stored, runtime.all), inject := Effective(stored, runtime.all))
  {
    if runtime.all == [] || stored == [] {
      return runtime;
    }
    var compacted, _ := CompactCoveredCidrs(stored + runtime.all);
    var effective := NotIn(compacted, stored);
    s := runtime.(all := effective, inject := effective);
  }

  /** Appends what is not in the snapshot yet. */
  method InjectRuntimeTrustedCidrs(stored: seq<Cidr>, cidrs: seq<Cidr>) returns (trusted: seq<Cidr>)
    ensures stored <= trusted && forall c :: c in trusted <==> c in stored || c in cidrs
    ensures forall i, j :: |stored| <= i < |trusted| && 0 <= j < i ==> trusted[i] != trusted[j]
  {
    trusted := stored;
    var seen := set c | c in stored;
    for i := 0 to |cidrs|
      invariant stored <= trusted && forall c :: c in seen <==> c in trusted
      invariant forall c :: c in trusted <==> c in stored || c in cidrs[..i]
      invariant forall m, n :: |stored| <= m < |trusted| && 0 <= n < m ==> trusted[m] != trusted[n]
    {
      assert cidrs[..i + 1] == cidrs[..i] + [cidrs[i]];
      if cidrs[i] !in seen {
        seen := seen + {cidrs[i]};
        trusted := trusted + [cidrs[i]];
      }
    }
    assert cidrs[..|cidrs|] == cidrs;
  }

  /** A runtime network left out when merging lies in a stored one. */
  lemma LeftOutIsStored(stored: seq<Cidr>, cidrs: seq<Cidr>, r: Cidr, ip: Ip)
    requires r in Compacted(cidrs, CidrCovers) && Contains(r, ip)
    ensures Covered(stored, ip) || r in Effective(stored, Compacted(cidrs, CidrCovers))
  {
    var runtime := Compacted(cidrs, CidrCovers);
    var combined := stored + runtime;
    if runtime != [] && stored != [] && r !in stored && r !in Compacted(combined, CidrCovers) {
      var i :| 0 <= i < |runtime| && runtime[i] == r;
      assert combined[|stored| + i] == r;
      var j :| 0 <= j < |combined| && j != |stored| + i && CidrCovers(combined[j], r);
      if j >= |stored| {
        KeptDoNotCover(cidrs, combined[j], r);
      } else {
        CidrCoversMeans(combined[j], r);
        WithinContains(combined[j], r, ip);
      }
    }
  }

  /** Merging and injecting lose nothing of what compaction kept. */
  lemma MergedCovers(stored: seq<Cidr>, cidrs: seq<Cidr>, trusted: seq<Cidr>, src: Ip)
    requires forall c :: c in trusted <==> c in stored || c in Effective(stored, Compacted(cidrs, CidrCovers))
    ensures Covered(trusted, src) <==> Covered(stored, src) || Covered(Compacted(cidrs, CidrCovers), src)
  {
    var kept := Compacted(cidrs, CidrCovers);
    if Covered(kept, src) {
      var r :| r in kept && Contains(r, src);
      LeftOutIsStored(stored, cidrs, r, src);
    }
    if Covered(trusted, src) && !Covered(stored, src) {
      var t :| t in trusted && Contains(t, src);
      EffectiveIsKept(stored, kept, t);
    }
  }

  /** What is injected: of the runtime networks that compaction kept, those that lie in no
      stored network. */
  lemma MergedIsMinimal(stored: seq<Cidr>, cidrs: seq<Cidr>, r: Cidr)
    ensures r in Effective(stored, Compacted(cidrs, CidrCovers)) <==>
            r in Compacted(cidrs, CidrCovers) && forall x <- stored :: !Within(x, r)
  {
    var runtime := Compacted(cidrs, CidrCovers);
    var combined := stored + runtime;
    forall x
      ensures CidrCovers(x, r) <==> Within(x, r) && x != r
    {
      CidrCoversMeans(x, r);
    }
    if r in runtime && r !in stored {
      var k :| 0 <= k < |runtime| && runtime[k] == r;
      assert combined[|stored| + k] == r;
      forall x | x in runtime
        ensures !CidrCovers(x, r)
      {
        KeptDoNotCover(cidrs, x, r);
      }
      if x :| x in stored && CidrCovers(x, r) {
        var j :| 0 <= j < |stored| && stored[j] == x;
        assert combined[j] == x;
      }
    }
  }

  lemma EffectiveIsKept(stored: seq<Cidr>, kept: seq<Cidr>, t: Cidr)
    requires t in Effective(stored, kept)
    ensures t in kept
  {
  }

  /** Trusted coverage end to end. After compaction, merging, injection, compilation and
      the data plane's own compaction, the packet program finds a source trusted exactly
      when a stored network contains it, or a runtime one does and it does not lie in a
      runtime network spelled twice. */
  lemma RuntimeTrustEndToEnd(stored: seq<Cidr>, runtime: seq<Cidr>, trusted: seq<Cidr>, src: Ip)
    requires forall c :: c in trusted <==>
               c in stored || c in Effective(stored, Compacted(Distinct(runtime), CidrCovers))
    ensures Lookup(TrustedTable(CompileTrusted(trusted)), SourceQuery(src)).Some? <==>
            Covered(stored, src) || (Covered(runtime, src) && !Lost(Distinct(runtime), src))
  {
    TrustedLookupMeaning(trusted, src);
    MergedCovers(stored, Distinct(runtime), trusted, src);
    CompactionCovers(Distinct(runtime), src);
  }

  /** The union of stored and runtime networks is trusted, nothing more and nothing less,
      exactly when every address of a runtime network spelled twice is stored anyway;
      for canonical runtime networks that is always so. */
  lemma RuntimeTrustIsTheUnion(stored: seq<Cidr>, runtime: seq<Cidr>, trusted: seq<Cidr>)
    requires forall c :: c in trusted <==>
               c in stored || c in Effective(stored, Compacted(Distinct(runtime), CidrCovers))
    ensures (forall src: Ip :: Lookup(TrustedTable(CompileTrusted(trusted)), SourceQuery(src)).Some? <==>
                               Covered(stored, src) || Covered(runtime, src)) <==>
            (forall src: Ip :: Lost(Distinct(runtime), src) ==> Covered(stored, src))
    ensures (forall c <- runtime :: Canonical(c)) ==> forall src: Ip :: !Lost(Distinct(runtime), src)
  {
    forall src: Ip
      ensures Lookup(TrustedTable(CompileTrusted(trusted)), SourceQuery(src)).Some? <==>
              Covered(stored, src) || (Covered(runtime, src) && !Lost(Distinct(runtime), src))
      ensures Lost(Distinct(runtime), src) ==> Covered(runtime, src)
    {
      RuntimeTrustEndToEnd(stored, runtime, trusted, src);
    }
    if forall c <- runtime :: Canonical(c) {
      forall src: Ip
        ensures !Lost(Distinct(runtime), src)
      {
        CanonicalNeverLost(Distinct(runtime), src);
      }
    }
  }

  /** Two spellings of one network drop each other, and its addresses are not trusted:
      10.0.0.1/8 next to 10.0.0.2/8, say. */
  lemma TwoSpellingsLoseTrust(a: Cidr, b: Cidr, src: Ip)
    requires SameNetwork(a, b) && a != b && Contains(a, src)
    ensures !Covered(Compacted([a, b], CidrCovers), src)
  {
    var cidrs := [a, b];
    assert TwiceSpelled(cidrs, 0) by {
      assert SameNetwork(cidrs[1], cidrs[0]) && cidrs[1] != cidrs[0];
    }
    CompactionCovers(cidrs, src);
  }
}
