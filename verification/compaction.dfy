/** Compaction: dropping entries another entry makes redundant. The source does
    this three times with different cover tests; the shape is one. */
module Compaction {

  import opened Net
  import opened Policy
  import opened Encoding

  /** Entry `i` of `xs` is dropped when some other entry covers it. */
  predicate Dropped<T(==,!new)>(xs: seq<T>, covers: (T, T) -> bool, i: nat)
    requires i < |xs|
  {
    exists j :: 0 <= j < |xs| && j != i && covers(xs[j], xs[i])
  }

  /** The first `n` entries of `xs` without the dropped ones, in order. */
  function Kept<T(==,!new)>(xs: seq<T>, covers: (T, T) -> bool, n: nat): (r: seq<T>)
    requires n <= |xs|
    ensures forall x :: x in r <==> exists i :: 0 <= i < n && x == xs[i] && !Dropped(xs, covers, i)
  {
    if n == 0 then []
    else if Dropped(xs, covers, n - 1) then Kept(xs, covers, n - 1)
    else Kept(xs, covers, n - 1) + [xs[n - 1]]
  }

  function Compacted<T(==,!new)>(xs: seq<T>, covers: (T, T) -> bool): seq<T>
  {
    Kept(xs, covers, |xs|)
  }

  lemma {:induction false} KeptPlace<T(!new)>(xs: seq<T>, covers: (T, T) -> bool, i: nat, n: nat)
    requires i < n <= |xs| && !Dropped(xs, covers, i)
    ensures |Kept(xs, covers, i)| < |Kept(xs, covers, n)| && Kept(xs, covers, n)[|Kept(xs, covers, i)|] == xs[i]
  {
    if n == i + 1 {
    } else {
      KeptPlace(xs, covers, i, n - 1);
    }
  }

  lemma {:induction false} KeptCount<T(!new)>(xs: seq<T>, covers: (T, T) -> bool, n: nat)
    requires n <= |xs|
    ensures |Kept(xs, covers, n)| == |set i | 0 <= i < n && !Dropped(xs, covers, i)|
  {
    if n == 0 {
    } else {
      KeptCount(xs, covers, n - 1);
      var before := set i | 0 <= i < n - 1 && !Dropped(xs, covers, i);
      assert (set i | 0 <= i < n && !Dropped(xs, covers, i)) ==
             if Dropped(xs, covers, n - 1) then before else before + {n - 1};
    }
  }

  /** What is kept stays in order, and as often as it was listed. */
  lemma KeptInOrder<T(!new)>(xs: seq<T>, covers: (T, T) -> bool, i: nat, j: nat)
    requires i < j < |xs| && !Dropped(xs, covers, i) && !Dropped(xs, covers, j)
    ensures |Compacted(xs, covers)| == |set k | 0 <= k < |xs| && !Dropped(xs, covers, k)|
    ensures exists p, q :: 0 <= p < q < |Compacted(xs, covers)|
                           && Compacted(xs, covers)[p] == xs[i] && Compacted(xs, covers)[q] == xs[j]
  {
    KeptCount(xs, covers, |xs|);
    KeptPlace(xs, covers, i, j);
    KeptPlace(xs, covers, i, |xs|);
    KeptPlace(xs, covers, j, |xs|);
  }

  method CompactTempBans(bans: seq<XdpTempBan>) returns (compacted: seq<XdpTempBan>)
    ensures compacted == Compacted(bans, TempBanCoversOrSupersedes)
  {
    compacted := [];
    for index := 0 to |bans|
      invariant compacted == Kept(bans, TempBanCoversOrSupersedes, index)
    {
      if Dropped(bans, TempBanCoversOrSupersedes, index) {
        continue;
      }
      compacted := compacted + [bans[index]];
    }
  }

  method CompactTrustedPrefixes(prefixes: seq<Cidr>) returns (compacted: seq<Cidr>)
    ensures compacted == Compacted(prefixes, TrustedPrefixCovers)
  {
    compacted := [];
    for index := 0 to |prefixes|
      invariant compacted == Kept(prefixes, TrustedPrefixCovers, index)
    {
      if Dropped(prefixes, TrustedPrefixCovers, index) {
        continue;
      }
      compacted := compacted + [prefixes[index]];
    }
  }

  predicate TempBanCoversOrSupersedes(cover: XdpTempBan, ban: XdpTempBan)
  {
    if cover.protocol != ban.protocol || cover.port != ban.port then false
    else if cover.net == ban.net then cover.expiresAt > ban.expiresAt
    else if cover.net.prefix > ban.net.prefix || cover.expiresAt < ban.expiresAt then false
    else Contains(Trunc(cover.net), Network(Trunc(ban.net)))
  }

  predicate TrustedPrefixCovers(cover: Cidr, prefix: Cidr)
  {
    if cover == prefix || cover.prefix > prefix.prefix then false
    else Contains(Trunc(cover), Network(Trunc(prefix)))
  }

  // ---------------------------------------------------------- temporary bans

  predicate SameScope(a: XdpTempBan, b: XdpTempBan)
  {
    a.protocol == b.protocol && a.port == b.port
  }

  /** `cover` blocks everything `ban` blocks, at least as long. */
  predicate Outlasts(cover: XdpTempBan, ban: XdpTempBan)
  {
    SameScope(cover, ban) && Within(cover.net, ban.net) && cover.expiresAt >= ban.expiresAt
  }

  ghost predicate CanonicalBans(bans: seq<XdpTempBan>)
  {
    forall b <- bans :: Canonical(b.net)
  }

  /** On canonical bans the source's test says exactly: the cover outlasts the
      ban and is a different ban. */
  lemma SupersedesMeans(cover: XdpTempBan, ban: XdpTempBan)
    requires Canonical(cover.net) && Canonical(ban.net)
    ensures TempBanCoversOrSupersedes(cover, ban) <==> Outlasts(cover, ban) && cover != ban
  {
  }

  lemma OutlastsTransitive(a: XdpTempBan, b: XdpTempBan, c: XdpTempBan)
    requires Outlasts(a, b) && Outlasts(b, c)
    ensures Outlasts(a, c)
  {
  }

  function MaxExpiry(bans: seq<XdpTempBan>): (m: Time)
    ensures forall b <- bans :: b.expiresAt <= m
  {
    if bans == [] then 0
    else
      var m := MaxExpiry(bans[1..]);
      assert forall b <- bans :: b == bans[0] || b in bans[1..];
      if bans[0].expiresAt > m then bans[0].expiresAt else m
  }

  /** Nothing is lost: every ban is outlasted by one that is kept. */
  lemma {:induction false} KeptBanOutlasts(bans: seq<XdpTempBan>, i: nat) returns (k: nat)
    requires CanonicalBans(bans) && i < |bans|
    ensures k < |bans| && !Dropped(bans, TempBanCoversOrSupersedes, k)
    ensures bans[k] in Compacted(bans, TempBanCoversOrSupersedes)
    ensures Outlasts(bans[k], bans[i])
    decreases bans[i].net.prefix, MaxExpiry(bans) - bans[i].expiresAt
  {
    if !Dropped(bans, TempBanCoversOrSupersedes, i) {
      k := i;
    } else {
      var j :| 0 <= j < |bans| && j != i && TempBanCoversOrSupersedes(bans[j], bans[i]);
      SupersedesMeans(bans[j], bans[i]);
      k := KeptBanOutlasts(bans, j);
      OutlastsTransitive(bans[k], bans[j], bans[i]);
    }
  }

  /** Among kept bans of one scope that contain an address, a strictly longer
      prefix expires strictly later, and equal prefixes expire together. This is
      what lets the packet program look at the longest entry only. */
  lemma LongerKeptExpiresLater(bans: seq<XdpTempBan>, a: XdpTempBan, b: XdpTempBan, ip: Ip)
    requires CanonicalBans(bans)
    requires a in Compacted(bans, TempBanCoversOrSupersedes)
    requires b in Compacted(bans, TempBanCoversOrSupersedes)
    requires SameScope(a, b) && Contains(a.net, ip) && Contains(b.net, ip)
    ensures a.net.prefix < b.net.prefix ==> a.expiresAt < b.expiresAt
    ensures a.net.prefix == b.net.prefix ==> a == b
  {
  }

  /** Canonical form is needed: two spellings of one network that expire together
      drop each other, and nothing is left of the ban. */
  lemma TwoSpellingsDropEachOther(a: XdpTempBan, b: XdpTempBan)
    requires SameScope(a, b) && a.expiresAt == b.expiresAt
    requires Within(a.net, b.net) && a.net.prefix == b.net.prefix && a.net != b.net
    ensures Compacted([a, b], TempBanCoversOrSupersedes) == []
  {
    TruncSameNetwork(a.net);
    TruncSameNetwork(b.net);
    ContainsNetworkIsWithin(Trunc(a.net), Trunc(b.net));
    ContainsNetworkIsWithin(Trunc(b.net), Trunc(a.net));
    var bans := [a, b];
    assert TempBanCoversOrSupersedes(bans[0], bans[1]) && TempBanCoversOrSupersedes(bans[1], bans[0]);
    assert Dropped(bans, TempBanCoversOrSupersedes, 0) && Dropped(bans, TempBanCoversOrSupersedes, 1);
    assert Kept(bans, TempBanCoversOrSupersedes, 1) == [];
  }

  // -------------------------------------------------------- trusted prefixes

  lemma TrustedCoversMeans(cover: Cidr, prefix: Cidr)
    requires Canonical(cover) && Canonical(prefix)
    ensures TrustedPrefixCovers(cover, prefix) <==> Within(cover, prefix) && cover != prefix
  {
  }

  lemma {:induction false} KeptTrustedCovers(prefixes: seq<Cidr>, i: nat) returns (k: nat)
    requires forall p <- prefixes :: Canonical(p)
    requires i < |prefixes|
    ensures k < |prefixes| && prefixes[k] in Compacted(prefixes, TrustedPrefixCovers)
    ensures Within(prefixes[k], prefixes[i])
    decreases prefixes[i].prefix
  {
    if !Dropped(prefixes, TrustedPrefixCovers, i) {
      k := i;
    } else {
      var j :| 0 <= j < |prefixes| && j != i && TrustedPrefixCovers(prefixes[j], prefixes[i]);
      TrustedCoversMeans(prefixes[j], prefixes[i]);
      if prefixes[j].prefix == prefixes[i].prefix {
        CanonicalDetermined(prefixes[j], prefixes[i]);
      }
      k := KeptTrustedCovers(prefixes, j);
      WithinTransitive(prefixes[k], prefixes[j], prefixes[i]);
    }
  }

  /** The compacted trusted list covers the same addresses, and no kept network
      lies strictly inside another. */
  lemma TrustedCompactionExact(prefixes: seq<Cidr>)
    requires forall p <- prefixes :: Canonical(p)
    ensures var kept := Compacted(prefixes, TrustedPrefixCovers);
            && (forall ip: Ip :: Covered(kept, ip) <==> Covered(prefixes, ip))
            && (forall p <- kept, q <- kept :: Within(p, q) ==> p == q)
  {
    var kept := Compacted(prefixes, TrustedPrefixCovers);
    forall ip: Ip | Covered(prefixes, ip)
      ensures Covered(kept, ip)
    {
      var p :| p in prefixes && Contains(p, ip);
      var i :| 0 <= i < |prefixes| && prefixes[i] == p;
      var k := KeptTrustedCovers(prefixes, i);
      WithinContains(prefixes[k], p, ip);
    }
    forall p <- kept, q <- kept | Within(p, q)
      ensures p == q
    {
      TrustedCoversMeans(p, q);
      var i :| 0 <= i < |prefixes| && q == prefixes[i] && !Dropped(prefixes, TrustedPrefixCovers, i);
      var j :| 0 <= j < |prefixes| && p == prefixes[j] && !Dropped(prefixes, TrustedPrefixCovers, j);
    }
  }
}
