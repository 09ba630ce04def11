/** From a compiled policy to trie contents: candidates in order, the first one
    per key id, written over whatever the map held, stale keys removed. */
module Pending {

  import opened Bits
  import opened Net
  import opened LpmTrie
  import opened Encoding
  import opened Policy
  import opened Compaction
  import opened Results

  // --------------------------------------------- one entry per key, and writing

  predicate HasKey<K(==), V>(entries: seq<Entry<K, V>>, key: K)
  {
    exists j :: 0 <= j < |entries| && entries[j].key == key
  }

  /** The first candidate of each key among the first `n`. */
  function FirstPerKey<K(==), V>(candidates: seq<Entry<K, V>>, n: nat): seq<Entry<K, V>>
    requires n <= |candidates|
  {
    if n == 0 then []
    else
      var r := FirstPerKey(candidates, n - 1);
      if HasKey(r, candidates[n - 1].key) then r else r + [candidates[n - 1]]
  }

  /** The keys of the first `n` candidates. */
  function Ids<K, V>(candidates: seq<Entry<K, V>>, n: nat): set<K>
    requires n <= |candidates|
  {
    if n == 0 then {} else Ids(candidates, n - 1) + {candidates[n - 1].key}
  }

  lemma {:induction false} IdsAreKept<K, V>(candidates: seq<Entry<K, V>>, n: nat, k: K)
    requires n <= |candidates|
    ensures k in Ids(candidates, n) <==> HasKey(FirstPerKey(candidates, n), k)
  {
    if n == 0 {
    } else {
      IdsAreKept(candidates, n - 1, k);
      var r, e := FirstPerKey(candidates, n - 1), candidates[n - 1];
      if HasKey(r, k) {
        var j :| 0 <= j < |r| && r[j].key == k;
        assert (r + [e])[j].key == k;
      }
      assert (r + [e])[|r|] == e;
    }
  }

  lemma IdsAreWritten<K, V>(candidates: seq<Entry<K, V>>, n: nat)
    requires n <= |candidates|
    ensures Ids(candidates, n) == Written(FirstPerKey(candidates, n)).Keys
  {
    forall k
      ensures k in Ids(candidates, n) <==> k in Written(FirstPerKey(candidates, n))
    {
      IdsAreKept(candidates, n, k);
      WrittenKeys(FirstPerKey(candidates, n), k);
    }
  }

  method CollectFirst<K(==), V>(candidates: seq<Entry<K, V>>) returns (ids: set<K>, pending: seq<Entry<K, V>>)
    ensures pending == FirstPerKey(candidates, |candidates|)
    ensures ids == Ids(candidates, |candidates|)
  {
    ids, pending := {}, [];
    for i := 0 to |candidates|
      invariant pending == FirstPerKey(candidates, i)
      invariant ids == Ids(candidates, i)
    {
      var entry := candidates[i];
      IdsAreKept(candidates, i, entry.key);
      if entry.key !in ids {
        ids := ids + {entry.key};
        pending := pending + [entry];
      }
    }
  }

  /** The table left by writing keys and values in order into an empty map. */
  function Written<K, V>(puts: seq<Entry<K, V>>): map<K, V>
  {
    if puts == [] then map[]
    else
      var last := puts[|puts| - 1];
      Written(puts[..|puts| - 1])[last.key := last.value]
  }

  lemma {:induction false} WrittenKeys<K, V>(puts: seq<Entry<K, V>>, k: K)
    ensures k in Written(puts) <==> exists j :: 0 <= j < |puts| && puts[j].key == k
  {
    if puts == [] {
    } else {
      var last := |puts| - 1;
      WrittenKeys(puts[..last], k);
      assert forall j :: 0 <= j < last ==> puts[..last][j] == puts[j];
      if k in Written(puts[..last]) {
        var j :| 0 <= j < last && puts[..last][j].key == k;
        assert puts[j].key == k;
      }
    }
  }

  /** What the kernel is asked to store for trie entries. */
  function Puts<V>(pending: seq<LpmEntry<V>>): (r: seq<Entry<Bits, V>>)
    ensures |r| == |pending|
    ensures forall i :: 0 <= i < |r| ==> r[i] == Entry(Cut(pending[i].key), pending[i].value)
  {
    seq(|pending|, i requires 0 <= i < |pending| => Entry(Cut(pending[i].key), pending[i].value))
  }

  ghost predicate CanonicalEntries<V>(entries: seq<LpmEntry<V>>)
  {
    forall i :: 0 <= i < |entries| ==> CanonicalKey(entries[i].key)
  }

  /** What a listed trie node's key reads as. */
  function StoredKey(k: Bits): LpmKey
  {
    LpmKey(|k|, if |k| <= 160 then k + Zeros(160 - |k|) else k)
  }

  lemma StoredKeyOfCut(key: LpmKey)
    requires CanonicalKey(key)
    ensures |Cut(key)| <= 160 && StoredKey(Cut(key)) == key
  {
  }

  lemma WrittenStep<K, V>(puts: seq<Entry<K, V>>, i: nat)
    requires i < |puts|
    ensures Written(puts[..i + 1]) == Written(puts[..i])[puts[i].key := puts[i].value]
  {
    var next := puts[..i + 1];
    assert next[..|next| - 1] == puts[..i];
  }

  lemma WrittenPrefixKeys<K, V>(puts: seq<Entry<K, V>>, i: nat)
    requires i <= |puts|
    ensures Written(puts[..i]).Keys <= Written(puts).Keys
  {
    forall k | k in Written(puts[..i])
      ensures k in Written(puts)
    {
      WrittenKeys(puts[..i], k);
      WrittenKeys(puts, k);
      var j :| 0 <= j < i && puts[..i][j].key == k;
      assert puts[j].key == k;
    }
  }

  lemma {:induction false} SubsetSize<T>(a: set<T>, b: set<T>)
    requires a <= b
    ensures |a| <= |b|
  {
    if a == {} {
    } else {
      var x :| x in a;
      SubsetSize(a - {x}, b - {x});
    }
  }

  /** Old and new entries together fit the map. */
  predicate UnionFits<K, V>(held: map<K, V>, puts: seq<Entry<K, V>>, capacity: nat)
  {
    |held.Keys + Written(puts).Keys| <= capacity
  }

  lemma MergeStep<K, V>(held: map<K, V>, puts: seq<Entry<K, V>>, i: nat)
    requires i < |puts|
    ensures (held + Written(puts[..i]))[puts[i].key := puts[i].value] == held + Written(puts[..i + 1])
  {
    WrittenStep(puts, i);
  }

  lemma FullMapOverflows<K, V>(held: map<K, V>, puts: seq<Entry<K, V>>, i: nat, capacity: nat)
    requires i < |puts|
    requires puts[i].key !in held + Written(puts[..i])
    requires |held + Written(puts[..i])| >= capacity
    ensures !UnionFits(held, puts, capacity)
  {
    var m := held + Written(puts[..i]);
    WrittenPrefixKeys(puts, i);
    WrittenKeys(puts, puts[i].key);
    SubsetSize(m.Keys + {puts[i].key}, held.Keys + Written(puts).Keys);
  }

  /** The write stopped before the i-th pair, whose key is new to a full map, and everything
      before it is written. */
  ghost predicate StoppedAt<K, V>(held: map<K, V>, puts: seq<Entry<K, V>>, capacity: nat, i: nat, m: map<K, V>)
    requires i < |puts|
  {
    m == held + Written(puts[..i]) && |m| >= capacity && puts[i].key !in m
  }

  /** Puts every pending pair; a map at capacity refuses a new key and the whole
      write stops there. It goes through exactly when the keys held before and the
      new ones fit together. */
  method PutAll<K(==), V>(held: map<K, V>, capacity: nat, puts: seq<Entry<K, V>>) returns (m: map<K, V>, ok: bool)
    requires |held| <= capacity
    ensures |m| <= capacity
    ensures ok <==> UnionFits(held, puts, capacity)
    ensures ok ==> m == held + Written(puts)
    ensures !ok ==> held.Keys <= m.Keys <= held.Keys + Written(puts).Keys
    ensures !ok ==> exists i :: 0 <= i < |puts| && StoppedAt(held, puts, capacity, i, m)
  {
    m := held;
    assert held + Written(puts[..0]) == held;
    for i := 0 to |puts|
      invariant m == held + Written(puts[..i])
      invariant |m| <= capacity
    {
      if puts[i].key !in m && |m| >= capacity {
        FullMapOverflows(held, puts, i, capacity);
        WrittenPrefixKeys(puts, i);
        assert StoppedAt(held, puts, capacity, i, m);
        return m, false;
      }
      m := m[puts[i].key := puts[i].value];
      MergeStep(held, puts, i);
    }
    assert puts[..|puts|] == puts;
    assert m.Keys == held.Keys + Written(puts).Keys;
    ok := true;
  }

  /** What a write may leave half-way: every old key is still there, and every entry is the
      old one or the new one. */
  ghost predicate Between<K, V>(held: map<K, V>, m: map<K, V>, table: map<K, V>)
  {
    && held.Keys <= m.Keys
    && forall k :: k in m ==> (k in held && m[k] == held[k]) || (k in table && m[k] == table[k])
  }

  ghost predicate DistinctKeys<K, V>(puts: seq<Entry<K, V>>)
  {
    forall i, j :: 0 <= i < j < |puts| ==> puts[i].key != puts[j].key
  }

  /** With distinct keys, what is written later does not change what is written before. */
  lemma {:induction false} WrittenStays<K, V>(puts: seq<Entry<K, V>>, i: nat)
    requires i <= |puts| && DistinctKeys(puts)
    ensures Between(map[], Written(puts[..i]), Written(puts))
    decreases |puts| - i
  {
    if i == |puts| {
      assert puts[..i] == puts;
    } else {
      WrittenStays(puts, i + 1);
      WrittenStep(puts, i);
      WrittenKeys(puts[..i], puts[i].key);
    }
  }

  lemma StoppedIsBetween<K, V>(held: map<K, V>, puts: seq<Entry<K, V>>, i: nat, m: map<K, V>)
    requires i <= |puts| && DistinctKeys(puts) && m == held + Written(puts[..i])
    ensures Between(held, m, Written(puts))
  {
    WrittenStays(puts, i);
  }

  lemma {:induction false} FirstPerKeyDistinct<K, V>(candidates: seq<Entry<K, V>>, n: nat)
    requires n <= |candidates|
    ensures DistinctKeys(FirstPerKey(candidates, n))
  {
    if n == 0 {
    } else {
      FirstPerKeyDistinct(candidates, n - 1);
    }
  }

  /** A write stopped by a full map leaves a map in which the same write stops again. */
  lemma RetryStopsAgain<K, V>(held: map<K, V>, m: map<K, V>, puts: seq<Entry<K, V>>, capacity: nat)
    requires !UnionFits(held, puts, capacity)
    requires held.Keys <= m.Keys <= held.Keys + Written(puts).Keys
    ensures !UnionFits(m, puts, capacity)
  {
    assert m.Keys + Written(puts).Keys == held.Keys + Written(puts).Keys;
  }

  /** Lists the keys, then removes each that is not pending. */
  method RemoveStale<K, V>(full: map<K, V>, pending: set<K>) returns (m: map<K, V>)
    ensures m == map k | k in full && k in pending :: full[k]
  {
    m := full;
    var keys := full.Keys;
    while keys != {}
      invariant keys <= full.Keys
      invariant m == map k | k in full && (k in keys || k in pending) :: full[k]
    {
      var key :| key in keys;
      keys := keys - {key};
      if key !in pending {
        m := m - {key};
      }
    }
  }

  /** Removal compares the ids of listed keys with pending ids. For canonical keys
      that removes exactly the nodes nothing pending was written to. */
  lemma StaleExactlyUnwritten<V>(pending: seq<LpmEntry<V>>, k: Bits)
    requires CanonicalEntries(pending)
    ensures HasKey(pending, StoredKey(k)) <==> k in Written(Puts(pending))
  {
    WrittenKeys(Puts(pending), k);
    if j :| 0 <= j < |pending| && Puts(pending)[j].key == k {
      StoredKeyOfCut(pending[j].key);
      assert HasKey(pending, StoredKey(k));
    }
    if j :| 0 <= j < |pending| && pending[j].key == StoredKey(k) {
      assert CanonicalKey(pending[j].key);
      assert Puts(pending)[j].key == k;
    }
  }

  method RemoveStaleIds<V>(full: map<Bits, V>, ids: set<LpmKey>) returns (m: map<Bits, V>)
    ensures m == map k | k in full && StoredKey(k) in ids :: full[k]
  {
    m := full;
    var keys := full.Keys;
    while keys != {}
      invariant keys <= full.Keys
      invariant m == map k | k in full && (k in keys || StoredKey(k) in ids) :: full[k]
    {
      var key :| key in keys;
      keys := keys - {key};
      if StoredKey(key) !in ids {
        m := m - {key};
      }
    }
  }

  lemma {:induction false} FirstWinsSnoc<V>(entries: seq<LpmEntry<V>>, e: LpmEntry<V>)
    ensures FirstWins(entries + [e]) ==
            if Cut(e.key) in FirstWins(entries) then FirstWins(entries)
            else FirstWins(entries)[Cut(e.key) := e.value]
  {
    if entries == [] {
      assert [e][1..] == [];
    } else {
      assert (entries + [e])[1..] == entries[1..] + [e];
      FirstWinsSnoc(entries[1..], e);
    }
  }

  lemma {:induction false} FirstPerKeyFromCandidates<V>(candidates: seq<LpmEntry<V>>, n: nat)
    requires n <= |candidates| && CanonicalEntries(candidates)
    ensures CanonicalEntries(FirstPerKey(candidates, n))
  {
    if n == 0 {
    } else {
      FirstPerKeyFromCandidates(candidates, n - 1);
    }
  }

  lemma WrittenSnoc<V>(r: seq<LpmEntry<V>>, e: LpmEntry<V>)
    ensures Written(Puts(r + [e])) == Written(Puts(r))[Cut(e.key) := e.value]
  {
    assert Puts(r + [e])[..|r|] == Puts(r);
  }

  lemma CutTakenIffIdTaken<V>(r: seq<LpmEntry<V>>, e: LpmEntry<V>)
    requires CanonicalEntries(r) && CanonicalKey(e.key)
    ensures Cut(e.key) in Written(Puts(r)) <==> HasKey(r, e.key)
  {
    WrittenKeys(Puts(r), Cut(e.key));
    if j :| 0 <= j < |r| && r[j].key == e.key {
      assert Puts(r)[j].key == Cut(e.key);
    }
    if j :| 0 <= j < |r| && Puts(r)[j].key == Cut(e.key) {
      assert r[j] in r;
      CutInjective(r[j].key, e.key);
    }
  }

  /** The first-wins table of the first `n` candidates, one candidate at a time. */
  function FirstWinsUpTo<V>(candidates: seq<LpmEntry<V>>, n: nat): map<Bits, V>
    requires n <= |candidates|
  {
    if n == 0 then map[] else Offered(FirstWinsUpTo(candidates, n - 1), candidates[n - 1])
  }

  function Offered<V>(table: map<Bits, V>, e: LpmEntry<V>): map<Bits, V>
  {
    if Cut(e.key) in table then table else table[Cut(e.key) := e.value]
  }

  lemma {:induction false} UpToIsFirstWins<V>(candidates: seq<LpmEntry<V>>, n: nat)
    requires n <= |candidates|
    ensures FirstWinsUpTo(candidates, n) == FirstWins(candidates[..n])
  {
    if n == 0 {
    } else {
      UpToIsFirstWins(candidates, n - 1);
      assert candidates[..n] == candidates[..n - 1] + [candidates[n - 1]];
      FirstWinsSnoc(candidates[..n - 1], candidates[n - 1]);
    }
  }

  /** One more candidate changes the table written alike. */
  lemma DedupStep<V>(r: seq<LpmEntry<V>>, e: LpmEntry<V>)
    requires CanonicalEntries(r) && CanonicalKey(e.key)
    ensures Written(Puts(if HasKey(r, e.key) then r else r + [e])) == Offered(Written(Puts(r)), e)
  {
    WrittenSnoc(r, e);
    CutTakenIffIdTaken(r, e);
  }

  /** What is written for the first `n` candidates, after deduplicating them. */
  function DedupTable<V>(candidates: seq<LpmEntry<V>>, n: nat): map<Bits, V>
    requires n <= |candidates|
  {
    Written(Puts(FirstPerKey(candidates, n)))
  }

  lemma DedupTableStep<V>(candidates: seq<LpmEntry<V>>, n: nat)
    requires n < |candidates| && CanonicalEntries(candidates)
    ensures DedupTable(candidates, n + 1) == Offered(DedupTable(candidates, n), candidates[n])
  {
    FirstPerKeyFromCandidates(candidates, n);
    DedupStep(FirstPerKey(candidates, n), candidates[n]);
  }

  lemma NothingWritten<V>(candidates: seq<LpmEntry<V>>)
    ensures DedupTable(candidates, 0) == map[] == FirstWinsUpTo(candidates, 0)
  {
  }

  /** Only one table comes of offering the candidates one by one. */
  lemma {:induction false} OfferedOneByOne<V>(table: nat -> map<Bits, V>, candidates: seq<LpmEntry<V>>, n: nat)
    requires n <= |candidates| && table(0) == map[]
    requires forall i :: 0 <= i < n ==> table(i + 1) == Offered(table(i), candidates[i])
    ensures table(n) == FirstWinsUpTo(candidates, n)
  {
    if n == 0 {
    } else {
      OfferedOneByOne(table, candidates, n - 1);
      assert table(n - 1 + 1) == Offered(table(n - 1), candidates[n - 1]);
    }
  }

  ghost function DedupTables<V>(candidates: seq<LpmEntry<V>>): nat -> map<Bits, V>
  {
    (n: nat) => if n <= |candidates| then DedupTable(candidates, n) else map[]
  }

  lemma DedupTablesStep<V>(candidates: seq<LpmEntry<V>>, i: nat, table: nat -> map<Bits, V>)
    requires i < |candidates| && CanonicalEntries(candidates) && table == DedupTables(candidates)
    ensures table(i + 1) == Offered(table(i), candidates[i])
  {
    DedupTableStep(candidates, i);
  }

  lemma DedupTablesAre<V>(candidates: seq<LpmEntry<V>>, n: nat, table: nat -> map<Bits, V>)
    requires n <= |candidates| && table == DedupTables(candidates)
    ensures table(0) == map[] && table(n) == Written(Puts(FirstPerKey(candidates, n)))
  {
    NothingWritten(candidates);
  }

  lemma DedupTablesOffer<V>(candidates: seq<LpmEntry<V>>, n: nat, table: nat -> map<Bits, V>)
    requires n <= |candidates| && CanonicalEntries(candidates) && table == DedupTables(candidates) && table(0) == map[]
    ensures table(n) == FirstWinsUpTo(candidates, n)
  {
    forall i | 0 <= i < n
      ensures table(i + 1) == Offered(table(i), candidates[i])
    {
      DedupTablesStep(candidates, i, table);
    }
    OfferedOneByOne(table, candidates, n);
  }

  /** Deduplicating by key id and writing in order leaves the first-wins table. */
  lemma FirstPerKeyWritesFirstWins<V>(candidates: seq<LpmEntry<V>>, n: nat)
    requires n <= |candidates| && CanonicalEntries(candidates)
    ensures Written(Puts(FirstPerKey(candidates, n))) == FirstWins(candidates[..n])
  {
    DedupTablesAre(candidates, n, DedupTables(candidates));
    DedupTablesOffer(candidates, n, DedupTables(candidates));
    UpToIsFirstWins(candidates, n);
  }

  /** What is put into a trie for a list of candidates. */
  function TriePuts<V>(candidates: seq<LpmEntry<V>>): seq<Entry<Bits, V>>
  {
    Puts(FirstPerKey(candidates, |candidates|))
  }

  lemma TriePutsTable<V>(candidates: seq<LpmEntry<V>>)
    requires CanonicalEntries(candidates)
    ensures Written(TriePuts(candidates)) == FirstWins(candidates)
  {
    FirstPerKeyWritesFirstWins(candidates, |candidates|);
    assert candidates[..|candidates|] == candidates;
  }

  /** Collects, deduplicates and puts one trie's entries. A write that stopped would
      stop again on what it left. */
  method PutTrie<V>(held: map<Bits, V>, capacity: nat, candidates: seq<LpmEntry<V>>)
    returns (m: map<Bits, V>, ids: set<LpmKey>, ok: bool)
    requires |held| <= capacity && CanonicalEntries(candidates)
    ensures |m| <= capacity
    ensures ok <==> UnionFits(held, TriePuts(candidates), capacity)
    ensures ok ==> m == held + FirstWins(candidates)
    ensures !ok ==> !UnionFits(m, TriePuts(candidates), capacity)
    ensures Between(held, m, FirstWins(candidates))
    ensures ids == Ids(candidates, |candidates|)
  {
    var pending: seq<LpmEntry<V>>;
    ids, pending := CollectFirst(candidates);
    m, ok := PutAll(held, capacity, Puts(pending));
    TriePutsTable(candidates);
    if !ok {
      RetryStopsAgain(held, m, Puts(pending), capacity);
      TriePutsDistinct(candidates);
      ghost var i :| 0 <= i < |pending| && StoppedAt(held, Puts(pending), capacity, i, m);
      StoppedIsBetween(held, Puts(pending), i, m);
    }
  }

  lemma TriePutsDistinct<V>(candidates: seq<LpmEntry<V>>)
    requires CanonicalEntries(candidates)
    ensures DistinctKeys(TriePuts(candidates))
  {
    var pending, puts := FirstPerKey(candidates, |candidates|), TriePuts(candidates);
    FirstPerKeyDistinct(candidates, |candidates|);
    FirstPerKeyFromCandidates(candidates, |candidates|);
    forall i, j | 0 <= i < j < |puts|
      ensures puts[i].key != puts[j].key
    {
      if puts[i].key == puts[j].key {
        CutInjective(pending[i].key, pending[j].key);
      }
    }
  }

  lemma StaleIsUnwritten<V>(candidates: seq<LpmEntry<V>>, k: Bits)
    requires CanonicalEntries(candidates)
    ensures StoredKey(k) in Ids(candidates, |candidates|) <==> k in FirstWins(candidates)
  {
    IdsAreKept(candidates, |candidates|, StoredKey(k));
    FirstPerKeyFromCandidates(candidates, |candidates|);
    TriePutsTable(candidates);
    StaleExactlyUnwritten(FirstPerKey(candidates, |candidates|), k);
  }

  /** Removes what is not pending; only the candidates' table remains. */
  method DropStaleTrie<V>(m: map<Bits, V>, ids: set<LpmKey>, ghost held: map<Bits, V>,
                          ghost candidates: seq<LpmEntry<V>>)
    returns (r: map<Bits, V>)
    requires CanonicalEntries(candidates) && m == held + FirstWins(candidates)
    requires ids == Ids(candidates, |candidates|)
    ensures r == FirstWins(candidates)
  {
    r := RemoveStaleIds(m, ids);
    forall k | k in m
      ensures StoredKey(k) in ids <==> k in FirstWins(candidates)
    {
      StaleIsUnwritten(candidates, k);
    }
  }

  /** The same for a hash map, whose keys are their own identity. */
  method PutHash<K(==), V>(held: map<K, V>, capacity: nat, candidates: seq<Entry<K, V>>)
    returns (m: map<K, V>, ids: set<K>, ok: bool)
    requires |held| <= capacity
    ensures |m| <= capacity
    ensures ok <==> UnionFits(held, FirstPerKey(candidates, |candidates|), capacity)
    ensures ok ==> m == held + FirstTable(candidates)
    ensures !ok ==> !UnionFits(m, FirstPerKey(candidates, |candidates|), capacity)
    ensures Between(held, m, FirstTable(candidates))
    ensures ids == FirstTable(candidates).Keys
  {
    var pending: seq<Entry<K, V>>;
    ids, pending := CollectFirst(candidates);
    m, ok := PutAll(held, capacity, pending);
    FirstPerKeyWritesFirstTable(candidates, |candidates|);
    assert candidates[..|candidates|] == candidates;
    IdsAreWritten(candidates, |candidates|);
    if !ok {
      RetryStopsAgain(held, m, pending, capacity);
      FirstPerKeyDistinct(candidates, |candidates|);
      ghost var i :| 0 <= i < |pending| && StoppedAt(held, pending, capacity, i, m);
      StoppedIsBetween(held, pending, i, m);
    }
  }

  lemma {:induction false} WrittenAtMost<K, V>(puts: seq<Entry<K, V>>)
    ensures |Written(puts)| <= |puts|
  {
    if puts == [] {
    } else {
      WrittenAtMost(puts[..|puts| - 1]);
    }
  }

  lemma {:induction false} FirstPerKeyAtMost<K, V>(candidates: seq<Entry<K, V>>, n: nat)
    requires n <= |candidates|
    ensures |FirstPerKey(candidates, n)| <= n
  {
    if n == 0 {
    } else {
      FirstPerKeyAtMost(candidates, n - 1);
    }
  }

  // ---------------------------------------------------------------- candidates

  datatype RuleValue = RuleValue(action: RuleAction, source: RuleSource, priority: I32)

  function RuleSourceOrder(source: RuleSource): nat
  {
    match source
    case ThreatIntel => 0
    case FirewallSource => 1
  }

  /** Lower priority numbers first, threat intelligence before user rules. */
  predicate RankLe(a: RuleValue, b: RuleValue)
  {
    a.priority < b.priority
    || (a.priority == b.priority && RuleSourceOrder(a.source) <= RuleSourceOrder(b.source))
  }

  function ValueOf(rule: XdpPrefixRule): RuleValue
  {
    RuleValue(rule.action, rule.source, rule.priority)
  }

  function InsertRanked(rule: XdpPrefixRule, sorted: seq<XdpPrefixRule>): (r: seq<XdpPrefixRule>)
    ensures multiset(r) == multiset{rule} + multiset(sorted)
  {
    if sorted == [] || RankLe(ValueOf(rule), ValueOf(sorted[0])) then [rule] + sorted
    else
      assert sorted == [sorted[0]] + sorted[1..];
      [sorted[0]] + InsertRanked(rule, sorted[1..])
  }

  /** The stable sort by (priority, source). */
  function SortRanked(rules: seq<XdpPrefixRule>): (r: seq<XdpPrefixRule>)
    ensures multiset(r) == multiset(rules)
  {
    if rules == [] then []
    else
      assert rules == [rules[0]] + rules[1..];
      InsertRanked(rules[0], SortRanked(rules[1..]))
  }

  function OrderedPolicyRules(policy: CompiledPolicy): seq<XdpPrefixRule>
  {
    SortRanked(policy.threatPrefixes + policy.rules)
  }

  /** A deny rule that would block one of the agent's own addresses is refused. */
  predicate DenyMatchesLocal(rule: XdpPrefixRule, locals: seq<Ip>)
  {
    rule.action == Deny && exists ip <- locals :: Contains(Trunc(rule.net), ip)
  }

  function RuleEntry(rule: XdpPrefixRule): LpmEntry<RuleValue>
  {
    Entry(ScopedKey(rule.net, ProtoCode(rule.protocol), rule.port), ValueOf(rule))
  }

  function RuleCandidates(rules: seq<XdpPrefixRule>, locals: seq<Ip>): (r: seq<LpmEntry<RuleValue>>)
    ensures forall e <- r :: exists x <- rules :: e == RuleEntry(x)
  {
    if rules == [] then []
    else
      var rest := RuleCandidates(rules[1..], locals);
      assert forall x <- rules[1..] :: x in rules;
      if DenyMatchesLocal(rules[0], locals) then rest else [RuleEntry(rules[0])] + rest
  }

  predicate BanMatchesLocal(ban: XdpTempBan, locals: seq<Ip>)
  {
    exists ip <- locals :: Contains(Trunc(ban.net), ip)
  }

  function BanEntry(ban: XdpTempBan): LpmEntry<Time>
  {
    Entry(ScopedKey(ban.net, ProtoCode(ban.protocol), ban.port), ban.expiresAt)
  }

  /** Compacted bans that are still running and spare the agent's addresses. */
  function BanCandidates(bans: seq<XdpTempBan>, locals: seq<Ip>, wallNow: Time): (r: seq<LpmEntry<Time>>)
    ensures forall b <- bans :: b.expiresAt > wallNow && !BanMatchesLocal(b, locals) ==> BanEntry(b) in r
    ensures forall e <- r :: exists b <- bans ::
              e == BanEntry(b) && b.expiresAt > wallNow && !BanMatchesLocal(b, locals)
  {
    if bans == [] then []
    else
      var rest := BanCandidates(bans[1..], locals, wallNow);
      assert forall b <- bans :: b == bans[0] || b in bans[1..];
      assert forall b <- bans[1..] :: b in bans;
      if bans[0].expiresAt <= wallNow || BanMatchesLocal(bans[0], locals) then rest
      else [BanEntry(bans[0])] + rest
  }

  function TrustedCandidates(prefixes: seq<Cidr>): (r: seq<LpmEntry<bool>>)
    ensures |r| == |prefixes|
    ensures forall i :: 0 <= i < |r| ==> r[i] == Entry(SourceKey(prefixes[i]), true)
  {
    seq(|prefixes|, i requires 0 <= i < |prefixes| => Entry(SourceKey(prefixes[i]), true))
  }

  function GeoCandidates(prefixes: seq<XdpGeoPrefix>): (r: seq<LpmEntry<U16>>)
    ensures |r| == |prefixes|
    ensures forall i :: 0 <= i < |r| ==> r[i] == Entry(SourceKey(prefixes[i].net), prefixes[i].country)
  {
    seq(|prefixes|, i requires 0 <= i < |prefixes| =>
      Entry(SourceKey(prefixes[i].net), prefixes[i].country))
  }

  /** The value of the first candidate of each key. */
  function FirstTable<K, V>(candidates: seq<Entry<K, V>>): map<K, V>
  {
    if candidates == [] then map[]
    else FirstTable(candidates[1..])[candidates[0].key := candidates[0].value]
  }

  lemma {:induction false} FirstTableSnoc<K, V>(candidates: seq<Entry<K, V>>, e: Entry<K, V>)
    ensures FirstTable(candidates + [e]) ==
            if e.key in FirstTable(candidates) then FirstTable(candidates)
            else FirstTable(candidates)[e.key := e.value]
  {
    if candidates == [] {
      assert [e][1..] == [];
    } else {
      assert (candidates + [e])[1..] == candidates[1..] + [e];
      FirstTableSnoc(candidates[1..], e);
    }
  }

  /** Hash maps keep the first candidate of a key as well. */
  lemma {:induction false} FirstPerKeyWritesFirstTable<K, V>(candidates: seq<Entry<K, V>>, n: nat)
    requires n <= |candidates|
    ensures Written(FirstPerKey(candidates, n)) == FirstTable(candidates[..n])
  {
    if n == 0 {
    } else {
      FirstPerKeyWritesFirstTable(candidates, n - 1);
      var e, r := candidates[n - 1], FirstPerKey(candidates, n - 1);
      assert candidates[..n] == candidates[..n - 1] + [e];
      FirstTableSnoc(candidates[..n - 1], e);
      WrittenKeys(r, e.key);
      assert (r + [e])[..|r|] == r;
    }
  }

  function CountryCandidates(rules: seq<XdpCountryRule>): (r: seq<Entry<U16, RuleAction>>)
    ensures |r| == |rules|
    ensures forall i :: 0 <= i < |r| ==> r[i] == Entry(rules[i].country, rules[i].action)
  {
    seq(|rules|, i requires 0 <= i < |rules| => Entry(rules[i].country, rules[i].action))
  }

  datatype RateLimit = RateLimit(packetsPerSecond: U32, burst: U32)

  datatype CustomRateKey = CustomRateKey(proto: U8, dport: U16)

  function CustomRateCandidates(limits: seq<XdpDynamicRateLimit>): (r: seq<Entry<CustomRateKey, RateLimit>>)
    ensures |r| == |limits|
    ensures forall i :: 0 <= i < |r| ==>
              r[i] == Entry(CustomRateKey(ProtoCode(limits[i].protocol), limits[i].port),
                            RateLimit(limits[i].packetsPerSecond, limits[i].burst))
  {
    seq(|limits|, i requires 0 <= i < |limits| =>
      Entry(CustomRateKey(ProtoCode(limits[i].protocol), limits[i].port),
            RateLimit(limits[i].packetsPerSecond, limits[i].burst)))
  }
}
