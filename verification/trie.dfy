/** The kernel's longest-prefix trie. A stored key is the bit string cut at its
    prefix length, which is what the kernel identifies a node by; a lookup
    returns the value under the longest stored prefix of the queried bits. */
module LpmTrie {

  import opened Bits
  import opened Results

  /** Length of the longest stored prefix of `q` with at most `n` bits, or -1. */
  function LongestLen<V>(m: map<Bits, V>, q: Bits, n: nat): (len: int)
    requires n <= |q|
    ensures -1 <= len <= n
    ensures len >= 0 ==> q[..len] in m
    ensures forall k :: len < k <= n ==> q[..k] !in m
  {
    if q[..n] in m then n
    else if n == 0 then -1
    else LongestLen(m, q, n - 1)
  }

  function Lookup<V>(m: map<Bits, V>, q: Bits): Option<V>
  {
    var len := LongestLen(m, q, |q|);
    if len >= 0 then Some(m[q[..len]]) else None
  }

  /** A key as userspace hands it over: full data and the number of leading bits
      that count. The kernel identifies the node by `Cut`. */
  datatype LpmKey = LpmKey(len: nat, data: Bits)

  ghost predicate CanonicalKey(k: LpmKey)
  {
    k.len <= |k.data| == 160 && k.data == Cut(k) + Zeros(160 - k.len)
  }

  function Cut(k: LpmKey): Bits
  {
    if k.len <= |k.data| then k.data[..k.len] else k.data
  }

  /** Without bits beyond the prefix length, userspace and the kernel agree on
      which keys are the same. */
  lemma CutInjective(a: LpmKey, b: LpmKey)
    requires CanonicalKey(a) && CanonicalKey(b)
    requires Cut(a) == Cut(b)
    ensures a == b
  {
  }

  /** One key and value to be written. */
  datatype Entry<+K, +V> = Entry(key: K, value: V)

  type LpmEntry<V> = Entry<LpmKey, V>

  /** The table left when entries are inserted in order and a key already taken
      is skipped. */
  function FirstWins<V>(entries: seq<LpmEntry<V>>): map<Bits, V>
  {
    if entries == [] then map[]
    else FirstWins(entries[1..])[Cut(entries[0].key) := entries[0].value]
  }

  lemma {:induction false} FirstWinsKey<V>(entries: seq<LpmEntry<V>>, k: Bits) returns (i: nat)
    requires k in FirstWins(entries)
    ensures i < |entries| && Cut(entries[i].key) == k
  {
    if Cut(entries[0].key) == k {
      i := 0;
    } else {
      var j := FirstWinsKey(entries[1..], k);
      i := j + 1;
    }
  }

  /** Reference lookup: scan every entry, keep the longest matching key, and the
      earliest of equal ones. */
  function ScanLongest<V>(entries: seq<LpmEntry<V>>, q: Bits): (r: Option<LpmEntry<V>>)
    ensures r.Some? ==> r.value in entries && Cut(r.value.key) <= q
    ensures r.None? ==> forall e <- entries :: !(Cut(e.key) <= q)
    ensures r.Some? ==> forall e <- entries :: Cut(e.key) <= q ==> |Cut(e.key)| <= |Cut(r.value.key)|
  {
    if entries == [] then None
    else
      var rest := ScanLongest(entries[1..], q);
      assert forall e <- entries :: e == entries[0] || e in entries[1..];
      if Cut(entries[0].key) <= q && (rest.None? || |Cut(entries[0].key)| >= |Cut(rest.value.key)|)
      then Some(entries[0])
      else rest
  }

  /** Under the key the scan settles on, the table holds the scan's value. */
  lemma {:induction false} ScanIsStored<V>(entries: seq<LpmEntry<V>>, q: Bits)
    requires ScanLongest(entries, q).Some?
    ensures var e := ScanLongest(entries, q).value;
            Cut(e.key) in FirstWins(entries) && FirstWins(entries)[Cut(e.key)] == e.value
  {
    var rest := ScanLongest(entries[1..], q);
    if rest.None? {
    } else {
      ScanIsStored(entries[1..], q);
    }
  }

  /** The trie lookup computes the reference scan, whatever the entries. */
  lemma LookupIsScan<V>(entries: seq<LpmEntry<V>>, q: Bits)
    ensures var scan := ScanLongest(entries, q);
            Lookup(FirstWins(entries), q) == (if scan.Some? then Some(scan.value.value) else None)
  {
    var m := FirstWins(entries);
    var scan := ScanLongest(entries, q);
    var len := LongestLen(m, q, |q|);
    if len >= 0 {
      var i := FirstWinsKey(entries, q[..len]);
      assert entries[i] in entries && Cut(entries[i].key) <= q;
    }
    if scan.Some? {
      var key := Cut(scan.value.key);
      ScanIsStored(entries, q);
      assert q[..|key|] == key;
      assert len == |key|;
    }
  }
}
