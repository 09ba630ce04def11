/** Who is watching for dropped packets: live subscriptions counted per node filter. */
module DropRegistry {

  import opened Text
  import opened Results

  function LowerAscii(c: char): char
  {
    if 'A' <= c <= 'Z' then (c as nat + 32) as char else c
  }

  /** Equal when ASCII case is ignored. */
  predicate IsAll(s: string)
  {
    |s| == 3 && LowerAscii(s[0]) == 'a' && LowerAscii(s[1]) == 'l' && LowerAscii(s[2]) == 'l'
  }

  /** A node filter; blank and "all" mean every node. */
  function NormalizeFilter(filter: Option<string>): Option<string>
  {
    match filter
    case None => None
    case Some(value) => if Trim(value) == "" || IsAll(Trim(value)) then None else Some(Trim(value))
  }

  /** What a filter means: white space around it does not count, nothing and "all" in any
      case stand for every node, and anything else for the node of that name. */
  lemma FilterMeans(before: string, name: string, after: string)
    requires AllSpace(before) && AllSpace(after) && Trimmed(name)
    ensures NormalizeFilter(Some(before + name + after)) ==
            if name in {"", "all", "All", "aLl", "alL", "ALl", "AlL", "aLL", "ALL"} then None else Some(name)
    ensures NormalizeFilter(None) == None
  {
    TrimMeans(before, name, after);
    AllInAnyCase(name);
  }

  lemma AllInAnyCase(s: string)
    ensures IsAll(s) <==> s in {"all", "All", "aLl", "alL", "ALl", "AlL", "aLL", "ALL"}
  {
    if IsAll(s) {
      assert s == [s[0], s[1], s[2]];
    }
  }

  /** How many of the live subscriptions use a filter. */
  function Uses(live: seq<Option<string>>, filter: Option<string>): nat
  {
    if live == [] then 0
    else Uses(live[..|live| - 1], filter) + (if live[|live| - 1] == filter then 1 else 0)
  }

  /** Some live subscription watches the node. */
  predicate Watched(live: seq<Option<string>>, node: string)
  {
    exists f <- live :: f == None || f == Some(node)
  }

  function Counts(m: map<Option<string>, nat>, filter: Option<string>): nat
  {
    if filter in m then m[filter] else 0
  }

  ghost predicate Matches(m: map<Option<string>, nat>, live: seq<Option<string>>)
  {
    forall f: Option<string> :: Counts(m, f) == Uses(live, f) && (f in m ==> m[f] > 0)
  }

  lemma {:induction false} UsesAreMembers(live: seq<Option<string>>, filter: Option<string>)
    ensures Uses(live, filter) > 0 <==> filter in live
  {
    if live == [] {
    } else {
      UsesAreMembers(live[..|live| - 1], filter);
      assert live == live[..|live| - 1] + [live[|live| - 1]];
    }
  }

  function Without(live: seq<Option<string>>, i: nat): seq<Option<string>>
    requires i < |live|
  {
    live[..i] + live[i + 1..]
  }

  lemma {:induction false} UsesAppend(a: seq<Option<string>>, b: seq<Option<string>>, filter: Option<string>)
    ensures Uses(a + b, filter) == Uses(a, filter) + Uses(b, filter)
  {
    if b == [] {
      assert a + b == a;
    } else {
      assert (a + b)[..|a + b| - 1] == a + b[..|b| - 1];
      UsesAppend(a, b[..|b| - 1], filter);
    }
  }

  lemma UsesWithout(live: seq<Option<string>>, i: nat, filter: Option<string>)
    requires i < |live|
    ensures Uses(live, filter) == Uses(Without(live, i), filter) + (if live[i] == filter then 1 else 0)
  {
    assert live == live[..i] + ([live[i]] + live[i + 1..]);
    UsesAppend(live[..i], [live[i]] + live[i + 1..], filter);
    UsesAppend([live[i]], live[i + 1..], filter);
    UsesAppend(live[..i], live[i + 1..], filter);
    assert [live[i]][..0] == [];
  }

  /** The counts decide for a node exactly what the live subscriptions say. */
  lemma CountsDecide(m: map<Option<string>, nat>, live: seq<Option<string>>, node: string)
    requires Matches(m, live)
    ensures (Counts(m, None) > 0 || Counts(m, Some(node)) > 0) <==> Watched(live, node)
  {
    UsesAreMembers(live, None);
    UsesAreMembers(live, Some(node));
  }

  class DropSubscriptionRegistry {
    var subscriptions: map<Option<string>, nat>
    var changeVersion: nat
    ghost var live: seq<Option<string>>

    ghost predicate Valid()
      reads this
    {
      Matches(subscriptions, live)
    }

    constructor ()
      ensures Valid() && live == [] && changeVersion == 0
    {
      subscriptions, changeVersion, live := map[], 0, [];
    }

    method Add(nodeId: Option<string>) returns (filter: Option<string>)
      requires Valid()
      modifies this
      ensures Valid() && filter == NormalizeFilter(nodeId) && live == old(live) + [filter]
      ensures changeVersion == old(changeVersion) + 1
    {
      filter := NormalizeFilter(nodeId);
      subscriptions := subscriptions[filter := Counts(subscriptions, filter) + 1];
      live := live + [filter];
      NotifyChanged();
    }

    /** Removes one live subscription with this filter, if there is one; a filter nobody
        uses leaves no entry behind. */
    method Remove(filter: Option<string>)
      requires Valid()
      modifies this
      ensures Valid() && changeVersion == old(changeVersion) + 1
      ensures filter !in old(live) ==> live == old(live)
      ensures filter in old(live) ==>
                exists i :: 0 <= i < |old(live)| && old(live)[i] == filter && live == Without(old(live), i)
    {
      UsesAreMembers(live, filter);
      if filter in subscriptions {
        ghost var i :| 0 <= i < |live| && live[i] == filter;
        forall f: Option<string>
          ensures Uses(live, f) == Uses(Without(live, i), f) + (if filter == f then 1 else 0)
        {
          UsesWithout(live, i, f);
        }
        var count := subscriptions[filter] - 1;
        subscriptions := if count == 0 then subscriptions - {filter} else subscriptions[filter := count];
        live := Without(live, i);
      }
      NotifyChanged();
    }

    method EnabledForNode(nodeId: string) returns (enabled: bool)
      requires Valid()
      ensures enabled <==> Watched(live, nodeId)
    {
      CountsDecide(subscriptions, live, nodeId);
      enabled := Counts(subscriptions, None) > 0 || Counts(subscriptions, Some(nodeId)) > 0;
    }

    method NotifyChanged()
      modifies this`changeVersion
      ensures changeVersion == old(changeVersion) + 1
    {
      changeVersion := changeVersion + 1;
    }
  }
}
