/**
  Grouping keyed entries the way the bot builds its listings: pushing each entry
  onto `result[key]` of a fresh object, so that keys appear in the order they are
  first met and each group keeps its entries in input order.
 */
module Grouping {

  /** The entries of one group, each paired with the group's key. */
  function Pairs<K, V>(k: K, vs: seq<V>): (ps: seq<(K, V)>)
    ensures |ps| == |vs|
    ensures forall i :: 0 <= i < |vs| ==> ps[i] == (k, vs[i])
  {
    seq(|vs|, i requires 0 <= i < |vs| => (k, vs[i]))
  }

  /** Every entry held by the groups, paired with its group's key. */
  ghost function Entries<K, V>(gs: seq<(K, seq<V>)>): multiset<(K, V)>
  {
    if |gs| == 0 then multiset{}
    else Entries(gs[..|gs| - 1]) + multiset(Pairs(gs[|gs| - 1].0, gs[|gs| - 1].1))
  }

  /** The number of entries over all groups (the "Total" the listings report). */
  function Total<K, V>(gs: seq<(K, seq<V>)>): nat
  {
    if |gs| == 0 then 0 else Total(gs[..|gs| - 1]) + |gs[|gs| - 1].1|
  }

  predicate DistinctKeys<K(==), V>(gs: seq<(K, seq<V>)>) {
    forall i, j :: 0 <= i < j < |gs| ==> gs[i].0 != gs[j].0
  }

  predicate NonEmptyGroups<K, V>(gs: seq<(K, seq<V>)>) {
    forall i :: 0 <= i < |gs| ==> |gs[i].1| > 0
  }

  /** The position of the group with key `k` at or after `i`, or `|gs|` if there is none. */
  function FindKey<K(==), V>(gs: seq<(K, seq<V>)>, k: K, i: nat): (r: nat)
    requires i <= |gs|
    ensures i <= r <= |gs|
    ensures r < |gs| ==> gs[r].0 == k
    ensures forall j :: i <= j < r ==> gs[j].0 != k
    decreases |gs| - i
  {
    if i == |gs| || gs[i].0 == k then i else FindKey(gs, k, i + 1)
  }

  lemma {:induction false} EntriesAppendToGroup<K, V>(gs: seq<(K, seq<V>)>, i: nat, v: V)
    requires i < |gs|
    ensures Entries(gs[i := (gs[i].0, gs[i].1 + [v])]) == Entries(gs) + multiset{(gs[i].0, v)}
    decreases |gs|
  {
    var n := |gs| - 1;
    var gs' := gs[i := (gs[i].0, gs[i].1 + [v])];
    if i == n {
      assert gs'[..n] == gs[..n];
      assert Pairs(gs[i].0, gs[i].1 + [v]) == Pairs(gs[i].0, gs[i].1) + [(gs[i].0, v)];
    } else {
      assert gs'[..n] == gs[..n][i := (gs[i].0, gs[i].1 + [v])];
      EntriesAppendToGroup(gs[..n], i, v);
    }
  }

  /** `(result[k] ||= []).push(v)` */
  function Add<K(==), V>(gs: seq<(K, seq<V>)>, k: K, v: V): (r: seq<(K, seq<V>)>)
    requires DistinctKeys(gs) && NonEmptyGroups(gs)
    ensures DistinctKeys(r) && NonEmptyGroups(r)
    ensures Entries(r) == Entries(gs) + multiset{(k, v)}
    ensures |gs| <= |r| && forall i :: 0 <= i < |gs| ==> r[i].0 == gs[i].0
  {
    var i := FindKey(gs, k, 0);
    if i < |gs| then
      GrowGroup(gs, i, v);
      gs[i := (k, gs[i].1 + [v])]
    else
      NewGroup(gs, k, v);
      gs + [(k, [v])]
  }

  /** Pushing onto the group at `i` keeps every key in place and adds one entry. */
  lemma GrowGroup<K, V>(gs: seq<(K, seq<V>)>, i: nat, v: V)
    requires DistinctKeys(gs) && NonEmptyGroups(gs) && i < |gs|
    ensures var r := gs[i := (gs[i].0, gs[i].1 + [v])];
      && DistinctKeys(r) && NonEmptyGroups(r)
      && Entries(r) == Entries(gs) + multiset{(gs[i].0, v)}
      && |r| == |gs| && forall j :: 0 <= j < |gs| ==> r[j].0 == gs[j].0
  {
    EntriesAppendToGroup(gs, i, v);
    var r := gs[i := (gs[i].0, gs[i].1 + [v])];
    assert forall j :: 0 <= j < |gs| ==> r[j].0 == gs[j].0;
  }

  /** A key not yet present opens a new group at the end. */
  lemma NewGroup<K, V>(gs: seq<(K, seq<V>)>, k: K, v: V)
    requires DistinctKeys(gs) && NonEmptyGroups(gs) && forall j :: 0 <= j < |gs| ==> gs[j].0 != k
    ensures var r := gs + [(k, [v])];
      && DistinctKeys(r) && NonEmptyGroups(r)
      && Entries(r) == Entries(gs) + multiset{(k, v)}
      && forall j :: 0 <= j < |gs| ==> r[j].0 == gs[j].0
  {
    NewGroupKeys(gs, k, [v]);
    NewGroupEntries(gs, k, v);
  }

  lemma NewGroupKeys<K, V>(gs: seq<(K, seq<V>)>, k: K, vs: seq<V>)
    requires DistinctKeys(gs) && NonEmptyGroups(gs) && vs != [] && forall j :: 0 <= j < |gs| ==> gs[j].0 != k
    ensures var r := gs + [(k, vs)];
      && DistinctKeys(r) && NonEmptyGroups(r)
      && forall j :: 0 <= j < |gs| ==> r[j].0 == gs[j].0
  {
    var r := gs + [(k, vs)];
    assert forall j :: 0 <= j < |gs| ==> r[j] == gs[j];
    forall a, b | 0 <= a < b < |r| ensures r[a].0 != r[b].0 {
      if b == |gs| {
        assert r[a].0 == gs[a].0 && r[b].0 == k;
      }
    }
  }

  lemma NewGroupEntries<K, V>(gs: seq<(K, seq<V>)>, k: K, v: V)
    ensures Entries(gs + [(k, [v])]) == Entries(gs) + multiset{(k, v)}
  {
    var r := gs + [(k, [v])];
    calc {
      Entries(r);
      { assert r[..|r| - 1] == gs; }
      Entries(gs) + multiset(Pairs(k, [v]));
      { assert Pairs(k, [v]) == [(k, v)]; }
      Entries(gs) + multiset{(k, v)};
    }
  }

  /** Group `es` by key: keys in order of first appearance, entries in input order. */
  function GroupBy<K(==), V>(es: seq<(K, V)>): (gs: seq<(K, seq<V>)>)
    ensures DistinctKeys(gs) && NonEmptyGroups(gs)
    ensures Entries(gs) == multiset(es)
  {
    if |es| == 0 then []
    else
      var n := |es| - 1;
      assert es == es[..n] + [es[n]];
      Add(GroupBy(es[..n]), es[n].0, es[n].1)
  }

  lemma {:induction false} TotalCountsEntries<K, V>(gs: seq<(K, seq<V>)>)
    ensures Total(gs) == |Entries(gs)|
    decreases |gs|
  {
    if |gs| > 0 {
      TotalCountsEntries(gs[..|gs| - 1]);
    }
  }

  /** Grouping neither loses nor invents entries: the groups hold as many entries as the input. */
  lemma GroupByTotal<K, V>(es: seq<(K, V)>)
    ensures Total(GroupBy(es)) == |es|
    ensures GroupBy(es) == [] <==> es == []
  {
    var gs := GroupBy(es);
    TotalCountsEntries(gs);
    if gs != [] {
      assert |gs[|gs| - 1].1| > 0;
    }
  }

  /** An entry of group `i` is an entry of the input that carries the group's key. */
  lemma {:induction false} MemberIsEntry<K, V>(gs: seq<(K, seq<V>)>, i: nat, j: nat)
    requires i < |gs| && j < |gs[i].1|
    ensures (gs[i].0, gs[i].1[j]) in Entries(gs)
    decreases |gs|
  {
    if i < |gs| - 1 {
      assert gs[..|gs| - 1][i] == gs[i];
      MemberIsEntry(gs[..|gs| - 1], i, j);
    } else {
      assert Pairs(gs[i].0, gs[i].1)[j] == (gs[i].0, gs[i].1[j]);
    }
  }

  /** Every entry of the groups sits in the group of its key. */
  lemma {:induction false} EntryHasGroup<K, V>(gs: seq<(K, seq<V>)>, k: K, v: V)
    requires (k, v) in Entries(gs)
    ensures exists i :: 0 <= i < |gs| && gs[i].0 == k && v in gs[i].1
    decreases |gs|
  {
    var n := |gs| - 1;
    if (k, v) in Entries(gs[..n]) {
      EntryHasGroup(gs[..n], k, v);
      var i :| 0 <= i < n && gs[..n][i].0 == k && v in gs[..n][i].1;
      assert gs[i] == gs[..n][i];
    } else {
      var ps := Pairs(gs[n].0, gs[n].1);
      assert (k, v) in ps;
      var j :| 0 <= j < |ps| && ps[j] == (k, v);
      assert gs[n].1[j] == v;
    }
  }
}
