/**
  * The document store's `$group` stage over a sequence of keyed records: one group per
  * distinct key holding that key's records in input order. The store returns groups in
  * no particular order; this model returns them in order of first appearance, and no
  * property proved here depends on that choice.
  */
module Grouping {

  datatype Group<K, V> = Group(key: K, members: seq<V>)

  /** The values recorded under key `k`, in input order. */
  function Select<K(==), V>(xs: seq<(K, V)>, k: K): seq<V>
  {
    if |xs| == 0 then []
    else
      var last := xs[|xs| - 1];
      Select(xs[..|xs| - 1], k) + (if last.0 == k then [last.1] else [])
  }

  /** How many records have a key satisfying `P`. */
  function CountWhere<K, V>(xs: seq<(K, V)>, P: K -> bool): nat
  {
    if |xs| == 0 then 0
    else CountWhere(xs[..|xs| - 1], P) + (if P(xs[|xs| - 1].0) then 1 else 0)
  }

  /** The position of the group with key `k`, or -1 when there is none. */
  function IndexOfKey<K(==), V>(gs: seq<Group<K, V>>, k: K): (i: int)
    ensures -1 <= i < |gs|
    ensures 0 <= i ==> gs[i].key == k
    ensures i < 0 ==> forall j :: 0 <= j < |gs| ==> gs[j].key != k
  {
    if |gs| == 0 then -1
    else if gs[|gs| - 1].key == k then |gs| - 1
    else IndexOfKey(gs[..|gs| - 1], k)
  }

  /** Records one more value under `k`: appended to its group, or as a new last group. */
  function Add<K(==), V>(gs: seq<Group<K, V>>, k: K, v: V): seq<Group<K, V>>
  {
    var i := IndexOfKey(gs, k);
    if i < 0 then gs + [Group(k, [v])]
    else gs[i := Group(k, gs[i].members + [v])]
  }

  function GroupBy<K(==), V>(xs: seq<(K, V)>): seq<Group<K, V>>
  {
    if |xs| == 0 then []
    else Add(GroupBy(xs[..|xs| - 1]), xs[|xs| - 1].0, xs[|xs| - 1].1)
  }

  predicate DistinctKeys<K(==), V>(gs: seq<Group<K, V>>)
  {
    forall i, j :: 0 <= i < j < |gs| ==> gs[i].key != gs[j].key
  }

  predicate HasKey<K(==), V>(gs: seq<Group<K, V>>, k: K)
  {
    exists i :: 0 <= i < |gs| && gs[i].key == k
  }

  /** The total number of members of the groups whose key satisfies `P`. */
  function SizeWhere<K, V>(gs: seq<Group<K, V>>, P: K -> bool): nat
  {
    if |gs| == 0 then 0
    else SizeWhere(gs[..|gs| - 1], P) + (if P(gs[|gs| - 1].key) then |gs[|gs| - 1].members| else 0)
  }

  /** The values under `k` after one more record: the old ones, then the new value if its key is `k`. */
  lemma SelectLast<K, V>(xs: seq<(K, V)>, k: K)
    requires |xs| > 0
    ensures Select(xs, k) == Select(xs[..|xs| - 1], k) + (if xs[|xs| - 1].0 == k then [xs[|xs| - 1].1] else [])
  {
  }

  lemma AddDistinct<K, V>(gs: seq<Group<K, V>>, k: K, v: V)
    requires DistinctKeys(gs)
    ensures DistinctKeys(Add(gs, k, v))
  {
  }

  lemma AddMembers<K, V>(gs: seq<Group<K, V>>, xs: seq<(K, V)>)
    requires |xs| > 0
    requires DistinctKeys(gs)
    requires forall i :: 0 <= i < |gs| ==> gs[i].members == Select(xs[..|xs| - 1], gs[i].key)
    requires forall k :: HasKey(gs, k) <==> |Select(xs[..|xs| - 1], k)| > 0
    ensures var gs' := Add(gs, xs[|xs| - 1].0, xs[|xs| - 1].1);
      forall i :: 0 <= i < |gs'| ==> gs'[i].members == Select(xs, gs'[i].key)
  {
    var (k, v) := xs[|xs| - 1];
    var gs' := Add(gs, k, v);
    forall i | 0 <= i < |gs'|
      ensures gs'[i].members == Select(xs, gs'[i].key)
    {
      SelectLast(xs, gs'[i].key);
      if i == |gs| {
        assert !HasKey(gs, k);
      }
    }
  }

  lemma AddKeys<K, V>(gs: seq<Group<K, V>>, xs: seq<(K, V)>)
    requires |xs| > 0
    requires forall k :: HasKey(gs, k) <==> |Select(xs[..|xs| - 1], k)| > 0
    ensures var gs' := Add(gs, xs[|xs| - 1].0, xs[|xs| - 1].1);
      forall k :: HasKey(gs', k) <==> |Select(xs, k)| > 0
  {
    var (k, v) := xs[|xs| - 1];
    var gs' := Add(gs, k, v);
    forall k'
      ensures HasKey(gs', k') <==> |Select(xs, k')| > 0
    {
      SelectLast(xs, k');
      if HasKey(gs', k') {
        var j :| 0 <= j < |gs'| && gs'[j].key == k';
        if j < |gs| {
          assert gs[j].key == k';
        }
      }
      if HasKey(gs, k') {
        var j :| 0 <= j < |gs| && gs[j].key == k';
        assert gs'[j].key == k';
      }
      if k' == k && IndexOfKey(gs, k) < 0 {
        assert gs'[|gs|].key == k;
      }
    }
  }

  /**
    * Grouping keeps every record exactly once: the keys are distinct, each group holds
    * exactly the values recorded under its key, and a key has a group exactly when some
    * record carries it.
    */
  lemma {:induction false} GroupBySpec<K, V>(xs: seq<(K, V)>)
    ensures DistinctKeys(GroupBy(xs))
    ensures forall i :: 0 <= i < |GroupBy(xs)| ==> GroupBy(xs)[i].members == Select(xs, GroupBy(xs)[i].key)
    ensures forall k :: HasKey(GroupBy(xs), k) <==> |Select(xs, k)| > 0
  {
    if |xs| > 0 {
      var init := xs[..|xs| - 1];
      GroupBySpec(init);
      var gs := GroupBy(init);
      AddDistinct(gs, xs[|xs| - 1].0, xs[|xs| - 1].1);
      AddMembers(gs, xs);
      AddKeys(gs, xs);
    }
  }

  lemma {:induction false} SizeWhereUpdate<K, V>(gs: seq<Group<K, V>>, P: K -> bool, i: int, g: Group<K, V>)
    requires 0 <= i < |gs| && g.key == gs[i].key
    ensures SizeWhere(gs[i := g], P) + (if P(g.key) then |gs[i].members| else 0) ==
            SizeWhere(gs, P) + (if P(g.key) then |g.members| else 0)
  {
    var gs' := gs[i := g];
    if i < |gs| - 1 {
      SizeWhereUpdate(gs[..|gs| - 1], P, i, g);
      assert gs'[..|gs| - 1] == gs[..|gs| - 1][i := g];
    } else {
      assert gs'[..|gs| - 1] == gs[..|gs| - 1];
    }
  }

  /** The group sizes add up: the groups with keys in `P` hold as many members as there are such records. */
  lemma {:induction false} GroupSizes<K, V>(xs: seq<(K, V)>, P: K -> bool)
    ensures SizeWhere(GroupBy(xs), P) == CountWhere(xs, P)
  {
    if |xs| > 0 {
      var init := xs[..|xs| - 1];
      var (k, v) := xs[|xs| - 1];
      GroupSizes(init, P);
      var gs := GroupBy(init);
      var i := IndexOfKey(gs, k);
      if i < 0 {
        assert (gs + [Group(k, [v])])[..|gs|] == gs;
      } else {
        SizeWhereUpdate(gs, P, i, Group(k, gs[i].members + [v]));
      }
    }
  }

  /** A positive size needs a group whose key satisfies `P`. */
  lemma {:induction false} SizeWherePositive<K, V>(gs: seq<Group<K, V>>, P: K -> bool)
    requires SizeWhere(gs, P) > 0
    ensures exists i :: 0 <= i < |gs| && P(gs[i].key)
  {
    if !P(gs[|gs| - 1].key) {
      SizeWherePositive(gs[..|gs| - 1], P);
      var i :| 0 <= i < |gs| - 1 && P(gs[..|gs| - 1][i].key);
      assert gs[i] == gs[..|gs| - 1][i];
    }
  }

  /** The number of values selected under `k` is the number of records with key `k`. */
  lemma {:induction false} SelectSize<K, V>(xs: seq<(K, V)>, k: K)
    ensures |Select(xs, k)| == CountWhere(xs, KeyIs(k))
  {
    if |xs| > 0 {
      SelectSize(xs[..|xs| - 1], k);
    }
  }

  function KeyIs<K(==)>(k: K): K -> bool
  {
    k' => k' == k
  }
}
