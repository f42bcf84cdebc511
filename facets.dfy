/**
  * Two facet pipelines of the type listing: universes with their sub-universe counts, and
  * directors with at least three movies, most prolific first. Each is modelled as what
  * its pipeline literal asks the document store to compute over the stored movies.
  */
module Facets {
  import opened Wrappers
  import opened Query
  import opened Grouping

  // ---------------------------------------------------------------------------------
  // Universe facet
  // ---------------------------------------------------------------------------------

  /** What `$ifNull` puts in place of a missing or null `Sub_Universe`. */
  const NoSubUniverse: string := "__NO_SUB_UNIVERSE__"

  /**
    * The first stage's group key `{Universe, Sub_Universe}`. In a compound key a missing
    * field is left out while a null one is kept, so the universe is the stored value.
    */
  datatype UniverseKey = UniverseKey(universe: Stored, subUniverse: string)

  datatype SubUniverseCount = SubUniverseCount(fieldValue: string, totalCount: nat)

  /** One universe of the facet. */
  datatype UniverseEntry = UniverseEntry(
    fieldValue: Option<string>,
    totalCount: nat,
    subUniverses: seq<SubUniverseCount>,
    noSubUniverseCount: nat)

  function KeyOf(m: Movie): UniverseKey
  {
    UniverseKey(m.universe, m.subUniverse.GetOr(NoSubUniverse))
  }

  function Keyed(movies: seq<Movie>): seq<(UniverseKey, Movie)>
  {
    if |movies| == 0 then []
    else Keyed(movies[..|movies| - 1]) + [(KeyOf(movies[|movies| - 1]), movies[|movies| - 1])]
  }

  /** Stage one: a group per (universe, sub-universe) pair. */
  function PairGroups(movies: seq<Movie>): seq<Group<UniverseKey, Movie>>
  {
    GroupBy(Keyed(movies))
  }

  /**
    * Each pair group as a child of its universe, with `subUniverseCount` as its count;
    * the path `$_id.Universe` reads a left-out universe as null.
    */
  function AsChildren(gs: seq<Group<UniverseKey, Movie>>): seq<(Option<string>, SubUniverseCount)>
  {
    if |gs| == 0 then []
    else
      var g := gs[|gs| - 1];
      AsChildren(gs[..|gs| - 1]) + [(Nullable(g.key.universe), SubUniverseCount(g.key.subUniverse, |g.members|))]
  }

  /** Stage two: the pair groups regrouped by universe, pushing each as a child. */
  function UniverseGroups(movies: seq<Movie>): seq<Group<Option<string>, SubUniverseCount>>
  {
    GroupBy(AsChildren(PairGroups(movies)))
  }

  /** `$sum` of the children's counts. */
  function Total(cs: seq<SubUniverseCount>): nat
  {
    if |cs| == 0 then 0 else Total(cs[..|cs| - 1]) + cs[|cs| - 1].totalCount
  }

  /** The `$filter` that drops the sentinel child. */
  function Named(cs: seq<SubUniverseCount>): seq<SubUniverseCount>
  {
    if |cs| == 0 then []
    else
      var c := cs[|cs| - 1];
      Named(cs[..|cs| - 1]) + (if c.fieldValue != NoSubUniverse then [c] else [])
  }

  /** The `$sum` over `$map` that keeps only the sentinel child's count. */
  function Unnamed(cs: seq<SubUniverseCount>): nat
  {
    if |cs| == 0 then 0
    else
      var c := cs[|cs| - 1];
      Unnamed(cs[..|cs| - 1]) + (if c.fieldValue == NoSubUniverse then c.totalCount else 0)
  }

  /** Stage three, the `$project`. */
  function Project(g: Group<Option<string>, SubUniverseCount>): UniverseEntry
  {
    UniverseEntry(g.key, Total(g.members), Named(g.members), Unnamed(g.members))
  }

  function UniverseFacet(movies: seq<Movie>): (r: seq<UniverseEntry>)
    ensures |r| == |UniverseGroups(movies)|
    ensures forall i :: 0 <= i < |r| ==> r[i] == Project(UniverseGroups(movies)[i])
  {
    var gs := UniverseGroups(movies);
    seq(|gs|, i requires 0 <= i < |gs| => Project(gs[i]))
  }

  // The counts the facet reports, stated on the movies themselves.

  /** Movies of universe `u` (None: no universe). */
  function InUniverse(movies: seq<Movie>, u: Option<string>): nat
  {
    if |movies| == 0 then 0
    else InUniverse(movies[..|movies| - 1], u) + (if Nullable(movies[|movies| - 1].universe) == u then 1 else 0)
  }

  /** Movies of universe `u` with no sub-universe (missing, or the sentinel text itself). */
  function WithoutSubUniverse(movies: seq<Movie>, u: Option<string>): nat
  {
    if |movies| == 0 then 0
    else
      var m := movies[|movies| - 1];
      WithoutSubUniverse(movies[..|movies| - 1], u) +
      (if Nullable(m.universe) == u && (m.subUniverse.None? || m.subUniverse == Some(NoSubUniverse)) then 1 else 0)
  }

  /** Movies whose universe is stored as `v` and whose sub-universe is `s`. */
  function InSubUniverse(movies: seq<Movie>, v: Stored, s: string): nat
  {
    if |movies| == 0 then 0
    else
      var m := movies[|movies| - 1];
      InSubUniverse(movies[..|movies| - 1], v, s) + (if m.universe == v && m.subUniverse == Some(s) then 1 else 0)
  }

  function UniverseIs(u: Option<string>): UniverseKey -> bool
  {
    (k: UniverseKey) => Nullable(k.universe) == u
  }

  /** The pair keys of universe `u` whose sub-universe is the sentinel. */
  function UnnamedOf(u: Option<string>): UniverseKey -> bool
  {
    (k: UniverseKey) => Nullable(k.universe) == u && k.subUniverse == NoSubUniverse
  }

  lemma {:induction false} KeyedUniverseCount(movies: seq<Movie>, u: Option<string>)
    ensures CountWhere(Keyed(movies), UniverseIs(u)) == InUniverse(movies, u)
  {
    if |movies| > 0 {
      KeyedUniverseCount(movies[..|movies| - 1], u);
      assert Keyed(movies)[..|movies| - 1] == Keyed(movies[..|movies| - 1]) by { KeyedLength(movies[..|movies| - 1]); }
    }
  }

  lemma {:induction false} KeyedLength(movies: seq<Movie>)
    ensures |Keyed(movies)| == |movies|
  {
    if |movies| > 0 {
      KeyedLength(movies[..|movies| - 1]);
    }
  }

  lemma {:induction false} KeyedPairCount(movies: seq<Movie>, v: Stored, s: string)
    requires s != NoSubUniverse
    ensures CountWhere(Keyed(movies), KeyIs(UniverseKey(v, s))) == InSubUniverse(movies, v, s)
  {
    if |movies| > 0 {
      KeyedPairCount(movies[..|movies| - 1], v, s);
      assert Keyed(movies)[..|movies| - 1] == Keyed(movies[..|movies| - 1]) by { KeyedLength(movies[..|movies| - 1]); }
    }
  }

  lemma {:induction false} KeyedUnnamedCount(movies: seq<Movie>, u: Option<string>)
    ensures CountWhere(Keyed(movies), UnnamedOf(u)) == WithoutSubUniverse(movies, u)
  {
    if |movies| > 0 {
      KeyedUnnamedCount(movies[..|movies| - 1], u);
      assert Keyed(movies)[..|movies| - 1] == Keyed(movies[..|movies| - 1]) by { KeyedLength(movies[..|movies| - 1]); }
    }
  }

  /** Stage two's children of `u` total the stage-one counts of the pairs with universe `u`. */
  lemma {:induction false} ChildrenTotal(gs: seq<Group<UniverseKey, Movie>>, u: Option<string>)
    ensures Total(Select(AsChildren(gs), u)) == SizeWhere(gs, UniverseIs(u))
  {
    if |gs| > 0 {
      var init := gs[..|gs| - 1];
      var g := gs[|gs| - 1];
      ChildrenTotal(init, u);
      SelectChildrenLast(gs, u);
      assert SizeWhere(gs, UniverseIs(u)) ==
        SizeWhere(init, UniverseIs(u)) + (if Nullable(g.key.universe) == u then |g.members| else 0);
      if Nullable(g.key.universe) == u {
        TotalSnoc(Select(AsChildren(init), u), SubUniverseCount(g.key.subUniverse, |g.members|));
        assert UniverseIs(u)(g.key);
      } else {
        assert Select(AsChildren(gs), u) == Select(AsChildren(init), u);
        assert !UniverseIs(u)(g.key);
      }
    }
  }

  /** The sentinel part of `u`'s children is the stage-one count of `u`'s sentinel pairs. */
  lemma {:induction false} ChildrenUnnamed(gs: seq<Group<UniverseKey, Movie>>, u: Option<string>)
    ensures Unnamed(Select(AsChildren(gs), u)) == SizeWhere(gs, UnnamedOf(u))
  {
    if |gs| > 0 {
      var init := gs[..|gs| - 1];
      var g := gs[|gs| - 1];
      ChildrenUnnamed(init, u);
      SelectChildrenLast(gs, u);
      assert SizeWhere(gs, UnnamedOf(u)) ==
        SizeWhere(init, UnnamedOf(u)) + (if UnnamedOf(u)(g.key) then |g.members| else 0);
      if Nullable(g.key.universe) == u {
        UnnamedSnoc(Select(AsChildren(init), u), SubUniverseCount(g.key.subUniverse, |g.members|));
        assert UnnamedOf(u)(g.key) <==> g.key.subUniverse == NoSubUniverse;
      } else {
        assert Select(AsChildren(gs), u) == Select(AsChildren(init), u);
        assert !UnnamedOf(u)(g.key);
      }
    }
  }

  /** The children of `u` after one more stage-one group: the earlier ones, then that group's if it is of `u`. */
  lemma SelectChildrenLast(gs: seq<Group<UniverseKey, Movie>>, u: Option<string>)
    requires |gs| > 0
    ensures var g := gs[|gs| - 1];
      Select(AsChildren(gs), u) == Select(AsChildren(gs[..|gs| - 1]), u) +
        (if Nullable(g.key.universe) == u then [SubUniverseCount(g.key.subUniverse, |g.members|)] else [])
  {
    var xs := AsChildren(gs);
    AsChildrenLast(gs);
    SelectLast(xs, u);
  }

  lemma TotalSnoc(cs: seq<SubUniverseCount>, c: SubUniverseCount)
    ensures Total(cs + [c]) == Total(cs) + c.totalCount
  {
    assert (cs + [c])[..|cs|] == cs;
  }

  lemma UnnamedSnoc(cs: seq<SubUniverseCount>, c: SubUniverseCount)
    ensures Unnamed(cs + [c]) == Unnamed(cs) + (if c.fieldValue == NoSubUniverse then c.totalCount else 0)
  {
    assert (cs + [c])[..|cs|] == cs;
  }

  lemma {:induction false} AsChildrenLength(gs: seq<Group<UniverseKey, Movie>>)
    ensures |AsChildren(gs)| == |gs|
  {
    if |gs| > 0 {
      AsChildrenLength(gs[..|gs| - 1]);
    }
  }

  /** Every child of `u` comes from a stage-one group of universe `u`, and every such group gives one. */
  lemma {:induction false} ChildrenFrom(gs: seq<Group<UniverseKey, Movie>>, u: Option<string>, c: SubUniverseCount)
    ensures c in Select(AsChildren(gs), u) <==>
      exists t :: 0 <= t < |gs| && Nullable(gs[t].key.universe) == u &&
        c == SubUniverseCount(gs[t].key.subUniverse, |gs[t].members|)
  {
    if |gs| > 0 {
      var init := gs[..|gs| - 1];
      ChildrenFrom(init, u, c);
      assert AsChildren(gs)[..|gs| - 1] == AsChildren(init) by { AsChildrenLength(init); }
      assert forall t :: 0 <= t < |init| ==> init[t] == gs[t];
    }
  }

  /**
    * Children of one named universe carry distinct sub-universe names. (Under null they
    * need not: see `NullUniverseSplits`.)
    */
  lemma {:induction false} ChildrenDistinct(gs: seq<Group<UniverseKey, Movie>>, u: Option<string>)
    requires DistinctKeys(gs) && u.Some?
    ensures var cs := Select(AsChildren(gs), u);
      forall i, j :: 0 <= i < j < |cs| ==> cs[i].fieldValue != cs[j].fieldValue
  {
    if |gs| > 0 {
      var init := gs[..|gs| - 1];
      var g := gs[|gs| - 1];
      ChildrenDistinct(init, u);
      var sel := Select(AsChildren(init), u);
      SelectChildrenLast(gs, u);
      if Nullable(g.key.universe) == u {
        var c := SubUniverseCount(g.key.subUniverse, |g.members|);
        assert Select(AsChildren(gs), u) == sel + [c];
        forall i | 0 <= i < |sel|
          ensures sel[i].fieldValue != c.fieldValue
        {
          EarlierChildDiffers(gs, u, sel[i]);
        }
      } else {
        assert Select(AsChildren(gs), u) == sel;
      }
    }
  }

  lemma AsChildrenLast(gs: seq<Group<UniverseKey, Movie>>)
    requires |gs| > 0
    ensures |AsChildren(gs)| == |gs|
    ensures var g := gs[|gs| - 1];
      AsChildren(gs) == AsChildren(gs[..|gs| - 1]) + [(Nullable(g.key.universe), SubUniverseCount(g.key.subUniverse, |g.members|))]
    ensures AsChildren(gs)[..|gs| - 1] == AsChildren(gs[..|gs| - 1])
  {
    AsChildrenLength(gs[..|gs| - 1]);
  }

  /** A child of `u` pushed before the last group differs in name from the last group's, if that is of `u` too. */
  lemma EarlierChildDiffers(gs: seq<Group<UniverseKey, Movie>>, u: Option<string>, c: SubUniverseCount)
    requires |gs| > 0 && DistinctKeys(gs) && u.Some? && Nullable(gs[|gs| - 1].key.universe) == u
    requires c in Select(AsChildren(gs[..|gs| - 1]), u)
    ensures c.fieldValue != gs[|gs| - 1].key.subUniverse
  {
    var init := gs[..|gs| - 1];
    ChildrenFrom(init, u, c);
    var t :| 0 <= t < |init| && Nullable(init[t].key.universe) == u &&
      c == SubUniverseCount(init[t].key.subUniverse, |init[t].members|);
    assert init[t] == gs[t];
    assert gs[t].key.universe == gs[|gs| - 1].key.universe == Text(u.value);
    assert gs[t].key != gs[|gs| - 1].key;
  }

  /** The facet's counts split into the named children and the sentinel count. */
  lemma {:induction false} TotalSplits(cs: seq<SubUniverseCount>)
    ensures Total(cs) == Total(Named(cs)) + Unnamed(cs)
    ensures forall c | c in Named(cs) :: c.fieldValue != NoSubUniverse && c in cs
  {
    if |cs| > 0 {
      var init := cs[..|cs| - 1];
      var c := cs[|cs| - 1];
      TotalSplits(init);
      if c.fieldValue != NoSubUniverse {
        assert Named(cs) == Named(init) + [c];
        TotalSnoc(Named(init), c);
      } else {
        assert Named(cs) == Named(init);
      }
    }
  }

  /** A named child is kept exactly when it is a child and is not the sentinel. */
  lemma {:induction false} NamedMembers(cs: seq<SubUniverseCount>, c: SubUniverseCount)
    ensures c in Named(cs) <==> c in cs && c.fieldValue != NoSubUniverse
  {
    if |cs| > 0 {
      NamedMembers(cs[..|cs| - 1], c);
      assert cs == cs[..|cs| - 1] + [cs[|cs| - 1]];
    }
  }

  /** Dropping children keeps their names distinct. */
  lemma {:induction false} NamedDistinct(cs: seq<SubUniverseCount>)
    requires forall i, j :: 0 <= i < j < |cs| ==> cs[i].fieldValue != cs[j].fieldValue
    ensures forall i, j :: 0 <= i < j < |Named(cs)| ==> Named(cs)[i].fieldValue != Named(cs)[j].fieldValue
  {
    if |cs| > 0 {
      var init := cs[..|cs| - 1];
      var c := cs[|cs| - 1];
      NamedDistinct(init);
      if c.fieldValue != NoSubUniverse {
        forall i | 0 <= i < |Named(init)|
          ensures Named(init)[i].fieldValue != c.fieldValue
        {
          NamedMembers(init, Named(init)[i]);
          var k :| 0 <= k < |init| && init[k] == Named(init)[i];
          assert cs[k] == init[k];
        }
      }
    }
  }

  /**
    * Each universe's `totalCount` is the number of its movies, and equals the counts of its
    * named sub-universes plus `noSubUniverseCount`, which counts the movies of the universe
    * without a sub-universe. No child is the sentinel, and each child counts the movies of
    * one stored universe value and that sub-universe. For a named universe the stored value
    * is its text, so a child counts all the universe's movies of that sub-universe and
    * children have distinct names.
    */
  lemma UniverseEntrySpec(movies: seq<Movie>, i: int)
    requires 0 <= i < |UniverseFacet(movies)|
    ensures var e := UniverseFacet(movies)[i];
      && e.totalCount == InUniverse(movies, e.fieldValue)
      && e.totalCount == Total(e.subUniverses) + e.noSubUniverseCount
      && e.noSubUniverseCount == WithoutSubUniverse(movies, e.fieldValue)
      && (forall c | c in e.subUniverses ::
            c.fieldValue != NoSubUniverse && c.totalCount > 0 &&
            exists v :: Nullable(v) == e.fieldValue && c.totalCount == InSubUniverse(movies, v, c.fieldValue))
      && (e.fieldValue.Some? ==> forall c | c in e.subUniverses ::
            c.totalCount == InSubUniverse(movies, Text(e.fieldValue.value), c.fieldValue))
      && (e.fieldValue.Some? ==> forall j, k :: 0 <= j < k < |e.subUniverses| ==>
            e.subUniverses[j].fieldValue != e.subUniverses[k].fieldValue)
  {
    UniverseEntryCounts(movies, i);
    UniverseEntryChildren(movies, i);
  }

  /** The entry as stage three projects the `i`-th stage-two group. */
  lemma UniverseEntryOf(movies: seq<Movie>, i: int)
    requires 0 <= i < |UniverseFacet(movies)|
    ensures var gs2 := UniverseGroups(movies);
      i < |gs2| && UniverseFacet(movies)[i] == Project(gs2[i]) &&
      gs2[i].members == Select(AsChildren(PairGroups(movies)), gs2[i].key)
  {
    GroupBySpec(AsChildren(PairGroups(movies)));
  }

  lemma UniverseEntryCounts(movies: seq<Movie>, i: int)
    requires 0 <= i < |UniverseFacet(movies)|
    ensures var e := UniverseFacet(movies)[i];
      && e.totalCount == InUniverse(movies, e.fieldValue)
      && e.totalCount == Total(e.subUniverses) + e.noSubUniverseCount
      && e.noSubUniverseCount == WithoutSubUniverse(movies, e.fieldValue)
  {
    var gs1 := PairGroups(movies);
    UniverseEntryOf(movies, i);
    var u := UniverseGroups(movies)[i].key;
    var cs := Select(AsChildren(gs1), u);
    ChildrenTotal(gs1, u);
    ChildrenUnnamed(gs1, u);
    GroupSizes(Keyed(movies), UniverseIs(u));
    GroupSizes(Keyed(movies), UnnamedOf(u));
    KeyedUniverseCount(movies, u);
    KeyedUnnamedCount(movies, u);
    TotalSplits(cs);
  }

  lemma UniverseEntryChildren(movies: seq<Movie>, i: int)
    requires 0 <= i < |UniverseFacet(movies)|
    ensures var e := UniverseFacet(movies)[i];
      && (forall c | c in e.subUniverses ::
            c.fieldValue != NoSubUniverse && c.totalCount > 0 &&
            exists v :: Nullable(v) == e.fieldValue && c.totalCount == InSubUniverse(movies, v, c.fieldValue))
      && (e.fieldValue.Some? ==> forall c | c in e.subUniverses ::
            c.totalCount == InSubUniverse(movies, Text(e.fieldValue.value), c.fieldValue))
      && (e.fieldValue.Some? ==> forall j, k :: 0 <= j < k < |e.subUniverses| ==>
            e.subUniverses[j].fieldValue != e.subUniverses[k].fieldValue)
  {
    var gs1 := PairGroups(movies);
    UniverseEntryOf(movies, i);
    var e := UniverseFacet(movies)[i];
    var u := UniverseGroups(movies)[i].key;
    var cs := Select(AsChildren(gs1), u);
    TotalSplits(cs);
    GroupBySpec(Keyed(movies));
    if u.Some? {
      ChildrenDistinct(gs1, u);
      NamedDistinct(cs);
    }
    forall c | c in e.subUniverses
      ensures c.fieldValue != NoSubUniverse && c.totalCount > 0
      ensures exists v :: Nullable(v) == u && c.totalCount == InSubUniverse(movies, v, c.fieldValue)
      ensures u.Some? ==> c.totalCount == InSubUniverse(movies, Text(u.value), c.fieldValue)
    {
      NamedMembers(cs, c);
      ChildrenFrom(gs1, u, c);
      var t :| 0 <= t < |gs1| && Nullable(gs1[t].key.universe) == u &&
        c == SubUniverseCount(gs1[t].key.subUniverse, |gs1[t].members|);
      var key := gs1[t].key;
      assert key == UniverseKey(key.universe, c.fieldValue);
      assert gs1[t].members == Select(Keyed(movies), key);
      assert HasKey(gs1, key);
      SelectSize(Keyed(movies), key);
      KeyedPairCount(movies, key.universe, c.fieldValue);
      assert Nullable(key.universe) == u && c.totalCount == InSubUniverse(movies, key.universe, c.fieldValue);
    }
  }

  /** A movie with only a universe and a sub-universe set. */
  function UniverseOnly(universe: Stored, subUniverse: string): Movie
  {
    Movie(None, universe, Some(subUniverse), None, None, None, None, None, None, None, None, [], None)
  }

  /**
    * Under null, the facet can list one sub-universe twice with split counts: a movie
    * without a `Universe` field and one storing null fall into different stage-one groups,
    * which stage two then merges under null.
    */
  lemma NullUniverseSplits()
    ensures var movies := [UniverseOnly(Missing, "X"), UniverseOnly(Null, "X")];
      UniverseFacet(movies) ==
        [UniverseEntry(None, 2, [SubUniverseCount("X", 1), SubUniverseCount("X", 1)], 0)]
  {
    var movies := [UniverseOnly(Missing, "X"), UniverseOnly(Null, "X")];
    var c := SubUniverseCount("X", 1);
    SplitStageOne(movies);
    SplitStageTwo(movies, c);
    SplitStageThree(c);
  }

  lemma SplitStageOne(movies: seq<Movie>)
    requires movies == [UniverseOnly(Missing, "X"), UniverseOnly(Null, "X")]
    ensures PairGroups(movies) ==
      [Group(UniverseKey(Missing, "X"), [movies[0]]), Group(UniverseKey(Null, "X"), [movies[1]])]
  {
    var k1 := UniverseKey(Missing, "X");
    var k2 := UniverseKey(Null, "X");
    assert movies[..1] == [movies[0]];
    assert Keyed(movies[..1]) == [(k1, movies[0])];
    var xs := Keyed(movies);
    assert xs == [(k1, movies[0]), (k2, movies[1])];
    assert xs[..1] == [(k1, movies[0])];
    assert GroupBy(xs[..1]) == [Group(k1, [movies[0]])] by {
      assert xs[..1][..0] == [];
    }
    assert IndexOfKey([Group(k1, [movies[0]])], k2) == -1;
  }

  lemma SplitStageTwo(movies: seq<Movie>, c: SubUniverseCount)
    requires movies == [UniverseOnly(Missing, "X"), UniverseOnly(Null, "X")]
    requires PairGroups(movies) ==
      [Group(UniverseKey(Missing, "X"), [movies[0]]), Group(UniverseKey(Null, "X"), [movies[1]])]
    requires c == SubUniverseCount("X", 1)
    ensures UniverseGroups(movies) == [Group(None, [c, c])]
  {
    SplitChildren(PairGroups(movies), c);
    SplitRegroup(c);
  }

  lemma SplitChildren(gs1: seq<Group<UniverseKey, Movie>>, c: SubUniverseCount)
    requires |gs1| == 2 && gs1[0].key == UniverseKey(Missing, "X") && gs1[1].key == UniverseKey(Null, "X")
    requires |gs1[0].members| == 1 && |gs1[1].members| == 1
    requires c == SubUniverseCount("X", 1)
    ensures AsChildren(gs1) == [(None, c), (None, c)]
  {
    assert gs1[..1] == [gs1[0]];
    assert AsChildren(gs1[..1]) == [(None, c)] by {
      assert gs1[..1][..0] == [];
    }
  }

  lemma SplitRegroup(c: SubUniverseCount)
    ensures var none: Option<string> := None; GroupBy([(none, c), (none, c)]) == [Group(none, [c, c])]
  {
    var xs2: seq<(Option<string>, SubUniverseCount)> := [(None, c), (None, c)];
    assert xs2[..1] == [(None, c)];
    assert GroupBy(xs2[..1]) == [Group(None, [c])] by {
      assert xs2[..1][..0] == [];
    }
    var g: Group<Option<string>, SubUniverseCount> := Group(None, [c]);
    assert IndexOfKey([g], None) == 0;
    assert Add([g], None, c) == [Group(None, [c] + [c])];
    assert [c] + [c] == [c, c];
  }

  lemma SplitStageThree(c: SubUniverseCount)
    requires c == SubUniverseCount("X", 1)
    ensures Project(Group(None, [c, c])) == UniverseEntry(None, 2, [c, c], 0)
  {
    var cs := [c, c];
    assert c.fieldValue != NoSubUniverse;
    assert cs[..1] == [c];
    assert cs[..1][..0] == [];
    assert Total(cs[..1]) == 1 && Named(cs[..1]) == [c] && Unnamed(cs[..1]) == 0;
    assert Named(cs) == [c] + [c];
  }

  /** A universe is listed only when some movie belongs to it. */
  lemma ListedUniverseHasMovies(movies: seq<Movie>, i: int)
    requires 0 <= i < |UniverseFacet(movies)|
    ensures InUniverse(movies, UniverseFacet(movies)[i].fieldValue) > 0
  {
    var gs1 := PairGroups(movies);
    var xs2 := AsChildren(gs1);
    var u := UniverseGroups(movies)[i].key;
    GroupBySpec(xs2);
    assert HasKey(GroupBy(xs2), u);
    var c := Select(xs2, u)[0];
    ChildrenFrom(gs1, u, c);
    var t :| 0 <= t < |gs1| && Nullable(gs1[t].key.universe) == u &&
      c == SubUniverseCount(gs1[t].key.subUniverse, |gs1[t].members|);
    GroupBySpec(Keyed(movies));
    assert HasKey(gs1, gs1[t].key);
    SizeWherePositiveOf(gs1, UniverseIs(u), t);
    GroupSizes(Keyed(movies), UniverseIs(u));
    KeyedUniverseCount(movies, u);
  }

  /** Every universe some movie belongs to is listed. */
  lemma UniverseWithMoviesListed(movies: seq<Movie>, u: Option<string>)
    requires InUniverse(movies, u) > 0
    ensures exists i :: 0 <= i < |UniverseFacet(movies)| && UniverseFacet(movies)[i].fieldValue == u
  {
    var gs1 := PairGroups(movies);
    var t := PairGroupOfUniverse(movies, u);
    ChildrenFrom(gs1, u, SubUniverseCount(gs1[t].key.subUniverse, |gs1[t].members|));
    var xs2 := AsChildren(gs1);
    GroupBySpec(xs2);
    var gs2 := GroupBy(xs2);
    assert HasKey(gs2, u);
    var i :| 0 <= i < |gs2| && gs2[i].key == u;
    assert UniverseFacet(movies)[i].fieldValue == u;
  }

  /** A universe with movies has a stage-one group. */
  lemma PairGroupOfUniverse(movies: seq<Movie>, u: Option<string>) returns (t: int)
    requires InUniverse(movies, u) > 0
    ensures 0 <= t < |PairGroups(movies)| && Nullable(PairGroups(movies)[t].key.universe) == u
  {
    KeyedUniverseCount(movies, u);
    GroupSizes(Keyed(movies), UniverseIs(u));
    SizeWherePositive(PairGroups(movies), UniverseIs(u));
    t :| 0 <= t < |PairGroups(movies)| && UniverseIs(u)(PairGroups(movies)[t].key);
  }

  /**
    * The facet lists each universe once, and lists a universe (None standing for movies
    * without one) exactly when some movie belongs to it.
    */
  lemma UniverseFacetKeys(movies: seq<Movie>, u: Option<string>)
    ensures (exists i :: 0 <= i < |UniverseFacet(movies)| && UniverseFacet(movies)[i].fieldValue == u) <==>
            InUniverse(movies, u) > 0
    ensures forall i, j :: 0 <= i < j < |UniverseFacet(movies)| ==>
            UniverseFacet(movies)[i].fieldValue != UniverseFacet(movies)[j].fieldValue
  {
    GroupBySpec(AsChildren(PairGroups(movies)));
    if exists i :: 0 <= i < |UniverseFacet(movies)| && UniverseFacet(movies)[i].fieldValue == u {
      var i :| 0 <= i < |UniverseFacet(movies)| && UniverseFacet(movies)[i].fieldValue == u;
      ListedUniverseHasMovies(movies, i);
    }
    if InUniverse(movies, u) > 0 {
      UniverseWithMoviesListed(movies, u);
    }
  }

  /** A group with members and a key in `P` makes the size positive. */
  lemma {:induction false} SizeWherePositiveOf<K, V>(gs: seq<Group<K, V>>, P: K -> bool, t: int)
    requires 0 <= t < |gs| && P(gs[t].key) && |gs[t].members| > 0
    ensures SizeWhere(gs, P) > 0
  {
    if t < |gs| - 1 {
      SizeWherePositiveOf(gs[..|gs| - 1], P, t);
    }
  }

  // ---------------------------------------------------------------------------------
  // Director facet
  // ---------------------------------------------------------------------------------

  /** The least number of movies that puts a director in the facet (`$gte: 3`). */
  const MinDirectorMovies: nat := 3

  datatype DirectorCount = DirectorCount(fieldValue: Option<string>, totalCount: nat)

  function ByDirector(movies: seq<Movie>): seq<(Option<string>, Movie)>
  {
    if |movies| == 0 then []
    else ByDirector(movies[..|movies| - 1]) + [(movies[|movies| - 1].director, movies[|movies| - 1])]
  }

  /** The `$group` stage: one count per director, null for movies without one. */
  function DirectorCounts(movies: seq<Movie>): (r: seq<DirectorCount>)
    ensures |r| == |GroupBy(ByDirector(movies))|
    ensures forall i :: 0 <= i < |r| ==>
      r[i] == DirectorCount(GroupBy(ByDirector(movies))[i].key, |GroupBy(ByDirector(movies))[i].members|)
  {
    var gs := GroupBy(ByDirector(movies));
    seq(|gs|, i requires 0 <= i < |gs| => DirectorCount(gs[i].key, |gs[i].members|))
  }

  /** The `$match` stage. */
  function Frequent(cs: seq<DirectorCount>): seq<DirectorCount>
  {
    if |cs| == 0 then []
    else
      var c := cs[|cs| - 1];
      Frequent(cs[..|cs| - 1]) + (if c.totalCount >= MinDirectorMovies then [c] else [])
  }

  /** Places `c` before the first entry whose count it reaches. */
  function Insert(c: DirectorCount, sorted: seq<DirectorCount>): seq<DirectorCount>
  {
    if |sorted| == 0 || c.totalCount >= sorted[0].totalCount then [c] + sorted
    else [sorted[0]] + Insert(c, sorted[1..])
  }

  /** The `$sort` stage, by count descending (ties in input order). */
  function SortByCount(cs: seq<DirectorCount>): seq<DirectorCount>
  {
    if |cs| == 0 then [] else Insert(cs[0], SortByCount(cs[1..]))
  }

  function DirectorFacet(movies: seq<Movie>): seq<DirectorCount>
  {
    SortByCount(Frequent(DirectorCounts(movies)))
  }

  /** Movies directed by `d` (None: no director). */
  function MoviesBy(movies: seq<Movie>, d: Option<string>): nat
  {
    if |movies| == 0 then 0
    else MoviesBy(movies[..|movies| - 1], d) + (if movies[|movies| - 1].director == d then 1 else 0)
  }

  predicate NonIncreasing(cs: seq<DirectorCount>)
  {
    forall i, j :: 0 <= i < j < |cs| ==> cs[i].totalCount >= cs[j].totalCount
  }

  /** Inserting adds exactly one entry. */
  lemma {:induction false} InsertPermutes(c: DirectorCount, sorted: seq<DirectorCount>)
    ensures multiset(Insert(c, sorted)) == multiset(sorted) + multiset{c}
    decreases |sorted|
  {
    if |sorted| > 0 && c.totalCount < sorted[0].totalCount {
      InsertPermutes(c, sorted[1..]);
      assert sorted == [sorted[0]] + sorted[1..];
    }
  }

  /** Inserting into a non-increasing list keeps it non-increasing. */
  lemma {:induction false} InsertSorted(c: DirectorCount, sorted: seq<DirectorCount>)
    requires NonIncreasing(sorted)
    ensures NonIncreasing(Insert(c, sorted))
    decreases |sorted|
  {
    if |sorted| > 0 && c.totalCount < sorted[0].totalCount {
      var rest := Insert(c, sorted[1..]);
      InsertSorted(c, sorted[1..]);
      InsertPermutes(c, sorted[1..]);
      forall x | x in rest
        ensures x.totalCount <= sorted[0].totalCount
      {
        assert x in multiset(rest);
        assert x == c || x in sorted[1..];
      }
      ConsNonIncreasing(sorted[0], rest);
    }
  }

  lemma ConsNonIncreasing(h: DirectorCount, t: seq<DirectorCount>)
    requires NonIncreasing(t)
    requires forall x | x in t :: x.totalCount <= h.totalCount
    ensures NonIncreasing([h] + t)
  {
    var s := [h] + t;
    forall i, j | 0 <= i < j < |s|
      ensures s[i].totalCount >= s[j].totalCount
    {
      assert s[j] == t[j - 1];
      if i > 0 {
        assert s[i] == t[i - 1];
      }
    }
  }

  /** Sorting by count orders the entries non-increasingly and only reorders them. */
  lemma {:induction false} SortByCountSpec(cs: seq<DirectorCount>)
    ensures NonIncreasing(SortByCount(cs))
    ensures multiset(SortByCount(cs)) == multiset(cs)
  {
    if |cs| > 0 {
      SortByCountSpec(cs[1..]);
      InsertSorted(cs[0], SortByCount(cs[1..]));
      InsertPermutes(cs[0], SortByCount(cs[1..]));
      assert cs == [cs[0]] + cs[1..];
    }
  }

  lemma {:induction false} FrequentMembers(cs: seq<DirectorCount>, c: DirectorCount)
    ensures c in Frequent(cs) <==> c in cs && c.totalCount >= MinDirectorMovies
  {
    if |cs| > 0 {
      FrequentMembers(cs[..|cs| - 1], c);
      assert cs == cs[..|cs| - 1] + [cs[|cs| - 1]];
    }
  }

  lemma {:induction false} FrequentDistinct(cs: seq<DirectorCount>)
    requires forall i, j :: 0 <= i < j < |cs| ==> cs[i].fieldValue != cs[j].fieldValue
    ensures forall i, j :: 0 <= i < j < |Frequent(cs)| ==> Frequent(cs)[i].fieldValue != Frequent(cs)[j].fieldValue
  {
    if |cs| > 0 {
      var init := cs[..|cs| - 1];
      var c := cs[|cs| - 1];
      FrequentDistinct(init);
      if c.totalCount >= MinDirectorMovies {
        forall i | 0 <= i < |Frequent(init)|
          ensures Frequent(init)[i].fieldValue != c.fieldValue
        {
          FrequentMembers(init, Frequent(init)[i]);
          var k :| 0 <= k < |init| && init[k] == Frequent(init)[i];
          assert cs[k] == init[k];
        }
      }
    }
  }

  lemma {:induction false} ByDirectorCount(movies: seq<Movie>, d: Option<string>)
    ensures CountWhere(ByDirector(movies), KeyIs(d)) == MoviesBy(movies, d)
    ensures |ByDirector(movies)| == |movies|
  {
    if |movies| > 0 {
      ByDirectorCount(movies[..|movies| - 1], d);
      assert ByDirector(movies)[..|movies| - 1] == ByDirector(movies[..|movies| - 1]);
    }
  }

  /** The `$group` counts: each director once, with the number of their movies. */
  lemma DirectorCountsSpec(movies: seq<Movie>, d: Option<string>)
    ensures forall c | c in DirectorCounts(movies) :: c.totalCount == MoviesBy(movies, c.fieldValue)
    ensures (exists c :: c in DirectorCounts(movies) && c.fieldValue == d) <==> MoviesBy(movies, d) > 0
    ensures forall i, j :: 0 <= i < j < |DirectorCounts(movies)| ==>
      DirectorCounts(movies)[i].fieldValue != DirectorCounts(movies)[j].fieldValue
  {
    var xs := ByDirector(movies);
    var gs := GroupBy(xs);
    var cs := DirectorCounts(movies);
    GroupBySpec(xs);
    forall c | c in cs
      ensures c.totalCount == MoviesBy(movies, c.fieldValue)
    {
      var i :| 0 <= i < |cs| && cs[i] == c;
      SelectSize(xs, gs[i].key);
      ByDirectorCount(movies, gs[i].key);
    }
    SelectSize(xs, d);
    ByDirectorCount(movies, d);
    if MoviesBy(movies, d) > 0 {
      assert HasKey(gs, d);
      var i :| 0 <= i < |gs| && gs[i].key == d;
      assert cs[i] in cs;
    }
  }

  /**
    * The director facet lists exactly the directors with at least three movies, each once
    * with the number of their movies, most movies first.
    */
  lemma DirectorFacetSpec(movies: seq<Movie>, d: Option<string>)
    ensures (exists c :: c in DirectorFacet(movies) && c.fieldValue == d) <==> MoviesBy(movies, d) >= MinDirectorMovies
    ensures forall c | c in DirectorFacet(movies) :: c.totalCount == MoviesBy(movies, c.fieldValue)
    ensures NonIncreasing(DirectorFacet(movies))
    ensures multiset(DirectorFacet(movies)) == multiset(Frequent(DirectorCounts(movies)))
    ensures forall i, j :: 0 <= i < j < |DirectorFacet(movies)| ==>
      DirectorFacet(movies)[i].fieldValue != DirectorFacet(movies)[j].fieldValue
  {
    var cs := DirectorCounts(movies);
    var fs := Frequent(cs);
    var r := DirectorFacet(movies);
    DirectorCountsSpec(movies, d);
    SortByCountSpec(fs);
    FrequentDistinct(cs);
    forall c
      ensures c in r <==> c in cs && c.totalCount >= MinDirectorMovies
    {
      FrequentMembers(cs, c);
      assert c in r <==> c in multiset(r);
      assert c in fs <==> c in multiset(fs);
    }
    DistinctAfterReorder(fs, r);
  }

  /** Reordering keeps distinct names distinct. */
  lemma DistinctAfterReorder(fs: seq<DirectorCount>, r: seq<DirectorCount>)
    requires multiset(r) == multiset(fs)
    requires forall i, j :: 0 <= i < j < |fs| ==> fs[i].fieldValue != fs[j].fieldValue
    ensures forall i, j :: 0 <= i < j < |r| ==> r[i].fieldValue != r[j].fieldValue
  {
    forall i, j | 0 <= i < j < |r|
      ensures r[i].fieldValue != r[j].fieldValue
    {
      if r[i].fieldValue == r[j].fieldValue {
        assert r[i] in multiset(fs) && r[j] in multiset(fs);
        var a :| 0 <= a < |fs| && fs[a] == r[i];
        var b :| 0 <= b < |fs| && fs[b] == r[j];
        assert a == b;
        assert r[i] == r[j];
        TwoCopies(r, i, j);
        assert multiset(fs)[fs[a]] >= 2;
        OneCopy(fs, a);
        assert false;
      }
    }
  }

  lemma TwoCopies(r: seq<DirectorCount>, i: int, j: int)
    requires 0 <= i < j < |r| && r[i] == r[j]
    ensures multiset(r)[r[i]] >= 2
  {
    assert r == r[..i] + [r[i]] + r[i + 1..j] + [r[j]] + r[j + 1..];
  }

  lemma OneCopy(fs: seq<DirectorCount>, a: int)
    requires 0 <= a < |fs|
    requires forall i, j :: 0 <= i < j < |fs| ==> fs[i].fieldValue != fs[j].fieldValue
    ensures multiset(fs)[fs[a]] == 1
  {
    assert fs == fs[..a] + [fs[a]] + fs[a + 1..];
    assert fs[a] !in fs[..a];
    assert fs[a] !in fs[a + 1..];
  }
}
