/**
  * What the listing filter means: which requests are refused and why, which clauses a
  * request produces and in which order, and which movies the filter selects, stated
  * independently of how the handler assembles it.
  */
module ListSemantics {
  import opened Wrappers
  import opened Strconv
  import opened Query
  import opened Parsers
  import opened ListMovies

  // ---------------------------------------------------------------------------------
  // Validation
  // ---------------------------------------------------------------------------------

  predicate AllIntegers(strs: seq<string>)
  {
    forall i :: 0 <= i < |strs| ==> Atoi(strs[i]).Some?
  }

  predicate AllDecades(ds: seq<string>)
  {
    forall i :: 0 <= i < |ds| ==> DecadeBounds(ds[i]).Some?
  }

  /** No runtime at all, or exactly two integers. */
  predicate RuntimeAccepted(rs: seq<string>)
  {
    |rs| > 0 ==> |rs| == 2 && AllIntegers(rs)
  }

  /** The complaint the handler sends first, checking years, decades, runtime, providers in turn. */
  function FirstError(p: Params): Option<ListError>
  {
    if !AllIntegers(p.year) then Some(YearNotInteger)
    else if !AllDecades(p.decade) then Some(InvalidDecade)
    else if !RuntimeAccepted(p.runtime) then Some(InvalidRuntime)
    else if !AllIntegers(p.provider) then Some(ProviderNotId)
    else None
  }

  lemma ExpandDecadesSome(ds: seq<string>)
    ensures ExpandDecades(ds).Some? <==> AllDecades(ds)
  {
    ExpandDecadesFails(ds);
    forall i | 0 <= i < |ds|
      ensures DecadeYears(ds[i]).None? <==> DecadeBounds(ds[i]).None?
    {
    }
  }

  /**
    * A request is refused exactly when one of its values is malformed, and then with the
    * first complaint in the handler's order: a bad year wins over a bad decade, which wins
    * over a bad runtime, which wins over a bad provider.
    */
  lemma ListQueryErrors(p: Params)
    ensures ListQuery(p).Failure? <==> FirstError(p).Some?
    ensures ListQuery(p).Failure? ==> ListQuery(p).error == FirstError(p).value
  {
    ParseAllSpec(p.year);
    ParseAllSpec(p.runtime);
    ParseAllSpec(p.provider);
    ExpandDecadesSome(p.decade);
  }

  // ---------------------------------------------------------------------------------
  // The clauses
  // ---------------------------------------------------------------------------------

  /** The parsed values of an accepted request. */
  function Env(p: Params): (env: Parsed)
    requires ListQuery(p).Success?
    ensures ListQuery(p) == Success(Conjoin(ClausesFrom(p, env, FilterOrder)))
  {
    var years := YearList(p.year, p.decade).value;
    var (low, high) := if |p.runtime| > 0 then RuntimeBounds(p.runtime).value else (0, 0);
    Parsed(years, low, high, ParseAll(p.provider).value)
  }

  /** The active filters among `fs`, in the order of `fs`. */
  function ActiveIn(p: Params, fs: seq<Filter>): seq<Filter>
  {
    if |fs| == 0 then []
    else
      var last := fs[|fs| - 1];
      ActiveIn(p, fs[..|fs| - 1]) + (if Active(p, last) then [last] else [])
  }

  lemma {:induction false} ActiveInMembers(p: Params, fs: seq<Filter>, f: Filter)
    ensures f in ActiveIn(p, fs) <==> f in fs && Active(p, f)
  {
    if |fs| > 0 {
      var init := fs[..|fs| - 1];
      ActiveInMembers(p, init, f);
      assert fs == init + [fs[|fs| - 1]];
    }
  }

  predicate RanksIncrease(fs: seq<Filter>)
  {
    forall i, j :: 0 <= i < j < |fs| ==> Rank(fs[i]) < Rank(fs[j])
  }

  lemma {:induction false} ActiveInKeepsOrder(p: Params, fs: seq<Filter>)
    requires RanksIncrease(fs)
    ensures RanksIncrease(ActiveIn(p, fs))
  {
    if |fs| > 0 {
      var init := fs[..|fs| - 1];
      var last := fs[|fs| - 1];
      ActiveInKeepsOrder(p, init);
      var a := ActiveIn(p, init);
      forall i | 0 <= i < |a|
        ensures Rank(a[i]) < Rank(last)
      {
        ActiveInMembers(p, init, a[i]);
        var k :| 0 <= k < |init| && init[k] == a[i];
        assert fs[k] == a[i];
      }
    }
  }

  /** The `i`-th clause is the clause of the `i`-th active filter. */
  lemma {:induction false} ClausesOfActiveFilters(p: Params, env: Parsed, fs: seq<Filter>)
    ensures |ClausesFrom(p, env, fs)| == |ActiveIn(p, fs)|
    ensures forall i :: 0 <= i < |ActiveIn(p, fs)| ==>
      ClausesFrom(p, env, fs)[i] == Clause(p, env, ActiveIn(p, fs)[i])
  {
    if |fs| > 0 {
      ClausesOfActiveFilters(p, env, fs[..|fs| - 1]);
    }
  }

  function ActiveFilters(p: Params): seq<Filter>
  {
    ActiveIn(p, FilterOrder)
  }

  lemma FilterOrderComplete(f: Filter)
    ensures f in FilterOrder
    ensures RanksIncrease(FilterOrder)
  {
    assert forall i :: 0 <= i < |FilterOrder| ==> Rank(FilterOrder[i]) == i;
    match f
    case GenreFilter => assert FilterOrder[0] == f;
    case UniverseFilter => assert FilterOrder[1] == f;
    case ExclusiveFilter => assert FilterOrder[2] == f;
    case StudioFilter => assert FilterOrder[3] == f;
    case HolidayFilter => assert FilterOrder[4] == f;
    case YearFilter => assert FilterOrder[5] == f;
    case DirectorFilter => assert FilterOrder[6] == f;
    case RuntimeFilter => assert FilterOrder[7] == f;
    case ProviderFilter => assert FilterOrder[8] == f;
  }

  /** The clauses of the filter: `$and`'s list, or none for the empty filter. */
  function ClauseList(q: Query): seq<Query>
  {
    match q
    case And(cs) => cs
    case _ => []
  }

  /**
    * Each given parameter contributes exactly one clause, in the handler's order (genre,
    * universe, exclusive, studio, holiday, year, director, runtime, provider); with no
    * parameter the filter is the empty one, never an empty `$and`.
    */
  lemma ListQueryClauses(p: Params)
    requires ListQuery(p).Success?
    ensures forall f :: f in ActiveFilters(p) <==> Active(p, f)
    ensures RanksIncrease(ActiveFilters(p))
    ensures var cs := ClauseList(ListQuery(p).value);
      |cs| == |ActiveFilters(p)| &&
      forall i :: 0 <= i < |cs| ==> cs[i] == Clause(p, Env(p), ActiveFilters(p)[i])
    ensures ListQuery(p).value == MatchAll <==> forall f :: !Active(p, f)
    ensures ListQuery(p).value != MatchAll ==> ListQuery(p).value.And?
  {
    ActiveFiltersMembers(p);
    FilterOrderComplete(GenreFilter);
    ActiveInKeepsOrder(p, FilterOrder);
    ActiveClauses(p);
  }

  /** A filter is among the active ones exactly when its parameter is given. */
  lemma ActiveFiltersMembers(p: Params)
    ensures forall f :: f in ActiveFilters(p) <==> Active(p, f)
  {
    forall f
      ensures f in ActiveFilters(p) <==> Active(p, f)
    {
      FilterOrderComplete(f);
      ActiveInMembers(p, FilterOrder, f);
    }
  }

  lemma ActiveClauses(p: Params)
    requires ListQuery(p).Success?
    requires forall f :: f in ActiveFilters(p) <==> Active(p, f)
    ensures var cs := ClauseList(ListQuery(p).value);
      |cs| == |ActiveFilters(p)| &&
      forall i :: 0 <= i < |cs| ==> cs[i] == Clause(p, Env(p), ActiveFilters(p)[i])
    ensures ListQuery(p).value == MatchAll <==> forall f :: !Active(p, f)
    ensures ListQuery(p).value != MatchAll ==> ListQuery(p).value.And?
  {
    var env := Env(p);
    var cs := ClausesFrom(p, env, FilterOrder);
    ClausesOfActiveFilters(p, env, FilterOrder);
    assert ListQuery(p).value == Conjoin(cs);
    if |cs| > 0 {
      assert Active(p, ActiveFilters(p)[0]);
    }
  }

  // ---------------------------------------------------------------------------------
  // Matching
  // ---------------------------------------------------------------------------------

  /** A present string field whose value is one of `vs`. */
  predicate Listed(v: Option<string>, vs: seq<string>)
  {
    v.Some? && v.value in vs
  }

  /** Year `y` lies in the decade string `d`, both ends included. */
  predicate InDecade(d: string, y: int)
  {
    DecadeBounds(d).Some? && DecadeBounds(d).value.0 <= y <= DecadeBounds(d).value.1
  }

  /** Year `y` was asked for, as a year or inside one of the decades. */
  predicate YearRequested(p: Params, y: int)
  {
    (exists i :: 0 <= i < |p.year| && Atoi(p.year[i]) == Some(y)) ||
    (exists j :: 0 <= j < |p.decade| && InDecade(p.decade[j], y))
  }

  predicate ProviderRequested(p: Params, id: int)
  {
    exists i :: 0 <= i < |p.provider| && Atoi(p.provider[i]) == Some(id)
  }

  /** `r` lies strictly between the two runtime values, whichever order they were given in. */
  predicate RuntimeInside(p: Params, r: int)
  {
    |p.runtime| == 2 && Atoi(p.runtime[0]).Some? && Atoi(p.runtime[1]).Some? &&
    var a, b := Atoi(p.runtime[0]).value, Atoi(p.runtime[1]).value;
    (a < r < b) || (b < r < a)
  }

  /** What each filter asks of a movie. */
  predicate Holds(p: Params, f: Filter, m: Movie)
  {
    match f
    case GenreFilter => Listed(m.genre, p.genre) || Listed(m.genre2, p.genre)
    case UniverseFilter => Listed(Nullable(m.universe), p.universe) || Listed(m.subUniverse, p.universe)
    case ExclusiveFilter => Listed(m.exclusive, p.exclusive)
    case StudioFilter => Listed(m.studio, p.studio)
    case HolidayFilter => Listed(m.holiday, p.holiday)
    case YearFilter => m.year.Some? && YearRequested(p, m.year.value)
    case DirectorFilter => Listed(m.director, p.director)
    case RuntimeFilter => m.runtime.Some? && RuntimeInside(p, m.runtime.value)
    case ProviderFilter =>
      exists k :: 0 <= k < |m.flatrate| && ProviderRequested(p, m.flatrate[k].providerId)
  }

  /** A movie meets every filter the request switched on. */
  predicate Satisfies(p: Params, m: Movie)
  {
    forall f :: Active(p, f) ==> Holds(p, f, m)
  }

  lemma {:induction false} ExpandDecadesMembers(ds: seq<string>, y: int)
    requires ExpandDecades(ds).Some?
    ensures y in ExpandDecades(ds).value <==> exists j :: 0 <= j < |ds| && InDecade(ds[j], y)
  {
    if |ds| > 0 {
      var init := ds[..|ds| - 1];
      var last := ds[|ds| - 1];
      ExpandDecadesMembers(init, y);
      DecadeYearsShape(last);
      if exists j :: 0 <= j < |init| && InDecade(init[j], y) {
        var j :| 0 <= j < |init| && InDecade(init[j], y);
        assert ds[j] == init[j];
      }
      if exists j :: 0 <= j < |ds| && InDecade(ds[j], y) {
        var j :| 0 <= j < |ds| && InDecade(ds[j], y);
        if j < |ds| - 1 {
          assert init[j] == ds[j];
        }
      }
    }
  }

  lemma ParsedMembers(strs: seq<string>, v: int)
    requires ParseAll(strs).Some?
    ensures v in ParseAll(strs).value <==> exists i :: 0 <= i < |strs| && Atoi(strs[i]) == Some(v)
  {
    ParseAllSpec(strs);
    var vs := ParseAll(strs).value;
    if v in vs {
      var i :| 0 <= i < |vs| && vs[i] == v;
      assert Atoi(strs[i]) == Some(v);
    }
  }

  lemma YearClauseMeaning(p: Params, years: seq<int>, m: Movie)
    requires YearList(p.year, p.decade) == Success(years)
    ensures Eval(InInt(Year, years), m) <==> Holds(p, YearFilter, m)
  {
    if m.year.Some? {
      var y := m.year.value;
      assert IntValues(m, Year) == [y];
      ParsedMembers(p.year, y);
      ExpandDecadesMembers(p.decade, y);
      assert y in years <==> YearRequested(p, y);
    }
  }

  lemma RuntimeClauseMeaning(p: Params, low: int, high: int, m: Movie)
    requires RuntimeBounds(p.runtime) == Some((low, high))
    ensures Eval(Between(Runtime, low, high), m) <==> Holds(p, RuntimeFilter, m)
  {
    BetweenScalar(m, low, high);
    ParseAllSpec(p.runtime);
  }

  lemma ProviderClauseMeaning(p: Params, providers: seq<int>, m: Movie)
    requires ParseAll(p.provider) == Some(providers)
    ensures Eval(InInt(FlatrateProviderId, providers), m) <==> Holds(p, ProviderFilter, m)
  {
    var ids := ProviderIds(m.flatrate);
    forall v
      ensures v in providers <==> ProviderRequested(p, v)
    {
      ParsedMembers(p.provider, v);
    }
    if Holds(p, ProviderFilter, m) {
      var k :| 0 <= k < |m.flatrate| && ProviderRequested(p, m.flatrate[k].providerId);
      assert ids[k] in IntValues(m, FlatrateProviderId);
    }
    if Eval(InInt(FlatrateProviderId, providers), m) {
      var v :| v in ids && v in providers;
      var k :| 0 <= k < |ids| && ids[k] == v;
      assert ProviderRequested(p, m.flatrate[k].providerId);
    }
  }

  lemma EitherFieldMeaning(f1: StrField, f2: StrField, vs: seq<string>, m: Movie)
    ensures Eval(Or([InStr(f1, vs), InStr(f2, vs)]), m) <==>
            Listed(StrValue(m, f1), vs) || Listed(StrValue(m, f2), vs)
  {
    var alts := [InStr(f1, vs), InStr(f2, vs)];
    assert alts[0] in alts && alts[1] in alts;
  }

  /** Each active filter's clause selects exactly the movies the filter asks for. */
  lemma ClauseMeaning(p: Params, f: Filter, m: Movie)
    requires ListQuery(p).Success? && Active(p, f)
    ensures Eval(Clause(p, Env(p), f), m) <==> Holds(p, f, m)
  {
    var env := Env(p);
    match f
    case GenreFilter => EitherFieldMeaning(Genre, Genre2, p.genre, m);
    case UniverseFilter => EitherFieldMeaning(Universe, SubUniverse, p.universe, m);
    case YearFilter => YearClauseMeaning(p, env.years, m);
    case RuntimeFilter => RuntimeClauseMeaning(p, env.low, env.high, m);
    case ProviderFilter => ProviderClauseMeaning(p, env.providers, m);
    case _ =>
  }

  /** The filter selects a movie exactly when every clause of an active filter does. */
  lemma {:induction false} EvalClauses(p: Params, env: Parsed, fs: seq<Filter>, m: Movie)
    ensures (forall c | c in ClausesFrom(p, env, fs) :: Eval(c, m)) <==>
            (forall k :: 0 <= k < |fs| && Active(p, fs[k]) ==> Eval(Clause(p, env, fs[k]), m))
  {
    if |fs| > 0 {
      var init := fs[..|fs| - 1];
      EvalClauses(p, env, init, m);
      assert forall k :: 0 <= k < |init| ==> init[k] == fs[k];
    }
  }

  /**
    * An accepted request's filter selects exactly the movies that satisfy every given
    * parameter: genre in `Genre` or `Genre_2`, universe in `Universe` or `Sub_Universe`,
    * the year among the years and decades, the runtime strictly inside the range, and one
    * streaming provider among the requested ids.
    */
  lemma ListQueryMeaning(p: Params, m: Movie)
    requires ListQuery(p).Success?
    ensures Eval(ListQuery(p).value, m) <==> Satisfies(p, m)
  {
    var env := Env(p);
    var cs := ClausesFrom(p, env, FilterOrder);
    EvalClauses(p, env, FilterOrder, m);
    assert Eval(ListQuery(p).value, m) <==> forall c | c in cs :: Eval(c, m);
    forall f | Active(p, f)
      ensures Eval(Clause(p, env, f), m) <==> Holds(p, f, m)
    {
      ClauseMeaning(p, f, m);
    }
    if Satisfies(p, m) {
      forall k | 0 <= k < |FilterOrder| && Active(p, FilterOrder[k])
        ensures Eval(Clause(p, env, FilterOrder[k]), m)
      {
      }
    } else {
      var f :| Active(p, f) && !Holds(p, f, m);
      FilterOrderComplete(f);
      var k :| 0 <= k < |FilterOrder| && FilterOrder[k] == f;
      assert !Eval(Clause(p, env, FilterOrder[k]), m);
    }
  }

  // ---------------------------------------------------------------------------------
  // Consequences
  // ---------------------------------------------------------------------------------

  /** Equal runtime values select no movie at all. */
  lemma EqualRuntimesMatchNothing(p: Params, m: Movie)
    requires ListQuery(p).Success? && |p.runtime| == 2 && Atoi(p.runtime[0]) == Atoi(p.runtime[1])
    ensures !Eval(ListQuery(p).value, m)
  {
    ListQueryMeaning(p, m);
    assert !Holds(p, RuntimeFilter, m);
  }

  /** Swapping the two runtime values changes neither the outcome nor the filter. */
  lemma RuntimeOrderIrrelevant(p: Params)
    requires |p.runtime| == 2
    ensures ListQuery(p) == ListQuery(p.(runtime := [p.runtime[1], p.runtime[0]]))
  {
    var q := p.(runtime := [p.runtime[1], p.runtime[0]]);
    ParseAllSpec(p.runtime);
    ParseAllSpec(q.runtime);
    assert RuntimeBounds(p.runtime) == RuntimeBounds(q.runtime);
    if ListQuery(p).Success? {
      var env := Env(p);
      assert env == Env(q);
      SameClauses(p, q, env, FilterOrder);
    }
  }

  lemma {:induction false} SameClauses(p: Params, q: Params, env: Parsed, fs: seq<Filter>)
    requires forall f :: Active(p, f) == Active(q, f) && Clause(p, env, f) == Clause(q, env, f)
    ensures ClausesFrom(p, env, fs) == ClausesFrom(q, env, fs)
  {
    if |fs| > 0 {
      SameClauses(p, q, env, fs[..|fs| - 1]);
    }
  }

  /**
    * The store accepts every filter the handler builds: no `$and`, `$or` or `$in` is
    * given an empty list (year and decade never yield an empty year list).
    */
  lemma ListQueryWellFormed(p: Params)
    requires ListQuery(p).Success?
    ensures WellFormed(ListQuery(p).value)
  {
    var env := Env(p);
    if Active(p, YearFilter) {
      YearListNonEmpty(p);
    }
    ParseAllSpec(p.provider);
    ClausesWellFormed(p, env, FilterOrder);
  }

  lemma {:induction false} ClausesWellFormed(p: Params, env: Parsed, fs: seq<Filter>)
    requires Active(p, YearFilter) ==> |env.years| > 0
    requires Active(p, ProviderFilter) ==> |env.providers| > 0
    ensures forall c | c in ClausesFrom(p, env, fs) :: WellFormed(c)
  {
    if |fs| > 0 {
      ClausesWellFormed(p, env, fs[..|fs| - 1]);
      var last := fs[|fs| - 1];
      if Active(p, last) {
        ClauseWellFormed(p, env, last);
      }
    }
  }

  /** An active filter's clause has non-empty lists once the year and provider lists are non-empty. */
  lemma ClauseWellFormed(p: Params, env: Parsed, f: Filter)
    requires Active(p, f)
    requires Active(p, YearFilter) ==> |env.years| > 0
    requires Active(p, ProviderFilter) ==> |env.providers| > 0
    ensures WellFormed(Clause(p, env, f))
  {
    match f
    case GenreFilter =>
      var alts := [InStr(Genre, p.genre), InStr(Genre2, p.genre)];
      assert forall a | a in alts :: WellFormed(a);
    case UniverseFilter =>
      var alts := [InStr(Universe, p.universe), InStr(SubUniverse, p.universe)];
      assert forall a | a in alts :: WellFormed(a);
    case _ =>
  }

  lemma YearListNonEmpty(p: Params)
    requires YearList(p.year, p.decade).Success?
    requires |p.year| > 0 || |p.decade| > 0
    ensures |YearList(p.year, p.decade).value| > 0
  {
    if |p.decade| > 0 {
      var ds := p.decade;
      var last := ds[|ds| - 1];
      assert ExpandDecades(ds) == Some(ExpandDecades(ds[..|ds| - 1]).value + DecadeYears(last).value);
      DecadeYearsShape(last);
    }
  }

  /** No parameters: the empty filter, which selects every movie. */
  lemma NoParametersMatchAll()
    ensures ListQuery(Params([], [], [], [], [], [], [], [], [], [])) == Success(MatchAll)
  {
    var p := Params([], [], [], [], [], [], [], [], [], []);
    assert ListQuery(p).Success? by { ListQueryErrors(p); }
    ListQueryClauses(p);
  }

  /** `?genre=Action`: one `$or` over both genre fields inside an `$and`. */
  lemma GenreExample()
    ensures ListQuery(Params(["Action"], [], [], [], [], [], [], [], [], [])) ==
      Success(And([Or([InStr(Genre, ["Action"]), InStr(Genre2, ["Action"])])]))
  {
    var p := Params(["Action"], [], [], [], [], [], [], [], [], []);
    assert ListQuery(p).Success? by { ListQueryErrors(p); }
    var env := Env(p);
    ClausesInOrder(p, env);
    var none: seq<Query> := [];
    assert Opt(Active(p, GenreFilter), Clause(p, env, GenreFilter)) ==
      [Or([InStr(Genre, ["Action"]), InStr(Genre2, ["Action"])])];
    assert Opt(Active(p, UniverseFilter), Clause(p, env, UniverseFilter)) == none;
    assert ClausesFrom(p, env, FilterOrder) == [Or([InStr(Genre, ["Action"]), InStr(Genre2, ["Action"])])];
  }
}
