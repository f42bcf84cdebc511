/**
  * The condition builder of the movie listing handler: from the repeated query
  * parameters to one filter document, or a validation error.
  */
module ListMovies {
  import opened Wrappers
  import opened Strconv
  import opened Query
  import opened Parsers

  /** The repeated query parameters the listing reads, each exactly as given (possibly empty). */
  datatype Params = Params(
    genre: seq<string>,
    universe: seq<string>,
    exclusive: seq<string>,
    studio: seq<string>,
    holiday: seq<string>,
    year: seq<string>,
    decade: seq<string>,
    director: seq<string>,
    runtime: seq<string>,
    provider: seq<string>)

  /**
    * The four 400 responses: "year must be integer", "invalid decade format, expected
    * yyyy-yyyy", "runtime must have two values for range, start and stop" (for a wrong
    * count and for a non-integer alike) and "provider must be id".
    */
  datatype ListError = YearNotInteger | InvalidDecade | InvalidRuntime | ProviderNotId

  /** One kind of clause; year and decade together make the one year clause. */
  datatype Filter =
    | GenreFilter | UniverseFilter | ExclusiveFilter | StudioFilter | HolidayFilter
    | YearFilter | DirectorFilter | RuntimeFilter | ProviderFilter

  /** The order in which the handler appends clauses. */
  const FilterOrder: seq<Filter> := [
    GenreFilter, UniverseFilter, ExclusiveFilter, StudioFilter, HolidayFilter,
    YearFilter, DirectorFilter, RuntimeFilter, ProviderFilter]

  function Rank(f: Filter): nat
  {
    match f
    case GenreFilter => 0
    case UniverseFilter => 1
    case ExclusiveFilter => 2
    case StudioFilter => 3
    case HolidayFilter => 4
    case YearFilter => 5
    case DirectorFilter => 6
    case RuntimeFilter => 7
    case ProviderFilter => 8
  }

  /** A filter takes part when one of its parameters was given at least once. */
  predicate Active(p: Params, f: Filter)
  {
    match f
    case GenreFilter => |p.genre| > 0
    case UniverseFilter => |p.universe| > 0
    case ExclusiveFilter => |p.exclusive| > 0
    case StudioFilter => |p.studio| > 0
    case HolidayFilter => |p.holiday| > 0
    case YearFilter => |p.year| > 0 || |p.decade| > 0
    case DirectorFilter => |p.director| > 0
    case RuntimeFilter => |p.runtime| > 0
    case ProviderFilter => |p.provider| > 0
  }

  /** All decade strings expanded and concatenated in order; None if any is malformed. */
  function ExpandDecades(ds: seq<string>): Option<seq<int>>
  {
    if |ds| == 0 then Some([])
    else
      match ExpandDecades(ds[..|ds| - 1])
      case None => None
      case Some(init) =>
        match DecadeYears(ds[|ds| - 1])
        case None => None
        case Some(ys) => Some(init + ys)
  }

  lemma ExpandDecadesStep(ds: seq<string>, i: int, acc: seq<int>)
    requires 0 <= i < |ds| && ExpandDecades(ds[..i]) == Some(acc) && DecadeYears(ds[i]).Some?
    ensures ExpandDecades(ds[..i + 1]) == Some(acc + DecadeYears(ds[i]).value)
  {
    assert ds[..i + 1][..i] == ds[..i];
  }

  lemma ExpandDecadesStops(ds: seq<string>, i: int)
    requires 0 <= i < |ds| && DecadeYears(ds[i]).None?
    ensures ExpandDecades(ds).None?
  {
    ExpandDecadesFails(ds);
  }

  /** The expansion fails exactly when one of the decade strings is malformed. */
  lemma {:induction false} ExpandDecadesFails(ds: seq<string>)
    ensures ExpandDecades(ds).None? <==> exists i :: 0 <= i < |ds| && DecadeYears(ds[i]).None?
  {
    if |ds| > 0 {
      var init := ds[..|ds| - 1];
      ExpandDecadesFails(init);
      assert forall i :: 0 <= i < |init| ==> init[i] == ds[i];
    }
  }

  /** `sort.Ints` on a pair. */
  function SortPair(a: int, b: int): (int, int)
  {
    if a <= b then (a, b) else (b, a)
  }

  /** The runtime range: exactly two values, both integers, put in ascending order. */
  function RuntimeBounds(rs: seq<string>): Option<(int, int)>
  {
    if |rs| != 2 then None
    else
      match ParseAll(rs)
      case None => None
      case Some(v) => Some(SortPair(v[0], v[1]))
  }

  /** The parsed values the clauses need. */
  datatype Parsed = Parsed(years: seq<int>, low: int, high: int, providers: seq<int>)

  /** The clause a filter contributes. */
  function Clause(p: Params, env: Parsed, f: Filter): Query
  {
    match f
    case GenreFilter => Or([InStr(Genre, p.genre), InStr(Genre2, p.genre)])
    case UniverseFilter => Or([InStr(Universe, p.universe), InStr(SubUniverse, p.universe)])
    case ExclusiveFilter => InStr(Exclusive, p.exclusive)
    case StudioFilter => InStr(Studio, p.studio)
    case HolidayFilter => InStr(Holiday, p.holiday)
    case YearFilter => InInt(Year, env.years)
    case DirectorFilter => InStr(Director, p.director)
    case RuntimeFilter => Between(Runtime, env.low, env.high)
    case ProviderFilter => InInt(FlatrateProviderId, env.providers)
  }

  /** The clauses of the active filters among `fs`, in the order of `fs`. */
  function ClausesFrom(p: Params, env: Parsed, fs: seq<Filter>): seq<Query>
  {
    if |fs| == 0 then []
    else
      var last := fs[|fs| - 1];
      ClausesFrom(p, env, fs[..|fs| - 1]) + Opt(Active(p, last), Clause(p, env, last))
  }

  /** The `$and` of the clauses, or the empty filter when there are none. */
  function Conjoin(cs: seq<Query>): Query
  {
    if |cs| > 0 then And(cs) else MatchAll
  }

  /**
    * The filter the handler builds, or the first validation error in the handler's
    * order: years, decades, runtime, providers.
    */
  function ListQuery(p: Params): Result<Query, ListError>
  {
    match YearList(p.year, p.decade)
    case Failure(e) => Failure(e)
    case Success(years) =>
      if |p.runtime| > 0 && RuntimeBounds(p.runtime).None? then Failure(InvalidRuntime)
      else
        match ParseAll(p.provider)
        case None => Failure(ProviderNotId)
        case Some(providers) =>
          var (low, high) := if |p.runtime| > 0 then RuntimeBounds(p.runtime).value else (0, 0);
          Success(Conjoin(ClausesFrom(p, Parsed(years, low, high, providers), FilterOrder)))
  }

  /**
    * The year list: the explicit years, then the years of every decade in order; the
    * first bad year or decade ends the request.
    */
  function YearList(year: seq<string>, decade: seq<string>): Result<seq<int>, ListError>
  {
    match ParseAll(year)
    case None => Failure(YearNotInteger)
    case Some(years) =>
      match ExpandDecades(decade)
      case None => Failure(InvalidDecade)
      case Some(decadeYears) => Success(years + decadeYears)
  }

  /** The `years` accumulator of `ListMovies`. */
  method CollectYears(year: seq<string>, decade: seq<string>) returns (r: Result<seq<int>, ListError>)
    ensures r == YearList(year, decade)
  {
    var years: seq<int> := [];
    if |year| > 0 {
      var converted := ConvertStringsToInts(year);
      if converted.None? {
        return Failure(YearNotInteger);
      }
      years := converted.value;
    }
    var decadeYears := CollectDecades(decade);
    if decadeYears.None? {
      return Failure(InvalidDecade);
    }
    return Success(years + decadeYears.value);
  }

  /** The decade loop of `ListMovies`: each decade's years appended in turn, stopping at the first bad one. */
  method CollectDecades(decade: seq<string>) returns (r: Option<seq<int>>)
    ensures r == ExpandDecades(decade)
  {
    var decadeYears: seq<int> := [];
    var i := 0;
    while i < |decade|
      invariant 0 <= i <= |decade|
      invariant ExpandDecades(decade[..i]) == Some(decadeYears)
    {
      var yearRange := ParseDecade(decade[i]);
      if yearRange.None? {
        ExpandDecadesStops(decade, i);
        return None;
      }
      ExpandDecadesStep(decade, i, decadeYears);
      decadeYears := decadeYears + yearRange.value;
      i := i + 1;
    }
    assert decade[..i] == decade;
    return Some(decadeYears);
  }

  /**
    * The runtime clause: exactly two values, both integers, sorted with `sort.Ints`, as
    * a range that excludes both ends.
    */
  method RuntimeCondition(runtime: seq<string>) returns (r: Result<Query, ListError>)
    ensures r == match RuntimeBounds(runtime)
                 case None => Failure(InvalidRuntime)
                 case Some((low, high)) => Success(Between(Runtime, low, high))
  {
    if |runtime| != 2 {
      return Failure(InvalidRuntime);
    }
    var runtimes := ConvertStringsToInts(runtime);
    if runtimes.None? {
      return Failure(InvalidRuntime);
    }
    var sorted := runtimes.value;
    if sorted[0] > sorted[1] {
      sorted := [sorted[1], sorted[0]];
    }
    return Success(Between(Runtime, sorted[0], sorted[1]));
  }

  /** The five string filters of `ListMovies`: genre, universe, exclusive, studio, holiday. */
  method StringConditions(p: Params) returns (conditions: seq<Query>)
    ensures conditions ==
            (if |p.genre| > 0 then [Or([InStr(Genre, p.genre), InStr(Genre2, p.genre)])] else []) +
            (if |p.universe| > 0 then [Or([InStr(Universe, p.universe), InStr(SubUniverse, p.universe)])] else []) +
            (if |p.exclusive| > 0 then [InStr(Exclusive, p.exclusive)] else []) +
            (if |p.studio| > 0 then [InStr(Studio, p.studio)] else []) +
            (if |p.holiday| > 0 then [InStr(Holiday, p.holiday)] else [])
  {
    conditions := [];
    if |p.genre| > 0 {
      conditions := conditions + [Or([InStr(Genre, p.genre), InStr(Genre2, p.genre)])];
    }
    assert conditions == (if |p.genre| > 0 then [Or([InStr(Genre, p.genre), InStr(Genre2, p.genre)])] else []);
    ghost var c1 := conditions;
    if |p.universe| > 0 {
      conditions := conditions + [Or([InStr(Universe, p.universe), InStr(SubUniverse, p.universe)])];
    }
    assert conditions == c1 + (if |p.universe| > 0 then [Or([InStr(Universe, p.universe), InStr(SubUniverse, p.universe)])] else []);
    ghost var c2 := conditions;
    if |p.exclusive| > 0 {
      conditions := conditions + [InStr(Exclusive, p.exclusive)];
    }
    assert conditions == c2 + (if |p.exclusive| > 0 then [InStr(Exclusive, p.exclusive)] else []);
    ghost var c3 := conditions;
    if |p.studio| > 0 {
      conditions := conditions + [InStr(Studio, p.studio)];
    }
    assert conditions == c3 + (if |p.studio| > 0 then [InStr(Studio, p.studio)] else []);
    ghost var c4 := conditions;
    if |p.holiday| > 0 {
      conditions := conditions + [InStr(Holiday, p.holiday)];
    }
    assert conditions == c4 + (if |p.holiday| > 0 then [InStr(Holiday, p.holiday)] else []);
  }

  /** The condition-building part of `ListMovies`, step by step with early exits. */
  method BuildListQuery(p: Params) returns (r: Result<Query, ListError>)
    ensures r == ListQuery(p)
  {
    var years: seq<int> := [];
    var low, high := 0, 0;
    var providers: seq<int> := [];
    var conditions := StringConditions(p);
    ghost var c5 := conditions;
    if |p.year| > 0 || |p.decade| > 0 {
      var collected := CollectYears(p.year, p.decade);
      if collected.Failure? {
        YearErrorStops(p);
        return Failure(collected.error);
      }
      years := collected.value;
      conditions := conditions + [InInt(Year, years)];
    } else {
      NoYearParameters(p);
    }
    assert conditions == c5 + (if |p.year| > 0 || |p.decade| > 0 then [InInt(Year, years)] else []);
    ghost var c6 := conditions;
    if |p.director| > 0 {
      conditions := conditions + [InStr(Director, p.director)];
    }
    assert conditions == c6 + (if |p.director| > 0 then [InStr(Director, p.director)] else []);
    ghost var c7 := conditions;
    if |p.runtime| > 0 {
      var runtimeCondition := RuntimeCondition(p.runtime);
      if runtimeCondition.Failure? {
        RuntimeErrorStops(p);
        return Failure(runtimeCondition.error);
      }
      low, high := runtimeCondition.value.gt, runtimeCondition.value.lt;
      conditions := conditions + [Between(Runtime, low, high)];
    }
    assert conditions == c7 + (if |p.runtime| > 0 then [Between(Runtime, low, high)] else []);
    ghost var c8 := conditions;
    if |p.provider| > 0 {
      var converted := ConvertStringsToInts(p.provider);
      if converted.None? {
        ProviderErrorStops(p);
        return Failure(ProviderNotId);
      }
      providers := converted.value;
      conditions := conditions + [InInt(FlatrateProviderId, providers)];
    } else {
      assert p.provider == [];
    }
    assert conditions == c8 + (if |p.provider| > 0 then [InInt(FlatrateProviderId, providers)] else []);
    ghost var env := Parsed(years, low, high, providers);
    StagesBuildClauses(p, env, c5, c6, c7, c8, conditions);
    ListQueryOfParsed(p, env);
    if |conditions| > 0 {
      r := Success(And(conditions));
    } else {
      r := Success(MatchAll);
    }
  }

  /** With neither `year` nor `decade` given, the year list is empty and cannot fail. */
  lemma NoYearParameters(p: Params)
    requires |p.year| == 0 && |p.decade| == 0
    ensures YearList(p.year, p.decade) == Success([])
  {
    var none: seq<int> := [];
    assert ParseAll(p.year) == Some(none) && ExpandDecades(p.decade) == Some(none);
    assert none + none == none;
  }

  lemma YearErrorStops(p: Params)
    requires YearList(p.year, p.decade).Failure?
    ensures ListQuery(p) == Failure(YearList(p.year, p.decade).error)
  {
  }

  lemma RuntimeErrorStops(p: Params)
    requires YearList(p.year, p.decade).Success?
    requires |p.runtime| > 0 && RuntimeBounds(p.runtime).None?
    ensures ListQuery(p) == Failure(InvalidRuntime)
  {
  }

  lemma ProviderErrorStops(p: Params)
    requires YearList(p.year, p.decade).Success?
    requires |p.runtime| > 0 ==> RuntimeBounds(p.runtime).Some?
    requires ParseAll(p.provider).None?
    ensures ListQuery(p) == Failure(ProviderNotId)
  {
  }

  /**
    * The handler's nine append steps, each adding its clause exactly when its filter is
    * active, build the clause list of the handler's order.
    */
  lemma StagesBuildClauses(p: Params, env: Parsed,
                           c5: seq<Query>, c6: seq<Query>, c7: seq<Query>, c8: seq<Query>, c9: seq<Query>)
    requires c5 ==
             (if |p.genre| > 0 then [Or([InStr(Genre, p.genre), InStr(Genre2, p.genre)])] else []) +
             (if |p.universe| > 0 then [Or([InStr(Universe, p.universe), InStr(SubUniverse, p.universe)])] else []) +
             (if |p.exclusive| > 0 then [InStr(Exclusive, p.exclusive)] else []) +
             (if |p.studio| > 0 then [InStr(Studio, p.studio)] else []) +
             (if |p.holiday| > 0 then [InStr(Holiday, p.holiday)] else [])
    requires c6 == c5 + (if |p.year| > 0 || |p.decade| > 0 then [InInt(Year, env.years)] else [])
    requires c7 == c6 + (if |p.director| > 0 then [InStr(Director, p.director)] else [])
    requires c8 == c7 + (if |p.runtime| > 0 then [Between(Runtime, env.low, env.high)] else [])
    requires c9 == c8 + (if |p.provider| > 0 then [InInt(FlatrateProviderId, env.providers)] else [])
    ensures c9 == ClausesFrom(p, env, FilterOrder)
  {
    ClausesInOrder(p, env);
  }

  /** Once every parameter has parsed to the values in `env`, the filter is their clauses' conjunction. */
  lemma ListQueryOfParsed(p: Params, env: Parsed)
    requires YearList(p.year, p.decade) == Success(env.years)
    requires |p.runtime| > 0 ==> RuntimeBounds(p.runtime) == Some((env.low, env.high))
    requires |p.runtime| == 0 ==> env.low == 0 && env.high == 0
    requires ParseAll(p.provider) == Some(env.providers)
    ensures ListQuery(p) == Success(Conjoin(ClausesFrom(p, env, FilterOrder)))
  {
  }

  function Opt(b: bool, q: Query): seq<Query>
  {
    if b then [q] else []
  }

  lemma ClausesPrefix1(p: Params, env: Parsed)
    ensures ClausesFrom(p, env, [GenreFilter]) ==
      Opt(Active(p, GenreFilter), Clause(p, env, GenreFilter))
  {
    ClausesSnoc(p, env, [GenreFilter]);
    assert [GenreFilter][..0] == [];
  }

  lemma ClausesPrefix2(p: Params, env: Parsed)
    ensures ClausesFrom(p, env, [GenreFilter, UniverseFilter]) ==
      Opt(Active(p, GenreFilter), Clause(p, env, GenreFilter)) +
      Opt(Active(p, UniverseFilter), Clause(p, env, UniverseFilter))
  {
    ClausesPrefix1(p, env);
    ClausesSnoc(p, env, [GenreFilter, UniverseFilter]);
    assert [GenreFilter, UniverseFilter][..1] == [GenreFilter];
  }

  lemma ClausesPrefix3(p: Params, env: Parsed)
    ensures ClausesFrom(p, env, [GenreFilter, UniverseFilter, ExclusiveFilter]) ==
      Opt(Active(p, GenreFilter), Clause(p, env, GenreFilter)) +
      Opt(Active(p, UniverseFilter), Clause(p, env, UniverseFilter)) +
      Opt(Active(p, ExclusiveFilter), Clause(p, env, ExclusiveFilter))
  {
    ClausesPrefix2(p, env);
    ClausesSnoc(p, env, [GenreFilter, UniverseFilter, ExclusiveFilter]);
    assert [GenreFilter, UniverseFilter, ExclusiveFilter][..2] == [GenreFilter, UniverseFilter];
  }

  lemma ClausesPrefix4(p: Params, env: Parsed)
    ensures ClausesFrom(p, env, [GenreFilter, UniverseFilter, ExclusiveFilter, StudioFilter]) ==
      Opt(Active(p, GenreFilter), Clause(p, env, GenreFilter)) +
      Opt(Active(p, UniverseFilter), Clause(p, env, UniverseFilter)) +
      Opt(Active(p, ExclusiveFilter), Clause(p, env, ExclusiveFilter)) +
      Opt(Active(p, StudioFilter), Clause(p, env, StudioFilter))
  {
    ClausesPrefix3(p, env);
    ClausesSnoc(p, env, [GenreFilter, UniverseFilter, ExclusiveFilter, StudioFilter]);
    assert [GenreFilter, UniverseFilter, ExclusiveFilter, StudioFilter][..3] == [GenreFilter, UniverseFilter, ExclusiveFilter];
  }

  lemma ClausesPrefix5(p: Params, env: Parsed)
    ensures ClausesFrom(p, env, [GenreFilter, UniverseFilter, ExclusiveFilter, StudioFilter, HolidayFilter]) ==
      Opt(Active(p, GenreFilter), Clause(p, env, GenreFilter)) +
      Opt(Active(p, UniverseFilter), Clause(p, env, UniverseFilter)) +
      Opt(Active(p, ExclusiveFilter), Clause(p, env, ExclusiveFilter)) +
      Opt(Active(p, StudioFilter), Clause(p, env, StudioFilter)) +
      Opt(Active(p, HolidayFilter), Clause(p, env, HolidayFilter))
  {
    ClausesPrefix4(p, env);
    ClausesSnoc(p, env, [GenreFilter, UniverseFilter, ExclusiveFilter, StudioFilter, HolidayFilter]);
    assert [GenreFilter, UniverseFilter, ExclusiveFilter, StudioFilter, HolidayFilter][..4] == [GenreFilter, UniverseFilter, ExclusiveFilter, StudioFilter];
  }

  lemma ClausesPrefix6(p: Params, env: Parsed)
    ensures ClausesFrom(p, env, [GenreFilter, UniverseFilter, ExclusiveFilter, StudioFilter, HolidayFilter, YearFilter]) ==
      Opt(Active(p, GenreFilter), Clause(p, env, GenreFilter)) +
      Opt(Active(p, UniverseFilter), Clause(p, env, UniverseFilter)) +
      Opt(Active(p, ExclusiveFilter), Clause(p, env, ExclusiveFilter)) +
      Opt(Active(p, StudioFilter), Clause(p, env, StudioFilter)) +
      Opt(Active(p, HolidayFilter), Clause(p, env, HolidayFilter)) +
      Opt(Active(p, YearFilter), Clause(p, env, YearFilter))
  {
    ClausesPrefix5(p, env);
    ClausesSnoc(p, env, [GenreFilter, UniverseFilter, ExclusiveFilter, StudioFilter, HolidayFilter, YearFilter]);
    assert [GenreFilter, UniverseFilter, ExclusiveFilter, StudioFilter, HolidayFilter, YearFilter][..5] == [GenreFilter, UniverseFilter, ExclusiveFilter, StudioFilter, HolidayFilter];
  }

  lemma ClausesPrefix7(p: Params, env: Parsed)
    ensures ClausesFrom(p, env, [GenreFilter, UniverseFilter, ExclusiveFilter, StudioFilter, HolidayFilter, YearFilter, DirectorFilter]) ==
      Opt(Active(p, GenreFilter), Clause(p, env, GenreFilter)) +
      Opt(Active(p, UniverseFilter), Clause(p, env, UniverseFilter)) +
      Opt(Active(p, ExclusiveFilter), Clause(p, env, ExclusiveFilter)) +
      Opt(Active(p, StudioFilter), Clause(p, env, StudioFilter)) +
      Opt(Active(p, HolidayFilter), Clause(p, env, HolidayFilter)) +
      Opt(Active(p, YearFilter), Clause(p, env, YearFilter)) +
      Opt(Active(p, DirectorFilter), Clause(p, env, DirectorFilter))
  {
    ClausesPrefix6(p, env);
    ClausesSnoc(p, env, [GenreFilter, UniverseFilter, ExclusiveFilter, StudioFilter, HolidayFilter, YearFilter, DirectorFilter]);
    assert [GenreFilter, UniverseFilter, ExclusiveFilter, StudioFilter, HolidayFilter, YearFilter, DirectorFilter][..6] == [GenreFilter, UniverseFilter, ExclusiveFilter, StudioFilter, HolidayFilter, YearFilter];
  }

  lemma ClausesPrefix8(p: Params, env: Parsed)
    ensures ClausesFrom(p, env, [GenreFilter, UniverseFilter, ExclusiveFilter, StudioFilter, HolidayFilter, YearFilter, DirectorFilter, RuntimeFilter]) ==
      Opt(Active(p, GenreFilter), Clause(p, env, GenreFilter)) +
      Opt(Active(p, UniverseFilter), Clause(p, env, UniverseFilter)) +
      Opt(Active(p, ExclusiveFilter), Clause(p, env, ExclusiveFilter)) +
      Opt(Active(p, StudioFilter), Clause(p, env, StudioFilter)) +
      Opt(Active(p, HolidayFilter), Clause(p, env, HolidayFilter)) +
      Opt(Active(p, YearFilter), Clause(p, env, YearFilter)) +
      Opt(Active(p, DirectorFilter), Clause(p, env, DirectorFilter)) +
      Opt(Active(p, RuntimeFilter), Clause(p, env, RuntimeFilter))
  {
    ClausesPrefix7(p, env);
    ClausesSnoc(p, env, [GenreFilter, UniverseFilter, ExclusiveFilter, StudioFilter, HolidayFilter, YearFilter, DirectorFilter, RuntimeFilter]);
    assert [GenreFilter, UniverseFilter, ExclusiveFilter, StudioFilter, HolidayFilter, YearFilter, DirectorFilter, RuntimeFilter][..7] == [GenreFilter, UniverseFilter, ExclusiveFilter, StudioFilter, HolidayFilter, YearFilter, DirectorFilter];
  }

  /** The clause list over the handler's order, written out filter by filter. */
  lemma ClausesInOrder(p: Params, env: Parsed)
    ensures ClausesFrom(p, env, FilterOrder) ==
      Opt(Active(p, GenreFilter), Clause(p, env, GenreFilter)) +
      Opt(Active(p, UniverseFilter), Clause(p, env, UniverseFilter)) +
      Opt(Active(p, ExclusiveFilter), Clause(p, env, ExclusiveFilter)) +
      Opt(Active(p, StudioFilter), Clause(p, env, StudioFilter)) +
      Opt(Active(p, HolidayFilter), Clause(p, env, HolidayFilter)) +
      Opt(Active(p, YearFilter), Clause(p, env, YearFilter)) +
      Opt(Active(p, DirectorFilter), Clause(p, env, DirectorFilter)) +
      Opt(Active(p, RuntimeFilter), Clause(p, env, RuntimeFilter)) +
      Opt(Active(p, ProviderFilter), Clause(p, env, ProviderFilter))
  {
    ClausesPrefix8(p, env);
    ClausesSnoc(p, env, [GenreFilter, UniverseFilter, ExclusiveFilter, StudioFilter, HolidayFilter, YearFilter, DirectorFilter, RuntimeFilter, ProviderFilter]);
    assert [GenreFilter, UniverseFilter, ExclusiveFilter, StudioFilter, HolidayFilter, YearFilter, DirectorFilter, RuntimeFilter, ProviderFilter][..8] == [GenreFilter, UniverseFilter, ExclusiveFilter, StudioFilter, HolidayFilter, YearFilter, DirectorFilter, RuntimeFilter];
  }

  lemma ClausesSnoc(p: Params, env: Parsed, fs: seq<Filter>)
    requires |fs| > 0
    ensures ClausesFrom(p, env, fs) ==
      ClausesFrom(p, env, fs[..|fs| - 1]) + Opt(Active(p, fs[|fs| - 1]), Clause(p, env, fs[|fs| - 1]))
  {
  }
}
