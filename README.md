# Movie catalogue API: the listing filter, its parsers, the single-movie lookup and two facets

This project is a Dafny model of the query-building core of a Go web service that serves
a movie catalogue stored in a document database. It covers the following parts:

- **The listing filter** (`ListMovies`). The handler reads the repeated query
  parameters `genre`, `universe`, `exclusive`, `studio`, `holiday`, `year`, `decade`,
  `director`, `runtime` and `provider`. Each parameter that is present adds one clause.
  The clauses are joined with `$and`. With no clauses the filter is the empty document,
  which selects everything. The request is refused with a 400 when a year, decade,
  runtime or provider value is malformed.
- **Its two parsing helpers.** `convertStringsToInts` parses every string or fails as a
  whole. `parseDecade` turns `"yyyy-yyyy"` into the inclusive list of years.
- **The standard-library behaviour they rely on**: `strconv.Atoi` (an optional sign, then
  decimal digits, within 64 bits) and `strings.Split` on one character.
- **The single-movie lookup** (`GetMovie`). A TMDB id takes precedence; otherwise both a
  title and a year are needed.
- **The page size of `GetMostRecent`**: the `count` parameter, or 20.
- **Two aggregation pipelines of `ListTypes`.** The universe facet counts movies per
  universe and per sub-universe. The director facet lists the directors with at least
  three movies, most movies first.

Modules:

| file | module | what it holds |
|---|---|---|
| `wrappers.dfy` | `Wrappers` | `Option` and `Result` |
| `strconv.dfy` | `Strconv` | `Atoi`, the value Go returns with an Atoi error, and a decimal formatter `Itoa` as its inverse |
| `gostrings.dfy` | `GoStrings` | `Split`, with `Join` as its inverse |
| `query.dfy` | `Query` | the stored `Movie` record, the filter documents (`Query`), their matching semantics `Eval`, and `WellFormed` (the store accepts the filter) |
| `parsers.dfy` | `Parsers` | `ConvertStringsToInts` over an array, `ParseDecade` as a loop, the functions that specify them, and the 64-bit loop as written |
| `listmovies.dfy` | `ListMovies` | the handler's condition building as a method (`BuildListQuery`), proved equal to the function `ListQuery` |
| `listsemantics.dfy` | `ListSemantics` | what `ListQuery` means: which requests fail and with which error, the clauses and their order, and the movies selected |
| `getmovie.dfy` | `GetMovie` | the lookup selection as written and as intended, and `RecentLimit` |
| `grouping.dfy` | `Grouping` | the store's `$group` stage as `GroupBy`, and its specification |
| `facets.dfy` | `Facets` | the universe and director pipelines and their properties |

The handler's step-by-step code is modelled as methods. `ConvertStringsToInts` fills a
preallocated array. `ParseDecade` and `CollectDecades` append in loops.
`BuildListQuery` grows `conditions` with early exits; its first five string filters are
in the helper `StringConditions`. Each method is proved equal to a function.
The properties are then proved about those functions.

The database pipelines are data, not code. They are modelled as pure functions, stating
what the pipeline literal asks the store to compute.

A missing document field is `None` in `Movie`, except `Universe`, which is `Missing`,
`Null` or `Text` because the universe facet's first `$group` key tells the first two
apart: in a compound `_id` a missing field is left out while a null one is kept. Read
through a single path (`$_id.Universe`, `$Director`, or a filter's `$in`) missing and
null are both null, which is `None` here. The `$ifNull` sentinel `"__NO_SUB_UNIVERSE__"`
stands in for a missing `Sub_Universe`. A stored `Sub_Universe` equal to that very text is
therefore counted as missing too.

## Model

| member | source | states |
|---|---|---|
| Strconv.AtoiAccepted | modules/movies/movies.go:26 | every string `strconv.Atoi` accepts is an optional sign, then zeros, then the decimal digits `Itoa` writes for the value's magnitude, with a `-` only for a value of at most 0 (the converse of `AtoiItoa`) |
| Strconv.AtoiValue | modules/movies/movies.go:192-196 | the integer Atoi returns together with its error: the parsed value without an error; otherwise 0 or one of the two 64-bit bounds, the bound of the sign's direction when the digits overflow 2^64-1 before any non-digit or the numeral is out of range, and 0 for any other syntax error |
| Strconv.OverflowBeforeJunk | modules/movies/movies.go:192-196 | twenty nines followed by a non-digit fail with the range error's bound 2^63-1 (or -2^63 after a `-`), not with 0 |
| Strconv.ShortMalformedIsZero | modules/movies/movies.go:192-196 | a malformed string of at most 19 characters fails with value 0 |
| Strconv.AtoiItoa | modules/movies/movies.go:26 | every 64-bit integer written in decimal parses back to itself |
| Strconv.AtoiRejectsEmpty | modules/movies/movies.go:26 | the empty string and a bare sign are not integers |
| Strconv.AtoiRejectsInnerMinus | modules/movies/movies.go:172-173 | a `-` after the first character makes the string a non-integer |
| Strconv.ItoaNoInnerMinus | modules/movies/movies.go:166 | a formatted number holds a `-` only in front, and none when non-negative, so it is one piece when splitting on `-` |
| GoStrings.Split | modules/movies/movies.go:166 | `strings.Split` on one character gives one more piece than there are separators, none of them containing the separator |
| GoStrings.JoinSplit | modules/movies/movies.go:166 | joining the pieces with the separator gives back the string |
| GoStrings.SplitPair | modules/movies/movies.go:166-169 | two separator-free strings around one separator split into exactly those two pieces |
| GoStrings.SplitLeadingSeparator | modules/movies/movies.go:166-169 | a string starting with the separator has an empty first piece |
| Parsers.ParseAllSpec | modules/movies/movies.go:21-34 | the conversion succeeds iff every string is an integer, and then the i-th result is the parse of the i-th string |
| Parsers.ParseAll | modules/movies/movies.go:21-34 | a successful conversion has one integer per string |
| Parsers.ConvertStringsToInts | modules/movies/movies.go:21-34 | the array loop returns exactly the conversion: no partial result on a bad string |
| Parsers.YearRange | modules/movies/movies.go:177-181 | the years from start to end inclusive: `end - start + 1` of them, the i-th being `start + i` |
| Parsers.YearRangeMembers | modules/movies/movies.go:177-181 | a year is in the range iff it lies between start and end, both included |
| Parsers.ParseDecade | modules/movies/movies.go:165-182 | the loop returns exactly the inclusive range of the decade, or fails on a malformed decade: the intended range, over an unbounded counter (see Findings for the 64-bit counter) |
| Parsers.DecadeYearsShape | modules/movies/movies.go:177-181 | a parsed decade is ascending and consecutive, from start to end, with `end - start + 1` years |
| Parsers.DecadeBoundsOfFormatted | modules/movies/movies.go:165-175 | two non-negative 64-bit years written as `a-b` parse back to `(a, b)` when `a <= b` and are refused otherwise |
| Parsers.DecadeLeadingMinus | modules/movies/movies.go:166-169 | a decade starting with `-` is refused (three pieces, or an empty start) |
| Parsers.DecadeExampleRange | modules/movies/movies.go:165-182 | `"1990-1994"` gives 1990, 1991, 1992, 1993, 1994 |
| Parsers.DecadeExampleReversed | modules/movies/movies.go:172-175 | `"1994-1990"` is refused |
| Parsers.DecadeExampleNotNumeric | modules/movies/movies.go:172-175 | `"199x-2000"` is refused |
| Parsers.Wrap64 | modules/movies/movies.go:178 | the Go `int` increment wraps into the 64-bit range: the result is in range, congruent to the input modulo 2^64, and equal to it when it is in range |
| Parsers.DecadeLoopAtMaxNeverEnds | modules/movies/movies.go:178-180 | with end year 2^63-1 the loop as written appends on every iteration, without bound |
| Parsers.DecadeLoopWrapsAtMax | modules/movies/movies.go:178-180 | at 2^63-1 the loop as written goes on to -2^63, while the intended range holds one year |
| Parsers.YearsAsWrittenBelowMax | modules/movies/movies.go:178-180 | below 2^63-1 the loop as written yields exactly the intended range |
| ListMovies.ExpandDecadesFails | modules/movies/movies.go:92-100 | expanding the decades fails iff some decade is malformed |
| ListMovies.CollectYears | modules/movies/movies.go:78-103 | the `years` accumulator is the explicit years followed by every decade's years in order, and the first bad year or decade ends the request with its error |
| ListMovies.CollectDecades | modules/movies/movies.go:92-100 | the decade loop appends each decade's years in order and stops at the first malformed decade |
| ListMovies.RuntimeCondition | modules/movies/movies.go:109-124 | anything but two integers is the runtime error; otherwise the clause is the sorted pair as an exclusive range |
| ListMovies.StringConditions | modules/movies/movies.go:44-76 | the genre, universe, exclusive, studio and holiday clauses, each present iff its parameter is, in that order |
| ListMovies.BuildListQuery | modules/movies/movies.go:42-143 | the handler's step-by-step building, with its early exits, yields exactly `ListQuery` |
| ListMovies.StagesBuildClauses | modules/movies/movies.go:42-135 | the nine conditional appends build the clauses of the active filters in the handler's order |
| ListMovies.ListQueryOfParsed | modules/movies/movies.go:137-143 | once every value has parsed, the filter is `$and` of the clauses, or the empty filter when there are none |
| ListMovies.ClausesInOrder | modules/movies/movies.go:42-135 | the clause list is genre, universe, exclusive, studio, holiday, year, director, runtime, provider, each present iff active |
| ListMovies.YearErrorStops | modules/movies/movies.go:84-98 | a bad year or decade ends the request before any later check |
| ListMovies.RuntimeErrorStops | modules/movies/movies.go:111-121 | a bad runtime ends the request once the years are good |
| ListMovies.ProviderErrorStops | modules/movies/movies.go:129-133 | a bad provider ends the request once years and runtime are good |
| ListSemantics.ListQueryErrors | modules/movies/movies.go:78-135 | a request is refused iff a year, decade, runtime or provider value is malformed, and then with the first error in the order year, decade, runtime, provider |
| ListSemantics.ExpandDecadesSome | modules/movies/movies.go:92-100 | the decades expand iff every one has the form `start-end` with integers and start <= end |
| ListSemantics.ListQueryClauses | modules/movies/movies.go:42-143 | each given parameter adds exactly one clause, in the fixed order with strictly increasing rank, and no parameter gives the empty filter rather than an empty `$and` |
| ListSemantics.ClausesOfActiveFilters | modules/movies/movies.go:42-135 | the i-th clause is the clause of the i-th active filter |
| ListSemantics.ActiveInKeepsOrder | modules/movies/movies.go:42-135 | dropping inactive filters keeps the handler's order |
| ListSemantics.ListQueryMeaning | modules/movies/movies.go:42-143 | an accepted filter selects a movie iff it meets every given parameter: genre in `Genre` or `Genre_2`, universe in `Universe` or `Sub_Universe`, the other strings by their field, the year among the years or inside a decade, the runtime strictly between the two values in either order, and a provider id among those requested |
| ListSemantics.ClauseMeaning | modules/movies/movies.go:44-135 | each active filter's clause selects exactly the movies the filter asks for |
| ListSemantics.EitherFieldMeaning | modules/movies/movies.go:45-61 | the genre and universe `$or` holds iff either field is present and listed |
| ListSemantics.YearClauseMeaning | modules/movies/movies.go:78-103 | the year clause holds iff the movie's year is one of the given years or lies inside a given decade |
| ListSemantics.RuntimeClauseMeaning | modules/movies/movies.go:109-124 | the runtime clause holds iff the runtime lies strictly between the two given values |
| ListSemantics.ProviderClauseMeaning | modules/movies/movies.go:126-135 | the provider clause holds iff one of the movie's flat-rate providers has a requested id |
| ListSemantics.ExpandDecadesMembers | modules/movies/movies.go:92-100 | a year is among the expanded decades iff it lies inside one of them |
| ListSemantics.ParsedMembers | modules/movies/movies.go:21-34 | an integer is among the converted values iff some string parses to it |
| ListSemantics.EvalClauses | modules/movies/movies.go:137-143 | the `$and` holds iff the clause of every active filter holds |
| ListSemantics.EqualRuntimesMatchNothing | modules/movies/movies.go:109-124 | two runtime strings that parse to the same value (`90` and `090`, say) select no movie |
| ListSemantics.RuntimeOrderIrrelevant | modules/movies/movies.go:122-123 | swapping the two runtime values changes neither the outcome nor the filter |
| ListSemantics.ListQueryWellFormed | modules/movies/movies.go:42-143 | every filter built has non-empty `$and`, `$or` and `$in` lists, the year list included |
| ListSemantics.YearListNonEmpty | modules/movies/movies.go:78-103 | when year or decade is given and all parse, the year list is not empty |
| ListSemantics.NoParametersMatchAll | modules/movies/movies.go:137-143 | a request without parameters gets the empty filter |
| ListSemantics.GenreExample | modules/movies/movies.go:44-52 | `genre=Action` alone gives `$and` of one `$or` over `Genre` and `Genre_2` |
| ListSemantics.Env | modules/movies/movies.go:78-135 | the parsed values of an accepted request are the ones its filter is built from |
| ListSemantics.FilterOrderComplete | modules/movies/movies.go:42-135 | the handler's order lists every filter, in strictly increasing rank |
| Query.BetweenScalar | modules/movies/movies.go:123 | on the scalar runtime field the `$gt`/`$lt` range holds iff the runtime is present and strictly inside |
| Query.EmptyRangeMatchesNothing | modules/movies/movies.go:123 | a range with equal or reversed bounds selects nothing on a scalar field |
| Query.ProviderIds | modules/movies/movies.go:133 | the path `Provider.flatrate.provider_id` reaches each flat-rate provider's id, in order |
| GetMovie.GetMovieAsWritten | modules/movies/movies.go:189-210 | as written, without a lookup the handler has always answered 400 |
| GetMovie.GetMovieLookup | modules/movies/movies.go:189-210 | a given TMDB id is looked up if it parses; otherwise title and year are both required and the year must parse; missing title or year is its own error |
| GetMovie.TmdbIdTakesPrecedence | modules/movies/movies.go:191-196 | with a TMDB id, title and year do not matter, and the lookup fails iff the id is not an integer |
| GetMovie.LookupByFormattedId | modules/movies/movies.go:191-196 | a decimal 64-bit id is looked up as itself |
| GetMovie.LookupByTitleAndYear | modules/movies/movies.go:198-210 | without an id, a title and a decimal year look up that title in that year |
| GetMovie.AsWrittenAgreesWhenValid | modules/movies/movies.go:189-210 | the handler as written answers 400 iff the intended selection fails, and otherwise sends the intended lookup |
| GetMovie.BadIdStillLooksUpZero | modules/movies/movies.go:191-196 | as written, `tmdbid=abc` answers 400 and still looks up TMDB id 0 |
| GetMovie.BadYearStillLooksUpZero | modules/movies/movies.go:204-209 | as written, a non-integer year answers 400 and still looks up year 0 |
| GetMovie.OverflowingIdLooksUpMax | modules/movies/movies.go:191-196 | as written, an id of twenty nines and a non-digit answers 400 and still looks up TMDB id 2^63-1 |
| GetMovie.RecentLimitAbsent | modules/movies/movies.go:507-510 | without `count` the page size is 20 |
| GetMovie.RecentLimitOfFormatted | modules/movies/movies.go:507-510 | a decimal 64-bit `count` is the page size |
| Grouping.GroupBySpec | modules/movies/movies.go:265-268 | `$group` gives each key once, each group holds exactly the records with its key, and a key has a group iff some record has it |
| Grouping.GroupSizes | modules/movies/movies.go:265-268 | the groups whose keys satisfy a condition hold as many records as there are records with such keys |
| Grouping.SelectSize | modules/movies/movies.go:267 | a group's `$sum: 1` is the number of records with its key |
| Grouping.IndexOfKey | modules/movies/movies.go:265-268 | finds the group of a key, or reports that there is none |
| Facets.UniverseEntrySpec | modules/movies/movies.go:264-301 | per universe: `totalCount` is its number of movies and equals the named sub-universes' counts plus `noSubUniverseCount`; `noSubUniverseCount` counts its movies without a sub-universe; no child is the sentinel; each child counts the movies of one stored universe value (missing, null or the text) with that sub-universe; for a named universe a child counts all its movies of that sub-universe and child names are distinct |
| Facets.NullUniverseSplits | modules/movies/movies.go:264-301 | under null the facet can list a sub-universe twice with split counts: a movie without `Universe` and one storing null, both of sub-universe `X`, give the null entry the children `X:1` and `X:1` |
| Facets.UniverseFacetKeys | modules/movies/movies.go:264-301 | each universe is listed once, and a universe (or null) is listed iff some movie belongs to it |
| Facets.ChildrenTotal | modules/movies/movies.go:269-276 | a universe's pushed children sum to its stage-one counts |
| Facets.ChildrenUnnamed | modules/movies/movies.go:269-276 | the sentinel part of a universe's pushed children is the count of its movies without a sub-universe |
| Facets.ChildrenFrom | modules/movies/movies.go:269-276 | every pushed child is one stage-one group of that universe, and every such group is pushed |
| Facets.ChildrenDistinct | modules/movies/movies.go:269-276 | the children of a named universe carry distinct sub-universe names |
| Facets.TotalSplits | modules/movies/movies.go:280-298 | the `$filter` and the `$map`/`$cond` sum split the total: named children plus sentinel count, no kept child is the sentinel |
| Facets.NamedMembers | modules/movies/movies.go:280-286 | `$filter` keeps exactly the children that are not the sentinel |
| Facets.KeyedUniverseCount | modules/movies/movies.go:266 | the pair keys with universe `u` are as many as the movies of `u` |
| Facets.KeyedPairCount | modules/movies/movies.go:266 | the `(v, s)` pair key, for a sub-universe other than the sentinel, counts the movies whose universe is stored as `v` with sub-universe `s` |
| Facets.KeyedUnnamedCount | modules/movies/movies.go:266 | the sentinel pair keys of universe `u` (missing and null both reading as null) count its movies without a sub-universe |
| Facets.DirectorFacetSpec | modules/movies/movies.go:425-441 | the facet lists exactly the directors with at least three movies, each once with its number of movies, in non-increasing count, a reordering of the `$match` output |
| Facets.DirectorCountsSpec | modules/movies/movies.go:426-429 | the `$group` lists each director once, with its number of movies, and lists a director iff it has a movie |
| Facets.SortByCountSpec | modules/movies/movies.go:433-435 | sorting by `totalCount: -1` orders counts non-increasingly and only reorders the entries |
| Facets.InsertSorted | modules/movies/movies.go:433-435 | inserting into a list ordered by count descending keeps it so ordered |
| Facets.InsertPermutes | modules/movies/movies.go:433-435 | inserting adds exactly the one entry and keeps every other |
| Facets.FrequentMembers | modules/movies/movies.go:430-432 | `$match` keeps exactly the counts of at least three |
| Facets.FrequentDistinct | modules/movies/movies.go:430-432 | `$match` keeps director names distinct |
| Facets.DistinctAfterReorder | modules/movies/movies.go:433-435 | a reordering keeps distinct names distinct |

## Left out

- HTTP and routing (`c.Query`, `c.QueryArray`, `c.JSON`, status codes, response bodies). Parameters are strings, or sequences of strings, with "" for an absent one. The 400 responses are error values; their message texts are in comments only.
- The database calls `Find`, `FindOne`, `Aggregate`, `Distinct` and `CountDocuments`, and cursor decoding. These are foreign calls. `Eval` gives only the matching semantics of the filters built.
- The result orderings chosen by the store: by `Ranking` in the listing and by `ms_added` in `GetMostRecent`.
- Everything in `main.go`: environment loading, connection, CORS, route registration and login. It is start-up and I/O plumbing.
- The genre facet. It rests on the store's `$facet` and `$setUnion`, which also merges equal `{_id, totalCount}` pairs.
- The provider facet. Its `$first` depends on the document order, which the code does not fix.
- The `Distinct` lists and the runtime minimum and maximum. They are single store primitives with no logic of the service's own.
- `GetMovieById`. It repeats `GetMovie`'s missing `return` on a bad id, with `$in` over the converted list.
- Grouping order: the store returns `$group` output in no fixed order. `GroupBy` uses first appearance, and ties in the director sort keep input order. No proved property depends on either choice.
- The 32-bit document fields (`Year`, `Runtime`, `TMDBId`) are unbounded integers in `Movie`. Stored values are assumed to fit.
- The record fields no filter or facet reads, such as ratings, plot and box office. They are not part of `Movie`.
- GetMovie.GetMovieAsWritten: the handler also sends the looked-up movie (or a 500) after its 400, as a second response body. The model records only that a 400 was written and which lookup followed.
- GetMovie.RecentLimit: the store's treatment of a zero or negative limit is not modelled, only the value passed to it.
- Memory: `ListQuery` returns the whole year list however long it is. A wide but valid decade such as `0-4000000000` makes `parseDecade` append four billion integers (about 32 GB), and the process runs out of memory before any filter is sent; the model has no memory bound.
- Parsers.DecadeLoopAtMaxNeverEnds: the endless loop as written is shown up to any finite number of iterations (`fuel`), since a non-terminating loop cannot be a Dafny function.

## Findings

| source | as written | input that shows it | evidently intended | confidence | as-written member | corrected member |
|---|---|---|---|---|---|---|
| modules/movies/movies.go:178-180 | `for y := startYear; y <= endYear; y++` on a 64-bit `int`: with `endYear` = 2^63-1 the guard is always true and `y++` wraps to -2^63, so the loop never ends and the slice grows until memory runs out | `decade=9223372036854775807-9223372036854775807` | the one-year range `[9223372036854775807]`; in general exactly the years from start to end | high; not executed | Parsers.DecadeLoopAtMaxNeverEnds | Parsers.ParseDecade |
| modules/movies/movies.go:191-209 | after writing the 400 for a non-integer `tmdbid` or `year` there is no `return`, so the handler goes on to look up the value `strconv.Atoi` returned with its error (id or year 0 for text such as `abc`) and writes a second response | `tmdbid=abc` | end the request after the 400, as the other error paths do | high; not executed | GetMovie.BadIdStillLooksUpZero | GetMovie.GetMovieLookup |
