/**
  * The single-movie lookup: a TMDB id takes precedence, otherwise a title together with
  * a year; and the page size of the most-recent listing.
  */
module GetMovie {
  import opened Wrappers
  import opened Strconv

  /** The lookup the handler sends to the store: `{TMDBId: id}` or `{Movie: title, Year: year}`. */
  datatype Lookup = ByTmdbId(id: int) | ByTitleYear(title: string, year: int)

  /**
    * The 400 responses. A non-integer TMDB id is answered with the message "year must be
    * an integer", the same text as a non-integer year.
    */
  datatype LookupError = BadTmdbId | MissingTitleOrYear | BadYear

  /**
    * What the handler does as written: whether it wrote a 400 response, and the lookup it
    * then sends to the store, if it goes on. After a parse error it does not stop, so it
    * still looks up the value `strconv.Atoi` returned with the error.
    */
  datatype Outcome = Outcome(badRequest: bool, lookup: Option<Lookup>)

  /** The selection of `GetMovie` as written, query parameters absent being "". */
  function GetMovieAsWritten(tmdbid: string, title: string, year: string): (o: Outcome)
    ensures o.lookup.None? ==> o.badRequest
  {
    if tmdbid != "" then
      Outcome(Atoi(tmdbid).None?, Some(ByTmdbId(AtoiValue(tmdbid))))
    else if title == "" || year == "" then
      Outcome(true, None)
    else
      Outcome(Atoi(year).None?, Some(ByTitleYear(title, AtoiValue(year))))
  }

  /** The selection as evidently intended: every 400 ends the request. */
  function GetMovieLookup(tmdbid: string, title: string, year: string): (r: Result<Lookup, LookupError>)
    ensures r.Success? && r.value.ByTmdbId? ==> tmdbid != "" && Atoi(tmdbid) == Some(r.value.id)
    ensures r.Success? && r.value.ByTitleYear? ==>
      tmdbid == "" && title != "" && r.value.title == title && Atoi(year) == Some(r.value.year)
    ensures r == Failure(MissingTitleOrYear) <==> tmdbid == "" && (title == "" || year == "")
  {
    if tmdbid != "" then
      match Atoi(tmdbid)
      case None => Failure(BadTmdbId)
      case Some(id) => Success(ByTmdbId(id))
    else if title == "" || year == "" then
      Failure(MissingTitleOrYear)
    else
      match Atoi(year)
      case None => Failure(BadYear)
      case Some(y) => Success(ByTitleYear(title, y))
  }

  /** A given TMDB id decides the lookup; title and year are then ignored. */
  lemma TmdbIdTakesPrecedence(tmdbid: string, title: string, year: string, title': string, year': string)
    requires tmdbid != ""
    ensures GetMovieLookup(tmdbid, title, year) == GetMovieLookup(tmdbid, title', year')
    ensures GetMovieLookup(tmdbid, title, year).Failure? <==> Atoi(tmdbid).None?
  {
  }

  /** Any id the store can hold, written in decimal, is looked up as itself. */
  lemma LookupByFormattedId(n: int, title: string, year: string)
    requires InInt64(n)
    ensures GetMovieLookup(Itoa(n), title, year) == Success(ByTmdbId(n))
  {
    AtoiItoa(n);
    assert |Itoa(n)| > 0;
  }

  /** Without an id, a title and a decimal year look up that title in that year. */
  lemma LookupByTitleAndYear(title: string, n: int)
    requires title != "" && InInt64(n)
    ensures GetMovieLookup("", title, Itoa(n)) == Success(ByTitleYear(title, n))
  {
    AtoiItoa(n);
    assert |Itoa(n)| > 0;
  }

  /**
    * The handler as written writes a 400 exactly when the intended selection fails, and
    * when it writes none it sends the intended lookup.
    */
  lemma AsWrittenAgreesWhenValid(tmdbid: string, title: string, year: string)
    ensures GetMovieAsWritten(tmdbid, title, year).badRequest <==>
            GetMovieLookup(tmdbid, title, year).Failure?
    ensures !GetMovieAsWritten(tmdbid, title, year).badRequest ==>
            GetMovieLookup(tmdbid, title, year) == Success(GetMovieAsWritten(tmdbid, title, year).lookup.value)
  {
    if tmdbid != "" && Atoi(tmdbid).Some? {
      assert AtoiValue(tmdbid) == Atoi(tmdbid).value;
    }
    if tmdbid == "" && title != "" && year != "" && Atoi(year).Some? {
      assert AtoiValue(year) == Atoi(year).value;
    }
  }

  /**
    * As written, a malformed id is answered with a 400 and the handler still goes on to
    * look up TMDB id 0, the value `strconv.Atoi` returns with a syntax error.
    */
  lemma BadIdStillLooksUpZero()
    ensures GetMovieAsWritten("abc", "", "") == Outcome(true, Some(ByTmdbId(0)))
    ensures GetMovieLookup("abc", "", "") == Failure(BadTmdbId)
  {
    assert !IsDigit('a');
    assert Atoi("abc").None?;
  }

  /** The same for a malformed year: a 400, then the lookup of year 0. */
  lemma BadYearStillLooksUpZero(title: string)
    requires title != ""
    ensures GetMovieAsWritten("", title, "x") == Outcome(true, Some(ByTitleYear(title, 0)))
    ensures GetMovieLookup("", title, "x") == Failure(BadYear)
  {
    assert !IsDigit('x');
    assert Atoi("x").None?;
  }

  /**
    * As written, an id whose digits overflow before a non-digit is answered with a 400,
    * and the handler goes on to look up TMDB id 2^63 - 1, the bound `strconv.Atoi` returns
    * with its range error.
    */
  lemma OverflowingIdLooksUpMax(id: string)
    requires |id| == 21 && (forall i :: 0 <= i < 20 ==> id[i] == '9') && !IsDigit(id[20])
    ensures GetMovieAsWritten(id, "", "") == Outcome(true, Some(ByTmdbId(MaxInt64)))
    ensures GetMovieLookup(id, "", "") == Failure(BadTmdbId)
  {
    OverflowBeforeJunk(id, false);
  }

  /** The default page size of the most-recent listing. */
  const DefaultRecentLimit := 20

  /**
    * The page size of `GetMostRecent`: `count` parsed as a 64-bit decimal integer, or 20
    * when it is absent, malformed or out of range.
    */
  function RecentLimit(count: string): (limit: int)
    ensures InInt64(limit)
    ensures Atoi(count).None? ==> limit == DefaultRecentLimit
    ensures Atoi(count).Some? ==> limit == Atoi(count).value
  {
    match Atoi(count)
    case None => DefaultRecentLimit
    case Some(n) => n
  }

  lemma RecentLimitAbsent()
    ensures RecentLimit("") == DefaultRecentLimit
  {
    AtoiRejectsEmpty();
  }

  /** A count the store accepts, written in decimal, is the page size. */
  lemma RecentLimitOfFormatted(n: int)
    requires InInt64(n)
    ensures RecentLimit(Itoa(n)) == n
  {
    AtoiItoa(n);
  }
}
