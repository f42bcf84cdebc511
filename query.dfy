/**
  * The catalogue record and the filter expressions the listing handler sends to the
  * document store, with the store's matching semantics for them.
  */
module Query {
  import opened Wrappers

  /** One streaming offer in a movie's `Provider.flatrate` list. */
  datatype ProviderInfo = ProviderInfo(
    logoPath: string,
    providerId: int,
    providerName: string,
    displayPriority: int)

  /**
    * A string field as a document stores it: left out, an explicit null, or text. Most
    * readers cannot tell the first two apart; a compound `$group` key can.
    */
  datatype Stored = Missing | Null | Text(text: string)

  /** The field as a single-value expression reads it: null when it is left out or null. */
  function Nullable(v: Stored): Option<string>
  {
    if v.Text? then Some(v.text) else None
  }

  /**
    * A stored movie document, restricted to the fields the filters and facets read.
    * Documents are sparse, so every scalar field may be missing (None). `Universe` keeps
    * a missing field apart from an explicit null, because the universe facet's first
    * group key does.
    */
  datatype Movie = Movie(
    title: Option<string>,
    universe: Stored,
    subUniverse: Option<string>,
    genre: Option<string>,
    genre2: Option<string>,
    holiday: Option<string>,
    exclusive: Option<string>,
    studio: Option<string>,
    year: Option<int>,
    director: Option<string>,
    runtime: Option<int>,
    flatrate: seq<ProviderInfo>,
    tmdbId: Option<int>)

  /** Document fields holding strings. */
  datatype StrField = Genre | Genre2 | Universe | SubUniverse | Exclusive | Studio | Holiday | Director

  /** Document fields holding numbers; `FlatrateProviderId` is the path `Provider.flatrate.provider_id`. */
  datatype IntField = Year | Runtime | FlatrateProviderId

  /**
    * A filter document: `{}` (MatchAll), `$and`, `$or`, `{field: {$in: values}}` and
    * `{field: {$gt: gt, $lt: lt}}`.
    */
  datatype Query =
    | MatchAll
    | And(clauses: seq<Query>)
    | Or(alternatives: seq<Query>)
    | InStr(sfield: StrField, strs: seq<string>)
    | InInt(ifield: IntField, ints: seq<int>)
    | Between(bfield: IntField, gt: int, lt: int)

  function StrValue(m: Movie, f: StrField): Option<string>
  {
    match f
    case Genre => m.genre
    case Genre2 => m.genre2
    case Universe => Nullable(m.universe)
    case SubUniverse => m.subUniverse
    case Exclusive => m.exclusive
    case Studio => m.studio
    case Holiday => m.holiday
    case Director => m.director
  }

  function OptionToSeq(o: Option<int>): seq<int>
  {
    if o.Some? then [o.value] else []
  }

  function ProviderIds(ps: seq<ProviderInfo>): (ids: seq<int>)
    ensures |ids| == |ps| && forall i :: 0 <= i < |ps| ==> ids[i] == ps[i].providerId
  {
    if |ps| == 0 then [] else [ps[0].providerId] + ProviderIds(ps[1..])
  }

  /**
    * The numbers a path reaches in a document: none for a missing field, one for a
    * scalar field, and one per array element for the provider path.
    */
  function IntValues(m: Movie, f: IntField): seq<int>
  {
    match f
    case Year => OptionToSeq(m.year)
    case Runtime => OptionToSeq(m.runtime)
    case FlatrateProviderId => ProviderIds(m.flatrate)
  }

  /**
    * Whether document `m` matches filter `q`. `$in` on a missing field is false (no
    * requested value is null); on an array path it holds when some element is listed.
    * A `$gt`/`$lt` pair on an array path holds when some element is above `gt` and some
    * element is below `lt`; on a scalar field both must hold of the one value.
    */
  predicate Eval(q: Query, m: Movie)
  {
    match q
    case MatchAll => true
    case And(cs) => forall c | c in cs :: Eval(c, m)
    case Or(cs) => exists c | c in cs :: Eval(c, m)
    case InStr(f, vs) => StrValue(m, f).Some? && StrValue(m, f).value in vs
    case InInt(f, vs) => exists v | v in IntValues(m, f) :: v in vs
    case Between(f, lo, hi) =>
      (exists v | v in IntValues(m, f) :: lo < v) && (exists w | w in IntValues(m, f) :: w < hi)
  }

  /**
    * The store accepts the filter: `$and`, `$or` and `$in` are given non-empty arrays
    * (an empty `$and` or `$or` array is rejected by the store).
    */
  predicate WellFormed(q: Query)
  {
    match q
    case MatchAll => true
    case And(cs) => |cs| > 0 && forall c | c in cs :: WellFormed(c)
    case Or(cs) => |cs| > 0 && forall c | c in cs :: WellFormed(c)
    case InStr(_, vs) => |vs| > 0
    case InInt(_, vs) => |vs| > 0
    case Between(_, _, _) => true
  }

  /** On a scalar field a range holds exactly when the value lies strictly inside it. */
  lemma BetweenScalar(m: Movie, lo: int, hi: int)
    ensures Eval(Between(Runtime, lo, hi), m) <==> m.runtime.Some? && lo < m.runtime.value < hi
  {
    if m.runtime.Some? {
      assert IntValues(m, Runtime) == [m.runtime.value];
      assert m.runtime.value in IntValues(m, Runtime);
    }
  }

  /** A range whose bounds are equal, or reversed, matches no document on a scalar field. */
  lemma EmptyRangeMatchesNothing(m: Movie, lo: int, hi: int)
    requires hi <= lo
    ensures !Eval(Between(Runtime, lo, hi), m)
    ensures !Eval(Between(Year, lo, hi), m)
  {
    BetweenScalar(m, lo, hi);
    if m.year.Some? {
      assert IntValues(m, Year) == [m.year.value];
    }
  }
}
