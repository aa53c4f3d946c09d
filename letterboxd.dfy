/** `get_letterboxd_movie_data` (src/request_movie_site_data.py): the choice of
    a film among the search results, the user's own rating, the cast text and
    the identifiers taken from the film's TMDB and IMDb links. The search
    results, the film page and the user's logged films are given as data. */
module Letterboxd {
  import opened Strings
  import opened Dicts

  const AverageKey := "Letterboxd Average Rating"
  const MyRatingKey := "Letterboxd My Rating"
  const ReviewCountKey := "Letterboxd Review Count"
  const RatingCountKey := "Letterboxd Rating Count"
  const CastKey := "Cast (from Letterboxd)"
  const RuntimeKey := "Runtime (from Letterboxd)"
  const TmdbIdKey := "TMDB ID (from Letterboxd)"
  const ImdbIdKey := "IMDb ID (from Letterboxd)"

  /** The fields of a found film, in the order they are filled in. */
  const FilmKeys := [AverageKey, MyRatingKey, ReviewCountKey, RatingCountKey,
                     CastKey, RuntimeKey, TmdbIdKey, ImdbIdKey]

  lemma FilmKeysDistinct()
    ensures Distinct(FilmKeys)
  {
  }

  /** One search result: its year (`None` when the site gives none) and slug. */
  datatype SearchResult = SearchResult(year: Option<int>, slug: string)

  /** The film search's answer. */
  datatype Search = Unavailable | Available(results: seq<SearchResult>)

  /** What the film's page gives. */
  datatype Film = Film(rating: Value, reviewCount: Value, ratingCount: Value, cast: seq<string>,
                       runtime: Value, tmdbLink: string, imdbLink: string)

  /** The user's logged films: slug to rating out of ten, `None` for a film
      logged without a rating. */
  type UserRatings = map<string, Option<int>>

  // ---- choosing the film ----

  /** The result's year is the requested one or one year either side. */
  predicate InWindow(result: SearchResult, year: int)
  {
    result.year.Some? && year - 1 <= result.year.value < year + 2
  }

  /** Result `k` is in the window and no earlier one is. */
  predicate FirstInWindow(results: seq<SearchResult>, year: int, k: int)
  {
    && 0 <= k < |results|
    && InWindow(results[k], year)
    && forall j :: 0 <= j < k ==> !InWindow(results[j], year)
  }

  /** The index of the first result within a year of `year`, if any. */
  function FirstWindow(results: seq<SearchResult>, year: int): (r: Option<nat>)
    ensures r.None? <==> forall k :: 0 <= k < |results| ==> !InWindow(results[k], year)
    ensures r.Some? ==> FirstInWindow(results, year, r.value)
  {
    if |results| == 0 then None
    else if InWindow(results[0], year) then Some(0)
    else
      var rest := results[1..];
      assert forall k :: 1 <= k < |results| ==> results[k] == rest[k - 1];
      match FirstWindow(rest, year)
      case None => None
      case Some(k) => Some(k + 1)
  }

  /** The text searched for (line 175): the title as `str` renders it, with
      every '/' turned into a space. */
  function SearchQuery(title: Value): (q: string)
    ensures '/' !in q
  {
    ReplaceChar(PyStr(title), '/', ' ')
  }

  /** The slug loop (lines 185-189): the slug of the first result within a year
      of the requested one, or "" when there is none. */
  method ChooseSlug(year: int, results: seq<SearchResult>) returns (slug: string)
    ensures (forall k :: 0 <= k < |results| ==> !InWindow(results[k], year)) ==> slug == ""
    ensures forall k :: FirstInWindow(results, year, k) ==> slug == results[k].slug
  {
    slug := "";
    var i := 0;
    while i < |results|
      invariant i <= |results|
      invariant slug == ""
      invariant forall j :: 0 <= j < i ==> !InWindow(results[j], year)
    {
      var result := results[i];
      if result.year.Some? && year - 1 <= result.year.value < year + 2 {
        slug := result.slug;
        assert forall k :: FirstInWindow(results, year, k) ==> k == i;
        break;
      }
      i := i + 1;
    }
  }

  // ---- the film's fields ----

  /** `My Rating` (line 195): half the logged rating out of ten, "Not Rated"
      for a film logged without one, None for a film not logged. */
  function MyRating(slug: string, ratings: UserRatings): (r: Value)
    ensures slug !in ratings ==> r == Null
    ensures slug in ratings && ratings[slug].None? ==> r == Text("Not Rated")
    ensures slug in ratings && ratings[slug].Some? ==>
              && r.Float? && r.places <= 1
              && 2 * r.units == ratings[slug].value * (if r.places == 0 then 1 else 10)
  {
    if slug in ratings then
      match ratings[slug]
      case Some(n) => if n % 2 == 0 then Float(n / 2, 0) else Float(n * 5, 1)
      case None => Text("Not Rated")
    else Null
  }

  /** The cast field (line 198): the names with their commas removed, joined
      by ", ". */
  function CastText(cast: seq<string>): string
  {
    Join(", ", RemoveEach(cast, ','))
  }

  /** Splitting the cast field at ", ", as the enrichment loop does when it
      passes the cast on (src/get_movie_info.py, line 113), gives back every
      name, comma-free, in order: no name can hold the separator. */
  lemma CastReadBack(cast: seq<string>)
    requires |cast| > 0
    ensures Split(CastText(cast), ", ") == RemoveEach(cast, ',')
  {
    var names := RemoveEach(cast, ',');
    forall p | p in names ensures ", "[0] !in p {
      var i :| 0 <= i < |names| && names[i] == p;
      RemoveSpec(cast[i], ',');
    }
    SplitJoin(", ", names);
  }

  /** The index of the last '/' in `s`. */
  function LastSlash(s: string): (r: Option<nat>)
    ensures r.Some? ==> r.value < |s| && s[r.value] == '/'
    ensures r.Some? ==> forall k :: r.value < k < |s| ==> s[k] != '/'
    ensures r.None? ==> '/' !in s
    decreases |s|
  {
    if |s| == 0 then None
    else if s[|s| - 1] == '/' then Some(|s| - 1)
    else
      var r := LastSlash(s[..|s| - 1]);
      assert forall k :: 0 <= k < |s| - 1 ==> s[k] == s[..|s| - 1][k];
      r
  }

  /** `link.rsplit('/', 2)[1]` (lines 200-201): the text between the last two
      slashes, or after the only slash; `None` for a link with no slash, where
      Python raises IndexError. */
  function IdFromLink(link: string): (r: Option<string>)
    ensures r.None? <==> '/' !in link
    ensures r.Some? ==> '/' !in r.value
  {
    match LastSlash(link)
    case None => None
    case Some(j) =>
      assert forall x :: x in link[j + 1..] ==> x in link && x != '/';
      match LastSlash(link[..j])
      case None => Some(link[j + 1..])
      case Some(i) =>
        assert forall k :: i < k < j ==> link[k] == link[..j][k];
        assert forall k :: i < k < j ==> link[i + 1..j][k - i - 1] == link[k];
        Some(link[i + 1..j])
  }

  /** The links Letterboxd gives end in `/<id>/`: the identifier read back is
      that `<id>`, whatever comes before it. */
  lemma IdFromCanonicalLink(prefix: string, id: string)
    requires '/' !in id
    ensures IdFromLink(prefix + "/" + id + "/") == Some(id)
  {
    var link := prefix + "/" + id + "/";
    var j := |link| - 1;
    assert LastSlash(link) == Some(j);
    var head := link[..j];
    assert head == prefix + "/" + id;
    var i := |prefix|;
    assert head[i] == '/';
    forall k | i < k < |head| ensures head[k] != '/' {
      assert head[k] == id[k - i - 1];
    }
    assert LastSlash(head) == Some(i);
    assert link[i + 1..j] == id;
  }

  /** The values of a found film's fields, in the order of `FilmKeys`. */
  function FilmValues(slug: string, ratings: UserRatings, film: Film, tmdbId: string, imdbId: string): seq<Value>
  {
    [film.rating, MyRating(slug, ratings), film.reviewCount, film.ratingCount,
     Text(CastText(film.cast)), film.runtime, Text(tmdbId), Text(imdbId)]
  }

  /** The eight fields of a found film, filled in order (lines 193-201): each
      key holds its value and the keys come in that order. */
  function FilmFields(slug: string, ratings: UserRatings, film: Film, tmdbId: string, imdbId: string): (d: Dict)
    ensures d.keys == FilmKeys
    ensures forall i :: 0 <= i < |FilmKeys| ==>
              d.vals[FilmKeys[i]] == FilmValues(slug, ratings, film, tmdbId, imdbId)[i]
    ensures CastKey in d.vals && d.vals[CastKey] == Text(CastText(film.cast))
  {
    var fields := FilmValues(slug, ratings, film, tmdbId, imdbId);
    FilmKeysDistinct();
    assert FilmKeys[4] == CastKey;
    assert Empty.keys + FilmKeys == FilmKeys;
    PutAllKeys(Empty, FilmKeys, fields);
    PutAllValues(Empty, FilmKeys, fields);
    PutAll(Empty, FilmKeys, fields)
  }

  /** A found film's fields; `None` when one of the two links has no slash
      (the IndexError of lines 200-201). */
  function FilmData(slug: string, ratings: UserRatings, film: Film): (r: Option<Dict>)
    ensures r.None? <==> '/' !in film.tmdbLink || '/' !in film.imdbLink
    ensures r.Some? ==>
              r.value == FilmFields(slug, ratings, film, IdFromLink(film.tmdbLink).value, IdFromLink(film.imdbLink).value)
  {
    match IdFromLink(film.tmdbLink)
    case None => None
    case Some(tmdbId) =>
      match IdFromLink(film.imdbLink)
      case None => None
      case Some(imdbId) => Some(FilmFields(slug, ratings, film, tmdbId, imdbId))
  }

  /** What `get_letterboxd_movie_data` returns for a year already read as an
      integer: the fields of the first film within a year, or nothing. */
  function LetterboxdData(year: int, ratings: UserRatings, search: Search, films: string -> Film): (r: Option<Dict>)
    ensures r.Some? ==> r.value.keys == [] || r.value.keys == FilmKeys
    ensures r.None? ==> search.Available? && FirstWindow(search.results, year).Some?
    ensures r.Some? && r.value.keys != [] ==> CastKey in r.value.vals && r.value.vals[CastKey].Text?
  {
    if search.Unavailable? then Some(Empty)
    else match FirstWindow(search.results, year)
      case None => Some(Empty)
      case Some(k) =>
        var slug := search.results[k].slug;
        if slug == "" then Some(Empty) else FilmData(slug, ratings, films(slug))
  }

  /** `get_letterboxd_movie_data` (lines 169-203) with the search service and
      the film pages given as functions: `None` where Python raises (a year
      that `int` refuses, a link without a slash). */
  function LetterboxdLookup(title: Value, year: Value, ratings: UserRatings,
                            search: string -> Search, films: string -> Film): Option<Dict>
  {
    match PyInt(year)
    case None => None
    case Some(y) => LetterboxdData(y, ratings, search(SearchQuery(title)), films)
  }

  /** The film chosen is the first result within a year of the requested one. */
  lemma LetterboxdChoosesFirst(year: int, ratings: UserRatings, search: Search, films: string -> Film, k: int)
    requires search.Available? && FirstInWindow(search.results, year, k)
    ensures var slug := search.results[k].slug;
            LetterboxdData(year, ratings, search, films) == if slug == "" then Some(Empty) else FilmData(slug, ratings, films(slug))
  {
    var r := FirstWindow(search.results, year);
    FirstInWindowUnique(search.results, year, r.value, k);
  }

  /** The answer for a slug that the slug loop can have chosen. */
  lemma ChosenSlugData(year: int, ratings: UserRatings, search: Search, films: string -> Film, slug: string)
    requires search.Available?
    requires (forall k :: 0 <= k < |search.results| ==> !InWindow(search.results[k], year)) ==> slug == ""
    requires forall k :: FirstInWindow(search.results, year, k) ==> slug == search.results[k].slug
    ensures LetterboxdData(year, ratings, search, films) == if slug == "" then Some(Empty) else FilmData(slug, ratings, films(slug))
  {
    match FirstWindow(search.results, year)
    case None =>
    case Some(k) => LetterboxdChoosesFirst(year, ratings, search, films, k);
  }

  lemma FirstInWindowUnique(results: seq<SearchResult>, year: int, a: int, b: int)
    requires FirstInWindow(results, year, a) && FirstInWindow(results, year, b)
    ensures a == b
  {
  }

  /** A year `int` refuses makes the lookup raise before anything is searched;
      an unavailable search, or one with no result within a year, gives
      nothing. */
  lemma LetterboxdEmptyCases(title: Value, year: Value, ratings: UserRatings, search: string -> Search, films: string -> Film)
    ensures PyInt(year).None? ==> LetterboxdLookup(title, year, ratings, search, films).None?
    ensures PyInt(year).Some? && search(SearchQuery(title)).Unavailable? ==>
              LetterboxdLookup(title, year, ratings, search, films) == Some(Empty)
    ensures PyInt(year).Some? && search(SearchQuery(title)).Available? &&
            (forall k :: 0 <= k < |search(SearchQuery(title)).results| ==>
                           !InWindow(search(SearchQuery(title)).results[k], PyInt(year).value)) ==>
              LetterboxdLookup(title, year, ratings, search, films) == Some(Empty)
  {
  }

  /** The function step by step: the year read as an integer, the search, the
      slug loop and the film's fields. */
  method GetLetterboxdMovieData(title: Value, year: Value, ratings: UserRatings,
                                search: string -> Search, films: string -> Film)
    returns (data: Option<Dict>)
    ensures data == LetterboxdLookup(title, year, ratings, search, films)
  {
    var y := PyInt(year);
    if y.None? {
      return None;
    }
    var letterboxdData := Empty;
    var searchData := search(SearchQuery(title));
    if searchData.Unavailable? {
      return Some(letterboxdData);
    }
    var slug := ChooseSlug(y.value, searchData.results);
    ChosenSlugData(y.value, ratings, searchData, films, slug);
    if slug != "" {
      data := FilmData(slug, ratings, films(slug));
    } else {
      data := Some(letterboxdData);
    }
  }
}
