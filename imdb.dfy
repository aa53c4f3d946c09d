/** `search_imdb` (src/request_movie_site_data.py): which IMDb identifier is
    looked up, and the three fields taken from the title endpoint's answer. */
module Imdb {
  import opened Strings
  import opened Dicts

  const IdKey := "IMDb ID"
  const LetterboxdIdKey := "IMDb ID (from Letterboxd)"
  const RatingKey := "IMDb Rating"
  const MetascoreKey := "Metascore"
  const PosterKey := "Poster URL"
  const NotListed := Text("Not Listed")

  /** The title endpoint's answer: `Unreachable` when the request itself
      failed; otherwise the status and, for a 200, the aggregate rating, the
      Metacritic score (`None` when the answer has none) and the poster URL. */
  datatype TitleResponse =
    | Unreachable
    | Response(status: int, rating: Value, metascore: Option<Value>, posterUrl: Value)

  /** The identifier to look up (line 78): the record's own IMDb ID unless it is
      missing or None, then the one found on Letterboxd, else None. */
  function IdToQuery(rec: Dict): (id: Value)
    ensures id == Null || (IdKey in rec.vals && id == rec.vals[IdKey])
                       || (LetterboxdIdKey in rec.vals && id == rec.vals[LetterboxdIdKey])
    ensures IdKey in rec.vals && rec.vals[IdKey] != Null ==> id == rec.vals[IdKey]
    ensures id == Null <==>
              (IdKey !in rec.vals || rec.vals[IdKey] == Null)
              && (LetterboxdIdKey !in rec.vals || rec.vals[LetterboxdIdKey] == Null)
  {
    if IdKey in rec.vals && rec.vals[IdKey] != Null then rec.vals[IdKey]
    else if LetterboxdIdKey in rec.vals then rec.vals[LetterboxdIdKey]
    else Null
  }

  /** `search_imdb` (lines 75-99) with the request's outcome given by `fetch`:
      nothing unless the identifier is a string and the endpoint answers 200;
      then rating, Metascore ("Not Listed" when there is none) and poster, in
      that order. */
  function SearchImdb(rec: Dict, fetch: string -> TitleResponse): (imdbData: Dict)
    ensures imdbData.keys == [] || imdbData.keys == [RatingKey, MetascoreKey, PosterKey]
    ensures imdbData.keys != [] <==>
              IdToQuery(rec).Text? && fetch(IdToQuery(rec).s).Response? && fetch(IdToQuery(rec).s).status == 200
    ensures imdbData.keys != [] ==>
              var answer := fetch(IdToQuery(rec).s);
              && imdbData.vals[RatingKey] == answer.rating
              && imdbData.vals[PosterKey] == answer.posterUrl
              && (imdbData.vals[MetascoreKey] == NotListed <==> answer.metascore.None? || answer.metascore.value == NotListed)
              && (answer.metascore.Some? ==> imdbData.vals[MetascoreKey] == answer.metascore.value)
  {
    match IdToQuery(rec)
    case Text(id) =>
      (match fetch(id)
       case Response(200, rating, metascore, poster) =>
         var score := if metascore.Some? then metascore.value else NotListed;
         FieldKeysDistinct();
         ThreePuts(RatingKey, MetascoreKey, PosterKey, rating, score, poster);
         Put(Put(Put(Empty, RatingKey, rating), MetascoreKey, score), PosterKey, poster)
       case _ => Empty)
    case _ => Empty
  }

  lemma FieldKeysDistinct()
    ensures RatingKey != MetascoreKey && RatingKey != PosterKey && MetascoreKey != PosterKey
  {
    assert RatingKey[0] == 'I' && MetascoreKey[0] == 'M' && PosterKey[0] == 'P';
  }
}
