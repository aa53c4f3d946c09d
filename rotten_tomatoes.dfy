/** `scrape_rotten_tomatoes` (src/request_movie_site_data.py): the search text
    made from the title, the rule that picks a search-result row, and the two
    scores taken from the chosen film's page. The pages themselves are given as
    data. */
module RottenTomatoes {
  import opened Strings
  import opened Dicts

  const CriticKey := "Tomatometer (Critic Score)"
  const AudienceKey := "Popcornmeter (Audience Score)"
  const NotListed := Text("Not Listed")

  // ---- the search text ----

  /** `c.isalnum()` for ASCII letters and digits. */
  predicate IsAlnum(c: char)
  {
    'a' <= c <= 'z' || 'A' <= c <= 'Z' || '0' <= c <= '9'
  }

  /** Python's truth value of a string. */
  predicate Truthy(s: string)
  {
    |s| > 0
  }

  /** One item of the comprehension at line 104. Its second test reads
      `(c == ' ') or '.'`, and the literal '.' is a true value, so the empty
      alternative is never chosen. */
  function CleanChar(c: char): string
  {
    if IsAlnum(c) then [c]
    else if c == ' ' || Truthy(".") then " "
    else ""
  }

  function CleanText(s: string): string
  {
    if |s| == 0 then "" else CleanChar(s[0]) + CleanText(s[1..])
  }

  /** The cleaned title used as the search text. */
  function CleanTitle(title: Value): string
  {
    CleanText(PyStr(title))
  }

  /** The cleaned text is as long as the input: letters and digits stay in
      place and every other character becomes a space. */
  lemma {:induction false} CleanTextShape(s: string)
    ensures |CleanText(s)| == |s|
    ensures forall i :: 0 <= i < |s| ==> CleanText(s)[i] == if IsAlnum(s[i]) then s[i] else ' '
  {
    if |s| > 0 {
      CleanTextShape(s[1..]);
      assert forall i :: 1 <= i < |s| ==> s[i] == s[1..][i - 1];
    }
  }

  /** The same, for the title as `str(title)` renders it. */
  lemma CleanTitleShape(title: Value)
    ensures |CleanTitle(title)| == |PyStr(title)|
    ensures forall i :: 0 <= i < |PyStr(title)| ==>
              CleanTitle(title)[i] == if IsAlnum(PyStr(title)[i]) then PyStr(title)[i] else ' '
  {
    CleanTextShape(PyStr(title));
  }

  // ---- choosing a row ----

  /** One search-result row: its release-year attribute, the text of its title
      link, its cast attribute, and the critics' and audience's score objects on
      the film's own page (`None` when that object has no 'score' key). */
  datatype Row = Row(releaseYear: string, title: string, cast: string,
                     criticsScore: Option<Value>, audienceScore: Option<Value>)

  /** The test of lines 117-124: the row's year is all digits, the requested
      year lies within one year of it, and either the title is the same or
      every name of the row's cast is in `fullCast`. */
  predicate Matches(row: Row, title: Value, year: int, fullCast: seq<string>)
  {
    && IsDigits(row.releaseYear)
    && var releaseYear := DigitsValue(row.releaseYear);
    && releaseYear - 1 <= year < releaseYear + 2
    && SameFilm(row, title, fullCast)
  }

  /** The row's stripped title is the title, or every name of its cast (split
      at ',') is in `fullCast`. */
  predicate SameFilm(row: Row, title: Value, fullCast: seq<string>)
  {
    Text(Strip(row.title)) == title || forall name :: name in Split(row.cast, ",") ==> name in fullCast
  }

  /** Row `k` matches and no earlier row does. */
  predicate FirstMatch(rows: seq<Row>, title: Value, year: int, fullCast: seq<string>, k: int)
  {
    && 0 <= k < |rows|
    && Matches(rows[k], title, year, fullCast)
    && forall j :: 0 <= j < k ==> !Matches(rows[j], title, year, fullCast)
  }

  /** A score field: the score when the page lists one, else "Not Listed". */
  function Score(score: Option<Value>): Value
  {
    match score
    case Some(v) => v
    case None => NotListed
  }

  /** The index of the first matching row, if any. */
  function FirstMatchIndex(rows: seq<Row>, title: Value, year: int, fullCast: seq<string>): (r: Option<nat>)
    ensures r.None? <==> forall k :: 0 <= k < |rows| ==> !Matches(rows[k], title, year, fullCast)
    ensures r.Some? ==> FirstMatch(rows, title, year, fullCast, r.value)
  {
    FirstMatchFrom(rows, 0, title, year, fullCast)
  }

  /** The index of the first matching row at or after `from`, if any. */
  function FirstMatchFrom(rows: seq<Row>, from: nat, title: Value, year: int, fullCast: seq<string>): (r: Option<nat>)
    requires from <= |rows|
    ensures r.None? <==> forall k :: from <= k < |rows| ==> !Matches(rows[k], title, year, fullCast)
    ensures r.Some? ==> && from <= r.value < |rows|
                        && Matches(rows[r.value], title, year, fullCast)
                        && forall j :: from <= j < r.value ==> !Matches(rows[j], title, year, fullCast)
    decreases |rows| - from
  {
    if from == |rows| then None
    else if Matches(rows[from], title, year, fullCast) then Some(from)
    else FirstMatchFrom(rows, from + 1, title, year, fullCast)
  }

  /** The critics' score, then the audience's. */
  function Scores(critics: Value, audience: Value): (r: Dict)
    ensures r.keys == [CriticKey, AudienceKey]
    ensures r.vals == map[CriticKey := critics, AudienceKey := audience]
  {
    ScoreKeysDistinct();
    Put(Put(Empty, CriticKey, critics), AudienceKey, audience)
  }

  lemma ScoreKeysDistinct()
    ensures CriticKey != AudienceKey
  {
    assert CriticKey[0] == 'T' && AudienceKey[0] == 'P';
  }

  /** The scores of the first matching row, or nothing when no row matches. */
  function RtData(title: Value, year: int, fullCast: seq<string>, rows: seq<Row>): (r: Dict)
    ensures r.keys == [] <==> forall k :: 0 <= k < |rows| ==> !Matches(rows[k], title, year, fullCast)
    ensures r.keys == [] || r.keys == [CriticKey, AudienceKey]
  {
    match FirstMatchIndex(rows, title, year, fullCast)
    case None => Empty
    case Some(k) => Scores(Score(rows[k].criticsScore), Score(rows[k].audienceScore))
  }

  /** Whichever row matches first supplies both scores. */
  lemma RtDataFirstMatch(title: Value, year: int, fullCast: seq<string>, rows: seq<Row>, k: int)
    requires FirstMatch(rows, title, year, fullCast, k)
    ensures var r := RtData(title, year, fullCast, rows);
            && r.keys == [CriticKey, AudienceKey]
            && r.vals[CriticKey] == Score(rows[k].criticsScore)
            && r.vals[AudienceKey] == Score(rows[k].audienceScore)
  {
    var i := FirstMatchIndex(rows, title, year, fullCast).value;
    FirstMatchUnique(rows, title, year, fullCast, i, k);
  }

  lemma FirstMatchUnique(rows: seq<Row>, title: Value, year: int, fullCast: seq<string>, a: int, b: int)
    requires FirstMatch(rows, title, year, fullCast, a) && FirstMatch(rows, title, year, fullCast, b)
    ensures a == b
  {
  }

  lemma FoundFirst(title: Value, year: int, fullCast: seq<string>, rows: seq<Row>, i: int)
    requires 0 <= i < |rows| && Matches(rows[i], title, year, fullCast)
    requires NoMatchBefore(rows, i, title, Some(year), fullCast)
    ensures RtData(title, year, fullCast, rows) == Scores(Score(rows[i].criticsScore), Score(rows[i].audienceScore))
  {
    var r := FirstMatchIndex(rows, title, year, fullCast);
    FirstMatchUnique(rows, title, year, fullCast, r.value, i);
  }

  /** A row whose year is all digits: the rows where `int(year)` is evaluated. */
  predicate HasYear(row: Row)
  {
    IsDigits(row.releaseYear)
  }

  /** `scrape_rotten_tomatoes` with the search page given as the rows found
      for the cleaned title: `None` where Python raises, which is when the
      requested year is not something `int` accepts and some row has a year to
      compare it with. */
  function RtLookup(title: Value, year: Value, fullCast: seq<string>, search: string -> seq<Row>): Option<Dict>
  {
    var rows := search(CleanTitle(title));
    match PyInt(year)
    case None => if exists k :: 0 <= k < |rows| && HasYear(rows[k]) then None else Some(Empty)
    case Some(y) => Some(RtData(title, y, fullCast, rows))
  }

  /** The answer holds both scores or nothing. */
  lemma RtLookupKeys(title: Value, year: Value, fullCast: seq<string>, search: string -> seq<Row>)
    ensures var r := RtLookup(title, year, fullCast, search);
            r.Some? ==>
              && (r.value.keys == [] || r.value.keys == [CriticKey, AudienceKey])
              && forall k :: k in r.value.vals ==> k == CriticKey || k == AudienceKey
  {
  }

  /** No row before `i` that has a year matches; `year` is the requested
      year as `int` reads it, and it was read whenever such a row exists. */
  predicate NoMatchBefore(rows: seq<Row>, i: int, title: Value, year: Option<int>, fullCast: seq<string>)
    requires 0 <= i <= |rows|
  {
    forall j :: 0 <= j < i && HasYear(rows[j]) ==> year.Some? && !Matches(rows[j], title, year.value, fullCast)
  }

  /** The function step by step (lines 101-157): the rows in order, skipping
      those without a year, stopping at the first that matches. */
  method ScrapeRottenTomatoes(title: Value, year: Value, fullCast: seq<string>, search: string -> seq<Row>)
    returns (rtData: Option<Dict>)
    ensures rtData == RtLookup(title, year, fullCast, search)
  {
    var rows := search(CleanTitle(title));
    for i := 0 to |rows|
      invariant NoMatchBefore(rows, i, title, PyInt(year), fullCast)
    {
      var row := rows[i];
      if !IsDigits(row.releaseYear) {
        NoMatchStep(rows, i, title, PyInt(year), fullCast);
        continue;
      }
      var releaseYear := DigitsValue(row.releaseYear);
      var y := PyInt(year);
      if y.None? {
        RaisesOnYear(title, year, fullCast, search, i);
        return None;
      }
      if releaseYear - 1 <= y.value < releaseYear + 2 && SameFilm(row, title, fullCast) {
        var critics := if row.criticsScore.Some? then row.criticsScore.value else NotListed;
        var audience := if row.audienceScore.Some? then row.audienceScore.value else NotListed;
        var found := Put(Put(Empty, CriticKey, critics), AudienceKey, audience);
        FoundFirst(title, y.value, fullCast, rows, i);
        return Some(found);
      }
      NoMatchStep(rows, i, title, y, fullCast);
    }
    NoRowMatches(title, year, fullCast, search);
    return Some(Empty);
  }

  /** A row without a year, or one that does not match a year that was read,
      extends the stretch of rows with no match by one. */
  lemma NoMatchStep(rows: seq<Row>, i: int, title: Value, year: Option<int>, fullCast: seq<string>)
    requires 0 <= i < |rows| && NoMatchBefore(rows, i, title, year, fullCast)
    requires HasYear(rows[i]) ==> year.Some? && !Matches(rows[i], title, year.value, fullCast)
    ensures NoMatchBefore(rows, i + 1, title, year, fullCast)
  {
  }

  lemma RaisesOnYear(title: Value, year: Value, fullCast: seq<string>, search: string -> seq<Row>, i: int)
    requires PyInt(year).None?
    requires 0 <= i < |search(CleanTitle(title))| && HasYear(search(CleanTitle(title))[i])
    ensures RtLookup(title, year, fullCast, search).None?
  {
  }

  lemma NoRowMatches(title: Value, year: Value, fullCast: seq<string>, search: string -> seq<Row>)
    requires NoMatchBefore(search(CleanTitle(title)), |search(CleanTitle(title))|, title, PyInt(year), fullCast)
    ensures RtLookup(title, year, fullCast, search) == Some(Empty)
  {
  }
}
