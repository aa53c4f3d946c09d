/** The enrichment loop of `get_movie_info` (src/get_movie_info.py, lines
    54-166): for each record of the watch list, the sites are asked for the
    fields the record lacks, the answers are merged into the record, misses
    are logged in an error set, and progress is saved after every sixth record
    that gained data and once at the end. */
module Enrichment {
  import opened Strings
  import opened Dicts
  import ErrorLedger
  import Letterboxd
  import RottenTomatoes
  import Oscars
  import PriorityMerge

  const TitleKey := "Movie Title"
  const YearKey := "Year"
  const ImdbIdKey := "IMDb ID"

  const LetterboxdSite := "Letterboxd"
  const RtSite := "Rotten Tomatoes"
  const AwardsSite := "Academy Awards"

  /** What the outside world answers: the user's logged films, the Letterboxd
      search and film pages, the Rotten Tomatoes search rows for a search text,
      and the awards service's answer for an IMDb identifier. */
  datatype Sources = Sources(
    ratings: Letterboxd.UserRatings,
    filmSearch: string -> Letterboxd.Search,
    films: string -> Letterboxd.Film,
    rtSearch: string -> seq<RottenTomatoes.Row>,
    awards: string -> Oscars.AwardsResponse)

  /** The exceptions that end a run. */
  datatype Fault =
    | MissingYear          // KeyError on 'Year' (line 77, as written)
    | LetterboxdRaised     // `int(year)` or a link without '/' inside the Letterboxd lookup
    | CastNotText          // `.split` on a cast that is not a string (line 113)
    | RtArgumentMissing    // the three-argument call of line 114, as written
    | RottenTomatoesRaised // `int(year)` inside the Rotten Tomatoes scan
    | MissingAwardDetails  // KeyError on 'Academy Award Details' (line 121)
    | IdNotText            // string + non-string IMDb ID (line 122)

  /** What one turn of the loop does with a record: skips it with an error,
      gathers new fields (and logs misses), or raises. */
  datatype Outcome =
    | Skipped(error: string)
    | Gathered(newData: Dict, errors: set<string>)
    | Crashed(fault: Fault, errors: set<string>)

  // ---- error messages ----

  /** Line 73: the record as `str` renders a dict, inside the message. */
  function IdentityError(rec: Dict): string
  {
    "Error: Entry needs both title and year to attempt data retrieval - " + DictRepr(rec) + ")!"
  }

  /** Lines 107, 116 and 142. */
  function NoInfo(site: string, title: Value, year: Value): string
  {
    "Error: " + site + " - No info found for " + PyStr(title) + " (" + PyStr(year) + ")!"
  }

  /** Misses at different sites are logged as different lines, whatever the
      titles and years. */
  lemma NoInfoSitesDiffer(a: string, b: string, t1: Value, y1: Value, t2: Value, y2: Value)
    requires |a| > 0 && |b| > 0 && a[0] != b[0]
    ensures NoInfo(a, t1, y1) != NoInfo(b, t2, y2)
  {
    NoInfoSiteAt(a, t1, y1);
    NoInfoSiteAt(b, t2, y2);
  }

  /** The site's name starts right after "Error: ". */
  lemma NoInfoSiteAt(site: string, title: Value, year: Value)
    requires |site| > 0
    ensures |NoInfo(site, title, year)| > 7 && NoInfo(site, title, year)[7] == site[0]
  {
    var p1 := "Error: " + site;
    var p2 := p1 + " - No info found for ";
    var p3 := p2 + PyStr(title);
    var p4 := p3 + " (";
    var p5 := p4 + PyStr(year);
    assert |"Error: "| == 7 && p1[7] == site[0];
    assert p2[7] == p1[7] && p3[7] == p2[7] && p4[7] == p3[7] && p5[7] == p4[7];
    assert (p5 + ")!")[7] == p5[7];
  }

  // ---- which fields a record lacks ----

  /** The key is absent or holds None. */
  predicate Missing(rec: Dict, key: string)
  {
    key !in rec.vals || rec.vals[key] == Null
  }

  /** The cast handed to the Rotten Tomatoes scan (line 113): the stored cast
      split at ", ", the empty list when there is none, `None` when the stored
      value is not a string and `.split` raises. */
  function CastList(rec: Dict): (r: Option<seq<string>>)
    ensures Letterboxd.CastKey !in rec.vals ==> r == Some([])
    ensures r.None? <==> Letterboxd.CastKey in rec.vals && !rec.vals[Letterboxd.CastKey].Text?
  {
    if Letterboxd.CastKey !in rec.vals then Some([])
    else match rec.vals[Letterboxd.CastKey]
      case Text(s) => Some(Split(s, ", "))
      case _ => None
  }

  /** Line 120: the record has an IMDb ID that is neither a float nor None. */
  predicate HasImdbId(rec: Dict)
  {
    ImdbIdKey in rec.vals && !IsFloat(rec.vals[ImdbIdKey]) && rec.vals[ImdbIdKey] != Null
  }

  /** Whether the awards service is asked, and for which identifier. */
  datatype AwardsGate = NoQuery | Query(id: string) | GateFault(fault: Fault)

  /** Lines 120-122. The test of line 121 evaluates left to right and stops
      early, so the details field is read only when the nominations are there;
      the identifier must be a string to be appended to the URL. */
  function AwardsGateOf(rec: Dict): AwardsGate
  {
    if !HasImdbId(rec) then NoQuery
    else if !Missing(rec, Oscars.NominationsKey) && Oscars.DetailsKey !in rec.vals then GateFault(MissingAwardDetails)
    else if Missing(rec, Oscars.NominationsKey) || '(' in PyStr(rec.vals[Oscars.DetailsKey]) then
      match rec.vals[ImdbIdKey]
      case Text(id) => Query(id)
      case _ => GateFault(IdNotText)
    else NoQuery
  }

  /** The service is asked exactly for a record with a string IMDb ID whose
      nominations are missing or whose details hold a '('; the only fault is a
      record with nominations but no details field, or a non-string ID. */
  lemma AwardsGateSpec(rec: Dict)
    ensures AwardsGateOf(rec).Query? <==>
              && HasImdbId(rec) && rec.vals[ImdbIdKey].Text?
              && (Missing(rec, Oscars.NominationsKey)
                  || (Oscars.DetailsKey in rec.vals && '(' in PyStr(rec.vals[Oscars.DetailsKey])))
    ensures AwardsGateOf(rec).Query? ==> AwardsGateOf(rec).id == rec.vals[ImdbIdKey].s
    ensures AwardsGateOf(rec).GateFault? ==>
              HasImdbId(rec)
              && (AwardsGateOf(rec).fault == MissingAwardDetails || AwardsGateOf(rec).fault == IdNotText)
              && (AwardsGateOf(rec).fault == MissingAwardDetails <==>
                    !Missing(rec, Oscars.NominationsKey) && Oscars.DetailsKey !in rec.vals)
  {
  }

  // ---- one turn of the loop ----

  /** A site's answer is added to the collected fields (`new_data.update`),
      and an empty answer logs the site's miss. */
  function Answered(site: string, title: Value, year: Value, newData: Dict, errors: set<string>, answer: Dict): (r: Outcome)
    ensures r.Gathered?
    ensures answer.keys == [] ==> r.errors == errors + {NoInfo(site, title, year)}
    ensures answer.keys != [] ==> r.errors == errors
  {
    Gathered(Update(newData, answer), if answer.keys == [] then errors + {NoInfo(site, title, year)} else errors)
  }

  /** Lines 103-108: ask Letterboxd when the cast is missing. */
  function LetterboxdStage(rec: Dict, src: Sources, title: Value, year: Value, newData: Dict, errors: set<string>): Outcome
  {
    if !Missing(rec, Letterboxd.CastKey) then Gathered(newData, errors)
    else match Letterboxd.LetterboxdLookup(title, year, src.ratings, src.filmSearch, src.films)
      case None => Crashed(LetterboxdRaised, errors)
      case Some(lb) =>
        Answered(LetterboxdSite, title, year, newData, errors, lb)
  }

  /** Lines 111-117 with the scan called as intended: ask Rotten Tomatoes when
      the critics' score is missing. */
  function RtStage(rec: Dict, src: Sources, title: Value, year: Value, newData: Dict, errors: set<string>): Outcome
  {
    if !Missing(rec, RottenTomatoes.CriticKey) then Gathered(newData, errors)
    else match CastList(rec)
      case None => Crashed(CastNotText, errors)
      case Some(cast) =>
        match RottenTomatoes.RtLookup(title, year, cast, src.rtSearch)
        case None => Crashed(RottenTomatoesRaised, errors)
        case Some(rt) =>
          Answered(RtSite, title, year, newData, errors, rt)
  }

  /** Lines 111-114 as written: the cast is computed, then the call with three
      arguments for four parameters raises. */
  function RtStageAsWritten(rec: Dict, newData: Dict, errors: set<string>): Outcome
  {
    if !Missing(rec, RottenTomatoes.CriticKey) then Gathered(newData, errors)
    else match CastList(rec)
      case None => Crashed(CastNotText, errors)
      case Some(_) => Crashed(RtArgumentMissing, errors)
  }

  /** Lines 120-142: ask the awards service and count nominations and wins. */
  function AwardsStage(rec: Dict, src: Sources, title: Value, year: Value, newData: Dict, errors: set<string>): Outcome
  {
    match AwardsGateOf(rec)
    case NoQuery => Gathered(newData, errors)
    case GateFault(f) => Crashed(f, errors)
    case Query(id) =>
      var response := src.awards(id);
      if response.status == 200 then
        var noms := response.nominations;
        Gathered(Put(Put(Put(newData, Oscars.NominationsKey, Int(|noms|)),
                         Oscars.WinsKey, Int(Oscars.WinCount(noms))),
                     Oscars.DetailsKey, Text(Join(":", Oscars.DetailLines(noms)))), errors)
      else
        Gathered(Put(Put(newData, Oscars.NominationsKey, Int(0)), Oscars.WinsKey, Int(0)),
                 errors + {NoInfo(AwardsSite, title, year)})
  }

  /** Lines 76-142 for a record with a title and a year; `asWritten` selects
      the Rotten Tomatoes call of line 114 as it is written. */
  function Fetch(rec: Dict, src: Sources, asWritten: bool): (r: Outcome)
    requires TitleKey in rec.vals && YearKey in rec.vals
    ensures !r.Skipped?
    ensures r.Crashed? ==> r.fault != MissingYear
    ensures r.Crashed? && r.fault == RtArgumentMissing ==> asWritten
    ensures asWritten && Missing(rec, RottenTomatoes.CriticKey) ==> r.Crashed?
  {
    AwardsGateSpec(rec);
    var title, year := rec.vals[TitleKey], rec.vals[YearKey];
    var afterLb := LetterboxdStage(rec, src, title, year, Empty, {});
    if !afterLb.Gathered? then afterLb
    else
      var afterRt := if asWritten then RtStageAsWritten(rec, afterLb.newData, afterLb.errors)
                     else RtStage(rec, src, title, year, afterLb.newData, afterLb.errors);
      if !afterRt.Gathered? then afterRt
      else AwardsStage(rec, src, title, year, afterRt.newData, afterRt.errors)
  }

  /** One turn of the loop as intended: a record without a title or without a
      year is skipped with an error; any other is enriched. */
  function Gather(rec: Dict, src: Sources): (r: Outcome)
    ensures r.Skipped? <==> TitleKey !in rec.vals || YearKey !in rec.vals
    ensures r.Skipped? ==> r.error == IdentityError(rec)
    ensures r.Crashed? ==> r.fault != MissingYear && r.fault != RtArgumentMissing
  {
    if TitleKey !in rec.vals || YearKey !in rec.vals then Skipped(IdentityError(rec))
    else Fetch(rec, src, false)
  }

  /** One turn of the loop as written: `('Movie Title' or 'Year')` is just
      'Movie Title', so a record without a year reaches line 77 and raises, and
      every Rotten Tomatoes call raises. */
  function GatherAsWritten(rec: Dict, src: Sources): (r: Outcome)
    ensures r.Skipped? <==> TitleKey !in rec.vals
    ensures r.Skipped? ==> r.error == IdentityError(rec)
    ensures r.Crashed? && r.fault == MissingYear <==> TitleKey in rec.vals && YearKey !in rec.vals
    ensures TitleKey in rec.vals && Missing(rec, RottenTomatoes.CriticKey) ==> r.Crashed?
  {
    if TitleKey !in rec.vals then Skipped(IdentityError(rec))
    else if YearKey !in rec.vals then Crashed(MissingYear, {})
    else Fetch(rec, src, true)
  }

  /** A turn that gathers as written gathers the same as intended: the two
      differ only in raising. So every property of a gathering turn stated
      for `Gather` holds for the code as written. */
  lemma GatherAsWrittenAgrees(rec: Dict, src: Sources)
    requires GatherAsWritten(rec, src).Gathered?
    ensures GatherAsWritten(rec, src) == Gather(rec, src)
  {
  }

  /** Lines 72-142 step by step for one record: the answers are collected
      into `newData` and misses into `errors`, as the loop body does. */
  method EnrichRecord(rec: Dict, src: Sources, asWritten: bool) returns (outcome: Outcome)
    ensures outcome == TurnOutcome(rec, src, asWritten)
  {
    if TitleKey !in rec.vals || (!asWritten && YearKey !in rec.vals) {
      return Skipped(IdentityError(rec));
    }
    if YearKey !in rec.vals {
      return Crashed(MissingYear, {});
    }
    var title, year := rec.vals[TitleKey], rec.vals[YearKey];
    outcome := AskLetterboxd(rec, src, title, year);
    if !outcome.Gathered? {
      return;
    }
    outcome := AskRottenTomatoes(rec, src, title, year, outcome.newData, outcome.errors, asWritten);
    if !outcome.Gathered? {
      return;
    }
    outcome := AskAwards(rec, src, title, year, outcome.newData, outcome.errors);
  }

  /** Lines 103-108. */
  method AskLetterboxd(rec: Dict, src: Sources, title: Value, year: Value) returns (outcome: Outcome)
    ensures outcome == LetterboxdStage(rec, src, title, year, Empty, {})
  {
    var newData := Empty;
    var errors: set<string> := {};
    if Missing(rec, Letterboxd.CastKey) {
      var letterboxdData := Letterboxd.GetLetterboxdMovieData(title, year, src.ratings, src.filmSearch, src.films);
      if letterboxdData.None? {
        return Crashed(LetterboxdRaised, errors);
      }
      if letterboxdData.value.keys == [] {
        errors := errors + {NoInfo(LetterboxdSite, title, year)};
      }
      newData := Update(newData, letterboxdData.value);
    }
    outcome := Gathered(newData, errors);
  }

  /** Lines 111-117, with the call of line 114 as written (`asWritten`) or as
      intended. */
  method AskRottenTomatoes(rec: Dict, src: Sources, title: Value, year: Value, newData: Dict, errors: set<string>,
                           asWritten: bool)
    returns (outcome: Outcome)
    ensures asWritten ==> outcome == RtStageAsWritten(rec, newData, errors)
    ensures !asWritten ==> outcome == RtStage(rec, src, title, year, newData, errors)
  {
    if !Missing(rec, RottenTomatoes.CriticKey) {
      return Gathered(newData, errors);
    }
    var fullCast := CastList(rec);
    if fullCast.None? {
      return Crashed(CastNotText, errors);
    }
    if asWritten {
      return Crashed(RtArgumentMissing, errors);
    }
    var rtData := RottenTomatoes.ScrapeRottenTomatoes(title, year, fullCast.value, src.rtSearch);
    if rtData.None? {
      return Crashed(RottenTomatoesRaised, errors);
    }
    var logged := errors;
    if rtData.value.keys == [] {
      logged := logged + {NoInfo(RtSite, title, year)};
    }
    outcome := Gathered(Update(newData, rtData.value), logged);
  }

  /** Lines 120-142. */
  method AskAwards(rec: Dict, src: Sources, title: Value, year: Value, newData: Dict, errors: set<string>)
    returns (outcome: Outcome)
    ensures outcome == AwardsStage(rec, src, title, year, newData, errors)
  {
    var gate := AwardsGateOf(rec);
    if gate.GateFault? {
      return Crashed(gate.fault, errors);
    }
    var data, logged := newData, errors;
    if gate.Query? {
      var response := src.awards(gate.id);
      if response.status == 200 {
        var nominations, wins, details := Oscars.Aggregate(response.nominations);
        data := Put(data, Oscars.NominationsKey, Int(nominations));
        data := Put(data, Oscars.WinsKey, Int(wins));
        data := Put(data, Oscars.DetailsKey, Text(details));
      } else {
        data := Put(data, Oscars.NominationsKey, Int(0));
        data := Put(data, Oscars.WinsKey, Int(0));
        logged := logged + {NoInfo(AwardsSite, title, year)};
      }
    }
    outcome := Gathered(data, logged);
  }

  // ---- what one turn gathers ----

  /** A field Letterboxd or Rotten Tomatoes fills in. */
  predicate FromSites(k: string)
  {
    k in Letterboxd.FilmKeys || k == RottenTomatoes.CriticKey || k == RottenTomatoes.AudienceKey
  }

  /** No site field begins like an award field. */
  lemma FromSitesInitial(k: string)
    requires FromSites(k)
    ensures |k| > 0 && k[0] != 'A'
  {
    assert RottenTomatoes.CriticKey[0] == 'T' && RottenTomatoes.AudienceKey[0] == 'P';
    if k in Letterboxd.FilmKeys {
      var i :| 0 <= i < |Letterboxd.FilmKeys| && Letterboxd.FilmKeys[i] == k;
      assert Letterboxd.FilmKeys[i][0] in "LLLLCRTI";
    }
  }

  /** A field some source fills in: a site's, or an award field. */
  predicate FromSources(k: string)
  {
    FromSites(k) || k == Oscars.NominationsKey || k == Oscars.WinsKey || k == Oscars.DetailsKey
  }

  /** The columns the loop reads and the sources fill in are apart: the
      identity fields, the IMDb id, the cast, the two scores and the three
      award fields; no source writes the title or the year, and no site an
      award field. */
  lemma KeysDistinct()
    ensures TitleKey != YearKey && TitleKey != Letterboxd.CastKey && YearKey != Letterboxd.CastKey
    ensures ImdbIdKey != TitleKey && ImdbIdKey != YearKey && ImdbIdKey != Letterboxd.CastKey
    ensures RottenTomatoes.CriticKey != TitleKey && RottenTomatoes.CriticKey != YearKey
    ensures Letterboxd.CastKey != RottenTomatoes.CriticKey && Letterboxd.CastKey != RottenTomatoes.AudienceKey
    ensures Letterboxd.CastKey != Oscars.NominationsKey && Letterboxd.CastKey != Oscars.WinsKey
    ensures Letterboxd.CastKey != Oscars.DetailsKey
    ensures RottenTomatoes.CriticKey != Oscars.NominationsKey && RottenTomatoes.CriticKey != Oscars.WinsKey
    ensures RottenTomatoes.CriticKey != Oscars.DetailsKey
    ensures RottenTomatoes.AudienceKey != Oscars.NominationsKey && RottenTomatoes.AudienceKey != Oscars.WinsKey
    ensures RottenTomatoes.AudienceKey != Oscars.DetailsKey
    ensures !FromSources(TitleKey) && !FromSources(YearKey)
    ensures !FromSites(Oscars.NominationsKey) && !FromSites(Oscars.WinsKey) && !FromSites(Oscars.DetailsKey)
  {
    assert TitleKey[0] == 'M' && YearKey[0] == 'Y' && Letterboxd.CastKey[0] == 'C' && ImdbIdKey[0] == 'I';
    assert RottenTomatoes.CriticKey[0] == 'T' && RottenTomatoes.AudienceKey[0] == 'P';
    assert Oscars.NominationsKey[0] == 'A' && Oscars.WinsKey[0] == 'A' && Oscars.DetailsKey[0] == 'A';
    if FromSites(Oscars.NominationsKey) { FromSitesInitial(Oscars.NominationsKey); }
    if FromSites(Oscars.WinsKey) { FromSitesInitial(Oscars.WinsKey); }
    if FromSites(Oscars.DetailsKey) { FromSitesInitial(Oscars.DetailsKey); }
  }

  predicate AllFromSites(d: Dict)
  {
    forall k :: k in d.vals ==> FromSites(k)
  }

  predicate AllFromSources(d: Dict)
  {
    forall k :: k in d.vals ==> FromSources(k)
  }


  lemma LetterboxdStageKeys(rec: Dict, src: Sources, title: Value, year: Value, newData: Dict, errors: set<string>)
    requires AllFromSites(newData)
    ensures var r := LetterboxdStage(rec, src, title, year, newData, errors);
            r.Gathered? ==> AllFromSites(r.newData)
  {
    if Missing(rec, Letterboxd.CastKey) {
      var lb := Letterboxd.LetterboxdLookup(title, year, src.ratings, src.filmSearch, src.films);
      if lb.Some? {
        assert lb.value.keys == [] || lb.value.keys == Letterboxd.FilmKeys;
        assert forall k :: k in lb.value.vals ==> k in lb.value.keys;
      }
    }
  }

  lemma RtStageKeys(rec: Dict, src: Sources, title: Value, year: Value, newData: Dict, errors: set<string>)
    requires AllFromSites(newData)
    ensures var r := RtStage(rec, src, title, year, newData, errors);
            r.Gathered? ==> AllFromSites(r.newData)
  {
    if Missing(rec, RottenTomatoes.CriticKey) && CastList(rec).Some? {
      var rt := RottenTomatoes.RtLookup(title, year, CastList(rec).value, src.rtSearch);
      RottenTomatoes.RtLookupKeys(title, year, CastList(rec).value, src.rtSearch);
      if rt.Some? {
        ScoreKeysFromSites();
        UpdateFromSites(newData, rt.value);
      }
    }
  }

  lemma ScoreKeysFromSites()
    ensures FromSites(RottenTomatoes.CriticKey) && FromSites(RottenTomatoes.AudienceKey)
  {
  }

  lemma UpdateFromSites(d: Dict, other: Dict)
    requires AllFromSites(d) && AllFromSites(other)
    ensures AllFromSites(Update(d, other))
  {
  }

  /** Every field a turn gathers is one of the fields the three sites fill in:
      the loop never writes the title, the year or any field of the
      spreadsheet's own. */
  lemma GatheredFromSources(rec: Dict, src: Sources)
    requires Gather(rec, src).Gathered?
    ensures AllFromSources(Gather(rec, src).newData)
  {
    var title, year := rec.vals[TitleKey], rec.vals[YearKey];
    var afterLb := LetterboxdStage(rec, src, title, year, Empty, {});
    LetterboxdStageKeys(rec, src, title, year, Empty, {});
    var afterRt := RtStage(rec, src, title, year, afterLb.newData, afterLb.errors);
    RtStageKeys(rec, src, title, year, afterLb.newData, afterLb.errors);
  }

  /** Merging gathered fields keeps every field the record had in its place,
      and the value of every field no site fills in. */
  lemma MergeKeepsOwnFields(rec: Dict, newData: Dict)
    requires AllFromSources(newData)
    ensures var merged := PriorityMerge.Merged(rec, newData);
            && |rec.keys| <= |merged.keys| && merged.keys[..|rec.keys|] == rec.keys
            && forall k :: k in rec.vals && !FromSources(k) ==> k in merged.vals && merged.vals[k] == rec.vals[k]
  {
    PriorityMerge.MergedKeepsPlaces(rec, newData);
    MergeKeepsValues(rec, newData);
  }

  lemma MergeKeepsValues(rec: Dict, newData: Dict)
    requires AllFromSources(newData)
    ensures var merged := PriorityMerge.Merged(rec, newData);
            forall k :: k in rec.vals && !FromSources(k) ==> k in merged.vals && merged.vals[k] == rec.vals[k]
  {
    var merged := PriorityMerge.Merged(rec, newData);
    PriorityMerge.MergedValues(rec, newData);
    forall k | k in rec.vals && !FromSources(k) ensures k in merged.vals && merged.vals[k] == rec.vals[k] {
      assert k !in newData.vals;
    }
  }

  /** Enriching a record keeps every field it had in its place, and never
      changes its title or its year. */
  lemma EnrichmentKeepsIdentity(rec: Dict, src: Sources)
    requires Gather(rec, src).Gathered?
    ensures var merged := PriorityMerge.Merged(rec, Gather(rec, src).newData);
            && TitleKey in rec.vals && YearKey in rec.vals
            && |rec.keys| <= |merged.keys| && merged.keys[..|rec.keys|] == rec.keys
            && TitleKey in merged.vals && merged.vals[TitleKey] == rec.vals[TitleKey]
            && YearKey in merged.vals && merged.vals[YearKey] == rec.vals[YearKey]
  {
    GatheredFromSources(rec, src);
    KeysDistinct();
    MergeKeepsOwnFields(rec, Gather(rec, src).newData);
  }

  // ---- what is logged, and what a later run asks again ----

  /** Letterboxd's answer for the record (`None` where the lookup raises). */
  function LbAnswer(rec: Dict, src: Sources): Option<Dict>
    requires TitleKey in rec.vals && YearKey in rec.vals
  {
    Letterboxd.LetterboxdLookup(rec.vals[TitleKey], rec.vals[YearKey], src.ratings, src.filmSearch, src.films)
  }

  /** Rotten Tomatoes' answer for the record (`None` where the cast cannot be
      split or the scan raises). */
  function RtAnswer(rec: Dict, src: Sources): Option<Dict>
    requires TitleKey in rec.vals && YearKey in rec.vals
  {
    match CastList(rec)
    case None => None
    case Some(cast) => RottenTomatoes.RtLookup(rec.vals[TitleKey], rec.vals[YearKey], cast, src.rtSearch)
  }

  lemma LetterboxdStageErrors(rec: Dict, src: Sources, title: Value, year: Value, newData: Dict, errors: set<string>)
    ensures var r := LetterboxdStage(rec, src, title, year, newData, errors);
            r.Gathered? ==> r.errors == errors || r.errors == errors + {NoInfo(LetterboxdSite, title, year)}
  {
    if Missing(rec, Letterboxd.CastKey) {
      var lb := Letterboxd.LetterboxdLookup(title, year, src.ratings, src.filmSearch, src.films);
      if lb.Some? {
        assert LetterboxdStage(rec, src, title, year, newData, errors)
                 == Answered(LetterboxdSite, title, year, newData, errors, lb.value);
      }
    }
  }

  lemma RtStageErrors(rec: Dict, src: Sources, title: Value, year: Value, newData: Dict, errors: set<string>)
    ensures var r := RtStage(rec, src, title, year, newData, errors);
            r.Gathered? ==> r.errors == errors || r.errors == errors + {NoInfo(RtSite, title, year)}
  {
    var cast := CastList(rec);
    if Missing(rec, RottenTomatoes.CriticKey) && cast.Some? {
      var rt := RottenTomatoes.RtLookup(title, year, cast.value, src.rtSearch);
      if rt.Some? {
        assert RtStage(rec, src, title, year, newData, errors) == Answered(RtSite, title, year, newData, errors, rt.value);
      }
    }
  }

  lemma AwardsStageErrors(rec: Dict, src: Sources, title: Value, year: Value, newData: Dict, errors: set<string>)
    ensures var r := AwardsStage(rec, src, title, year, newData, errors);
            r.Gathered? ==> r.errors == errors || r.errors == errors + {NoInfo(AwardsSite, title, year)}
  {
  }

  /** The errors of a gathering turn: at most one miss per site. */
  lemma GatheredErrors(rec: Dict, src: Sources)
    requires TitleKey in rec.vals && YearKey in rec.vals
    requires Gather(rec, src).Gathered?
    ensures var title, year := rec.vals[TitleKey], rec.vals[YearKey];
            var afterLb := LetterboxdStage(rec, src, title, year, Empty, {});
            && afterLb.Gathered?
            && Gather(rec, src).errors <= afterLb.errors + {NoInfo(RtSite, title, year), NoInfo(AwardsSite, title, year)}
            && afterLb.errors <= Gather(rec, src).errors
  {
    var title, year := rec.vals[TitleKey], rec.vals[YearKey];
    var afterLb := LetterboxdStage(rec, src, title, year, Empty, {});
    var afterRt := RtStage(rec, src, title, year, afterLb.newData, afterLb.errors);
    RtStageErrors(rec, src, title, year, afterLb.newData, afterLb.errors);
    AwardsStageErrors(rec, src, title, year, afterRt.newData, afterRt.errors);
  }

  /** A Letterboxd miss is logged exactly when the cast was missing and
      Letterboxd had nothing for the film. */
  lemma LetterboxdMissLogged(rec: Dict, src: Sources)
    requires TitleKey in rec.vals && YearKey in rec.vals
    requires Gather(rec, src).Gathered?
    ensures NoInfo(LetterboxdSite, rec.vals[TitleKey], rec.vals[YearKey]) in Gather(rec, src).errors <==>
              Missing(rec, Letterboxd.CastKey) && LbAnswer(rec, src) == Some(Empty)
  {
    var title, year := rec.vals[TitleKey], rec.vals[YearKey];
    var miss := NoInfo(LetterboxdSite, title, year);
    GatheredErrors(rec, src);
    NoInfoSitesDiffer(LetterboxdSite, RtSite, title, year, title, year);
    NoInfoSitesDiffer(LetterboxdSite, AwardsSite, title, year, title, year);
    LetterboxdStageErrors(rec, src, title, year, Empty, {});
    if Missing(rec, Letterboxd.CastKey) {
      var lb := LbAnswer(rec, src).value;
      assert lb.keys == [] <==> lb == Empty by {
        if lb.keys == [] {
          assert lb.vals == map[];
        }
      }
    }
  }

  /** The answers of the first two sites, before the awards stage. */
  lemma BeforeAwards(rec: Dict, src: Sources)
    requires TitleKey in rec.vals && YearKey in rec.vals
    requires Gather(rec, src).Gathered?
    ensures var title, year := rec.vals[TitleKey], rec.vals[YearKey];
            var afterLb := LetterboxdStage(rec, src, title, year, Empty, {});
            && afterLb.Gathered?
            && RtStage(rec, src, title, year, afterLb.newData, afterLb.errors).Gathered?
            && Gather(rec, src) == AwardsStage(rec, src, title, year,
                 RtStage(rec, src, title, year, afterLb.newData, afterLb.errors).newData,
                 RtStage(rec, src, title, year, afterLb.newData, afterLb.errors).errors)
  {
  }

  /** A dict has no keys exactly when it is empty. */
  lemma EmptyKeys(d: Dict)
    ensures d.keys == [] <==> d == Empty
  {
    if d.keys == [] {
      assert d.vals == map[];
    }
  }

  /** A Rotten Tomatoes miss is logged exactly when the critics' score was
      missing and the scan found no row. */
  lemma RtMissLogged(rec: Dict, src: Sources)
    requires TitleKey in rec.vals && YearKey in rec.vals
    requires Gather(rec, src).Gathered?
    ensures NoInfo(RtSite, rec.vals[TitleKey], rec.vals[YearKey]) in Gather(rec, src).errors <==>
              Missing(rec, RottenTomatoes.CriticKey) && RtAnswer(rec, src) == Some(Empty)
  {
    var title, year := rec.vals[TitleKey], rec.vals[YearKey];
    var afterLb := LetterboxdStage(rec, src, title, year, Empty, {});
    var afterRt := RtStage(rec, src, title, year, afterLb.newData, afterLb.errors);
    BeforeAwards(rec, src);
    LetterboxdStageErrors(rec, src, title, year, Empty, {});
    AwardsStageErrors(rec, src, title, year, afterRt.newData, afterRt.errors);
    NoInfoSitesDiffer(RtSite, LetterboxdSite, title, year, title, year);
    NoInfoSitesDiffer(RtSite, AwardsSite, title, year, title, year);
    RtStageMiss(rec, src, title, year, afterLb.newData, afterLb.errors);
  }

  /** The Rotten Tomatoes stage logs its miss exactly when the scan answers
      with no scores. */
  lemma RtStageMiss(rec: Dict, src: Sources, title: Value, year: Value, newData: Dict, errors: set<string>)
    requires NoInfo(RtSite, title, year) !in errors
    ensures var r := RtStage(rec, src, title, year, newData, errors);
            r.Gathered? ==>
              (NoInfo(RtSite, title, year) in r.errors <==>
                 && Missing(rec, RottenTomatoes.CriticKey) && CastList(rec).Some?
                 && RottenTomatoes.RtLookup(title, year, CastList(rec).value, src.rtSearch) == Some(Empty))
  {
    if Missing(rec, RottenTomatoes.CriticKey) && CastList(rec).Some? {
      var rt := RottenTomatoes.RtLookup(title, year, CastList(rec).value, src.rtSearch);
      if rt.Some? {
        EmptyKeys(rt.value);
      }
    }
  }

  /** With the scan called as intended, a record lacking its critics' score
      gets both scores of the first matching row. */
  lemma RtScoresGathered(rec: Dict, src: Sources)
    requires TitleKey in rec.vals && YearKey in rec.vals
    requires Gather(rec, src).Gathered? && Missing(rec, RottenTomatoes.CriticKey)
    ensures RtAnswer(rec, src).Some?
    ensures var rt, newData := RtAnswer(rec, src).value, Gather(rec, src).newData;
            rt.keys != [] ==>
              && RottenTomatoes.CriticKey in newData.vals && newData.vals[RottenTomatoes.CriticKey] == rt.vals[RottenTomatoes.CriticKey]
              && RottenTomatoes.AudienceKey in newData.vals && newData.vals[RottenTomatoes.AudienceKey] == rt.vals[RottenTomatoes.AudienceKey]
  {
    var title, year := rec.vals[TitleKey], rec.vals[YearKey];
    var afterLb := LetterboxdStage(rec, src, title, year, Empty, {});
    var afterRt := RtStage(rec, src, title, year, afterLb.newData, afterLb.errors);
    BeforeAwards(rec, src);
    RtStageScores(rec, src, title, year, afterLb.newData, afterLb.errors);
    KeysDistinct();
    AwardsKeepsOthers(rec, src, title, year, afterRt.newData, afterRt.errors);
  }

  /** The Rotten Tomatoes stage stores both scores it finds. */
  lemma RtStageScores(rec: Dict, src: Sources, title: Value, year: Value, newData: Dict, errors: set<string>)
    requires Missing(rec, RottenTomatoes.CriticKey) && RtStage(rec, src, title, year, newData, errors).Gathered?
    ensures CastList(rec).Some? && RottenTomatoes.RtLookup(title, year, CastList(rec).value, src.rtSearch).Some?
    ensures var rt := RottenTomatoes.RtLookup(title, year, CastList(rec).value, src.rtSearch).value;
            var r := RtStage(rec, src, title, year, newData, errors).newData;
            rt.keys != [] ==>
              && RottenTomatoes.CriticKey in rt.vals && RottenTomatoes.AudienceKey in rt.vals
              && RottenTomatoes.CriticKey in r.vals && r.vals[RottenTomatoes.CriticKey] == rt.vals[RottenTomatoes.CriticKey]
              && RottenTomatoes.AudienceKey in r.vals && r.vals[RottenTomatoes.AudienceKey] == rt.vals[RottenTomatoes.AudienceKey]
  {
    RottenTomatoes.RtLookupKeys(title, year, CastList(rec).value, src.rtSearch);
  }

  /** The awards stage writes only the three award fields. */
  lemma AwardsKeepsOthers(rec: Dict, src: Sources, title: Value, year: Value, newData: Dict, errors: set<string>)
    ensures var r := AwardsStage(rec, src, title, year, newData, errors);
            r.Gathered? ==>
              forall k :: k != Oscars.NominationsKey && k != Oscars.WinsKey && k != Oscars.DetailsKey ==>
                (k in r.newData.vals <==> k in newData.vals)
                && (k in newData.vals ==> r.newData.vals[k] == newData.vals[k])
  {
  }

  /** A film the service knows gets its nominations, wins and detail lines. */
  lemma AwardsRecorded(rec: Dict, src: Sources)
    requires TitleKey in rec.vals && YearKey in rec.vals
    requires Gather(rec, src).Gathered?
    requires AwardsGateOf(rec).Query? && src.awards(AwardsGateOf(rec).id).status == 200
    ensures var newData, noms := Gather(rec, src).newData, src.awards(AwardsGateOf(rec).id).nominations;
            && newData.vals[Oscars.NominationsKey] == Int(|noms|)
            && newData.vals[Oscars.WinsKey] == Int(Oscars.WinCount(noms))
            && newData.vals[Oscars.DetailsKey] == Text(Join(":", Oscars.DetailLines(noms)))
  {
    BeforeAwards(rec, src);
  }

  /** A failed request records zero nominations and zero wins and logs a miss. */
  lemma AwardsFailureRecorded(rec: Dict, src: Sources)
    requires TitleKey in rec.vals && YearKey in rec.vals
    requires Gather(rec, src).Gathered?
    requires AwardsGateOf(rec).Query? && src.awards(AwardsGateOf(rec).id).status != 200
    ensures var newData := Gather(rec, src).newData;
            && newData.vals[Oscars.NominationsKey] == Int(0)
            && newData.vals[Oscars.WinsKey] == Int(0)
            && NoInfo(AwardsSite, rec.vals[TitleKey], rec.vals[YearKey]) in Gather(rec, src).errors
  {
    BeforeAwards(rec, src);
  }

  /** A record the service is not asked about gains no award field and logs no
      awards miss. */
  lemma AwardsUntouched(rec: Dict, src: Sources)
    requires TitleKey in rec.vals && YearKey in rec.vals
    requires Gather(rec, src).Gathered? && AwardsGateOf(rec).NoQuery?
    ensures Oscars.NominationsKey !in Gather(rec, src).newData.vals
    ensures Oscars.WinsKey !in Gather(rec, src).newData.vals
    ensures Oscars.DetailsKey !in Gather(rec, src).newData.vals
    ensures NoInfo(AwardsSite, rec.vals[TitleKey], rec.vals[YearKey]) !in Gather(rec, src).errors
  {
    var title, year := rec.vals[TitleKey], rec.vals[YearKey];
    var afterLb := LetterboxdStage(rec, src, title, year, Empty, {});
    BeforeAwards(rec, src);
    LetterboxdStageKeys(rec, src, title, year, Empty, {});
    RtStageKeys(rec, src, title, year, afterLb.newData, afterLb.errors);
    KeysDistinct();
    LetterboxdStageErrors(rec, src, title, year, Empty, {});
    RtStageErrors(rec, src, title, year, afterLb.newData, afterLb.errors);
    NoInfoSitesDiffer(AwardsSite, LetterboxdSite, title, year, title, year);
    NoInfoSitesDiffer(AwardsSite, RtSite, title, year, title, year);
  }

  /** A record whose cast Letterboxd filled in is not sent to Letterboxd again
      on a later run: its cast is then a string. */
  lemma FilledCastNotRefetched(rec: Dict, src: Sources)
    requires TitleKey in rec.vals && YearKey in rec.vals
    requires Gather(rec, src).Gathered? && Missing(rec, Letterboxd.CastKey)
    requires LbAnswer(rec, src).Some? && LbAnswer(rec, src).value.keys != []
    ensures !Missing(PriorityMerge.Merged(rec, Gather(rec, src).newData), Letterboxd.CastKey)
  {
    var title, year := rec.vals[TitleKey], rec.vals[YearKey];
    var afterLb := LetterboxdStage(rec, src, title, year, Empty, {});
    var afterRt := RtStage(rec, src, title, year, afterLb.newData, afterLb.errors);
    var newData := Gather(rec, src).newData;
    BeforeAwards(rec, src);
    assert afterLb.newData.vals[Letterboxd.CastKey].Text?;
    RtKeepsCast(rec, src, title, year, afterLb.newData, afterLb.errors);
    AwardsKeepsOthers(rec, src, title, year, afterRt.newData, afterRt.errors);
    KeysDistinct();
    assert newData.vals[Letterboxd.CastKey].Text?;
    PriorityMerge.MergedValues(rec, newData);
  }

  /** The Rotten Tomatoes stage leaves the cast as it found it. */
  lemma RtKeepsCast(rec: Dict, src: Sources, title: Value, year: Value, newData: Dict, errors: set<string>)
    requires Letterboxd.CastKey in newData.vals
    ensures var r := RtStage(rec, src, title, year, newData, errors);
            r.Gathered? ==> Letterboxd.CastKey in r.newData.vals && r.newData.vals[Letterboxd.CastKey] == newData.vals[Letterboxd.CastKey]
  {
    KeysDistinct();
    if Missing(rec, RottenTomatoes.CriticKey) && CastList(rec).Some? {
      var rt := RottenTomatoes.RtLookup(title, year, CastList(rec).value, src.rtSearch);
      RottenTomatoes.RtLookupKeys(title, year, CastList(rec).value, src.rtSearch);
      if rt.Some? {
        assert Letterboxd.CastKey !in rt.value.vals;
      }
    }
  }

  // ---- the two places where the code as written differs from its intent ----

  /** Line 72 tests only the title: a record with a title and no year is not
      skipped but raises KeyError at line 77, which ends the run. With both
      keys tested it is skipped and logged. */
  lemma YearlessRecordAsWritten(src: Sources)
    ensures var rec := Put(Empty, TitleKey, Text("Heat"));
            && GatherAsWritten(rec, src) == Crashed(MissingYear, {})
            && Gather(rec, src) == Skipped(IdentityError(rec))
  {
    var rec := Put(Empty, TitleKey, Text("Heat"));
    assert TitleKey in rec.vals;
    assert YearKey !in rec.vals by {
      assert YearKey[0] != TitleKey[0];
    }
  }

  /** A record with a title, a year and a cast, and no critics' score. */
  function HeatRecord(): Dict
  {
    Put(Put(Put(Empty, TitleKey, Text("Heat")), YearKey, Int(1995)), Letterboxd.CastKey, Text("Al Pacino, Robert De Niro"))
  }

  lemma HeatRecordFields()
    ensures TitleKey in HeatRecord().vals
    ensures YearKey in HeatRecord().vals && HeatRecord().vals[YearKey] == Int(1995)
    ensures Letterboxd.CastKey in HeatRecord().vals && HeatRecord().vals[Letterboxd.CastKey].Text?
    ensures RottenTomatoes.CriticKey !in HeatRecord().vals && ImdbIdKey !in HeatRecord().vals
  {
    KeysDistinct();
    var cast := Text("Al Pacino, Robert De Niro");
    ThreePuts(TitleKey, YearKey, Letterboxd.CastKey, Text("Heat"), Int(1995), cast);
    ThreePutsLack(TitleKey, YearKey, Letterboxd.CastKey, Text("Heat"), Int(1995), cast, RottenTomatoes.CriticKey);
    ThreePutsLack(TitleKey, YearKey, Letterboxd.CastKey, Text("Heat"), Int(1995), cast, ImdbIdKey);
  }

  /** Line 114 passes three arguments to a function of four parameters
      (`scrape_rotten_tomatoes(title, year, medium, full_cast)`), so every
      record lacking its critics' score raises TypeError there. */
  lemma RtCallAsWritten(src: Sources)
    ensures GatherAsWritten(HeatRecord(), src) == Crashed(RtArgumentMissing, {})
  {
    HeatRecordFields();
  }

  /** Called with all its arguments, the scan runs and the same record is
      enriched. */
  lemma RtCallAsIntended(src: Sources)
    ensures Gather(HeatRecord(), src).Gathered?
  {
    HeatRecordFields();
    var rec := HeatRecord();
    var title, year := rec.vals[TitleKey], rec.vals[YearKey];
    assert LetterboxdStage(rec, src, title, year, Empty, {}) == Gathered(Empty, {});
    assert PyInt(year) == Some(1995);
    assert RtAnswer(rec, src).Some?;
    var rt := RtAnswer(rec, src).value;
    assert RtStage(rec, src, title, year, Empty, {}) == Answered(RtSite, title, year, Empty, {}, rt);
    assert AwardsGateOf(rec) == NoQuery;
  }

  // ---- the run ----

  /** Where `save_progress` writes the error file: the working copy it also
      reads (`src/tmp/`), or the output folder. */
  datatype Folder = Checkpoint | Output

  /** A record after its turn: merged with what was gathered, else unchanged. */
  function Enriched(rec: Dict, outcome: Outcome): Dict
  {
    if outcome.Gathered? then PriorityMerge.Merged(rec, outcome.newData) else rec
  }

  /** The errors a turn adds to the error set. */
  function Logged(outcome: Outcome): set<string>
  {
    match outcome
    case Skipped(e) => {e}
    case Gathered(_, errors) => errors
    case Crashed(_, errors) => errors
  }

  /** A turn that gathered something advances the save counter (lines 152-154). */
  predicate Advances(outcome: Outcome)
  {
    outcome.Gathered? && outcome.newData.keys != []
  }

  /** One turn of the loop for a record: the code as written (`asWritten`),
      or with the check of line 72 and the call of line 114 as intended. */
  function TurnOutcome(rec: Dict, src: Sources, asWritten: bool): Outcome
  {
    if asWritten then GatherAsWritten(rec, src) else Gather(rec, src)
  }

  /** The outcome of each record's turn, in order. Each turn depends only on
      its own record as loaded: the loop changes a record only on its own turn. */
  function Outcomes(recs: seq<Dict>, src: Sources, asWritten: bool): (outs: seq<Outcome>)
    ensures |outs| == |recs|
  {
    seq(|recs|, j requires 0 <= j < |recs| => TurnOutcome(recs[j], src, asWritten))
  }

  /** Each outcome of a run is its record's turn. */
  lemma OutcomesEach(recs: seq<Dict>, src: Sources, asWritten: bool)
    ensures forall k :: 0 <= k < |recs| ==> Outcomes(recs, src, asWritten)[k] == TurnOutcome(recs[k], src, asWritten)
  {
  }

  /** How many of the first `n` turns advance the counter. */
  function AdvancesAmong(outs: seq<Outcome>, n: nat): (c: nat)
    requires n <= |outs|
    ensures c <= n
    ensures c == n <==> forall j :: 0 <= j < n ==> Advances(outs[j])
  {
    if n == 0 then 0
    else AdvancesAmong(outs, n - 1) + (if Advances(outs[n - 1]) then 1 else 0)
  }

  /** Everything the first `n` turns log. */
  function LoggedAmong(outs: seq<Outcome>, n: nat): (r: set<string>)
    requires n <= |outs|
    ensures forall j :: 0 <= j < n ==> Logged(outs[j]) <= r
  {
    if n == 0 then {} else LoggedAmong(outs, n - 1) + Logged(outs[n - 1])
  }

  /** The number of turns before the first that raises (all of them when none
      does). */
  function Completed(outs: seq<Outcome>): (n: nat)
    ensures n <= |outs|
    ensures forall j :: 0 <= j < n ==> !outs[j].Crashed?
    ensures n < |outs| ==> outs[n].Crashed?
  {
    CompletedFrom(outs, 0)
  }

  /** The first turn at or after `from` that raises (`|outs|` when none does). */
  function CompletedFrom(outs: seq<Outcome>, from: nat): (n: nat)
    requires from <= |outs|
    ensures from <= n <= |outs|
    ensures forall j :: from <= j < n ==> !outs[j].Crashed?
    ensures n < |outs| ==> outs[n].Crashed?
    decreases |outs| - from
  {
    if from == |outs| || outs[from].Crashed? then from else CompletedFrom(outs, from + 1)
  }

  /** The records before position `j` are enriched, the rest are as loaded. */
  ghost predicate EnrichedUpTo(records: seq<Dict>, movieData: seq<Dict>, outs: seq<Outcome>, j: nat)
    requires |outs| == |movieData| && j <= |outs|
  {
    && |records| == |movieData|
    && (forall k :: 0 <= k < j ==> records[k] == Enriched(movieData[k], outs[k]))
    && (forall k :: j <= k < |records| ==> records[k] == movieData[k])
  }

  /** A turn that gathered something stores the merged record in its place. */
  lemma EnrichedStep(records: seq<Dict>, movieData: seq<Dict>, outs: seq<Outcome>, j: nat, merged: Dict)
    requires |outs| == |movieData| && j < |outs| && EnrichedUpTo(records, movieData, outs, j)
    requires outs[j].Gathered? && merged == PriorityMerge.Merged(records[j], outs[j].newData)
    ensures EnrichedUpTo(records[j := merged], movieData, outs, j + 1)
  {
    var updated := records[j := merged];
    assert records[j] == movieData[j];
    assert updated[j] == Enriched(movieData[j], outs[j]);
    forall k | 0 <= k < j ensures updated[k] == Enriched(movieData[k], outs[k]) {
      assert updated[k] == records[k];
    }
    forall k | j + 1 <= k < |updated| ensures updated[k] == movieData[k] {
      assert updated[k] == records[k];
    }
  }

  /** Any other turn leaves the record as it is. */
  lemma EnrichedKeep(records: seq<Dict>, movieData: seq<Dict>, outs: seq<Outcome>, j: nat)
    requires |outs| == |movieData| && j < |outs| && EnrichedUpTo(records, movieData, outs, j)
    requires !outs[j].Gathered?
    ensures EnrichedUpTo(records, movieData, outs, j + 1)
  {
  }

  /** What one more turn adds to the tallies of the run. */
  lemma TurnCounts(outs: seq<Outcome>, c0: nat, j: nat)
    requires j < |outs|
    ensures LoggedAmong(outs, j + 1) == LoggedAmong(outs, j) + Logged(outs[j])
    ensures !Advances(outs[j]) ==>
              CounterAfter(outs, c0, j + 1) == CounterAfter(outs, c0, j) && SavesAmong(outs, c0, j + 1) == SavesAmong(outs, c0, j)
    ensures Advances(outs[j]) && CounterAfter(outs, c0, j) + 1 < 6 ==>
              CounterAfter(outs, c0, j + 1) == CounterAfter(outs, c0, j) + 1 && SavesAmong(outs, c0, j + 1) == SavesAmong(outs, c0, j)
    ensures Advances(outs[j]) && CounterAfter(outs, c0, j) + 1 == 6 ==>
              CounterAfter(outs, c0, j + 1) == 0 && SavesAmong(outs, c0, j + 1) == SavesAmong(outs, c0, j) + 1
  {
  }

  /** A turn that does not raise is followed by the next. */
  lemma PastCompleted(outs: seq<Outcome>, j: nat)
    requires j <= Completed(outs) && j < |outs| && !outs[j].Crashed?
    ensures j + 1 <= Completed(outs)
  {
  }

  /** The first turn that raises is the one the run stops at. */
  lemma CrashEndsRun(outs: seq<Outcome>, j: nat)
    requires j <= Completed(outs) && j < |outs| && outs[j].Crashed?
    ensures j == Completed(outs) && Ran(outs) == j + 1
  {
  }

  /** A run none of whose turns raises takes them all. */
  lemma NoCrashRunsAll(outs: seq<Outcome>)
    requires |outs| <= Completed(outs)
    ensures Ran(outs) == |outs| == Completed(outs)
  {
  }

  function Checkpoints(n: nat): (r: seq<Folder>)
    ensures |r| == n && forall i :: 0 <= i < n ==> r[i] == Checkpoint
  {
    seq(n, _ => Checkpoint)
  }

  /** One more checkpoint is one more save to the working folder. */
  lemma CheckpointsSnoc(before: seq<Folder>, n: nat)
    ensures before + Checkpoints(n + 1) == before + Checkpoints(n) + [Checkpoint]
  {
    assert Checkpoints(n + 1) == Checkpoints(n) + [Checkpoint];
  }

  /** The counter `i` after the first `n` turns, started at `c0`: a turn that
      gathered something increments it, and it is reset on reaching six
      (lines 152-163). */
  function CounterAfter(outs: seq<Outcome>, c0: nat, n: nat): nat
    requires n <= |outs|
  {
    if n == 0 then c0
    else
      var c := CounterAfter(outs, c0, n - 1);
      if Advances(outs[n - 1]) then (if c + 1 == 6 then 0 else c + 1) else c
  }

  /** The number of checkpoint saves during the first `n` turns: one for each
      time the counter reaches six. */
  function SavesAmong(outs: seq<Outcome>, c0: nat, n: nat): nat
    requires n <= |outs|
  {
    if n == 0 then 0
    else SavesAmong(outs, c0, n - 1) + (if Advances(outs[n - 1]) && CounterAfter(outs, c0, n - 1) + 1 == 6 then 1 else 0)
  }

  /** Counted from a counter below six, the counter is the number of turns
      that gathered something modulo six, and a checkpoint is saved once per
      six such turns. */
  lemma {:induction false} CounterArithmetic(outs: seq<Outcome>, c0: nat, n: nat)
    requires n <= |outs| && c0 < 6
    ensures CounterAfter(outs, c0, n) == (c0 + AdvancesAmong(outs, n)) % 6
    ensures SavesAmong(outs, c0, n) == (c0 + AdvancesAmong(outs, n)) / 6
  {
    if n > 0 {
      CounterArithmetic(outs, c0, n - 1);
      CounterStep(c0, AdvancesAmong(outs, n - 1), CounterAfter(outs, c0, n - 1));
    }
  }

  /** The counter runs modulo six and a checkpoint falls every sixth step. */
  lemma CounterStep(c0: int, a: nat, counter: int)
    requires 0 <= c0 && counter == (c0 + a) % 6
    ensures counter + 1 < 6 ==> counter + 1 == (c0 + a + 1) % 6 && (c0 + a + 1) / 6 == (c0 + a) / 6
    ensures counter + 1 == 6 ==> (c0 + a + 1) % 6 == 0 && (c0 + a + 1) / 6 == (c0 + a) / 6 + 1
  {
    var x := c0 + a;
    assert x == 6 * (x / 6) + x % 6;
    assert x + 1 == 6 * (x / 6) + (counter + 1);
  }

  /** The turns a run takes: all of them, or up to and including the first
      that raises. */
  function Ran(outs: seq<Outcome>): (n: nat)
    ensures n <= |outs|
  {
    if Completed(outs) < |outs| then Completed(outs) + 1 else |outs|
  }

  /** A turn that raises leaves its record as it was loaded: the records
      enriched up to the end of the run are those before the first turn that
      raises. */
  lemma RanRecords(records: seq<Dict>, movieData: seq<Dict>, outs: seq<Outcome>)
    requires |outs| == |movieData| && EnrichedUpTo(records, movieData, outs, Ran(outs))
    ensures EnrichedUpTo(records, movieData, outs, Completed(outs))
  {
    var c := Completed(outs);
    forall k | c <= k < |records|
      ensures records[k] == movieData[k]
    {
      if k == c {
        assert records[k] == Enriched(movieData[k], outs[k]) && outs[k].Crashed?;
      }
    }
  }

  /** The error set and the text of the working error file. */
  datatype Ledger = Ledger(errors: set<string>, tmpText: string)

  /** The errors a turn logs join the set. */
  function Log(l: Ledger, outcome: Outcome): Ledger
  {
    Ledger(l.errors + Logged(outcome), l.tmpText)
  }

  /** A checkpoint (lines 34-51): the lines of the working error file join the
      set, and the file is rewritten from the set. */
  function Checkpointed(l: Ledger): Ledger
  {
    var merged := l.errors + ErrorLedger.FileLines(l.tmpText);
    Ledger(merged, ErrorLedger.ErrorFileText(merged))
  }

  lemma CheckpointedErrors(l: Ledger)
    ensures Checkpointed(l).errors == l.errors + ErrorLedger.FileLines(l.tmpText)
  {
  }

  /** The ledger after the first `n` turns, started from `l0` with the counter
      at `c0`: each turn logs its errors, and a turn that brings the counter
      to six is followed by a checkpoint. */
  function LedgerAfter(outs: seq<Outcome>, c0: nat, l0: Ledger, n: nat): Ledger
    requires n <= |outs|
  {
    if n == 0 then l0
    else
      var l := Log(LedgerAfter(outs, c0, l0, n - 1), outs[n - 1]);
      if Advances(outs[n - 1]) && CounterAfter(outs, c0, n - 1) + 1 == 6 then Checkpointed(l) else l
  }

  lemma LedgerStep(outs: seq<Outcome>, c0: nat, l0: Ledger, j: nat)
    requires j < |outs|
    ensures LedgerAfter(outs, c0, l0, j + 1) ==
              var l := Log(LedgerAfter(outs, c0, l0, j), outs[j]);
              if Advances(outs[j]) && CounterAfter(outs, c0, j) + 1 == 6 then Checkpointed(l) else l
  {
  }

  /** Nothing logged is lost: the set keeps the errors it started with and
      every error the turns log. */
  lemma {:induction false} LedgerKeeps(outs: seq<Outcome>, c0: nat, l0: Ledger, n: nat)
    requires n <= |outs|
    ensures l0.errors + LoggedAmong(outs, n) <= LedgerAfter(outs, c0, l0, n).errors
  {
    if n > 0 {
      LedgerKeeps(outs, c0, l0, n - 1);
      LedgerGrows(outs, c0, l0, n - 1);
    }
  }

  /** A turn removes nothing from the set. */
  lemma LedgerGrows(outs: seq<Outcome>, c0: nat, l0: Ledger, j: nat)
    requires j < |outs|
    ensures LedgerAfter(outs, c0, l0, j).errors + Logged(outs[j]) <= LedgerAfter(outs, c0, l0, j + 1).errors
  {
    var l := Log(LedgerAfter(outs, c0, l0, j), outs[j]);
    LedgerStep(outs, c0, l0, j);
    CheckpointedErrors(l);
  }

  /** The working error file is untouched until the first checkpoint, and
      from then on its former lines are in the set. */
  lemma {:induction false} LedgerKeepsFile(outs: seq<Outcome>, c0: nat, l0: Ledger, n: nat)
    requires n <= |outs|
    ensures SavesAmong(outs, c0, n) == 0 ==> LedgerAfter(outs, c0, l0, n).tmpText == l0.tmpText
    ensures SavesAmong(outs, c0, n) > 0 ==>
              ErrorLedger.FileLines(l0.tmpText) <= LedgerAfter(outs, c0, l0, n).errors
  {
    if n > 0 {
      LedgerKeepsFile(outs, c0, l0, n - 1);
      LedgerGrows(outs, c0, l0, n - 1);
      var before := LedgerAfter(outs, c0, l0, n - 1);
      var l := Log(before, outs[n - 1]);
      LedgerStep(outs, c0, l0, n - 1);
      if Advances(outs[n - 1]) && CounterAfter(outs, c0, n - 1) + 1 == 6 {
        CheckpointedErrors(l);
        assert SavesAmong(outs, c0, n) > 0;
        assert SavesAmong(outs, c0, n - 1) == 0 ==> l.tmpText == l0.tmpText;
      } else {
        assert LedgerAfter(outs, c0, l0, n) == l && l.tmpText == before.tmpText;
        assert SavesAmong(outs, c0, n) == SavesAmong(outs, c0, n - 1);
      }
    }
  }

  /** The messages a run can hold given `base`: its members, and its members
      with their fraction slashes removed. */
  function Traced(base: set<string>): set<string>
  {
    base + set b | b in base :: Remove(b, ErrorLedger.FractionSlash)
  }

  /** Nothing else enters the ledger: every error in the set, and every line of
      the working error file, is one the run started with, one a turn logged
      or a line of the working file as found, possibly with its fraction
      slashes removed, provided no logged error spans several lines. */
  lemma {:induction false} LedgerBounded(outs: seq<Outcome>, c0: nat, l0: Ledger, n: nat)
    requires n <= |outs|
    requires forall e :: e in l0.errors + LoggedAmong(outs, n) ==> '\n' !in e
    ensures var base := l0.errors + LoggedAmong(outs, n) + ErrorLedger.FileLines(l0.tmpText);
            && LedgerAfter(outs, c0, l0, n).errors <= Traced(base)
            && ErrorLedger.FileLines(LedgerAfter(outs, c0, l0, n).tmpText) <= Traced(base)
  {
    var base := l0.errors + LoggedAmong(outs, n) + ErrorLedger.FileLines(l0.tmpText);
    if n == 0 {
      return;
    }
    var before := l0.errors + LoggedAmong(outs, n - 1) + ErrorLedger.FileLines(l0.tmpText);
    LedgerBounded(outs, c0, l0, n - 1);
    TracedGrows(before, base);
    var l := Log(LedgerAfter(outs, c0, l0, n - 1), outs[n - 1]);
    assert l.errors <= Traced(base);
    if Advances(outs[n - 1]) && CounterAfter(outs, c0, n - 1) + 1 == 6 {
      var merged := l.errors + ErrorLedger.FileLines(l.tmpText);
      ErrorLedger.LinesOfText(l0.tmpText);
      ErrorLedger.LinesOfText(l.tmpText);
      TracedNoNewline(base);
      assert merged <= Traced(base);
      ErrorLedger.WrittenLines(merged);
      forall e | e in ErrorLedger.FileLines(ErrorLedger.ErrorFileText(merged))
        ensures e in Traced(base)
      {
        var m :| m in merged && e == Remove(m, ErrorLedger.FractionSlash);
        TracedStripped(base, m);
      }
    }
  }

  lemma TracedGrows(a: set<string>, b: set<string>)
    requires a <= b
    ensures Traced(a) <= Traced(b)
  {
  }

  /** Removing the fraction slashes of a traced message gives a traced message. */
  lemma TracedStripped(base: set<string>, e: string)
    requires e in Traced(base)
    ensures Remove(e, ErrorLedger.FractionSlash) in Traced(base)
  {
    if e !in base {
      var b :| b in base && e == Remove(b, ErrorLedger.FractionSlash);
      RemoveSpec(b, ErrorLedger.FractionSlash);
      RemoveSpec(e, ErrorLedger.FractionSlash);
    }
  }

  lemma TracedNoNewline(base: set<string>)
    requires forall e :: e in base ==> '\n' !in e
    ensures forall e :: e in Traced(base) ==> '\n' !in e
  {
    forall e | e in Traced(base) ensures '\n' !in e {
      if e !in base {
        var b :| b in base && e == Remove(b, ErrorLedger.FractionSlash);
        RemoveSpec(b, ErrorLedger.FractionSlash);
      }
    }
  }

  /** The state a run starts from. */
  datatype Start = Start(counter: nat, ledger: Ledger, saveFile: Option<seq<Dict>>, saves: seq<Folder>,
                         output: Option<string>)

  /** The state of `get_movie_info`: the records, the error set, the counter
      `i`, the text of the working error file, the last JSON save, the output
      error file, and the folders saved to, in order. */
  class EnrichmentRun {
    var records: seq<Dict>
    var errors: set<string>
    var counter: int
    var tmpErrorText: string
    var saveFile: Option<seq<Dict>>
    var outputErrorText: Option<string>
    var saves: seq<Folder>

    predicate Valid()
      reads this
    {
      0 <= counter < 6
    }

    /** Lines 56-60, with the records as loaded and the working error file's
        text as found. */
    constructor(records: seq<Dict>, tmpErrorText: string)
      ensures Valid()
      ensures this.records == records && this.tmpErrorText == tmpErrorText
      ensures errors == {} && counter == 0
      ensures saveFile == None && outputErrorText == None && saves == []
    {
      this.records := records;
      this.tmpErrorText := tmpErrorText;
      errors := {};
      counter := 0;
      saveFile := None;
      outputErrorText := None;
      saves := [];
    }

    /** `save_progress` (lines 34-51): the records are saved; the lines of the
        working error file join the error set; the sorted set, with every
        fraction slash removed, is written to the chosen folder. */
    method SaveProgress(folder: Folder)
      modifies this
      ensures errors == old(errors) + ErrorLedger.FileLines(old(tmpErrorText))
      ensures saveFile == Some(records)
      ensures records == old(records) && counter == old(counter)
      ensures folder == Checkpoint ==>
                tmpErrorText == ErrorLedger.ErrorFileText(errors) && outputErrorText == old(outputErrorText)
      ensures folder == Output ==>
                outputErrorText == Some(ErrorLedger.ErrorFileText(errors)) && tmpErrorText == old(tmpErrorText)
      ensures saves == old(saves) + [folder]
    {
      saveFile := Some(records);
      var errFileList := ErrorLedger.FileLines(tmpErrorText);
      errors := errors + errFileList;
      var text := ErrorLedger.FormatErrors(errors);
      if folder == Checkpoint {
        tmpErrorText := text;
      } else {
        outputErrorText := Some(text);
      }
      saves := saves + [folder];
    }

    /** What holds before the turn of record `j`: the records before it are
        enriched, the rest are as loaded, and the counter, the saves and the
        ledger account for the turns before it. */
    ghost predicate Progress(movieData: seq<Dict>, outs: seq<Outcome>, j: nat, st: Start)
      reads this
      requires |outs| == |movieData| && j <= |outs|
    {
      && Valid()
      && EnrichedUpTo(records, movieData, outs, j)
      && Tally(outs, j, st)
    }

    /** The counter, the checkpoints, the error set and the working error file
        after the first `j` turns; the save file is as found until the first
        checkpoint and holds a snapshot of the records after it. */
    ghost predicate Tally(outs: seq<Outcome>, j: nat, st: Start)
      reads this
      requires j <= |outs|
    {
      && counter == CounterAfter(outs, st.counter, j)
      && saves == st.saves + Checkpoints(SavesAmong(outs, st.counter, j))
      && Ledger(errors, tmpErrorText) == LedgerAfter(outs, st.counter, st.ledger, j)
      && outputErrorText == st.output
      && (SavesAmong(outs, st.counter, j) == 0 ==> saveFile == st.saveFile)
      && (SavesAmong(outs, st.counter, j) > 0 ==> saveFile.Some? && |saveFile.value| == |records|)
    }

    /** Within the turn of record `j`, once its errors are logged. */
    ghost predicate Logging(outs: seq<Outcome>, j: nat, st: Start)
      reads this
      requires j < |outs|
    {
      && counter == CounterAfter(outs, st.counter, j)
      && saves == st.saves + Checkpoints(SavesAmong(outs, st.counter, j))
      && Ledger(errors, tmpErrorText) == Log(LedgerAfter(outs, st.counter, st.ledger, j), outs[j])
      && outputErrorText == st.output
      && (SavesAmong(outs, st.counter, j) == 0 ==> saveFile == st.saveFile)
      && (SavesAmong(outs, st.counter, j) > 0 ==> saveFile.Some? && |saveFile.value| == |records|)
    }

    /** The end of one turn of the loop (lines 64-164) for record `j`, once
        its outcome is known: the turn either raises, having logged its errors
        and left its record as loaded, or moves the loop on to the next
        record. */
    method Turn(j: nat, outcome: Outcome, ghost movieData: seq<Dict>, ghost outs: seq<Outcome>, ghost st: Start)
      returns (fault: Option<Fault>)
      requires |outs| == |movieData| && j < |outs| && outs[j] == outcome
      requires Progress(movieData, outs, j, st)
      modifies this
      ensures fault.None? <==> !outs[j].Crashed?
      ensures fault.Some? ==> fault.value == outs[j].fault
      ensures Progress(movieData, outs, j + 1, st)
    {
      Note(j, outcome, movieData, outs, st);
      if outcome.Gathered? {
        fault := None;
        Absorb(j, outcome.newData, movieData, outs, st);
      } else {
        EnrichedKeep(records, movieData, outs, j);
        Unadvanced(j, outs, st);
        fault := if outcome.Crashed? then Some(outcome.fault) else None;
      }
    }

    /** The errors of a turn join the set: the skipped record's error, or
        the errors its sites logged (lines 69, 78-142). */
    method Note(j: nat, outcome: Outcome, ghost movieData: seq<Dict>, ghost outs: seq<Outcome>, ghost st: Start)
      requires |outs| == |movieData| && j < |outs| && outs[j] == outcome
      requires Progress(movieData, outs, j, st)
      modifies this
      ensures Valid() && EnrichedUpTo(records, movieData, outs, j) && Logging(outs, j, st)
      ensures records == old(records)
    {
      errors := errors + Logged(outcome);
    }

    /** A turn that skipped its record or raised moves neither the counter
        nor the checkpoints. */
    lemma Unadvanced(j: nat, outs: seq<Outcome>, st: Start)
      requires j < |outs| && !outs[j].Gathered? && Logging(outs, j, st)
      ensures Tally(outs, j + 1, st)
    {
      TurnCounts(outs, st.counter, j);
      LedgerStep(outs, st.counter, st.ledger, j);
    }

    /** Lines 144-163 after a turn that gathered `newData`: the record is
        merged with it in place, then the counter moves on. */
    method Absorb(j: nat, newData: Dict, ghost movieData: seq<Dict>, ghost outs: seq<Outcome>, ghost st: Start)
      requires |outs| == |movieData| && j < |outs| && outs[j].Gathered? && outs[j].newData == newData
      requires Valid() && EnrichedUpTo(records, movieData, outs, j) && Logging(outs, j, st)
      modifies this
      ensures Progress(movieData, outs, j + 1, st)
    {
      Store(j, newData, movieData, outs);
      Count(j, newData.keys != [], outs, st);
    }

    /** Lines 156-159: the gathered answers are merged into record `j` in
        place; nothing else changes. */
    method Store(j: nat, newData: Dict, ghost movieData: seq<Dict>, ghost outs: seq<Outcome>)
      requires |outs| == |movieData| && j < |outs| && outs[j].Gathered? && outs[j].newData == newData
      requires EnrichedUpTo(records, movieData, outs, j)
      modifies this
      ensures EnrichedUpTo(records, movieData, outs, j + 1)
      ensures records[j] == PriorityMerge.Merged(old(records[j]), newData)
      ensures counter == old(counter) && errors == old(errors) && tmpErrorText == old(tmpErrorText)
      ensures saveFile == old(saveFile) && saves == old(saves) && outputErrorText == old(outputErrorText)
    {
      var merged := PriorityMerge.MergeNewData(records[j], newData);
      EnrichedStep(records, movieData, outs, j, merged);
      records := records[j := merged];
    }

    /** Lines 152-163 after a turn that gathered: a turn that found something
        increments the counter, and at six the records and the error file are
        saved to the working folder and the counter starts again. */
    method Count(j: nat, found: bool, ghost outs: seq<Outcome>, ghost st: Start)
      requires j < |outs| && found == Advances(outs[j])
      requires Valid() && Logging(outs, j, st)
      modifies this
      ensures Valid() && Tally(outs, j + 1, st)
      ensures records == old(records)
      ensures old(counter) + (if found then 1 else 0) == 6 ==>
                && saveFile == Some(records)
                && errors == old(errors) + ErrorLedger.FileLines(old(tmpErrorText))
                && tmpErrorText == ErrorLedger.ErrorFileText(errors)
      ensures old(counter) + (if found then 1 else 0) < 6 ==>
                saveFile == old(saveFile) && errors == old(errors) && tmpErrorText == old(tmpErrorText)
    {
      TurnCounts(outs, st.counter, j);
      LedgerStep(outs, st.counter, st.ledger, j);
      if found {
        counter := counter + 1;
      }
      if counter == 6 {
        CheckpointsSnoc(st.saves, SavesAmong(outs, st.counter, j));
        SaveProgress(Checkpoint);
        counter := 0;
      }
    }

    /** The state at the end of a run from `st` over the records `movieData`,
        whose turns have the outcomes `outs`: records before the first turn
        that raises are enriched in order and the rest are as loaded; the
        counter, the checkpoints, the error set and the working error file are
        those the turns taken determine; without a fault the output save
        follows, and otherwise the save file holds the last checkpoint's
        records, or is as found when there was none. */
    ghost predicate Ended(movieData: seq<Dict>, outs: seq<Outcome>, st: Start, fault: Option<Fault>)
      reads this
      requires |outs| == |movieData|
    {
      && Valid()
      && EnrichedUpTo(records, movieData, outs, Completed(outs))
      && (fault.None? <==> Completed(outs) == |outs|)
      && (fault.Some? ==> fault.value == outs[Completed(outs)].fault)
      && counter == CounterAfter(outs, st.counter, Ran(outs))
      && saves == st.saves + Checkpoints(SavesAmong(outs, st.counter, Ran(outs))) + (if fault.None? then [Output] else [])
      && (var l := LedgerAfter(outs, st.counter, st.ledger, Ran(outs));
          && tmpErrorText == l.tmpText
          && errors == l.errors + (if fault.None? then ErrorLedger.FileLines(l.tmpText) else {}))
      && (fault.None? ==>
            && saveFile == Some(records)
            && outputErrorText == Some(ErrorLedger.ErrorFileText(errors)))
      && (fault.Some? ==>
            && (SavesAmong(outs, st.counter, Ran(outs)) == 0 ==> saveFile == st.saveFile)
            && (SavesAmong(outs, st.counter, Ran(outs)) > 0 ==> saveFile.Some? && |saveFile.value| == |records|)
            && outputErrorText == st.output)
    }

    /** The loop of lines 63-164 and the final save of line 166, with the code
        as written (`asWritten`) or as intended. */
    method Run(src: Sources, asWritten: bool) returns (fault: Option<Fault>)
      requires Valid()
      modifies this
      ensures Ended(old(records), Outcomes(old(records), src, asWritten),
                    Start(old(counter), Ledger(old(errors), old(tmpErrorText)), old(saveFile), old(saves), old(outputErrorText)),
                    fault)
    {
      var movieData := records;
      ghost var outs := Outcomes(movieData, src, asWritten);
      ghost var st := Start(counter, Ledger(errors, tmpErrorText), saveFile, saves, outputErrorText);
      OutcomesEach(movieData, src, asWritten);
      fault := Turns(src, asWritten, movieData, outs, st);
      Finish(fault, movieData, outs, st);
    }

    /** Line 166: once the loop is over without a fault, the records and the
        error file are saved to the output folder. */
    method Finish(fault: Option<Fault>, ghost movieData: seq<Dict>, ghost outs: seq<Outcome>, ghost st: Start)
      requires |outs| == |movieData| && Progress(movieData, outs, Ran(outs), st)
      requires fault.None? <==> Completed(outs) == |outs|
      requires fault.Some? ==> fault.value == outs[Completed(outs)].fault
      modifies this
      ensures Ended(movieData, outs, st, fault)
    {
      RanRecords(records, movieData, outs);
      ghost var l := LedgerAfter(outs, st.counter, st.ledger, Ran(outs));
      assert errors == l.errors && tmpErrorText == l.tmpText;
      if fault.Some? {
        assert saves == st.saves + Checkpoints(SavesAmong(outs, st.counter, Ran(outs))) + [];
        return;
      }
      ghost var before := saves;
      SaveProgress(Output);
      assert saves == before + [Output];
      assert errors == l.errors + ErrorLedger.FileLines(l.tmpText);
    }

    /** The loop of lines 63-164: the turns in order, up to and including the
        first that raises. */
    method Turns(src: Sources, asWritten: bool, ghost movieData: seq<Dict>, ghost outs: seq<Outcome>,
                 ghost st: Start)
      returns (fault: Option<Fault>)
      requires |outs| == |movieData|
      requires forall k :: 0 <= k < |outs| ==> outs[k] == TurnOutcome(movieData[k], src, asWritten)
      requires records == movieData && Valid()
      requires st == Start(counter, Ledger(errors, tmpErrorText), saveFile, saves, outputErrorText)
      modifies this
      ensures Progress(movieData, outs, Ran(outs), st)
      ensures fault.None? <==> Completed(outs) == |outs|
      ensures fault.Some? ==> fault.value == outs[Completed(outs)].fault
    {
      assert saves == st.saves + Checkpoints(0);
      for j := 0 to |records|
        invariant j <= Completed(outs)
        invariant Progress(movieData, outs, j, st)
      {
        var outcome := EnrichRecord(records[j], src, asWritten);
        assert outcome == outs[j];
        var f := Turn(j, outcome, movieData, outs, st);
        if f.Some? {
          CrashEndsRun(outs, j);
          return f;
        }
        PastCompleted(outs, j);
      }
      NoCrashRunsAll(outs);
      fault := None;
    }
  }
}
