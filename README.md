# Movie watch-list enrichment, modelled in Dafny

The system reads a watch list of films, one record per film: an ordered mapping from
column names such as `Movie Title`, `Year` and `Cast (from Letterboxd)` to values. It fills
the record's missing columns from several sites:

- Letterboxd: average and personal rating, review and rating counts, cast, runtime, and the
  TMDB and IMDb identifiers.
- Rotten Tomatoes: the critics' and the audience's scores.
- An Academy Awards service: nominations, wins and a details line.

Any site that has nothing for a film is logged in an error set. Progress is saved after every
sixth record that gained data, and once more at the end. The helpers that build a TMDB or IMDb
record are part of the same module and are modelled here as well.

The model has one Dafny module per part of the program:

- `Dicts`: Python values and insertion-ordered dicts.
  - `Put` models `d[k] = v`, `Pop` models `d.pop(k)` and `Update` models `d.update(e)`.
  - `PyInt` models `int(x)` and `PyStr` models `str(x)`.
- `Strings`: splitting, joining, stripping, digits and the code-point order `sorted` uses.
- `ErrorLedger`: the set, sort, join and strip logic of `save_progress`.
- `Tmdb`: the director list and the AU/US classification of `retrieve_tmdb_data`.
- `Imdb`: `search_imdb`, with the HTTP answer given as a function.
- `RottenTomatoes`: title cleaning, the row-matching rule and the score fields of
  `scrape_rotten_tomatoes`. The search page is given as a list of rows.
- `Letterboxd`: the search text, the ±1-year slug choice, the personal rating, the cast
  text and the identifier extraction of `get_letterboxd_movie_data`. The search service and
  the film pages are given as functions.
- `Oscars`: `get_oscars_data` and the same aggregation inside the loop.
- `PriorityMerge`: how the fields collected for a record are merged into it. Priority
  fields are moved first, then the rest is added with a bulk update.
- `Enrichment`: one turn of the loop and the whole run.
  - `Gather` specifies what one record's turn collects and logs when the loop works as
    evidently intended. `GatherAsWritten` specifies the loop exactly as written, with the two
    defects listed under Findings. `EnrichRecord` computes either one step by step.
  - The class `EnrichmentRun` holds the records, the error set, the save counter, the text
    of the temporary and output error files, the last snapshot of the records, and the list
    of saves made.
  - Its methods change that state as the program does. `Run` takes a flag `asWritten`. With
    the flag set, each turn follows `GatherAsWritten`; with it clear, each turn follows
    `Gather`. Every property of the run stated below holds for both.
  - Python exceptions that end a run are a `Fault` outcome. Examples are a `KeyError`, and
    `int()` of a non-number.

## Model

| member | source | states |
|---|---|---|
| ErrorLedger.ErrorListSorted | src/get_movie_info.py:46 | the error list is strictly sorted (so it holds no duplicates) and holds exactly the members of the error set |
| ErrorLedger.LinesOfText | src/get_movie_info.py:42-44 | reading an error file back and splitting it at newlines gives at least one line (the empty text gives one empty line), and no line holds a newline |
| Strings.SplitParts | src/get_movie_info.py:44 | no part of a text split at a one-character separator holds that character |
| Strings.SortedSpec | src/get_movie_info.py:46 | `sorted` of a set of strings is strictly increasing in code-point order and holds exactly the members of the set |
| Strings.RemoveSpec | src/get_movie_info.py:49-50 | `replace(c, '')` leaves no `c`; a character is in the result exactly when it is in the input and is not `c`; a text without `c` is unchanged |
| ErrorLedger.FormatErrors | src/get_movie_info.py:46-50 | the text written is the sorted list joined by newlines; no fraction slash (U+2044) is left in it |
| ErrorLedger.WrittenLines | src/get_movie_info.py:42-51 | provided no error holds a newline, reading the written error file back and splitting it at newlines gives exactly the error set, each line with its fraction slashes removed |
| ErrorLedger.RerunKeepsOneCopy | src/get_movie_info.py:42-51 | merging a set with the lines of an error file written earlier (no earlier error holding a newline) adds the earlier errors with their fraction slashes removed; when none of them held a fraction slash this is the union of the two sets, so an error logged in both runs is written once; the next list is strictly sorted |
| ErrorLedger.SlashedErrorWrittenTwice | src/get_movie_info.py:41-50 | as written: the set keeps the message `a⁄b` while the file written for it holds `ab`; the next save merges both forms and writes the line `ab` twice |
| ErrorLedger.UniqueLines | src/get_movie_info.py:41-50 | as intended, with each error stripped before sorting: the lines written are strictly sorted (none twice), are exactly the stripped errors, and hold no fraction slash |
| ErrorLedger.UniqueAgrees | src/get_movie_info.py:41-50 | when no error holds a fraction slash, the corrected file text is the text written as it stands |
| ErrorLedger.RemoveJoin | src/get_movie_info.py:48-50 | removing a character from a joined text is the same as removing it from each part first, when the separator does not contain it |
| Enrichment.EnrichmentRun.SaveProgress | src/get_movie_info.py:34-51 | the lines of the error file are added to the error set; the records are snapshot; the error file of the chosen folder receives the formatted ledger and the other file is unchanged; records and counter are unchanged; the save is recorded |
| Enrichment.EnrichmentRun.constructor | src/get_movie_info.py:56-60 | a run starts with the loaded records, an empty error set, counter 0, no snapshot and no saves |
| Enrichment.EnrichmentRun.Run | src/get_movie_info.py:63-166 | for the code as written and as intended alike: records before the first raising record are enriched with their own outcome, and that record and all later ones are as loaded; the fault returned is that record's; the counter and the checkpoint saves follow the records that gained data (a save after every sixth, counter back to 0); the error set and the working error file are exactly the ledger after the turns taken, which LedgerKeeps and LedgerBounded bound from below and above; the final save to the output folder, with the save file holding the final records and the output error text formatted from the set, happens exactly when no record raises |
| Enrichment.EnrichmentRun.Turns | src/get_movie_info.py:63-164 | the loop stops after the first raising record and returns its fault, or returns none when no record raises; the records taken are enriched with their own outcome (a raising record stays as loaded) and later records are as loaded; the counter, the checkpoint saves, the error set and the working error file are those after the turns taken; the output error text is untouched |
| Enrichment.EnrichmentRun.Turn | src/get_movie_info.py:64-164 | given the outcome of record `j`'s turn: it returns a fault exactly when the outcome raises, and then that fault; the turn's errors join the set; record `j`, the counter, the saves and the ledger become those after `j + 1` turns |
| Enrichment.EnrichmentRun.Note | src/get_movie_info.py:72-142 | the errors of the turn (the identity message of a skipped record, or the misses its sites logged, including those logged before a raise) join the error set; the records are unchanged |
| Enrichment.EnrichmentRun.Store | src/get_movie_info.py:156-159 | record `j` becomes its merge with the collected fields and no other record changes; the counter, the error set, the files, the save file and the saves are unchanged |
| Enrichment.EnrichmentRun.Absorb | src/get_movie_info.py:152-164 | the collected fields are merged into record `j`, then the counter and the checkpoint saves move on, leaving the run in its state after `j + 1` turns |
| Enrichment.EnrichmentRun.Count | src/get_movie_info.py:152-164 | a record that gained data moves the counter on; when it reaches 6, the save file holds exactly the current records, the error set gains the lines of the working error file, that file is rewritten from the set, and the counter returns to 0; otherwise the save file, the set and the working file are unchanged; the records are unchanged either way |
| Enrichment.EnrichmentRun.Finish | src/get_movie_info.py:166 | after a loop without a fault the output save follows: the save file holds the final records, the set gains the working file's lines and the output error text is the formatted set; after a fault nothing more is saved and the save file is as found or holds a checkpoint of as many records as the run |
| Enrichment.CounterArithmetic | src/get_movie_info.py:152-164 | after n turns the counter is (c0 + records that gained data) mod 6 and the number of checkpoint saves is the same sum div 6, so the counter stays in 0..5 |
| Enrichment.Completed | src/get_movie_info.py:63-166 | the records processed before the run ends form the longest prefix with no raising record, and the record right after that prefix, if any, raises |
| Enrichment.LedgerKeeps | src/get_movie_info.py:63-164 | nothing logged is lost: after any number of turns the error set holds the errors it started with and every error the turns logged |
| Enrichment.LedgerKeepsFile | src/get_movie_info.py:41-45 | the working error file is untouched until the first checkpoint, and after one its former lines are all in the error set |
| Enrichment.LedgerBounded | src/get_movie_info.py:34-51 | nothing else enters the ledger: every error in the set and every line of the working file is a starting error, a logged error or a line of the working file as found, possibly with its fraction slashes removed, provided no logged error holds a newline |
| Enrichment.AdvancesAmong | src/get_movie_info.py:152-154 | the count of records that gained data is at most the number of turns, and equals it exactly when every turn gained data |
| Enrichment.EnrichRecord | src/get_movie_info.py:72-142 | the loop body for one record, step by step, yields the outcome `GatherAsWritten` specifies when `asWritten` is set and the one `Gather` specifies otherwise |
| Enrichment.Gather | src/get_movie_info.py:72-142 | as intended: a record is skipped exactly when it lacks the title or the year, and then the one error logged is the identity message; a turn never raises for a missing year or at the Rotten Tomatoes call |
| Enrichment.GatherAsWritten | src/get_movie_info.py:72-142 | as written: a record is skipped exactly when it lacks the title, with the identity message; a record with a title but no year raises `KeyError`, and only such a record raises that fault; a record with a title that lacks the critics' score always raises |
| Enrichment.GatherAsWrittenAgrees | src/get_movie_info.py:72-142 | a turn that gathers as written gathers exactly what the intended turn gathers, so every lemma stated for a gathering `Gather` turn holds for the code as written too |
| Enrichment.Fetch | src/get_movie_info.py:76-142 | a record with a title and a year is never skipped and never raises for a missing year; only the as-written call raises for the missing argument, and as written every record lacking the critics' score raises |
| Enrichment.AskLetterboxd | src/get_movie_info.py:103-108 | the Letterboxd block, step by step, yields the stage `LetterboxdStage` specifies |
| Enrichment.AskRottenTomatoes | src/get_movie_info.py:111-117 | the Rotten Tomatoes block, step by step, yields `RtStageAsWritten` for the call as written and `RtStage` for the call as intended |
| Enrichment.AskAwards | src/get_movie_info.py:120-142 | the Academy Awards block, step by step, yields the stage `AwardsStage` specifies |
| Enrichment.CastList | src/get_movie_info.py:113 | the cast handed to the scan is empty without a stored cast, and the scan raises exactly when the stored cast is not a string |
| Enrichment.AwardsGateSpec | src/get_movie_info.py:120-122 | the awards service is asked exactly for a record with a string IMDb ID whose nominations are missing or whose details contain '('; the query uses that ID; a record with nominations but no details field raises |
| Enrichment.LetterboxdMissLogged | src/get_movie_info.py:103-108 | the Letterboxd miss message is logged exactly when the cast was missing and Letterboxd answered with nothing |
| Enrichment.RtMissLogged | src/get_movie_info.py:111-117 | the Rotten Tomatoes miss message is logged exactly when the critics' score was missing and the scan answered with nothing |
| Enrichment.RtStageMiss | src/get_movie_info.py:111-117 | within one stage, the Rotten Tomatoes miss is logged exactly when the score was missing, the cast could be split and the scan found nothing |
| Enrichment.RtScoresGathered | src/get_movie_info.py:111-117 | when the scan finds a film, both of its scores are in the collected fields |
| Enrichment.RtStageScores | src/get_movie_info.py:111-117 | the Rotten Tomatoes stage copies both scores of a found film into the collected fields |
| Enrichment.RtKeepsCast | src/get_movie_info.py:108-117 | the Rotten Tomatoes stage does not overwrite the cast Letterboxd supplied |
| Enrichment.AwardsRecorded | src/get_movie_info.py:124-138 | a 200 answer records the number of nominations, the number of wins and the joined detail lines |
| Enrichment.AwardsFailureRecorded | src/get_movie_info.py:139-142 | any other answer records 0 nominations and 0 wins and logs the Academy Awards miss |
| Enrichment.AwardsUntouched | src/get_movie_info.py:120-121 | when the service is not asked, no award field is collected and no award miss is logged |
| Enrichment.AwardsKeepsOthers | src/get_movie_info.py:120-142 | the awards stage changes no field other than the three award fields |
| Enrichment.LetterboxdStageErrors | src/get_movie_info.py:106-107 | the Letterboxd stage adds at most its own miss message to the errors |
| Enrichment.RtStageErrors | src/get_movie_info.py:115-116 | the Rotten Tomatoes stage adds at most its own miss message to the errors |
| Enrichment.AwardsStageErrors | src/get_movie_info.py:139-142 | the awards stage adds at most its own miss message to the errors |
| Enrichment.GatheredErrors | src/get_movie_info.py:103-142 | after Letterboxd, the later stages add only the Rotten Tomatoes and the Academy Awards messages, and remove none |
| Enrichment.NoInfoSitesDiffer | src/get_movie_info.py:107-142 | the miss messages of different sites never coincide, whatever the title and year |
| Enrichment.GatheredFromSources | src/get_movie_info.py:103-142 | every collected field is a Letterboxd, Rotten Tomatoes or award field |
| Enrichment.MergeKeepsOwnFields | src/get_movie_info.py:144-159 | merging keeps the record's existing keys in place and at the front, and keeps the value of every field no site supplies |
| Enrichment.EnrichmentKeepsIdentity | src/get_movie_info.py:76-159 | an enriched record keeps its title and year, with their values and places |
| Enrichment.FilledCastNotRefetched | src/get_movie_info.py:103-159 | once Letterboxd has supplied a cast, the merged record no longer lacks it, so the next run does not ask again |
| Enrichment.YearlessRecordAsWritten | src/get_movie_info.py:72-77 | as written, a record with a title and no year raises instead of being skipped; the corrected check skips it with the identity message |
| Enrichment.RtCallAsWritten | src/get_movie_info.py:114 | as written, a record that needs Rotten Tomatoes scores raises at the three-argument call |
| Enrichment.RtCallAsIntended | src/request_movie_site_data.py:101-157 | with the four-argument call the same record is enriched |
| PriorityMerge.MergeNewData | src/get_movie_info.py:156-159 | the merge loop (pop each priority field into the record, then bulk update) yields `Merged(rec, newData)` |
| PriorityMerge.MergedValues | src/get_movie_info.py:156-159 | after the merge every collected key holds the collected value and every other key keeps its value; the keys are the union |
| PriorityMerge.MergedOrder | src/get_movie_info.py:144-159 | the merged record's keys are its old keys, then the new priority keys in collected order, then the new other keys in collected order |
| PriorityMerge.MergedKeepsPlaces | src/get_movie_info.py:156-159 | the record's existing keys keep their places at the front |
| PriorityMerge.MergedNothing | src/get_movie_info.py:156-159 | a record with nothing collected is unchanged |
| PriorityMerge.LastStep | src/get_movie_info.py:156-159 | after the loop the bulk update of what is left yields the merged record |
| Tmdb.Directors | src/request_movie_site_data.py:37-41 | the field is the names of the crew entries whose job is "Director", in crew order, joined by ", " |
| Tmdb.DirectorNamesMembers | src/request_movie_site_data.py:37-40 | a name is listed exactly when some crew entry with job "Director" has that name |
| Tmdb.DirectorNamesAppend | src/request_movie_site_data.py:38-40 | the director list of two crews in a row is the lists of the two crews in a row |
| Tmdb.Classification | src/request_movie_site_data.py:57-68 | the first AU entry's certification if it is non-empty; otherwise "<c> (US)" with the last US certification before the loop stops, if non-empty; otherwise None; never "" |
| Tmdb.FirstAu | src/request_movie_site_data.py:62-65 | the loop stops at the first AU entry, or runs to the end |
| Tmdb.LastUsIsLast | src/request_movie_site_data.py:66-67 | the US certification kept is that of the last US entry read |
| Tmdb.LastUsNone | src/request_movie_site_data.py:60-67 | with no US entry read, the US certification stays "" |
| Imdb.IdToQuery | src/request_movie_site_data.py:78 | the record's own IMDb ID when present and not None, otherwise the Letterboxd IMDb ID when present, otherwise None |
| Imdb.SearchImdb | src/request_movie_site_data.py:75-99 | nothing unless the ID is a string and the request answers 200; then the rating, the metascore (or "Not Listed" when the answer has none) and the poster URL, in that order |
| RottenTomatoes.CleanTextShape | src/request_movie_site_data.py:104 | the cleaned text has the input's length, keeps alphanumeric characters in place and has a space wherever the input has any other character |
| RottenTomatoes.CleanTitleShape | src/request_movie_site_data.py:104 | the same for the title as `str` renders it |
| RottenTomatoes.FirstMatchIndex | src/request_movie_site_data.py:116-124 | the index found is the first row that matches (digit year, requested year within one year of it, same title or cast contained in the full cast); none exactly when no row matches |
| RottenTomatoes.RtData | src/request_movie_site_data.py:116-157 | the answer is empty exactly when no row matches, and otherwise holds the two score fields |
| RottenTomatoes.RtDataFirstMatch | src/request_movie_site_data.py:139-156 | the first matching row supplies both scores, each its score or "Not Listed" |
| RottenTomatoes.ScrapeRottenTomatoes | src/request_movie_site_data.py:101-157 | the scan step by step yields `RtLookup`: rows without a digit year are skipped, the first match answers, and `int(year)` raises only when a row with a year is reached |
| RottenTomatoes.RtLookupKeys | src/request_movie_site_data.py:103-157 | the answer holds both score fields or none, and no other field |
| Letterboxd.ChooseSlug | src/request_movie_site_data.py:185-189 | the slug is that of the first result whose year is within one year of the requested year, and "" when there is none |
| Letterboxd.SearchQuery | src/request_movie_site_data.py:175 | the search text holds no '/' |
| Letterboxd.MyRating | src/request_movie_site_data.py:195 | a logged film with a rating gets half of it, a logged film without one gets "Not Rated", an unlogged film gets None |
| Letterboxd.CastReadBack | src/request_movie_site_data.py:198 | splitting the cast field at ", " gives back the names with their commas removed |
| Letterboxd.IdFromLink | src/request_movie_site_data.py:200-201 | the identifier exists exactly when the link contains '/', and it contains no '/' |
| Letterboxd.LastSlash | src/request_movie_site_data.py:200-201 | the position found holds the last '/' of the text |
| Letterboxd.IdFromCanonicalLink | src/request_movie_site_data.py:200-201 | for a link `<prefix>/<id>/` the identifier is `<id>` |
| Letterboxd.FilmFields | src/request_movie_site_data.py:192-201 | a found film's eight fields are set in source order, the cast as its joined text |
| Letterboxd.FilmData | src/request_movie_site_data.py:191-201 | the film's fields, or a raise exactly when one of the two links has no '/' |
| Letterboxd.LetterboxdData | src/request_movie_site_data.py:182-203 | the answer holds no field or all eight fields, and it raises only for a chosen film |
| Letterboxd.LetterboxdChoosesFirst | src/request_movie_site_data.py:185-192 | the film fetched is the first search result within one year |
| Letterboxd.LetterboxdEmptyCases | src/request_movie_site_data.py:172-191 | a year `int` refuses raises; an unavailable search or no result within one year answers with nothing |
| Letterboxd.GetLetterboxdMovieData | src/request_movie_site_data.py:169-203 | the function step by step yields `LetterboxdLookup` |
| Oscars.Aggregate | src/request_movie_site_data.py:211-225 | the nominations are the number of entries, the wins are the entries with `isWinner == "1"` (never more than the nominations), and the details are the detail lines joined by ':' |
| Oscars.WinCountBound | src/request_movie_site_data.py:213-219 | the wins never exceed the nominations, and equal them exactly when every entry is a win |
| Oscars.CleanName | src/request_movie_site_data.py:217 | a nominee name keeps every character except ',', ';' and ':', and those are gone |
| Oscars.NomineesSeparatorFree | src/request_movie_site_data.py:217 | the nominee text holds no ';' or ':' |
| Oscars.DetailLineReadBack | src/request_movie_site_data.py:216-222 | a detail line splits at "; " into the category, the nominees and "Winner" or "Nominee" |
| Oscars.DetailsReadBack | src/request_movie_site_data.py:225 | the details field splits at ':' into one detail line per nomination, in order |
| Oscars.GetOscarsData | src/request_movie_site_data.py:205-237 | a 200 answer gives the three aggregated fields; anything else gives 0 nominations and 0 wins, plus an empty details field exactly when the film is more than two years older than the current year |

Specification functions with no contract of their own, and the rows whose contracts state
their properties:

- `Enrichment.AwardsGateOf`: `AwardsGateSpec`.
- `Enrichment.LetterboxdStage`: `AskLetterboxd`, `LetterboxdMissLogged`, `LetterboxdStageErrors`.
- `Enrichment.RtStage`: `AskRottenTomatoes`, `RtStageMiss`, `RtStageScores`, `RtStageErrors`,
  `RtKeepsCast`.
- `Enrichment.RtStageAsWritten`: `AskRottenTomatoes`, `Fetch`, `RtCallAsWritten`.
- `Enrichment.AwardsStage`: `AskAwards`, `AwardsRecorded`, `AwardsFailureRecorded`,
  `AwardsUntouched`, `AwardsKeepsOthers`, `AwardsStageErrors`.
- `Enrichment.TurnOutcome` and `Enrichment.Outcomes`: `EnrichRecord`, `Run`.
- `RottenTomatoes.CleanChar` and `RottenTomatoes.CleanText`: `CleanTextShape`.
- `RottenTomatoes.Matches`: `FirstMatchIndex`, `RtDataFirstMatch`.
- `RottenTomatoes.RtLookup`: `ScrapeRottenTomatoes`, `RtLookupKeys`.
- `Letterboxd.LetterboxdLookup`: `GetLetterboxdMovieData`, `LetterboxdData`, `LetterboxdChoosesFirst`,
  `LetterboxdEmptyCases`.
- `Letterboxd.CastText`: `CastReadBack`, `FilmFields`.
- `PriorityMerge.Merged`: `MergeNewData`, `MergedValues`, `MergedOrder`, `MergedKeepsPlaces`,
  `MergedNothing`.
- `Tmdb.DirectorNames`: `Directors`, `DirectorNamesMembers`, `DirectorNamesAppend`.
- `Oscars.DetailLine`: `DetailLineReadBack`.
- `Oscars.WinCount`: `WinCountBound`, `Aggregate`.

## Left out

- HTTP requests, the TMDB, Letterboxd and IMDb client libraries and HTML parsing are not modelled. Their answers are inputs: crew and release lists, search results, result rows, film pages and award lists.
- `setup_apis`, `search_tmdb` and `get_letterboxd_user_ratings` are not modelled. The user's logged films are an input map.
- `load_movie_data`, the JSON and Excel reading and writing, the file reads and writes of `save_progress`, and the output spreadsheet are not modelled. Files are strings in the class's state.
- `tqdm` progress output and every `print` are left out, because they do not affect the data.
- The GUI scripts, `main.py` and the older top-level `get_movie_info.py` are not part of this model.
- The TMDB and IMDb groups inside the loop are not modelled, because they are commented out. `search_imdb` and the TMDB helpers are modelled on their own, since the loop does not call them.
- `get_oscars_data` takes the current year as a parameter instead of calling `datetime.now()`.
- `retrieve_tmdb_data`: the runtime, budget, revenue, franchise, origin-country and language fields are left out. So are the TV-series branch and the `IMDb ID` assignment. Only the director and classification logic is modelled.
- The medium parameter of `scrape_rotten_tomatoes` is not modelled. Its movie/TV choice selects which rows the search page returns, so the given rows stand for the rows already filtered.
- `search_imdb`: the JSON paths of the rating, metascore and poster are not modelled. The answer is given with those three values already extracted.
- Letterboxd.MyRating: the rating is halved exactly, as a decimal. Python's binary floating point is not modelled.
- Dicts.PyInt: for a string, only decimal digits with surrounding whitespace are modelled. A sign or underscores, which `int()` also accepts, make the model raise.
- Strings.Strip: only ASCII whitespace is stripped, not Python's Unicode whitespace.
- Dicts.PyStr: a float is written from its decimal digits, with at least one digit on each side of the point. Python's shortest round-trip digits and its exponent forms (`1e+16`, `1e-05`) are not modelled.
- Dicts.ReprText: only ASCII control characters are escaped. Python's `repr` also escapes non-printable characters beyond ASCII; here they are kept as they are.
- RottenTomatoes.CleanTextShape: alphanumeric means ASCII letters and digits, not Python's Unicode classes; the same holds for the digit test of the row's year.
- Enrichment.EnrichmentRun.SaveProgress: the error file is written as the code stands, so after a checkpoint a message with a fraction slash can be written twice, as the Findings table shows. The corrected text `UniqueErrorFileText` is stated and proved on its own and is not threaded through the run.
- Enrichment.EnrichmentRun.SaveProgress: the JSON snapshot is the record list itself, with no serialization. The `type(v) is str` filter is vacuous, because the ledger only ever holds strings.
- Enrichment.EnrichmentRun.Run: after a raising turn, the save file is stated only to be as found (no checkpoint yet) or to hold as many records as the run. Which records each checkpoint saved is stated by `Count` at the save itself, not carried to the end of the run.
- Enrichment.LedgerBounded: the upper bound is proved only when no logged error holds a newline. A checkpoint splits such an error into lines, and those pieces are not traced.
- Enrichment.EnrichmentRun.Run: the error file is assumed to start out as the given text. The truncation done by `load_movie_data` in start mode is left out.

## Findings

| source | as written | input that shows it | evidently intended | confidence | as-written member | corrected member |
|---|---|---|---|---|---|---|
| src/get_movie_info.py:72 | `('Movie Title' or 'Year') not in movie_fields` tests only 'Movie Title', so a record without a year passes the check and raises `KeyError` at line 77, ending the whole run | the record `{'Movie Title': 'Heat'}` | skip the record and log the identity error when either the title or the year is absent | high, not executed | Enrichment.YearlessRecordAsWritten | Enrichment.Gather |
| src/get_movie_info.py:114 | `scrape_rotten_tomatoes(title, year, full_cast)` passes three arguments to a function of four parameters (src/request_movie_site_data.py:101), so every record lacking a critics' score raises `TypeError` | a record titled Heat, year 1995, with a cast and no critics' score | pass the medium as well, so the scan runs and its scores are merged | high, not executed | Enrichment.RtCallAsWritten | Enrichment.RtCallAsIntended |
| src/get_movie_info.py:41 | `error_set` keeps each message as logged while the file written at line 50 holds it with its fraction slashes (U+2044) removed; the next save reads the stripped line back into the set beside the original, and both strip to the same line | the logged message `a⁄b` with one checkpoint and a later save: the file holds `ab` twice | strip the messages before they are sorted, so every line is written once ("only save unique values") | high, not executed | ErrorLedger.SlashedErrorWrittenTwice | ErrorLedger.UniqueLines |
