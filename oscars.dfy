/** `get_oscars_data` (src/request_movie_site_data.py) and the same aggregation
    written out again inside the enrichment loop (src/get_movie_info.py, lines
    124-138): the number of nominations and wins of a film and one detail line
    per nomination. The awards service's answer is given as data. */
module Oscars {
  import opened Strings
  import opened Dicts

  const NominationsKey := "Academy Award Nominations"
  const WinsKey := "Academy Award Wins"
  const DetailsKey := "Academy Award Details"

  /** One nomination: its category, the names of its nominees and the
      service's `isWinner` value ("1" for a win). */
  datatype Nomination = Nomination(category: string, names: seq<string>, isWinner: Value)

  /** The service's answer: its status and, for a 200, the nominations. */
  datatype AwardsResponse = AwardsResponse(status: int, nominations: seq<Nomination>)

  /** A nominee's name with every ',', ';' and ':' removed. */
  function CleanName(name: string): (r: string)
    ensures ',' !in r && ';' !in r && ':' !in r
    ensures forall c :: c in r <==> c in name && c != ',' && c != ';' && c != ':'
  {
    RemoveSpec(name, ',');
    RemoveSpec(Remove(name, ','), ';');
    RemoveSpec(Remove(Remove(name, ','), ';'), ':');
    Remove(Remove(Remove(name, ','), ';'), ':')
  }

  function CleanNames(names: seq<string>): (r: seq<string>)
    ensures |r| == |names|
    ensures forall i :: 0 <= i < |names| ==> r[i] == CleanName(names[i])
  {
    if |names| == 0 then [] else [CleanName(names[0])] + CleanNames(names[1..])
  }

  /** The nominees of one nomination, joined by ", ". */
  function Nominees(names: seq<string>): string
  {
    Join(", ", CleanNames(names))
  }

  /** The nominee text holds no ';' and no ':', so it cannot be confused with
      the separators of the detail line or of the details field. */
  lemma NomineesSeparatorFree(names: seq<string>)
    ensures ';' !in Nominees(names) && ':' !in Nominees(names)
  {
    var cleaned := CleanNames(names);
    forall p | p in cleaned ensures ';' !in p && ':' !in p {
      var i :| 0 <= i < |cleaned| && cleaned[i] == p;
    }
    JoinChars(", ", cleaned, ';');
    JoinChars(", ", cleaned, ':');
  }

  predicate IsWin(nom: Nomination)
  {
    nom.isWinner == Text("1")
  }

  function Outcome(nom: Nomination): string
  {
    if IsWin(nom) then "Winner" else "Nominee"
  }

  /** `"{category}; {nominees}; Winner"` or `"...; Nominee"`. */
  function DetailLine(nom: Nomination): string
  {
    nom.category + "; " + Nominees(nom.names) + "; " + Outcome(nom)
  }

  /** A detail line splits back at "; " into its category, its nominees and
      its outcome, provided the category holds no ';'. */
  lemma DetailLineReadBack(nom: Nomination)
    requires ';' !in nom.category
    ensures Split(DetailLine(nom), "; ") == [nom.category, Nominees(nom.names), Outcome(nom)]
  {
    NomineesSeparatorFree(nom.names);
    var parts := [nom.category, Nominees(nom.names), Outcome(nom)];
    assert parts[1..] == [Nominees(nom.names), Outcome(nom)];
    assert parts[1..][1..] == [Outcome(nom)];
    assert Join("; ", parts[1..][1..]) == Outcome(nom);
    assert Join("; ", parts[1..]) == Nominees(nom.names) + "; " + Outcome(nom);
    assert Join("; ", parts) == DetailLine(nom);
    SplitJoin("; ", parts);
  }

  function DetailLines(noms: seq<Nomination>): (r: seq<string>)
    ensures |r| == |noms|
    ensures forall i :: 0 <= i < |noms| ==> r[i] == DetailLine(noms[i])
  {
    if |noms| == 0 then []
    else
      var init := noms[..|noms| - 1];
      assert forall i :: 0 <= i < |init| ==> init[i] == noms[i];
      DetailLines(init) + [DetailLine(noms[|noms| - 1])]
  }

  /** The number of winning nominations. */
  function WinCount(noms: seq<Nomination>): nat
  {
    if |noms| == 0 then 0 else WinCount(noms[..|noms| - 1]) + (if IsWin(noms[|noms| - 1]) then 1 else 0)
  }

  /** A film cannot win more often than it is nominated; it wins as often as it
      is nominated exactly when every nomination is a win. */
  lemma {:induction false} WinCountBound(noms: seq<Nomination>)
    ensures WinCount(noms) <= |noms|
    ensures WinCount(noms) == |noms| <==> forall i :: 0 <= i < |noms| ==> IsWin(noms[i])
  {
    if |noms| > 0 {
      var init := noms[..|noms| - 1];
      WinCountBound(init);
      assert forall i :: 0 <= i < |init| ==> init[i] == noms[i];
    }
  }

  /** The aggregation loop (lines 211-225): the number of nominations, the
      number of wins, and the detail lines joined by ':'. */
  method Aggregate(noms: seq<Nomination>) returns (nominations: int, wins: int, details: string)
    ensures nominations == |noms|
    ensures wins == WinCount(noms) && 0 <= wins <= nominations
    ensures details == Join(":", DetailLines(noms))
  {
    nominations := |noms|;
    wins := 0;
    var nomList: seq<string> := [];
    for i := 0 to |noms|
      invariant wins == WinCount(noms[..i])
      invariant nomList == DetailLines(noms[..i])
    {
      PrefixStep(noms, i);
      var nom := noms[i];
      var nominees := Join(", ", CleanNames(nom.names));
      if nom.isWinner == Text("1") {
        wins := wins + 1;
        nomList := nomList + [nom.category + "; " + nominees + "; Winner"];
        WinnerLine(nom, nominees);
      } else {
        nomList := nomList + [nom.category + "; " + nominees + "; Nominee"];
        NomineeLine(nom, nominees);
      }
    }
    assert noms[..|noms|] == noms;
    WinCountBound(noms);
    details := Join(":", nomList);
  }

  /** One more nomination adds its win, if any, and its detail line. */
  lemma PrefixStep(noms: seq<Nomination>, i: nat)
    requires i < |noms|
    ensures WinCount(noms[..i + 1]) == WinCount(noms[..i]) + (if IsWin(noms[i]) then 1 else 0)
    ensures DetailLines(noms[..i + 1]) == DetailLines(noms[..i]) + [DetailLine(noms[i])]
  {
    assert noms[..i + 1][..i] == noms[..i];
  }

  lemma WinnerLine(nom: Nomination, nominees: string)
    requires IsWin(nom) && nominees == Nominees(nom.names)
    ensures nom.category + "; " + nominees + "; Winner" == DetailLine(nom)
  {
  }

  lemma NomineeLine(nom: Nomination, nominees: string)
    requires !IsWin(nom) && nominees == Nominees(nom.names)
    ensures nom.category + "; " + nominees + "; Nominee" == DetailLine(nom)
  {
  }

  /** The details field splits back at ':' into one line per nomination, in
      order, provided no category holds a ':' or ';'. */
  lemma DetailsReadBack(noms: seq<Nomination>)
    requires |noms| > 0
    requires forall i :: 0 <= i < |noms| ==> ':' !in noms[i].category
    ensures Split(Join(":", DetailLines(noms)), ":") == DetailLines(noms)
  {
    var lines := DetailLines(noms);
    forall p | p in lines ensures ':' !in p {
      var i :| 0 <= i < |lines| && lines[i] == p;
      DetailLineColonFree(noms[i]);
    }
    SplitJoin(":", lines);
  }

  lemma DetailLineColonFree(nom: Nomination)
    requires ':' !in nom.category
    ensures ':' !in DetailLine(nom)
  {
    NomineesSeparatorFree(nom.names);
  }

  /** `get_oscars_data` (lines 205-237) with the service's answer given and the
      current year a parameter. A 200 gives the aggregation; anything else gives
      zero nominations and wins, plus an empty details field only for a film
      released more than two years before the current year. */
  method GetOscarsData(response: AwardsResponse, year: int, currentYear: int) returns (oscars: Dict)
    ensures response.status == 200 ==>
              && oscars.keys == [NominationsKey, WinsKey, DetailsKey]
              && oscars.vals[NominationsKey] == Int(|response.nominations|)
              && oscars.vals[WinsKey] == Int(WinCount(response.nominations))
              && oscars.vals[DetailsKey] == Text(Join(":", DetailLines(response.nominations)))
    ensures response.status != 200 ==>
              && oscars.keys == [NominationsKey, WinsKey] + (if year < currentYear - 2 then [DetailsKey] else [])
              && oscars.vals[NominationsKey] == Int(0)
              && oscars.vals[WinsKey] == Int(0)
              && (year < currentYear - 2 ==> oscars.vals[DetailsKey] == Text(""))
  {
    oscars := Empty;
    if response.status == 200 {
      var nominations, wins, details := Aggregate(response.nominations);
      oscars := Put(oscars, NominationsKey, Int(nominations));
      oscars := Put(oscars, WinsKey, Int(wins));
      oscars := Put(oscars, DetailsKey, Text(details));
      AllAwards(Int(nominations), Int(wins), Text(details));
    }
    if oscars.keys == [] {
      oscars := Put(oscars, NominationsKey, Int(0));
      oscars := Put(oscars, WinsKey, Int(0));
      CountsOnly(Int(0), Int(0));
      if year < currentYear - 2 {
        oscars := Put(oscars, DetailsKey, Text(""));
        AllAwards(Int(0), Int(0), Text(""));
      }
    }
  }

  /** The three award fields, put in this order. */
  lemma AllAwards(nominations: Value, wins: Value, details: Value)
    ensures Put(Put(Put(Empty, NominationsKey, nominations), WinsKey, wins), DetailsKey, details).keys
              == [NominationsKey, WinsKey, DetailsKey]
    ensures Put(Put(Put(Empty, NominationsKey, nominations), WinsKey, wins), DetailsKey, details).vals
              == map[NominationsKey := nominations, WinsKey := wins, DetailsKey := details]
  {
    AwardKeysDistinct();
    ThreePuts(NominationsKey, WinsKey, DetailsKey, nominations, wins, details);
  }

  /** The two counts, put in this order. */
  lemma CountsOnly(nominations: Value, wins: Value)
    ensures Put(Put(Empty, NominationsKey, nominations), WinsKey, wins).keys == [NominationsKey, WinsKey]
    ensures Put(Put(Empty, NominationsKey, nominations), WinsKey, wins).vals
              == map[NominationsKey := nominations, WinsKey := wins]
  {
    AwardKeysDistinct();
    TwoPuts(NominationsKey, WinsKey, nominations, wins);
  }

  lemma AwardKeysDistinct()
    ensures NominationsKey != WinsKey && NominationsKey != DetailsKey && WinsKey != DetailsKey
  {
    assert NominationsKey[14] == 'N' && WinsKey[14] == 'W' && DetailsKey[14] == 'D';
  }
}
