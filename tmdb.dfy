/** The two rules of `retrieve_tmdb_data` (src/request_movie_site_data.py) that
    turn TMDB's answers into record fields: the director list and the
    classification. The TMDB responses are given as data. */
module Tmdb {
  import opened Strings

  /** One entry of a film's crew list. */
  datatype Credit = Credit(job: string, name: string)

  /** One entry of a film's release list: a country code and its certification. */
  datatype Release = Release(country: string, certification: string)

  // ---- directors ----

  /** The names of the crew entries whose job is "Director", in crew order. */
  function DirectorNames(crew: seq<Credit>): seq<string>
  {
    if |crew| == 0 then []
    else
      var last := crew[|crew| - 1];
      DirectorNames(crew[..|crew| - 1]) + (if last.job == "Director" then [last.name] else [])
  }

  /** Collecting the directors of two crew lists one after the other gives the
      two collections one after the other: the order of the crew is kept. */
  lemma {:induction false} DirectorNamesAppend(a: seq<Credit>, b: seq<Credit>)
    ensures DirectorNames(a + b) == DirectorNames(a) + DirectorNames(b)
    decreases |b|
  {
    if |b| == 0 {
      assert a + b == a;
    } else {
      var b' := b[..|b| - 1];
      assert (a + b)[..|a + b| - 1] == a + b';
      DirectorNamesAppend(a, b');
    }
  }

  /** A name is listed exactly when some crew entry with that name is a director. */
  lemma {:induction false} DirectorNamesMembers(crew: seq<Credit>, n: string)
    ensures n in DirectorNames(crew) <==>
            exists i :: 0 <= i < |crew| && crew[i].job == "Director" && crew[i].name == n
  {
    if |crew| > 0 {
      var init := crew[..|crew| - 1];
      DirectorNamesMembers(init, n);
      if exists i :: 0 <= i < |init| && init[i].job == "Director" && init[i].name == n {
        var i :| 0 <= i < |init| && init[i].job == "Director" && init[i].name == n;
        assert crew[i] == init[i];
      }
      if exists i :: 0 <= i < |crew| && crew[i].job == "Director" && crew[i].name == n {
        var i :| 0 <= i < |crew| && crew[i].job == "Director" && crew[i].name == n;
        if i < |init| {
          assert init[i] == crew[i];
        }
      }
    }
  }

  /** The `Director` field (lines 37-41): director names joined by ", ". */
  method Directors(crew: seq<Credit>) returns (director: string)
    ensures director == Join(", ", DirectorNames(crew))
  {
    var directors: seq<string> := [];
    for i := 0 to |crew|
      invariant directors == DirectorNames(crew[..i])
    {
      assert crew[..i + 1][..i] == crew[..i];
      if crew[i].job == "Director" {
        directors := directors + [crew[i].name];
      }
    }
    assert crew[..|crew|] == crew;
    director := Join(", ", directors);
  }

  // ---- classification ----

  /** Index of the first Australian release, or |cs| when there is none: the
      point where the classification loop stops. */
  function FirstAu(cs: seq<Release>): (r: nat)
    ensures r <= |cs|
    ensures r < |cs| ==> cs[r].country == "AU"
    ensures forall j :: 0 <= j < r ==> cs[j].country != "AU"
  {
    if |cs| == 0 then 0
    else if cs[0].country == "AU" then 0
    else
      var r := FirstAu(cs[1..]);
      assert forall j :: 1 <= j <= r ==> cs[j] == cs[1..][j - 1];
      1 + r
  }

  /** The certification of the last US release among the first `n`, or "". */
  function LastUs(cs: seq<Release>, n: nat): string
    requires n <= |cs|
  {
    if n == 0 then ""
    else if cs[n - 1].country == "US" then cs[n - 1].certification
    else LastUs(cs, n - 1)
  }

  /** `LastUs` is the certification of the US entry that no later US entry
      (before `n`) overrides; with no US entry at all it is "". */
  lemma {:induction false} LastUsIsLast(cs: seq<Release>, n: nat, j: nat)
    requires j < n <= |cs|
    requires cs[j].country == "US"
    requires forall k :: j < k < n ==> cs[k].country != "US"
    ensures LastUs(cs, n) == cs[j].certification
  {
    if n - 1 != j {
      LastUsIsLast(cs, n - 1, j);
    }
  }

  lemma {:induction false} LastUsNone(cs: seq<Release>, n: nat)
    requires n <= |cs|
    requires forall k :: 0 <= k < n ==> cs[k].country != "US"
    ensures LastUs(cs, n) == ""
  {
    if n > 0 {
      LastUsNone(cs, n - 1);
    }
  }

  /** The `Classification` field (lines 57-68): the first Australian
      certification if it is not empty, otherwise the US certification seen last
      before the loop stops, tagged " (US)", otherwise nothing. Never "". */
  method Classification(cs: seq<Release>) returns (classification: Option<string>)
    ensures var a := FirstAu(cs);
      if a < |cs| && cs[a].certification != "" then classification == Some(cs[a].certification)
      else if LastUs(cs, a) != "" then classification == Some(LastUs(cs, a) + " (US)")
      else classification == None
    ensures classification != Some("")
  {
    var usClass, ausClass := "", "";
    var i := 0;
    while i < |cs|
      invariant i <= FirstAu(cs)
      invariant ausClass == ""
      invariant usClass == LastUs(cs, i)
    {
      if cs[i].country == "AU" {
        ausClass := cs[i].certification;
        break;
      }
      if cs[i].country == "US" {
        usClass := cs[i].certification;
      }
      i := i + 1;
    }
    classification :=
      if ausClass != "" then Some(ausClass)
      else if usClass != "" then Some(usClass + " (US)")
      else None;
  }
}
