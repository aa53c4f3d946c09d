/** The last step of each record in `get_movie_info` (src/get_movie_info.py,
    lines 144-159): the fields collected for a record are moved into it,
    the priority fields first and in collection order, then the rest with a
    bulk `update`. */
module PriorityMerge {
  import opened Dicts

  /** `priority_fields` (lines 145-151). */
  const PriorityFields: set<string> := {
    "Director", "Runtime (minutes)", "Budget", "Box Office",
    "Country of Origin", "Classification", "IMDb ID", "IMDb Rating",
    "Metascore", "Tomatometer (Critic Score)", "Popcornmeter (Audience Score)",
    "Letterboxd Average Rating", "Letterboxd My Rating", "Academy Award Nominations",
    "Academy Award Wins", "Academy Award Details"
  }

  /** The record after the merge: the collected priority fields assigned one by
      one, then the record updated with the remaining collected fields. */
  function Merged(rec: Dict, newData: Dict): Dict
  {
    MergedBy(rec, newData, PriorityFields)
  }

  /** The same merge for any set of priority fields. */
  function MergedBy(rec: Dict, newData: Dict, priority: set<string>): Dict
  {
    var ks := newData.keys;
    UpdateWith(UpdateWith(rec, Inside(ks, priority), newData.vals), Outside(ks, priority), newData.vals)
  }

  /** Every collected field holds its collected value, every other field keeps
      its value, and the record's keys become the union of both. */
  lemma MergedValues(rec: Dict, newData: Dict)
    ensures Merged(rec, newData).vals == rec.vals + newData.vals
  {
    MergedByValues(rec, newData, PriorityFields);
  }

  lemma MergedByValues(rec: Dict, newData: Dict, priority: set<string>)
    ensures MergedBy(rec, newData, priority).vals == rec.vals + newData.vals
  {
    var ks := newData.keys;
    TwoUpdates(rec, Inside(ks, priority), Outside(ks, priority), newData);
  }

  /** Two updates from the same dict whose key lists together cover its keys
      amount to one update with that dict. */
  lemma TwoUpdates(rec: Dict, a: seq<string>, b: seq<string>, src: Dict)
    requires forall k :: k in src.vals <==> k in a || k in b
    ensures UpdateWith(UpdateWith(rec, a, src.vals), b, src.vals).vals == rec.vals + src.vals
  {
    var first := UpdateWith(rec, a, src.vals);
    var m := UpdateWith(first, b, src.vals);
    var want := rec.vals + src.vals;
    forall k ensures k in m.vals <==> k in want {
      assert k in m.vals <==> k in first.vals || k in b;
      assert k in first.vals <==> k in rec.vals || k in a;
    }
    forall k | k in m.vals ensures m.vals[k] == want[k] {
      if k !in b {
        assert k in first.vals;
      }
    }
    assert m.vals == want;
  }

  /** The record's own keys keep their places; the new priority keys follow,
      in collection order, and the new ordinary keys come last, in collection
      order. */
  lemma MergedOrder(rec: Dict, newData: Dict)
    ensures Merged(rec, newData).keys ==
              rec.keys
              + Outside(Inside(newData.keys, PriorityFields), rec.vals.Keys)
              + Outside(Outside(newData.keys, PriorityFields), rec.vals.Keys)
  {
    MergedByOrder(rec, newData, PriorityFields);
  }

  lemma MergedByOrder(rec: Dict, newData: Dict, priority: set<string>)
    ensures MergedBy(rec, newData, priority).keys ==
              rec.keys
              + Outside(Inside(newData.keys, priority), rec.vals.Keys)
              + Outside(Outside(newData.keys, priority), rec.vals.Keys)
  {
    var ks := newData.keys;
    var pri, ord := Inside(ks, priority), Outside(ks, priority);
    DistinctFilters(ks, priority);
    var first := UpdateWith(rec, pri, newData.vals);
    UpdateWithKeys(rec, pri, newData.vals);
    UpdateWithKeys(first, ord, newData.vals);
    FirstKeySet(rec, pri, newData.vals);
    FiltersApart(ks, priority);
    OutsideDisjoint(ord, rec.vals.Keys, set k | k in pri);
  }

  lemma FirstKeySet(rec: Dict, pri: seq<string>, src: map<string, Value>)
    requires forall k :: k in pri ==> k in src
    ensures UpdateWith(rec, pri, src).vals.Keys == rec.vals.Keys + (set k | k in pri)
  {
    var first := UpdateWith(rec, pri, src);
    forall k ensures k in first.vals <==> k in rec.vals || k in pri {
    }
  }

  lemma FiltersApart(ks: seq<string>, priority: set<string>)
    ensures forall k :: k in Outside(ks, priority) ==> k !in (set k | k in Inside(ks, priority))
  {
  }

  /** The record's own keys stay first, in their order. */
  lemma MergedKeepsPlaces(rec: Dict, newData: Dict)
    ensures |rec.keys| <= |Merged(rec, newData).keys|
    ensures Merged(rec, newData).keys[..|rec.keys|] == rec.keys
  {
    MergedByKeepsPlaces(rec, newData, PriorityFields);
  }

  lemma MergedByKeepsPlaces(rec: Dict, newData: Dict, priority: set<string>)
    ensures |rec.keys| <= |MergedBy(rec, newData, priority).keys|
    ensures MergedBy(rec, newData, priority).keys[..|rec.keys|] == rec.keys
  {
    MergedByOrder(rec, newData, priority);
    PrefixOfAppend(MergedBy(rec, newData, priority).keys, rec.keys,
                   Outside(Inside(newData.keys, priority), rec.vals.Keys),
                   Outside(Outside(newData.keys, priority), rec.vals.Keys));
  }

  lemma PrefixOfAppend(m: seq<string>, a: seq<string>, b: seq<string>, c: seq<string>)
    requires m == a + b + c
    ensures |a| <= |m| && m[..|a|] == a
  {
    assert m[..|a|] == a;
  }

  /** A record for which nothing was collected is left as it was. */
  lemma MergedNothing(rec: Dict, newData: Dict)
    requires newData.keys == []
    ensures Merged(rec, newData) == rec
  {
  }

  // ---- the merge loop ----

  lemma InsideStep(ks: seq<string>, i: nat, s: set<string>)
    requires i < |ks|
    ensures Inside(ks[..i + 1], s) == Inside(ks[..i], s) + (if ks[i] in s then [ks[i]] else [])
  {
    assert ks[..i + 1] == ks[..i] + [ks[i]];
    InsideAppend(ks[..i], [ks[i]], s);
  }

  lemma OutsideStep(ks: seq<string>, i: nat, s: set<string>)
    requires i < |ks|
    ensures Outside(ks[..i + 1], s) == Outside(ks[..i], s) + (if ks[i] in s then [] else [ks[i]])
  {
    assert ks[..i + 1] == ks[..i] + [ks[i]];
    OutsideAppend(ks[..i], [ks[i]], s);
  }

  /** The keys left to merge after a priority key is popped. */
  lemma PoppedKeys(ks: seq<string>, i: nat, s: set<string>)
    requires Distinct(ks) && i < |ks| && ks[i] in s
    ensures Outside(Outside(ks[..i], s) + ks[i..], {ks[i]}) == Outside(ks[..i + 1], s) + ks[i + 1..]
  {
    var k := ks[i];
    var done := Outside(ks[..i], s);
    OutsideAppend(done, ks[i..], {k});
    DoneLacksKey(ks, i, s);
    OutsideNone(done, {k});
    DropHead(ks, i);
    assert Outside(done + ks[i..], {k}) == done + ks[i + 1..];
    PriorityKeyDropped(ks, i, s);
  }

  lemma PriorityKeyDropped(ks: seq<string>, i: nat, s: set<string>)
    requires i < |ks| && ks[i] in s
    ensures Outside(ks[..i + 1], s) == Outside(ks[..i], s)
  {
    OutsideStep(ks, i, s);
    assert Outside(ks[..i], s) + [] == Outside(ks[..i], s);
  }

  lemma DoneLacksKey(ks: seq<string>, i: nat, s: set<string>)
    requires Distinct(ks) && i < |ks|
    ensures forall k :: k in Outside(ks[..i], s) ==> k !in {ks[i]}
  {
    assert forall j :: 0 <= j < i ==> ks[..i][j] != ks[i];
  }

  /** Removing the key at `i` from the keys from `i` on leaves those after it. */
  lemma DropHead(ks: seq<string>, i: nat)
    requires Distinct(ks) && i < |ks|
    ensures Outside(ks[i..], {ks[i]}) == ks[i + 1..]
  {
    var k, rest := ks[i], ks[i + 1..];
    assert ks[i..] == [k] + rest;
    OutsideAppend([k], rest, {k});
    assert Outside([k], {k}) == [];
    assert forall j :: 0 <= j < |rest| ==> rest[j] != k;
    OutsideNone(rest, {k});
    assert [] + rest == rest;
  }

  /** Every field still waiting in `data` holds its collected value. */
  predicate Agrees(data: Dict, newData: Dict)
  {
    forall k :: k in data.vals ==> k in newData.vals && data.vals[k] == newData.vals[k]
  }

  /** The loop's state before the key at position `i` is handled. */
  predicate LoopState(rec: Dict, newData: Dict, s: set<string>, i: nat, movie: Dict, data: Dict)
    requires i <= |newData.keys|
  {
    var ks := newData.keys;
    && movie == UpdateWith(rec, Inside(ks[..i], s), newData.vals)
    && data.keys == Outside(ks[..i], s) + ks[i..]
    && Agrees(data, newData)
  }

  /** A priority key is popped from the collected fields and assigned. */
  lemma PriorityStep(rec: Dict, newData: Dict, s: set<string>, i: nat, movie: Dict, data: Dict)
    requires i < |newData.keys| && newData.keys[i] in s
    requires LoopState(rec, newData, s, i, movie, data)
    ensures newData.keys[i] in data.vals
    ensures LoopState(rec, newData, s, i + 1,
                      Put(movie, newData.keys[i], data.vals[newData.keys[i]]), Pop(data, newData.keys[i]))
  {
    var ks := newData.keys;
    var k := ks[i];
    assert k in data.keys;
    PoppedKeys(ks, i, s);
    InsideStep(ks, i, s);
    UpdateWithSnoc(rec, Inside(ks[..i], s), k, newData.vals);
  }

  /** An ordinary key stays where it is. */
  lemma OrdinaryStep(rec: Dict, newData: Dict, s: set<string>, i: nat, movie: Dict, data: Dict)
    requires i < |newData.keys| && newData.keys[i] !in s
    requires LoopState(rec, newData, s, i, movie, data)
    ensures LoopState(rec, newData, s, i + 1, movie, data)
  {
    var ks := newData.keys;
    OrdinaryInside(ks, i, s);
    OrdinaryKeys(ks, i, s);
  }

  lemma OrdinaryInside(ks: seq<string>, i: nat, s: set<string>)
    requires i < |ks| && ks[i] !in s
    ensures Inside(ks[..i + 1], s) == Inside(ks[..i], s)
  {
    InsideStep(ks, i, s);
    assert Inside(ks[..i], s) + [] == Inside(ks[..i], s);
  }

  lemma OrdinaryKeys(ks: seq<string>, i: nat, s: set<string>)
    requires i < |ks| && ks[i] !in s
    ensures Outside(ks[..i + 1], s) + ks[i + 1..] == Outside(ks[..i], s) + ks[i..]
  {
    var done := Outside(ks[..i], s);
    OutsideStep(ks, i, s);
    assert Outside(ks[..i + 1], s) == done + [ks[i]];
    assert ks[i..] == [ks[i]] + ks[i + 1..];
    assert (done + [ks[i]]) + ks[i + 1..] == done + ks[i..];
  }

  /** After the loop, the bulk update finishes the merge. */
  lemma LastStep(rec: Dict, newData: Dict, s: set<string>, movie: Dict, data: Dict)
    requires LoopState(rec, newData, s, |newData.keys|, movie, data)
    ensures Update(movie, data) == MergedBy(rec, newData, s)
  {
    var ks := newData.keys;
    assert ks[..|ks|] == ks;
    assert data.keys == Outside(ks, s);
    UpdateWithAgrees(movie, data.keys, data.vals, newData.vals);
  }

  /** Lines 156-159 over the record `rec` and the collected fields `newData`. */
  method MergeNewData(rec: Dict, newData: Dict) returns (merged: Dict)
    ensures merged == Merged(rec, newData)
  {
    var movie, data := rec, newData;
    var ks := newData.keys;
    assert ks[..0] == [] && ks[0..] == ks;
    for i := 0 to |ks|
      invariant LoopState(rec, newData, PriorityFields, i, movie, data)
    {
      var k := ks[i];
      if k in PriorityFields {
        PriorityStep(rec, newData, PriorityFields, i, movie, data);
        var v := data.vals[k];
        data := Pop(data, k);
        movie := Put(movie, k, v);
      } else {
        OrdinaryStep(rec, newData, PriorityFields, i, movie, data);
      }
    }
    LastStep(rec, newData, PriorityFields, movie, data);
    movie := Update(movie, data);
    merged := movie;
  }
}
