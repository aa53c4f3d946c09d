/** The error ledger of `save_progress` (src/get_movie_info.py): the in-memory
    set of error messages is merged with the lines of the error file, sorted,
    joined by newlines and written back with every FRACTION SLASH (U+2044)
    removed. */
module ErrorLedger {
  import opened Strings

  const FractionSlash: char := '\U{2044}'

  /** `set(text.split('\n'))`: the lines of an error file. An empty file has one
      line, the empty string. */
  function FileLines(text: string): set<string>
  {
    set l | l in Split(text, "\n")
  }

  /** A text has at least one line, and no line holds a newline. */
  lemma LinesOfText(text: string)
    ensures FileLines(text) != {}
    ensures forall l :: l in FileLines(text) ==> '\n' !in l
  {
    SplitParts(text, "\n");
    assert Split(text, "\n")[0] in FileLines(text);
  }

  /** The list `save_progress` writes: the string members of the set, sorted. */
  function ErrorList(errors: set<string>): seq<string>
  {
    Sorted(errors)
  }

  /** The error list is strictly sorted and holds exactly the set's members. */
  lemma ErrorListSorted(errors: set<string>)
    ensures StrictlySorted(ErrorList(errors))
    ensures forall e :: e in ErrorList(errors) <==> e in errors
  {
    SortedSpec(errors);
  }

  /** The text of the error file written for a set of errors. */
  function ErrorFileText(errors: set<string>): string
  {
    Remove(Join("\n", ErrorList(errors)), FractionSlash)
  }

  /** Lines 44-50: the sorted list is joined by newlines, and the fraction
      slashes are removed when there are any. */
  method FormatErrors(errors: set<string>) returns (text: string)
    ensures text == ErrorFileText(errors)
    ensures FractionSlash !in text
  {
    var errorList := ErrorList(errors);
    text := Join("\n", errorList);
    RemoveSpec(text, FractionSlash);
    if FractionSlash in text {
      text := Remove(text, FractionSlash);
    }
  }

  /** Removing a character the separator does not hold can be done part by part. */
  lemma {:induction false} RemoveJoin(sep: string, parts: seq<string>, c: char)
    requires c !in sep
    ensures Remove(Join(sep, parts), c) == Join(sep, RemoveEach(parts, c))
  {
    if |parts| > 1 {
      RemoveJoin(sep, parts[1..], c);
      RemoveAppend(parts[0] + sep, Join(sep, parts[1..]), c);
      RemoveAppend(parts[0], sep, c);
      RemoveSpec(sep, c);
      assert RemoveEach(parts, c)[1..] == RemoveEach(parts[1..], c);
    }
  }

  lemma {:induction false} RemoveAppend(a: string, b: string, c: char)
    ensures Remove(a + b, c) == Remove(a, c) + Remove(b, c)
  {
    if |a| > 0 {
      assert (a + b)[1..] == a[1..] + b;
      RemoveAppend(a[1..], b, c);
    } else {
      assert a + b == b;
    }
  }

  /** Reading a written error file back gives every logged error, each with its
      fraction slashes removed, provided no error spans several lines. */
  lemma WrittenLines(errors: set<string>)
    requires errors != {}
    requires forall e :: e in errors ==> '\n' !in e
    ensures FileLines(ErrorFileText(errors)) == set e | e in errors :: Remove(e, FractionSlash)
  {
    var list := ErrorList(errors);
    var stripped := RemoveEach(list, FractionSlash);
    RemoveJoin("\n", list, FractionSlash);
    StrippedLines(errors, list, stripped);
    SplitJoin("\n", stripped);
  }

  lemma StrippedLines(errors: set<string>, list: seq<string>, stripped: seq<string>)
    requires errors != {} && forall e :: e in errors ==> '\n' !in e
    requires list == ErrorList(errors) && stripped == RemoveEach(list, FractionSlash)
    ensures |stripped| > 0
    ensures forall p :: p in stripped ==> '\n' !in p
    ensures (set l | l in stripped) == set e | e in errors :: Remove(e, FractionSlash)
  {
    ErrorListSorted(errors);
    var e0 :| e0 in errors;
    assert e0 in list;
    StrippedNoNewline(errors, list, stripped);
    StrippedSet(errors, list, stripped);
  }

  lemma StrippedNoNewline(errors: set<string>, list: seq<string>, stripped: seq<string>)
    requires forall e :: e in errors ==> '\n' !in e
    requires list == ErrorList(errors) && stripped == RemoveEach(list, FractionSlash)
    ensures forall p :: p in stripped ==> '\n' !in p
  {
    ErrorListSorted(errors);
    forall p | p in stripped ensures '\n' !in p {
      var i :| 0 <= i < |stripped| && stripped[i] == p;
      assert list[i] in errors;
      RemoveSpec(list[i], FractionSlash);
    }
  }

  lemma StrippedSet(errors: set<string>, list: seq<string>, stripped: seq<string>)
    requires list == ErrorList(errors) && stripped == RemoveEach(list, FractionSlash)
    ensures (set l | l in stripped) == set e | e in errors :: Remove(e, FractionSlash)
  {
    StrippedCovers(errors, list, stripped);
    StrippedWithin(errors, list, stripped);
  }

  lemma StrippedCovers(errors: set<string>, list: seq<string>, stripped: seq<string>)
    requires list == ErrorList(errors) && stripped == RemoveEach(list, FractionSlash)
    ensures forall e :: e in errors ==> Remove(e, FractionSlash) in stripped
  {
    ErrorListSorted(errors);
    forall e | e in errors ensures Remove(e, FractionSlash) in stripped {
      var i :| 0 <= i < |list| && list[i] == e;
      assert stripped[i] == Remove(e, FractionSlash);
    }
  }

  lemma StrippedWithin(errors: set<string>, list: seq<string>, stripped: seq<string>)
    requires list == ErrorList(errors) && stripped == RemoveEach(list, FractionSlash)
    ensures forall p :: p in stripped ==> exists e :: e in errors && p == Remove(e, FractionSlash)
  {
    ErrorListSorted(errors);
    forall p | p in stripped ensures exists e :: e in errors && p == Remove(e, FractionSlash) {
      var i :| 0 <= i < |stripped| && stripped[i] == p;
      assert list[i] in errors;
    }
  }

  /** The errors with their fraction slashes removed. */
  function Stripped(errors: set<string>): set<string>
  {
    set e | e in errors :: Remove(e, FractionSlash)
  }

  /** Merging a set with the lines of an error file written earlier adds the
      earlier errors with their fraction slashes removed; when none of them held
      a fraction slash, this is the union of the two sets, so an error logged in
      both runs is written once. */
  lemma RerunKeepsOneCopy(first: set<string>, second: set<string>)
    requires first != {}
    requires forall e :: e in first ==> '\n' !in e
    ensures second + FileLines(ErrorFileText(first)) == second + Stripped(first)
    ensures (forall e :: e in first ==> FractionSlash !in e) ==>
              second + FileLines(ErrorFileText(first)) == first + second
    ensures StrictlySorted(ErrorList(second + FileLines(ErrorFileText(first))))
  {
    ErrorListSorted(second + FileLines(ErrorFileText(first)));
    WrittenLines(first);
    if forall e :: e in first ==> FractionSlash !in e {
      forall e | e in first ensures Remove(e, FractionSlash) == e {
        RemoveSpec(e, FractionSlash);
      }
      assert Stripped(first) == first;
    }
  }

  // ---- Finding: a message with a fraction slash is written twice ----

  /** Two places of a strictly sorted list hold different strings. */
  lemma SortedApart(xs: seq<string>, i: nat, j: nat)
    requires StrictlySorted(xs) && i < j < |xs|
    ensures xs[i] in xs && xs[j] in xs && xs[i] != xs[j]
  {
    LessIrreflexive(xs[i]);
  }

  /** A strictly sorted list of exactly one string is that string alone. */
  lemma SortedOfOne(xs: seq<string>, x: string)
    requires StrictlySorted(xs)
    requires forall e :: e in xs <==> e == x
    ensures xs == [x]
  {
    assert x in xs;
    if |xs| > 1 {
      SortedApart(xs, 0, 1);
      assert false;
    }
  }

  /** A strictly sorted list of exactly two strings lists them in order. */
  lemma SortedOfTwo(xs: seq<string>, x: string, y: string)
    requires StrictlySorted(xs) && Less(x, y)
    requires forall e :: e in xs <==> e == x || e == y
    ensures xs == [x, y]
  {
    LessIrreflexive(x);
    assert x in xs && y in xs;
    if |xs| > 2 {
      SortedApart(xs, 0, 1);
      SortedApart(xs, 1, 2);
      SortedApart(xs, 0, 2);
      assert false;
    }
    SortedApart(xs, 0, 1);
    if Less(y, x) {
      LessTransitive(x, y, x);
      assert false;
    }
  }

  /** Lines 41-50 as written: the set keeps the message "a/b" (with a fraction
      slash) as logged, but the file written at a checkpoint holds it as "ab".
      The next save reads "ab" back into the set beside "a/b", and the text it
      writes, once stripped, holds the line "ab" twice. */
  lemma SlashedErrorWrittenTwice()
    ensures ErrorFileText({"a\U{2044}b"}) == "ab"
    ensures FileLines(ErrorFileText({"a\U{2044}b"})) == {"ab"}
    ensures Split(ErrorFileText({"a\U{2044}b"} + FileLines(ErrorFileText({"a\U{2044}b"}))), "\n") == ["ab", "ab"]
  {
    var slashed := "a\U{2044}b";
    ErrorListSorted({slashed});
    SortedOfOne(ErrorList({slashed}), slashed);
    assert Join("\n", [slashed]) == slashed;
    assert Remove(slashed, FractionSlash) == "ab" by {
      assert slashed[1..] == "\U{2044}b" && slashed[2..] == "b";
    }
    assert ErrorFileText({slashed}) == "ab";
    SplitJoin("\n", ["ab"]);
    assert Join("\n", ["ab"]) == "ab";
    assert FileLines("ab") == {"ab"};
    var merged := {slashed} + {"ab"};
    assert Less("ab", slashed) by {
      assert "ab"[1..] == "b" && slashed[1..] == "\U{2044}b";
    }
    ErrorListSorted(merged);
    SortedOfTwo(ErrorList(merged), "ab", slashed);
    RemoveJoin("\n", ["ab", slashed], FractionSlash);
    assert Remove("ab", FractionSlash) == "ab" by {
      RemoveSpec("ab", FractionSlash);
    }
    assert RemoveEach(["ab", slashed], FractionSlash) == ["ab", "ab"];
    SplitJoin("\n", ["ab", "ab"]);
  }

  /** The file `save_progress` evidently means to write ("only save unique
      values"): the errors are stripped of their fraction slashes before they
      are sorted, so errors that differ only in their slashes give one line. */
  function UniqueErrorFileText(errors: set<string>): string
  {
    Join("\n", ErrorList(Stripped(errors)))
  }

  /** Reading the corrected file back gives its lines strictly sorted, so no
      line is written twice; they are exactly the stripped errors, and no
      fraction slash is left. */
  lemma UniqueLines(errors: set<string>)
    requires errors != {}
    requires forall e :: e in errors ==> '\n' !in e
    ensures StrictlySorted(Split(UniqueErrorFileText(errors), "\n"))
    ensures forall l :: l in Split(UniqueErrorFileText(errors), "\n") <==> l in Stripped(errors)
    ensures FractionSlash !in UniqueErrorFileText(errors)
  {
    var stripped := Stripped(errors);
    var list := ErrorList(stripped);
    ErrorListSorted(stripped);
    var e0 :| e0 in errors;
    assert Remove(e0, FractionSlash) in list;
    forall p | p in list ensures '\n' !in p && FractionSlash !in p {
      var e :| e in errors && p == Remove(e, FractionSlash);
      RemoveSpec(e, FractionSlash);
    }
    SplitJoin("\n", list);
    JoinChars("\n", list, FractionSlash);
  }

  /** When no error holds a fraction slash, the corrected file is the file
      written as it stands. */
  lemma UniqueAgrees(errors: set<string>)
    requires forall e :: e in errors ==> FractionSlash !in e
    ensures UniqueErrorFileText(errors) == ErrorFileText(errors)
  {
    forall e | e in errors ensures Remove(e, FractionSlash) == e {
      RemoveSpec(e, FractionSlash);
    }
    assert Stripped(errors) == errors;
    var list := ErrorList(errors);
    ErrorListSorted(errors);
    JoinChars("\n", list, FractionSlash);
    RemoveSpec(Join("\n", list), FractionSlash);
  }
}
