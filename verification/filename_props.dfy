/** Properties of the sequential filename rule that relate several calls. */
module FilenameProps {
  import opened Decimal
  import opened ApiFlow

  /**
   The next number is pinned down by what the listing counts: any n >= 1 above
   every counted number and one past some counted number (or 1) is the one
   chosen.
   */
  lemma NextNumberUnique(base: string, listing: seq<string>, n: nat)
    requires n >= 1
    requires forall f :: f in listing && Counts(f, base) ==> Number(f, base) < n
    requires n == 1 || exists f :: f in listing && Counts(f, base) && Number(f, base) == n - 1
    ensures NextNumber(base, listing) == n
  {
  }

  /** Reordering or repeating listed names does not change the number chosen. */
  lemma NextNumberDependsOnlyOnNames(base: string, l1: seq<string>, l2: seq<string>)
    requires forall f :: f in l1 <==> f in l2
    ensures NextNumber(base, l1) == NextNumber(base, l2)
  {
    NextNumberUnique(base, l2, NextNumber(base, l1));
  }

  /** The whole filename is independent of the order of the directory listing. */
  lemma GenerateFilenameOrderIndependent(endpoint: string, l1: seq<string>, l2: seq<string>)
    requires multiset(l1) == multiset(l2)
    ensures GenerateFilename(endpoint, l1) == GenerateFilename(endpoint, l2)
  {
    forall f
      ensures f in l1 <==> f in l2
    {
      assert f in l1 <==> f in multiset(l1);
    }
    NextNumberDependsOnlyOnNames(BaseName(endpoint), l1, l2);
  }

  /** Names failing the prefix, suffix or all-digit test leave the number unchanged. */
  lemma IgnoredNamesIrrelevant(base: string, listing: seq<string>, extra: seq<string>)
    requires forall f :: f in extra ==> !Counts(f, base)
    ensures NextNumber(base, listing + extra) == NextNumber(base, listing)
  {
    NextNumberUnique(base, listing + extra, NextNumber(base, listing));
  }

  /** The number is 1 exactly when every counted name carries 0 (in particular when none counts). */
  lemma NextNumberIsOne(base: string, listing: seq<string>)
    ensures NextNumber(base, listing) == 1 <==>
              forall f :: f in listing && Counts(f, base) ==> Number(f, base) == 0
  {
    if forall f :: f in listing && Counts(f, base) ==> Number(f, base) == 0 {
      NextNumberUnique(base, listing, 1);
    }
  }

  /** With no listed name counting, the first file is `<base>_1.json`. */
  lemma NoCountedNameGivesFirst(endpoint: string, listing: seq<string>)
    requires forall f :: f in listing ==> !Counts(f, BaseName(endpoint))
    ensures GenerateFilename(endpoint, listing) == NumberedName(BaseName(endpoint), 1)
  {
    NextNumberUnique(BaseName(endpoint), listing, 1);
  }

  /**
   Saving under the generated name and running again yields the next number:
   successive runs write `_n`, `_n+1`, ... and never reuse a name.
   */
  lemma SuccessiveRunsAdvance(endpoint: string, listing: seq<string>)
    ensures var base := BaseName(endpoint);
            NextNumber(base, listing + [GenerateFilename(endpoint, listing)])
              == NextNumber(base, listing) + 1
  {
    var base := BaseName(endpoint);
    var n := NextNumber(base, listing);
    var name := GenerateFilename(endpoint, listing);
    NumberedNameCounts(base, n);
    assert name in listing + [name];
    NextNumberUnique(base, listing + [name], n + 1);
  }

  /** The generated name is the numbered name for the chosen number. */
  lemma GeneratedFromNumber(endpoint: string, listing: seq<string>, n: nat)
    requires NextNumber(BaseName(endpoint), listing) == n
    ensures GenerateFilename(endpoint, listing) == NumberedName(BaseName(endpoint), n)
  {
  }

  /** `foo_1.json` and `foo_2.json` on disk give the number 3. */
  lemma ExampleThirdNumber()
    ensures NextNumber("foo", ["foo_1.json", "foo_2.json"]) == 3
  {
    var listing := ["foo_1.json", "foo_2.json"];
    ExampleNumberedNames();
    forall f | f in listing && Counts(f, "foo")
      ensures Number(f, "foo") < 3
    {
      assert f == listing[0] || f == listing[1];
    }
    assert listing[1] in listing;
    NextNumberUnique("foo", listing, 3);
  }

  /** `foo_1.json` and `foo_2.json` count as 1 and 2. */
  lemma ExampleNumberedNames()
    ensures Counts("foo_1.json", "foo") && Number("foo_1.json", "foo") == 1
    ensures Counts("foo_2.json", "foo") && Number("foo_2.json", "foo") == 2
  {
    assert Middle("foo_1.json", "foo") == "1";
    assert Middle("foo_2.json", "foo") == "2";
  }

  /** ... and so the file `foo_3.json`. */
  lemma ExampleThirdFile()
    ensures GenerateFilename("foo", ["foo_1.json", "foo_2.json"]) == "foo_3.json"
  {
    ExampleThirdNumberedName();
    ExampleSpelling(3);
  }

  lemma ExampleThirdNumberedName()
    ensures GenerateFilename("foo", ["foo_1.json", "foo_2.json"]) == NumberedName("foo", 3)
  {
    assert BaseName("foo") == "foo";
    ExampleThirdNumber();
    GeneratedFromNumber("foo", ["foo_1.json", "foo_2.json"], 3);
  }

  /** An empty directory gives `foo_1.json`. */
  lemma ExampleFirstFile()
    ensures GenerateFilename("foo", []) == "foo_1.json"
  {
    assert BaseName("foo") == "foo";
    NextNumberUnique("foo", [], 1);
    GeneratedFromNumber("foo", [], 1);
    ExampleSpelling(1);
  }

  /** The separator after the base is never checked: `foo-3.json` and `foo13.json` both count as 3. */
  lemma ExampleSeparatorNotChecked()
    ensures Counts("foo-3.json", "foo") && Number("foo-3.json", "foo") == 3
    ensures Counts("foo13.json", "foo") && Number("foo13.json", "foo") == 3
  {
    assert Middle("foo-3.json", "foo") == "3";
    assert Middle("foo13.json", "foo") == "3";
  }

  /** ... so `foo13.json` alone makes the next file `foo_4.json`. */
  lemma ExampleSkippedSeparatorFile()
    ensures GenerateFilename("foo", ["foo13.json"]) == "foo_4.json"
  {
    assert BaseName("foo") == "foo";
    ExampleSkippedSeparatorNumber();
    GeneratedFromNumber("foo", ["foo13.json"], 4);
    ExampleSpelling(4);
  }

  lemma ExampleSkippedSeparatorNumber()
    ensures NextNumber("foo", ["foo13.json"]) == 4
  {
    var listing := ["foo13.json"];
    ExampleSeparatorNotChecked();
    forall f | f in listing && Counts(f, "foo")
      ensures Number(f, "foo") < 4
    {
      assert f == listing[0];
    }
    assert listing[0] in listing;
    NextNumberUnique("foo", listing, 4);
  }

  /** `int()` reads zero-padded middles: `foo_007.json` counts as 7 and `foo_00.json` as 0. */
  lemma ExampleZeroPadded()
    ensures Counts("foo_007.json", "foo") && Number("foo_007.json", "foo") == 7
    ensures Counts("foo_00.json", "foo") && Number("foo_00.json", "foo") == 0
  {
    assert Middle("foo_007.json", "foo") == "007";
    assert Middle("foo_00.json", "foo") == "00";
  }

  /** `foo.json` passes the filter but its crossed slice is empty, so it counts for nothing. */
  lemma ExampleBareName()
    ensures IsCandidate("foo.json", "foo") && !Counts("foo.json", "foo")
  {
    assert Middle("foo.json", "foo") == [];
  }

  /** ... and a directory holding only `foo.json` gets `foo_1.json`. */
  lemma ExampleBareNameFile()
    ensures GenerateFilename("foo", ["foo.json"]) == "foo_1.json"
  {
    ExampleBareName();
    assert BaseName("foo") == "foo";
    NextNumberUnique("foo", ["foo.json"], 1);
    GeneratedFromNumber("foo", ["foo.json"], 1);
    ExampleSpelling(1);
  }

  /** How the single-digit names of the examples are spelled. */
  lemma ExampleSpelling(n: nat)
    requires 1 <= n <= 4
    ensures NumberedName("foo", n) == "foo_" + [DigitChar(n)] + ".json"
    ensures n == 1 ==> NumberedName("foo", n) == "foo_1.json"
    ensures n == 3 ==> NumberedName("foo", n) == "foo_3.json"
    ensures n == 4 ==> NumberedName("foo", n) == "foo_4.json"
  {
    assert Show(n) == [DigitChar(n)];
  }
}
