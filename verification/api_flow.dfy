/**
 The pure logic of the single-request flow: picking the `results` field
 out of a decoded response, and choosing a sequential output filename that
 does not collide with any file already in the output directory.
 */
module ApiFlow {
  import opened Wrappers
  import opened Decimal
  import opened PyStr

  /** A decoded JSON value. */
  datatype Json =
    | JNull
    | JBool(b: bool)
    | JNumber(n: int)
    | JString(s: string)
    | JArray(items: seq<Json>)
    | JObject(fields: map<string, Json>)

  /** Python's `KeyError`, carrying the missing key. */
  datatype KeyError = KeyError(key: string)

  const ResultsKey: string := "results"

  /** `data["results"]`: the list is handed back untouched; an absent key raises. */
  function ProcessData(data: map<string, Json>): (r: Result<Json, KeyError>)
    ensures r.Ok? <==> ResultsKey in data
    ensures r.Ok? ==> r.value == data[ResultsKey]
    ensures r.Err? ==> r.error == KeyError(ResultsKey)
  {
    if ResultsKey in data then Ok(data[ResultsKey]) else Err(KeyError(ResultsKey))
  }

  /** Only the `results` entry matters: adding or changing any other key changes nothing. */
  lemma ProcessDataIgnoresOtherKeys(data: map<string, Json>, key: string, v: Json)
    requires key != ResultsKey
    ensures ProcessData(data[key := v]) == ProcessData(data)
  {
  }

  // ---------------------------------------------------------------------------
  // Sequential filenames
  // ---------------------------------------------------------------------------

  const Extension: string := ".json"

  /** `endpoint.replace("/", "_")`. */
  function BaseName(endpoint: string): (base: string)
    ensures |base| == |endpoint|
    ensures '/' !in base
    ensures forall i :: 0 <= i < |endpoint| && endpoint[i] != '/' ==> base[i] == endpoint[i]
    ensures forall i :: 0 <= i < |endpoint| && endpoint[i] == '/' ==> base[i] == '_'
  {
    ReplaceChar(endpoint, '/', '_')
  }

  /** The listing filter: `f.startswith(base_name) and f.endswith(".json")`. */
  predicate IsCandidate(f: string, base: string)
    ensures IsCandidate(f, base) ==> |base| <= |f| && |Extension| <= |f|
    ensures IsCandidate(f, base) ==> f[..|base|] == base && f[|f| - 5..] == Extension
  {
    StartsWith(f, base) && EndsWith(f, Extension)
  }

  /**
   `f[len(base_name) + 1 : -5]`: the character right after the base is skipped
   without being looked at, and the slice is empty when the bounds cross.
   */
  function Middle(f: string, base: string): (mid: string)
    ensures |f| <= |base| + 6 ==> mid == []
    ensures |f| > |base| + 6 ==> mid == f[|base| + 1..|f| - 5]
  {
    Slice(f, |base| + 1, -5)
  }

  /** A listed name that contributes a number: a candidate whose middle passes `isdigit()`. */
  predicate Counts(f: string, base: string)
    ensures Counts(f, base) ==> |f| > |base| + 6 && IsCandidate(f, base)
  {
    IsCandidate(f, base) && AllDigits(Middle(f, base))
  }

  /** The number a counting name contributes: `int(...)` of its middle. */
  function Number(f: string, base: string): (n: nat)
    requires Counts(f, base)
    ensures exists k: nat :: PaddedSpelling(Middle(f, base), k, n)
    ensures Middle(f, base)[0] != '0' || |Middle(f, base)| == 1 ==> Show(n) == Middle(f, base)
  {
    var mid := Middle(f, base);
    ParseStripsZeros(mid);
    assert (mid[0] != '0' || |mid| == 1) ==> Show(Parse(mid)) == mid by {
      if mid[0] != '0' || |mid| == 1 {
        ShowParse(mid);
      }
    }
    Parse(mid)
  }

  /** The `files` comprehension: the listed names that pass the filter, in listing order. */
  function Candidates(listing: seq<string>, base: string): (files: seq<string>)
    ensures forall f :: f in files <==> f in listing && IsCandidate(f, base)
  {
    if |listing| == 0 then []
    else
      var rest := Candidates(listing[1..], base);
      assert forall f :: f in listing <==> f == listing[0] || f in listing[1..];
      if IsCandidate(listing[0], base) then [listing[0]] + rest else rest
  }

  /** The `numbers` comprehension over `files`: the parsed middles that are all digits. */
  function Numbers(files: seq<string>, base: string): (nums: seq<nat>)
    ensures forall f :: f in files && Counts(f, base) ==> Number(f, base) in nums
    ensures forall k :: k in nums ==> exists f :: f in files && Counts(f, base) && Number(f, base) == k
  {
    if |files| == 0 then []
    else
      var rest := Numbers(files[1..], base);
      assert forall f :: f in files <==> f == files[0] || f in files[1..];
      if Counts(files[0], base) then [Number(files[0], base)] + rest else rest
  }

  /** `max(xs)` of a non-empty list. */
  function MaxOf(xs: seq<nat>): (m: nat)
    requires |xs| > 0
    ensures m in xs
    ensures forall x :: x in xs ==> x <= m
  {
    if |xs| == 1 then xs[0]
    else
      var m := MaxOf(xs[1..]);
      assert forall x :: x in xs <==> x == xs[0] || x in xs[1..];
      if xs[0] >= m then xs[0] else m
  }

  /**
   The number the next file gets: one more than the largest number found, or 1
   when no candidate was listed or none of them had an all-digit middle.
   */
  function NextNumber(base: string, listing: seq<string>): (n: nat)
    ensures n >= 1
    ensures forall f :: f in listing && Counts(f, base) ==> Number(f, base) < n
    ensures n == 1 || exists f :: f in listing && Counts(f, base) && Number(f, base) == n - 1
  {
    var files := Candidates(listing, base);
    if |files| > 0 then
      var numbers := Numbers(files, base);
      if |numbers| > 0 then MaxOf(numbers) + 1 else 1
    else 1
  }

  /** The name written for number `n`: `f"{base_name}_{n}.json"`. */
  function NumberedName(base: string, n: nat): (name: string)
    ensures IsCandidate(name, base)
    ensures |name| > |base| && name[|base|] == '_'
    ensures Middle(name, base) == Show(n)
  {
    var name := base + "_" + Show(n) + Extension;
    assert name == (base + "_") + Show(n) + Extension;
    assert name[..|base|] == base;
    assert name[|name| - |Extension|..] == Extension;
    SliceMiddle(base + "_", Show(n), Extension);
    name
  }

  /** A numbered name is read back by the listing rule as exactly its own number. */
  lemma NumberedNameCounts(base: string, n: nat)
    ensures Counts(NumberedName(base, n), base)
    ensures Number(NumberedName(base, n), base) == n
  {
    ParseShow(n);
  }

  /**
   `generate_filename(endpoint)` against a directory holding `listing`: the
   result is a name the same rule would count, with a number above every number
   already counted, so it is none of the listed names.
   */
  function GenerateFilename(endpoint: string, listing: seq<string>): (name: string)
    ensures Counts(name, BaseName(endpoint))
    ensures Number(name, BaseName(endpoint)) >= 1
    ensures forall f :: f in listing && Counts(f, BaseName(endpoint)) ==>
              Number(f, BaseName(endpoint)) < Number(name, BaseName(endpoint))
    ensures name !in listing
  {
    var base := BaseName(endpoint);
    var n := NextNumber(base, listing);
    NumberedNameCounts(base, n);
    NumberedName(base, n)
  }
}
