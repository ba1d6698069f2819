# Pagination and sequential filenames — a Dafny model

This project models the two pieces of pure logic in a small data-pull
repository that talks to the Rick and Morty API:

- **Sequential output filenames** (`generate_filename` and `process_data` in
  `api_flow.py`). The endpoint becomes a base name by turning every `/` into
  `_`. The directory listing is filtered to names that start with the base
  and end in `.json`. Each such name's middle, `f[len(base)+1:-5]`, is parsed
  when it is all digits. The new name is `base_<max+1>.json`, or `base_1.json`
  when nothing parses. `process_data` returns the `results` entry of a decoded
  response.
- **The cursor-following loop** (`get_all_characters` in `main.py`). While the
  cursor is truthy, the loop requests it. It logs an HTTP error status and goes
  on. It reads `info.next` from the body and makes that the new cursor. At the
  end it returns `True`. It keeps none of the pages. It has no page bound and
  no cycle guard.

Modules:

| file | module | contents |
|---|---|---|
| `wrappers.dfy` | `Wrappers` | `Option`, `Result` |
| `decimal.dfy` | `Decimal` | ASCII `isdigit`, `int(...)`, `str(...)` and their round trips |
| `pystr.dfy` | `PyStr` | `startswith`, `endswith`, Python slicing, single-character `replace` |
| `api_flow.dfy` | `ApiFlow` | `process_data`, the filename rule and its one-call guarantees |
| `filename_props.dfy` | `FilenameProps` | order independence, ignored names, successive runs, worked examples |
| `pagination.dfy` | `Pagination` | abstract server, the functional `Traverse` and the loop `GetAllCharacters` |
| `pagination_props.dfy` | `PaginationProps` | the chain of cursors, error statuses, termination and non-termination |

Abstractions:

- The directory listing that `os.listdir` would return is a `seq<string>` parameter.
- The HTTP GET plus JSON decoding is a total function `fetch: string -> Response`.
  A `Response` holds a status code and the body's `info` object, if present.
  An `info` object holds an optional `next` cursor.
- The loop might never end, so `Traverse` takes a `fuel` count, and the
  `OutOfFuel` outcome means "still looping". `MoreFuelSameRun` shows that fuel
  never changes a run that ends. `GetAllCharacters` is the `while` loop itself.
  Its ghost `fuel` only proves termination.
- `requests.get` raising its own exceptions, and bodies that are not JSON, are
  not modelled. A body without `info` makes `.get("next")` fail on `None`.
  That failure is the `InfoMissing` outcome.

In these respects the model follows the code as written:

- `get_all_characters` (main.py) keeps none of the pages it requests.
- It makes one request per cursor, with no retry, and an error status does not stop it.
- It has no page bound and no guard against a cursor chain that revisits a URL.
- `generate_filename` (api_flow.py) skips the character after the base without checking that it is `_`.

## Model

| member | source | states |
|---|---|---|
| Decimal.AllDigits | api_flow.py:76 | definition: `s.isdigit()` on ASCII text, false for the empty string and true exactly when every character is one of `0`-`9` |
| Decimal.Parse | api_flow.py:74 | definition: `int()` of an ASCII digit string, read most-significant digit first, leading zeros allowed; the value is below 10^len, and at least 10^(len-1) when the first digit is not `0` |
| Decimal.ParseFront | api_flow.py:74 | the first digit of the string weighs 10^(len-1) and the rest is read the same way, so digits are read most-significant first |
| Decimal.Show | api_flow.py:81 | `str(n)` is a non-empty run of ASCII digits whose first digit is `0` exactly when n is 0 |
| Decimal.ParseShow | api_flow.py:74-81 | `int(str(n)) == n`: the number written into a filename is the number read back from it |
| Decimal.ShowParse | api_flow.py:74-76 | `str(int(s)) == s` for every all-digit string without a leading zero, so the two conversions are inverse |
| Decimal.ParseDropLeadingZero | api_flow.py:74 | a leading zero does not change the value `int()` reads |
| Decimal.ParseStripsZeros | api_flow.py:74-76 | every all-digit string is leading zeros followed by `str()` of its value, so zero-padded middles are read |
| PyStr.StartsWith | api_flow.py:70 | definition: `s.startswith(prefix)`, true exactly when the prefix is no longer than `s` and matches it character by character from the start |
| PyStr.EndsWith | api_flow.py:70 | definition: `s.endswith(suffix)`, true exactly when the suffix is no longer than `s` and matches its last characters one by one |
| PyStr.Slice | api_flow.py:74 | definition: Python slicing: negative bounds count from the end, bounds are clamped, and crossed bounds give the empty string instead of failing |
| PyStr.SliceMiddle | api_flow.py:74 | slicing `head + mid + tail` from `len(head)` to `-len(tail)` returns `mid` when the tail is non-empty |
| PyStr.ReplaceChar | api_flow.py:66 | single-character `replace` keeps the length, rewrites every occurrence and leaves every other character in place |
| ApiFlow.ProcessData | api_flow.py:34-47 | succeeds exactly when `results` is present and returns that entry unchanged; otherwise raises `KeyError('results')` |
| ApiFlow.ProcessDataIgnoresOtherKeys | api_flow.py:47 | adding or changing any key other than `results` does not change the outcome |
| ApiFlow.BaseName | api_flow.py:66 | the base name has the endpoint's length and no `/`; each `/` became `_` and every other character is unchanged |
| ApiFlow.IsCandidate | api_flow.py:70 | definition: `f.startswith(base) and f.endswith(".json")`; a kept name is at least as long as the base and as `.json`, begins with the base and ends in `.json` |
| ApiFlow.Middle | api_flow.py:74 | the middle is empty when the name is at most six characters longer than the base; otherwise it is the name with the base, one more character and the last five removed |
| ApiFlow.Counts | api_flow.py:74-76 | a name that counts passes the filter and has at least one character between the skipped separator and `.json` |
| ApiFlow.Number | api_flow.py:74-76 | `int()` of any all-digit middle: the middle is some leading zeros followed by the decimal spelling of the number, and it is exactly that spelling when it has no leading zero |
| ApiFlow.NumberedName | api_flow.py:81 | the written name passes the filter, has `_` right after the base, and its middle is the decimal spelling of the number |
| ApiFlow.Candidates | api_flow.py:67-71 | a name is kept exactly when it is listed, starts with the base and ends in `.json` |
| ApiFlow.Numbers | api_flow.py:73-77 | the parsed numbers are exactly the values of kept names whose middle slice is all digits |
| ApiFlow.MaxOf | api_flow.py:78 | `max` of a non-empty list is one of its elements and no element exceeds it |
| ApiFlow.NextNumber | api_flow.py:72-80 | the number is at least 1, above every number parsed from a listed name, and either 1 or one past some parsed number |
| ApiFlow.NumberedNameCounts | api_flow.py:74-81 | the name written for n passes the listing filter and parses back to exactly n |
| ApiFlow.GenerateFilename | api_flow.py:55-81 | the result would be counted by the rule, carries a number of at least 1 above every listed number, and is none of the listed names |
| FilenameProps.NextNumberUnique | api_flow.py:72-80 | any n >= 1 that is above every parsed number and is 1 or one past a parsed number is the chosen number |
| FilenameProps.NextNumberDependsOnlyOnNames | api_flow.py:67-80 | two listings with the same names, in any order and with any repetitions, give the same number |
| FilenameProps.GenerateFilenameOrderIndependent | api_flow.py:66-81 | permuting the directory listing does not change the generated filename |
| FilenameProps.IgnoredNamesIrrelevant | api_flow.py:67-77 | names failing the prefix, `.json` or all-digit test do not change the number |
| FilenameProps.NextNumberIsOne | api_flow.py:72-80 | the number is 1 exactly when every parsed number is 0, including when none parses |
| FilenameProps.NoCountedNameGivesFirst | api_flow.py:72-81 | when no listed name counts, the file is `<base>_1.json` |
| FilenameProps.SuccessiveRunsAdvance | api_flow.py:66-81 | after saving under the generated name, the next run picks the next number |
| FilenameProps.GeneratedFromNumber | api_flow.py:78-81 | the filename is `<base>_<n>.json` for the chosen number n |
| FilenameProps.ExampleNumberedNames | api_flow.py:74-76 | `foo_1.json` and `foo_2.json` count as 1 and 2 for base `foo` |
| FilenameProps.ExampleThirdNumber | api_flow.py:72-78 | `foo_1.json` and `foo_2.json` give the number 3 |
| FilenameProps.ExampleThirdFile | api_flow.py:55-81 | `foo_1.json` and `foo_2.json` give `foo_3.json` |
| FilenameProps.ExampleFirstFile | api_flow.py:79-81 | an empty directory gives `foo_1.json` |
| FilenameProps.ExampleSeparatorNotChecked | api_flow.py:74-76 | `foo-3.json` and `foo13.json` both count as 3 for base `foo` |
| FilenameProps.ExampleSkippedSeparatorNumber | api_flow.py:72-78 | a directory holding only `foo13.json` gives the number 4 |
| FilenameProps.ExampleSkippedSeparatorFile | api_flow.py:66-81 | a directory holding only `foo13.json` gives `foo_4.json` |
| FilenameProps.ExampleZeroPadded | api_flow.py:74-76 | `foo_007.json` counts as 7 and `foo_00.json` as 0 |
| FilenameProps.ExampleBareName | api_flow.py:70-76 | `foo.json` passes the filter, but its crossed slice is empty, so it does not count |
| FilenameProps.ExampleBareNameFile | api_flow.py:66-81 | a directory holding only `foo.json` gives `foo_1.json` |
| Pagination.Truthy | main.py:19 | definition: the loop condition; `None` and the empty string are false, every other cursor is true |
| Pagination.IsErrorStatus | main.py:22 | definition: `raise_for_status` raises exactly for the client-error (4xx) and server-error (5xx) classes |
| Pagination.ErrorUrls | main.py:22-25 | the logged URLs are exactly the requested URLs with a status from 400 to 599 |
| Pagination.Traverse | main.py:17-35 | a falsy start requests nothing and returns `True`; each iteration makes at most one request; a run cut off by the fuel has used every iteration |
| Pagination.TraverseStep | main.py:19-33 | one iteration requests the cursor, logs it on an error status, and then either fails on a body without `info` or continues from `info.next` |
| Pagination.GetAllCharacters | main.py:17-35 | the `while` loop, run on a chain that ends, does exactly what `Traverse` does |
| PaginationProps.FetchesFollowChain | main.py:19-30 | the requested URLs are start, next(start), next(next(start)), ... in order, all truthy |
| PaginationProps.LogsExactlyErrorStatuses | main.py:22-25 | the logged URLs are exactly the requested URLs whose response had a 4xx or 5xx status, in request order |
| PaginationProps.StatusDoesNotStopTraversal | main.py:22-30 | two servers with the same bodies give the same requests and ending, whatever their statuses |
| PaginationProps.ReturnsTrueAtChainEnd | main.py:19-35 | a run that returns has returned `True` right after the first page with a falsy `info.next`, and nothing is requested after it |
| PaginationProps.ChainEndReturnsTrue | main.py:19-35 | a chain that ends after k pages, with k within the fuel, returns `True` after exactly k requests |
| PaginationProps.ReturnsIffChainEnds | main.py:19-35 | the loop returns `True` within the fuel exactly when the cursor chain ends within it |
| PaginationProps.RaisesOnlyOnMissingInfo | main.py:27-30 | the loop fails only on a last-requested page whose body has no `info` |
| PaginationProps.MoreFuelSameRun | main.py:19-30 | once a run ends, more fuel gives the same run |
| PaginationProps.CursorAtAdd | main.py:30 | following the cursor a times and then b times is following it a + b times |
| PaginationProps.RevisitRepeats | main.py:19-30 | a chain that revisits a cursor repeats the stretch in between forever |
| PaginationProps.EndlessChainNeverReturns | main.py:19-30 | if every cursor is truthy and names a page with `info`, the loop never returns, whatever the fuel |
| PaginationProps.RevisitNeverReturns | main.py:19-30 | with no cycle guard, a chain that revisits a URL before ending never returns |
| PaginationProps.SelfLinkNeverReturns | main.py:19-30 | a page whose `info.next` is its own URL keeps the loop requesting it forever |

## Left out

- The network and decoding inside `requests.get`, `raise_for_status` and `response.json()` (main.py:21-27, api_flow.py:28-30). These are foreign I/O. The server is an abstract function from URL to status and `info`. An exception raised by `requests.get` itself, and a body that is not JSON, are not modelled.
- `fetch_data` and the `api_flow` flow (api_flow.py:15-30, api_flow.py:104-118). They only chain I/O calls around the modelled functions.
- The `@task`/`@flow` decorators and their retries, retry delay and cache expiration (api_flow.py:8-14, api_flow.py:100-103). This behaviour belongs to the Prefect library. No retry, and no choice of which statuses to retry, exists in the code itself.
- `os.listdir` (api_flow.py:69). The listing is a parameter. `api_flow.py` never imports `os`, so as written the call would raise `NameError`. The model gives the logic the code evidently intends.
- `save_data`, file writing and `json.dump` formatting (api_flow.py:84-97). This is filesystem I/O.
- Logging configuration, the log messages, reading `API_URL`, argument parsing and the module-level calls (main.py:7-14, main.py:18, main.py:32-33, main.py:38, api_flow.py:121-129). This is glue. The only logging kept is which URLs had an error status (`Run.logged`).
- ApiFlow.ProcessData: only a JSON object body is modelled, as the `data: dict` annotation assumes. On an array or string body, `data["results"]` raises `TypeError` (api_flow.py:47, reached from api_flow.py:115-116), and that is not modelled.
- Decimal.AllDigits: Unicode digits accepted by `str.isdigit` (superscripts and other scripts) are not modelled. Only ASCII `0`-`9` count as digits.
- Pagination.Traverse: the infinite loop is cut at `fuel` iterations. `OutOfFuel` stands for a loop that would still be running, not for a failure of the code.
- Pagination.Response: only `info.next` of the body is kept. An `info` value that is not an object, and a `next` that is not a string or null, are not modelled.
- PaginationProps.RevisitNeverReturns: like SelfLinkNeverReturns, this relies on `fetch` being a function, so a URL gets the same response on every request. A server whose answer for a URL changes between requests is not modelled.
- PaginationProps.SelfLinkNeverReturns: it assumes, in the same way, that the self-linking page is returned unchanged on every request.
