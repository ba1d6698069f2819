/**
 The cursor-following loop of `get_all_characters`: starting from a URL, fetch
 a page, read `info.next` from its body, and repeat while that cursor is
 truthy. The HTTP GET is an abstract total function from URL to response.
 The loop keeps no items, does not stop on an error status, and has no page
 bound or cycle guard; a `fuel` count stands in for running forever.
 */
module Pagination {
  import opened Wrappers

  /** The `info` object of a decoded body; `next` is JSON null or absent when `None`. */
  datatype Info = Info(next: Option<string>)

  /** One HTTP response: its status code and the `info` field of its decoded body, if any. */
  datatype Response = Response(status: int, info: Option<Info>)

  /** How a run ended. */
  datatype Outcome =
    | Returned(value: bool)    // the `return` after the loop
    | InfoMissing(url: string) // `data.get("info")` was None, so `.get("next")` raised
    | OutOfFuel                // the loop was still running when the fuel ran out

  /**
   What a run did: the URLs requested in order, the URLs whose failure status
   was logged, and how it ended.
   */
  datatype Run = Run(fetched: seq<string>, logged: seq<string>, outcome: Outcome)

  /** Python truthiness of the cursor: `None` and `""` are false. */
  predicate Truthy(cursor: Option<string>)
    ensures Truthy(cursor) <==> cursor != None && cursor != Some("")
  {
    cursor.Some? && cursor.value != ""
  }

  /** `raise_for_status()` raises for client (4xx) and server (5xx) statuses. */
  predicate IsErrorStatus(status: int)
    ensures IsErrorStatus(status) <==> status / 100 == 4 || status / 100 == 5
  {
    400 <= status < 600
  }

  /**
   The cursor that follows `cursor` according to the server: the `info.next`
   of the page it names, and `None` once the chain has ended or broken.
   */
  function Successor(fetch: string -> Response, cursor: Option<string>): Option<string> {
    if Truthy(cursor) && fetch(cursor.value).info.Some? then fetch(cursor.value).info.value.next
    else None
  }

  /** The i-th cursor of the chain: start, next(start), next(next(start)), ... */
  function CursorAt(fetch: string -> Response, start: Option<string>, i: nat): Option<string>
    decreases i
  {
    if i == 0 then start else CursorAt(fetch, Successor(fetch, start), i - 1)
  }

  /** The URLs one iteration that requested `url` adds to the error log. */
  function LoggedFor(fetch: string -> Response, url: string): seq<string> {
    if IsErrorStatus(fetch(url).status) then [url] else []
  }

  /** The URLs the error-logging branch reports, in order. */
  function ErrorUrls(fetch: string -> Response, urls: seq<string>): (r: seq<string>)
    ensures forall u :: u in r <==> u in urls && IsErrorStatus(fetch(u).status)
  {
    if |urls| == 0 then []
    else
      var rest := ErrorUrls(fetch, urls[1..]);
      assert forall u :: u in urls <==> u == urls[0] || u in urls[1..];
      LoggedFor(fetch, urls[0]) + rest
  }

  /**
   `get_all_characters(cursor)` with at most `fuel` iterations of the loop.
   A falsy start requests nothing and returns `True`; otherwise each unit of
   fuel requests one URL, and running out of fuel means the loop would go on.
   */
  function Traverse(fetch: string -> Response, cursor: Option<string>, fuel: nat): (r: Run)
    ensures !Truthy(cursor) ==> r == Run([], [], Returned(true))
    ensures |r.fetched| <= fuel
    ensures r.outcome.OutOfFuel? ==> |r.fetched| == fuel
    decreases fuel
  {
    if !Truthy(cursor) then Run([], [], Returned(true))
    else if fuel == 0 then Run([], [], OutOfFuel)
    else
      var url := cursor.value;
      var logged := LoggedFor(fetch, url);
      match fetch(url).info
      case None => Run([url], logged, InfoMissing(url))
      case Some(info) =>
        var rest := Traverse(fetch, info.next, fuel - 1);
        Run([url] + rest.fetched, logged + rest.logged, rest.outcome)
  }

  /**
   One iteration of the loop, for a run that is `fetched` and `logged`
   followed by the run from `cursor`: the iteration requests the cursor, and
   either raises on a page without `info` or leaves the run from `info.next`
   still to come.
   */
  lemma TraverseStep(fetch: string -> Response, whole: Run, fetched: seq<string>, logged: seq<string>,
                     cursor: Option<string>, fuel: nat)
    requires Truthy(cursor)
    requires var here := Traverse(fetch, cursor, fuel);
             whole == Run(fetched + here.fetched, logged + here.logged, here.outcome)
    requires !whole.outcome.OutOfFuel?
    ensures fuel > 0
    ensures var url := cursor.value;
            var logged' := logged + LoggedFor(fetch, url);
            fetch(url).info.None? ==> whole == Run(fetched + [url], logged', InfoMissing(url))
    ensures var url := cursor.value;
            var logged' := logged + LoggedFor(fetch, url);
            fetch(url).info.Some? ==>
              var rest := Traverse(fetch, fetch(url).info.value.next, fuel - 1);
              whole == Run((fetched + [url]) + rest.fetched, logged' + rest.logged, rest.outcome)
  {
    var url := cursor.value;
    var logged' := logged + LoggedFor(fetch, url);
    if fetch(url).info.Some? {
      var rest := Traverse(fetch, fetch(url).info.value.next, fuel - 1);
      assert fetched + ([url] + rest.fetched) == (fetched + [url]) + rest.fetched;
      assert logged + (LoggedFor(fetch, url) + rest.logged) == logged' + rest.logged;
    }
  }

  /**
   The while loop of `get_all_characters` itself, for a start cursor on which
   the loop leaves within `fuel` iterations: it does what `Traverse` says.
   */
  method GetAllCharacters(fetch: string -> Response, start: Option<string>, ghost fuel: nat)
    returns (r: Run)
    requires !Traverse(fetch, start, fuel).outcome.OutOfFuel?
    ensures r == Traverse(fetch, start, fuel)
  {
    ghost var whole := Traverse(fetch, start, fuel);
    var cursor := start;
    var fetched: seq<string> := [];
    var logged: seq<string> := [];
    ghost var left: nat := fuel;
    assert whole == Run(fetched + whole.fetched, logged + whole.logged, whole.outcome);
    while Truthy(cursor)
      invariant !whole.outcome.OutOfFuel?
      invariant var rest := Traverse(fetch, cursor, left);
                whole == Run(fetched + rest.fetched, logged + rest.logged, rest.outcome)
      decreases left
    {
      var url := cursor.value;
      var response := fetch(url);
      TraverseStep(fetch, whole, fetched, logged, cursor, left);
      fetched := fetched + [url];
      ghost var before := logged;
      if IsErrorStatus(response.status) {
        logged := logged + [url];
      }
      assert logged == before + LoggedFor(fetch, url);
      if response.info.None? {
        return Run(fetched, logged, InfoMissing(url));
      }
      cursor := response.info.value.next;
      left := left - 1;
    }
    assert fetched + [] == fetched && logged + [] == logged;
    r := Run(fetched, logged, Returned(true));
  }
}
