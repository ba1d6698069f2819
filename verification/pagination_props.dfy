/** What the cursor-following loop does, stated against the chain of cursors. */
module PaginationProps {
  import opened Wrappers
  import opened Pagination

  /**
   The chain starting at `start` ends after exactly `k` pages: the first `k`
   cursors are truthy and name pages that have `info`, and the k-th is falsy.
   */
  ghost predicate ChainEndsAt(fetch: string -> Response, start: Option<string>, k: nat) {
    && !Truthy(CursorAt(fetch, start, k))
    && forall i :: 0 <= i < k ==>
         Truthy(CursorAt(fetch, start, i)) && fetch(CursorAt(fetch, start, i).value).info.Some?
  }

  /** The URLs requested are exactly start, next(start), next(next(start)), ... in that order. */
  lemma {:induction false} FetchesFollowChain(fetch: string -> Response, cursor: Option<string>, fuel: nat)
    ensures var r := Traverse(fetch, cursor, fuel);
            forall i :: 0 <= i < |r.fetched| ==>
              Truthy(CursorAt(fetch, cursor, i)) && CursorAt(fetch, cursor, i).value == r.fetched[i]
    decreases fuel
  {
    if Truthy(cursor) && fuel > 0 {
      var info := fetch(cursor.value).info;
      if info.Some? {
        var r := Traverse(fetch, cursor, fuel);
        var rest := Traverse(fetch, info.value.next, fuel - 1);
        FetchesFollowChain(fetch, info.value.next, fuel - 1);
        assert r.fetched == [cursor.value] + rest.fetched;
        forall i | 0 < i < |r.fetched|
          ensures Truthy(CursorAt(fetch, cursor, i)) && CursorAt(fetch, cursor, i).value == r.fetched[i]
        {
          assert CursorAt(fetch, cursor, i) == CursorAt(fetch, info.value.next, i - 1);
          assert r.fetched[i] == rest.fetched[i - 1];
        }
      }
    }
  }

  /**
   An error status is logged and nothing else: the logged URLs are exactly the
   requested URLs whose response had a 4xx or 5xx status, in request order.
   */
  lemma {:induction false} LogsExactlyErrorStatuses(fetch: string -> Response, cursor: Option<string>, fuel: nat)
    ensures var r := Traverse(fetch, cursor, fuel);
            r.logged == ErrorUrls(fetch, r.fetched)
    decreases fuel
  {
    if Truthy(cursor) && fuel > 0 {
      var info := fetch(cursor.value).info;
      var r := Traverse(fetch, cursor, fuel);
      if info.Some? {
        var rest := Traverse(fetch, info.value.next, fuel - 1);
        LogsExactlyErrorStatuses(fetch, info.value.next, fuel - 1);
        assert r.fetched[1..] == rest.fetched;
      } else {
        assert r.fetched[1..] == [];
      }
    }
  }

  /**
   Statuses never steer the loop: two servers whose bodies agree produce the
   same requests and the same ending, whatever status codes they send.
   */
  lemma {:induction false} StatusDoesNotStopTraversal(
    fetch1: string -> Response, fetch2: string -> Response, cursor: Option<string>, fuel: nat)
    requires forall u :: fetch1(u).info == fetch2(u).info
    ensures Traverse(fetch1, cursor, fuel).fetched == Traverse(fetch2, cursor, fuel).fetched
    ensures Traverse(fetch1, cursor, fuel).outcome == Traverse(fetch2, cursor, fuel).outcome
    decreases fuel
  {
    if Truthy(cursor) && fuel > 0 {
      var info := fetch1(cursor.value).info;
      if info.Some? {
        StatusDoesNotStopTraversal(fetch1, fetch2, info.value.next, fuel - 1);
      }
    }
  }

  /**
   A run that returns has returned `True`, right after the first page whose
   `info.next` is falsy: every page before it had `info` and a truthy cursor.
   */
  lemma {:induction false} ReturnsTrueAtChainEnd(fetch: string -> Response, cursor: Option<string>, fuel: nat)
    ensures var r := Traverse(fetch, cursor, fuel);
            r.outcome.Returned? ==> r.outcome.value && ChainEndsAt(fetch, cursor, |r.fetched|)
    decreases fuel
  {
    var r := Traverse(fetch, cursor, fuel);
    if Truthy(cursor) && fuel > 0 {
      var info := fetch(cursor.value).info;
      if info.Some? {
        var next := info.value.next;
        var rest := Traverse(fetch, next, fuel - 1);
        ReturnsTrueAtChainEnd(fetch, next, fuel - 1);
        if r.outcome.Returned? {
          var k := |r.fetched|;
          assert k == |rest.fetched| + 1;
          assert CursorAt(fetch, cursor, k) == CursorAt(fetch, next, k - 1);
          forall i | 0 <= i < k
            ensures Truthy(CursorAt(fetch, cursor, i)) && fetch(CursorAt(fetch, cursor, i).value).info.Some?
          {
            if i > 0 {
              assert CursorAt(fetch, cursor, i) == CursorAt(fetch, next, i - 1);
            }
          }
        }
      }
    }
  }

  /** A chain that ends after k pages with k within the fuel makes the run return `True` after k requests. */
  lemma {:induction false} ChainEndReturnsTrue(fetch: string -> Response, cursor: Option<string>, fuel: nat, k: nat)
    requires k <= fuel
    requires ChainEndsAt(fetch, cursor, k)
    ensures Traverse(fetch, cursor, fuel).outcome == Returned(true)
    ensures |Traverse(fetch, cursor, fuel).fetched| == k
    decreases k
  {
    if k > 0 {
      assert Truthy(CursorAt(fetch, cursor, 0));
      var next := Successor(fetch, cursor);
      assert ChainEndsAt(fetch, next, k - 1) by {
        assert CursorAt(fetch, cursor, k) == CursorAt(fetch, next, k - 1);
        forall i | 0 <= i < k - 1
          ensures Truthy(CursorAt(fetch, next, i)) && fetch(CursorAt(fetch, next, i).value).info.Some?
        {
          assert CursorAt(fetch, cursor, i + 1) == CursorAt(fetch, next, i);
        }
      }
      ChainEndReturnsTrue(fetch, next, fuel - 1, k - 1);
    }
  }

  /** The loop returns `True` within `fuel` iterations exactly when the cursor chain ends within `fuel` pages. */
  lemma ReturnsIffChainEnds(fetch: string -> Response, cursor: Option<string>, fuel: nat)
    ensures Traverse(fetch, cursor, fuel).outcome == Returned(true) <==>
              exists k: nat :: k <= fuel && ChainEndsAt(fetch, cursor, k)
  {
    var r := Traverse(fetch, cursor, fuel);
    if r.outcome == Returned(true) {
      ReturnsTrueAtChainEnd(fetch, cursor, fuel);
      assert |r.fetched| <= fuel && ChainEndsAt(fetch, cursor, |r.fetched|);
    }
    if exists k: nat :: k <= fuel && ChainEndsAt(fetch, cursor, k) {
      var k: nat :| k <= fuel && ChainEndsAt(fetch, cursor, k);
      ChainEndReturnsTrue(fetch, cursor, fuel, k);
    }
  }

  /**
   The loop raises only on a page without `info`: the last URL requested, whose
   body lacked the field.
   */
  lemma {:induction false} RaisesOnlyOnMissingInfo(fetch: string -> Response, cursor: Option<string>, fuel: nat)
    ensures var r := Traverse(fetch, cursor, fuel);
            r.outcome.InfoMissing? ==>
              |r.fetched| > 0 && r.outcome.url == r.fetched[|r.fetched| - 1] && fetch(r.outcome.url).info.None?
    decreases fuel
  {
    if Truthy(cursor) && fuel > 0 {
      var info := fetch(cursor.value).info;
      if info.Some? {
        RaisesOnlyOnMissingInfo(fetch, info.value.next, fuel - 1);
      }
    }
  }

  /** Fuel is only a bound: once a run ends within some fuel, more fuel gives the same run. */
  lemma {:induction false} MoreFuelSameRun(fetch: string -> Response, cursor: Option<string>, fuel: nat, more: nat)
    requires fuel <= more
    requires !Traverse(fetch, cursor, fuel).outcome.OutOfFuel?
    ensures Traverse(fetch, cursor, more) == Traverse(fetch, cursor, fuel)
    decreases fuel
  {
    if Truthy(cursor) {
      var info := fetch(cursor.value).info;
      if info.Some? {
        MoreFuelSameRun(fetch, info.value.next, fuel - 1, more - 1);
      }
    }
  }

  /** Following the chain for a pages and then b more is following it for a + b. */
  lemma {:induction false} CursorAtAdd(fetch: string -> Response, start: Option<string>, a: nat, b: nat)
    ensures CursorAt(fetch, start, a + b) == CursorAt(fetch, CursorAt(fetch, start, a), b)
    decreases a
  {
    if a > 0 {
      CursorAtAdd(fetch, Successor(fetch, start), a - 1, b);
    }
  }

  /** A chain that comes back to a cursor it has seen repeats the stretch in between forever. */
  lemma {:induction false} RevisitRepeats(fetch: string -> Response, start: Option<string>, i: nat, j: nat, k: nat)
    requires i < j <= k
    requires CursorAt(fetch, start, i) == CursorAt(fetch, start, j)
    ensures exists m :: i <= m < j && CursorAt(fetch, start, k) == CursorAt(fetch, start, m)
    decreases k
  {
    CursorAtAdd(fetch, start, j, k - j);
    CursorAtAdd(fetch, start, i, k - j);
    var back := i + (k - j);
    if j <= back {
      RevisitRepeats(fetch, start, i, j, back);
    }
  }

  /** A chain of truthy cursors that always lead to pages with `info` never lets the loop return. */
  lemma {:induction false} EndlessChainNeverReturns(fetch: string -> Response, cursor: Option<string>, fuel: nat)
    requires forall k: nat ::
               Truthy(CursorAt(fetch, cursor, k)) && fetch(CursorAt(fetch, cursor, k).value).info.Some?
    ensures Traverse(fetch, cursor, fuel).outcome == OutOfFuel
    ensures |Traverse(fetch, cursor, fuel).fetched| == fuel
    decreases fuel
  {
    assert Truthy(CursorAt(fetch, cursor, 0)) && fetch(CursorAt(fetch, cursor, 0).value).info.Some?;
    if fuel > 0 {
      var next := Successor(fetch, cursor);
      forall k: nat
        ensures Truthy(CursorAt(fetch, next, k)) && fetch(CursorAt(fetch, next, k).value).info.Some?
      {
        assert CursorAt(fetch, cursor, k + 1) == CursorAt(fetch, next, k);
      }
      EndlessChainNeverReturns(fetch, next, fuel - 1);
    }
  }

  /**
   No cycle guard: if the chain revisits a URL before ending, the loop never
   returns, however much fuel it is given.
   */
  lemma RevisitNeverReturns(fetch: string -> Response, cursor: Option<string>, i: nat, j: nat, fuel: nat)
    requires i < j
    requires CursorAt(fetch, cursor, i) == CursorAt(fetch, cursor, j)
    requires forall m :: 0 <= m < j ==>
               Truthy(CursorAt(fetch, cursor, m)) && fetch(CursorAt(fetch, cursor, m).value).info.Some?
    ensures Traverse(fetch, cursor, fuel).outcome == OutOfFuel
  {
    forall k: nat
      ensures Truthy(CursorAt(fetch, cursor, k)) && fetch(CursorAt(fetch, cursor, k).value).info.Some?
    {
      if k >= j {
        RevisitRepeats(fetch, cursor, i, j, k);
      }
    }
    EndlessChainNeverReturns(fetch, cursor, fuel);
  }

  /** A page whose `info.next` is its own URL keeps the loop requesting it forever. */
  lemma SelfLinkNeverReturns(fetch: string -> Response, url: string, fuel: nat)
    requires url != ""
    requires fetch(url).info == Some(Info(Some(url)))
    ensures Traverse(fetch, Some(url), fuel).outcome == OutOfFuel
  {
    assert CursorAt(fetch, Some(url), 1) == Some(url);
    RevisitNeverReturns(fetch, Some(url), 0, 1, fuel);
  }
}
