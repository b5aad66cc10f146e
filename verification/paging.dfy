/**
 * The page accumulation loop shared by `GetStarredRepositories` and
 * `GetRepositoryReleases`: what a run over a listing returns and how many
 * calls it makes, as functions of the responses the listing gives.
 */
module Paging {
  import opened Wrappers
  import opened Github

  /** The page size every listing call asks for. */
  const PAGE_SIZE := 100

  /** A response that ends the loop: an error, or a page shorter than PAGE_SIZE. */
  predicate IsLast<T>(r: Response<T>) {
    r.Failed? || |r.items| < PAGE_SIZE
  }

  /** Some response of the listing ends the loop, so the loop terminates on it. */
  predicate Stops<T>(listing: seq<Response<T>>)
    decreases |listing|
  {
    |listing| > 0 && (IsLast(listing[0]) || Stops(listing[1..]))
  }

  /**
   * The number of calls the loop makes: it calls until the first response that
   * ends it, and not once more.
   */
  function Calls<T>(listing: seq<Response<T>>): (n: nat)
    requires Stops(listing)
    ensures 1 <= n <= |listing|
    ensures IsLast(listing[n - 1])
    ensures forall k :: 0 <= k < n - 1 ==> !IsLast(listing[k])
    decreases |listing|
  {
    if IsLast(listing[0]) then 1
    else
      var rest := Calls(listing[1..]);
      assert forall k :: 1 <= k < rest + 1 ==> listing[k] == listing[1..][k - 1];
      1 + rest
  }

  /** The items of a page; an error contributes none. */
  function Items<T>(r: Response<T>): seq<T> {
    match r
    case Failed(_) => []
    case Page(items) => items
  }

  /** The in-order concatenation of the pages' items. */
  function Flatten<T>(pages: seq<Response<T>>): seq<T>
    decreases |pages|
  {
    if pages == [] then []
    else Flatten(pages[..|pages| - 1]) + Items(pages[|pages| - 1])
  }

  /**
   * What the loop returns: the error of the response that ended it, or all
   * items of the responses it received, in order.
   */
  function Paginate<T>(listing: seq<Response<T>>): (r: Result<seq<T>, Error>)
    requires Stops(listing)
    ensures r.Success? <==> forall k :: 0 <= k < Calls(listing) ==> listing[k].Page?
    ensures r.Failure? ==> listing[Calls(listing) - 1] == Failed(r.error)
  {
    var n := Calls(listing);
    match listing[n - 1]
    case Failed(e) => Failure(e)
    case Page(_) => Success(Flatten(listing[..n]))
  }

  /** Taking one more response appends that response's items. */
  lemma FlattenSnoc<T>(listing: seq<Response<T>>, n: nat)
    requires n < |listing|
    ensures Flatten(listing[..n + 1]) == Flatten(listing[..n]) + Items(listing[n])
  {
    assert listing[..n + 1][..n] == listing[..n];
  }

  /** An item is in the concatenation exactly when some page holds it. */
  lemma {:induction false} FlattenMembers<T>(pages: seq<Response<T>>, x: T)
    ensures x in Flatten(pages) <==> exists k :: 0 <= k < |pages| && x in Items(pages[k])
    decreases |pages|
  {
    if pages != [] {
      var init := pages[..|pages| - 1];
      var last := |pages| - 1;
      FlattenMembers(init, x);
      assert Flatten(pages) == Flatten(init) + Items(pages[last]);
      assert forall k :: 0 <= k < |init| ==> init[k] == pages[k];
      if x in Items(pages[last]) {
        assert 0 <= last < |pages| && x in Items(pages[last]);
      }
    }
  }

  /**
   * On success nothing is dropped or invented: an item is in the result exactly
   * when one of the pages received up to the ending one holds it, and every
   * page before the ending one was full.
   */
  lemma PaginateKeepsEveryItem<T>(listing: seq<Response<T>>, x: T)
    requires Stops(listing) && Paginate(listing).Success?
    ensures x in Paginate(listing).value <==>
      exists k :: 0 <= k < Calls(listing) && x in listing[k].items
    ensures forall k :: 0 <= k < Calls(listing) - 1 ==> |listing[k].items| >= PAGE_SIZE
  {
    var n := Calls(listing);
    FlattenMembers(listing[..n], x);
    assert forall k :: 0 <= k < n ==> listing[..n][k] == listing[k];
  }

  /**
   * On an error nothing accumulated is kept: the result is that error alone,
   * and it is the first error the listing gave.
   */
  lemma PaginateFailsOnFirstError<T>(listing: seq<Response<T>>, e: Error)
    requires Stops(listing)
    ensures Paginate(listing) == Failure(e) <==>
      exists k :: 0 <= k < |listing| && listing[k] == Failed(e)
                  && forall j :: 0 <= j < k ==> listing[j].Page? && |listing[j].items| >= PAGE_SIZE
  {
    var n := Calls(listing);
    if Paginate(listing) == Failure(e) {
      assert listing[n - 1] == Failed(e);
    }
    if exists k :: 0 <= k < |listing| && listing[k] == Failed(e)
                  && forall j :: 0 <= j < k ==> listing[j].Page? && |listing[j].items| >= PAGE_SIZE {
      var k :| 0 <= k < |listing| && listing[k] == Failed(e)
               && forall j :: 0 <= j < k ==> listing[j].Page? && |listing[j].items| >= PAGE_SIZE;
      assert IsLast(listing[k]);
      assert forall j :: 0 <= j < k ==> !IsLast(listing[j]);
      assert k == n - 1;
    }
  }

  /** An empty first page ends the loop at once with an empty result. */
  lemma EmptyFirstPage<T>(listing: seq<Response<T>>)
    requires |listing| > 0 && listing[0] == Page([])
    ensures Stops(listing) && Calls(listing) == 1 && Paginate(listing) == Success([])
  {
    FlattenSnoc(listing, 0);
    assert listing[..0] == [];
  }

  /** `n` calls that all receive the same response `r`. */
  function Repeated<T>(r: Response<T>, n: nat): (s: seq<Response<T>>)
    ensures |s| == n && forall k :: 0 <= k < n ==> s[k] == r
  {
    seq(n, _ => r)
  }

  /**
   * The loop never advances its page index, so every call asks for page 0
   * (`Client.GetStarredRepositories` and `Client.GetRepositoryReleases` record
   * that), and a platform that answers by page index gives every call the same
   * response. When that response is a full page, no number of calls ever
   * reaches a response that ends the loop: a user with PAGE_SIZE or more
   * starred repositories (or a repository with that many releases) makes the
   * loop run forever.
   */
  lemma {:induction false} FullFirstPageNeverStops<T>(r: Response<T>, n: nat)
    requires r.Page? && |r.items| >= PAGE_SIZE
    ensures !Stops(Repeated(r, n))
  {
    if n > 0 {
      FullFirstPageNeverStops(r, n - 1);
      assert Repeated(r, n)[1..] == Repeated(r, n - 1);
    }
  }
}
