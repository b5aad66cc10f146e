/**
 * The two pagination loops of the API client (`GetStarredRepositories` and
 * `GetRepositoryReleases`, present in both copies of the pipeline). The
 * listing endpoint is a script of responses, one per call; the loops record
 * the arguments of every call they make.
 */
module Client {
  import opened Wrappers
  import opened Github
  import opened Paging

  /** One call to the starred-repositories listing. */
  datatype StarredCall = ListStarred(user: string, opts: ListOptions)

  /** One call to a repository's release listing. */
  datatype ReleasesCall = ListReleases(owner: string, repo: string, opts: ListOptions)

  method GetStarredRepositories(user: string, listStarred: seq<Response<StarredRepository>>)
    returns (repos: Result<seq<StarredRepository>, Error>, calls: seq<StarredCall>)
    requires Stops(listStarred)
    ensures repos == Paginate(listStarred)
    ensures |calls| == Calls(listStarred)
    ensures forall c :: c in calls ==> c == ListStarred(user, ListOptions(0, PAGE_SIZE))
  {
    var acc: seq<StarredRepository> := [];
    calls := [];
    var p := 0;
    var more := true;
    ghost var n := Calls(listStarred);
    var next := 0;  // how many calls the listing has answered
    while more
      invariant 0 <= next <= n
      invariant more <==> next < n
      invariant |calls| == next
      invariant forall c :: c in calls ==> c == ListStarred(user, ListOptions(0, PAGE_SIZE))
      invariant forall k :: 0 <= k < next ==> listStarred[k].Page?
      invariant acc == Flatten(listStarred[..next])
      decreases n - next
    {
      var o := ListOptions(p, PAGE_SIZE);
      calls := calls + [ListStarred(user, o)];
      var r := listStarred[next];
      FlattenSnoc(listStarred, next);
      next := next + 1;
      match r {
        case Failed(err) =>
          repos := Failure(err);
          return;
        case Page(items) =>
          acc := acc + items;  // the range loop appends the page item by item
          if |items| < PAGE_SIZE {
            more := false;
          }
      }
    }
    repos := Success(acc);
  }

  method GetRepositoryReleases(user: string, repo: string, listReleases: seq<Response<RepositoryRelease>>)
    returns (releases: Result<seq<RepositoryRelease>, Error>, calls: seq<ReleasesCall>)
    requires Stops(listReleases)
    ensures releases == Paginate(listReleases)
    ensures |calls| == Calls(listReleases)
    ensures forall c :: c in calls ==> c == ListReleases(user, repo, ListOptions(0, 100))
  {
    var acc: seq<RepositoryRelease> := [];
    calls := [];
    var p := 0;
    var more := true;
    ghost var n := Calls(listReleases);
    var next := 0;  // how many calls the listing has answered
    while more
      invariant 0 <= next <= n
      invariant more <==> next < n
      invariant |calls| == next
      invariant forall c :: c in calls ==> c == ListReleases(user, repo, ListOptions(0, 100))
      invariant forall k :: 0 <= k < next ==> listReleases[k].Page?
      invariant acc == Flatten(listReleases[..next])
      decreases n - next
    {
      var o := ListOptions(p, 100);
      calls := calls + [ListReleases(user, repo, o)];
      var r := listReleases[next];
      FlattenSnoc(listReleases, next);
      next := next + 1;
      match r {
        case Failed(err) =>
          releases := Failure(err);
          return;
        case Page(items) =>
          acc := acc + items;  // the range loop appends the page item by item
          if |items| < PAGE_SIZE {
            more := false;
          }
      }
    }
    releases := Success(acc);
  }
}
