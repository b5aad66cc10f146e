/**
 * The fan-out of `BuildFeed`: one release fetch per starred repository, the
 * successes collected into one release list and the failures into one error
 * list, and the all-or-nothing verdict over both. The goroutines are modelled
 * as a loop over the repositories; `Collected` and `Failures` fix one
 * (sequential) order, and what the pipeline promises is stated up to order.
 */
module Aggregation {
  import opened Wrappers
  import opened Github
  import opened Paging
  import Client

  /** Every repository's release listing ends, so every fetch returns. */
  predicate AllStop(repos: seq<StarredRepository>, releasesOf: (string, string) -> seq<Response<RepositoryRelease>>)
  {
    forall repo :: repo in repos ==> Stops(releasesOf(repo.owner, repo.name))
  }

  /** What fetching one repository's releases returns. */
  function Fetch(repo: StarredRepository, releasesOf: (string, string) -> seq<Response<RepositoryRelease>>)
    : Result<seq<RepositoryRelease>, Error>
    requires Stops(releasesOf(repo.owner, repo.name))
  {
    Paginate(releasesOf(repo.owner, repo.name))
  }

  /** A repository's releases, each tagged with the repository's owner and name. */
  function Tag(repo: StarredRepository, rs: seq<RepositoryRelease>): (tagged: seq<Release>)
    ensures |tagged| == |rs|
    ensures forall i :: 0 <= i < |rs| ==> tagged[i] == Release(repo.owner, repo.name, rs[i])
  {
    seq(|rs|, i requires 0 <= i < |rs| => Release(repo.owner, repo.name, rs[i]))
  }

  /** What a repository adds to the shared release list: its tagged releases, or nothing when it fails. */
  function Contribution(repo: StarredRepository, releasesOf: (string, string) -> seq<Response<RepositoryRelease>>)
    : seq<Release>
    requires Stops(releasesOf(repo.owner, repo.name))
  {
    match Fetch(repo, releasesOf)
    case Success(rs) => Tag(repo, rs)
    case Failure(_) => []
  }

  /** The shared release list once every repository's task has run. */
  function Collected(repos: seq<StarredRepository>, releasesOf: (string, string) -> seq<Response<RepositoryRelease>>)
    : seq<Release>
    requires AllStop(repos, releasesOf)
    decreases |repos|
  {
    if repos == [] then []
    else
      var last := repos[|repos| - 1];
      Collected(repos[..|repos| - 1], releasesOf) + Contribution(last, releasesOf)
  }

  /** The error a repository's task appends: its fetch error, if any. */
  function TaskErrors(repo: StarredRepository, releasesOf: (string, string) -> seq<Response<RepositoryRelease>>)
    : seq<Error>
    requires Stops(releasesOf(repo.owner, repo.name))
  {
    match Fetch(repo, releasesOf)
    case Failure(e) => [e]
    case Success(_) => []
  }

  /** The shared error list once every repository's task has run. */
  function Failures(repos: seq<StarredRepository>, releasesOf: (string, string) -> seq<Response<RepositoryRelease>>)
    : seq<Error>
    requires AllStop(repos, releasesOf)
    decreases |repos|
  {
    if repos == [] then []
    else
      var last := repos[|repos| - 1];
      Failures(repos[..|repos| - 1], releasesOf) + TaskErrors(last, releasesOf)
  }

  /** The repositories whose fetch fails, in order. */
  function Failing(repos: seq<StarredRepository>, releasesOf: (string, string) -> seq<Response<RepositoryRelease>>)
    : (failing: seq<StarredRepository>)
    requires AllStop(repos, releasesOf)
    ensures forall repo :: repo in failing ==> repo in repos && Fetch(repo, releasesOf).Failure?
    decreases |repos|
  {
    if repos == [] then []
    else
      var last := repos[|repos| - 1];
      Failing(repos[..|repos| - 1], releasesOf) + (if Fetch(last, releasesOf).Failure? then [last] else [])
  }

  /** The number of releases the repositories whose fetch succeeds have between them. */
  function ReleaseCount(repos: seq<StarredRepository>, releasesOf: (string, string) -> seq<Response<RepositoryRelease>>)
    : nat
    requires AllStop(repos, releasesOf)
    decreases |repos|
  {
    if repos == [] then 0
    else
      var last := repos[|repos| - 1];
      ReleaseCount(repos[..|repos| - 1], releasesOf)
        + (match Fetch(last, releasesOf) case Success(rs) => |rs| case Failure(_) => 0)
  }

  /** The pipeline terminates: the starred listing ends, and so does the release listing of every repository it yields. */
  predicate Terminates(up: Upstream) {
    && Stops(up.starred)
    && (Paginate(up.starred).Success? ==> AllStop(Paginate(up.starred).value, up.releases))
  }

  /**
   * The all-or-nothing release list (in the sequential order): the starred
   * listing's error, the combination of every repository's error, or every
   * collected release.
   */
  function Gathered(up: Upstream): Result<seq<Release>, Error>
    requires Terminates(up)
  {
    match Paginate(up.starred)
    case Failure(e) => Failure(e)
    case Success(repos) =>
      var errors := Failures(repos, up.releases);
      if |errors| != 0 then Failure(Combined(errors)) else Success(Collected(repos, up.releases))
  }

  /** One more repository's task adds its contribution to the shared lists. */
  lemma Snoc(repos: seq<StarredRepository>, releasesOf: (string, string) -> seq<Response<RepositoryRelease>>, i: nat)
    requires AllStop(repos, releasesOf) && i < |repos|
    ensures Collected(repos[..i + 1], releasesOf) == Collected(repos[..i], releasesOf) + Contribution(repos[i], releasesOf)
    ensures Failures(repos[..i + 1], releasesOf) == Failures(repos[..i], releasesOf) + TaskErrors(repos[i], releasesOf)
  {
    assert repos[..i + 1][..i] == repos[..i];
  }

  /**
   * The goroutine run for one repository: it fetches the repository's releases
   * and appends either its error to the shared error list or each release,
   * tagged, to the shared release list.
   */
  method Task(repo: StarredRepository, releasesOf: (string, string) -> seq<Response<RepositoryRelease>>,
              releases: seq<Release>, errors: seq<Error>)
    returns (releases': seq<Release>, errors': seq<Error>)
    requires Stops(releasesOf(repo.owner, repo.name))
    ensures releases' == releases + Contribution(repo, releasesOf)
    ensures errors' == errors + TaskErrors(repo, releasesOf)
  {
    releases', errors' := releases, errors;
    var owner, name := repo.owner, repo.name;
    var repositoryReleases, _ := Client.GetRepositoryReleases(owner, name, releasesOf(owner, name));
    match repositoryReleases {
      case Failure(err) =>
        errors' := errors' + [err];
      case Success(rs) =>
        for k := 0 to |rs|
          invariant releases' == releases + Tag(repo, rs[..k])
        {
          assert Tag(repo, rs[..k + 1]) == Tag(repo, rs[..k]) + [Release(owner, name, rs[k])];
          releases' := releases' + [Release(owner, name, rs[k])];
        }
        assert rs[..|rs|] == rs;
    }
  }

  /**
   * The fan-out, one repository after another: every repository's task runs,
   * and both shared lists end up holding every task's contribution.
   */
  method FanOut(repos: seq<StarredRepository>, releasesOf: (string, string) -> seq<Response<RepositoryRelease>>)
    returns (releases: seq<Release>, errors: seq<Error>)
    requires AllStop(repos, releasesOf)
    ensures multiset(releases) == multiset(Collected(repos, releasesOf))
    ensures multiset(errors) == multiset(Failures(repos, releasesOf))
  {
    releases, errors := [], [];
    for i := 0 to |repos|
      invariant releases == Collected(repos[..i], releasesOf)
      invariant errors == Failures(repos[..i], releasesOf)
    {
      Snoc(repos, releasesOf, i);
      releases, errors := Task(repos[i], releasesOf, releases, errors);
    }
    assert repos[..|repos|] == repos;
  }

  lemma {:induction false} ErrorPerFailingRepository(repos: seq<StarredRepository>,
                                                      releasesOf: (string, string) -> seq<Response<RepositoryRelease>>)
    requires AllStop(repos, releasesOf)
    ensures |Failures(repos, releasesOf)| == |Failing(repos, releasesOf)|
    ensures forall i :: 0 <= i < |Failing(repos, releasesOf)| ==>
      Fetch(Failing(repos, releasesOf)[i], releasesOf) == Failure(Failures(repos, releasesOf)[i])
    decreases |repos|
  {
    if repos != [] {
      ErrorPerFailingRepository(repos[..|repos| - 1], releasesOf);
    }
  }

  lemma {:induction false} FailingAreExactlyTheFailedRepositories(repos: seq<StarredRepository>,
                                                                   releasesOf: (string, string) -> seq<Response<RepositoryRelease>>)
    requires AllStop(repos, releasesOf)
    ensures forall repo :: repo in repos && Fetch(repo, releasesOf).Failure? ==> repo in Failing(repos, releasesOf)
    decreases |repos|
  {
    if repos != [] {
      var init := repos[..|repos| - 1];
      FailingAreExactlyTheFailedRepositories(init, releasesOf);
      assert repos == init + [repos[|repos| - 1]];
    }
  }

  /** No error is collected exactly when every repository's fetch succeeds. */
  lemma NoErrorsIffAllSucceed(repos: seq<StarredRepository>,
                              releasesOf: (string, string) -> seq<Response<RepositoryRelease>>)
    requires AllStop(repos, releasesOf)
    ensures |Failures(repos, releasesOf)| == 0 <==> forall repo :: repo in repos ==> Fetch(repo, releasesOf).Success?
  {
    ErrorPerFailingRepository(repos, releasesOf);
    FailingAreExactlyTheFailedRepositories(repos, releasesOf);
    if |Failing(repos, releasesOf)| != 0 {
      assert Failing(repos, releasesOf)[0] in Failing(repos, releasesOf);
    }
  }

  /** The collected list holds exactly as many releases as the successful repositories have. */
  lemma {:induction false} CollectedCount(repos: seq<StarredRepository>,
                                          releasesOf: (string, string) -> seq<Response<RepositoryRelease>>)
    requires AllStop(repos, releasesOf)
    ensures |Collected(repos, releasesOf)| == ReleaseCount(repos, releasesOf)
    decreases |repos|
  {
    if repos != [] {
      CollectedCount(repos[..|repos| - 1], releasesOf);
    }
  }

  /** A repository contributes exactly its own fetched releases, tagged with its owner and name. */
  lemma ContributionMembers(repo: StarredRepository,
                            releasesOf: (string, string) -> seq<Response<RepositoryRelease>>, rel: Release)
    requires Stops(releasesOf(repo.owner, repo.name))
    ensures rel in Contribution(repo, releasesOf) <==>
      rel.owner == repo.owner && rel.repository == repo.name
      && Fetch(repo, releasesOf).Success? && rel.release in Fetch(repo, releasesOf).value
  {
    if Fetch(repo, releasesOf).Success? {
      var rs := Fetch(repo, releasesOf).value;
      if rel.owner == repo.owner && rel.repository == repo.name && rel.release in rs {
        var i :| 0 <= i < |rs| && rs[i] == rel.release;
        assert Tag(repo, rs)[i] == rel;
      }
    }
  }

  /**
   * Every collected release is one of the fetched releases of a starred
   * repository whose fetch succeeded, tagged with that repository's owner and
   * name; and every fetched release of every such repository is collected.
   */
  lemma {:induction false} CollectedProvenance(repos: seq<StarredRepository>,
                                               releasesOf: (string, string) -> seq<Response<RepositoryRelease>>,
                                               rel: Release)
    requires AllStop(repos, releasesOf)
    ensures rel in Collected(repos, releasesOf) <==>
      exists repo :: repo in repos && rel.owner == repo.owner && rel.repository == repo.name
                     && Fetch(repo, releasesOf).Success? && rel.release in Fetch(repo, releasesOf).value
    decreases |repos|
  {
    if repos != [] {
      var init := repos[..|repos| - 1];
      var last := repos[|repos| - 1];
      CollectedProvenance(init, releasesOf, rel);
      assert repos == init + [last];
      ContributionMembers(last, releasesOf, rel);
      assert Collected(repos, releasesOf) == Collected(init, releasesOf) + Contribution(last, releasesOf);
    }
  }

  /** The whole aggregation fails exactly when the starred listing or some repository's fetch fails. */
  lemma AllOrNothing(up: Upstream)
    requires Terminates(up)
    ensures Gathered(up).Success? <==>
      Paginate(up.starred).Success?
      && forall repo :: repo in Paginate(up.starred).value ==> Fetch(repo, up.releases).Success?
    ensures Gathered(up).Success? ==> Gathered(up).value == Collected(Paginate(up.starred).value, up.releases)
  {
    if Paginate(up.starred).Success? {
      NoErrorsIffAllSucceed(Paginate(up.starred).value, up.releases);
    }
  }

  /** A user with no starred repositories gets an empty release list and no error. */
  lemma NoStarsNoReleases(up: Upstream)
    requires Stops(up.starred) && Paginate(up.starred) == Success([])
    ensures Terminates(up) && Gathered(up) == Success([])
  {
  }
}
