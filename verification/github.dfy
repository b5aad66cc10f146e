/**
 * The values the pipeline receives from the hosting platform's API client,
 * reduced to the fields the feed code reads.
 */
module Github {
  import opened Wrappers

  /** `github.StarredRepository`: the owner login and the repository name. */
  datatype StarredRepository = StarredRepository(owner: string, name: string)

  /** A release asset; only the uploader's login is read. */
  datatype Asset = Asset(uploader: string)

  /**
   * `github.RepositoryRelease`. The body is the only field the packaged copy
   * reads through a nil check; the timestamp is an integer instant.
   */
  datatype RepositoryRelease = RepositoryRelease(
    id: int,
    name: string,
    tagName: string,
    body: Option<string>,
    publishedAt: int,
    htmlUrl: string,
    assets: seq<Asset>)

  /** The pipeline's `Release`: a platform release tagged with its repository. */
  datatype Release = Release(owner: string, repository: string, release: RepositoryRelease)

  /** A transport error, or the error `BuildFeed` makes out of all per-repository errors. */
  datatype Error = ApiError(message: string) | Combined(errors: seq<Error>)

  /** What one listing call answers: an error or one page of items. */
  datatype Response<T> = Failed(err: Error) | Page(items: seq<T>)

  /** `github.ListOptions`: the page index and page size a listing call asks for. */
  datatype ListOptions = ListOptions(page: int, perPage: int)

  /**
   * The platform as the pipeline sees it: `starred[k]` answers the k-th call
   * listing the user's starred repositories, and `releases(owner, name)[k]`
   * answers the k-th call listing that repository's releases.
   */
  datatype Upstream = Upstream(
    starred: seq<Response<StarredRepository>>,
    releases: (string, string) -> seq<Response<RepositoryRelease>>)
}
