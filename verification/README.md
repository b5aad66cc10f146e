# starred-releases in Dafny

starred-releases serves an Atom feed of the newest releases of every GitHub
repository a user has starred. The pipeline behind the feed exists twice, in
`main.go` (the command's own `starredClient`) and in `feed/feed.go` (the
packaged `Feed`). Each copy has four stages:

1. **Page accumulation** (`GetStarredRepositories`, `GetRepositoryReleases`).
   The loop calls a listing endpoint with a page size of 100, appends what it
   receives, and stops at the first page shorter than 100. An error ends it
   and discards everything gathered so far.
2. **All-or-nothing aggregation** (`BuildFeed`). One task per starred
   repository fetches that repository's releases. A failing repository adds
   its error to a shared error list. A succeeding one adds its releases,
   tagged with owner and repository name, to a shared release list. One error
   is enough to fail the whole build.
3. **Ordering** (`ByDate`, `sort.Sort(sort.Reverse(...))`). Releases are put
   in non-increasing publication time.
4. **Projection**. There is one Atom entry per release, with:
   - the identifier `feedID/<release id>`;
   - the title `[owner/repo] name (tag)`;
   - the publication time as both updated and published;
   - the release page as the alternate link;
   - an author and a content that differ between the copies.

   The command's copy credits the owner and shows the HTML-escaped body in a
   `pre` element. The packaged copy credits `Releaser()` and shows the body
   rendered from Markdown and sanitised. The feed itself is titled
   `Starred Github Releases for <user>`, and its identifier and self link are
   both the feed identifier.

Modules:
- `Github` holds the values received from the platform.
- `Paging` and `Client` hold the page loop.
- `Aggregation` holds the fan-out.
- `Ordering` holds the sort.
- `Decimal`, `Html` and `Projection` hold entry and feed construction.
- `Seqs` holds mapping over sequences.
- `StarredClient` (main.go) and `FeedPackage` (feed/feed.go) hold what differs between the copies, and each copy's `BuildFeed`.

The stages that are the same in both copies are modelled once, and the table below cites them in `main.go`:
- the page loops (feed/feed.go:57-114);
- the fan-out (feed/feed.go:127-154);
- `ByDate` and the sort (feed/feed.go:49-55 and 159).

The platform is a script of responses: `Upstream.starred[k]` answers the k-th
starred-listing call, and `Upstream.releases(owner, name)[k]` answers the k-th
release-listing call for that repository. The loops record the options of
every call they make.

The page index of both loops starts at 0 and is never advanced, so every call
asks for page 0 (`Client.GetStarredRepositories`,
`Client.GetRepositoryReleases`). A listing ends only on an error or a short
page. Against a platform that answers by page index, a user with 100 or more
starred repositories, or a repository with 100 or more releases, makes the
loop run forever (`Paging.FullFirstPageNeverStops`). This is why both loops
require `Stops` of their script.

## Model

| member | source | states |
|---|---|---|
| Paging.Calls | main.go:47-66 | the loop makes calls up to and including the first response that is an error or a page shorter than 100, and no further call |
| Paging.Paginate | main.go:41-69 | the loop succeeds exactly when every call it makes gets a page; on failure the error is that of the last call made |
| Paging.FlattenSnoc | main.go:59-61 | one more page appends exactly that page's items to the accumulator |
| Paging.FlattenMembers | main.go:59-61 | an item is in the accumulated list exactly when some received page holds it |
| Paging.PaginateKeepsEveryItem | main.go:59-65 | on success an item is in the result exactly when a page received up to the ending one holds it, and every page before the ending one was full |
| Paging.PaginateFailsOnFirstError | main.go:54-57 | the loop fails with error e exactly when e is the first error and every earlier page was full; earlier items are discarded |
| Paging.EmptyFirstPage | main.go:63-65 | an empty first page ends the loop after one call with an empty result |
| Paging.FullFirstPageNeverStops | main.go:44-53 | when every call receives the same full page, as it does from a platform that answers page 0 to every call for page 0, no number of calls ever reaches a response that ends the loop |
| Client.GetStarredRepositories | main.go:41-69 | returns the paginated result of the starred listing, makes exactly as many calls as the loop needs, and every call asks for page 0 with page size 100 |
| Client.GetRepositoryReleases | main.go:71-98 | returns the paginated result of the release listing, makes exactly as many calls as the loop needs, and every call asks for page 0 with page size 100 |
| Aggregation.Tag | main.go:125-131 | every fetched release becomes a release tagged with its repository's owner and name, in order |
| Aggregation.Failing | main.go:116-122 | the repositories it lists are starred repositories whose fetch failed |
| Aggregation.Snoc | main.go:111-135 | one more repository's task appends its contribution to the shared release list and the shared error list |
| Aggregation.Task | main.go:113-135 | a task appends its fetch error to the error list, or each fetched release, tagged, to the release list |
| Aggregation.FanOut | main.go:111-138 | after all tasks the shared lists hold, up to order, every repository's tagged releases and every failing repository's error |
| Aggregation.ErrorPerFailingRepository | main.go:116-122 | there is exactly one error per failing repository, and it is that repository's fetch error |
| Aggregation.FailingAreExactlyTheFailedRepositories | main.go:116-122 | every starred repository whose fetch fails is counted as failing |
| Aggregation.NoErrorsIffAllSucceed | main.go:139-141 | the error list is empty exactly when every repository's fetch succeeds |
| Aggregation.CollectedCount | main.go:125-133 | the collected list has as many releases as the successful repositories have between them |
| Aggregation.ContributionMembers | main.go:125-131 | a repository contributes a release exactly when its fetch succeeded and returned that release, tagged with the repository's owner and name |
| Aggregation.CollectedProvenance | main.go:114-131 | a release is collected exactly when it was fetched for a starred repository whose fetch succeeded, tagged with that repository's owner and name |
| Aggregation.AllOrNothing | main.go:138-141 | the aggregation succeeds exactly when the starred listing and every repository's fetch succeed, and then it yields every collected release |
| Aggregation.NoStarsNoReleases | main.go:111-141 | a user with no starred repositories gets an empty release list and no error |
| Ordering.SortedIsNewestFirst | main.go:37-39 | a list in which no release is reverse-less than its predecessor has non-increasing publication times between any two positions |
| Ordering.Swap | main.go:36 | exchanges two releases and leaves the rest in place |
| Ordering.Sort | main.go:143 | the releases end up sorted by the reversed `ByDate` order and are a permutation of what they were |
| Decimal.Digits | main.go:152 | the decimal text of a natural number is non-empty, made of digits, and has no leading zero unless the number is 0 |
| Decimal.DigitsRoundTrip | main.go:152 | the digits of n parse back to n |
| Decimal.ItoaRoundTrip | main.go:152 | the decimal text of any integer, with its minus sign, parses back to it |
| Decimal.ItoaInjective | main.go:152 | different integers have different decimal texts |
| Html.EscapeString | main.go:164 | escaped text holds no `<`, `>`, `'` or `"` and is no shorter than the input |
| Html.UnescapeChar | main.go:164 | unescaping undoes the replacement of one character |
| Html.EscapeRoundTrip | main.go:164 | unescaping escaped text gives the original text back |
| Html.EscapeKeepsPlainText | main.go:164 | text without any of the five special characters is left unchanged |
| Projection.EntryIdRoundTrip | main.go:152 | the release id reads back from an entry identifier, so distinct ids give distinct identifiers |
| Projection.EntryTitleNamesRepository | main.go:148-151 | the owner and repository read back from an entry title when they hold no `]` and the owner holds no `/` |
| Projection.FeedTitle | main.go:170 | the feed title is the fixed prefix followed by exactly the user |
| Projection.FeedDocument | main.go:169-178 | the feed's identifier and self link are the feed identifier, its title is exactly `Starred Github Releases for ` followed by the user, its updated time is the given time and it holds the given entries |
| StarredClient.PreContent | main.go:164 | the content is wrapped in `<pre>` and `</pre>`, and the only `<` and `>` in it are those of the two tags |
| StarredClient.PreContentRoundTrip | main.go:164 | stripping the tags and unescaping gives the release body back |
| StarredClient.NewEntry | main.go:147-166 | the title is `[owner/repo] name (tag)`, the identifier is the feed identifier, a slash and the decimal release id, both entry times are the publication time, the author is the owner, the one link is the release page with rel alternate, and the content is the escaped body in html form |
| StarredClient.EntryNamesRelease | main.go:148-152 | the release id reads back from the entry identifier, and the repository from the entry title |
| StarredClient.PermutationKeepsBodies | main.go:143 | rearranging releases that all have a body gives releases that all have a body |
| StarredClient.BuildEntries | main.go:145-167 | one entry per release, in the releases' order |
| StarredClient.SortedEntries | main.go:143-167 | the entries are those of the collected releases up to order, and newest first |
| StarredClient.BuildFeed | main.go:100-184 | the starred listing's error; or, if any repository fails, a combined error holding exactly the failing repositories' errors; otherwise the feed document with one entry per collected release, newest first |
| FeedPackage.Releaser | feed/feed.go:30-35 | the first asset's uploader when there is more than one asset, the owner otherwise; always the owner or an asset's uploader |
| FeedPackage.SanitisedBody | feed/feed.go:37-47 | a missing body renders as the empty text, a present one as its own text, through Markdown then the sanitiser |
| FeedPackage.NilBodyRendersAsEmpty | feed/feed.go:39-43 | a release without a body renders exactly as one with an empty body |
| FeedPackage.SanitisedBodyDependsOnTextOnly | feed/feed.go:37-47 | two releases whose body texts agree render the same |
| FeedPackage.NewEntry | feed/feed.go:163-182 | the title is `[owner/repo] name (tag)`, the identifier is the feed identifier, a slash and the decimal release id, both entry times are the publication time, the author is the releaser, the one link is the release page with rel alternate, and the content is the sanitised body in html form |
| FeedPackage.EntryNamesRelease | feed/feed.go:164-168 | the release id reads back from the entry identifier, and the repository from the entry title |
| FeedPackage.SanitiserGuardsEveryEntry | feed/feed.go:44-46 | when the sanitiser never lets a `<script` tag through, no entry content holds one |
| FeedPackage.CopiesAgree | feed/feed.go:161-183 | both copies give a release the same title, identifier, times and link; the authors differ exactly when there is more than one asset and the first was uploaded by someone other than the owner |
| FeedPackage.SingleAssetCreditsOwner | feed/feed.go:31-34 | a release with exactly one asset is credited to the owner, whoever uploaded it |
| FeedPackage.BuildEntries | feed/feed.go:161-183 | one entry per release, in the releases' order |
| FeedPackage.SortedEntries | feed/feed.go:159-183 | the entries are those of the collected releases up to order, and newest first |
| FeedPackage.BuildFeed | feed/feed.go:116-200 | the starred listing's error; or, if any repository fails, a combined error holding exactly the failing repositories' errors; otherwise the feed document with one entry per collected release, newest first |
| Seqs.MapSeqAt | main.go:146-167 | the i-th mapped element is the function applied to the i-th element |
| Seqs.MapSeqPointwise | main.go:146-167 | a sequence with the function's value of the matching element at every position is the mapped sequence |
| Seqs.MapSeqConcat | main.go:146-167 | mapping distributes over concatenation |
| Seqs.MapSeqRemove | main.go:146-167 | removing one element removes its image from the mapped multiset |
| Seqs.MapSeqPermutation | main.go:143-167 | mapping a permutation gives a permutation of the mapped sequence |

## Left out

- The HTTP server, flag and environment parsing and OAuth setup in `main()` are not modelled. Neither is `NewFeed`. They are I/O plumbing.
- The go-github calls `ListStarred` and `ListReleases` are replaced by scripted responses, one per call. The response metadata that the loops ignore is not modelled.
- Goroutines, `sync.Mutex` and `sync.WaitGroup` are replaced by a sequential loop over the repositories. The order in which tasks append is not fixed in the source. So `Collected` and `Failures` fix one order, and every promise about both copies' `BuildFeed` is stated up to order.
- Markdown rendering and the bluemonday sanitising policy are foreign libraries. They are the two function parameters of `FeedPackage.Renderer`.
- `xml.Marshal` and its error path are not modelled. `BuildFeed` returns the Atom feed value instead of its XML bytes.
- `time.Now()` is not modelled. The feed's updated time is a parameter.
- The error message `encountered the following errors: ...` is modelled as `Combined(errors)`. Its text formatting is not modelled.
- Publication times are integers. The float `Duration.Seconds()` comparison in `Less` becomes an integer comparison.
- `ByDate.Len` is the sequence length `|d|` and has no member of its own.
- Only `body` is optional in `RepositoryRelease`. Every other pointer the code dereferences is a plain value here, so the nil-dereference panics they can cause are not modelled:
  - the starred repository's owner login and name, read in each task;
  - the release's name, tag, id and HTML URL;
  - the release's publication time, read by `Less` and for both entry times (nil for draft releases);
  - the first asset's uploader login, read by `Releaser`.
- StarredClient.BuildFeed: requires that every collected release has a body, because the command's copy dereferences the body without a nil check and panics otherwise.
- Client.GetStarredRepositories: requires `Stops` of the script, because the source loop does not end on a script of full pages. The same holds for Client.GetRepositoryReleases.
- Client.GetStarredRepositories: the per-item append loop is modelled as one append of the whole page. The same holds for Client.GetRepositoryReleases.
- StarredClient.SortedEntries: the source sorts the release slice in place. The model copies the releases into an array, sorts that, and reads it back. The same holds for FeedPackage.SortedEntries.
- Ordering.Sort: the library's sort algorithm is replaced by an insertion sort over the same `Less` and `Swap`. It promises what `sort.Sort` promises: sorted and a permutation, with no stability.
