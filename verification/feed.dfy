/**
 * The packaged copy of the pipeline (package `feed`, `Feed.BuildFeed`). It
 * differs from the command's copy in the entry it makes: the author is the
 * release's `Releaser`, and the content is the body rendered from Markdown and
 * sanitised, with a missing body read as the empty text.
 */
module FeedPackage {
  import opened Wrappers
  import opened Github
  import opened Paging
  import opened Aggregation
  import opened Ordering
  import opened Projection
  import opened Seqs
  import Client
  import StarredClient

  /**
   * The two library passes a body goes through: GitHub-flavoured Markdown to
   * HTML, then the user-generated-content sanitising policy.
   */
  datatype Renderer = Renderer(markdown: string -> string, sanitize: string -> string)

  /** `Release.Releaser`: the first asset's uploader when the release has more than one asset, the owner otherwise. */
  function Releaser(r: Release): (login: string)
    ensures |r.release.assets| > 1 ==> login == r.release.assets[0].uploader
    ensures |r.release.assets| <= 1 ==> login == r.owner
    ensures login == r.owner || exists a :: a in r.release.assets && login == a.uploader
  {
    if |r.release.assets| > 1 then r.release.assets[0].uploader else r.owner
  }

  /** The text of a body; a missing body is the empty text. */
  function BodyText(body: Option<string>): string {
    match body
    case None => ""
    case Some(b) => b
  }

  /** `Release.SanitisedBody`: the body's text rendered from Markdown, then sanitised. */
  function SanitisedBody(r: Release, rd: Renderer): (html: string)
    ensures r.release.body.None? ==> html == rd.sanitize(rd.markdown(""))
    ensures r.release.body.Some? ==> html == rd.sanitize(rd.markdown(r.release.body.value))
  {
    rd.sanitize(rd.markdown(BodyText(r.release.body)))
  }

  /** A release without a body renders exactly as one whose body is empty. */
  lemma NilBodyRendersAsEmpty(r: Release, rd: Renderer)
    requires r.release.body.None?
    ensures SanitisedBody(r, rd) == SanitisedBody(r.(release := r.release.(body := Some(""))), rd)
  {
  }

  /** Two releases whose bodies have the same text render the same, whatever else differs between them. */
  lemma SanitisedBodyDependsOnTextOnly(r1: Release, r2: Release, rd: Renderer)
    requires BodyText(r1.release.body) == BodyText(r2.release.body)
    ensures SanitisedBody(r1, rd) == SanitisedBody(r2, rd)
  {
  }

  /**
   * The entry made for one release: its title names the repository, the
   * release name and the tag; its identifier is the release id under the
   * feed identifier; both its times are the release's publication time; its author is the
   * releaser; its one link is the release page; its content is the sanitised body.
   */
  function NewEntry(feedID: string, rd: Renderer, r: Release): (e: Entry)
    ensures e.title == EntryTitle(r.owner, r.repository, r.release.name, r.release.tagName)
    ensures e.id == EntryId(feedID, r.release.id)
    ensures e.updated == r.release.publishedAt && e.published == r.release.publishedAt
    ensures e.author == Person(Releaser(r))
    ensures e.links == [Link("alternate", r.release.htmlUrl)]
    ensures e.content == Text("html", SanitisedBody(r, rd))
  {
    var rr := r.release;
    Entry(
      EntryTitle(r.owner, r.repository, rr.name, rr.tagName),
      EntryId(feedID, rr.id),
      rr.publishedAt,
      rr.publishedAt,
      Person(Releaser(r)),
      [Link("alternate", rr.htmlUrl)],
      Text("html", SanitisedBody(r, rd)))
  }

  /**
   * An entry names its release: the release id reads back from the entry's
   * identifier, and the repository from its title (when neither the owner nor
   * the repository name holds `]` and the owner holds no `/`).
   */
  lemma EntryNamesRelease(feedID: string, rd: Renderer, r: Release)
    ensures ParseEntryId(feedID, NewEntry(feedID, rd, r).id) == Some(r.release.id)
    ensures ']' !in r.owner && ']' !in r.repository && '/' !in r.owner ==>
      TitleRepository(NewEntry(feedID, rd, r).title) == Some((r.owner, r.repository))
  {
    EntryIdRoundTrip(feedID, r.release.id);
    if ']' !in r.owner && ']' !in r.repository && '/' !in r.owner {
      EntryTitleNamesRepository(r.owner, r.repository, r.release.name, r.release.tagName);
    }
  }

  /** `NewEntry` for the feed `feedID` and the renderer `rd`, as a function of the release alone. */
  function EntryOf(feedID: string, rd: Renderer): Release -> Entry {
    (r: Release) => NewEntry(feedID, rd, r)
  }

  /** A `<script` tag opens at position `i` of `s`. */
  predicate OpensScript(s: string, i: int)
    requires 0 <= i <= |s| - 7
  {
    s[i..i + 7] == "<script"
  }

  /** `s` holds no opening `<script` tag. */
  predicate NoScriptTag(s: string) {
    forall i :: 0 <= i <= |s| - 7 ==> !OpensScript(s, i)
  }

  /** When the sanitiser never lets a script tag through, no entry's content holds one. */
  lemma SanitiserGuardsEveryEntry(feedID: string, rd: Renderer, releases: seq<Release>)
    requires forall html :: NoScriptTag(rd.sanitize(html))
    ensures forall e :: e in MapSeq(EntryOf(feedID, rd), releases) ==> NoScriptTag(e.content.body)
  {
    forall e | e in MapSeq(EntryOf(feedID, rd), releases) ensures NoScriptTag(e.content.body) {
      var i :| 0 <= i < |releases| && MapSeq(EntryOf(feedID, rd), releases)[i] == e;
      MapSeqAt(EntryOf(feedID, rd), releases, i);
      assert e.content.body == rd.sanitize(rd.markdown(BodyText(releases[i].release.body)));
    }
  }

  /**
   * The two copies make the same entry for a release with a body except, at
   * most, for its author and content: the authors differ exactly when the
   * release has more than one asset and the first was uploaded by someone
   * other than the owner.
   */
  lemma CopiesAgree(feedID: string, rd: Renderer, r: Release)
    requires r.release.body.Some?
    ensures var cmd, pkg := StarredClient.NewEntry(feedID, r), NewEntry(feedID, rd, r);
      && cmd.title == pkg.title && cmd.id == pkg.id
      && cmd.updated == pkg.updated && cmd.published == pkg.published
      && cmd.links == pkg.links
      && (cmd.author == pkg.author <==> |r.release.assets| <= 1 || r.release.assets[0].uploader == r.owner)
  {
  }

  /** A release with a single asset is credited to the owner, whoever uploaded that asset. */
  lemma SingleAssetCreditsOwner(feedID: string, rd: Renderer, r: Release)
    requires |r.release.assets| == 1
    ensures NewEntry(feedID, rd, r).author == Person(r.owner)
  {
  }

  /** The entry loop: one entry per release, in the releases' order. */
  method BuildEntries(feedID: string, rd: Renderer, releases: seq<Release>) returns (entries: seq<Entry>)
    ensures |entries| == |releases|
    ensures forall i :: 0 <= i < |releases| ==> entries[i] == NewEntry(feedID, rd, releases[i])
  {
    entries := [];
    for i := 0 to |releases|
      invariant |entries| == i
      invariant forall k :: 0 <= k < i ==> entries[k] == NewEntry(feedID, rd, releases[k])
    {
      var entry := NewEntry(feedID, rd, releases[i]);
      entries := entries + [entry];
    }
  }

  /**
   * Sorting the collected releases newest first and making an entry of each:
   * the entries are those of the releases, newest first.
   */
  method SortedEntries(feedID: string, rd: Renderer, releases: seq<Release>) returns (entries: seq<Entry>)
    ensures multiset(entries) == multiset(MapSeq(EntryOf(feedID, rd), releases))
    ensures NewestEntriesFirst(entries)
  {
    var a := new Release[|releases|](i requires 0 <= i < |releases| => releases[i]);
    assert a[..] == releases;
    Sort(a);
    var sorted := a[..];
    SortedIsNewestFirst(sorted);
    entries := BuildEntries(feedID, rd, sorted);
    MapSeqPointwise(EntryOf(feedID, rd), sorted, entries);
    MapSeqPermutation(EntryOf(feedID, rd), sorted, releases);
  }

  /**
   * `Feed.BuildFeed`: the starred listing's error; or the combined error of
   * every repository whose release listing failed; or the feed document
   * holding one entry per collected release, newest first.
   */
  method BuildFeed(feedID: string, user: string, now: int, rd: Renderer, up: Upstream)
    returns (feed: Result<Feed, Error>)
    requires Terminates(up)
    ensures Paginate(up.starred).Failure? ==> feed == Failure(Paginate(up.starred).error)
    ensures Paginate(up.starred).Success? && |Failures(Paginate(up.starred).value, up.releases)| != 0 ==>
      feed.Failure? && feed.error.Combined?
      && multiset(feed.error.errors) == multiset(Failures(Paginate(up.starred).value, up.releases))
    ensures Gathered(up).Success? ==>
      && feed.Success?
      && feed.value == FeedDocument(feedID, user, now, feed.value.entries)
      && multiset(feed.value.entries) == multiset(MapSeq(EntryOf(feedID, rd), Gathered(up).value))
      && NewestEntriesFirst(feed.value.entries)
  {
    var repos, _ := Client.GetStarredRepositories(user, up.starred);
    if repos.Failure? {
      return Failure(repos.error);
    }
    var releases, errors := FanOut(repos.value, up.releases);
    if |errors| != 0 {
      return Failure(Combined(errors));
    }
    assert |multiset(Failures(repos.value, up.releases))| == 0;
    assert Gathered(up).value == Collected(repos.value, up.releases);
    var entries := SortedEntries(feedID, rd, releases);
    MapSeqPermutation(EntryOf(feedID, rd), releases, Gathered(up).value);
    return Success(FeedDocument(feedID, user, now, entries));
  }
}
