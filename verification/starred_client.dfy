/**
 * The command's own copy of the pipeline (`starredClient.BuildFeed`): each
 * entry is authored by the repository owner and holds the release body,
 * HTML-escaped, inside a `pre` element. The body is dereferenced without a
 * nil check, so a feed can only be built when every collected release has one.
 */
module StarredClient {
  import opened Wrappers
  import opened Github
  import opened Paging
  import opened Aggregation
  import opened Ordering
  import opened Html
  import opened Projection
  import opened Seqs
  import Client

  /** An entry's content: the escaped body between `<pre>` and `</pre>`; the body cannot open or close a tag of its own. */
  function PreContent(body: string): (c: string)
    ensures |c| >= 11 && c[..5] == "<pre>" && c[|c| - 6..] == "</pre>"
    ensures forall i :: 0 <= i < |c| && c[i] == '<' ==> i == 0 || i == |c| - 6
    ensures forall i :: 0 <= i < |c| && c[i] == '>' ==> i == 4 || i == |c| - 1
  {
    var esc := EscapeString(body);
    var c := "<pre>" + esc + "</pre>";
    assert forall i :: 5 <= i < |c| - 6 ==> c[i] == esc[i - 5] && esc[i - 5] in esc;
    c
  }

  /** The markup around the body can be stripped and the escaping undone to give the body back. */
  lemma PreContentRoundTrip(body: string)
    ensures var c := PreContent(body); Unescape(c[5..|c| - 6]) == body
  {
    var c := PreContent(body);
    assert c[5..|c| - 6] == EscapeString(body);
    EscapeRoundTrip(body);
  }

  /**
   * The entry made for one release: its title names the repository, the
   * release name and the tag; its identifier is the release id under the
   * feed identifier; both its times are the release's publication time; its author is the
   * repository owner; its one link is the release page; its content is the body.
   */
  function NewEntry(feedID: string, r: Release): (e: Entry)
    requires r.release.body.Some?
    ensures e.title == EntryTitle(r.owner, r.repository, r.release.name, r.release.tagName)
    ensures e.id == EntryId(feedID, r.release.id)
    ensures e.updated == r.release.publishedAt && e.published == r.release.publishedAt
    ensures e.author == Person(r.owner)
    ensures e.links == [Link("alternate", r.release.htmlUrl)]
    ensures e.content == Text("html", PreContent(r.release.body.value))
  {
    var rr := r.release;
    Entry(
      EntryTitle(r.owner, r.repository, rr.name, rr.tagName),
      EntryId(feedID, rr.id),
      rr.publishedAt,
      rr.publishedAt,
      Person(r.owner),
      [Link("alternate", rr.htmlUrl)],
      Text("html", PreContent(rr.body.value)))
  }

  /**
   * An entry names its release: the release id reads back from the entry's
   * identifier, and the repository from its title (when neither the owner nor
   * the repository name holds `]` and the owner holds no `/`).
   */
  lemma EntryNamesRelease(feedID: string, r: Release)
    requires r.release.body.Some?
    ensures ParseEntryId(feedID, NewEntry(feedID, r).id) == Some(r.release.id)
    ensures ']' !in r.owner && ']' !in r.repository && '/' !in r.owner ==>
      TitleRepository(NewEntry(feedID, r).title) == Some((r.owner, r.repository))
  {
    EntryIdRoundTrip(feedID, r.release.id);
    if ']' !in r.owner && ']' !in r.repository && '/' !in r.owner {
      EntryTitleNamesRepository(r.owner, r.repository, r.release.name, r.release.tagName);
    }
  }

  /** `NewEntry` for the feed `feedID`, as a function of the release alone. */
  function EntryOf(feedID: string): Release --> Entry {
    (r: Release) requires r.release.body.Some? => NewEntry(feedID, r)
  }

  /** Every release in `releases` has a body to dereference. */
  predicate HasBodies(releases: seq<Release>) {
    forall i :: 0 <= i < |releases| ==> releases[i].release.body.Some?
  }

  /**
   * What the pipeline needs to get past the entry loop: when the aggregation
   * succeeds, every release it collects has a body.
   */
  predicate BodiesPresent(up: Upstream)
    requires Terminates(up)
  {
    Gathered(up).Success? ==> HasBodies(Gathered(up).value)
  }

  /** Rearranging releases that all have bodies gives releases that all have bodies. */
  lemma PermutationKeepsBodies(releases: seq<Release>, rearranged: seq<Release>)
    requires HasBodies(releases) && multiset(rearranged) == multiset(releases)
    ensures HasBodies(rearranged)
  {
    forall i | 0 <= i < |rearranged| ensures rearranged[i].release.body.Some? {
      assert rearranged[i] in multiset(releases);
    }
  }

  /** The entry loop: one entry per release, in the releases' order. */
  method BuildEntries(feedID: string, releases: seq<Release>) returns (entries: seq<Entry>)
    requires HasBodies(releases)
    ensures |entries| == |releases|
    ensures forall i :: 0 <= i < |releases| ==> entries[i] == NewEntry(feedID, releases[i])
  {
    entries := [];
    for i := 0 to |releases|
      invariant |entries| == i
      invariant forall k :: 0 <= k < i ==> entries[k] == NewEntry(feedID, releases[k])
    {
      var entry := NewEntry(feedID, releases[i]);
      entries := entries + [entry];
    }
  }

  /**
   * Sorting the collected releases newest first and making an entry of each:
   * the entries are those of the releases, newest first.
   */
  method SortedEntries(feedID: string, releases: seq<Release>) returns (entries: seq<Entry>)
    requires HasBodies(releases)
    ensures multiset(entries) == multiset(MapSeq(EntryOf(feedID), releases))
    ensures NewestEntriesFirst(entries)
  {
    var a := new Release[|releases|](i requires 0 <= i < |releases| => releases[i]);
    assert a[..] == releases;
    Sort(a);
    var sorted := a[..];
    SortedIsNewestFirst(sorted);
    PermutationKeepsBodies(releases, sorted);
    entries := BuildEntries(feedID, sorted);
    MapSeqPointwise(EntryOf(feedID), sorted, entries);
    MapSeqPermutation(EntryOf(feedID), sorted, releases);
  }

  /**
   * `starredClient.BuildFeed`: the starred listing's error; or the combined
   * error of every repository whose release listing failed; or the feed
   * document holding one entry per collected release, newest first.
   */
  method BuildFeed(feedID: string, user: string, now: int, up: Upstream) returns (feed: Result<Feed, Error>)
    requires Terminates(up)
    requires BodiesPresent(up)
    ensures Paginate(up.starred).Failure? ==> feed == Failure(Paginate(up.starred).error)
    ensures Paginate(up.starred).Success? && |Failures(Paginate(up.starred).value, up.releases)| != 0 ==>
      feed.Failure? && feed.error.Combined?
      && multiset(feed.error.errors) == multiset(Failures(Paginate(up.starred).value, up.releases))
    ensures Gathered(up).Success? ==>
      && feed.Success?
      && feed.value == FeedDocument(feedID, user, now, feed.value.entries)
      && multiset(feed.value.entries) == multiset(MapSeq(EntryOf(feedID), Gathered(up).value))
      && NewestEntriesFirst(feed.value.entries)
  {
    var repos, _ := Client.GetStarredRepositories(user, up.starred);
    if repos.Failure? {
      return Failure(repos.error);
    }
    var releases, errors := FanOut(repos.value, up.releases);
    if |errors| != 0 {
      return Failure(Combined(errors));
    }
    assert |multiset(Failures(repos.value, up.releases))| == 0;
    assert Gathered(up).value == Collected(repos.value, up.releases);
    PermutationKeepsBodies(Gathered(up).value, releases);
    var entries := SortedEntries(feedID, releases);
    MapSeqPermutation(EntryOf(feedID), releases, Gathered(up).value);
    return Success(FeedDocument(feedID, user, now, entries));
  }
}
