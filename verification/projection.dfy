/**
 * The Atom values `BuildFeed` fills in (from `golang.org/x/tools/blog/atom`)
 * and the parts of an entry and of the feed that both copies of the pipeline
 * build the same way: identifiers, titles and the feed document.
 */
module Projection {
  import opened Wrappers
  import opened Decimal

  datatype Link = Link(rel: string, href: string)
  datatype Person = Person(name: string)
  datatype Text = Text(kind: string, body: string)

  /** `atom.Entry`; times are the integer instants of the releases. */
  datatype Entry = Entry(
    title: string,
    id: string,
    updated: int,
    published: int,
    author: Person,
    links: seq<Link>,
    content: Text)

  /** `atom.Feed`. */
  datatype Feed = Feed(title: string, id: string, updated: int, entries: seq<Entry>, links: seq<Link>)

  /** Publication times never increase along the entries. */
  predicate NewestEntriesFirst(entries: seq<Entry>) {
    forall i, j :: 0 <= i < j < |entries| ==> entries[i].published >= entries[j].published
  }

  const FEED_TITLE_PREFIX := "Starred Github Releases for "

  /** An entry's identifier: the feed identifier, a slash and the release's decimal id. */
  function EntryId(feedID: string, id: int): string {
    feedID + "/" + Itoa(id)
  }

  /** Reads the release id back from an entry identifier of the feed `feedID`. */
  function ParseEntryId(feedID: string, entryId: string): Option<int> {
    if |entryId| > |feedID| && entryId[..|feedID| + 1] == feedID + "/" then ParseInt(entryId[|feedID| + 1..])
    else None
  }

  /** The release id an entry identifier ends with can be read back, so distinct ids give distinct identifiers. */
  lemma EntryIdRoundTrip(feedID: string, id: int)
    ensures ParseEntryId(feedID, EntryId(feedID, id)) == Some(id)
  {
    var e := EntryId(feedID, id);
    assert e[..|feedID| + 1] == feedID + "/";
    assert e[|feedID| + 1..] == Itoa(id);
    ItoaRoundTrip(id);
  }

  /** An entry's title: `[owner/repository] name (tag)`. */
  function EntryTitle(owner: string, repository: string, name: string, tag: string): string {
    "[" + owner + "/" + repository + "] " + name + " (" + tag + ")"
  }

  /** The position of the first `c` in `s`, or `|s|` when there is none. */
  function IndexOf(s: string, c: char): (i: nat)
    ensures i <= |s|
    ensures i < |s| ==> s[i] == c
    ensures forall j :: 0 <= j < i ==> s[j] != c
    decreases |s|
  {
    if s == [] then 0 else if s[0] == c then 0 else 1 + IndexOf(s[1..], c)
  }

  /** Reads the owner and repository back from the bracketed head of an entry title. */
  function TitleRepository(title: string): Option<(string, string)> {
    if |title| == 0 || title[0] != '[' then None
    else
      var close := IndexOf(title, ']');
      if close == |title| then None
      else
        var inner := title[1..close];
        var slash := IndexOf(inner, '/');
        if slash == |inner| then None else Some((inner[..slash], inner[slash + 1..]))
  }

  /**
   * An entry title names its repository: when neither the owner nor the
   * repository name contains `]` and the owner contains no `/` (platform
   * logins and repository names never do), the title gives both back.
   */
  lemma EntryTitleNamesRepository(owner: string, repository: string, name: string, tag: string)
    requires ']' !in owner && ']' !in repository && '/' !in owner
    ensures TitleRepository(EntryTitle(owner, repository, name, tag)) == Some((owner, repository))
  {
    var t := EntryTitle(owner, repository, name, tag);
    var close := 2 + |owner| + |repository|;
    assert t[..close] == "[" + owner + "/" + repository;
    assert t[close] == ']';
    assert forall j :: 0 <= j < close ==> t[j] != ']' by {
      forall j | 0 <= j < close ensures t[j] != ']' {
        assert t[j] == t[..close][j];
        if 1 <= j < 1 + |owner| {
          assert t[j] == owner[j - 1];
        } else if 2 + |owner| <= j {
          assert t[j] == repository[j - 2 - |owner|];
        }
      }
    }
    assert IndexOf(t, ']') == close;
    var inner := t[1..close];
    assert inner == owner + "/" + repository;
    assert inner[|owner|] == '/';
    assert forall j :: 0 <= j < |owner| ==> inner[j] == owner[j] && owner[j] in owner;
    assert IndexOf(inner, '/') == |owner|;
    assert inner[..|owner|] == owner && inner[|owner| + 1..] == repository;
  }

  /** The feed's title: the fixed prefix, then the user. */
  function FeedTitle(user: string): (title: string)
    ensures |title| == |FEED_TITLE_PREFIX| + |user|
    ensures title[..|FEED_TITLE_PREFIX|] == FEED_TITLE_PREFIX
    ensures title[|FEED_TITLE_PREFIX|..] == user
  {
    FEED_TITLE_PREFIX + user
  }

  /** The feed document: its identifier and self-link are both `feedID`, its title names the user. */
  function FeedDocument(feedID: string, user: string, now: int, entries: seq<Entry>): (f: Feed)
    ensures f.id == feedID && f.links == [Link("self", feedID)]
    ensures f.title == FEED_TITLE_PREFIX + user
    ensures f.updated == now && f.entries == entries
  {
    Feed(FeedTitle(user), feedID, now, entries, [Link("self", feedID)])
  }
}
