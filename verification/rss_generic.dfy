/**
 * The legacy feed parser (`src/ingest/parsers/rss_generic.py`): one `Regulation` per feed entry,
 * with the title, link and summary defaulted and the summary cut to 8000 characters.
 *
 * The feed parser's entries come in as `Records.Entry` values; `dateparser` and pydantic's URL
 * check are parameters.
 */
module RssGeneric {
  import opened Wrappers
  import opened Text
  import opened Seqs
  import opened Records
  import opened Legacy

  /** The link every entry without one is given. */
  const PlaceholderUrl := "https://example.com/empty"

  /** The most summary characters kept. */
  const MaxSummaryChars := 8000

  /** The arguments of `parse_rss` that shape every item. */
  datatype Feed = Feed(country: string, authority: string, docType: string, status: string, topics: Option<seq<string>>)

  /** `(entry.get('link') or '').strip()` followed by `link or 'https://example.com/empty'`. */
  function EntryLink(e: Entry): (link: string)
    ensures Strip(OrEmpty(e.link)) != "" ==> link == Strip(OrEmpty(e.link))
    ensures Strip(OrEmpty(e.link)) == "" ==> link == PlaceholderUrl
  {
    var l := Strip(OrEmpty(e.link));
    if l == "" then PlaceholderUrl else l
  }

  /** The summary text, from `summary`, else `description`, stripped; cut to 8000 characters, and
      `None` when empty. */
  function EntrySummary(e: Entry): (s: Option<string>)
    ensures var full := Strip(OrEmpty(OrElse(e.summary, e.description)));
      && (s.None? <==> full == "")
      && (s.Some? ==> s.value != "" && !IsSpace(s.value[0]) && |s.value| <= MaxSummaryChars && s.value <= full)
      && (s.Some? && |full| <= MaxSummaryChars ==> s.value == full)
  {
    var full := Strip(OrEmpty(OrElse(e.summary, e.description)));
    if full == "" then None else Some(Take(full, MaxSummaryChars))
  }

  /** `entry.get('published') or entry.get('updated')`, parsed when it is a non-empty string. */
  function EntryDate(e: Entry, parseDate: string -> Option<string>): Option<string> {
    var published := OrElse(e.published, e.updated);
    if Truthy(published) then parseDate(published.value) else None
  }

  /** The record `parse_rss` builds for one entry. */
  function EntryItem(feed: Feed, e: Entry, parseDate: string -> Option<string>): Regulation {
    Regulation(
      country := feed.country,
      authority := feed.authority,
      title := DefaultTitle(e.title),
      url := EntryLink(e),
      docType := Some(feed.docType),
      status := Some(feed.status),
      topics := TopicsOrEmpty(feed.topics),
      publishDate := EntryDate(e, parseDate),
      effectiveDate := None,
      summary := EntrySummary(e),
      rawText := None,
      impactLevel := None,
      source := Some("rss:" + feed.authority))
  }

  /** `EntryItem` for a fixed feed. */
  function ItemOf(feed: Feed, parseDate: string -> Option<string>): Entry -> Regulation {
    e => EntryItem(feed, e, parseDate)
  }

  /** The records of all entries, in feed order, with no cap on their number. */
  function FeedItems(feed: Feed, entries: seq<Entry>, parseDate: string -> Option<string>): (r: seq<Regulation>)
    ensures |r| == |entries|
  {
    MapAll(entries, ItemOf(feed, parseDate))
  }

  /** The validation error for an entry whose link pydantic rejects as an http(s) URL. */
  function LinkCheck(httpUrl: string -> bool): Entry -> Option<string> {
    e => if httpUrl(EntryLink(e)) then None else Some(InvalidUrl)
  }

  /** Every entry's link passes pydantic's URL check. */
  predicate AllLinksValid(entries: seq<Entry>, httpUrl: string -> bool) {
    forall i :: 0 <= i < |entries| ==> httpUrl(EntryLink(entries[i]))
  }

  /** The message of the validation error for a rejected link. */
  const InvalidUrl := "url: Input should be a valid URL"

  /** `parse_rss` over the feed's entries: the loop builds one record per entry, in order; building
      the record of an entry whose link is not an http(s) URL raises and ends the parse. */
  method ParseRss(feed: Feed, entries: seq<Entry>, parseDate: string -> Option<string>, httpUrl: string -> bool)
    returns (r: Result<seq<Regulation>>)
    ensures r.Ok? <==> AllLinksValid(entries, httpUrl)
    ensures r.Ok? ==> r.value == FeedItems(feed, entries, parseDate)
    ensures r.Err? ==> r.message == InvalidUrl
  {
    r := MapChecked(entries, LinkCheck(httpUrl), ItemOf(feed, parseDate));
    assert AllLinksValid(entries, httpUrl) <==> forall i :: 0 <= i < |entries| ==> LinkCheck(httpUrl)(entries[i]).None?;
  }

  /** Each record belongs to its entry: a non-empty title, the entry's link or the placeholder, the
      `rss:` source tag, the default topics, and the date parsed from `published`, else from
      `updated`, else none. */
  lemma FeedItemsShape(feed: Feed, entries: seq<Entry>, parseDate: string -> Option<string>, i: nat)
    requires i < |entries|
    ensures FeedItems(feed, entries, parseDate)[i].title != ""
    ensures FeedItems(feed, entries, parseDate)[i].url == EntryLink(entries[i])
    ensures FeedItems(feed, entries, parseDate)[i].summary == EntrySummary(entries[i])
    ensures FeedItems(feed, entries, parseDate)[i].source == Some("rss:" + feed.authority)
    ensures FeedItems(feed, entries, parseDate)[i].topics == TopicsOrEmpty(feed.topics)
    ensures FeedItems(feed, entries, parseDate)[i].publishDate ==
      if Truthy(entries[i].published) then parseDate(entries[i].published.value)
      else if Truthy(entries[i].updated) then parseDate(entries[i].updated.value)
      else None
  {
    assert FeedItems(feed, entries, parseDate)[i] == EntryItem(feed, entries[i], parseDate);
    EntryItemShape(feed, entries[i], parseDate);
  }

  lemma EntryItemShape(feed: Feed, e: Entry, parseDate: string -> Option<string>)
    ensures EntryItem(feed, e, parseDate).title != ""
    ensures EntryItem(feed, e, parseDate).publishDate ==
      if Truthy(e.published) then parseDate(e.published.value)
      else if Truthy(e.updated) then parseDate(e.updated.value)
      else None
  {
  }

  /** All entries without a link get the same URL, so in one upsert on `url` they collide. */
  lemma LinklessEntriesCollide(feed: Feed, entries: seq<Entry>, parseDate: string -> Option<string>, i: nat, j: nat)
    requires i < j < |entries|
    requires Strip(OrEmpty(entries[i].link)) == "" && Strip(OrEmpty(entries[j].link)) == ""
    ensures FeedItems(feed, entries, parseDate)[i].url == FeedItems(feed, entries, parseDate)[j].url == PlaceholderUrl
  {
  }

  /** `run`: parse the feed, then upsert the records; a feed without entries never reaches the
      store. */
  method Run(feed: Feed, entries: seq<Entry>, parseDate: string -> Option<string>, httpUrl: string -> bool,
             store: seq<Regulation> -> Result<seq<Regulation>>)
    returns (r: Result<nat>)
    ensures !AllLinksValid(entries, httpUrl) ==> r == Err(InvalidUrl)
    ensures AllLinksValid(entries, httpUrl) ==> r == UpsertItems(FeedItems(feed, entries, parseDate), store)
    ensures entries == [] ==> r == Ok(0)
  {
    var items := ParseRss(feed, entries, parseDate, httpUrl);
    if items.Err? {
      return Err(items.message);
    }
    r := UpsertItems(items.value, store);
  }
}
