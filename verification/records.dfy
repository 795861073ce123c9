/**
 * The records the crawler passes around as dictionaries. A key that is absent and a key whose value
 * is `None` read the same through `.get`, so both are `None` here.
 */
module Records {
  import opened Wrappers

  /** A row of the `coverage` table: one source to crawl. `hasRss` is the truthiness of `has_rss`. */
  datatype Source = Source(
    country: Option<string>,
    authority: Option<string>,
    sourceUrl: Option<string>,
    format: Option<string>,
    hasRss: bool,
    rssUrl: Option<string>)

  /** An item a collector emits. `sourceType` is the `ingest_source_type` key; `pdfSourceType` is the
      differently spelt `_ingest_source_type` key that the PDF placeholder writes instead. */
  datatype Item = Item(
    country: string,
    authority: Option<string>,
    sourceUrl: Option<string>,
    sourceType: Option<string>,
    pdfSourceType: Option<string>,
    title: Option<string>,
    docUrl: Option<string>,
    publishedAt: Option<string>,
    summary: Option<string>,
    createdAt: Option<string>,
    rawMeta: seq<(string, string)>)

  /** An `<a>` element: its `href` attribute, if any, and its text with whitespace stripped. */
  datatype Anchor = Anchor(href: Option<string>, text: string)

  /** A feed entry as the feed parser exposes it. */
  datatype Entry = Entry(
    title: Option<string>,
    link: Option<string>,
    published: Option<string>,
    updated: Option<string>,
    summary: Option<string>,
    description: Option<string>)
}
