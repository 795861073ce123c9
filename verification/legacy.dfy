/**
 * What the two legacy parsers (`src/ingest/parsers/html_list.py` and
 * `src/ingest/parsers/rss_generic.py`) share: the `Regulation` record of `src/common/types.py`,
 * the title default and the batch upsert, which both files define identically.
 */
module Legacy {
  import opened Wrappers
  import opened Text

  /** The `Regulation` record as `model_dump()` returns it. Pydantic's `HttpUrl` check is the
      `httpUrl` parameter of the parsers; `url` holds the string that passed it. */
  datatype Regulation = Regulation(
    country: string,
    authority: string,
    title: string,
    url: string,
    docType: Option<string>,
    status: Option<string>,
    topics: seq<string>,
    publishDate: Option<string>,
    effectiveDate: Option<string>,
    summary: Option<string>,
    rawText: Option<string>,
    impactLevel: Option<int>,
    source: Option<string>)

  /** `(raw or '').strip()` followed by `title or 'Untitled'`: the stripped title, or `Untitled`
      when nothing is left. */
  function DefaultTitle(raw: Option<string>): (t: string)
    ensures t != "" && !IsSpace(t[0]) && !IsSpace(t[|t| - 1])
    ensures Strip(OrEmpty(raw)) != "" ==> t == Strip(OrEmpty(raw))
    ensures Strip(OrEmpty(raw)) == "" ==> t == "Untitled"
  {
    var s := Strip(OrEmpty(raw));
    if s == "" then "Untitled" else s
  }

  /** `default_topics or []`. */
  function TopicsOrEmpty(topics: Option<seq<string>>): (r: seq<string>)
    ensures topics.Some? ==> r == topics.value
    ensures topics.None? ==> r == []
  {
    if topics.Some? then topics.value else []
  }

  /** `upsert_items`: an empty batch gives 0 and never reaches the store; otherwise the store's
      exception propagates, or the number of rows it returns is the result. `store` stands for the
      `regulations` upsert on `url`; what it does with two rows of the same `url` is its own
      business. */
  function UpsertItems(items: seq<Regulation>, store: seq<Regulation> -> Result<seq<Regulation>>): (r: Result<nat>)
    ensures items == [] ==> r == Ok(0)
    ensures items != [] ==> (r.Err? <==> store(items).Err?)
    ensures items != [] && r.Ok? ==> r.value == |store(items).value|
  {
    if items == [] then Ok(0)
    else
      var res := store(items);
      if res.Err? then Err(res.message) else Ok(|res.value|)
  }
}
