# reg-radar in Dafny

reg-radar is a crawler and enrichment pipeline for GCC policy and regulatory documents. This
project models its core and proves properties of that model:

- **Crawler** (`pipeline.py`). `candidate_urls` builds the `https` variants of a source URL,
  with and without `www.`, plus the per-domain path overrides. `fetch_first_ok` is the retry
  loop. `want_link_for_domain` is the per-domain link filter. `collect_html_async` harvests
  links from the first page that answers, up to 50 documents. Also modelled: the RSS collector,
  the PDF placeholder and the dry-run preview of `save_items`.
- **Ingestion writer** (`run_save.py`). `normalize_url` is the canonical document key.
  `save_items` builds one row per item and upserts the rows into `ingest_items`, keyed on
  `doc_url`.
- **Health check** (`alerts.py`). It covers the required environment, `parse_overrides`, and
  the grouping of `ingest_items` rows by source, where the newest row wins. A source is silent
  when its last item is older than its threshold. The module also builds the mail subject and
  body.
- **Enrichment** (`enrich.py`). It covers text cleaning and Postgres sanitising, and the
  English-only topic normalisation (the Spanish-marker test, the dedup, the translation
  fallbacks). The per-item loop picks the item's URL, fetches the page, calls the language
  model, stores the `regulations` row and counts successes and failures.
- **CSV dump** (`run_dump.py`). It covers which collectors run for which source under `--only`,
  the cleaning of every cell, and the header and one row per item.
- **Legacy parsers** (`src/ingest/parsers/html_list.py`, `src/ingest/parsers/rss_generic.py`).
  They produce one `Regulation` per list node or feed entry, then upsert on `url`.

Python's strings are `seq<char>`. `str.strip`, `str.split()` and `\s` use the `str.isspace` set
(`Text.IsSpace`). `lower()` and `upper()` are ASCII-only. Timestamps are whole seconds.

Whatever the program gets from outside becomes a parameter of the model:

- the HTTP client, the HTML and feed parsers;
- `urljoin`, `dateparser`, pydantic's `HttpUrl` check, `safe_url`, `_ascii_lower`, `fromisoformat`;
- the OpenAI replies and the database calls.

So every contract holds whatever those do. `urllib.parse.urlparse` is modelled concretely
(`UrlSplit`).

Where the design notes and the code disagree, the model follows the code:

- `normalize_url` does not lower-case the host, so `EXAMPLE.com/a/` and `example.com/a` get
  different keys.
- `normalize_url` is not idempotent on every input. `RunSave.NormalizeIdempotent` names the two
  exceptions: a result that ends in white space, and `https://www.www.x`.
- The PDF placeholder writes its type under `_ingest_source_type`. So `run_save` stores it as
  `html`, and the dump's `ingest_source_type` cell for it is blank
  (`RunDump.PlaceholderTypeBlank`).
- The design promises that every candidate URL starts with `https://`. That fails for a host
  that is blank apart from a `www.`: a base URL of `" "` gives `https:/` and `https://www./`.
  `PipelineUrls.CandidateShape` states the promise for every other host.
- A trailing slash does not always leave the key alone: `http:/` keys as `http:`, while
  `http://` keys as `https:` (`RunSave.SlashCompletesScheme`).
- The Spanish marker `ods` also matches English words such as "goods"
  (`Enrich.GoodsLooksSpanish`). The accented markers can never match after `_ascii_lower` has
  folded the text.

Modules: `Wrappers`, `Text`, `Parts`, `Numerals`, `Seqs` and `OrderedMaps` are the Python
built-ins the code leans on. `UrlSplit` is `urlparse`. `Records` holds the crawler's
dictionaries. `PipelineUrls` and `Collectors` model `pipeline.py`, `RunSave` models
`run_save.py`, and `Overrides` and `Alerts` model `alerts.py`. `Enrich` models `enrich.py` and
`RunDump` models `run_dump.py`. `Legacy`, `HtmlList` and `RssGeneric` model the legacy parsers.

## Model

| member | source | states |
|---|---|---|
| Wrappers.OrEmpty | run_save.py:17 | `x or ""` on an optional string: the value when present, else the empty string |
| Wrappers.OrElse | pipeline.py:151 | `a or b`: `a` when it is a non-empty string, otherwise `b` |
| Numerals.ParseShowInt | alerts.py:55 | `int()` reads back every integer the report renders: parsing the decimal rendering of `n` gives `n` |
| Numerals.ShowNatValue | alerts.py:55 | the decimal rendering of a natural is a digit run whose value is that natural |
| Numerals.ParseInt | alerts.py:55 | `int(v.strip())` accepts exactly a digit run with an optional leading `+` or `-`, and gives the run's value, negated after `-`; the empty string is rejected |
| Parts.JoinSplit | alerts.py:48 | `s.split(",")` loses nothing: joining the pieces with the separator gives `s` back |
| Parts.SplitJoin | alerts.py:48 | splitting a join of separator-free pieces gives the pieces back |
| Parts.SplitFirst | alerts.py:52 | `p.split("=", 1)`: the part before the first `=` has no `=`, and key, `=` and value rebuild `p` |
| Text.JoinWordsSingleSpaced | run_dump.py:29 | `" ".join(words)` is single-spaced, and empty exactly when there are no words |
| Text.SplitJoinWords | run_dump.py:29 | `split()` of a single-spaced join of words gives the words back |
| Text.CollapseIsJoinedWords | enrich.py:52 | `re.sub(r"\s+", " ", t)` on text without leading white space is the words joined by single spaces, plus one space when `t` ends in white space |
| Seqs.FilterMapSound | run_save.py:16-29 | every row the build loop keeps comes from some item |
| Seqs.FilterMapComplete | run_save.py:16-29 | every item that yields a row has its row kept; there are no rows exactly when no item yields one |
| Seqs.FilterMapOrder | run_save.py:16-29 | rows keep the order of their items |
| Seqs.FirstError | src/ingest/parsers/html_list.py:31-61 | the error a loop that raises on its first bad input ends with: none exactly when every input passes, otherwise the error of an input all of whose predecessors pass |
| Seqs.MapChecked | src/ingest/parsers/html_list.py:31-61 | a loop that builds one value per input and raises on the first bad input: it succeeds exactly when every input is good, then gives all values in input order; otherwise it raises that first error |
| OrderedMaps.Put | alerts.py:55 | `d[k] = v`: the value is replaced; a new key goes last, an existing key keeps its place |
| OrderedMaps.PutAllKeys | alerts.py:49-57 | after a run of assignments the keys are the old keys plus every assigned key |
| OrderedMaps.PutAllLastWins | alerts.py:55 | a key assigned several times keeps its last value |
| OrderedMaps.PutAllItems | alerts.py:225 | replaying a dict's items in order rebuilds the same dict |
| OrderedMaps.KeepFirstSpec | alerts.py:112-126 | a skip-if-present insertion loop: the keys are exactly those some element yields, and each key holds the value of its first such element |
| OrderedMaps.KeepFirstOrder | alerts.py:112-126 | keys appear in the order of their first occurrence |
| UrlSplit.UrlParse | pipeline.py:74-76 | `urlparse`: the `netloc` never holds `/`, `?` or `#`, and the path never holds `?` or `#` |
| UrlSplit.StripC0 | pipeline.py:74 | `urlparse` drops leading C0 controls and spaces and nothing else |
| UrlSplit.RemoveUnsafe | pipeline.py:74 | `urlparse` removes tab, CR and LF, and leaves other text alone |
| UrlSplit.ParseIgnoresSuffix | pipeline.py:33-56 | appending a query or a fragment to a URL that has neither leaves whether `urlparse` raises, and the scheme, netloc and path, unchanged |
| UrlSplit.BracketHostRaises | enrich.py:66 | `urlsplit` raises for an `http://` URL whose authority opens a `[` and never closes it |
| PipelineUrls.HttpsLooksLikeHttp | pipeline.py:46-50 | every `https://` URL passes `looks_like_http` |
| PipelineUrls.PdfIgnoresQuery | pipeline.py:33-56 | `is_pdf_url` and `domain_of` give the same answer for a URL with or without a query or fragment appended |
| PipelineUrls.DomainOf | pipeline.py:52-56 | `domain_of` never contains `/`, `?` or `#`, and is empty when `urlparse` raises |
| PipelineUrls.NormalizeCountry | pipeline.py:40-44 | the stripped country, or `UAE` when that is empty; never empty |
| PipelineUrls.WantLinkForDomain | pipeline.py:177-203 | a PDF link is always wanted; otherwise the link is wanted exactly when it holds one of the markers of its domain family (data portal, Hukoomi, default) |
| PipelineUrls.OverrideOtherHosts | pipeline.py:79-84 | hosts other than Hukoomi, MCIT and NCSA keep their path |
| PipelineUrls.OverrideHukoomi | pipeline.py:79-80 | every Hukoomi page is redirected to `/en/policies-and-strategies` |
| PipelineUrls.OverrideMcit | pipeline.py:81-82 | an MCIT `/policies` path without `reports` becomes `/en/policies-and-reports/` |
| PipelineUrls.OverrideNcsa | pipeline.py:83-84 | the NCSA root becomes `/en/` |
| PipelineUrls.BareHost | pipeline.py:90-93 | the host without one leading `www.` is a suffix of the host |
| PipelineUrls.CandidatesTwo | pipeline.py:86-97 | there are always exactly two variants: with and without `www.` |
| PipelineUrls.CandidateShape | pipeline.py:86-97 | every variant has no query or fragment, ends in `/` exactly when the path does (and then in only one), and, for a host that is not blank apart from a `www.`, starts with `https://` |
| PipelineUrls.CandidatesShape | pipeline.py:86-97 | the same for all variants at once, with the same condition on the host |
| PipelineUrls.VariantsAreCandidates | pipeline.py:87-96 | the set built by the source's statements equals the model's two-candidate set |
| PipelineUrls.TargetClean | pipeline.py:70-84 | the host and path the candidates are built from hold no `/` in the host and no `?` or `#` anywhere |
| PipelineUrls.ListOf | pipeline.py:97 | `list(set)`: the list has each element of the set exactly once |
| PipelineUrls.CandidateUrls | pipeline.py:59-97 | an empty URL gives no candidates; a URL `urlparse` rejects raises; otherwise two distinct candidates with the shape above |
| Collectors.Backoff | pipeline.py:171-172 | waits of 1.2 s, 2.4 s, … between passes: the k-th wait is 12(k+1) tenths of a second |
| Collectors.FetchFirstOk | pipeline.py:157-175 | the hit is the first 200 in pass-major, URL-minor order, with every earlier request failing; otherwise every request of every pass failed. Also states the request count and the waits |
| Collectors.DocItemGood | pipeline.py:247-258 | every emitted document has an http(s) `doc_url` wanted by the page's domain, and the `html:pdf-link` type exactly for PDFs |
| Collectors.StepInv | pipeline.py:228-262 | one anchor keeps the harvest invariant: documents are good, `doc_url`s are distinct and seen, and the seen set only grows |
| Collectors.HarvestAllInv | pipeline.py:228-262 | the whole harvest keeps that invariant |
| Collectors.HarvestPrefix | pipeline.py:228-262 | harvesting more anchors only adds documents at the end |
| Collectors.HarvestComplete | pipeline.py:228-262 | every anchor whose resolved link is http(s) and wanted yields a document with that URL |
| Collectors.SeenComplete | pipeline.py:236-241 | every processed anchor whose resolved link is http(s) has that link in the seen set, wanted or not |
| Collectors.NewUrlFirst | pipeline.py:236-241 | an anchor whose resolved link is not yet seen is the first anchor that resolves to that link |
| Collectors.HarvestSound | pipeline.py:228-262 | every harvested document comes from the first anchor that resolves to its `doc_url` (an anchor whose `href` is empty or starts with `#`, `mailto:`, `tel:` or `javascript:` resolves to nothing), and its title is that anchor's text, or the URL when the text is empty, cut to 500 characters |
| Collectors.StepAnchor | pipeline.py:229-260 | one loop iteration computes exactly the specification's step |
| Collectors.CollectAnchors | pipeline.py:225-264 | the loop returns the first 50 documents of the full harvest, with distinct URLs, all good, each from the first anchor that resolves to its URL and titled from it |
| Collectors.StartUrl | pipeline.py:206-208 | the start URL always looks like http(s) |
| Collectors.FetchAndHarvest | pipeline.py:213-264 | no page answering 200 gives no documents; otherwise the page is the first 200 in pass-major, URL-minor order; a page the parser rejects gives none; otherwise its first 50 harvested documents |
| Collectors.CollectHtml | pipeline.py:205-264 | raises exactly when `candidate_urls` raises; otherwise tries the two candidate URLs and harvests the first page that answers 200, as above |
| Collectors.RssItems | pipeline.py:143-154 | one item per entry, in order |
| Collectors.RssLoop | pipeline.py:142-155 | the loop builds exactly those items |
| Collectors.CollectRss | pipeline.py:135-155 | a feed URL that is not http(s) gives nothing; otherwise the items of the first 50 entries |
| Collectors.CollectPdfPlaceholder | pipeline.py:266-280 | one placeholder exactly when the source URL is http(s), titled `PDF from <url>`, typed under the misspelt key only |
| Collectors.PreviewSave | pipeline.py:285-294 | the dry-run preview: nothing for no items; a count line, at most five item lines and an `... y N más` line; it raises at the first previewed item without a title |
| RunSave.SchemeMatch | run_save.py:5 | the `^https?://(www\.)?` match is empty or at least seven characters long |
| RunSave.NormalizeUrl | run_save.py:7-12 | the key never ends in `/`; empty in gives empty out; text without a matching scheme is only stripped and de-slashed |
| RunSave.NormalizeForms | run_save.py:7-12 | `http://`, `https://`, in any case and with or without one `www.`, all give the same `https://` key |
| RunSave.TrailingSlashKeepsKey | run_save.py:7-12 | one more trailing slash on a stripped URL does not change the key, unless that slash completes the `http://` scheme |
| RunSave.SlashCompletesScheme | run_save.py:7-12 | the exception: `http:/` keys as `http:` but `http://` keys as `https:` |
| RunSave.NormalizeIdempotent | run_save.py:7-12 | normalising a key again gives the same key, except for a key ending in white space and `https://www.www.x` |
| RunSave.RowOf | run_save.py:16-29 | an item is dropped exactly when its normalised `doc_url` is empty; a kept row has the normalised `doc_url` (non-empty, no trailing slash) and the normalised `source_url` (empty when missing), the title or `""`, the type or `html`, and the item's country, authority and creation time |
| RunSave.SkippedExactly | run_save.py:17-20 | an item is dropped exactly when its stripped `doc_url` is empty or made only of slashes |
| RunSave.RowsOfSound | run_save.py:16-29 | no more rows than items, each from some item |
| RunSave.RowsOfComplete | run_save.py:16-29 | every item with a usable URL has its row; there are no rows exactly when no item has one |
| RunSave.BuildRows | run_save.py:15-29 | the loop builds exactly those rows |
| RunSave.LastRow | run_save.py:35 | the row that wins for a key is one of the batch rows with that key |
| RunSave.UpsertAllSpec | run_save.py:35 | after the upsert the table holds the old keys plus the batch keys; untouched rows are unchanged; each batch key holds its batch row, keeping `enriched_at` and `regulation_id` |
| RunSave.UpsertTwice | run_save.py:34-35 | the upsert is idempotent: saving the same batch twice leaves the table as saving it once |
| RunSave.IngestTable.Upsert | run_save.py:35 | a batch with distinct keys is applied and returns one row per batch row; a batch repeating a key is refused and leaves the table unchanged |
| RunSave.SaveItems | run_save.py:14-36 | no usable rows gives 0 with no request; otherwise exactly one upsert of the built rows, whose outcome is the result |
| Overrides.OverridesOf | alerts.py:41-58 | the parsed overrides form a valid insertion-ordered dict |
| Overrides.ParseOverrides | alerts.py:41-58 | the loop computes exactly that dict; `None` or empty input gives the empty dict |
| Overrides.OverridesKeys | alerts.py:41-58 | the authorities that get a threshold are exactly the keys of the `k=int` pieces that parse |
| Overrides.OverridesLastWins | alerts.py:48-57 | an authority gets the value of its last piece that parses |
| Overrides.Assignments | alerts.py:225 | one `k=v` string per override, in order |
| Overrides.ParseRender | alerts.py:41-58 | parsing the report's rendering of an overrides dict gives the dict back, for keys without `,`, `=` or surrounding white space |
| Overrides.EntryOfAssignment | alerts.py:50-55 | a `k=d` piece with a stripped key and an integer literal parses to `(k, int(d))` |
| Overrides.OverridesText | alerts.py:225 | `none` when there are no overrides, else the comma-separated assignments |
| Alerts.RequireEnv | alerts.py:25-28 | succeeds exactly when all five variables are set and non-empty; the error lists exactly the missing ones, in order |
| Alerts.MissingExactly | alerts.py:26 | a variable is reported missing exactly when it is required and unset or empty |
| Alerts.Latest | alerts.py:112-126 | the grouping gives a valid insertion-ordered dict |
| Alerts.LatestBySource | alerts.py:112-126 | the loop computes exactly that grouping |
| Alerts.LatestGroups | alerts.py:112-126 | a source is grouped exactly when some usable row names it, and it holds the time of its first usable row |
| Alerts.LatestOrder | alerts.py:112-126 | sources appear in the order of their first usable row |
| Alerts.LatestIsNewest | alerts.py:99-126 | when rows come newest first within each source, the grouped time is the newest for the source |
| Alerts.FlagSilent | alerts.py:129-145 | the loop computes exactly the alerts of the specification |
| Alerts.SilentExactly | alerts.py:130-144 | a grouped source is silent exactly when `last < now - threshold hours` |
| Alerts.AtCutoffNotSilent | alerts.py:134 | a source whose last item is exactly at the cutoff is not silent |
| Alerts.SilentSound | alerts.py:130-144 | every alert is about a grouped source, carries its last time and its threshold, and is older than that threshold |
| Alerts.SilentInOrder | alerts.py:130-145 | alerts come in the grouping's order |
| Alerts.CheckSilentSources | alerts.py:85-145 | grouping then flagging: exactly the silent sources of the rows |
| Alerts.Subject | alerts.py:237-241 | the subject is `[GCC Radar] Health`, then ` [<country>]` exactly when a country filter is set, then the pending, failure and silent counts |
| Alerts.BuildReport | alerts.py:207-241 | the body is the report lines joined by newlines and the subject is as above |
| Alerts.AppendFailures | alerts.py:218-223 | appends the heading and the first ten failures, or nothing when there are none |
| Alerts.AppendSilent | alerts.py:228-234 | appends the heading and the first twenty-five silent sources, or nothing |
| Alerts.ReportBullets | alerts.py:207-234 | the body lists min(failures, 10) plus min(silent sources, 25) bullet lines |
| Alerts.FailureBlockBullets | alerts.py:218-223 | the failure block lists min(failures, 10) bullets |
| Alerts.SilentBlockBullets | alerts.py:228-234 | the silent block lists min(silent sources, 25) bullets |
| Alerts.HeaderNoBullets | alerts.py:208-217 | the header and the count lines hold no bullet |
| Enrich.Unbroken | enrich.py:52 | replacing CR and LF by spaces keeps the length and leaves no CR or LF |
| Enrich.CleanText | enrich.py:49-52 | empty or missing text gives `""`; otherwise the words of the text, joined by single spaces, with no CR or LF |
| Enrich.CollapsedWords | enrich.py:52 | collapsing white-space runs and stripping equals joining the words by single spaces |
| Enrich.CleanTextKeeps | enrich.py:49-52 | single-spaced text is left as it is |
| Enrich.CleanTextFixedPoints | enrich.py:49-52 | `clean_text` leaves a text unchanged exactly when it is single-spaced |
| Enrich.CleanTextIdempotent | enrich.py:49-52 | cleaning twice is cleaning once |
| Enrich.Decontrol | enrich.py:41-59 | each control character of `CONTROL_CHARS_RE` becomes a space and every other character stays |
| Enrich.SanitizePgText | enrich.py:54-60 | `None` stays `None`; otherwise the result holds no CR and no control character, has no surrounding white space and is no longer than the input |
| Enrich.SanitizeFixedPoints | enrich.py:54-60 | sanitising leaves a text unchanged exactly when it is already Postgres-safe |
| Enrich.SanitizeIdempotent | enrich.py:54-60 | sanitising twice is sanitising once |
| Enrich.DedupTopics | enrich.py:144-148 | the seen-set loop computes the folded, order-preserving dedup |
| Enrich.DedupSound | enrich.py:144-148 | the dedup holds no repeats and no empty tag, and each tag is the fold of some input |
| Enrich.DedupComplete | enrich.py:144-148 | every non-empty folded input tag is kept |
| Enrich.DedupOrder | enrich.py:144-148 | tags come in the order of their first occurrence |
| Enrich.GoodsLooksSpanish | enrich.py:124-137 | the marker `ods` makes the English tag `goods` look Spanish |
| Enrich.EnsureTopicsEnglish | enrich.py:139-173 | no topics gives no topics; no Spanish-looking topic gives the dedup without a model call; it fails exactly when the model call raises; an unreadable reply falls back to the folded input |
| Enrich.EnglishTopicsShape | enrich.py:139-173 | the result is the folded input or a repeat-free list of non-empty tags, and is never empty once the model has been asked |
| Enrich.NormaliseTopics | enrich.py:224-229 | `call_openai`'s topic handling: the dedup of the model's tags, then the English pass |
| Enrich.SafeUrl | enrich.py:62-69 | an empty URL is returned as it is; otherwise it raises exactly when `urlsplit` raises, and gives the quoted URL when it does not |
| Enrich.SafeUrlBracket | enrich.py:62-69 | `safe_url` raises for an `http://` URL whose authority opens a `[` and never closes it |
| Enrich.ChosenUrl | enrich.py:296 | the first truthy of `doc_url`, `url`, `source_url`; empty exactly when none is truthy |
| Enrich.LlmText | enrich.py:311 | the model sees at most 12000 characters, a prefix of the page text, and all of a short text |
| Enrich.RequestFor | enrich.py:294-312 | the request carries the title, the safe URL and at most 12000 characters of that URL's page text |
| Enrich.RowFor | enrich.py:294-338 | building the row succeeds exactly when the item has a URL and `safe_url`, `call_openai`, the topic pass and the source's `safe_url` all complete; the row then holds the safe URL twice, the safe source URL, the item's id, country and authority, the sanitised title, summaries and page text, the model's topics, dates, status, type and impact, and the model name |
| Enrich.Process | enrich.py:293-342 | an item without a usable URL fails with `Item sin URL utilizable.`; an item completes exactly when its row is built, the upsert succeeds, it has an id and marking it succeeds, and then it stores exactly the built row |
| Enrich.EnrichItems | enrich.py:291-354 | every item counts once, as ok or as fail; the stored rows are exactly those of the items that succeed, in order |
| Enrich.SavedRowsExactly | enrich.py:291-354 | every item that succeeds has its row stored, and every stored row comes from an item that succeeds |
| Enrich.EnrichRun | enrich.py:279-362 | an empty queue is logged as `empty-queue` with zero counts; otherwise the counts of the item loop, with no note |
| RunDump.OutPath | run_dump.py:20-23 | the given path, or `items_dump_<stamp>_excel.csv` |
| RunDump.CleanField | run_dump.py:25-30 | `None` gives `""`; every cell is single-spaced with no CR or LF |
| RunDump.CleanFieldIsCleanText | run_dump.py:25-30 | the dump's cell cleaning agrees with the enricher's `clean_text` on every input |
| RunDump.CleanFieldIdempotent | run_dump.py:25-30 | cleaning a cell twice is cleaning it once |
| RunDump.RowShape | run_dump.py:95-97 | each of the seven cells is the cleaned field, blank when the key is missing |
| RunDump.UntypedItemBlank | run_dump.py:84-96 | an item without `ingest_source_type` has a blank type cell |
| RunDump.PlaceholderTypeBlank | run_dump.py:96 | the PDF placeholder's type cell is blank, since it writes `_ingest_source_type` |
| RunDump.CsvRecords | run_dump.py:80-98 | the header row is the seven columns, then one row per item, in order |
| RunDump.RunPhase | run_dump.py:51-56 | a phase loop appends the items of each wanted source whose collector does not raise, in source order |
| RunDump.CollectItems | run_dump.py:32-78 | the three phases run in order, each only when `--only` is unset or names it |
| RunDump.CollectedOnly | run_dump.py:38-76 | no sources gives no items; `--only rss`, `html` or `pdf` gives exactly that phase's items |
| RunDump.GatheredSound | run_dump.py:50-76 | every collected item comes from a wanted source whose collector succeeded |
| RunDump.GatheredComplete | run_dump.py:50-76 | every item of a wanted source whose collector succeeded is collected |
| RunDump.PdfPhaseSources | run_dump.py:69-76 | every PDF-phase item is the placeholder of a source whose format names PDF and not HTML and that has no feed, so the RSS and HTML phases never take it |
| Legacy.DefaultTitle | src/ingest/parsers/html_list.py:35-50 | the title is the stripped text, or `Untitled` when nothing is left; never empty, never padded |
| Legacy.TopicsOrEmpty | src/ingest/parsers/rss_generic.py:36 | `default_topics or []` |
| Legacy.UpsertItems | src/ingest/parsers/html_list.py:65-70 | an empty batch gives 0 without reaching the store; otherwise the store's error or its row count |
| HtmlList.ResolveLink | src/ingest/parsers/html_list.py:37 | an `http` link is kept; any other is joined to the page URL |
| HtmlList.ResolveRelative | src/ingest/parsers/html_list.py:37 | a relative link is the page URL and the `href`, joined by exactly one slash |
| HtmlList.MissingLink | src/ingest/parsers/html_list.py:36-37 | a node without a link resolves to the page URL with one trailing slash |
| HtmlList.ResolveAbsolute | src/ingest/parsers/html_list.py:37 | on an `http` page every link starts with `http`, and resolving again changes nothing |
| HtmlList.ListItems | src/ingest/parsers/html_list.py:31-61 | one record per matched node |
| HtmlList.ParseList | src/ingest/parsers/html_list.py:16-63 | succeeds exactly when every node has an `href` value or none and every link passes the URL check, then gives one record per node, in order; otherwise the error of the first node that raises |
| HtmlList.ValuelessHrefRaises | src/ingest/parsers/html_list.py:36-37 | a node with a valueless `href` after nodes that pass ends the parse with the `AttributeError` |
| HtmlList.ListItemsShape | src/ingest/parsers/html_list.py:47-60 | each record has a non-empty title, its node's resolved link and the `html:<authority>` source |
| HtmlList.Run | src/ingest/parsers/html_list.py:72-84 | parse then upsert; the first node that raises ends the run before the store; a page without nodes gives 0 |
| RssGeneric.EntryLink | src/ingest/parsers/rss_generic.py:19-33 | the stripped link, or the placeholder URL when there is none |
| RssGeneric.EntrySummary | src/ingest/parsers/rss_generic.py:20-38 | `summary`, else `description`, stripped: `None` exactly when empty, otherwise a prefix of at most 8000 characters, all of a short text |
| RssGeneric.FeedItems | src/ingest/parsers/rss_generic.py:17-43 | one record per entry |
| RssGeneric.ParseRss | src/ingest/parsers/rss_generic.py:9-44 | succeeds exactly when every link passes the URL check, then gives one record per entry, in order; otherwise the validation error |
| RssGeneric.FeedItemsShape | src/ingest/parsers/rss_generic.py:22-42 | each record has a non-empty title, its entry's link, its entry's summary, the `rss:<authority>` source, the default topics, and the date parsed from `published`, else from `updated`, else none |
| RssGeneric.LinklessEntriesCollide | src/ingest/parsers/rss_generic.py:33 | all linkless entries get the same placeholder URL, so they share one upsert key |
| RssGeneric.Run | src/ingest/parsers/rss_generic.py:53-58 | parse then upsert; a rejected link raises before the store; a feed without entries gives 0 |

## Left out

- Network, database, mail and clock access is left out: the fetches, the Supabase queries, the Mailgun `send_mail` and its dry-run print, and `utcnow`. Their results are inputs of the model.
- `print`/`log` output is left out, including the titles that `parse_list` and `parse_rss` print. Only the dry-run preview lines of `pipeline.save_items` are modelled.
- The page fetch in `parse_list` and the feed fetch in `parse_rss` are left out. The CSS selectors are applied by the caller, and the feed parser's entries are an input.
- `argparse`, `main` orchestration, `asyncio` concurrency and the sleeps are left out. The waits of `fetch_first_ok` are returned, not slept.
- `pipeline.run_pipeline`, `fetch_active_sources` and the `WRITE_TO_DB` insert path are left out. The insert path is unreachable because `WRITE_TO_DB` is the constant `False`.
- The OpenAI prompt text, `build_prompt`, `call_openai`'s JSON validation and the model's answers are left out. They come in as oracles (`Enrich.Services`, `Enrich.TranslationReply`).
- `fetch_html_text`/`fetch_pdf_text` text extraction is left out. It comes in as an oracle; an exception there yields `""`.
- `Enrich.EnrichRun` does not model the `runs_log` insert, the truthiness of `run_id`, the fatal-exception note, or the database state after `upsert_regulation`/`mark_enriched`. Each row's store outcome is an oracle.
- `Enrich.Process` passes `key_dates` through; `openai_model` is the configured model name.
- `Enrich.SafeUrl` uses an oracle for the `quote`/`urlunsplit` result; whether `urlsplit` raises is modelled by `UrlSplit.UrlParse`. `_ascii_lower` (NFKD folding) is the `fold` parameter.
- `Alerts.CheckSilentSources` works in whole seconds. The rounding of `hours_since` to one decimal is done by the `showHours` parameter. Naive datetimes, and `fromisoformat` itself, are left out; the latter is the `parse` parameter.
- `Numerals.ParseInt` accepts only ASCII digits (with `_` separators). Python's `int()` also accepts other Unicode digits.
- `RunDump.CsvRecords` gives the rows as cells. The `;`-delimited `QUOTE_MINIMAL` serialisation and `Path.resolve` are left out.
- `RunDump.CleanField` takes text. `str(val)` of non-string values is left out.
- `RunDump.CollectItems` takes the RSS and HTML collectors as parameters (modelled in `Collectors`). A raising collector is an `Err`.
- `PipelineUrls.CandidateUrls` states the set of candidates and that there are two distinct ones, but not their order. `list(set)` order is unspecified in Python.
- `HtmlList.ParseList` and `RssGeneric.ParseRss` stand for pydantic's `HttpUrl` with a yes/no check. The normalised URL that `model_dump` returns is not modelled. A node without a link element, or whose link element has no `href`, gets `''`; an `href` attribute without a value is the only non-string `href` modelled.
- `Legacy.UpsertItems` takes the `regulations` upsert as a parameter. What the database does with two rows of the same `url` in one batch is left to it.
- `Text.Lower` and `Text.Upper` fold only ASCII letters. Full Unicode case mapping is not modelled.
- `UrlSplit.UrlParse` raises only for an unmatched `[` or `]` in the netloc. The other netloc checks of recent Python versions are not modelled.
