/**
 * The enrichment job (`enrich.py`): text cleaning for the model and for Postgres, the topic
 * normalisation loops, and the per-item loop that fetches a page, asks the model for an analysis,
 * upserts a `regulations` row and counts successes and failures.
 *
 * The network, the two model calls, the database and the Unicode folding `_ascii_lower` are
 * parameters (`Services`); an `Err` stands for an exception they raise.
 */
module Enrich {
  import opened Wrappers
  import opened Text
  import opened Seqs
  import opened OrderedMaps
  import UrlSplit

  /** `MAX_TEXT_CHARS`: the page text handed to the model is cut to this many characters. */
  const MaxTextChars := 12000

  // ---------------------------------------------------------------------------------------------
  // clean_text

  /** `s.replace("\r", " ").replace("\n", " ")`. */
  function Unbroken(s: string): (r: string)
    ensures |r| == |s| && '\r' !in r && '\n' !in r
  {
    ReplaceChar(ReplaceChar(s, '\r', ' '), '\n', ' ')
  }

  /** `clean_text`: empty for a missing or empty text; otherwise line breaks become spaces, every
      whitespace run becomes one space and the ends are stripped. The result is the text's words
      joined by single spaces. */
  function CleanText(txt: Option<string>): (r: string)
    ensures !Truthy(txt) ==> r == ""
    ensures Truthy(txt) ==> r == Join(SplitWords(Unbroken(txt.value)), " ")
    ensures SingleSpaced(r) && '\r' !in r && '\n' !in r
  {
    if !Truthy(txt) then ""
    else
      CollapsedWords(Unbroken(txt.value));
      Strip(CollapseSpaces(Unbroken(txt.value)))
  }

  /** Collapsing and stripping gives the words joined by single spaces, with no line break left. */
  lemma CollapsedWords(u: string)
    ensures Strip(CollapseSpaces(u)) == Join(SplitWords(u), " ")
    ensures SingleSpaced(Join(SplitWords(u), " "))
    ensures '\r' !in Join(SplitWords(u), " ") && '\n' !in Join(SplitWords(u), " ")
  {
    CollapseStripIsJoinSplit(u);
    SplitWordsAreWords(u);
    JoinWordsSingleSpaced(SplitWords(u));
    SingleSpacedNoBreaks(Join(SplitWords(u), " "));
  }

  /** A single-spaced string has no line breaks: its only whitespace is `' '`. */
  lemma SingleSpacedNoBreaks(r: string)
    requires SingleSpaced(r)
    ensures '\r' !in r && '\n' !in r
  {
    assert IsSpace('\r') && IsSpace('\n');
  }

  /** Every whitespace character is a plain space followed by a non-space. */
  predicate NoRuns(s: string) {
    forall i :: 0 <= i < |s| && IsSpace(s[i]) ==> s[i] == ' ' && (i + 1 < |s| ==> !IsSpace(s[i + 1]))
  }

  /** Collapsing whitespace runs leaves a string without runs alone. */
  lemma {:induction false} CollapseNoRuns(s: string)
    requires NoRuns(s)
    ensures CollapseSpaces(s) == s
    decreases |s|
  {
    if s != [] {
      var t := s[1..];
      NoRunsTail(s);
      CollapseNoRuns(t);
      if IsSpace(s[0]) {
        SpaceBeforeWord(s);
      }
      assert s == [s[0]] + t;
    }
  }

  lemma NoRunsTail(s: string)
    requires s != [] && NoRuns(s)
    ensures NoRuns(s[1..])
  {
    var t := s[1..];
    forall i | 0 <= i < |t| && IsSpace(t[i])
      ensures t[i] == ' ' && (i + 1 < |t| ==> !IsSpace(t[i + 1]))
    {
      assert t[i] == s[i + 1];
      if i + 1 < |t| {
        assert t[i + 1] == s[i + 2];
      }
    }
  }

  /** The single space of a string without runs is followed by no more whitespace. */
  lemma SpaceBeforeWord(s: string)
    requires s != [] && NoRuns(s) && IsSpace(s[0])
    ensures TrimStart(s) == s[1..]
  {
    var t := s[1..];
    if t != [] {
      assert t[0] == s[1];
    }
    assert TrimStart(t) == t;
  }

  /** A string that already has the shape `clean_text` produces is returned unchanged. */
  lemma CleanTextKeeps(s: string)
    requires SingleSpaced(s)
    ensures CleanText(Some(s)) == s
  {
    if s != "" {
      SingleSpacedNoBreaks(s);
      UnbrokenKeeps(s);
      SingleSpacedNoRuns(s);
      CollapseNoRuns(s);
      StripKeeps(s);
    }
  }

  /** Without line breaks there is nothing to replace. */
  lemma UnbrokenKeeps(s: string)
    requires '\r' !in s && '\n' !in s
    ensures Unbroken(s) == s
  {
  }

  /** A single-spaced string has no whitespace runs. */
  lemma SingleSpacedNoRuns(s: string)
    requires SingleSpaced(s)
    ensures NoRuns(s)
  {
  }

  /** A string without whitespace at its ends is its own strip. */
  lemma StripKeeps(s: string)
    requires s == [] || (!IsSpace(s[0]) && !IsSpace(s[|s| - 1]))
    ensures Strip(s) == s
  {
    assert "" + s + "" == s;
    StripPadded("", s, "");
  }

  /** The fixed points of `clean_text` are exactly the single-spaced strings. */
  lemma CleanTextFixedPoints(s: string)
    ensures CleanText(Some(s)) == s <==> SingleSpaced(s)
  {
    if SingleSpaced(s) {
      CleanTextKeeps(s);
    }
  }

  /** Cleaning a cleaned text changes nothing. */
  lemma CleanTextIdempotent(txt: Option<string>)
    ensures CleanText(Some(CleanText(txt))) == CleanText(txt)
  {
    CleanTextKeeps(CleanText(txt));
  }

  // ---------------------------------------------------------------------------------------------
  // sanitize_pg_text

  /** `CONTROL_CHARS_RE`: the class `[\x00-\x08\x0B\x0C\x0E-\x1F]`. Tab, line feed and carriage
      return are not in it. */
  predicate IsControl(c: char) {
    var n := c as int;
    n <= 0x08 || n == 0x0B || n == 0x0C || (0x0E <= n <= 0x1F)
  }

  /** `CONTROL_CHARS_RE.sub(" ", s)`. */
  function Decontrol(s: string): (r: string)
    ensures |r| == |s| && forall i :: 0 <= i < |s| ==> r[i] == (if IsControl(s[i]) then ' ' else s[i])
  {
    seq(|s|, i requires 0 <= i < |s| => if IsControl(s[i]) then ' ' else s[i])
  }

  /** Text Postgres accepts as the sanitiser leaves it: no carriage return, no control character
      from the class, no whitespace at either end. */
  predicate PgSafe(s: string) {
    && (forall i :: 0 <= i < |s| ==> s[i] != '\r' && !IsControl(s[i]))
    && (s == [] || (!IsSpace(s[0]) && !IsSpace(s[|s| - 1])))
  }

  /** `sanitize_pg_text`: `None` stays `None`; otherwise carriage returns and control characters
      become spaces and the ends are stripped. */
  function SanitizePgText(s: Option<string>): (r: Option<string>)
    ensures r.None? <==> s.None?
    ensures r.Some? ==> PgSafe(r.value) && |r.value| <= |s.value|
  {
    if s.None? then None
    else
      var t := Decontrol(ReplaceChar(s.value, '\r', ' '));
      StripSafe(t);
      Some(Strip(t))
  }

  /** Stripping a string without carriage returns and control characters makes it safe. */
  lemma StripSafe(t: string)
    requires forall i :: 0 <= i < |t| ==> t[i] != '\r' && !IsControl(t[i])
    ensures PgSafe(Strip(t))
  {
    var k := |t| - |TrimStart(t)|;
    var r := Strip(t);
    assert r == t[k..k + |r|];
    forall i | 0 <= i < |r| ensures r[i] != '\r' && !IsControl(r[i]) {
      assert r[i] == t[k + i];
    }
  }

  /** The fixed points of the sanitiser are exactly the Postgres-safe strings. */
  lemma SanitizeFixedPoints(s: string)
    ensures SanitizePgText(Some(s)) == Some(s) <==> PgSafe(s)
  {
    if PgSafe(s) {
      assert ReplaceChar(s, '\r', ' ') == s;
      assert Decontrol(s) == s;
      StripKeeps(s);
    }
  }

  /** Sanitising a sanitised text changes nothing. */
  lemma SanitizeIdempotent(s: Option<string>)
    ensures SanitizePgText(SanitizePgText(s)) == SanitizePgText(s)
  {
    if s.Some? {
      SanitizeFixedPoints(SanitizePgText(s).value);
    }
  }

  // ---------------------------------------------------------------------------------------------
  // Topic deduplication

  /** What the dedup loops record for a topic: its folded form, unless that is empty. */
  function TopicEntry(fold: string -> string): string -> Option<(string, ())> {
    t => if fold(t) != "" then Some((fold(t), ())) else None
  }

  /** The list the dedup loops build: the non-empty folded topics, each kept at its first
      occurrence. */
  function Dedup(topics: seq<string>, fold: string -> string): seq<string> {
    KeepFirst(topics, TopicEntry(fold)).keys
  }

  /** The loop `for t in (_ascii_lower(x) for x in topics): if t and t not in seen: ...`. */
  method DedupTopics(topics: seq<string>, fold: string -> string) returns (out: seq<string>)
    ensures out == Dedup(topics, fold)
  {
    out := [];
    var seen: set<string> := {};
    for i := 0 to |topics|
      invariant out == KeepFirst(topics[..i], TopicEntry(fold)).keys
      invariant seen == KeepFirst(topics[..i], TopicEntry(fold)).values.Keys
    {
      assert topics[..i + 1][..i] == topics[..i];
      var t := fold(topics[i]);
      if t != "" && t !in seen {
        seen := seen + {t};
        out := out + [t];
      }
    }
    assert topics[..|topics|] == topics;
  }

  /** The kept topics are distinct, non-empty, and each the folded form of some input topic. */
  lemma DedupSound(topics: seq<string>, fold: string -> string)
    ensures forall a, b :: 0 <= a < b < |Dedup(topics, fold)| ==> Dedup(topics, fold)[a] != Dedup(topics, fold)[b]
    ensures forall a :: 0 <= a < |Dedup(topics, fold)| ==>
      Dedup(topics, fold)[a] != "" && exists i :: 0 <= i < |topics| && fold(topics[i]) == Dedup(topics, fold)[a]
  {
    var m := KeepFirst(topics, TopicEntry(fold));
    assert m.keys == Dedup(topics, fold);
    KeepFirstSpec(topics, TopicEntry(fold));
    forall a | 0 <= a < |m.keys|
      ensures m.keys[a] != "" && exists i :: 0 <= i < |topics| && fold(topics[i]) == m.keys[a]
    {
      assert m.keys[a] in m.values;
      var i :| 0 <= i < |topics| && HasKey(TopicEntry(fold)(topics[i]), m.keys[a]);
      assert fold(topics[i]) == m.keys[a];
    }
  }

  /** Every input topic whose folded form is non-empty is kept. */
  lemma DedupComplete(topics: seq<string>, fold: string -> string, i: nat)
    requires i < |topics| && fold(topics[i]) != ""
    ensures fold(topics[i]) in Dedup(topics, fold)
  {
    var m := KeepFirst(topics, TopicEntry(fold));
    KeepFirstHas(topics, TopicEntry(fold), i, fold(topics[i]));
  }

  /** The kept topics come in first-occurrence order: wherever a later one occurs in the input, an
      earlier one has already occurred. */
  lemma DedupOrder(topics: seq<string>, fold: string -> string, a: nat, b: nat, j: nat)
    requires a < b < |Dedup(topics, fold)| && j < |topics|
    requires fold(topics[j]) == Dedup(topics, fold)[b]
    ensures exists i :: 0 <= i < j && fold(topics[i]) == Dedup(topics, fold)[a]
  {
    DedupSound(topics, fold);
    KeepFirstOrder(topics, TopicEntry(fold), a, b, j);
    var i :| 0 <= i < j && HasKey(TopicEntry(fold)(topics[i]), Dedup(topics, fold)[a]);
    assert fold(topics[i]) == Dedup(topics, fold)[a];
  }

  // ---------------------------------------------------------------------------------------------
  // ensure_topics_english

  /** `SPANISH_MARKERS`. The accented ones are written with escapes (U+00ED and U+00F3). */
  const SpanishMarkers: seq<string> := [
    "politica", "pol\U{ED}tica", "pol\U{ED}ticas", "regulacion", "regulaci\U{F3}n", "regulaciones",
    "datos", "gobierno", "desarrollo", "innovacion", "innovaci\U{F3}n",
    "estadistica", "estad\U{ED}sticas", "sostenibilidad", "administracion", "administraci\U{F3}n",
    "cuestionarios", "ods", "economica", "econ\U{F3}mica", "diversificacion", "diversificaci\U{F3}n",
    "transparencia", "abiertos", "gobernanza"
  ]

  /** `looks_spanish_topic`: the folded topic contains one of the markers. */
  predicate LooksSpanish(topic: string, fold: string -> string) {
    exists k :: 0 <= k < |SpanishMarkers| && Contains(fold(topic), SpanishMarkers[k])
  }

  /** `any(looks_spanish_topic(t) for t in topics)`. */
  predicate AnySpanish(topics: seq<string>, fold: string -> string) {
    exists i :: 0 <= i < |topics| && LooksSpanish(topics[i], fold)
  }

  /** The marker test is a substring test: an English tag such as "goods" contains "ods". */
  lemma GoodsLooksSpanish(fold: string -> string)
    requires fold("goods") == "goods"
    ensures LooksSpanish("goods", fold)
  {
    assert SpanishMarkers[17] == "ods";
    assert "goods"[1..] == "oods" && "oods"[1..] == "ods";
    assert Contains("ods", "ods");
    assert Contains("oods", "ods");
    assert Contains("goods", "ods");
  }

  /** How the translation request in `ensure_topics_english` ends. */
  datatype TranslationReply =
    | CallRaised(error: string)   // the API call raised; it is outside the `try`, so it propagates
    | Unreadable                  // decoding or folding the reply raised inside the `try`
    | NoTopicsKey                 // the JSON object has no "topics": `.get` falls back to the input
    | Translated(tags: seq<string>)

  /** `ensure_topics_english` as a value: `Err` is the propagated exception. */
  function EnglishTopics(topics: seq<string>, fold: string -> string, reply: TranslationReply): (r: Result<seq<string>>)
  {
    if topics == [] then Ok(topics)
    else if !AnySpanish(topics, fold) then Ok(Dedup(topics, fold))
    else
      match reply
      case CallRaised(e) => Err(e)
      case Unreadable => Ok(MapAll(topics, fold))
      case NoTopicsKey => Ok(if Dedup(topics, fold) != [] then Dedup(topics, fold) else MapAll(topics, fold))
      case Translated(tags) => Ok(if Dedup(tags, fold) != [] then Dedup(tags, fold) else MapAll(topics, fold))
  }

  /** `ensure_topics_english`, following its loops. The translation is requested only when some
      topic looks Spanish: otherwise the result is the deduplicated list whatever the reply would
      have been, even a raising call. */
  method EnsureTopicsEnglish(topics: seq<string>, fold: string -> string, reply: TranslationReply)
    returns (r: Result<seq<string>>)
    ensures r == EnglishTopics(topics, fold, reply)
    ensures topics == [] ==> r == Ok([])
    ensures !AnySpanish(topics, fold) ==> r == Ok(Dedup(topics, fold))
    ensures r.Err? <==> topics != [] && AnySpanish(topics, fold) && reply.CallRaised?
  {
    if topics == [] {
      return Ok(topics);
    }
    if !AnySpanish(topics, fold) {
      var out := DedupTopics(topics, fold);
      return Ok(out);
    }
    match reply {
      case CallRaised(e) =>
        return Err(e);
      case Unreadable =>
        r := Ok(MapAll(topics, fold));
      case NoTopicsKey =>
        var out := DedupTopics(topics, fold);
        r := Ok(if out != [] then out else MapAll(topics, fold));
      case Translated(tags) =>
        var out := DedupTopics(tags, fold);
        r := Ok(if out != [] then out else MapAll(topics, fold));
    }
  }

  /** Once the translation was asked for, the result is never empty; it is either the folded input,
      one entry per topic, or a list of distinct non-empty tags. */
  lemma EnglishTopicsShape(topics: seq<string>, fold: string -> string, reply: TranslationReply)
    requires EnglishTopics(topics, fold, reply).Ok?
    ensures var ts := EnglishTopics(topics, fold, reply).value;
      || ts == MapAll(topics, fold)
      || ((forall a, b :: 0 <= a < b < |ts| ==> ts[a] != ts[b]) && forall a :: 0 <= a < |ts| ==> ts[a] != "")
    ensures AnySpanish(topics, fold) ==> EnglishTopics(topics, fold, reply).value != []
  {
    DedupSound(topics, fold);
    if reply.Translated? {
      DedupSound(reply.tags, fold);
    }
    if AnySpanish(topics, fold) {
      assert topics != [];
    }
  }

  /** `call_openai`'s topic handling: the model's tags are folded and deduplicated, then passed
      through `ensure_topics_english`. */
  method NormaliseTopics(tags: seq<string>, fold: string -> string, reply: TranslationReply)
    returns (r: Result<seq<string>>)
    ensures r == EnglishTopics(Dedup(tags, fold), fold, reply)
  {
    var base := DedupTopics(tags, fold);
    r := EnsureTopicsEnglish(base, fold, reply);
  }

  // ---------------------------------------------------------------------------------------------
  // The item loop of main

  /** A pending `ingest_items` row, as far as the loop reads it. */
  datatype PendingItem = PendingItem(
    id: Option<string>, title: Option<string>, docUrl: Option<string>, url: Option<string>,
    sourceUrl: Option<string>, country: Option<string>, authority: Option<string>)

  /** `KeyDates`, passed through to the row. */
  datatype KeyDates = KeyDates(
    commentDeadline: Option<string>, effective: Option<string>, expiry: Option<string>,
    publication: Option<string>)

  /** A validated `EnrichOut` reply of the analysis model. */
  datatype Analysis = Analysis(
    summaryEs: string, summaryEn: string, tags: seq<string>, keyDates: KeyDates,
    status: string, kind: string, impactLevel: string)

  /** What `call_openai` is given: the title, the URL and the truncated page text. */
  datatype Request = Request(title: string, url: string, text: string)

  /** The `regulations` row the loop upserts. */
  datatype Regulation = Regulation(
    docUrl: string, url: string, sourceUrl: string, country: Option<string>,
    authority: Option<string>, title: Option<string>, ingestItemId: Option<string>,
    summaryEs: Option<string>, summaryEn: Option<string>, topics: seq<string>, keyDates: KeyDates,
    status: string, kind: string, impactLevel: string, rawText: Option<string>, openaiModel: string)

  /** The calls the loop makes into code this model does not contain. `analyse` is the model call
      with its JSON validation, `translate` the reply to the translation request for a tag list,
      `upsert` returns the id of the stored row, if any. */
  datatype Services = Services(
    safeUrl: string -> string,
    fold: string -> string,
    fetchHtml: string -> Result<string>,
    fetchPdf: string -> Result<string>,
    analyse: Request -> Result<Analysis>,
    translate: seq<string> -> TranslationReply,
    upsert: Regulation -> Result<Option<string>>,
    markEnriched: (string, Option<string>) -> Result<()>,
    model: string)

  /** `safe_url`: the empty string is returned as it is; `urlsplit` raises for a URL whose authority
      has an unmatched `[` or `]`; anything else goes to the quoting. */
  function SafeUrl(svc: Services, u: string): (r: Result<string>)
    ensures u == "" ==> r == Ok("")
    ensures u != "" ==> (r.Err? <==> UrlSplit.UrlParse(u).Err?)
    ensures u != "" && r.Ok? ==> r.value == svc.safeUrl(u)
  {
    if u == "" then Ok(u)
    else
      var parts := UrlSplit.UrlParse(u);
      if parts.Err? then Err(parts.message) else Ok(svc.safeUrl(u))
  }

  /** An `http://` URL whose authority opens a `[` and never closes it makes `safe_url` raise. */
  lemma SafeUrlBracket(svc: Services, h: string)
    requires '[' in h && ']' !in h
    requires forall i :: 0 <= i < |h| ==> !UrlSplit.IsNetlocEnd(h[i]) && !UrlSplit.IsUnsafe(h[i])
    ensures SafeUrl(svc, "http://" + h).Err?
  {
    UrlSplit.BracketHostRaises(h);
  }

  /** `it.get("doc_url") or it.get("url") or it.get("source_url") or ""`. */
  function ChosenUrl(it: PendingItem): (r: string)
    ensures Truthy(it.docUrl) ==> r == it.docUrl.value
    ensures !Truthy(it.docUrl) && Truthy(it.url) ==> r == it.url.value
    ensures !Truthy(it.docUrl) && !Truthy(it.url) ==> r == OrEmpty(it.sourceUrl)
    ensures r == "" <==> !Truthy(it.docUrl) && !Truthy(it.url) && !Truthy(it.sourceUrl)
  {
    OrEmpty(OrElse(OrElse(it.docUrl, it.url), it.sourceUrl))
  }

  /** The extracted page text: PDF extraction for a URL ending in `.pdf` (any case), HTML extraction
      otherwise, and `""` when extraction raises. */
  function PageText(svc: Services, url: string): string {
    var fetched := if EndsWith(Lower(url), ".pdf") then svc.fetchPdf(url) else svc.fetchHtml(url);
    if fetched.Ok? then fetched.value else ""
  }

  /** `(raw_text or "")[:MAX_TEXT_CHARS]`: a prefix of the page text of at most 12000 characters,
      the whole text when it is short enough. */
  function LlmText(raw: string): (r: string)
    ensures |r| <= MaxTextChars && r <= raw
    ensures |raw| <= MaxTextChars ==> r == raw
  {
    Take(raw, MaxTextChars)
  }

  /** The request `call_openai` gets for an item whose safe URL is `url`. */
  function RequestFor(it: PendingItem, svc: Services, url: string): (q: Request)
    ensures q.title == OrEmpty(it.title) && q.url == url
    ensures |q.text| <= MaxTextChars && q.text <= PageText(svc, url)
  {
    Request(OrEmpty(it.title), url, LlmText(PageText(svc, url)))
  }

  /** A sanitised text column: present and Postgres-safe. */
  predicate PgText(o: Option<string>) {
    o.Some? && PgSafe(o.value)
  }

  /** The message of the exception an item without any URL raises. */
  const NoUrlMessage := "Item sin URL utilizable."

  /** The safe URL of an item, or the exception raised on the way to it. */
  function ItemUrl(it: PendingItem, svc: Services): Result<string> {
    if ChosenUrl(it) == "" then Err(NoUrlMessage) else SafeUrl(svc, ChosenUrl(it))
  }

  /** `call_openai` for an item whose safe URL is `url`. */
  function AnalysisFor(it: PendingItem, svc: Services, url: string): Result<Analysis> {
    svc.analyse(RequestFor(it, svc, url))
  }

  /** The topics of an analysis: the dedup of its tags, then the English pass. */
  function TopicsFor(a: Analysis, svc: Services): Result<seq<string>> {
    var base := Dedup(a.tags, svc.fold);
    EnglishTopics(base, svc.fold, svc.translate(base))
  }

  /** The part of the `try` body before the upsert: the row built for an item, or the exception
      raised while building it. */
  function RowFor(it: PendingItem, svc: Services): (r: Result<Regulation>)
    ensures ChosenUrl(it) == "" ==> r == Err(NoUrlMessage)
    ensures r.Ok? <==>
      && ItemUrl(it, svc).Ok?
      && AnalysisFor(it, svc, ItemUrl(it, svc).value).Ok?
      && TopicsFor(AnalysisFor(it, svc, ItemUrl(it, svc).value).value, svc).Ok?
      && SafeUrl(svc, OrEmpty(it.sourceUrl)).Ok?
    ensures r.Ok? ==>
      && r.value.docUrl == svc.safeUrl(ChosenUrl(it)) && r.value.url == r.value.docUrl
      && r.value.sourceUrl == SafeUrl(svc, OrEmpty(it.sourceUrl)).value
      && r.value.ingestItemId == it.id && r.value.country == it.country && r.value.authority == it.authority
      && r.value.title == SanitizePgText(Some(OrEmpty(it.title)))
      && r.value.rawText == SanitizePgText(Some(PageText(svc, r.value.url)))
      && r.value.openaiModel == svc.model
    ensures r.Ok? ==>
      var a := AnalysisFor(it, svc, r.value.url).value;
      && r.value.summaryEs == SanitizePgText(Some(a.summaryEs))
      && r.value.summaryEn == SanitizePgText(Some(a.summaryEn))
      && r.value.topics == TopicsFor(a, svc).value
      && r.value.keyDates == a.keyDates && r.value.status == a.status && r.value.kind == a.kind
      && r.value.impactLevel == a.impactLevel
    ensures r.Ok? ==> PgText(r.value.title) && PgText(r.value.summaryEs) && PgText(r.value.summaryEn)
    ensures r.Ok? ==> PgText(r.value.rawText)
  {
    var url := ItemUrl(it, svc);
    if url.Err? then Err(url.message)
    else
      var data := AnalysisFor(it, svc, url.value);
      if data.Err? then Err(data.message)
      else
        var a := data.value;
        var topics := TopicsFor(a, svc);
        if topics.Err? then Err(topics.message)
        else
          var src := SafeUrl(svc, OrEmpty(it.sourceUrl));
          if src.Err? then Err(src.message)
          else
            Ok(Regulation(
              url.value, url.value, src.value, it.country, it.authority,
              SanitizePgText(Some(OrEmpty(it.title))), it.id,
              SanitizePgText(Some(a.summaryEs)), SanitizePgText(Some(a.summaryEn)), topics.value,
              a.keyDates, a.status, a.kind, a.impactLevel, SanitizePgText(Some(PageText(svc, url.value))),
              svc.model))
  }

  /** The body of the `try` for one item: the row it upserts, or the exception that sends it to
      the failure count. It completes exactly when the row is built, the upsert succeeds, the item
      has an id and marking it enriched succeeds. */
  function Process(it: PendingItem, svc: Services): (r: Result<Regulation>)
    ensures ChosenUrl(it) == "" ==> r == Err(NoUrlMessage)
    ensures r.Ok? <==>
      && RowFor(it, svc).Ok? && svc.upsert(RowFor(it, svc).value).Ok? && it.id.Some?
      && svc.markEnriched(it.id.value, svc.upsert(RowFor(it, svc).value).value).Ok?
    ensures r.Ok? ==> r == RowFor(it, svc) && r.value.ingestItemId == it.id
  {
    var row := RowFor(it, svc);
    if row.Err? then Err(row.message)
    else
      var up := svc.upsert(row.value);
      if up.Err? then Err(up.message)
      else if it.id.None? then Err("KeyError: 'id'")
      else
        var marked := svc.markEnriched(it.id.value, up.value);
        if marked.Err? then Err(marked.message) else Ok(row.value)
  }

  /** The row an item contributes, if its `try` body completes. */
  function Saved(it: PendingItem, svc: Services): Option<Regulation> {
    if Process(it, svc).Ok? then Some(Process(it, svc).value) else None
  }

  /** The rows of all items whose processing completes, in item order. */
  function SavedRows(items: seq<PendingItem>, svc: Services): seq<Regulation> {
    FilterMap(items, SavedOf(svc))
  }

  /** `Saved` for fixed services. */
  function SavedOf(svc: Services): PendingItem -> Option<Regulation> {
    it => Saved(it, svc)
  }

  /** The `for it in items` loop: each item adds one to `ok` when its body completes and one to
      `fail` when it raises, and a failing item does not stop the loop. */
  method EnrichItems(items: seq<PendingItem>, svc: Services) returns (ok: nat, fail: nat, saved: seq<Regulation>)
    ensures ok + fail == |items|
    ensures saved == SavedRows(items, svc) && ok == |saved|
  {
    ok, fail, saved := 0, 0, [];
    for i := 0 to |items|
      invariant ok + fail == i
      invariant saved == SavedRows(items[..i], svc) && ok == |saved|
    {
      assert items[..i + 1][..i] == items[..i];
      var r := Process(items[i], svc);
      if r.Ok? {
        ok := ok + 1;
        saved := saved + [r.value];
      } else {
        fail := fail + 1;
      }
    }
    assert items[..|items|] == items;
  }

  /** Every item with a completing body is saved, and every saved row comes from such an item. */
  lemma SavedRowsExactly(items: seq<PendingItem>, svc: Services)
    ensures forall i :: 0 <= i < |items| && Process(items[i], svc).Ok? ==> Process(items[i], svc).value in SavedRows(items, svc)
    ensures forall j :: 0 <= j < |SavedRows(items, svc)| ==> SavedFromItem(items, svc, SavedRows(items, svc)[j])
  {
    SavedRowsComplete(items, svc);
    SavedRowsSound(items, svc);
  }

  /** Some item's processing completes with row `r`. */
  ghost predicate SavedFromItem(items: seq<PendingItem>, svc: Services, r: Regulation) {
    exists i :: 0 <= i < |items| && Process(items[i], svc) == Ok(r)
  }

  lemma SavedRowsComplete(items: seq<PendingItem>, svc: Services)
    ensures forall i :: 0 <= i < |items| && Process(items[i], svc).Ok? ==> Process(items[i], svc).value in SavedRows(items, svc)
  {
    var f := SavedOf(svc);
    FilterMapComplete(items, f);
    forall i | 0 <= i < |items| && Process(items[i], svc).Ok?
      ensures Process(items[i], svc).value in SavedRows(items, svc)
    {
      assert f(items[i]) == Some(Process(items[i], svc).value);
    }
  }

  lemma SavedRowsSound(items: seq<PendingItem>, svc: Services)
    ensures forall j :: 0 <= j < |SavedRows(items, svc)| ==> SavedFromItem(items, svc, SavedRows(items, svc)[j])
  {
    var f := SavedOf(svc);
    FilterMapSound(items, f);
    forall j | 0 <= j < |SavedRows(items, svc)|
      ensures SavedFromItem(items, svc, SavedRows(items, svc)[j])
    {
      var i :| 0 <= i < |items| && f(items[i]) == Some(SavedRows(items, svc)[j]);
      assert Process(items[i], svc) == Ok(SavedRows(items, svc)[j]);
    }
  }

  /** The counters and note written back to the run log. */
  datatype RunUpdate = RunUpdate(okCount: nat, failCount: nat, notes: Option<string>)

  /** `main` after fetching the pending items: an empty queue is logged as such without any work;
      otherwise every item is processed and counted. */
  method EnrichRun(items: seq<PendingItem>, svc: Services) returns (u: RunUpdate, saved: seq<Regulation>)
    ensures u.okCount + u.failCount == |items|
    ensures u.notes == Some("empty-queue") <==> items == []
    ensures u.notes == None <==> items != []
    ensures saved == SavedRows(items, svc) && u.okCount == |saved|
  {
    if items == [] {
      return RunUpdate(0, 0, Some("empty-queue")), [];
    }
    var ok, fail;
    ok, fail, saved := EnrichItems(items, svc);
    u := RunUpdate(ok, fail, None);
  }
}
