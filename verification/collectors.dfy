/**
 * The collectors of the crawler pipeline: the retry loop that fetches a source page, the harvest of
 * its links, the RSS collector, the PDF placeholder and the dry-run preview of what would be saved.
 * The HTTP client, the HTML parser, the feed parser and `urljoin` are parameters.
 */
module Collectors {
  import opened Wrappers
  import opened Text
  import opened Records
  import opened PipelineUrls
  import Numerals

  // ---------------------------------------------------------------------------------------------
  // fetch_first_ok

  /** What `client.get(u)` gave: a response (its status, its final URL after redirects, and the
      anchors of its body, `None` when the HTML parser raised) or an exception. */
  datatype Reply = Response(status: int, url: string, anchors: Option<seq<Anchor>>) | Raised(error: string)

  predicate IsOk(r: Reply) {
    r.Response? && r.status == 200
  }

  /** The first 200 response: the pass and the candidate index it came from. */
  datatype Hit = Hit(pass: nat, index: nat, reply: Reply)

  /** `h` is the first 200 response of at most `retries + 1` passes over `urls`: every request of
      the earlier passes, and every earlier request of its own pass, failed. */
  predicate IsFirstHit(urls: seq<string>, retries: nat, get: (nat, string) -> Reply, h: Hit) {
    && h.pass <= retries && h.index < |urls|
    && h.reply == get(h.pass, urls[h.index]) && IsOk(h.reply)
    && (forall p, i :: 0 <= p < h.pass && 0 <= i < |urls| ==> !IsOk(get(p, urls[i])))
    && (forall i :: 0 <= i < h.index ==> !IsOk(get(h.pass, urls[i])))
  }

  /** The sleeps between passes, in tenths of a second: 1.2 s times the pass number. */
  function Backoff(passes: nat): (w: seq<nat>)
    ensures |w| == passes && forall k :: 0 <= k < passes ==> w[k] == 12 * (k + 1)
  {
    seq(passes, k => 12 * (k + 1))
  }

  /** `fetch_first_ok(client, urls, retries)`: tries every URL in order, pass after pass, and returns
      the first 200 response. `get(p, u)` is what the request for `u` in pass `p` gives. Also returns
      how many requests were made and the pauses taken between passes. */
  method FetchFirstOk(urls: seq<string>, retries: nat, get: (nat, string) -> Reply)
    returns (hit: Option<Hit>, requests: nat, waits: seq<nat>)
    ensures hit.Some? ==>
      && IsFirstHit(urls, retries, get, hit.value)
      && requests == hit.value.pass * |urls| + hit.value.index + 1
      && waits == Backoff(hit.value.pass)
    ensures hit.None? ==>
      && (forall p, i :: 0 <= p <= retries && 0 <= i < |urls| ==> !IsOk(get(p, urls[i])))
      && requests == (retries + 1) * |urls|
      && waits == Backoff(retries)
  {
    requests, waits := 0, [];
    for attempt := 0 to retries + 1
      invariant requests == attempt * |urls|
      invariant forall p, i :: 0 <= p < attempt && 0 <= i < |urls| ==> !IsOk(get(p, urls[i]))
      invariant waits == Backoff(if attempt <= retries then attempt else retries)
    {
      for j := 0 to |urls|
        invariant requests == attempt * |urls| + j
        invariant forall i :: 0 <= i < j ==> !IsOk(get(attempt, urls[i]))
      {
        var r := get(attempt, urls[j]);
        requests := requests + 1;
        if IsOk(r) {
          return Some(Hit(attempt, j, r)), requests, waits;
        }
      }
      if attempt < retries {
        waits := waits + [12 * (attempt + 1)];
      }
    }
    hit := None;
  }

  // ---------------------------------------------------------------------------------------------
  // The anchor loop of collect_html_async

  /** Hrefs the harvest ignores: local anchors and the `mailto:`, `tel:` and `javascript:` schemes
      (case-sensitive, as `str.startswith` is). */
  predicate SkippedHref(href: string) {
    StartsWith(href, "#") || StartsWith(href, "mailto:") || StartsWith(href, "tel:")
    || StartsWith(href, "javascript:")
  }

  /** A link's title: its text, or its URL when the text is empty, cut to 500 characters. */
  function LinkTitle(text: string, absUrl: string): string {
    Take(if text != "" then text else absUrl, 500)
  }

  /** The item the harvest emits for a kept link. */
  function DocItem(source: Source, pageUrl: string, absUrl: string, text: string): Item {
    Item(
      country := NormalizeCountry(source.country),
      authority := source.authority,
      sourceUrl := source.sourceUrl,
      sourceType := Some(if IsPdfUrl(absUrl) then "html:pdf-link" else "html"),
      pdfSourceType := None,
      title := Some(LinkTitle(text, absUrl)),
      docUrl := Some(absUrl),
      publishedAt := None,
      summary := None,
      createdAt := None,
      rawMeta := [("from_page", pageUrl)])
  }

  /** The page the links are harvested from: its final URL, its domain and its source row. */
  datatype Page = Page(url: string, domain: string, source: Source)

  /** The harvest's state: the items emitted and the absolute URLs seen. */
  datatype Harvest = Harvest(docs: seq<Item>, seen: set<string>)

  /** The absolute URL an anchor resolves to, when its href is neither empty nor skipped. */
  function Resolved(page: Page, a: Anchor, join: (string, string) -> string): Option<string> {
    var href := Strip(OrEmpty(a.href));
    if href == "" || SkippedHref(href) then None else Some(join(page.url, href))
  }

  /** One anchor of the loop, with no cap. */
  function Step(page: Page, h: Harvest, a: Anchor, join: (string, string) -> string): Harvest {
    match Resolved(page, a, join)
    case None => h
    case Some(absUrl) =>
      if !LooksLikeHttp(absUrl) || absUrl in h.seen then h
      else if !WantLinkForDomain(absUrl, page.domain) then Harvest(h.docs, h.seen + {absUrl})
      else Harvest(h.docs + [DocItem(page.source, page.url, absUrl, a.text)], h.seen + {absUrl})
  }

  /** The loop over `anchors`, with no cap. */
  function HarvestAll(page: Page, anchors: seq<Anchor>, join: (string, string) -> string): Harvest
    decreases |anchors|
  {
    if anchors == [] then Harvest([], {})
    else Step(page, HarvestAll(page, anchors[..|anchors| - 1], join), anchors[|anchors| - 1], join)
  }

  /** What every harvested item satisfies: an http(s) URL the domain filter wants, a title of at most
      500 characters, and the PDF type exactly for PDF URLs. */
  predicate GoodDoc(page: Page, d: Item) {
    && d.docUrl.Some?
    && LooksLikeHttp(d.docUrl.value)
    && WantLinkForDomain(d.docUrl.value, page.domain)
    && d.title.Some? && |d.title.value| <= 500
    && (d.sourceType == Some("html:pdf-link") <==> IsPdfUrl(d.docUrl.value))
    && d.sourceType.Some?
    && d.country == NormalizeCountry(page.source.country)
  }

  /** No URL is emitted twice. */
  predicate DistinctUrls(docs: seq<Item>) {
    forall i, j :: 0 <= i < j < |docs| ==> docs[i].docUrl != docs[j].docUrl
  }

  /** Every item is good. */
  predicate AllGood(page: Page, docs: seq<Item>) {
    forall k :: 0 <= k < |docs| ==> GoodDoc(page, docs[k])
  }

  /** Every seen URL that the filter wants has been emitted. */
  predicate Covers(domain: string, docs: seq<Item>, seen: set<string>) {
    forall u :: u in seen && WantLinkForDomain(u, domain) ==> exists k :: 0 <= k < |docs| && docs[k].docUrl == Some(u)
  }

  /** Every emitted item has a URL, and it has been seen. */
  predicate UrlsSeen(docs: seq<Item>, seen: set<string>) {
    forall k :: 0 <= k < |docs| ==> docs[k].docUrl.Some? && docs[k].docUrl.value in seen
  }

  /** The harvest's invariant: items are good and distinct, their URLs are seen, and every seen URL
      that the filter wants has been emitted. */
  predicate HarvestInv(page: Page, h: Harvest) {
    AllGood(page, h.docs) && DistinctUrls(h.docs) && UrlsSeen(h.docs, h.seen) && Covers(page.domain, h.docs, h.seen)
  }

  /** The item emitted for a wanted http(s) URL is good. */
  lemma DocItemGood(page: Page, absUrl: string, text: string)
    requires LooksLikeHttp(absUrl) && WantLinkForDomain(absUrl, page.domain)
    ensures GoodDoc(page, DocItem(page.source, page.url, absUrl, text))
  {
  }

  /** Appending an element that satisfies `P` to a sequence whose elements all do. */
  lemma AppendAll<T>(s: seq<T>, x: T, P: T -> bool)
    requires forall k :: 0 <= k < |s| ==> P(s[k])
    requires P(x)
    ensures forall k :: 0 <= k < |s + [x]| ==> P((s + [x])[k])
  {
    assert forall k :: 0 <= k < |s| ==> (s + [x])[k] == s[k];
  }

  lemma EmitGood(page: Page, docs: seq<Item>, d: Item)
    requires AllGood(page, docs) && GoodDoc(page, d)
    ensures AllGood(page, docs + [d])
  {
    AppendAll(docs, d, x => GoodDoc(page, x));
  }

  lemma EmitDistinct(docs: seq<Item>, seen: set<string>, d: Item, absUrl: string)
    requires DistinctUrls(docs) && UrlsSeen(docs, seen)
    requires absUrl !in seen && d.docUrl == Some(absUrl)
    ensures DistinctUrls(docs + [d]) && UrlsSeen(docs + [d], seen + {absUrl})
  {
    assert forall k :: 0 <= k < |docs| ==> (docs + [d])[k] == docs[k];
  }

  lemma EmitCovers(domain: string, docs: seq<Item>, seen: set<string>, d: Item, absUrl: string)
    requires Covers(domain, docs, seen) && d.docUrl == Some(absUrl)
    ensures Covers(domain, docs + [d], seen + {absUrl})
  {
    var docs', seen' := docs + [d], seen + {absUrl};
    forall u | u in seen' && WantLinkForDomain(u, domain)
      ensures exists k :: 0 <= k < |docs'| && docs'[k].docUrl == Some(u)
    {
      if u == absUrl {
        assert docs'[|docs|].docUrl == Some(u);
      } else {
        var k :| 0 <= k < |docs| && docs[k].docUrl == Some(u);
        assert docs'[k] == docs[k];
      }
    }
  }

  /** Emitting a new wanted URL keeps the invariant. */
  lemma EmitInv(page: Page, h: Harvest, d: Item, absUrl: string)
    requires HarvestInv(page, h)
    requires absUrl !in h.seen && GoodDoc(page, d) && d.docUrl == Some(absUrl)
    ensures HarvestInv(page, Harvest(h.docs + [d], h.seen + {absUrl}))
  {
    EmitGood(page, h.docs, d);
    EmitDistinct(h.docs, h.seen, d, absUrl);
    EmitCovers(page.domain, h.docs, h.seen, d, absUrl);
  }

  /** Marking an unwanted URL as seen keeps the invariant. */
  lemma SeenInv(page: Page, h: Harvest, absUrl: string)
    requires HarvestInv(page, h) && !WantLinkForDomain(absUrl, page.domain)
    ensures HarvestInv(page, Harvest(h.docs, h.seen + {absUrl}))
  {
    forall u | u in h.seen + {absUrl} && WantLinkForDomain(u, page.domain)
      ensures exists k :: 0 <= k < |h.docs| && h.docs[k].docUrl == Some(u)
    {
      assert u != absUrl;
    }
  }

  /** One anchor keeps the invariant, and only extends the items and the seen set. */
  lemma StepInv(page: Page, h: Harvest, a: Anchor, join: (string, string) -> string)
    requires HarvestInv(page, h)
    ensures HarvestInv(page, Step(page, h, a, join))
    ensures h.docs <= Step(page, h, a, join).docs && h.seen <= Step(page, h, a, join).seen
  {
    var r := Resolved(page, a, join);
    if r.Some? && LooksLikeHttp(r.value) && r.value !in h.seen {
      var absUrl := r.value;
      if WantLinkForDomain(absUrl, page.domain) {
        var d := DocItem(page.source, page.url, absUrl, a.text);
        assert Step(page, h, a, join) == Harvest(h.docs + [d], h.seen + {absUrl});
        DocItemGood(page, absUrl, a.text);
        EmitInv(page, h, d, absUrl);
      } else {
        assert Step(page, h, a, join) == Harvest(h.docs, h.seen + {absUrl});
        SeenInv(page, h, absUrl);
      }
    } else {
      assert Step(page, h, a, join) == h;
    }
  }

  /** The whole harvest keeps the invariant, and a longer anchor list only extends it. */
  lemma {:induction false} HarvestAllInv(page: Page, anchors: seq<Anchor>, join: (string, string) -> string)
    ensures HarvestInv(page, HarvestAll(page, anchors, join))
    decreases |anchors|
  {
    if anchors != [] {
      var init := anchors[..|anchors| - 1];
      HarvestAllInv(page, init, join);
      StepInv(page, HarvestAll(page, init, join), anchors[|anchors| - 1], join);
    }
  }

  /** Processing more anchors never removes or reorders items already emitted. */
  lemma {:induction false} HarvestPrefix(page: Page, anchors: seq<Anchor>, n: nat, join: (string, string) -> string)
    requires n <= |anchors|
    ensures HarvestAll(page, anchors[..n], join).docs <= HarvestAll(page, anchors, join).docs
    decreases |anchors| - n
  {
    if n < |anchors| {
      var init := anchors[..|anchors| - 1];
      assert init[..n] == anchors[..n];
      HarvestPrefix(page, init, n, join);
      HarvestAllInv(page, init, join);
      StepInv(page, HarvestAll(page, init, join), anchors[|anchors| - 1], join);
    } else {
      assert anchors[..n] == anchors;
    }
  }

  /** Every anchor whose resolved URL is http(s) and wanted by the domain filter is harvested. */
  lemma {:induction false} HarvestComplete(page: Page, anchors: seq<Anchor>, join: (string, string) -> string, k: nat)
    requires k < |anchors|
    requires Resolved(page, anchors[k], join).Some?
    requires LooksLikeHttp(Resolved(page, anchors[k], join).value)
    requires WantLinkForDomain(Resolved(page, anchors[k], join).value, page.domain)
    ensures exists j :: (0 <= j < |HarvestAll(page, anchors, join).docs|
      && HarvestAll(page, anchors, join).docs[j].docUrl == Resolved(page, anchors[k], join))
    decreases |anchors|
  {
    var u := Resolved(page, anchors[k], join).value;
    var init := anchors[..|anchors| - 1];
    var h := HarvestAll(page, init, join);
    HarvestAllInv(page, init, join);
    StepInv(page, h, anchors[|anchors| - 1], join);
    var h' := HarvestAll(page, anchors, join);
    if k < |anchors| - 1 {
      assert init[k] == anchors[k];
      HarvestComplete(page, init, join, k);
      var j :| 0 <= j < |h.docs| && h.docs[j].docUrl == Some(u);
      assert h'.docs[j] == h.docs[j];
    } else {
      assert u in h'.seen;
    }
  }

  /** `d` comes from some anchor as `FromAnchor` says. */
  ghost predicate FromSomeAnchor(page: Page, anchors: seq<Anchor>, join: (string, string) -> string, d: Item) {
    exists k: nat :: FromAnchor(page, anchors, join, d, k)
  }

  /** Anchor `k` is the first anchor that resolves to `u`. */
  predicate FirstResolvedAt(page: Page, anchors: seq<Anchor>, join: (string, string) -> string, u: string, k: nat) {
    && k < |anchors|
    && Resolved(page, anchors[k], join) == Some(u)
    && forall k' :: 0 <= k' < k ==> Resolved(page, anchors[k'], join) != Some(u)
  }

  /** `d` is the item emitted for anchor `k`: its URL is what the first anchor to resolve to it
      resolves to, and its title comes from that anchor's text. */
  predicate FromAnchor(page: Page, anchors: seq<Anchor>, join: (string, string) -> string, d: Item, k: nat) {
    && d.docUrl.Some?
    && FirstResolvedAt(page, anchors, join, d.docUrl.value, k)
    && d.title == Some(LinkTitle(anchors[k].text, d.docUrl.value))
  }

  /** One anchor only adds to the seen set, and its resolved URL is in it afterwards when it is
      http(s). */
  lemma StepSeen(page: Page, h: Harvest, a: Anchor, join: (string, string) -> string)
    ensures h.seen <= Step(page, h, a, join).seen
    ensures Resolved(page, a, join).Some? && LooksLikeHttp(Resolved(page, a, join).value) ==>
      Resolved(page, a, join).value in Step(page, h, a, join).seen
  {
  }

  /** One anchor leaves the items as they were, or appends the item for its resolved URL, which is
      http(s) and was not seen before. */
  lemma StepDocs(page: Page, h: Harvest, a: Anchor, join: (string, string) -> string)
    ensures || Step(page, h, a, join).docs == h.docs
            || (&& Resolved(page, a, join).Some?
                && LooksLikeHttp(Resolved(page, a, join).value)
                && Resolved(page, a, join).value !in h.seen
                && |Step(page, h, a, join).docs| == |h.docs| + 1
                && Step(page, h, a, join).docs[..|h.docs|] == h.docs
                && Step(page, h, a, join).docs[|h.docs|].docUrl == Resolved(page, a, join)
                && Step(page, h, a, join).docs[|h.docs|].title == Some(LinkTitle(a.text, Resolved(page, a, join).value)))
  {
  }

  /** Every anchor already processed whose resolved URL is http(s) has that URL in the seen set. */
  lemma {:induction false} SeenComplete(page: Page, anchors: seq<Anchor>, join: (string, string) -> string, k: nat)
    requires k < |anchors| && Resolved(page, anchors[k], join).Some?
    requires LooksLikeHttp(Resolved(page, anchors[k], join).value)
    ensures Resolved(page, anchors[k], join).value in HarvestAll(page, anchors, join).seen
    decreases |anchors|
  {
    var init := anchors[..|anchors| - 1];
    var h := HarvestAll(page, init, join);
    var a := anchors[|anchors| - 1];
    assert HarvestAll(page, anchors, join) == Step(page, h, a, join);
    StepSeen(page, h, a, join);
    if k < |anchors| - 1 {
      assert init[k] == anchors[k];
      SeenComplete(page, init, join, k);
    }
  }

  /** What `FromAnchor` says about a list of anchors still holds once more anchors follow. */
  lemma FromAnchorExtends(page: Page, init: seq<Anchor>, anchors: seq<Anchor>, join: (string, string) -> string, d: Item, k: nat)
    requires init <= anchors && FromAnchor(page, init, join, d, k)
    ensures FromAnchor(page, anchors, join, d, k)
  {
    forall k' | 0 <= k' <= k ensures init[k'] == anchors[k'] {}
  }

  /** Every harvested item comes from the first anchor that resolves to its URL, and carries that
      anchor's text. */
  lemma {:induction false} HarvestSound(page: Page, anchors: seq<Anchor>, join: (string, string) -> string, j: nat)
    requires j < |HarvestAll(page, anchors, join).docs|
    ensures FromSomeAnchor(page, anchors, join, HarvestAll(page, anchors, join).docs[j])
    decreases |anchors|
  {
    var init := anchors[..|anchors| - 1];
    var h := HarvestAll(page, init, join);
    var a := anchors[|anchors| - 1];
    var docs := HarvestAll(page, anchors, join).docs;
    assert HarvestAll(page, anchors, join) == Step(page, h, a, join);
    StepDocs(page, h, a, join);
    if j < |h.docs| {
      assert docs[j] == docs[..|h.docs|][j] == h.docs[j];
      HarvestSound(page, init, join, j);
      var k :| FromAnchor(page, init, join, h.docs[j], k);
      FromAnchorExtends(page, init, anchors, join, h.docs[j], k);
    } else {
      assert docs != h.docs;
      NewUrlFirst(page, anchors, join);
      assert FromAnchor(page, anchors, join, docs[j], |anchors| - 1);
    }
  }

  /** The last anchor's resolved URL, when it is http(s) and not yet seen, is resolved to by no
      earlier anchor. */
  lemma NewUrlFirst(page: Page, anchors: seq<Anchor>, join: (string, string) -> string)
    requires anchors != [] && Resolved(page, anchors[|anchors| - 1], join).Some?
    requires LooksLikeHttp(Resolved(page, anchors[|anchors| - 1], join).value)
    requires Resolved(page, anchors[|anchors| - 1], join).value !in HarvestAll(page, anchors[..|anchors| - 1], join).seen
    ensures FirstResolvedAt(page, anchors, join, Resolved(page, anchors[|anchors| - 1], join).value, |anchors| - 1)
  {
    var init := anchors[..|anchors| - 1];
    var u := Resolved(page, anchors[|anchors| - 1], join);
    forall k' | 0 <= k' < |init|
      ensures Resolved(page, anchors[k'], join) != u
    {
      assert init[k'] == anchors[k'];
      if Resolved(page, init[k'], join) == u {
        SeenComplete(page, init, join, k');
      }
    }
  }

  /** Every item of `docs` comes from an anchor as `FromAnchor` says. */
  ghost predicate AllFromAnchors(page: Page, anchors: seq<Anchor>, join: (string, string) -> string, docs: seq<Item>) {
    forall j :: 0 <= j < |docs| ==> FromSomeAnchor(page, anchors, join, docs[j])
  }

  lemma HarvestAllSound(page: Page, anchors: seq<Anchor>, join: (string, string) -> string)
    ensures AllFromAnchors(page, anchors, join, HarvestAll(page, anchors, join).docs)
  {
    forall j | 0 <= j < |HarvestAll(page, anchors, join).docs|
      ensures FromSomeAnchor(page, anchors, join, HarvestAll(page, anchors, join).docs[j])
    {
      HarvestSound(page, anchors, join, j);
    }
  }

  lemma PrefixSound(page: Page, anchors: seq<Anchor>, join: (string, string) -> string, all: seq<Item>, docs: seq<Item>)
    requires docs <= all && AllFromAnchors(page, anchors, join, all)
    ensures AllFromAnchors(page, anchors, join, docs)
  {
    forall j | 0 <= j < |docs|
      ensures FromSomeAnchor(page, anchors, join, docs[j])
    {
      assert docs[j] == all[j];
    }
  }

  /** One pass of the anchor loop's body, before the cap is checked. */
  method StepAnchor(page: Page, docs: seq<Item>, seen: set<string>, a: Anchor, join: (string, string) -> string)
    returns (docs': seq<Item>, seen': set<string>)
    ensures Harvest(docs', seen') == Step(page, Harvest(docs, seen), a, join)
  {
    docs', seen' := docs, seen;
    var href := Strip(OrEmpty(a.href));
    if href == "" || SkippedHref(href) {
      assert Resolved(page, a, join) == None;
      return;
    }
    var absUrl := join(page.url, href);
    assert Resolved(page, a, join) == Some(absUrl);
    if !LooksLikeHttp(absUrl) || absUrl in seen {
      return;
    }
    seen' := seen + {absUrl};
    if !WantLinkForDomain(absUrl, page.domain) {
      return;
    }
    docs' := docs + [DocItem(page.source, page.url, absUrl, a.text)];
  }

  /** The anchor loop of `collect_html_async`: resolves, filters and deduplicates the links of the
      page and stops after 50 items. The result is the first 50 items of the uncapped harvest. */
  method CollectAnchors(page: Page, anchors: seq<Anchor>, join: (string, string) -> string)
    returns (docs: seq<Item>)
    ensures docs == Take(HarvestAll(page, anchors, join).docs, 50)
    ensures |docs| <= 50 && DistinctUrls(docs) && AllGood(page, docs)
    ensures AllFromAnchors(page, anchors, join, docs)
  {
    docs := [];
    var seen: set<string> := {};
    for i := 0 to |anchors|
      invariant Harvest(docs, seen) == HarvestAll(page, anchors[..i], join)
      invariant |docs| < 50
    {
      assert anchors[..i + 1][..i] == anchors[..i];
      docs, seen := StepAnchor(page, docs, seen, anchors[i], join);
      if |docs| >= 50 {
        HarvestPrefix(page, anchors, i + 1, join);
        CapReached(docs, HarvestAll(page, anchors, join).docs, 50);
        PrefixFacts(page, anchors, join, docs);
        return;
      }
    }
    assert anchors[..|anchors|] == anchors;
    PrefixFacts(page, anchors, join, docs);
  }

  /** A prefix of the harvest holds good, distinct items, each from the first anchor that resolves
      to its URL. */
  lemma PrefixFacts(page: Page, anchors: seq<Anchor>, join: (string, string) -> string, docs: seq<Item>)
    requires docs <= HarvestAll(page, anchors, join).docs
    ensures DistinctUrls(docs) && AllGood(page, docs) && AllFromAnchors(page, anchors, join, docs)
  {
    HarvestAllInv(page, anchors, join);
    PrefixInv(page, HarvestAll(page, anchors, join).docs, docs);
    HarvestAllSound(page, anchors, join);
    PrefixSound(page, anchors, join, HarvestAll(page, anchors, join).docs, docs);
  }

  /** A prefix of good, distinct items is good and distinct. */
  lemma PrefixInv(page: Page, all: seq<Item>, docs: seq<Item>)
    requires AllGood(page, all) && DistinctUrls(all) && docs <= all
    ensures AllGood(page, docs) && DistinctUrls(docs)
  {
    assert forall k :: 0 <= k < |docs| ==> docs[k] == all[k];
  }

  /** A prefix of exactly `n` elements is what `Take(_, n)` keeps. */
  lemma CapReached<T>(a: seq<T>, b: seq<T>, n: nat)
    requires a <= b && |a| == n
    ensures Take(b, n) == a
  {
  }

  // ---------------------------------------------------------------------------------------------
  // collect_html_async

  /** The page URL `collect_html_async` starts from: the stripped `source_url`, given an `https://`
      prefix (and its leading slashes dropped) when it is not already an http(s) URL. */
  function StartUrl(source: Source): (u: string)
    ensures u != [] && LooksLikeHttp(u)
  {
    var src := Strip(OrEmpty(source.sourceUrl));
    if LooksLikeHttp(src) then src
    else HttpsLooksLikeHttp(LStripChar(src, '/')); "https://" + LStripChar(src, '/')
  }

  /** The page the harvest runs on, for a 200 response. */
  function PageOf(reply: Reply, source: Source): Page
    requires reply.Response?
  {
    Page(reply.url, DomainOf(reply.url), source)
  }

  /** The part of `collect_html_async` after the candidates are known: fetch, parse, harvest. */
  method FetchAndHarvest(source: Source, urls: seq<string>, get: (nat, string) -> Reply, join: (string, string) -> string)
    returns (docs: seq<Item>, hit: Option<Hit>)
    ensures hit.None? ==> docs == [] && forall p, i :: 0 <= p <= 2 && 0 <= i < |urls| ==> !IsOk(get(p, urls[i]))
    ensures hit.Some? ==> IsFirstHit(urls, 2, get, hit.value)
    ensures hit.Some? && hit.value.reply.anchors.None? ==> docs == []
    ensures hit.Some? && hit.value.reply.anchors.Some? ==>
      && docs == Take(HarvestAll(PageOf(hit.value.reply, source), hit.value.reply.anchors.value, join).docs, 50)
      && DistinctUrls(docs) && AllGood(PageOf(hit.value.reply, source), docs)
  {
    var requests, waits;
    hit, requests, waits := FetchFirstOk(urls, 2, get);
    if hit.None? {
      return [], hit;
    }
    var reply := hit.value.reply;
    if reply.anchors.None? {
      return [], hit;
    }
    var page := Page(reply.url, DomainOf(reply.url), source);
    docs := CollectAnchors(page, reply.anchors.value, join);
  }

  /** `collect_html_async(client, source)`: fetches the first candidate page that answers 200 (three
      passes over the two candidates) and harvests its links. `Err` is the exception that
      `candidate_urls` raises for a URL `urlparse` rejects. Also returns the candidates and the hit. */
  method CollectHtml(source: Source, get: (nat, string) -> Reply, join: (string, string) -> string)
    returns (r: Result<seq<Item>>, urls: seq<string>, hit: Option<Hit>)
    ensures r.Err? <==> Target(StartUrl(source)).Err?
    ensures r.Ok? ==>
      && |urls| == 2
      && (set c | c in urls) == Candidates(Target(StartUrl(source)).value.0, Target(StartUrl(source)).value.1)
    ensures r.Ok? && hit.None? ==> r.value == [] && forall p, i :: 0 <= p <= 2 && 0 <= i < |urls| ==> !IsOk(get(p, urls[i]))
    ensures hit.Some? ==> r.Ok? && IsFirstHit(urls, 2, get, hit.value)
    ensures hit.Some? && hit.value.reply.anchors.None? ==> r == Ok([])
    ensures hit.Some? && hit.value.reply.anchors.Some? ==>
      && r == Ok(Take(HarvestAll(PageOf(hit.value.reply, source), hit.value.reply.anchors.value, join).docs, 50))
      && DistinctUrls(r.value) && AllGood(PageOf(hit.value.reply, source), r.value)
  {
    var src := StartUrl(source);
    var candidates := CandidateUrls(src);
    if candidates.Err? {
      return Err(candidates.message), [], None;
    }
    urls := candidates.value;
    var docs;
    docs, hit := FetchAndHarvest(source, urls, get, join);
    r := Ok(docs);
  }

  // ---------------------------------------------------------------------------------------------
  // collect_rss

  /** The item `collect_rss` emits for a feed entry read from `url`. */
  function RssItem(source: Source, e: Entry, url: string): Item {
    Item(
      country := NormalizeCountry(source.country),
      authority := source.authority,
      sourceUrl := source.sourceUrl,
      sourceType := Some("rss"),
      pdfSourceType := None,
      title := e.title,
      docUrl := e.link,
      publishedAt := OrElse(e.published, e.updated),
      summary := e.summary,
      createdAt := None,
      rawMeta := [("rss_url", url)])
  }

  /** The items of a list of entries, one each, in order. */
  function RssItems(source: Source, entries: seq<Entry>, url: string): (r: seq<Item>)
    ensures |r| == |entries|
    ensures forall k :: 0 <= k < |r| ==> r[k] == RssItem(source, entries[k], url)
    decreases |entries|
  {
    if entries == [] then []
    else RssItems(source, entries[..|entries| - 1], url) + [RssItem(source, entries[|entries| - 1], url)]
  }

  /** The loop of `collect_rss` over the (already capped) entries. */
  method RssLoop(source: Source, entries: seq<Entry>, url: string) returns (items: seq<Item>)
    ensures items == RssItems(source, entries, url)
  {
    items := [];
    for k := 0 to |entries|
      invariant items == RssItems(source, entries[..k], url)
    {
      assert entries[..k + 1][..k] == entries[..k];
      items := items + [RssItem(source, entries[k], url)];
    }
    assert entries[..|entries|] == entries;
  }

  /** `collect_rss(source)`: nothing unless the stripped `rss_url` is an http(s) URL; otherwise one
      item per entry of the feed read from it (`feed`), the first 50 entries only. */
  method CollectRss(source: Source, feed: string -> seq<Entry>) returns (items: seq<Item>)
    ensures !LooksLikeHttp(Strip(OrEmpty(source.rssUrl))) ==> items == []
    ensures LooksLikeHttp(Strip(OrEmpty(source.rssUrl))) ==>
      items == RssItems(source, Take(feed(Strip(OrEmpty(source.rssUrl))), 50), Strip(OrEmpty(source.rssUrl)))
  {
    var rawRss := Strip(OrEmpty(source.rssUrl));
    if !LooksLikeHttp(rawRss) {
      return [];
    }
    var url := rawRss;
    items := RssLoop(source, Take(feed(url), 50), url);
  }

  // ---------------------------------------------------------------------------------------------
  // collect_pdf_placeholder

  /** `collect_pdf_placeholder(source)`: a single item pointing at the source URL itself, when that
      URL is an http(s) URL. The type goes under the `_ingest_source_type` key. */
  function CollectPdfPlaceholder(source: Source): (r: seq<Item>)
    ensures |r| <= 1
    ensures r != [] <==> LooksLikeHttp(Strip(OrEmpty(source.sourceUrl)))
    ensures r != [] ==>
      var url := Strip(OrEmpty(source.sourceUrl));
      && r[0].docUrl == Some(url) && r[0].title == Some("PDF from " + url)
      && r[0].sourceType == None && r[0].pdfSourceType == Some("pdf") && r[0].rawMeta == []
  {
    var url := Strip(OrEmpty(source.sourceUrl));
    if !LooksLikeHttp(url) then []
    else
      [Item(
        country := NormalizeCountry(source.country),
        authority := source.authority,
        sourceUrl := source.sourceUrl,
        sourceType := None,
        pdfSourceType := Some("pdf"),
        title := Some("PDF from " + url),
        docUrl := Some(url),
        publishedAt := None,
        summary := None,
        createdAt := None,
        rawMeta := [])]
  }

  // ---------------------------------------------------------------------------------------------
  // save_items (database writes switched off)

  /** The preview line of one item; `None` when its title is missing, where slicing it raises. */
  function PreviewLine(it: Item): Option<string> {
    if it.title.None? then None
    else Some("  - " + Show(it.authority) + " | " + Take(it.title.value, 80) + " | " + Show(it.docUrl))
  }

  function Min(a: int, b: int): int {
    if a <= b then a else b
  }

  /** `save_items` with writes switched off: logs a count, the first five items and how many more
      there are. Returns the lines logged and whether it raised on an item without a title (the
      lines logged before that stay logged). */
  method PreviewSave(items: seq<Item>) returns (lines: seq<string>, raised: bool)
    ensures items == [] ==> lines == [] && !raised
    ensures items != [] ==> lines != [] && lines[0] == "\U{2192} " + Numerals.ShowInt(|items|) + " item(s) (simulaci\U{f3}n)"
    ensures raised <==> exists k :: 0 <= k < Min(5, |items|) && PreviewLine(items[k]).None?
    ensures raised ==> 1 <= |lines| <= Min(5, |items|) && PreviewLine(items[|lines| - 1]).None?
    ensures forall j :: 1 <= j < |lines| && j <= Min(5, |items|) ==> PreviewLine(items[j - 1]) == Some(lines[j])
    ensures !raised && items != [] ==>
      |lines| == 1 + Min(5, |items|) + (if |items| > 5 then 1 else 0)
      && (|items| > 5 ==> lines[|lines| - 1] == "  ... y " + Numerals.ShowInt(|items| - 5) + " m\U{e1}s")
    ensures |lines| <= 7
  {
    lines, raised := [], false;
    if items == [] {
      return;
    }
    lines := ["\U{2192} " + Numerals.ShowInt(|items|) + " item(s) (simulaci\U{f3}n)"];
    var shown := Take(items, 5);
    for k := 0 to |shown|
      invariant |lines| == 1 + k && lines[0] == "\U{2192} " + Numerals.ShowInt(|items|) + " item(s) (simulaci\U{f3}n)"
      invariant forall j :: 1 <= j < |lines| ==> PreviewLine(items[j - 1]) == Some(lines[j])
      invariant forall j :: 0 <= j < k ==> PreviewLine(items[j]).Some?
    {
      assert shown[k] == items[k];
      var line := PreviewLine(shown[k]);
      if line.None? {
        return lines, true;
      }
      lines := lines + [line.value];
    }
    if |items| > 5 {
      lines := lines + ["  ... y " + Numerals.ShowInt(|items| - 5) + " m\U{e1}s"];
    }
  }
}
