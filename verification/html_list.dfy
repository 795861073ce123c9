/**
 * The legacy list-page parser (`src/ingest/parsers/html_list.py`): one `Regulation` per matched
 * node, with the link resolved against the page URL and the title defaulted.
 *
 * Fetching the page and running the CSS selectors are left to the caller: each matched node comes
 * in as the text of its title node, the `href` of its link node and the text of its date node.
 * `dateparser` and pydantic's URL check are parameters.
 */
module HtmlList {
  import opened Wrappers
  import opened Text
  import opened Seqs
  import opened Legacy

  /** The `href` of a node's link node as the HTML parser's attribute map gives it: no link node or
      no `href` attribute (read as `''`), an `href` written without a value (read as `None`), or a
      value. */
  datatype Href = NoHref | Valueless | Given(value: string)

  /** A node matched by `item_selector`: the stripped text of its title node (`None` when there
      is none), the `href` of its link node and the stripped text of its date node. */
  datatype ListNode = ListNode(titleText: Option<string>, href: Href, dateText: Option<string>)

  /** The `href` text the link is built from. A valueless `href` never gets that far: testing its
      prefix raises first. */
  function HrefText(h: Href): string {
    if h.Given? then h.value else ""
  }

  /** The arguments of `parse_list` that shape every item. */
  datatype ListPage = ListPage(
    url: string, dateSelector: Option<string>, country: string, authority: string,
    docType: string, status: string, topics: Option<seq<string>>)

  /** `href if href.startswith('http') else url.rstrip('/') + '/' + href.lstrip('/')`. */
  function ResolveLink(url: string, href: string): (link: string)
    ensures StartsWith(href, "http") ==> link == href
    ensures !StartsWith(href, "http") ==> link == RStripChar(url, '/') + "/" + LStripChar(href, '/')
  {
    if StartsWith(href, "http") then href else RStripChar(url, '/') + "/" + LStripChar(href, '/')
  }

  /** A relative link is the page URL and the `href` joined by exactly one slash: the page part
      does not end in `/` and the `href` part does not start with one. */
  lemma ResolveRelative(url: string, href: string)
    requires !StartsWith(href, "http")
    ensures ResolveLink(url, href) == RStripChar(url, '/') + "/" + LStripChar(href, '/')
    ensures var p := RStripChar(url, '/'); p == [] || p[|p| - 1] != '/'
    ensures var q := LStripChar(href, '/'); q == [] || q[0] != '/'
    ensures var l := ResolveLink(url, href); l[|RStripChar(url, '/')|] == '/'
  {
    var p, q := RStripChar(url, '/'), LStripChar(href, '/');
    assert (p + "/" + q)[|p|] == '/';
  }

  /** A node without a link resolves to the page URL with one trailing slash. */
  lemma MissingLink(url: string)
    ensures ResolveLink(url, HrefText(NoHref)) == RStripChar(url, '/') + "/"
  {
    assert !StartsWith("", "http");
    assert LStripChar("", '/') == "";
  }

  /** On a page whose URL starts with `http`, every link starts with `http`, so resolving a resolved
      link changes nothing. */
  lemma ResolveAbsolute(url: string, href: string)
    requires StartsWith(url, "http")
    ensures StartsWith(ResolveLink(url, href), "http")
    ensures ResolveLink(url, ResolveLink(url, href)) == ResolveLink(url, href)
  {
    if !StartsWith(href, "http") {
      var p := RStripChar(url, '/');
      assert url[3] == 'p' && url[0] == 'h';
      assert url[3] != '/';
      assert |p| >= 4;
      assert p[..4] == url[..4] == "http";
      assert (p + "/" + LStripChar(href, '/'))[..4] == p[..4];
    }
  }

  /** The publish date: parsed from the date node's text when a date selector is given and the node
      exists; `None` when the parser gives nothing. */
  function PublishDate(page: ListPage, node: ListNode, parseDate: string -> Option<string>): Option<string> {
    if Truthy(page.dateSelector) && node.dateText.Some? then parseDate(node.dateText.value) else None
  }

  /** The link of a node. */
  function NodeLink(page: ListPage, node: ListNode): string {
    ResolveLink(page.url, HrefText(node.href))
  }

  /** The record `parse_list` builds for one node. */
  function NodeItem(page: ListPage, node: ListNode, parseDate: string -> Option<string>): Regulation {
    Regulation(
      country := page.country,
      authority := page.authority,
      title := DefaultTitle(node.titleText),
      url := NodeLink(page, node),
      docType := Some(page.docType),
      status := Some(page.status),
      topics := TopicsOrEmpty(page.topics),
      publishDate := PublishDate(page, node, parseDate),
      effectiveDate := None,
      summary := None,
      rawText := None,
      impactLevel := None,
      source := Some("html:" + page.authority))
  }

  /** The records of all nodes, in node order. */
  function ListItems(page: ListPage, nodes: seq<ListNode>, parseDate: string -> Option<string>): (r: seq<Regulation>)
    ensures |r| == |nodes|
  {
    MapAll(nodes, ItemOf(page, parseDate))
  }

  /** `NodeItem` for a fixed page. */
  function ItemOf(page: ListPage, parseDate: string -> Option<string>): ListNode -> Regulation {
    n => NodeItem(page, n, parseDate)
  }

  /** The error a node raises, if any: a valueless `href` has no `startswith`; otherwise pydantic
      rejects a link that is not an http(s) URL. */
  function NodeError(page: ListPage, httpUrl: string -> bool, n: ListNode): (e: Option<string>)
    ensures n.href.Valueless? ==> e == Some(NoHrefValue)
    ensures !n.href.Valueless? ==> (e.None? <==> httpUrl(NodeLink(page, n)))
    ensures !n.href.Valueless? && e.Some? ==> e == Some(InvalidUrl)
  {
    if n.href.Valueless? then Some(NoHrefValue)
    else if httpUrl(NodeLink(page, n)) then None
    else Some(InvalidUrl)
  }

  /** `NodeError` for a fixed page. */
  function NodeCheck(page: ListPage, httpUrl: string -> bool): ListNode -> Option<string> {
    n => NodeError(page, httpUrl, n)
  }

  /** Every node has a usable `href` and a link that passes pydantic's URL check. */
  predicate AllLinksValid(page: ListPage, nodes: seq<ListNode>, httpUrl: string -> bool) {
    forall i :: 0 <= i < |nodes| ==> !nodes[i].href.Valueless? && httpUrl(NodeLink(page, nodes[i]))
  }

  /** The message of the validation error for a rejected link. */
  const InvalidUrl := "url: Input should be a valid URL"

  /** The message of the `AttributeError` for a valueless `href`. */
  const NoHrefValue := "'NoneType' object has no attribute 'startswith'"

  /** `parse_list` over the matched nodes: the loop builds one record per node, in order; the first
      node with a valueless `href`, or whose link is not an http(s) URL, raises and ends the parse. */
  method ParseList(page: ListPage, nodes: seq<ListNode>, parseDate: string -> Option<string>, httpUrl: string -> bool)
    returns (r: Result<seq<Regulation>>)
    ensures r.Ok? <==> AllLinksValid(page, nodes, httpUrl)
    ensures r.Ok? ==> r.value == ListItems(page, nodes, parseDate)
    ensures r.Err? ==> r.message == FirstError(nodes, NodeCheck(page, httpUrl)).value
    ensures r.Err? ==> r.message == NoHrefValue || r.message == InvalidUrl
  {
    r := MapChecked(nodes, NodeCheck(page, httpUrl), ItemOf(page, parseDate));
    NodeChecks(page, nodes, httpUrl);
  }

  lemma NodeChecks(page: ListPage, nodes: seq<ListNode>, httpUrl: string -> bool)
    ensures AllLinksValid(page, nodes, httpUrl) <==> FirstError(nodes, NodeCheck(page, httpUrl)).None?
    ensures FirstError(nodes, NodeCheck(page, httpUrl)).Some? ==>
      FirstError(nodes, NodeCheck(page, httpUrl)).value in {NoHrefValue, InvalidUrl}
  {
    assert AllLinksValid(page, nodes, httpUrl) <==> forall i :: 0 <= i < |nodes| ==> NodeCheck(page, httpUrl)(nodes[i]).None?;
  }

  /** A node whose `href` has no value ends the parse with the `AttributeError`, unless an earlier
      node already raised. */
  lemma ValuelessHrefRaises(page: ListPage, nodes: seq<ListNode>, httpUrl: string -> bool, i: nat)
    requires i < |nodes| && nodes[i].href.Valueless?
    requires forall j :: 0 <= j < i ==> NodeError(page, httpUrl, nodes[j]).None?
    ensures !AllLinksValid(page, nodes, httpUrl)
    ensures FirstError(nodes, NodeCheck(page, httpUrl)) == Some(NoHrefValue)
  {
    FirstErrorAt(nodes, NodeCheck(page, httpUrl), i);
  }

  /** Each record belongs to its node: the title is never empty, the source names the authority. */
  lemma ListItemsShape(page: ListPage, nodes: seq<ListNode>, parseDate: string -> Option<string>, i: nat)
    requires i < |nodes|
    ensures |ListItems(page, nodes, parseDate)| == |nodes|
    ensures ListItems(page, nodes, parseDate)[i].title != ""
    ensures ListItems(page, nodes, parseDate)[i].url == ResolveLink(page.url, HrefText(nodes[i].href))
    ensures ListItems(page, nodes, parseDate)[i].source == Some("html:" + page.authority)
  {
  }

  /** `run`: parse the list page, then upsert the records; a page without matched nodes never
      reaches the store. */
  method Run(page: ListPage, nodes: seq<ListNode>, parseDate: string -> Option<string>, httpUrl: string -> bool,
             store: seq<Regulation> -> Result<seq<Regulation>>)
    returns (r: Result<nat>)
    ensures !AllLinksValid(page, nodes, httpUrl) ==> r == Err(FirstError(nodes, NodeCheck(page, httpUrl)).value)
    ensures AllLinksValid(page, nodes, httpUrl) ==> r == UpsertItems(ListItems(page, nodes, parseDate), store)
    ensures nodes == [] ==> r == Ok(0)
  {
    var items := ParseList(page, nodes, parseDate, httpUrl);
    if items.Err? {
      return Err(items.message);
    }
    r := UpsertItems(items.value, store);
  }
}
