/**
 * URL helpers of the crawler pipeline: the http(s) test, the PDF test, the page domain, the country
 * default, the per-domain link filter and the candidate URLs tried for a source page.
 */
module PipelineUrls {
  import opened Wrappers
  import opened Text
  import opened UrlSplit

  /** `looks_like_http(u)`: after stripping and lower-casing, `u` starts with `http://` or `https://`. */
  predicate LooksLikeHttp(u: string) {
    u != [] && (StartsWith(Lower(Strip(u)), "http://") || StartsWith(Lower(Strip(u)), "https://"))
  }

  /** A string that begins with `https://` passes the http(s) test, whatever follows. */
  lemma HttpsLooksLikeHttp(x: string)
    ensures LooksLikeHttp("https://" + x)
  {
    var p := "https://";
    StripKeepsPrefix(p, x);
    var t := Strip(p + x);
    assert t[..8] == p;
    assert Lower(t)[..8] == p by {
      forall i | 0 <= i < 8 ensures Lower(t)[i] == p[i] {
        assert Lower(t)[i] == LowerChar(t[i]);
      }
    }
  }

  /** `is_pdf_url(u)`: the lower-cased `path` of `urlparse(u)` ends in `.pdf`; a `ValueError` from
      the parser reads as `False`. */
  predicate IsPdfUrl(u: string) {
    match UrlParse(u)
    case Err(_) => false
    case Ok(p) => EndsWith(Lower(p.path), ".pdf")
  }

  /** `domain_of(u)`: the lower-cased `netloc`, or `""` when the parser raises. */
  function DomainOf(u: string): (d: string)
    ensures '/' !in d && '?' !in d && '#' !in d
    ensures UrlParse(u).Err? ==> d == ""
  {
    match UrlParse(u)
    case Err(_) => ""
    case Ok(p) => LowerKeepsAbsent(p.netloc); Lower(p.netloc)
  }

  /** A query string or a fragment appended to a URL that has neither does not change whether it
      is a PDF, nor its domain: only the path and the authority count. */
  lemma PdfIgnoresQuery(u: string, sfx: string)
    requires '?' !in u && '#' !in u
    requires sfx != [] && IsSuffixStart(sfx[0])
    ensures IsPdfUrl(u + sfx) <==> IsPdfUrl(u)
    ensures DomainOf(u + sfx) == DomainOf(u)
  {
    ParseIgnoresSuffix(u, sfx);
  }

  /** Lower-casing only touches `A`-`Z`, so it introduces no `/`, `?` or `#`. */
  lemma LowerKeepsAbsent(s: string)
    ensures ('/' !in s ==> '/' !in Lower(s)) && ('?' !in s ==> '?' !in Lower(s))
    ensures '#' !in s ==> '#' !in Lower(s)
  {
    var l := Lower(s);
    forall i | 0 <= i < |l| ensures (l[i] == '/' || l[i] == '?' || l[i] == '#') ==> l[i] == s[i] {
      assert l[i] == LowerChar(s[i]);
    }
  }

  /** `normalize_country(c)`: the stripped country, or `"UAE"` when that is empty. */
  function NormalizeCountry(c: Option<string>): (r: string)
    ensures r != ""
    ensures Strip(OrEmpty(c)) != "" ==> r == Strip(OrEmpty(c))
    ensures Strip(OrEmpty(c)) == "" ==> r == "UAE"
  {
    var s := Strip(OrEmpty(c));
    if s in {"UAE", "KSA", "Qatar"} then s
    else if s != "" then s else "UAE"
  }

  /** Path fragments that make a link on `data.gov.qa` worth keeping. */
  const DataPortalMarkers: seq<string> := ["/explore/", "/dataset/", "/download", "/api/"]
  /** Keywords that make a link on `hukoomi.gov.qa` worth keeping. */
  const HukoomiKeywords: seq<string> :=
    ["policy", "policies", "strategy", "strategies", "data", "ai", "cyber", "security", "privacy"]
  /** Keywords that make a link on any other domain worth keeping. */
  const DefaultKeywords: seq<string> :=
    ["policy", "report", "document", "data", "ai", "cyber", "privacy", "security"]

  /** `any(k in u for k in ks)`. */
  predicate AnyIn(u: string, ks: seq<string>) {
    exists k :: k in ks && Contains(u, k)
  }

  /** `want_link_for_domain(abs_url, page_domain)`: a PDF is always wanted; otherwise the lower-cased
      URL must contain one of the keywords of the page's domain. */
  function WantLinkForDomain(absUrl: string, pageDomain: string): (r: bool)
    ensures IsPdfUrl(absUrl) ==> r
    ensures !IsPdfUrl(absUrl) && Contains(pageDomain, "data.gov.qa") ==>
      (r <==> AnyIn(Lower(absUrl), DataPortalMarkers))
    ensures !IsPdfUrl(absUrl) && !Contains(pageDomain, "data.gov.qa") && Contains(pageDomain, "hukoomi.gov.qa") ==>
      (r <==> AnyIn(Lower(absUrl), HukoomiKeywords))
    ensures !IsPdfUrl(absUrl) && !Contains(pageDomain, "data.gov.qa") && !Contains(pageDomain, "hukoomi.gov.qa") ==>
      (r <==> AnyIn(Lower(absUrl), DefaultKeywords))
  {
    var u := Lower(absUrl);
    if Contains(pageDomain, "data.gov.qa") then
      if IsPdfUrl(absUrl) then true
      else if AnyIn(u, DataPortalMarkers) then true
      else if Contains(u, "/pages/") && !IsPdfUrl(absUrl) then false
      else false
    else if Contains(pageDomain, "hukoomi.gov.qa") then
      if IsPdfUrl(absUrl) then true
      else AnyIn(u, HukoomiKeywords)
    else
      IsPdfUrl(absUrl) || AnyIn(u, DefaultKeywords)
  }

  /** The per-host path corrections of `candidate_urls`, applied in source order. */
  function OverridePath(host: string, path: string): string {
    var p1 := if Contains(host, "hukoomi.gov.qa") then "/en/policies-and-strategies" else path;
    var p2 :=
      if Contains(host, "mcit.gov.qa") && Contains(p1, "/policies") && !Contains(p1, "reports")
      then "/en/policies-and-reports/" else p1;
    if Contains(host, "ncsa.gov.qa") && (p2 == "/" || p2 == "") then "/en/" else p2
  }

  /** A host of none of the three special sites keeps its path. */
  lemma OverrideOtherHosts(host: string, path: string)
    requires !Contains(host, "hukoomi.gov.qa") && !Contains(host, "mcit.gov.qa") && !Contains(host, "ncsa.gov.qa")
    ensures OverridePath(host, path) == path
  {
  }

  /** `hukoomi.gov.qa` always gets the policies-and-strategies page. */
  lemma OverrideHukoomi(host: string, path: string)
    requires Contains(host, "hukoomi.gov.qa") && !Contains(host, "mcit.gov.qa")
    ensures OverridePath(host, path) == "/en/policies-and-strategies"
  {
  }

  /** `mcit.gov.qa` on a policies path that does not mention reports gets the policies-and-reports
      page. */
  lemma OverrideMcit(host: string, path: string)
    requires Contains(host, "mcit.gov.qa") && !Contains(host, "hukoomi.gov.qa")
    requires Contains(path, "/policies") && !Contains(path, "reports")
    ensures OverridePath(host, path) == "/en/policies-and-reports/"
  {
    NotRoot("/en/policies-and-reports/");
  }

  /** `ncsa.gov.qa` at its root gets the English home page. */
  lemma OverrideNcsa(host: string)
    requires Contains(host, "ncsa.gov.qa") && !Contains(host, "hukoomi.gov.qa")
    ensures OverridePath(host, "/") == "/en/"
  {
    assert !Contains("/", "/policies") by { NotContainsShort("/", "/policies"); }
  }

  lemma NotRoot(p: string)
    requires |p| > 1
    ensures p != "/" && p != ""
  {
  }

  /** A string shorter than `t` does not contain it. */
  lemma {:induction false} NotContainsShort(s: string, t: string)
    requires |s| < |t|
    ensures !Contains(s, t)
    decreases |s|
  {
    if s != [] { NotContainsShort(s[1..], t); }
  }

  /** `host` without a leading `www.`. */
  function BareHost(host: string): (b: string)
    ensures |b| <= |host| && b == host[|host| - |b|..]
  {
    if StartsWith(host, "www.") then host[4..] else host
  }

  /** `v.rstrip("/") + ("/" if path.endswith("/") else "")`. */
  function Finish(v: string, path: string): string {
    RStripChar(v, '/') + (if EndsWith(path, "/") then "/" else "")
  }

  /** The two variants `candidate_urls` returns for a host and a corrected path. */
  function Candidates(host: string, path: string): set<string> {
    var bare := BareHost(host);
    {Finish("https://www." + bare + path, path), Finish("https://" + bare + path, path)}
  }

  /** The host and corrected path `candidate_urls` builds its variants from, or the parser's error. */
  function Target(baseUrl: string): Result<(string, string)> {
    var b := Strip(baseUrl);
    var b2 := if LooksLikeHttp(b) then b else "https://" + LStripChar(b, '/');
    match UrlParse(b2)
    case Err(e) => Err(e)
    case Ok(u) =>
      var host := Lower(u.netloc);
      Ok((host, OverridePath(host, if u.path == "" then "/" else u.path)))
  }

  /** The `www.` and bare variants always differ, so there are exactly two candidates. */
  lemma CandidatesTwo(host: string, path: string)
    ensures |Candidates(host, path)| == 2
  {
    var x := BareHost(host) + path;
    var tail: string := if EndsWith(path, "/") then "/" else "";
    var w, b := "https://www." + x, "https://" + x;
    assert "https://www." + BareHost(host) + path == w;
    assert "https://" + BareHost(host) + path == b;
    RStripCharAfter("https://www.", x, '/');
    RStripCharLength("https://", x, '/');
    assert |Finish(w, path)| > |Finish(b, path)|;
  }

  /** `Finish` adds no `?` or `#`. */
  lemma FinishNoQuery(v: string, path: string)
    requires '?' !in v && '#' !in v
    ensures '?' !in Finish(v, path) && '#' !in Finish(v, path)
  {
    var r := RStripChar(v, '/');
    assert forall k :: 0 <= k < |r| ==> r[k] == v[k];
  }

  /** `Finish` leaves one `/` at the end exactly when the path ends in `/`. */
  lemma FinishEnds(v: string, path: string)
    requires v != [] && v[0] != '/'
    ensures var c := Finish(v, path);
      && (EndsWith(path, "/") ==> EndsWith(c, "/") && !EndsWith(c[..|c| - 1], "/"))
      && (!EndsWith(path, "/") ==> !EndsWith(c, "/"))
  {
    var r := RStripChar(v, '/');
    assert r != [];
    var c := Finish(v, path);
    if EndsWith(path, "/") {
      assert c[..|c| - 1] == r;
    } else {
      assert c == r && r[|r| - 1] != '/';
      assert c[|c| - 1..] != "/";
    }
  }

  /** `Finish` keeps a prefix that does not end in `/`. */
  lemma FinishPrefix(pre: string, path: string)
    requires pre != [] && pre[|pre| - 1] != '/'
    ensures StartsWith(Finish(pre + path, path), pre)
  {
    RStripCharAfter(pre, path, '/');
  }

  /** The shape of `Finish(pre + path, path)` for a prefix that starts with `https://`. */
  lemma FinishShape(pre: string, path: string)
    requires StartsWith(pre, "https://")
    requires '?' !in pre && '#' !in pre && '?' !in path && '#' !in path
    ensures var c := Finish(pre + path, path);
      && '?' !in c && '#' !in c
      && (EndsWith(path, "/") ==> EndsWith(c, "/") && !EndsWith(c[..|c| - 1], "/"))
      && (!EndsWith(path, "/") ==> !EndsWith(c, "/"))
      && (pre[|pre| - 1] != '/' ==> StartsWith(c, pre))
  {
    var v := pre + path;
    assert v[0] == 'h';
    assert '?' !in v && '#' !in v by {
      assert forall k :: 0 <= k < |v| ==> v[k] in pre || v[k] in path;
    }
    FinishNoQuery(v, path);
    FinishEnds(v, path);
    if pre[|pre| - 1] != '/' {
      FinishPrefix(pre, path);
    }
  }

  /** `www.` followed by a host with no `/`, `?` or `#`, or that host alone, forms a prefix
      `FinishShape` applies to. */
  lemma HostPrefix(host: string, www: bool)
    requires '?' !in host && '#' !in host && '/' !in host
    ensures var pre := (if www then "https://www." else "https://") + BareHost(host);
      && StartsWith(pre, "https://") && '?' !in pre && '#' !in pre
      && ((www || BareHost(host) != "") ==> pre[|pre| - 1] != '/')
  {
    var bare := BareHost(host);
    assert forall k :: 0 <= k < |bare| ==> bare[k] == host[|host| - |bare| + k];
    var sch := if www then "https://www." else "https://";
    SchemeClean(sch);
    JoinClean(sch, bare);
  }

  lemma SchemeClean(sch: string)
    requires sch == "https://www." || sch == "https://"
    ensures StartsWith(sch, "https://") && '?' !in sch && '#' !in sch
    ensures sch == "https://www." ==> sch[|sch| - 1] == '.'
  {
  }

  lemma JoinClean(sch: string, bare: string)
    requires StartsWith(sch, "https://") && '?' !in sch && '#' !in sch
    requires '?' !in bare && '#' !in bare && '/' !in bare
    ensures StartsWith(sch + bare, "https://") && '?' !in sch + bare && '#' !in sch + bare
    ensures bare != "" ==> (sch + bare)[|sch + bare| - 1] != '/'
    ensures bare == "" ==> (sch + bare)[|sch + bare| - 1] == sch[|sch| - 1]
  {
    var pre := sch + bare;
    assert forall k :: 0 <= k < |pre| ==> pre[k] in sch || pre[k] in bare;
    if bare != "" {
      assert pre[|pre| - 1] == bare[|bare| - 1];
    }
  }

  /** The shape of every candidate: no query or fragment survives, a trailing `/` appears exactly
      when the path ends in one (and is then single), and the result starts with `https://` unless
      the host is empty apart from a `www.`. */
  lemma CandidateShape(host: string, path: string, c: string)
    requires '?' !in host && '#' !in host && '/' !in host
    requires '?' !in path && '#' !in path
    requires c in Candidates(host, path)
    ensures '?' !in c && '#' !in c
    ensures EndsWith(path, "/") ==> EndsWith(c, "/") && !EndsWith(c[..|c| - 1], "/")
    ensures !EndsWith(path, "/") ==> !EndsWith(c, "/")
    ensures BareHost(host) != "" ==> StartsWith(c, "https://")
  {
    var bare := BareHost(host);
    if c == Finish("https://www." + bare + path, path) {
      VariantShape(host, path, true);
    } else {
      VariantShape(host, path, false);
    }
  }

  /** `CandidateShape` for one of the two variants. */
  lemma VariantShape(host: string, path: string, www: bool)
    requires '?' !in host && '#' !in host && '/' !in host
    requires '?' !in path && '#' !in path
    ensures var c := Finish((if www then "https://www." else "https://") + BareHost(host) + path, path);
      && '?' !in c && '#' !in c
      && (EndsWith(path, "/") ==> EndsWith(c, "/") && !EndsWith(c[..|c| - 1], "/"))
      && (!EndsWith(path, "/") ==> !EndsWith(c, "/"))
      && (BareHost(host) != "" ==> StartsWith(c, "https://"))
  {
    var pre := (if www then "https://www." else "https://") + BareHost(host);
    HostPrefix(host, www);
    FinishShape(pre, path);
    if BareHost(host) != "" {
      assert StartsWith(Finish(pre + path, path), pre);
      assert pre[..8] == "https://";
    }
  }

  /** `list(s)`: the elements of a set in some order, each once. */
  method ListOf(s: set<string>) returns (xs: seq<string>)
    ensures |xs| == |s| && (set x | x in xs) == s
    ensures forall i, j :: 0 <= i < j < |xs| ==> xs[i] != xs[j]
  {
    xs := [];
    var rest := s;
    while rest != {}
      invariant (set x | x in xs) + rest == s
      invariant forall x :: x in xs ==> x !in rest
      invariant |xs| + |rest| == |s|
      invariant forall i, j :: 0 <= i < j < |xs| ==> xs[i] != xs[j]
      decreases |rest|
    {
      var x :| x in rest;
      xs := xs + [x];
      rest := rest - {x};
    }
  }

  /** The path of a parsed URL after `or "/"` and the overrides carries no `?` or `#`. */
  lemma OverridePathClean(host: string, path: string)
    requires '?' !in path && '#' !in path
    ensures '?' !in OverridePath(host, path) && '#' !in OverridePath(host, path)
  {
    OverrideLiteralsClean();
  }

  lemma OverrideLiteralsClean()
    ensures '?' !in "/en/policies-and-strategies" && '#' !in "/en/policies-and-strategies"
    ensures '?' !in "/en/policies-and-reports/" && '#' !in "/en/policies-and-reports/"
    ensures '?' !in "/en/" && '#' !in "/en/"
  {
  }

  /** The second variant `candidate_urls` adds: the host with its `www.` toggled. */
  function Alternate(host: string, path: string): string {
    if StartsWith(host, "www.") then "https://" + host[4..] + path else "https://www." + host + path
  }

  /** The rebuilt set of the base URL and its alternate is `Candidates`. */
  lemma VariantsAreCandidates(host: string, path: string, variants: set<string>)
    requires variants == {"https://" + host + path} + {Alternate(host, path)}
    ensures (set v | v in variants :: Finish(v, path)) == Candidates(host, path)
  {
    if StartsWith(host, "www.") {
      assert host == "www." + host[4..];
      assert "https://" + host + path == "https://www." + host[4..] + path;
    }
  }

  /** Every member of `Candidates` for the parsed host and a clean path has the promised shape. */
  lemma CandidatesShape(host: string, path: string)
    requires '?' !in host && '#' !in host && '/' !in host
    requires '?' !in path && '#' !in path
    ensures forall c :: c in Candidates(host, path) ==>
      && '?' !in c && '#' !in c && (EndsWith(c, "/") <==> EndsWith(path, "/"))
      && (BareHost(host) != "" ==> StartsWith(c, "https://"))
  {
    forall c | c in Candidates(host, path)
      ensures '?' !in c && '#' !in c && (EndsWith(c, "/") <==> EndsWith(path, "/"))
      ensures BareHost(host) != "" ==> StartsWith(c, "https://")
    {
      CandidateShape(host, path, c);
    }
  }

  /** The target's host has no `/`, `?` or `#`, and its path no `?` or `#`. */
  lemma TargetClean(baseUrl: string)
    requires Target(baseUrl).Ok?
    ensures var (host, path) := Target(baseUrl).value;
      '?' !in host && '#' !in host && '/' !in host && '?' !in path && '#' !in path
  {
    var b := Strip(baseUrl);
    var b2 := if LooksLikeHttp(b) then b else "https://" + LStripChar(b, '/');
    var u := UrlParse(b2).value;
    LowerKeepsAbsent(u.netloc);
    OverridePathClean(Lower(u.netloc), if u.path == "" then "/" else u.path);
  }

  /** `candidate_urls(base_url)`, following its set updates. `Err` is the parser's `ValueError`,
      which the function lets through. For a non-empty input the result holds the two candidates of
      the target host and corrected path, each once, each without query or fragment, each ending
      in `/` exactly when that path does. */
  method CandidateUrls(baseUrl: string) returns (r: Result<seq<string>>)
    ensures baseUrl == "" ==> r == Ok([])
    ensures baseUrl != "" ==> (r.Err? <==> Target(baseUrl).Err?)
    ensures baseUrl != "" && r.Ok? ==>
      var (host, path) := Target(baseUrl).value;
      && |r.value| == 2 && r.value[0] != r.value[1]
      && (set c | c in r.value) == Candidates(host, path)
      && (forall c :: c in r.value ==> '?' !in c && '#' !in c)
      && (forall c :: c in r.value ==> (EndsWith(c, "/") <==> EndsWith(path, "/")))
      && (BareHost(host) != "" ==> forall c :: c in r.value ==> StartsWith(c, "https://"))
  {
    if baseUrl == "" {
      return Ok([]);
    }
    var b := Strip(baseUrl);
    if !LooksLikeHttp(b) {
      b := "https://" + LStripChar(b, '/');
    }
    var u := UrlParse(b);
    if u.Err? {
      return Err(u.message);
    }
    var host := Lower(u.value.netloc);
    var path := OverridePath(host, if u.value.path == "" then "/" else u.value.path);
    var variants := {"https://" + host + path};
    variants := variants + {Alternate(host, path)};
    VariantsAreCandidates(host, path, variants);
    variants := set v | v in variants :: Finish(v, path);
    assert Target(baseUrl) == Ok((host, path));
    CandidatesTwo(host, path);
    TargetClean(baseUrl);
    CandidatesShape(host, path);
    var xs := ListOf(variants);
    return Ok(xs);
  }
}
