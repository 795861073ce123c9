/**
 * The parts of `urllib.parse.urlparse(url)` the crawler reads (`netloc` and `path`), following the
 * standard library's `urlsplit` / `urlparse` of Python 3.11 and later.
 */
module UrlSplit {
  import opened Wrappers
  import opened Text
  import Parts

  datatype ParsedUrl = ParsedUrl(
    scheme: string, netloc: string, path: string, params: string, query: string, fragment: string)

  predicate IsAsciiAlpha(c: char) {
    ('a' <= c <= 'z') || ('A' <= c <= 'Z')
  }

  /** Characters allowed in a scheme name. */
  predicate IsSchemeChar(c: char) {
    IsAsciiAlpha(c) || ('0' <= c <= '9') || c == '+' || c == '-' || c == '.'
  }

  /** Tab, CR and LF, which `urlsplit` deletes wherever they occur. */
  predicate IsUnsafe(c: char) {
    c == '\t' || c == '\r' || c == '\n'
  }

  function RemoveUnsafe(s: string): (r: string)
    ensures forall i :: 0 <= i < |r| ==> !IsUnsafe(r[i])
    ensures (forall i :: 0 <= i < |s| ==> !IsUnsafe(s[i])) ==> r == s
    decreases |s|
  {
    if s == [] then []
    else if IsUnsafe(s[0]) then RemoveUnsafe(s[1..])
    else [s[0]] + RemoveUnsafe(s[1..])
  }

  /** Leading C0 controls and spaces (code points up to U+0020), which `urlsplit` strips. */
  function StripC0(s: string): (r: string)
    ensures |r| <= |s| && r == s[|s| - |r|..]
    ensures r == [] || r[0] > ' '
    ensures s != [] && s[0] > ' ' ==> r == s
    decreases |s|
  {
    if s != [] && s[0] <= ' ' then StripC0(s[1..]) else s
  }

  /** The `(scheme, rest)` split at the first `:` when what precedes it is a scheme name. */
  function SplitScheme(url: string): (r: (string, string))
    ensures r.0 == [] ==> r.1 == url
  {
    if ':' !in url then ("", url)
    else
      var i := Parts.IndexOf(url, ':');
      if i > 0 && IsAsciiAlpha(url[0]) && forall k :: 0 <= k < i ==> IsSchemeChar(url[k]) then
        (Lower(url[..i]), url[i + 1..])
      else ("", url)
  }

  predicate IsNetlocEnd(c: char) {
    c == '/' || c == '?' || c == '#'
  }

  /** Index of the first `/`, `?` or `#` in `s`, or `|s|`. */
  function NetlocEnd(s: string): (i: nat)
    ensures i <= |s| && (i < |s| ==> IsNetlocEnd(s[i]))
    ensures forall k :: 0 <= k < i ==> !IsNetlocEnd(s[k])
  {
    if s == [] || IsNetlocEnd(s[0]) then 0 else 1 + NetlocEnd(s[1..])
  }

  /** Index of the last `/` in `s`. */
  function LastSlash(s: string): (i: nat)
    requires '/' in s
    ensures i < |s| && s[i] == '/' && '/' !in s[i + 1..]
  {
    if s[|s| - 1] == '/' then |s| - 1
    else
      assert '/' in s[..|s| - 1] by {
        var j :| 0 <= j < |s| && s[j] == '/';
        assert s[..|s| - 1][j] == '/';
      }
      LastSlash(s[..|s| - 1])
  }

  /** Schemes whose URLs may carry `;parameters` on their last path segment. */
  predicate UsesParams(scheme: string) {
    scheme in {"", "ftp", "hdl", "prospero", "http", "imap", "https", "shttp", "rtsp", "rtsps",
               "rtspu", "sip", "sips", "mms", "sftp", "tel"}
  }

  /** `_splitparams`: the `;` that starts the parameters is the first one after the last `/`. */
  function SplitParams(path: string): (r: (string, string))
    requires ';' in path
    ensures r.0 <= path
  {
    if '/' in path then
      var j := LastSlash(path);
      var tail := path[j..];
      if ';' !in tail then (path, "")
      else
        var i := j + Parts.IndexOf(tail, ';');
        (path[..i], path[i + 1..])
    else
      var i := Parts.IndexOf(path, ';');
      (path[..i], path[i + 1..])
  }

  /** `_splitnetloc`: after a leading `//`, the authority runs up to the first `/`, `?` or `#`. */
  function SplitNetloc(rest: string): (r: (string, string))
    ensures '/' !in r.0 && '?' !in r.0 && '#' !in r.0
  {
    if |rest| >= 2 && rest[..2] == "//" then
      var e := 2 + NetlocEnd(rest[2..]);
      assert forall k :: 0 <= k < |rest[2..e]| ==> rest[2..e][k] == rest[2..][k];
      (rest[2..e], rest[e..])
    else ("", rest)
  }

  /** The fragment after the first `#`, then the query after the first `?` of what precedes it. */
  function SplitQueryFragment(rest: string): (r: (string, string, string))
    ensures '?' !in r.0 && '#' !in r.0
  {
    var (beforeFrag, fragment) := if '#' in rest then Parts.SplitFirst(rest, '#') else (rest, "");
    var (path, query) := if '?' in beforeFrag then Parts.SplitFirst(beforeFrag, '?') else (beforeFrag, "");
    assert forall k :: 0 <= k < |path| ==> path[k] == beforeFrag[k];
    (path, query, fragment)
  }

  /** `urlparse(url)`; `Err` is the `ValueError` raised for a netloc with an unmatched `[` or `]`. */
  function UrlParse(url0: string): (r: Result<ParsedUrl>)
    ensures r.Ok? ==> '/' !in r.value.netloc && '?' !in r.value.netloc && '#' !in r.value.netloc
    ensures r.Ok? ==> '?' !in r.value.path && '#' !in r.value.path
  {
    SplitClean(RemoveUnsafe(StripC0(url0)))
  }

  /** The split of a URL once leading controls and tabs and newlines are gone. */
  function SplitClean(url: string): (r: Result<ParsedUrl>)
    ensures r.Ok? ==> '/' !in r.value.netloc && '?' !in r.value.netloc && '#' !in r.value.netloc
    ensures r.Ok? ==> '?' !in r.value.path && '#' !in r.value.path
  {
    var (scheme, rest) := SplitScheme(url);
    var (netloc, rest2) := SplitNetloc(rest);
    if ('[' in netloc) != (']' in netloc) then Err("Invalid IPv6 URL")
    else
      var (path0, query, fragment) := SplitQueryFragment(rest2);
      var (path, params) := if UsesParams(scheme) && ';' in path0 then SplitParams(path0) else (path0, "");
      assert path <= path0;
      assert forall k :: 0 <= k < |path| ==> path[k] == path0[k];
      Ok(ParsedUrl(scheme, netloc, path, params, query, fragment))
  }

  // ---------------------------------------------------------------------------------------------
  // A query or fragment appended to a URL

  /** A character that can start a query or a fragment. */
  predicate IsSuffixStart(c: char) {
    c == '?' || c == '#'
  }

  lemma {:induction false} StripC0Append(a: string, b: string)
    requires b != [] && b[0] > ' '
    ensures StripC0(a + b) == StripC0(a) + b
    decreases |a|
  {
    if a != [] {
      assert (a + b)[0] == a[0] && (a + b)[1..] == a[1..] + b;
      if a[0] <= ' ' {
        StripC0Append(a[1..], b);
      }
    } else {
      assert a + b == b;
    }
  }

  lemma {:induction false} RemoveUnsafeAppend(a: string, b: string)
    ensures RemoveUnsafe(a + b) == RemoveUnsafe(a) + RemoveUnsafe(b)
    decreases |a|
  {
    if a == [] {
      assert a + b == b;
    } else {
      assert (a + b)[0] == a[0] && (a + b)[1..] == a[1..] + b;
      RemoveUnsafeAppend(a[1..], b);
    }
  }

  /** Deleting characters brings in no new ones. */
  lemma {:induction false} RemoveUnsafeAbsent(s: string, c: char)
    requires c !in s
    ensures c !in RemoveUnsafe(s)
    decreases |s|
  {
    if s != [] {
      assert c !in s[1..];
      RemoveUnsafeAbsent(s[1..], c);
    }
  }

  /** A suffix that starts with a non-scheme character leaves the scheme alone and stays on the
      rest. */
  lemma SplitSchemeAppend(url: string, sfx: string)
    requires '?' !in url && '#' !in url
    requires sfx != [] && IsSuffixStart(sfx[0])
    ensures SplitScheme(url + sfx).0 == SplitScheme(url).0
    ensures SplitScheme(url + sfx).1 == SplitScheme(url).1 + sfx
    ensures '?' !in SplitScheme(url).1 && '#' !in SplitScheme(url).1
  {
    var w := url + sfx;
    assert w[..|url|] == url;
    if ':' in url {
      var i := Parts.IndexOf(url, ':');
      assert w[i] == ':' && w[..i] == url[..i];
      Parts.IndexOfFirst(w, ':', i);
      assert w[..i] == url[..i] && w[i + 1..] == url[i + 1..] + sfx;
      assert forall k :: 0 <= k < i ==> w[k] == url[k];
    } else if ':' in w {
      var i := Parts.IndexOf(w, ':');
      assert w[|url|] == sfx[0];
      assert i > |url|;
      assert !IsSchemeChar(w[|url|]);
    }
  }

  lemma {:induction false} NetlocEndAppend(a: string, b: string)
    requires b != [] && IsNetlocEnd(b[0])
    ensures NetlocEnd(a + b) == NetlocEnd(a)
    decreases |a|
  {
    if a == [] {
      assert a + b == b;
    } else {
      assert (a + b)[0] == a[0] && (a + b)[1..] == a[1..] + b;
      if !IsNetlocEnd(a[0]) {
        NetlocEndAppend(a[1..], b);
      }
    }
  }

  /** A suffix that starts with `?` or `#` ends the authority, so it stays on the rest. */
  lemma SplitNetlocAppend(rest: string, sfx: string)
    requires '?' !in rest && '#' !in rest
    requires sfx != [] && IsSuffixStart(sfx[0])
    ensures SplitNetloc(rest + sfx).0 == SplitNetloc(rest).0
    ensures SplitNetloc(rest + sfx).1 == SplitNetloc(rest).1 + sfx
    ensures '?' !in SplitNetloc(rest).1 && '#' !in SplitNetloc(rest).1
  {
    var w := rest + sfx;
    if |rest| >= 2 && rest[..2] == "//" {
      assert w[..2] == rest[..2];
      assert w[2..] == rest[2..] + sfx;
      NetlocEndAppend(rest[2..], sfx);
      var e := 2 + NetlocEnd(rest[2..]);
      assert w[2..e] == rest[2..e];
      assert w[e..] == rest[e..] + sfx;
      assert forall k :: 0 <= k < |rest[e..]| ==> rest[e..][k] == rest[e + k];
    } else if |w| >= 2 {
      assert w[..2] != "//" by {
        if |rest| >= 2 {
          assert w[..2] == rest[..2];
        } else if |rest| == 1 {
          assert w[1] == sfx[0];
        } else {
          assert w[0] == sfx[0];
        }
      }
    }
  }

  /** With no `?` or `#` before the suffix, the path is everything before it. */
  lemma SplitQueryFragmentAppend(rest: string, sfx: string)
    requires '?' !in rest && '#' !in rest
    requires sfx != [] && IsSuffixStart(sfx[0])
    ensures SplitQueryFragment(rest + sfx).0 == rest == SplitQueryFragment(rest).0
  {
    var w := rest + sfx;
    assert w[|rest|] == sfx[0] && w[..|rest|] == rest;
    var bf := if '#' in w then Parts.SplitFirst(w, '#').0 else w;
    if '#' in w {
      var (b, f) := Parts.SplitFirst(w, '#');
      assert w[|b|] == '#';
      assert |b| >= |rest|;
      assert w[..|b|] == b;
      assert b[..|rest|] == rest;
      if sfx[0] == '#' {
        assert w[|rest|] == '#';
        assert |b| == |rest|;
        assert b == rest;
      } else {
        assert b[|rest|] == '?';
        Parts.SplitFirstAt(rest, '?', b[|rest| + 1..]);
        assert b == rest + ['?'] + b[|rest| + 1..];
      }
    } else {
      assert w[|rest|] == '?';
      Parts.SplitFirstAt(rest, '?', w[|rest| + 1..]);
      assert w == rest + ['?'] + w[|rest| + 1..];
    }
  }

  /** Appending a query or a fragment to a URL that has neither changes neither its scheme, nor its
      authority, nor its path, nor whether the parser raises. */
  lemma ParseIgnoresSuffix(u: string, sfx: string)
    requires '?' !in u && '#' !in u
    requires sfx != [] && IsSuffixStart(sfx[0])
    ensures UrlParse(u + sfx).Ok? <==> UrlParse(u).Ok?
    ensures UrlParse(u).Ok? ==>
      && UrlParse(u + sfx).value.scheme == UrlParse(u).value.scheme
      && UrlParse(u + sfx).value.netloc == UrlParse(u).value.netloc
      && UrlParse(u + sfx).value.path == UrlParse(u).value.path
  {
    SuffixClean(u, sfx);
    SplitCleanAppend(RemoveUnsafe(StripC0(u)), RemoveUnsafe(sfx));
  }

  /** Cleaning a URL with a suffix cleans the two parts apart; the suffix keeps its first
      character and the URL stays free of `?` and `#`. */
  lemma SuffixClean(u: string, sfx: string)
    requires '?' !in u && '#' !in u
    requires sfx != [] && IsSuffixStart(sfx[0])
    ensures RemoveUnsafe(StripC0(u + sfx)) == RemoveUnsafe(StripC0(u)) + RemoveUnsafe(sfx)
    ensures '?' !in RemoveUnsafe(StripC0(u)) && '#' !in RemoveUnsafe(StripC0(u))
    ensures RemoveUnsafe(sfx) != [] && IsSuffixStart(RemoveUnsafe(sfx)[0])
  {
    StripC0Append(u, sfx);
    var c := StripC0(u);
    RemoveUnsafeAppend(c, sfx);
    StripC0Absent(u, '?');
    StripC0Absent(u, '#');
    RemoveUnsafeAbsent(c, '?');
    RemoveUnsafeAbsent(c, '#');
    RemoveUnsafeKeepsHead(sfx);
  }

  lemma StripC0Absent(s: string, c: char)
    requires c !in s
    ensures c !in StripC0(s)
  {
    var r := StripC0(s);
    assert forall k :: 0 <= k < |r| ==> r[k] == s[|s| - |r| + k];
  }

  lemma RemoveUnsafeKeepsHead(s: string)
    requires s != [] && !IsUnsafe(s[0])
    ensures RemoveUnsafe(s) != [] && RemoveUnsafe(s)[0] == s[0]
  {
  }

  lemma SplitCleanAppend(url: string, s: string)
    requires '?' !in url && '#' !in url
    requires s != [] && IsSuffixStart(s[0])
    ensures SplitClean(url + s).Ok? <==> SplitClean(url).Ok?
    ensures SplitClean(url).Ok? ==>
      && SplitClean(url + s).value.scheme == SplitClean(url).value.scheme
      && SplitClean(url + s).value.netloc == SplitClean(url).value.netloc
      && SplitClean(url + s).value.path == SplitClean(url).value.path
  {
    SplitSchemeAppend(url, s);
    var rest := SplitScheme(url).1;
    SplitNetlocAppend(rest, s);
    var rest2 := SplitNetloc(rest).1;
    SplitQueryFragmentAppend(rest2, s);
  }

  /** An `http://` URL whose authority opens a `[` and never closes it makes the parser raise. */
  lemma BracketHostRaises(h: string)
    requires '[' in h && ']' !in h
    requires forall i :: 0 <= i < |h| ==> !IsNetlocEnd(h[i]) && !IsUnsafe(h[i])
    ensures UrlParse("http://" + h).Err?
  {
    var u := "http://" + h;
    HttpClean(h);
    HttpSchemeSplit(h);
    HostSplit(h);
  }

  lemma HttpClean(h: string)
    requires forall i :: 0 <= i < |h| ==> !IsUnsafe(h[i])
    ensures RemoveUnsafe(StripC0("http://" + h)) == "http://" + h
  {
    HttpSafe(h);
    CleanUnchanged("http://" + h);
  }

  lemma HttpSafe(h: string)
    requires forall i :: 0 <= i < |h| ==> !IsUnsafe(h[i])
    ensures ("http://" + h)[0] == 'h'
    ensures forall i :: 0 <= i < |"http://" + h| ==> !IsUnsafe(("http://" + h)[i])
  {
    var u := "http://" + h;
    forall i | 0 <= i < |u| ensures !IsUnsafe(u[i]) {
      if i >= 7 { assert u[i] == h[i - 7]; } else { assert u[i] == "http://"[i]; }
    }
  }

  /** A URL that starts with a printable character and holds no tab or newline is left as it is. */
  lemma CleanUnchanged(u: string)
    requires u != [] && u[0] > ' '
    requires forall i :: 0 <= i < |u| ==> !IsUnsafe(u[i])
    ensures RemoveUnsafe(StripC0(u)) == u
  {
  }

  lemma HttpSchemeSplit(h: string)
    ensures SplitScheme("http://" + h) == ("http", "//" + h)
  {
    var u := "http://" + h;
    assert u[4] == ':' && u[..4] == "http";
    Parts.IndexOfFirst(u, ':', 4);
    assert u[5..] == "//" + h;
    assert Lower("http") == "http";
  }

  lemma HostSplit(h: string)
    requires forall i :: 0 <= i < |h| ==> !IsNetlocEnd(h[i])
    ensures SplitNetloc("//" + h).0 == h
  {
    var rest := "//" + h;
    assert rest[..2] == "//" && rest[2..] == h;
    assert NetlocEnd(h) == |h|;
  }
}
