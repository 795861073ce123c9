/**
 * The canonical document key and the idempotent writer of the ingestion store: `normalize_url`
 * forces `https://`, drops one leading `www.` and trailing slashes; `save_items` builds one row per
 * item with a usable document URL and upserts the rows keyed on that URL.
 */
module RunSave {
  import opened Wrappers
  import opened Text
  import opened Records
  import opened Seqs

  // ---------------------------------------------------------------------------------------------
  // normalize_url

  /** Whether `c` matches the lower-case pattern character `p` when the regex ignores case. Besides
      ASCII case, Python's case-insensitive matching lets `s` match the long s (U+017F). */
  predicate FoldsTo(c: char, p: char) {
    LowerChar(c) == p || (p == 's' && c == '\U{017F}')
  }

  /** `s` matches the lower-case literal `pat` character by character, ignoring case. */
  predicate MatchesFolded(s: string, pat: string) {
    |s| == |pat| && forall i :: 0 <= i < |s| ==> FoldsTo(s[i], pat[i])
  }

  /** Whether `s` starts with `www.` in any case. */
  predicate StartsWithWww(s: string) {
    |s| >= 4 && MatchesFolded(s[..4], "www.")
  }

  /** The length of the match of `^https?://(www\.)?` (ignoring case) at the start of `s`, or 0 when
      it does not match. */
  function SchemeMatch(s: string): (n: nat)
    ensures n <= |s|
    ensures n == 0 || n >= 7
  {
    if |s| < 4 || !MatchesFolded(s[..4], "http") then 0
    else
      var k := if |s| > 4 && FoldsTo(s[4], 's') then 5 else 4;
      if |s| < k + 3 || s[k..k + 3] != "://" then 0
      else if StartsWithWww(s[k + 3..]) then k + 7
      else k + 3
  }

  /** `normalize_url(u)`: an empty string is returned as it is; otherwise the stripped string has
      its `http(s)://` and one `www.` replaced by `https://`, and trailing slashes removed. */
  function NormalizeUrl(u: string): (r: string)
    ensures u == "" ==> r == ""
    ensures r == [] || r[|r| - 1] != '/'
    ensures SchemeMatch(Strip(u)) == 0 ==> r == RStripChar(Strip(u), '/')
  {
    if u == "" then u
    else
      var t := Strip(u);
      var n := SchemeMatch(t);
      RStripChar(if n == 0 then t else "https://" + t[n..], '/')
  }

  lemma StripUnpadded(s: string)
    requires s != [] && !IsSpace(s[0]) && !IsSpace(s[|s| - 1])
    ensures Strip(s) == s
  {
    assert TrimStart(s) == s;
  }

  /** The prefix the regex replaces: `http://` or `https://` in any case, then `www.` in any case or
      nothing. */
  lemma SchemeMatchOfPrefix(sch: string, www: string, rest: string)
    requires MatchesFolded(sch, "http://") || MatchesFolded(sch, "https://")
    requires www == "" || MatchesFolded(www, "www.")
    requires www == "" ==> !StartsWithWww(rest)
    ensures SchemeMatch(sch + www + rest) == |sch| + |www|
  {
    var s := sch + www + rest;
    assert s[..|sch|] == sch;
    assert s[|sch|..] == www + rest;
    assert s[..4] == sch[..4];
    assert MatchesFolded(s[..4], "http");
    var k := |sch| - 3;
    assert s[k..k + 3] == sch[k..];
    if |sch| == 8 {
      assert FoldsTo(s[4], 's');
    } else {
      assert s[4] == ':';
    }
    if www != "" {
      assert (www + rest)[..4] == www;
    }
  }

  /** `http://`, `https://`, with or without `www.`, in any case: all give the same key, and trailing
      slashes do not matter. */
  lemma {:induction false} NormalizeForms(sch: string, www: string, rest: string)
    requires MatchesFolded(sch, "http://") || MatchesFolded(sch, "https://")
    requires www == "" || MatchesFolded(www, "www.")
    requires www == "" ==> !StartsWithWww(rest)
    requires rest == [] || !IsSpace(rest[|rest| - 1])
    ensures NormalizeUrl(sch + www + rest) == RStripChar("https://" + rest, '/')
  {
    var t := sch + www + rest;
    assert t[0] == sch[0] && FoldsTo(sch[0], 'h');
    if rest == [] {
      assert t[|t| - 1] == (sch + www)[|sch + www| - 1];
      if www == "" {
        assert t[|t| - 1] == sch[|sch| - 1] && FoldsTo(sch[|sch| - 1], '/');
      } else {
        assert t[|t| - 1] == www[3] && FoldsTo(www[3], '.');
      }
    } else {
      assert t[|t| - 1] == rest[|rest| - 1];
    }
    StripUnpadded(t);
    SchemeMatchOfPrefix(sch, www, rest);
    assert t[|sch| + |www|..] == rest;
  }

  /** The scheme pattern matches a string with one more `/` exactly as it matches the string,
      once the string already matches: the `/` cannot complete a `www.`. */
  lemma SchemeMatchSlash(t: string)
    requires SchemeMatch(t) > 0
    ensures SchemeMatch(t + "/") == SchemeMatch(t)
  {
    var w := t + "/";
    assert w[..4] == t[..4];
    var k := if |t| > 4 && FoldsTo(t[4], 's') then 5 else 4;
    assert w[4] == t[4];
    assert w[k..k + 3] == t[k..k + 3];
    if |t[k + 3..]| >= 4 {
      assert w[k + 3..][..4] == t[k + 3..][..4];
    } else if |w[k + 3..]| >= 4 {
      assert w[k + 3..][3] == '/';
      assert !FoldsTo('/', '.');
    }
  }

  /** One more trailing slash on a stripped URL does not change its key, unless the slash is what
      completes an `http(s)://` prefix: `http:/` keeps its scheme and becomes `http:`, while
      `http://` becomes `https:`. */
  lemma {:induction false} TrailingSlashKeepsKey(t: string)
    requires t != [] && !IsSpace(t[0]) && !IsSpace(t[|t| - 1])
    requires SchemeMatch(t) > 0 || SchemeMatch(t + "/") == 0
    ensures NormalizeUrl(t + "/") == NormalizeUrl(t)
  {
    var w := t + "/";
    StripUnpadded(t);
    StripUnpadded(w);
    if SchemeMatch(t) > 0 {
      SchemeMatchSlash(t);
      var n := SchemeMatch(t);
      assert w[n..] == t[n..] + "/";
      assert "https://" + w[n..] == ("https://" + t[n..]) + "/";
      RStripSlash("https://" + t[n..]);
    } else {
      RStripSlash(t);
    }
  }

  lemma RStripSlash(x: string)
    ensures RStripChar(x + "/", '/') == RStripChar(x, '/')
  {
    assert (x + "/")[..|x + "/"| - 1] == x;
  }

  /** The exception to `TrailingSlashKeepsKey`: the slash that completes the scheme changes the key. */
  lemma SlashCompletesScheme()
    ensures NormalizeUrl("http:/") == "http:"
    ensures NormalizeUrl("http://") == "https:"
  {
    HalfSchemeKey();
    FullSchemeKey();
  }

  lemma HalfSchemeKey()
    ensures NormalizeUrl("http:/") == "http:"
  {
    var t := "http:/";
    StripUnpadded(t);
    assert SchemeMatch(t) == 0 by {
      assert |t| < 7;
    }
    assert t[..5] == "http:";
  }

  lemma FullSchemeKey()
    ensures NormalizeUrl("http://") == "https:"
  {
    HttpFoldsToItself();
    assert !StartsWithWww("");
    NormalizeForms("http://", "", "");
    assert "http://" + "" + "" == "http://";
    HttpsRoot();
  }

  lemma HttpFoldsToItself()
    ensures MatchesFolded("http://", "http://")
  {
    var sch := "http://";
    forall i | 0 <= i < |sch| ensures FoldsTo(sch[i], sch[i]) {
      assert LowerChar(sch[i]) == sch[i];
    }
  }

  lemma HttpsRoot()
    ensures RStripChar("https://" + "", '/') == "https:"
  {
    var x := "https://" + "";
    assert x[|x| - 1] == '/' && x[..|x| - 1] == "https:/";
    var y := "https:/";
    assert y[|y| - 1] == '/' && y[..|y| - 1] == "https:";
    var z := "https:";
    assert z[|z| - 1] != '/';
  }

  /** An item is dropped exactly when its stripped document URL is empty or only slashes. */
  lemma SkippedExactly(it: Item)
    ensures RowOf(it).None? <==>
      forall i :: 0 <= i < |Strip(OrEmpty(it.docUrl))| ==> Strip(OrEmpty(it.docUrl))[i] == '/'
  {
    var u := OrEmpty(it.docUrl);
    var t := Strip(u);
    if u != "" {
      var n := SchemeMatch(t);
      if n > 0 {
        var x := "https://" + t[n..];
        assert NormalizeUrl(u) <= x && x[0] == 'h';
        assert FoldsTo(t[0], 'h') by {
          assert t[..4][0] == t[0];
        }
        assert t[0] != '/';
      } else {
        var r := RStripChar(t, '/');
        if r != [] {
          assert t[|r| - 1] == r[|r| - 1];
        }
      }
    }
  }

  /** A string that matches the scheme pattern has every extension of it matching too. */
  lemma SchemeMatchExtends(r: string, t: string)
    requires r <= t && SchemeMatch(r) > 0
    ensures SchemeMatch(t) > 0
  {
    assert t[..4] == r[..4];
    var k := if |r| > 4 && FoldsTo(r[4], 's') then 5 else 4;
    assert t[k..k + 3] == r[k..k + 3];
  }

  /** `https://` followed by something that does not begin with `www.` matches exactly `https://`. */
  lemma SchemeMatchHttps(r: string)
    requires |r| >= 8 && r[..8] == "https://" && !StartsWithWww(r[8..])
    ensures SchemeMatch(r) == 8
  {
    assert r[..4] == "http";
    assert FoldsTo(r[4], 's');
    assert r[5..8] == "://";
  }

  /** The result of a non-empty input is stripped on the left: it starts as the stripped input or
      with `https:`. */
  lemma NormalizeStartsClean(u: string)
    requires u != "" && NormalizeUrl(u) != []
    ensures !IsSpace(NormalizeUrl(u)[0])
  {
    var t := Strip(u);
    var n := SchemeMatch(t);
    var x := if n == 0 then t else "https://" + t[n..];
    var r := NormalizeUrl(u);
    assert r <= x;
    assert r[0] == x[0];
    if n > 0 {
      assert x[0] == 'h';
    }
  }

  /** A key built from a string the pattern does not match is its own key. */
  lemma IdempotentNoMatch(t: string, r: string)
    requires SchemeMatch(t) == 0 && r == RStripChar(t, '/')
    requires r != [] && !IsSpace(r[0]) && !IsSpace(r[|r| - 1])
    ensures NormalizeUrl(r) == r
  {
    StripUnpadded(r);
    if SchemeMatch(r) > 0 {
      SchemeMatchExtends(r, t);
    }
  }

  /** `https://` and a rest that does not begin with `www.` nor end in `/` or whitespace is its own
      key. */
  lemma IdempotentHttps(r: string)
    requires |r| >= 8 && r[..8] == "https://" && !StartsWithWww(r[8..])
    requires !IsSpace(r[|r| - 1]) && r[|r| - 1] != '/'
    ensures NormalizeUrl(r) == r
  {
    assert r[0] == 'h';
    StripUnpadded(r);
    SchemeMatchHttps(r);
    assert "https://" + r[8..] == r;
  }

  /** A key built as `https://` plus a rest is its own key, unless the rest starts with `www.`. */
  lemma IdempotentMatch(rest: string, r: string)
    requires r == RStripChar("https://" + rest, '/')
    requires r != [] && !IsSpace(r[|r| - 1])
    requires !(|r| >= 8 && r[..8] == "https://" && StartsWithWww(r[8..]))
    ensures NormalizeUrl(r) == r
  {
    var x := "https://" + rest;
    assert r <= x;
    if |r| >= 8 {
      assert r[..8] == x[..8];
      IdempotentHttps(r);
    } else {
      assert r[0] == 'h';
      StripUnpadded(r);
    }
  }

  /** Normalising twice gives what normalising once gave, unless the key ends in whitespace (a space
      before the trailing slash) or still starts with `www.` after `https://` (the input had two). */
  lemma NormalizeIdempotent(u: string)
    requires var r := NormalizeUrl(u); r == [] || !IsSpace(r[|r| - 1])
    requires var r := NormalizeUrl(u); !(|r| >= 8 && r[..8] == "https://" && StartsWithWww(r[8..]))
    ensures NormalizeUrl(NormalizeUrl(u)) == NormalizeUrl(u)
  {
    var r := NormalizeUrl(u);
    if r != [] {
      var t := Strip(u);
      var n := SchemeMatch(t);
      if n == 0 {
        assert r == RStripChar(t, '/');
        NormalizeStartsClean(u);
        IdempotentNoMatch(t, r);
      } else {
        assert r == RStripChar("https://" + t[n..], '/');
        IdempotentMatch(t[n..], r);
      }
    }
  }

  // ---------------------------------------------------------------------------------------------
  // save_items

  /** A row of the `ingest_items` upsert. */
  datatype Row = Row(
    country: string,
    authority: Option<string>,
    title: string,
    docUrl: string,
    sourceUrl: string,
    sourceType: string,
    createdAt: Option<string>)

  /** The row for an item, or `None` when its normalised document URL is empty and it is skipped.
      The keys are the normalised URLs; a missing title is `""`; a missing or empty type is `html`,
      so the PDF placeholder, whose type is under another key, is stored as `html`. */
  function RowOf(it: Item): (r: Option<Row>)
    ensures r.None? <==> NormalizeUrl(OrEmpty(it.docUrl)) == ""
    ensures r.Some? ==>
      && r.value.docUrl == NormalizeUrl(it.docUrl.value)
      && r.value.docUrl != "" && r.value.docUrl[|r.value.docUrl| - 1] != '/'
    ensures r.Some? ==>
      && r.value.sourceUrl == NormalizeUrl(OrEmpty(it.sourceUrl))
      && (r.value.sourceUrl == "" || r.value.sourceUrl[|r.value.sourceUrl| - 1] != '/')
      && (it.sourceUrl.None? ==> r.value.sourceUrl == "")
    ensures r.Some? ==> r.value.title == (if it.title.Some? then it.title.value else "")
    ensures r.Some? ==> r.value.sourceType == (if Truthy(it.sourceType) then it.sourceType.value else "html")
    ensures r.Some? ==>
      r.value.country == it.country && r.value.authority == it.authority && r.value.createdAt == it.createdAt
  {
    var doc := NormalizeUrl(OrEmpty(it.docUrl));
    var src := NormalizeUrl(OrEmpty(it.sourceUrl));
    if doc == "" then None
    else Some(Row(
      country := it.country,
      authority := it.authority,
      title := OrEmpty(it.title),
      docUrl := doc,
      sourceUrl := src,
      sourceType := OrEmpty(OrElse(it.sourceType, Some("html"))),
      createdAt := it.createdAt))
  }

  /** The rows of a batch of items, in item order. */
  function RowsOf(items: seq<Item>): seq<Row> {
    FilterMap(items, RowOf)
  }

  /** Every row comes from an item, so it has a non-empty key with no trailing `/`. */
  lemma RowsOfSound(items: seq<Item>)
    ensures |RowsOf(items)| <= |items|
    ensures forall j :: 0 <= j < |RowsOf(items)| ==>
      exists i :: 0 <= i < |items| && RowOf(items[i]) == Some(RowsOf(items)[j])
  {
    FilterMapSound(items, RowOf);
  }

  /** Every item with a usable document URL gives a row; there are no rows only when no item has
      one. */
  lemma RowsOfComplete(items: seq<Item>)
    ensures forall i :: 0 <= i < |items| && RowOf(items[i]).Some? ==> RowOf(items[i]).value in RowsOf(items)
    ensures RowsOf(items) == [] <==> forall i :: 0 <= i < |items| ==> RowOf(items[i]).None?
  {
    FilterMapComplete(items, RowOf);
  }

  /** The row-building loop of `save_items`. */
  method BuildRows(items: seq<Item>) returns (rows: seq<Row>)
    ensures rows == RowsOf(items)
  {
    rows := [];
    for k := 0 to |items|
      invariant rows == FilterMap(items[..k], RowOf)
    {
      assert items[..k + 1][..k] == items[..k];
      var it := items[k];
      var doc := NormalizeUrl(OrEmpty(it.docUrl));
      var src := NormalizeUrl(OrEmpty(it.sourceUrl));
      if doc == "" {
        continue;
      }
      rows := rows + [Row(
        country := it.country,
        authority := it.authority,
        title := OrEmpty(it.title),
        docUrl := doc,
        sourceUrl := src,
        sourceType := OrEmpty(OrElse(it.sourceType, Some("html"))),
        createdAt := it.createdAt)];
    }
    assert items[..|items|] == items;
  }

  /** A stored row: the columns the upsert writes, plus the columns the enrichment step fills in,
      which an upsert leaves as they were. */
  datatype Stored = Stored(row: Row, enrichedAt: Option<string>, regulationId: Option<string>)

  /** The keys of a batch. */
  function KeysOf(rows: seq<Row>): set<string> {
    set i | 0 <= i < |rows| :: rows[i].docUrl
  }

  /** No two rows of the batch share a key. */
  predicate DistinctKeys(rows: seq<Row>) {
    forall i, j :: 0 <= i < j < |rows| ==> rows[i].docUrl != rows[j].docUrl
  }

  /** `INSERT ... ON CONFLICT (doc_url) DO UPDATE` of one row: a new key gets a new row; an existing
      key gets the new column values and keeps its enrichment columns. */
  function Put(m: map<string, Stored>, row: Row): map<string, Stored> {
    if row.docUrl in m then m[row.docUrl := Stored(row, m[row.docUrl].enrichedAt, m[row.docUrl].regulationId)]
    else m[row.docUrl := Stored(row, None, None)]
  }

  /** The upsert of a batch, row after row. */
  function UpsertAll(m: map<string, Stored>, rows: seq<Row>): map<string, Stored>
    decreases |rows|
  {
    if rows == [] then m else Put(UpsertAll(m, rows[..|rows| - 1]), rows[|rows| - 1])
  }

  /** The last row of the batch with key `k`. */
  function LastRow(rows: seq<Row>, k: string): (r: Row)
    requires k in KeysOf(rows)
    ensures r.docUrl == k && r in rows
    decreases |rows|
  {
    if rows[|rows| - 1].docUrl == k then rows[|rows| - 1]
    else
      assert k in KeysOf(rows[..|rows| - 1]) by {
        var i :| 0 <= i < |rows| && rows[i].docUrl == k;
        assert rows[..|rows| - 1][i] == rows[i];
      }
      LastRow(rows[..|rows| - 1], k)
  }

  lemma KeysOfSnoc(rows: seq<Row>)
    requires rows != []
    ensures KeysOf(rows) == KeysOf(rows[..|rows| - 1]) + {rows[|rows| - 1].docUrl}
  {
    var init := rows[..|rows| - 1];
    forall i | 0 <= i < |init| ensures init[i] == rows[i] {}
  }

  /** What the upsert leaves under each key: the batch's last row for that key, with the enrichment
      columns it had before (none for a new key); keys outside the batch keep their rows. */
  lemma {:induction false} UpsertAllSpec(m: map<string, Stored>, rows: seq<Row>)
    ensures UpsertAll(m, rows).Keys == m.Keys + KeysOf(rows)
    ensures forall k :: k in m && k !in KeysOf(rows) ==> UpsertAll(m, rows)[k] == m[k]
    ensures forall k :: k in KeysOf(rows) ==>
      UpsertAll(m, rows)[k] ==
        Stored(LastRow(rows, k), if k in m then m[k].enrichedAt else None, if k in m then m[k].regulationId else None)
    decreases |rows|
  {
    if rows != [] {
      UpsertAllSpec(m, rows[..|rows| - 1]);
      KeysOfSnoc(rows);
    }
  }

  /** Upserting the same batch again changes nothing. */
  lemma UpsertTwice(m: map<string, Stored>, rows: seq<Row>)
    ensures UpsertAll(UpsertAll(m, rows), rows) == UpsertAll(m, rows)
  {
    var once := UpsertAll(m, rows);
    UpsertAllSpec(m, rows);
    UpsertAllSpec(once, rows);
    var twice := UpsertAll(once, rows);
    assert twice.Keys == once.Keys;
    forall k | k in once ensures twice[k] == once[k] {
      if k !in KeysOf(rows) {
      }
    }
  }

  /** The `ingest_items` table, keyed on `doc_url`, and the number of upsert requests it served. */
  class IngestTable {
    var rows: map<string, Stored>
    var requests: nat

    constructor()
      ensures rows == map[] && requests == 0
    {
      rows := map[];
      requests := 0;
    }

    /** `upsert(batch, on_conflict="doc_url")`: returns one returned row per batch row. The database
        refuses a batch that holds the same key twice and leaves the table unchanged. */
    method Upsert(batch: seq<Row>) returns (r: Result<nat>)
      modifies this
      ensures requests == old(requests) + 1
      ensures !DistinctKeys(batch) ==> r.Err? && rows == old(rows)
      ensures DistinctKeys(batch) ==> r == Ok(|batch|) && rows == UpsertAll(old(rows), batch)
    {
      requests := requests + 1;
      if !DistinctKeys(batch) {
        return Err("ON CONFLICT DO UPDATE command cannot affect row a second time");
      }
      rows := UpsertAll(rows, batch);
      return Ok(|batch|);
    }
  }

  /** `save_items(supa, items)`: builds the rows and upserts them on `doc_url`; with no rows it
      returns 0 and sends nothing. */
  method SaveItems(table: IngestTable, items: seq<Item>) returns (r: Result<nat>)
    modifies table
    ensures RowsOf(items) == [] ==> r == Ok(0) && table.rows == old(table.rows) && table.requests == old(table.requests)
    ensures RowsOf(items) != [] ==> table.requests == old(table.requests) + 1
    ensures RowsOf(items) != [] && !DistinctKeys(RowsOf(items)) ==> r.Err? && table.rows == old(table.rows)
    ensures RowsOf(items) != [] && DistinctKeys(RowsOf(items)) ==>
      r == Ok(|RowsOf(items)|) && table.rows == UpsertAll(old(table.rows), RowsOf(items))
  {
    var rows := BuildRows(items);
    if rows == [] {
      return Ok(0);
    }
    r := table.Upsert(rows);
  }
}
