/**
 * The local dump (`run_dump.py`): which collector runs for which source, how a failing collector
 * is skipped, and the cleaned seven-column rows written to the CSV file.
 *
 * The RSS and HTML collectors are parameters here (`Err` is an exception they raise); the PDF
 * placeholder is the `Collectors` function itself, which never raises.
 */
module RunDump {
  import opened Wrappers
  import opened Text
  import opened Seqs
  import opened Records
  import Enrich
  import Collectors

  // ---------------------------------------------------------------------------------------------
  // build_out_path and clean_field

  /** `build_out_path`: the given path when there is one, else a name stamped with the UTC time
      `stamp` (`%Y%m%dT%H%M%SZ`). */
  function OutPath(outArg: Option<string>, stamp: string): (p: string)
    ensures Truthy(outArg) ==> p == outArg.value
    ensures !Truthy(outArg) ==> StartsWith(p, "items_dump_") && EndsWith(p, "_excel.csv")
  {
    if Truthy(outArg) then outArg.value else "items_dump_" + stamp + "_excel.csv"
  }

  /** `clean_field`: `""` for `None`; otherwise the words of the text, line breaks included among
      the separators, joined by single spaces. */
  function CleanField(val: Option<string>): (r: string)
    ensures val.None? ==> r == ""
    ensures SingleSpaced(r) && '\r' !in r && '\n' !in r
  {
    if val.None? then ""
    else
      var ws := SplitWords(Enrich.Unbroken(val.value));
      SplitWordsAreWords(Enrich.Unbroken(val.value));
      JoinWordsSingleSpaced(ws);
      Join(ws, " ")
  }

  /** The dump's `clean_field` and the enrichment's `clean_text` are the same function, although one
      is written with `split`/`join` and the other with a regular expression and `strip`. */
  lemma CleanFieldIsCleanText(val: Option<string>)
    ensures CleanField(val) == Enrich.CleanText(val)
  {
    if val == Some("") {
      assert SplitWords("") == [];
    }
  }

  /** Cleaning a cleaned field changes nothing. */
  lemma CleanFieldIdempotent(val: Option<string>)
    ensures CleanField(Some(CleanField(val))) == CleanField(val)
  {
    CleanFieldIsCleanText(val);
    CleanFieldIsCleanText(Some(CleanField(val)));
    Enrich.CleanTextIdempotent(val);
  }

  // ---------------------------------------------------------------------------------------------
  // write_csv

  /** The CSV header, in column order. */
  const Columns: seq<string> :=
    ["country", "authority", "ingest_source_type", "title", "doc_url", "source_url", "published_at"]

  /** The values `it.get(k, "")` of an item for the columns, in column order; an absent key reads as
      `None`, which cleans to `""` just as the default does. The PDF placeholder's
      `_ingest_source_type` is not the `ingest_source_type` column. */
  function Cells(it: Item): (cells: seq<Option<string>>)
    ensures |cells| == |Columns|
  {
    [Some(it.country), it.authority, it.sourceType, it.title, it.docUrl, it.sourceUrl, it.publishedAt]
  }

  /** `{k: clean_field(it.get(k, "")) for k in cols}`, in column order. */
  function Row(it: Item): (row: seq<string>)
    ensures |row| == |Columns|
  {
    MapAll(Cells(it), CleanField)
  }

  /** A row has the seven columns; each cell is the cleaned field, `""` for a missing one, and no
      cell holds a line break, so each item stays on one line of the file. */
  lemma RowShape(it: Item, k: nat)
    requires k < |Columns|
    ensures |Row(it)| == 7 && Row(it)[k] == CleanField(Cells(it)[k])
    ensures Cells(it)[k].None? ==> Row(it)[k] == ""
    ensures SingleSpaced(Row(it)[k]) && '\r' !in Row(it)[k] && '\n' !in Row(it)[k]
  {
  }

  /** An item without an `ingest_source_type` key, such as the PDF placeholder's (which writes the
      type under another key), leaves that column empty. */
  lemma UntypedItemBlank(x: Item)
    requires x.sourceType == None
    ensures Row(x)[2] == ""
  {
    assert Cells(x)[2] == None;
  }

  /** The PDF placeholder's item is such an item. */
  lemma PlaceholderTypeBlank(source: Source)
    requires Collectors.CollectPdfPlaceholder(source) != []
    ensures Row(Collectors.CollectPdfPlaceholder(source)[0])[2] == ""
  {
    UntypedItemBlank(Collectors.CollectPdfPlaceholder(source)[0]);
  }

  /** `write_csv`'s records: the header, then one row per item in item order. */
  method CsvRecords(items: seq<Item>) returns (records: seq<seq<string>>)
    ensures |records| == |items| + 1 && records[0] == Columns
    ensures forall i :: 0 <= i < |items| ==> records[i + 1] == Row(items[i])
  {
    records := [Columns];
    for i := 0 to |items|
      invariant |records| == i + 1 && records[0] == Columns
      invariant forall j :: 0 <= j < i ==> records[j + 1] == Row(items[j])
    {
      records := records + [Row(items[i])];
    }
  }

  // ---------------------------------------------------------------------------------------------
  // collect_items

  /** `not only or only == name`: a phase runs when no collector is singled out or it is this one. */
  predicate PhaseOn(only: Option<string>, name: string) {
    !Truthy(only) || only == Some(name)
  }

  /** `(s.get("format") or "").upper()`. */
  function Format(s: Source): string {
    Upper(OrEmpty(s.format))
  }

  /** The RSS collector runs for sources with a feed. */
  predicate WantsRss(s: Source) {
    s.hasRss
  }

  /** The HTML collector runs for sources whose format mentions HTML, in any case. */
  predicate WantsHtml(s: Source) {
    Contains(Format(s), "HTML")
  }

  /** The PDF placeholder runs for sources whose format mentions PDF but not HTML and that have no
      feed. */
  predicate WantsPdf(s: Source) {
    Contains(Format(s), "PDF") && !Contains(Format(s), "HTML") && !s.hasRss
  }

  /** One phase of `collect_items`: for each selected source in order, the items of its collector,
      or nothing when the collector raised. */
  function Gathered(sources: seq<Source>, want: Source -> bool, collect: Source -> Result<seq<Item>>): seq<Item>
    decreases |sources|
  {
    if sources == [] then []
    else
      var s := sources[|sources| - 1];
      Gathered(sources[..|sources| - 1], want, collect)
        + (if want(s) && collect(s).Ok? then collect(s).value else [])
  }

  /** The loop of one phase, extending `items`; an exception of one source's collector is caught
      and the loop goes on with the next source. */
  method RunPhase(items: seq<Item>, sources: seq<Source>, want: Source -> bool, collect: Source -> Result<seq<Item>>)
    returns (out: seq<Item>)
    ensures out == items + Gathered(sources, want, collect)
  {
    out := items;
    for i := 0 to |sources|
      invariant out == items + Gathered(sources[..i], want, collect)
    {
      assert sources[..i + 1][..i] == sources[..i];
      var s := sources[i];
      if want(s) {
        var r := collect(s);
        if r.Ok? {
          out := out + r.value;
        }
      }
    }
    assert sources[..|sources|] == sources;
  }

  /** The PDF phase's collector: the placeholder, which never raises. */
  function PdfCollect(s: Source): Result<seq<Item>> {
    Ok(Collectors.CollectPdfPlaceholder(s))
  }

  /** What `collect_items` returns: all RSS items, then all HTML items, then all PDF placeholders,
      each phase only when `only` lets it run. */
  function Collected(sources: seq<Source>, only: Option<string>,
                     rss: Source -> Result<seq<Item>>, html: Source -> Result<seq<Item>>): seq<Item>
  {
    (if PhaseOn(only, "rss") then Gathered(sources, WantsRss, rss) else [])
    + (if PhaseOn(only, "html") then Gathered(sources, WantsHtml, html) else [])
    + (if PhaseOn(only, "pdf") then Gathered(sources, WantsPdf, PdfCollect) else [])
  }

  /** `collect_items` after `fetch_active_sources` returned `sources`. */
  method CollectItems(sources: seq<Source>, only: Option<string>,
                      rss: Source -> Result<seq<Item>>, html: Source -> Result<seq<Item>>)
    returns (items: seq<Item>)
    ensures items == Collected(sources, only, rss, html)
  {
    if sources == [] {
      return [];
    }
    ghost var a := if PhaseOn(only, "rss") then Gathered(sources, WantsRss, rss) else [];
    ghost var b := if PhaseOn(only, "html") then Gathered(sources, WantsHtml, html) else [];
    ghost var c := if PhaseOn(only, "pdf") then Gathered(sources, WantsPdf, PdfCollect) else [];
    items := [];
    if PhaseOn(only, "rss") {
      items := RunPhase(items, sources, WantsRss, rss);
    }
    assert items == a;
    if PhaseOn(only, "html") {
      items := RunPhase(items, sources, WantsHtml, html);
    }
    assert items == a + b;
    if PhaseOn(only, "pdf") {
      items := RunPhase(items, sources, WantsPdf, PdfCollect);
    }
    assert items == a + b + c;
  }

  /** Without sources nothing is collected; singling out one collector runs that phase alone. */
  lemma CollectedOnly(sources: seq<Source>, only: Option<string>,
                      rss: Source -> Result<seq<Item>>, html: Source -> Result<seq<Item>>)
    ensures sources == [] ==> Collected(sources, only, rss, html) == []
    ensures only == Some("rss") ==> Collected(sources, only, rss, html) == Gathered(sources, WantsRss, rss)
    ensures only == Some("html") ==> Collected(sources, only, rss, html) == Gathered(sources, WantsHtml, html)
    ensures only == Some("pdf") ==> Collected(sources, only, rss, html) == Gathered(sources, WantsPdf, PdfCollect)
  {
    if only == Some("rss") {
      assert !PhaseOn(only, "html") && !PhaseOn(only, "pdf");
    } else if only == Some("html") {
      assert !PhaseOn(only, "rss") && !PhaseOn(only, "pdf");
    } else if only == Some("pdf") {
      assert !PhaseOn(only, "rss") && !PhaseOn(only, "html");
    }
  }

  /** Every item of a phase comes from a selected source whose collector did not raise. */
  lemma {:induction false} GatheredSound(sources: seq<Source>, want: Source -> bool,
                                         collect: Source -> Result<seq<Item>>, k: nat)
    requires k < |Gathered(sources, want, collect)|
    ensures exists i :: (0 <= i < |sources| && want(sources[i]) && collect(sources[i]).Ok?
      && Gathered(sources, want, collect)[k] in collect(sources[i]).value)
    decreases |sources|
  {
    var init := sources[..|sources| - 1];
    var s := sources[|sources| - 1];
    var g := Gathered(init, want, collect);
    if k < |g| {
      GatheredSound(init, want, collect, k);
      var i :| 0 <= i < |init| && want(init[i]) && collect(init[i]).Ok? && g[k] in collect(init[i]).value;
      assert sources[i] == init[i];
    } else {
      assert Gathered(sources, want, collect)[k] == collect(s).value[k - |g|];
    }
  }

  /** Every item of every selected source whose collector did not raise is collected, whatever the
      other sources' collectors did. */
  lemma {:induction false} GatheredComplete(sources: seq<Source>, want: Source -> bool,
                                            collect: Source -> Result<seq<Item>>, i: nat, x: Item)
    requires i < |sources| && want(sources[i]) && collect(sources[i]).Ok?
    requires x in collect(sources[i]).value
    ensures x in Gathered(sources, want, collect)
    decreases |sources|
  {
    var init := sources[..|sources| - 1];
    if i < |init| {
      assert init[i] == sources[i];
      GatheredComplete(init, want, collect, i, x);
    }
  }

  /** An item of the PDF phase comes from a source whose format names PDF and not HTML and that has
      no feed, and it is that source's placeholder. */
  lemma PdfPhaseSources(sources: seq<Source>, k: nat)
    requires k < |Gathered(sources, WantsPdf, PdfCollect)|
    ensures exists i :: (0 <= i < |sources| && WantsPdf(sources[i]) && !WantsHtml(sources[i]) && !WantsRss(sources[i])
      && Collectors.CollectPdfPlaceholder(sources[i]) != []
      && Gathered(sources, WantsPdf, PdfCollect)[k] == Collectors.CollectPdfPlaceholder(sources[i])[0])
  {
    GatheredSound(sources, WantsPdf, PdfCollect, k);
    var i :| 0 <= i < |sources| && WantsPdf(sources[i]) && PdfCollect(sources[i]).Ok?
      && Gathered(sources, WantsPdf, PdfCollect)[k] in PdfCollect(sources[i]).value;
    PdfPlaceholderOf(sources[i], Gathered(sources, WantsPdf, PdfCollect)[k]);
  }

  lemma PdfPlaceholderOf(s: Source, x: Item)
    requires WantsPdf(s) && x in PdfCollect(s).value
    ensures !WantsHtml(s) && !WantsRss(s)
    ensures Collectors.CollectPdfPlaceholder(s) != [] && x == Collectors.CollectPdfPlaceholder(s)[0]
  {
  }
}
