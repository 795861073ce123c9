/**
 * The pipeline health check: the environment it needs, the sources that have gone silent, and the
 * mail subject and body it sends. Timestamps are whole seconds since the epoch; the database rows,
 * the current time and the rendering of times and hour counts come in as inputs.
 */
module Alerts {
  import opened Wrappers
  import opened Text
  import opened Numerals
  import opened OrderedMaps
  import opened Seqs
  import Overrides

  /** The variables the check refuses to run without. */
  const RequiredEnv: seq<string> :=
    ["SUPABASE_URL", "SUPABASE_KEY", "MAILGUN_API_KEY", "MAILGUN_DOMAIN", "ALERT_TO_EMAIL"]

  /** A required variable, when it is unset or empty. */
  function MissingVar(env: string -> Option<string>, k: string): Option<string> {
    if Truthy(env(k)) then None else Some(k)
  }

  /** `[k for k in REQUIRED_ENV if not os.getenv(k)]`. */
  function Missing(env: string -> Option<string>): seq<string> {
    FilterMap(RequiredEnv, k => MissingVar(env, k))
  }

  /** `require_env`: fails, naming every missing variable in the order of the list, unless all
      required variables are set and non-empty. */
  function RequireEnv(env: string -> Option<string>): (r: Result<()>)
    ensures r.Ok? <==> forall i :: 0 <= i < |RequiredEnv| ==> Truthy(env(RequiredEnv[i]))
    ensures r.Err? ==> r.message == "Faltan variables de entorno: " + Join(Missing(env), ", ")
    ensures r.Err? ==> forall k :: k in Missing(env) <==> k in RequiredEnv && !Truthy(env(k))
  {
    var missing := Missing(env);
    MissingExactly(env);
    if missing == [] then Ok(()) else Err("Faltan variables de entorno: " + Join(missing, ", "))
  }

  /** The missing list names exactly the required variables that are unset or empty. */
  lemma MissingExactly(env: string -> Option<string>)
    ensures forall k :: k in Missing(env) <==> k in RequiredEnv && !Truthy(env(k))
    ensures Missing(env) == [] <==> forall i :: 0 <= i < |RequiredEnv| ==> Truthy(env(RequiredEnv[i]))
  {
    var f := k => MissingVar(env, k);
    FilterMapSound(RequiredEnv, f);
    FilterMapComplete(RequiredEnv, f);
    forall k | k in Missing(env) ensures k in RequiredEnv && !Truthy(env(k)) {
      var j :| 0 <= j < |Missing(env)| && Missing(env)[j] == k;
      var i :| 0 <= i < |RequiredEnv| && f(RequiredEnv[i]) == Some(k);
    }
    forall k | k in RequiredEnv && !Truthy(env(k)) ensures k in Missing(env) {
      var i :| 0 <= i < |RequiredEnv| && RequiredEnv[i] == k;
      assert f(RequiredEnv[i]).Some?;
    }
  }

  /** A row of `ingest_items` as the staleness query returns it. */
  datatype ItemRow = ItemRow(
    country: Option<string>,
    authority: Option<string>,
    sourceUrl: Option<string>,
    createdAt: Option<string>)

  /** A source: `(country, authority, source_url)`. */
  type Group = (string, string, string)

  /** What a row contributes to the grouping: its source and its creation time, or nothing when a
      key field is missing or empty, when `created_at` is, or when `parse` (`fromisoformat` after
      replacing `Z`) rejects it. */
  function RowEntry(parse: string -> Option<int>, r: ItemRow): Option<(Group, int)> {
    if !Truthy(r.country) || !Truthy(r.authority) || !Truthy(r.sourceUrl) then None
    else if !Truthy(r.createdAt) then None
    else
      match parse(r.createdAt.value)
      case None => None
      case Some(t) => Some(((r.country.value, r.authority.value, r.sourceUrl.value), t))
  }

  /** The grouping loop's result: the first contributing row of each source wins. */
  function Latest(rows: seq<ItemRow>, parse: string -> Option<int>): (r: OrderedMap<Group, int>)
    ensures Valid(r)
  {
    KeepFirst(rows, r => RowEntry(parse, r))
  }

  /** The loop of `check_silent_sources` that fills `latest_by_source`. */
  method LatestBySource(rows: seq<ItemRow>, parse: string -> Option<int>) returns (latest: OrderedMap<Group, int>)
    ensures latest == Latest(rows, parse)
  {
    var f := r => RowEntry(parse, r);
    latest := Empty();
    for i := 0 to |rows|
      invariant latest == KeepFirst(rows[..i], f)
    {
      var r := rows[i];
      assert rows[..i + 1][..i] == rows[..i] && rows[..i + 1][i] == r;
      if !Truthy(r.country) || !Truthy(r.authority) || !Truthy(r.sourceUrl) {
        assert f(r).None?;
        continue;
      }
      var key := (r.country.value, r.authority.value, r.sourceUrl.value);
      if key in latest.values {
        continue;
      }
      if !Truthy(r.createdAt) {
        assert f(r).None?;
        continue;
      }
      var t := parse(r.createdAt.value);
      if t.None? {
        assert f(r).None?;
        continue;
      }
      assert f(r) == Some((key, t.value));
      latest := Put(latest, key, t.value);
    }
    assert rows[..|rows|] == rows;
  }

  /** Whether row `r` is a row of source `g` with a usable creation time. */
  predicate Contributes(parse: string -> Option<int>, r: ItemRow, g: Group) {
    RowEntry(parse, r).Some? && RowEntry(parse, r).value.0 == g
  }

  /** A source is grouped exactly when one of its rows has its three key fields and a creation time
      that parses; it keeps the time of its first such row; sources come in the order of their first
      such rows. */
  lemma LatestGroups(rows: seq<ItemRow>, parse: string -> Option<int>)
    ensures forall g :: g in Latest(rows, parse).values <==>
      exists i :: 0 <= i < |rows| && Contributes(parse, rows[i], g)
    ensures forall g :: g in Latest(rows, parse).values ==> exists i :: (
      && 0 <= i < |rows| && RowEntry(parse, rows[i]) == Some((g, Latest(rows, parse).values[g]))
      && forall j :: 0 <= j < i ==> !Contributes(parse, rows[j], g))
  {
    KeepFirstSpec(rows, r => RowEntry(parse, r));
  }

  /** Sources come in the order of their first contributing rows. */
  lemma LatestOrder(rows: seq<ItemRow>, parse: string -> Option<int>, a: nat, b: nat, j: nat)
    requires a < b < |Latest(rows, parse).keys| && j < |rows|
    requires Contributes(parse, rows[j], Latest(rows, parse).keys[b])
    ensures exists i :: 0 <= i < j && Contributes(parse, rows[i], Latest(rows, parse).keys[a])
  {
    var f := r => RowEntry(parse, r);
    KeepFirstOrder(rows, f, a, b, j);
    var i :| 0 <= i < j && HasKey(f(rows[i]), KeepFirst(rows, f).keys[a]);
    assert Contributes(parse, rows[i], Latest(rows, parse).keys[a]);
  }

  /** The order the query asks for: within a source, rows with usable times come newest first. */
  predicate NewestFirst(rows: seq<ItemRow>, parse: string -> Option<int>) {
    forall i, j :: (0 <= i < j < |rows| && RowEntry(parse, rows[i]).Some? && RowEntry(parse, rows[j]).Some?
      && RowEntry(parse, rows[i]).value.0 == RowEntry(parse, rows[j]).value.0) ==>
        RowEntry(parse, rows[i]).value.1 >= RowEntry(parse, rows[j]).value.1
  }

  /** With rows newest first within each source, the time kept is the source's latest. */
  lemma LatestIsNewest(rows: seq<ItemRow>, parse: string -> Option<int>, j: nat, g: Group, t: int)
    requires NewestFirst(rows, parse)
    requires j < |rows| && RowEntry(parse, rows[j]) == Some((g, t))
    ensures g in Latest(rows, parse).values && Latest(rows, parse).values[g] >= t
  {
    var f := r => RowEntry(parse, r);
    KeepFirstSpec(rows, f);
    assert HasKey(f(rows[j]), g);
    var m := Latest(rows, parse);
    var i :| 0 <= i < |rows| && f(rows[i]) == Some((g, m.values[g]))
      && forall k :: 0 <= k < i ==> !HasKey(f(rows[k]), g);
    assert i <= j;
  }

  /** An entry of the report: the source, its last item time, how long ago that was and the
      threshold applied. `secondsSince` stands for the `hours_since` float. */
  datatype Alert = Alert(
    country: string,
    authority: string,
    sourceUrl: string,
    lastItemAt: int,
    secondsSince: int,
    thresholdH: int)

  /** `silence_overrides.get(authority, default)`. */
  function Threshold(overrides: OrderedMap<string, int>, default: int, authority: string): int {
    if authority in overrides.values then overrides.values[authority] else default
  }

  /** `last_dt < now - timedelta(hours=threshold)`. */
  predicate Silent(last: int, now: int, hours: int) {
    last < now - hours * 3600
  }

  /** The alert for one grouped source, when it is silent. */
  function AlertFor(overrides: OrderedMap<string, int>, default: int, now: int, entry: (Group, int)): Option<Alert> {
    var (g, last) := entry;
    var thr := Threshold(overrides, default, g.1);
    if Silent(last, now, thr) then Some(Alert(g.0, g.1, g.2, last, now - last, thr)) else None
  }

  /** The source an alert is about. */
  function GroupOf(a: Alert): Group {
    (a.country, a.authority, a.sourceUrl)
  }

  /** The alert for a source is made exactly when it is silent, and describes it. */
  lemma AlertForShape(overrides: OrderedMap<string, int>, default: int, now: int, entry: (Group, int))
    ensures var thr := Threshold(overrides, default, entry.0.1);
      && (AlertFor(overrides, default, now, entry).Some? <==> Silent(entry.1, now, thr))
      && (AlertFor(overrides, default, now, entry).Some? ==>
            AlertFor(overrides, default, now, entry).value == Alert(entry.0.0, entry.0.1, entry.0.2, entry.1, now - entry.1, thr))
  {
  }

  /** The alerts for the grouped sources, in group order. */
  function SilentOf(latest: OrderedMap<Group, int>, overrides: OrderedMap<string, int>, default: int, now: int): seq<Alert>
    requires Valid(latest)
  {
    FilterMap(Items(latest), e => AlertFor(overrides, default, now, e))
  }

  /** The loop of `check_silent_sources` that appends an alert per silent source. */
  method FlagSilent(latest: OrderedMap<Group, int>, overrides: OrderedMap<string, int>, default: int, now: int)
    returns (silent: seq<Alert>)
    requires Valid(latest)
    ensures silent == SilentOf(latest, overrides, default, now)
  {
    var items := Items(latest);
    var f := e => AlertFor(overrides, default, now, e);
    silent := [];
    for i := 0 to |items|
      invariant silent == FilterMap(items[..i], f)
    {
      assert items[..i + 1][..i] == items[..i] && items[..i + 1][i] == items[i];
      var (g, last) := items[i];
      var thr := Threshold(overrides, default, g.1);
      if last < now - thr * 3600 {
        silent := silent + [Alert(g.0, g.1, g.2, last, now - last, thr)];
      }
    }
    assert items[..|items|] == items;
  }

  /** A grouped source is reported exactly when its last item is strictly older than its cutoff,
      with the threshold of its authority. */
  lemma SilentExactly(latest: OrderedMap<Group, int>, overrides: OrderedMap<string, int>, default: int, now: int, g: Group)
    requires Valid(latest) && g in latest.values
    ensures Alert(g.0, g.1, g.2, latest.values[g], now - latest.values[g], Threshold(overrides, default, g.1))
      in SilentOf(latest, overrides, default, now)
      <==> latest.values[g] < now - Threshold(overrides, default, g.1) * 3600
  {
    var items := Items(latest);
    var f := e => AlertFor(overrides, default, now, e);
    var thr := Threshold(overrides, default, g.1);
    var a := Alert(g.0, g.1, g.2, latest.values[g], now - latest.values[g], thr);
    var k :| 0 <= k < |latest.keys| && latest.keys[k] == g;
    assert items[k] == (g, latest.values[g]);
    if latest.values[g] < now - thr * 3600 {
      FilterMapComplete(items, f);
      assert f(items[k]) == Some(a);
    } else {
      SilentSound(latest, overrides, default, now);
    }
  }

  /** A source whose last item is exactly at its cutoff is not reported. */
  lemma AtCutoffNotSilent(latest: OrderedMap<Group, int>, overrides: OrderedMap<string, int>, default: int, now: int, g: Group)
    requires Valid(latest) && g in latest.values
    requires latest.values[g] == now - Threshold(overrides, default, g.1) * 3600
    ensures forall a :: a in SilentOf(latest, overrides, default, now) ==> (a.country, a.authority, a.sourceUrl) != g
  {
    SilentSound(latest, overrides, default, now);
  }

  /** Every alert is for a grouped source, carries its last item time and the threshold applied to
      its authority, and that source is past its cutoff. */
  lemma SilentSound(latest: OrderedMap<Group, int>, overrides: OrderedMap<string, int>, default: int, now: int)
    requires Valid(latest)
    ensures forall a :: a in SilentOf(latest, overrides, default, now) ==>
      var g := (a.country, a.authority, a.sourceUrl);
      && g in latest.values
      && a.lastItemAt == latest.values[g]
      && a.thresholdH == Threshold(overrides, default, a.authority)
      && a.secondsSince == now - a.lastItemAt > a.thresholdH * 3600
  {
    var items := Items(latest);
    var f := e => AlertFor(overrides, default, now, e);
    FilterMapSound(items, f);
    forall a | a in SilentOf(latest, overrides, default, now)
      ensures var g := (a.country, a.authority, a.sourceUrl);
        && g in latest.values
        && a.lastItemAt == latest.values[g]
        && a.thresholdH == Threshold(overrides, default, a.authority)
        && a.secondsSince == now - a.lastItemAt > a.thresholdH * 3600
    {
      var j :| 0 <= j < |SilentOf(latest, overrides, default, now)| && SilentOf(latest, overrides, default, now)[j] == a;
      var i :| 0 <= i < |items| && f(items[i]) == Some(a);
      assert items[i].0 == latest.keys[i];
    }
  }

  /** Alerts come in the order of their sources in the grouping. */
  lemma SilentInOrder(latest: OrderedMap<Group, int>, overrides: OrderedMap<string, int>, default: int, now: int, a: nat, b: nat)
    requires Valid(latest)
    requires a < b < |SilentOf(latest, overrides, default, now)|
    ensures exists i, j :: (0 <= i < j < |latest.keys|
      && latest.keys[i] == GroupOf(SilentOf(latest, overrides, default, now)[a])
      && latest.keys[j] == GroupOf(SilentOf(latest, overrides, default, now)[b]))
  {
    var items := Items(latest);
    var f := e => AlertFor(overrides, default, now, e);
    var s := SilentOf(latest, overrides, default, now);
    FilterMapOrder(items, f, a, b);
    var i, j :| 0 <= i < j < |items| && f(items[i]) == Some(s[a]) && f(items[j]) == Some(s[b]);
    AlertForShape(overrides, default, now, items[i]);
    AlertForShape(overrides, default, now, items[j]);
    ItemAt(latest, i);
    ItemAt(latest, j);
    assert 0 <= i < j < |latest.keys| && latest.keys[i] == GroupOf(s[a]) && latest.keys[j] == GroupOf(s[b]);
  }

  /** `check_silent_sources` on the rows the query returned, the thresholds and the current time. */
  method CheckSilentSources(rows: seq<ItemRow>, parse: string -> Option<int>, overrides: OrderedMap<string, int>, default: int, now: int)
    returns (silent: seq<Alert>)
    ensures silent == SilentOf(Latest(rows, parse), overrides, default, now)
  {
    var latest := LatestBySource(rows, parse);
    silent := FlagSilent(latest, overrides, default, now);
  }

  /** A row of `runs_log` with failures, as the query returns it. */
  datatype FailedRun = FailedRun(
    runType: Option<string>,
    startedAt: Option<string>,
    okCount: Option<int>,
    failCount: Option<int>,
    notes: Option<string>)

  /** A count as an f-string renders it: `None` for a missing one. */
  function ShowCount(o: Option<int>): string {
    match o
    case None => "None"
    case Some(n) => ShowInt(n)
  }

  /** How every listed failure and silent source starts. */
  const Bullet: string := "     \U{2022} "

  /** What the report says about a failed run. */
  function FailureText(f: FailedRun): string {
    Show(f.runType) + " | started " + Show(f.startedAt) + " | ok=" + ShowCount(f.okCount)
      + " fail=" + ShowCount(f.failCount) + " | notes=" + Show(f.notes)
  }

  function FailureLine(f: FailedRun): string {
    Bullet + FailureText(f)
  }

  /** What the report says about a silent source; `showTime` renders `last_item_at` and
      `showHours` the rounded `hours_since`. */
  function SilentText(a: Alert, showTime: int -> string, showHours: int -> string): string {
    (if a.country != "" then "[" + a.country + "] " else "") + a.authority + " | " + a.sourceUrl
      + " | last=" + showTime(a.lastItemAt) + " | ~" + showHours(a.secondsSince) + "h (thr=" + ShowInt(a.thresholdH) + "h)"
  }

  function SilentLine(a: Alert, showTime: int -> string, showHours: int -> string): string {
    Bullet + SilentText(a, showTime, showHours)
  }

  function FailureLines(fs: seq<FailedRun>): seq<string> {
    MapAll(fs, FailureLine)
  }

  function SilentLines(ss: seq<Alert>, showTime: int -> string, showHours: int -> string): seq<string> {
    MapAll(ss, a => SilentLine(a, showTime, showHours))
  }

  /** What the report is about: the command-line options and the three checks' results. */
  datatype Health = Health(
    country: Option<string>,
    pending: int,
    sinceHours: int,
    failed: seq<FailedRun>,
    minSilenceHours: int,
    overrides: OrderedMap<string, int>,
    silent: seq<Alert>)

  const Title: string := "GCC Policy & Regulatory Radar \U{2014} Health Check"

  function Header(now: string, country: Option<string>): seq<string> {
    [Title, "Timestamp (UTC): " + now]
      + (if Truthy(country) then ["Country filter: " + country.value] else [])
      + [""]
  }

  function PendingLine(h: Health): string {
    "1) Pending to enrich: " + ShowInt(h.pending)
  }

  function FailedLine(h: Health): string {
    "2) Failed runs (last " + ShowInt(h.sinceHours) + "h): " + ShowInt(|h.failed|)
  }

  function SilentCountLine(h: Health): string
    requires Valid(h.overrides)
  {
    "3) Silent sources (> " + ShowInt(h.minSilenceHours) + "h; overrides: " + Overrides.OverridesText(h.overrides)
      + "): " + ShowInt(|h.silent|)
  }

  /** The failure block: a heading and the first ten failures, or nothing. */
  function FailureBlock(failed: seq<FailedRun>): seq<string> {
    if failed == [] then [] else ["   - Recent failures:"] + FailureLines(Take(failed, 10))
  }

  /** The silent-source block: a heading and the first twenty-five sources, or nothing. */
  function SilentBlock(silent: seq<Alert>, showTime: int -> string, showHours: int -> string): seq<string> {
    if silent == [] then [] else ["   - Sources:"] + SilentLines(Take(silent, 25), showTime, showHours)
  }

  /** The lines of the mail body, `now` being the formatted current time. */
  function ReportLines(now: string, h: Health, showTime: int -> string, showHours: int -> string): seq<string>
    requires Valid(h.overrides)
  {
    Header(now, h.country) + [PendingLine(h), FailedLine(h)] + FailureBlock(h.failed)
      + [SilentCountLine(h)] + SilentBlock(h.silent, showTime, showHours)
  }

  /** The counts that end the mail subject. */
  function SubjectCounts(h: Health): string {
    ": pending=" + ShowInt(h.pending) + " | fails=" + ShowInt(|h.failed|) + " | silent=" + ShowInt(|h.silent|)
  }

  /** The mail subject: the fixed prefix, the country in brackets when there is one, and the counts.
      The three parts can be read back from the subject. */
  function Subject(h: Health): (r: string)
    ensures StartsWith(r, "[GCC Radar] Health")
    ensures EndsWith(r, SubjectCounts(h))
    ensures Truthy(h.country) <==> |r| > 18 && r[18] == ' '
    ensures !Truthy(h.country) ==> |r| == 18 + |SubjectCounts(h)|
    ensures Truthy(h.country) ==>
      && |r| == 18 + |h.country.value| + 3 + |SubjectCounts(h)|
      && r[18..|r| - |SubjectCounts(h)|] == " [" + h.country.value + "]"
  {
    var tag := if Truthy(h.country) then " [" + h.country.value + "]" else "";
    var counts := SubjectCounts(h);
    var r := "[GCC Radar] Health" + tag + counts;
    assert r[..18] == "[GCC Radar] Health";
    assert r[|r| - |counts|..] == counts;
    assert r[18..|r| - |counts|] == tag;
    assert |r| > 18 && r[18] == (if Truthy(h.country) then ' ' else ':');
    r
  }

  /** The subject and body assembly of `main`: the lines are appended one by one. */
  method BuildReport(now: string, h: Health, showTime: int -> string, showHours: int -> string)
    returns (subject: string, body: string)
    requires Valid(h.overrides)
    ensures body == Join(ReportLines(now, h, showTime, showHours), "\n")
    ensures subject == Subject(h)
  {
    var lines := [Title, "Timestamp (UTC): " + now];
    if Truthy(h.country) {
      lines := lines + ["Country filter: " + h.country.value];
    }
    lines := lines + [""];
    assert lines == Header(now, h.country);
    lines := lines + [PendingLine(h), FailedLine(h)];
    lines := AppendFailures(lines, h.failed);
    lines := lines + [SilentCountLine(h)];
    lines := AppendSilent(lines, h.silent, showTime, showHours);
    body := Join(lines, "\n");
    subject := Subject(h);
  }

  /** `if failed:` the heading, then a line for each of `failed[:10]`. */
  method AppendFailures(lines: seq<string>, failed: seq<FailedRun>) returns (r: seq<string>)
    ensures r == lines + FailureBlock(failed)
  {
    r := lines;
    if failed != [] {
      var heading := "   - Recent failures:";
      r := AppendMapped(r + [heading], Take(failed, 10), FailureLine);
      assert r == lines + ([heading] + FailureLines(Take(failed, 10)));
    }
  }

  /** `if silent:` the heading, then a line for each of `silent[:25]`. */
  method AppendSilent(lines: seq<string>, silent: seq<Alert>, showTime: int -> string, showHours: int -> string)
    returns (r: seq<string>)
    ensures r == lines + SilentBlock(silent, showTime, showHours)
  {
    r := lines;
    if silent != [] {
      var heading := "   - Sources:";
      r := AppendMapped(r + [heading], Take(silent, 25), a => SilentLine(a, showTime, showHours));
      assert r == lines + ([heading] + SilentLines(Take(silent, 25), showTime, showHours));
    }
  }

  /** How many of `lines` are list entries. */
  function Bullets(lines: seq<string>): nat
    decreases |lines|
  {
    if lines == [] then 0
    else Bullets(lines[..|lines| - 1]) + (if StartsWith(lines[|lines| - 1], Bullet) then 1 else 0)
  }

  /** The body lists the first ten failed runs and the first twenty-five silent sources and nothing
      else as entries. */
  lemma ReportBullets(now: string, h: Health, showTime: int -> string, showHours: int -> string)
    requires Valid(h.overrides)
    ensures Bullets(ReportLines(now, h, showTime, showHours))
      == (if |h.failed| < 10 then |h.failed| else 10) + (if |h.silent| < 25 then |h.silent| else 25)
  {
    var fb := FailureBlock(h.failed);
    var sb := SilentBlock(h.silent, showTime, showHours);
    HeaderNoBullets(now, h);
    FailureBlockBullets(h.failed);
    SilentBlockBullets(h.silent, showTime, showHours);
    var head := Header(now, h.country) + [PendingLine(h), FailedLine(h)];
    BulletsAppend(head, fb);
    BulletsAppend(head + fb, [SilentCountLine(h)]);
    BulletsAppend(head + fb + [SilentCountLine(h)], sb);
    NotBullet(SilentCountLine(h), 0);
    assert Bullets([SilentCountLine(h)]) == 0 by {
      assert [SilentCountLine(h)][..0] == [];
    }
  }

  lemma {:induction false} BulletsAppend(a: seq<string>, b: seq<string>)
    ensures Bullets(a + b) == Bullets(a) + Bullets(b)
    decreases |b|
  {
    if b == [] {
      assert a + b == a;
    } else {
      var n := |b| - 1;
      BulletsAppend(a, b[..n]);
      assert (a + b)[..|a + b| - 1] == a + b[..n];
    }
  }

  /** A line that differs from the bullet at some position within it is not an entry. */
  lemma NotBullet(line: string, k: nat)
    requires k < |Bullet| && (k >= |line| || line[k] != Bullet[k])
    ensures !StartsWith(line, Bullet)
  {
  }

  lemma HeaderNoBullets(now: string, h: Health)
    ensures Bullets(Header(now, h.country) + [PendingLine(h), FailedLine(h)]) == 0
  {
    var ls := Header(now, h.country) + [PendingLine(h), FailedLine(h)];
    forall i | 0 <= i < |ls| ensures !StartsWith(ls[i], Bullet) {
      var line := ls[i];
      if line == "" {
        NotBullet(line, 0);
      } else {
        assert line[0] in "GTC12";
        NotBullet(line, 0);
      }
    }
    NoBullets(ls);
  }

  lemma {:induction false} NoBullets(ls: seq<string>)
    requires forall i :: 0 <= i < |ls| ==> !StartsWith(ls[i], Bullet)
    ensures Bullets(ls) == 0
    decreases |ls|
  {
    if ls != [] {
      NoBullets(ls[..|ls| - 1]);
    }
  }

  lemma {:induction false} AllBullets(ls: seq<string>)
    requires forall i :: 0 <= i < |ls| ==> StartsWith(ls[i], Bullet)
    ensures Bullets(ls) == |ls|
    decreases |ls|
  {
    if ls != [] {
      AllBullets(ls[..|ls| - 1]);
    }
  }

  lemma FailureBlockBullets(failed: seq<FailedRun>)
    ensures Bullets(FailureBlock(failed)) == if |failed| < 10 then |failed| else 10
  {
    if failed != [] {
      forall f ensures StartsWith(FailureLine(f), Bullet) {
        BulletPrefix(Bullet, FailureText(f));
      }
      BulletsOfLines(Take(failed, 10), FailureLine);
      HeadingThenLines("   - Recent failures:", FailureLines(Take(failed, 10)));
    }
  }

  lemma SilentBlockBullets(silent: seq<Alert>, showTime: int -> string, showHours: int -> string)
    ensures Bullets(SilentBlock(silent, showTime, showHours)) == if |silent| < 25 then |silent| else 25
  {
    if silent != [] {
      var line := a => SilentLine(a, showTime, showHours);
      forall a ensures StartsWith(line(a), Bullet) {
        BulletPrefix(Bullet, SilentText(a, showTime, showHours));
      }
      BulletsOfLines(Take(silent, 25), line);
      HeadingThenLines("   - Sources:", SilentLines(Take(silent, 25), showTime, showHours));
    }
  }

  /** A heading indented by three spaces is not an entry. */
  lemma HeadingThenLines(heading: string, ls: seq<string>)
    requires |heading| > 3 && heading[3] == '-'
    ensures Bullets([heading] + ls) == Bullets(ls)
  {
    NotBullet(heading, 3);
    assert Bullets([heading]) == 0 by {
      assert [heading][..0] == [];
    }
    BulletsAppend([heading], ls);
  }

  /** Lines that all start with the bullet are all entries. */
  lemma BulletsOfLines<A>(xs: seq<A>, line: A -> string)
    requires forall x :: StartsWith(line(x), Bullet)
    ensures Bullets(MapAll(xs, line)) == |xs|
  {
    AllBullets(MapAll(xs, line));
  }

  lemma BulletPrefix(p: string, x: string)
    ensures StartsWith(p + x, p)
  {
  }
}
