/**
 * The per-authority silence thresholds of the health check, given on the command line as
 * `"PSA=48,Open Data Portal=96"`, and the `k=v, ...` text the report shows them as.
 */
module Overrides {
  import opened Wrappers
  import opened Text
  import opened Parts
  import opened Numerals
  import opened OrderedMaps
  import opened Seqs

  /** A comma part with its surrounding whitespace removed, or `None` when nothing is left. */
  function NonBlank(p: string): Option<string> {
    var t := Strip(p);
    if t == [] then None else Some(t)
  }

  /** `[p.strip() for p in s.split(",") if p.strip()]`. */
  function PartsOf(s: string): seq<string> {
    FilterMap(Split(s, ','), NonBlank)
  }

  /** The assignment a part makes: none without `=` or when the text after the first `=` is not an
      integer, else the stripped text before it and the integer. */
  function EntryOf(p: string): Option<(string, int)> {
    if '=' !in p then None
    else
      var kv := SplitFirst(p, '=');
      var n := ParseInt(Strip(kv.1));
      if n.None? then None else Some((Strip(kv.0), n.value))
  }

  /** What `parse_overrides(s)` returns: every part's assignment made in order, so a later
      assignment to the same authority replaces an earlier one. */
  function OverridesOf(s: Option<string>): (r: OrderedMap<string, int>)
    ensures Valid(r)
  {
    if !Truthy(s) then Empty() else PutAll(Empty(), FilterMap(PartsOf(s.value), EntryOf))
  }

  /** `parse_overrides`: the loop over the parts that fills the dictionary. */
  method ParseOverrides(s: Option<string>) returns (out: OrderedMap<string, int>)
    ensures out == OverridesOf(s)
    ensures !Truthy(s) ==> out.keys == [] && out.values == map[]
  {
    if !Truthy(s) {
      return Empty();
    }
    out := Empty();
    var parts := PartsOf(s.value);
    for i := 0 to |parts|
      invariant Valid(out)
      invariant out == PutAll(Empty(), FilterMap(parts[..i], EntryOf))
    {
      var p := parts[i];
      PutAllStep(parts, EntryOf, i);
      if '=' in p {
        var kv := SplitFirst(p, '=');
        var k := Strip(kv.0);
        var n := ParseInt(Strip(kv.1));
        if n.Some? {
          assert EntryOf(p) == Some((k, n.value));
          out := Put(out, k, n.value);
        } else {
          assert EntryOf(p) == None;
        }
      } else {
        assert EntryOf(p) == None;
      }
    }
    assert parts[..|parts|] == parts;
  }

  /** One more element in the loop over `xs`: its entry, if any, is assigned. */
  lemma PutAllStep<A, K, V>(xs: seq<A>, f: A -> Option<(K, V)>, i: nat)
    requires i < |xs|
    ensures var prev := PutAll(Empty(), FilterMap(xs[..i], f));
      PutAll(Empty(), FilterMap(xs[..i + 1], f))
        == if f(xs[i]).Some? then Put(prev, f(xs[i]).value.0, f(xs[i]).value.1) else prev
  {
    var ys := xs[..i + 1];
    assert ys[..i] == xs[..i] && ys[i] == xs[i];
    var es := FilterMap(ys, f);
    var y := f(xs[i]);
    assert es == FilterMap(xs[..i], f) + (if y.Some? then [y.value] else []);
    if y.Some? {
      assert es[..|es| - 1] == FilterMap(xs[..i], f);
      assert es[|es| - 1] == y.value;
      assert PutAll(Empty(), es) == Put(PutAll(Empty(), FilterMap(xs[..i], f)), y.value.0, y.value.1);
    } else {
      assert es == FilterMap(xs[..i], f);
    }
  }

  /** The empty string has no parts. */
  lemma NoParts()
    ensures PartsOf("") == []
  {
    assert Split("", ',') == [""];
    assert NonBlank("") == None;
  }

  /** The authorities that get a threshold are exactly those of the parts that parse: none for a
      text with no `k=int` part, such as `"abc"`. */
  lemma OverridesKeys(s: string)
    ensures var es := FilterMap(PartsOf(s), EntryOf);
      OverridesOf(Some(s)).values.Keys == (set j | 0 <= j < |es| :: es[j].0)
  {
    var es := FilterMap(PartsOf(s), EntryOf);
    if s == [] {
      NoParts();
      assert es == [];
    } else {
      PutAllKeys(Empty(), es);
    }
  }

  /** An authority gets the value of its last part that parses. */
  lemma OverridesLastWins(s: string, i: nat)
    requires i < |FilterMap(PartsOf(s), EntryOf)|
    requires var es := FilterMap(PartsOf(s), EntryOf); forall j :: i < j < |es| ==> es[j].0 != es[i].0
    ensures var es := FilterMap(PartsOf(s), EntryOf);
      es[i].0 in OverridesOf(Some(s)).values && OverridesOf(Some(s)).values[es[i].0] == es[i].1
  {
    if s == [] {
      NoParts();
    } else {
      var es := FilterMap(PartsOf(s), EntryOf);
      PutAllKeys(Empty(), es);
      PutAllLastWins(Empty(), es, i);
    }
  }

  /** `f'{k}={v}'`. */
  function Assignment(kv: (string, int)): string {
    kv.0 + "=" + ShowInt(kv.1)
  }

  /** The assignments of `m`, in key order. */
  function Assignments(m: OrderedMap<string, int>): (r: seq<string>)
    requires Valid(m)
    ensures |r| == |m.keys|
    ensures forall i :: 0 <= i < |r| ==> r[i] == Assignment(Items(m)[i])
  {
    seq(|m.keys|, i requires 0 <= i < |m.keys| && Valid(m) => Assignment(Items(m)[i]))
  }

  /** `', '.join(f'{k}={v}' for k, v in m.items())`. */
  function Render(m: OrderedMap<string, int>): string
    requires Valid(m)
  {
    Join(Assignments(m), ", ")
  }

  /** An authority name that the command-line syntax can carry: no `,`, no `=`, and no whitespace
      at either end. */
  predicate PlainKey(k: string) {
    && ',' !in k && '=' !in k
    && (k == [] || (!IsSpace(k[0]) && !IsSpace(k[|k| - 1])))
  }

  /** Parsing the rendered thresholds gives back the same thresholds, in the same order, whenever
      every authority name is plain. */
  lemma ParseRender(m: OrderedMap<string, int>)
    requires Valid(m)
    requires forall i :: 0 <= i < |m.keys| ==> PlainKey(m.keys[i])
    ensures OverridesOf(Some(Render(m))) == m
  {
    if m.keys == [] {
      assert m.values.Keys == {};
      assert Render(m) == [];
    } else {
      RenderHasAssignment(m);
      AssignmentsShape(m);
      PartsOfRendered(Assignments(m));
      FilterMapAll(Assignments(m), EntryOf, Items(m));
      PutAllItems(m);
    }
  }

  /** The assignments of plain keys all have the rendered shape and read back as their pairs. */
  lemma AssignmentsShape(m: OrderedMap<string, int>)
    requires Valid(m)
    requires forall i :: 0 <= i < |m.keys| ==> PlainKey(m.keys[i])
    ensures forall i :: 0 <= i < |m.keys| ==> PieceShape(Assignments(m)[i])
    ensures forall i :: 0 <= i < |m.keys| ==> EntryOf(Assignments(m)[i]) == Some(Items(m)[i])
  {
    forall i | 0 <= i < |m.keys|
      ensures PieceShape(Assignments(m)[i]) && EntryOf(Assignments(m)[i]) == Some(Items(m)[i])
    {
      AssignmentShape(Items(m)[i]);
    }
  }

  /** Splitting `", ".join(pieces)` on `,` and stripping gives the pieces back. */
  lemma PartsOfRendered(pieces: seq<string>)
    requires pieces != []
    requires forall i :: 0 <= i < |pieces| ==> PieceShape(pieces[i])
    ensures PartsOf(Join(pieces, ", ")) == pieces
  {
    var spaced := [pieces[0]] + AllSpaced(pieces[1..]);
    CommaSpaceJoin(pieces);
    forall i | 0 <= i < |spaced| ensures ',' !in spaced[i] && NonBlank(spaced[i]) == Some(pieces[i]) {
      if i == 0 {
        StripBare(pieces[0]);
      } else {
        StripSpaced(pieces[i]);
      }
    }
    SplitJoin(spaced, ',');
    FilterMapAll(spaced, NonBlank, pieces);
  }

  lemma StripBare(p: string)
    requires PieceShape(p)
    ensures Strip(p) == p
  {
    StripPadded("", p, "");
    assert "" + p + "" == p;
  }

  lemma StripSpaced(p: string)
    requires PieceShape(p)
    ensures ',' !in " " + p && Strip(" " + p) == p
  {
    StripPadded(" ", p, "");
    assert " " + p + "" == " " + p;
  }

  /** A rendered assignment: non-empty, no `,`, and no whitespace at either end. */
  predicate PieceShape(p: string) {
    p != [] && ',' !in p && !IsSpace(p[0]) && !IsSpace(p[|p| - 1])
  }

  /** `str(v)`: a sign and digits, so no `,`, no `=` and no whitespace. */
  lemma ShowIntShape(v: int)
    ensures var d := ShowInt(v);
      && ',' !in d && '=' !in d && !IsSpace(d[0]) && !IsSpace(d[|d| - 1]) && Strip(d) == d
  {
    var d := ShowInt(v);
    ShowIntChars(v);
    SignedDigitsShape(d);
    StripPadded("", d, "");
    assert "" + d + "" == d;
  }

  /** Only a sign and digits. */
  predicate SignedDigits(d: string) {
    forall i :: 0 <= i < |d| ==> d[i] == '-' || IsDigit(d[i])
  }

  lemma SignedDigitsShape(d: string)
    requires d != [] && SignedDigits(d)
    ensures ',' !in d && '=' !in d && !IsSpace(d[0]) && !IsSpace(d[|d| - 1])
  {
    assert d[0] == '-' || IsDigit(d[0]);
    assert d[|d| - 1] == '-' || IsDigit(d[|d| - 1]);
  }

  lemma ShowIntChars(v: int)
    ensures SignedDigits(ShowInt(v))
  {
    if v < 0 {
      var digits := ShowNat(-v);
      assert ShowInt(v) == "-" + digits;
    }
  }

  /** Every rendered assignment of a plain key has that shape and reads back as itself. */
  lemma AssignmentShape(kv: (string, int))
    requires PlainKey(kv.0)
    ensures PieceShape(Assignment(kv)) && EntryOf(Assignment(kv)) == Some(kv)
  {
    var (k, v) := kv;
    var d := ShowInt(v);
    ShowIntShape(v);
    ParseShowInt(v);
    StripPadded("", k, "");
    assert "" + k + "" == k;
    AssignmentPiece(k, d);
    EntryOfAssignment(k, d, v);
  }

  lemma AssignmentPiece(k: string, d: string)
    requires PlainKey(k)
    requires d != [] && ',' !in d && !IsSpace(d[|d| - 1])
    ensures PieceShape(k + "=" + d)
  {
    var p := k + "=" + d;
    assert p[|p| - 1] == d[|d| - 1];
    assert p[0] == (if k == [] then '=' else k[0]);
    assert ',' !in p by {
      assert p == k + ['='] + d;
    }
  }

  lemma EntryOfAssignment(k: string, d: string, v: int)
    requires '=' !in k && Strip(k) == k && Strip(d) == d && ParseInt(d) == Some(v)
    ensures EntryOf(k + "=" + d) == Some((k, v))
  {
    var p := k + "=" + d;
    assert p == k + ['='] + d;
    SplitFirstAt(k, '=', d);
    assert '=' in p;
    assert SplitFirst(p, '=') == (k, d);
  }

  /** Each string behind a space, as `", ".join` separates all but the first. */
  function AllSpaced(ps: seq<string>): (r: seq<string>)
    ensures |r| == |ps| && forall i :: 0 <= i < |ps| ==> r[i] == " " + ps[i]
  {
    seq(|ps|, i requires 0 <= i < |ps| => " " + ps[i])
  }

  /** `", ".join(ps)` is `",".join` of the same strings with a space in front of all but the first. */
  lemma CommaSpaceJoin(ps: seq<string>)
    requires ps != []
    ensures Join(ps, ", ") == Join([ps[0]] + AllSpaced(ps[1..]), ",")
  {
    if |ps| > 1 {
      SpacedJoin(ps[1..]);
      assert ([ps[0]] + AllSpaced(ps[1..]))[1..] == AllSpaced(ps[1..]);
    }
  }

  lemma {:induction false} SpacedJoin(qs: seq<string>)
    requires qs != []
    ensures " " + Join(qs, ", ") == Join(AllSpaced(qs), ",")
    decreases |qs|
  {
    if |qs| > 1 {
      SpacedJoin(qs[1..]);
      assert AllSpaced(qs)[1..] == AllSpaced(qs[1..]);
      assert " " + Join(qs, ", ") == (" " + qs[0]) + "," + (" " + Join(qs[1..], ", "));
    }
  }

  /** What the report shows for the thresholds: the rendering, or `none` when there are none. */
  function OverridesText(m: OrderedMap<string, int>): (r: string)
    requires Valid(m)
    ensures m.keys == [] ==> r == "none"
    ensures m.keys != [] ==> r == Render(m) && '=' in r
  {
    var t := Render(m);
    RenderHasAssignment(m);
    if t == [] then "none" else t
  }

  lemma RenderHasAssignment(m: OrderedMap<string, int>)
    requires Valid(m)
    ensures m.keys != [] ==> '=' in Render(m)
  {
    if m.keys != [] {
      var first := Assignments(m)[0];
      var t := Render(m);
      assert first[|Items(m)[0].0|] == '=';
      assert t[..|first|] == first;
      assert t[|Items(m)[0].0|] == '=';
    }
  }
}
