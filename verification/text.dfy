/**
 * Python string operations the crawler relies on, over `string` (a `seq<char>`):
 * `strip`, `lstrip`/`rstrip` of a character, `lower`/`upper`, `startswith`/`endswith`,
 * the `in` substring test, `replace` of one character, `re.sub(r"\s+", " ", ...)`,
 * `split()` without arguments, and `sep.join(...)`.
 */
module Text {

  /** The characters Python's `str.isspace()` accepts. `strip()`, `split()` and the regex class `\s`
      all use this set. */
  predicate IsSpace(c: char) {
    var n := c as int;
    (9 <= n <= 13) || (28 <= n <= 32) || n == 0x85 || n == 0xA0 || n == 0x1680
    || (0x2000 <= n <= 0x200A) || n == 0x2028 || n == 0x2029 || n == 0x202F
    || n == 0x205F || n == 0x3000
  }

  /** No character of `s` is whitespace. */
  predicate NoSpace(s: string) {
    forall i :: 0 <= i < |s| ==> !IsSpace(s[i])
  }

  /** `s.lstrip()`: drops leading whitespace. */
  function TrimStart(s: string): (r: string)
    ensures |r| <= |s| && r == s[|s| - |r|..]
    ensures r == [] || !IsSpace(r[0])
    ensures forall i :: 0 <= i < |s| - |r| ==> IsSpace(s[i])
    decreases |s|
  {
    if s != [] && IsSpace(s[0]) then TrimStart(s[1..]) else s
  }

  /** `s.rstrip()`: drops trailing whitespace. */
  function TrimEnd(s: string): (r: string)
    ensures |r| <= |s| && r == s[..|r|]
    ensures r == [] || !IsSpace(r[|r| - 1])
    ensures forall i :: |r| <= i < |s| ==> IsSpace(s[i])
    decreases |s|
  {
    if s != [] && IsSpace(s[|s| - 1]) then TrimEnd(s[..|s| - 1]) else s
  }

  /** `s.lstrip(c)`: drops leading copies of `c`. */
  function LStripChar(s: string, c: char): (r: string)
    ensures |r| <= |s| && r == s[|s| - |r|..]
    ensures r == [] || r[0] != c
    ensures forall i :: 0 <= i < |s| - |r| ==> s[i] == c
    decreases |s|
  {
    if s != [] && s[0] == c then LStripChar(s[1..], c) else s
  }

  /** `s.rstrip(c)`: drops trailing copies of `c`. */
  function RStripChar(s: string, c: char): (r: string)
    ensures |r| <= |s| && r == s[..|r|]
    ensures r == [] || r[|r| - 1] != c
    ensures forall i :: |r| <= i < |s| ==> s[i] == c
    decreases |s|
  {
    if s != [] && s[|s| - 1] == c then RStripChar(s[..|s| - 1], c) else s
  }

  /** `s.strip()`: the slice of `s` left once leading and trailing whitespace is gone. */
  function Strip(s: string): (r: string)
    ensures r == [] || (!IsSpace(r[0]) && !IsSpace(r[|r| - 1]))
    ensures var k := |s| - |TrimStart(s)|; k + |r| <= |s| && r == s[k..k + |r|]
    ensures forall i :: 0 <= i < |s| && !IsSpace(s[i]) ==> |s| - |TrimStart(s)| <= i < |s| - |TrimStart(s)| + |r|
  {
    TrimEnd(TrimStart(s))
  }

  function LowerChar(c: char): char {
    if 'A' <= c <= 'Z' then (c as int + 32) as char else c
  }

  function UpperChar(c: char): char {
    if 'a' <= c <= 'z' then (c as int - 32) as char else c
  }

  /** `s.lower()` on ASCII letters. */
  function Lower(s: string): (r: string)
    ensures |r| == |s| && forall i :: 0 <= i < |s| ==> r[i] == LowerChar(s[i])
  {
    seq(|s|, i requires 0 <= i < |s| => LowerChar(s[i]))
  }

  /** `s.upper()` on ASCII letters. */
  function Upper(s: string): (r: string)
    ensures |r| == |s| && forall i :: 0 <= i < |s| ==> r[i] == UpperChar(s[i])
  {
    seq(|s|, i requires 0 <= i < |s| => UpperChar(s[i]))
  }

  predicate StartsWith(s: string, prefix: string) {
    prefix <= s
  }

  predicate EndsWith(s: string, suffix: string) {
    |suffix| <= |s| && s[|s| - |suffix|..] == suffix
  }

  /** Python's `t in s` for strings. */
  predicate Contains(s: string, t: string)
    decreases |s|
  {
    t <= s || (s != [] && Contains(s[1..], t))
  }

  /** `s.replace(a, b)` for single characters. */
  function ReplaceChar(s: string, a: char, b: char): (r: string)
    ensures |r| == |s|
    ensures forall i :: 0 <= i < |s| ==> r[i] == (if s[i] == a then b else s[i])
  {
    seq(|s|, i requires 0 <= i < |s| => if s[i] == a then b else s[i])
  }

  /** `s[:n]`. */
  function Take<T>(s: seq<T>, n: nat): (r: seq<T>)
    ensures r <= s && |r| == if |s| <= n then |s| else n
  {
    if |s| <= n then s else s[..n]
  }

  /** `re.sub(r"\s+", " ", s)`: every maximal run of whitespace becomes one space. */
  function CollapseSpaces(s: string): (r: string)
    decreases |s|
  {
    if s == [] then []
    else if IsSpace(s[0]) then [' '] + CollapseSpaces(TrimStart(s))
    else [s[0]] + CollapseSpaces(s[1..])
  }

  /** The longest prefix of `t` without whitespace. */
  function Word(t: string): (w: string)
    ensures w <= t && NoSpace(w)
    ensures |w| < |t| ==> IsSpace(t[|w|])
    ensures t != [] && !IsSpace(t[0]) ==> w != []
  {
    if t == [] || IsSpace(t[0]) then [] else [t[0]] + Word(t[1..])
  }

  /** Every element is a non-empty run of non-whitespace characters. */
  predicate AreWords(ws: seq<string>) {
    forall k :: 0 <= k < |ws| ==> ws[k] != [] && NoSpace(ws[k])
  }

  /** `s.split()`: the maximal runs of non-whitespace characters, in order. */
  function SplitWords(s: string): (ws: seq<string>)
    decreases |s|
  {
    var t := TrimStart(s);
    if t == [] then [] else [Word(t)] + SplitWords(t[|Word(t)|..])
  }

  /** Every piece `split()` returns is a non-empty word without whitespace. */
  lemma {:induction false} SplitWordsAreWords(s: string)
    ensures AreWords(SplitWords(s))
    decreases |s|
  {
    var t := TrimStart(s);
    if t != [] {
      var w := Word(t);
      SplitWordsAreWords(t[|w|..]);
      var rest := SplitWords(t[|w|..]);
      assert SplitWords(s) == [w] + rest;
      forall k | 0 <= k < |[w] + rest| ensures ([w] + rest)[k] != [] && NoSpace(([w] + rest)[k]) {
        if k > 0 { assert ([w] + rest)[k] == rest[k - 1]; }
      }
    }
  }

  /** `sep.join(ws)`. */
  function Join(ws: seq<string>, sep: string): string {
    if ws == [] then []
    else if |ws| == 1 then ws[0]
    else ws[0] + sep + Join(ws[1..], sep)
  }

  /** How `" ".join(...)` of words looks: no whitespace at either end, and every whitespace character
      is a single `' '` with a non-space on each side. */
  predicate SingleSpaced(r: string) {
    && (r == [] || (!IsSpace(r[0]) && !IsSpace(r[|r| - 1])))
    && forall i :: 0 <= i < |r| && IsSpace(r[i]) ==>
         r[i] == ' ' && 0 < i < |r| - 1 && !IsSpace(r[i - 1]) && !IsSpace(r[i + 1])
  }

  lemma {:induction false} JoinWordsSingleSpaced(ws: seq<string>)
    requires AreWords(ws)
    ensures SingleSpaced(Join(ws, " "))
    ensures Join(ws, " ") == [] <==> ws == []
  {
    if |ws| == 1 {
      assert ws[0] != [] && NoSpace(ws[0]);
    } else if |ws| > 1 {
      var w, rest := ws[0], ws[1..];
      assert w != [] && NoSpace(w);
      assert AreWords(rest) by {
        forall k | 0 <= k < |rest| ensures rest[k] != [] && NoSpace(rest[k]) {
          assert rest[k] == ws[k + 1];
        }
      }
      JoinWordsSingleSpaced(rest);
      var j := Join(rest, " ");
      var r := w + " " + j;
      assert Join(ws, " ") == r;
      assert forall i :: 0 <= i < |w| ==> r[i] == w[i];
      assert r[|w|] == ' ';
      assert forall i :: |w| < i < |r| ==> r[i] == j[i - |w| - 1];
    }
  }

  /** The longest space-free prefix of a word followed by nothing or by a space is that word. */
  lemma {:induction false} WordOfWord(w: string, x: string)
    requires NoSpace(w)
    requires x == [] || IsSpace(x[0])
    ensures Word(w + x) == w
    decreases |w|
  {
    if w != [] {
      assert (w + x)[1..] == w[1..] + x;
      WordOfWord(w[1..], x);
    }
  }

  /** Leading whitespace does not change what `split()` returns. */
  lemma SplitWordsSkipsSpace(s: string)
    requires s != [] && IsSpace(s[0])
    ensures SplitWords(s) == SplitWords(s[1..])
  {
    assert TrimStart(s) == TrimStart(s[1..]);
  }

  /** A word at the front of a string is the first piece `split()` returns. */
  lemma SplitWordsAfterWord(w: string, x: string)
    requires w != [] && NoSpace(w)
    requires x == [] || IsSpace(x[0])
    ensures SplitWords(w + x) == [w] + SplitWords(x)
  {
    var t := w + x;
    assert t[0] == w[0];
    assert TrimStart(t) == t;
    WordOfWord(w, x);
    assert t[|w|..] == x;
  }

  lemma AreWordsTail(ws: seq<string>)
    requires AreWords(ws) && ws != []
    ensures AreWords(ws[1..]) && ws[0] != [] && NoSpace(ws[0])
  {
    forall k | 0 <= k < |ws[1..]| ensures ws[1..][k] != [] && NoSpace(ws[1..][k]) {
      assert ws[1..][k] == ws[k + 1];
    }
  }

  /** `" ".join(ws).split() == ws` for words: `split()` undoes the join. */
  lemma {:induction false} SplitJoinWords(ws: seq<string>)
    requires AreWords(ws)
    ensures SplitWords(Join(ws, " ")) == ws
  {
    if ws != [] {
      AreWordsTail(ws);
      if |ws| == 1 {
        SplitJoinOne(ws[0]);
      } else {
        SplitJoinWords(ws[1..]);
        SplitJoinStep(ws[0], ws[1..]);
        assert ws == [ws[0]] + ws[1..];
      }
    }
  }

  lemma SplitJoinOne(w: string)
    requires w != [] && NoSpace(w)
    ensures SplitWords(Join([w], " ")) == [w]
  {
    SplitWordsAfterWord(w, []);
    assert w + [] == w;
  }

  lemma SplitWordsSpaceThen(j: string)
    ensures SplitWords(" " + j) == SplitWords(j)
  {
    SplitWordsSkipsSpace(" " + j);
    assert (" " + j)[1..] == j;
  }

  lemma SplitJoinStep(w: string, rest: seq<string>)
    requires w != [] && NoSpace(w) && rest != []
    requires SplitWords(Join(rest, " ")) == rest
    ensures SplitWords(Join([w] + rest, " ")) == [w] + rest
  {
    var j := Join(rest, " ");
    JoinCons(w, rest);
    assert w + " " + j == w + (" " + j);
    SplitWordsAfterWord(w, " " + j);
    SplitWordsSpaceThen(j);
  }

  lemma JoinCons(w: string, ws: seq<string>)
    requires ws != []
    ensures Join([w] + ws, " ") == w + " " + Join(ws, " ")
  {
    assert ([w] + ws)[1..] == ws;
  }

  /** A space-free prefix passes through `re.sub(r"\s+", " ", ...)` unchanged. */
  lemma {:induction false} CollapseAfterWord(w: string, x: string)
    requires NoSpace(w)
    ensures CollapseSpaces(w + x) == w + CollapseSpaces(x)
    decreases |w|
  {
    if w != [] {
      assert !IsSpace(w[0]);
      var t := w + x;
      assert t[0] == w[0] && t[1..] == w[1..] + x;
      CollapseAfterWord(w[1..], x);
      calc {
        CollapseSpaces(t);
        [w[0]] + CollapseSpaces(t[1..]);
        [w[0]] + (w[1..] + CollapseSpaces(x));
        ([w[0]] + w[1..]) + CollapseSpaces(x);
        { assert [w[0]] + w[1..] == w; }
        w + CollapseSpaces(x);
      }
    } else {
      assert w + x == x;
    }
  }

  /** `" "` when `t` ends in whitespace, else `""`. */
  function TrailingSpace(t: string): string {
    if t != [] && IsSpace(t[|t| - 1]) then " " else ""
  }

  /** Leading whitespace removed once more changes nothing. */
  lemma SplitWordsFromStripped(rest: string)
    ensures SplitWords(rest) == SplitWords(TrimStart(rest))
  {
    var u := TrimStart(rest);
    assert TrimStart(u) == u;
  }

  /** A whitespace run at the front collapses to one space. */
  lemma CollapseSpaceRun(x: string)
    requires x != [] && IsSpace(x[0])
    ensures CollapseSpaces(x) == " " + CollapseSpaces(TrimStart(x))
  {
  }

  /** A string ending in the non-empty `u` ends the way `u` does. */
  lemma TrailingOfSuffix(t: string, u: string)
    requires u != [] && |u| <= |t| && t[|t| - |u|..] == u
    ensures TrailingSpace(t) == TrailingSpace(u)
  {
    assert t[|t| - 1] == u[|u| - 1];
  }

  /** What is left after trimming decides whether `w + rest` ends in whitespace. */
  lemma TrailingAfterTrim(w: string, rest: string)
    requires TrimStart(rest) != []
    ensures TrailingSpace(w + rest) == TrailingSpace(TrimStart(rest))
  {
    var u := TrimStart(rest);
    assert (w + rest)[|w + rest| - |u|..] == u;
    TrailingOfSuffix(w + rest, u);
  }

  /** The first step of `CollapseIsJoinedWords`: split `t` into its first word and the rest. */
  lemma CollapseFirstWord(t: string)
    requires t != [] && !IsSpace(t[0])
    ensures var w := Word(t); var rest := t[|w|..];
      && w != [] && t == w + rest
      && CollapseSpaces(t) == w + CollapseSpaces(rest)
      && SplitWords(t) == [w] + SplitWords(rest)
  {
    var w := Word(t);
    var rest := t[|w|..];
    assert t == w + rest;
    SplitWordsAfterWord(w, rest);
    CollapseAfterWord(w, rest);
  }

  /** A word followed by whitespace only. */
  lemma CollapseWordThenSpaces(w: string, rest: string)
    requires w != [] && NoSpace(w)
    requires rest != [] && IsSpace(rest[0]) && TrimStart(rest) == []
    ensures w + CollapseSpaces(rest) == Join([w] + SplitWords(rest), " ") + TrailingSpace(w + rest)
  {
    assert CollapseSpaces(rest) == " " by {
      CollapseSpaceRun(rest);
    }
    assert SplitWords(rest) == [] by {
      SplitWordsFromStripped(rest);
    }
    assert TrailingSpace(w + rest) == " " by {
      assert IsSpace(rest[|rest| - 1]);
      TrailingOfSuffix(w + rest, rest);
    }
    assert [w] + SplitWords(rest) == [w];
  }

  lemma Regroup(a: string, b: string, c: string, d: string)
    ensures a + (b + (c + d)) == a + b + c + d
  {
  }

  /** A string that starts with a non-space has at least one word. */
  lemma SplitWordsNonEmpty(u: string)
    requires u != [] && !IsSpace(u[0])
    ensures SplitWords(u) != []
  {
    assert TrimStart(u) == u;
  }

  /** A word, a whitespace run, then more text starting with a non-space. */
  lemma CollapseWordThenMore(w: string, rest: string, u: string)
    requires w != [] && NoSpace(w)
    requires rest != [] && IsSpace(rest[0]) && u == TrimStart(rest) && u != []
    requires CollapseSpaces(u) == Join(SplitWords(u), " ") + TrailingSpace(u)
    ensures w + CollapseSpaces(rest) == Join([w] + SplitWords(rest), " ") + TrailingSpace(w + rest)
  {
    CollapseSpaceRun(rest);
    SplitWordsFromStripped(rest);
    var ws := SplitWords(u);
    SplitWordsNonEmpty(u);
    JoinCons(w, ws);
    TrailingAfterTrim(w, rest);
    var j, tr := Join(ws, " "), TrailingSpace(u);
    Regroup(w, " ", j, tr);
  }

  /** For a string that starts with a non-space, collapsing whitespace runs gives the words joined by
      single spaces, plus one space if the string ended in whitespace. */
  lemma {:induction false} CollapseIsJoinedWords(t: string)
    requires t == [] || !IsSpace(t[0])
    ensures CollapseSpaces(t) == Join(SplitWords(t), " ") + TrailingSpace(t)
    decreases |t|
  {
    if t != [] {
      CollapseFirstWord(t);
      var w := Word(t);
      var rest := t[|w|..];
      if rest == [] {
        assert SplitWords(rest) == [] && CollapseSpaces(rest) == [];
        assert [w] + SplitWords(rest) == [w];
        TrailingOfSuffix(t, w);
      } else {
        var u := TrimStart(rest);
        if u == [] {
          CollapseWordThenSpaces(w, rest);
        } else {
          CollapseIsJoinedWords(u);
          CollapseWordThenMore(w, rest, u);
        }
      }
    }
  }

  lemma TrimStartAfterSpaces(p: string, y: string)
    requires forall i :: 0 <= i < |p| ==> IsSpace(p[i])
    requires y == [] || !IsSpace(y[0])
    ensures TrimStart(p + y) == y
    decreases |p|
  {
    if p != [] {
      assert (p + y)[1..] == p[1..] + y;
      TrimStartAfterSpaces(p[1..], y);
    }
  }

  lemma TrimEndBeforeSpaces(y: string, q: string)
    requires forall i :: 0 <= i < |q| ==> IsSpace(q[i])
    requires y == [] || !IsSpace(y[|y| - 1])
    ensures TrimEnd(y + q) == y
    decreases |q|
  {
    if q != [] {
      assert (y + q)[..|y + q| - 1] == y + q[..|q| - 1];
      TrimEndBeforeSpaces(y, q[..|q| - 1]);
    }
  }

  /** Stripping a string padded with whitespace on both sides returns the padded middle. */
  lemma StripPadded(p: string, y: string, q: string)
    requires forall i :: 0 <= i < |p| ==> IsSpace(p[i])
    requires forall i :: 0 <= i < |q| ==> IsSpace(q[i])
    requires y == [] || (!IsSpace(y[0]) && !IsSpace(y[|y| - 1]))
    ensures Strip(p + y + q) == y
  {
    if y == [] {
      assert p + y + q == (p + q) + [];
      TrimStartAfterSpaces(p + q, []);
    } else {
      assert p + y + q == p + (y + q);
      assert (y + q)[0] == y[0];
      TrimStartAfterSpaces(p, y + q);
      TrimEndBeforeSpaces(y, q);
    }
  }

  /** `" "` when `s` starts with whitespace, else `""`. */
  function LeadingSpace(s: string): string {
    if s != [] && IsSpace(s[0]) then " " else ""
  }

  lemma CollapseLead(s: string)
    ensures CollapseSpaces(s) == LeadingSpace(s) + CollapseSpaces(TrimStart(s))
  {
    if s != [] && IsSpace(s[0]) {
      CollapseSpaceRun(s);
    } else {
      assert TrimStart(s) == s;
    }
  }

  /** The words of `t` joined by spaces neither start nor end with whitespace. */
  lemma JoinWordsEnds(t: string)
    ensures var y := Join(SplitWords(t), " "); y == [] || (!IsSpace(y[0]) && !IsSpace(y[|y| - 1]))
  {
    SplitWordsAreWords(t);
    JoinWordsSingleSpaced(SplitWords(t));
  }

  lemma OneSpaceOrNone(p: string)
    requires p == "" || p == " "
    ensures forall i :: 0 <= i < |p| ==> IsSpace(p[i])
  {
  }

  lemma StripAroundWords(p: string, y: string, q: string)
    requires p == "" || p == " "
    requires q == "" || q == " "
    requires y == [] || (!IsSpace(y[0]) && !IsSpace(y[|y| - 1]))
    ensures Strip(p + (y + q)) == y
  {
    OneSpaceOrNone(p);
    OneSpaceOrNone(q);
    Regroup3(p, y, q);
    StripPadded(p, y, q);
  }

  lemma Regroup3(a: string, b: string, c: string)
    ensures a + (b + c) == a + b + c
  {
  }

  /** The same for a string that starts with a non-space, behind at most one space. */
  lemma CollapseStripTrimmed(p: string, t: string)
    requires p == "" || p == " "
    requires t == [] || !IsSpace(t[0])
    ensures Strip(p + CollapseSpaces(t)) == Join(SplitWords(t), " ")
  {
    CollapseIsJoinedWords(t);
    JoinWordsEnds(t);
    StripAroundWords(p, Join(SplitWords(t), " "), TrailingSpace(t));
  }

  /** `re.sub(r"\s+", " ", s).strip() == " ".join(s.split())`. */
  lemma CollapseStripIsJoinSplit(s: string)
    ensures Strip(CollapseSpaces(s)) == Join(SplitWords(s), " ")
  {
    CollapseLead(s);
    SplitWordsFromStripped(s);
    CollapseStripTrimmed(LeadingSpace(s), TrimStart(s));
  }

  /** Stripping copies of `c` from `p + x` stops inside `x` when `p` does not end in `c`. */
  lemma {:induction false} RStripCharAfter(p: string, x: string, c: char)
    requires p != [] && p[|p| - 1] != c
    ensures RStripChar(p + x, c) == p + RStripChar(x, c)
    decreases |x|
  {
    if x == [] {
      assert p + x == p;
    } else if x[|x| - 1] == c {
      assert (p + x)[..|p + x| - 1] == p + x[..|x| - 1];
      RStripCharAfter(p, x[..|x| - 1], c);
    }
  }

  /** `(p + x).rstrip(c)` is no longer than `p` followed by `x.rstrip(c)`. */
  lemma RStripCharLength(p: string, x: string, c: char)
    ensures |RStripChar(p + x, c)| <= |p| + |RStripChar(x, c)|
  {
  }

  /** Trailing whitespace removal cannot eat into a prefix that ends in a non-space. */
  lemma TrimEndKeepsPrefix(p: string, x: string)
    requires p != [] && !IsSpace(p[|p| - 1])
    ensures p <= TrimEnd(p + x)
  {
    var s, r := p + x, TrimEnd(p + x);
    assert s[|p| - 1] == p[|p| - 1];
    assert |r| >= |p|;
    assert r == s[..|r|] && s[..|p|] == p;
  }

  /** `(p + x).strip()` still starts with `p` when `p` starts and ends with non-spaces. */
  lemma StripKeepsPrefix(p: string, x: string)
    requires p != [] && !IsSpace(p[0]) && !IsSpace(p[|p| - 1])
    ensures p <= Strip(p + x)
  {
    assert (p + x)[0] == p[0];
    assert TrimStart(p + x) == p + x;
    TrimEndKeepsPrefix(p, x);
  }
}
