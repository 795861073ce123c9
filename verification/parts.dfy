/**
 * Splitting a string on one separator character, as Python's `s.split(c)` and `s.split(c, 1)`.
 */
module Parts {
  import opened Text

  /** Index of the first `c` in `s`. */
  function IndexOf(s: string, c: char): (i: nat)
    requires c in s
    ensures i < |s| && s[i] == c && c !in s[..i]
  {
    if s[0] == c then 0 else 1 + IndexOf(s[1..], c)
  }

  /** `s.split(c)`: the pieces between the occurrences of `c`; never empty, and `""` gives `[""]`. */
  function Split(s: string, c: char): (r: seq<string>)
    ensures r != []
    decreases |s|
  {
    if c !in s then [s]
    else
      var i := IndexOf(s, c);
      [s[..i]] + Split(s[i + 1..], c)
  }

  /** No piece of `s.split(c)` contains `c`. */
  lemma {:induction false} SplitPiecesFree(s: string, c: char)
    ensures forall k :: 0 <= k < |Split(s, c)| ==> c !in Split(s, c)[k]
    decreases |s|
  {
    if c in s {
      var i := IndexOf(s, c);
      SplitPiecesFree(s[i + 1..], c);
    }
  }

  /** `c.join(s.split(c)) == s`. */
  lemma {:induction false} JoinSplit(s: string, c: char)
    ensures Join(Split(s, c), [c]) == s
    decreases |s|
  {
    if c in s {
      var i := IndexOf(s, c);
      var rest := s[i + 1..];
      JoinSplit(rest, c);
      var tail := Split(rest, c);
      assert Split(s, c) == [s[..i]] + tail;
      assert ([s[..i]] + tail)[1..] == tail;
      assert s == s[..i] + [c] + rest;
    }
  }

  /** `s.split(c)` undoes `c.join(ps)` when no piece contains `c`. */
  lemma {:induction false} SplitJoin(ps: seq<string>, c: char)
    requires ps != []
    requires forall k :: 0 <= k < |ps| ==> c !in ps[k]
    ensures Split(Join(ps, [c]), c) == ps
    decreases |ps|
  {
    if |ps| == 1 {
      assert Join(ps, [c]) == ps[0];
    } else {
      var rest := ps[1..];
      SplitJoin(rest, c);
      var j := Join(rest, [c]);
      var s := ps[0] + [c] + j;
      assert Join(ps, [c]) == s;
      SplitAtFirst(ps[0], c, j);
      assert ps == [ps[0]] + rest;
    }
  }

  /** Splitting `p + [c] + j` when `p` has no `c`: `p`, then the pieces of `j`. */
  lemma SplitAtFirst(p: string, c: char, j: string)
    requires c !in p
    ensures Split(p + [c] + j, c) == [p] + Split(j, c)
  {
    var s := p + [c] + j;
    assert IndexOf(s, c) == |p| by {
      assert s[|p|] == c;
      assert s[..|p|] == p;
      IndexOfFirst(s, c, |p|);
    }
    assert s[|p| + 1..] == j;
    assert s[..|p|] == p;
  }

  /** The first `c` in `s` is at the first index holding `c`. */
  lemma IndexOfFirst(s: string, c: char, i: nat)
    requires i < |s| && s[i] == c && c !in s[..i]
    ensures IndexOf(s, c) == i
  {
  }

  /** `s.split(c, 1)` on a string that contains `c`: the text before the first `c` and the text
      after it. */
  function SplitFirst(s: string, c: char): (r: (string, string))
    requires c in s
    ensures c !in r.0 && s == r.0 + [c] + r.1
  {
    var i := IndexOf(s, c);
    assert s == s[..i] + [c] + s[i + 1..];
    (s[..i], s[i + 1..])
  }

  /** `(p + c + j).split(c, 1)` is `(p, j)` when `p` has no `c`. */
  lemma SplitFirstAt(p: string, c: char, j: string)
    requires c !in p
    ensures SplitFirst(p + [c] + j, c) == (p, j)
  {
    var s := p + [c] + j;
    assert s[|p|] == c && s[..|p|] == p;
    IndexOfFirst(s, c, |p|);
    assert s[|p| + 1..] == j;
  }
}
