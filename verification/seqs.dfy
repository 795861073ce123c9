/** Sequence helpers for the filtering loops: keep the elements a partial map sends somewhere. */
module Seqs {
  import opened Wrappers

  /** `[f(x) for x in xs if f(x) is not None]`, in order. */
  function FilterMap<A, B>(xs: seq<A>, f: A -> Option<B>): (r: seq<B>)
    ensures |r| <= |xs|
    decreases |xs|
  {
    if xs == [] then []
    else
      var y := f(xs[|xs| - 1]);
      FilterMap(xs[..|xs| - 1], f) + (if y.Some? then [y.value] else [])
  }

  /** Every kept element is the image of some input. */
  lemma {:induction false} FilterMapSound<A, B>(xs: seq<A>, f: A -> Option<B>)
    ensures forall j :: 0 <= j < |FilterMap(xs, f)| ==>
      exists i :: 0 <= i < |xs| && f(xs[i]) == Some(FilterMap(xs, f)[j])
    decreases |xs|
  {
    if xs != [] {
      var init := xs[..|xs| - 1];
      FilterMapSound(init, f);
      var rs := FilterMap(xs, f);
      var prev := FilterMap(init, f);
      var y := f(xs[|xs| - 1]);
      assert rs == prev + (if y.Some? then [y.value] else []);
      forall j | 0 <= j < |rs|
        ensures exists i :: 0 <= i < |xs| && f(xs[i]) == Some(rs[j])
      {
        if j < |prev| {
          var i :| 0 <= i < |init| && f(init[i]) == Some(prev[j]);
          assert xs[i] == init[i] && rs[j] == prev[j];
        } else {
          assert f(xs[|xs| - 1]) == Some(rs[j]);
        }
      }
      assert forall j :: 0 <= j < |rs| ==> exists i :: 0 <= i < |xs| && f(xs[i]) == Some(rs[j]);
    } else {
      assert |FilterMap(xs, f)| == 0;
    }
  }

  /** Every input the map sends somewhere has its image kept; nothing is kept only when the map
      sends nothing anywhere. */
  lemma {:induction false} FilterMapComplete<A, B>(xs: seq<A>, f: A -> Option<B>)
    ensures forall i :: 0 <= i < |xs| && f(xs[i]).Some? ==> f(xs[i]).value in FilterMap(xs, f)
    ensures FilterMap(xs, f) == [] <==> forall i :: 0 <= i < |xs| ==> f(xs[i]).None?
    decreases |xs|
  {
    if xs != [] {
      var init := xs[..|xs| - 1];
      FilterMapComplete(init, f);
      var rs := FilterMap(xs, f);
      forall i | 0 <= i < |xs| && f(xs[i]).Some?
        ensures f(xs[i]).value in rs
      {
        if i < |init| {
          assert xs[i] == init[i];
        }
      }
      if rs == [] {
        forall i | 0 <= i < |xs| ensures f(xs[i]).None? {
          if i < |init| {
            assert xs[i] == init[i];
          }
        }
      }
    }
  }

  /** When the map sends every input somewhere, everything is kept, in order. */
  lemma {:induction false} FilterMapAll<A, B>(xs: seq<A>, f: A -> Option<B>, ys: seq<B>)
    requires |xs| == |ys|
    requires forall i :: 0 <= i < |xs| ==> f(xs[i]) == Some(ys[i])
    ensures FilterMap(xs, f) == ys
    decreases |xs|
  {
    if xs != [] {
      var n := |xs| - 1;
      FilterMapAll(xs[..n], f, ys[..n]);
      assert f(xs[n]) == Some(ys[n]);
      assert ys == ys[..n] + [ys[n]];
    }
  }

  /** Kept elements stay in input order: two kept elements come from inputs in the same order. */
  lemma {:induction false} FilterMapOrder<A, B>(xs: seq<A>, f: A -> Option<B>, a: nat, b: nat)
    requires a < b < |FilterMap(xs, f)|
    ensures exists i, j :: (0 <= i < j < |xs| && f(xs[i]) == Some(FilterMap(xs, f)[a])
      && f(xs[j]) == Some(FilterMap(xs, f)[b]))
    decreases |xs|
  {
    var n := |xs| - 1;
    var init := xs[..n];
    var prev := FilterMap(init, f);
    var rs := FilterMap(xs, f);
    var y := f(xs[n]);
    assert rs == prev + (if y.Some? then [y.value] else []);
    assert rs[a] == prev[a];
    if b < |prev| {
      FilterMapOrder(init, f, a, b);
      assert rs[b] == prev[b];
      var i, j :| 0 <= i < j < |init| && f(init[i]) == Some(prev[a]) && f(init[j]) == Some(prev[b]);
      assert xs[i] == init[i] && xs[j] == init[j];
    } else {
      FilterMapSound(init, f);
      var i :| 0 <= i < |init| && f(init[i]) == Some(prev[a]);
      assert xs[i] == init[i];
      assert f(xs[n]) == Some(rs[b]);
    }
  }

  /** `[f(x) for x in xs]`. */
  function MapAll<A, B>(xs: seq<A>, f: A -> B): (r: seq<B>)
    ensures |r| == |xs| && forall i :: 0 <= i < |xs| ==> r[i] == f(xs[i])
  {
    seq(|xs|, i requires 0 <= i < |xs| => f(xs[i]))
  }

  /** One more element mapped. */
  lemma MapAllSnoc<A, B>(xs: seq<A>, f: A -> B, i: nat)
    requires i < |xs|
    ensures MapAll(xs[..i + 1], f) == MapAll(xs[..i], f) + [f(xs[i])]
  {
  }

  /** `for x in xs: out.append(f(x))`. */
  method AppendMapped<A, B>(out: seq<B>, xs: seq<A>, f: A -> B) returns (r: seq<B>)
    ensures r == out + MapAll(xs, f)
  {
    r := out;
    for i := 0 to |xs|
      invariant r == out + MapAll(xs[..i], f)
    {
      MapAllSnoc(xs, f, i);
      r := r + [f(xs[i])];
    }
    assert xs[..|xs|] == xs;
  }

  /** The error of the first element that `check` rejects, or `None` when it rejects none. */
  function FirstError<A>(xs: seq<A>, check: A -> Option<string>): (e: Option<string>)
    ensures e.None? <==> forall i :: 0 <= i < |xs| ==> check(xs[i]).None?
    ensures e.Some? ==> exists i :: 0 <= i < |xs| && check(xs[i]) == e && forall j :: 0 <= j < i ==> check(xs[j]).None?
    decreases |xs|
  {
    if xs == [] then None
    else if check(xs[0]).Some? then check(xs[0])
    else
      var e := FirstError(xs[1..], check);
      assert forall i :: 1 <= i < |xs| ==> xs[i] == xs[1..][i - 1];
      if e.Some? then
        var i :| 0 <= i < |xs[1..]| && check(xs[1..][i]) == e && forall j :: 0 <= j < i ==> check(xs[1..][j]).None?;
        assert check(xs[i + 1]) == e;
        e
      else e
  }

  /** When every element before `i` passes and `xs[i]` does not, the first error is that of `xs[i]`. */
  lemma {:induction false} FirstErrorAt<A>(xs: seq<A>, check: A -> Option<string>, i: nat)
    requires i < |xs| && check(xs[i]).Some?
    requires forall j :: 0 <= j < i ==> check(xs[j]).None?
    ensures FirstError(xs, check) == check(xs[i])
    decreases i
  {
    if i > 0 {
      assert forall j :: 0 <= j < i - 1 ==> xs[1..][j] == xs[j + 1];
      FirstErrorAt(xs[1..], check, i - 1);
    }
  }

  /** `for x in xs: out.append(f(x))` where a check on each `x`, made before its element is built,
      raises and ends the loop with the first error. */
  method MapChecked<A, B>(xs: seq<A>, check: A -> Option<string>, f: A -> B) returns (r: Result<seq<B>>)
    ensures r.Ok? <==> FirstError(xs, check).None?
    ensures r.Ok? ==> r.value == MapAll(xs, f)
    ensures r.Err? ==> r.message == FirstError(xs, check).value
  {
    var out: seq<B> := [];
    for i := 0 to |xs|
      invariant out == MapAll(xs[..i], f)
      invariant forall j :: 0 <= j < i ==> check(xs[j]).None?
    {
      var e := check(xs[i]);
      if e.Some? {
        FirstErrorAt(xs, check, i);
        return Err(e.value);
      }
      MapAllSnoc(xs, f, i);
      out := out + [f(xs[i])];
    }
    assert xs[..|xs|] == xs;
    return Ok(out);
  }
}
