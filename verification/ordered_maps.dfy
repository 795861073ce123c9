/**
 * Python dictionaries (and `OrderedDict`), which remember the order in which keys were first
 * inserted: assigning to a key already present changes its value and keeps its place.
 */
module OrderedMaps {
  import opened Wrappers

  datatype OrderedMap<K(==), V> = OrderedMap(keys: seq<K>, values: map<K, V>)

  /** Every key appears once in `keys`, and `keys` and `values` hold the same keys. */
  predicate Valid<K(==), V>(m: OrderedMap<K, V>) {
    && (forall i, j :: 0 <= i < j < |m.keys| ==> m.keys[i] != m.keys[j])
    && m.values.Keys == set i | 0 <= i < |m.keys| :: m.keys[i]
  }

  function Empty<K(==), V>(): (m: OrderedMap<K, V>)
    ensures Valid(m) && m.keys == [] && m.values == map[]
  {
    OrderedMap([], map[])
  }

  /** `d[k] = v`. */
  function Put<K(==), V>(m: OrderedMap<K, V>, k: K, v: V): (r: OrderedMap<K, V>)
    requires Valid(m)
    ensures Valid(r)
    ensures r.values == m.values[k := v]
    ensures k in m.values ==> r.keys == m.keys
    ensures k !in m.values ==> r.keys == m.keys + [k]
  {
    if k in m.values then OrderedMap(m.keys, m.values[k := v])
    else
      var ks := m.keys + [k];
      assert (set i | 0 <= i < |ks| :: ks[i]) == (set i | 0 <= i < |m.keys| :: m.keys[i]) + {k} by {
        assert ks[|m.keys|] == k;
        forall i | 0 <= i < |m.keys| ensures ks[i] == m.keys[i] {}
      }
      OrderedMap(ks, m.values[k := v])
  }

  /** `list(d.items())`: the pairs in key order. */
  function Items<K(==), V>(m: OrderedMap<K, V>): (r: seq<(K, V)>)
    requires Valid(m)
    ensures |r| == |m.keys|
    ensures forall i :: 0 <= i < |r| ==> r[i].0 == m.keys[i] && r[i].1 == m.values[m.keys[i]]
  {
    seq(|m.keys|, i requires 0 <= i < |m.keys| && Valid(m) => (m.keys[i], m.values[m.keys[i]]))
  }

  /** The `i`-th item. */
  lemma ItemAt<K, V>(m: OrderedMap<K, V>, i: nat)
    requires Valid(m) && i < |m.keys|
    ensures Items(m)[i] == (m.keys[i], m.values[m.keys[i]])
  {
  }

  /** Assigning each pair in turn, `for k, v in ps: d[k] = v`. */
  function PutAll<K(==), V>(m: OrderedMap<K, V>, ps: seq<(K, V)>): (r: OrderedMap<K, V>)
    requires Valid(m)
    ensures Valid(r)
    decreases |ps|
  {
    if ps == [] then m
    else Put(PutAll(m, ps[..|ps| - 1]), ps[|ps| - 1].0, ps[|ps| - 1].1)
  }

  /** After `PutAll` the keys are the old ones and those of the pairs. */
  lemma {:induction false} PutAllKeys<K, V>(m: OrderedMap<K, V>, ps: seq<(K, V)>)
    requires Valid(m)
    ensures PutAll(m, ps).values.Keys == m.values.Keys + (set i | 0 <= i < |ps| :: ps[i].0)
    decreases |ps|
  {
    if ps != [] {
      var init := ps[..|ps| - 1];
      PutAllKeys(m, init);
      assert (set i | 0 <= i < |ps| :: ps[i].0) == (set i | 0 <= i < |init| :: init[i].0) + {ps[|ps| - 1].0} by {
        forall i | 0 <= i < |init| ensures init[i] == ps[i] {}
      }
    }
  }

  /** After `PutAll` a key holds the value of its last pair. */
  lemma {:induction false} PutAllLastWins<K, V>(m: OrderedMap<K, V>, ps: seq<(K, V)>, i: nat)
    requires Valid(m)
    requires i < |ps| && forall j :: i < j < |ps| ==> ps[j].0 != ps[i].0
    ensures ps[i].0 in PutAll(m, ps).values && PutAll(m, ps).values[ps[i].0] == ps[i].1
    decreases |ps|
  {
    var init := ps[..|ps| - 1];
    if i < |init| {
      assert ps[i] == init[i];
      forall j | i < j < |init| ensures init[j].0 != init[i].0 {
        assert init[j] == ps[j];
      }
      PutAllLastWins(m, init, i);
    }
  }

  /** A key no pair mentions keeps its old value. */
  lemma {:induction false} PutAllKeeps<K, V>(m: OrderedMap<K, V>, ps: seq<(K, V)>, k: K)
    requires Valid(m) && k in m.values
    requires forall i :: 0 <= i < |ps| ==> ps[i].0 != k
    ensures k in PutAll(m, ps).values && PutAll(m, ps).values[k] == m.values[k]
    decreases |ps|
  {
    if ps != [] {
      var init := ps[..|ps| - 1];
      forall i | 0 <= i < |init| ensures init[i].0 != k {
        assert init[i] == ps[i];
      }
      PutAllKeeps(m, init, k);
    }
  }

  /** The first `n` entries of `m` as a map of their own. */
  function Prefix<K(==), V>(m: OrderedMap<K, V>, n: nat): (r: OrderedMap<K, V>)
    requires Valid(m) && n <= |m.keys|
  {
    OrderedMap(m.keys[..n], map k | k in m.keys[..n] :: m.values[k])
  }

  /** Assigning the items of `m` in order to an empty map rebuilds `m`, order included. */
  lemma {:induction false} PutAllItems<K, V>(m: OrderedMap<K, V>)
    requires Valid(m)
    ensures PutAll(Empty(), Items(m)) == m
  {
    var ps := Items(m);
    var n := 0;
    assert PutAll(Empty(), ps[..0]) == Prefix(m, 0) by {
      assert ps[..0] == [];
    }
    while n < |ps|
      invariant 0 <= n <= |ps|
      invariant PutAll(Empty(), ps[..n]) == Prefix(m, n)
    {
      PutItemsStep(m, n);
      n := n + 1;
    }
    assert ps[..n] == ps;
    PrefixAll(m);
  }

  /** All entries of `m` are `m`. */
  lemma PrefixAll<K, V>(m: OrderedMap<K, V>)
    requires Valid(m)
    ensures Prefix(m, |m.keys|) == m
  {
    var p := Prefix(m, |m.keys|);
    assert m.keys[..|m.keys|] == m.keys;
    forall k ensures k in p.values <==> k in m.values {
      if k in m.values {
        var i :| 0 <= i < |m.keys| && m.keys[i] == k;
      }
    }
    assert p.values == m.values;
  }

  lemma PutItemsStep<K, V>(m: OrderedMap<K, V>, n: nat)
    requires Valid(m) && n < |m.keys|
    requires PutAll(Empty(), Items(m)[..n]) == Prefix(m, n)
    ensures PutAll(Empty(), Items(m)[..n + 1]) == Prefix(m, n + 1)
  {
    var ps := Items(m)[..n + 1];
    assert ps[..n] == Items(m)[..n];
    var k := m.keys[n];
    assert k !in m.keys[..n];
    assert m.keys[..n + 1] == m.keys[..n] + [k];
    var prev := Prefix(m, n);
    assert k !in prev.values;
    assert PutAll(Empty(), ps) == Put(prev, k, m.values[k]);
  }

  /** Whether `e` is an entry for the key `k`. */
  predicate HasKey<K(==), V>(e: Option<(K, V)>, k: K) {
    e.Some? && e.value.0 == k
  }

  /** The loop that walks `xs`, turns each element into an entry (or skips it) and records an
      entry only when its key is not yet present: the first entry of each key wins. */
  function KeepFirst<A, K(==), V>(xs: seq<A>, f: A -> Option<(K, V)>): (r: OrderedMap<K, V>)
    ensures Valid(r)
    decreases |xs|
  {
    if xs == [] then Empty()
    else
      var m := KeepFirst(xs[..|xs| - 1], f);
      var e := f(xs[|xs| - 1]);
      if e.None? || e.value.0 in m.values then m else Put(m, e.value.0, e.value.1)
  }

  /** A key is recorded exactly when some element yields an entry for it, and it holds the value of
      the first such element. */
  lemma {:induction false} KeepFirstSpec<A, K, V>(xs: seq<A>, f: A -> Option<(K, V)>)
    ensures forall k :: k in KeepFirst(xs, f).values <==> exists i :: 0 <= i < |xs| && HasKey(f(xs[i]), k)
    ensures forall k :: k in KeepFirst(xs, f).values ==>
      exists i :: 0 <= i < |xs| && f(xs[i]) == Some((k, KeepFirst(xs, f).values[k]))
        && forall j :: 0 <= j < i ==> !HasKey(f(xs[j]), k)
    decreases |xs|
  {
    if xs != [] {
      var init := xs[..|xs| - 1];
      KeepFirstSpec(init, f);
      var m := KeepFirst(init, f);
      var r := KeepFirst(xs, f);
      var e := f(xs[|xs| - 1]);
      forall k ensures k in r.values <==> exists i :: 0 <= i < |xs| && HasKey(f(xs[i]), k) {
        if k in m.values {
          var i :| 0 <= i < |init| && HasKey(f(init[i]), k);
          assert xs[i] == init[i];
        }
        if i :| 0 <= i < |xs| && HasKey(f(xs[i]), k) {
          if i < |init| {
            assert xs[i] == init[i];
          }
        }
      }
      forall k | k in r.values
        ensures exists i :: (0 <= i < |xs| && f(xs[i]) == Some((k, r.values[k]))
          && forall j :: 0 <= j < i ==> !HasKey(f(xs[j]), k))
      {
        if k in m.values {
          var i :| 0 <= i < |init| && f(init[i]) == Some((k, m.values[k]))
            && forall j :: 0 <= j < i ==> !HasKey(f(init[j]), k);
          assert xs[i] == init[i];
          forall j | 0 <= j < i ensures !HasKey(f(xs[j]), k) {
            assert xs[j] == init[j];
          }
        } else {
          var i := |xs| - 1;
          forall j | 0 <= j < i ensures !HasKey(f(xs[j]), k) {
            assert xs[j] == init[j];
            assert !HasKey(f(init[j]), k);
          }
        }
      }
    }
  }

  /** An element that yields an entry for `k` makes `k` recorded. */
  lemma {:induction false} KeepFirstHas<A, K, V>(xs: seq<A>, f: A -> Option<(K, V)>, i: nat, k: K)
    requires i < |xs| && HasKey(f(xs[i]), k)
    ensures k in KeepFirst(xs, f).values
    decreases |xs|
  {
    var init := xs[..|xs| - 1];
    if i < |init| {
      assert xs[i] == init[i];
      KeepFirstHas(init, f, i, k);
    }
  }

  /** The keys come in the order of their first entries: every entry for a later key is preceded by
      an entry for each earlier key. */
  lemma {:induction false} KeepFirstOrder<A, K, V>(xs: seq<A>, f: A -> Option<(K, V)>, a: nat, b: nat, j: nat)
    requires a < b < |KeepFirst(xs, f).keys| && j < |xs|
    requires HasKey(f(xs[j]), KeepFirst(xs, f).keys[b])
    ensures exists i :: 0 <= i < j && HasKey(f(xs[i]), KeepFirst(xs, f).keys[a])
    decreases |xs|
  {
    var init := xs[..|xs| - 1];
    KeepFirstSpec(init, f);
    var m := KeepFirst(init, f);
    var r := KeepFirst(xs, f);
    assert r.keys[a] == m.keys[a];
    assert m.keys[a] in m.values;
    var i0 :| 0 <= i0 < |init| && HasKey(f(init[i0]), m.keys[a]);
    assert xs[i0] == init[i0];
    if j < |init| {
      assert xs[j] == init[j];
      assert HasKey(f(init[j]), r.keys[b]);
      KeepFirstHas(init, f, j, r.keys[b]);
      assert b < |m.keys|;
      assert r.keys[b] == m.keys[b];
      KeepFirstOrder(init, f, a, b, j);
      var i :| 0 <= i < j && HasKey(f(init[i]), m.keys[a]);
      assert xs[i] == init[i];
    }
  }
}
