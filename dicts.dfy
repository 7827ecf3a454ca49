/** Python dictionaries whose iteration order matters: a finite map together with the
    insertion order of its keys. Assigning to an existing key keeps its position;
    assigning to a new key appends it. */
module Dicts {
  import opened Wrappers

  datatype Dict<K(==), V> = Dict(keys: seq<K>, items: map<K, V>) {

    /** The key order lists every key of the map exactly once. */
    predicate Valid() {
      (forall i, j :: 0 <= i < j < |keys| ==> keys[i] != keys[j])
      && (forall i :: 0 <= i < |keys| ==> keys[i] in items)
      && (forall k :: k in items ==> k in keys)
    }

    /** `d[k] = v`. */
    function Put(k: K, v: V): (d: Dict<K, V>)
      ensures d.items == items[k := v]
      ensures d.keys == if k in items then keys else keys + [k]
      ensures Valid() ==> d.Valid()
    {
      if k in items then Dict(keys, items[k := v]) else Dict(keys + [k], items[k := v])
    }
  }

  /** Two assignments in a row. */
  lemma PutPut<K, V>(d: Dict<K, V>, k1: K, v1: V, k2: K, v2: V)
    requires d.Valid()
    ensures d.Put(k1, v1).Put(k2, v2).Valid()
    ensures d.Put(k1, v1).Put(k2, v2).items == d.items[k1 := v1][k2 := v2]
    ensures d.Put(k1, v1).Put(k2, v2).items.Keys == d.items.Keys + {k1, k2}
  {
  }

  /** Assigning a key the value it already has changes nothing. */
  lemma PutUnchanged<K, V>(d: Dict<K, V>, k: K)
    requires k in d.items
    ensures d.Put(k, d.items[k]) == d
  {
    assert d.items[k := d.items[k]] == d.items;
  }

  /** Assigning the same key in two dictionaries with the same keys. */
  lemma PutSameKeys<K, V, W>(d: Dict<K, V>, e: Dict<K, W>, k: K, v: V, w: W)
    requires d.items.Keys == e.items.Keys
    ensures d.Put(k, v).items.Keys == e.Put(k, w).items.Keys
  {
  }

  lemma NoItems<K, V>(m: map<K, V>)
    requires forall k :: k !in m
    ensures m == map[]
  {
  }

  function Empty<K(==), V>(): (d: Dict<K, V>)
    ensures d.Valid() && d.keys == [] && d.items == map[]
  {
    Dict([], map[])
  }

  // ---------------------------------------------------------------------------
  // Grouping a list by a key, as `d.setdefault(key(x), []).append(val(x))` over `xs`
  // does; elements whose key is None are skipped.

  function GroupBy<T, K(==), V>(xs: seq<T>, key: T -> Option<K>, val: T -> V): (d: Dict<K, seq<V>>)
    ensures d.Valid()
    decreases |xs|
  {
    if xs == [] then Empty()
    else
      var d := GroupBy(xs[..|xs| - 1], key, val);
      var x := xs[|xs| - 1];
      match key(x)
      case None => d
      case Some(k) => d.Put(k, (if k in d.items then d.items[k] else []) + [val(x)])
  }

  /** Two elements with the same key form one group of their two values. */
  lemma GroupByTwo<T, K, V>(x: T, y: T, key: T -> Option<K>, val: T -> V, k: K)
    requires key(x) == Some(k) && key(y) == Some(k)
    ensures GroupBy([x, y], key, val) == Dict([k], map[k := [val(x), val(y)]])
  {
    assert [x, y][..1] == [x];
    GroupByOne(x, key, val, k);
    var d1 := GroupBy([x], key, val);
    assert GroupBy([x, y], key, val) == d1.Put(k, d1.items[k] + [val(y)]);
    assert [val(x)] + [val(y)] == [val(x), val(y)];
  }

  lemma GroupByOne<T, K, V>(x: T, key: T -> Option<K>, val: T -> V, k: K)
    requires key(x) == Some(k)
    ensures GroupBy([x], key, val) == Dict([k], map[k := [val(x)]])
  {
    assert [x][..0] == [];
    var d0: Dict<K, seq<V>> := Empty();
    assert GroupBy([x], key, val) == d0.Put(k, [] + [val(x)]);
    assert [] + [val(x)] == [val(x)];
  }

  /** The values of the elements whose key is `k`, in order. */
  function Pick<T, K(==), V>(xs: seq<T>, key: T -> Option<K>, val: T -> V, k: K): seq<V>
    decreases |xs|
  {
    if xs == [] then []
    else Pick(xs[..|xs| - 1], key, val, k) + (if key(xs[|xs| - 1]) == Some(k) then [val(xs[|xs| - 1])] else [])
  }

  /** A group is present exactly when some element has its key, and it holds the values
      of those elements in list order. */
  lemma {:induction false} GroupByPick<T, K, V>(xs: seq<T>, key: T -> Option<K>, val: T -> V, k: K)
    ensures k in GroupBy(xs, key, val).items <==> Pick(xs, key, val, k) != []
    ensures k in GroupBy(xs, key, val).items ==> GroupBy(xs, key, val).items[k] == Pick(xs, key, val, k)
    decreases |xs|
  {
    if xs != [] {
      GroupByPick(xs[..|xs| - 1], key, val, k);
    }
  }

  /** What a group holds comes from an element with that key. */
  lemma {:induction false} PickMember<T, K, V>(xs: seq<T>, key: T -> Option<K>, val: T -> V, k: K, v: V)
    ensures v in Pick(xs, key, val, k) <==> exists i :: 0 <= i < |xs| && key(xs[i]) == Some(k) && val(xs[i]) == v
    decreases |xs|
  {
    if xs != [] {
      var ys := xs[..|xs| - 1];
      PickMember(ys, key, val, k, v);
      if v in Pick(xs, key, val, k) && v !in Pick(ys, key, val, k) {
        assert key(xs[|xs| - 1]) == Some(k) && val(xs[|xs| - 1]) == v;
      }
      if exists i :: 0 <= i < |xs| && key(xs[i]) == Some(k) && val(xs[i]) == v {
        var i :| 0 <= i < |xs| && key(xs[i]) == Some(k) && val(xs[i]) == v;
        if i < |ys| {
          assert ys[i] == xs[i];
        }
      }
    }
  }

  /** A group is non-empty exactly when some element has its key. */
  lemma {:induction false} PickNonEmpty<T, K, V>(xs: seq<T>, key: T -> Option<K>, val: T -> V, k: K)
    ensures Pick(xs, key, val, k) != [] <==> exists i :: 0 <= i < |xs| && key(xs[i]) == Some(k)
    decreases |xs|
  {
    if xs != [] {
      var ys := xs[..|xs| - 1];
      PickNonEmpty(ys, key, val, k);
      if exists i :: 0 <= i < |xs| && key(xs[i]) == Some(k) {
        var i :| 0 <= i < |xs| && key(xs[i]) == Some(k);
        if i < |ys| {
          assert ys[i] == xs[i];
        }
      }
      if exists i :: 0 <= i < |ys| && key(ys[i]) == Some(k) {
        var i :| 0 <= i < |ys| && key(ys[i]) == Some(k);
        assert xs[i] == ys[i];
      }
    }
  }

  /** A group holds two values or more exactly when two elements have its key. */
  lemma {:induction false} PickTwo<T, K, V>(xs: seq<T>, key: T -> Option<K>, val: T -> V, k: K)
    ensures |Pick(xs, key, val, k)| > 1 <==>
            exists i, j :: 0 <= i < j < |xs| && key(xs[i]) == Some(k) && key(xs[j]) == Some(k)
    decreases |xs|
  {
    if xs != [] {
      var ys := xs[..|xs| - 1];
      var last := |xs| - 1;
      PickTwo(ys, key, val, k);
      PickNonEmpty(ys, key, val, k);
      if exists i, j :: 0 <= i < j < |xs| && key(xs[i]) == Some(k) && key(xs[j]) == Some(k) {
        var i, j :| 0 <= i < j < |xs| && key(xs[i]) == Some(k) && key(xs[j]) == Some(k);
        assert ys[i] == xs[i];
        if j < last {
          assert ys[j] == xs[j];
        }
      }
      if exists i, j :: 0 <= i < j < |ys| && key(ys[i]) == Some(k) && key(ys[j]) == Some(k) {
        var i, j :| 0 <= i < j < |ys| && key(ys[i]) == Some(k) && key(ys[j]) == Some(k);
        assert xs[i] == ys[i] && xs[j] == ys[j];
      }
      if key(xs[last]) == Some(k) && exists i :: 0 <= i < |ys| && key(ys[i]) == Some(k) {
        var i :| 0 <= i < |ys| && key(ys[i]) == Some(k);
        assert xs[i] == ys[i];
      }
    }
  }

  lemma {:induction false} PickConcat<T, K, V>(xs: seq<T>, ys: seq<T>, key: T -> Option<K>, val: T -> V, k: K)
    ensures Pick(xs + ys, key, val, k) == Pick(xs, key, val, k) + Pick(ys, key, val, k)
    decreases |ys|
  {
    if ys == [] {
      assert xs + ys == xs;
    } else {
      var zs := ys[..|ys| - 1];
      assert (xs + ys)[..|xs + ys| - 1] == xs + zs;
      PickConcat(xs, zs, key, val, k);
    }
  }

  /** The keys of `ks`, in order, whose list in `items` has at least two elements. */
  function SharedKeys<K(==,!new), V>(ks: seq<K>, items: map<K, seq<V>>): (r: seq<K>)
    ensures forall k :: k in r <==> k in ks && k in items && |items[k]| > 1
    decreases |ks|
  {
    if ks == [] then []
    else
      var k := ks[|ks| - 1];
      SharedKeys(ks[..|ks| - 1], items) + (if k in items && |items[k]| > 1 then [k] else [])
  }

  lemma {:induction false} SharedKeysDistinct<K(!new), V>(ks: seq<K>, items: map<K, seq<V>>)
    requires forall i, j :: 0 <= i < j < |ks| ==> ks[i] != ks[j]
    ensures forall i, j :: 0 <= i < j < |SharedKeys(ks, items)| ==> SharedKeys(ks, items)[i] != SharedKeys(ks, items)[j]
    decreases |ks|
  {
    if ks != [] {
      var ys := ks[..|ks| - 1];
      SharedKeysDistinct(ys, items);
      var k := ks[|ks| - 1];
      assert k !in ys;
      assert k !in SharedKeys(ys, items);
    }
  }

  /** `{k: v for k, v in d.items() if len(v) > 1}`. */
  function KeepShared<K(==,!new), V>(d: Dict<K, seq<V>>): (r: Dict<K, seq<V>>)
    requires d.Valid()
    ensures r.Valid()
    ensures forall k :: k in r.items <==> k in d.items && |d.items[k]| > 1
    ensures forall k :: k in r.items ==> r.items[k] == d.items[k]
  {
    var ks := SharedKeys(d.keys, d.items);
    SharedKeysDistinct(d.keys, d.items);
    Dict(ks, map k | k in d.items && |d.items[k]| > 1 :: d.items[k])
  }

  // ---------------------------------------------------------------------------
  // Assigning several entries in turn.

  /** `for k, v in es: d[k] = v`: a key is present afterwards iff it was before or some
      entry assigns it, and the last entry for a key gives its value. */
  function PutAll<K(==,!new), V>(d: Dict<K, V>, es: seq<(K, V)>): (r: Dict<K, V>)
    ensures d.Valid() ==> r.Valid()
    ensures forall k :: k in r.items <==> k in d.items || exists i :: 0 <= i < |es| && es[i].0 == k
    ensures |es| > 0 ==> r.items[es[|es| - 1].0] == es[|es| - 1].1
    decreases |es|
  {
    if es == [] then d
    else
      var prev := PutAll(d, es[..|es| - 1]);
      assert forall i :: 0 <= i < |es| - 1 ==> es[..|es| - 1][i] == es[i];
      prev.Put(es[|es| - 1].0, es[|es| - 1].1)
  }

  /** `d.items()`, in key order. */
  function Pairs<K(==), V>(d: Dict<K, V>): (r: seq<(K, V)>)
    requires d.Valid()
    ensures |r| == |d.keys|
    ensures forall i :: 0 <= i < |r| ==> r[i] == (d.keys[i], d.items[d.keys[i]])
  {
    seq(|d.keys|, i requires 0 <= i < |d.keys| => (d.keys[i], d.items[d.keys[i]]))
  }

  /** `d.update(e)`: the keys of both; the values of `e` win. */
  function Update<K(==,!new), V>(d: Dict<K, V>, e: Dict<K, V>): (m: Dict<K, V>)
    requires e.Valid()
    ensures d.Valid() ==> m.Valid()
    ensures m.items.Keys == d.items.Keys + e.items.Keys
    ensures forall k :: k in e.items ==> m.items[k] == e.items[k]
    ensures forall k :: k in d.items && k !in e.items ==> m.items[k] == d.items[k]
  {
    var es := Pairs(e);
    var m := PutAll(d, es);
    forall k | k in e.items
      ensures m.items[k] == e.items[k]
    {
      PutAllPairs(d, e, k);
    }
    forall k | k in d.items && k !in e.items
      ensures m.items[k] == d.items[k]
    {
      PutAllUntouched(d, es, k);
    }
    m
  }

  /** Copying a dictionary into another: each of its keys ends up with its value. */
  lemma PutAllPairs<K(!new), V>(d: Dict<K, V>, e: Dict<K, V>, k: K)
    requires e.Valid() && k in e.items
    ensures k in PutAll(d, Pairs(e)).items && PutAll(d, Pairs(e)).items[k] == e.items[k]
  {
    var i :| 0 <= i < |e.keys| && e.keys[i] == k;
    PutAllAfter(d, Pairs(e), i);
  }

  /** An entry whose key no later entry assigns keeps its value. */
  lemma {:induction false} PutAllAfter<K(!new), V>(d: Dict<K, V>, es: seq<(K, V)>, i: nat)
    requires i < |es| && forall j :: i < j < |es| ==> es[j].0 != es[i].0
    ensures PutAll(d, es).items[es[i].0] == es[i].1
    decreases |es|
  {
    if i < |es| - 1 {
      var init := es[..|es| - 1];
      assert init[i] == es[i];
      assert forall j :: i < j < |init| ==> init[j] == es[j];
      PutAllAfter(d, init, i);
    }
  }

  /** A key no entry assigns keeps its value. */
  lemma {:induction false} PutAllUntouched<K(!new), V>(d: Dict<K, V>, es: seq<(K, V)>, k: K)
    requires k in d.items && forall j :: 0 <= j < |es| ==> es[j].0 != k
    ensures PutAll(d, es).items[k] == d.items[k]
    decreases |es|
  {
    if es != [] {
      var init := es[..|es| - 1];
      assert forall j :: 0 <= j < |init| ==> init[j] == es[j];
      PutAllUntouched(d, init, k);
    }
  }

  lemma PutAllSnoc<K(!new), V>(d: Dict<K, V>, es: seq<(K, V)>, k: nat)
    requires k < |es|
    ensures PutAll(d, es[..k + 1]) == PutAll(d, es[..k]).Put(es[k].0, es[k].1)
  {
    assert es[..k + 1][..k] == es[..k];
  }

  /** The entries `f(ks[0]) + ... + f(ks[n - 1])`: what a loop over the first `n` keys
      writes when key `ks[i]` contributes the entries `f(ks[i])`. */
  function FlatMap<K, E>(ks: seq<K>, f: K -> seq<E>, n: nat): seq<E>
    requires n <= |ks|
  {
    if n == 0 then [] else FlatMap(ks, f, n - 1) + f(ks[n - 1])
  }

  lemma {:induction false} FlatMapMember<K, E>(ks: seq<K>, f: K -> seq<E>, n: nat, e: E)
    requires n <= |ks|
    ensures e in FlatMap(ks, f, n) <==> exists i :: 0 <= i < n && e in f(ks[i])
  {
    if n > 0 {
      FlatMapMember(ks, f, n - 1, e);
      if exists i :: 0 <= i < n && e in f(ks[i]) {
        var i :| 0 <= i < n && e in f(ks[i]);
        if i < n - 1 {
          assert e in FlatMap(ks, f, n - 1);
        }
      }
    }
  }

  /** Assigning the entries of one more key after those of `pre` and the first `n`. */
  lemma PutAllFlatMapStep<K(!new), V, Q>(d: Dict<K, V>, pre: seq<(K, V)>, ks: seq<Q>, f: Q -> seq<(K, V)>, n: nat)
    requires n < |ks| && |f(ks[n])| <= 1
    ensures PutAll(d, pre + FlatMap(ks, f, n + 1))
            == if f(ks[n]) == [] then PutAll(d, pre + FlatMap(ks, f, n))
               else PutAll(d, pre + FlatMap(ks, f, n)).Put(f(ks[n])[0].0, f(ks[n])[0].1)
  {
    var es := pre + FlatMap(ks, f, n);
    if f(ks[n]) == [] {
      assert pre + FlatMap(ks, f, n + 1) == es;
    } else {
      assert f(ks[n]) == [f(ks[n])[0]];
      assert pre + FlatMap(ks, f, n + 1) == es + [f(ks[n])[0]];
      PutAllAppend(d, es, f(ks[n])[0]);
    }
  }

  /** Assigning one more entry. */
  lemma PutAllAppend<K(!new), V>(d: Dict<K, V>, es: seq<(K, V)>, e: (K, V))
    ensures PutAll(d, es + [e]) == PutAll(d, es).Put(e.0, e.1)
  {
    assert (es + [e])[..|es|] == es;
  }

  /** The value of a key afterwards is its old value or that of some entry for it. */
  lemma {:induction false} PutAllValue<K(!new), V>(d: Dict<K, V>, es: seq<(K, V)>, k: K)
    requires k in PutAll(d, es).items
    ensures (k in d.items && PutAll(d, es).items[k] == d.items[k])
            || exists i :: 0 <= i < |es| && es[i] == (k, PutAll(d, es).items[k])
    decreases |es|
  {
    if es != [] && es[|es| - 1].0 != k {
      var init := es[..|es| - 1];
      PutAllValue(d, init, k);
      if exists i :: 0 <= i < |init| && init[i] == (k, PutAll(d, init).items[k]) {
        var i :| 0 <= i < |init| && init[i] == (k, PutAll(d, init).items[k]);
        assert es[i] == init[i];
      }
    }
  }

  /** Assigning one entry. */
  lemma PutAllOne<K(!new), V>(d: Dict<K, V>, a: (K, V))
    ensures PutAll(d, [a]) == d.Put(a.0, a.1)
  {
    assert [a][..0] == [];
  }

  /** Assigning two entries. */
  lemma PutAllTwo<K(!new), V>(d: Dict<K, V>, a: (K, V), b: (K, V))
    ensures PutAll(d, [a, b]) == d.Put(a.0, a.1).Put(b.0, b.1)
  {
    assert [a, b][..1] == [a];
    PutAllOne(d, a);
  }
}
