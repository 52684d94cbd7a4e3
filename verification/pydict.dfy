/**
 * Python dictionaries whose iteration order matters: an association list that keeps the
 * insertion order of its keys. Storing under a key that is already present replaces the value
 * in place (the key keeps its position); a new key goes to the end.
 */
module PyDict {
  import opened Common

  type Dict<K, V> = seq<(K, V)>

  /** The keys in iteration order. */
  function Keys<K, V>(d: Dict<K, V>): (ks: seq<K>)
    ensures |ks| == |d|
  {
    if d == [] then [] else [d[0].0] + Keys(d[1..])
  }

  lemma {:induction false} KeysAt<K, V>(d: Dict<K, V>, i: nat)
    requires i < |d|
    ensures Keys(d)[i] == d[i].0
  {
    if i > 0 {
      KeysAt(d[1..], i - 1);
    }
  }

  /** `d.get(k)`: the value of the first entry with key `k` (see GetNone, GetAt). */
  function Get<K(==), V>(d: Dict<K, V>, k: K): Option<V> {
    if d == [] then None
    else if d[0].0 == k then Some(d[0].1)
    else Get(d[1..], k)
  }

  /** `Get` finds nothing exactly for the keys the dict does not have. */
  lemma {:induction false} GetNone<K, V>(d: Dict<K, V>, k: K)
    ensures Get(d, k).None? <==> k !in Keys(d)
  {
    if d != [] {
      assert Keys(d) == [d[0].0] + Keys(d[1..]);
      GetNone(d[1..], k);
    }
  }

  /** No key occurs twice, as in every Python dict. */
  ghost predicate UniqueKeys<K, V>(d: Dict<K, V>) {
    forall i, j :: 0 <= i < j < |d| ==> d[i].0 != d[j].0
  }

  /** `d[k] = v` */
  function Put<K(==), V>(d: Dict<K, V>, k: K, v: V): (r: Dict<K, V>)
    ensures Get(r, k) == Some(v)
    ensures Keys(r) == if k in Keys(d) then Keys(d) else Keys(d) + [k]
  {
    if d == [] then [(k, v)]
    else
      assert Keys(d) == [d[0].0] + Keys(d[1..]);
      if d[0].0 == k then
        assert Keys([(k, v)] + d[1..]) == Keys(d);
        [(k, v)] + d[1..]
      else
        var rest := Put(d[1..], k, v);
        assert Keys([d[0]] + rest) == [d[0].0] + Keys(rest);
        assert k in Keys(d) <==> k in Keys(d[1..]);
        [d[0]] + rest
  }

  /** Storing under one key leaves every other key's value as it was. */
  lemma {:induction false} PutOther<K, V>(d: Dict<K, V>, k: K, v: V, other: K)
    requires other != k
    ensures Get(Put(d, k, v), other) == Get(d, other)
  {
    if d != [] && d[0].0 != k {
      PutOther(d[1..], k, v, other);
    }
  }

  /** A dict built by Put never holds a key twice. */
  lemma {:induction false} PutUnique<K, V>(d: Dict<K, V>, k: K, v: V)
    requires UniqueKeys(d)
    ensures UniqueKeys(Put(d, k, v))
  {
    var r := Put(d, k, v);
    forall i, j | 0 <= i < j < |r| ensures r[i].0 != r[j].0 {
      KeysAt(r, i);
      KeysAt(r, j);
      if i < |d| {
        KeysAt(d, i);
      }
      if j < |d| {
        KeysAt(d, j);
      }
    }
  }

  /** The value stored at position `i` is what `Get` finds when no earlier entry has its key. */
  lemma {:induction false} GetAt<K, V>(d: Dict<K, V>, i: nat)
    requires i < |d|
    requires forall j :: 0 <= j < i ==> d[j].0 != d[i].0
    ensures Get(d, d[i].0) == Some(d[i].1)
  {
    if i > 0 {
      GetAt(d[1..], i - 1);
    }
  }

  /** Entries appended after a key do not change what `Get` finds for it. */
  lemma {:induction false} GetAppend<K, V>(a: Dict<K, V>, b: Dict<K, V>, k: K)
    requires k in Keys(a)
    ensures Get(a + b, k) == Get(a, k)
  {
    assert Keys(a) == [a[0].0] + Keys(a[1..]);
    if a[0].0 != k {
      assert (a + b)[1..] == a[1..] + b;
      GetAppend(a[1..], b, k);
    }
  }

  /** In a dict without repeated keys, every entry is what `Get` finds for its key. */
  lemma GetUnique<K, V>(d: Dict<K, V>, i: nat)
    requires UniqueKeys(d) && i < |d|
    ensures Get(d, d[i].0) == Some(d[i].1)
  {
    GetAt(d, i);
  }

  /** `{k: v for k, v in pairs}`: each pair stored in turn, so a later pair overrides an earlier one. */
  function FromPairs<K(==), V>(pairs: seq<(K, V)>): Dict<K, V> {
    if pairs == [] then []
    else Put(FromPairs(pairs[..|pairs| - 1]), pairs[|pairs| - 1].0, pairs[|pairs| - 1].1)
  }

  /** The value of the last pair with key `k`, if any. */
  function LastValue<K(==), V>(pairs: seq<(K, V)>, k: K): Option<V> {
    if pairs == [] then None
    else if pairs[|pairs| - 1].0 == k then Some(pairs[|pairs| - 1].1)
    else LastValue(pairs[..|pairs| - 1], k)
  }

  lemma FromPairsSnoc<K, V>(pairs: seq<(K, V)>, p: (K, V))
    ensures FromPairs(pairs + [p]) == Put(FromPairs(pairs), p.0, p.1)
    ensures LastValue(pairs + [p], p.0) == Some(p.1)
    ensures forall k :: k != p.0 ==> LastValue(pairs + [p], k) == LastValue(pairs, k)
  {
    assert (pairs + [p])[..|pairs|] == pairs;
  }

  /** A comprehension-built dict finds, for each key, the value of the last pair with that key. */
  lemma {:induction false} FromPairsGet<K, V>(pairs: seq<(K, V)>, k: K)
    ensures Get(FromPairs(pairs), k) == LastValue(pairs, k)
  {
    if pairs != [] {
      var n := |pairs| - 1;
      FromPairsGet(pairs[..n], k);
      if pairs[n].0 != k {
        PutOther(FromPairs(pairs[..n]), pairs[n].0, pairs[n].1, k);
      }
    }
  }

  /** Some pair of `init + [last]` has key `k` exactly when one of `init` does, or `last` does. */
  lemma PairKeySnoc<K, V>(pairs: seq<(K, V)>, init: seq<(K, V)>, last: (K, V), k: K)
    requires pairs == init + [last]
    ensures (exists i :: 0 <= i < |pairs| && pairs[i].0 == k) <==>
      (exists i :: 0 <= i < |init| && init[i].0 == k) || last.0 == k
  {
    if exists i :: 0 <= i < |pairs| && pairs[i].0 == k {
      var i :| 0 <= i < |pairs| && pairs[i].0 == k;
      if i < |init| {
        assert init[i] == pairs[i];
      }
    }
    if exists i :: 0 <= i < |init| && init[i].0 == k {
      var i :| 0 <= i < |init| && init[i].0 == k;
      assert pairs[i] == init[i];
    }
    assert pairs[|init|] == last;
  }

  /** The keys of a comprehension-built dict are the keys of its pairs, each once. */
  lemma {:induction false} FromPairsKeys<K, V>(pairs: seq<(K, V)>)
    ensures UniqueKeys(FromPairs(pairs))
    ensures forall k :: k in Keys(FromPairs(pairs)) <==> exists i :: 0 <= i < |pairs| && pairs[i].0 == k
  {
    if pairs != [] {
      var n := |pairs| - 1;
      var init := FromPairs(pairs[..n]);
      FromPairsKeys(pairs[..n]);
      assert pairs == pairs[..n] + [pairs[n]];
      PutUnique(init, pairs[n].0, pairs[n].1);
      assert FromPairs(pairs) == Put(init, pairs[n].0, pairs[n].1);
      forall k
        ensures k in Keys(FromPairs(pairs)) <==> exists i :: 0 <= i < |pairs| && pairs[i].0 == k
      {
        assert k in Keys(FromPairs(pairs)) <==> k in Keys(init) || k == pairs[n].0;
        PairKeySnoc(pairs, pairs[..n], pairs[n], k);
      }
    }
  }

  /** The last pair with key `k` gives its value: no later pair has that key. */
  lemma {:induction false} LastValueAt<K, V>(pairs: seq<(K, V)>, i: nat)
    requires i < |pairs|
    requires forall j :: i < j < |pairs| ==> pairs[j].0 != pairs[i].0
    ensures LastValue(pairs, pairs[i].0) == Some(pairs[i].1)
  {
    var n := |pairs| - 1;
    if i < n {
      LastValueAt(pairs[..n], i);
    }
  }

  /** `d.values()` in iteration order. */
  function Values<K, V>(d: Dict<K, V>): (vs: seq<V>)
    ensures |vs| == |d|
    ensures forall i :: 0 <= i < |d| ==> vs[i] == d[i].1
  {
    if d == [] then [] else [d[0].1] + Values(d[1..])
  }

  /** Every entry of a dict after `d[k] = v` was an entry before, or is the new one. */
  lemma {:induction false} PutEntries<K, V>(d: Dict<K, V>, k: K, v: V)
    ensures forall e :: e in Put(d, k, v) ==> e in d || e == (k, v)
  {
    if d != [] && d[0].0 != k {
      PutEntries(d[1..], k, v);
      assert forall e :: e in d[1..] ==> e in d;
    }
  }

  /** Every entry of a comprehension-built dict is one of its pairs. */
  lemma {:induction false} FromPairsEntries<K, V>(pairs: seq<(K, V)>)
    ensures forall e :: e in FromPairs(pairs) ==> e in pairs
  {
    if pairs != [] {
      var n := |pairs| - 1;
      FromPairsEntries(pairs[..n]);
      PutEntries(FromPairs(pairs[..n]), pairs[n].0, pairs[n].1);
      assert forall e :: e in pairs[..n] ==> e in pairs;
    }
  }

  /** An entry appended at the end is found only for a key the dict did not have. */
  lemma {:induction false} GetSnoc<K, V>(d: Dict<K, V>, e: (K, V), k: K)
    ensures Get(d + [e], k) == if k in Keys(d) then Get(d, k) else if e.0 == k then Some(e.1) else None
  {
    if d == [] {
      assert d + [e] == [e];
    } else {
      assert Keys(d) == [d[0].0] + Keys(d[1..]);
      assert (d + [e])[1..] == d[1..] + [e];
      GetSnoc(d[1..], e, k);
    }
  }

  /** Building a dict from `[f(x) for x in xs]` one element at a time. */
  lemma FromPairsMapSnoc<T, K, V>(f: T -> (K, V), xs: seq<T>, x: T)
    ensures FromPairs(Map(f, xs + [x])) == Put(FromPairs(Map(f, xs)), f(x).0, f(x).1)
  {
    MapAppend(f, xs, [x]);
    FromPairsSnoc(Map(f, xs), f(x));
  }

  /** The loop step of a dict built from mapped pairs: one more element of `xs` is put. */
  lemma FromPairsMapStep<T, K, V>(f: T -> (K, V), xs: seq<T>, i: nat)
    requires i < |xs|
    ensures FromPairs(Map(f, xs[..i + 1])) == Put(FromPairs(Map(f, xs[..i])), f(xs[i]).0, f(xs[i]).1)
  {
    assert xs[..i + 1] == xs[..i] + [xs[i]];
    FromPairsMapSnoc(f, xs[..i], xs[i]);
  }
}
