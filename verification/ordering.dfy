/**
 * Python's string comparison and its stable `sorted`.
 *
 * Python compares `str` values lexicographically by code point; Dafny's `<` on sequences means
 * "proper prefix", so the order is defined here. `sorted` is stable; for a total order on keys
 * the stable sorted rearrangement of a list is unique (SortByUnique), so the insertion sort
 * below computes exactly what `sorted(xs, key=...)` returns.
 */
module Ordering {
  import opened Common

  /** `a < b` on Python strings. */
  predicate Less(a: string, b: string) {
    if a == [] then b != []
    else if b == [] then false
    else if a[0] != b[0] then a[0] < b[0]
    else Less(a[1..], b[1..])
  }

  /** `not (b < a)`: `a` may stand before `b` in a sorted list. */
  predicate LessEq(a: string, b: string) {
    !Less(b, a)
  }

  lemma {:induction false} LessIrreflexive(a: string)
    ensures !Less(a, a)
  {
    if a != [] {
      LessIrreflexive(a[1..]);
    }
  }

  lemma {:induction false} LessTransitive(a: string, b: string, c: string)
    requires Less(a, b) && Less(b, c)
    ensures Less(a, c)
  {
    if a != [] && b != [] && c != [] && a[0] == b[0] && b[0] == c[0] {
      LessTransitive(a[1..], b[1..], c[1..]);
    }
  }

  lemma {:induction false} LessTotal(a: string, b: string)
    ensures a == b || Less(a, b) || Less(b, a)
  {
    if a != [] && b != [] && a[0] == b[0] {
      LessTotal(a[1..], b[1..]);
      if a[1..] == b[1..] {
        assert a == [a[0]] + a[1..] && b == [b[0]] + b[1..];
      }
    }
  }

  lemma LessEqTransitive(a: string, b: string, c: string)
    requires LessEq(a, b) && LessEq(b, c)
    ensures LessEq(a, c)
  {
    LessTotal(a, b);
    if Less(c, a) && Less(a, b) {
      LessTransitive(c, a, b);
    }
  }

  lemma LessAsymmetric(a: string, b: string)
    requires Less(a, b)
    ensures !Less(b, a)
  {
    if Less(b, a) {
      LessTransitive(a, b, a);
      LessIrreflexive(a);
    }
  }

  lemma LessEqAntisymmetric(a: string, b: string)
    requires LessEq(a, b) && LessEq(b, a)
    ensures a == b
  {
    LessTotal(a, b);
  }

  /** Non-decreasing by key: no later element's key is smaller than an earlier one's. */
  ghost predicate SortedBy<T>(s: seq<T>, key: T -> string) {
    forall i, j :: 0 <= i < j < |s| ==> LessEq(key(s[i]), key(s[j]))
  }

  /** Inserts `x` in front of the first element whose key is not smaller than its own. */
  function Insert<T>(x: T, s: seq<T>, key: T -> string): (r: seq<T>)
    ensures multiset(r) == multiset(s) + multiset{x}
    ensures |r| == |s| + 1
  {
    if s == [] then [x]
    else if Less(key(s[0]), key(x)) then
      assert s == [s[0]] + s[1..];
      [s[0]] + Insert(x, s[1..], key)
    else [x] + s
  }

  /** `sorted(s, key=key)` */
  function SortBy<T>(s: seq<T>, key: T -> string): (r: seq<T>)
    ensures multiset(r) == multiset(s)
    ensures |r| == |s|
  {
    if s == [] then []
    else
      assert s == [s[0]] + s[1..];
      Insert(s[0], SortBy(s[1..], key), key)
  }

  /** Every element of an insertion result is the inserted value or came from the list. */
  lemma InsertMember<T>(x: T, s: seq<T>, key: T -> string, y: T)
    requires y in Insert(x, s, key)
    ensures y == x || y in s
  {
    assert y in multiset(Insert(x, s, key));
  }

  lemma {:induction false} InsertSorted<T>(x: T, s: seq<T>, key: T -> string)
    requires SortedBy(s, key)
    ensures SortedBy(Insert(x, s, key), key)
  {
    if s != [] {
      if Less(key(s[0]), key(x)) {
        var t := s[1..];
        assert SortedBy(t, key) by {
          forall i, j | 0 <= i < j < |t| ensures LessEq(key(t[i]), key(t[j])) {
            assert t[i] == s[i + 1] && t[j] == s[j + 1];
          }
        }
        InsertSorted(x, t, key);
        var r := Insert(x, t, key);
        forall j | 0 <= j < |r| ensures LessEq(key(s[0]), key(r[j])) {
          InsertMember(x, t, key, r[j]);
          if r[j] == x {
            LessAsymmetric(key(s[0]), key(x));
          } else {
            var k :| 0 <= k < |t| && t[k] == r[j];
            assert t[k] == s[k + 1];
          }
        }
        assert Insert(x, s, key) == [s[0]] + r;
        forall i, j | 0 <= i < j < |r| + 1 ensures LessEq(key(([s[0]] + r)[i]), key(([s[0]] + r)[j])) {
          if i > 0 {
            assert ([s[0]] + r)[i] == r[i - 1] && ([s[0]] + r)[j] == r[j - 1];
          }
        }
      } else {
        forall j | 0 < j < |s| ensures LessEq(key(x), key(s[j])) {
          LessEqTransitive(key(x), key(s[0]), key(s[j]));
        }
        assert Insert(x, s, key) == [x] + s;
        forall i, j | 0 <= i < j < |s| + 1 ensures LessEq(key(([x] + s)[i]), key(([x] + s)[j])) {
          if i > 0 {
            assert ([x] + s)[i] == s[i - 1] && ([x] + s)[j] == s[j - 1];
          }
        }
      }
    }
  }

  lemma {:induction false} SortByIsSorted<T>(s: seq<T>, key: T -> string)
    ensures SortedBy(SortBy(s, key), key)
  {
    if s != [] {
      SortByIsSorted(s[1..], key);
      InsertSorted(s[0], SortBy(s[1..], key), key);
    }
  }

  /** The elements of `s` whose key is `k`, in order. */
  function KeyFilter<T>(s: seq<T>, key: T -> string, k: string): (r: seq<T>)
    ensures forall x :: x in r ==> x in s && key(x) == k
  {
    if s == [] then []
    else if key(s[0]) == k then [s[0]] + KeyFilter(s[1..], key, k)
    else KeyFilter(s[1..], key, k)
  }

  lemma {:induction false} KeyFilterAppend<T>(a: seq<T>, b: seq<T>, key: T -> string, k: string)
    ensures KeyFilter(a + b, key, k) == KeyFilter(a, key, k) + KeyFilter(b, key, k)
  {
    if a == [] {
      assert a + b == b;
    } else {
      assert (a + b)[1..] == a[1..] + b;
      KeyFilterAppend(a[1..], b, key, k);
    }
  }

  lemma KeyFilterSingle<T>(y: T, key: T -> string, k: string)
    ensures KeyFilter([y], key, k) == if key(y) == k then [y] else []
  {
    assert [y][1..] == [];
  }

  /** The step of KeyFilterInsert where `x` passes the head of the list. */
  lemma KeyFilterInsertPast<T>(x: T, y: T, r: seq<T>, t: seq<T>, key: T -> string, k: string)
    requires Less(key(y), key(x))
    requires KeyFilter(r, key, k) == (if key(x) == k then [x] else []) + KeyFilter(t, key, k)
    ensures KeyFilter([y] + r, key, k) == (if key(x) == k then [x] else []) + KeyFilter([y] + t, key, k)
  {
    KeyFilterAppend([y], r, key, k);
    KeyFilterAppend([y], t, key, k);
    KeyFilterSingle(y, key, k);
    if key(x) == k {
      LessIrreflexive(k);
      assert KeyFilter([y], key, k) == [];
      assert [] + KeyFilter(r, key, k) == KeyFilter(r, key, k);
      assert [] + KeyFilter(t, key, k) == KeyFilter(t, key, k);
    } else {
      assert KeyFilter(r, key, k) == KeyFilter(t, key, k);
    }
  }

  lemma {:induction false} KeyFilterInsert<T>(x: T, s: seq<T>, key: T -> string, k: string)
    ensures KeyFilter(Insert(x, s, key), key, k)
         == (if key(x) == k then [x] else []) + KeyFilter(s, key, k)
  {
    KeyFilterSingle(x, key, k);
    if s == [] {
      assert Insert(x, s, key) == [x];
      assert KeyFilter(s, key, k) == [];
    } else if Less(key(s[0]), key(x)) {
      assert Insert(x, s, key) == [s[0]] + Insert(x, s[1..], key);
      KeyFilterInsert(x, s[1..], key, k);
      KeyFilterInsertPast(x, s[0], Insert(x, s[1..], key), s[1..], key, k);
      assert s == [s[0]] + s[1..];
    } else {
      assert Insert(x, s, key) == [x] + s;
      KeyFilterAppend([x], s, key, k);
    }
  }

  /** Stability: for every key, the elements with that key keep their relative order. */
  lemma {:induction false} SortByIsStable<T>(s: seq<T>, key: T -> string, k: string)
    ensures KeyFilter(SortBy(s, key), key, k) == KeyFilter(s, key, k)
  {
    if s != [] {
      SortByIsStable(s[1..], key, k);
      KeyFilterInsert(s[0], SortBy(s[1..], key), key, k);
    }
  }

  /** A list that is already sorted by key is returned unchanged. */
  lemma {:induction false} SortBySortedIsIdentity<T>(s: seq<T>, key: T -> string)
    requires SortedBy(s, key)
    ensures SortBy(s, key) == s
  {
    if s != [] {
      SortBySortedIsIdentity(s[1..], key);
      if |s| > 1 {
        assert LessEq(key(s[0]), key(s[1]));
      }
    }
  }

  lemma SortByIdempotent<T>(s: seq<T>, key: T -> string)
    ensures SortBy(SortBy(s, key), key) == SortBy(s, key)
  {
    SortByIsSorted(s, key);
    SortBySortedIsIdentity(SortBy(s, key), key);
  }

  /** Applying a key-preserving map before or after sorting gives the same list. */
  lemma {:induction false} SortByMap<T>(f: T -> T, s: seq<T>, key: T -> string)
    requires forall x :: key(f(x)) == key(x)
    ensures SortBy(Map(f, s), key) == Map(f, SortBy(s, key))
  {
    if s != [] {
      SortByMap(f, s[1..], key);
      assert Map(f, s)[1..] == Map(f, s[1..]);
      InsertMap(f, s[0], SortBy(s[1..], key), key);
    }
  }

  lemma {:induction false} InsertMap<T>(f: T -> T, x: T, s: seq<T>, key: T -> string)
    requires forall x :: key(f(x)) == key(x)
    ensures Insert(f(x), Map(f, s), key) == Map(f, Insert(x, s, key))
  {
    if s != [] {
      assert Map(f, s)[1..] == Map(f, s[1..]);
      if Less(key(s[0]), key(x)) {
        InsertMap(f, x, s[1..], key);
        assert Map(f, [s[0]] + Insert(x, s[1..], key)) == [f(s[0])] + Map(f, Insert(x, s[1..], key));
      } else {
        assert Map(f, [x] + s) == [f(x)] + Map(f, s);
      }
    }
  }

  /**
   * Uniqueness: a list that is sorted by key and keeps, for every key, the same elements in
   * the same order as `s` is `SortBy(s, key)`. Any stable sort therefore agrees with SortBy.
   */
  lemma SortByUnique<T>(s: seq<T>, t: seq<T>, key: T -> string)
    requires SortedBy(t, key)
    requires forall k :: KeyFilter(t, key, k) == KeyFilter(s, key, k)
    ensures t == SortBy(s, key)
  {
    SortByIsSorted(s, key);
    forall k ensures KeyFilter(t, key, k) == KeyFilter(SortBy(s, key), key, k) {
      SortByIsStable(s, key, k);
    }
    SortedStableEqual(t, SortBy(s, key), key);
  }

  /** Lists with the same elements per key are empty together. */
  lemma EmptyTogether<T>(a: seq<T>, b: seq<T>, key: T -> string)
    requires forall k :: KeyFilter(a, key, k) == KeyFilter(b, key, k)
    ensures a == [] <==> b == []
  {
    if a != [] {
      assert KeyFilter(a, key, key(a[0])) != [];
    }
    if b != [] {
      assert KeyFilter(b, key, key(b[0])) != [];
    }
  }

  /** The head of a sorted list has the least key of any list with the same elements per key. */
  lemma HeadKeyLeast<T>(a: seq<T>, b: seq<T>, key: T -> string)
    requires a != [] && b != [] && SortedBy(b, key)
    requires forall k :: KeyFilter(a, key, k) == KeyFilter(b, key, k)
    ensures LessEq(key(b[0]), key(a[0]))
  {
    var ka, kb := key(a[0]), key(b[0]);
    assert KeyFilter(b, key, ka) == KeyFilter(a, key, ka) != [];
    var y := KeyFilter(b, key, ka)[0];
    assert y in b;
    var j :| 0 <= j < |b| && b[j] == y;
    assert j == 0 || LessEq(kb, key(b[j]));
    LessIrreflexive(kb);
  }

  /** Lists with the same head and the same elements per key have the same tails per key. */
  lemma TailFilters<T>(a: seq<T>, b: seq<T>, key: T -> string)
    requires a != [] && b != [] && a[0] == b[0]
    requires forall k :: KeyFilter(a, key, k) == KeyFilter(b, key, k)
    ensures forall k :: KeyFilter(a[1..], key, k) == KeyFilter(b[1..], key, k)
  {
    forall k ensures KeyFilter(a[1..], key, k) == KeyFilter(b[1..], key, k) {
      var head := KeyFilter([a[0]], key, k);
      assert KeyFilter(a, key, k) == head + KeyFilter(a[1..], key, k) by {
        assert a == [a[0]] + a[1..];
        KeyFilterAppend([a[0]], a[1..], key, k);
      }
      assert KeyFilter(b, key, k) == head + KeyFilter(b[1..], key, k) by {
        assert b == [b[0]] + b[1..];
        KeyFilterAppend([b[0]], b[1..], key, k);
      }
      assert (head + KeyFilter(a[1..], key, k))[|head|..] == KeyFilter(a[1..], key, k);
      assert (head + KeyFilter(b[1..], key, k))[|head|..] == KeyFilter(b[1..], key, k);
    }
  }

  lemma SortedTail<T>(a: seq<T>, key: T -> string)
    requires a != [] && SortedBy(a, key)
    ensures SortedBy(a[1..], key)
  {
    var t := a[1..];
    forall i, j | 0 <= i < j < |t| ensures LessEq(key(t[i]), key(t[j])) {
      assert t[i] == a[i + 1] && t[j] == a[j + 1];
    }
  }

  lemma {:induction false} SortedStableEqual<T>(a: seq<T>, b: seq<T>, key: T -> string)
    requires SortedBy(a, key) && SortedBy(b, key)
    requires forall k :: KeyFilter(a, key, k) == KeyFilter(b, key, k)
    ensures a == b
    decreases |a|
  {
    EmptyTogether(a, b, key);
    if a != [] {
      var ka, kb := key(a[0]), key(b[0]);
      HeadKeyLeast(a, b, key);
      HeadKeyLeast(b, a, key);
      LessEqAntisymmetric(ka, kb);
      assert a[0] == KeyFilter(a, key, ka)[0] == KeyFilter(b, key, ka)[0] == b[0];
      TailFilters(a, b, key);
      SortedTail(a, key);
      SortedTail(b, key);
      SortedStableEqual(a[1..], b[1..], key);
      assert a == [a[0]] + a[1..] && b == [b[0]] + b[1..];
    }
  }
}
