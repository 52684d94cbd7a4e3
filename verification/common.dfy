/** Optional values, results, and the list comprehensions the Python source is written with. */
module Common {

  /** A value that may be absent: Python's `X | None`. */
  datatype Option<T> = None | Some(value: T) {
    /** The value, or `default` when absent (`x if x is not None else default`). */
    function GetOr(default: T): T {
      match this
      case Some(v) => v
      case None => default
    }
  }

  /** The outcome of an operation that raises in the source; `error` is the exception's text. */
  datatype Result<T> = Ok(value: T) | Err(error: string) {
    predicate IsFailure() {
      Err?
    }

    function PropagateFailure<U>(): Result<U>
      requires Err?
    {
      Err(error)
    }

    function Extract(): T
      requires Ok?
    {
      value
    }
  }

  /** `[f(x) for x in s]` */
  function Map<T, U>(f: T -> U, s: seq<T>): (r: seq<U>)
    ensures |r| == |s|
    ensures forall i :: 0 <= i < |s| ==> r[i] == f(s[i])
  {
    if s == [] then [] else [f(s[0])] + Map(f, s[1..])
  }

  lemma MapAppend<T, U>(f: T -> U, a: seq<T>, b: seq<T>)
    ensures Map(f, a + b) == Map(f, a) + Map(f, b)
  {
  }

  /** Mapping `f` over `s` in place, one position at a time: position `i` is next. */
  lemma MapInPlaceStep<T>(f: T -> T, s: seq<T>, i: nat)
    requires i < |s|
    ensures |Map(f, s[..i]) + s[i..]| == |s|
    ensures (Map(f, s[..i]) + s[i..])[i] == s[i]
    ensures (Map(f, s[..i]) + s[i..])[i := f(s[i])] == Map(f, s[..i + 1]) + s[i + 1..]
  {
    var a := Map(f, s[..i]) + s[i..];
    var b := Map(f, s[..i + 1]) + s[i + 1..];
    forall k | 0 <= k < |b|
      ensures a[i := f(s[i])][k] == b[k]
    {
      if k < i {
        assert a[k] == Map(f, s[..i])[k];
      } else if k > i {
        assert a[k] == s[k] == b[k];
      }
    }
  }

  /** Before the first step nothing is mapped; after the last, everything is. */
  lemma MapInPlaceEnds<T>(f: T -> T, s: seq<T>)
    ensures Map(f, s[..0]) + s[0..] == s
    ensures Map(f, s[..|s|]) + s[|s|..] == Map(f, s)
  {
    assert s[..|s|] == s;
  }

  /** Mapping a function that fixes every element changes nothing. */
  lemma MapFixed<T>(f: T -> T, s: seq<T>)
    requires forall x :: x in s ==> f(x) == x
    ensures Map(f, s) == s
  {
    assert forall i :: 0 <= i < |s| ==> s[i] in s;
  }

  /** `[x for x in s if p(x)]`: keeps exactly the elements satisfying `p`. */
  function Select<T(!new)>(p: T -> bool, s: seq<T>): (r: seq<T>)
    ensures |r| <= |s|
    ensures forall x :: x in r <==> x in s && p(x)
  {
    if s == [] then []
    else
      assert s == [s[0]] + s[1..];
      if p(s[0]) then [s[0]] + Select(p, s[1..]) else Select(p, s[1..])
  }

  lemma {:induction false} SelectAppend<T(!new)>(p: T -> bool, a: seq<T>, b: seq<T>)
    ensures Select(p, a + b) == Select(p, a) + Select(p, b)
  {
    if a == [] {
      assert a + b == b;
    } else {
      assert (a + b)[1..] == a[1..] + b;
      SelectAppend(p, a[1..], b);
    }
  }

  /** Filtering a list whose elements all pass changes nothing. */
  lemma {:induction false} SelectKeepsAll<T(!new)>(p: T -> bool, s: seq<T>)
    requires forall x :: x in s ==> p(x)
    ensures Select(p, s) == s
  {
    if s != [] {
      assert s[0] in s;
      assert forall x :: x in s[1..] ==> x in s;
      SelectKeepsAll(p, s[1..]);
    }
  }

  lemma SelectIdempotent<T(!new)>(p: T -> bool, s: seq<T>)
    ensures Select(p, Select(p, s)) == Select(p, s)
  {
    SelectKeepsAll(p, Select(p, s));
  }

  /** `a` can be obtained from `b` by deleting elements: `a` keeps `b`'s relative order. */
  ghost predicate IsSubseq<T>(a: seq<T>, b: seq<T>)
    decreases |b|
  {
    a == [] ||
    (b != [] && ((a[0] == b[0] && IsSubseq(a[1..], b[1..])) || IsSubseq(a, b[1..])))
  }

  lemma {:induction false} SubseqOfSelf<T>(s: seq<T>)
    ensures IsSubseq(s, s)
  {
    if s != [] {
      SubseqOfSelf(s[1..]);
    }
  }

  lemma {:induction false} SelectIsSubseq<T(!new)>(p: T -> bool, s: seq<T>)
    ensures IsSubseq(Select(p, s), s)
  {
    if s != [] {
      SelectIsSubseq(p, s[1..]);
      var rest := Select(p, s[1..]);
      if p(s[0]) {
        assert Select(p, s) == [s[0]] + rest;
        assert ([s[0]] + rest)[1..] == rest;
      }
    }
  }

  /** Mapping keeps a subsequence a subsequence. */
  lemma {:induction false} MapSubseq<T, U>(f: T -> U, a: seq<T>, b: seq<T>)
    requires IsSubseq(a, b)
    ensures IsSubseq(Map(f, a), Map(f, b))
    decreases |b|
  {
    if a != [] {
      assert Map(f, a)[1..] == Map(f, a[1..]);
      assert Map(f, b)[1..] == Map(f, b[1..]);
      if a[0] == b[0] && IsSubseq(a[1..], b[1..]) {
        MapSubseq(f, a[1..], b[1..]);
      } else {
        MapSubseq(f, a, b[1..]);
      }
    }
  }

  /** `[f(x) for x in items]` where `f` may raise: the first failure propagates. */
  function AllOk<T, A>(f: T -> Result<A>, items: seq<T>): (r: Result<seq<A>>)
    ensures r.Ok? <==> forall i :: 0 <= i < |items| ==> f(items[i]).Ok?
    ensures r.Ok? ==> |r.value| == |items|
    ensures r.Ok? ==> forall i :: 0 <= i < |items| ==> f(items[i]) == Ok(r.value[i])
  {
    if items == [] then Ok([])
    else
      match f(items[0])
      case Err(e) => Err(e)
      case Ok(x) =>
        match AllOk(f, items[1..])
        case Err(e) => Err(e)
        case Ok(xs) => Ok([x] + xs)
  }

  /** A failure is the error of the first item that fails. */
  lemma {:induction false} AllOkFirstError<T, A>(f: T -> Result<A>, items: seq<T>)
    ensures AllOk(f, items).Err? ==> exists k :: (0 <= k < |items| && f(items[k]).Err? &&
      (forall j :: 0 <= j < k ==> f(items[j]).Ok?) && AllOk(f, items).error == f(items[k]).error)
  {
    if items != [] && f(items[0]).Ok? && AllOk(f, items[1..]).Err? {
      AllOkFirstError(f, items[1..]);
      var k :| 0 <= k < |items[1..]| && f(items[1..][k]).Err? &&
        (forall j :: 0 <= j < k ==> f(items[1..][j]).Ok?) && AllOk(f, items[1..]).error == f(items[1..][k]).error;
      assert forall j :: 1 <= j < k + 1 ==> f(items[j]) == f(items[1..][j - 1]);
    }
  }

  /** Decoding the encodings of a list gives the list back when each element round-trips. */
  lemma AllOkRoundTrip<T, A>(f: T -> Result<A>, g: A -> T, xs: seq<A>)
    requires forall i :: 0 <= i < |xs| ==> f(g(xs[i])) == Ok(xs[i])
    ensures AllOk(f, Map(g, xs)) == Ok(xs)
  {
    var r := AllOk(f, Map(g, xs));
    assert r.Ok?;
    assert r.value == xs;
  }

  /** One more item: the earlier failure wins, else the new item's failure, else its value is appended. */
  lemma {:induction false} AllOkSnoc<T, A>(f: T -> Result<A>, items: seq<T>, x: T)
    ensures AllOk(f, items + [x]) ==
      if AllOk(f, items).Err? then AllOk(f, items)
      else if f(x).Err? then Err(f(x).error)
      else Ok(AllOk(f, items).value + [f(x).value])
  {
    if items == [] {
      assert items + [x] == [x] && [x][1..] == [];
      if f(x).Ok? {
        assert [f(x).value] + [] == [] + [f(x).value];
      }
    } else {
      assert (items + [x])[0] == items[0];
      assert (items + [x])[1..] == items[1..] + [x];
      AllOkSnoc(f, items[1..], x);
      if f(items[0]).Ok? && AllOk(f, items[1..]).Ok? && f(x).Ok? {
        var y, ys := f(items[0]).value, AllOk(f, items[1..]).value;
        assert [y] + (ys + [f(x).value]) == ([y] + ys) + [f(x).value];
      }
    }
  }

  /** Once a prefix of the items fails, so does the whole list, with the same error. */
  lemma {:induction false} AllOkPrefixErr<T, A>(f: T -> Result<A>, items: seq<T>, n: nat)
    requires n <= |items| && AllOk(f, items[..n]).Err?
    ensures AllOk(f, items) == AllOk(f, items[..n])
    decreases |items| - n
  {
    if n < |items| {
      AllOkSnoc(f, items[..n], items[n]);
      assert items[..n + 1] == items[..n] + [items[n]];
      AllOkPrefixErr(f, items, n + 1);
    } else {
      assert items[..n] == items;
    }
  }

  /** `[y for x in s for y in f(x)]`: the pieces `f` yields for each element, in order. */
  function FlatMap<T, U>(f: T -> seq<U>, s: seq<T>): seq<U> {
    if s == [] then [] else f(s[0]) + FlatMap(f, s[1..])
  }

  lemma {:induction false} FlatMapAppend<T, U>(f: T -> seq<U>, a: seq<T>, b: seq<T>)
    ensures FlatMap(f, a + b) == FlatMap(f, a) + FlatMap(f, b)
  {
    if a == [] {
      assert a + b == b;
    } else {
      assert (a + b)[0] == a[0];
      assert (a + b)[1..] == a[1..] + b;
      FlatMapAppend(f, a[1..], b);
    }
  }

  /** One more element contributes its own pieces at the end. */
  lemma FlatMapSnoc<T, U>(f: T -> seq<U>, s: seq<T>, x: T)
    ensures FlatMap(f, s + [x]) == FlatMap(f, s) + f(x)
  {
    FlatMapAppend(f, s, [x]);
    assert [x][1..] == [];
  }

  /** A value occurs in the result exactly when some element's pieces hold it. */
  lemma {:induction false} FlatMapMember<T, U>(f: T -> seq<U>, s: seq<T>, y: U)
    ensures y in FlatMap(f, s) <==> exists i :: 0 <= i < |s| && y in f(s[i])
  {
    if s != [] {
      FlatMapMember(f, s[1..], y);
      if y in FlatMap(f, s[1..]) {
        var i :| 0 <= i < |s[1..]| && y in f(s[1..][i]);
        assert y in f(s[i + 1]);
      }
      if exists i :: 0 <= i < |s| && y in f(s[i]) {
        var i :| 0 <= i < |s| && y in f(s[i]);
        if i > 0 {
          assert y in f(s[1..][i - 1]);
        }
      }
    }
  }

  /** The value of a success, nothing for a failure. */
  function OkValue<T>(r: Result<T>): seq<T> {
    if r.Ok? then [r.value] else []
  }

  /** The values of the successes among `rs`, in order; failures are skipped. */
  function Oks<T>(rs: seq<Result<T>>): seq<T> {
    FlatMap(OkValue, rs)
  }

  lemma OksAppend<T>(a: seq<Result<T>>, b: seq<Result<T>>)
    ensures Oks(a + b) == Oks(a) + Oks(b)
  {
    FlatMapAppend(OkValue, a, b);
  }

  lemma OksOne<T>(r: Result<T>)
    ensures Oks([r]) == OkValue(r)
  {
    assert [r][1..] == [];
    assert FlatMap(OkValue, [r]) == OkValue(r) + FlatMap(OkValue, []);
  }

  /** Dropping a failure does not change the values kept. */
  lemma OksSkipErr<T>(rs: seq<Result<T>>, i: nat)
    requires i < |rs| && rs[i].Err?
    ensures Oks(rs) == Oks(rs[..i] + rs[i + 1..])
  {
    assert rs == rs[..i] + [rs[i]] + rs[i + 1..];
    OksAppend(rs[..i] + [rs[i]], rs[i + 1..]);
    OksAppend(rs[..i], [rs[i]]);
    OksAppend(rs[..i], rs[i + 1..]);
    OksOne(rs[i]);
  }

  /** When nothing fails, every value is kept, in order. */
  lemma {:induction false} OksAllOk<T>(rs: seq<Result<T>>)
    requires forall k :: 0 <= k < |rs| ==> rs[k].Ok?
    ensures |Oks(rs)| == |rs|
    ensures forall k :: 0 <= k < |rs| ==> Oks(rs)[k] == rs[k].value
  {
    if rs != [] {
      assert rs == [rs[0]] + rs[1..];
      OksAppend([rs[0]], rs[1..]);
      OksOne(rs[0]);
      OksAllOk(rs[1..]);
    }
  }

  /** A value is kept exactly when it is the value of one of the successes. */
  lemma OksMember<T>(rs: seq<Result<T>>, x: T)
    ensures x in Oks(rs) <==> Ok(x) in rs
  {
    FlatMapMember(OkValue, rs, x);
    if Ok(x) in rs {
      var k :| 0 <= k < |rs| && rs[k] == Ok(x);
      assert x in OkValue(rs[k]);
    }
  }

  /** `x or y` on optional text: `x` when it is present and non-empty, otherwise `y`. */
  function Or(x: Option<string>, y: Option<string>): (r: Option<string>)
    ensures Truthy(x) ==> r == x
    ensures !Truthy(x) ==> r == y
  {
    if Truthy(x) then x else y
  }

  /** Python truthiness of `str | None`: present and non-empty. */
  predicate Truthy(x: Option<string>) {
    x.Some? && x.value != ""
  }

  /** Filtering by two tests that agree on every element gives the same list. */
  lemma {:induction false} SelectCongruent<T(!new)>(p: T -> bool, q: T -> bool, s: seq<T>)
    requires forall x :: x in s ==> (p(x) <==> q(x))
    ensures Select(p, s) == Select(q, s)
  {
    if s != [] {
      assert s[0] in s;
      assert forall x :: x in s[1..] ==> x in s;
      SelectCongruent(p, q, s[1..]);
    }
  }

  /** Mapping two functions that agree on every element gives the same list. */
  lemma MapCongruent<T, U>(f: T -> U, g: T -> U, s: seq<T>)
    requires forall x :: x in s ==> f(x) == g(x)
    ensures Map(f, s) == Map(g, s)
  {
    assert forall i :: 0 <= i < |s| ==> s[i] in s;
  }

  /** `[f(x) for x in s + [y] if p(x)]`: the new element contributes when it passes. */
  lemma MapSelectSnoc<T(!new), U>(f: T -> U, p: T -> bool, s: seq<T>, y: T)
    ensures Map(f, Select(p, s + [y])) == Map(f, Select(p, s)) + (if p(y) then [f(y)] else [])
  {
    SelectAppend(p, s, [y]);
    MapAppend(f, Select(p, s), Select(p, [y]));
    assert [y][1..] == [];
  }

  /** The loop step of a comprehension: one more element of `s` is mapped. */
  lemma MapPrefixStep<T, U>(f: T -> U, s: seq<T>, i: nat)
    requires i < |s|
    ensures Map(f, s[..i + 1]) == Map(f, s[..i]) + [f(s[i])]
  {
    assert s[..i + 1] == s[..i] + [s[i]];
    MapAppend(f, s[..i], [s[i]]);
  }

  /** The loop step of a flattening comprehension: one more element's pieces are appended. */
  lemma FlatMapPrefixStep<T, U>(f: T -> seq<U>, s: seq<T>, i: nat)
    requires i < |s|
    ensures FlatMap(f, s[..i + 1]) == FlatMap(f, s[..i]) + f(s[i])
  {
    assert s[..i + 1] == s[..i] + [s[i]];
    FlatMapSnoc(f, s[..i], s[i]);
  }

  /** The loop step of a filtering comprehension: one more element of `s` is tested. */
  lemma MapSelectPrefixStep<T(!new), U>(f: T -> U, p: T -> bool, s: seq<T>, i: nat)
    requires i < |s|
    ensures Map(f, Select(p, s[..i + 1])) == Map(f, Select(p, s[..i])) + (if p(s[i]) then [f(s[i])] else [])
  {
    assert s[..i + 1] == s[..i] + [s[i]];
    MapSelectSnoc(f, p, s[..i], s[i]);
  }
}
