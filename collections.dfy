/** Sequence and set helpers: Python slicing, duplicate-freedom and set sizes. */
module Collections {
  import opened Wrappers

  /** The set of elements of a list: `set(xs)`. */
  function Elements<T>(s: seq<T>): set<T> {
    set x | x in s
  }

  /** No element occurs twice. */
  predicate Distinct<T(==)>(s: seq<T>) {
    forall i, j :: 0 <= i < j < |s| ==> s[i] != s[j]
  }

  /** The length of `xs[:k]` for a list of length `n`. */
  function SliceLength(n: nat, k: int): (m: nat)
    ensures m <= n
    ensures k >= 0 ==> m == if k < n then k else n
    ensures k < 0 ==> m == if n + k > 0 then n + k else 0
  {
    if k >= 0 then (if k < n then k else n)
    else if n + k > 0 then n + k else 0
  }

  /** Python's `xs[:k]`: a negative bound counts from the end. */
  function PyPrefix<T>(s: seq<T>, k: int): (r: seq<T>)
    ensures |r| == SliceLength(|s|, k)
    ensures r == s[..|r|]
  {
    if k >= 0 then (if k < |s| then s[..k] else s)
    else if |s| + k > 0 then s[..|s| + k] else []
  }

  /** `list(s)`: the elements of a set in an order the set chooses. */
  method ListOf<T(==)>(s: set<T>) returns (xs: seq<T>)
    ensures Distinct(xs) && Elements(xs) == s && |xs| == |s|
  {
    xs := [];
    var rest := s;
    while rest != {}
      invariant Elements(xs) + rest == s && Elements(xs) !! rest
      invariant Distinct(xs)
      decreases |rest|
    {
      var x :| x in rest;
      xs := xs + [x];
      rest := rest - {x};
    }
    DistinctCard(xs);
  }

  /** `for x in xs: acc.add(x)` */
  method AddAll<T>(acc: set<T>, xs: seq<T>) returns (r: set<T>)
    ensures r == acc + Elements(xs)
  {
    r := acc;
    var i := 0;
    while i < |xs|
      invariant 0 <= i <= |xs|
      invariant r == acc + Elements(xs[..i])
    {
      assert xs[..i + 1] == xs[..i] + [xs[i]];
      r := r + {xs[i]};
      i := i + 1;
    }
    assert xs[..i] == xs;
  }

  /** A duplicate-free list has as many elements as its set. */
  lemma {:induction false} DistinctCard<T>(s: seq<T>)
    requires Distinct(s)
    ensures |Elements(s)| == |s|
    decreases |s|
  {
    if s != [] {
      var t := s[..|s| - 1];
      var x := s[|s| - 1];
      assert Distinct(t);
      DistinctCard(t);
      assert s == t + [x];
      assert Elements(s) == Elements(t) + {x};
      assert x !in Elements(t);
    }
  }

  /** A duplicate-free list holds each value at most once. */
  lemma {:induction false} DistinctMultiplicity<T>(s: seq<T>, x: T)
    requires Distinct(s)
    ensures multiset(s)[x] <= 1
    decreases |s|
  {
    if s != [] {
      var rest := s[1..];
      assert s == [s[0]] + rest;
      assert Distinct(rest);
      DistinctMultiplicity(rest, x);
      if x == s[0] {
        assert x !in rest;
      }
    }
  }

  /** A reordering of a duplicate-free list is duplicate-free. */
  lemma PermutationOfDistinct<T>(a: seq<T>, b: seq<T>)
    requires multiset(a) == multiset(b) && Distinct(a)
    ensures Distinct(b)
  {
    forall i, j | 0 <= i < j < |b| ensures b[i] != b[j] {
      if b[i] == b[j] {
        assert b == b[..j] + [b[j]] + b[j + 1..];
        assert b[i] in b[..j];
        assert multiset(b)[b[i]] >= 2;
        DistinctMultiplicity(a, b[i]);
      }
    }
  }

  /** A subset is never larger. */
  lemma {:induction false} SubsetCard<T>(a: set<T>, b: set<T>)
    requires a <= b
    ensures |a| <= |b|
    decreases |a|
  {
    if a != {} {
      var x :| x in a;
      SubsetCard(a - {x}, b - {x});
    }
  }

  /** `[f(x) for x in xs]` where `f` may raise: the first failure propagates. */
  function MapResult<A, B, E>(f: A -> Result<B, E>, xs: seq<A>): Result<seq<B>, E>
    decreases |xs|
  {
    if xs == [] then Ok([])
    else
      match f(xs[0])
      case Err(e) => Err(e)
      case Ok(y) =>
        match MapResult(f, xs[1..])
        case Err(e) => Err(e)
        case Ok(ys) => Ok([y] + ys)
  }

  /** The elements satisfying `p`, in order: a list comprehension with a condition, or
      the rows a `WHERE` clause keeps. */
  function Filter<T>(s: seq<T>, p: T -> bool): (r: seq<T>)
    ensures |r| <= |s|
    decreases |s|
  {
    if s == [] then []
    else
      var rest := Filter(s[1..], p);
      if p(s[0]) then [s[0]] + rest else rest
  }

  /** The filter keeps exactly the elements that satisfy `p`. */
  lemma {:induction false} FilterMembers<T>(s: seq<T>, p: T -> bool)
    ensures forall i :: 0 <= i < |Filter(s, p)| ==> Filter(s, p)[i] in s && p(Filter(s, p)[i])
    ensures forall i :: 0 <= i < |s| && p(s[i]) ==> s[i] in Filter(s, p)
    decreases |s|
  {
    if s != [] {
      FilterMembers(s[1..], p);
      var r := Filter(s, p);
      var rest := Filter(s[1..], p);
      assert forall i :: 1 <= i < |s| ==> s[i] == s[1..][i - 1];
      if p(s[0]) {
        assert forall i :: 1 <= i < |r| ==> r[i] == rest[i - 1];
      }
    }
  }

  lemma {:induction false} FilterAppend<T>(a: seq<T>, b: seq<T>, p: T -> bool)
    ensures Filter(a + b, p) == Filter(a, p) + Filter(b, p)
    decreases |a|
  {
    if a == [] {
      assert a + b == b;
    } else {
      assert (a + b)[1..] == a[1..] + b;
      FilterAppend(a[1..], b, p);
    }
  }

  /** Filtering twice is filtering once by the stronger condition. */
  lemma {:induction false} FilterNested<T>(s: seq<T>, p: T -> bool, q: T -> bool)
    requires forall x :: p(x) ==> q(x)
    ensures Filter(Filter(s, q), p) == Filter(s, p)
    decreases |s|
  {
    if s != [] {
      FilterNested(s[1..], p, q);
    }
  }

  /** Filtering with conditions that agree on the list gives the same rows. */
  lemma {:induction false} FilterCongruent<T>(s: seq<T>, p: T -> bool, q: T -> bool)
    requires forall x :: x in s ==> (p(x) <==> q(x))
    ensures Filter(s, p) == Filter(s, q)
    decreases |s|
  {
    if s != [] {
      FilterCongruent(s[1..], p, q);
    }
  }

  /** Everything in the list satisfies `p`. */
  lemma {:induction false} FilterAll<T>(s: seq<T>, p: T -> bool)
    requires forall x :: x in s ==> p(x)
    ensures Filter(s, p) == s
    decreases |s|
  {
    if s != [] {
      FilterAll(s[1..], p);
    }
  }

  /** Two filters in a row are one filter by the conjunction. */
  lemma {:induction false} FilterTwice<T>(s: seq<T>, p: T -> bool, q: T -> bool, pq: T -> bool)
    requires forall x :: pq(x) <==> p(x) && q(x)
    ensures Filter(Filter(s, p), q) == Filter(s, pq)
    decreases |s|
  {
    if s != [] {
      FilterTwice(s[1..], p, q, pq);
    }
  }

  /** The filter is empty exactly when nothing satisfies the condition. */
  lemma FilterEmpty<T>(s: seq<T>, p: T -> bool)
    ensures Filter(s, p) == [] <==> forall x :: x in s ==> !p(x)
  {
    FilterMembers(s, p);
    if Filter(s, p) == [] {
      forall x | x in s ensures !p(x) {
        var i :| 0 <= i < |s| && s[i] == x;
      }
    }
  }

  /** No two elements share a key: a primary key or a uniqueness condition. */
  predicate Unique<T, K(==)>(s: seq<T>, key: T -> K) {
    forall i, j :: 0 <= i < j < |s| ==> key(s[i]) != key(s[j])
  }

  lemma UniqueCons<T, K>(x: T, s: seq<T>, key: T -> K)
    ensures Unique([x] + s, key) <==> Unique(s, key) && forall y :: y in s ==> key(y) != key(x)
  {
    var t := [x] + s;
    assert forall i :: 0 <= i < |s| ==> t[i + 1] == s[i];
    if Unique(t, key) {
      forall y | y in s ensures key(y) != key(x) {
        var i :| 0 <= i < |s| && s[i] == y;
        assert t[0] == x && t[i + 1] == y;
      }
    }
  }

  lemma UniqueSnoc<T, K>(s: seq<T>, x: T, key: T -> K)
    requires Unique(s, key)
    requires forall y :: y in s ==> key(y) != key(x)
    ensures Unique(s + [x], key)
  {
    var t := s + [x];
    forall i, j | 0 <= i < j < |t| ensures key(t[i]) != key(t[j]) {
      if j == |s| {
        assert t[i] in s;
      } else {
        assert t[i] == s[i] && t[j] == s[j];
      }
    }
  }

  lemma {:induction false} UniqueFilter<T, K>(s: seq<T>, p: T -> bool, key: T -> K)
    requires Unique(s, key)
    ensures Unique(Filter(s, p), key)
    decreases |s|
  {
    if s != [] {
      assert s == [s[0]] + s[1..];
      UniqueCons(s[0], s[1..], key);
      UniqueFilter(s[1..], p, key);
      FilterMembers(s[1..], p);
      if p(s[0]) {
        UniqueCons(s[0], Filter(s[1..], p), key);
      }
    }
  }

  /** `prefix + ys` inside a result. */
  function Prepend<B, E>(prefix: seq<B>, r: Result<seq<B>, E>): Result<seq<B>, E> {
    match r
    case Err(e) => Err(e)
    case Ok(ys) => Ok(prefix + ys)
  }

  /** One step of the map from position `i`, as a loop over `xs` takes it. */
  lemma MapResultStep<A, B, E>(f: A -> Result<B, E>, xs: seq<A>, prefix: seq<B>, i: nat)
    requires i < |xs|
    ensures f(xs[i]).Err? ==> Prepend(prefix, MapResult(f, xs[i..])) == Err(f(xs[i]).error)
    ensures f(xs[i]).Ok? ==>
      Prepend(prefix, MapResult(f, xs[i..])) == Prepend(prefix + [f(xs[i]).value], MapResult(f, xs[i + 1..]))
  {
    assert xs[i..][0] == xs[i];
    assert xs[i..][1..] == xs[i + 1..];
    if f(xs[i]).Ok? && MapResult(f, xs[i + 1..]).Ok? {
      var ys := MapResult(f, xs[i + 1..]).value;
      assert prefix + ([f(xs[i]).value] + ys) == (prefix + [f(xs[i]).value]) + ys;
    }
  }

  /** The loop `for x in xs: ys.append(f(x))` in which the first failing call raises. */
  method MapAll<A, B, E>(f: A -> Result<B, E>, xs: seq<A>) returns (r: Result<seq<B>, E>)
    ensures r == MapResult(f, xs)
  {
    var ys: seq<B> := [];
    var i := 0;
    assert xs[0..] == xs;
    if MapResult(f, xs).Ok? {
      assert ys + MapResult(f, xs).value == MapResult(f, xs).value;
    }
    while i < |xs|
      invariant 0 <= i <= |xs|
      invariant MapResult(f, xs) == Prepend(ys, MapResult(f, xs[i..]))
    {
      var y := f(xs[i]);
      MapResultStep(f, xs, ys, i);
      if y.Err? {
        return Err(y.error);
      }
      ys := ys + [y.value];
      i := i + 1;
    }
    assert xs[i..] == [];
    assert ys + [] == ys;
    r := Ok(ys);
  }

  /** The map succeeds exactly when every call does, and then it is elementwise. */
  lemma {:induction false} MapResultFacts<A, B, E>(f: A -> Result<B, E>, xs: seq<A>)
    ensures MapResult(f, xs).Ok? <==> forall i :: 0 <= i < |xs| ==> f(xs[i]).Ok?
    ensures MapResult(f, xs).Ok? ==>
      |MapResult(f, xs).value| == |xs| && forall i :: 0 <= i < |xs| ==> MapResult(f, xs).value[i] == f(xs[i]).value
    decreases |xs|
  {
    if xs != [] {
      MapResultFacts(f, xs[1..]);
      assert forall i :: 1 <= i < |xs| ==> xs[i] == xs[1..][i - 1];
    }
  }

  lemma PrefixOfDistinct<T>(s: seq<T>, k: int)
    requires Distinct(s)
    ensures Distinct(PyPrefix(s, k))
  {
  }

  /** `[f(x) for x in s]` */
  function Image<A, B>(f: A -> B, s: seq<A>): (r: seq<B>)
    ensures |r| == |s| && forall i :: 0 <= i < |s| ==> r[i] == f(s[i])
  {
    seq(|s|, i requires 0 <= i < |s| => f(s[i]))
  }

  lemma ImageAppend<A, B>(f: A -> B, a: seq<A>, b: seq<A>)
    ensures Image(f, a + b) == Image(f, a) + Image(f, b)
  {
  }

  /** Rearranging a list rearranges its image the same way. */
  lemma {:induction false} ImagePermutation<A, B>(f: A -> B, a: seq<A>, b: seq<A>)
    requires multiset(a) == multiset(b)
    ensures multiset(Image(f, a)) == multiset(Image(f, b))
    decreases |a|
  {
    if a == [] {
      assert |multiset(b)| == 0;
    } else {
      var x := a[0];
      assert x in multiset(b);
      var j :| 0 <= j < |b| && b[j] == x;
      var rest := b[..j] + b[j + 1..];
      assert b == b[..j] + [x] + b[j + 1..];
      assert a == [x] + a[1..];
      calc {
        multiset(b);
        multiset(b[..j] + [x] + b[j + 1..]);
        multiset(b[..j]) + multiset{x} + multiset(b[j + 1..]);
        multiset(rest) + multiset{x};
      }
      assert multiset(a) == multiset{x} + multiset(a[1..]);
      assert multiset(a[1..]) == multiset(a) - multiset{x};
      assert multiset(rest) == multiset(b) - multiset{x};
      ImagePermutation(f, a[1..], rest);
      ImageAppend(f, [x], a[1..]);
      ImageAppend(f, b[..j] + [x], b[j + 1..]);
      ImageAppend(f, b[..j], [x]);
      ImageAppend(f, b[..j], b[j + 1..]);
    }
  }
}
