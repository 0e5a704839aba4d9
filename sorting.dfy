/**
  Python's stable `list.sort(key=..., reverse=True)` and `sorted(..., reverse=True)`:
  the result is ordered by non-increasing key, and elements with equal keys keep
  their input order. Modelled as an insertion sort whose insertion puts the new
  element in front of every element whose key is not larger than its own.
 */
module Sorting {

  /** Keys are non-increasing from left to right. */
  predicate SortedDesc<T>(s: seq<T>, key: T -> real) {
    forall i, j :: 0 <= i < j < |s| ==> key(s[i]) >= key(s[j])
  }

  /** The elements of `s` whose key is `v`, in their order in `s`. */
  function WithKey<T>(s: seq<T>, key: T -> real, v: real): seq<T>
    decreases |s|
  {
    if s == [] then []
    else if key(s[0]) == v then [s[0]] + WithKey(s[1..], key, v)
    else WithKey(s[1..], key, v)
  }

  function Insert<T>(x: T, s: seq<T>, key: T -> real): seq<T>
    decreases |s|
  {
    if s == [] then [x]
    else if key(x) >= key(s[0]) then [x] + s
    else [s[0]] + Insert(x, s[1..], key)
  }

  /** `sorted(s, key=key, reverse=True)` */
  function SortDesc<T>(s: seq<T>, key: T -> real): seq<T>
    decreases |s|
  {
    if s == [] then [] else Insert(s[0], SortDesc(s[1..], key), key)
  }

  lemma {:induction false} InsertPermutes<T>(x: T, s: seq<T>, key: T -> real)
    ensures multiset(Insert(x, s, key)) == multiset([x] + s)
    ensures |Insert(x, s, key)| == |s| + 1
    decreases |s|
  {
    if s != [] && key(x) < key(s[0]) {
      InsertPermutes(x, s[1..], key);
      assert s == [s[0]] + s[1..];
    }
  }

  /** Inserting a smaller element after the head of a sorted list keeps the head first. */
  lemma HeadDominatesInsert<T>(x: T, s: seq<T>, key: T -> real)
    requires SortedDesc(s, key) && s != [] && key(x) < key(s[0])
    ensures forall j :: 0 <= j < |Insert(x, s[1..], key)| ==> key(s[0]) >= key(Insert(x, s[1..], key)[j])
  {
    var t := s[1..];
    InsertPermutes(x, t, key);
    var r := Insert(x, t, key);
    forall j | 0 <= j < |r| ensures key(s[0]) >= key(r[j]) {
      assert r[j] in multiset([x] + t);
      if r[j] != x {
        var k :| 0 <= k < |t| && t[k] == r[j];
        assert key(s[0]) >= key(s[k + 1]);
      }
    }
  }

  lemma {:induction false} InsertSorted<T>(x: T, s: seq<T>, key: T -> real)
    requires SortedDesc(s, key)
    ensures SortedDesc(Insert(x, s, key), key)
    decreases |s|
  {
    if s != [] && key(x) < key(s[0]) {
      var t := s[1..];
      InsertSorted(x, t, key);
      HeadDominatesInsert(x, s, key);
      var r := Insert(x, t, key);
      var q := [s[0]] + r;
      forall i, j | 0 <= i < j < |q| ensures key(q[i]) >= key(q[j]) {
        if i == 0 {
          assert q[j] == r[j - 1];
        } else {
          assert q[i] == r[i - 1] && q[j] == r[j - 1];
        }
      }
    }
  }

  lemma {:induction false} InsertWithKey<T>(x: T, s: seq<T>, key: T -> real, v: real)
    ensures WithKey(Insert(x, s, key), key, v) == WithKey([x] + s, key, v)
    decreases |s|
  {
    if s != [] && key(x) < key(s[0]) {
      var t := s[1..];
      InsertWithKey(x, t, key, v);
      assert Insert(x, s, key) == [s[0]] + Insert(x, t, key);
      assert ([s[0]] + Insert(x, t, key))[1..] == Insert(x, t, key);
      assert ([x] + s)[1..] == s;
      assert ([x] + t)[1..] == t;
    }
  }

  /** The result of `SortDesc` is ordered, is a permutation of its input, and is stable. */
  lemma {:induction false} SortDescFacts<T>(s: seq<T>, key: T -> real)
    ensures SortedDesc(SortDesc(s, key), key)
    ensures multiset(SortDesc(s, key)) == multiset(s)
    ensures |SortDesc(s, key)| == |s|
    ensures forall v :: WithKey(SortDesc(s, key), key, v) == WithKey(s, key, v)
    decreases |s|
  {
    if s != [] {
      var t := s[1..];
      assert s == [s[0]] + t;
      SortDescFacts(t, key);
      InsertSorted(s[0], SortDesc(t, key), key);
      InsertPermutes(s[0], SortDesc(t, key), key);
      forall v ensures WithKey(SortDesc(s, key), key, v) == WithKey(s, key, v) {
        InsertWithKey(s[0], SortDesc(t, key), key, v);
      }
    }
  }

  /** Every element with key `v` is in `WithKey(s, key, v)`. */
  lemma {:induction false} WithKeyMember<T>(s: seq<T>, key: T -> real, j: int)
    requires 0 <= j < |s|
    ensures s[j] in WithKey(s, key, key(s[j]))
    decreases |s|
  {
    if j > 0 {
      WithKeyMember(s[1..], key, j - 1);
    }
  }

  /** Two elements with the same key keep their relative order in `WithKey`. */
  lemma {:induction false} WithKeyPositions<T>(s: seq<T>, key: T -> real, i: int, j: int)
    requires 0 <= i < j < |s| && key(s[i]) == key(s[j])
    ensures exists a, b ::
              0 <= a < b < |WithKey(s, key, key(s[i]))| &&
              WithKey(s, key, key(s[i]))[a] == s[i] && WithKey(s, key, key(s[i]))[b] == s[j]
    decreases |s|
  {
    var v := key(s[i]);
    var w := WithKey(s, key, v);
    if i == 0 {
      WithKeyMember(s[1..], key, j - 1);
      var rest := WithKey(s[1..], key, v);
      var b :| 0 <= b < |rest| && rest[b] == s[j];
      assert w == [s[0]] + rest;
      assert w[0] == s[i] && w[b + 1] == s[j];
    } else {
      WithKeyPositions(s[1..], key, i - 1, j - 1);
      var rest := WithKey(s[1..], key, v);
      var a, b :| 0 <= a < b < |rest| && rest[a] == s[i] && rest[b] == s[j];
      if key(s[0]) == v {
        assert w == [s[0]] + rest;
        assert w[a + 1] == s[i] && w[b + 1] == s[j];
      } else {
        assert w == rest;
      }
    }
  }

  /** Elements of `WithKey(s, key, v)` in some order occur in `s` in that order. */
  lemma {:induction false} WithKeyOrigins<T>(s: seq<T>, key: T -> real, v: real, a: int, b: int)
    requires 0 <= a < b < |WithKey(s, key, v)|
    ensures exists i, j :: 0 <= i < j < |s| && s[i] == WithKey(s, key, v)[a] && s[j] == WithKey(s, key, v)[b]
    decreases |s|
  {
    var w := WithKey(s, key, v);
    var rest := WithKey(s[1..], key, v);
    if key(s[0]) == v {
      assert w == [s[0]] + rest;
      if a == 0 {
        WithKeyIn(s[1..], key, v, b - 1);
        var j :| 0 <= j < |s[1..]| && s[1..][j] == rest[b - 1];
        assert s[0] == w[a] && s[j + 1] == w[b];
      } else {
        WithKeyOrigins(s[1..], key, v, a - 1, b - 1);
        var i, j :| 0 <= i < j < |s[1..]| && s[1..][i] == rest[a - 1] && s[1..][j] == rest[b - 1];
        assert s[i + 1] == w[a] && s[j + 1] == w[b];
      }
    } else {
      assert w == rest;
      WithKeyOrigins(s[1..], key, v, a, b);
      var i, j :| 0 <= i < j < |s[1..]| && s[1..][i] == rest[a] && s[1..][j] == rest[b];
      assert s[i + 1] == w[a] && s[j + 1] == w[b];
    }
  }

  lemma {:induction false} WithKeyIn<T>(s: seq<T>, key: T -> real, v: real, a: int)
    requires 0 <= a < |WithKey(s, key, v)|
    ensures exists i :: 0 <= i < |s| && s[i] == WithKey(s, key, v)[a]
    decreases |s|
  {
    var w := WithKey(s, key, v);
    var rest := WithKey(s[1..], key, v);
    if key(s[0]) == v && a == 0 {
      assert s[0] == w[0];
    } else {
      var a' := if key(s[0]) == v then a - 1 else a;
      assert w[a] == rest[a'];
      WithKeyIn(s[1..], key, v, a');
      var i :| 0 <= i < |s[1..]| && s[1..][i] == rest[a'];
      assert s[i + 1] == w[a];
    }
  }

  /** Stability as positions: two entries of the sorted list with equal keys come from
      entries of the input in the same order. */
  lemma SortDescTies<T>(s: seq<T>, key: T -> real, i: int, j: int)
    requires 0 <= i < j < |SortDesc(s, key)| && key(SortDesc(s, key)[i]) == key(SortDesc(s, key)[j])
    ensures exists i', j' :: 0 <= i' < j' < |s| && s[i'] == SortDesc(s, key)[i] && s[j'] == SortDesc(s, key)[j]
  {
    var t := SortDesc(s, key);
    var v := key(t[i]);
    SortDescFacts(s, key);
    WithKeyPositions(t, key, i, j);
    var a, b :| 0 <= a < b < |WithKey(t, key, v)| && WithKey(t, key, v)[a] == t[i] && WithKey(t, key, v)[b] == t[j];
    assert WithKey(t, key, v) == WithKey(s, key, v);
    WithKeyOrigins(s, key, v, a, b);
  }
}
