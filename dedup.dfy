/**
  The skill-list normalisation shared by app/agents/jd_context_agent.py and
  app/services/resume_extractor.py: each skill is normalised, and a skill whose
  lower-case form was already seen is dropped, so the first spelling of each skill
  survives.
 */
module Dedup {
  import opened Text
  import opened Collections

  /** The first string of each group of strings that are equal ignoring case. */
  function FirstOccurrences(ys: seq<string>): seq<string>
    decreases |ys|
  {
    if ys == [] then []
    else
      var kept := FirstOccurrences(ys[..|ys| - 1]);
      var y := ys[|ys| - 1];
      if Lower(y) in LowerSet(kept) then kept else kept + [y]
  }

  /** The position of the first string of `ys` whose lower-case form is `key`, or `|ys|`. */
  function FirstIndex(ys: seq<string>, key: string): (i: nat)
    ensures i <= |ys|
    ensures i < |ys| <==> key in LowerSet(ys)
    ensures i < |ys| ==> Lower(ys[i]) == key
    ensures forall j :: 0 <= j < i ==> Lower(ys[j]) != key
    decreases |ys|
  {
    if ys == [] then 0
    else if Lower(ys[0]) == key then 0
    else
      var i := 1 + FirstIndex(ys[1..], key);
      assert forall j :: 0 <= j < |ys| - 1 ==> ys[1..][j] == ys[j + 1];
      assert key in LowerSet(ys[1..]) <==> key in LowerSet(ys) by {
        if key in LowerSet(ys) {
          var s :| s in ys && Lower(s) == key;
          assert s != ys[0];
          assert s in ys[1..];
        }
      }
      i
  }

  lemma LowerSetSnoc(xs: seq<string>, y: string)
    ensures LowerSet(xs + [y]) == LowerSet(xs) + {Lower(y)}
  {
    assert forall s :: s in xs + [y] <==> s in xs || s == y;
  }

  /** Appending a string does not move the first occurrence of a key already present. */
  lemma FirstIndexSnoc(ys: seq<string>, y: string, key: string)
    requires key in LowerSet(ys)
    ensures FirstIndex(ys + [y], key) == FirstIndex(ys, key)
  {
    var zs := ys + [y];
    LowerSetSnoc(ys, y);
    var i := FirstIndex(ys, key);
    var j := FirstIndex(zs, key);
    assert zs[i] == ys[i];
  }

  /** The result is never longer than the input, keeps no two strings equal ignoring
      case, and covers the same lower-case forms. */
  lemma {:induction false} FirstOccurrencesShape(ys: seq<string>)
    ensures |FirstOccurrences(ys)| <= |ys|
    ensures Unique(FirstOccurrences(ys), Lower)
    ensures LowerSet(FirstOccurrences(ys)) == LowerSet(ys)
    decreases |ys|
  {
    if ys != [] {
      var init := ys[..|ys| - 1];
      var y := ys[|ys| - 1];
      assert ys == init + [y];
      FirstOccurrencesShape(init);
      LowerSetSnoc(init, y);
      var kept := FirstOccurrences(init);
      if Lower(y) !in LowerSet(kept) {
        LowerSetSnoc(kept, y);
        UniqueSnoc(kept, y, Lower);
      }
    }
  }

  /** Appending a string does not move the first occurrence of any kept spelling. */
  lemma KeptIndexStable(init: seq<string>, y: string)
    ensures forall k :: 0 <= k < |FirstOccurrences(init)| ==>
      FirstIndex(init + [y], Lower(FirstOccurrences(init)[k])) == FirstIndex(init, Lower(FirstOccurrences(init)[k]))
  {
    FirstOccurrencesShape(init);
    var kept := FirstOccurrences(init);
    forall k | 0 <= k < |kept| ensures FirstIndex(init + [y], Lower(kept[k])) == FirstIndex(init, Lower(kept[k])) {
      assert Lower(kept[k]) in LowerSet(kept);
      FirstIndexSnoc(init, y, Lower(kept[k]));
    }
  }

  /** Each kept spelling is the first occurrence of its class. */
  lemma {:induction false} FirstOccurrencesAreFirst(ys: seq<string>)
    ensures LowerSet(FirstOccurrences(ys)) == LowerSet(ys)
    ensures forall k :: 0 <= k < |FirstOccurrences(ys)| ==>
      ys[FirstIndex(ys, Lower(FirstOccurrences(ys)[k]))] == FirstOccurrences(ys)[k]
    decreases |ys|
  {
    FirstOccurrencesShape(ys);
    if ys != [] {
      var init := ys[..|ys| - 1];
      var y := ys[|ys| - 1];
      assert ys == init + [y];
      FirstOccurrencesAreFirst(init);
      KeptIndexStable(init, y);
      var kept := FirstOccurrences(init);
      var r := FirstOccurrences(ys);
      forall k | 0 <= k < |r| ensures ys[FirstIndex(ys, Lower(r[k]))] == r[k] {
        if k < |kept| {
          assert r[k] == kept[k];
          assert ys[FirstIndex(init, Lower(kept[k]))] == init[FirstIndex(init, Lower(kept[k]))];
        }
      }
    }
  }

  /** The classes appear in the order of their first occurrences. */
  lemma {:induction false} FirstOccurrencesInOrder(ys: seq<string>)
    ensures forall k, l :: 0 <= k < l < |FirstOccurrences(ys)| ==>
      FirstIndex(ys, Lower(FirstOccurrences(ys)[k])) < FirstIndex(ys, Lower(FirstOccurrences(ys)[l]))
    decreases |ys|
  {
    if ys != [] {
      var init := ys[..|ys| - 1];
      var y := ys[|ys| - 1];
      assert ys == init + [y];
      FirstOccurrencesInOrder(init);
      FirstOccurrencesShape(init);
      KeptIndexStable(init, y);
      var kept := FirstOccurrences(init);
      var r := FirstOccurrences(ys);
      if Lower(y) !in LowerSet(kept) {
        assert FirstIndex(ys, Lower(y)) == |init|;
        assert r == kept + [y];
        forall k, l | 0 <= k < l < |r|
          ensures FirstIndex(ys, Lower(r[k])) < FirstIndex(ys, Lower(r[l]))
        {
          assert r[k] == kept[k];
          if l < |kept| {
            assert r[l] == kept[l];
          }
        }
      }
    }
  }

  /** The result is never longer than the input, keeps exactly one spelling of each
      case-insensitive class, that spelling is the class's first occurrence, and the
      classes appear in the order of their first occurrences. */
  lemma FirstOccurrencesFacts(ys: seq<string>)
    ensures |FirstOccurrences(ys)| <= |ys|
    ensures Unique(FirstOccurrences(ys), Lower)
    ensures LowerSet(FirstOccurrences(ys)) == LowerSet(ys)
    ensures forall k :: 0 <= k < |FirstOccurrences(ys)| ==>
      ys[FirstIndex(ys, Lower(FirstOccurrences(ys)[k]))] == FirstOccurrences(ys)[k]
    ensures forall k, l :: 0 <= k < l < |FirstOccurrences(ys)| ==>
      FirstIndex(ys, Lower(FirstOccurrences(ys)[k])) < FirstIndex(ys, Lower(FirstOccurrences(ys)[l]))
  {
    FirstOccurrencesShape(ys);
    FirstOccurrencesAreFirst(ys);
    FirstOccurrencesInOrder(ys);
  }

  /** A list without case-insensitive duplicates is its own de-duplication. */
  lemma {:induction false} FirstOccurrencesOfUnique(ys: seq<string>)
    requires Unique(ys, Lower)
    ensures FirstOccurrences(ys) == ys
    decreases |ys|
  {
    if ys != [] {
      var init := ys[..|ys| - 1];
      var y := ys[|ys| - 1];
      assert Unique(init, Lower) by {
        assert forall i :: 0 <= i < |init| ==> init[i] == ys[i];
      }
      FirstOccurrencesOfUnique(init);
      assert ys == init + [y];
    }
  }

  /** The loop of both `_normalize_skills`: each skill is normalised in turn and appended
      unless its lower-case form is in the set of forms seen so far. */
  method NormalizeAll(skills: seq<string>, norm: string -> string) returns (normalized: seq<string>)
    ensures normalized == FirstOccurrences(Image(norm, skills))
  {
    normalized := [];
    var seen: set<string> := {};
    var i := 0;
    while i < |skills|
      invariant 0 <= i <= |skills|
      invariant normalized == FirstOccurrences(Image(norm, skills[..i]))
      invariant seen == LowerSet(normalized)
    {
      var n := norm(skills[i]);
      assert Image(norm, skills[..i + 1])[..i] == Image(norm, skills[..i]);
      if Lower(n) !in seen {
        LowerSetSnoc(normalized, n);
        seen := seen + {Lower(n)};
        normalized := normalized + [n];
      }
      i := i + 1;
    }
    assert skills[..i] == skills;
  }
}
