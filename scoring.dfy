/**
  Candidate scoring (app/services/scoring_utils.py): skill overlap, experience range,
  semantic similarity from a cosine value, and the weighted final score.

  `round(x, 2)` is the identity here, a norm is zero exactly when every entry is
  (so `math.sqrt` is not needed), and the cosine itself is a parameter.
  Python sets are iterated in the order in which their elements first appear
  in the list they were built from, which is one of the orders Python may use.
 */
module Scoring {
  import opened Wrappers
  import opened Text
  import opened Collections
  import opened Entities

  // ---------------------------------------------------------------- weights

  datatype Weights = Weights(semanticSimilarity: real, skillMatch: real, experienceMatch: real)

  /** `ScoringUtils.DEFAULT_WEIGHTS` */
  const DefaultWeights := Weights(0.4, 0.35, 0.25)

  /** `weights or self.DEFAULT_WEIGHTS`; `None` stands for an absent or empty dictionary. */
  function ConfiguredWeights(given: Option<Weights>): Weights {
    if given.Some? then given.value else DefaultWeights
  }

  /** Non-negative weights whose total is at most one. */
  predicate BoundedWeights(w: Weights) {
    0.0 <= w.semanticSimilarity && 0.0 <= w.skillMatch && 0.0 <= w.experienceMatch
    && w.semanticSimilarity + w.skillMatch + w.experienceMatch <= 1.0
  }

  // ------------------------------------------------------------ skill match

  /** The lower-cased entries of `xs`, each once, in order of first appearance. */
  function DistinctLower(xs: seq<string>): seq<string>
    decreases |xs|
  {
    if xs == [] then []
    else
      var d := DistinctLower(xs[..|xs| - 1]);
      var k := Lower(xs[|xs| - 1]);
      if k in d then d else d + [k]
  }

  /** `{s.lower(): s for s in xs}.get(k, k)`: the last entry whose lower-case form is `k`. */
  function LastVariant(k: string, xs: seq<string>): string
    decreases |xs|
  {
    if xs == [] then k
    else if Lower(xs[|xs| - 1]) == k then xs[|xs| - 1]
    else LastVariant(k, xs[..|xs| - 1])
  }

  /** The keys that are in `s` (when `inside`) or not in `s` (otherwise), in order. */
  function Select(keys: seq<string>, s: set<string>, inside: bool): seq<string>
    decreases |keys|
  {
    if keys == [] then []
    else if (keys[0] in s) == inside then [keys[0]] + Select(keys[1..], s, inside)
    else Select(keys[1..], s, inside)
  }

  /** `get_original(keys, xs)` */
  function Originals(keys: seq<string>, xs: seq<string>): seq<string> {
    seq(|keys|, i requires 0 <= i < |keys| => LastVariant(keys[i], xs))
  }

  /** The job skills of `xs` that are (or are not) in the candidate's set, as reported:
      `get_original(candidate_set & set_of_xs, xs)` or `get_original(set_of_xs - candidate_set, xs)`. */
  function Reported(xs: seq<string>, candidateSet: set<string>, inside: bool): seq<string> {
    Originals(Select(DistinctLower(xs), candidateSet, inside), xs)
  }

  datatype SkillMatch = SkillMatch(
    score: real,
    matchedRequired: seq<string>,
    matchedPreferred: seq<string>,
    missingRequired: seq<string>,
    missingPreferred: seq<string>,
    extraSkills: seq<string>,
    matchPercentage: real)

  function Ratio(n: nat, d: nat, weight: real): real {
    if d == 0 then 0.0 else (n as real / d as real) * weight
  }

  /** `ScoringUtils.calculate_skill_match` */
  function CalculateSkillMatch(candidate: seq<string>, required: seq<string>, preferred: seq<string>): SkillMatch {
    var candidateSet := LowerSet(candidate);
    var requiredSet := LowerSet(required);
    var preferredSet := LowerSet(preferred);
    var allJd := requiredSet + preferredSet;
    var requiredScore := Ratio(|candidateSet * requiredSet|, |requiredSet|, 70.0);
    var preferredScore := Ratio(|candidateSet * preferredSet|, |preferredSet|, 30.0);
    var jdDenominator := if |allJd| > 1 then |allJd| else 1;
    SkillMatch(
      score := requiredScore + preferredScore,
      matchedRequired := Reported(required, candidateSet, true),
      matchedPreferred := Reported(preferred, candidateSet, true),
      missingRequired := Reported(required, candidateSet, false),
      missingPreferred := Reported(preferred, candidateSet, false),
      extraSkills := Select(DistinctLower(candidate), allJd, false),
      matchPercentage := Ratio(|candidateSet * requiredSet| + |candidateSet * preferredSet|, jdDenominator, 100.0))
  }

  // ----------------------------------------------------- skill match lemmas

  lemma {:induction false} DistinctLowerFacts(xs: seq<string>)
    ensures Distinct(DistinctLower(xs))
    ensures Elements(DistinctLower(xs)) == LowerSet(xs)
    ensures |DistinctLower(xs)| == |LowerSet(xs)|
    decreases |xs|
  {
    if xs != [] {
      var t := xs[..|xs| - 1];
      DistinctLowerFacts(t);
      assert xs == t + [xs[|xs| - 1]];
      assert LowerSet(xs) == LowerSet(t) + {Lower(xs[|xs| - 1])};
    }
    DistinctCard(DistinctLower(xs));
  }

  lemma {:induction false} SelectElements(keys: seq<string>, s: set<string>, inside: bool)
    ensures inside ==> Elements(Select(keys, s, inside)) == Elements(keys) * s
    ensures !inside ==> Elements(Select(keys, s, inside)) == Elements(keys) - s
    decreases |keys|
  {
    if keys != [] {
      var rest := keys[1..];
      SelectElements(rest, s, inside);
      assert keys == [keys[0]] + rest;
      assert Elements(keys) == {keys[0]} + Elements(rest);
      if (keys[0] in s) == inside {
        var sel := Select(rest, s, inside);
        assert Elements([keys[0]] + sel) == {keys[0]} + Elements(sel);
      }
    }
  }

  lemma {:induction false} SelectDistinct(keys: seq<string>, s: set<string>, inside: bool)
    requires Distinct(keys)
    ensures Distinct(Select(keys, s, inside))
    decreases |keys|
  {
    if keys != [] {
      var rest := keys[1..];
      assert Distinct(rest);
      SelectDistinct(rest, s, inside);
      if (keys[0] in s) == inside {
        var sel := Select(rest, s, inside);
        SelectElements(rest, s, inside);
        assert keys[0] !in Elements(rest);
        assert keys[0] !in Elements(sel);
        var q := [keys[0]] + sel;
        forall i, j | 0 <= i < j < |q| ensures q[i] != q[j] {
          if i == 0 {
            assert q[j] == sel[j - 1] && q[j] in Elements(sel);
          } else {
            assert q[i] == sel[i - 1] && q[j] == sel[j - 1];
          }
        }
      }
    }
  }

  /** `xs[j]` is the last entry of `xs` whose lower-case form is `k`. */
  predicate IsLastVariant(k: string, xs: seq<string>, j: int) {
    0 <= j < |xs| && Lower(xs[j]) == k && forall i :: j < i < |xs| ==> Lower(xs[i]) != k
  }

  /** The entry `LastVariant` picks is in the list, lower-cases to the key, and no later
      entry does. */
  lemma {:induction false} LastVariantFacts(k: string, xs: seq<string>)
    requires k in LowerSet(xs)
    ensures exists j :: 0 <= j < |xs| && xs[j] == LastVariant(k, xs) && IsLastVariant(k, xs, j)
    decreases |xs|
  {
    var n := |xs| - 1;
    if Lower(xs[n]) == k {
      assert IsLastVariant(k, xs, n);
    } else {
      var t := xs[..n];
      assert xs == t + [xs[n]];
      assert k in LowerSet(t);
      LastVariantFacts(k, t);
      var j :| 0 <= j < |t| && t[j] == LastVariant(k, t) && IsLastVariant(k, t, j);
      assert IsLastVariant(k, xs, j);
    }
  }

  lemma OriginalsFacts(keys: seq<string>, xs: seq<string>)
    requires Elements(keys) <= LowerSet(xs)
    ensures |Originals(keys, xs)| == |keys|
    ensures forall i :: 0 <= i < |keys| ==>
      exists j :: 0 <= j < |xs| && xs[j] == Originals(keys, xs)[i] && IsLastVariant(keys[i], xs, j)
    ensures LowerSet(Originals(keys, xs)) == Elements(keys)
  {
    var o := Originals(keys, xs);
    forall i | 0 <= i < |keys|
      ensures exists j :: 0 <= j < |xs| && xs[j] == o[i] && IsLastVariant(keys[i], xs, j)
    {
      assert keys[i] in Elements(keys);
      LastVariantFacts(keys[i], xs);
    }
    forall k | k in Elements(keys) ensures k in LowerSet(o) {
      var i :| 0 <= i < |keys| && keys[i] == k;
      var j :| 0 <= j < |xs| && xs[j] == o[i] && IsLastVariant(keys[i], xs, j);
      assert Lower(o[i]) == k;
    }
    forall m | m in LowerSet(o) ensures m in Elements(keys) {
      var x :| x in o && Lower(x) == m;
      var i :| 0 <= i < |o| && o[i] == x;
      var j :| 0 <= j < |xs| && xs[j] == o[i] && IsLastVariant(keys[i], xs, j);
    }
  }

  /** A reported list covers exactly the matched (or missing) lower-cased skills, once each. */
  lemma ReportedSets(xs: seq<string>, cs: set<string>, inside: bool)
    ensures var r, want := Reported(xs, cs, inside), if inside then cs * LowerSet(xs) else LowerSet(xs) - cs;
      LowerSet(r) == want && |r| == |want|
  {
    var keys := Select(DistinctLower(xs), cs, inside);
    DistinctLowerFacts(xs);
    SelectElements(DistinctLower(xs), cs, inside);
    SelectDistinct(DistinctLower(xs), cs, inside);
    OriginalsFacts(keys, xs);
    DistinctCard(keys);
  }

  /** A reported list writes every entry as the job's list does, taking the last case variant. */
  lemma ReportedCasing(xs: seq<string>, cs: set<string>, inside: bool)
    ensures var r := Reported(xs, cs, inside);
      forall i :: 0 <= i < |r| ==> exists j :: 0 <= j < |xs| && xs[j] == r[i] && IsLastVariant(Lower(r[i]), xs, j)
  {
    var keys := Select(DistinctLower(xs), cs, inside);
    DistinctLowerFacts(xs);
    SelectElements(DistinctLower(xs), cs, inside);
    OriginalsFacts(keys, xs);
    var r := Originals(keys, xs);
    forall i | 0 <= i < |r|
      ensures exists j :: 0 <= j < |xs| && xs[j] == r[i] && IsLastVariant(Lower(r[i]), xs, j)
    {
      var j :| 0 <= j < |xs| && xs[j] == r[i] && IsLastVariant(keys[i], xs, j);
      assert Lower(r[i]) == keys[i];
    }
  }

  /** The matched and missing lists partition each lower-cased job skill set; the extras
      are the candidate's skills outside both, lower-cased, once each. */
  lemma SkillMatchPartition(candidate: seq<string>, required: seq<string>, preferred: seq<string>)
    ensures var r := CalculateSkillMatch(candidate, required, preferred);
      var cs, rs, ps := LowerSet(candidate), LowerSet(required), LowerSet(preferred);
      && LowerSet(r.matchedRequired) == cs * rs
      && LowerSet(r.missingRequired) == rs - cs
      && LowerSet(r.matchedPreferred) == cs * ps
      && LowerSet(r.missingPreferred) == ps - cs
      && Elements(r.extraSkills) == cs - (rs + ps)
      && Distinct(r.extraSkills)
      && |r.matchedRequired| == |cs * rs| && |r.missingRequired| == |rs - cs|
      && |r.matchedPreferred| == |cs * ps| && |r.missingPreferred| == |ps - cs|
  {
    var cs, rs, ps := LowerSet(candidate), LowerSet(required), LowerSet(preferred);
    ReportedSets(required, cs, true);
    ReportedSets(required, cs, false);
    ReportedSets(preferred, cs, true);
    ReportedSets(preferred, cs, false);
    DistinctLowerFacts(candidate);
    SelectElements(DistinctLower(candidate), rs + ps, false);
    SelectDistinct(DistinctLower(candidate), rs + ps, false);
  }

  /** Every matched or missing entry is written as in the job's list, taking the last
      entry with that lower-case form; every extra is a candidate skill, lower-cased. */
  lemma SkillMatchCasing(candidate: seq<string>, required: seq<string>, preferred: seq<string>)
    ensures var r := CalculateSkillMatch(candidate, required, preferred);
      && (forall i :: 0 <= i < |r.matchedRequired| ==>
            exists j :: 0 <= j < |required| && required[j] == r.matchedRequired[i]
                        && IsLastVariant(Lower(r.matchedRequired[i]), required, j))
      && (forall i :: 0 <= i < |r.missingRequired| ==>
            exists j :: 0 <= j < |required| && required[j] == r.missingRequired[i]
                        && IsLastVariant(Lower(r.missingRequired[i]), required, j))
      && (forall i :: 0 <= i < |r.matchedPreferred| ==>
            exists j :: 0 <= j < |preferred| && preferred[j] == r.matchedPreferred[i]
                        && IsLastVariant(Lower(r.matchedPreferred[i]), preferred, j))
      && (forall i :: 0 <= i < |r.missingPreferred| ==>
            exists j :: 0 <= j < |preferred| && preferred[j] == r.missingPreferred[i]
                        && IsLastVariant(Lower(r.missingPreferred[i]), preferred, j))
      && (forall i :: 0 <= i < |r.extraSkills| ==>
            r.extraSkills[i] in LowerSet(candidate) && Lower(r.extraSkills[i]) == r.extraSkills[i])
  {
    var cs := LowerSet(candidate);
    ExtrasLowered(candidate, LowerSet(required) + LowerSet(preferred));
    assert CalculateSkillMatch(candidate, required, preferred).extraSkills
      == Select(DistinctLower(candidate), LowerSet(required) + LowerSet(preferred), false);
    SkillMatchFields(candidate, required, preferred);
    ReportedCasing(required, cs, true);
    ReportedCasing(required, cs, false);
    ReportedCasing(preferred, cs, true);
    ReportedCasing(preferred, cs, false);
  }

  /** The candidate skills kept as extras are lower-case forms of candidate skills. */
  lemma ExtrasLowered(candidate: seq<string>, jd: set<string>)
    ensures var extras := Select(DistinctLower(candidate), jd, false);
      forall i :: 0 <= i < |extras| ==> extras[i] in LowerSet(candidate) && Lower(extras[i]) == extras[i]
  {
    var extras := Select(DistinctLower(candidate), jd, false);
    DistinctLowerFacts(candidate);
    SelectElements(DistinctLower(candidate), jd, false);
    forall i | 0 <= i < |extras|
      ensures extras[i] in LowerSet(candidate) && Lower(extras[i]) == extras[i]
    {
      assert extras[i] in Elements(extras);
      var x :| x in candidate && Lower(x) == extras[i];
      LowerIdempotent(x);
    }
  }

  lemma RatioBounds(n: nat, d: nat, weight: real)
    requires n <= d && 0.0 <= weight
    ensures 0.0 <= Ratio(n, d, weight) <= weight
    ensures 0.0 < weight ==> (Ratio(n, d, weight) == weight <==> d > 0 && n == d)
  {
    if d > 0 {
      var q := n as real / d as real;
      assert 0.0 <= q <= 1.0;
      assert q * weight <= 1.0 * weight;
      if q * weight == weight && weight != 0.0 {
        assert q == 1.0;
        assert n as real == d as real;
      }
    }
  }

  /** The skill score is 70 points for the share of required skills matched plus 30 for
      the share of preferred ones (each 0 when its list is empty), so it lies in [0,100];
      it is 100 exactly when both lists are non-empty and nothing is missing. */
  lemma SkillScore(candidate: seq<string>, required: seq<string>, preferred: seq<string>)
    ensures var r := CalculateSkillMatch(candidate, required, preferred);
      && r.score == Ratio(|r.matchedRequired|, |r.matchedRequired| + |r.missingRequired|, 70.0)
                    + Ratio(|r.matchedPreferred|, |r.matchedPreferred| + |r.missingPreferred|, 30.0)
      && 0.0 <= r.score <= 100.0
      && (r.score == 100.0 <==> required != [] && preferred != [] && r.missingRequired == [] && r.missingPreferred == [])
  {
    var cs := LowerSet(candidate);
    var r := CalculateSkillMatch(candidate, required, preferred);
    SkillMatchFields(candidate, required, preferred);
    var mr, xr := RatioPart(required, cs, 70.0);
    var mp, xp := RatioPart(preferred, cs, 30.0);
    var a, b := Ratio(mr, mr + xr, 70.0), Ratio(mp, mp + xp, 30.0);
    assert r.score == a + b;
    assert r.missingRequired == [] <==> xr == 0;
    assert r.missingPreferred == [] <==> xp == 0;
  }

  /** How the fields of the skill-match result are built from the reported lists. */
  lemma SkillMatchFields(candidate: seq<string>, required: seq<string>, preferred: seq<string>)
    ensures var r, cs := CalculateSkillMatch(candidate, required, preferred), LowerSet(candidate);
      && r.matchedRequired == Reported(required, cs, true)
      && r.missingRequired == Reported(required, cs, false)
      && r.matchedPreferred == Reported(preferred, cs, true)
      && r.missingPreferred == Reported(preferred, cs, false)
      && r.score == Ratio(|cs * LowerSet(required)|, |LowerSet(required)|, 70.0)
                    + Ratio(|cs * LowerSet(preferred)|, |LowerSet(preferred)|, 30.0)
      && var all := LowerSet(required) + LowerSet(preferred);
         r.matchPercentage == Ratio(|cs * LowerSet(required)| + |cs * LowerSet(preferred)|,
                                    if |all| > 1 then |all| else 1, 100.0)
  {
  }

  /** One job list's share of the skill score, in terms of its reported lists. */
  lemma RatioPart(xs: seq<string>, cs: set<string>, weight: real) returns (matched: nat, missing: nat)
    requires 0.0 < weight
    ensures matched == |Reported(xs, cs, true)| && missing == |Reported(xs, cs, false)|
    ensures Ratio(|cs * LowerSet(xs)|, |LowerSet(xs)|, weight) == Ratio(matched, matched + missing, weight)
    ensures 0.0 <= Ratio(matched, matched + missing, weight) <= weight
    ensures Ratio(matched, matched + missing, weight) == weight <==> xs != [] && missing == 0
  {
    ReportedSets(xs, cs, true);
    ReportedSets(xs, cs, false);
    SplitCard(xs, cs);
    NonEmptyLowerSet(xs);
    matched, missing := |Reported(xs, cs, true)|, |Reported(xs, cs, false)|;
    assert |cs * LowerSet(xs)| == matched && |LowerSet(xs)| == matched + missing;
    RatioBounds(matched, matched + missing, weight);
  }

  lemma SplitCard(xs: seq<string>, cs: set<string>)
    ensures |cs * LowerSet(xs)| + |LowerSet(xs) - cs| == |LowerSet(xs)|
  {
    var xset := LowerSet(xs);
    assert xset == (cs * xset) + (xset - cs) && (cs * xset) !! (xset - cs);
  }

  lemma NonEmptyLowerSet(xs: seq<string>)
    ensures xs != [] <==> LowerSet(xs) != {}
  {
    if xs != [] { assert Lower(xs[0]) in LowerSet(xs); }
  }

  /** Having more skills never lowers the skill score. */
  lemma SkillScoreMonotone(fewer: seq<string>, more: seq<string>, required: seq<string>, preferred: seq<string>)
    requires LowerSet(fewer) <= LowerSet(more)
    ensures CalculateSkillMatch(fewer, required, preferred).score <= CalculateSkillMatch(more, required, preferred).score
  {
    var rs, ps := LowerSet(required), LowerSet(preferred);
    SubsetCard(LowerSet(fewer) * rs, LowerSet(more) * rs);
    SubsetCard(LowerSet(fewer) * ps, LowerSet(more) * ps);
    RatioMonotone(|LowerSet(fewer) * rs|, |LowerSet(more) * rs|, |rs|, 70.0);
    RatioMonotone(|LowerSet(fewer) * ps|, |LowerSet(more) * ps|, |ps|, 30.0);
  }

  lemma RatioMonotone(a: nat, b: nat, d: nat, weight: real)
    requires a <= b && 0.0 <= weight
    ensures Ratio(a, d, weight) <= Ratio(b, d, weight)
  {
    if d > 0 {
      assert a as real / d as real <= b as real / d as real;
    }
  }

  /** With no job skills at all the match percentage is 0. */
  lemma MatchPercentageEmptyJob(candidate: seq<string>)
    ensures CalculateSkillMatch(candidate, [], []).matchPercentage == 0.0
  {
    assert LowerSet([]) == {};
  }

  /** When no skill is both required and preferred the match percentage is at most 100. */
  lemma MatchPercentageDisjoint(candidate: seq<string>, required: seq<string>, preferred: seq<string>)
    requires LowerSet(required) !! LowerSet(preferred)
    ensures 0.0 <= CalculateSkillMatch(candidate, required, preferred).matchPercentage <= 100.0
  {
    SkillMatchFields(candidate, required, preferred);
    SharedSkillsBound(LowerSet(candidate), LowerSet(required), LowerSet(preferred));
  }

  lemma SharedSkillsBound(cs: set<string>, rs: set<string>, ps: set<string>)
    requires rs !! ps
    ensures var all := rs + ps;
      0.0 <= Ratio(|cs * rs| + |cs * ps|, if |all| > 1 then |all| else 1, 100.0) <= 100.0
  {
    var both := (cs * rs) + (cs * ps);
    assert (cs * rs) !! (cs * ps);
    assert |both| == |cs * rs| + |cs * ps|;
    SubsetCard(both, rs + ps);
    RatioBounds(|both|, if |rs + ps| > 1 then |rs + ps| else 1, 100.0);
  }

  /** A skill listed as both required and preferred is counted twice: the match
      percentage can reach 200. */
  lemma MatchPercentageCountsTwice()
    ensures CalculateSkillMatch(["python"], ["Python"], ["python"]).matchPercentage == 200.0
  {
    assert Lower("Python") == "python";
    assert Lower("python") == "python";
    assert LowerSet(["python"]) == {"python"};
    assert LowerSet(["Python"]) == {"python"};
  }

  // ------------------------------------------------------- experience match

  datatype ExperienceStatus = Unknown | NotSpecified | Match | Under | Over

  datatype ExperienceMatch = ExperienceMatch(score: real, status: ExperienceStatus)

  function Max(a: real, b: real): real { if a >= b then a else b }
  function Min(a: real, b: real): real { if a <= b then a else b }

  /** `ScoringUtils.calculate_experience_match` (the message text is left out). */
  function CalculateExperienceMatch(years: Option<real>, requiredMin: Option<real>, requiredMax: Option<real>): ExperienceMatch {
    if years.None? then ExperienceMatch(50.0, Unknown)
    else if requiredMin.None? then ExperienceMatch(75.0, NotSpecified)
    else
      var y, lo := years.value, requiredMin.value;
      var hi := if requiredMax.None? then lo + 5.0 else requiredMax.value;
      if lo <= y && y <= hi then ExperienceMatch(100.0, Match)
      else if y < lo then ExperienceMatch(Max(0.0, 100.0 - (lo - y) * 15.0), Under)
      else ExperienceMatch(Max(70.0, 100.0 - (y - hi) * 5.0), Over)
  }

  /** Unknown candidate years give the neutral 50, an unspecified minimum gives 75, and an
      absent maximum behaves as the minimum plus five years. */
  lemma ExperienceDefaults(years: Option<real>, requiredMin: Option<real>, requiredMax: Option<real>)
    ensures years.None? ==> CalculateExperienceMatch(years, requiredMin, requiredMax) == ExperienceMatch(50.0, Unknown)
    ensures years.Some? && requiredMin.None? ==>
      CalculateExperienceMatch(years, requiredMin, requiredMax) == ExperienceMatch(75.0, NotSpecified)
    ensures requiredMin.Some? ==>
      CalculateExperienceMatch(years, requiredMin, None) == CalculateExperienceMatch(years, requiredMin, Some(requiredMin.value + 5.0))
  {
  }

  /** Every experience score lies in [0,100]; it is 100 exactly for a candidate inside the
      range; candidates below it score under 100, candidates above it at least 70. */
  lemma ExperienceBounds(years: real, requiredMin: real, requiredMax: Option<real>)
    ensures var r := CalculateExperienceMatch(Some(years), Some(requiredMin), requiredMax);
      var hi := if requiredMax.None? then requiredMin + 5.0 else requiredMax.value;
      && 0.0 <= r.score <= 100.0
      && (r.status == Match <==> requiredMin <= years <= hi)
      && (r.status == Under <==> years < requiredMin)
      && (r.status == Over <==> requiredMin <= years && hi < years)
      && (r.score == 100.0 <==> r.status == Match)
      && (r.status == Over ==> 70.0 <= r.score)
  {
  }

  /** Below the range the score never decreases as the years grow; above it the score never
      increases. */
  lemma ExperienceMonotone(y1: real, y2: real, requiredMin: real, requiredMax: Option<real>)
    requires y1 <= y2
    ensures var r1 := CalculateExperienceMatch(Some(y1), Some(requiredMin), requiredMax);
      var r2 := CalculateExperienceMatch(Some(y2), Some(requiredMin), requiredMax);
      && (r1.status == Under && r2.status == Under ==> r1.score <= r2.score)
      && (r1.status == Over && r2.status == Over ==> r1.score >= r2.score)
  {
  }

  // ---------------------------------------------------- semantic similarity

  /** A vector whose Euclidean norm is zero: every entry is zero. */
  predicate ZeroNorm(v: seq<real>) {
    forall i :: 0 <= i < |v| ==> v[i] == 0.0
  }

  /** `not v`, or a zero norm: the cases that give the neutral score. */
  predicate Degenerate(v: seq<real>) {
    v == [] || ZeroNorm(v)
  }

  /** `ScoringUtils.calculate_semantic_similarity`, given the cosine of the two vectors. */
  function CalculateSemanticSimilarity(e1: seq<real>, e2: seq<real>, cosine: (seq<real>, seq<real>) -> real): (r: real)
    ensures 0.0 <= r <= 100.0
    ensures Degenerate(e1) || Degenerate(e2) ==> r == 50.0
  {
    if e1 == [] || e2 == [] then 50.0
    else if ZeroNorm(e1) || ZeroNorm(e2) then 50.0
    else Min(100.0, Max(0.0, (cosine(e1, e2) + 1.0) * 50.0))
  }

  /** For non-degenerate vectors the score maps a cosine in [-1,1] linearly onto [0,100],
      clamps anything outside, and never decreases as the cosine grows. */
  lemma SemanticScale(e1: seq<real>, e2: seq<real>, c1: (seq<real>, seq<real>) -> real, c2: (seq<real>, seq<real>) -> real)
    requires !Degenerate(e1) && !Degenerate(e2)
    ensures -1.0 <= c1(e1, e2) <= 1.0 ==> CalculateSemanticSimilarity(e1, e2, c1) == (c1(e1, e2) + 1.0) * 50.0
    ensures c1(e1, e2) <= -1.0 ==> CalculateSemanticSimilarity(e1, e2, c1) == 0.0
    ensures c1(e1, e2) >= 1.0 ==> CalculateSemanticSimilarity(e1, e2, c1) == 100.0
    ensures c1(e1, e2) <= c2(e1, e2) ==>
      CalculateSemanticSimilarity(e1, e2, c1) <= CalculateSemanticSimilarity(e1, e2, c2)
  {
  }

  // ------------------------------------------------------------ final score

  /** `ScoringUtils.calculate_final_score` */
  function CalculateFinalScore(skill: real, experience: real, semantic: real, w: Weights): real {
    skill * w.skillMatch + experience * w.experienceMatch + semantic * w.semanticSimilarity
  }

  predicate InPercentRange(x: real) { 0.0 <= x <= 100.0 }

  lemma NonNegProduct(x: real, w: real)
    requires 0.0 <= x && 0.0 <= w
    ensures 0.0 <= x * w
  {
  }

  lemma ScaleMonotone(a: real, b: real, w: real)
    requires a <= b && 0.0 <= w
    ensures a * w <= b * w
  {
    assert b * w - a * w == (b - a) * w;
  }

  /** `x * w` for a percentage `x` lies between 0 and `100 * w`. */
  lemma Scaled(x: real, w: real) returns (m: real)
    requires InPercentRange(x) && 0.0 <= w
    ensures m == x * w && 0.0 <= m <= 100.0 * w
  {
    m := x * w;
    NonNegProduct(x, w);
    NonNegProduct(100.0 - x, w);
    assert 100.0 * w - m == (100.0 - x) * w;
  }

  /** With non-negative weights totalling at most one, components in [0,100] give a final
      score in [0,100]. */
  lemma FinalScoreBounds(skill: real, experience: real, semantic: real, w: Weights)
    requires InPercentRange(skill) && InPercentRange(experience) && InPercentRange(semantic)
    requires BoundedWeights(w)
    ensures InPercentRange(CalculateFinalScore(skill, experience, semantic, w))
  {
    var a := Scaled(skill, w.skillMatch);
    var b := Scaled(experience, w.experienceMatch);
    var c := Scaled(semantic, w.semanticSimilarity);
    assert InPercentRange(a + b + c);
  }

  /** Raising a component never lowers the final score. */
  lemma FinalScoreMonotone(s1: real, s2: real, e1: real, e2: real, m1: real, m2: real, w: Weights)
    requires s1 <= s2 && e1 <= e2 && m1 <= m2 && BoundedWeights(w)
    ensures CalculateFinalScore(s1, e1, m1, w) <= CalculateFinalScore(s2, e2, m2, w)
  {
    var a1, a2 := s1 * w.skillMatch, s2 * w.skillMatch;
    var b1, b2 := e1 * w.experienceMatch, e2 * w.experienceMatch;
    var c1, c2 := m1 * w.semanticSimilarity, m2 * w.semanticSimilarity;
    ScaleMonotone(s1, s2, w.skillMatch);
    ScaleMonotone(e1, e2, w.experienceMatch);
    ScaleMonotone(m1, m2, w.semanticSimilarity);
    assert a1 + b1 + c1 <= a2 + b1 + c1;
    assert a2 + b1 + c1 <= a2 + b2 + c1;
    assert a2 + b2 + c1 <= a2 + b2 + c2;
    assert CalculateFinalScore(s1, e1, m1, w) == a1 + b1 + c1;
    assert CalculateFinalScore(s2, e2, m2, w) == a2 + b2 + c2;
  }

  /** The default weights are non-negative and total exactly one. */
  lemma DefaultWeightsBounded()
    ensures BoundedWeights(DefaultWeights)
    ensures DefaultWeights.semanticSimilarity + DefaultWeights.skillMatch + DefaultWeights.experienceMatch == 1.0
  {
  }

  // -------------------------------------------------------- full breakdown

  datatype ScoreBreakdown = ScoreBreakdown(
    overallScore: real,
    skillMatch: SkillMatch,
    experienceMatch: ExperienceMatch,
    semanticSimilarity: real,
    weightsUsed: Weights)

  /** `ScoringUtils.score_candidate` with the configured weights `w`. */
  function ScoreCandidate(
    w: Weights, candidate: Candidate, job: JobContext,
    candidateEmbedding: Option<seq<real>>, jobEmbedding: Option<seq<real>>,
    cosine: (seq<real>, seq<real>) -> real): (r: ScoreBreakdown)
    ensures !(TruthySeq(candidateEmbedding) && TruthySeq(jobEmbedding)) ==> r.semanticSimilarity == 50.0
    ensures InPercentRange(r.skillMatch.score) && InPercentRange(r.experienceMatch.score)
    ensures InPercentRange(r.semanticSimilarity)
    ensures BoundedWeights(w) ==> InPercentRange(r.overallScore)
    ensures r.weightsUsed == w
  {
    var skill := CalculateSkillMatch(candidate.skills, job.requiredSkills, job.preferredSkills);
    var experience := CalculateExperienceMatch(candidate.totalExperienceYears, job.experienceMinYears, job.experienceMaxYears);
    var semantic :=
      if TruthySeq(candidateEmbedding) && TruthySeq(jobEmbedding)
      then CalculateSemanticSimilarity(candidateEmbedding.value, jobEmbedding.value, cosine)
      else 50.0;
    SkillScore(candidate.skills, job.requiredSkills, job.preferredSkills);
    ExperienceScoreBounds(candidate.totalExperienceYears, job.experienceMinYears, job.experienceMaxYears);
    var overall := CalculateFinalScore(skill.score, experience.score, semantic, w);
    OverallBounds(skill.score, experience.score, semantic, w);
    ScoreBreakdown(overall, skill, experience, semantic, w)
  }

  lemma OverallBounds(skill: real, experience: real, semantic: real, w: Weights)
    requires InPercentRange(skill) && InPercentRange(experience) && InPercentRange(semantic)
    ensures BoundedWeights(w) ==> InPercentRange(CalculateFinalScore(skill, experience, semantic, w))
  {
    if BoundedWeights(w) {
      FinalScoreBounds(skill, experience, semantic, w);
    }
  }

  lemma ExperienceScoreBounds(years: Option<real>, requiredMin: Option<real>, requiredMax: Option<real>)
    ensures InPercentRange(CalculateExperienceMatch(years, requiredMin, requiredMax).score)
  {
    if years.Some? && requiredMin.Some? {
      ExperienceBounds(years.value, requiredMin.value, requiredMax);
    }
  }
}
