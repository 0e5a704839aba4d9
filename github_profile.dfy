/**
  The aggregation of `analyze_github_profile` in app/agents/resume_analysis_agent.py:
  over the repositories fetched for a user, forks are skipped, languages are counted in
  an insertion-ordered dictionary, stars are summed and each repository is summarised;
  the languages are then ranked by count. The fetched data are inputs.
 */
module GithubProfile {
  import opened Wrappers
  import opened Collections
  import opened Sorting
  import opened Entities

  /** The fields of one repository object of the GitHub API that the agent reads;
      `stars` is `stargazers_count`, 0 when absent. */
  datatype Repo = Repo(
    name: Option<string>,
    fork: bool,
    language: Option<string>,
    stars: nat,
    description: Option<string>,
    htmlUrl: Option<string>)

  predicate NotFork(r: Repo) {
    !r.fork
  }

  /** The non-fork repositories, in order. */
  function Owned(repos: seq<Repo>): (r: seq<Repo>)
    ensures forall x :: x in r ==> !x.fork
  {
    FilterMembers(repos, NotFork);
    Filter(repos, NotFork)
  }

  // ------------------------------------------------------------------ counting

  /** The number of repositories whose language is `lang`. */
  function Count(rs: seq<Repo>, lang: string): nat
    decreases |rs|
  {
    if rs == [] then 0
    else Count(rs[..|rs| - 1], lang) + (if rs[|rs| - 1].language == Some(lang) then 1 else 0)
  }

  /** The position of the first repository whose language is `lang`, or `|rs|`. */
  function FirstWith(rs: seq<Repo>, lang: string): (i: nat)
    ensures i <= |rs|
    ensures i < |rs| ==> rs[i].language == Some(lang)
    ensures forall j :: 0 <= j < i ==> rs[j].language != Some(lang)
    decreases |rs|
  {
    if rs == [] then 0
    else if rs[0].language == Some(lang) then 0
    else
      assert forall j :: 0 <= j < |rs| - 1 ==> rs[1..][j] == rs[j + 1];
      1 + FirstWith(rs[1..], lang)
  }

  /** `languages[lang] = languages.get(lang, 0) + 1` on an insertion-ordered dictionary. */
  function Bump(d: seq<(string, nat)>, lang: string): seq<(string, nat)>
    decreases |d|
  {
    if d == [] then [(lang, 1)]
    else if d[0].0 == lang then [(lang, d[0].1 + 1)] + d[1..]
    else [d[0]] + Bump(d[1..], lang)
  }

  /** The keys of a dictionary, in insertion order. */
  function Keys(d: seq<(string, nat)>): (ks: seq<string>)
    ensures |ks| == |d| && forall i :: 0 <= i < |d| ==> ks[i] == d[i].0
  {
    seq(|d|, i requires 0 <= i < |d| => d[i].0)
  }

  /** The `languages` dictionary after counting `rs`: each truthy language is bumped. */
  function Tally(rs: seq<Repo>): seq<(string, nat)>
    decreases |rs|
  {
    if rs == [] then []
    else
      var d := Tally(rs[..|rs| - 1]);
      var r := rs[|rs| - 1];
      if Truthy(r.language) then Bump(d, r.language.value) else d
  }

  /** Bumping a key that is present keeps the keys of a dictionary. */
  lemma {:induction false} BumpKeepsKeys(d: seq<(string, nat)>, lang: string)
    requires lang in Keys(d)
    ensures Keys(Bump(d, lang)) == Keys(d)
    decreases |d|
  {
    if d[0].0 != lang {
      assert Keys(d) == [d[0].0] + Keys(d[1..]);
      BumpKeepsKeys(d[1..], lang);
      assert Keys(Bump(d, lang)) == [d[0].0] + Keys(Bump(d[1..], lang));
    } else {
      assert Keys(Bump(d, lang)) == Keys(d);
    }
  }

  /** Bumping a new key appends it with the count one. */
  lemma {:induction false} BumpAppends(d: seq<(string, nat)>, lang: string)
    requires lang !in Keys(d)
    ensures Bump(d, lang) == d + [(lang, 1)]
    decreases |d|
  {
    if d != [] {
      assert Keys(d) == [d[0].0] + Keys(d[1..]);
      BumpAppends(d[1..], lang);
      assert d == [d[0]] + d[1..];
    }
  }

  /** A bump keeps the keys of a dictionary, or appends a new one. */
  lemma BumpKeys(d: seq<(string, nat)>, lang: string)
    ensures lang in Keys(d) ==> Keys(Bump(d, lang)) == Keys(d)
    ensures lang !in Keys(d) ==> Bump(d, lang) == d + [(lang, 1)]
  {
    if lang in Keys(d) {
      BumpKeepsKeys(d, lang);
    } else {
      BumpAppends(d, lang);
    }
  }

  /** On distinct keys, a bump increments the entry with that key and leaves the others. */
  lemma BumpEntries(d: seq<(string, nat)>, lang: string)
    requires Distinct(Keys(d))
    ensures |Bump(d, lang)| >= |d|
    ensures forall i :: 0 <= i < |d| ==>
      Bump(d, lang)[i] == (if d[i].0 == lang then (lang, d[i].1 + 1) else d[i])
  {
    BumpLength(d, lang);
    forall i | 0 <= i < |d|
      ensures Bump(d, lang)[i] == (if d[i].0 == lang then (lang, d[i].1 + 1) else d[i])
    {
      BumpEntry(d, lang, i);
    }
  }

  lemma {:induction false} BumpLength(d: seq<(string, nat)>, lang: string)
    ensures |Bump(d, lang)| >= |d|
    decreases |d|
  {
    if d != [] && d[0].0 != lang {
      BumpLength(d[1..], lang);
    }
  }

  lemma {:induction false} BumpEntry(d: seq<(string, nat)>, lang: string, i: nat)
    requires Distinct(Keys(d)) && i < |d|
    ensures i < |Bump(d, lang)|
    ensures Bump(d, lang)[i] == (if d[i].0 == lang then (lang, d[i].1 + 1) else d[i])
    decreases i
  {
    BumpLength(d, lang);
    if d[0].0 == lang {
      if i > 0 {
        assert Keys(d)[i] != Keys(d)[0];
      }
    } else if i > 0 {
      assert Keys(d[1..]) == Keys(d)[1..];
      BumpEntry(d[1..], lang, i - 1);
    }
  }

  /** What the dictionary says about `rs`: distinct non-empty keys, each with its count,
      every counted language present, keys in order of first appearance. */
  ghost predicate Tallies(rs: seq<Repo>, d: seq<(string, nat)>) {
    && Distinct(Keys(d))
    && (forall i :: 0 <= i < |d| ==> d[i].0 != "" && d[i].1 == Count(rs, d[i].0) && FirstWith(rs, d[i].0) < |rs|)
    && (forall lang :: lang in Keys(d) <==> lang != "" && Count(rs, lang) > 0)
    && (forall i, j :: 0 <= i < j < |d| ==> FirstWith(rs, d[i].0) < FirstWith(rs, d[j].0))
  }

  lemma CountSnoc(rs: seq<Repo>, r: Repo, lang: string)
    ensures Count(rs + [r], lang) == Count(rs, lang) + (if r.language == Some(lang) then 1 else 0)
  {
    assert (rs + [r])[..|rs|] == rs;
  }

  /** A language counted in `rs` first appears in `rs`, and appending keeps that position. */
  lemma {:induction false} CountFirst(rs: seq<Repo>, lang: string)
    ensures Count(rs, lang) > 0 <==> FirstWith(rs, lang) < |rs|
    decreases |rs|
  {
    if rs != [] {
      var init := rs[..|rs| - 1];
      CountFirst(init, lang);
      assert rs == init + [rs[|rs| - 1]];
      if Count(init, lang) > 0 {
        assert rs[FirstWith(init, lang)] == init[FirstWith(init, lang)];
      }
    }
  }

  lemma FirstWithSnoc(rs: seq<Repo>, r: Repo, lang: string)
    ensures FirstWith(rs, lang) < |rs| ==> FirstWith(rs + [r], lang) == FirstWith(rs, lang)
    ensures FirstWith(rs, lang) == |rs| ==> FirstWith(rs + [r], lang) == if r.language == Some(lang) then |rs| else |rs| + 1
  {
    var i := FirstWith(rs, lang);
    var s := rs + [r];
    var j := FirstWith(s, lang);
    if i < |rs| {
      assert s[i] == rs[i];
    } else if r.language == Some(lang) {
      assert s[|rs|] == r;
    }
  }

  /** One more repository that adds no count keeps the dictionary's meaning. */
  lemma TallyStepSkip(rs: seq<Repo>, r: Repo, d: seq<(string, nat)>)
    requires Tallies(rs, d) && !Truthy(r.language)
    ensures Tallies(rs + [r], d)
  {
    forall lang | lang != "" ensures Count(rs + [r], lang) == Count(rs, lang) {
      CountSnoc(rs, r, lang);
    }
    forall i | 0 <= i < |d| ensures FirstWith(rs + [r], d[i].0) == FirstWith(rs, d[i].0) {
      FirstWithSnoc(rs, r, d[i].0);
    }
    forall lang ensures lang in Keys(d) <==> lang != "" && Count(rs + [r], lang) > 0 {
      CountSnoc(rs, r, lang);
    }
  }

  /** One more repository with a language not yet counted appends it with count 1. */
  lemma TallyStepNew(rs: seq<Repo>, r: Repo, d: seq<(string, nat)>)
    requires Tallies(rs, d) && Truthy(r.language) && r.language.value !in Keys(d)
    ensures Tallies(rs + [r], d + [(r.language.value, 1)])
  {
    var lang := r.language.value;
    var e := d + [(lang, 1)];
    var rs' := rs + [r];
    forall x ensures Count(rs', x) == Count(rs, x) + (if x == lang then 1 else 0) {
      CountSnoc(rs, r, x);
    }
    forall i | 0 <= i < |d| ensures FirstWith(rs', d[i].0) == FirstWith(rs, d[i].0) {
      FirstWithSnoc(rs, r, d[i].0);
    }
    CountFirst(rs, lang);
    FirstWithSnoc(rs, r, lang);
    assert Keys(e) == Keys(d) + [lang];
    forall i | 0 <= i < |e|
      ensures e[i].0 != "" && e[i].1 == Count(rs', e[i].0) && FirstWith(rs', e[i].0) < |rs'|
    {
      if i < |d| {
        assert e[i] == d[i];
        assert e[i].0 in Keys(d);
      }
    }
    forall i, j | 0 <= i < j < |e| ensures FirstWith(rs', e[i].0) < FirstWith(rs', e[j].0) {
      assert e[i] == d[i];
      if j < |d| {
        assert e[j] == d[j];
      }
    }
  }

  /** One more repository with a language already counted increments its entry. */
  lemma TallyStepOld(rs: seq<Repo>, r: Repo, d: seq<(string, nat)>)
    requires Tallies(rs, d) && Truthy(r.language) && r.language.value in Keys(d)
    ensures Tallies(rs + [r], Bump(d, r.language.value))
  {
    var lang := r.language.value;
    var e := Bump(d, lang);
    var rs' := rs + [r];
    BumpKeys(d, lang);
    BumpEntries(d, lang);
    forall x ensures Count(rs', x) == Count(rs, x) + (if x == lang then 1 else 0) {
      CountSnoc(rs, r, x);
    }
    forall i | 0 <= i < |d| ensures FirstWith(rs', d[i].0) == FirstWith(rs, d[i].0) {
      FirstWithSnoc(rs, r, d[i].0);
    }
    forall i | 0 <= i < |e|
      ensures e[i].0 != "" && e[i].1 == Count(rs', e[i].0) && FirstWith(rs', e[i].0) < |rs'|
    {
      assert e[i].0 == d[i].0;
    }
    forall i, j | 0 <= i < j < |e| ensures FirstWith(rs', e[i].0) < FirstWith(rs', e[j].0) {
      assert e[i].0 == d[i].0 && e[j].0 == d[j].0;
    }
  }

  /** The dictionary `Tally(rs)` counts `rs` exactly. */
  lemma {:induction false} TallyFacts(rs: seq<Repo>)
    ensures Tallies(rs, Tally(rs))
    decreases |rs|
  {
    if rs != [] {
      var init := rs[..|rs| - 1];
      var r := rs[|rs| - 1];
      TallyFacts(init);
      assert rs == init + [r];
      if Truthy(r.language) && r.language.value in Keys(Tally(init)) {
        TallyStepOld(init, r, Tally(init));
      } else if Truthy(r.language) {
        BumpKeys(Tally(init), r.language.value);
        TallyStepNew(init, r, Tally(init));
      } else {
        TallyStepSkip(init, r, Tally(init));
      }
    }
  }

  // ------------------------------------------------------------------ ranking

  function CountKey(entry: (string, nat)): real {
    entry.1 as real
  }

  /** `[lang for lang, _ in sorted(languages.items(), key=lambda x: -x[1])[:8]]`:
      Python's sort is stable, so a descending stable sort by count. */
  function TopLanguages(rs: seq<Repo>): seq<string> {
    Keys(PyPrefix(SortDesc(Tally(rs), CountKey), 8))
  }

  /** The sorted dictionary still holds one entry per language, with its count. */
  lemma SortedTallyFacts(rs: seq<Repo>)
    ensures Distinct(Keys(SortDesc(Tally(rs), CountKey)))
    ensures forall i :: 0 <= i < |SortDesc(Tally(rs), CountKey)| ==>
      SortDesc(Tally(rs), CountKey)[i] in Tally(rs)
  {
    var d := Tally(rs);
    var t := SortDesc(d, CountKey);
    TallyFacts(rs);
    SortDescFacts(d, CountKey);
    forall i | 0 <= i < |t| ensures t[i] in d {
      assert t[i] in multiset(t);
    }
    assert Distinct(d) by {
      forall i, j | 0 <= i < j < |d| ensures d[i] != d[j] {
        assert Keys(d)[i] != Keys(d)[j];
      }
    }
    PermutationOfDistinct(d, t);
    forall i, j | 0 <= i < j < |t| ensures Keys(t)[i] != Keys(t)[j] {
      var a :| 0 <= a < |d| && d[a] == t[i];
      var b :| 0 <= b < |d| && d[b] == t[j];
    }
  }

  /** Each entry of the sorted dictionary is a counted language with its count. */
  lemma SortedEntries(rs: seq<Repo>)
    ensures forall i :: 0 <= i < |SortDesc(Tally(rs), CountKey)| ==>
      SortDesc(Tally(rs), CountKey)[i].0 != "" &&
      SortDesc(Tally(rs), CountKey)[i].1 == Count(rs, SortDesc(Tally(rs), CountKey)[i].0)
  {
    var d := Tally(rs);
    var t := SortDesc(d, CountKey);
    TallyFacts(rs);
    SortedTallyFacts(rs);
    forall i | 0 <= i < |t| ensures t[i].0 != "" && t[i].1 == Count(rs, t[i].0) {
      var a :| 0 <= a < |d| && d[a] == t[i];
    }
  }

  /** At most eight distinct counted languages, by non-increasing count. */
  lemma TopLanguagesFacts(rs: seq<Repo>)
    ensures |TopLanguages(rs)| <= 8
    ensures Distinct(TopLanguages(rs))
    ensures forall i :: 0 <= i < |TopLanguages(rs)| ==>
      TopLanguages(rs)[i] != "" && Count(rs, TopLanguages(rs)[i]) > 0
    ensures forall i, j :: 0 <= i < j < |TopLanguages(rs)| ==>
      Count(rs, TopLanguages(rs)[i]) >= Count(rs, TopLanguages(rs)[j])
  {
    var d := Tally(rs);
    var t := SortDesc(d, CountKey);
    var top := TopLanguages(rs);
    SortDescFacts(d, CountKey);
    SortedTallyFacts(rs);
    SortedEntries(rs);
    assert forall i :: 0 <= i < |top| ==> top[i] == t[i].0;
    TallyFacts(rs);
    forall i | 0 <= i < |top| ensures Count(rs, top[i]) > 0 {
      var a :| 0 <= a < |d| && d[a] == t[i];
      assert Keys(d)[a] == top[i];
    }
    forall i, j | 0 <= i < j < |top| ensures top[i] != top[j] {
      assert Keys(t)[i] != Keys(t)[j];
    }
    forall i, j | 0 <= i < j < |top| ensures Count(rs, top[i]) >= Count(rs, top[j]) {
      assert CountKey(t[i]) >= CountKey(t[j]);
    }
  }

  /** Languages with equal counts keep their order of first appearance. */
  lemma TopLanguagesTies(rs: seq<Repo>)
    ensures forall i, j :: 0 <= i < j < |TopLanguages(rs)| && Count(rs, TopLanguages(rs)[i]) == Count(rs, TopLanguages(rs)[j]) ==>
      FirstWith(rs, TopLanguages(rs)[i]) < FirstWith(rs, TopLanguages(rs)[j])
  {
    var d := Tally(rs);
    var t := SortDesc(d, CountKey);
    var top := TopLanguages(rs);
    TallyFacts(rs);
    SortDescFacts(d, CountKey);
    SortedEntries(rs);
    forall i, j | 0 <= i < j < |top| && Count(rs, top[i]) == Count(rs, top[j])
      ensures FirstWith(rs, top[i]) < FirstWith(rs, top[j])
    {
      assert top[i] == t[i].0 && top[j] == t[j].0;
      SortDescTies(d, CountKey, i, j);
      var a, b :| 0 <= a < b < |d| && d[a] == t[i] && d[b] == t[j];
    }
  }

  /** Where a counted language sits in the sorted dictionary. */
  lemma SortedPosition(rs: seq<Repo>, lang: string) returns (m: nat)
    requires lang != "" && Count(rs, lang) > 0
    ensures m < |SortDesc(Tally(rs), CountKey)|
    ensures SortDesc(Tally(rs), CountKey)[m] == (lang, Count(rs, lang))
  {
    var d := Tally(rs);
    var t := SortDesc(d, CountKey);
    TallyFacts(rs);
    SortDescFacts(d, CountKey);
    assert lang in Keys(d);
    var a :| 0 <= a < |d| && d[a].0 == lang;
    assert d[a] in multiset(t);
    m :| 0 <= m < |t| && t[m] == d[a];
  }

  /** A counted language is left out only when eight others are at least as frequent. */
  lemma TopLanguagesMostFrequent(rs: seq<Repo>, lang: string)
    requires lang != "" && Count(rs, lang) > 0 && lang !in TopLanguages(rs)
    ensures |TopLanguages(rs)| == 8
    ensures forall i :: 0 <= i < 8 ==> Count(rs, TopLanguages(rs)[i]) >= Count(rs, lang)
  {
    var t := SortDesc(Tally(rs), CountKey);
    var top := TopLanguages(rs);
    var m := SortedPosition(rs, lang);
    assert m >= 8;
    SortDescFacts(Tally(rs), CountKey);
    SortedEntries(rs);
    forall i | 0 <= i < 8 ensures Count(rs, top[i]) >= Count(rs, lang) {
      assert top[i] == t[i].0;
      assert CountKey(t[i]) >= CountKey(t[m]);
    }
  }

  // ------------------------------------------------------------------ repositories

  /** The per-repository summary kept by the agent. */
  datatype RepoSummary = RepoSummary(
    name: Option<string>,
    description: string,
    language: Option<string>,
    stars: nat,
    url: Option<string>)

  /** A repository's summary: its description cut to 100 characters, "" when absent. */
  function Summarize(r: Repo): (s: RepoSummary)
    ensures |s.description| <= 100
    ensures Truthy(r.description) ==>
              |s.description| == (if |r.description.value| < 100 then |r.description.value| else 100) &&
              s.description == r.description.value[..|s.description|]
    ensures !Truthy(r.description) ==> s.description == ""
    ensures s.name == r.name && s.language == r.language && s.stars == r.stars && s.url == r.htmlUrl
  {
    RepoSummary(r.name, if Truthy(r.description) then PyPrefix(r.description.value, 100) else "",
                r.language, r.stars, r.htmlUrl)
  }

  function Summaries(rs: seq<Repo>): (ss: seq<RepoSummary>)
    ensures |ss| == |rs| && forall i :: 0 <= i < |rs| ==> ss[i] == Summarize(rs[i])
  {
    seq(|rs|, i requires 0 <= i < |rs| => Summarize(rs[i]))
  }

  /** The sum of the repositories' star counts. */
  function StarTotal(rs: seq<Repo>): nat
    decreases |rs|
  {
    if rs == [] then 0 else StarTotal(rs[..|rs| - 1]) + rs[|rs| - 1].stars
  }

  /** Star totals and language counts add up over concatenation. */
  lemma {:induction false} TotalsAppend(a: seq<Repo>, b: seq<Repo>, lang: string)
    ensures StarTotal(a + b) == StarTotal(a) + StarTotal(b)
    ensures Count(a + b, lang) == Count(a, lang) + Count(b, lang)
    decreases |b|
  {
    if b == [] {
      assert a + b == a;
    } else {
      var init := b[..|b| - 1];
      TotalsAppend(a, init, lang);
      assert (a + b)[..|a + b| - 1] == a + init;
    }
  }

  /** Removing forks removes nothing from `Owned`; a fork anywhere changes nothing. */
  lemma ForkIgnored(a: seq<Repo>, f: Repo, b: seq<Repo>)
    requires f.fork
    ensures Owned(a + [f] + b) == Owned(a + b)
  {
    FilterAppend(a + [f], b, NotFork);
    FilterAppend(a, [f], NotFork);
    FilterAppend(a, b, NotFork);
  }

  lemma OwnedSnoc(repos: seq<Repo>, i: int)
    requires 0 <= i < |repos|
    ensures Owned(repos[..i + 1]) == Owned(repos[..i]) + (if repos[i].fork then [] else [repos[i]])
  {
    assert repos[..i + 1] == repos[..i] + [repos[i]];
    FilterAppend(repos[..i], [repos[i]], NotFork);
  }

  lemma AggregateSnoc(rs: seq<Repo>, r: Repo)
    ensures Tally(rs + [r]) == if Truthy(r.language) then Bump(Tally(rs), r.language.value) else Tally(rs)
    ensures StarTotal(rs + [r]) == StarTotal(rs) + r.stars
    ensures Summaries(rs + [r]) == Summaries(rs) + [Summarize(r)]
  {
    assert (rs + [r])[..|rs|] == rs;
  }

  /** One iteration of the counting loop, on the totals of the repositories so far. */
  lemma AggregateStep(repos: seq<Repo>, i: int)
    requires 0 <= i < |repos|
    ensures var before, after, r := Owned(repos[..i]), Owned(repos[..i + 1]), repos[i];
      && (r.fork ==> after == before)
      && (!r.fork ==>
            && Tally(after) == (if Truthy(r.language) then Bump(Tally(before), r.language.value) else Tally(before))
            && StarTotal(after) == StarTotal(before) + r.stars
            && Summaries(after) == Summaries(before) + [Summarize(r)])
  {
    OwnedSnoc(repos, i);
    if !repos[i].fork {
      AggregateSnoc(Owned(repos[..i]), repos[i]);
    } else {
      assert Owned(repos[..i + 1]) == Owned(repos[..i]) + [];
    }
  }

  /** The counting loop of `analyze_github_profile`: forks are skipped; each other
      repository bumps its truthy language, adds its stars and is summarised. */
  method Aggregate(repos: seq<Repo>) returns (languages: seq<(string, nat)>, totalStars: nat, summaries: seq<RepoSummary>)
    ensures languages == Tally(Owned(repos))
    ensures totalStars == StarTotal(Owned(repos))
    ensures summaries == Summaries(Owned(repos))
  {
    languages, totalStars, summaries := [], 0, [];
    var i := 0;
    while i < |repos|
      invariant 0 <= i <= |repos|
      invariant languages == Tally(Owned(repos[..i]))
      invariant totalStars == StarTotal(Owned(repos[..i]))
      invariant summaries == Summaries(Owned(repos[..i]))
    {
      var repo := repos[i];
      AggregateStep(repos, i);
      if !repo.fork {
        if Truthy(repo.language) {
          languages := Bump(languages, repo.language.value);
        }
        totalStars := totalStars + repo.stars;
        summaries := summaries + [Summarize(repo)];
      }
      i := i + 1;
    }
    assert repos[..i] == repos;
  }

  // ------------------------------------------------------------------ the analysis

  /** The fields of the GitHub user object that the analysis copies. */
  datatype Profile = Profile(
    name: Option<string>,
    bio: Option<string>,
    company: Option<string>,
    location: Option<string>,
    publicRepos: int,
    followers: int,
    following: int,
    createdAt: Option<string>)

  /** The analysis dictionary of a successful `analyze_github_profile`. */
  datatype GithubAnalysis = GithubAnalysis(
    username: string,
    url: string,
    name: Option<string>,
    bio: Option<string>,
    company: Option<string>,
    location: Option<string>,
    publicRepos: int,
    followers: int,
    following: int,
    totalStars: nat,
    topLanguages: seq<string>,
    topRepos: seq<RepoSummary>,
    createdAt: Option<string>)

  /** The analysis built from a profile and its repositories. */
  function AnalysisOf(githubUrl: string, username: string, profile: Profile, repos: seq<Repo>): GithubAnalysis {
    var owned := Owned(repos);
    GithubAnalysis(username, githubUrl, profile.name, profile.bio, profile.company, profile.location,
                   profile.publicRepos, profile.followers, profile.following,
                   StarTotal(owned), TopLanguages(owned), PyPrefix(Summaries(owned), 5), profile.createdAt)
  }

  /** `analyze_github_profile`, given what `extract_github_username` found in the URL, the
      fetched profile (`None` when the fetch failed) and the fetched repositories (empty
      when that fetch failed). The error dictionary becomes `Err` with its message. */
  method AnalyzeGithubProfile(githubUrl: string, username: Option<string>, profile: Option<Profile>, repos: seq<Repo>)
    returns (r: Result<GithubAnalysis, string>)
    ensures !Truthy(username) ==> r == Err("Invalid GitHub URL")
    ensures Truthy(username) && profile.None? ==> r == Err("Could not fetch GitHub profile")
    ensures Truthy(username) && profile.Some? ==> r == Ok(AnalysisOf(githubUrl, username.value, profile.value, repos))
  {
    if !Truthy(username) {
      return Err("Invalid GitHub URL");
    }
    if profile.None? {
      return Err("Could not fetch GitHub profile");
    }
    var p := profile.value;
    var languages, totalStars, summaries := Aggregate(repos);
    var top := Keys(PyPrefix(SortDesc(languages, CountKey), 8));
    r := Ok(GithubAnalysis(username.value, githubUrl, p.name, p.bio, p.company, p.location,
                           p.publicRepos, p.followers, p.following,
                           totalStars, top, PyPrefix(summaries, 5), p.createdAt));
  }

  /** What a successful analysis reports: at most five summaries of the first non-fork
      repositories, each description at most 100 characters, at most eight languages,
      and the stars of the non-fork repositories, additively. */
  lemma AnalysisFacts(githubUrl: string, username: string, profile: Profile, a: seq<Repo>, b: seq<Repo>)
    ensures |AnalysisOf(githubUrl, username, profile, a + b).topRepos| <= 5
    ensures forall k :: 0 <= k < |AnalysisOf(githubUrl, username, profile, a + b).topRepos| ==>
      AnalysisOf(githubUrl, username, profile, a + b).topRepos[k] == Summarize(Owned(a + b)[k])
    ensures forall k :: 0 <= k < |AnalysisOf(githubUrl, username, profile, a + b).topRepos| ==>
      |AnalysisOf(githubUrl, username, profile, a + b).topRepos[k].description| <= 100
    ensures |AnalysisOf(githubUrl, username, profile, a + b).topLanguages| <= 8
    ensures AnalysisOf(githubUrl, username, profile, a + b).totalStars == StarTotal(Owned(a)) + StarTotal(Owned(b))
  {
    FilterAppend(a, b, NotFork);
    TotalsAppend(Owned(a), Owned(b), "");
    TopLanguagesFacts(Owned(a + b));
  }

  /** A forked repository anywhere in the list changes nothing in the analysis. */
  lemma AnalysisIgnoresForks(githubUrl: string, username: string, profile: Profile, a: seq<Repo>, f: Repo, b: seq<Repo>)
    requires f.fork
    ensures AnalysisOf(githubUrl, username, profile, a + [f] + b) == AnalysisOf(githubUrl, username, profile, a + b)
  {
    ForkIgnored(a, f, b);
  }
}
