/**
  The candidate-level steps of app/agents/resume_analysis_agent.py: the metadata that
  `parse_resume` sets on an extracted candidate, and the GitHub enrichment that merges
  discovered languages, repositories and an assessment into a candidate. The language
  model's answers and the URL found in the resume text are inputs.
 */
module ResumeAnalysis {
  import opened Wrappers
  import opened Text
  import opened Collections
  import opened Entities
  import opened ResumeExtractor
  import opened GithubProfile

  /** The text an LLM summary call yields: the stripped answer, or "" when the call raised. */
  function AnswerText(answer: Option<string>): (t: string)
    ensures answer.None? ==> t == ""
    ensures IsStripped(t)
  {
    StripFacts(if answer.Some? then answer.value else "");
    if answer.Some? then Strip(answer.value) else ""
  }

  /** `ResumeAnalysisAgent.parse_resume`: the extracted candidate gets the source and job
      id; a summary is generated only when the extracted one is empty. */
  function ParseResume(rawText: string, isLinkedin: bool, source: string, jobId: Option<string>,
                       response: Option<ExtractedResumeData>, regexEmail: Option<string>,
                       regexPhone: Option<string>, urls: map<string, string>,
                       summaryAnswer: Option<string>): (c: Candidate)
    ensures c.source == Some(source) && c.jobId == jobId
    ensures var e := Extract(rawText, isLinkedin, response, regexEmail, regexPhone, urls);
      && (Truthy(e.summary) ==> c.summary == e.summary)
      && (!Truthy(e.summary) ==> c.summary == Some(AnswerText(summaryAnswer)))
      && c == e.(source := Some(source), jobId := jobId, summary := c.summary)
  {
    var c := Extract(rawText, isLinkedin, response, regexEmail, regexPhone, urls).(source := Some(source), jobId := jobId);
    if !Truthy(c.summary) then c.(summary := Some(AnswerText(summaryAnswer))) else c
  }

  /** When the extraction fails and no summary can be generated, the parsed candidate is
      the default record with the arguments, the pattern matches and an empty summary. */
  lemma ParseResumeOfFailure(rawText: string, isLinkedin: bool, source: string, jobId: Option<string>,
                             regexEmail: Option<string>, regexPhone: Option<string>,
                             urls: map<string, string>)
    ensures ParseResume(rawText, isLinkedin, source, jobId, None, regexEmail, regexPhone, urls, None)
      == DefaultCandidate().(email := regexEmail, phone := regexPhone,
                             githubUrl := Get(urls, "github"), linkedinUrl := Get(urls, "linkedin"),
                             portfolioUrl := Get(urls, "portfolio"), isLinkedinPdf := isLinkedin,
                             rawText := Some(rawText), source := Some(source), jobId := jobId,
                             summary := Some(""))
  {
    FailedExtractionIsDefault(rawText, isLinkedin, regexEmail, regexPhone, urls);
  }

  // ------------------------------------------------------------------ enrichment

  /** The languages not yet among the skills, ignoring case, in their ranked order. */
  function NewLanguages(skills: seq<string>, languages: seq<string>): seq<string>
    decreases |languages|
  {
    if languages == [] then []
    else
      var kept := NewLanguages(skills, languages[..|languages| - 1]);
      var lang := languages[|languages| - 1];
      if Lower(lang) !in LowerSet(skills) then kept + [lang] else kept
  }

  /** The project made from a repository summary. */
  function ProjectOf(s: RepoSummary): Project {
    Project(s.name, Some(s.description), if Truthy(s.language) then [s.language.value] else [], s.url)
  }

  /** `[p.name.lower() for p in candidate.projects if p.name]` */
  function ProjectNames(projects: seq<Project>): set<string> {
    set p | p in projects && Truthy(p.name) :: Lower(p.name.value)
  }

  /** The project list after one repository: added when it has a name not yet used,
      ignoring case. */
  function AddProject(projects: seq<Project>, s: RepoSummary): seq<Project> {
    if Truthy(s.name) && Lower(s.name.value) !in ProjectNames(projects) then projects + [ProjectOf(s)]
    else projects
  }

  /** The project list after the repositories `ss`, in order. */
  function AddProjects(projects: seq<Project>, ss: seq<RepoSummary>): seq<Project>
    decreases |ss|
  {
    if ss == [] then projects else AddProject(AddProjects(projects, ss[..|ss| - 1]), ss[|ss| - 1])
  }

  lemma ProjectNamesSnoc(projects: seq<Project>, p: Project)
    ensures ProjectNames(projects + [p]) == ProjectNames(projects) + (if Truthy(p.name) then {Lower(p.name.value)} else {})
  {
    assert forall q :: q in projects + [p] <==> q in projects || q == p;
  }

  /** The existing projects stay as a prefix, and at most one project is added per
      repository. */
  lemma {:induction false} AddProjectsGrow(projects: seq<Project>, ss: seq<RepoSummary>)
    ensures |projects| <= |AddProjects(projects, ss)| <= |projects| + |ss|
    ensures AddProjects(projects, ss)[..|projects|] == projects
    decreases |ss|
  {
    if ss != [] {
      var init := ss[..|ss| - 1];
      AddProjectsGrow(projects, init);
      var acc := AddProjects(projects, init);
      var r := AddProjects(projects, ss);
      if r != acc {
        assert r[..|projects|] == acc[..|projects|];
      }
    }
  }

  /** Every project added is a named repository whose name, ignoring case, was not used
      before it. */
  lemma {:induction false} AddProjectsFresh(projects: seq<Project>, ss: seq<RepoSummary>)
    ensures forall k :: |projects| <= k < |AddProjects(projects, ss)| ==>
      var p := AddProjects(projects, ss)[k];
      Truthy(p.name) && Lower(p.name.value) !in ProjectNames(AddProjects(projects, ss)[..k])
    decreases |ss|
  {
    if ss != [] {
      var init := ss[..|ss| - 1];
      AddProjectsFresh(projects, init);
      var acc := AddProjects(projects, init);
      var r := AddProjects(projects, ss);
      if r != acc {
        assert r[..|acc|] == acc;
        forall k | |projects| <= k < |acc|
          ensures Truthy(r[k].name) && Lower(r[k].name.value) !in ProjectNames(r[..k])
        {
          assert r[k] == acc[k] && r[..k] == acc[..k];
        }
      }
    }
  }

  /** The project is the one made from some repository of `ss`. */
  predicate MadeFrom(p: Project, ss: seq<RepoSummary>) {
    exists s :: s in ss && p == ProjectOf(s)
  }

  /** Every project added is made from one of the repositories. */
  lemma {:induction false} AddProjectsFromRepos(projects: seq<Project>, ss: seq<RepoSummary>)
    ensures forall k :: |projects| <= k < |AddProjects(projects, ss)| ==> MadeFrom(AddProjects(projects, ss)[k], ss)
    decreases |ss|
  {
    if ss != [] {
      var init := ss[..|ss| - 1];
      var s := ss[|ss| - 1];
      AddProjectsFromRepos(projects, init);
      AddProjectsGrow(projects, init);
      var acc := AddProjects(projects, init);
      var r := AddProjects(projects, ss);
      assert r == acc || r == acc + [ProjectOf(s)];
      forall k | |projects| <= k < |r| ensures MadeFrom(r[k], ss) {
        if k < |acc| {
          assert r[k] == acc[k];
          var s' :| s' in init && acc[k] == ProjectOf(s');
          assert s' in ss;
        } else {
          assert r[k] == ProjectOf(s) && s in ss;
        }
      }
    }
  }

  /** Every named repository ends up represented, ignoring case. */
  lemma {:induction false} AddProjectsCovers(projects: seq<Project>, ss: seq<RepoSummary>)
    ensures forall s :: s in ss && Truthy(s.name) ==> Lower(s.name.value) in ProjectNames(AddProjects(projects, ss))
    decreases |ss|
  {
    if ss != [] {
      var init := ss[..|ss| - 1];
      var s := ss[|ss| - 1];
      AddProjectsCovers(projects, init);
      var acc := AddProjects(projects, init);
      var r := AddProjects(projects, ss);
      assert ss == init + [s];
      if r != acc {
        ProjectNamesSnoc(acc, ProjectOf(s));
      }
    }
  }

  /** The existing projects stay as a prefix; every project added is a named repository
      whose name, ignoring case, was not used before it; every named repository ends up
      represented, ignoring case; at most one project is added per repository. */
  lemma AddProjectsFacts(projects: seq<Project>, ss: seq<RepoSummary>)
    ensures |projects| <= |AddProjects(projects, ss)| <= |projects| + |ss|
    ensures AddProjects(projects, ss)[..|projects|] == projects
    ensures forall k :: |projects| <= k < |AddProjects(projects, ss)| ==>
      var p := AddProjects(projects, ss)[k];
      Truthy(p.name) && Lower(p.name.value) !in ProjectNames(AddProjects(projects, ss)[..k])
      && MadeFrom(p, ss)
    ensures forall s :: s in ss && Truthy(s.name) ==> Lower(s.name.value) in ProjectNames(AddProjects(projects, ss))
  {
    AddProjectsGrow(projects, ss);
    AddProjectsFresh(projects, ss);
    AddProjectsFromRepos(projects, ss);
    AddProjectsCovers(projects, ss);
  }

  /** The summary after the assessment `gs`: appended after a blank line, or on its own. */
  function WithAssessment(summary: Option<string>, gs: string): (r: Option<string>)
    ensures gs == "" ==> r == summary
    ensures gs != "" ==> r.Some? && |r.value| >= |gs| && r.value[|r.value| - |gs|..] == gs
    ensures gs != "" && Truthy(summary) ==> |r.value| >= |summary.value| && r.value[..|summary.value|] == summary.value
  {
    if gs == "" then summary
    else if Truthy(summary) then Some(summary.value + "\n\nGitHub Assessment: " + gs)
    else Some("GitHub Assessment: " + gs)
  }

  /** The URL the enrichment works from: the candidate's own, else one found in its text. */
  function EnrichmentUrl(candidate: Candidate, foundUrl: Option<string>): Option<string> {
    if !Truthy(candidate.githubUrl) && Truthy(candidate.rawText) then foundUrl else candidate.githubUrl
  }

  /** `ResumeAnalysisAgent.enrich_candidate_with_github`, given the URL
      `extract_github_url` finds in the resume text, the username found in the URL, the
      fetched profile and repositories, and the answer of the assessment call. */
  method EnrichCandidateWithGithub(candidate: Candidate, foundUrl: Option<string>, username: Option<string>,
                                   profile: Option<Profile>, repos: seq<Repo>, assessment: Option<string>)
    returns (c: Candidate)
    ensures var url := EnrichmentUrl(candidate, foundUrl);
      var base := if Truthy(url) then candidate.(githubUrl := url) else candidate;
      (!Truthy(url) || !Truthy(username) || profile.None?) ==> c == base
    ensures var url := EnrichmentUrl(candidate, foundUrl);
      Truthy(url) && Truthy(username) && profile.Some? ==>
        var an := AnalysisOf(url.value, username.value, profile.value, repos);
        c == candidate.(githubUrl := url,
                        skills := candidate.skills + NewLanguages(candidate.skills, an.topLanguages),
                        projects := AddProjects(candidate.projects, PyPrefix(an.topRepos, 3)),
                        summary := WithAssessment(candidate.summary, AnswerText(assessment)))
  {
    c := candidate;
    var url := candidate.githubUrl;
    if !Truthy(url) && Truthy(candidate.rawText) {
      url := foundUrl;
      if Truthy(url) {
        c := c.(githubUrl := url);
      }
    }
    if !Truthy(url) {
      return;
    }
    var analysis := AnalyzeGithubProfile(url.value, username, profile, repos);
    if analysis.Err? {
      return;
    }
    c := ApplyAnalysis(c, analysis.value.topLanguages, analysis.value.topRepos, AnswerText(assessment));
  }

  /** The part of the enrichment after a successful analysis: new languages, projects
      from the first three top repositories, and the assessment. */
  method ApplyAnalysis(candidate: Candidate, topLanguages: seq<string>, topRepos: seq<RepoSummary>, gs: string)
    returns (c: Candidate)
    ensures c == candidate.(skills := candidate.skills + NewLanguages(candidate.skills, topLanguages),
                            projects := AddProjects(candidate.projects, PyPrefix(topRepos, 3)),
                            summary := WithAssessment(candidate.summary, gs))
  {
    c := candidate;
    var newSkills := AddNewLanguages(c.skills, topLanguages);
    if newSkills != [] {
      c := c.(skills := c.skills + newSkills);
    }
    var projects := MergeProjects(c.projects, PyPrefix(topRepos, 3));
    c := c.(projects := projects);
    if gs != "" {
      if Truthy(c.summary) {
        c := c.(summary := Some(c.summary.value + "\n\nGitHub Assessment: " + gs));
      } else {
        c := c.(summary := Some("GitHub Assessment: " + gs));
      }
    }
  }

  /** The loop collecting `new_skills`: each language whose lower-case form is not among
      the lower-cased skills. */
  method AddNewLanguages(skills: seq<string>, languages: seq<string>) returns (newSkills: seq<string>)
    ensures newSkills == NewLanguages(skills, languages)
  {
    var current := LowerSet(skills);
    newSkills := [];
    var i := 0;
    while i < |languages|
      invariant 0 <= i <= |languages|
      invariant newSkills == NewLanguages(skills, languages[..i])
    {
      assert languages[..i + 1][..i] == languages[..i];
      if Lower(languages[i]) !in current {
        newSkills := newSkills + [languages[i]];
      }
      i := i + 1;
    }
    assert languages[..i] == languages;
  }

  /** The loop adding repositories as projects, re-reading the project names each time. */
  method MergeProjects(projects: seq<Project>, ss: seq<RepoSummary>) returns (merged: seq<Project>)
    ensures merged == AddProjects(projects, ss)
  {
    merged := projects;
    var i := 0;
    while i < |ss|
      invariant 0 <= i <= |ss|
      invariant merged == AddProjects(projects, ss[..i])
    {
      assert ss[..i + 1][..i] == ss[..i];
      var project := ProjectOf(ss[i]);
      var existing := ProjectNames(merged);
      if Truthy(project.name) && Lower(project.name.value) !in existing {
        merged := merged + [project];
      }
      i := i + 1;
    }
    assert ss[..i] == ss;
  }

  /** A language is appended only when no skill has its lower-case form, and every
      ranked language is then present ignoring case; so the original skills stay as a
      prefix and nothing they already cover is added. */
  lemma {:induction false} NewLanguagesFacts(skills: seq<string>, languages: seq<string>)
    ensures forall lang :: lang in NewLanguages(skills, languages) ==> lang in languages && Lower(lang) !in LowerSet(skills)
    ensures forall lang :: lang in languages ==> Lower(lang) in LowerSet(skills + NewLanguages(skills, languages))
    ensures |NewLanguages(skills, languages)| <= |languages|
    decreases |languages|
  {
    if languages != [] {
      var init := languages[..|languages| - 1];
      var last := languages[|languages| - 1];
      NewLanguagesFacts(skills, init);
      var kept := NewLanguages(skills, init);
      var added := NewLanguages(skills, languages);
      assert languages == init + [last];
      assert forall x :: x in kept ==> x in added;
      forall lang | lang in languages ensures Lower(lang) in LowerSet(skills + added) {
        if lang in init {
          var s :| s in skills + kept && Lower(s) == Lower(lang);
          assert s in skills + added;
        } else if Lower(lang) !in LowerSet(skills) {
          assert lang in skills + added;
        } else {
          var s :| s in skills && Lower(s) == Lower(lang);
          assert s in skills + added;
        }
      }
    }
  }
}
