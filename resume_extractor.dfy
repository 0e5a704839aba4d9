/**
  The deterministic part of app/services/resume_extractor.py: its own skill-name
  normalisation and de-duplication, and the field precedence with which `extract`
  builds a candidate from the language model's extraction and the regular-expression
  fallbacks. The model's output, the e-mail and phone matches and the URL dictionary
  are inputs.
 */
module ResumeExtractor {
  import opened Wrappers
  import opened Text
  import opened Collections
  import opened Entities
  import opened Dedup

  /** The short forms `_normalize_skills` rewrites, keyed by lower-case trimmed text. */
  const ExtractorTable: map<string, string> := map[
    "js" := "JavaScript",
    "ts" := "TypeScript",
    "py" := "Python",
    "ml" := "Machine Learning",
    "dl" := "Deep Learning",
    "ai" := "Artificial Intelligence",
    "nlp" := "Natural Language Processing",
    "cv" := "Computer Vision",
    "aws" := "AWS",
    "gcp" := "Google Cloud",
    "k8s" := "Kubernetes",
    "postgres" := "PostgreSQL",
    "mongo" := "MongoDB",
    "react.js" := "React",
    "reactjs" := "React",
    "node.js" := "Node.js",
    "nodejs" := "Node.js",
    "vue.js" := "Vue.js",
    "vuejs" := "Vue.js"
  ]

  /** The lower-case forms that are not title-cased. */
  const Acronyms: seq<string> := ["aws", "gcp", "api", "sql", "css", "html", "ci/cd"]

  /** The rewriting of one skill: a table key (after `lower().strip()`) gives its value,
      an acronym keeps the skill's own text, anything else is title-cased. */
  function SkillForm(skill: string): string {
    var key := Strip(Lower(skill));
    if key in ExtractorTable then ExtractorTable[key]
    else if key in Acronyms then skill
    else Title(skill)
  }

  /** What `_normalize_skills` returns for a list. */
  function ResumeSkills(skills: seq<string>): seq<string> {
    FirstOccurrences(Image(SkillForm, skills))
  }

  /** `ResumeExtractor._normalize_skills` */
  method NormalizeSkills(skills: seq<string>) returns (normalized: seq<string>)
    ensures normalized == ResumeSkills(skills)
  {
    normalized := NormalizeAll(skills, SkillForm);
  }

  /** The three cases of the rewriting, and what the title-casing does to each letter. */
  lemma SkillFormCases(skill: string)
    ensures Strip(Lower(skill)) in ExtractorTable ==> SkillForm(skill) == ExtractorTable[Strip(Lower(skill))]
    ensures Strip(Lower(skill)) !in ExtractorTable && Strip(Lower(skill)) in Acronyms ==> SkillForm(skill) == skill
    ensures Strip(Lower(skill)) !in ExtractorTable && Strip(Lower(skill)) !in Acronyms ==>
      && |SkillForm(skill)| == |skill|
      && Lower(SkillForm(skill)) == Lower(skill)
      && Title(SkillForm(skill)) == SkillForm(skill)
  {
    if Strip(Lower(skill)) !in ExtractorTable && Strip(Lower(skill)) !in Acronyms {
      TitleLower(skill, false);
      TitleIdempotent(skill, false);
    }
  }

  /** Title-casing only changes the case of letters. */
  lemma {:induction false} TitleLower(s: string, previousIsCased: bool)
    ensures Lower(TitleAfter(s, previousIsCased)) == Lower(s)
    decreases |s|
  {
    if s != [] {
      TitleLower(s[1..], IsLetter(s[0]));
      var t := TitleAfter(s, previousIsCased);
      assert t == [t[0]] + TitleAfter(s[1..], IsLetter(s[0]));
      LowerAppend([t[0]], TitleAfter(s[1..], IsLetter(s[0])));
      LowerAppend([s[0]], s[1..]);
      assert s == [s[0]] + s[1..];
    }
  }

  /** Title-casing title-cased text changes nothing. */
  lemma {:induction false} TitleIdempotent(s: string, previousIsCased: bool)
    ensures TitleAfter(TitleAfter(s, previousIsCased), previousIsCased) == TitleAfter(s, previousIsCased)
    decreases |s|
  {
    if s != [] {
      var t := TitleAfter(s, previousIsCased);
      assert IsLetter(t[0]) == IsLetter(s[0]);
      assert t[1..] == TitleAfter(s[1..], IsLetter(s[0]));
      TitleIdempotent(s[1..], IsLetter(s[0]));
    }
  }

  /** `"k8s"` is rewritten whatever its case and surrounding blanks. */
  lemma KubernetesExample()
    ensures SkillForm(" K8s ") == "Kubernetes"
  {
    assert Lower(" K8s ") == " k8s ";
    assert Strip(" k8s ") == "k8s" by {
      assert TrimLeft(" k8s ") == TrimLeft("k8s ") == "k8s ";
      assert TrimRight("k8s ") == TrimRight("k8s") == "k8s";
    }
  }

  /** An acronym keeps its original text, trailing blank included. */
  lemma AcronymExample()
    ensures SkillForm("SQL ") == "SQL "
  {
    assert Lower("SQL ") == "sql ";
    assert Strip("sql ") == "sql" by {
      TrimLeftOfStripped("sql ");
      assert TrimRight("sql ") == TrimRight("sql") == "sql";
    }
    assert "sql" !in ExtractorTable;
  }

  /** A canonical name with inner capitals is not preserved: the table's own
      `"MongoDB"` is retitled to `"Mongodb"`, so the rewriting is not idempotent. */
  lemma CanonicalNameRetitled()
    ensures SkillForm("mongo") == "MongoDB"
    ensures SkillForm("MongoDB") == "Mongodb"
  {
    MongoExample();
    MongoDbRetitled();
  }

  lemma MongoExample()
    ensures SkillForm("mongo") == "MongoDB"
  {
    assert Lower("mongo") == "mongo";
    StripOfStripped("mongo");
  }

  lemma MongoDbRetitled()
    ensures SkillForm("MongoDB") == "Mongodb"
  {
    MongoTitle();
    assert Lower("MongoDB") == "mongodb";
    StripOfStripped("mongodb");
    MongoDbIsNoKey();
  }

  lemma MongoDbIsNoKey()
    ensures "mongodb" !in ExtractorTable && "mongodb" !in Acronyms
  {
  }

  lemma MongoTitle()
    ensures Title("MongoDB") == "Mongodb"
  {
    assert TitleAfter("DB", true) == "db";
    assert TitleAfter("MongoDB", false) == "Mongo" + TitleAfter("DB", true);
  }

  /** The output has no two skills equal ignoring case, keeps the first spelling of each,
      in their order of first appearance, is never longer than the input, and every
      output is the rewriting of an input. */
  lemma ResumeSkillsFacts(skills: seq<string>)
    ensures |ResumeSkills(skills)| <= |skills|
    ensures Unique(ResumeSkills(skills), Lower)
    ensures LowerSet(ResumeSkills(skills)) == LowerSet(Image(SkillForm, skills))
    ensures forall k :: 0 <= k < |ResumeSkills(skills)| ==>
      var i := FirstIndex(Image(SkillForm, skills), Lower(ResumeSkills(skills)[k]));
      i < |skills| && ResumeSkills(skills)[k] == SkillForm(skills[i])
    ensures forall k, l :: 0 <= k < l < |ResumeSkills(skills)| ==>
      FirstIndex(Image(SkillForm, skills), Lower(ResumeSkills(skills)[k]))
        < FirstIndex(Image(SkillForm, skills), Lower(ResumeSkills(skills)[l]))
  {
    var ys := Image(SkillForm, skills);
    FirstOccurrencesFacts(ys);
    forall k | 0 <= k < |ResumeSkills(skills)|
      ensures FirstIndex(ys, Lower(ResumeSkills(skills)[k])) < |skills|
    {
      assert Lower(ResumeSkills(skills)[k]) in LowerSet(ResumeSkills(skills));
    }
  }

  /** `ExtractedResumeData`: every field of the language model's output, with its default. */
  datatype ExtractedResumeData = ExtractedResumeData(
    name: Option<string>,
    email: Option<string>,
    phone: Option<string>,
    location: Option<string>,
    headline: Option<string>,
    summary: Option<string>,
    skills: seq<string>,
    experience: seq<Experience>,
    education: seq<Education>,
    projects: seq<Project>,
    certifications: seq<string>,
    githubUrl: Option<string>,
    linkedinUrl: Option<string>,
    portfolioUrl: Option<string>,
    totalExperienceYears: Option<real>)

  /** `ExtractedResumeData()` */
  function EmptyExtraction(): ExtractedResumeData {
    ExtractedResumeData(None, None, None, None, None, None, [], [], [], [], [], None, None, None, None)
  }

  /** `_extract_with_llm`: a failed call yields the empty extraction instead of raising. */
  function ExtractWithLlm(response: Option<ExtractedResumeData>): (e: ExtractedResumeData)
    ensures response.None? ==> e == EmptyExtraction()
    ensures response.Some? ==> e == response.value
  {
    response.GetOr(EmptyExtraction())
  }

  /** `dict.get(key)` on the URL dictionary. */
  function Get(urls: map<string, string>, key: string): Option<string> {
    if key in urls then Some(urls[key]) else None
  }

  /** `ResumeExtractor.extract`, given the model's response (`None` if the call raised),
      the first e-mail and phone matches in the raw text, and the URL dictionary. */
  function Extract(rawText: string, isLinkedin: bool, response: Option<ExtractedResumeData>,
                   regexEmail: Option<string>, regexPhone: Option<string>,
                   urls: map<string, string>): (c: Candidate)
    ensures c.isLinkedinPdf == isLinkedin && c.rawText == Some(rawText)
    ensures c.source == Some("upload") && c.id.None? && c.jobId.None?
    ensures c.embeddingVector.None? && c.resumeFilePath.None?
  {
    var e := ExtractWithLlm(response);
    Candidate(
      None, e.name, Or(e.email, regexEmail), Or(e.phone, regexPhone), e.location, e.headline,
      ResumeSkills(e.skills), e.experience, e.education, e.projects, e.certifications,
      e.totalExperienceYears, e.summary,
      Or(e.githubUrl, Get(urls, "github")), Or(e.linkedinUrl, Get(urls, "linkedin")),
      Or(e.portfolioUrl, Get(urls, "portfolio")),
      Some("upload"), isLinkedin, Some(rawText), None, None, None)
  }

  /** An e-mail, phone or URL the model found is never replaced by a pattern match, and a
      pattern match is used whenever the model's value is absent or empty. */
  lemma ModelValuesTakePrecedence(rawText: string, isLinkedin: bool, e: ExtractedResumeData,
                                  regexEmail: Option<string>, regexPhone: Option<string>,
                                  urls: map<string, string>)
    ensures var c := Extract(rawText, isLinkedin, Some(e), regexEmail, regexPhone, urls);
      && (Truthy(e.email) ==> c.email == e.email)
      && (!Truthy(e.email) ==> c.email == regexEmail)
      && (Truthy(e.phone) ==> c.phone == e.phone)
      && (!Truthy(e.phone) ==> c.phone == regexPhone)
      && (Truthy(e.githubUrl) ==> c.githubUrl == e.githubUrl)
      && (!Truthy(e.githubUrl) ==> c.githubUrl == (if "github" in urls then Some(urls["github"]) else None))
      && (Truthy(e.linkedinUrl) ==> c.linkedinUrl == e.linkedinUrl)
      && (!Truthy(e.linkedinUrl) ==> c.linkedinUrl == (if "linkedin" in urls then Some(urls["linkedin"]) else None))
      && (Truthy(e.portfolioUrl) ==> c.portfolioUrl == e.portfolioUrl)
      && (!Truthy(e.portfolioUrl) ==> c.portfolioUrl == (if "portfolio" in urls then Some(urls["portfolio"]) else None))
      && c.name == e.name && c.summary == e.summary && c.skills == ResumeSkills(e.skills)
      && c.experience == e.experience && c.projects == e.projects
  {
  }

  /** When the model fails, the candidate is the default record carrying only the
      pattern matches and the two arguments. */
  lemma FailedExtractionIsDefault(rawText: string, isLinkedin: bool,
                                  regexEmail: Option<string>, regexPhone: Option<string>,
                                  urls: map<string, string>)
    ensures Extract(rawText, isLinkedin, None, regexEmail, regexPhone, urls)
      == DefaultCandidate().(email := regexEmail, phone := regexPhone,
                             githubUrl := Get(urls, "github"), linkedinUrl := Get(urls, "linkedin"),
                             portfolioUrl := Get(urls, "portfolio"),
                             isLinkedinPdf := isLinkedin, rawText := Some(rawText))
  {
    assert ResumeSkills([]) == [];
  }
}
