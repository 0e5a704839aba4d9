/**
  The deterministic part of app/agents/jd_context_agent.py: skill-list normalisation,
  the construction of a job context from the language model's extraction, and the
  merge of `refine_job_context`. The model's structured output is an input: `None`
  stands for a call that raised.
 */
module JdContext {
  import opened Wrappers
  import opened Text
  import opened Collections
  import opened Entities
  import opened TextCleaner
  import opened Dedup

  /** `ExtractedJobData`, the structured output asked of the language model. */
  datatype ExtractedJobData = ExtractedJobData(
    jobTitle: string,
    seniority: Option<string>,
    requiredSkills: seq<string>,
    preferredSkills: seq<string>,
    experienceRequired: Option<string>,
    experienceMinYears: Option<real>,
    experienceMaxYears: Option<real>,
    responsibilities: seq<string>,
    domain: Option<string>,
    jobSummary: Option<string>,
    location: Option<string>,
    remotePolicy: Option<string>)

  /** The per-skill normalisation: `normalize_skill(skill.strip())`. */
  function CanonicalSkill(skill: string): string {
    NormalizeSkill(Strip(skill))
  }

  /** What `_normalize_skills` returns for a list. */
  function JdSkills(skills: seq<string>): seq<string> {
    FirstOccurrences(Image(CanonicalSkill, skills))
  }

  /** `JDContextAgent._normalize_skills` */
  method NormalizeSkills(skills: seq<string>) returns (normalized: seq<string>)
    ensures normalized == JdSkills(skills)
  {
    normalized := NormalizeAll(skills, CanonicalSkill);
  }

  /** Every output is the normalisation of some input, in the order the inputs first
      produce it; no two outputs are equal ignoring case, none is lost ignoring case,
      and the output is never longer than the input. */
  lemma JdSkillsFacts(skills: seq<string>)
    ensures |JdSkills(skills)| <= |skills|
    ensures Unique(JdSkills(skills), Lower)
    ensures LowerSet(JdSkills(skills)) == LowerSet(Image(CanonicalSkill, skills))
    ensures forall t :: t in JdSkills(skills) ==> exists s :: s in skills && t == CanonicalSkill(s)
  {
    var ys := Image(CanonicalSkill, skills);
    FirstOccurrencesFacts(ys);
    forall t | t in JdSkills(skills) ensures exists s :: s in skills && t == CanonicalSkill(s) {
      var k :| 0 <= k < |JdSkills(skills)| && JdSkills(skills)[k] == t;
      var i := FirstIndex(ys, Lower(t));
      assert ys[i] == t && skills[i] in skills;
    }
  }

  /** Normalising an already normalised list changes nothing. */
  lemma JdSkillsIdempotent(skills: seq<string>)
    ensures JdSkills(JdSkills(skills)) == JdSkills(skills)
  {
    var r := JdSkills(skills);
    JdSkillsFacts(skills);
    forall k | 0 <= k < |r| ensures CanonicalSkill(r[k]) == r[k] {
      assert r[k] in r;
      var s :| s in skills && r[k] == CanonicalSkill(s);
      NormalizeSkillIdempotent(Strip(s));
      NormalizeSkillCases(Strip(s));
      StripOfStripped(r[k]);
    }
    assert Image(CanonicalSkill, r) == r;
    FirstOccurrencesOfUnique(r);
  }

  datatype ExtractError = ExtractionFailed

  /** `JDContextAgent.extract_job_context`: a failed extraction is re-raised; otherwise
      the skill lists are normalised and the raw text is kept. */
  method ExtractJobContext(rawText: string, extracted: Option<ExtractedJobData>) returns (r: Result<JobContext, ExtractError>)
    ensures r.Err? <==> extracted.None?
    ensures r.Ok? ==>
      var e := extracted.value;
      && r.value.id.None? && r.value.jobTitle == e.jobTitle && r.value.rawText == Some(rawText)
      && r.value.requiredSkills == JdSkills(e.requiredSkills)
      && r.value.preferredSkills == JdSkills(e.preferredSkills)
      && r.value.seniority == e.seniority && r.value.experienceRequired == e.experienceRequired
      && r.value.experienceMinYears == e.experienceMinYears && r.value.experienceMaxYears == e.experienceMaxYears
      && r.value.responsibilities == e.responsibilities && r.value.domain == e.domain
      && r.value.jobSummary == e.jobSummary && r.value.location == e.location
      && r.value.remotePolicy == e.remotePolicy && r.value.embeddingVector.None?
  {
    if extracted.None? {
      return Err(ExtractionFailed);
    }
    var e := extracted.value;
    var required := NormalizeSkills(e.requiredSkills);
    var preferred := NormalizeSkills(e.preferredSkills);
    r := Ok(JobContext(None, e.jobTitle, e.seniority, required, preferred, e.experienceRequired,
                       e.experienceMinYears, e.experienceMaxYears, e.responsibilities, e.domain,
                       e.jobSummary, Some(rawText), e.location, e.remotePolicy, None));
  }

  /** Python's `a or b` on the job title, a plain string. */
  function OrTitle(a: string, b: string): string {
    if a != "" then a else b
  }

  /** `JDContextAgent.refine_job_context`: the merge of the model's extraction into the
      existing job. `list(set(...))` enumerates the merged lists in an order the set
      chooses. */
  method RefineJobContext(job: JobContext, extracted: Option<ExtractedJobData>) returns (r: JobContext)
    ensures extracted.None? ==> r == job
    ensures extracted.Some? ==>
      var e := extracted.value;
      && r.id == job.id && r.rawText == job.rawText
      && r.jobTitle == OrTitle(e.jobTitle, job.jobTitle)
      && r.seniority == Or(e.seniority, job.seniority)
      && r.experienceRequired == Or(e.experienceRequired, job.experienceRequired)
      && r.experienceMinYears == OrReal(e.experienceMinYears, job.experienceMinYears)
      && r.experienceMaxYears == OrReal(e.experienceMaxYears, job.experienceMaxYears)
      && r.domain == Or(e.domain, job.domain)
      && r.jobSummary == Or(e.jobSummary, job.jobSummary)
      && r.location == Or(e.location, job.location)
      && r.remotePolicy == Or(e.remotePolicy, job.remotePolicy)
      && r.embeddingVector.None?
      && (exists order :: Distinct(order) && Elements(order) == Elements(job.requiredSkills + e.requiredSkills)
            && r.requiredSkills == JdSkills(order))
      && (exists order :: Distinct(order) && Elements(order) == Elements(job.preferredSkills + e.preferredSkills)
            && r.preferredSkills == JdSkills(order))
      && Distinct(r.responsibilities)
      && Elements(r.responsibilities) == Elements(job.responsibilities + e.responsibilities)
  {
    if extracted.None? {
      return job;
    }
    var e := extracted.value;
    var requiredOrder := ListOf(Elements(job.requiredSkills + e.requiredSkills));
    var required := NormalizeSkills(requiredOrder);
    var preferredOrder := ListOf(Elements(job.preferredSkills + e.preferredSkills));
    var preferred := NormalizeSkills(preferredOrder);
    var responsibilities := ListOf(Elements(job.responsibilities + e.responsibilities));
    r := JobContext(
      job.id, OrTitle(e.jobTitle, job.jobTitle), Or(e.seniority, job.seniority), required, preferred,
      Or(e.experienceRequired, job.experienceRequired),
      OrReal(e.experienceMinYears, job.experienceMinYears),
      OrReal(e.experienceMaxYears, job.experienceMaxYears),
      responsibilities, Or(e.domain, job.domain), Or(e.jobSummary, job.jobSummary), job.rawText,
      Or(e.location, job.location), Or(e.remotePolicy, job.remotePolicy), None);
  }

  /** Whatever order the set yields, every existing and every extracted skill survives
      the merge ignoring case, after normalisation. */
  lemma MergeKeepsSkills(existing: seq<string>, added: seq<string>, order: seq<string>)
    requires Elements(order) == Elements(existing + added)
    ensures forall s :: s in existing + added ==> Lower(CanonicalSkill(s)) in LowerSet(JdSkills(order))
  {
    JdSkillsFacts(order);
    forall s | s in existing + added ensures Lower(CanonicalSkill(s)) in LowerSet(JdSkills(order)) {
      assert s in Elements(order);
      var i :| 0 <= i < |order| && order[i] == s;
      assert Image(CanonicalSkill, order)[i] == CanonicalSkill(s);
    }
  }

  /** A zero year bound counts as absent: an extracted 0.0 keeps the existing bound. */
  lemma ZeroYearsIsAbsent(existing: Option<real>)
    ensures OrReal(Some(0.0), existing) == existing
    ensures OrReal(Some(3.0), existing) == Some(3.0)
  {
  }
}
