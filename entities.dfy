/**
  The candidate and job records (app/models/candidate.py, app/models/job_context.py)
  and the Python truthiness rules the service applies to their optional fields.
 */
module Entities {
  import opened Wrappers

  datatype Experience = Experience(
    company: Option<string>,
    role: Option<string>,
    duration: Option<string>,
    durationMonths: Option<int>,
    description: Option<string>,
    skillsUsed: seq<string>)

  datatype Education = Education(
    institution: Option<string>,
    degree: Option<string>,
    fieldOfStudy: Option<string>,
    year: Option<string>,
    gpa: Option<string>)

  datatype Project = Project(
    name: Option<string>,
    description: Option<string>,
    technologies: seq<string>,
    url: Option<string>)

  datatype Candidate = Candidate(
    id: Option<string>,
    name: Option<string>,
    email: Option<string>,
    phone: Option<string>,
    location: Option<string>,
    headline: Option<string>,
    skills: seq<string>,
    experience: seq<Experience>,
    education: seq<Education>,
    projects: seq<Project>,
    certifications: seq<string>,
    totalExperienceYears: Option<real>,
    summary: Option<string>,
    githubUrl: Option<string>,
    linkedinUrl: Option<string>,
    portfolioUrl: Option<string>,
    source: Option<string>,
    isLinkedinPdf: bool,
    rawText: Option<string>,
    resumeFilePath: Option<string>,
    embeddingVector: Option<seq<real>>,
    jobId: Option<string>)

  datatype JobContext = JobContext(
    id: Option<string>,
    jobTitle: string,
    seniority: Option<string>,
    requiredSkills: seq<string>,
    preferredSkills: seq<string>,
    experienceRequired: Option<string>,
    experienceMinYears: Option<real>,
    experienceMaxYears: Option<real>,
    responsibilities: seq<string>,
    domain: Option<string>,
    jobSummary: Option<string>,
    rawText: Option<string>,
    location: Option<string>,
    remotePolicy: Option<string>,
    embeddingVector: Option<seq<real>>)

  /** `Candidate()` with every field at its declared default; `source` defaults to "upload". */
  function DefaultCandidate(): Candidate
  {
    Candidate(None, None, None, None, None, None, [], [], [], [], [], None, None,
              None, None, None, Some("upload"), false, None, None, None, None)
  }

  /** Python truthiness of an optional string: present and non-empty. */
  predicate Truthy(s: Option<string>) {
    s.Some? && s.value != ""
  }

  /** Truthiness of an optional number: present and non-zero. */
  predicate TruthyReal(x: Option<real>) {
    x.Some? && x.value != 0.0
  }

  /** Truthiness of an optional list: present and non-empty. */
  predicate TruthySeq<T>(xs: Option<seq<T>>) {
    xs.Some? && xs.value != []
  }

  /** Python's `a or b` on optional strings. */
  function Or(a: Option<string>, b: Option<string>): Option<string>
  {
    if Truthy(a) then a else b
  }

  /** Python's `a or b` on optional numbers. */
  function OrReal(a: Option<real>, b: Option<real>): Option<real>
  {
    if TruthyReal(a) then a else b
  }

  /** Python's `a or b` where `b` is a plain string, as in `candidate.id or "unknown"`. */
  function OrDefault(a: Option<string>, b: string): string
  {
    if Truthy(a) then a.value else b
  }

  /** The text an f-string shows for an optional string: `None` prints as "None". */
  function Shown(s: Option<string>): string {
    if s.Some? then s.value else "None"
  }
}
