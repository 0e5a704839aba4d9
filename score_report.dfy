/**
  The evaluation records (app/models/score_report.py). Every score field of a report
  is a percentage by construction: building a report from an out-of-range score is
  the validation error the record's field bounds raise.
 */
module ScoreReports {
  import opened Wrappers

  /** A score with the field bounds `ge=0, le=100`. */
  type Percent = r: real | 0.0 <= r <= 100.0

  predicate InRange(x: real) { 0.0 <= x <= 100.0 }

  datatype ScoreReport = ScoreReport(
    id: Option<string>,
    candidateId: string,
    jobId: string,
    candidateName: Option<string>,
    overallScore: Percent,
    skillMatchScore: Percent,
    experienceMatchScore: Percent,
    semanticSimilarityScore: Percent,
    matchedSkills: seq<string>,
    missingSkills: seq<string>,
    extraSkills: seq<string>,
    strengths: seq<string>,
    weaknesses: seq<string>,
    reasoning: Option<string>,
    recommendation: Option<string>)

  /** The names of the score fields that failed validation, in declaration order. */
  datatype ValidationError = ValidationError(fields: seq<string>)

  function OutOfRange(overall: real, skill: real, experience: real, semantic: real): seq<string> {
    (if InRange(overall) then [] else ["overall_score"])
    + (if InRange(skill) then [] else ["skill_match_score"])
    + (if InRange(experience) then [] else ["experience_match_score"])
    + (if InRange(semantic) then [] else ["semantic_similarity_score"])
  }

  /** `ScoreReport(...)` with every field given. */
  function MakeScoreReport(
    id: Option<string>, candidateId: string, jobId: string, candidateName: Option<string>,
    overall: real, skill: real, experience: real, semantic: real,
    matched: seq<string>, missing: seq<string>, extra: seq<string>,
    strengths: seq<string>, weaknesses: seq<string>,
    reasoning: Option<string>, recommendation: Option<string>): (r: Result<ScoreReport, ValidationError>)
    ensures r.Ok? <==> InRange(overall) && InRange(skill) && InRange(experience) && InRange(semantic)
    ensures r.Err? ==> r.error.fields != []
    ensures r.Err? ==>
      && (("overall_score" in r.error.fields) <==> !InRange(overall))
      && (("skill_match_score" in r.error.fields) <==> !InRange(skill))
      && (("experience_match_score" in r.error.fields) <==> !InRange(experience))
      && (("semantic_similarity_score" in r.error.fields) <==> !InRange(semantic))
    ensures r.Ok? ==>
      && r.value.id == id && r.value.candidateId == candidateId && r.value.jobId == jobId
      && r.value.candidateName == candidateName
      && r.value.overallScore == overall && r.value.skillMatchScore == skill
      && r.value.experienceMatchScore == experience && r.value.semanticSimilarityScore == semantic
      && r.value.matchedSkills == matched && r.value.missingSkills == missing && r.value.extraSkills == extra
      && r.value.strengths == strengths && r.value.weaknesses == weaknesses
      && r.value.reasoning == reasoning && r.value.recommendation == recommendation
  {
    var bad := OutOfRange(overall, skill, experience, semantic);
    if bad != [] then Err(ValidationError(bad))
    else Ok(ScoreReport(id, candidateId, jobId, candidateName, overall, skill, experience, semantic,
                        matched, missing, extra, strengths, weaknesses, reasoning, recommendation))
  }

  /** `ScoreReport(candidate_id=..., job_id=..., overall_score=...)`: every other field at
      its default. */
  function NewScoreReport(candidateId: string, jobId: string, overall: real): (r: Result<ScoreReport, ValidationError>)
    ensures r.Ok? <==> InRange(overall)
    ensures r.Ok? ==>
      && r.value.candidateId == candidateId && r.value.jobId == jobId && r.value.overallScore == overall
      && r.value.id.None? && r.value.candidateName.None?
      && r.value.skillMatchScore == 0.0 && r.value.experienceMatchScore == 0.0
      && r.value.semanticSimilarityScore == 0.0
      && r.value.matchedSkills == [] && r.value.missingSkills == [] && r.value.extraSkills == []
      && r.value.strengths == [] && r.value.weaknesses == []
      && r.value.reasoning.None? && r.value.recommendation.None?
  {
    MakeScoreReport(None, candidateId, jobId, None, overall, 0.0, 0.0, 0.0, [], [], [], [], [], None, None)
  }

  datatype RankingReport = RankingReport(
    jobId: string,
    jobTitle: string,
    totalCandidates: int,
    rankings: seq<ScoreReport>,
    topCandidatesSummary: Option<string>)

  /** `RankingReport(job_id=..., job_title=..., total_candidates=...)` */
  function NewRankingReport(jobId: string, jobTitle: string, totalCandidates: int): (r: RankingReport)
    ensures r.jobId == jobId && r.jobTitle == jobTitle && r.totalCandidates == totalCandidates
    ensures r.rankings == [] && r.topCandidatesSummary.None?
  {
    RankingReport(jobId, jobTitle, totalCandidates, [], None)
  }

  /** The sort key of `reports.sort(key=lambda r: r.overall_score, reverse=True)`. */
  function OverallScore(r: ScoreReport): real {
    r.overallScore
  }
}
