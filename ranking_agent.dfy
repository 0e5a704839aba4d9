/**
  The evaluation and ranking agent (app/agents/ranking_agent.py). The language model is
  a pair of oracles that either answer or fail (`None` is a raised exception); `:.1f`
  formatting of a score is the parameter `formatScore`.
 */
module RankingAgents {
  import opened Wrappers
  import opened Text
  import opened Collections
  import opened Sorting
  import opened Entities
  import opened Scoring
  import opened ScoreReports

  /** `LLMEvaluation` */
  datatype LlmEvaluation = LlmEvaluation(
    strengths: seq<string>,
    weaknesses: seq<string>,
    reasoning: string,
    recommendation: string)

  /** The two language-model calls the agent makes: `generate_structured` for one
      evaluation and `generate_text` for the summary of the top reports. */
  datatype Llm = Llm(
    evaluate: (Candidate, JobContext, ScoreBreakdown) -> Option<LlmEvaluation>,
    summarize: (seq<ScoreReport>, JobContext) -> Option<string>)

  datatype RankingAgent = RankingAgent(
    weights: Weights,
    cosine: (seq<real>, seq<real>) -> real,
    llm: Llm,
    formatScore: real -> string)

  // ------------------------------------------------------------ evaluation

  /** The score band used when the model cannot be asked. */
  function FallbackRecommendation(score: real): string {
    if score >= 85.0 then "Strong Interview"
    else if score >= 70.0 then "Interview"
    else if score >= 55.0 then "Maybe"
    else "Reject"
  }

  /** The bands in increasing order of preference. */
  function BandRank(recommendation: string): int {
    if recommendation == "Strong Interview" then 3
    else if recommendation == "Interview" then 2
    else if recommendation == "Maybe" then 1
    else 0
  }

  /** The fallback band is one of the four recommendations, and a higher score never gets
      a lower band. */
  lemma FallbackMonotone(s1: real, s2: real)
    requires s1 <= s2
    ensures FallbackRecommendation(s1) in {"Strong Interview", "Interview", "Maybe", "Reject"}
    ensures BandRank(FallbackRecommendation(s1)) <= BandRank(FallbackRecommendation(s2))
  {
  }

  /** `RankingAgent._get_llm_evaluation` */
  function GetLlmEvaluation(agent: RankingAgent, candidate: Candidate, job: JobContext, scores: ScoreBreakdown): (e: LlmEvaluation)
    ensures agent.llm.evaluate(candidate, job, scores).Some? ==> e == agent.llm.evaluate(candidate, job, scores).value
    ensures agent.llm.evaluate(candidate, job, scores).None? ==>
      && e.strengths == ["Analysis unavailable"] && e.weaknesses == ["Analysis unavailable"]
      && e.recommendation == FallbackRecommendation(scores.overallScore)
      && e.reasoning == "Score-based recommendation: " + agent.formatScore(scores.overallScore) + "/100"
  {
    match agent.llm.evaluate(candidate, job, scores)
    case Some(evaluation) => evaluation
    case None =>
      var score := scores.overallScore;
      LlmEvaluation(
        ["Analysis unavailable"], ["Analysis unavailable"],
        "Score-based recommendation: " + agent.formatScore(score) + "/100",
        FallbackRecommendation(score))
  }

  /** `RankingAgent.generate_candidate_rank`: the report is built from the scoring breakdown
      and the evaluation; the record's field bounds reject an out-of-range overall score. */
  function GenerateCandidateRank(
    agent: RankingAgent, candidate: Candidate, job: JobContext,
    candidateEmbedding: Option<seq<real>>, jobEmbedding: Option<seq<real>>): (r: Result<ScoreReport, ValidationError>)
    ensures var scores := ScoreCandidate(agent.weights, candidate, job, candidateEmbedding, jobEmbedding, agent.cosine);
      var skill := scores.skillMatch;
      && (r.Ok? <==> InRange(scores.overallScore))
      && (r.Ok? ==>
           && r.value.id.None?
           && r.value.candidateId == OrDefault(candidate.id, "unknown")
           && r.value.jobId == OrDefault(job.id, "unknown")
           && r.value.candidateName == candidate.name
           && r.value.overallScore == scores.overallScore
           && r.value.skillMatchScore == skill.score
           && r.value.experienceMatchScore == scores.experienceMatch.score
           && r.value.semanticSimilarityScore == scores.semanticSimilarity
           && r.value.matchedSkills == skill.matchedRequired + skill.matchedPreferred
           && r.value.missingSkills == skill.missingRequired
           && r.value.extraSkills == PyPrefix(skill.extraSkills, 10))
    ensures var scores := ScoreCandidate(agent.weights, candidate, job, candidateEmbedding, jobEmbedding, agent.cosine);
      var e := GetLlmEvaluation(agent, candidate, job, scores);
      r.Ok? ==>
        && r.value.strengths == e.strengths && r.value.weaknesses == e.weaknesses
        && r.value.reasoning == Some(e.reasoning) && r.value.recommendation == Some(e.recommendation)
  {
    var scores := ScoreCandidate(agent.weights, candidate, job, candidateEmbedding, jobEmbedding, agent.cosine);
    var evaluation := GetLlmEvaluation(agent, candidate, job, scores);
    var skill := scores.skillMatch;
    MakeScoreReport(
      None, OrDefault(candidate.id, "unknown"), OrDefault(job.id, "unknown"), candidate.name,
      scores.overallScore, skill.score, scores.experienceMatch.score, scores.semanticSimilarity,
      skill.matchedRequired + skill.matchedPreferred, skill.missingRequired, PyPrefix(skill.extraSkills, 10),
      evaluation.strengths, evaluation.weaknesses, Some(evaluation.reasoning), Some(evaluation.recommendation))
  }

  /** When the model cannot be asked, a report carries the score band of its own overall
      score and the placeholder analysis. */
  lemma FallbackReport(
    agent: RankingAgent, candidate: Candidate, job: JobContext,
    candidateEmbedding: Option<seq<real>>, jobEmbedding: Option<seq<real>>)
    requires agent.llm.evaluate(candidate, job,
      ScoreCandidate(agent.weights, candidate, job, candidateEmbedding, jobEmbedding, agent.cosine)).None?
    ensures var r := GenerateCandidateRank(agent, candidate, job, candidateEmbedding, jobEmbedding);
      r.Ok? ==>
        && r.value.recommendation == Some(FallbackRecommendation(r.value.overallScore))
        && r.value.strengths == ["Analysis unavailable"] && r.value.weaknesses == ["Analysis unavailable"]
  {
  }

  /** With non-negative weights totalling at most one every candidate gets a report. */
  lemma GenerateCandidateRankSucceeds(
    agent: RankingAgent, candidate: Candidate, job: JobContext,
    candidateEmbedding: Option<seq<real>>, jobEmbedding: Option<seq<real>>)
    requires BoundedWeights(agent.weights)
    ensures GenerateCandidateRank(agent, candidate, job, candidateEmbedding, jobEmbedding).Ok?
  {
    var scores := ScoreCandidate(agent.weights, candidate, job, candidateEmbedding, jobEmbedding, agent.cosine);
    assert InRange(scores.overallScore);
  }

  /** A report's matched skills are the candidate's job skills, required or preferred, its
      missing skills the required ones the candidate lacks (compared lower-cased), and at
      most ten extras are kept. */
  lemma GeneratedSkills(
    agent: RankingAgent, candidate: Candidate, job: JobContext,
    candidateEmbedding: Option<seq<real>>, jobEmbedding: Option<seq<real>>)
    ensures var r := GenerateCandidateRank(agent, candidate, job, candidateEmbedding, jobEmbedding);
      r.Ok? ==>
        && |r.value.extraSkills| <= 10
        && LowerSet(r.value.matchedSkills)
           == LowerSet(candidate.skills) * (LowerSet(job.requiredSkills) + LowerSet(job.preferredSkills))
        && LowerSet(r.value.missingSkills) == LowerSet(job.requiredSkills) - LowerSet(candidate.skills)
  {
    var r := GenerateCandidateRank(agent, candidate, job, candidateEmbedding, jobEmbedding);
    if r.Ok? {
      var skill := CalculateSkillMatch(candidate.skills, job.requiredSkills, job.preferredSkills);
      assert ScoreCandidate(agent.weights, candidate, job, candidateEmbedding, jobEmbedding, agent.cosine).skillMatch == skill;
      SkillMatchPartition(candidate.skills, job.requiredSkills, job.preferredSkills);
      LowerSetAppend(skill.matchedRequired, skill.matchedPreferred);
      assert r.value.matchedSkills == skill.matchedRequired + skill.matchedPreferred;
    }
  }

  lemma LowerSetAppend(a: seq<string>, b: seq<string>)
    ensures LowerSet(a + b) == LowerSet(a) + LowerSet(b)
  {
    forall x | x in a + b ensures x in a || x in b { }
  }

  /** Weights outside the bounds can make report construction fail: a negative weight
      here gives an overall score of -50. */
  lemma NegativeWeightRejected(agent: RankingAgent, candidate: Candidate, job: JobContext)
    requires agent.weights == Weights(0.0, 0.0, -1.0)
    requires candidate.totalExperienceYears.None?
    ensures GenerateCandidateRank(agent, candidate, job, None, None).Err?
  {
    var scores := ScoreCandidate(agent.weights, candidate, job, None, None, agent.cosine);
    assert scores.experienceMatch.score == 50.0;
    assert scores.overallScore == -50.0;
  }

  // --------------------------------------------------------------- ranking

  /** The embedding `candidate_embeddings.get(candidate.id)`. */
  function EmbeddingOf(embeddings: map<string, seq<real>>, candidate: Candidate): Option<seq<real>> {
    if candidate.id.Some? && candidate.id.value in embeddings then Some(embeddings[candidate.id.value]) else None
  }

  /** The scoring of one candidate, with its embedding looked up by id. */
  function RankOne(
    agent: RankingAgent, job: JobContext, embeddings: map<string, seq<real>>,
    jobEmbedding: Option<seq<real>>): Candidate -> Result<ScoreReport, ValidationError>
  {
    c => GenerateCandidateRank(agent, c, job, EmbeddingOf(embeddings, c), jobEmbedding)
  }

  /** `RankingAgent.rank_candidates` */
  method RankCandidates(
    agent: RankingAgent, candidates: seq<Candidate>, job: JobContext,
    embeddings: map<string, seq<real>>, jobEmbedding: Option<seq<real>>) returns (r: Result<seq<ScoreReport>, ValidationError>)
    ensures var reports := MapResult(RankOne(agent, job, embeddings, jobEmbedding), candidates);
      && (r.Ok? <==> reports.Ok?)
      && (r.Ok? ==> r.value == SortDesc(reports.value, OverallScore))
  {
    var reports :- MapAll(RankOne(agent, job, embeddings, jobEmbedding), candidates);
    r := Ok(SortDesc(reports, OverallScore));
  }

  /** The ranking holds exactly the candidates' reports, best first, ties in input order. */
  lemma RankCandidatesFacts(
    agent: RankingAgent, candidates: seq<Candidate>, job: JobContext,
    embeddings: map<string, seq<real>>, jobEmbedding: Option<seq<real>>)
    requires BoundedWeights(agent.weights)
    ensures var reports := MapResult(RankOne(agent, job, embeddings, jobEmbedding), candidates);
      && reports.Ok?
      && |reports.value| == |candidates|
      && (forall i :: 0 <= i < |candidates| ==> reports.value[i].candidateName == candidates[i].name)
      && var ranked := SortDesc(reports.value, OverallScore);
         && SortedDesc(ranked, OverallScore)
         && multiset(ranked) == multiset(reports.value)
         && forall v :: WithKey(ranked, OverallScore, v) == WithKey(reports.value, OverallScore, v)
  {
    forall i | 0 <= i < |candidates|
      ensures GenerateCandidateRank(agent, candidates[i], job, EmbeddingOf(embeddings, candidates[i]), jobEmbedding).Ok?
    {
      GenerateCandidateRankSucceeds(agent, candidates[i], job, EmbeddingOf(embeddings, candidates[i]), jobEmbedding);
    }
    var f := RankOne(agent, job, embeddings, jobEmbedding);
    MapResultFacts(f, candidates);
    SortDescFacts(MapResult(f, candidates).value, OverallScore);
  }

  // --------------------------------------------------------------- summary

  /** `RankingAgent.generate_ranking_summary` */
  function GenerateRankingSummary(agent: RankingAgent, reports: seq<ScoreReport>, job: JobContext): (s: string)
    ensures reports == [] ==> s == "No candidates to summarize."
    ensures reports != [] && agent.llm.summarize(PyPrefix(reports, 3), job).Some? ==>
      s == Strip(agent.llm.summarize(PyPrefix(reports, 3), job).value) && IsStripped(s)
    ensures reports != [] && agent.llm.summarize(PyPrefix(reports, 3), job).None? ==>
      s == "Top candidate: " + Shown(reports[0].candidateName) + " with score "
           + agent.formatScore(reports[0].overallScore) + "/100"
  {
    if reports == [] then "No candidates to summarize."
    else
      var top3 := PyPrefix(reports, 3);
      match agent.llm.summarize(top3, job)
      case Some(text) => StripFacts(text); Strip(text)
      case None =>
        "Top candidate: " + Shown(top3[0].candidateName) + " with score "
        + agent.formatScore(top3[0].overallScore) + "/100"
  }

  /** Only the first three reports matter to the summary. */
  lemma SummaryUsesTopThree(agent: RankingAgent, a: seq<ScoreReport>, b: seq<ScoreReport>, job: JobContext)
    requires PyPrefix(a, 3) == PyPrefix(b, 3)
    ensures GenerateRankingSummary(agent, a, job) == GenerateRankingSummary(agent, b, job)
  {
    if a != [] && b != [] {
      assert a[0] == PyPrefix(a, 3)[0];
      assert b[0] == PyPrefix(b, 3)[0];
    }
  }
}
