/**
  The assessment workflow (app/workflows/assessment_workflow.py): score one candidate
  against one job, reusing a stored report unless a refresh is forced, and store the
  result. The vector store is given as its two collections (id to embedding) and its
  nearest-neighbour query.
 */
module Assessment {
  import opened Wrappers
  import opened Collections
  import opened Entities
  import opened Scoring
  import opened ScoreReports
  import opened RankingAgents
  import opened Store

  /** The vector store: the candidate and job collections and `query_similar`, which
      answers the ids of the nearest candidates (`ids[0]` of the query result). */
  datatype VectorStore = VectorStore(
    candidateEmbeddings: map<string, seq<real>>,
    jobEmbeddings: map<string, seq<real>>,
    querySimilar: (seq<real>, int) -> seq<string>)

  datatype AssessError =
    | CandidateNotFound(candidateId: string)
    | JobNotFound(jobId: string)
    | Invalid(validation: ValidationError)
    | Storage(storage: StoreError)

  /** `_get_embedding`: an absent or empty embedding is `None`, never an error. */
  function GetEmbedding(collection: map<string, seq<real>>, id: string): (r: Option<seq<real>>)
    ensures r.Some? <==> id in collection && collection[id] != []
    ensures r.Some? ==> r.value == collection[id]
  {
    if id in collection && collection[id] != [] then Some(collection[id]) else None
  }

  /** The report `assess_candidate` builds for a loaded candidate and job, with its ids
      overwritten by the arguments, before it is stored. */
  function Rescore(
    agent: RankingAgent, vectors: VectorStore, candidate: Candidate, job: JobContext,
    candidateId: string, jobId: string): (r: Result<ScoreReport, ValidationError>)
    ensures r.Ok? ==> r.value.candidateId == candidateId && r.value.jobId == jobId && r.value.id.None?
    ensures r.Ok? ==> r.value.candidateName == candidate.name
    ensures BoundedWeights(agent.weights) ==> r.Ok?
  {
    var report :- GenerateCandidateRank(agent, candidate, job,
      GetEmbedding(vectors.candidateEmbeddings, candidateId), GetEmbedding(vectors.jobEmbeddings, jobId));
    Ok(report.(candidateId := candidateId, jobId := jobId))
  }

  /** What `assess_candidate` does with the rows it finds: return the stored report, or
      store a fresh one (shown before the store gives it its id). */
  datatype Plan = Reuse(report: ScoreReport) | Store(report: ScoreReport)

  /** The decision `assess_candidate` takes before it writes anything, from the pair's
      stored row and the candidate and job rows it looks up: a stored report wins unless
      a refresh is forced; then a missing candidate, then a missing job, is an error;
      otherwise the ranking agent's report for them is to be stored. */
  function PlanFor(
    agent: RankingAgent, vectors: VectorStore,
    existing: Option<ScoreReport>, candidate: Option<Candidate>, job: Option<JobContext>,
    candidateId: string, jobId: string, forceRefresh: bool): Result<Plan, AssessError>
  {
    if !forceRefresh && existing.Some? then Ok(Reuse(existing.value))
    else if candidate.None? then Err(CandidateNotFound(candidateId))
    else if job.None? then Err(JobNotFound(jobId))
    else
      var rescored := Rescore(agent, vectors, candidate.value, job.value, candidateId, jobId);
      if rescored.Err? then Err(Invalid(rescored.error)) else Ok(Store(rescored.value))
  }

  /** The plan for the rows the store holds now. */
  function AssessPlan(
    agent: RankingAgent, vectors: VectorStore, db: DatabaseStore,
    candidateId: string, jobId: string, forceRefresh: bool): Result<Plan, AssessError>
    reads db
  {
    PlanFor(agent, vectors, db.GetScoreReport(candidateId, jobId), db.GetCandidate(candidateId), db.GetJob(jobId),
      candidateId, jobId, forceRefresh)
  }

  /** The decision in words: the stored report is reused exactly when there is one and no
      refresh is forced; otherwise a missing candidate is reported before a missing job;
      with bounded weights the report never fails validation, and the report to store
      carries the requested ids and the candidate's name. */
  lemma AssessPlanOutcomes(
    agent: RankingAgent, vectors: VectorStore,
    existing: Option<ScoreReport>, candidate: Option<Candidate>, job: Option<JobContext>,
    candidateId: string, jobId: string, forceRefresh: bool)
    ensures var plan := PlanFor(agent, vectors, existing, candidate, job, candidateId, jobId, forceRefresh);
      var rescoring := forceRefresh || existing.None?;
      && (plan.Ok? && plan.value.Reuse? <==> !rescoring)
      && (!rescoring ==> plan == Ok(Reuse(existing.value)))
      && (plan == Err(CandidateNotFound(candidateId)) <==> rescoring && candidate.None?)
      && (plan == Err(JobNotFound(jobId)) <==> rescoring && candidate.Some? && job.None?)
      && (BoundedWeights(agent.weights) ==> plan.Err? ==> !plan.error.Invalid?)
      && (plan.Ok? && plan.value.Store? ==>
            && plan.value.report.id.None?
            && plan.value.report.candidateId == candidateId && plan.value.report.jobId == jobId
            && plan.value.report.candidateName == candidate.value.name)
  {
  }

  /** The answers `assess_candidate` can give for a plan: the plan's error, the reused
      report, or the report to store with the "SCORE-" id the store gave it, unless the
      store itself fails. */
  predicate Allowed(plan: Result<Plan, AssessError>, r: Result<ScoreReport, AssessError>) {
    match plan
    case Err(e) => r == Err(e)
    case Ok(Reuse(report)) => r == Ok(report)
    case Ok(Store(report)) =>
      || (r.Ok? && r.value == report.(id := r.value.id) && r.value.id.Some? && HasPrefix(r.value.id.value, "SCORE-"))
      || (r.Err? && r.error.Storage?)
  }

  /** `AssessmentWorkflow.assess_candidate` */
  method AssessCandidate(
    agent: RankingAgent, vectors: VectorStore, db: DatabaseStore,
    candidateId: string, jobId: string, forceRefresh: bool) returns (r: Result<ScoreReport, AssessError>)
    requires db.Valid()
    modifies db
    ensures db.Valid()
    ensures db.jobs == old(db.jobs) && db.candidates == old(db.candidates) && db.emailLog == old(db.emailLog)
    ensures var plan := old(AssessPlan(agent, vectors, db, candidateId, jobId, forceRefresh));
      && (plan.Err? ==> r == Err(plan.error))
      && (plan.Ok? && plan.value.Reuse? ==> r == Ok(plan.value.report) && db.reports == old(db.reports))
      && (plan.Ok? && plan.value.Store? && r.Ok? ==>
           && r.value == plan.value.report.(id := r.value.id)
           && r.value.id.Some? && HasPrefix(r.value.id.value, "SCORE-")
           && db.reports == Filter(old(db.reports), NotPair(candidateId, jobId)) + [r.value])
    ensures Allowed(old(AssessPlan(agent, vectors, db, candidateId, jobId, forceRefresh)), r)
    ensures r.Err? ==> db.reports == old(db.reports)
    ensures SameOtherRows(old(db.reports), db.reports, candidateId, jobId)
    // whichever way it succeeds, the report is the pair's stored row
    ensures r.Ok? ==>
      r.value.candidateId == candidateId && r.value.jobId == jobId && db.GetScoreReport(candidateId, jobId) == Some(r.value)
  {
    if !forceRefresh {
      var existing := db.GetScoreReport(candidateId, jobId);
      if existing.Some? {
        return Ok(existing.value);
      }
    }
    var candidate := db.GetCandidate(candidateId);
    if candidate.None? {
      return Err(CandidateNotFound(candidateId));
    }
    var job := db.GetJob(jobId);
    if job.None? {
      return Err(JobNotFound(jobId));
    }
    var rescored := Rescore(agent, vectors, candidate.value, job.value, candidateId, jobId);
    if rescored.Err? {
      return Err(Invalid(rescored.error));
    }
    var report := rescored.value;
    var stored := db.CreateScoreReport(report);
    if stored.Err? {
      return Err(Storage(stored.error));
    }
    report := report.(id := Some(stored.value));
    OnePerPair(old(db.reports), report);
    forall c, j | (c, j) != (candidateId, jobId) ensures Row(db.reports, c, j) == Row(old(db.reports), c, j) {
      OtherPairsUnchanged(old(db.reports), report, c, j);
    }
    r := Ok(report);
  }

  /** `AssessmentWorkflow.assess_candidate_direct`: scoring with the records' own
      embeddings and no store at all. */
  function AssessCandidateDirect(agent: RankingAgent, candidate: Candidate, job: JobContext): (r: Result<ScoreReport, ValidationError>)
    ensures BoundedWeights(agent.weights) ==> r.Ok?
    ensures r.Ok? ==>
      r.value.id.None? && r.value.candidateId == OrDefault(candidate.id, "unknown") && r.value.jobId == OrDefault(job.id, "unknown")
  {
    GenerateCandidateRank(agent, candidate, job, candidate.embeddingVector, job.embeddingVector)
  }

  /** `AssessmentWorkflow.get_assessment`: a read of the pair's row. */
  function GetAssessment(db: DatabaseStore, candidateId: string, jobId: string): (r: Option<ScoreReport>)
    reads db
    ensures r.Some? ==> r.value in db.reports && r.value.candidateId == candidateId && r.value.jobId == jobId
    ensures r.None? ==> forall x :: x in db.reports ==> !(x.candidateId == candidateId && x.jobId == jobId)
  {
    db.GetScoreReport(candidateId, jobId)
  }

  // ------------------------------------------------------------ a run of assessments

  /** `o` is a successful assessment of the pair. */
  predicate SuccessFor(o: Result<ScoreReport, AssessError>, candidateId: string, jobId: string) {
    o.Ok? && o.value.candidateId == candidateId && o.value.jobId == jobId
  }

  /** An allowed success is a report for the pair asked about, when the stored row is. */
  lemma AllowedIds(
    agent: RankingAgent, vectors: VectorStore,
    existing: Option<ScoreReport>, candidate: Option<Candidate>, job: Option<JobContext>,
    candidateId: string, jobId: string, forceRefresh: bool, o: Result<ScoreReport, AssessError>)
    requires Allowed(PlanFor(agent, vectors, existing, candidate, job, candidateId, jobId, forceRefresh), o)
    requires existing.Some? ==> existing.value.candidateId == candidateId && existing.value.jobId == jobId
    ensures o.Ok? ==> SuccessFor(o, candidateId, jobId)
  {
  }

  /** The pair's row after a run of assessments that started from the rows `before`: the
      report of the last successful one for the pair, or the row it had. */
  function RowAfter(
    before: seq<ScoreReport>, outcomes: seq<Result<ScoreReport, AssessError>>, candidateId: string, jobId: string): (r: Option<ScoreReport>)
    ensures r.Some? ==> r.value.candidateId == candidateId && r.value.jobId == jobId
    ensures r.Some? ==> Row(before, candidateId, jobId) == r || Ok(r.value) in outcomes
    decreases |outcomes|
  {
    if outcomes == [] then Row(before, candidateId, jobId)
    else
      var last := outcomes[|outcomes| - 1];
      if SuccessFor(last, candidateId, jobId) then Some(last.value)
      else RowAfter(before, outcomes[..|outcomes| - 1], candidateId, jobId)
  }

  /** Every pair's row in `after` is its row after the run. */
  ghost predicate RowsAfter(before: seq<ScoreReport>, after: seq<ScoreReport>, outcomes: seq<Result<ScoreReport, AssessError>>) {
    forall c, j :: Row(after, c, j) == RowAfter(before, outcomes, c, j)
  }

  /** Which answers, for an id and the pair's row at the time, a call may give. */
  type Allowance = (Option<ScoreReport>, string, Result<ScoreReport, AssessError>) -> bool

  /** A run of calls over `ids`, for one job: one answer per id, each allowed against the
      rows the earlier answers left. */
  ghost predicate AllAllowed(
    allowed: Allowance, before: seq<ScoreReport>, ids: seq<string>, jobId: string,
    outcomes: seq<Result<ScoreReport, AssessError>>)
  {
    && |outcomes| == |ids|
    && forall i :: 0 <= i < |ids| ==> allowed(RowAfter(before, outcomes[..i], ids[i], jobId), ids[i], outcomes[i])
  }

  /** The answers `assess_candidate` allows for an id of the job, given the pair's row. */
  function AllowedFor(
    agent: RankingAgent, vectors: VectorStore, candidates: seq<Candidate>, jobs: map<string, JobContext>,
    jobId: string, forceRefresh: bool): Allowance
  {
    (existing: Option<ScoreReport>, c: string, o: Result<ScoreReport, AssessError>) =>
      Allowed(PlanFor(agent, vectors, existing, FindCandidate(candidates, c), FindJob(jobs, jobId), c, jobId, forceRefresh), o)
  }

  /** The answers a run of `assess_candidate` calls over `ids`, for one job, can give: one
      per id, each one its plan allows against the rows the earlier calls left. */
  ghost predicate BatchOutcomes(
    agent: RankingAgent, vectors: VectorStore, candidates: seq<Candidate>, jobs: map<string, JobContext>,
    before: seq<ScoreReport>, ids: seq<string>, jobId: string, forceRefresh: bool,
    outcomes: seq<Result<ScoreReport, AssessError>>)
  {
    AllAllowed(AllowedFor(agent, vectors, candidates, jobs, jobId, forceRefresh), before, ids, jobId, outcomes)
  }

  /** The reports of the successful assessments, in order. */
  function Successes(outcomes: seq<Result<ScoreReport, AssessError>>): (r: seq<ScoreReport>)
    ensures |r| <= |outcomes|
    ensures forall x :: x in r <==> Ok(x) in outcomes
    ensures |r| == |outcomes| <==> forall k :: 0 <= k < |outcomes| ==> outcomes[k].Ok?
    decreases |outcomes|
  {
    if outcomes == [] then []
    else
      var init := outcomes[..|outcomes| - 1];
      var last := outcomes[|outcomes| - 1];
      assert outcomes == init + [last];
      Successes(init) + if last.Ok? then [last.value] else []
  }

  /** One more answer adds its report, if any, at the end. */
  lemma SuccessesSnoc(outcomes: seq<Result<ScoreReport, AssessError>>, o: Result<ScoreReport, AssessError>)
    ensures Successes(outcomes + [o]) == Successes(outcomes) + if o.Ok? then [o.value] else []
  {
    assert (outcomes + [o])[..|outcomes|] == outcomes;
  }

  /** When every call succeeded, the successes are the reports answered, in order. */
  lemma {:induction false} SuccessesOfAllOk(outcomes: seq<Result<ScoreReport, AssessError>>, reports: seq<ScoreReport>)
    requires |outcomes| == |reports|
    requires forall k :: 0 <= k < |outcomes| ==> outcomes[k] == Ok(reports[k])
    ensures Successes(outcomes) == reports
    decreases |outcomes|
  {
    if outcomes != [] {
      var n := |outcomes| - 1;
      SuccessesOfAllOk(outcomes[..n], reports[..n]);
      assert reports == reports[..n] + [reports[n]];
    }
  }

  /** One more call, for `ids[i]`, with the answer `o` taking the rows from `cur` to
      `next`, extends the run. */
  lemma BatchStep(
    allowed: Allowance, before: seq<ScoreReport>, cur: seq<ScoreReport>, next: seq<ScoreReport>,
    ids: seq<string>, i: nat, jobId: string, outcomes: seq<Result<ScoreReport, AssessError>>, o: Result<ScoreReport, AssessError>)
    requires i < |ids|
    requires AllAllowed(allowed, before, ids[..i], jobId, outcomes)
    requires RowsAfter(before, cur, outcomes)
    requires allowed(Row(cur, ids[i], jobId), ids[i], o)
    requires o.Ok? ==> o.value.candidateId == ids[i] && o.value.jobId == jobId && Row(next, ids[i], jobId) == Some(o.value)
    requires o.Err? ==> next == cur
    requires SameOtherRows(cur, next, ids[i], jobId)
    ensures AllAllowed(allowed, before, ids[..i + 1], jobId, outcomes + [o])
    ensures RowsAfter(before, next, outcomes + [o])
  {
    var outs := outcomes + [o];
    assert outs[..|outcomes|] == outcomes;
    assert ids[..i + 1] == ids[..i] + [ids[i]];
    forall k | 0 <= k < i + 1 ensures allowed(RowAfter(before, outs[..k], ids[k], jobId), ids[k], outs[k]) {
      if k < i {
        assert outs[..k] == outcomes[..k];
        assert ids[..i][k] == ids[k];
      }
    }
    forall c', j ensures Row(next, c', j) == RowAfter(before, outs, c', j) {
      assert Row(cur, c', j) == RowAfter(before, outcomes, c', j);
    }
  }

  /** A successful answer is a report for its own id and the job. */
  lemma BatchSuccessIds(
    agent: RankingAgent, vectors: VectorStore, candidates: seq<Candidate>, jobs: map<string, JobContext>,
    before: seq<ScoreReport>, ids: seq<string>, jobId: string, forceRefresh: bool,
    outcomes: seq<Result<ScoreReport, AssessError>>)
    requires BatchOutcomes(agent, vectors, candidates, jobs, before, ids, jobId, forceRefresh, outcomes)
    ensures forall i :: 0 <= i < |ids| && outcomes[i].Ok? ==> SuccessFor(outcomes[i], ids[i], jobId)
    ensures forall x :: x in Successes(outcomes) ==> x.candidateId in ids && x.jobId == jobId
  {
    forall i | 0 <= i < |ids| ensures outcomes[i].Ok? ==> SuccessFor(outcomes[i], ids[i], jobId) {
      AllowedIds(agent, vectors, RowAfter(before, outcomes[..i], ids[i], jobId),
        FindCandidate(candidates, ids[i]), FindJob(jobs, jobId), ids[i], jobId, forceRefresh, outcomes[i]);
    }
    forall x | x in Successes(outcomes) ensures x.candidateId in ids && x.jobId == jobId {
      var i :| 0 <= i < |outcomes| && outcomes[i] == Ok(x);
      assert SuccessFor(outcomes[i], ids[i], jobId);
    }
  }

  /** With bounded weights, a candidate and a job that exist, every answer is a report
      unless the store fails. */
  lemma BatchBounded(
    agent: RankingAgent, vectors: VectorStore, candidates: seq<Candidate>, jobs: map<string, JobContext>,
    before: seq<ScoreReport>, ids: seq<string>, jobId: string, forceRefresh: bool,
    outcomes: seq<Result<ScoreReport, AssessError>>, i: nat)
    requires BatchOutcomes(agent, vectors, candidates, jobs, before, ids, jobId, forceRefresh, outcomes)
    requires i < |ids| && BoundedWeights(agent.weights)
    requires FindCandidate(candidates, ids[i]).Some? && jobId in jobs
    ensures outcomes[i].Ok? || outcomes[i].error.Storage?
  {
  }

  /** A pair no successful answer is for keeps its row. */
  lemma {:induction false} RowAfterUntouched(
    before: seq<ScoreReport>, outcomes: seq<Result<ScoreReport, AssessError>>, n: nat, candidateId: string, jobId: string)
    requires n <= |outcomes|
    requires forall k :: 0 <= k < n ==> !SuccessFor(outcomes[k], candidateId, jobId)
    ensures RowAfter(before, outcomes[..n], candidateId, jobId) == Row(before, candidateId, jobId)
    decreases n
  {
    if n > 0 {
      assert outcomes[..n][..n - 1] == outcomes[..n - 1];
      RowAfterUntouched(before, outcomes, n - 1, candidateId, jobId);
    }
  }

  /** A pair that has a row keeps one. */
  lemma {:induction false} RowAfterKept(
    before: seq<ScoreReport>, outcomes: seq<Result<ScoreReport, AssessError>>, candidateId: string, jobId: string)
    requires Row(before, candidateId, jobId).Some?
    ensures RowAfter(before, outcomes, candidateId, jobId).Some?
    decreases |outcomes|
  {
    if outcomes != [] {
      RowAfterKept(before, outcomes[..|outcomes| - 1], candidateId, jobId);
    }
  }

  /** Without a forced refresh a stored report is reused: the first call for an id with a
      row answers that row, and every call for it succeeds. */
  lemma BatchReuse(
    agent: RankingAgent, vectors: VectorStore, candidates: seq<Candidate>, jobs: map<string, JobContext>,
    before: seq<ScoreReport>, ids: seq<string>, jobId: string,
    outcomes: seq<Result<ScoreReport, AssessError>>, i: nat)
    requires BatchOutcomes(agent, vectors, candidates, jobs, before, ids, jobId, false, outcomes)
    requires i < |ids| && Row(before, ids[i], jobId).Some?
    ensures outcomes[i].Ok?
    ensures ids[i] !in ids[..i] ==> outcomes[i] == Ok(Row(before, ids[i], jobId).value)
  {
    RowAfterKept(before, outcomes[..i], ids[i], jobId);
    if ids[i] !in ids[..i] {
      BatchSuccessIds(agent, vectors, candidates, jobs, before, ids, jobId, false, outcomes);
      forall k | 0 <= k < i
        ensures !SuccessFor(outcomes[k], ids[i], jobId)
      {
        assert ids[..i][k] == ids[k];
      }
      RowAfterUntouched(before, outcomes, i, ids[i], jobId);
    }
  }

  /** A candidate or a job that does not exist fails every call that has to rescore it:
      the candidate is reported first. */
  lemma {:induction false} BatchNotFound(
    agent: RankingAgent, vectors: VectorStore, candidates: seq<Candidate>, jobs: map<string, JobContext>,
    before: seq<ScoreReport>, ids: seq<string>, jobId: string, forceRefresh: bool,
    outcomes: seq<Result<ScoreReport, AssessError>>, i: nat)
    requires BatchOutcomes(agent, vectors, candidates, jobs, before, ids, jobId, forceRefresh, outcomes)
    requires i < |ids| && (forceRefresh || Row(before, ids[i], jobId).None?)
    requires FindCandidate(candidates, ids[i]).None? || jobId !in jobs
    ensures outcomes[i] ==
      if FindCandidate(candidates, ids[i]).None? then Err(CandidateNotFound(ids[i])) else Err(JobNotFound(jobId))
    decreases i
  {
    if !forceRefresh {
      BatchSuccessIds(agent, vectors, candidates, jobs, before, ids, jobId, forceRefresh, outcomes);
      forall k | 0 <= k < i
        ensures !SuccessFor(outcomes[k], ids[i], jobId)
      {
        if SuccessFor(outcomes[k], ids[i], jobId) {
          BatchNotFound(agent, vectors, candidates, jobs, before, ids, jobId, forceRefresh, outcomes, k);
        }
      }
      RowAfterUntouched(before, outcomes, i, ids[i], jobId);
    }
  }

  /** `AssessmentWorkflow.batch_assess`: one call per id, failures skipped; the answer is
      the successful reports in input order. */
  method BatchAssess(
    agent: RankingAgent, vectors: VectorStore, db: DatabaseStore,
    candidateIds: seq<string>, jobId: string, forceRefresh: bool)
    returns (reports: seq<ScoreReport>, ghost outcomes: seq<Result<ScoreReport, AssessError>>)
    requires db.Valid()
    modifies db
    ensures db.Valid()
    ensures db.jobs == old(db.jobs) && db.candidates == old(db.candidates) && db.emailLog == old(db.emailLog)
    ensures |outcomes| == |candidateIds|
    ensures BatchOutcomes(agent, vectors, old(db.candidates), old(db.jobs), old(db.reports), candidateIds, jobId, forceRefresh, outcomes)
    ensures RowsAfter(old(db.reports), db.reports, outcomes)
    ensures reports == Successes(outcomes)
  {
    reports := [];
    outcomes := [];
    var i := 0;
    while i < |candidateIds|
      invariant 0 <= i <= |candidateIds|
      invariant db.Valid()
      invariant db.jobs == old(db.jobs) && db.candidates == old(db.candidates) && db.emailLog == old(db.emailLog)
      invariant BatchOutcomes(agent, vectors, old(db.candidates), old(db.jobs), old(db.reports), candidateIds[..i], jobId, forceRefresh, outcomes)
      invariant RowsAfter(old(db.reports), db.reports, outcomes)
      invariant reports == Successes(outcomes)
    {
      ghost var cur := db.reports;
      var report := AssessCandidate(agent, vectors, db, candidateIds[i], jobId, forceRefresh);
      BatchStep(AllowedFor(agent, vectors, db.candidates, db.jobs, jobId, forceRefresh), old(db.reports), cur, db.reports,
        candidateIds, i, jobId, outcomes, report);
      SuccessesSnoc(outcomes, report);
      if report.Ok? {
        reports := reports + [report.value];
      }
      outcomes := outcomes + [report];
      i := i + 1;
    }
    assert candidateIds[..i] == candidateIds;
  }
}
