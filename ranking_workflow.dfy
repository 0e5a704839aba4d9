/**
  The ranking workflow (app/workflows/ranking_workflow.py): find the candidate pool for
  a job, assess every candidate in it with failures isolated, and rank the results.
 */
module RankingWorkflow {
  import opened Wrappers
  import opened Collections
  import opened Sorting
  import opened Entities
  import opened ScoreReports
  import opened RankingAgents
  import opened Store
  import opened Assessment

  datatype RankError =
    | UnknownJob(jobId: string)

  /** The dictionary `compare_candidates` returns. */
  datatype Comparison = Comparison(
    jobId: string,
    jobTitle: string,
    candidatesCompared: int,
    rankings: seq<ScoreReport>,
    bestCandidate: Option<ScoreReport>,
    summary: string)

  /** `top_k or default`: a zero or absent `top_k` falls back to the default. */
  function TopKOr(topK: Option<int>, default: int): (r: int)
    ensures default != 0 ==> r != 0
    ensures topK.Some? && topK.value != 0 ==> r == topK.value
    ensures !(topK.Some? && topK.value != 0) ==> r == default
  {
    if topK.Some? && topK.value != 0 then topK.value else default
  }

  /** `if top_k:` */
  predicate TruthyInt(topK: Option<int>) {
    topK.Some? && topK.value != 0
  }

  /** The ids of some candidate rows: `{c.id for c in rows}`. */
  function IdSet(cs: seq<Candidate>): set<string> {
    set c | c in cs :: IdOf(c)
  }

  /** `for cand in rows: candidate_ids.add(cand.id)` */
  method AddIds(acc: set<string>, rows: seq<Candidate>) returns (r: set<string>)
    ensures r == acc + IdSet(rows)
  {
    r := acc;
    var i := 0;
    while i < |rows|
      invariant 0 <= i <= |rows|
      invariant r == acc + IdSet(rows[..i])
    {
      assert rows[..i + 1] == rows[..i] + [rows[i]];
      r := r + {IdOf(rows[i])};
      i := i + 1;
    }
    assert rows[..i] == rows;
  }

  /** The ids of the nearest neighbours of a truthy job embedding, `top_k or 50` of them. */
  function SimilarIds(vectors: VectorStore, jobEmbedding: Option<seq<real>>, topK: Option<int>): set<string> {
    if TruthySeq(jobEmbedding) then Elements(vectors.querySimilar(jobEmbedding.value, TopKOr(topK, 50))) else {}
  }

  /** The set of candidate ids `_find_candidates_for_job` collects: the job's direct
      applicants (the newest 100) and the nearest neighbours of the job embedding, or,
      when both are empty, the newest `top_k or 100` candidates overall. */
  function CandidatePool(
    db: DatabaseStore, vectors: VectorStore, jobId: string, jobEmbedding: Option<seq<real>>, topK: Option<int>): (pool: set<string>)
    reads db
    ensures IdSet(db.ListCandidates(Some(jobId), 100)) <= pool
    ensures TruthySeq(jobEmbedding) ==> Elements(vectors.querySimilar(jobEmbedding.value, TopKOr(topK, 50))) <= pool
    ensures var found := IdSet(db.ListCandidates(Some(jobId), 100)) + SimilarIds(vectors, jobEmbedding, topK);
      && pool <= found + IdSet(db.ListCandidates(None, TopKOr(topK, 100)))
      && (found != {} ==> pool == found)
      && (found == {} ==> pool == IdSet(db.ListCandidates(None, TopKOr(topK, 100))))
    ensures db.candidates != [] ==> pool != {}
  {
    var direct := IdSet(db.ListCandidates(Some(jobId), 100));
    var similar := SimilarIds(vectors, jobEmbedding, topK);
    var everyone := db.ListCandidates(None, TopKOr(topK, 100));
    NewestKept(db.candidates, TopKOr(topK, 100));
    assert db.candidates != [] ==> IdOf(everyone[0]) in IdSet(everyone);
    if direct + similar == {} then IdSet(everyone) else direct + similar
  }

  /** A non-zero `LIMIT` keeps the first row of a non-empty table. */
  lemma NewestKept(rows: seq<Candidate>, limit: int)
    requires limit != 0
    ensures rows != [] ==> SqlLimit(rows, limit) != [] && SqlLimit(rows, limit)[0] == rows[0]
  {
  }

  /** How many ids `_find_candidates_for_job` answers for a pool of `n`: all of them, or
      `result[:top_k]` when `top_k` is truthy. */
  function Shortlisted(n: nat, topK: Option<int>): nat {
    if TruthyInt(topK) then SliceLength(n, topK.value) else n
  }

  /** The collecting part of `_find_candidates_for_job`: its loops over the direct
      applicants and the similar ids, and the fallback to everyone. */
  method CollectPool(
    vectors: VectorStore, db: DatabaseStore, jobId: string, jobEmbedding: Option<seq<real>>, topK: Option<int>)
    returns (pool: set<string>)
    ensures pool == CandidatePool(db, vectors, jobId, jobEmbedding, topK)
  {
    pool := AddIds({}, db.ListCandidates(Some(jobId), 100));
    if TruthySeq(jobEmbedding) {
      var similar := vectors.querySimilar(jobEmbedding.value, TopKOr(topK, 50));
      pool := AddAll(pool, similar);
    }
    if pool == {} {
      pool := IdSet(db.ListCandidates(None, TopKOr(topK, 100)));
    }
  }

  /** `RankingWorkflow._find_candidates_for_job`: the pool in the order `list(set)` gives,
      cut to `top_k` when that is truthy. */
  method FindCandidatesForJob(
    vectors: VectorStore, db: DatabaseStore, jobId: string, jobEmbedding: Option<seq<real>>, topK: Option<int>)
    returns (ids: seq<string>)
    ensures var pool := CandidatePool(db, vectors, jobId, jobEmbedding, topK);
      && Distinct(ids)
      && Elements(ids) <= pool
      && |ids| == Shortlisted(|pool|, topK)
      && (!TruthyInt(topK) ==> Elements(ids) == pool)
  {
    var pool := CollectPool(vectors, db, jobId, jobEmbedding, topK);
    var all := ListOf(pool);
    if TruthyInt(topK) {
      ids := PyPrefix(all, topK.value);
      PrefixOfDistinct(all, topK.value);
      assert forall k :: 0 <= k < |ids| ==> ids[k] == all[k];
    } else {
      ids := all;
    }
  }

  /** `RankingWorkflow._get_job_embedding` */
  function GetJobEmbedding(vectors: VectorStore, jobId: string): (r: Option<seq<real>>)
    ensures r.Some? ==> r.value != [] && jobId in vectors.jobEmbeddings
  {
    GetEmbedding(vectors.jobEmbeddings, jobId)
  }

  /** `RankingWorkflow.rank_all_candidates`. Its loop, with failures logged and skipped, is
      the one `batch_assess` runs; `shortlist` is the pool it assessed and `outcomes` the
      answers of its calls. */
  method RankAllCandidates(
    agent: RankingAgent, vectors: VectorStore, db: DatabaseStore,
    jobId: string, topK: Option<int>, forceRefresh: bool)
    returns (r: Result<RankingReport, RankError>, ghost shortlist: seq<string>, ghost outcomes: seq<Result<ScoreReport, AssessError>>)
    requires db.Valid()
    modifies db
    ensures db.Valid()
    ensures db.jobs == old(db.jobs) && db.candidates == old(db.candidates) && db.emailLog == old(db.emailLog)
    ensures r.Err? <==> old(db.GetJob(jobId)).None?
    ensures r.Err? ==> r == Err(UnknownJob(jobId)) && db.reports == old(db.reports)
    ensures r.Ok? ==>
      var pool := old(CandidatePool(db, vectors, jobId, GetJobEmbedding(vectors, jobId), topK));
      && Distinct(shortlist) && Elements(shortlist) <= pool && |shortlist| == Shortlisted(|pool|, topK)
      && (!TruthyInt(topK) ==> Elements(shortlist) == pool)
    ensures r.Ok? ==>
      && BatchOutcomes(agent, vectors, old(db.candidates), old(db.jobs), old(db.reports), shortlist, jobId, forceRefresh, outcomes)
      && RowsAfter(old(db.reports), db.reports, outcomes)
      && multiset(r.value.rankings) == multiset(Successes(outcomes))
    ensures r.Ok? ==>
      var pool := old(CandidatePool(db, vectors, jobId, GetJobEmbedding(vectors, jobId), topK));
      var job := old(db.GetJob(jobId)).value;
      && r.value.jobId == jobId && r.value.jobTitle == job.jobTitle
      && r.value.totalCandidates == |r.value.rankings|
      && |r.value.rankings| <= Shortlisted(|pool|, topK)
      && SortedDesc(r.value.rankings, OverallScore)
      && (forall k :: 0 <= k < |r.value.rankings| ==>
            r.value.rankings[k].jobId == jobId && r.value.rankings[k].candidateId in pool)
      && (Shortlisted(|pool|, topK) == 0 ==>
            r.value.rankings == [] && r.value.topCandidatesSummary == Some("No candidates available for this position."))
      && (Shortlisted(|pool|, topK) != 0 ==>
            r.value.topCandidatesSummary == Some(GenerateRankingSummary(agent, r.value.rankings, job)))
  {
    shortlist, outcomes := [], [];
    var job := db.GetJob(jobId);
    if job.None? {
      return Err(UnknownJob(jobId)), shortlist, outcomes;
    }
    var jobEmbedding := GetJobEmbedding(vectors, jobId);
    var ids := FindCandidatesForJob(vectors, db, jobId, jobEmbedding, topK);
    shortlist := ids;
    if ids == [] {
      return Ok(RankingReport(jobId, job.value.jobTitle, 0, [], Some("No candidates available for this position."))), shortlist, outcomes;
    }
    var reports;
    reports, outcomes := BatchAssess(agent, vectors, db, ids, jobId, forceRefresh);
    BatchSuccessIds(agent, vectors, old(db.candidates), old(db.jobs), old(db.reports), ids, jobId, forceRefresh, outcomes);
    var ranked := SortDesc(reports, OverallScore);
    RankedFrom(reports, ids, jobId);
    var summary := GenerateRankingSummary(agent, ranked, job.value);
    r := Ok(RankingReport(jobId, job.value.jobTitle, |ranked|, ranked, Some(summary)));
  }

  /** Sorting the assessed reports keeps them all, their job and their candidates. */
  lemma RankedFrom(reports: seq<ScoreReport>, ids: seq<string>, jobId: string)
    requires forall x :: x in reports ==> x.candidateId in ids && x.jobId == jobId
    ensures var ranked := SortDesc(reports, OverallScore);
      && multiset(ranked) == multiset(reports) && |ranked| == |reports| && SortedDesc(ranked, OverallScore)
      && forall k :: 0 <= k < |ranked| ==> ranked[k].jobId == jobId && ranked[k].candidateId in ids
  {
    var ranked := SortDesc(reports, OverallScore);
    SortDescFacts(reports, OverallScore);
    forall k | 0 <= k < |ranked| ensures ranked[k].jobId == jobId && ranked[k].candidateId in ids {
      assert ranked[k] in multiset(reports);
    }
  }

  /** `RankingWorkflow.get_rankings` */
  function GetRankings(db: DatabaseStore, jobId: string): (r: seq<ScoreReport>)
    reads db
    ensures SortedDesc(r, OverallScore)
    ensures forall x :: x in r <==> x in db.reports && x.jobId == jobId
  {
    db.GetRankingsForJob(jobId)
  }

  /** A prefix of a descending list is descending. */
  lemma SortedPrefix(s: seq<ScoreReport>, k: int)
    requires SortedDesc(s, OverallScore)
    ensures SortedDesc(PyPrefix(s, k), OverallScore)
  {
    var p := PyPrefix(s, k);
    assert forall i :: 0 <= i < |p| ==> p[i] == s[i];
  }

  /** `RankingWorkflow.get_top_candidates`: the best `limit` stored reports (`[:limit]`,
      so a negative limit drops that many from the end). */
  function GetTopCandidates(db: DatabaseStore, jobId: string, limit: int): (r: seq<ScoreReport>)
    reads db
    ensures var all := GetRankings(db, jobId);
      && |r| == SliceLength(|all|, limit) && r == all[..|r|]
      && SortedDesc(r, OverallScore)
      && forall i, j :: 0 <= i < |r| <= j < |all| ==> all[j].overallScore <= r[i].overallScore
  {
    SortedPrefix(GetRankings(db, jobId), limit);
    PyPrefix(GetRankings(db, jobId), limit)
  }

  /** The candidate a report is for. */
  function ReportCandidate(x: ScoreReport): string {
    x.candidateId
  }

  /** The state of `compare_candidates` after the calls for `ids`, all successful: the
      run so far, with each id's report still the pair's row. */
  ghost predicate Compared(
    allowed: Allowance, before: seq<ScoreReport>, after: seq<ScoreReport>, ids: seq<string>, jobId: string,
    outcomes: seq<Result<ScoreReport, AssessError>>, reports: seq<ScoreReport>)
  {
    && |outcomes| == |ids| && |reports| == |ids|
    && AllAllowed(allowed, before, ids, jobId, outcomes)
    && RowsAfter(before, after, outcomes)
    && (forall k :: 0 <= k < |ids| ==> outcomes[k] == Ok(reports[k]))
    && (forall k :: 0 <= k < |ids| ==> Row(after, ids[k], jobId) == Some(reports[k]))
  }

  /** One more call in `compare_candidates`, for `ids[i]`: the run grows by its answer
      and, when that is a report, the state is kept (a repeated id is answered its stored
      row, which the call leaves alone). */
  lemma CompareStep(
    allowed: Allowance, before: seq<ScoreReport>, cur: seq<ScoreReport>, next: seq<ScoreReport>,
    ids: seq<string>, i: nat, jobId: string,
    outcomes: seq<Result<ScoreReport, AssessError>>, reports: seq<ScoreReport>, o: Result<ScoreReport, AssessError>)
    requires i < |ids|
    requires Compared(allowed, before, cur, ids[..i], jobId, outcomes, reports)
    requires allowed(Row(cur, ids[i], jobId), ids[i], o)
    requires Row(cur, ids[i], jobId).Some? ==> next == cur
    requires o.Ok? ==> o.value.candidateId == ids[i] && o.value.jobId == jobId && Row(next, ids[i], jobId) == Some(o.value)
    requires o.Err? ==> next == cur
    requires SameOtherRows(cur, next, ids[i], jobId)
    ensures AllAllowed(allowed, before, ids[..i + 1], jobId, outcomes + [o])
    ensures RowsAfter(before, next, outcomes + [o])
    ensures o.Err? ==>
      && (outcomes + [o])[|outcomes|] == o
      && forall k :: 0 <= k < |outcomes| ==> (outcomes + [o])[k].Ok?
    ensures o.Ok? ==> Compared(allowed, before, next, ids[..i + 1], jobId, outcomes + [o], reports + [o.value])
  {
    BatchStep(allowed, before, cur, next, ids, i, jobId, outcomes, o);
    if o.Ok? {
      RowsKept(cur, next, ids, i, jobId, reports, o.value);
    }
  }

  /** Each id assessed so far, the new one included, still has its report as its row. */
  lemma RowsKept(cur: seq<ScoreReport>, next: seq<ScoreReport>, ids: seq<string>, i: nat, jobId: string,
    reports: seq<ScoreReport>, o: ScoreReport)
    requires i < |ids| && |reports| == i
    requires forall k :: 0 <= k < i ==> Row(cur, ids[..i][k], jobId) == Some(reports[k])
    requires Row(cur, ids[i], jobId).Some? ==> next == cur
    requires Row(next, ids[i], jobId) == Some(o)
    requires SameOtherRows(cur, next, ids[i], jobId)
    ensures forall k :: 0 <= k < i + 1 ==> Row(next, ids[..i + 1][k], jobId) == Some((reports + [o])[k])
  {
    forall k | 0 <= k < i + 1 ensures Row(next, ids[..i + 1][k], jobId) == Some((reports + [o])[k]) {
      assert ids[..i + 1][k] == ids[k];
      if k < i {
        assert ids[..i][k] == ids[k];
        if ids[k] != ids[i] {
          assert (ids[k], jobId) != (ids[i], jobId);
        }
      }
    }
  }

  /** Without a forced refresh an existing row is reused. */
  lemma ReusePlan(
    agent: RankingAgent, vectors: VectorStore,
    existing: Option<ScoreReport>, candidate: Option<Candidate>, job: Option<JobContext>, candidateId: string, jobId: string)
    requires existing.Some?
    ensures PlanFor(agent, vectors, existing, candidate, job, candidateId, jobId, false) == Ok(Reuse(existing.value))
  {
  }

  /** Sorting the reports of a comparison: one per id asked for (a repeated id repeats
      its report), each the pair's stored row. */
  lemma SortedComparison(after: seq<ScoreReport>, ids: seq<string>, reports: seq<ScoreReport>, jobId: string)
    requires |reports| == |ids|
    requires forall k :: 0 <= k < |ids| ==> Row(after, ids[k], jobId) == Some(reports[k])
    ensures var ranked := SortDesc(reports, OverallScore);
      && |ranked| == |ids| && SortedDesc(ranked, OverallScore) && multiset(ranked) == multiset(reports)
      && multiset(Image(ReportCandidate, ranked)) == multiset(ids)
      && (forall k :: 0 <= k < |ranked| ==> ranked[k].jobId == jobId && ranked[k].candidateId in ids)
      && forall x :: x in ranked ==> Row(after, x.candidateId, jobId) == Some(x)
  {
    forall x | x in reports ensures x.candidateId in ids && x.jobId == jobId {
      var k :| 0 <= k < |reports| && reports[k] == x;
    }
    assert Image(ReportCandidate, reports) == ids;
    var ranked := SortDesc(reports, OverallScore);
    RankedFrom(reports, ids, jobId);
    ImagePermutation(ReportCandidate, ranked, reports);
    forall x | x in ranked ensures Row(after, x.candidateId, jobId) == Some(x) {
      assert x in multiset(reports);
      var k :| 0 <= k < |reports| && reports[k] == x;
    }
  }

  /** The rankings of a comparison in which every call succeeded: the sorted successes. */
  lemma CompareRanked(
    allowed: Allowance, before: seq<ScoreReport>, after: seq<ScoreReport>, ids: seq<string>, jobId: string,
    outcomes: seq<Result<ScoreReport, AssessError>>, reports: seq<ScoreReport>)
    requires Compared(allowed, before, after, ids, jobId, outcomes, reports)
    ensures |outcomes| == |ids| && forall k :: 0 <= k < |outcomes| ==> outcomes[k].Ok?
    ensures var ranked := SortDesc(reports, OverallScore);
      && |ranked| == |ids| && SortedDesc(ranked, OverallScore)
      && multiset(ranked) == multiset(Successes(outcomes))
      && multiset(Image(ReportCandidate, ranked)) == multiset(ids)
      && (forall k :: 0 <= k < |ranked| ==> ranked[k].jobId == jobId && ranked[k].candidateId in ids)
      && forall x :: x in ranked ==> Row(after, x.candidateId, jobId) == Some(x)
  {
    SuccessesOfAllOk(outcomes, reports);
    SortedComparison(after, ids, reports, jobId);
  }

  /** `RankingWorkflow.compare_candidates`: every id is assessed (reusing stored reports)
      and the first failure propagates, after the earlier ones were stored. */
  method CompareCandidates(
    agent: RankingAgent, vectors: VectorStore, db: DatabaseStore,
    candidateIds: seq<string>, jobId: string)
    returns (r: Result<Comparison, AssessError>, ghost outcomes: seq<Result<ScoreReport, AssessError>>)
    requires db.Valid()
    modifies db
    ensures db.Valid()
    ensures db.jobs == old(db.jobs) && db.candidates == old(db.candidates) && db.emailLog == old(db.emailLog)
    ensures |outcomes| <= |candidateIds|
    ensures BatchOutcomes(agent, vectors, old(db.candidates), old(db.jobs), old(db.reports),
      candidateIds[..|outcomes|], jobId, false, outcomes)
    ensures RowsAfter(old(db.reports), db.reports, outcomes)
    // the first failure is the answer, and nothing after it was assessed
    ensures r.Err? ==>
      && 0 < |outcomes| && outcomes[|outcomes| - 1] == Err(r.error)
      && forall k :: 0 <= k < |outcomes| - 1 ==> outcomes[k].Ok?
    ensures r.Ok? ==>
      && |outcomes| == |candidateIds| && (forall k :: 0 <= k < |outcomes| ==> outcomes[k].Ok?)
      && multiset(r.value.rankings) == multiset(Successes(outcomes))
      && multiset(Image(ReportCandidate, r.value.rankings)) == multiset(candidateIds)
      && forall x :: x in r.value.rankings ==> db.GetScoreReport(x.candidateId, jobId) == Some(x)
    ensures r.Ok? ==>
      && r.value.jobId == jobId
      && |r.value.rankings| == |candidateIds| && r.value.candidatesCompared == |candidateIds|
      && SortedDesc(r.value.rankings, OverallScore)
      && (forall k :: 0 <= k < |r.value.rankings| ==>
            r.value.rankings[k].jobId == jobId && r.value.rankings[k].candidateId in candidateIds)
      && r.value.bestCandidate == First(r.value.rankings)
    ensures r.Ok? && old(db.GetJob(jobId)).None? ==> r.value.jobTitle == "Unknown" && r.value.summary == ""
    ensures r.Ok? && old(db.GetJob(jobId)).Some? ==>
      r.value.jobTitle == old(db.GetJob(jobId)).value.jobTitle
      && r.value.summary == GenerateRankingSummary(agent, r.value.rankings, old(db.GetJob(jobId)).value)
  {
    var reports: seq<ScoreReport> := [];
    outcomes := [];
    var i := 0;
    while i < |candidateIds|
      invariant 0 <= i <= |candidateIds|
      invariant db.Valid()
      invariant db.jobs == old(db.jobs) && db.candidates == old(db.candidates) && db.emailLog == old(db.emailLog)
      invariant Compared(AllowedFor(agent, vectors, old(db.candidates), old(db.jobs), jobId, false), old(db.reports), db.reports,
        candidateIds[..i], jobId, outcomes, reports)
    {
      ghost var cur := db.reports;
      ghost var existing := Row(cur, candidateIds[i], jobId);
      if existing.Some? {
        ReusePlan(agent, vectors, existing, db.GetCandidate(candidateIds[i]), db.GetJob(jobId), candidateIds[i], jobId);
      }
      var report := AssessCandidate(agent, vectors, db, candidateIds[i], jobId, false);
      CompareStep(AllowedFor(agent, vectors, db.candidates, db.jobs, jobId, false), old(db.reports), cur, db.reports,
        candidateIds, i, jobId, outcomes, reports, report);
      outcomes := outcomes + [report];
      if report.Err? {
        return Err(report.error), outcomes;
      }
      reports := reports + [report.value];
      i := i + 1;
    }
    assert candidateIds[..i] == candidateIds;
    var ranked := SortDesc(reports, OverallScore);
    CompareRanked(AllowedFor(agent, vectors, old(db.candidates), old(db.jobs), jobId, false), old(db.reports), db.reports,
      candidateIds, jobId, outcomes, reports);
    var job := db.GetJob(jobId);
    var title := if job.Some? then job.value.jobTitle else "Unknown";
    var summary := if job.Some? then GenerateRankingSummary(agent, ranked, job.value) else "";
    r := Ok(Comparison(jobId, title, |ranked|, ranked, First(ranked), summary));
  }
}
