/**
  The persistent tables (app/database/store.py) as an object whose fields are the
  tables. A statement that fails inside a connection rolls the whole transaction
  back, so an operation that fails leaves every table as it was.

  The `created_at` column orders candidates newest first; the candidate list here is
  kept in that order. Score reports are kept in insertion order, and `ORDER BY
  overall_score DESC` is a stable sort of that order. Embeddings are not columns, so a
  row read back has no embedding. A generated id (`uuid4().hex[:8].upper()`) is an
  arbitrary string after its prefix.
 */
module Store {
  import opened Wrappers
  import opened Text
  import opened Collections
  import opened Sorting
  import opened Entities
  import opened ScoreReports

  /** A row of `email_log` (the timestamps are left out). */
  datatype EmailLogEntry = EmailLogEntry(
    id: string,
    messageId: string,
    subject: string,
    sender: string,
    status: string,
    jobId: Option<string>,
    candidateId: Option<string>,
    errorMessage: Option<string>)

  /** The dictionary `delete_candidates_by_job` returns. */
  datatype DeletedCandidates = DeletedCandidates(deletedCandidateIds: seq<string>, resumePaths: seq<string>)

  /** An `INSERT` whose primary key is already taken. */
  datatype StoreError = DuplicateKey(key: string)

  // ------------------------------------------------------------- row keys

  function PairKey(r: ScoreReport): (string, string) { (r.candidateId, r.jobId) }
  function ReportId(r: ScoreReport): Option<string> { r.id }
  function CandidateKey(c: Candidate): Option<string> { c.id }
  function LogId(e: EmailLogEntry): string { e.id }
  function LogMessageId(e: EmailLogEntry): string { e.messageId }

  /** The id of a stored candidate row (every stored row has one). */
  function IdOf(c: Candidate): string { if c.id.Some? then c.id.value else "" }

  function Ids(cs: seq<Candidate>): (r: seq<string>)
    ensures |r| == |cs| && forall i :: 0 <= i < |cs| ==> r[i] == IdOf(cs[i])
  {
    seq(|cs|, i requires 0 <= i < |cs| => IdOf(cs[i]))
  }

  /** `[r['resume_file_path'] for r in rows if r['resume_file_path']]` */
  function ResumePaths(cs: seq<Candidate>): (r: seq<string>)
    ensures |r| <= |cs|
    decreases |cs|
  {
    if cs == [] then []
    else (if Truthy(cs[0].resumeFilePath) then [cs[0].resumeFilePath.value] else []) + ResumePaths(cs[1..])
  }

  predicate HasPrefix(s: string, prefix: string) {
    |prefix| <= |s| && s[..|prefix|] == prefix
  }

  // ----------------------------------------------------- WHERE conditions

  function IsPair(candidateId: string, jobId: string): ScoreReport -> bool {
    (r: ScoreReport) => r.candidateId == candidateId && r.jobId == jobId
  }

  function NotPair(candidateId: string, jobId: string): ScoreReport -> bool {
    (r: ScoreReport) => !(r.candidateId == candidateId && r.jobId == jobId)
  }

  function OfJob(jobId: string): ScoreReport -> bool {
    (r: ScoreReport) => r.jobId == jobId
  }

  function NotOfJob(jobId: string): ScoreReport -> bool {
    (r: ScoreReport) => r.jobId != jobId
  }

  function NotOfCandidate(candidateId: string): ScoreReport -> bool {
    (r: ScoreReport) => r.candidateId != candidateId
  }

  function NotOfCandidates(ids: seq<string>): ScoreReport -> bool {
    (r: ScoreReport) => r.candidateId !in ids
  }

  /** A report that survives `delete_candidates_by_job`. */
  function KeptAfterJobDelete(jobId: string, ids: seq<string>): ScoreReport -> bool {
    (r: ScoreReport) => r.candidateId !in ids && r.jobId != jobId
  }

  function WithId(candidateId: string): Candidate -> bool {
    (c: Candidate) => c.id == Some(candidateId)
  }

  function NotWithId(candidateId: string): Candidate -> bool {
    (c: Candidate) => c.id != Some(candidateId)
  }

  function NotWithIds(ids: seq<string>): Candidate -> bool {
    (c: Candidate) => IdOf(c) !in ids
  }

  function AppliedTo(jobId: string): Candidate -> bool {
    (c: Candidate) => c.jobId == Some(jobId)
  }

  function NotAppliedTo(jobId: string): Candidate -> bool {
    (c: Candidate) => c.jobId != Some(jobId)
  }

  function WithMessageId(messageId: string): EmailLogEntry -> bool {
    (e: EmailLogEntry) => e.messageId == messageId
  }

  function NotConflicting(logId: string, messageId: string): EmailLogEntry -> bool {
    (e: EmailLogEntry) => e.id != logId && e.messageId != messageId
  }

  /** SQLite's `LIMIT n`: a negative limit means no limit. */
  function SqlLimit<T>(s: seq<T>, limit: int): (r: seq<T>)
    ensures |r| <= |s| && r == s[..|r|]
    ensures limit < 0 ==> r == s
    ensures limit >= 0 ==> |r| == if limit < |s| then limit else |s|
  {
    if limit < 0 then s else PyPrefix(s, limit)
  }

  /** The first row `fetchone` returns. */
  function First<T>(rows: seq<T>): Option<T> {
    if rows == [] then None else Some(rows[0])
  }

  // ------------------------------------------------------- lookups on rows

  /** The candidate row with that id, if any. */
  function FindCandidate(candidates: seq<Candidate>, candidateId: string): (r: Option<Candidate>)
    ensures r.Some? ==> r.value in candidates && r.value.id == Some(candidateId)
    ensures r.None? ==> forall c :: c in candidates ==> c.id != Some(candidateId)
  {
    FilterEmpty(candidates, WithId(candidateId));
    FilterMembers(candidates, WithId(candidateId));
    First(Filter(candidates, WithId(candidateId)))
  }

  /** The job with that id, if any. */
  function FindJob(jobs: map<string, JobContext>, jobId: string): (r: Option<JobContext>)
    ensures r.Some? <==> jobId in jobs
    ensures r.Some? ==> r.value == jobs[jobId]
  {
    if jobId in jobs then Some(jobs[jobId]) else None
  }

  /** The score report row of a (candidate, job) pair, if any. */
  function Row(reports: seq<ScoreReport>, candidateId: string, jobId: string): (r: Option<ScoreReport>)
    ensures r.Some? ==> r.value in reports && r.value.candidateId == candidateId && r.value.jobId == jobId
    ensures r.None? ==> forall x :: x in reports ==> !(x.candidateId == candidateId && x.jobId == jobId)
  {
    FilterEmpty(reports, IsPair(candidateId, jobId));
    FilterMembers(reports, IsPair(candidateId, jobId));
    First(Filter(reports, IsPair(candidateId, jobId)))
  }

  /** Every pair other than (`candidateId`, `jobId`) has the same row in both tables. */
  ghost predicate SameOtherRows(before: seq<ScoreReport>, after: seq<ScoreReport>, candidateId: string, jobId: string) {
    forall c, j :: (c, j) != (candidateId, jobId) ==> Row(after, c, j) == Row(before, c, j)
  }

  // -------------------------------------------------- score report table

  /** After the delete-then-insert of `create_score_report` the pair has exactly one row,
      the inserted one. */
  lemma OnePerPair(reports: seq<ScoreReport>, row: ScoreReport)
    ensures Filter(Filter(reports, NotPair(row.candidateId, row.jobId)) + [row], IsPair(row.candidateId, row.jobId)) == [row]
  {
    var kept := Filter(reports, NotPair(row.candidateId, row.jobId));
    FilterMembers(reports, NotPair(row.candidateId, row.jobId));
    FilterAppend(kept, [row], IsPair(row.candidateId, row.jobId));
    FilterEmpty(kept, IsPair(row.candidateId, row.jobId));
  }

  /** When no two rows share a pair, which `CreateScoreReport`'s delete-then-insert keeps
      (the schema has no such constraint), a pair never has more than one row. */
  lemma {:induction false} AtMostOnePerPair(reports: seq<ScoreReport>, candidateId: string, jobId: string)
    requires Unique(reports, PairKey)
    ensures |Filter(reports, IsPair(candidateId, jobId))| <= 1
    decreases |reports|
  {
    if reports != [] {
      assert reports == [reports[0]] + reports[1..];
      UniqueCons(reports[0], reports[1..], PairKey);
      AtMostOnePerPair(reports[1..], candidateId, jobId);
      if IsPair(candidateId, jobId)(reports[0]) {
        FilterEmpty(reports[1..], IsPair(candidateId, jobId));
      }
    }
  }

  /** ...and the rows of every other pair are untouched. */
  lemma OtherPairsUnchanged(reports: seq<ScoreReport>, row: ScoreReport, candidateId: string, jobId: string)
    requires (candidateId, jobId) != PairKey(row)
    ensures Filter(Filter(reports, NotPair(row.candidateId, row.jobId)) + [row], IsPair(candidateId, jobId))
         == Filter(reports, IsPair(candidateId, jobId))
  {
    var kept := Filter(reports, NotPair(row.candidateId, row.jobId));
    FilterAppend(kept, [row], IsPair(candidateId, jobId));
    FilterNested(reports, IsPair(candidateId, jobId), NotPair(row.candidateId, row.jobId));
  }

  /** The candidates of a job, with primary keys unique, are the rows whose id is among
      theirs: deleting by those ids deletes exactly the job's candidates. */
  lemma DeleteByIdsIsByJob(candidates: seq<Candidate>, jobId: string)
    requires forall c :: c in candidates ==> c.id.Some?
    requires Unique(candidates, CandidateKey)
    ensures Filter(candidates, NotWithIds(Ids(Filter(candidates, AppliedTo(jobId)))))
         == Filter(candidates, NotAppliedTo(jobId))
  {
    var rows := Filter(candidates, AppliedTo(jobId));
    var ids := Ids(rows);
    FilterMembers(candidates, AppliedTo(jobId));
    forall c | c in candidates ensures NotWithIds(ids)(c) <==> NotAppliedTo(jobId)(c) {
      var i :| 0 <= i < |candidates| && candidates[i] == c;
      if c.jobId == Some(jobId) {
        assert c in rows;
        var k :| 0 <= k < |rows| && rows[k] == c;
        assert ids[k] == IdOf(c);
      }
      if IdOf(c) in ids {
        var k :| 0 <= k < |ids| && ids[k] == IdOf(c);
        var d := rows[k];
        var j :| 0 <= j < |candidates| && candidates[j] == d;
        assert CandidateKey(candidates[i]) == CandidateKey(candidates[j]);
        assert c == d;
      }
    }
    FilterCongruent(candidates, NotWithIds(ids), NotAppliedTo(jobId));
  }

  /** The report rows a `DELETE` keeps still have their ids and unique keys. */
  lemma KeptReports(rows: seq<ScoreReport>, p: ScoreReport -> bool)
    requires forall r :: r in rows ==> r.id.Some?
    requires Unique(rows, ReportId) && Unique(rows, PairKey)
    ensures forall r :: r in Filter(rows, p) ==> r in rows && p(r) && r.id.Some?
    ensures Unique(Filter(rows, p), ReportId) && Unique(Filter(rows, p), PairKey)
  {
    FilterMembers(rows, p);
    UniqueFilter(rows, p, ReportId);
    UniqueFilter(rows, p, PairKey);
  }

  /** The candidate rows a `DELETE` keeps still have their ids, no embedding, and unique
      keys. */
  lemma KeptCandidates(rows: seq<Candidate>, p: Candidate -> bool)
    requires forall c :: c in rows ==> c.id.Some? && c.embeddingVector.None?
    requires Unique(rows, CandidateKey)
    ensures forall c :: c in Filter(rows, p) ==> c in rows && p(c) && c.id.Some? && c.embeddingVector.None?
    ensures Unique(Filter(rows, p), CandidateKey)
  {
    FilterMembers(rows, p);
    UniqueFilter(rows, p, CandidateKey);
  }

  /** The two report deletes of `delete_candidates_by_job` (by candidate when there are
      candidates, then by job) keep exactly what one combined condition keeps. */
  lemma ReportsAfterJobDelete(rows: seq<ScoreReport>, jobId: string, ids: seq<string>)
    ensures Filter(Filter(rows, NotOfCandidates(ids)), NotOfJob(jobId)) == Filter(rows, KeptAfterJobDelete(jobId, ids))
    ensures ids == [] ==> Filter(rows, NotOfJob(jobId)) == Filter(rows, KeptAfterJobDelete(jobId, ids))
  {
    FilterTwice(rows, NotOfCandidates(ids), NotOfJob(jobId), KeptAfterJobDelete(jobId, ids));
    if ids == [] {
      FilterCongruent(rows, NotOfJob(jobId), KeptAfterJobDelete(jobId, ids));
    }
  }

  class DatabaseStore {
    /** `jobs`, keyed by id. */
    var jobs: map<string, JobContext>
    /** `candidates`, newest first. */
    var candidates: seq<Candidate>
    /** `score_reports`, in insertion order. */
    var reports: seq<ScoreReport>
    /** `email_log`, in insertion order. */
    var emailLog: seq<EmailLogEntry>

    /** The primary keys and the uniqueness rules every operation keeps: one log entry per
        message id (`UNIQUE`), and one report per (candidate, job) pair, which holds
        because `CreateScoreReport` deletes the pair's row before it inserts. */
    predicate Valid()
      reads this
    {
      && (forall k :: k in jobs ==> jobs[k].id == Some(k) && jobs[k].embeddingVector.None?)
      && (forall c :: c in candidates ==> c.id.Some? && c.embeddingVector.None?)
      && Unique(candidates, CandidateKey)
      && (forall r :: r in reports ==> r.id.Some?)
      && Unique(reports, ReportId)
      && Unique(reports, PairKey)
      && Unique(emailLog, LogId)
      && Unique(emailLog, LogMessageId)
    }

    /** A fresh database: `_init_schema` creates empty tables. */
    constructor ()
      ensures Valid()
      ensures jobs == map[] && candidates == [] && reports == [] && emailLog == []
    {
      jobs := map[];
      candidates := [];
      reports := [];
      emailLog := [];
    }

    // ------------------------------------------------------------ jobs

    /** `create_job`: the job's own id, or a generated "JOB-" id. */
    method CreateJob(job: JobContext) returns (r: Result<string, StoreError>)
      requires Valid()
      modifies this
      ensures Valid()
      ensures r.Ok? ==> Truthy(job.id) ==> r.value == job.id.value
      ensures r.Ok? ==> !Truthy(job.id) ==> HasPrefix(r.value, "JOB-")
      ensures r.Ok? ==>
        r.value !in old(jobs) && jobs == old(jobs)[r.value := job.(id := Some(r.value), embeddingVector := None)]
      ensures Truthy(job.id) ==> (r.Err? <==> job.id.value in old(jobs))
      ensures r.Err? ==> jobs == old(jobs)
      ensures candidates == old(candidates) && reports == old(reports) && emailLog == old(emailLog)
    {
      var token: string :| true;
      var jobId := OrDefault(job.id, "JOB-" + token);
      if jobId in jobs {
        return Err(DuplicateKey(jobId));
      }
      jobs := jobs[jobId := job.(id := Some(jobId), embeddingVector := None)];
      r := Ok(jobId);
    }

    /** `get_job` */
    function GetJob(jobId: string): (r: Option<JobContext>)
      reads this
      ensures r.Some? <==> jobId in jobs
      ensures Valid() && r.Some? ==> r.value.id == Some(jobId) && r.value.embeddingVector.None?
    {
      FindJob(jobs, jobId)
    }

    /** `delete_job`: true iff a row was deleted; no cascade to candidates or reports. */
    method DeleteJob(jobId: string) returns (deleted: bool)
      requires Valid()
      modifies this
      ensures Valid()
      ensures deleted <==> jobId in old(jobs)
      ensures jobs == old(jobs) - {jobId}
      ensures candidates == old(candidates) && reports == old(reports) && emailLog == old(emailLog)
    {
      deleted := jobId in jobs;
      jobs := jobs - {jobId};
    }

    // ------------------------------------------------------ candidates

    /** `create_candidate`: the candidate's own id or a generated "CAND-" id; the new row
        is the newest. */
    method CreateCandidate(candidate: Candidate) returns (r: Result<string, StoreError>)
      requires Valid()
      modifies this
      ensures Valid()
      ensures r.Ok? ==> Truthy(candidate.id) ==> r.value == candidate.id.value
      ensures r.Ok? ==> !Truthy(candidate.id) ==> HasPrefix(r.value, "CAND-")
      ensures r.Ok? ==>
        old(GetCandidate(r.value)).None? && candidates == [candidate.(id := Some(r.value), embeddingVector := None)] + old(candidates)
      ensures Truthy(candidate.id) ==> (r.Err? <==> old(GetCandidate(candidate.id.value)).Some?)
      ensures r.Err? ==> candidates == old(candidates)
      ensures jobs == old(jobs) && reports == old(reports) && emailLog == old(emailLog)
    {
      var token: string :| true;
      var candidateId := OrDefault(candidate.id, "CAND-" + token);
      if GetCandidate(candidateId).Some? {
        return Err(DuplicateKey(candidateId));
      }
      var row := candidate.(id := Some(candidateId), embeddingVector := None);
      FilterEmpty(candidates, WithId(candidateId));
      UniqueCons(row, candidates, CandidateKey);
      candidates := [row] + candidates;
      r := Ok(candidateId);
    }

    /** `get_candidate` */
    function GetCandidate(candidateId: string): (r: Option<Candidate>)
      reads this
      ensures r.Some? ==> r.value in candidates && r.value.id == Some(candidateId)
      ensures r.None? ==> forall c :: c in candidates ==> c.id != Some(candidateId)
    {
      FindCandidate(candidates, candidateId)
    }

    /** `list_candidates`: newest first, restricted to a job's applicants when a job id is
        given, at most `limit` rows. */
    function ListCandidates(jobId: Option<string>, limit: int): (r: seq<Candidate>)
      reads this
      ensures Truthy(jobId) ==> r == SqlLimit(Filter(candidates, AppliedTo(jobId.value)), limit)
      ensures !Truthy(jobId) ==> r == SqlLimit(candidates, limit)
      ensures forall c :: c in r ==> c in candidates && (Truthy(jobId) ==> c.jobId == jobId)
      ensures limit >= 0 ==> |r| <= limit
    {
      var rows := if Truthy(jobId) then Filter(candidates, AppliedTo(jobId.value)) else candidates;
      var r := SqlLimit(rows, limit);
      FilterMembers(candidates, AppliedTo(jobId.GetOr("")));
      assert forall c :: c in r ==> c in rows;
      r
    }

    /** `update_candidate`: without a truthy id nothing changes and the answer is false;
        otherwise the row with that id (if any) takes every column of the candidate, and
        the answer is true whether or not a row matched. */
    method UpdateCandidate(candidate: Candidate) returns (updated: bool)
      requires Valid()
      modifies this
      ensures Valid()
      ensures updated <==> Truthy(candidate.id)
      ensures !updated ==> candidates == old(candidates)
      ensures updated ==> |candidates| == |old(candidates)| && forall i :: 0 <= i < |candidates| ==>
        candidates[i] == (if old(candidates)[i].id == candidate.id then candidate.(embeddingVector := None) else old(candidates)[i])
      ensures jobs == old(jobs) && reports == old(reports) && emailLog == old(emailLog)
    {
      if !Truthy(candidate.id) {
        return false;
      }
      var row := candidate.(embeddingVector := None);
      var before := candidates;
      candidates := seq(|before|, i requires 0 <= i < |before| => if before[i].id == row.id then row else before[i]);
      assert forall i :: 0 <= i < |candidates| ==> CandidateKey(candidates[i]) == CandidateKey(before[i]);
      forall c | c in candidates ensures c.id.Some? && c.embeddingVector.None? {
        var i :| 0 <= i < |candidates| && candidates[i] == c;
        assert before[i] in before;
      }
      updated := true;
    }

    /** `delete_candidate`: the candidate row and all its reports go; the answer is the
        row's resume path when it had a non-empty one. */
    method DeleteCandidate(candidateId: string) returns (resumePath: Option<string>)
      requires Valid()
      modifies this
      ensures Valid()
      ensures var row := old(GetCandidate(candidateId));
        resumePath == if row.Some? && Truthy(row.value.resumeFilePath) then row.value.resumeFilePath else None
      ensures reports == Filter(old(reports), NotOfCandidate(candidateId))
      ensures candidates == Filter(old(candidates), NotWithId(candidateId))
      ensures GetCandidate(candidateId).None?
      ensures forall r :: r in reports ==> r.candidateId != candidateId
      ensures jobs == old(jobs) && emailLog == old(emailLog)
    {
      var row := GetCandidate(candidateId);
      resumePath := if row.Some? && Truthy(row.value.resumeFilePath) then row.value.resumeFilePath else None;
      KeptReports(reports, NotOfCandidate(candidateId));
      KeptCandidates(candidates, NotWithId(candidateId));
      reports := Filter(reports, NotOfCandidate(candidateId));
      candidates := Filter(candidates, NotWithId(candidateId));
    }

    /** `delete_candidates_by_job`: every applicant of the job, their reports, and every
        report for the job go; the answer lists the applicants' ids and their non-empty
        resume paths. The query has no `ORDER BY`, so SQLite may answer the rows in any
        order; the model answers them in table order (newest first). */
    method DeleteCandidatesByJob(jobId: string) returns (d: DeletedCandidates)
      requires Valid()
      modifies this
      ensures Valid()
      ensures d.deletedCandidateIds == Ids(Filter(old(candidates), AppliedTo(jobId)))
      ensures d.resumePaths == ResumePaths(Filter(old(candidates), AppliedTo(jobId)))
      ensures candidates == Filter(old(candidates), NotAppliedTo(jobId))
      ensures reports == Filter(old(reports), KeptAfterJobDelete(jobId, d.deletedCandidateIds))
      ensures jobs == old(jobs) && emailLog == old(emailLog)
    {
      var rows := Filter(candidates, AppliedTo(jobId));
      var ids := Ids(rows);
      d := DeletedCandidates(ids, ResumePaths(rows));
      DeleteByIdsIsByJob(candidates, jobId);
      ReportsAfterJobDelete(reports, jobId, ids);
      KeptReports(reports, KeptAfterJobDelete(jobId, ids));
      KeptCandidates(candidates, NotAppliedTo(jobId));
      if ids != [] {
        reports := Filter(reports, NotOfCandidates(ids));
        candidates := Filter(candidates, NotWithIds(ids));
      } else {
        FilterAll(candidates, NotWithIds(ids));
      }
      reports := Filter(reports, NotOfJob(jobId));
    }

    // --------------------------------------------------- score reports

    /** `create_score_report`: the pair's old row is deleted and the report inserted under
        its own id or a generated "SCORE-" id. */
    method CreateScoreReport(report: ScoreReport) returns (r: Result<string, StoreError>)
      requires Valid()
      modifies this
      ensures Valid()
      ensures r.Ok? ==> Truthy(report.id) ==> r.value == report.id.value
      ensures r.Ok? ==> !Truthy(report.id) ==> HasPrefix(r.value, "SCORE-")
      ensures r.Ok? ==> reports == Filter(old(reports), NotPair(report.candidateId, report.jobId)) + [report.(id := Some(r.value))]
      ensures Truthy(report.id) ==> (r.Err? <==>
        exists x :: x in Filter(old(reports), NotPair(report.candidateId, report.jobId)) && x.id == report.id)
      ensures r.Err? ==> reports == old(reports)
      ensures jobs == old(jobs) && candidates == old(candidates) && emailLog == old(emailLog)
    {
      var token: string :| true;
      var reportId := OrDefault(report.id, "SCORE-" + token);
      var kept := Filter(reports, NotPair(report.candidateId, report.jobId));
      if exists x :: x in kept && x.id == Some(reportId) {
        return Err(DuplicateKey(reportId));
      }
      var row := report.(id := Some(reportId));
      FilterMembers(reports, NotPair(report.candidateId, report.jobId));
      UniqueFilter(reports, NotPair(report.candidateId, report.jobId), ReportId);
      UniqueFilter(reports, NotPair(report.candidateId, report.jobId), PairKey);
      UniqueSnoc(kept, row, ReportId);
      UniqueSnoc(kept, row, PairKey);
      reports := kept + [row];
      r := Ok(reportId);
    }

    /** `get_score_report` */
    function GetScoreReport(candidateId: string, jobId: string): (r: Option<ScoreReport>)
      reads this
      ensures r.Some? ==> r.value in reports && r.value.candidateId == candidateId && r.value.jobId == jobId
      ensures r.None? ==> forall x :: x in reports ==> !(x.candidateId == candidateId && x.jobId == jobId)
    {
      Row(reports, candidateId, jobId)
    }

    /** `get_rankings_for_job`: exactly the job's reports, best first. */
    function GetRankingsForJob(jobId: string): (r: seq<ScoreReport>)
      reads this
      ensures SortedDesc(r, OverallScore)
      ensures multiset(r) == multiset(Filter(reports, OfJob(jobId)))
      ensures forall x :: x in r <==> x in reports && x.jobId == jobId
    {
      var rows := Filter(reports, OfJob(jobId));
      FilterMembers(reports, OfJob(jobId));
      SortDescFacts(rows, OverallScore);
      var r := SortDesc(rows, OverallScore);
      assert forall x :: x in r <==> x in multiset(rows);
      assert forall x :: x in reports && x.jobId == jobId ==> x in rows by {
        forall x | x in reports && x.jobId == jobId ensures x in rows {
          var i :| 0 <= i < |reports| && reports[i] == x;
        }
      }
      r
    }

    // ------------------------------------------------------- email log

    /** `log_email`: `INSERT OR REPLACE` removes a row with the same id or message id,
        then inserts the new entry under a generated "EMAIL-" id. */
    method LogEmail(
      messageId: string, subject: string, sender: string, status: string,
      jobId: Option<string>, candidateId: Option<string>, errorMessage: Option<string>) returns (logId: string)
      requires Valid()
      modifies this
      ensures Valid()
      ensures HasPrefix(logId, "EMAIL-")
      ensures emailLog == Filter(old(emailLog), NotConflicting(logId, messageId))
        + [EmailLogEntry(logId, messageId, subject, sender, status, jobId, candidateId, errorMessage)]
      ensures IsEmailProcessed(messageId)
      ensures jobs == old(jobs) && candidates == old(candidates) && reports == old(reports)
    {
      var token: string :| true;
      logId := "EMAIL-" + token;
      var entry := EmailLogEntry(logId, messageId, subject, sender, status, jobId, candidateId, errorMessage);
      var kept := Filter(emailLog, NotConflicting(logId, messageId));
      FilterMembers(emailLog, NotConflicting(logId, messageId));
      UniqueFilter(emailLog, NotConflicting(logId, messageId), LogId);
      UniqueFilter(emailLog, NotConflicting(logId, messageId), LogMessageId);
      UniqueSnoc(kept, entry, LogId);
      UniqueSnoc(kept, entry, LogMessageId);
      emailLog := kept + [entry];
      assert emailLog[|kept|] == entry;
    }

    /** `is_email_processed`: whether `SELECT id FROM email_log WHERE message_id = ?`
        finds a row, which is whether some entry carries that message id. */
    function IsEmailProcessed(messageId: string): (r: bool)
      reads this
      ensures r <==> exists e :: e in emailLog && e.messageId == messageId
    {
      FilterMembers(emailLog, WithMessageId(messageId));
      FilterEmpty(emailLog, WithMessageId(messageId));
      First(Filter(emailLog, WithMessageId(messageId))).Some?
    }
  }
}
