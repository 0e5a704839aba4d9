# Candidate screening core, modelled in Dafny

This project models the deterministic core of `hiring-ai-agent`, a service that screens
job candidates against job descriptions. It covers:

- **Scoring.** Skill overlap is computed over case-folded sets with a 70/30
  required/preferred weighting. Experience gets a piecewise range score, and semantic
  similarity a neutral-and-clamp rule. The weighted final score completes the breakdown.
- **Evaluation agent.** It builds a `ScoreReport` from the breakdown. When the language
  model fails, it falls back to a score-banded reasoning and to a fallback summary. It
  ranks reports with a stable descending sort.
- **Workflows.** These are the cache-first assessment and the batch assessment, plus
  the ranking workflow. The ranking workflow collects a candidate pool, isolates
  per-candidate failures, sorts, and compares candidates. A loop of assessments is
  specified by the answers of its calls, a ghost sequence (`Assessment.BatchOutcomes`).
  Each answer is one that `assess_candidate` allows against the rows the earlier calls
  left, and each pair's final row is the report of its last successful call.
- **Database.** The SQLite store is an in-memory class `Store.DatabaseStore`:
  - jobs are a map keyed by id;
  - candidates are a sequence, newest first;
  - score reports and the e-mail log are sequences in insertion order.

  Its invariant `Valid()` holds the primary keys, the `UNIQUE(message_id)` rule of the
  e-mail log, at most one score report per (candidate, job) pair, and the rule that
  stored rows carry no embedding. The schema has no constraint on the pair: one report
  per pair holds because `CreateScoreReport` deletes the pair's row before it inserts.
- **Records.** `ScoreReport` and `RankingReport` come with their `[0,100]` field
  bounds and their defaults.
- **Skills and text.** This covers skill canonicalisation and the case-insensitive
  first-occurrence de-duplication of both skill normalisers. It also covers whitespace
  normalisation, the line-based resume section splitter and the empty-input guards of
  the cleaners.
- **Extraction records.** The job-context extraction and the `refine_job_context`
  merge are modelled, as are resume record construction with its field precedence and
  the metadata `parse_resume` sets.
- **GitHub.** Profile aggregation skips forks and keeps the top eight languages. Star
  totals and repository summaries are built in a loop. Enrichment merges the languages
  and projects into a candidate.
- **PDF.** LinkedIn-export detection counts patterns against a threshold. The
  extraction result is assembled from per-page outcomes, and `validate_pdf` has its
  guard branches.

Everything external is an input:
- The language model is an oracle function returning `Option`, with `None` meaning the
  call raised.
- The vector store is a map from id to embedding, plus a nearest-ids function.
- The fetched GitHub profile and repositories are values.
- The PDF library is a sequence of per-page `Option<string>` results.
- The file system's answers are booleans and numbers.
- The regular-expression helpers are string functions passed as parameters.
- Python's `sqrt`, cosine and `round(x, 2)` are abstract: the cosine is a parameter,
  and rounding is the identity.

Modules follow the source files:
- `Scoring` (scoring_utils.py);
- `RankingAgents` (ranking_agent.py);
- `Assessment` (assessment_workflow.py);
- `RankingWorkflow` (ranking_workflow.py);
- `Store` (store.py);
- `ScoreReports` (score_report.py);
- `TextCleaner` (text_cleaner.py);
- `JdContext` (jd_context_agent.py);
- `ResumeExtractor` (resume_extractor.py);
- `GithubProfile` and `ResumeAnalysis` (resume_analysis_agent.py);
- `PdfParser` (pdf_parser.py).

They rest on shared modules:
- `Wrappers`: Option and Result;
- `Text`: ASCII case mapping, Python `strip`, `title`, `join`, `split` and substring;
- `Collections`: filters, slices, distinctness;
- `Sorting`: a stable descending sort by a real key;
- `Dedup`: first-occurrence de-duplication;
- `Entities`: the candidate and job records and Python truthiness.

## Model

| member | source | states |
|---|---|---|
| Scoring.SkillScore | hiring-ai-agent/app/services/scoring_utils.py:66-76 | score = 70·matched/|required| + 30·matched/|preferred| over lower-cased sets, each term 0 for an empty set, and the score lies in [0,100] |
| Scoring.SkillMatchPartition | hiring-ai-agent/app/services/scoring_utils.py:56-64 | matched and missing partition each lower-cased job set; extras are the candidate's skills outside required ∪ preferred |
| Scoring.SkillMatchCasing | hiring-ai-agent/app/services/scoring_utils.py:79-89 | every matched/missing entry is written as the last case-variant in the job's list; extras stay lower-cased |
| Scoring.ReportedSets | hiring-ai-agent/app/services/scoring_utils.py:79-89 | a reported list holds each matched (or missing) lower-cased skill exactly once |
| Scoring.ReportedCasing | hiring-ai-agent/app/services/scoring_utils.py:79-83 | each reported entry is the last entry of the job list with that lower-case form |
| Scoring.OriginalsFacts | hiring-ai-agent/app/services/scoring_utils.py:79-83 | `get_original` maps each key to a list entry with that lower-case form, and no later entry has it |
| Scoring.LastVariantFacts | hiring-ai-agent/app/services/scoring_utils.py:81 | the dict comprehension keeps the last case-variant of a key |
| Scoring.DistinctLowerFacts | hiring-ai-agent/app/services/scoring_utils.py:56-58 | the lower-cased set, enumerated without repeats |
| Scoring.SelectElements | hiring-ai-agent/app/services/scoring_utils.py:60-63 | the selected keys are the intersection with (or difference from) the candidate set |
| Scoring.SelectDistinct | hiring-ai-agent/app/services/scoring_utils.py:60-63 | selecting from distinct keys keeps them distinct |
| Scoring.RatioBounds | hiring-ai-agent/app/services/scoring_utils.py:66-74 | each weighted share lies in [0, weight], and equals the weight exactly when every skill of a non-empty list matched |
| Scoring.RatioPart | hiring-ai-agent/app/services/scoring_utils.py:66-74 | a share computed from the sets equals the share computed from the reported lists' lengths |
| Scoring.SkillScoreMonotone | hiring-ai-agent/app/services/scoring_utils.py:54-76 | a candidate with more skills (case-insensitively) never gets a lower skill score |
| Scoring.MatchPercentageEmptyJob | hiring-ai-agent/app/services/scoring_utils.py:90-93 | with no job skills the match percentage is 0 |
| Scoring.MatchPercentageDisjoint | hiring-ai-agent/app/services/scoring_utils.py:90-93 | when no skill is both required and preferred the percentage lies in [0,100] |
| Scoring.SharedSkillsBound | hiring-ai-agent/app/services/scoring_utils.py:90-93 | for disjoint job sets the matched counts add up to at most the union's size |
| Scoring.MatchPercentageCountsTwice | hiring-ai-agent/app/services/scoring_utils.py:90-93 | a skill listed as both required and preferred is counted twice: the percentage can reach 200 |
| Scoring.ExperienceDefaults | hiring-ai-agent/app/services/scoring_utils.py:113-129 | unknown years give 50/unknown; an unknown minimum gives 75/not_specified; an absent maximum is min+5 |
| Scoring.ExperienceBounds | hiring-ai-agent/app/services/scoring_utils.py:131-147 | every score lies in [0,100]; inside the range it is 100/match, below it max(0,100−15·gap)/under, above it max(70,100−5·excess)/over, never below 70 |
| Scoring.ExperienceMonotone | hiring-ai-agent/app/services/scoring_utils.py:131-147 | below the range the score is non-decreasing in years, above it non-increasing |
| Scoring.ExperienceScoreBounds | hiring-ai-agent/app/services/scoring_utils.py:96-155 | every experience score, defaults included, lies in [0,100] |
| Scoring.CalculateSemanticSimilarity | hiring-ai-agent/app/services/scoring_utils.py:157-188 | the result lies in [0,100], and is 50 when either vector is empty or has zero norm |
| Scoring.SemanticScale | hiring-ai-agent/app/services/scoring_utils.py:180-188 | for non-degenerate vectors the score is (cos+1)·50 clamped to [0,100], monotone in the cosine |
| Scoring.FinalScoreBounds | hiring-ai-agent/app/services/scoring_utils.py:190-217 | with non-negative weights totalling at most 1 and components in [0,100], the final score lies in [0,100] |
| Scoring.FinalScoreMonotone | hiring-ai-agent/app/services/scoring_utils.py:209-217 | raising a component never lowers the final score |
| Scoring.DefaultWeightsBounded | hiring-ai-agent/app/services/scoring_utils.py:19-23 | the default weights 0.35/0.25/0.4 are non-negative and total exactly 1 |
| Scoring.ScoreCandidate | hiring-ai-agent/app/services/scoring_utils.py:219-273 | semantic is 50 unless both embeddings are present; every component lies in [0,100]; bounded weights give an overall score in [0,100]; the weights used are reported |
| ScoreReports.MakeScoreReport | hiring-ai-agent/app/models/score_report.py:9-35 | construction succeeds iff all four scores lie in [0,100]; otherwise the error is non-empty and names each score field exactly when that score is out of range; on success the fields are the arguments |
| ScoreReports.NewScoreReport | hiring-ai-agent/app/models/score_report.py:12-32 | defaults: component scores 0, lists empty, id, name, reasoning and recommendation None; succeeds iff the overall score is in range |
| ScoreReports.NewRankingReport | hiring-ai-agent/app/models/score_report.py:66-80 | rankings default to empty and the summary to None |
| RankingAgents.FallbackMonotone | hiring-ai-agent/app/agents/ranking_agent.py:166-177 | the fallback band is one of the four recommendations, and a higher score never gets a lower band |
| RankingAgents.GetLlmEvaluation | hiring-ai-agent/app/agents/ranking_agent.py:158-184 | the model's evaluation unchanged on success; on failure strengths = weaknesses = ["Analysis unavailable"], the banded recommendation and a score-based reasoning |
| RankingAgents.GenerateCandidateRank | hiring-ai-agent/app/agents/ranking_agent.py:40-96 | matched = matched_required ++ matched_preferred, missing = missing_required, the first 10 extras, scores copied, ids defaulting to "unknown"; strengths, weaknesses, reasoning and recommendation are the evaluation's |
| RankingAgents.FallbackReport | hiring-ai-agent/app/agents/ranking_agent.py:165-184 | when the model call fails, the report carries "Analysis unavailable" strengths and weaknesses and the score band of its own overall score |
| RankingAgents.GenerateCandidateRankSucceeds | hiring-ai-agent/app/agents/ranking_agent.py:40-96 | bounded weights always give an in-range report |
| RankingAgents.GeneratedSkills | hiring-ai-agent/app/agents/ranking_agent.py:83-85 | the report's matched skills are the candidate's job skills and its missing ones the required skills lacking |
| RankingAgents.NegativeWeightRejected | hiring-ai-agent/app/agents/ranking_agent.py:75-90 | a negative weight can push the overall score out of range, and report construction then fails |
| RankingAgents.RankCandidates | hiring-ai-agent/app/agents/ranking_agent.py:186-221 | the reports of all candidates, stably sorted by non-increasing overall score |
| RankingAgents.RankCandidatesFacts | hiring-ai-agent/app/agents/ranking_agent.py:205-221 | one report per candidate, sorted, a permutation of the per-candidate reports, ties in input order |
| RankingAgents.GenerateRankingSummary | hiring-ai-agent/app/agents/ranking_agent.py:223-272 | "No candidates to summarize." for no reports; the model's summary stripped; on failure "Top candidate: <name> with score <s>/100" |
| RankingAgents.SummaryUsesTopThree | hiring-ai-agent/app/agents/ranking_agent.py:241 | two report lists with the same first three reports get the same summary |
| Assessment.GetEmbedding | hiring-ai-agent/app/workflows/assessment_workflow.py:111-121 | an absent or empty embedding is None, never an error |
| Assessment.Rescore | hiring-ai-agent/app/workflows/assessment_workflow.py:93-102 | the rebuilt report carries the argument ids and the candidate's name, and bounded weights make it succeed |
| Assessment.AssessPlanOutcomes | hiring-ai-agent/app/workflows/assessment_workflow.py:65-102 | the decision on the rows found: reuse iff a stored row exists and no refresh is forced; otherwise a missing candidate, then a missing job, is an error; bounded weights never fail validation; a report to store has no id, the requested ids and the candidate's name |
| Assessment.AssessCandidate | hiring-ai-agent/app/workflows/assessment_workflow.py:46-109 | the answer is one the plan allows: the plan's error, the stored report, or the new report under a "SCORE-" id unless storing fails; reuse and errors leave the table unchanged; a store replaces the pair's row; every other pair keeps its row; a success is the pair's row |
| Assessment.AllowedIds | hiring-ai-agent/app/workflows/assessment_workflow.py:66-102 | an allowed success is a report for the candidate and job asked about |
| Assessment.AssessCandidateDirect | hiring-ai-agent/app/workflows/assessment_workflow.py:123-145 | scoring with the records' own embeddings, no store access, success under bounded weights |
| Assessment.GetAssessment | hiring-ai-agent/app/workflows/assessment_workflow.py:147-162 | the pair's stored report if there is one, else None |
| Assessment.BatchAssess | hiring-ai-agent/app/workflows/assessment_workflow.py:164-194 | one answer per id, each allowed for that id against the rows the earlier calls left; the result is exactly the successful reports, in input order; each pair's final row is its last successful report, any other row is unchanged |
| Assessment.RowAfter | hiring-ai-agent/app/workflows/assessment_workflow.py:183-192 | a pair's row after a run of calls is its last successful report, else its original row; it is always a row of that pair |
| Assessment.Successes | hiring-ai-agent/app/workflows/assessment_workflow.py:181-194 | the reports of the successful calls: a report is in it iff some call answered it; it is as long as the run iff every call succeeded |
| Assessment.BatchStep | hiring-ai-agent/app/workflows/assessment_workflow.py:183-192 | one more call extends a run: its answer is allowed against the current rows and the rows move as the call moved them |
| Assessment.BatchSuccessIds | hiring-ai-agent/app/workflows/assessment_workflow.py:183-192 | every successful answer is a report for its own id and the job |
| Assessment.BatchBounded | hiring-ai-agent/app/workflows/assessment_workflow.py:72-105 | with bounded weights and the candidate and job present, every answer is a report or a storage error |
| Assessment.RowAfterUntouched | hiring-ai-agent/app/workflows/assessment_workflow.py:183-192 | a pair that no successful call was for keeps its original row |
| Assessment.RowAfterKept | hiring-ai-agent/app/workflows/assessment_workflow.py:66-70 | a pair that had a row still has one after any run |
| Assessment.BatchReuse | hiring-ai-agent/app/workflows/assessment_workflow.py:66-70 | without a forced refresh an id with a stored row always succeeds, and its first call answers the stored row |
| Assessment.BatchNotFound | hiring-ai-agent/app/workflows/assessment_workflow.py:72-80 | when a call has to rescore, a missing candidate fails it with CandidateNotFound, else a missing job with JobNotFound |
| Assessment.SuccessesOfAllOk | hiring-ai-agent/app/workflows/ranking_workflow.py:224-227 | when every call succeeded, the successes are the answered reports in order |
| RankingWorkflow.TopKOr | hiring-ai-agent/app/workflows/ranking_workflow.py:155 | a non-zero top_k is used as given; a zero or absent top_k gives the default, so a non-zero default never gives 0 |
| RankingWorkflow.AddIds | hiring-ai-agent/app/workflows/ranking_workflow.py:146-150 | the loop adds exactly the rows' ids to the set |
| RankingWorkflow.CandidatePool | hiring-ai-agent/app/workflows/ranking_workflow.py:146-170 | the pool is exactly the newest 100 applicants ∪ the nearest `top_k or 50` ids (when a job embedding exists); when that union is empty it is exactly the newest `top_k or 100` candidates; it contains both parts, lies within their union with the fallback, and is non-empty when any candidate exists |
| RankingWorkflow.NewestKept | hiring-ai-agent/app/workflows/ranking_workflow.py:164-168 | a non-zero limit keeps the first row of a non-empty table |
| RankingWorkflow.CollectPool | hiring-ai-agent/app/workflows/ranking_workflow.py:146-170 | the collected set is the pool |
| RankingWorkflow.FindCandidatesForJob | hiring-ai-agent/app/workflows/ranking_workflow.py:133-177 | a duplicate-free enumeration of the pool, cut to top_k when top_k is truthy |
| RankingWorkflow.GetJobEmbedding | hiring-ai-agent/app/workflows/ranking_workflow.py:121-131 | a returned embedding is non-empty and stored under the job |
| RankingWorkflow.RankAllCandidates | hiring-ai-agent/app/workflows/ranking_workflow.py:50-119 | unknown job: error, nothing stored; the shortlist is the pool enumerated without duplicates and cut to top_k; the calls over it are a batch run and the rankings are its successful reports (as a multiset), sorted descending, all for the job and from the pool; empty shortlist: 0 candidates and the fixed summary |
| RankingWorkflow.RankedFrom | hiring-ai-agent/app/workflows/ranking_workflow.py:104 | sorting keeps the reports as a multiset, their number, their job and their candidates |
| RankingWorkflow.GetRankings | hiring-ai-agent/app/workflows/ranking_workflow.py:179-189 | exactly the job's stored reports, best first |
| RankingWorkflow.SortedPrefix | hiring-ai-agent/app/workflows/ranking_workflow.py:207 | a prefix of a descending list is descending |
| RankingWorkflow.GetTopCandidates | hiring-ai-agent/app/workflows/ranking_workflow.py:191-207 | the prefix of length min(limit, n) of the stored rankings |
| RankingWorkflow.CompareCandidates | hiring-ai-agent/app/workflows/ranking_workflow.py:209-242 | the calls are a run over a prefix of the ids; error: the last call failed with that error and every earlier one succeeded; success: every id answered, the rankings are the reports sorted, their candidate ids a permutation of the ids asked for, each the pair's stored row; best is the first sorted report; "Unknown" title and "" summary when the job is missing |
| RankingWorkflow.CompareStep | hiring-ai-agent/app/workflows/ranking_workflow.py:225-227 | one more call keeps the loop state: the run grows by its answer and every id assessed so far still has its report as its row |
| RankingWorkflow.RowsKept | hiring-ai-agent/app/workflows/ranking_workflow.py:225-227 | a call for an id leaves every earlier id's row in place and makes its report the new id's row |
| RankingWorkflow.SortedComparison | hiring-ai-agent/app/workflows/ranking_workflow.py:229-230 | sorting the reports keeps them as a multiset, one per id asked for, each the pair's row |
| RankingWorkflow.CompareRanked | hiring-ai-agent/app/workflows/ranking_workflow.py:224-230 | when every call succeeded, the sorted rankings are the run's successes and their ids a permutation of the ids |
| Store.SqlLimit | hiring-ai-agent/app/database/store.py:350-363 | `LIMIT n` keeps the first n rows; a negative limit keeps all |
| Store.OnePerPair | hiring-ai-agent/app/database/store.py:538-573 | after delete-then-insert the pair has exactly one row, the inserted one |
| Store.AtMostOnePerPair | hiring-ai-agent/app/database/store.py:535-576 | when no two reports share a (candidate, job) pair, as the delete-then-insert keeps, a pair never has two rows |
| Store.OtherPairsUnchanged | hiring-ai-agent/app/database/store.py:542-545 | the delete-then-insert leaves every other pair's rows unchanged |
| Store.DeleteByIdsIsByJob | hiring-ai-agent/app/database/store.py:434-446 | deleting by the job's candidate ids deletes exactly the job's candidates |
| Store.ReportsAfterJobDelete | hiring-ai-agent/app/database/store.py:440-449 | the two report deletes keep exactly the reports of neither those candidates nor the job |
| Store.KeptReports | hiring-ai-agent/app/database/store.py:545 | a report delete keeps the ids and the unique keys |
| Store.KeptCandidates | hiring-ai-agent/app/database/store.py:416-420 | a candidate delete keeps the ids and the unique keys |
| Store.DatabaseStore.constructor | hiring-ai-agent/app/database/store.py:25-68 | the schema starts with empty tables |
| Store.DatabaseStore.CreateJob | hiring-ai-agent/app/database/store.py:167-204 | the job's id or a "JOB-" id; a taken key is an error with nothing changed |
| Store.DatabaseStore.GetJob | hiring-ai-agent/app/database/store.py:206-224 | a row iff the id is stored, returned without embedding |
| Store.DatabaseStore.DeleteJob | hiring-ai-agent/app/database/store.py:455-465 | true iff a row existed; no cascade |
| Store.DatabaseStore.CreateCandidate | hiring-ai-agent/app/database/store.py:279-324 | the candidate's id or a "CAND-" id; the row goes first (newest); a taken key changes nothing |
| Store.DatabaseStore.GetCandidate | hiring-ai-agent/app/database/store.py:326-336 | the stored row with that id, or None when there is none |
| Store.DatabaseStore.ListCandidates | hiring-ai-agent/app/database/store.py:350-363 | newest first, only the job's applicants when a job id is given, at most `limit` rows |
| Store.DatabaseStore.UpdateCandidate | hiring-ai-agent/app/database/store.py:467-533 | false and nothing changed without an id; otherwise the row with that id is replaced |
| Store.DatabaseStore.DeleteCandidate | hiring-ai-agent/app/database/store.py:404-426 | the row and all its reports go; the answer is its resume path or None |
| Store.DatabaseStore.DeleteCandidatesByJob | hiring-ai-agent/app/database/store.py:428-453 | the job's candidates, their reports and the job's reports go; the ids returned are exactly those candidates |
| Store.DatabaseStore.CreateScoreReport | hiring-ai-agent/app/database/store.py:535-576 | the pair's old row is replaced by the report, under its id or a "SCORE-" id; nothing else changes |
| Store.DatabaseStore.GetScoreReport | hiring-ai-agent/app/database/store.py:578-589 | the pair's row if present, else None |
| Store.Row | hiring-ai-agent/app/database/store.py:578-589 | the row of a pair is a stored row of that pair, and None means the pair has none |
| Store.FindCandidate | hiring-ai-agent/app/database/store.py:326-336 | a stored candidate with the id, and None means no row has it |
| Store.FindJob | hiring-ai-agent/app/database/store.py:206-224 | the job stored under the id iff there is one |
| Store.DatabaseStore.GetRankingsForJob | hiring-ai-agent/app/database/store.py:591-599 | exactly the job's reports, a permutation of them, by non-increasing overall score |
| Store.DatabaseStore.LogEmail | hiring-ai-agent/app/database/store.py:624-644 | an "EMAIL-" row replacing any with the same id or message id; the message then counts as processed |
| Store.DatabaseStore.IsEmailProcessed | hiring-ai-agent/app/database/store.py:646-653 | true iff some log entry carries the message id |
| Collections.PyPrefix | hiring-ai-agent/app/agents/ranking_agent.py:85 | Python's `xs[:k]`: a prefix whose length follows the slice rules, negative bounds counting from the end |
| Sorting.SortDescFacts | hiring-ai-agent/app/agents/ranking_agent.py:219 | `list.sort(reverse=True)` gives a non-increasing permutation |
| Sorting.SortDescTies | hiring-ai-agent/app/agents/ranking_agent.py:219 | equal keys keep their input order (the sort is stable) |
| TextCleaner.NormalizeSkillCases | hiring-ai-agent/app/utils/text_cleaner.py:189-230 | a table key matched case-insensitively after stripping gives its canonical name; anything else comes back stripped |
| TextCleaner.SkillTableClosed | hiring-ai-agent/app/utils/text_cleaner.py:202-224 | every canonical name is stripped and either not a key or the key of itself |
| TextCleaner.NormalizeSkillIdempotent | hiring-ai-agent/app/utils/text_cleaner.py:189-230 | normalising twice equals normalising once |
| TextCleaner.NormalizeSkillK8s | hiring-ai-agent/app/utils/text_cleaner.py:199-230 | " K8s " → "Kubernetes": stripped, matched case-insensitively |
| TextCleaner.NormalizeWhitespaceFacts | hiring-ai-agent/app/utils/text_cleaner.py:65-76 | no tab, no two adjacent spaces, no space before a newline, never longer than the input |
| TextCleaner.SqueezeBlanksFacts | hiring-ai-agent/app/utils/text_cleaner.py:68 | collapsing blank runs leaves no tab and no two adjacent spaces, and never lengthens the text |
| TextCleaner.CapNewlinesFacts | hiring-ai-agent/app/utils/text_cleaner.py:71 | capping newline runs adds no character and keeps "no two adjacent spaces" |
| TextCleaner.DropSpacesFacts | hiring-ai-agent/app/utils/text_cleaner.py:74 | dropping spaces before newlines leaves no space before a newline and keeps the other facts |
| TextCleaner.ThreeNewlinesSurvive | hiring-ai-agent/app/utils/text_cleaner.py:72-76 | "\n\n \n" normalises to "\n\n\n" |
| TextCleaner.CleanResumeText | hiring-ai-agent/app/utils/text_cleaner.py:16-41 | "" for empty input; the result is stripped |
| TextCleaner.CleanJdText | hiring-ai-agent/app/utils/text_cleaner.py:43-63 | "" for empty input; the result is stripped |
| TextCleaner.ExtractSections | hiring-ai-agent/app/utils/text_cleaner.py:137-187 | the dictionary the line scan builds from the blocks |
| TextCleaner.ExtractSectionsKeys | hiring-ai-agent/app/utils/text_cleaner.py:149-161 | every key is "header" or one of the seven section names |
| TextCleaner.BlockNames | hiring-ai-agent/app/utils/text_cleaner.py:161-181 | the first block is "header" and every other is named by a section |
| TextCleaner.LeadingLines | hiring-ai-agent/app/utils/text_cleaner.py:161-181 | lines before the first header are the content of "header" |
| TextCleaner.ContentIsNotHeader | hiring-ai-agent/app/utils/text_cleaner.py:166-181 | no header line is content of any section |
| TextCleaner.BlockContents | hiring-ai-agent/app/utils/text_cleaner.py:161-181 | the blocks' contents are exactly the non-header lines, in order |
| TextCleaner.RecordLookup | hiring-ai-agent/app/utils/text_cleaner.py:174-185 | a name is recorded iff some block under it has content; its value is the stripped join of the last such block |
| TextCleaner.StepFacts | hiring-ai-agent/app/utils/text_cleaner.py:166-179 | a header line opens a block; any other line extends the last |
| Dedup.FirstOccurrencesFacts | hiring-ai-agent/app/services/resume_extractor.py:218-236 | never longer; no two entries equal ignoring case; the same lower-cased set; each entry is the first of its group, in order |
| Dedup.FirstOccurrencesOfUnique | hiring-ai-agent/app/agents/jd_context_agent.py:151-163 | a list without case-insensitive duplicates is its own de-duplication |
| Dedup.NormalizeAll | hiring-ai-agent/app/agents/jd_context_agent.py:151-163 | the seen-set loop computes the first occurrences of the normalised skills |
| JdContext.NormalizeSkills | hiring-ai-agent/app/agents/jd_context_agent.py:149-163 | the de-duplicated `normalize_skill(strip(s))` list |
| JdContext.JdSkillsFacts | hiring-ai-agent/app/agents/jd_context_agent.py:149-163 | every output is the normalisation of some input; no case-insensitive duplicates; nothing lost ignoring case; never longer |
| JdContext.JdSkillsIdempotent | hiring-ai-agent/app/agents/jd_context_agent.py:149-163 | normalising a normalised list changes nothing |
| JdContext.ExtractJobContext | hiring-ai-agent/app/agents/jd_context_agent.py:47-95 | a failed extraction is an error (re-raised); otherwise the fields with normalised skill lists and the raw text |
| JdContext.RefineJobContext | hiring-ai-agent/app/agents/jd_context_agent.py:165-233 | failure returns the job unchanged; otherwise id and raw text kept, each scalar `new or old`, skills normalised from the merged set, responsibilities the merged set |
| JdContext.MergeKeepsSkills | hiring-ai-agent/app/agents/jd_context_agent.py:212-217 | every existing and extracted skill survives, ignoring case, after normalisation |
| JdContext.ZeroYearsIsAbsent | hiring-ai-agent/app/agents/jd_context_agent.py:219-220 | an extracted 0.0 year bound keeps the existing one |
| ResumeExtractor.SkillFormCases | hiring-ai-agent/app/services/resume_extractor.py:219-229 | a table key gives its canonical name; an acronym keeps its text; anything else is title-cased |
| ResumeExtractor.TitleIdempotent | hiring-ai-agent/app/services/resume_extractor.py:229 | title-casing twice equals title-casing once |
| ResumeExtractor.TitleLower | hiring-ai-agent/app/services/resume_extractor.py:229 | `title()` gives the same lower-case form |
| ResumeExtractor.KubernetesExample | hiring-ai-agent/app/services/resume_extractor.py:196-225 | " K8s " → "Kubernetes" |
| ResumeExtractor.AcronymExample | hiring-ai-agent/app/services/resume_extractor.py:227-229 | "SQL " keeps its text |
| ResumeExtractor.CanonicalNameRetitled | hiring-ai-agent/app/services/resume_extractor.py:196-229 | "mongo" → "MongoDB" but "MongoDB" → "Mongodb": the per-skill map is not idempotent |
| ResumeExtractor.NormalizeSkills | hiring-ai-agent/app/services/resume_extractor.py:193-236 | the de-duplicated list of mapped skills |
| ResumeExtractor.ResumeSkillsFacts | hiring-ai-agent/app/services/resume_extractor.py:218-236 | never longer; no case-insensitive duplicates; each entry is the mapping of the first input of its group, in order |
| ResumeExtractor.ExtractWithLlm | hiring-ai-agent/app/services/resume_extractor.py:123-133 | a failed extraction yields the all-default record |
| ResumeExtractor.Extract | hiring-ai-agent/app/services/resume_extractor.py:49-92 | model email, phone and URLs take precedence over the fallbacks; is_linkedin_pdf and raw_text copied; source "upload" |
| ResumeExtractor.ModelValuesTakePrecedence | hiring-ai-agent/app/services/resume_extractor.py:70-88 | a truthy model value wins over the fallback, an empty one gives way |
| ResumeExtractor.FailedExtractionIsDefault | hiring-ai-agent/app/services/resume_extractor.py:123-133 | a failed extraction gives the default record filled only from the fallbacks |
| ResumeAnalysis.AnswerText | hiring-ai-agent/app/agents/resume_analysis_agent.py:98-107 | the summary text is stripped, "" on failure |
| ResumeAnalysis.ParseResume | hiring-ai-agent/app/agents/resume_analysis_agent.py:32-65 | source and job_id set to the arguments; a summary is generated only when the extracted one is empty |
| ResumeAnalysis.ParseResumeOfFailure | hiring-ai-agent/app/agents/resume_analysis_agent.py:54-62 | with extraction failed the record is the default plus the metadata |
| ResumeAnalysis.ProjectNamesSnoc | hiring-ai-agent/app/agents/resume_analysis_agent.py:451-462 | adding a project adds its lower-cased name |
| ResumeAnalysis.AddProjectsFacts | hiring-ai-agent/app/agents/resume_analysis_agent.py:451-462 | old projects kept as a prefix; each added one has a new non-empty name; every named repo is represented |
| ResumeAnalysis.NewLanguagesFacts | hiring-ai-agent/app/agents/resume_analysis_agent.py:438-448 | the appended languages are exactly those whose lower-case form is not among the skills |
| ResumeAnalysis.AddNewLanguages | hiring-ai-agent/app/agents/resume_analysis_agent.py:441-447 | the loop appends the new languages after the original skills |
| ResumeAnalysis.MergeProjects | hiring-ai-agent/app/agents/resume_analysis_agent.py:451-462 | the loop appends the projects of repos with new names |
| ResumeAnalysis.WithAssessment | hiring-ai-agent/app/agents/resume_analysis_agent.py:465-470 | an empty assessment changes nothing; a non-empty one ends the new summary, after the old one when that is non-empty |
| ResumeAnalysis.EnrichCandidateWithGithub | hiring-ai-agent/app/agents/resume_analysis_agent.py:406-473 | no URL or an analysis error leaves skills, projects and summary unchanged; otherwise new languages, projects from the first 3 top repos, and the appended assessment |
| ResumeAnalysis.ApplyAnalysis | hiring-ai-agent/app/agents/resume_analysis_agent.py:438-470 | the merge of languages, projects and assessment into the candidate |
| GithubProfile.Owned | hiring-ai-agent/app/agents/resume_analysis_agent.py:317-319 | forked repos are skipped |
| GithubProfile.TallyFacts | hiring-ai-agent/app/agents/resume_analysis_agent.py:321-323 | each language appears once with the count of non-fork repos using it, in first-appearance order |
| GithubProfile.TopLanguagesFacts | hiring-ai-agent/app/agents/resume_analysis_agent.py:337 | at most 8 distinct counted languages, non-increasing counts |
| GithubProfile.TopLanguagesTies | hiring-ai-agent/app/agents/resume_analysis_agent.py:337 | equal counts keep first-appearance order |
| GithubProfile.TopLanguagesMostFrequent | hiring-ai-agent/app/agents/resume_analysis_agent.py:337 | a counted language left out means 8 languages each counted at least as often |
| GithubProfile.Summarize | hiring-ai-agent/app/agents/resume_analysis_agent.py:328-334 | description is the first 100 characters, or "" when absent; other fields copied |
| GithubProfile.TotalsAppend | hiring-ai-agent/app/agents/resume_analysis_agent.py:325-326 | stars and language counts add up over concatenated repo lists |
| GithubProfile.ForkIgnored | hiring-ai-agent/app/agents/resume_analysis_agent.py:317-319 | a fork adds nothing to the totals |
| GithubProfile.Aggregate | hiring-ai-agent/app/agents/resume_analysis_agent.py:317-334 | the loop returns the tally, the star total and the summaries of the non-fork repos |
| GithubProfile.AnalyzeGithubProfile | hiring-ai-agent/app/agents/resume_analysis_agent.py:290-356 | "Invalid GitHub URL" without a username, "Could not fetch GitHub profile" without a profile, else the analysis |
| GithubProfile.AnalysisFacts | hiring-ai-agent/app/agents/resume_analysis_agent.py:330-351 | at most 5 top repos, each description at most 100 characters; at most 8 languages; stars additive |
| GithubProfile.AnalysisIgnoresForks | hiring-ai-agent/app/agents/resume_analysis_agent.py:317-319 | inserting a fork changes no part of the analysis |
| PdfParser.CountFoundMonotone | hiring-ai-agent/app/services/pdf_parser.py:153-157 | more text never matches fewer patterns |
| PdfParser.DetectionIgnoresCase | hiring-ai-agent/app/services/pdf_parser.py:150-159 | texts equal ignoring case are detected alike |
| PdfParser.DetectionMonotone | hiring-ai-agent/app/services/pdf_parser.py:150-159 | any text containing a detected text is detected |
| PdfParser.ProfileUrlIsDetected | hiring-ai-agent/app/services/pdf_parser.py:20-29 | any text containing "www.linkedin.com" is detected (three patterns match) |
| PdfParser.WordCountFacts | hiring-ai-agent/app/services/pdf_parser.py:129 | at most one word per character, and none exactly for all-whitespace text |
| PdfParser.ExtractFromPages | hiring-ai-agent/app/services/pdf_parser.py:77-138 | one page entry per page ("" when it raised); raw text the "\n\n"-join of successes; linkedin, scanned, char and word counts from it |
| PdfParser.JoinContains | hiring-ai-agent/app/services/pdf_parser.py:113 | each part occurs in the joined text |
| PdfParser.ExtractionFacts | hiring-ai-agent/app/services/pdf_parser.py:104-119 | each extracted page occurs in raw text; when no page is read the text is empty and a non-empty document counts as scanned |
| PdfParser.Suffix | hiring-ai-agent/app/services/pdf_parser.py:184 | the suffix is empty or a dot followed by dot-free text |
| PdfParser.ValidatePdf | hiring-ai-agent/app/services/pdf_parser.py:161-198 | valid iff the file exists, ends in ".pdf" (any case) and the reader opens it; "File not found" and "Not a PDF file" errors; the reader's error otherwise |
| PdfParser.UpperCaseExtensionAccepted | hiring-ai-agent/app/services/pdf_parser.py:184-194 | "d/x.PDF" is accepted |
| PdfParser.DirectorySuffixIgnored | hiring-ai-agent/app/services/pdf_parser.py:184 | only the final component counts: "a.pdf/notes" has no suffix |
| PdfParser.HiddenNameHasNoSuffix | hiring-ai-agent/app/services/pdf_parser.py:184 | ".pdf" alone has no suffix, so it is rejected |

## Left out

- Language-model calls: prompts, retries and output content are not modelled. Each call
  is an `Option` input, with `None` meaning it raised.
- The vector store (`chroma_db.py`) is a map from id to embedding plus a given
  nearest-ids function.
- The GitHub HTTP fetches are inputs. An empty profile dictionary is folded into
  `None`, and the repository limit of 15 is the caller's business.
- `math.sqrt`, the cosine itself, `round(·, 2)` and `:.1f` formatting are not modelled.
  The cosine is a parameter, rounding is the identity and message formatting is an
  oracle.
- Regular-expression helpers are not modelled. They are `extract_github_url`,
  `extract_github_username`, `_extract_email`, `_extract_phone`, `_extract_urls`,
  `_remove_pdf_artifacts`, `_remove_page_markers`, `_remove_jd_boilerplate` and the
  header regexes of `extract_sections`. They are string-function parameters in the
  model.
- The `str.replace` table of `_fix_encoding_issues` (garbled-encoding and Unicode
  substitutions, no regular expression) is not modelled either. It is likewise a
  string-function parameter.
- The SQL schema text, JSON (de)serialisation of list columns, timestamps and
  transactions are not modelled. The non-atomic delete-then-insert race under
  concurrency is left out too.
- `get_job_by_title`, `list_jobs` and `get_candidate_by_email` are left out: no core
  operation relies on them.
- `analyze_fit`, `enrich_candidate`, `generate_github_summary` and
  `parse_resume_with_github` are compositions of language-model calls. They are not
  modelled beyond the assessment text that `enrich_candidate_with_github` receives
  as input.
- `extract_text` and `extract_text_from_bytes` (file and byte I/O) and the PDF
  metadata dictionary are left out.
- `Experience(**dict)` validation of the model's experience entries is left out.
- Case mapping, `strip`, `split` and `title` are ASCII-only for letters. `strip` and
  `split` use Python's whitespace set, without Unicode case folding.
- Python `set` enumeration order:
  - the ranking pool is enumerated in an arbitrary order;
  - `RefineJobContext` states its merged lists for some duplicate-free enumeration of
    the merged set;
  - `Scoring.CalculateSkillMatch` lists `matchedRequired`, `matchedPreferred`,
    `missingRequired`, `missingPreferred` and `extraSkills`, which the source builds
    by iterating sets, in the order the skills first appear in the input lists. That
    order is one the source allows; Python does not promise it. It also decides which
    ten extra skills `extra_skills[:10]` keeps in `GenerateCandidateRank`. Another
    enumeration gives the same contents and lengths, but in another order and possibly
    with another ten extras.
- `Store.DatabaseStore.DeleteCandidatesByJob` answers the deleted ids in table order
  (newest first). Its `SELECT` has no `ORDER BY`, so SQLite leaves the order open.
- SQL `ORDER BY overall_score DESC` is modelled as a stable sort in insertion order.
  SQLite leaves the order of ties unspecified.
- Store.DatabaseStore.ListCandidates: `ORDER BY created_at DESC` is modelled as strict
  newest-first by insertion. `created_at` is a `CURRENT_TIMESTAMP` with one-second
  resolution, so rows created in the same second come back in an order SQLite leaves
  open. That order decides which rows `LIMIT 100` keeps for the candidate pool and its
  fallback.
- PdfParser.Suffix: this follows `PurePath.suffix` on `/`-separated paths only. Windows
  separators are not modelled.
- ResumeExtractor.NormalizeSkills: the canonical names of the table are re-title-cased
  when they are not table keys themselves ("MongoDB" gives "Mongodb"). This is the
  behaviour as written, and `CanonicalNameRetitled` documents it.
- Background ranking tasks, the scheduler, the FastAPI routes and the e-mail ingestion
  agent (IMAP I/O) are left out as concurrency and I/O wiring.
