/** The actual job graph behind a promotion proof: paginated collection of one
    run attempt's jobs (scripts/deployment_receipt_runtime.py) and the timing
    checks over them (scripts/deployment_promotion_proof.py). */
module JobGraph {
  import opened Wrappers
  import opened Schedule

  /** The installed reusable worker's jobs. */
  datatype Stage = Resolve | Preview | DestructiveDiff | IamValidation | Apply | PostApplyDrift | Receipt

  /** A job's display name; a worker's name spells out its scope, account and
      stage, any other name is not one the promotion expects. */
  datatype JobName =
    | Preflight
    | ValidateInputs
    | WholeTest
    | WholeProd
    | Worker(scope: string, account: string, stage: Stage)
    | Unrelated(text: string)

  datatype Job = Job(
    id: int,
    name: JobName,
    runId: int,
    runAttempt: int,
    runUrl: string,
    headSha: string,
    headBranch: string,
    status: string,
    conclusion: string,
    startedAt: Option<int>,
    completedAt: Option<int>)

  datatype Run = Run(id: int, url: string, sha: string)

  /* ---------- pagination ---------- */

  const MAX_JOBS := 500
  const PAGE_SIZE := 100

  datatype Page = Page(totalCount: int, jobs: seq<Job>)

  predicate PageAccepted(page: Page) {
    0 < page.totalCount <= MAX_JOBS
  }

  predicate JobIdentity(job: Job, run: Run) {
    && job.id > 0
    && job.runId == run.id
    && job.runAttempt == 1
    && job.runUrl == run.url
    && job.headSha == run.sha
    && job.headBranch == "main"
  }

  function PageCount(count: int): int {
    (count + PAGE_SIZE - 1) / PAGE_SIZE
  }

  function Min(a: int, b: int): int {
    if a < b then a else b
  }

  /** The first `n` pages' jobs. */
  function Collected(pages: nat -> Page, n: nat): seq<Job> {
    if n == 0 then [] else Collected(pages, n - 1) + pages(n).jobs
  }

  ghost predicate DistinctIds(jobs: seq<Job>) {
    forall i, j :: 0 <= i < j < |jobs| ==> jobs[i].id != jobs[j].id
  }

  /** Page `p` repeats the first page's count and holds all that is left of it,
      up to a page. */
  predicate FullPage(pages: nat -> Page, p: nat, count: int) {
    && PageAccepted(pages(p))
    && pages(p).totalCount == count
    && |pages(p).jobs| == Min(PAGE_SIZE, count - PAGE_SIZE * (p - 1))
  }

  ghost predicate JobsComplete(pages: nat -> Page, run: Run) {
    && PageAccepted(pages(1))
    && (forall p: nat :: 1 <= p <= PageCount(pages(1).totalCount) ==> FullPage(pages, p, pages(1).totalCount))
    && (forall job :: job in Collected(pages, PageCount(pages(1).totalCount)) ==> JobIdentity(job, run))
    && DistinctIds(Collected(pages, PageCount(pages(1).totalCount)))
  }

  /** The inner loop: one page's jobs, each of this run and new. */
  method AdmitPage(before: seq<Job>, known: set<int>, rows: seq<Job>, run: Run, ghost all: seq<Job>)
    returns (ok: bool, jobs: seq<Job>, seen: set<int>)
    requires Admitted(before, run, known) && before + rows <= all
    ensures ok ==> jobs == before + rows && Admitted(jobs, run, seen)
    ensures !ok ==> !(DistinctIds(all) && forall job :: job in all ==> JobIdentity(job, run))
  {
    jobs, seen := before, known;
    for i := 0 to |rows|
      invariant jobs == before + rows[..i]
      invariant Admitted(jobs, run, seen)
    {
      var job := rows[i];
      assert before + rows[..i] + [job] == before + rows[..i + 1] <= before + rows;
      if job.id in seen || !JobIdentity(job, run) {
        Refused(jobs, job, run, seen, all);
        return false, jobs, seen;
      }
      AdmittedOne(jobs, job, run, seen);
      seen := seen + {job.id};
      jobs := jobs + [job];
    }
    return true, jobs, seen;
  }

  lemma AdmittedOne(jobs: seq<Job>, job: Job, run: Run, seen: set<int>)
    requires Admitted(jobs, run, seen) && job.id !in seen && JobIdentity(job, run)
    ensures Admitted(jobs + [job], run, seen + {job.id})
  {
    hide JobIdentity;
    var all := jobs + [job];
    assert all[|jobs|] == job;
    forall id | id in seen ensures exists x :: x in all && x.id == id {
      var x :| x in jobs && x.id == id;
      assert x in all;
    }
    forall i | 0 <= i < |jobs| ensures all[i].id != job.id {
      assert jobs[i] in jobs;
    }
  }

  /** Read every page the first page's count calls for; each is read once. */
  method CompleteJobs(pages: nat -> Page, run: Run) returns (r: Result<seq<Job>>)
    ensures r.Ok? <==> JobsComplete(pages, run)
    ensures r.Ok? ==> r.value == Collected(pages, PageCount(pages(1).totalCount))
  {
    var first := pages(1);
    if !PageAccepted(first) {
      return Rejected;
    }
    var count := first.totalCount;
    var jobs: seq<Job> := [];
    var seen: set<int> := {};
    var page := 1;
    while page < PageCount(count) + 1
      invariant 1 <= page <= PageCount(count) + 1
      invariant jobs == Collected(pages, page - 1)
      invariant |jobs| == Min(PAGE_SIZE * (page - 1), count)
      invariant forall p: nat :: 1 <= p < page ==> FullPage(pages, p, count)
      invariant Admitted(jobs, run, seen)
    {
      var result := if page == 1 then first else pages(page);
      if !(PageAccepted(result) && result.totalCount == count && |result.jobs| == Min(PAGE_SIZE, count - |jobs|)) {
        assert !FullPage(pages, page, count);
        return Rejected;
      }
      CollectedPrefix(pages, page, PageCount(count));
      var ok;
      ok, jobs, seen := AdmitPage(jobs, seen, result.jobs, run, Collected(pages, PageCount(count)));
      if !ok {
        return Rejected;
      }
      page := page + 1;
    }
    return Ok(jobs);
  }

  ghost predicate Admitted(jobs: seq<Job>, run: Run, seen: set<int>) {
    && (forall job :: job in jobs ==> JobIdentity(job, run) && job.id in seen)
    && (forall id :: id in seen ==> exists job :: job in jobs && job.id == id)
    && DistinctIds(jobs)
  }

  lemma {:induction false} CollectedPrefix(pages: nat -> Page, m: nat, n: nat)
    requires m <= n
    ensures Collected(pages, m) <= Collected(pages, n)
  {
    if m < n {
      CollectedPrefix(pages, m, n - 1);
    }
  }

  /** A job refused after an admitted prefix spoils the whole listing. */
  lemma Refused(jobs: seq<Job>, job: Job, run: Run, seen: set<int>, all: seq<Job>)
    requires Admitted(jobs, run, seen)
    requires jobs + [job] <= all
    requires job.id in seen || !JobIdentity(job, run)
    ensures !(DistinctIds(all) && forall x :: x in all ==> JobIdentity(x, run))
  {
    assert all[|jobs|] == job;
    if job.id in seen {
      var other :| other in jobs && other.id == job.id;
      var i :| 0 <= i < |jobs| && jobs[i] == other;
      assert all[i] == other;
    }
  }

  /** What an acceptance means: as many jobs as the server counted, each a
      different job of this very run attempt. */
  lemma AcceptedJobsAreDistinct(pages: nat -> Page, run: Run)
    requires JobsComplete(pages, run)
    ensures var jobs := Collected(pages, PageCount(pages(1).totalCount));
            && |jobs| == pages(1).totalCount == |set i | 0 <= i < |jobs| :: jobs[i].id|
            && forall job :: job in jobs ==> JobIdentity(job, run)
  {
    var count := pages(1).totalCount;
    var jobs := Collected(pages, PageCount(count));
    CollectedLength(pages, count, PageCount(count));
    DistinctIdsCount(jobs);
  }

  lemma {:induction false} CollectedLength(pages: nat -> Page, count: int, n: nat)
    requires 0 < count && n <= PageCount(count)
    requires forall p: nat :: 1 <= p <= n ==> FullPage(pages, p, count)
    ensures |Collected(pages, n)| == Min(PAGE_SIZE * n, count)
  {
    if n > 0 {
      CollectedLength(pages, count, n - 1);
      assert FullPage(pages, n, count);
    }
  }

  lemma {:induction false} DistinctIdsCount(jobs: seq<Job>)
    requires DistinctIds(jobs)
    ensures |set i | 0 <= i < |jobs| :: jobs[i].id| == |jobs|
  {
    if jobs != [] {
      var n := |jobs| - 1;
      var front := set i | 0 <= i < n :: jobs[i].id;
      DistinctIdsCount(jobs[..n]);
      assert front == set i | 0 <= i < |jobs[..n]| :: jobs[..n][i].id;
      assert (set i | 0 <= i < |jobs| :: jobs[i].id) == front + {jobs[n].id};
      assert jobs[n].id !in front;
    }
  }

  /** The pages a server shows of one fixed list. */
  ghost predicate Serves(pages: nat -> Page, all: seq<Job>) {
    forall p: nat :: 1 <= p <= PageCount(|all|) ==>
      pages(p) == Page(|all|, all[PAGE_SIZE * (p - 1)..Min(PAGE_SIZE * p, |all|)])
  }

  /** On a fixed list of 1 to 500 distinct jobs of the run, collection accepts
      and is that list. */
  lemma FixedListing(pages: nat -> Page, all: seq<Job>, run: Run)
    requires 0 < |all| <= MAX_JOBS && Serves(pages, all)
    requires DistinctIds(all) && forall job :: job in all ==> JobIdentity(job, run)
    ensures JobsComplete(pages, run)
    ensures Collected(pages, PageCount(pages(1).totalCount)) == all
  {
    assert pages(1).totalCount == |all|;
    FixedPrefix(pages, all, PageCount(|all|));
    assert Min(PAGE_SIZE * PageCount(|all|), |all|) == |all|;
    assert all[..|all|] == all;
  }

  lemma {:induction false} FixedPrefix(pages: nat -> Page, all: seq<Job>, n: nat)
    requires 0 < |all| <= MAX_JOBS && Serves(pages, all) && n <= PageCount(|all|)
    ensures Collected(pages, n) == all[..Min(PAGE_SIZE * n, |all|)]
    ensures forall p: nat :: 1 <= p <= n ==> FullPage(pages, p, |all|)
  {
    if n > 0 {
      FixedPrefix(pages, all, n - 1);
      assert pages(n) == Page(|all|, all[PAGE_SIZE * (n - 1)..Min(PAGE_SIZE * n, |all|)]);
    }
  }

  /* ---------- the graph's evidence ---------- */

  datatype Evidence = Evidence(id: int, start: int, end: int)

  /** A completed, successful job with ordered timestamps yields evidence. */
  function JobEvidence(job: Job): Option<Evidence> {
    if job.status == "completed" && job.conclusion == "success" && job.startedAt.Some? && job.completedAt.Some?
       && job.startedAt.value <= job.completedAt.value
    then Some(Evidence(job.id, job.startedAt.value, job.completedAt.value))
    else None
  }

  const ROOT_JOBS: set<JobName> := {Preflight, ValidateInputs, WholeTest, WholeProd}
  const STAGES: seq<Stage> := [Resolve, Preview, DestructiveDiff, IamValidation, Apply, PostApplyDrift, Receipt]

  /** The jobs a promotion of these scopes must show. */
  predicate Expected(scopes: seq<string>, name: JobName) {
    name in ROOT_JOBS || (name.Worker? && name.scope in scopes && name.account in [TEST, PROD])
  }

  function ExpectedNames(scopes: seq<string>): (r: set<JobName>)
    ensures forall name :: name in r <==> Expected(scopes, name)
  {
    var workers := set s, a, st | s in scopes && a in [TEST, PROD] && st in STAGES :: Worker(s, a, st);
    forall name | Expected(scopes, name) ensures name in ROOT_JOBS + workers {
      if name !in ROOT_JOBS {
        EveryStage(name.stage);
        assert name == Worker(name.scope, name.account, name.stage);
      }
    }
    ROOT_JOBS + workers
  }

  lemma EveryStage(stage: Stage)
    ensures stage in STAGES
  {
    assert STAGES[0] == Resolve && STAGES[1] == Preview && STAGES[2] == DestructiveDiff && STAGES[3] == IamValidation;
    assert STAGES[4] == Apply && STAGES[5] == PostApplyDrift && STAGES[6] == Receipt;
  }
}
