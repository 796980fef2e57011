/** The timing checks of a promotion proof (scripts/deployment_promotion_proof.py):
    which jobs must have ended before which others started.  The checks compare
    adjacent scopes and fixed barriers only; the theorems say what that amounts to. */
module JobOrder {
  import opened Wrappers
  import opened Schedule
  import opened JobGraph

  type Evidences = map<JobName, Evidence>

  ghost predicate Complete(scopes: seq<string>, jobs: Evidences) {
    forall name :: Expected(scopes, name) ==> name in jobs && jobs[name].start <= jobs[name].end
  }

  /* ---------- selecting the evidence ---------- */

  /** Every expected name occurs once among the jobs, as a successful one. */
  ghost predicate Evident(jobs: seq<Job>, scopes: seq<string>) {
    && (forall i :: 0 <= i < |jobs| && Expected(scopes, jobs[i].name) ==> JobEvidence(jobs[i]).Some?)
    && (forall i, j :: 0 <= i < j < |jobs| && Expected(scopes, jobs[i].name) ==> jobs[i].name != jobs[j].name)
    && (forall name :: Expected(scopes, name) ==> exists i :: 0 <= i < |jobs| && jobs[i].name == name)
  }

  ghost predicate Selects(jobs: seq<Job>, scopes: seq<string>, selected: Evidences) {
    && (forall i :: 0 <= i < |jobs| && Expected(scopes, jobs[i].name) ==>
          jobs[i].name in selected && JobEvidence(jobs[i]) == Some(selected[jobs[i].name]))
    && (forall name :: name in selected ==>
          Expected(scopes, name) && exists i :: 0 <= i < |jobs| && jobs[i].name == name)
  }

  ghost predicate Unrepeated(jobs: seq<Job>, scopes: seq<string>) {
    forall i, j :: 0 <= i < j < |jobs| && Expected(scopes, jobs[i].name) ==> jobs[i].name != jobs[j].name
  }

  method SelectEvidence(jobs: seq<Job>, scopes: seq<string>) returns (r: Result<Evidences>)
    ensures r.Ok? <==> Evident(jobs, scopes)
    ensures r.Ok? ==> Selects(jobs, scopes, r.value) && r.value.Keys == ExpectedNames(scopes)
  {
    var expected := ExpectedNames(scopes);
    var selected: Evidences := map[];
    for i := 0 to |jobs|
      invariant Selects(jobs[..i], scopes, selected) && Unrepeated(jobs[..i], scopes)
    {
      var job := jobs[i];
      if job.name in expected {
        if job.name in selected {
          Repeats(jobs, scopes, selected, i);
          return Rejected;
        }
        var evidence := JobEvidence(job);
        if evidence == None {
          return Rejected;
        }
        SelectOne(jobs, scopes, selected, i, evidence.value);
        StaysUnrepeated(jobs, scopes, selected, i);
        selected := selected[job.name := evidence.value];
      } else {
        SkipOne(jobs, scopes, selected, i);
      }
    }
    assert jobs[..|jobs|] == jobs;
    SelectedAll(jobs, scopes, selected);
    if selected.Keys != expected {
      return Rejected;
    }
    return Ok(selected);
  }

  lemma Repeats(jobs: seq<Job>, scopes: seq<string>, selected: Evidences, i: nat)
    requires i < |jobs| && Selects(jobs[..i], scopes, selected)
    requires jobs[i].name in selected
    ensures !Evident(jobs, scopes)
  {
    var a :| 0 <= a < |jobs[..i]| && jobs[..i][a].name == jobs[i].name;
    assert jobs[a].name == jobs[i].name;
  }

  lemma StaysUnrepeated(jobs: seq<Job>, scopes: seq<string>, selected: Evidences, i: nat)
    requires i < |jobs| && Selects(jobs[..i], scopes, selected) && Unrepeated(jobs[..i], scopes)
    requires jobs[i].name !in selected
    ensures Unrepeated(jobs[..i + 1], scopes)
  {
    var less, more := jobs[..i], jobs[..i + 1];
    assert forall a :: 0 <= a < i ==> less[a] == more[a];
  }

  lemma SkipUnrepeated(jobs: seq<Job>, scopes: seq<string>, i: nat)
    requires i < |jobs| && Unrepeated(jobs[..i], scopes) && !Expected(scopes, jobs[i].name)
    ensures Unrepeated(jobs[..i + 1], scopes)
  {
    hide Expected;
    var less, more := jobs[..i], jobs[..i + 1];
    forall a, b | 0 <= a < b < |more| && Expected(scopes, more[a].name) ensures more[a].name != more[b].name {
      assert less[a] == more[a];
      if b < i {
        assert less[b] == more[b];
      }
    }
  }

  lemma SkipOne(jobs: seq<Job>, scopes: seq<string>, selected: Evidences, i: nat)
    requires i < |jobs| && Selects(jobs[..i], scopes, selected) && Unrepeated(jobs[..i], scopes)
    requires !Expected(scopes, jobs[i].name)
    ensures Selects(jobs[..i + 1], scopes, selected) && Unrepeated(jobs[..i + 1], scopes)
  {
    hide Expected, JobEvidence;
    SkipUnrepeated(jobs, scopes, i);
    var less, more := jobs[..i], jobs[..i + 1];
    assert forall a :: 0 <= a < i ==> less[a] == more[a];
    forall name | name in selected ensures exists a :: 0 <= a < |more| && more[a].name == name {
      var a :| 0 <= a < |less| && less[a].name == name;
      assert more[a].name == name;
    }
  }

  lemma SelectedAll(jobs: seq<Job>, scopes: seq<string>, selected: Evidences)
    requires Selects(jobs, scopes, selected) && Unrepeated(jobs, scopes)
    ensures selected.Keys == ExpectedNames(scopes) <==> Evident(jobs, scopes)
  {
    assert forall i :: 0 <= i < |jobs| && Expected(scopes, jobs[i].name) ==> JobEvidence(jobs[i]).Some?;
    if Evident(jobs, scopes) {
      forall name | Expected(scopes, name) ensures name in selected {
        var i :| 0 <= i < |jobs| && jobs[i].name == name;
      }
    } else {
      var name :| Expected(scopes, name) && !exists i :: 0 <= i < |jobs| && jobs[i].name == name;
      assert name !in selected;
    }
  }

  lemma SelectOne(jobs: seq<Job>, scopes: seq<string>, selected: Evidences, i: nat, evidence: Evidence)
    requires i < |jobs| && Selects(jobs[..i], scopes, selected)
    requires Expected(scopes, jobs[i].name) && jobs[i].name !in selected && JobEvidence(jobs[i]) == Some(evidence)
    ensures Selects(jobs[..i + 1], scopes, selected[jobs[i].name := evidence])
  {
    var more, next := jobs[..i + 1], selected[jobs[i].name := evidence];
    assert forall a :: 0 <= a < i ==> jobs[..i][a] == more[a];
    forall a | 0 <= a < |more| && Expected(scopes, more[a].name)
      ensures more[a].name in next && JobEvidence(more[a]) == Some(next[more[a].name])
    {
      if a < i {
        assert jobs[..i][a].name in selected;
      }
    }
    forall name | name in next ensures Expected(scopes, name) && exists a :: 0 <= a < |more| && more[a].name == name {
      if name == jobs[i].name {
        assert more[i].name == name;
      } else {
        var a :| 0 <= a < |jobs[..i]| && jobs[..i][a].name == name;
        assert more[a].name == name;
      }
    }
  }

  /* ---------- the checks ---------- */

  predicate Ends(jobs: Evidences, first: JobName, second: JobName) {
    first in jobs && second in jobs && jobs[first].end <= jobs[second].start
  }

  /** The installed job dependencies; the operator's two gates run in parallel. */
  function Dependencies(scope: string, stage: Stage): seq<Stage> {
    match stage
    case Resolve => []
    case Preview => [Resolve]
    case DestructiveDiff => [Resolve, Preview]
    case IamValidation => if scope == "operator" then [Resolve, Preview] else [Resolve, Preview, DestructiveDiff]
    case Apply => [Resolve, Preview, DestructiveDiff, IamValidation]
    case PostApplyDrift => [Resolve, Apply]
    case Receipt => [Resolve, Preview, DestructiveDiff, IamValidation, Apply, PostApplyDrift]
  }

  predicate WorkerOrder(scope: string, account: string, jobs: Evidences) {
    forall stage, before :: before in Dependencies(scope, stage) ==>
      Ends(jobs, Worker(scope, account, before), Worker(scope, account, stage))
  }

  predicate AdjacentScopes(previous: string, current: string, account: string, jobs: Evidences) {
    forall stage :: Ends(jobs, Worker(previous, account, Receipt), Worker(current, account, stage))
  }

  predicate ScopeOrder(scopes: seq<string>, jobs: Evidences) {
    forall account, k :: account in [TEST, PROD] && 0 < k < |scopes| ==>
      AdjacentScopes(scopes[k - 1], scopes[k], account, jobs)
  }

  predicate BarrierOrder(scope: string, jobs: Evidences) {
    && (forall stage :: Ends(jobs, ValidateInputs, Worker(scope, TEST, stage)))
    && (forall stage :: Ends(jobs, Worker(scope, TEST, stage), WholeTest))
    && (forall stage :: Ends(jobs, WholeTest, Worker(scope, PROD, stage)))
    && (forall stage :: Ends(jobs, Worker(scope, PROD, stage), WholeProd))
  }

  predicate VerifyOrder(scopes: seq<string>, jobs: Evidences) {
    && Ends(jobs, Preflight, ValidateInputs)
    && Ends(jobs, WholeTest, WholeProd)
    && (forall scope :: scope in scopes ==>
          && BarrierOrder(scope, jobs)
          && WorkerOrder(scope, TEST, jobs)
          && WorkerOrder(scope, PROD, jobs))
    && ScopeOrder(scopes, jobs)
  }

  /** What the job listing must be for the graph check to pass. */
  ghost predicate GraphAccepted(jobs: seq<Job>, scopes: seq<string>) {
    Evident(jobs, scopes) && exists selected :: Selected(jobs, scopes, selected) && VerifyOrder(scopes, selected)
  }

  ghost predicate Selected(jobs: seq<Job>, scopes: seq<string>, selected: Evidences) {
    Selects(jobs, scopes, selected) && selected.Keys == ExpectedNames(scopes)
  }

  lemma SelectionIsUnique(jobs: seq<Job>, scopes: seq<string>, a: Evidences, b: Evidences)
    requires Selected(jobs, scopes, a) && Selected(jobs, scopes, b)
    ensures a == b
  {
    forall name | name in a ensures a[name] == b[name] {
      var i :| 0 <= i < |jobs| && jobs[i].name == name;
    }
  }

  lemma SelectedIsComplete(jobs: seq<Job>, scopes: seq<string>, selected: Evidences)
    requires Selected(jobs, scopes, selected)
    ensures Complete(scopes, selected)
  {
    forall name | Expected(scopes, name) ensures name in selected && selected[name].start <= selected[name].end {
      var i :| 0 <= i < |jobs| && jobs[i].name == name;
    }
  }

  method VerifyJobGraph(jobs: seq<Job>, scopes: seq<string>) returns (r: Result<Evidences>)
    ensures r.Ok? <==> GraphAccepted(jobs, scopes)
    ensures r.Ok? ==> Selected(jobs, scopes, r.value) && Complete(scopes, r.value) && VerifyOrder(scopes, r.value)
  {
    var selected := SelectEvidence(jobs, scopes);
    if selected.Rejected? {
      return Rejected;
    }
    assert Selected(jobs, scopes, selected.value);
    if !VerifyOrder(scopes, selected.value) {
      forall other | Selected(jobs, scopes, other) ensures !VerifyOrder(scopes, other) {
        SelectionIsUnique(jobs, scopes, selected.value, other);
      }
      return Rejected;
    }
    SelectedIsComplete(jobs, scopes, selected.value);
    return selected;
  }

  /* ---------- the precedence the checks amount to ---------- */

  function Phase(name: JobName): int {
    match name
    case Preflight => 0
    case ValidateInputs => 1
    case WholeTest => 3
    case WholeProd => 5
    case Worker(_, account, _) => if account == TEST then 2 else 4
    case Unrelated(_) => -1
  }

  function Rank(stage: Stage): int {
    match stage
    case Resolve => 0
    case Preview => 1
    case DestructiveDiff => 2
    case IamValidation => 3
    case Apply => 4
    case PostApplyDrift => 5
    case Receipt => 6
  }

  /** Within one worker the stages are serial, but for the operator's two gates. */
  predicate StageBefore(scope: string, a: Stage, b: Stage) {
    Rank(a) < Rank(b) && !(scope == "operator" && a == DestructiveDiff && b == IamValidation)
  }

  predicate ScopeBefore(scopes: seq<string>, a: string, b: string) {
    exists i, j :: 0 <= i < j < |scopes| && scopes[i] == a && scopes[j] == b
  }

  /** The order a promotion promises: admission, validation, all of TEST, its
      barrier, all of PROD, its barrier; in an account, every stage of an earlier
      scope, however much earlier, before every stage of a later one. */
  predicate MustPrecede(scopes: seq<string>, a: JobName, b: JobName) {
    && Expected(scopes, a) && Expected(scopes, b)
    && (|| Phase(a) < Phase(b)
        || (&& a.Worker? && b.Worker? && a.account == b.account
            && (ScopeBefore(scopes, a.scope, b.scope)
                || (a.scope == b.scope && StageBefore(a.scope, a.stage, b.stage)))))
  }

  ghost predicate Honoured(scopes: seq<string>, jobs: Evidences) {
    forall a, b :: MustPrecede(scopes, a, b) ==> Ends(jobs, a, b)
  }

  lemma Through(jobs: Evidences, a: JobName, b: JobName, c: JobName)
    requires Ends(jobs, a, b) && Ends(jobs, b, c) && jobs[b].start <= jobs[b].end
    ensures Ends(jobs, a, c)
  {
  }

  lemma StagesInOrder(scope: string, account: string, a: Stage, b: Stage, jobs: Evidences)
    requires WorkerOrder(scope, account, jobs) && StageBefore(scope, a, b)
    requires forall stage ::
               var name := Worker(scope, account, stage);
               name in jobs && jobs[name].start <= jobs[name].end
    ensures Ends(jobs, Worker(scope, account, a), Worker(scope, account, b))
  {
    if a !in Dependencies(scope, b) {
      assert b == PostApplyDrift && a in Dependencies(scope, Apply);
      Through(jobs, Worker(scope, account, a), Worker(scope, account, Apply), Worker(scope, account, b));
    }
  }

  /** Adjacent comparisons reach every later scope. */
  lemma {:induction false} ScopesInOrder(scopes: seq<string>, account: string, i: nat, j: nat, a: Stage, b: Stage,
                                         jobs: Evidences)
    requires Complete(scopes, jobs) && VerifyOrder(scopes, jobs)
    requires account in [TEST, PROD] && i < j < |scopes|
    ensures Ends(jobs, Worker(scopes[i], account, a), Worker(scopes[j], account, b))
    decreases j - i
  {
    assert AdjacentScopes(scopes[i], scopes[i + 1], account, jobs) by {
      assert scopes[i] == scopes[(i + 1) - 1];
    }
    var receipt := Worker(scopes[i], account, Receipt);
    if a != Receipt {
      StagesInOrder(scopes[i], account, a, Receipt, jobs);
    }
    if j == i + 1 {
      assert Ends(jobs, receipt, Worker(scopes[j], account, b));
      if a != Receipt {
        Through(jobs, Worker(scopes[i], account, a), receipt, Worker(scopes[j], account, b));
      }
    } else {
      var next := Worker(scopes[i + 1], account, b);
      assert Ends(jobs, receipt, next);
      if a != Receipt {
        Through(jobs, Worker(scopes[i], account, a), receipt, next);
      }
      ScopesInOrder(scopes, account, i + 1, j, b, b, jobs);
      Through(jobs, Worker(scopes[i], account, a), next, Worker(scopes[j], account, b));
    }
  }

  lemma AfterWholeTest(scopes: seq<string>, jobs: Evidences, b: JobName)
    requires VerifyOrder(scopes, jobs) && Expected(scopes, b) && Phase(b) > 3
    ensures Ends(jobs, WholeTest, b)
  {
    assert b == WholeProd || (b.Worker? && BarrierOrder(b.scope, jobs));
  }

  lemma AfterValidation(scopes: seq<string>, jobs: Evidences, b: JobName)
    requires scopes != [] && Complete(scopes, jobs) && VerifyOrder(scopes, jobs)
    requires Expected(scopes, b) && Phase(b) > 1
    ensures Ends(jobs, ValidateInputs, b)
  {
    var worker := Worker(scopes[0], TEST, Resolve);
    assert BarrierOrder(scopes[0], jobs);
    Through(jobs, ValidateInputs, worker, WholeTest);
    if Phase(b) > 3 {
      AfterWholeTest(scopes, jobs, b);
      Through(jobs, ValidateInputs, WholeTest, b);
    } else {
      assert b == WholeTest || (b.Worker? && BarrierOrder(b.scope, jobs));
    }
  }

  /** Admission precedes everything, and each account's barrier separates it. */
  lemma PhasesInOrder(scopes: seq<string>, jobs: Evidences, a: JobName, b: JobName)
    requires scopes != [] && Complete(scopes, jobs) && VerifyOrder(scopes, jobs)
    requires Expected(scopes, a) && Expected(scopes, b) && Phase(a) < Phase(b)
    ensures Ends(jobs, a, b)
  {
    if a == Preflight {
      if b != ValidateInputs {
        AfterValidation(scopes, jobs, b);
        Through(jobs, a, ValidateInputs, b);
      }
    } else if a == ValidateInputs {
      AfterValidation(scopes, jobs, b);
    } else if a == WholeTest {
      AfterWholeTest(scopes, jobs, b);
    } else {
      assert a.Worker? && BarrierOrder(a.scope, jobs);
      if Phase(b) > 3 && Phase(a) == 2 {
        AfterWholeTest(scopes, jobs, b);
        Through(jobs, a, WholeTest, b);
      }
    }
  }

  lemma ChecksGivePrecedence(scopes: seq<string>, jobs: Evidences)
    requires scopes != [] && Complete(scopes, jobs) && VerifyOrder(scopes, jobs)
    ensures Honoured(scopes, jobs)
  {
    forall a, b | MustPrecede(scopes, a, b) ensures Ends(jobs, a, b) {
      if Phase(a) < Phase(b) {
        PhasesInOrder(scopes, jobs, a, b);
      } else if ScopeBefore(scopes, a.scope, b.scope) {
        var i, j :| 0 <= i < j < |scopes| && scopes[i] == a.scope && scopes[j] == b.scope;
        ScopesInOrder(scopes, a.account, i, j, a.stage, b.stage, jobs);
      } else {
        StagesInOrder(a.scope, a.account, a.stage, b.stage, jobs);
      }
    }
  }

  lemma PrecedenceGivesWorkerOrder(scopes: seq<string>, scope: string, account: string, jobs: Evidences)
    requires Honoured(scopes, jobs) && scope in scopes && account in [TEST, PROD]
    ensures WorkerOrder(scope, account, jobs)
  {
    hide MustPrecede, Dependencies, Ends;
    forall stage, before | before in Dependencies(scope, stage)
      ensures Ends(jobs, Worker(scope, account, before), Worker(scope, account, stage))
    {
      DependencyPrecedes(scopes, scope, account, before, stage);
    }
  }

  lemma DependencyPrecedes(scopes: seq<string>, scope: string, account: string, before: Stage, stage: Stage)
    requires scope in scopes && account in [TEST, PROD] && before in Dependencies(scope, stage)
    ensures MustPrecede(scopes, Worker(scope, account, before), Worker(scope, account, stage))
  {
  }

  lemma PrecedenceGivesBarriers(scopes: seq<string>, scope: string, jobs: Evidences)
    requires Honoured(scopes, jobs) && scope in scopes
    ensures BarrierOrder(scope, jobs)
  {
    forall stage
      ensures Ends(jobs, ValidateInputs, Worker(scope, TEST, stage))
                && Ends(jobs, Worker(scope, TEST, stage), WholeTest)
      ensures Ends(jobs, WholeTest, Worker(scope, PROD, stage)) && Ends(jobs, Worker(scope, PROD, stage), WholeProd)
    {
      assert MustPrecede(scopes, ValidateInputs, Worker(scope, TEST, stage));
      assert MustPrecede(scopes, Worker(scope, TEST, stage), WholeTest);
      assert MustPrecede(scopes, WholeTest, Worker(scope, PROD, stage));
      assert MustPrecede(scopes, Worker(scope, PROD, stage), WholeProd);
    }
  }

  lemma PrecedenceGivesScopeOrder(scopes: seq<string>, jobs: Evidences)
    requires Honoured(scopes, jobs)
    ensures ScopeOrder(scopes, jobs)
  {
    forall account, k | account in [TEST, PROD] && 0 < k < |scopes|
      ensures AdjacentScopes(scopes[k - 1], scopes[k], account, jobs)
    {
      assert ScopeBefore(scopes, scopes[k - 1], scopes[k]);
      forall stage ensures Ends(jobs, Worker(scopes[k - 1], account, Receipt), Worker(scopes[k], account, stage)) {
        assert MustPrecede(scopes, Worker(scopes[k - 1], account, Receipt), Worker(scopes[k], account, stage));
      }
    }
  }

  /** The fixed comparisons accept exactly the timings that honour the whole
      precedence: adjacent scopes and two barriers lose nothing. */
  lemma ChecksAreExact(scopes: seq<string>, jobs: Evidences)
    requires scopes != [] && Complete(scopes, jobs)
    ensures VerifyOrder(scopes, jobs) <==> Honoured(scopes, jobs)
  {
    if VerifyOrder(scopes, jobs) {
      ChecksGivePrecedence(scopes, jobs);
    }
    if Honoured(scopes, jobs) {
      assert MustPrecede(scopes, Preflight, ValidateInputs) && MustPrecede(scopes, WholeTest, WholeProd);
      forall scope | scope in scopes
        ensures BarrierOrder(scope, jobs) && WorkerOrder(scope, TEST, jobs) && WorkerOrder(scope, PROD, jobs)
      {
        PrecedenceGivesBarriers(scopes, scope, jobs);
        PrecedenceGivesWorkerOrder(scopes, scope, TEST, jobs);
        PrecedenceGivesWorkerOrder(scopes, scope, PROD, jobs);
      }
      PrecedenceGivesScopeOrder(scopes, jobs);
    }
  }

  lemma ScopeBeforeIsAnOrder(scopes: seq<string>, a: string, b: string, c: string)
    requires Distinct(scopes) && ScopeBefore(scopes, a, b)
    ensures a != b && !ScopeBefore(scopes, b, a)
    ensures ScopeBefore(scopes, b, c) ==> ScopeBefore(scopes, a, c)
  {
  }

  /** The precedence is a strict order for every selection of distinct scopes:
      the checks never ask for a cycle. */
  lemma PrecedenceIsAStrictOrder(scopes: seq<string>, a: JobName, b: JobName, c: JobName)
    requires Distinct(scopes) && MustPrecede(scopes, a, b)
    ensures a != b && !MustPrecede(scopes, b, a)
    ensures MustPrecede(scopes, b, c) ==> MustPrecede(scopes, a, c)
  {
    if a.Worker? && b.Worker? && ScopeBefore(scopes, a.scope, b.scope) {
      ScopeBeforeIsAnOrder(scopes, a.scope, b.scope, if c.Worker? then c.scope else a.scope);
    }
    if b.Worker? && c.Worker? && ScopeBefore(scopes, b.scope, c.scope) {
      ScopeBeforeIsAnOrder(scopes, b.scope, c.scope, c.scope);
    }
  }

  /* ---------- the schedule ---------- */

  /** The job that carries out a scheduled step. */
  function JobOf(step: Step): JobName {
    Worker(step.scope, step.environment,
           if step.operation == PLAN then Preview else if step.operation == "apply" then Apply else PostApplyDrift)
  }

  lemma NodesInOrder(scopes: seq<string>, m: nat, n: nat)
    requires Distinct(scopes) && m < n < |Nodes(Environments(PROD), scopes)|
    ensures var x, y := Nodes(Environments(PROD), scopes)[m], Nodes(Environments(PROD), scopes)[n];
            || (x.environment == TEST && y.environment == PROD)
            || (x.environment == y.environment && ScopeBefore(scopes, x.scope, y.scope))
  {
    NodesOfTarget(PROD, scopes);
    var test, prod := Row(TEST, scopes), Row(PROD, scopes);
    if n < |test| {
      assert test[m].scope == scopes[m] && test[n].scope == scopes[n];
    } else if m >= |test| {
      assert prod[m - |test|].scope == scopes[m - |test|] && prod[n - |test|].scope == scopes[n - |test|];
    } else {
      assert test[m].environment == TEST && prod[n - |test|].environment == PROD;
    }
  }

  lemma OperationsInOrder(scope: string, account: string, p: nat, q: nat, first: Step, second: Step)
    requires p < q < |Operations(UP)|
    requires first.operation == Operations(UP)[p] && second.operation == Operations(UP)[q]
    ensures StageBefore(scope, JobOf(first).stage, JobOf(second).stage)
  {
  }

  lemma StepsMustPrecede(order: seq<string>, scopes: seq<string>, i: nat, j: nat)
    requires Distinct(order) && ScheduleOf(order, scopes, UP, PROD).Ok?
    requires i < j < |ScheduleOf(order, scopes, UP, PROD).value|
    ensures var steps := ScheduleOf(order, scopes, UP, PROD).value;
            MustPrecede(scopes, JobOf(steps[i]), JobOf(steps[j]))
  {
    var steps := ScheduleOf(order, scopes, UP, PROD).value;
    var nodes := Nodes(Environments(PROD), scopes);
    var a, b := ScheduleOrder(order, scopes, UP, PROD, i, j);
    InOrderDistinct(order, Names(scopes));
    NodesMembers(PROD, scopes, nodes[a.node]);
    NodesMembers(PROD, scopes, nodes[b.node]);
    if a.node == b.node {
      OperationsInOrder(steps[i].scope, steps[i].environment, a.op, b.op, steps[i], steps[j]);
    } else {
      NodesInOrder(scopes, a.node, b.node);
    }
  }

  /** Any accepted timing is a linear extension of the contract's schedule: for
      any two steps, however far apart, the earlier one's job ended no later
      than the later one's started. */
  lemma LinearExtension(order: seq<string>, scopes: seq<string>, jobs: Evidences, i: nat, j: nat)
    requires Distinct(order) && scopes != [] && ScheduleOf(order, scopes, UP, PROD).Ok?
    requires Complete(scopes, jobs) && VerifyOrder(scopes, jobs)
    requires i < j < |ScheduleOf(order, scopes, UP, PROD).value|
    ensures var steps := ScheduleOf(order, scopes, UP, PROD).value;
            Ends(jobs, JobOf(steps[i]), JobOf(steps[j]))
  {
    ChecksGivePrecedence(scopes, jobs);
    StepsMustPrecede(order, scopes, i, j);
  }
}
