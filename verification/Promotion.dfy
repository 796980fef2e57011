/** One run of the deployment protocol as a state machine: workers finish in any
    order, artifacts are uploaded by anyone, and the root reduces what it can
    authenticate (scripts/deployment_account_barrier.py,
    scripts/deployment_receipt_runtime.py, scripts/deployment_promotion_proof.py). */
module Promotion {
  import opened Wrappers
  import opened Schedule
  import opened Scopes
  import opened Contract
  import opened Barriers
  import opened JobGraph
  import JobListings
  import JobOrder

  /** What a worker exposes to the root besides its job result. */
  datatype Outputs = Outputs(
    artifact: nat,
    receiptDigest: Digest,
    selectionDigest: Digest,
    contractDigest: Digest,
    completionKind: string,
    result: string,
    scope: string,
    environment: string,
    command: string,
    headSha: string,
    baseSha: string)

  datatype RootJob = RootJob(result: string, outputs: Option<Outputs>)

  /** What a worker's stages did, and under which contract it ran. */
  datatype Report = Report(contract: DeploymentContract, results: map<string, string>)

  datatype Proof = Proof(contract: DeploymentContract, test: Barrier, prod: Barrier, jobs: JobOrder.Evidences)

  /** Artifacts are immutable and only ever added. */
  datatype World = World(
    reports: map<Node, Report>,
    jobs: map<Node, RootJob>,
    artifacts: seq<Receipt>,
    test: Option<Barrier>,
    prod: Option<Barrier>,
    proof: Option<Proof>)

  /** The run: the installed selector, the admitted contract, and whether its
      preflight and input validation succeeded. */
  datatype Run = Run(selector: Selector, contract: DeploymentContract, admitted: bool)

  datatype Action =
    | Work(node: Node, contract: DeploymentContract, results: map<string, string>)
    | Skip(skipped: Node)
    | Upload(receipt: Receipt)
    | ReduceTest(authorized: bool)
    | ReduceProd(authorized: bool)
    | Prove(authorized: bool, listing: seq<Job>)

  /* ---------- authenticating one receipt ---------- */

  function WorkerKind(c: DeploymentContract): string {
    if c.identity.command == UP then "apply-drift" else "plan"
  }

  function OutputsOf(artifact: nat, receipt: Receipt, c: DeploymentContract): Outputs {
    Outputs(artifact, ReceiptDigest(receipt), receipt.selectionDigest, receipt.contractDigest, WorkerKind(c), SUCCESS,
            receipt.scope, receipt.environment, c.identity.command, c.identity.headSha, c.identity.baseSha)
  }

  predicate OutputsAccepted(c: DeploymentContract, node: Node, outputs: Outputs) {
    && outputs.result == SUCCESS
    && outputs.scope == node.scope
    && outputs.environment == node.environment
    && outputs.command == c.identity.command
    && outputs.headSha == c.identity.headSha
    && outputs.baseSha == c.identity.baseSha
    && outputs.selectionDigest == c.selectionDigest
    && outputs.contractDigest == c.contractDigest
    && outputs.completionKind == WorkerKind(c)
  }

  /** The conclusion of a worker's stage job, which is the result its receipt job
      was given. */
  function Conclusion(report: Report, stage: Stage): string {
    var name := match stage
      case Preview => PLAN
      case DestructiveDiff => "destructive"
      case IamValidation => "iam"
      case Apply => "apply"
      case PostApplyDrift => "drift"
      case Resolve => "resolve"
      case Receipt => "receipt";
    if stage in [Resolve, Stage.Receipt] then SUCCESS
    else if name in report.results then report.results[name] else FAILURE
  }

  /** Every fixed stage succeeded; a plan's apply and drift were skipped. */
  predicate StagesVerified(c: DeploymentContract, report: Report) {
    forall stage: Stage ::
      Conclusion(report, stage) == if c.identity.command == PLAN && stage in [Apply, PostApplyDrift]
        then SKIPPED
        else SUCCESS
  }

  /** The receipt behind a worker's outputs, with the actual jobs checked. */
  function LoadReceipt(w: World, c: DeploymentContract, node: Node): Result<Receipt> {
    var _ :- Require(node in w.jobs && node in w.reports && w.jobs[node].outputs.Some?);
    var outputs := w.jobs[node].outputs.value;
    var _ :- Require(OutputsAccepted(c, node, outputs) && outputs.artifact < |w.artifacts|);
    var receipt := w.artifacts[outputs.artifact];
    var _ :- Require(ReceiptAccepted(c, receipt, node.scope, node.environment));
    var _ :- Require(ReceiptDigest(receipt) == outputs.receiptDigest);
    var _ :- Require(StagesVerified(c, w.reports[node]));
    Ok(receipt)
  }

  /* ---------- reducing an account ---------- */

  predicate NodeReady(w: World, c: DeploymentContract, node: Node) {
    && node in w.jobs
    && if node.scope in c.selection.stacks
       then w.jobs[node].result == SUCCESS && LoadReceipt(w, c, node).Ok?
       else w.jobs[node].result == SKIPPED && w.jobs[node].outputs == None
  }

  predicate AccountReady(w: World, run: Run, environment: string) {
    forall scope :: scope in run.selector.order ==> NodeReady(w, run.contract, Node(environment, scope))
  }

  function AccountResults(w: World, run: Run, environment: string): map<string, string>
    requires AccountReady(w, run, environment)
  {
    map scope | scope in run.selector.order :: w.jobs[Node(environment, scope)].result
  }

  function AccountReceipts(w: World, run: Run, environment: string): map<string, Receipt>
    requires AccountReady(w, run, environment)
    requires forall scope :: scope in run.contract.selection.stacks ==> scope in run.selector.order
  {
    map scope | scope in run.contract.selection.stacks :: LoadReceipt(w, run.contract, Node(environment, scope)).value
  }

  function AccountBarrier(w: World, run: Run, environment: string, test: Option<Barrier>): Result<Barrier> {
    var _ :- Require(AccountReady(w, run, environment));
    var _ :- Require(forall scope :: scope in run.contract.selection.stacks ==> scope in run.selector.order);
    Reduce(run.selector, run.contract, environment, AccountResults(w, run, environment),
           AccountReceipts(w, run, environment), test)
  }

  /** TEST is reduced again from its receipts before PROD is looked at, and must
      equal what the TEST job published. */
  function VerifiedBarrier(w: World, run: Run, environment: string): Result<Barrier> {
    var _ :- Require(run.admitted && ValidContract(run.selector, run.contract));
    var test :- AccountBarrier(w, run, TEST, None);
    if environment == TEST then Ok(test)
    else
      var _ :- Require(w.test.Some? && PublishedEqually(test, w.test.value));
      AccountBarrier(w, run, PROD, Some(test))
  }

  predicate PublishedEqually(a: Barrier, b: Barrier) {
    && a.barrierDigest == b.barrierDigest
    && a.environment == b.environment
    && a.completionKind == b.completionKind
    && a.selectionDigest == b.selectionDigest
    && a.contractDigest == b.contractDigest
  }

  predicate Promotable(run: Run) {
    && run.contract.identity.command == UP
    && run.contract.identity.targetEnvironment == PROD
    && run.contract.selection.stacks != []
  }

  /** Rebuild both barriers, compare them with the published ones, and check the
      actual job graph. */
  ghost function BuildProof(w: World, run: Run, listing: seq<Job>): Result<Proof> {
    var test := VerifiedBarrier(w, run, TEST);
    var prod := VerifiedBarrier(w, run, PROD);
    if && Promotable(run)
       && test.Ok? && w.test == Some(test.value)
       && prod.Ok? && w.prod == Some(prod.value)
       && JobOrder.GraphAccepted(listing, run.contract.selection.stacks)
    then
      var jobs :| JobOrder.Selected(listing, run.contract.selection.stacks, jobs)
                  && JobOrder.VerifyOrder(run.contract.selection.stacks, jobs);
      Ok(Proof(run.contract, test.value, prod.value, jobs))
    else Rejected
  }

  /* ---------- steps ---------- */

  const START := World(map[], map[], [], None, None, None)

  /** A worker runs once; its receipt, if it can write one, becomes an artifact. */
  function Finish(w: World, run: Run, node: Node, report: Report): World {
    var worked := w.(reports := w.reports[node := report]);
    match BuildReceipt(run.selector, report.contract, node.scope, node.environment, report.results)
    case Ok(receipt) =>
      worked.(artifacts := w.artifacts + [receipt],
              jobs := w.jobs[node := RootJob(SUCCESS, Some(OutputsOf(|w.artifacts|, receipt, report.contract)))])
    case Rejected => worked.(jobs := w.jobs[node := RootJob(FAILURE, None)])
  }

  ghost function Step(w: World, run: Run, action: Action): World {
    match action
    case Work(node, contract, results) =>
      if node in w.jobs then w else Finish(w, run, node, Report(contract, results))
    case Skip(node) =>
      if node in w.jobs then w else w.(jobs := w.jobs[node := RootJob(SKIPPED, None)])
    case Upload(receipt) =>
      w.(artifacts := w.artifacts + [receipt])
    case ReduceTest(authorized) =>
      var barrier := VerifiedBarrier(w, run, TEST);
      if authorized && w.test == None && barrier.Ok? then w.(test := Some(barrier.value)) else w
    case ReduceProd(authorized) =>
      var barrier := VerifiedBarrier(w, run, PROD);
      if authorized && w.prod == None && barrier.Ok? then w.(prod := Some(barrier.value)) else w
    case Prove(authorized, listing) =>
      var proof := BuildProof(w, run, listing);
      if authorized && w.proof == None && proof.Ok? then w.(proof := Some(proof.value)) else w
  }

  ghost function After(run: Run, actions: seq<Action>): World {
    if actions == [] then START
    else Step(After(run, actions[..|actions| - 1]), run, actions[|actions| - 1])
  }

  /* ---------- what a finished node's record means ---------- */

  predicate Recorded(w: World, run: Run, node: Node)
    requires node in w.jobs
  {
    if node !in w.reports then w.jobs[node] == RootJob(SKIPPED, None)
    else
      var report := w.reports[node];
      match BuildReceipt(run.selector, report.contract, node.scope, node.environment, report.results)
      case Rejected => w.jobs[node] == RootJob(FAILURE, None)
      case Ok(receipt) =>
        && w.jobs[node].result == SUCCESS
        && w.jobs[node].outputs.Some?
        && w.jobs[node].outputs.value.artifact < |w.artifacts|
        && w.artifacts[w.jobs[node].outputs.value.artifact] == receipt
        && w.jobs[node].outputs.value == OutputsOf(w.jobs[node].outputs.value.artifact, receipt, report.contract)
  }

  ghost predicate Honest(w: World, run: Run) {
    && w.reports.Keys <= w.jobs.Keys
    && forall node :: node in w.jobs ==> Recorded(w, run, node)
  }

  /** A selected scope reported its scheduled operations successful under the
      run's contract; any other scope was skipped. */
  predicate NodePassed(w: World, c: DeploymentContract, node: Node) {
    if node.scope in c.selection.stacks
    then && node in w.reports && w.reports[node].contract == c
         && ResultsAccepted(c.identity.command, w.reports[node].results)
         && node.environment in Environments(c.identity.targetEnvironment)
    else node in w.jobs && node !in w.reports
  }

  predicate AccountPassed(w: World, run: Run, environment: string) {
    forall scope :: scope in run.selector.order ==> NodePassed(w, run.contract, Node(environment, scope))
  }

  lemma LoadedReceiptBinds(w: World, run: Run, node: Node)
    requires Distinct(run.selector.order) && ValidContract(run.selector, run.contract)
    requires node in w.jobs && Recorded(w, run, node)
    requires w.jobs[node].result == SUCCESS && LoadReceipt(w, run.contract, node).Ok?
    ensures w.reports[node].contract == run.contract
    ensures ResultsAccepted(run.contract.identity.command, w.reports[node].results)
    ensures node.environment in Environments(run.contract.identity.targetEnvironment)
  {
    var report := w.reports[node];
    ReceiptsAreBuilt(run.selector, report.contract, node.scope, node.environment, report.results);
    hide Reselect, ScheduleOf, NodeReceipt, StagesVerified, ResultsAccepted;
    ContractDigestBinds(run.selector, report.contract, run.contract);
  }

  lemma StagesFollowResults(c: DeploymentContract, report: Report)
    requires c.identity.command in [PLAN, UP] && ResultsAccepted(c.identity.command, report.results)
    ensures StagesVerified(c, report)
  {
  }

  lemma PassedNodeLoads(w: World, run: Run, node: Node)
    requires Distinct(run.selector.order) && ValidContract(run.selector, run.contract)
    requires node in w.jobs && Recorded(w, run, node)
    requires node.scope in run.contract.selection.stacks && NodePassed(w, run.contract, node)
    ensures w.jobs[node].result == SUCCESS && LoadReceipt(w, run.contract, node).Ok?
  {
    var report := w.reports[node];
    ReceiptsAreBuilt(run.selector, report.contract, node.scope, node.environment, report.results);
    StagesFollowResults(run.contract, report);
    hide Reselect, ScheduleOf, StagesVerified, ResultsAccepted;
  }

  /** The root can authenticate a node exactly when it passed. */
  lemma ReadyMeansPassed(w: World, run: Run, node: Node)
    requires Distinct(run.selector.order) && ValidContract(run.selector, run.contract)
    requires Honest(w, run)
    ensures NodeReady(w, run.contract, node) <==> NodePassed(w, run.contract, node)
  {
    hide ValidContract, BuildReceipt, LoadReceipt, ResultsAccepted;
    if node in w.jobs && node.scope in run.contract.selection.stacks {
      if NodeReady(w, run.contract, node) {
        LoadedReceiptBinds(w, run, node);
      }
      if NodePassed(w, run.contract, node) {
        PassedNodeLoads(w, run, node);
      }
    }
  }

  lemma AccountReadyMeansPassed(w: World, run: Run, environment: string)
    requires Distinct(run.selector.order) && ValidContract(run.selector, run.contract)
    requires Honest(w, run)
    ensures AccountReady(w, run, environment) <==> AccountPassed(w, run, environment)
  {
    hide ValidContract, NodeReady, NodePassed;
    forall scope
      ensures NodeReady(w, run.contract, Node(environment, scope))
         <==> NodePassed(w, run.contract, Node(environment, scope))
    {
      ReadyMeansPassed(w, run, Node(environment, scope));
    }
  }

  lemma ReadyScopeReduces(w: World, run: Run, environment: string, scope: string)
    requires AccountReady(w, run, environment) && scope in run.selector.order
    requires forall s :: s in run.contract.selection.stacks ==> s in run.selector.order
    ensures ScopeReduced(run.contract, environment, AccountResults(w, run, environment),
                         AccountReceipts(w, run, environment), scope)
  {
    hide ReceiptAccepted, OutputsAccepted, StagesVerified;
    assert NodeReady(w, run.contract, Node(environment, scope));
  }

  lemma ValidStacks(selector: Selector, c: DeploymentContract)
    requires ValidContract(selector, c)
    ensures forall scope :: scope in c.selection.stacks ==> scope in selector.order
  {
    hide Reselect, ContractDigestOf, ControllerAccepted, RequestPatterns, Hex;
  }

  /** An account whose nodes are all authenticated reduces: nothing else is asked. */
  lemma ReadyAccountsReduce(w: World, run: Run, environment: string, test: Option<Barrier>)
    requires ValidContract(run.selector, run.contract) && AccountReady(w, run, environment)
    requires environment in [TEST, PROD] && PredecessorAccepted(run.contract, environment, test)
    ensures AccountBarrier(w, run, environment, test).Ok?
  {
    hide ValidContract, ScopeReduced, PredecessorAccepted, AccountReady, LoadReceipt, Seal, DigestPairs, CompletionKind;
    ValidStacks(run.selector, run.contract);
    var results, receipts := AccountResults(w, run, environment), AccountReceipts(w, run, environment);
    forall scope | scope in run.selector.order
      ensures ScopeReduced(run.contract, environment, results, receipts, scope)
    {
      ReadyScopeReduces(w, run, environment, scope);
    }
    assert results.Keys == Names(run.selector.order);
    assert receipts.Keys == Names(run.contract.selection.stacks);
  }

  lemma TestBarrierMeansPassed(w: World, run: Run)
    requires Distinct(run.selector.order) && Honest(w, run)
    ensures VerifiedBarrier(w, run, TEST).Ok?
       <==> run.admitted && ValidContract(run.selector, run.contract) && AccountPassed(w, run, TEST)
  {
    if ValidContract(run.selector, run.contract) {
      AccountReadyMeansPassed(w, run, TEST);
      if AccountReady(w, run, TEST) {
        ReadyAccountsReduce(w, run, TEST, None);
      }
    }
    hide ValidContract, AccountPassed, AccountReady;
  }

  lemma ProdFollowsTest(w: World, run: Run, test: Barrier)
    requires ValidContract(run.selector, run.contract) && AccountBarrier(w, run, TEST, None) == Ok(test)
    ensures AccountBarrier(w, run, PROD, Some(test)).Ok?
       <==> AccountReady(w, run, PROD) && run.contract.identity.targetEnvironment == PROD
    ensures AccountBarrier(w, run, PROD, Some(test)).Ok? ==>
              AccountBarrier(w, run, PROD, Some(test)).value.testBarrierDigest == Some(test.barrierDigest)
  {
    hide ValidContract, AccountReady, TestBarrierAccepted, ScopeReduced, DigestPairs, LoadReceipt, CompletionKind,
         BarrierDigestOf;
    TestBarriersAreAccepted(run.selector, run.contract, AccountResults(w, run, TEST), AccountReceipts(w, run, TEST));
    if run.contract.identity.targetEnvironment == PROD && AccountReady(w, run, PROD) {
      ReadyAccountsReduce(w, run, PROD, Some(test));
    }
  }

  /** PROD is reduced exactly when PROD was requested, both accounts passed and
      the published TEST barrier is the one its receipts give. */
  lemma ProdBarrierMeansPassed(w: World, run: Run)
    requires Distinct(run.selector.order) && Honest(w, run)
    requires w.test.Some? ==> VerifiedBarrier(w, run, TEST) == Ok(w.test.value)
    ensures VerifiedBarrier(w, run, PROD).Ok?
       <==> w.test.Some? && AccountPassed(w, run, PROD) && run.contract.identity.targetEnvironment == PROD
    ensures VerifiedBarrier(w, run, PROD).Ok? ==>
              VerifiedBarrier(w, run, PROD).value.testBarrierDigest == Some(w.test.value.barrierDigest)
  {
    hide ValidContract, AccountPassed, AccountReady, AccountBarrier, Honest;
    if ValidContract(run.selector, run.contract) {
      AccountReadyMeansPassed(w, run, PROD);
      if w.test.Some? {
        ProdFollowsTest(w, run, w.test.value);
      }
    }
  }

  /* ---------- what is kept by every step ---------- */

  ghost predicate Extends(w: World, v: World) {
    && (forall node :: node in w.reports ==> node in v.reports && v.reports[node] == w.reports[node])
    && (forall node :: node in w.jobs ==> node in v.jobs && v.jobs[node] == w.jobs[node])
    && (forall node :: node in w.jobs && node !in w.reports ==> node !in v.reports)
    && w.artifacts <= v.artifacts
    && (w.test.Some? ==> v.test == w.test)
    && (w.prod.Some? ==> v.prod == w.prod)
    && (w.proof.Some? ==> v.proof == w.proof)
  }

  lemma RecordsAreStable(w: World, v: World, run: Run, node: Node)
    requires Extends(w, v) && node in w.jobs && Recorded(w, run, node)
    ensures Recorded(v, run, node)
  {
    hide BuildReceipt, OutputsOf;
  }

  lemma FinishRecords(w: World, run: Run, node: Node, report: Report)
    ensures Recorded(Finish(w, run, node, report), run, node)
  {
    hide BuildReceipt;
  }

  lemma FinishExtends(w: World, run: Run, node: Node, report: Report)
    requires node !in w.jobs && w.reports.Keys <= w.jobs.Keys
    ensures var v := Finish(w, run, node, report);
            Extends(w, v) && v.reports.Keys <= v.jobs.Keys && v.jobs.Keys == w.jobs.Keys + {node}
  {
    hide BuildReceipt, OutputsOf;
  }

  lemma FinishIsHonest(w: World, run: Run, node: Node, report: Report)
    requires Honest(w, run) && node !in w.jobs
    ensures Extends(w, Finish(w, run, node, report)) && Honest(Finish(w, run, node, report), run)
  {
    hide Finish, Extends, Recorded;
    var v := Finish(w, run, node, report);
    FinishExtends(w, run, node, report);
    FinishRecords(w, run, node, report);
    forall n | n in v.jobs ensures Recorded(v, run, n) {
      if n != node {
        RecordsAreStable(w, v, run, n);
      }
    }
  }

  lemma OtherStepExtends(w: World, run: Run, action: Action)
    requires w.reports.Keys <= w.jobs.Keys && !action.Work?
    ensures var v := Step(w, run, action);
            && Extends(w, v) && v.reports == w.reports
            && forall n :: n in v.jobs && n !in w.jobs ==> n !in v.reports && v.jobs[n] == RootJob(SKIPPED, None)
  {
    hide VerifiedBarrier, BuildProof;
  }

  lemma StepIsHonest(w: World, run: Run, action: Action)
    requires Honest(w, run)
    ensures Extends(w, Step(w, run, action)) && Honest(Step(w, run, action), run)
  {
    hide BuildReceipt, VerifiedBarrier, BuildProof, Finish;
    match action
    case Work(node, contract, results) =>
      if node !in w.jobs {
        FinishIsHonest(w, run, node, Report(contract, results));
      }
    case _ =>
      OtherStepExtends(w, run, action);
      hide Step, Extends;
      var v := Step(w, run, action);
      forall n | n in v.jobs ensures Recorded(v, run, n) {
        if n in w.jobs {
          RecordsAreStable(w, v, run, n);
        }
      }
  }

  lemma ReadyIsStable(w: World, v: World, run: Run, environment: string)
    requires Extends(w, v) && AccountReady(w, run, environment)
    ensures AccountReady(v, run, environment)
    ensures AccountResults(v, run, environment) == AccountResults(w, run, environment)
    ensures forall scope :: scope in run.selector.order && scope in run.contract.selection.stacks ==>
              LoadReceipt(v, run.contract, Node(environment, scope))
                == LoadReceipt(w, run.contract, Node(environment, scope))
  {
    hide ReceiptAccepted, OutputsAccepted, StagesVerified;
    forall scope | scope in run.selector.order
      ensures NodeReady(v, run.contract, Node(environment, scope))
      ensures scope in run.contract.selection.stacks ==>
                LoadReceipt(v, run.contract, Node(environment, scope))
                  == LoadReceipt(w, run.contract, Node(environment, scope))
    {
      assert NodeReady(w, run.contract, Node(environment, scope));
    }
  }

  lemma BarrierIsStable(w: World, v: World, run: Run, environment: string, test: Option<Barrier>)
    requires Extends(w, v) && AccountBarrier(w, run, environment, test).Ok?
    ensures AccountBarrier(v, run, environment, test) == AccountBarrier(w, run, environment, test)
  {
    hide Reduce, AccountReady, LoadReceipt, AccountResults, Extends, ValidContract;
    ReadyIsStable(w, v, run, environment);
    assert AccountReceipts(v, run, environment) == AccountReceipts(w, run, environment);
  }

  lemma VerifiedBarrierIsStable(w: World, v: World, run: Run, environment: string)
    requires Extends(w, v) && VerifiedBarrier(w, run, environment).Ok?
    ensures VerifiedBarrier(v, run, environment) == VerifiedBarrier(w, run, environment)
  {
    hide ValidContract, AccountBarrier;
    BarrierIsStable(w, v, run, TEST, None);
    if environment != TEST {
      BarrierIsStable(w, v, run, PROD, Some(AccountBarrier(w, run, TEST, None).value));
    }
  }

  /** What a proof stands on. */
  ghost predicate Proven(w: World, run: Run, proof: Proof) {
    && Promotable(run)
    && proof.contract == run.contract
    && w.test == Some(proof.test) && w.prod == Some(proof.prod)
    && JobOrder.Complete(run.contract.selection.stacks, proof.jobs)
    && JobOrder.VerifyOrder(run.contract.selection.stacks, proof.jobs)
  }

  ghost predicate Sound(w: World, run: Run) {
    && Honest(w, run)
    && (w.test.Some? ==> VerifiedBarrier(w, run, TEST) == Ok(w.test.value))
    && (w.prod.Some? ==> VerifiedBarrier(w, run, PROD) == Ok(w.prod.value))
    && (w.proof.Some? ==> Proven(w, run, w.proof.value))
  }

  lemma ProofsAreProven(w: World, run: Run, listing: seq<Job>)
    requires BuildProof(w, run, listing).Ok?
    ensures Proven(w, run, BuildProof(w, run, listing).value)
  {
    hide VerifiedBarrier;
    var proof := BuildProof(w, run, listing).value;
    JobOrder.SelectedIsComplete(listing, run.contract.selection.stacks, proof.jobs);
  }

  lemma StepIsSound(w: World, run: Run, action: Action)
    requires Sound(w, run)
    ensures Sound(Step(w, run, action), run) && Extends(w, Step(w, run, action))
  {
    hide VerifiedBarrier, BuildProof, BuildReceipt, Recorded, Proven;
    var v := Step(w, run, action);
    StepIsHonest(w, run, action);
    if VerifiedBarrier(w, run, TEST).Ok? {
      VerifiedBarrierIsStable(w, v, run, TEST);
    }
    if VerifiedBarrier(w, run, PROD).Ok? {
      VerifiedBarrierIsStable(w, v, run, PROD);
    }
    if w.proof.Some? {
      StaysProven(w, v, run, w.proof.value);
    } else if action.Prove? && BuildProof(w, run, action.listing).Ok? {
      ProofsAreProven(w, run, action.listing);
      StaysProven(w, v, run, BuildProof(w, run, action.listing).value);
    }
  }

  lemma StaysProven(w: World, v: World, run: Run, proof: Proof)
    requires Proven(w, run, proof) && Extends(w, v)
    ensures Proven(v, run, proof)
  {
  }

  /** Every reachable world is sound, whatever order workers finish in, whatever
      contracts they ran under and whatever else is uploaded. */
  lemma {:induction false} ReachableIsSound(run: Run, actions: seq<Action>)
    ensures Sound(After(run, actions), run)
  {
    if actions != [] {
      var n := |actions| - 1;
      ReachableIsSound(run, actions[..n]);
      hide Sound;
      StepIsSound(After(run, actions[..n]), run, actions[n]);
    }
  }

  /* ---------- safety ---------- */

  /** A scheduled step was reported successful by a worker of the same contract. */
  predicate StepReported(w: World, c: DeploymentContract, step: Step) {
    var node := Node(step.environment, step.scope);
    && node in w.reports
    && w.reports[node].contract == c
    && step.operation in w.reports[node].results
    && w.reports[node].results[step.operation] == SUCCESS
  }

  /** Every scheduled step of an account was reported, and nothing unselected ran. */
  ghost predicate AccountReported(w: World, run: Run, environment: string) {
    && (forall step :: step in run.contract.schedule && step.environment == environment ==>
          StepReported(w, run.contract, step))
    && (forall scope :: scope in run.selector.order && scope !in run.contract.selection.stacks ==>
          Node(environment, scope) in w.jobs && Node(environment, scope) !in w.reports)
  }

  lemma {:induction false} OperationIsScheduled(steps: seq<Step>, step: Step)
    requires step in steps
    ensures step.operation in NodeOperations(steps, step.environment, step.scope)
  {
    var n := |steps| - 1;
    if step in steps[..n] {
      OperationIsScheduled(steps[..n], step);
    }
  }

  lemma AcceptedOperations(command: string, w: World, node: Node)
    ensures node in w.reports && ResultsAccepted(command, w.reports[node].results) ==>
              forall o :: o in Operations(command) ==>
                o in w.reports[node].results && w.reports[node].results[o] == SUCCESS
  {
  }

  lemma PassedStepReported(w: World, run: Run, step: Step)
    requires Distinct(run.selector.order) && ValidContract(run.selector, run.contract)
    requires AccountPassed(w, run, step.environment) && step in run.contract.schedule
    ensures StepReported(w, run.contract, step)
  {
    hide ValidContract, NodeOperations, ResultsAccepted, Environments;
    var c := run.contract;
    ValidOperations(run.selector, c, step.scope, step.environment);
    ValidStacks(run.selector, c);
    AcceptedOperations(c.identity.command, w, Node(step.environment, step.scope));
    OperationIsScheduled(c.schedule, step);
    assert NodePassed(w, c, Node(step.environment, step.scope));
  }

  lemma PassedMeansReported(w: World, run: Run, environment: string)
    requires Distinct(run.selector.order) && ValidContract(run.selector, run.contract)
    requires AccountPassed(w, run, environment)
    ensures AccountReported(w, run, environment)
  {
    hide ValidContract, StepReported;
    forall step | step in run.contract.schedule && step.environment == environment
      ensures StepReported(w, run.contract, step)
    {
      PassedStepReported(w, run, step);
    }
    forall scope | scope in run.selector.order && scope !in run.contract.selection.stacks
      ensures Node(environment, scope) in w.jobs && Node(environment, scope) !in w.reports
    {
      assert NodePassed(w, run.contract, Node(environment, scope));
    }
  }

  /** In every run: a TEST barrier means every scheduled TEST step succeeded under
      the run's contract; a PROD barrier means that of both accounts, and names
      the TEST barrier by digest. */
  lemma BarriersAreSafe(run: Run, actions: seq<Action>)
    requires Distinct(run.selector.order)
    ensures var w := After(run, actions);
            && (w.test.Some? ==> run.admitted && AccountReported(w, run, TEST))
            && (w.prod.Some? ==>
                  && w.test.Some? && AccountReported(w, run, TEST) && AccountReported(w, run, PROD)
                  && run.contract.identity.targetEnvironment == PROD
                  && w.prod.value.testBarrierDigest == Some(w.test.value.barrierDigest))
  {
    var w := After(run, actions);
    ReachableIsSound(run, actions);
    hide ValidContract, AccountPassed, AccountReported, VerifiedBarrier, After, Honest;
    TestBarrierMeansPassed(w, run);
    ProdBarrierMeansPassed(w, run);
    if w.test.Some? {
      PassedMeansReported(w, run, TEST);
    }
    if w.prod.Some? {
      PassedMeansReported(w, run, PROD);
    }
  }

  /** In every run: a proof exists only for a nonempty PROD apply whose two
      barriers exist, and its job timing is a linear extension of the schedule. */
  lemma ProofsAreSafe(run: Run, actions: seq<Action>)
    requires Distinct(run.selector.order) && After(run, actions).proof.Some?
    ensures var w := After(run, actions); var jobs := w.proof.value.jobs; var steps := run.contract.schedule;
            && Promotable(run)
            && w.test == Some(w.proof.value.test) && w.prod == Some(w.proof.value.prod)
            && AccountReported(w, run, TEST) && AccountReported(w, run, PROD)
            && forall i, j :: 0 <= i < j < |steps| ==>
                 JobOrder.Ends(jobs, JobOrder.JobOf(steps[i]), JobOrder.JobOf(steps[j]))
  {
    var w := After(run, actions);
    var jobs, steps := w.proof.value.jobs, run.contract.schedule;
    ReachableIsSound(run, actions);
    BarriersAreSafe(run, actions);
    hide AccountReported, After, Honest, Reselect, AccountBarrier, JobOrder.VerifyOrder;
    assert Ok(steps) == ScheduleOf(run.selector.order, run.contract.selection.stacks, UP, PROD);
    hide ScheduleOf;
    forall i, j | 0 <= i < j < |steps|
      ensures JobOrder.Ends(jobs, JobOrder.JobOf(steps[i]), JobOrder.JobOf(steps[j]))
    {
      JobOrder.LinearExtension(run.selector.order, run.contract.selection.stacks, jobs, i, j);
    }
  }

  /* ---------- completeness ---------- */

  lemma AfterSnoc(run: Run, actions: seq<Action>, action: Action)
    ensures After(run, actions + [action]) == Step(After(run, actions), run, action)
  {
    hide Step;
    assert (actions + [action])[..|actions|] == actions;
  }

  lemma TestReduces(w: World, run: Run)
    requires w.test.Some? || VerifiedBarrier(w, run, TEST).Ok?
    ensures Step(w, run, ReduceTest(true)).test.Some?
  {
    hide VerifiedBarrier;
  }

  lemma ProdReduces(w: World, run: Run)
    requires w.prod.Some? || VerifiedBarrier(w, run, PROD).Ok?
    ensures Step(w, run, ReduceProd(true)).prod.Some?
  {
    hide VerifiedBarrier;
  }

  /** The proof job adds a proof exactly when its own test passes. */
  lemma ProofSteps(w: World, run: Run, listing: seq<Job>)
    requires Promotable(run) && w.test.Some? && w.prod.Some?
    requires VerifiedBarrier(w, run, TEST) == Ok(w.test.value) && VerifiedBarrier(w, run, PROD) == Ok(w.prod.value)
    ensures Step(w, run, Prove(true, listing)).proof.Some? <==>
              w.proof.Some? || JobOrder.GraphAccepted(listing, run.contract.selection.stacks)
    ensures Step(w, run, Prove(true, listing)).test == w.test && Step(w, run, Prove(true, listing)).prod == w.prod
  {
    hide VerifiedBarrier, Promotable, JobOrder.GraphAccepted;
  }

  lemma ReductionsKeepProof(w: World, run: Run)
    ensures Step(w, run, ReduceTest(true)).proof == w.proof && Step(w, run, ReduceProd(true)).proof == w.proof
  {
    hide VerifiedBarrier;
  }

  /** What the completeness argument needs of a sound world. */
  lemma SoundBarriers(w: World, run: Run)
    requires Distinct(run.selector.order) && Sound(w, run)
    ensures w.test.Some? ==> VerifiedBarrier(w, run, TEST) == Ok(w.test.value)
    ensures w.prod.Some? ==> VerifiedBarrier(w, run, PROD) == Ok(w.prod.value)
    ensures run.admitted && ValidContract(run.selector, run.contract) && AccountPassed(w, run, TEST) ==>
              VerifiedBarrier(w, run, TEST).Ok?
    ensures w.test.Some? && AccountPassed(w, run, PROD) && Promotable(run) ==> VerifiedBarrier(w, run, PROD).Ok?
  {
    hide ValidContract, AccountPassed, VerifiedBarrier, Honest, Proven;
    TestBarrierMeansPassed(w, run);
    ProdBarrierMeansPassed(w, run);
  }

  /** Once every node passed, both barriers reduce, and the proof follows from
      exactly the listings that show each expected job once, successful, and in
      the order the precedence asks for. */
  lemma PassedRunsPromote(run: Run, actions: seq<Action>, listing: seq<Job>)
    requires Distinct(run.selector.order) && run.admitted && ValidContract(run.selector, run.contract)
              && Promotable(run)
    requires AccountPassed(After(run, actions), run, TEST) && AccountPassed(After(run, actions), run, PROD)
    requires After(run, actions).proof == None
    ensures var scopes := run.contract.selection.stacks;
            var w := After(run, actions + [ReduceTest(true), ReduceProd(true), Prove(true, listing)]);
            && w.test.Some? && w.prod.Some?
            && (w.proof.Some? <==> JobOrder.Evident(listing, scopes) && JobListings.Timely(listing, scopes))
  {
    AcceptedListings(run, listing);
    hide *;
    var reduced := actions + [ReduceTest(true)] + [ReduceProd(true)];
    Appended(actions, ReduceTest(true), ReduceProd(true), Prove(true, listing));
    AfterSnoc(run, reduced, Prove(true, listing));
    PassedRunsReduce(run, actions);
    var w := After(run, reduced);
    ProofSteps(w, run, listing);
  }

  lemma Appended<T>(xs: seq<T>, a: T, b: T, c: T)
    ensures xs + [a] + [b] + [c] == xs + [a, b, c]
  {
  }

  lemma PassedRunsReduce(run: Run, actions: seq<Action>)
    requires Distinct(run.selector.order) && run.admitted && ValidContract(run.selector, run.contract)
              && Promotable(run)
    requires AccountPassed(After(run, actions), run, TEST) && AccountPassed(After(run, actions), run, PROD)
    ensures var w := After(run, actions + [ReduceTest(true)] + [ReduceProd(true)]);
            && w.proof == After(run, actions).proof && w.test.Some? && w.prod.Some?
            && VerifiedBarrier(w, run, TEST) == Ok(w.test.value) && VerifiedBarrier(w, run, PROD) == Ok(w.prod.value)
  {
    hide *;
    var first := actions + [ReduceTest(true)];
    AfterSnoc(run, actions, ReduceTest(true));
    AfterSnoc(run, first, ReduceProd(true));
    var w, x := After(run, actions), After(run, first);
    ReachableIsSound(run, actions);
    SoundBarriers(w, run);
    TestReduces(w, run);
    StepIsSound(w, run, ReduceTest(true));
    PassedIsStable(w, x, run, PROD);
    SoundBarriers(x, run);
    ProdReduces(x, run);
    StepIsSound(x, run, ReduceProd(true));
    var y := After(run, first + [ReduceProd(true)]);
    BarriersStay(x, y);
    SoundBarriers(y, run);
    ReductionsKeepProof(w, run);
    ReductionsKeepProof(x, run);
  }

  lemma AcceptedListings(run: Run, listing: seq<Job>)
    requires Promotable(run)
    ensures var scopes := run.contract.selection.stacks;
            JobOrder.GraphAccepted(listing, scopes) <==>
              JobOrder.Evident(listing, scopes) && JobListings.Timely(listing, scopes)
  {
    JobListings.AcceptedMeansTimely(listing, run.contract.selection.stacks);
  }

  lemma BarriersStay(w: World, v: World)
    requires Extends(w, v)
    ensures w.test.Some? ==> v.test.Some?
    ensures w.prod.Some? ==> v.prod.Some?
  {
  }

  lemma PassedIsStable(w: World, v: World, run: Run, environment: string)
    requires Extends(w, v) && AccountPassed(w, run, environment)
    ensures AccountPassed(v, run, environment)
  {
    forall scope | scope in run.selector.order ensures NodePassed(v, run.contract, Node(environment, scope)) {
      assert NodePassed(w, run.contract, Node(environment, scope));
      NodeStaysPassed(w, v, run.contract, Node(environment, scope));
    }
  }

  lemma NodeStaysPassed(w: World, v: World, c: DeploymentContract, node: Node)
    requires Extends(w, v) && NodePassed(w, c, node)
    ensures NodePassed(v, c, node)
  {
    hide ResultsAccepted;
  }

  /** The results of a worker that did everything its command asks. */
  function Succeeding(command: string): map<string, string> {
    map name | name in RESULT_NAMES :: if command != UP && name in {"apply", "drift"} then SKIPPED else SUCCESS
  }

  /** A selected worker runs and succeeds; any other is skipped. */
  function Turn(run: Run, node: Node): Action {
    if node.scope in run.contract.selection.stacks
    then Work(node, run.contract, Succeeding(run.contract.identity.command))
    else Skip(node)
  }

  function InScheduleOrder(run: Run, nodes: seq<Node>): seq<Action> {
    if nodes == [] then []
    else InScheduleOrder(run, nodes[..|nodes| - 1]) + [Turn(run, nodes[|nodes| - 1])]
  }

  lemma SucceedingIsAccepted(command: string)
    requires command in [PLAN, UP]
    ensures ResultsAccepted(command, Succeeding(command))
  {
  }

  lemma TurnPasses(w: World, run: Run, node: Node)
    requires ValidContract(run.selector, run.contract)
    requires node !in w.jobs && w.reports.Keys <= w.jobs.Keys
    requires node.environment in Environments(run.contract.identity.targetEnvironment)
    ensures NodePassed(Step(w, run, Turn(run, node)), run.contract, node)
    ensures Step(w, run, Turn(run, node)).jobs.Keys == w.jobs.Keys + {node}
  {
    var c := run.contract;
    assert c.identity.command in [PLAN, UP];
    hide ValidContract, ResultsAccepted, Succeeding, Finish, VerifiedBarrier, BuildProof, Environments;
    SucceedingIsAccepted(c.identity.command);
    if node.scope in c.selection.stacks {
      FinishReports(w, run, node, Report(c, Succeeding(c.identity.command)));
    }
  }

  lemma FinishReports(w: World, run: Run, node: Node, report: Report)
    ensures var v := Finish(w, run, node, report);
            v.jobs.Keys == w.jobs.Keys + {node} && node in v.reports && v.reports[node] == report
  {
    hide BuildReceipt, OutputsOf;
  }

  lemma {:induction false} ScheduledRunPasses(run: Run, nodes: seq<Node>)
    requires ValidContract(run.selector, run.contract) && Distinct(nodes)
    requires forall node :: node in nodes ==> node.environment in Environments(run.contract.identity.targetEnvironment)
    ensures var w := After(run, InScheduleOrder(run, nodes));
            && w.jobs.Keys == (set node | node in nodes)
            && forall node :: node in nodes ==> NodePassed(w, run.contract, node)
  {
    hide ValidContract, Sound, NodePassed, Extends, Step, Turn, Environments;
    if nodes != [] {
      var n := |nodes| - 1;
      var before := InScheduleOrder(run, nodes[..n]);
      ScheduledRunPasses(run, nodes[..n]);
      AfterSnoc(run, before, Turn(run, nodes[n]));
      var w, v := After(run, before), After(run, InScheduleOrder(run, nodes));
      ReachableIsSound(run, before);
      SoundReports(w, run);
      TurnPasses(w, run, nodes[n]);
      StepIsSound(w, run, Turn(run, nodes[n]));
      forall node | node in nodes ensures NodePassed(v, run.contract, node) {
        if node != nodes[n] {
          NodeStaysPassed(w, v, run.contract, node);
        }
      }
      assert (set node | node in nodes) == (set node | node in nodes[..n]) + {nodes[n]};
    }
  }

  lemma SoundReports(w: World, run: Run)
    requires Sound(w, run)
    ensures w.reports.Keys <= w.jobs.Keys
  {
    hide VerifiedBarrier, Proven, Recorded;
  }

  /** An all-success run in schedule order always reaches both barriers, and a
      proof exactly when the jobs are listed once each, successful and in order. */
  lemma SuccessfulRunsPromote(run: Run, listing: seq<Job>)
    requires Distinct(run.selector.order) && run.admitted && ValidContract(run.selector, run.contract)
              && Promotable(run)
    ensures var scopes := run.contract.selection.stacks;
            var w := After(run, ScheduledRun(run) + [ReduceTest(true), ReduceProd(true), Prove(true, listing)]);
            && w.test.Some? && w.prod.Some?
            && (w.proof.Some? <==> JobOrder.Evident(listing, scopes) && JobListings.Timely(listing, scopes))
  {
    var nodes := Nodes(Environments(PROD), run.selector.order);
    NodesDistinct(PROD, run.selector.order);
    forall node | node in nodes ensures node.environment in Environments(PROD) {
      NodesMembers(PROD, run.selector.order, node);
    }
    hide ValidContract, Sound, JobOrder.Evident, JobListings.Timely, After, InScheduleOrder, NodePassed, Nodes;
    ScheduledRunPasses(run, nodes);
    var w := After(run, InScheduleOrder(run, nodes));
    forall environment, scope | environment in [TEST, PROD] && scope in run.selector.order
      ensures NodePassed(w, run.contract, Node(environment, scope))
    {
      NodesMembers(PROD, run.selector.order, Node(environment, scope));
    }
    WorkProvesNothing(run, nodes);
    PassedRunsPromote(run, InScheduleOrder(run, nodes), listing);
  }

  /** Every worker of both accounts, scheduled order, each doing its turn. */
  function ScheduledRun(run: Run): seq<Action> {
    InScheduleOrder(run, Nodes(Environments(PROD), run.selector.order))
  }

  lemma {:induction false} WorkProvesNothing(run: Run, nodes: seq<Node>)
    ensures After(run, InScheduleOrder(run, nodes)).proof == None
  {
    hide Step, Turn;
    if nodes != [] {
      var n := |nodes| - 1;
      var before := InScheduleOrder(run, nodes[..n]);
      WorkProvesNothing(run, nodes[..n]);
      AfterSnoc(run, before, Turn(run, nodes[n]));
      TurnProvesNothing(After(run, before), run, nodes[n]);
    }
  }

  lemma TurnProvesNothing(w: World, run: Run, node: Node)
    ensures Step(w, run, Turn(run, node)).proof == w.proof
  {
  }

  /** With the workers' jobs run one after another too, nothing is left to
      assume: the run ends in a promotion proof. */
  lemma SerialRunsPromote(run: Run, identity: JobGraph.Run)
    requires Distinct(run.selector.order) && run.admitted && ValidContract(run.selector, run.contract)
              && Promotable(run)
    requires identity.id > 0
    ensures var names := JobListings.SerialNames(run.contract.selection.stacks);
            var listing := JobListings.SerialListing(names, identity);
            After(run, ScheduledRun(run) + [ReduceTest(true), ReduceProd(true), Prove(true, listing)]).proof.Some?
  {
    var scopes := run.contract.selection.stacks;
    var listing := JobListings.SerialListing(JobListings.SerialNames(scopes), identity);
    DistinctStacks(run);
    hide ValidContract, After, ScheduledRun, JobOrder.Evident, JobListings.Timely;
    JobListings.SerialListingIsAccepted(scopes, identity);
    AcceptedListings(run, listing);
    SuccessfulRunsPromote(run, listing);
  }

  lemma DistinctStacks(run: Run)
    requires Distinct(run.selector.order) && ValidContract(run.selector, run.contract)
    ensures Distinct(run.contract.selection.stacks)
  {
    ValidStacks(run.selector, run.contract);
    InOrderDistinct(run.selector.order, Names(run.contract.selection.stacks));
  }
}
