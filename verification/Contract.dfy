/** Deployment contracts, receipts and account barriers
    (scripts/deployment_controller.py, scripts/deployment_worker_receipt.py).

    SHA-256 over canonical JSON is an ideal digest: a term that holds the hashed
    document, so that equal digests mean equal documents and nothing else does. */
module Contract {
  import opened Wrappers
  import opened Schedule
  import opened Scopes

  const REPOSITORY := "VilnaCRM-Org/bootstrap-infrastructure"
  const REPOSITORY_ID := 1098568429
  const OWNER_ID := 114362548
  const WORKFLOW_REF := REPOSITORY + "/.github/workflows/pulumi-pr-command-runner.yml@refs/heads/main"

  datatype Controller = Controller(sha: string, runId: string, runAttempt: int, workflowRef: string)

  datatype Identity = Identity(
    repository: string,
    repositoryId: int,
    ownerId: int,
    pullRequestNumber: string,
    headSha: string,
    baseSha: string,
    commentId: string,
    sourceRunId: string,
    command: string,
    targetEnvironment: string,
    controller: Controller)

  datatype StageResult = StageResult(operation: string, result: string)

  /** Either the digest of a document or some other text. */
  datatype Digest = Sha256(document: Document) | Text(text: string)

  /** The hashed documents; a contract's or barrier's excludes its own digest. */
  datatype Document =
    | SelectionDocument(selection: DeploymentScopes)
    | ContractDocument(schemaVersion: int, identity: Identity, selectorSha256: string, selection: DeploymentScopes,
                       selectionDigest: Digest, schedule: seq<Step>)
    | ReceiptDocument(receipt: Receipt)
    | BarrierDocument(identity: Identity, contractDigest: Digest, selectionDigest: Digest, environment: string,
                      completionKind: string, receiptDigests: seq<(string, Digest)>, testBarrierDigest: Option<Digest>)

  datatype Receipt = Receipt(
    identity: Identity,
    contractDigest: Digest,
    selectionDigest: Digest,
    scope: string,
    environment: string,
    stages: seq<StageResult>)

  datatype DeploymentContract = DeploymentContract(
    schemaVersion: int,
    identity: Identity,
    selectorSha256: string,
    selection: DeploymentScopes,
    selectionDigest: Digest,
    schedule: seq<Step>,
    contractDigest: Digest)

  datatype Barrier = Barrier(
    identity: Identity,
    contractDigest: Digest,
    selectionDigest: Digest,
    environment: string,
    completionKind: string,
    receiptDigests: seq<(string, Digest)>,
    testBarrierDigest: Option<Digest>,
    barrierDigest: Digest)

  /* ---------- admission ---------- */

  predicate Decimal(value: string) {
    value != [] && '1' <= value[0] <= '9' && forall c :: c in value ==> '0' <= c <= '9'
  }

  predicate HexDigest(digest: Digest) {
    digest.Sha256? || Hex(digest.text, 64)
  }

  predicate ControllerAccepted(controller: Controller) {
    && Hex(controller.sha, 40)
    && Decimal(controller.runId)
    && controller.runAttempt == 1
    && controller.workflowRef == WORKFLOW_REF
  }

  datatype Request = Request(
    pullRequestNumber: string,
    headSha: string,
    commentId: string,
    sourceRunId: string,
    command: string,
    targetEnvironment: string)

  predicate RequestPatterns(request: Request) {
    && Decimal(request.pullRequestNumber)
    && Hex(request.headSha, 40)
    && Decimal(request.commentId)
    && Decimal(request.sourceRunId)
    && request.command in [PLAN, UP]
    && request.targetEnvironment in [TEST, PROD]
  }

  /** Collected facts; `authentic` is the verdict on repository identities and on
      the request's provenance, which other code reaches. */
  datatype Evidence = Evidence(
    authentic: bool,
    baseSha: string,
    scopeHeadSha: string,
    changedFileCount: int,
    pullRequestChangedFiles: int,
    records: seq<Record>)

  function IdentityOf(request: Request, baseSha: string, controller: Controller): Identity {
    Identity(REPOSITORY, REPOSITORY_ID, OWNER_ID, request.pullRequestNumber, request.headSha, baseSha,
             request.commentId, request.sourceRunId, request.command, request.targetEnvironment, controller)
  }

  function RequestOf(identity: Identity): Request {
    Request(identity.pullRequestNumber, identity.headSha, identity.commentId, identity.sourceRunId,
            identity.command, identity.targetEnvironment)
  }

  function ContractDigestOf(c: DeploymentContract): Digest {
    Sha256(ContractDocument(c.schemaVersion, c.identity, c.selectorSha256, c.selection, c.selectionDigest, c.schedule))
  }

  /** Freeze an admitted request's selection and schedule. */
  function BuildContract(selector: Selector, request: Request, evidence: Evidence, controller: Controller,
                         selectorSha256: string, complete: bool): Result<DeploymentContract>
  {
    var _ :- Require(RequestPatterns(request) && ControllerAccepted(controller) && Hex(selectorSha256, 64));
    var _ :- Require(evidence.authentic && evidence.scopeHeadSha == request.headSha
                     && evidence.changedFileCount == evidence.pullRequestChangedFiles);
    var selection :- Select(selector, evidence.records, evidence.baseSha, request.headSha, evidence.changedFileCount,
                            complete);
    var schedule :- ScheduleOf(selector.order, selection.stacks, request.command, request.targetEnvironment);
    var draft := DeploymentContract(2, IdentityOf(request, evidence.baseSha, controller), selectorSha256, selection,
                                    Sha256(SelectionDocument(selection)), schedule, Text(""));
    Ok(draft.(contractDigest := ContractDigestOf(draft)))
  }

  /* ---------- revalidation ---------- */

  /** What every later stage rechecks before it trusts a contract. */
  predicate ValidContract(selector: Selector, c: DeploymentContract) {
    && c.schemaVersion == 2
    && (c.identity.repository, c.identity.repositoryId, c.identity.ownerId) == (REPOSITORY, REPOSITORY_ID, OWNER_ID)
    && ControllerAccepted(c.identity.controller)
    && RequestPatterns(RequestOf(c.identity))
    && Hex(c.identity.baseSha, 40)
    && Hex(c.selectorSha256, 64)
    && (c.selection.baseSha, c.selection.headSha) == (c.identity.baseSha, c.identity.headSha)
    && c.identity.baseSha != c.identity.headSha
    && Reselect(selector, c.selection) == Ok(c.selection)
    && Ok(c.schedule) == ScheduleOf(selector.order, c.selection.stacks, c.identity.command,
                                    c.identity.targetEnvironment)
    && c.selectionDigest == Sha256(SelectionDocument(c.selection))
    && c.contractDigest == ContractDigestOf(c)
  }

  /** The only request a contract can have come from, with its reasons' paths as
      plain modifications. */
  function Rebuild(selector: Selector, c: DeploymentContract): Result<DeploymentContract> {
    var n := |c.selection.reasons|;
    BuildContract(selector, RequestOf(c.identity),
                  Evidence(true, c.identity.baseSha, c.identity.headSha, n, n, AsModified(c.selection.reasons)),
                  c.identity.controller, c.selectorSha256, true)
  }

  lemma {:induction false} InOrderStable(order: seq<string>, chosen: set<string>, all: seq<string>)
    requires forall x :: x in order ==> (x in chosen <==> x in all)
    ensures InOrder(order, Names(all)) == InOrder(order, chosen)
  {
    if order != [] {
      InOrderStable(order[1..], chosen, all);
    }
  }

  /** A selection is canonical, so an admitted request always has a schedule. */
  lemma SelectionSchedules(selector: Selector, records: seq<Record>, base: string, head: string, count: int,
                           complete: bool, command: string, target: string)
    requires Select(selector, records, base, head, count, complete).Ok?
    requires command in [PLAN, UP] && target in [TEST, PROD]
    ensures ScheduleOf(selector.order, Select(selector, records, base, head, count, complete).value.stacks, command,
                       target).Ok?
  {
    var chosen := Select(selector, records, base, head, count, complete).value;
    InOrderStable(selector.order, StacksOf(chosen.reasons), chosen.stacks);
  }

  lemma SelectionRevisions(selector: Selector, records: seq<Record>, base: string, head: string, count: int,
                           complete: bool)
    requires Select(selector, records, base, head, count, complete).Ok?
    ensures var chosen := Select(selector, records, base, head, count, complete).value;
            chosen.baseSha == base && chosen.headSha == head && Hex(base, 40) && base != head
  {
    hide Reasons, Touched, ReviewedCutover, Hex;
  }

  /** Every later stage accepts a contract that was built, unless it froze the
      miscounted pinned comparison. */
  lemma BuiltContractsValidate(selector: Selector, request: Request, evidence: Evidence, controller: Controller,
                               selectorSha256: string, complete: bool)
    requires Pinned(selector)
    requires BuildContract(selector, request, evidence, controller, selectorSha256, complete).Ok?
    ensures ValidContract(selector,
                          BuildContract(selector, request, evidence, controller, selectorSha256, complete).value)
       <==> !Miscounted(selector, evidence.records, evidence.baseSha, request.headSha)
  {
    hide Select, Reselect, ScheduleOf, Miscounted, Pinned, ControllerAccepted, RequestPatterns;
    var c := BuildContract(selector, request, evidence, controller, selectorSha256, complete).value;
    SelectionRevisions(selector, evidence.records, evidence.baseSha, request.headSha, evidence.changedFileCount,
                       complete);
    ReselectReproduces(selector, evidence.records, evidence.baseSha, request.headSha, evidence.changedFileCount,
                       complete);
    assert RequestOf(c.identity) == request;
  }

  /** A valid contract is exactly one that admission would build again from its
      own contents: no forged scope, schedule or digest survives. */
  lemma ValidContractsAreBuilt(selector: Selector, c: DeploymentContract)
    ensures ValidContract(selector, c) <==> Rebuild(selector, c) == Ok(c)
  {
    if Rebuild(selector, c) == Ok(c) {
      assert c.selection.baseSha == c.identity.baseSha;
    }
  }

  /** Contracts that share a digest are the same contract. */
  lemma ContractDigestBinds(selector: Selector, a: DeploymentContract, b: DeploymentContract)
    requires ValidContract(selector, a) && ValidContract(selector, b)
    requires a.contractDigest == b.contractDigest
    ensures a == b
  {
  }
}
