/** Worker receipts and their reduction to account barriers
    (scripts/deployment_worker_receipt.py, scripts/deployment_controller.py). */
module Barriers {
  import opened Wrappers
  import opened Schedule
  import opened Scopes
  import opened Contract

  const SUCCESS := "success"
  const SKIPPED := "skipped"
  const FAILURE := "failure"
  const RESULT_NAMES: set<string> := {PLAN, "destructive", "iam", "apply", "drift"}

  /* ---------- receipts ---------- */

  function Successes(operations: seq<string>): (r: seq<StageResult>)
    ensures |r| == |operations|
    ensures forall i :: 0 <= i < |r| ==> r[i] == StageResult(operations[i], SUCCESS)
  {
    seq(|operations|, i requires 0 <= i < |operations| => StageResult(operations[i], SUCCESS))
  }

  /** A receipt for one node, with exactly its scheduled operations, all successful. */
  predicate ReceiptAccepted(c: DeploymentContract, receipt: Receipt, scope: string, environment: string) {
    && receipt.identity == c.identity
    && receipt.contractDigest == c.contractDigest
    && receipt.selectionDigest == c.selectionDigest
    && receipt.scope == scope
    && receipt.environment == environment
    && receipt.stages == Successes(NodeOperations(c.schedule, environment, scope))
  }

  function ReceiptDigest(receipt: Receipt): Digest {
    Sha256(ReceiptDocument(receipt))
  }

  /** The five results a worker must report for a command. */
  predicate ResultsAccepted(command: string, results: map<string, string>) {
    && results.Keys == RESULT_NAMES
    && results[PLAN] == results["destructive"] == results["iam"] == SUCCESS
    && results["apply"] == results["drift"] == (if command == UP then SUCCESS else SKIPPED)
  }

  function Reported(operations: seq<string>, results: map<string, string>): (r: seq<StageResult>)
    requires forall o :: o in operations ==> o in results
    ensures |r| == |operations|
    ensures forall i :: 0 <= i < |r| ==> r[i] == StageResult(operations[i], results[operations[i]])
  {
    seq(|operations|, i requires 0 <= i < |operations| => StageResult(operations[i], results[operations[i]]))
  }

  /** The receipt of a scheduled node whose results satisfy the command. */
  function NodeReceipt(c: DeploymentContract, scope: string, environment: string,
                       results: map<string, string>): Result<Receipt>
  {
    var _ :- Require(ResultsAccepted(c.identity.command, results));
    var operations := NodeOperations(c.schedule, environment, scope);
    var _ :- Require(operations != [] && forall o :: o in operations ==> o in results);
    var receipt := Receipt(c.identity, c.contractDigest, c.selectionDigest, scope, environment,
                           Reported(operations, results));
    var _ :- Require(ReceiptAccepted(c, receipt, scope, environment));
    Ok(receipt)
  }

  /** A worker's receipt, for a contract it has revalidated. */
  function BuildReceipt(selector: Selector, c: DeploymentContract, scope: string, environment: string,
                        results: map<string, string>): Result<Receipt>
  {
    if ValidContract(selector, c) then NodeReceipt(c, scope, environment, results) else Rejected
  }

  /** The operations a valid contract schedules for a node. */
  lemma ValidOperations(selector: Selector, c: DeploymentContract, scope: string, environment: string)
    requires Distinct(selector.order) && ValidContract(selector, c)
    ensures NodeOperations(c.schedule, environment, scope)
         == if environment in Environments(c.identity.targetEnvironment) && scope in c.selection.stacks
            then Operations(c.identity.command) else []
  {
    ScheduledOperations(selector.order, c.selection.stacks, c.identity.command, c.identity.targetEnvironment,
                        environment, scope);
  }

  lemma NodeReceipts(c: DeploymentContract, scope: string, environment: string, results: map<string, string>,
                     scheduled: bool)
    requires NodeOperations(c.schedule, environment, scope) == if scheduled then Operations(c.identity.command) else []
    ensures NodeReceipt(c, scope, environment, results).Ok?
       <==> scheduled && ResultsAccepted(c.identity.command, results)
    ensures NodeReceipt(c, scope, environment, results).Ok? ==>
              ReceiptAccepted(c, NodeReceipt(c, scope, environment, results).value, scope, environment)
  {
    var operations := NodeOperations(c.schedule, environment, scope);
    hide NodeOperations;
    if scheduled && ResultsAccepted(c.identity.command, results) {
      assert forall o :: o in operations ==> o in results && results[o] == SUCCESS;
      assert Reported(operations, results) == Successes(operations);
    }
  }

  /** A worker can write a receipt exactly when its node is scheduled and it
      reports the command's results; the receipt then passes the controller. */
  lemma ReceiptsAreBuilt(selector: Selector, c: DeploymentContract, scope: string, environment: string,
                         results: map<string, string>)
    requires Distinct(selector.order)
    ensures BuildReceipt(selector, c, scope, environment, results).Ok?
       <==> && ValidContract(selector, c)
            && environment in Environments(c.identity.targetEnvironment) && scope in c.selection.stacks
            && ResultsAccepted(c.identity.command, results)
    ensures BuildReceipt(selector, c, scope, environment, results).Ok? ==>
              ReceiptAccepted(c, BuildReceipt(selector, c, scope, environment, results).value, scope, environment)
  {
    hide Reselect, ScheduleOf, ReceiptAccepted, ResultsAccepted, NodeReceipt;
    if ValidContract(selector, c) {
      ValidOperations(selector, c, scope, environment);
      NodeReceipts(c, scope, environment, results,
                   environment in Environments(c.identity.targetEnvironment) && scope in c.selection.stacks);
    }
  }

  /* ---------- barriers ---------- */

  function CompletionKind(c: DeploymentContract): string {
    if c.selection.stacks == [] then "no-deployment" else if c.identity.command == UP then "apply-drift" else "plan"
  }

  function BarrierDigestOf(b: Barrier): Digest {
    Sha256(BarrierDocument(b.identity, b.contractDigest, b.selectionDigest, b.environment, b.completionKind,
                           b.receiptDigests, b.testBarrierDigest))
  }

  function ScopesOf(digests: seq<(string, Digest)>): (r: seq<string>)
    ensures |r| == |digests|
    ensures forall i :: 0 <= i < |r| ==> r[i] == digests[i].0
  {
    seq(|digests|, i requires 0 <= i < |digests| => digests[i].0)
  }

  /** The full TEST reduction a PROD reduction must be given. */
  predicate TestBarrierAccepted(c: DeploymentContract, b: Barrier) {
    && b.identity == c.identity
    && b.contractDigest == c.contractDigest
    && b.selectionDigest == c.selectionDigest
    && b.environment == TEST
    && b.completionKind == CompletionKind(c)
    && b.testBarrierDigest == None
    && ScopesOf(b.receiptDigests) == c.selection.stacks
    && (forall pair :: pair in b.receiptDigests ==> HexDigest(pair.1))
    && b.barrierDigest == BarrierDigestOf(b)
  }

  predicate ScopeReduced(c: DeploymentContract, environment: string, results: map<string, string>,
                         receipts: map<string, Receipt>, scope: string)
  {
    && scope in results
    && if scope in c.selection.stacks
       then results[scope] == SUCCESS && scope in receipts && ReceiptAccepted(c, receipts[scope], scope, environment)
       else results[scope] == SKIPPED
  }

  function DigestPairs(scopes: seq<string>, receipts: map<string, Receipt>): (r: seq<(string, Digest)>)
    requires forall s :: s in scopes ==> s in receipts
    ensures |r| == |scopes|
    ensures forall i :: 0 <= i < |r| ==> r[i] == (scopes[i], ReceiptDigest(receipts[scopes[i]]))
  {
    seq(|scopes|, i requires 0 <= i < |scopes| => (scopes[i], ReceiptDigest(receipts[scopes[i]])))
  }

  predicate PredecessorAccepted(c: DeploymentContract, environment: string, test: Option<Barrier>) {
    if environment == PROD
    then c.identity.targetEnvironment == PROD && test.Some? && TestBarrierAccepted(c, test.value)
    else test == None
  }

  /** When an account's results and receipts reduce to a barrier. */
  predicate Reducible(selector: Selector, c: DeploymentContract, environment: string, results: map<string, string>,
                      receipts: map<string, Receipt>, test: Option<Barrier>)
  {
    && ValidContract(selector, c)
    && environment in [TEST, PROD]
    && PredecessorAccepted(c, environment, test)
    && results.Keys == Names(selector.order)
    && receipts.Keys == Names(c.selection.stacks)
    && forall scope :: scope in selector.order ==> ScopeReduced(c, environment, results, receipts, scope)
  }

  function Seal(b: Barrier): Barrier {
    b.(barrierDigest := BarrierDigestOf(b))
  }

  function Reduce(selector: Selector, c: DeploymentContract, environment: string, results: map<string, string>,
                  receipts: map<string, Receipt>, test: Option<Barrier>): Result<Barrier>
  {
    if !Reducible(selector, c, environment, results, receipts, test) then Rejected
    else
      var predecessor := if test.Some? then Some(test.value.barrierDigest) else None;
      Ok(Seal(Barrier(c.identity, c.contractDigest, c.selectionDigest, environment, CompletionKind(c),
                      DigestPairs(c.selection.stacks, receipts), predecessor, Text(""))))
  }

  lemma NothingInOrder(chosen: set<string>)
    ensures InOrder([], chosen) == []
  {
  }

  lemma InOrderCons(x: string, rest: seq<string>, chosen: set<string>)
    ensures InOrder([x] + rest, chosen) == (if x in chosen then [x] else []) + InOrder(rest, chosen)
  {
    assert ([x] + rest)[1..] == rest;
  }

  lemma {:induction false} InOrderSnoc(order: seq<string>, x: string, chosen: set<string>)
    ensures InOrder(order + [x], chosen) == InOrder(order, chosen) + (if x in chosen then [x] else [])
  {
    if order == [] {
      assert [x][1..] == [] && order + [x] == [x];
    } else {
      var rest := order[1..];
      InOrderSnoc(rest, x, chosen);
      assert order == [order[0]] + rest && order + [x] == [order[0]] + (rest + [x]);
      InOrderCons(order[0], rest, chosen);
      InOrderCons(order[0], rest + [x], chosen);
    }
  }

  /** The loop: scope by scope in dependency order, stopping at the first that
      did not do what its selection calls for. */
  method CollectDigests(c: DeploymentContract, environment: string, order: seq<string>, results: map<string, string>,
                        receipts: map<string, Receipt>) returns (r: Result<seq<(string, Digest)>>)
    requires results.Keys == Names(order) && receipts.Keys == Names(c.selection.stacks)
    ensures r.Ok? <==> forall scope :: scope in order ==> ScopeReduced(c, environment, results, receipts, scope)
    ensures r.Ok? ==> r.value == DigestPairs(InOrder(order, Names(c.selection.stacks)), receipts)
  {
    hide ReceiptAccepted, InOrder, ReceiptDigest;
    var chosen := Names(c.selection.stacks);
    assert InOrder([], chosen) == [] by {
      NothingInOrder(chosen);
    }
    var digests: seq<(string, Digest)> := [];
    for i := 0 to |order|
      invariant forall k :: 0 <= k < i ==> ScopeReduced(c, environment, results, receipts, order[k])
      invariant digests == DigestPairs(InOrder(order[..i], chosen), receipts)
    {
      var scope := order[i];
      InOrderSnoc(order[..i], scope, chosen);
      assert order[..i + 1] == order[..i] + [scope];
      if scope !in chosen {
        if results[scope] != SKIPPED {
          return Rejected;
        }
      } else {
        if results[scope] != SUCCESS || !ReceiptAccepted(c, receipts[scope], scope, environment) {
          return Rejected;
        }
        digests := digests + [(scope, ReceiptDigest(receipts[scope]))];
      }
    }
    assert order[..|order|] == order;
    return Ok(digests);
  }

  method ReduceAccountBarrier(selector: Selector, c: DeploymentContract, environment: string,
                              results: map<string, string>, receipts: map<string, Receipt>,
                              test: Option<Barrier>)
    returns (r: Result<Barrier>)
    ensures r == Reduce(selector, c, environment, results, receipts, test)
  {
    hide Reselect, ReceiptAccepted, TestBarrierAccepted;
    if !(ValidContract(selector, c) && environment in [TEST, PROD] && PredecessorAccepted(c, environment, test)) {
      return Rejected;
    }
    if results.Keys != Names(selector.order) || receipts.Keys != Names(c.selection.stacks) {
      return Rejected;
    }
    var digests := CollectDigests(c, environment, selector.order, results, receipts);
    if digests.Rejected? {
      return Rejected;
    }
    var barrier := Barrier(c.identity, c.contractDigest, c.selectionDigest, environment, CompletionKind(c),
                           digests.value, if test.Some? then Some(test.value.barrierDigest) else None, Text(""));
    return Ok(Seal(barrier));
  }

  /** A TEST reduction passes the check that PROD makes of it. */
  lemma TestBarriersAreAccepted(selector: Selector, c: DeploymentContract, results: map<string, string>,
                                receipts: map<string, Receipt>)
    requires Reduce(selector, c, TEST, results, receipts, None).Ok?
    ensures TestBarrierAccepted(c, Reduce(selector, c, TEST, results, receipts, None).value)
  {
    var b := Reduce(selector, c, TEST, results, receipts, None).value;
    assert ScopesOf(b.receiptDigests) == c.selection.stacks;
  }

  lemma PairsBind(scopes: seq<string>, a: map<string, Receipt>, b: map<string, Receipt>)
    requires a.Keys == b.Keys == Names(scopes)
    requires DigestPairs(scopes, a) == DigestPairs(scopes, b)
    ensures a == b
  {
    forall s | s in a ensures a[s] == b[s] {
      var i :| 0 <= i < |scopes| && scopes[i] == s;
      assert DigestPairs(scopes, a)[i] == DigestPairs(scopes, b)[i];
    }
  }

  /** A barrier's digest pins everything that went into it: equal digests mean
      the same contract, account, receipts and results; and a PROD digest pins
      TEST's barrier, and so everything that went into that. */
  lemma BarrierDigestBinds(selector: Selector, c: DeploymentContract, c': DeploymentContract, environment: string,
                           environment': string, results: map<string, string>, results': map<string, string>,
                           receipts: map<string, Receipt>, receipts': map<string, Receipt>, test: Option<Barrier>,
                           test': Option<Barrier>)
    requires Reduce(selector, c, environment, results, receipts, test).Ok?
    requires Reduce(selector, c', environment', results', receipts', test').Ok?
    requires Reduce(selector, c, environment, results, receipts, test).value.barrierDigest
          == Reduce(selector, c', environment', results', receipts', test').value.barrierDigest
    ensures c == c' && environment == environment' && receipts == receipts' && test == test' && results == results'
  {
    hide Reselect, ScheduleOf, ReceiptAccepted;
    var b := Reduce(selector, c, environment, results, receipts, test).value;
    var b' := Reduce(selector, c', environment', results', receipts', test').value;
    assert c == c' by {
      ContractDigestBinds(selector, c, c');
    }
    PairsBind(c.selection.stacks, receipts, receipts');
    assert test == test' by {
      assert test.Some? ==> test.value.barrierDigest == BarrierDigestOf(test.value);
      assert test'.Some? ==> test'.value.barrierDigest == BarrierDigestOf(test'.value);
    }
    forall s | s in results ensures s in results' && results[s] == results'[s] {
      assert ScopeReduced(c, environment, results, receipts, s) && ScopeReduced(c, environment, results', receipts', s);
    }
  }
}
