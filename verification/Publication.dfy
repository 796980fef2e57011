/** From a promotion proof to what is published
    (scripts/deployment_promotion_publication.py): requests are only ever built
    from a proof rebuilt from current evidence. */
module Publication {
  import opened Wrappers
  import opened Schedule
  import opened Promotion
  import Emitter
  import JobGraph
  import JobOrder

  /** How a proof is rendered: its evidence, its digest and its run's address. */
  datatype Rendering = Rendering(evidence: Proof -> string, digest: Proof -> string, runUrl: Proof -> string)

  const DESCRIPTION := "Verified central-v2 receipt/job apply and drift"

  function AccountRequest(proof: Proof, rendering: Rendering, account: string): Emitter.Request {
    Emitter.Request(proof.contract.identity.headSha, account, account == PROD, DESCRIPTION, rendering.evidence(proof),
                    Emitter.Body(None, "success", rendering.runUrl(proof), DESCRIPTION))
  }

  function RequestsOf(proof: Proof, rendering: Rendering): Emitter.Publication {
    Emitter.Publication(
      [AccountRequest(proof, rendering, TEST), AccountRequest(proof, rendering, PROD)],
      proof.contract.identity.headSha,
      Emitter.Body(Some(Emitter.CONTEXT), "success", rendering.runUrl(proof),
                   "central-v2 PR" + proof.contract.identity.pullRequestNumber + ": " + rendering.digest(proof)))
  }

  /** Requests for a prepared proof, if the current evidence still gives it. */
  ghost function Revalidate(w: World, run: Run, listing: seq<JobGraph.Job>, prepared: Proof,
                            rendering: Rendering): Result<Emitter.Publication>
  {
    var current :- BuildProof(w, run, listing);
    var _ :- Require(prepared == current);
    Ok(RequestsOf(current, rendering))
  }

  lemma RequestsAreSeparate(proof: Proof, rendering: Rendering)
    ensures var publication := RequestsOf(proof, rendering);
            && Emitter.SeparateAccounts(publication.deployments)
            && forall request :: request in publication.deployments ==> request.ref == publication.head
  {
    assert |TEST| == 4 && TEST[0] == 't' && PROD[0] == 'p';
  }

  /** Whatever happened in the run, requests exist only if every scheduled step
      of both accounts was reported successful under one contract and the jobs'
      timing extends the schedule; they are for TEST and PROD, apart, at the
      contract's head commit. */
  lemma RevalidatedMeansPassed(run: Run, actions: seq<Action>, listing: seq<JobGraph.Job>, prepared: Proof,
                               rendering: Rendering)
    requires Distinct(run.selector.order)
    requires Revalidate(After(run, actions), run, listing, prepared, rendering).Ok?
    ensures var w := After(run, actions);
            && AccountReported(w, run, TEST) && AccountReported(w, run, PROD)
            && JobOrder.VerifyOrder(run.contract.selection.stacks, prepared.jobs)
    ensures var publication := Revalidate(After(run, actions), run, listing, prepared, rendering).value;
            && Emitter.SeparateAccounts(publication.deployments)
            && publication.head == run.contract.identity.headSha
            && forall request :: request in publication.deployments ==> request.ref == run.contract.identity.headSha
  {
    var w := After(run, actions);
    hide After, AccountReported, JobOrder.VerifyOrder, JobOrder.Selected, VerifiedBarrier, Emitter.SeparateAccounts;
    ProofsAreProven(w, run, listing);
    BarriersAreSafe(run, actions);
    RequestsAreSeparate(prepared, rendering);
  }
}
