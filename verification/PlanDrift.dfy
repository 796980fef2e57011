/** What an accepted preview tells about the plan it belongs to
    (scripts/operator_plan_validation.py): its change summary, the absence of
    drift, and everything except secrets. */
module PlanDrift {
  import opened Wrappers
  import opened JsonValues
  import opened Properties
  import opened PlanRules
  import opened Checkpoint
  import opened PlanPreview
  import opened PlanRuns

  /* ---------- the change summary ---------- */

  function UrnsWith(steps: seq<PreviewRow>, op: string): set<Urn> {
    set i | 0 <= i < |steps| && steps[i].op == op :: steps[i].urn
  }

  lemma UrnsWithSnoc(steps: seq<PreviewRow>, op: string)
    requires steps != []
    ensures var n := |steps| - 1;
            UrnsWith(steps, op) == UrnsWith(steps[..n], op) + if steps[n].op == op then {steps[n].urn} else {}
  {
    var n := |steps| - 1;
    var less := steps[..n];
    assert forall i :: 0 <= i < n ==> less[i] == steps[i];
    forall u | u in UrnsWith(steps, op)
      ensures u in UrnsWith(less, op) + if steps[n].op == op then {steps[n].urn} else {}
    {
      var i :| 0 <= i < |steps| && steps[i].op == op && steps[i].urn == u;
      if i < n {
        assert less[i].urn == u;
      }
    }
    forall u | u in UrnsWith(less, op) ensures u in UrnsWith(steps, op) {
      var i :| 0 <= i < n && less[i].op == op && less[i].urn == u;
      assert steps[i].urn == u;
    }
  }

  /** As no resource shows an operation twice, steps of an operation are as many
      as the resources showing it. */
  lemma {:induction false} StepsCountResources(steps: seq<PreviewRow>, op: string, catalog: Catalog)
    requires StepsAccepted(steps, catalog)
    ensures Counted(op) ==> Histogram(steps)[op] == |UrnsWith(steps, op)|
    ensures op == READ ==> Reads(steps) == |UrnsWith(steps, op)|
    ensures !Counted(op) ==> Histogram(steps)[op] == 0
  {
    hide StepAccepted;
    if steps != [] {
      var n := |steps| - 1;
      StepsCountResources(steps[..n], op, catalog);
      UrnsWithSnoc(steps, op);
      if steps[n].op == op {
        assert steps[n].urn !in UrnsWith(steps[..n], op);
      }
    }
  }

  lemma {:induction false} PlannedMember(rows: seq<PreviewRow>, op: string)
    ensures op in PlannedOps(rows) <==> op != REFRESH && exists row :: row in rows && row.op == op
  {
    if rows != [] {
      var n := |rows| - 1;
      PlannedMember(rows[..n], op);
      if row :| row in rows && row.op == op && op != REFRESH {
        if row != rows[n] {
          assert row in rows[..n];
        }
      }
      if op in PlannedOps(rows[..n]) {
        var row :| row in rows[..n] && row.op == op;
        assert row in rows;
      }
      assert rows[n] in rows;
    }
  }

  /** The resources a plan puts through an operation, default providers aside. */
  function PlannedFor(goals: Goals, op: string): set<Urn> {
    set u | u in goals && !DefaultProvider(u) && op in goals[u].steps
  }

  /** A resource shows an operation exactly when it is planned for it. */
  lemma ShownIsPlanned(before: Inventory, goals: Goals, preview: Preview, steps: seq<PreviewRow>, op: string,
                       catalog: Catalog, u: Urn)
    requires Accepted(before, goals, preview, catalog) && Groups(preview, steps)
    requires op !in {READ, REFRESH}
    ensures u in UrnsWith(steps, op) <==> u in PlannedFor(goals, op)
  {
    hide GoalAccepted, UnplannedAccepted, InventoryAccepted, DefaultProvider, Shows;
    if u in preview {
      ShownOps(before, goals, preview, catalog, u);
      PlannedMember(preview[u], op);
      forall row ensures row in preview[u] <==> row in steps && row.urn == u {
        ShowsMembers(steps, u, row);
      }
      if u in UrnsWith(steps, op) {
        var i :| 0 <= i < |steps| && steps[i].op == op && steps[i].urn == u;
        assert steps[i] in preview[u];
      }
      if op in PlannedOps(preview[u]) {
        var row :| row in preview[u] && row.op == op;
        var i :| 0 <= i < |steps| && steps[i] == row;
      }
    }
  }

  lemma ShownOps(before: Inventory, goals: Goals, preview: Preview, catalog: Catalog, u: Urn)
    requires Accepted(before, goals, preview, catalog) && u in preview
    ensures !DefaultProvider(u)
    ensures PlannedOps(preview[u]) == if u in goals then goals[u].steps else [READ]
  {
    hide Desired, OperationAccepted, RowShown, InventoryAccepted, PlannedOps, DefaultProvider, UrnAccepted;
    if u in goals {
      assert GoalAccepted(u, goals[u], before, preview, catalog);
    } else {
      assert UnplannedAccepted(u, before, preview, catalog);
    }
  }

  /** The summary of an accepted preview counts, for every operation, exactly
      the resources the plan puts through it; nothing is counted twice, missing
      or invented. */
  lemma SummaryCountsThePlan(before: Inventory, goals: Goals, preview: Preview, steps: seq<PreviewRow>,
                             summary: map<string, nat>, op: string, catalog: Catalog)
    requires Accepted(before, goals, preview, catalog) && Groups(preview, steps) && StepsAccepted(steps, catalog)
    requires SummaryAccepted(summary, Histogram(steps), Reads(steps))
    ensures Counted(op) ==> Tally(summary, op) == |PlannedFor(goals, op)|
    ensures !Counted(op) && op != READ ==> Tally(summary, op) == 0
  {
    hide Accepted, Groups, StepsAccepted, Histogram, Reads, UrnsWith, PlannedFor;
    StepsCountResources(steps, op, catalog);
    if Counted(op) {
      forall u ensures u in UrnsWith(steps, op) <==> u in PlannedFor(goals, op) {
        ShownIsPlanned(before, goals, preview, steps, op, catalog, u);
      }
      assert UrnsWith(steps, op) == PlannedFor(goals, op);
    }
  }

  /* ---------- drift ---------- */

  /** The plan changes nothing: what the validator returns is empty. */
  predicate Unchanging(goals: Goals) {
    forall u :: u in goals ==> goals[u].steps == SAME
  }

  /** An accepted plan without changes wants exactly the managed resources of the
      checkpoint, as they are, up to bridge metadata and attachment order. */
  lemma NoChangeKeepsInventory(before: Inventory, goals: Goals, preview: Preview, catalog: Catalog, u: Urn)
    requires Accepted(before, goals, preview, catalog) && Unchanging(goals)
    ensures u in goals <==> u in before && !before[u].external
    ensures u in goals ==>
              && u in Remaining(before, Wants(goals, before, catalog))
              && var row := Remaining(before, Wants(goals, before, catalog))[u];
                 Same(before[u].inputs, row.inputs, row.kind, true) && OwnershipOf(row) == OwnershipOf(before[u])
                   && row.id == before[u].id
  {
    hide Accepted, Wants, TargetOf, Controlled, Semantics;
    if u in goals {
      PlannedRow(before, goals, preview, catalog, u);
    } else {
      Unplanned(before, goals, preview, catalog, u);
    }
  }

  /** Every refresh shown found the recorded outputs, secrets aside. */
  lemma RefreshesFindNoDrift(before: Inventory, goals: Goals, preview: Preview, steps: seq<PreviewRow>,
                             catalog: Catalog, step: PreviewRow)
    requires Accepted(before, goals, preview, catalog) && Groups(preview, steps)
    requires step in steps && step.op == REFRESH
    ensures step.urn in before && step.newState.Some?
    ensures LooksAlike(step.newState.value.outputs, before[step.urn].outputs, before[step.urn].kind, false)
  {
    ShowsMembers(steps, step.urn, step);
    ShownRow(before, goals, preview, catalog, step.urn, step);
    hide Accepted, Groups, Shown, StateShown;
  }

  lemma ShownRow(before: Inventory, goals: Goals, preview: Preview, catalog: Catalog, u: Urn, row: PreviewRow)
    requires Accepted(before, goals, preview, catalog) && u in preview && row in preview[u]
    ensures u in goals ==>
              u in Wants(goals, before, catalog)
                && RowShown(row, Prior(before, u), Wants(goals, before, catalog)[u], catalog)
    ensures u !in goals ==> u in before && RowShown(row, Some(before[u]), Some(before[u]), catalog)
  {
    hide Desired, OperationAccepted, RowShown, InventoryAccepted, PlannedOps, DefaultProvider, UrnAccepted;
    ShownOps(before, goals, preview, catalog, u);
    if u in goals {
      assert GoalAccepted(u, goals[u], before, preview, catalog);
    } else {
      assert UnplannedAccepted(u, before, preview, catalog);
    }
  }

  /** The whole drift verdict: an accepted plan without changes counts only
      unchanged resources, one for each managed one that is shown. */
  lemma DriftIsSound(before: Inventory, goals: Goals, preview: Preview, steps: seq<PreviewRow>,
                     summary: map<string, nat>, catalog: Catalog)
    requires Accepted(before, goals, preview, catalog) && Groups(preview, steps) && StepsAccepted(steps, catalog)
    requires SummaryAccepted(summary, Histogram(steps), Reads(steps)) && Unchanging(goals)
    ensures Tally(summary, "same") == |set u | u in before && !before[u].external && !DefaultProvider(u)|
    ensures forall op :: op !in {"same", READ} ==> Tally(summary, op) == 0
    ensures goals.Keys == set u | u in before && !before[u].external
  {
    hide Accepted, Groups, StepsAccepted, SummaryAccepted, Histogram, Reads, DefaultProvider;
    forall u ensures u in goals <==> u in before && !before[u].external {
      NoChangeKeepsInventory(before, goals, preview, catalog, u);
    }
    assert SAME[0] == "same";
    SummaryCountsThePlan(before, goals, preview, steps, summary, "same", catalog);
    assert PlannedFor(goals, "same") == set u | u in before && !before[u].external && !DefaultProvider(u);
    forall op | op !in {"same", READ} ensures Tally(summary, op) == 0 {
      SummaryCountsThePlan(before, goals, preview, steps, summary, op, catalog);
      if Counted(op) {
        assert PlannedFor(goals, op) == {};
      }
    }
  }

  /* ---------- the preview determines the plan ---------- */

  lemma EffectiveOp(prior: Option<Row>, desired: Row, ops: seq<string>, catalog: Catalog) returns (op: string)
    requires OperationAccepted(prior, Some(desired), ops, catalog)
    ensures op in ops && op !in {"delete", "delete-replaced", READ, REFRESH}
  {
    hide TargetOf, Controlled, Hardened, ExclusiveTarget, Semantics, ChangedInputs;
    op := if ops in REPLACEMENTS then ops[1] else ops[0];
  }

  /** The planned inputs of a resource look like the ones shown for it. */
  lemma PlannedInputsAreShown(before: Inventory, goals: Goals, preview: Preview, catalog: Catalog, u: Urn, op: string,
                              row: PreviewRow)
    requires Accepted(before, goals, preview, catalog) && u in goals && !DefaultProvider(u)
    requires u in preview && row in preview[u] && row.op == op && op !in {"delete", "delete-replaced", READ, REFRESH}
    requires u in Wants(goals, before, catalog) && Wants(goals, before, catalog)[u].Some?
    ensures var wanted := Wants(goals, before, catalog)[u].value;
            && row.newState.Some?
            && OwnershipOf(row.newState.value) == OwnershipOf(wanted)
            && LooksAlike(row.newState.value.inputs, wanted.inputs, wanted.kind, true)
  {
    ShownRow(before, goals, preview, catalog, u, row);
    hide Accepted, Wants, Shown, StateAccepted;
  }

  /** Two plans accepted with one preview on one checkpoint agree, for every
      resource the preview shows, on the operations, the ownership and the
      inputs up to secrets and bridge metadata: approving a preview approves one
      plan. */
  lemma PreviewDeterminesPlan(before: Inventory, a: Goals, b: Goals, preview: Preview, catalog: Catalog, u: Urn)
    requires Accepted(before, a, preview, catalog) && Accepted(before, b, preview, catalog)
    requires !DefaultProvider(u)
    ensures u in a <==> u in b
    ensures u in a ==>
              && a[u].steps == b[u].steps
              && u in Wants(a, before, catalog) && u in Wants(b, before, catalog)
              && var x, y := Wants(a, before, catalog)[u], Wants(b, before, catalog)[u];
                 && (x.Some? <==> y.Some?)
                 && (x.Some? ==>
                      OwnershipOf(x.value) == OwnershipOf(y.value)
                        && LooksAlike(x.value.inputs, y.value.inputs, x.value.kind, true))
  {
    SameGoals(before, a, b, preview, catalog, u);
    if u in a {
      hide Accepted, Wants, DefaultProvider, OperationAccepted, Shown, Desired;
      ShownOps(before, a, preview, catalog, u);
      ShownOps(before, b, preview, catalog, u);
      PlannedRow(before, a, preview, catalog, u);
      PlannedRow(before, b, preview, catalog, u);
      DesiredIs(u, a[u], Prior(before, u), catalog);
      DesiredIs(u, b[u], Prior(before, u), catalog);
      var x, y := Wants(a, before, catalog)[u], Wants(b, before, catalog)[u];
      if x.Some? {
        var op := EffectiveOp(Prior(before, u), x.value, a[u].steps, catalog);
        PlannedMember(preview[u], op);
        var row :| row in preview[u] && row.op == op;
        PlannedInputsAreShown(before, a, preview, catalog, u, op, row);
        PlannedInputsAreShown(before, b, preview, catalog, u, op, row);
      }
    }
  }

  lemma SameGoals(before: Inventory, a: Goals, b: Goals, preview: Preview, catalog: Catalog, u: Urn)
    requires Accepted(before, a, preview, catalog) && Accepted(before, b, preview, catalog)
    requires !DefaultProvider(u)
    ensures u in a <==> u in b
    ensures u in a ==> u in preview
  {
    hide Desired, OperationAccepted, ResourceShown, UnplannedAccepted, InventoryAccepted, DefaultProvider, UrnAccepted;
    if u in a && u in before {
      assert GoalAccepted(u, a[u], before, preview, catalog);
    }
    if u in b && u in before {
      assert GoalAccepted(u, b[u], before, preview, catalog);
    }
  }
}
