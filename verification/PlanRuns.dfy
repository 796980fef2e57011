/** Runs of accepted operator plans, each applied to the checkpoint the one
    before it left (scripts/operator_plan_validation.py): what can never change,
    what the first plan enforces for good. */
module PlanRuns {
  import opened Wrappers
  import opened JsonValues
  import opened Properties
  import opened PlanRules
  import opened Checkpoint
  import opened PlanPreview

  /** A checkpoint written by applying a plan: the inventory it leaves, with
      outputs filled in and an ID for what was created or replaced. */
  predicate Settled(row: Row, after: Row) {
    && after == row.(outputs := after.outputs, id := after.id)
    && (row.external || row.kind !in CREATABLE ==> after.id == row.id)
  }

  predicate Settles(remaining: Inventory, after: Inventory) {
    && after.Keys == remaining.Keys
    && forall u :: u in remaining ==> Settled(remaining[u], after[u])
  }

  /** One accepted plan and its application. */
  ghost predicate Applies(before: Inventory, goals: Goals, preview: Preview, after: Inventory, catalog: Catalog) {
    && Admitted(before, catalog)
    && Accepted(before, goals, preview, catalog)
    && Settles(Remaining(before, Wants(goals, before, catalog)), after)
  }

  ghost predicate Leads(before: Inventory, after: Inventory, catalog: Catalog) {
    exists goals, preview :: Applies(before, goals, preview, after, catalog)
  }

  /** A run of checkpoints, each reached from the last by an accepted plan. */
  ghost predicate Run(states: seq<Inventory>, catalog: Catalog) {
    states != [] && forall i :: 0 <= i < |states| - 1 ==> Leads(states[i], states[i + 1], catalog)
  }

  predicate Permanent(urn: Urn) {
    KindOf(urn) !in CREATABLE
  }

  /** An input that no accepted plan rewrites. */
  predicate FixedKey(kind: string, key: string) {
    && kind != PROVIDER
    && key !in Changeable(kind) + {"tagsAll"}
    && !(kind == EXCLUSIVE && key == POLICY_ARNS)
  }

  /** A resource outside the catalog's write bindings. */
  predicate Untouchable(row: Row, catalog: Catalog) {
    row.kind !in {PROVIDER, EXCLUSIVE} && TargetOf(row, catalog).Ok?
      && !Mutable(row.kind, TargetOf(row, catalog).value, catalog)
  }

  /** What a later row of the same permanent resource keeps of an earlier one. */
  ghost predicate Descends(was: Row, now: Row, catalog: Catalog) {
    && now.urn == was.urn
    && OwnershipOf(now) == OwnershipOf(was)
    && now.id == was.id
    && was.secretOutputs <= now.secretOutputs
    && TargetOf(now, catalog) == TargetOf(was, catalog)
    && (forall key :: FixedKey(was.kind, key) ==> Get(now.inputs, key) == Get(was.inputs, key))
    && (was.kind == ROLE && MANAGED_ARNS in was.inputs ==> MANAGED_ARNS in now.inputs)
    && (Untouchable(was, catalog) ==> now.inputs == was.inputs)
  }

  lemma DescendsIsTransitive(a: Row, b: Row, c: Row, catalog: Catalog)
    requires Descends(a, b, catalog) && Descends(b, c, catalog)
    ensures Descends(a, c, catalog)
  {
    hide TargetOf, Mutable, Changeable;
    forall key | FixedKey(a.kind, key) ensures Get(c.inputs, key) == Get(a.inputs, key) {
      assert Get(b.inputs, key) == Get(a.inputs, key);
    }
  }

  /* ---------- one plan, one resource ---------- */

  lemma DesiredIs(urn: Urn, plan: ResourcePlan, prior: Option<Row>, catalog: Catalog)
    requires Desired(urn, plan, prior, catalog).Ok?
    ensures var desired := Desired(urn, plan, prior, catalog).value;
            && (desired.None? <==> plan.steps == DELETE)
            && (desired.Some? ==>
                  && desired.value.urn == urn && desired.value.kind == KindOf(urn) && !desired.value.external
                  && (prior.Some? ==> desired.value.id == prior.value.id))
  {
    hide StateAccepted, GoalInputs;
    var ops := plan.steps;
    if ops != DELETE {
      var inputs := GoalInputs(plan.goal.value, prior, ops).value;
      var row := DesiredRow(urn, plan.goal.value, prior, inputs);
      assert StateAccepted(row, Planned, catalog);
      StateKind(row, Planned, catalog);
    }
  }

  lemma StateKind(row: Row, surface: Surface, catalog: Catalog)
    requires StateAccepted(row, surface, catalog)
    ensures row.kind == KindOf(row.urn)
  {
  }

  /** A resource of a permanent kind survives its operation. */
  lemma PermanentSurvives(prior: Row, desired: Option<Row>, ops: seq<string>, catalog: Catalog)
    requires OperationAccepted(Some(prior), desired, ops, catalog)
    requires desired.Some? ==> desired.value.urn == prior.urn && desired.value.id == prior.id
    requires prior.kind !in CREATABLE
    ensures desired.Some? && Descends(prior, desired.value, catalog)
  {
    hide TargetOf, Controlled, Hardened, ExclusiveTarget, Semantics;
    if desired.Some? {
      var next := desired.value;
      if ops == SAME {
        forall key | FixedKey(prior.kind, key) ensures Get(next.inputs, key) == Get(prior.inputs, key) {
          SameKeeps(prior.inputs, next.inputs, prior.kind, true, key);
        }
        SameKeeps(prior.inputs, next.inputs, prior.kind, true, MANAGED_ARNS);
        SameUnlessExclusive(prior.inputs, next.inputs, prior.kind);
      } else {
        ChangeKeepsFixed(prior, next, ops, catalog);
      }
    }
  }

  lemma SameUnlessExclusive(a: Properties, b: Properties, kind: string)
    requires Same(a, b, kind, true) && kind !in CREATABLE
    ensures kind != EXCLUSIVE ==> a == b
  {
    if kind != EXCLUSIVE {
      SameIsEqualElsewhere(a, b, kind, true);
    }
  }

  lemma ChangeKeepsFixed(prior: Row, next: Row, ops: seq<string>, catalog: Catalog)
    requires ChangeAccepted(next, Some(prior), Some(next), ops, catalog) && prior.kind == next.kind
    ensures forall key :: FixedKey(prior.kind, key) ==> Get(next.inputs, key) == Get(prior.inputs, key)
    ensures prior.kind == ROLE && MANAGED_ARNS in prior.inputs ==> MANAGED_ARNS in next.inputs
    ensures prior.kind !in {PROVIDER, EXCLUSIVE} ==>
              TargetOf(prior, catalog).Ok? && Mutable(prior.kind, TargetOf(prior, catalog).value, catalog)
  {
    hide TargetOf, Hardened, ExclusiveTarget, Mutable;
    forall key | FixedKey(prior.kind, key) ensures Get(next.inputs, key) == Get(prior.inputs, key) {
      if key !in prior.inputs.Keys + next.inputs.Keys {
        assert Get(next.inputs, key) == JNull == Get(prior.inputs, key);
      }
    }
  }

  /** Nothing of a permanent kind is created. */
  lemma NothingPermanentAppears(desired: Row, ops: seq<string>, catalog: Catalog)
    requires OperationAccepted(None, Some(desired), ops, catalog)
    ensures desired.kind in CREATABLE
  {
    hide TargetOf, Controlled, Hardened, ExclusiveTarget;
  }

  lemma SettledKeepsTarget(row: Row, after: Row, catalog: Catalog)
    requires Settled(row, after)
    ensures TargetOf(after, catalog) == TargetOf(row, catalog)
  {
    hide IamTarget, SecretTarget, ExclusiveTarget, PairTarget;
    if row.kind in {ROLE, POLICY} {
      SettledKeepsIam(row, after, catalog);
    } else if row.kind in {SECRET, VERSION} {
      SettledKeepsSecret(row, after, catalog);
    }
    SettledKeepsOthers(row, after, catalog);
  }

  lemma SettledKeepsIam(row: Row, after: Row, catalog: Catalog)
    requires Settled(row, after) && row.kind in {ROLE, POLICY}
    ensures IamTarget(after, catalog) == IamTarget(row, catalog)
  {
    hide PathAccepted, IamPrefix, Concrete, Text;
  }

  lemma SettledKeepsSecret(row: Row, after: Row, catalog: Catalog)
    requires Settled(row, after) && row.kind in {SECRET, VERSION}
    ensures SecretTarget(after, catalog) == SecretTarget(row, catalog)
  {
    hide VersionTarget, Concrete, Text;
  }

  lemma SettledKeepsOthers(row: Row, after: Row, catalog: Catalog)
    requires Settled(row, after)
    ensures ExclusiveTarget(after, catalog) == ExclusiveTarget(row, catalog)
    ensures PairTarget(after, catalog) == PairTarget(row, catalog)
  {
    hide Principals, IamPrefix, Text, StringSet;
  }

  lemma SettledKeepsControls(row: Row, after: Row, catalog: Catalog)
    requires Settled(row, after)
    ensures Controlled(after, catalog) <==> Controlled(row, catalog)
    ensures Hardened(after, catalog) <==> Hardened(row, catalog)
  {
    SettledKeepsTarget(row, after, catalog);
    hide TargetOf, ProviderInputs, IamDocuments;
  }

  lemma SettledDescends(was: Row, row: Row, after: Row, catalog: Catalog)
    requires Descends(was, row, catalog) && Settled(row, after) && was.kind !in CREATABLE
    ensures Descends(was, after, catalog)
  {
    SettledKeepsTarget(row, after, catalog);
    hide TargetOf, Mutable, Changeable;
    forall key | FixedKey(was.kind, key) ensures Get(after.inputs, key) == Get(was.inputs, key) {
      assert Get(row.inputs, key) == Get(was.inputs, key);
    }
  }

  /* ---------- one plan, the whole inventory ---------- */

  lemma PlannedRow(before: Inventory, goals: Goals, preview: Preview, catalog: Catalog, u: Urn)
    requires Accepted(before, goals, preview, catalog) && u in goals
    ensures var wanted := Wants(goals, before, catalog);
            && u in wanted
            && Desired(u, goals[u], Prior(before, u), catalog) == Ok(wanted[u])
            && OperationAccepted(Prior(before, u), wanted[u], goals[u].steps, catalog)
            && (wanted[u].Some? ==>
                 wanted[u].value.urn == u && wanted[u].value.kind == KindOf(u) && !wanted[u].value.external)
            && (wanted[u].Some? && u in before ==> wanted[u].value.id == before[u].id)
            && (u in before ==> !before[u].external)
  {
    hide Desired, OperationAccepted, ResourceShown, UnplannedAccepted, InventoryAccepted, Complete, DefaultProvider,
         UrnAccepted, KindOf;
    assert GoalAccepted(u, goals[u], before, preview, catalog);
    DesiredIs(u, goals[u], Prior(before, u), catalog);
  }

  lemma CheckpointRow(before: Inventory, catalog: Catalog, u: Urn)
    requires Admitted(before, catalog) && u in before
    ensures before[u].urn == u && before[u].kind == KindOf(u) && TargetOf(before[u], catalog).Ok?
  {
    hide ReferencesAccepted, Agree, Stacks, KindOf, PhysicalId, TargetOf;
    StateKind(before[u], Saved, catalog);
  }

  lemma Unplanned(before: Inventory, goals: Goals, preview: Preview, catalog: Catalog, u: Urn)
    requires Accepted(before, goals, preview, catalog) && u !in goals
    ensures u in before ==> before[u].external
    ensures u !in Wants(goals, before, catalog)
  {
    hide Desired, GoalAccepted, ResourceShown, InventoryAccepted, Complete;
  }

  lemma PermanentStep(before: Inventory, goals: Goals, preview: Preview, catalog: Catalog, u: Urn)
    requires Admitted(before, catalog) && Accepted(before, goals, preview, catalog) && Permanent(u)
    ensures var remaining := Remaining(before, Wants(goals, before, catalog));
            && (u in before <==> u in remaining)
            && (u in before ==> before[u].kind == KindOf(u) && remaining[u].external == before[u].external)
            && (u in before && before[u].external ==> remaining[u] == before[u])
            && (u in before && !before[u].external ==> Descends(before[u], remaining[u], catalog))
  {
    hide Accepted, Admitted, Descends, OperationAccepted, Desired, KindOf, Wants;
    if u !in goals {
      Unplanned(before, goals, preview, catalog, u);
    }
    if u in before {
      CheckpointRow(before, catalog, u);
    }
    if u in goals {
      PlannedRow(before, goals, preview, catalog, u);
      var wanted := Wants(goals, before, catalog)[u];
      if u in before {
        PermanentSurvives(before[u], wanted, goals[u].steps, catalog);
        assert Descends(before[u], wanted.value, catalog);
        DescendsOwnership(before[u], wanted.value, catalog);
      } else if wanted.Some? {
        NothingPermanentAppears(wanted.value, goals[u].steps, catalog);
      }
    }
  }

  lemma DescendsOwnership(was: Row, now: Row, catalog: Catalog)
    requires Descends(was, now, catalog)
    ensures now.external == was.external && now.kind == was.kind && now.urn == was.urn
  {
  }

  /** What an application leaves of one permanent resource. */
  ghost predicate Keeps(before: Inventory, after: Inventory, u: Urn, catalog: Catalog) {
    && (u in before <==> u in after)
    && (u in before ==> before[u].kind == after[u].kind == KindOf(u) && after[u].external == before[u].external)
    && (u in before && before[u].external ==> after[u] == before[u].(outputs := after[u].outputs))
    && (u in before && !before[u].external ==> Descends(before[u], after[u], catalog))
  }

  lemma ApplicationKeeps(before: Inventory, goals: Goals, preview: Preview, after: Inventory, catalog: Catalog, u: Urn)
    requires Applies(before, goals, preview, after, catalog) && Permanent(u)
    ensures Keeps(before, after, u, catalog)
  {
    hide Admitted, Accepted, Descends, KindOf, Remaining, Wants;
    PermanentStep(before, goals, preview, catalog, u);
    var remaining := Remaining(before, Wants(goals, before, catalog));
    if u in before {
      assert Settled(remaining[u], after[u]);
      if !before[u].external {
        DescendsOwnership(before[u], remaining[u], catalog);
        SettledDescends(before[u], remaining[u], after[u], catalog);
      }
    }
  }

  lemma StepKeeps(before: Inventory, after: Inventory, catalog: Catalog, u: Urn)
    requires Leads(before, after, catalog) && Permanent(u)
    ensures Keeps(before, after, u, catalog)
  {
    hide Applies, Keeps, Permanent;
    var goals, preview :| Applies(before, goals, preview, after, catalog);
    ApplicationKeeps(before, goals, preview, after, catalog, u);
  }

  /** Over any run nothing of a permanent kind (a role, secret, identity or AWS
      provider, exclusive attachment set or component) appears or disappears, and
      each keeps its ownership, its physical target and every input no plan may
      rewrite. */
  lemma {:induction false} RunKeeps(states: seq<Inventory>, catalog: Catalog, u: Urn)
    requires Run(states, catalog) && Permanent(u)
    ensures |states| > 1 ==> Keeps(states[0], states[|states| - 1], u, catalog)
    ensures u in states[0] <==> u in states[|states| - 1]
  {
    hide Leads, Keeps, Permanent;
    var n := |states| - 1;
    if n == 1 {
      StepKeeps(states[0], states[1], catalog, u);
      KeepsMembership(states[0], states[1], u, catalog);
    } else if n > 1 {
      RunKeeps(states[..n], catalog, u);
      StepKeeps(states[n - 1], states[n], catalog, u);
      KeepsIsTransitive(states[0], states[n - 1], states[n], u, catalog);
      KeepsMembership(states[0], states[n], u, catalog);
    }
  }

  lemma KeepsMembership(before: Inventory, after: Inventory, u: Urn, catalog: Catalog)
    requires Keeps(before, after, u, catalog)
    ensures u in before <==> u in after
  {
  }

  lemma KeepsIsTransitive(a: Inventory, b: Inventory, c: Inventory, u: Urn, catalog: Catalog)
    requires Keeps(a, b, u, catalog) && Keeps(b, c, u, catalog)
    ensures Keeps(a, c, u, catalog)
  {
    hide Descends, KindOf;
    if u in a && !a[u].external {
      DescendsIsTransitive(a[u], b[u], c[u], catalog);
    }
  }

  /* ---------- what one accepted plan enforces ---------- */

  /** No two managed resources at one target; a managed resource shares its
      target with an external reference only if it is a writable role. */
  ghost predicate OneOwner(inventory: Inventory, catalog: Catalog) {
    && (forall u, v :: u in inventory && v in inventory && u != v && Owned(inventory[u]) && Owned(inventory[v]) ==>
          !SameTarget(inventory[u], inventory[v], catalog))
    && (forall u, x :: u in inventory && x in inventory && Owned(inventory[u]) && inventory[x].external
                       && SameTarget(inventory[u], inventory[x], catalog) ==>
          && inventory[u].kind == ROLE && TargetOf(inventory[u], catalog).Ok?
          && Holder(TargetOf(inventory[u], catalog).value) in catalog.roleWrite)
  }

  predicate Owned(row: Row) {
    row.custom && !row.external
  }

  /** Every goal-managed row carries its controls, and every AWS provider is
      pinned to the account with its checks on. */
  ghost predicate Enforced(inventory: Inventory, catalog: Catalog) {
    && (forall u :: u in inventory && !inventory[u].external ==> Controlled(inventory[u], catalog))
    && (forall u :: u in inventory && inventory[u].kind == PROVIDER ==> Hardened(inventory[u], catalog))
    && (forall u :: u in inventory ==> inventory[u].kind == KindOf(u))
  }

  lemma RemainingRow(before: Inventory, goals: Goals, preview: Preview, catalog: Catalog, u: Urn)
    requires Admitted(before, catalog)
    requires Accepted(before, goals, preview, catalog) && u in Remaining(before, Wants(goals, before, catalog))
    ensures var wanted := Wants(goals, before, catalog); var row := Remaining(before, wanted)[u];
            && (row.external <==> u !in goals)
            && row.kind == KindOf(u)
            && (u !in goals ==> u in before && row == before[u])
            && (u in goals ==> u in wanted && wanted[u] == Some(row) && Controlled(row, catalog))
  {
    hide Accepted, Admitted, Wants, Controlled, KindOf, TargetOf;
    if u in before {
      CheckpointRow(before, catalog, u);
    }
    if u in goals {
      PlannedRow(before, goals, preview, catalog, u);
    } else {
      Unplanned(before, goals, preview, catalog, u);
    }
  }

  lemma RemainingHardened(before: Inventory, goals: Goals, preview: Preview, catalog: Catalog, u: Urn)
    requires Accepted(before, goals, preview, catalog) && u in Remaining(before, Wants(goals, before, catalog))
    ensures var row := Remaining(before, Wants(goals, before, catalog))[u];
            row.kind == PROVIDER ==> Hardened(row, catalog)
  {
    hide Wants, Remaining, ParentAccepted, Hardened, GoalAccepted, UnplannedAccepted, Complete, TargetOwnership;
    var remaining := Remaining(before, Wants(goals, before, catalog));
    assert InventoryAccepted(before, Wants(goals, before, catalog), catalog);
    assert ReferencesAccepted(remaining[u], remaining, catalog, false);
  }

  lemma PlanEnforces(before: Inventory, goals: Goals, preview: Preview, after: Inventory, catalog: Catalog)
    requires Applies(before, goals, preview, after, catalog)
    ensures Enforced(after, catalog)
  {
    hide Admitted, Accepted, Remaining, Wants, Controlled, Hardened, KindOf;
    var remaining := Remaining(before, Wants(goals, before, catalog));
    forall u | u in after
      ensures !after[u].external ==> Controlled(after[u], catalog)
      ensures after[u].kind == PROVIDER ==> Hardened(after[u], catalog)
      ensures after[u].kind == KindOf(u)
    {
      assert Settled(remaining[u], after[u]);
      RemainingRow(before, goals, preview, catalog, u);
      RemainingHardened(before, goals, preview, catalog, u);
      SettledKeepsControls(remaining[u], after[u], catalog);
    }
  }

  lemma SettledKeepsTargets(remaining: Inventory, after: Inventory, catalog: Catalog)
    requires Settles(remaining, after)
    ensures forall u :: u in after ==>
              Settled(remaining[u], after[u]) && TargetOf(after[u], catalog) == TargetOf(remaining[u], catalog)
  {
    hide TargetOf, Settled;
    forall u | u in after ensures TargetOf(after[u], catalog) == TargetOf(remaining[u], catalog) {
      SettledKeepsTarget(remaining[u], after[u], catalog);
    }
  }

  lemma PlanLeavesOneOwner(before: Inventory, goals: Goals, preview: Preview, after: Inventory, catalog: Catalog)
    requires Applies(before, goals, preview, after, catalog)
    ensures OneOwner(after, catalog)
  {
    hide Admitted, Accepted, Remaining, Wants, SameTarget, TargetOwnership, Settled;
    var wanted := Wants(goals, before, catalog);
    var remaining := Remaining(before, wanted);
    OwnershipAccepted(before, goals, preview, catalog);
    SettledKeepsTargets(remaining, after, catalog);
    forall u | u in remaining
      ensures Owned(remaining[u]) ==> Managed(wanted, u) && wanted[u].value == remaining[u]
      ensures remaining[u].external ==> u in before && before[u] == remaining[u]
    {
      RemainingRow(before, goals, preview, catalog, u);
    }
    RemainingHasOneOwner(before, wanted, remaining, catalog);
    SettlingKeepsOneOwner(remaining, after, catalog);
  }

  lemma RemainingHasOneOwner(before: Inventory, wanted: Wanted, remaining: Inventory, catalog: Catalog)
    requires TargetOwnership(before, wanted, catalog)
    requires forall u :: u in remaining && Owned(remaining[u]) ==> Managed(wanted, u) && wanted[u].value == remaining[u]
    requires forall u :: u in remaining && remaining[u].external ==> u in before && before[u] == remaining[u]
    ensures OneOwner(remaining, catalog)
  {
    hide TargetOf;
  }

  lemma SettlingKeepsOneOwner(remaining: Inventory, after: Inventory, catalog: Catalog)
    requires Settles(remaining, after) && OneOwner(remaining, catalog)
    ensures OneOwner(after, catalog)
  {
    SettledKeepsTargets(remaining, after, catalog);
    hide TargetOf;
    forall u | u in after
      ensures Owned(after[u]) <==> Owned(remaining[u])
      ensures after[u].kind == remaining[u].kind && after[u].external == remaining[u].external
    {
      assert Settled(remaining[u], after[u]);
    }
  }

  lemma OwnershipAccepted(before: Inventory, goals: Goals, preview: Preview, catalog: Catalog)
    requires Accepted(before, goals, preview, catalog)
    ensures TargetOwnership(before, Wants(goals, before, catalog), catalog)
  {
    hide TargetOwnership, Wants, GoalAccepted, UnplannedAccepted, Complete, ReferencesAccepted, Remaining;
  }

  /** A protected resource survives every plan. */
  lemma ProtectedSurvives(before: Inventory, goals: Goals, preview: Preview, after: Inventory, catalog: Catalog, u: Urn)
    requires Applies(before, goals, preview, after, catalog)
    requires u in before && !before[u].external && before[u].protect
    ensures u in after && OwnershipOf(after[u]) == OwnershipOf(before[u])
  {
    hide Admitted, Accepted, Wants, OperationAccepted;
    var wanted := Wants(goals, before, catalog);
    if u !in goals {
      Unplanned(before, goals, preview, catalog, u);
    }
    PlannedRow(before, goals, preview, catalog, u);
    NeverDeleted(before[u], wanted[u], goals[u].steps, catalog);
    assert Remaining(before, wanted)[u] == wanted[u].value;
    assert Settled(wanted[u].value, after[u]);
  }

  lemma NeverDeleted(prior: Row, desired: Option<Row>, ops: seq<string>, catalog: Catalog)
    requires OperationAccepted(Some(prior), desired, ops, catalog) && prior.protect
    ensures desired.Some? && OwnershipOf(prior) == OwnershipOf(desired.value) && ops !in REPLACEMENTS
  {
    hide TargetOf, Controlled, Hardened, ExclusiveTarget, Semantics;
  }

  /** A hardened provider keeps its inputs to the letter. */
  lemma HardenedStays(prior: Row, desired: Row, ops: seq<string>, catalog: Catalog)
    requires OperationAccepted(Some(prior), Some(desired), ops, catalog)
    requires prior.kind == PROVIDER && Hardened(prior, catalog)
    ensures desired.inputs == prior.inputs
  {
    hide TargetOf, Controlled;
    if ops == SAME {
      SameIsEqualElsewhere(prior.inputs, desired.inputs, PROVIDER, true);
    } else {
      LegacyIsNotHardened(prior, catalog);
    }
  }

  lemma LegacyIsNotHardened(row: Row, catalog: Catalog)
    ensures !(row.inputs == LegacyInputs(catalog) && Hardened(row, catalog))
  {
    var flag := "skipRegionValidation";
    assert flag in VALIDATION_FLAGS && flag in LegacyInputs(catalog);
    if Hardened(row, catalog) {
      assert Get(row.inputs - {"__internal"}, flag) in {JBool(false), JText("false")};
      assert row.inputs == LegacyInputs(catalog) ==> Get(row.inputs - {"__internal"}, flag) == JText("true");
    }
  }

  lemma ProvidersFreeze(before: Inventory, goals: Goals, preview: Preview, after: Inventory, catalog: Catalog, u: Urn)
    requires Applies(before, goals, preview, after, catalog)
    requires u in before && before[u].kind == PROVIDER && Hardened(before[u], catalog)
    ensures u in after && after[u].inputs == before[u].inputs && after[u].kind == PROVIDER
  {
    hide Admitted, Accepted, Wants, OperationAccepted, Descends, Hardened, KindOf, Remaining;
    var wanted := Wants(goals, before, catalog);
    CheckpointRow(before, catalog, u);
    ApplicationKeeps(before, goals, preview, after, catalog, u);
    if !before[u].external {
      DescendsOwnership(before[u], after[u], catalog);
      if u !in goals {
        Unplanned(before, goals, preview, catalog, u);
      }
      PlannedRow(before, goals, preview, catalog, u);
      RemainingRow(before, goals, preview, catalog, u);
      HardenedStays(before[u], wanted[u].value, goals[u].steps, catalog);
      assert Settled(Remaining(before, wanted)[u], after[u]);
    }
  }

  /* ---------- over runs ---------- */

  /** After any plan, every later checkpoint is enforced and has one owner per
      target. */
  lemma RunsEnforce(states: seq<Inventory>, catalog: Catalog)
    requires Run(states, catalog) && |states| > 1
    ensures Enforced(states[|states| - 1], catalog) && OneOwner(states[|states| - 1], catalog)
  {
    hide Applies, Enforced, OneOwner;
    var n := |states| - 1;
    assert Leads(states[n - 1], states[n], catalog);
    var goals, preview :| Applies(states[n - 1], goals, preview, states[n], catalog);
    PlanEnforces(states[n - 1], goals, preview, states[n], catalog);
    PlanLeavesOneOwner(states[n - 1], goals, preview, states[n], catalog);
  }

  lemma RunPrefix(states: seq<Inventory>, catalog: Catalog)
    requires Run(states, catalog) && |states| > 1
    ensures Run(states[..|states| - 1], catalog)
    ensures Leads(states[|states| - 2], states[|states| - 1], catalog)
  {
    hide Leads;
  }

  /** Over any run a protected resource is never deleted or replaced out of its
      ownership. */
  lemma {:induction false} ProtectedStays(states: seq<Inventory>, catalog: Catalog, u: Urn)
    requires Run(states, catalog)
    requires u in states[0] && !states[0][u].external && states[0][u].protect
    ensures u in states[|states| - 1] && OwnershipOf(states[|states| - 1][u]) == OwnershipOf(states[0][u])
  {
    assert states != [];
    hide Run, Applies;
    if |states| > 1 {
      var n := |states| - 1;
      RunPrefix(states, catalog);
      ProtectedStays(states[..n], catalog, u);
      var goals, preview :| Applies(states[n - 1], goals, preview, states[n], catalog);
      ProtectedSurvives(states[n - 1], goals, preview, states[n], catalog, u);
    }
  }

  /** Lifecycle rules let a plan delete an IAM policy, but only the first plan of
      a run can: it leaves every policy protected. */
  lemma PoliciesStay(states: seq<Inventory>, catalog: Catalog, u: Urn)
    requires Run(states, catalog) && |states| > 1
    requires u in states[1] && !states[1][u].external && states[1][u].kind == POLICY
    ensures u in states[|states| - 1] && states[|states| - 1][u].protect
  {
    hide Leads, Enforced;
    assert Run(states[..2], catalog);
    RunsEnforce(states[..2], catalog);
    EnforcedPolicy(states[1], catalog, u);
    assert Run(states[1..], catalog) by {
      forall i | 0 <= i < |states[1..]| - 1 ensures Leads(states[1..][i], states[1..][i + 1], catalog) {
        assert Leads(states[i + 1], states[i + 2], catalog);
      }
    }
    ProtectedStays(states[1..], catalog, u);
  }

  lemma EnforcedPolicy(inventory: Inventory, catalog: Catalog, u: Urn)
    requires Enforced(inventory, catalog) && u in inventory && !inventory[u].external && inventory[u].kind == POLICY
    ensures inventory[u].protect
  {
    assert Controlled(inventory[u], catalog);
  }

  /** From the first plan on, provider settings never change again. */
  lemma {:induction false} ProvidersStay(states: seq<Inventory>, catalog: Catalog, u: Urn)
    requires Run(states, catalog) && |states| > 1
    requires u in states[1] && states[1][u].kind == PROVIDER
    ensures u in states[|states| - 1] && states[|states| - 1][u].kind == PROVIDER
    ensures states[|states| - 1][u].inputs == states[1][u].inputs
  {
    hide Run, Applies, Enforced, OneOwner;
    if |states| > 2 {
      var n := |states| - 1;
      RunPrefix(states, catalog);
      ProvidersStay(states[..n], catalog, u);
      RunsEnforce(states[..n], catalog);
      EnforcedProvider(states[n - 1], catalog, u);
      var goals, preview :| Applies(states[n - 1], goals, preview, states[n], catalog);
      ProvidersFreeze(states[n - 1], goals, preview, states[n], catalog, u);
    }
  }

  lemma EnforcedProvider(inventory: Inventory, catalog: Catalog, u: Urn)
    requires Enforced(inventory, catalog) && u in inventory && inventory[u].kind == PROVIDER
    ensures Hardened(inventory[u], catalog)
  {
    hide Hardened, Controlled;
  }

  /** Every later checkpoint gives a managed role the catalog's boundary and, where
      the catalog froze it, the recorded trust policy; and once its attachments
      are managed they stay so, with all guards and nothing above the ceiling. */
  lemma GuardsStay(states: seq<Inventory>, catalog: Catalog, u: Urn)
    requires Run(states, catalog) && |states| > 1
    requires KindOf(u) == ROLE && u in states[0] && !states[0][u].external
    ensures var role := states[|states| - 1];
            && u in role && !role[u].external
            && TargetOf(role[u], catalog) == TargetOf(states[0][u], catalog) && TargetOf(role[u], catalog).Ok?
            && var principal := PrincipalOf(catalog, Holder(TargetOf(role[u], catalog).value));
               && principal.Some?
               && Get(role[u].inputs, BOUNDARY) == JText(principal.value.boundary)
               && (principal.value.frozen.Some? ==>
                     ParsesTo(Get(role[u].inputs, "assumeRolePolicy"), principal.value.frozen.value.trust, catalog))
               && (MANAGED_ARNS in states[0][u].inputs ==>
                     && StringSet(Get(role[u].inputs, MANAGED_ARNS)).Ok?
                     && principal.value.guards <= StringSet(Get(role[u].inputs, MANAGED_ARNS)).value
                     && StringSet(Get(role[u].inputs, MANAGED_ARNS)).value
                        <= principal.value.attachments + catalog.policyWrite)
  {
    hide Run, TargetOf, ParsesTo, FrozenInline, IamDocuments, OneOwner;
    RunKeeps(states, catalog, u);
    RunsEnforce(states, catalog);
    assert Controlled(states[|states| - 1][u], catalog);
  }

  /** From the first plan on, the exclusive set lists the full inventory of the
      same role. */
  lemma FullInventoryStays(states: seq<Inventory>, catalog: Catalog, u: Urn)
    requires Run(states, catalog) && |states| > 1
    requires KindOf(u) == EXCLUSIVE && u in states[0] && !states[0][u].external
    ensures var last := states[|states| - 1];
            && u in last && FullInventory(last[u], catalog)
            && TargetOf(last[u], catalog) == TargetOf(states[0][u], catalog)
  {
    hide Run, TargetOf, FullInventory, OneOwner;
    RunKeeps(states, catalog, u);
    RunsEnforce(states, catalog);
    assert Controlled(states[|states| - 1][u], catalog);
  }

  /** A role that shares its target with an external reference was managed all
      along: sharing never begins within a run. */
  lemma SharedRolesAreOriginal(states: seq<Inventory>, catalog: Catalog, u: Urn, x: Urn)
    requires Run(states, catalog) && |states| > 1
    requires var last := states[|states| - 1];
             u in last && x in last && Owned(last[u]) && last[x].external && SameTarget(last[u], last[x], catalog)
    ensures u in states[0]
  {
    hide Run, TargetOf, Controlled, Hardened, Keeps;
    RunsEnforce(states, catalog);
    RunKeeps(states, catalog, u);
  }
}
