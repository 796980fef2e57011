/** A saved plan against the preview of it (scripts/operator_plan_validation.py):
    the preview's steps grouped and counted, every state it shows compared with
    checkpoint and plan, and the inventory the plan leaves. */
module PlanPreview {
  import opened Wrappers
  import opened JsonValues
  import opened Properties
  import opened PlanRules
  import opened Checkpoint

  const READ := "read"
  const REFRESH := "refresh"
  const OPERATIONS := {"same", "update", "create", "delete", "replace", "create-replacement", "delete-replaced", READ,
                       REFRESH}

  datatype PreviewRow = PreviewRow(
    op: string,
    urn: Urn,
    oldState: Option<Row>,
    newState: Option<Row>,
    provider: Option<Reference>)

  predicate DefaultProvider(urn: Urn) {
    KindOf(urn) == PROVIDER && "default" <= urn.name
  }

  /* ---------- the listing of steps ---------- */

  /** The steps shown for one resource, in order. */
  function Shows(steps: seq<PreviewRow>, urn: Urn): seq<PreviewRow> {
    if steps == [] then []
    else
      var n := |steps| - 1;
      Shows(steps[..n], urn) + if steps[n].urn == urn then [steps[n]] else []
  }

  /** Steps the change summary counts under their own operation. */
  predicate Counted(op: string) {
    op !in {READ, "create-replacement", "delete-replaced", REFRESH}
  }

  function Histogram(steps: seq<PreviewRow>): multiset<string> {
    if steps == [] then multiset{}
    else
      var n := |steps| - 1;
      Histogram(steps[..n]) + if Counted(steps[n].op) then multiset{steps[n].op} else multiset{}
  }

  function Reads(steps: seq<PreviewRow>): nat {
    if steps == [] then 0
    else
      var n := |steps| - 1;
      Reads(steps[..n]) + if steps[n].op == READ then 1 else 0
  }

  function Tally(summary: map<string, nat>, op: string): nat {
    if op in summary then summary[op] else 0
  }

  predicate SummaryAccepted(summary: map<string, nat>, counts: multiset<string>, readCount: nat) {
    && Tally(summary, READ) <= readCount
    && (forall op :: op in summary && op != READ ==> Tally(summary, op) == counts[op])
    && (forall op :: op in counts ==> Tally(summary, op) == counts[op])
  }

  predicate StepAccepted(step: PreviewRow, catalog: Catalog) {
    UrnAccepted(step.urn, catalog) && step.op in OPERATIONS && !DefaultProvider(step.urn)
  }

  ghost predicate StepsAccepted(steps: seq<PreviewRow>, catalog: Catalog) {
    && (forall i :: 0 <= i < |steps| ==> StepAccepted(steps[i], catalog))
    && (forall i, j :: 0 <= i < j < |steps| && steps[i].urn == steps[j].urn ==> steps[i].op != steps[j].op)
  }

  type Preview = map<Urn, seq<PreviewRow>>

  ghost predicate Groups(preview: Preview, steps: seq<PreviewRow>) {
    && (forall u :: u in preview ==> preview[u] == Shows(steps, u) != [])
    && (forall step :: step in steps ==> step.urn in preview)
  }

  lemma {:induction false} ShowsMembers(steps: seq<PreviewRow>, urn: Urn, step: PreviewRow)
    ensures step in Shows(steps, urn) <==> step in steps && step.urn == urn
  {
    if steps != [] {
      ShowsMembers(steps[..|steps| - 1], urn, step);
      assert step in steps <==> step in steps[..|steps| - 1] || step == steps[|steps| - 1];
    }
  }

  lemma ShowsSnoc(steps: seq<PreviewRow>, step: PreviewRow, urn: Urn)
    ensures Shows(steps + [step], urn) == Shows(steps, urn) + if step.urn == urn then [step] else []
  {
    assert (steps + [step])[..|steps|] == steps;
  }

  lemma StepsSnoc(steps: seq<PreviewRow>, step: PreviewRow, rows: seq<PreviewRow>, catalog: Catalog)
    requires StepsAccepted(steps, catalog) && forall r :: r in rows <==> r in steps && r.urn == step.urn
    ensures StepsAccepted(steps + [step], catalog)
       <==> StepAccepted(step, catalog) && forall r :: r in rows ==> r.op != step.op
  {
    hide StepAccepted;
    var all := steps + [step];
    if StepsAccepted(all, catalog) {
      assert all[|steps|] == step;
      forall r | r in rows ensures r.op != step.op {
        var i :| 0 <= i < |steps| && steps[i] == r;
        assert all[i] == r;
      }
    }
    if StepAccepted(step, catalog) && forall r :: r in rows ==> r.op != step.op {
      assert forall i :: 0 <= i < |steps| ==> all[i] == steps[i] && steps[i] in steps;
    }
  }

  lemma GroupsSnoc(preview: Preview, steps: seq<PreviewRow>, step: PreviewRow)
    requires Groups(preview, steps)
    ensures Groups(preview[step.urn := Shows(steps, step.urn) + [step]], steps + [step])
    ensures step.urn !in preview ==> Shows(steps, step.urn) == []
  {
    var after := preview[step.urn := Shows(steps, step.urn) + [step]];
    forall u | u in after ensures after[u] == Shows(steps + [step], u) {
      ShowsSnoc(steps, step, u);
    }
    if step.urn !in preview && Shows(steps, step.urn) != [] {
      ShowsMembers(steps, step.urn, Shows(steps, step.urn)[0]);
    }
  }

  lemma CountsSnoc(steps: seq<PreviewRow>, step: PreviewRow)
    ensures Histogram(steps + [step]) == Histogram(steps) + if Counted(step.op) then multiset{step.op} else multiset{}
    ensures Reads(steps + [step]) == Reads(steps) + if step.op == READ then 1 else 0
  {
    assert (steps + [step])[..|steps|] == steps;
  }

  /** The loop over the steps: group them by resource, count them, and compare
      the counts with the summary. */
  method PreviewSteps(steps: seq<PreviewRow>, summary: map<string, nat>, catalog: Catalog) returns (r: Result<Preview>)
    ensures r.Ok? <==> && steps != [] && StepsAccepted(steps, catalog)
                       && SummaryAccepted(summary, Histogram(steps), Reads(steps))
    ensures r.Ok? ==> Groups(r.value, steps)
  {
    hide StepAccepted, StepsAccepted, Groups, SummaryAccepted, Shows, Histogram, Reads;
    if steps == [] {
      return Rejected;
    }
    var result: Preview := map[];
    var counts: multiset<string> := multiset{};
    var readCount := 0;
    NoSteps(catalog);
    for i := 0 to |steps|
      invariant StepsAccepted(steps[..i], catalog) && Groups(result, steps[..i])
      invariant counts == Histogram(steps[..i]) && readCount == Reads(steps[..i])
    {
      var step := steps[i];
      ghost var before := steps[..i];
      assert steps[..i + 1] == before + [step];
      GroupsSnoc(result, before, step);
      CountsSnoc(before, step);
      Retrieved(result, before, step.urn);
      var rows := if step.urn in result then result[step.urn] else [];
      StepsSnoc(before, step, rows, catalog);
      if !StepAccepted(step, catalog) || exists k :: 0 <= k < |rows| && rows[k].op == step.op {
        PrefixAccepted(steps, i + 1, catalog);
        return Rejected;
      }
      if step.op == READ {
        readCount := readCount + 1;
      } else if Counted(step.op) {
        counts := counts + multiset{step.op};
      }
      result := result[step.urn := rows + [step]];
    }
    assert steps[..|steps|] == steps;
    return if SummaryAccepted(summary, counts, readCount) then Ok(result) else Rejected;
  }

  lemma NoSteps(catalog: Catalog)
    ensures StepsAccepted([], catalog) && Groups(map[], []) && Histogram([]) == multiset{} && Reads([]) == 0
  {
  }

  lemma Retrieved(preview: Preview, steps: seq<PreviewRow>, urn: Urn)
    requires Groups(preview, steps)
    ensures (if urn in preview then preview[urn] else []) == Shows(steps, urn)
    ensures forall r :: r in Shows(steps, urn) <==> r in steps && r.urn == urn
  {
    forall r ensures r in Shows(steps, urn) <==> r in steps && r.urn == urn {
      ShowsMembers(steps, urn, r);
    }
    if urn !in preview && Shows(steps, urn) != [] {
      assert Shows(steps, urn)[0] in Shows(steps, urn);
    }
  }

  lemma PrefixAccepted(steps: seq<PreviewRow>, i: nat, catalog: Catalog)
    requires i <= |steps|
    ensures StepsAccepted(steps, catalog) ==> StepsAccepted(steps[..i], catalog)
  {
    hide StepAccepted;
  }

  /* ---------- what a preview shows of one resource ---------- */

  /** An external identity provider's empty new-side read. */
  predicate ReadPlaceholder(row: Row, expected: Row, isNew: bool, op: string) {
    && isNew && op == READ && row.kind == OIDC && row.external && expected.external
    && row.inputs == map[] && row.outputs == map[] && row.id == expected.id
  }

  predicate LooksAlike(a: Properties, b: Properties, kind: string, inputs: bool) {
    Shown(a, kind, inputs).Ok? && Shown(a, kind, inputs) == Shown(b, kind, inputs)
  }

  predicate StateShown(row: Row, expected: Row, isNew: bool, op: string, catalog: Catalog) {
    && StateAccepted(row, Previewed, catalog)
    && row.urn == expected.urn && OwnershipOf(row) == OwnershipOf(expected)
    && Shown(row.inputs, row.kind, true).Ok? && Shown(expected.inputs, row.kind, true).Ok?
    && (Shown(row.inputs, row.kind, true) == Shown(expected.inputs, row.kind, true)
         || ReadPlaceholder(row, expected, isNew, op))
    && (!isNew ==> row.id == expected.id && LooksAlike(row.outputs, expected.outputs, row.kind, false))
    && (isNew && row.id != "" && row.id != UNKNOWN ==> row.id == expected.id)
    && (expected.external ==> row.id == expected.id)
  }

  function ProviderOf(row: Option<Row>): Option<Reference> {
    if row.Some? then row.value.provider else None
  }

  predicate StatesShown(row: PreviewRow, before: Option<Row>, after: Option<Row>, catalog: Catalog) {
    && (row.oldState.Some? <==> before.Some?)
    && (before.Some? ==> StateShown(row.oldState.value, before.value, false, row.op, catalog))
    && (row.newState.Some? <==> after.Some?)
    && (after.Some? ==> StateShown(row.newState.value, after.value, true, row.op, catalog))
    && row.provider == ProviderOf(if after.Some? then after else before)
  }

  predicate RefreshShown(row: PreviewRow, prior: Option<Row>, catalog: Catalog) {
    && prior.Some?
    && LooksAlike(if row.newState.Some? then row.newState.value.outputs else map[],
                  prior.value.outputs, prior.value.kind, false)
    && StatesShown(row, prior, prior, catalog)
  }

  predicate RowShown(row: PreviewRow, prior: Option<Row>, desired: Option<Row>, catalog: Catalog) {
    if row.op == REFRESH then RefreshShown(row, prior, catalog)
    else StatesShown(row, prior, if row.op in {"delete", "delete-replaced"} then None else desired, catalog)
  }

  /** The planned operations, refreshes aside. */
  function PlannedOps(rows: seq<PreviewRow>): seq<string> {
    if rows == [] then []
    else
      var n := |rows| - 1;
      PlannedOps(rows[..n]) + if rows[n].op == REFRESH then [] else [rows[n].op]
  }

  predicate ResourceShown(rows: seq<PreviewRow>, prior: Option<Row>, desired: Option<Row>, ops: seq<string>,
                          catalog: Catalog)
  {
    && PlannedOps(rows) == ops
    && forall row :: row in rows ==> RowShown(row, prior, desired, catalog)
  }

  /* ---------- the inventory a plan leaves ---------- */

  type Goals = map<Urn, ResourcePlan>

  function Prior(resources: Inventory, urn: Urn): Option<Row> {
    if urn in resources then Some(resources[urn]) else None
  }

  predicate GoalAccepted(urn: Urn, plan: ResourcePlan, resources: Inventory, preview: Preview, catalog: Catalog) {
    && UrnAccepted(urn, catalog)
    && (urn in resources ==> !resources[urn].external)
    && var prior := Prior(resources, urn);
       var desired := Desired(urn, plan, prior, catalog);
       && desired.Ok?
       && OperationAccepted(prior, desired.value, plan.steps, catalog)
       && (!DefaultProvider(urn) ==>
            urn in preview && ResourceShown(preview[urn], prior, desired.value, plan.steps, catalog))
  }

  predicate UnplannedAccepted(urn: Urn, resources: Inventory, preview: Preview, catalog: Catalog)
    requires urn in resources
  {
    && resources[urn].external
    && urn in preview
    && ResourceShown(preview[urn], Some(resources[urn]), Some(resources[urn]), [READ], catalog)
  }

  type Wanted = map<Urn, Option<Row>>

  function Wants(goals: Goals, resources: Inventory, catalog: Catalog): Wanted {
    map u | u in goals && Desired(u, goals[u], Prior(resources, u), catalog).Ok? ::
      Desired(u, goals[u], Prior(resources, u), catalog).value
  }

  /** The externals, untouched, and every wanted row. */
  function Remaining(resources: Inventory, wanted: Wanted): Inventory {
    (map u | u in resources && resources[u].external :: resources[u])
    + map u | u in wanted && wanted[u].Some? :: wanted[u].value
  }

  predicate SameTarget(a: Row, b: Row, catalog: Catalog) {
    a.kind == b.kind && TargetOf(a, catalog) == TargetOf(b, catalog)
  }

  predicate Managed(wanted: Wanted, urn: Urn) {
    urn in wanted && wanted[urn].Some? && wanted[urn].value.custom
  }

  predicate RetainedRole(urn: Urn, row: Row, resources: Inventory, catalog: Catalog) {
    && row.kind == ROLE
    && urn in resources
    && resources[urn].kind == ROLE && resources[urn].urn == urn && resources[urn].custom && !resources[urn].external
    && TargetOf(resources[urn], catalog).Ok? && TargetOf(resources[urn], catalog) == TargetOf(row, catalog)
    && Holder(TargetOf(resources[urn], catalog).value) in catalog.roleWrite
  }

  predicate TargetOwnership(resources: Inventory, wanted: Wanted, catalog: Catalog) {
    && (forall u, v :: u in wanted && v in wanted && u != v && Managed(wanted, u) && Managed(wanted, v) ==>
          !SameTarget(wanted[u].value, wanted[v].value, catalog))
    && (forall u, x :: u in wanted && x in resources && Managed(wanted, u) && resources[x].external
                       && SameTarget(wanted[u].value, resources[x], catalog) ==>
          RetainedRole(u, wanted[u].value, resources, catalog))
  }

  predicate InventoryAccepted(resources: Inventory, wanted: Wanted, catalog: Catalog) {
    && TargetOwnership(resources, wanted, catalog)
    && var remaining := Remaining(resources, wanted);
       forall u :: u in remaining ==> ReferencesAccepted(remaining[u], remaining, catalog, false)
  }

  predicate Complete(resources: Inventory, goals: Goals, preview: Preview) {
    && (forall u :: u in resources && !resources[u].external ==> u in goals)
    && preview.Keys == set u | u in resources.Keys + goals.Keys && !DefaultProvider(u)
  }

  /** What acceptance of a plan means, on the maps it was read into. */
  predicate Accepted(resources: Inventory, goals: Goals, preview: Preview, catalog: Catalog) {
    && goals != map[]
    && Complete(resources, goals, preview)
    && (forall u :: u in goals ==> GoalAccepted(u, goals[u], resources, preview, catalog))
    && (forall u :: u in resources && u !in goals ==> UnplannedAccepted(u, resources, preview, catalog))
    && InventoryAccepted(resources, Wants(goals, resources, catalog), catalog)
  }

  /* ---------- the validator ---------- */

  datatype Entry = Entry(urn: Urn, plan: ResourcePlan)

  function GoalsOf(entries: seq<Entry>): Goals {
    if entries == [] then map[]
    else
      var n := |entries| - 1;
      GoalsOf(entries[..n])[entries[n].urn := entries[n].plan]
  }

  ghost predicate DistinctEntries(entries: seq<Entry>) {
    forall i, j :: 0 <= i < j < |entries| ==> entries[i].urn != entries[j].urn
  }

  lemma {:induction false} GoalsHold(entries: seq<Entry>, i: nat)
    requires DistinctEntries(entries) && i < |entries|
    ensures entries[i].urn in GoalsOf(entries) && GoalsOf(entries)[entries[i].urn] == entries[i].plan
  {
    if i < |entries| - 1 {
      GoalsHold(entries[..|entries| - 1], i);
    }
  }

  lemma {:induction false} GoalsMember(entries: seq<Entry>, urn: Urn) returns (i: nat)
    requires urn in GoalsOf(entries)
    ensures i < |entries| && entries[i].urn == urn
  {
    var n := |entries| - 1;
    if entries[n].urn == urn {
      i := n;
    } else {
      i := GoalsMember(entries[..n], urn);
    }
  }

  lemma {:induction false} GoalsInclude(entries: seq<Entry>, i: nat)
    requires i < |entries|
    ensures entries[i].urn in GoalsOf(entries)
  {
    if i < |entries| - 1 {
      GoalsInclude(entries[..|entries| - 1], i);
    }
  }

  lemma NoEntries()
    ensures GoalsOf([]) == map[] && DistinctEntries([])
  {
  }

  lemma EntriesSnoc(entries: seq<Entry>, i: nat)
    requires i < |entries| && DistinctEntries(entries[..i])
    ensures GoalsOf(entries[..i + 1]) == GoalsOf(entries[..i])[entries[i].urn := entries[i].plan]
    ensures entries[i].urn in GoalsOf(entries[..i]) ==> !DistinctEntries(entries)
    ensures entries[i].urn !in GoalsOf(entries[..i]) ==> DistinctEntries(entries[..i + 1])
  {
    var less, more := entries[..i], entries[..i + 1];
    assert more[..i] == less && more[i] == entries[i];
    hide GoalsOf;
    if entries[i].urn in GoalsOf(less) {
      var k := GoalsMember(less, entries[i].urn);
      assert entries[k].urn == entries[i].urn;
    } else {
      forall k | 0 <= k < i ensures more[k].urn != entries[i].urn {
        GoalsInclude(less, k);
      }
    }
  }

  /** The entries as a dictionary: a repeated member is refused. */
  method ReadGoals(entries: seq<Entry>) returns (r: Result<Goals>)
    ensures r.Ok? <==> DistinctEntries(entries)
    ensures r.Ok? ==> r.value == GoalsOf(entries)
  {
    hide GoalsOf, DistinctEntries;
    var goals: Goals := map[];
    NoEntries();
    for i := 0 to |entries|
      invariant goals == GoalsOf(entries[..i]) && DistinctEntries(entries[..i])
    {
      EntriesSnoc(entries, i);
      if entries[i].urn in goals {
        return Rejected;
      }
      goals := goals[entries[i].urn := entries[i].plan];
    }
    assert entries[..|entries|] == entries;
    return Ok(goals);
  }

  /** The loop over the goals fills `desired`; whatever is left must be an
      external reference that was only read. */
  method ValidateResources(resources: Inventory, entries: seq<Entry>, goals: Goals, preview: Preview, catalog: Catalog)
    returns (ok: bool)
    requires DistinctEntries(entries) && goals == GoalsOf(entries)
    ensures ok <==> && (forall u :: u in goals ==> GoalAccepted(u, goals[u], resources, preview, catalog))
                    && (forall u :: u in resources && u !in goals ==> UnplannedAccepted(u, resources, preview, catalog))
                    && InventoryAccepted(resources, Wants(goals, resources, catalog), catalog)
  {
    hide GoalsOf, OperationAccepted, ResourceShown, Desired, UnplannedAccepted, InventoryAccepted, DefaultProvider,
         UrnAccepted;
    var desired: Wanted := map[];
    for i := 0 to |entries|
      invariant forall k :: 0 <= k < i ==> GoalAccepted(entries[k].urn, entries[k].plan, resources, preview, catalog)
      invariant forall k :: 0 <= k < i ==> entries[k].urn in desired
      invariant forall u :: u in desired ==>
                u in goals && Desired(u, goals[u], Prior(resources, u), catalog) == Ok(desired[u])
    {
      var urn, plan := entries[i].urn, entries[i].plan;
      GoalsHold(entries, i);
      var prior := Prior(resources, urn);
      var wanted := Desired(urn, plan, prior, catalog);
      if !GoalAccepted(urn, plan, resources, preview, catalog) {
        return false;
      }
      desired := desired[urn := wanted.value];
    }
    AllFilled(resources, entries, goals, preview, catalog, desired);
    if exists u :: u in resources && u !in goals && !UnplannedAccepted(u, resources, preview, catalog) {
      return false;
    }
    return InventoryAccepted(resources, desired, catalog);
  }

  lemma AllFilled(resources: Inventory, entries: seq<Entry>, goals: Goals, preview: Preview, catalog: Catalog,
                  desired: Wanted)
    requires DistinctEntries(entries) && goals == GoalsOf(entries)
    requires forall k :: 0 <= k < |entries| ==>
              GoalAccepted(entries[k].urn, entries[k].plan, resources, preview, catalog)
    requires forall k :: 0 <= k < |entries| ==> entries[k].urn in desired
    requires forall u :: u in desired ==>
              u in goals && Desired(u, goals[u], Prior(resources, u), catalog) == Ok(desired[u])
    ensures desired == Wants(goals, resources, catalog)
    ensures forall u :: u in goals ==> GoalAccepted(u, goals[u], resources, preview, catalog)
  {
    hide GoalsOf, Desired, GoalAccepted;
    forall u | u in goals ensures u in desired && GoalAccepted(u, goals[u], resources, preview, catalog) {
      var k := GoalsMember(entries, u);
      GoalsHold(entries, k);
    }
  }

  /** The whole validation; it returns the resources a plan changes. */
  method ValidatePlan(rows: seq<Row>, entries: seq<Entry>, steps: seq<PreviewRow>, summary: map<string, nat>,
                      catalog: Catalog)
    returns (r: Result<set<Urn>>)
    ensures r.Ok? <==> && DistinctUrns(rows) && Admitted(InventoryOf(rows), catalog)
                       && DistinctEntries(entries)
                       && steps != [] && StepsAccepted(steps, catalog)
                       && SummaryAccepted(summary, Histogram(steps), Reads(steps))
                       && exists preview :: Groups(preview, steps)
                            && Accepted(InventoryOf(rows), GoalsOf(entries), preview, catalog)
    ensures r.Ok? ==> r.value == set u | u in GoalsOf(entries) && GoalsOf(entries)[u].steps != SAME
  {
    hide InventoryOf, GoalsOf, Admitted, DistinctUrns, DistinctEntries, StepsAccepted, SummaryAccepted, Groups,
         Histogram, Reads, GoalAccepted, UnplannedAccepted, InventoryAccepted, Complete;
    var resources := ReadCheckpoint(rows, catalog);
    var goals := ReadGoals(entries);
    var preview := PreviewSteps(steps, summary, catalog);
    if resources.Rejected? || goals.Rejected? || preview.Rejected? {
      return Rejected;
    }
    forall other | Groups(other, steps) ensures other == preview.value {
      GroupingIsUnique(other, preview.value, steps);
    }
    if goals.value == map[] || !Complete(resources.value, goals.value, preview.value) {
      return Rejected;
    }
    var ok := ValidateResources(resources.value, entries, goals.value, preview.value, catalog);
    if !ok {
      return Rejected;
    }
    return Ok(set u | u in goals.value && goals.value[u].steps != SAME);
  }

  lemma GroupingIsUnique(a: Preview, b: Preview, steps: seq<PreviewRow>)
    requires Groups(a, steps) && Groups(b, steps)
    ensures a == b
  {
    forall u | u in a ensures u in b {
      ShowsMembers(steps, u, a[u][0]);
    }
    forall u | u in b ensures u in a {
      ShowsMembers(steps, u, b[u][0]);
    }
  }
}
