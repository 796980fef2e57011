/** What a saved operator plan may do to one resource
    (scripts/operator_plan_validation.py): physical targets from the seed
    catalog, goals as input diffs, lifecycles, and the controls every planned
    resource must show. */
module PlanRules {
  import opened Wrappers
  import opened JsonValues
  import opened Properties

  const PROJECT := "github-ci-bootstrap"
  const ROLE := "aws:iam/role:Role"
  const POLICY := "aws:iam/policy:Policy"
  const SECRET := "aws:secretsmanager/secret:Secret"
  const OIDC := "aws:iam/openIdConnectProvider:OpenIdConnectProvider"
  const PROVIDER := "pulumi:providers:aws"
  const STACK := "pulumi:pulumi:Stack"
  const EXCLUSIVE_NAME := "github-automation-managed-policy-attachments-exclusive"
  const LEGACY_NAME := "default_7_23_0"

  const MANAGED_ARNS := "managedPolicyArns"
  const BOUNDARY := "permissionsBoundary"

  /** A URN by its parts; `types` is the parent-qualified type, outermost first. */
  datatype Urn = Urn(environment: string, project: string, types: seq<string>, name: string)

  datatype Reference = Reference(urn: Urn, id: string)

  datatype Row = Row(
    urn: Urn,
    kind: string,
    custom: bool,
    id: string,
    inputs: Properties,
    outputs: Properties,
    parent: Option<Urn>,
    provider: Option<Reference>,
    protect: bool,
    external: bool,
    dependencies: set<Urn>,
    secretOutputs: set<string>)

  /** Where a row was read: the per-type field shapes differ a little. */
  datatype Surface = Saved | Planned | Previewed

  datatype Frozen = Frozen(trust: Json, inlinePolicies: map<string, Json>)

  datatype Principal = Principal(arn: string, boundary: string, attachments: set<string>, guards: set<string>,
                                 frozen: Option<Frozen>)

  /** The hash-pinned seed catalog, with the readers the rules use: JSON policy
      text, a secret's name in its ARN, and the per-type field shapes. */
  datatype Catalog = Catalog(
    environment: string,
    accountId: string,
    region: string,
    roleRead: set<string>,
    roleWrite: set<string>,
    policyRead: set<string>,
    policyWrite: set<string>,
    secrets: seq<string>,
    oidc: string,
    principals: seq<Principal>,
    parse: string -> Option<Json>,
    secretName: string -> Option<string>,
    shaped: (Row, Surface) -> bool)

  /* ---------- rows ---------- */

  predicate UrnAccepted(urn: Urn, catalog: Catalog) {
    && urn.environment == catalog.environment
    && urn.project == PROJECT
    && urn.types != [] && urn.types != [""]
    && urn.name != ""
  }

  function KindOf(urn: Urn): string {
    if urn.types == [] then "" else urn.types[|urn.types| - 1]
  }

  predicate StateAccepted(row: Row, surface: Surface, catalog: Catalog) {
    && UrnAccepted(row.urn, catalog)
    && KindOf(row.urn) == row.kind
    && Project(JObject(row.inputs)).Ok?
    && catalog.shaped(row, surface)
  }

  datatype Ownership = Ownership(kind: string, custom: bool, parent: Option<Urn>, provider: Option<Reference>,
                                 protect: bool, external: bool)

  function OwnershipOf(row: Row): Ownership {
    Ownership(row.kind, row.custom, row.parent, row.provider, row.protect, row.external)
  }

  /* ---------- physical targets ---------- */

  datatype Target = Arn(arn: string) | Pair(role: string, other: string) | Itself(urn: Urn)

  function Principals(principals: seq<Principal>, arn: string): seq<Principal> {
    if principals == [] then []
    else (if principals[0].arn == arn then [principals[0]] else []) + Principals(principals[1..], arn)
  }

  /** The first principal with this ARN. */
  function PrincipalOf(catalog: Catalog, arn: string): Option<Principal> {
    var found := Principals(catalog.principals, arn);
    if found == [] then None else Some(found[0])
  }

  function IamPrefix(catalog: Catalog): string {
    "arn:aws:iam::" + catalog.accountId + ":"
  }

  function ConcreteId(row: Row): Result<string> {
    if Concrete(row.id) then Ok(row.id) else Rejected
  }

  predicate PathAccepted(path: Json) {
    path.JText? && path.text != "" && path.text[0] == '/' && path.text[|path.text| - 1] == '/'
  }

  function IamName(row: Row, catalog: Catalog): Result<string> {
    if row.external then
      var id :- ConcreteId(row);
      Ok(if row.kind == ROLE then IamPrefix(catalog) + "role/" + id else id)
    else
      var name :- Text(Get(row.inputs, "name"));
      var path := if "path" in row.inputs then row.inputs["path"] else JText("/");
      var _ :- Require(PathAccepted(path));
      Ok(IamPrefix(catalog) + (if row.kind == ROLE then "role" else "policy") + path.text + name)
  }

  function IamTarget(row: Row, catalog: Catalog): Result<string> {
    var arn :- IamName(row, catalog);
    var _ :- Require(arn in (if row.kind == ROLE then catalog.roleRead else catalog.policyRead));
    Ok(arn)
  }

  function NamedSecrets(secrets: seq<string>, secretName: string -> Option<string>, name: string): seq<string> {
    if secrets == [] then []
    else
      (if secretName(secrets[0]) == Some(name) then [secrets[0]] else [])
      + NamedSecrets(secrets[1..], secretName, name)
  }

  function VersionTarget(identifier: string, catalog: Catalog): Result<string> {
    if identifier in catalog.secrets then Ok(identifier)
    else
      var _ :- Require(forall arn :: arn in catalog.secrets ==> catalog.secretName(arn).Some?);
      var found := NamedSecrets(catalog.secrets, catalog.secretName, identifier);
      var _ :- Require(|found| == 1);
      Ok(found[0])
  }

  function SecretTarget(row: Row, catalog: Catalog): Result<string> {
    var identifier :- if row.kind == SECRET then ConcreteId(row) else Text(Get(row.inputs, "secretId"));
    var arn :- if row.kind == SECRET then Ok(identifier) else VersionTarget(identifier, catalog);
    var _ :- Require(arn in catalog.secrets);
    var _ :- Require("region" in row.inputs ==> row.inputs["region"] == JText(catalog.region));
    var _ :- Require(row.kind == SECRET && !row.external ==>
                       catalog.secretName(arn).Some?
                         && Get(row.inputs, "name") == JText(catalog.secretName(arn).value));
    Ok(arn)
  }

  /** The one exclusive attachment set: either the recorded set without guards
      or the full inventory, never anything else. */
  function ExclusiveTarget(row: Row, catalog: Catalog): Result<string> {
    var roleName :- Text(Get(row.inputs, "roleName"));
    var arns :- StringSet(Get(row.inputs, POLICY_ARNS));
    var roleArn := IamPrefix(catalog) + "role/" + roleName;
    var found := Principals(catalog.principals, roleArn);
    var _ :- Require(roleName == "PulumiAutomation-bootstrap-infrastructure-" + catalog.environment
                     && roleArn in catalog.roleWrite && |found| == 1);
    var principal := found[0];
    var _ :- Require(arns in {principal.attachments - principal.guards, principal.attachments}
                     && arns - principal.guards <= catalog.policyWrite);
    var _ :- Require(row.urn.name == EXCLUSIVE_NAME && row.custom && row.protect && !row.external);
    Ok(roleArn)
  }

  function PairTarget(row: Row, catalog: Catalog): Result<Target> {
    var name :- Text(Get(row.inputs, "role"));
    var role := IamPrefix(catalog) + "role/" + name;
    var _ :- Require(role in catalog.roleRead);
    var other :- Text(Get(row.inputs, if row.kind == ATTACHMENT then "policyArn" else "name"));
    var _ :- Require(row.kind == ATTACHMENT ==> other in catalog.policyRead);
    Ok(Pair(role, other))
  }

  function TargetOf(row: Row, catalog: Catalog): Result<Target> {
    if row.kind in {ROLE, POLICY} then
      var arn :- IamTarget(row, catalog);
      Ok(Arn(arn))
    else if row.kind in {INLINE, ATTACHMENT} then PairTarget(row, catalog)
    else if row.kind == EXCLUSIVE then
      var arn :- ExclusiveTarget(row, catalog);
      Ok(Arn(arn))
    else if row.kind in {SECRET, VERSION} then
      var arn :- SecretTarget(row, catalog);
      Ok(Arn(arn))
    else if row.kind == OIDC then
      if row.id == catalog.oidc then Ok(Arn(catalog.oidc)) else Rejected
    else if row.kind == PROVIDER || !row.custom then Ok(Itself(row.urn))
    else Rejected
  }

  /** The principal a target belongs to. */
  function Holder(target: Target): string {
    match target
    case Arn(arn) => arn
    case Pair(role, _) => role
    case Itself(_) => ""
  }

  predicate Mutable(kind: string, target: Target, catalog: Catalog) {
    if kind in {ROLE, INLINE} then Holder(target) in catalog.roleWrite
    else if kind == POLICY then Holder(target) in catalog.policyWrite
    else if kind == ATTACHMENT
      then Holder(target) in catalog.roleWrite && target.Pair? && target.other in catalog.policyWrite
    else kind in {SECRET, VERSION}
  }

  /* ---------- providers ---------- */

  const VALIDATION_FLAGS := {"skipCredentialsValidation", "skipRegionValidation", "skipRequestingAccountId"}

  predicate ProviderInputs(inputs: Properties, catalog: Catalog) {
    && inputs.Keys <= VALIDATION_FLAGS + {"version", "region", "allowedAccountIds", "defaultTags",
                                          "skipMetadataApiCheck", "maxRetries", DEFAULTS}
    && (forall flag :: flag in VALIDATION_FLAGS ==> Get(inputs, flag) in {JBool(false), JText("false")})
    && Get(inputs, "version") == JText("7.23.0")
    && Get(inputs, "region") == JText(catalog.region)
    && Get(inputs, "allowedAccountIds")
         in {JArray([JText(catalog.accountId)]), JText("[\"" + catalog.accountId + "\"]")}
  }

  function LegacyInputs(catalog: Catalog): Properties {
    map["__internal" := JObject(map[]), "region" := JText(catalog.region),
        "skipCredentialsValidation" := JText("false"), "skipRegionValidation" := JText("true"),
        "version" := JText("7.23.0")]
  }

  predicate Hardened(row: Row, catalog: Catalog) {
    && ("__internal" in row.inputs ==> row.inputs["__internal"] == JObject(map[]))
    && ProviderInputs(row.inputs - {"__internal"}, catalog)
  }

  predicate ProviderState(row: Row, catalog: Catalog, allowLegacy: bool) {
    if allowLegacy && row.inputs == LegacyInputs(catalog) then row.urn.name == LEGACY_NAME else Hardened(row, catalog)
  }

  predicate ProviderHardening(prior: Option<Row>, desired: Option<Row>, ops: seq<string>, catalog: Catalog) {
    && prior.Some? && desired.Some?
    && ops == ["update"]
    && prior.value.urn == desired.value.urn
    && prior.value.urn.name == LEGACY_NAME
    && prior.value.id == desired.value.id
    && prior.value.inputs == LegacyInputs(catalog)
    && Hardened(desired.value, catalog)
    && desired.value.inputs.Keys <= VALIDATION_FLAGS + {"version", "region", "__internal", "allowedAccountIds"}
  }

  /* ---------- controls ---------- */

  predicate PolicyDocument(value: Json, catalog: Catalog) {
    && value.JText?
    && var document := catalog.parse(value.text);
       && document.Some? && document.value.JObject?
       && var statement := Get(document.value.members, "Statement");
          statement.JObject? || (statement.JArray? && forall item :: item in statement.items ==> item.JObject?)
  }

  predicate InlinePolicies(value: Json, catalog: Catalog) {
    && value.JArray?
    && (forall item :: item in value.items ==>
          && item.JObject? && item.members.Keys == {"name", "policy"}
          && Text(item.members["name"]).Ok? && PolicyDocument(item.members["policy"], catalog))
    && forall i, j :: 0 <= i < j < |value.items| ==> value.items[i].members["name"] != value.items[j].members["name"]
  }

  predicate IamDocuments(row: Row, catalog: Catalog) {
    && (row.kind in {POLICY, INLINE} ==> PolicyDocument(Get(row.inputs, "policy"), catalog))
    && (row.kind == ROLE ==>
          && PolicyDocument(Get(row.inputs, "assumeRolePolicy"), catalog)
          && ("forceDetachPolicies" in row.inputs ==> row.inputs["forceDetachPolicies"] == JBool(false))
          && ("inlinePolicies" in row.inputs ==> InlinePolicies(row.inputs["inlinePolicies"], catalog)))
  }

  /** The text parses to exactly the recorded document. */
  predicate ParsesTo(text: Json, recorded: Json, catalog: Catalog) {
    text.JText? && catalog.parse(text.text) == Some(recorded)
  }

  predicate FrozenInline(name: Json, policy: Json, frozen: Frozen, catalog: Catalog) {
    ParsesTo(policy, if name.JText? then Get(frozen.inlinePolicies, name.text) else JNull, catalog)
  }

  predicate FrozenConfig(row: Row, principal: Principal, catalog: Catalog) {
    principal.frozen.Some? ==>
      var frozen := principal.frozen.value;
      if row.kind == ROLE then
        && ParsesTo(Get(row.inputs, "assumeRolePolicy"), frozen.trust, catalog)
        && var inline := Get(row.inputs, "inlinePolicies");
           inline.JArray? ==> forall item :: item in inline.items && item.JObject? ==>
             FrozenInline(Get(item.members, "name"), Get(item.members, "policy"), frozen, catalog)
      else FrozenInline(Get(row.inputs, "name"), Get(row.inputs, "policy"), frozen, catalog)
  }

  /** The catalog boundary; and, once attachments are managed, all the guards
      and nothing above the ceiling. */
  predicate RoleGuards(row: Row, principal: Principal, catalog: Catalog) {
    && Get(row.inputs, BOUNDARY) == JText(principal.boundary)
    && (MANAGED_ARNS in row.inputs ==>
          && StringSet(row.inputs[MANAGED_ARNS]).Ok?
          && principal.guards <= StringSet(row.inputs[MANAGED_ARNS]).value
          && StringSet(row.inputs[MANAGED_ARNS]).value <= principal.attachments + catalog.policyWrite)
  }

  /** The exclusive set lists the principal's full inventory. */
  predicate FullInventory(row: Row, catalog: Catalog) {
    && ExclusiveTarget(row, catalog).Ok?
    && var principal := PrincipalOf(catalog, ExclusiveTarget(row, catalog).value);
       principal.Some? && StringSet(Get(row.inputs, POLICY_ARNS)) == Ok(principal.value.attachments)
  }

  predicate Controlled(row: Row, catalog: Catalog) {
    && (row.kind in {ROLE, POLICY, INLINE} ==> IamDocuments(row, catalog))
    && (row.kind in {ROLE, INLINE} ==>
          && TargetOf(row, catalog).Ok?
          && var principal := PrincipalOf(catalog, Holder(TargetOf(row, catalog).value));
             && principal.Some?
             && FrozenConfig(row, principal.value, catalog)
             && (row.kind == ROLE ==> RoleGuards(row, principal.value, catalog)))
    && (row.kind == EXCLUSIVE ==> FullInventory(row, catalog))
    && (row.kind in {ROLE, POLICY, SECRET} ==> row.protect)
  }

  /* ---------- one resource's operation ---------- */

  const SAME := ["same"]
  const UPDATE := ["update"]
  const CREATE := ["create"]
  const DELETE := ["delete"]
  const REPLACEMENTS := {["create-replacement", "replace", "delete-replaced"],
                         ["delete-replaced", "replace", "create-replacement"]}

  /** Only resources of these kinds may appear or disappear. */
  const CREATABLE := {INLINE, ATTACHMENT, VERSION, POLICY}

  predicate Lifecycle(kind: string, prior: Option<Row>, desired: Option<Row>, ops: seq<string>) {
    && (|| ops == UPDATE
        || (kind in CREATABLE && ops in {CREATE, DELETE})
        || (kind in {INLINE, ATTACHMENT, VERSION} && ops in REPLACEMENTS))
    && (ops == DELETE || ops in REPLACEMENTS ==> prior.Some? && !prior.value.protect)
    && (prior.None? <==> ops == CREATE)
    && (desired.None? <==> ops == DELETE)
  }

  /** The inputs a change may touch. */
  function Changeable(kind: string): set<string> {
    if kind == ROLE
      then {"assumeRolePolicy", "description", "inlinePolicies", MANAGED_ARNS, "maxSessionDuration", "tags"}
    else if kind == POLICY then {"policy", "tags"}
    else if kind == INLINE then {"policy", "name"}
    else if kind == ATTACHMENT then {"role", "policyArn"}
    else if kind == SECRET then {"description", "tags"}
    else if kind == VERSION then {"secretString", "secretBinary", "versionStages"}
    else {}
  }

  predicate ChangedInputs(prior: Row, desired: Row) {
    && (forall k :: k in prior.inputs.Keys + desired.inputs.Keys && Get(prior.inputs, k) != Get(desired.inputs, k) ==>
          k in Changeable(desired.kind) + {"tagsAll"})
    && (desired.kind == ROLE && MANAGED_ARNS in prior.inputs ==> MANAGED_ARNS in desired.inputs)
  }

  predicate OwnershipPreserved(prior: Row, desired: Row, catalog: Catalog) {
    && OwnershipOf(prior) == OwnershipOf(desired)
    && prior.secretOutputs <= desired.secretOutputs
    && var was, wanted := TargetOf(prior, catalog), TargetOf(desired, catalog);
       && was.Ok? && wanted.Ok?
       && (was == wanted || desired.kind == ATTACHMENT
            || (desired.kind == INLINE && Holder(was.value) == Holder(wanted.value)))
  }

  /** The one move an exclusive set may make: from the recorded set without
      guards to another accepted one, touching nothing else. */
  predicate ExclusiveTransition(prior: Option<Row>, desired: Option<Row>, ops: seq<string>, catalog: Catalog) {
    && prior.Some? && desired.Some? && ops == UPDATE
    && var was := ExclusiveTarget(prior.value, catalog);
       && was.Ok? && ExclusiveTarget(desired.value, catalog) == was
       && var principal := PrincipalOf(catalog, was.value);
          && principal.Some?
          && StringSet(Get(prior.value.inputs, POLICY_ARNS)) == Ok(principal.value.attachments - principal.value.guards)
          && (forall k :: k in prior.value.inputs.Keys + desired.value.inputs.Keys ==>
                (Get(prior.value.inputs, k) != Get(desired.value.inputs, k) <==> k == POLICY_ARNS))
          && POLICY_ARNS in prior.value.inputs.Keys + desired.value.inputs.Keys
  }

  predicate ChangeAccepted(row: Row, prior: Option<Row>, desired: Option<Row>, ops: seq<string>, catalog: Catalog) {
    if row.kind == PROVIDER then ProviderHardening(prior, desired, ops, catalog)
    else if row.kind == EXCLUSIVE then ExclusiveTransition(prior, desired, ops, catalog)
    else
      && TargetOf(row, catalog).Ok? && Mutable(row.kind, TargetOf(row, catalog).value, catalog)
      && (prior.Some? ==>
           TargetOf(prior.value, catalog).Ok? && Mutable(row.kind, TargetOf(prior.value, catalog).value, catalog))
      && Lifecycle(row.kind, prior, desired, ops)
      && (prior.Some? && desired.Some? ==> ChangedInputs(prior.value, desired.value))
  }

  predicate OperationAccepted(prior: Option<Row>, desired: Option<Row>, ops: seq<string>, catalog: Catalog) {
    && (prior.Some? || desired.Some?)
    && var row := if desired.Some? then desired.value else prior.value;
       && TargetOf(row, catalog).Ok?
       && (prior.Some? && desired.Some? ==> OwnershipPreserved(prior.value, desired.value, catalog))
       && (if ops == SAME
           then prior.Some? && desired.Some? && Same(prior.value.inputs, desired.value.inputs, row.kind, true)
           else ChangeAccepted(row, prior, desired, ops, catalog))
       && (desired.Some? ==> Controlled(desired.value, catalog))
  }

  /* ---------- goals ---------- */

  datatype Goal = Goal(
    kind: string,
    name: string,
    custom: bool,
    protect: bool,
    parent: Option<Urn>,
    provider: Option<Reference>,
    dependencies: set<Urn>,
    secretOutputs: set<string>,
    inputDiff: Diff,
    outputDiff: Diff)

  datatype ResourcePlan = ResourcePlan(steps: seq<string>, goal: Option<Goal>, seeded: bool)

  /** Drop only the bridge's redundant empty-defaults addition, once the whole
      diff has been checked against the inputs without the marker. */
  function SameInputDiff(diff: Diff, inputs: Properties, kind: string): Result<Diff> {
    if !Bridged(kind) || Get(inputs, DEFAULTS) != JArray([]) || Get(diff.adds, DEFAULTS) != JArray([]) then Ok(diff)
    else
      var _ :- ApplyDiff(diff, inputs - {DEFAULTS});
      Ok(diff.(adds := diff.adds - {DEFAULTS}))
  }

  /** Stripping is harmless: the stripped diff takes the inputs where the whole
      diff takes them from without the marker, and fails when that fails. */
  lemma StrippingIsHarmless(diff: Diff, inputs: Properties, kind: string)
    requires Bridged(kind) && Get(inputs, DEFAULTS) == JArray([]) && Get(diff.adds, DEFAULTS) == JArray([])
    ensures SameInputDiff(diff, inputs, kind).Ok? <==> ApplyDiff(diff, inputs - {DEFAULTS}).Ok?
    ensures SameInputDiff(diff, inputs, kind).Ok? ==>
              ApplyDiff(SameInputDiff(diff, inputs, kind).value, inputs) == ApplyDiff(diff, inputs - {DEFAULTS})
  {
    if SameInputDiff(diff, inputs, kind).Ok? {
      var stripped := SameInputDiff(diff, inputs, kind).value;
      var whole := inputs - {DEFAULTS};
      var made := (inputs - stripped.deletes) + stripped.adds + stripped.updates;
      var expected := (whole - diff.deletes) + diff.adds + diff.updates;
      forall k ensures k in made <==> k in expected {
      }
      forall k | k in made ensures made[k] == expected[k] {
      }
      assert made == expected;
    }
  }

  function GoalInputs(goal: Goal, prior: Option<Row>, ops: seq<string>): Result<Properties>
    requires ops != []
  {
    var origin := if prior.Some? && ops[0] != "delete-replaced" then prior.value.inputs else map[];
    var diff :- if prior.Some? && ops == SAME
      then SameInputDiff(goal.inputDiff, origin, goal.kind)
      else Ok(goal.inputDiff);
    var inputs :- ApplyDiff(diff, origin);
    var _ :- Require(ops == SAME ==> Same(origin, inputs, goal.kind, true));
    var _ :- ApplyDiff(goal.outputDiff, if prior.Some? then prior.value.outputs else map[]);
    Ok(inputs)
  }

  function DesiredRow(urn: Urn, goal: Goal, prior: Option<Row>, inputs: Properties): Row {
    Row(urn, goal.kind, goal.custom, if prior.Some? then prior.value.id else "", inputs, map[], goal.parent,
        goal.provider, goal.protect, false, goal.dependencies, goal.secretOutputs)
  }

  /** The row a plan wants at `urn`, or none for a deletion. */
  function Desired(urn: Urn, plan: ResourcePlan, prior: Option<Row>, catalog: Catalog): Result<Option<Row>> {
    var ops := plan.steps;
    var _ :- Require(ops != [] && !Repeats(ops) && "" !in ops);
    if ops == DELETE then
      (if prior.Some? && plan.goal.None? then Ok(None) else Rejected)
    else
      var _ :- Require(plan.goal.Some? && plan.goal.value.name == urn.name);
      var inputs :- GoalInputs(plan.goal.value, prior, ops);
      var row := DesiredRow(urn, plan.goal.value, prior, inputs);
      var _ :- Require(StateAccepted(row, Planned, catalog) && plan.seeded);
      Ok(Some(row))
  }

  /* ---------- references ---------- */

  type Inventory = map<Urn, Row>

  predicate ParentAccepted(row: Row, inventory: Inventory, catalog: Catalog) {
    && (row.parent.Some? ==> row.parent.value in inventory)
    && row.urn.types == (if row.parent.Some? && inventory[row.parent.value].kind != STACK
                         then row.parent.value.types else [])
                        + [row.kind]
    && (row.kind == STACK ==> row.parent.None? && row.urn.name == PROJECT + "-" + catalog.environment)
  }

  predicate ReferencesAccepted(row: Row, inventory: Inventory, catalog: Catalog, allowLegacy: bool) {
    && ParentAccepted(row, inventory, catalog)
    && (row.custom && row.kind != PROVIDER ==>
          && row.provider.Some? && row.provider.value.urn in inventory
          && inventory[row.provider.value.urn].kind == PROVIDER
          && inventory[row.provider.value.urn].id == row.provider.value.id)
    && row.dependencies <= inventory.Keys
    && (row.kind == PROVIDER ==> ProviderState(row, catalog, allowLegacy))
  }
}
