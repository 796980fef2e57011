/** Convergence of the protected branch ruleset
    (scripts/_github_repository_controls.py): a hardening transformation against
    the verifier written beside it. */
module Ruleset {
  import opened Wrappers
  import opened JsonValues

  const GOVERNANCE := "Governance Promotion"
  const INFRASTRUCTURE := "Infrastructure Promotion"
  const TEST_EVIDENCE := "Test Account Evidence"
  const CENTRAL_APP_ID := 4840884
  const SHARED_APP_ID := 15368

  const CHECKS := "required_status_checks"
  const DEPLOYMENTS := "required_deployments"
  const ENVIRONMENTS := "required_deployment_environments"
  const PULL_REQUEST := "pull_request"
  const DELETION := "deletion"
  const NON_FAST_FORWARD := "non_fast_forward"
  const STRICT := "strict_required_status_checks_policy"
  const COUNT := "required_approving_review_count"
  const REVIEWERS := "required_reviewers"
  const FLAGS := {"required_review_thread_resolution", "dismiss_stale_reviews_on_push", "require_code_owner_review",
                  "require_last_push_approval"}
  const REPLACED := {DELETION, NON_FAST_FORWARD, PULL_REQUEST, CHECKS}

  const SHARED_CHECKS := [
    "Ruff", "Ty", "Maintainability", "Architecture", "Structural", "Dependency Hygiene", "Coverage", "Local Battery",
    "Mutation", "Run Bats Tests", "Secrets Scan", "Dependency Audit", "Bandit", "Dependency Review", "Actionlint",
    "Yamllint", "Hadolint", "Preview", "Destructive Diff Gate", "IAM Validation", "Policy", "CodeQL (python)",
    "CodeQL (actions)"]

  /** The contexts a repository must require; the central one retired two and
      never had the service one. */
  function RequiredContexts(central: bool): seq<string> {
    if central then SHARED_CHECKS else [GOVERNANCE] + SHARED_CHECKS + [TEST_EVIDENCE]
  }

  function Retired(central: bool): set<string> {
    if central then {INFRASTRUCTURE, TEST_EVIDENCE} else {}
  }

  /** Contexts only the promotion App may report. */
  function Issued(central: bool): set<string> {
    if central then {INFRASTRUCTURE, TEST_EVIDENCE} else {GOVERNANCE}
  }

  predicate IssuerAccepted(app: int, central: bool) {
    app > 0 && app != SHARED_APP_ID && (central ==> app == CENTRAL_APP_ID)
  }

  predicate Blank(s: string) {
    forall c :: c in s ==> Space(c)
  }

  predicate Trimmed(s: string) {
    s != "" && !Space(s[0]) && !Space(s[|s| - 1])
  }

  predicate HasType(rule: Members, kind: string) {
    Get(rule, "type") == JText(kind)
  }

  /* ---------- status checks ---------- */

  predicate CheckShaped(item: Json) {
    item.JObject? && "context" in item.members && item.members["context"].JText? && !Blank(item.members["context"].text)
  }

  function HardenCheck(item: Json, app: int, central: bool): Result<Members> {
    var _ :- Require(CheckShaped(item));
    var named := if central && item.members["context"].text == GOVERNANCE
                 then item.members["context" := JText(INFRASTRUCTURE)]
                 else item.members;
    if named["context"].text !in Issued(central) then Ok(named)
    else
      var _ :- Require(Get(named, "integration_id") in {JNull, JInt(app)});
      Ok(named["integration_id" := JInt(app)])
  }

  function Context(check: Members): string {
    var context := Get(check, "context");
    if context.JText? then context.text else ""
  }

  function HardenAll(items: seq<Json>, app: int, central: bool): Result<seq<Members>> {
    if items == [] then Ok([])
    else
      var n := |items| - 1;
      var before :- HardenAll(items[..n], app, central);
      var check :- HardenCheck(items[n], app, central);
      Ok(before + [check])
  }

  function Unretired(checks: seq<Members>, retired: set<string>): (r: seq<Members>)
    ensures forall check :: check in r <==> check in checks && Context(check) !in retired
  {
    if checks == [] then []
    else
      var n := |checks| - 1;
      Unretired(checks[..n], retired) + if Context(checks[n]) in retired then [] else [checks[n]]
  }

  function Contexts(checks: seq<Members>): (r: set<string>)
    ensures forall c :: c in r <==> exists check :: check in checks && Context(check) == c
  {
    set check | check in checks :: Context(check)
  }

  /** The one check of a context, when the list has it. */
  function CheckOf(checks: seq<Members>, context: string): Option<Members> {
    if checks == [] then None
    else if Context(checks[|checks| - 1]) == context then Some(checks[|checks| - 1])
    else CheckOf(checks[..|checks| - 1], context)
  }

  /** First occurrences in order; two checks of a context must be equal. */
  function Deduplicated(checks: seq<Members>): Result<seq<Members>> {
    if checks == [] then Ok([])
    else
      var n := |checks| - 1;
      var before :- Deduplicated(checks[..n]);
      var seen := CheckOf(before, Context(checks[n]));
      if seen.None? then Ok(before + [checks[n]])
      else if seen.value == checks[n] then Ok(before)
      else Rejected
  }

  /** The loop: a dictionary by context that keeps insertion order. */
  method DeduplicateCentralChecks(checks: seq<Members>) returns (r: Result<seq<Members>>)
    ensures r == Deduplicated(checks)
  {
    hide Context, CheckOf;
    var order: seq<Members> := [];
    var result: map<string, Members> := map[];
    forall c ensures CheckOf(order, c) == None {
      CheckOfNothing(c);
    }
    for i := 0 to |checks|
      invariant Deduplicated(checks[..i]) == Ok(order)
      invariant forall c :: CheckOf(order, c) == if c in result then Some(result[c]) else None
    {
      var check := checks[i];
      assert checks[..i + 1][..i] == checks[..i];
      if Context(check) in result && result[Context(check)] != check {
        DeduplicationFails(checks, i + 1);
        return Rejected;
      }
      if Context(check) !in result {
        forall c ensures CheckOf(order + [check], c) == if Context(check) == c then Some(check) else CheckOf(order, c) {
          CheckOfSnoc(order, check, c);
        }
        order := order + [check];
      }
      result := result[Context(check) := check];
    }
    assert checks[..|checks|] == checks;
    return Ok(order);
  }

  lemma CheckOfNothing(context: string)
    ensures CheckOf([], context) == None
  {
  }

  lemma CheckOfSnoc(checks: seq<Members>, check: Members, context: string)
    ensures CheckOf(checks + [check], context) ==
            if Context(check) == context then Some(check) else CheckOf(checks, context)
  {
    assert (checks + [check])[..|checks|] == checks;
  }

  lemma {:induction false} DeduplicationFails(checks: seq<Members>, n: nat)
    requires n <= |checks| && Deduplicated(checks[..n]).Rejected?
    ensures Deduplicated(checks).Rejected?
    decreases |checks| - n
  {
    if n < |checks| {
      assert checks[..n + 1][..n] == checks[..n];
      DeduplicationFails(checks, n + 1);
    } else {
      assert checks[..n] == checks;
    }
  }

  function BaselineCheck(context: string, app: int, central: bool): Members {
    if context in Issued(central) then map["context" := JText(context), "integration_id" := JInt(app)]
    else map["context" := JText(context)]
  }

  /** Baseline checks whose contexts are not there yet. */
  function Missing(required: seq<string>, present: set<string>, app: int, central: bool): seq<Members> {
    if required == [] then []
    else
      (if required[0] in present then [] else [BaselineCheck(required[0], app, central)])
      + Missing(required[1..], present, app, central)
  }

  function CheckList(original: seq<Json>, app: int, central: bool): Result<seq<Members>> {
    var hardened :- HardenAll(original, app, central);
    var kept :- if central then Deduplicated(Unretired(hardened, Retired(central))) else Ok(hardened);
    Ok(kept + Missing(RequiredContexts(central), Contexts(kept), app, central))
  }

  function Objects(checks: seq<Members>): (r: seq<Json>)
    ensures |r| == |checks| && forall i :: 0 <= i < |r| ==> r[i] == JObject(checks[i])
  {
    seq(|checks|, i requires 0 <= i < |checks| => JObject(checks[i]))
  }

  function ParametersOf(rule: Members): Result<Members> {
    var parameters := GetOr(rule, "parameters", JObject(map[]));
    if parameters.JObject? then Ok(parameters.members) else Rejected
  }

  function HardenChecksRule(existing: Members, app: int, central: bool): Result<Members> {
    var parameters :- ParametersOf(existing);
    var original := GetOr(parameters, CHECKS, JArray([]));
    var _ :- Require(original.JArray?);
    var checks :- CheckList(original.items, app, central);
    Ok(existing["type" := JText(CHECKS)]
               ["parameters" := JObject(parameters[STRICT := JBool(true)][CHECKS := JArray(Objects(checks))])])
  }

  /* ---------- pull requests ---------- */

  /** The greater of one and the given count; what cannot be compared is
      refused. */
  function MaxOne(count: Json): Result<Json> {
    match count
    case JInt(n) => Ok(if n > 1 then count else JInt(1))
    case JFloat(mantissa, halvings) => Ok(if mantissa > PowerOfTwo(halvings) then count else JInt(1))
    case JBool(_) => Ok(JInt(1))
    case _ => Rejected
  }

  const PULL_REQUEST_DEFAULTS: Members := map[
    "allowed_merge_methods" := JArray([JText("squash")]),
    "dismiss_stale_reviews_on_push" := JBool(true),
    "require_code_owner_review" := JBool(true),
    "require_last_push_approval" := JBool(true),
    COUNT := JInt(1),
    "required_review_thread_resolution" := JBool(true),
    REVIEWERS := JArray([])]

  function HardenPullRequestRule(existing: Members): Result<Members> {
    var parameters :- ParametersOf(existing);
    var count :- MaxOne(GetOr(parameters, COUNT, JInt(1)));
    var reviewers := GetOr(parameters, REVIEWERS, JArray([]));
    var hardened := (parameters + PULL_REQUEST_DEFAULTS)[REVIEWERS := reviewers][COUNT := count];
    Ok(existing["type" := JText(PULL_REQUEST)]["parameters" := JObject(hardened)])
  }

  /* ---------- deployments ---------- */

  function Without(names: seq<Json>, dropped: set<string>): seq<Json> {
    if names == [] then []
    else
      var n := |names| - 1;
      Without(names[..n], dropped) + if names[n].JText? && names[n].text in dropped then [] else [names[n]]
  }

  predicate EnvironmentsShaped(value: Json) {
    value.JArray? && forall name :: name in value.items ==> name.JText? && Trimmed(name.text)
  }

  /** A deployment requirement without TEST and PROD; one left empty is retired
      only if it says nothing else. */
  function RetireRule(rule: Members): Result<Option<Members>> {
    if !HasType(rule, DEPLOYMENTS) then Ok(Some(rule))
    else
      var parameters := Get(rule, "parameters");
      var _ :- Require(parameters.JObject? && EnvironmentsShaped(Get(parameters.members, ENVIRONMENTS)));
      var remaining := Without(parameters.members[ENVIRONMENTS].items, {"test", "prod"});
      if remaining != [] then
        Ok(Some(rule["parameters" := JObject(parameters.members[ENVIRONMENTS := JArray(remaining)])]))
      else
        var _ :- Require(parameters.members.Keys == {ENVIRONMENTS} && rule.Keys == {"type", "parameters"});
        Ok(None)
  }

  function CentralDeployments(existing: seq<Members>): Result<seq<Members>> {
    if existing == [] then Ok([])
    else
      var n := |existing| - 1;
      var before :- CentralDeployments(existing[..n]);
      var rule :- RetireRule(existing[n]);
      Ok(before + if rule.Some? then [rule.value] else [])
  }

  /** The loop over the rules. */
  method CentralDeploymentRules(existing: seq<Members>) returns (r: Result<seq<Members>>)
    ensures r == CentralDeployments(existing)
  {
    hide RetireRule;
    var result: seq<Members> := [];
    for i := 0 to |existing|
      invariant CentralDeployments(existing[..i]) == Ok(result)
    {
      assert existing[..i + 1][..i] == existing[..i];
      var rule := RetireRule(existing[i]);
      if rule.Rejected? {
        RetirementFails(existing, i + 1);
        return Rejected;
      }
      result := result + if rule.value.Some? then [rule.value.value] else [];
    }
    assert existing[..|existing|] == existing;
    return Ok(result);
  }

  lemma {:induction false} RetirementFails(existing: seq<Members>, n: nat)
    requires n <= |existing| && CentralDeployments(existing[..n]).Rejected?
    ensures CentralDeployments(existing).Rejected?
    decreases |existing| - n
  {
    hide RetireRule;
    if n < |existing| {
      assert existing[..n + 1][..n] == existing[..n];
      RetirementFails(existing, n + 1);
    } else {
      assert existing[..n] == existing;
    }
  }

  /* ---------- the payload ---------- */

  function LastOfType(rules: seq<Members>, kind: string): Option<Members> {
    if rules == [] then None
    else if HasType(rules[|rules| - 1], kind) then Some(rules[|rules| - 1])
    else LastOfType(rules[..|rules| - 1], kind)
  }

  function LastOr(rules: seq<Members>, kind: string, otherwise: Members): Members {
    var found := LastOfType(rules, kind);
    if found.Some? then found.value else otherwise
  }

  function CountOfType(rules: seq<Members>, kind: string): nat {
    if rules == [] then 0
    else CountOfType(rules[..|rules| - 1], kind) + if HasType(rules[|rules| - 1], kind) then 1 else 0
  }

  predicate Replaced(rule: Members) {
    var kind := Get(rule, "type");
    !kind.JText? || kind.text in REPLACED
  }

  /** The rules passed through: typed, and not one of the four rebuilt ones. */
  function Others(rules: seq<Members>): seq<Members> {
    if rules == [] then []
    else
      var n := |rules| - 1;
      Others(rules[..n]) + if Replaced(rules[n]) then [] else [rules[n]]
  }

  datatype Payload = Payload(
    target: string,
    enforcement: string,
    conditions: Json,
    rules: seq<Members>,
    bypassActors: Option<Json>)

  const MAIN_ONLY := JObject(map["ref_name" := JObject(map["include" := JArray([JText("~DEFAULT_BRANCH")]),
                                                           "exclude" := JArray([])])])

  function PayloadRules(existing: seq<Members>, app: int, central: bool): Result<seq<Members>> {
    var _ :- Require(IssuerAccepted(app, central) && CountOfType(existing, CHECKS) <= 1);
    var pullRequest :- HardenPullRequestRule(LastOr(existing, PULL_REQUEST, map[]));
    var checks :- HardenChecksRule(LastOr(existing, CHECKS, map[]), app, central);
    var kept :- if central then CentralDeployments(existing) else Ok(existing);
    Ok([LastOr(existing, DELETION, map["type" := JText(DELETION)]),
        LastOr(existing, NON_FAST_FORWARD, map["type" := JText(NON_FAST_FORWARD)]),
        pullRequest, checks] + Others(kept))
  }

  function RulesetPayload(existing: seq<Members>, app: int, central: bool): Result<Payload> {
    var rules :- PayloadRules(existing, app, central);
    Ok(Payload("branch", "active", MAIN_ONLY, rules, if central then Some(JArray([])) else None))
  }

  /* ---------- the verifier ---------- */

  function CheckItems(rule: Members): seq<Json> {
    var parameters := Get(rule, "parameters");
    if !HasType(rule, CHECKS) || !parameters.JObject? then []
    else
      var items := Get(parameters.members, CHECKS);
      if items.JArray? then items.items else []
  }

  predicate Truthy(value: Json) {
    match value
    case JNull => false
    case JBool(flag) => flag
    case JInt(n) => n != 0
    case JFloat(mantissa, _) => mantissa != 0
    case JText(text) => text != ""
    case JArray(items) => items != []
    case JObject(members) => members != map[]
  }

  /** A check's context as the verifier reads it, when it is text. */
  function ItemContext(item: Json): Option<string> {
    if !item.JObject? then None
    else
      var context := Get(item.members, "context");
      var shown := if Truthy(context) then context else Get(item.members, "name");
      if shown.JText? && shown.text != "" then Some(shown.text) else None
  }

  predicate RequiresContext(rules: seq<Members>, context: string) {
    exists rule :: rule in rules && exists item :: item in CheckItems(rule) && ItemContext(item) == Some(context)
  }

  predicate IssuedByApp(rules: seq<Members>, app: int) {
    exists rule :: rule in rules && exists item :: item in CheckItems(rule) && Issues(item, app)
  }

  predicate Issues(item: Json, app: int) {
    ItemContext(item) == Some(GOVERNANCE) && item.JObject? && Get(item.members, "integration_id") == JInt(app)
  }

  predicate StrictRule(rule: Members) {
    HasType(rule, CHECKS) && var parameters := Get(rule, "parameters");
                             parameters.JObject? && Get(parameters.members, STRICT) == JBool(true)
  }

  /** Reviews as the first pull-request rule with parameters states them. */
  predicate Reviewed(rules: seq<Members>)
  {
    if rules == [] then false
    else if !HasType(rules[0], PULL_REQUEST) || !Get(rules[0], "parameters").JObject? then Reviewed(rules[1..])
    else
      var parameters := rules[0]["parameters"].members;
      var count := Get(parameters, COUNT);
      && ((count.JInt? && count.number >= 1) || count == JBool(true))
      && forall flag :: flag in FLAGS ==> Get(parameters, flag) == JBool(true)
  }

  predicate CentralAccepted(ruleset: Payload) {
    && (forall context :: context in Retired(true) + {GOVERNANCE} ==> !RequiresContext(ruleset.rules, context))
    && ruleset.bypassActors == Some(JArray([]))
    && CentralDeployments(ruleset.rules) == Ok(ruleset.rules)
    && ruleset.enforcement == "active" && ruleset.target == "branch" && ruleset.conditions == MAIN_ONLY
  }

  /** The verifier finds nothing to report. */
  predicate NoBlockers(ruleset: Payload, app: int, central: bool) {
    && (forall context :: context in RequiredContexts(central) ==> RequiresContext(ruleset.rules, context))
    && (!central ==> IssuedByApp(ruleset.rules, app))
    && (exists rule :: rule in ruleset.rules && StrictRule(rule))
    && Reviewed(ruleset.rules)
    && (central ==> CentralAccepted(ruleset))
  }

  /* ---------- the transformation meets the verifier ---------- */

  /** What hardening makes of every check. */
  predicate Hard(check: Members, app: int, central: bool) {
    && CheckShaped(JObject(check))
    && (central ==> Context(check) != GOVERNANCE)
    && (Context(check) in Issued(central) ==> Get(check, "integration_id") == JInt(app))
  }

  lemma PromotionNames()
    ensures INFRASTRUCTURE != GOVERNANCE && !Blank(INFRASTRUCTURE)
  {
    assert INFRASTRUCTURE[0] == 'I' && GOVERNANCE[0] == 'G';
    assert INFRASTRUCTURE[0] in INFRASTRUCTURE && !Space(INFRASTRUCTURE[0]);
  }

  lemma HardenedIsHard(item: Json, app: int, central: bool)
    requires HardenCheck(item, app, central).Ok?
    ensures Hard(HardenCheck(item, app, central).value, app, central)
  {
    PromotionNames();
    hide Blank, Issued;
    var named := if central && item.members["context"].text == GOVERNANCE
                 then item.members["context" := JText(INFRASTRUCTURE)]
                 else item.members;
    assert CheckShaped(JObject(named)) && (central ==> Context(named) != GOVERNANCE);
    var check := HardenCheck(item, app, central).value;
    assert check == named || check == named["integration_id" := JInt(app)];
    assert Context(check) == Context(named) && CheckShaped(JObject(check));
  }

  lemma HardStays(check: Members, app: int, central: bool)
    requires Hard(check, app, central)
    ensures HardenCheck(JObject(check), app, central) == Ok(check)
  {
    hide Blank, Issued;
    assert !(central && check["context"].text == GOVERNANCE);
    if check["context"].text in Issued(central) {
      assert check["integration_id" := JInt(app)] == check;
    }
  }

  lemma {:induction false} AllHard(items: seq<Json>, app: int, central: bool)
    requires HardenAll(items, app, central).Ok?
    ensures |HardenAll(items, app, central).value| == |items|
    ensures forall i :: 0 <= i < |items| ==>
              HardenCheck(items[i], app, central) == Ok(HardenAll(items, app, central).value[i])
    ensures forall check :: check in HardenAll(items, app, central).value ==> Hard(check, app, central)
  {
    hide HardenCheck, Hard;
    if items != [] {
      AllHard(items[..|items| - 1], app, central);
      HardenedIsHard(items[|items| - 1], app, central);
    }
  }

  lemma {:induction false} AllStay(checks: seq<Members>, app: int, central: bool)
    requires forall check :: check in checks ==> Hard(check, app, central)
    ensures HardenAll(Objects(checks), app, central) == Ok(checks)
  {
    hide HardenCheck, Hard;
    if checks != [] {
      var n := |checks| - 1;
      AllStay(checks[..n], app, central);
      assert Objects(checks)[..n] == Objects(checks[..n]);
      assert Objects(checks)[n] == JObject(checks[n]);
      HardStays(checks[n], app, central);
      assert checks == checks[..n] + [checks[n]];
    } else {
      assert Objects(checks) == [];
    }
  }

  lemma {:induction false} CheckOfMember(checks: seq<Members>, context: string)
    ensures CheckOf(checks, context).Some? ==>
              CheckOf(checks, context).value in checks && Context(CheckOf(checks, context).value) == context
    ensures CheckOf(checks, context).None? ==> context !in Contexts(checks)
  {
    hide Context;
    if checks != [] {
      CheckOfMember(checks[..|checks| - 1], context);
    }
  }

  ghost predicate DistinctContexts(checks: seq<Members>) {
    forall i, j :: 0 <= i < j < |checks| ==> Context(checks[i]) != Context(checks[j])
  }

  /** Removing duplicates loses no check and leaves one per context. */
  lemma {:induction false} DeduplicatedKeeps(checks: seq<Members>)
    requires Deduplicated(checks).Ok?
    ensures forall check :: check in Deduplicated(checks).value <==> check in checks
    ensures DistinctContexts(Deduplicated(checks).value)
  {
    hide Context;
    if checks != [] {
      var n := |checks| - 1;
      DeduplicatedKeeps(checks[..n]);
      var before := Deduplicated(checks[..n]).value;
      CheckOfMember(before, Context(checks[n]));
      assert forall check :: check in checks <==> check in checks[..n] || check == checks[n];
      if CheckOf(before, Context(checks[n])).None? {
        forall i | 0 <= i < |before| ensures Context(before[i]) != Context(checks[n]) {
          assert before[i] in before;
        }
      }
    }
  }

  lemma {:induction false} DistinctStay(checks: seq<Members>)
    requires DistinctContexts(checks)
    ensures Deduplicated(checks) == Ok(checks)
  {
    hide Context;
    if checks != [] {
      var n := |checks| - 1;
      DistinctStay(checks[..n]);
      CheckOfMember(checks[..n], Context(checks[n]));
      assert checks == checks[..n] + [checks[n]];
    }
  }

  lemma {:induction false} UnretiredStay(checks: seq<Members>, retired: set<string>)
    requires forall check :: check in checks ==> Context(check) !in retired
    ensures Unretired(checks, retired) == checks
  {
    hide Context;
    if checks != [] {
      var n := |checks| - 1;
      UnretiredStay(checks[..n], retired);
      assert checks == checks[..n] + [checks[n]];
    }
  }

  ghost predicate DistinctStrings(xs: seq<string>) {
    forall i, j :: 0 <= i < j < |xs| ==> xs[i] != xs[j]
  }

  lemma {:induction false} MissingAre(required: seq<string>, present: set<string>, app: int, central: bool)
    ensures forall check :: check in Missing(required, present, app, central) ==>
              exists c :: c in required && c !in present && check == BaselineCheck(c, app, central)
    ensures forall c :: c in required && c !in present ==>
              BaselineCheck(c, app, central) in Missing(required, present, app, central)
  {
    hide BaselineCheck;
    if required != [] {
      MissingAre(required[1..], present, app, central);
      assert forall c :: c in required <==> c == required[0] || c in required[1..];
    }
  }

  lemma {:induction false} MissingDiffer(required: seq<string>, present: set<string>, app: int, central: bool)
    requires DistinctStrings(required)
    ensures DistinctContexts(Missing(required, present, app, central))
  {
    hide Context, BaselineCheck;
    if required != [] {
      var rest := required[1..];
      MissingDiffer(rest, present, app, central);
      MissingAre(rest, present, app, central);
      var tail := Missing(rest, present, app, central);
      forall i | 0 <= i < |tail| ensures Context(tail[i]) != required[0] {
        assert tail[i] in tail;
        var c :| c in rest && c !in present && tail[i] == BaselineCheck(c, app, central);
        BaselineContext(c, app, central);
        var k :| 0 <= k < |rest| && rest[k] == c;
        assert required[k + 1] == c;
      }
      BaselineContext(required[0], app, central);
    }
  }

  lemma BaselineContext(context: string, app: int, central: bool)
    ensures Context(BaselineCheck(context, app, central)) == context
  {
  }

  lemma {:induction false} NothingMissing(required: seq<string>, present: set<string>, app: int, central: bool)
    requires forall c :: c in required ==> c in present
    ensures Missing(required, present, app, central) == []
  {
    if required != [] {
      NothingMissing(required[1..], present, app, central);
    }
  }

  /* ---------- the fixed list of required contexts ---------- */

  /** Length and initial tell the required contexts apart. */
  function Signature(s: string): int {
    if s == "" then 0 else 1000 * |s| + s[0] as int
  }

  const SHARED_SIGNATURES := [4082, 2084, 15077, 12065, 10083, 18068, 8067, 13076, 8077, 14082, 12083, 16068, 6066,
                              17068, 10065, 8089, 8072, 7080, 21068, 14073, 6080, 15067, 16067]

  lemma SharedSignatures()
    ensures |SHARED_CHECKS| == |SHARED_SIGNATURES| == 23
    ensures forall i :: 0 <= i < 23 ==> Signature(SHARED_CHECKS[i]) == SHARED_SIGNATURES[i]
  {
  }

  lemma SignaturesDiffer()
    ensures forall i, j :: 0 <= i < j < |SHARED_SIGNATURES| ==> SHARED_SIGNATURES[i] != SHARED_SIGNATURES[j]
    ensures forall i :: 0 <= i < |SHARED_SIGNATURES| ==> SHARED_SIGNATURES[i] !in [20071, 21084, 24073]
    ensures forall i :: 0 <= i < |SHARED_SIGNATURES| ==> SHARED_SIGNATURES[i] % 1000 > 64
  {
  }

  lemma SpecialSignatures()
    ensures Signature(GOVERNANCE) == 20071 && Signature(TEST_EVIDENCE) == 21084 && Signature(INFRASTRUCTURE) == 24073
  {
  }

  lemma SignedIsVisible(s: string)
    requires Signature(s) % 1000 > 64 && Signature(s) > 0 && s[0] as int < 128
    ensures !Blank(s)
  {
    assert s[0] in s;
  }

  lemma SharedAre(c: string)
    requires c in SHARED_CHECKS
    ensures !Blank(c) && c !in {GOVERNANCE, INFRASTRUCTURE, TEST_EVIDENCE}
  {
    SharedSignatures();
    SignaturesDiffer();
    SpecialSignatures();
    var i :| 0 <= i < |SHARED_CHECKS| && SHARED_CHECKS[i] == c;
    assert Signature(c) == SHARED_SIGNATURES[i];
    Initials(i);
    SignedIsVisible(c);
  }

  lemma Initials(i: nat)
    requires i < |SHARED_CHECKS|
    ensures SHARED_CHECKS[i] != "" && SHARED_CHECKS[i][0] as int < 128
  {
  }

  /** The required contexts are visible names, all different, and for the
      central repository none of them is retired. */
  lemma RequiredNames(central: bool)
    ensures DistinctStrings(RequiredContexts(central))
    ensures forall c :: c in RequiredContexts(central) ==> !Blank(c)
    ensures central ==> forall c :: c in RequiredContexts(true) ==> c !in {GOVERNANCE, INFRASTRUCTURE, TEST_EVIDENCE}
  {
    forall i, j | 0 <= i < j < |SHARED_CHECKS| ensures SHARED_CHECKS[i] != SHARED_CHECKS[j] {
      SharedSignatures();
      SignaturesDiffer();
    }
    forall c | c in SHARED_CHECKS ensures !Blank(c) && c !in {GOVERNANCE, INFRASTRUCTURE, TEST_EVIDENCE} {
      SharedAre(c);
    }
    SpecialSignatures();
    assert !Blank(GOVERNANCE) && !Blank(TEST_EVIDENCE) by {
      SignedIsVisible(GOVERNANCE);
      SignedIsVisible(TEST_EVIDENCE);
    }
    AroundShared(central);
  }

  lemma AroundShared(central: bool)
    requires DistinctStrings(SHARED_CHECKS)
    requires forall c :: c in SHARED_CHECKS ==> !Blank(c) && c !in {GOVERNANCE, INFRASTRUCTURE, TEST_EVIDENCE}
    requires !Blank(GOVERNANCE) && !Blank(TEST_EVIDENCE) && GOVERNANCE != TEST_EVIDENCE
    ensures DistinctStrings(RequiredContexts(central))
    ensures forall c :: c in RequiredContexts(central) ==> !Blank(c)
    ensures central ==> forall c :: c in RequiredContexts(true) ==> c !in {GOVERNANCE, INFRASTRUCTURE, TEST_EVIDENCE}
  {
    hide Blank;
    var all := RequiredContexts(central);
    if !central {
      forall i, j | 0 <= i < j < |all| ensures all[i] != all[j] {
        if 0 < i {
          assert all[i] == SHARED_CHECKS[i - 1];
        }
        if 0 < j < |all| - 1 {
          assert all[j] == SHARED_CHECKS[j - 1];
        }
      }
    }
  }

  /* ---------- the check list ---------- */

  /** A list the transformation leaves alone. */
  ghost predicate Settled(checks: seq<Members>, app: int, central: bool) {
    && (forall check :: check in checks ==> Hard(check, app, central))
    && (central ==> DistinctContexts(checks) && forall check :: check in checks ==> Context(check) !in Retired(central))
    && (forall c :: c in RequiredContexts(central) ==> c in Contexts(checks))
  }

  lemma SettledStays(checks: seq<Members>, app: int, central: bool)
    requires Settled(checks, app, central)
    ensures CheckList(Objects(checks), app, central) == Ok(checks)
  {
    hide Context, Hard, HardenAll, Contexts, Retired, Missing, RequiredContexts, Deduplicated, Unretired;
    AllStay(checks, app, central);
    if central {
      UnretiredStay(checks, Retired(central));
      DistinctStay(checks);
    }
    NothingMissing(RequiredContexts(central), Contexts(checks), app, central);
    assert checks + [] == checks;
  }

  lemma BaselineIsHard(c: string, app: int, central: bool)
    requires c in RequiredContexts(central)
    ensures Hard(BaselineCheck(c, app, central), app, central) && Context(BaselineCheck(c, app, central)) == c
    ensures central ==> c !in Retired(central)
  {
    RequiredNames(central);
    hide RequiredContexts, Blank;
    BaselineContext(c, app, central);
  }

  /** The checks the transformation starts from: hardened, and for the central
      repository without retired ones and duplicates. */
  function KeptChecks(original: seq<Json>, app: int, central: bool): Result<seq<Members>> {
    var hardened :- HardenAll(original, app, central);
    if central then Deduplicated(Unretired(hardened, Retired(central))) else Ok(hardened)
  }

  lemma KeptAre(original: seq<Json>, app: int, central: bool)
    requires KeptChecks(original, app, central).Ok?
    ensures var kept := KeptChecks(original, app, central).value;
            && (forall check :: check in kept ==> Hard(check, app, central))
            && (central ==>
                 DistinctContexts(kept) && forall check :: check in kept ==> Context(check) !in Retired(central))
            && (forall check :: check in kept <==>
                  check in HardenAll(original, app, central).value && (central ==> Context(check) !in Retired(central)))
  {
    hide Context, Hard, HardenAll, Deduplicated, Unretired, Retired;
    AllHard(original, app, central);
    if central {
      DeduplicatedKeeps(Unretired(HardenAll(original, app, central).value, Retired(central)));
    }
  }

  lemma MissingSettle(kept: seq<Members>, app: int, central: bool)
    requires forall check :: check in kept ==> Hard(check, app, central)
    requires central ==> DistinctContexts(kept) && forall check :: check in kept ==> Context(check) !in Retired(central)
    ensures Settled(kept + Missing(RequiredContexts(central), Contexts(kept), app, central), app, central)
  {
    hide Context, Hard, RequiredContexts, BaselineCheck, Retired;
    var required := RequiredContexts(central);
    var missing := Missing(required, Contexts(kept), app, central);
    var all := kept + missing;
    MissingAre(required, Contexts(kept), app, central);
    RequiredNames(central);
    MissingDiffer(required, Contexts(kept), app, central);
    forall check | check in missing
      ensures Hard(check, app, central) && Context(check) !in Contexts(kept)
                && (central ==> Context(check) !in Retired(central))
    {
      var c :| c in required && c !in Contexts(kept) && check == BaselineCheck(c, app, central);
      BaselineIsHard(c, app, central);
    }
    forall c | c in required ensures c in Contexts(all) {
      if c in Contexts(kept) {
        var check :| check in kept && Context(check) == c;
        assert check in all;
      } else {
        assert BaselineCheck(c, app, central) in all;
        BaselineIsHard(c, app, central);
      }
    }
    if central {
      JoinDistinct(kept, missing);
    }
  }

  lemma JoinDistinct(a: seq<Members>, b: seq<Members>)
    requires DistinctContexts(a) && DistinctContexts(b)
    requires forall check :: check in b ==> Context(check) !in Contexts(a)
    ensures DistinctContexts(a + b)
  {
    hide Context;
    var all := a + b;
    forall i, j | 0 <= i < j < |all| ensures Context(all[i]) != Context(all[j]) {
      if i < |a| <= j {
        assert all[i] in a && all[j] in b;
      }
    }
  }

  lemma CheckListSettles(original: seq<Json>, app: int, central: bool)
    requires CheckList(original, app, central).Ok?
    ensures KeptChecks(original, app, central).Ok?
    ensures Settled(CheckList(original, app, central).value, app, central)
    ensures forall check :: check in KeptChecks(original, app, central).value ==>
              check in CheckList(original, app, central).value
  {
    hide HardenAll, Deduplicated, Settled, Missing, RequiredContexts, Contexts, Unretired, Hard, Context;
    KeptAre(original, app, central);
    MissingSettle(KeptChecks(original, app, central).value, app, central);
  }

  /** Every existing required check survives, hardened, unless the central
      repository retired its context; one the App does not issue survives as it
      was. */
  lemma ChecksAreKept(original: seq<Json>, app: int, central: bool, i: nat)
    requires CheckList(original, app, central).Ok? && i < |original|
    ensures HardenCheck(original[i], app, central).Ok? && original[i].JObject?
    ensures var check := HardenCheck(original[i], app, central).value;
            && (Context(check) !in Retired(central) ==> check in CheckList(original, app, central).value)
            && (Context(original[i].members) !in Issued(central) + {GOVERNANCE} ==> check == original[i].members)
  {
    hide Hard, CheckList, KeptChecks, HardenCheck, HardenAll, Settled, Context, Retired, DistinctContexts;
    CheckListSettles(original, app, central);
    HardenedAll(original, app, central);
    KeptAre(original, app, central);
    AllHard(original, app, central);
    HardenKeeps(original[i], app, central);
    assert HardenAll(original, app, central).value[i] in HardenAll(original, app, central).value;
  }

  lemma HardenedAll(original: seq<Json>, app: int, central: bool)
    requires KeptChecks(original, app, central).Ok?
    ensures HardenAll(original, app, central).Ok?
  {
    hide HardenAll;
  }

  lemma HardenKeeps(item: Json, app: int, central: bool)
    requires HardenCheck(item, app, central).Ok?
    ensures item.JObject?
    ensures Context(item.members) !in Issued(central) + {GOVERNANCE} ==>
              HardenCheck(item, app, central).value == item.members
  {
    hide Blank;
  }

  /* ---------- the rule list ---------- */

  lemma KindsDiffer()
    ensures DELETION != NON_FAST_FORWARD && DELETION != PULL_REQUEST && DELETION != CHECKS && DELETION != DEPLOYMENTS
    ensures NON_FAST_FORWARD != PULL_REQUEST && NON_FAST_FORWARD != CHECKS && NON_FAST_FORWARD != DEPLOYMENTS
    ensures PULL_REQUEST != CHECKS && PULL_REQUEST != DEPLOYMENTS && CHECKS != DEPLOYMENTS
  {
    assert |DELETION| == 8 && |NON_FAST_FORWARD| == 16 && |PULL_REQUEST| == 12 && |CHECKS| == 22 && |DEPLOYMENTS| == 20;
  }

  lemma {:induction false} LastHasType(rules: seq<Members>, kind: string)
    ensures LastOfType(rules, kind).Some? ==>
              LastOfType(rules, kind).value in rules && HasType(LastOfType(rules, kind).value, kind)
  {
    hide HasType;
    if rules != [] {
      LastHasType(rules[..|rules| - 1], kind);
    }
  }

  lemma {:induction false} OthersMembers(rules: seq<Members>)
    ensures forall rule :: rule in Others(rules) <==> rule in rules && !Replaced(rule)
  {
    hide Replaced;
    if rules != [] {
      OthersMembers(rules[..|rules| - 1]);
    }
  }

  /** The four rebuilt rules, in their places, then rules of other kinds. */
  ghost predicate Arranged(rules: seq<Members>) {
    && |rules| >= 4
    && HasType(rules[0], DELETION) && HasType(rules[1], NON_FAST_FORWARD)
    && HasType(rules[2], PULL_REQUEST) && HasType(rules[3], CHECKS)
    && forall i :: 4 <= i < |rules| ==> !Replaced(rules[i])
  }

  lemma BuiltTypes(existing: seq<Members>, app: int, central: bool)
    ensures HardenPullRequestRule(LastOr(existing, PULL_REQUEST, map[])).Ok? ==>
              HasType(HardenPullRequestRule(LastOr(existing, PULL_REQUEST, map[])).value, PULL_REQUEST)
    ensures HardenChecksRule(LastOr(existing, CHECKS, map[]), app, central).Ok? ==>
              HasType(HardenChecksRule(LastOr(existing, CHECKS, map[]), app, central).value, CHECKS)
  {
    hide CheckList, MaxOne, LastOr;
  }

  lemma LastOrHasType(rules: seq<Members>, kind: string)
    ensures HasType(LastOr(rules, kind, map["type" := JText(kind)]), kind)
  {
    LastHasType(rules, kind);
    hide LastOfType;
  }

  lemma PayloadIsArranged(existing: seq<Members>, app: int, central: bool)
    requires PayloadRules(existing, app, central).Ok?
    ensures Arranged(PayloadRules(existing, app, central).value)
  {
    hide LastOr, CountOfType, Others, CentralDeployments, Replaced, HardenChecksRule, HardenPullRequestRule, HasType;
    LastOrHasType(existing, DELETION);
    LastOrHasType(existing, NON_FAST_FORWARD);
    BuiltTypes(existing, app, central);
    var kept := if central then CentralDeployments(existing).value else existing;
    OthersMembers(kept);
    var rules := PayloadRules(existing, app, central).value;
    forall i | 4 <= i < |rules| ensures !Replaced(rules[i]) {
      assert rules[i] in Others(kept);
    }
  }

  lemma {:induction false} TypeAt(rules: seq<Members>, kind: string, i: nat)
    requires i < |rules| && HasType(rules[i], kind)
    requires forall j :: 0 <= j < |rules| && j != i ==> !HasType(rules[j], kind)
    ensures LastOfType(rules, kind) == Some(rules[i]) && CountOfType(rules, kind) == 1
  {
    hide HasType;
    var n := |rules| - 1;
    if i < n {
      TypeAt(rules[..n], kind, i);
    } else {
      NoType(rules[..n], kind);
    }
  }

  lemma {:induction false} NoType(rules: seq<Members>, kind: string)
    requires forall j :: 0 <= j < |rules| ==> !HasType(rules[j], kind)
    ensures LastOfType(rules, kind) == None && CountOfType(rules, kind) == 0
  {
    hide HasType;
    if rules != [] {
      NoType(rules[..|rules| - 1], kind);
    }
  }

  lemma ArrangedTypes(rules: seq<Members>)
    requires Arranged(rules)
    ensures LastOfType(rules, DELETION) == Some(rules[0]) && LastOfType(rules, NON_FAST_FORWARD) == Some(rules[1])
    ensures LastOfType(rules, PULL_REQUEST) == Some(rules[2]) && LastOfType(rules, CHECKS) == Some(rules[3])
    ensures CountOfType(rules, CHECKS) == 1
    ensures forall i :: 0 <= i < |rules| && HasType(rules[i], CHECKS) ==> i == 3
  {
    hide LastOfType, CountOfType;
    NoOther(rules, DELETION, 0);
    NoOther(rules, NON_FAST_FORWARD, 1);
    NoOther(rules, PULL_REQUEST, 2);
    NoOther(rules, CHECKS, 3);
    hide HasType, Replaced;
    TypeAt(rules, DELETION, 0);
    TypeAt(rules, NON_FAST_FORWARD, 1);
    TypeAt(rules, PULL_REQUEST, 2);
    TypeAt(rules, CHECKS, 3);
  }

  /** The four fixed places hold the only rules of their types. */
  lemma NoOther(rules: seq<Members>, kind: string, i: nat)
    requires Arranged(rules) && i < 4 && kind == [DELETION, NON_FAST_FORWARD, PULL_REQUEST, CHECKS][i]
    ensures HasType(rules[i], kind) && forall j :: 0 <= j < |rules| && j != i ==> !HasType(rules[j], kind)
  {
    KindsDiffer();
  }

  lemma {:induction false} OthersOfOthers(rules: seq<Members>)
    requires forall rule :: rule in rules ==> !Replaced(rule)
    ensures Others(rules) == rules
  {
    hide Replaced;
    if rules != [] {
      var n := |rules| - 1;
      OthersOfOthers(rules[..n]);
      assert rules == rules[..n] + [rules[n]];
    }
  }

  lemma {:induction false} OthersSkip(front: seq<Members>, rest: seq<Members>)
    requires forall rule :: rule in front ==> Replaced(rule)
    ensures Others(front + rest) == Others(rest)
  {
    hide Replaced;
    var all := front + rest;
    if all != [] {
      var n := |all| - 1;
      if rest == [] {
        assert all == front && all[..n] == front[..n] + [];
        OthersSkip(front[..n], []);
      } else {
        assert all[..n] == front + rest[..|rest| - 1];
        OthersSkip(front, rest[..|rest| - 1]);
      }
    }
  }

  lemma OthersOfArranged(rules: seq<Members>)
    requires Arranged(rules)
    ensures Others(rules) == rules[4..]
  {
    hide Others;
    assert rules == rules[..4] + rules[4..];
    OthersSkip(rules[..4], rules[4..]);
    forall rule | rule in rules[4..] ensures !Replaced(rule) {
      var i :| 0 <= i < |rules[4..]| && rules[4..][i] == rule;
      assert rules[i + 4] == rule;
    }
    OthersOfOthers(rules[4..]);
  }

  /* ---------- the transformation is a fixed point of itself ---------- */

  lemma {:induction false} WithoutTwice(names: seq<Json>, dropped: set<string>)
    ensures Without(Without(names, dropped), dropped) == Without(names, dropped)
    ensures forall name :: name in Without(names, dropped) ==> name in names
  {
    if names != [] {
      var n := |names| - 1;
      WithoutTwice(names[..n], dropped);
      var before := Without(names[..n], dropped);
      if !(names[n].JText? && names[n].text in dropped) {
        assert (before + [names[n]])[..|before|] == before;
      } else {
        assert before + [] == before;
      }
    }
  }

  /** A retired requirement needs no further retiring. */
  lemma RetiredStays(rule: Members)
    requires RetireRule(rule).Ok? && RetireRule(rule).value.Some?
    ensures RetireRule(RetireRule(rule).value.value) == RetireRule(rule)
  {
    hide EnvironmentsShaped, Without;
    if HasType(rule, DEPLOYMENTS) {
      var parameters := rule["parameters"].members;
      ShapedList(Get(parameters, ENVIRONMENTS));
      var names := parameters[ENVIRONMENTS];
      WithoutTwice(names.items, {"test", "prod"});
      var remaining := Without(names.items, {"test", "prod"});
      ShapedSubset(names.items, remaining);
      var after := rule["parameters" := JObject(parameters[ENVIRONMENTS := JArray(remaining)])];
      assert RetireRule(rule) == Ok(Some(after));
      var settled := parameters[ENVIRONMENTS := JArray(remaining)];
      assert settled[ENVIRONMENTS := JArray(remaining)] == settled;
      assert after["parameters" := JObject(settled)] == after;
    }
  }

  lemma ShapedList(value: Json)
    ensures EnvironmentsShaped(value) ==> value.JArray?
  {
  }

  lemma ShapedSubset(names: seq<Json>, remaining: seq<Json>)
    requires EnvironmentsShaped(JArray(names)) && forall name :: name in remaining ==> name in names
    ensures EnvironmentsShaped(JArray(remaining))
  {
    hide Trimmed;
  }

  lemma {:induction false} CentralMembers(existing: seq<Members>)
    requires CentralDeployments(existing).Ok?
    ensures forall rule :: rule in CentralDeployments(existing).value ==> RetireRule(rule) == Ok(Some(rule))
  {
    hide RetireRule;
    if existing != [] {
      var n := |existing| - 1;
      CentralMembers(existing[..n]);
      if RetireRule(existing[n]).value.Some? {
        RetiredStays(existing[n]);
      }
    }
  }

  lemma {:induction false} CentralStay(rules: seq<Members>)
    requires forall rule :: rule in rules ==> RetireRule(rule) == Ok(Some(rule))
    ensures CentralDeployments(rules) == Ok(rules)
  {
    hide RetireRule;
    if rules != [] {
      var n := |rules| - 1;
      CentralStay(rules[..n]);
      assert rules == rules[..n] + [rules[n]];
    }
  }

  lemma FourAndRest<T>(xs: seq<T>)
    requires |xs| >= 4
    ensures xs == [xs[0], xs[1], xs[2], xs[3]] + xs[4..]
  {
  }

  lemma PayloadFront(existing: seq<Members>, app: int, rule: Members)
    requires PayloadRules(existing, app, true).Ok? && rule in PayloadRules(existing, app, true).value
    requires rule !in Others(CentralDeployments(existing).value)
    ensures !HasType(rule, DEPLOYMENTS)
  {
    PayloadIsArranged(existing, app, true);
    KindsDiffer();
    hide LastOr, CountOfType, Others, CentralDeployments, Replaced, HardenChecksRule, HardenPullRequestRule;
    var rules := PayloadRules(existing, app, true).value;
    FourAndRest(rules);
    assert rules[4..] == Others(CentralDeployments(existing).value);
    hide PayloadRules;
  }

  /** The payload's rules are what deployment retirement leaves alone. */
  lemma PayloadIsRetired(existing: seq<Members>, app: int)
    requires PayloadRules(existing, app, true).Ok?
    ensures CentralDeployments(PayloadRules(existing, app, true).value) == PayloadRules(existing, app, true)
  {
    var rules := PayloadRules(existing, app, true).value;
    PayloadIsArranged(existing, app, true);
    CentralMembers(existing);
    OthersMembers(CentralDeployments(existing).value);
    KindsDiffer();
    hide LastOfType, CountOfType, Others, CentralDeployments, Replaced, CheckList, MaxOne, Without, EnvironmentsShaped;
    hide Arranged, PayloadRules;
    forall rule | rule in rules ensures RetireRule(rule) == Ok(Some(rule)) {
      if rule !in Others(CentralDeployments(existing).value) {
        PayloadFront(existing, app, rule);
      }
    }
    CentralStay(rules);
  }

  lemma MaxOneTwice(count: Json)
    requires MaxOne(count).Ok?
    ensures MaxOne(MaxOne(count).value) == MaxOne(count)
  {
  }

  lemma PullRequestStays(existing: Members)
    requires HardenPullRequestRule(existing).Ok?
    ensures HardenPullRequestRule(HardenPullRequestRule(existing).value) == HardenPullRequestRule(existing)
  {
    var once := HardenPullRequestRule(existing).value;
    var given := ParametersOf(existing).value;
    MaxOneTwice(GetOr(given, COUNT, JInt(1)));
    hide MaxOne;
    var parameters := ParametersOf(once).value;
    assert REVIEWERS != COUNT by {
      assert |REVIEWERS| == 18 && |COUNT| == 31;
    }
    assert GetOr(parameters, COUNT, JInt(1)) == MaxOne(GetOr(given, COUNT, JInt(1))).value;
    assert GetOr(parameters, REVIEWERS, JArray([])) == GetOr(given, REVIEWERS, JArray([]));
    assert (parameters + PULL_REQUEST_DEFAULTS)[REVIEWERS := parameters[REVIEWERS]][COUNT := parameters[COUNT]]
      == parameters;
    assert once["type" := JText(PULL_REQUEST)]["parameters" := JObject(parameters)] == once;
  }

  lemma ChecksRuleStays(existing: Members, app: int, central: bool)
    requires HardenChecksRule(existing, app, central).Ok?
    ensures HardenChecksRule(HardenChecksRule(existing, app, central).value, app, central)
              == HardenChecksRule(existing, app, central)
  {
    hide CheckList, Settled;
    var once := HardenChecksRule(existing, app, central).value;
    var given := ParametersOf(existing).value;
    var checks := CheckList(GetOr(given, CHECKS, JArray([])).items, app, central).value;
    CheckListSettles(GetOr(given, CHECKS, JArray([])).items, app, central);
    SettledStays(checks, app, central);
    var parameters := ParametersOf(once).value;
    assert STRICT != CHECKS by {
      assert |STRICT| == 36 && |CHECKS| == 22;
    }
    assert parameters == given[STRICT := JBool(true)][CHECKS := JArray(Objects(checks))];
    assert parameters[STRICT := JBool(true)][CHECKS := JArray(Objects(checks))] == parameters;
    assert once["type" := JText(CHECKS)]["parameters" := JObject(parameters)] == once;
  }

  lemma PayloadParts(existing: seq<Members>, app: int, central: bool)
    requires PayloadRules(existing, app, central).Ok?
    ensures var rules := PayloadRules(existing, app, central).value;
            && |rules| >= 4
            && HardenPullRequestRule(LastOr(existing, PULL_REQUEST, map[])) == Ok(rules[2])
            && HardenChecksRule(LastOr(existing, CHECKS, map[]), app, central) == Ok(rules[3])
            && IssuerAccepted(app, central)
  {
    hide LastOr, HardenPullRequestRule, HardenChecksRule, CentralDeployments, Others, CountOfType;
  }

  /** Applying the transformation to its own result changes nothing. */
  lemma PayloadIsFixed(existing: seq<Members>, app: int, central: bool)
    requires RulesetPayload(existing, app, central).Ok?
    ensures RulesetPayload(RulesetPayload(existing, app, central).value.rules, app, central)
              == RulesetPayload(existing, app, central)
  {
    var rules := PayloadRules(existing, app, central).value;
    hide LastOfType, HardenPullRequestRule, HardenChecksRule, CentralDeployments, Others, CountOfType;
    PayloadParts(existing, app, central);
    PayloadIsArranged(existing, app, central);
    ArrangedTypes(rules);
    OthersOfArranged(rules);
    PullRequestStays(LastOr(existing, PULL_REQUEST, map[]));
    ChecksRuleStays(LastOr(existing, CHECKS, map[]), app, central);
    if central {
      PayloadIsRetired(existing, app);
    }
    FourAndRest(rules);
  }

  /* ---------- the payload meets the verifier ---------- */

  lemma ChecksRuleItems(existing: Members, app: int, central: bool) returns (checks: seq<Members>)
    requires HardenChecksRule(existing, app, central).Ok?
    ensures Settled(checks, app, central)
    ensures CheckItems(HardenChecksRule(existing, app, central).value) == Objects(checks)
    ensures StrictRule(HardenChecksRule(existing, app, central).value)
  {
    hide CheckList, Settled;
    var items := GetOr(ParametersOf(existing).value, CHECKS, JArray([])).items;
    checks := CheckList(items, app, central).value;
    CheckListSettles(items, app, central);
    assert STRICT != CHECKS by {
      assert |STRICT| == 36 && |CHECKS| == 22;
    }
    assert Truthy(JArray([])) == false;
  }

  lemma HardContext(check: Members, app: int, central: bool)
    requires Hard(check, app, central)
    ensures ItemContext(JObject(check)) == Some(Context(check))
  {
  }

  /** Exactly the contexts of the one status-check rule are required. */
  lemma RequiredAreListed(rules: seq<Members>, checks: seq<Members>, app: int, central: bool, context: string)
    requires Arranged(rules) && Settled(checks, app, central) && CheckItems(rules[3]) == Objects(checks)
    ensures RequiresContext(rules, context) <==> context in Contexts(checks)
  {
    ArrangedTypes(rules);
    hide Hard, Context, ItemContext, LastOfType, CountOfType, Replaced;
    if context in Contexts(checks) {
      var check :| check in checks && Context(check) == context;
      var i :| 0 <= i < |checks| && checks[i] == check;
      HardContext(check, app, central);
      assert Objects(checks)[i] in CheckItems(rules[3]) && rules[3] in rules;
    }
    if RequiresContext(rules, context) {
      var rule :| rule in rules && exists item :: item in CheckItems(rule) && ItemContext(item) == Some(context);
      var item :| item in CheckItems(rule) && ItemContext(item) == Some(context);
      var k :| 0 <= k < |rules| && rules[k] == rule;
      assert k == 3;
      var i :| 0 <= i < |Objects(checks)| && Objects(checks)[i] == item;
      assert checks[i] in checks;
      HardContext(checks[i], app, central);
    }
  }

  lemma IssuerIsBound(rules: seq<Members>, checks: seq<Members>, app: int)
    requires Arranged(rules) && Settled(checks, app, false) && CheckItems(rules[3]) == Objects(checks)
    ensures IssuedByApp(rules, app)
  {
    assert RequiredContexts(false)[0] == GOVERNANCE && GOVERNANCE in RequiredContexts(false);
    assert GOVERNANCE in Issued(false);
    hide RequiredContexts, CheckShaped, ItemContext, Replaced, Issued;
    var check :| check in checks && Context(check) == GOVERNANCE;
    HardContext(check, app, false);
    var i :| 0 <= i < |checks| && checks[i] == check;
    assert Objects(checks)[i] in CheckItems(rules[3]) && rules[3] in rules;
    assert Issues(JObject(check), app);
  }

  /** The count the verifier will not accept: a number above one that was not
      written as an integer, 2.0 as little as 1.5.  The transformation keeps it. */
  predicate NonIntegerCount(existing: seq<Members>) {
    var parameters := ParametersOf(LastOr(existing, PULL_REQUEST, map[]));
    && parameters.Ok?
    && var count := GetOr(parameters.value, COUNT, JInt(1));
       count.JFloat? && count.mantissa > PowerOfTwo(count.halvings)
  }

  lemma CountAccepted(count: Json)
    requires MaxOne(count).Ok?
    ensures var kept := MaxOne(count).value;
            ((kept.JInt? && kept.number >= 1) || kept == JBool(true))
              <==> !(count.JFloat? && count.mantissa > PowerOfTwo(count.halvings))
  {
  }

  lemma ReviewsAreRequired(existing: Members)
    requires HardenPullRequestRule(existing).Ok?
    ensures var rule := HardenPullRequestRule(existing).value;
            && Get(rule, "parameters").JObject?
            && var parameters := Get(rule, "parameters").members;
               && Get(parameters, COUNT) == MaxOne(GetOr(ParametersOf(existing).value, COUNT, JInt(1))).value
               && forall flag :: flag in FLAGS ==> Get(parameters, flag) == JBool(true)
  {
    hide MaxOne;
    assert |REVIEWERS| == 18 && |COUNT| == 31;
    forall flag | flag in FLAGS
      ensures flag in PULL_REQUEST_DEFAULTS && PULL_REQUEST_DEFAULTS[flag] == JBool(true) && flag !in {REVIEWERS, COUNT}
    {
      assert |flag| in {33, 29, 25, 26};
    }
  }

  lemma ReviewedIs(rules: seq<Members>)
    requires Arranged(rules) && Get(rules[2], "parameters").JObject?
    ensures Reviewed(rules) == Reviewed([rules[2]])
  {
    KindsDiffer();
    hide Replaced;
    assert rules[1..][1..] == rules[2..] && rules[2..][0] == rules[2] && rules[1..][0] == rules[1];
    assert Reviewed(rules) == Reviewed(rules[1..]) == Reviewed(rules[2..]);
  }

  lemma ReviewedAt(existing: seq<Members>, rules: seq<Members>)
    requires Arranged(rules) && HardenPullRequestRule(LastOr(existing, PULL_REQUEST, map[])) == Ok(rules[2])
    ensures Reviewed(rules) <==> !NonIntegerCount(existing)
  {
    var pullRequest := LastOr(existing, PULL_REQUEST, map[]);
    ReviewsAreRequired(pullRequest);
    assert MaxOne(GetOr(ParametersOf(pullRequest).value, COUNT, JInt(1))).Ok?;
    CountAccepted(GetOr(ParametersOf(pullRequest).value, COUNT, JInt(1)));
    hide HardenPullRequestRule, LastOr, MaxOne, FLAGS;
    ReviewedIs(rules);
  }

  /** The transformation either refuses the existing rules or makes a payload
      its verifier accepts, unless the last pull-request rule's number of reviews
      is above one and not written as an integer. */
  lemma PayloadMeetsVerifier(existing: seq<Members>, app: int, central: bool)
    requires RulesetPayload(existing, app, central).Ok?
    ensures NoBlockers(RulesetPayload(existing, app, central).value, app, central) <==> !NonIntegerCount(existing)
  {
    hide HardenPullRequestRule, HardenChecksRule, CentralDeployments, LastOr, NonIntegerCount, Reviewed,
         RequiresContext, IssuedByApp, PayloadRules, StrictRule, Contexts, Context, Hard, RequiredContexts,
         DistinctContexts;
    var payload := RulesetPayload(existing, app, central).value;
    var rules := payload.rules;
    PayloadParts(existing, app, central);
    PayloadIsArranged(existing, app, central);
    var checks := ChecksRuleItems(LastOr(existing, CHECKS, map[]), app, central);
    forall context ensures RequiresContext(rules, context) <==> context in Contexts(checks) {
      RequiredAreListed(rules, checks, app, central, context);
    }
    ReviewedAt(existing, rules);
    assert rules[3] in rules;
    if central {
      PayloadIsRetired(existing, app);
      NoneRetired(checks, app);
    } else {
      IssuerIsBound(rules, checks, app);
    }
  }

  lemma NoneRetired(checks: seq<Members>, app: int)
    requires Settled(checks, app, true)
    ensures forall context :: context in Retired(true) + {GOVERNANCE} ==> context !in Contexts(checks)
  {
    hide CheckShaped, Context, RequiredContexts;
  }

  const NON_INTEGER_RULES: seq<Members> :=
    [map["type" := JText(PULL_REQUEST), "parameters" := JObject(map[COUNT := JFloat(3, 1)])]]

  /** Such a request is accepted and then reported. */
  lemma NonIntegerCountIsReported(app: int)
    requires IssuerAccepted(app, false)
    ensures var r := RulesetPayload(NON_INTEGER_RULES, app, false);
            r.Ok? && !NoBlockers(r.value, app, false)
  {
    KindsDiffer();
    var rule := NON_INTEGER_RULES[0];
    assert rule["type"] == JText(PULL_REQUEST);
    TypeAt(NON_INTEGER_RULES, PULL_REQUEST, 0);
    NoType(NON_INTEGER_RULES, CHECKS);
    assert ParametersOf(rule) == Ok(map[COUNT := JFloat(3, 1)]);
    hide LastOfType, CountOfType, CheckList, Others, NoBlockers;
    assert HardenPullRequestRule(rule).Ok?;
    EmptyChecks(app);
    PayloadMeetsVerifier(NON_INTEGER_RULES, app, false);
  }

  lemma EmptyChecks(app: int)
    ensures HardenChecksRule(map[], app, false).Ok?
  {
    assert HardenAll([], app, false) == Ok([]);
  }

  /* ---------- nothing else is weakened ---------- */

  function Number(count: Json): real {
    match count
    case JInt(n) => n as real
    case JFloat(mantissa, halvings) => mantissa as real / PowerOfTwo(halvings) as real
    case _ => 1.0
  }

  function ReviewCount(rule: Members): Json {
    var parameters := GetOr(rule, "parameters", JObject(map[]));
    if parameters.JObject? then GetOr(parameters.members, COUNT, JInt(1)) else JNull
  }

  /** The payload asks for as many reviews as the last pull-request rule did, and
      at least one. */
  lemma ReviewsAreKept(existing: seq<Members>, app: int, central: bool)
    requires RulesetPayload(existing, app, central).Ok?
    ensures var kept := ReviewCount(RulesetPayload(existing, app, central).value.rules[2]);
            var asked := ReviewCount(LastOr(existing, PULL_REQUEST, map[]));
            Number(kept) == if Number(asked) > 1.0 then Number(asked) else 1.0
  {
    hide HardenPullRequestRule, HardenChecksRule, CentralDeployments, LastOr, CountOfType, Others, MaxOne;
    PayloadParts(existing, app, central);
    var pullRequest := LastOr(existing, PULL_REQUEST, map[]);
    ReviewsAreRequired(pullRequest);
    CountIsKept(pullRequest);
  }

  lemma RatioAboveOne(mantissa: int, divisor: int)
    requires divisor >= 1
    ensures mantissa as real / divisor as real > 1.0 <==> mantissa > divisor
  {
    var ratio := mantissa as real / divisor as real;
    assert ratio * divisor as real == mantissa as real;
    if ratio > 1.0 {
      assert ratio * divisor as real > divisor as real;
    } else {
      assert ratio * divisor as real <= divisor as real;
    }
  }

  lemma MaxOneIsMaximum(count: Json)
    requires MaxOne(count).Ok?
    ensures Number(MaxOne(count).value) == if Number(count) > 1.0 then Number(count) else 1.0
  {
    hide PowerOfTwo;
    if count.JFloat? {
      RatioAboveOne(count.mantissa, PowerOfTwo(count.halvings));
    }
  }

  lemma CountIsKept(rule: Members)
    requires HardenPullRequestRule(rule).Ok?
    ensures ParametersOf(rule).Ok? && ReviewCount(rule) == GetOr(ParametersOf(rule).value, COUNT, JInt(1))
    ensures MaxOne(ReviewCount(rule)).Ok?
    ensures Number(MaxOne(ReviewCount(rule)).value) ==
            if Number(ReviewCount(rule)) > 1.0 then Number(ReviewCount(rule)) else 1.0
  {
    hide MaxOne, Number;
    MaxOneIsMaximum(ReviewCount(rule));
  }

  /** With one pull-request rule, then, the number of reviews is never lowered;
      of several, an earlier and stricter one is lost. */
  lemma ReviewsAreNotLowered(existing: seq<Members>, app: int, central: bool, i: nat)
    requires RulesetPayload(existing, app, central).Ok?
    requires i < |existing| && HasType(existing[i], PULL_REQUEST)
    ensures var after := RulesetPayload(existing, app, central).value.rules[2];
            Number(ReviewCount(after)) >= Number(ReviewCount(existing[i]))
            <==> Number(ReviewCount(existing[i])) <= 1.0
                 || Number(ReviewCount(existing[i])) <= Number(ReviewCount(LastOr(existing, PULL_REQUEST, map[])))
  {
    hide RulesetPayload, ReviewCount, Number, LastOr;
    ReviewsAreKept(existing, app, central);
  }

  function CountingRule(count: int): Members {
    map["type" := JText(PULL_REQUEST), "parameters" := JObject(map[COUNT := JInt(count)])]
  }

  /** Three reviews, then one: the payload asks for one. */
  lemma EarlierReviewsAreLost(app: int)
    requires IssuerAccepted(app, false)
    ensures var r := RulesetPayload([CountingRule(3), CountingRule(1)], app, false);
            r.Ok? && Number(ReviewCount(r.value.rules[2])) == 1.0 < Number(ReviewCount(CountingRule(3)))
  {
    var rules := [CountingRule(3), CountingRule(1)];
    KindsDiffer();
    assert HasType(rules[0], PULL_REQUEST) && HasType(rules[1], PULL_REQUEST);
    NoType(rules, CHECKS);
    assert LastOfType(rules, PULL_REQUEST) == Some(rules[1]);
    assert ParametersOf(rules[1]) == Ok(map[COUNT := JInt(1)]);
    hide LastOfType, CountOfType, CheckList, Others;
    assert HardenPullRequestRule(rules[1]).Ok?;
    EmptyChecks(app);
    ReviewsAreKept(rules, app, false);
  }

  /** Rules of other kinds pass through: all of them, unchanged and in order; for
      the central repository all but deployment requirements, which only lose
      TEST and PROD. */
  lemma OthersAreKept(existing: seq<Members>, app: int, central: bool, i: nat)
    requires RulesetPayload(existing, app, central).Ok?
    requires i < |existing| && !Replaced(existing[i])
    ensures var rules := RulesetPayload(existing, app, central).value.rules;
            && (!central ==> rules[4..] == Others(existing))
            && (!central || !HasType(existing[i], DEPLOYMENTS) ==> existing[i] in rules)
            && (central ==> RetireRule(existing[i]).Ok?
                            && (RetireRule(existing[i]).value.Some? ==> RetireRule(existing[i]).value.value in rules))
  {
    hide RulesetPayload, CentralDeployments, Others, Replaced, HasType, RetireRule;
    PayloadTail(existing, app, central);
    var kept := if central then CentralDeployments(existing).value else existing;
    OthersMembers(kept);
    if central {
      RetiredIncluded(existing, i);
      RetiredOther(existing[i]);
    }
  }

  lemma PayloadTail(existing: seq<Members>, app: int, central: bool)
    requires RulesetPayload(existing, app, central).Ok?
    ensures central ==> CentralDeployments(existing).Ok?
    ensures var rules := RulesetPayload(existing, app, central).value.rules;
            var tail := Others(if central then CentralDeployments(existing).value else existing);
            |rules| >= 4 && rules[4..] == tail && forall rule :: rule in tail ==> rule in rules
  {
    hide LastOr, HardenPullRequestRule, HardenChecksRule, Others, CentralDeployments, CountOfType;
    var rules := RulesetPayload(existing, app, central).value.rules;
    assert forall rule :: rule in rules[4..] ==> rule in rules;
  }

  lemma RetiredOther(rule: Members)
    requires RetireRule(rule).Ok? && !Replaced(rule)
    ensures RetireRule(rule).value.Some? ==> !Replaced(RetireRule(rule).value.value)
    ensures !HasType(rule, DEPLOYMENTS) ==> RetireRule(rule) == Ok(Some(rule))
  {
    hide Without, EnvironmentsShaped;
  }

  lemma {:induction false} RetiredIncluded(existing: seq<Members>, i: nat)
    requires CentralDeployments(existing).Ok? && i < |existing|
    ensures RetireRule(existing[i]).Ok?
    ensures RetireRule(existing[i]).value.Some? ==>
              RetireRule(existing[i]).value.value in CentralDeployments(existing).value
  {
    hide RetireRule;
    if i < |existing| - 1 {
      RetiredIncluded(existing[..|existing| - 1], i);
    }
  }
}
