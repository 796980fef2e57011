/** Sealed operator plans and private diagnostics (scripts/operator_plan_envelope.py)
    under an ideal KMS and an ideal authenticated cipher: a sealed blob is a term
    that only its own key, nonce and associated data open.  Plans and diagnostics
    are both bytes; only the members of the associated data tell them apart. */
module Envelope {
  import opened Wrappers
  import opened JsonValues
  import opened Schedule
  import opened Scopes
  import opened Contract
  import opened Base64
  import opened Diagnostics

  datatype CheckpointBinding = CheckpointBinding(bucket: string, key: string, versionId: string, etag: string)

  datatype ProviderBinding = ProviderBinding(uri: string, keyArn: string, stateSha256: string)

  datatype ExecutionBinding = ExecutionBinding(
    environment: string,
    accountId: string,
    region: string,
    project: string,
    backend: string,
    kmsKeyArn: string,
    checkpoint: CheckpointBinding,
    provider: ProviderBinding)

  /** Installed readers and writers: the scope selector, the provider URI check,
      strict JSON parsing, canonical JSON, and a binding's canonical size. */
  datatype Setting = Setting(
    selector: Selector,
    providerUri: string -> bool,
    parse: Bytes -> Option<Json>,
    write: Json -> Bytes,
    bindingSize: Binding -> nat)

  /** Parsing reads back what canonical JSON wrote. */
  ghost predicate Faithful(setting: Setting) {
    forall value :: !HasFloat(value) ==> setting.parse(setting.write(value)) == Some(value)
  }

  function Account(environment: string): Option<(string, string)> {
    if environment == TEST then
      Some(("891377212104", "arn:aws:kms:eu-central-1:891377212104:key/1ab201ad-c498-496d-ad36-a529021da6be"))
    else if environment == PROD then
      Some(("933245420672", "arn:aws:kms:eu-central-1:933245420672:key/fdba4c44-71b0-4979-b163-4705a91aa29b"))
    else None
  }

  predicate Token(value: string) {
    0 < |value| <= 1024 && forall c :: c in value ==> 33 <= c as int <= 126
  }

  predicate ExecutionAccepted(setting: Setting, e: ExecutionBinding) {
    && Account(e.environment).Some?
    && var account := Account(e.environment).value;
       var bucket := "pulumi-bootstrap-infrastructure-" + e.environment + "-state";
       && e.accountId == account.0 && e.kmsKeyArn == account.1
       && e.region == "eu-central-1" && e.project == "github-ci-bootstrap" && e.backend == "s3://" + bucket
       && e.checkpoint.bucket == bucket
       && e.checkpoint.key == ".pulumi/stacks/github-ci-bootstrap/" + e.environment + ".json"
       && Token(e.checkpoint.versionId) && e.checkpoint.versionId != "null" && Token(e.checkpoint.etag)
       && Token(e.provider.uri) && e.provider.keyArn == account.1 && Hex(e.provider.stateSha256, 64)
       && setting.providerUri(e.provider.uri)
  }

  /* ---------- bindings ---------- */

  datatype ExecutionDigest = ExecutionSha256(execution: ExecutionBinding)

  datatype Binding = Binding(
    identity: Identity,
    account: string,
    project: string,
    stack: string,
    backend: string,
    selectorSha256: string,
    selectionDigest: Digest,
    contractDigest: Digest,
    executionDigest: ExecutionDigest)

  function BindingOf(setting: Setting, c: DeploymentContract, e: ExecutionBinding): Result<Binding> {
    var _ :- Require(ValidContract(setting.selector, c) && ExecutionAccepted(setting, e));
    var _ :- Require(
      exists step :: step in c.schedule && step.scope == "operator" && step.environment == e.environment);
    var binding := Binding(c.identity, e.accountId, e.project, e.environment, e.backend, c.selectorSha256,
                           c.selectionDigest, c.contractDigest, ExecutionSha256(e));
    var _ :- Require(setting.bindingSize(binding) <= MAX_CONTEXT_BYTES);
    Ok(binding)
  }

  /** A binding pins the whole contract and the whole execution, the checkpoint
      version included. */
  lemma BindingsBind(setting: Setting, c: DeploymentContract, e: ExecutionBinding, c': DeploymentContract,
                     e': ExecutionBinding)
    requires BindingOf(setting, c, e).Ok? && BindingOf(setting, c, e) == BindingOf(setting, c', e')
    ensures c == c' && e == e'
  {
    hide ValidContract, ExecutionAccepted;
    ContractDigestBinds(setting.selector, c, c');
  }

  /* ---------- ideal primitives ---------- */

  /** A member of associated data; a digest is a term that holds what it is of. */
  datatype Field = OfBinding(binding: Binding) | OfText(text: string) | OfNumber(number: int) | OfDigest(blob: Blob)

  /** Associated data: the members of the object whose canonical JSON is
      authenticated. */
  type Aad = map<string, Field>

  /** What travels: uninterpreted bytes, a data key wrapped by KMS under a
      context, or an authenticated ciphertext. */
  datatype Blob =
    | Plain(bytes: Bytes)
    | WrappedKey(arn: string, key: nat, context: Binding, width: nat)
    | Sealed(key: nat, nonce: Bytes, aad: Aad, text: Bytes)

  function Width(blob: Blob): nat {
    match blob
    case Plain(bytes) => |bytes|
    case WrappedKey(_, _, _, width) => width
    case Sealed(_, _, _, text) => |text| + TAG_BYTES
  }

  const DIAGNOSTIC_KIND := "operator-private-diagnostic-v1"

  function PlanAad(binding: Binding, wrapped: Blob): Aad {
    map["binding" := OfBinding(binding), "wrapped_key_sha256" := OfDigest(wrapped)]
  }

  function DiagnosticAad(binding: Binding, wrapped: Blob): Aad {
    map["binding" := OfBinding(binding), "kind" := OfText(DIAGNOSTIC_KIND), "schema" := OfNumber(1),
        "wrapped_key_sha256" := OfDigest(wrapped)]
  }

  /** The two kinds authenticate different members, whatever their values. */
  lemma AadsDiffer(b: Binding, w: Blob, b': Binding, w': Blob)
    ensures PlanAad(b, w) != DiagnosticAad(b', w')
    ensures PlanAad(b, w) == PlanAad(b', w') ==> b == b' && w == w'
  {
    assert "kind" in DiagnosticAad(b', w') && "kind" !in PlanAad(b, w);
    if PlanAad(b, w) == PlanAad(b', w') {
      assert PlanAad(b, w)["binding"] == PlanAad(b', w')["binding"];
      assert PlanAad(b, w)["wrapped_key_sha256"] == PlanAad(b', w')["wrapped_key_sha256"];
    }
  }

  function Unwrap(arn: string, blob: Blob, context: Binding): Result<nat> {
    if blob.WrappedKey? && blob.arn == arn && blob.context == context then Ok(blob.key) else Rejected
  }

  function Unseal(key: nat, nonce: Bytes, aad: Aad, blob: Blob): Result<Bytes> {
    if blob.Sealed? && blob.key == key && blob.nonce == nonce && blob.aad == aad then Ok(blob.text) else Rejected
  }

  /* ---------- envelopes ---------- */

  /** An envelope's members; only a diagnostic has a kind. */
  datatype Envelope = Envelope(
    schema: int,
    kind: Option<string>,
    binding: Binding,
    wrapped: Blob,
    nonce: Bytes,
    ciphertext: Blob)

  /** A diagnostic payload as the object that is sealed. */
  function PayloadJson(p: Payload): Json {
    JObject(map["stage" := JText(p.stage), "category" := JText(p.category),
                "exit_code" := if p.exitCode.Some? then JInt(p.exitCode.value) else JNull,
                "stdout" := JText(p.stdout), "stderr" := JText(p.stderr),
                "stdout_truncated" := JBool(p.stdoutTruncated), "stderr_truncated" := JBool(p.stderrTruncated),
                "validation_reason" := JText(p.reason)])
  }

  const PAYLOAD_FIELDS := {"stage", "category", "exit_code", "stdout", "stderr", "stdout_truncated", "stderr_truncated",
                           "validation_reason"}

  /** The payload of an opened object: exactly the fields, of their types. */
  function PayloadFrom(value: Json): Result<Payload> {
    var _ :- Require(value.JObject? && value.members.Keys == PAYLOAD_FIELDS);
    var m := value.members;
    var _ :- Require(m["stage"].JText? && m["category"].JText? && m["stdout"].JText? && m["stderr"].JText?);
    var _ :- Require(m["validation_reason"].JText? && m["stdout_truncated"].JBool? && m["stderr_truncated"].JBool?);
    var _ :- Require(m["exit_code"].JNull? || m["exit_code"].JInt?);
    Ok(Payload(m["stage"].text, m["category"].text, if m["exit_code"].JInt? then Some(m["exit_code"].number) else None,
               m["stdout"].text, m["stderr"].text, m["stdout_truncated"].flag, m["stderr_truncated"].flag,
               m["validation_reason"].text))
  }

  lemma PayloadRoundTrip(p: Payload)
    ensures PayloadFrom(PayloadJson(p)) == Ok(p) && !HasFloat(PayloadJson(p))
  {
  }

  predicate PlanAccepted(setting: Setting, plan: Bytes) {
    0 < |plan| <= MAX_PLAN_BYTES && setting.parse(plan).Some? && setting.parse(plan).value.JObject?
  }

  predicate PartWidths(wrapped: Blob, nonce: Bytes) {
    0 < Width(wrapped) <= MAX_WRAPPED_BYTES && |nonce| == NONCE_BYTES
  }

  /** KMS supplies the data key `key`, wrapped to `width` bytes; the system
      supplies the nonce. */
  function SealPlan(setting: Setting, plan: Bytes, c: DeploymentContract, e: ExecutionBinding,
                    key: nat, width: nat, nonce: Bytes): Result<Envelope> {
    var binding :- BindingOf(setting, c, e);
    var wrapped := WrappedKey(e.kmsKeyArn, key, binding, width);
    var _ :- Require(PlanAccepted(setting, plan) && PartWidths(wrapped, nonce));
    Ok(Envelope(1, None, binding, wrapped, nonce, Sealed(key, nonce, PlanAad(binding, wrapped), plan)))
  }

  function OpenPlan(setting: Setting, envelope: Envelope, c: DeploymentContract, e: ExecutionBinding): Result<Bytes> {
    var binding :- BindingOf(setting, c, e);
    var _ :- Require(envelope.kind == None && envelope.schema == 1 && envelope.binding == binding);
    var _ :- Require(PartWidths(envelope.wrapped, envelope.nonce)
                     && TAG_BYTES <= Width(envelope.ciphertext) <= MAX_PLAN_BYTES + TAG_BYTES);
    var key :- Unwrap(e.kmsKeyArn, envelope.wrapped, binding);
    var text :- Unseal(key, envelope.nonce, PlanAad(binding, envelope.wrapped), envelope.ciphertext);
    var _ :- Require(PlanAccepted(setting, text));
    Ok(text)
  }

  function SealDiagnostic(setting: Setting, payload: Payload, c: DeploymentContract, e: ExecutionBinding,
                          key: nat, width: nat, nonce: Bytes): Result<Envelope> {
    var raw := setting.write(PayloadJson(payload));
    var _ :- Require(FieldsAccepted(payload) && |raw| <= MAX_PAYLOAD_BYTES);
    var binding :- BindingOf(setting, c, e);
    var wrapped := WrappedKey(e.kmsKeyArn, key, binding, width);
    var _ :- Require(PartWidths(wrapped, nonce));
    Ok(Envelope(1, Some(DIAGNOSTIC_KIND), binding, wrapped, nonce,
                Sealed(key, nonce, DiagnosticAad(binding, wrapped), raw)))
  }

  function OpenDiagnostic(setting: Setting, envelope: Envelope, c: DeploymentContract,
                          e: ExecutionBinding): Result<Payload>
  {
    var binding :- BindingOf(setting, c, e);
    var _ :- Require(envelope.kind == Some(DIAGNOSTIC_KIND) && envelope.schema == 1 && envelope.binding == binding);
    var _ :- Require(PartWidths(envelope.wrapped, envelope.nonce)
                     && TAG_BYTES <= Width(envelope.ciphertext) <= MAX_PAYLOAD_BYTES + TAG_BYTES);
    var key :- Unwrap(e.kmsKeyArn, envelope.wrapped, binding);
    var text :- Unseal(key, envelope.nonce, DiagnosticAad(binding, envelope.wrapped), envelope.ciphertext);
    var shown := setting.parse(text);
    var _ :- Require(shown.Some?);
    var payload :- PayloadFrom(shown.value);
    var _ :- Require(FieldsAccepted(payload) && |setting.write(shown.value)| <= MAX_PAYLOAD_BYTES);
    Ok(payload)
  }

  /* ---------- what sealing promises ---------- */

  /** A sealed plan opens, to itself, for exactly the contract and execution it
      was sealed for. */
  lemma PlansOpenOnlyWhereSealed(setting: Setting, plan: Bytes, c: DeploymentContract, e: ExecutionBinding, key: nat,
                                 width: nat, nonce: Bytes, c': DeploymentContract, e': ExecutionBinding)
    requires SealPlan(setting, plan, c, e, key, width, nonce).Ok?
    ensures var answer := OpenPlan(setting, SealPlan(setting, plan, c, e, key, width, nonce).value, c', e');
            && (answer.Ok? <==> c' == c && e' == e)
            && (answer.Ok? ==> answer.value == plan)
  {
    hide BindingOf;
    if BindingOf(setting, c', e') == BindingOf(setting, c, e) {
      BindingsBind(setting, c, e, c', e');
    }
  }

  lemma DiagnosticsOpenOnlyWhereSealed(setting: Setting, payload: Payload, c: DeploymentContract, e: ExecutionBinding,
                                       key: nat, width: nat, nonce: Bytes, c': DeploymentContract, e': ExecutionBinding)
    requires Faithful(setting)
    requires SealDiagnostic(setting, payload, c, e, key, width, nonce).Ok?
    ensures var sealed := SealDiagnostic(setting, payload, c, e, key, width, nonce).value;
            var answer := OpenDiagnostic(setting, sealed, c', e');
            && (answer.Ok? <==> c' == c && e' == e)
            && (answer.Ok? ==> answer.value == payload)
  {
    PayloadRoundTrip(payload);
    hide BindingOf, FieldsAccepted, PayloadJson, PayloadFrom, PlanAad, DiagnosticAad;
    if BindingOf(setting, c', e') == BindingOf(setting, c, e) {
      BindingsBind(setting, c, e, c', e');
    }
  }

  /** Whatever else an envelope was assembled from, a ciphertext that opens as a
      plan was sealed as a plan under this very binding. */
  lemma OpenedWasSealed(setting: Setting, envelope: Envelope, c: DeploymentContract, e: ExecutionBinding)
    requires OpenPlan(setting, envelope, c, e).Ok?
    ensures var blob := envelope.ciphertext;
            && blob.Sealed? && blob.text == OpenPlan(setting, envelope, c, e).value
            && BindingOf(setting, c, e).Ok?
            && blob.aad == PlanAad(BindingOf(setting, c, e).value, envelope.wrapped)
  {
    hide BindingOf, PlanAccepted;
  }

  /** A sealed diagnostic never opens as a plan, even inside an envelope
      rewritten around its ciphertext. */
  lemma DiagnosticsAreNotPlans(setting: Setting, payload: Payload, c: DeploymentContract, e: ExecutionBinding, key: nat,
                               width: nat, nonce: Bytes, forged: Envelope, c': DeploymentContract, e': ExecutionBinding)
    requires SealDiagnostic(setting, payload, c, e, key, width, nonce).Ok?
    requires forged.ciphertext == SealDiagnostic(setting, payload, c, e, key, width, nonce).value.ciphertext
    ensures OpenPlan(setting, forged, c', e').Rejected?
  {
    hide BindingOf, PlanAccepted, FieldsAccepted, PayloadJson, PlanAad, DiagnosticAad;
    forall b, w, b', w' ensures PlanAad(b, w) != DiagnosticAad(b', w') {
      AadsDiffer(b, w, b', w');
    }
  }

  /** Nor does a sealed plan open as a diagnostic. */
  lemma PlansAreNotDiagnostics(setting: Setting, plan: Bytes, c: DeploymentContract, e: ExecutionBinding, key: nat,
                               width: nat, nonce: Bytes, forged: Envelope, c': DeploymentContract, e': ExecutionBinding)
    requires SealPlan(setting, plan, c, e, key, width, nonce).Ok?
    requires forged.ciphertext == SealPlan(setting, plan, c, e, key, width, nonce).value.ciphertext
    ensures OpenDiagnostic(setting, forged, c', e').Rejected?
  {
    hide BindingOf, PlanAccepted, FieldsAccepted, PayloadFrom, PlanAad, DiagnosticAad;
    forall b, w, b', w' ensures PlanAad(b, w) != DiagnosticAad(b', w') {
      AadsDiffer(b, w, b', w');
    }
  }
}
