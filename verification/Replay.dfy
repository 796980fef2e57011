/** At-most-once replay of sealed plans (scripts/operator_execution_runtime.py):
    previews and applies run interleaved, step by step, against a versioned
    checkpoint that others may also write. */
module Replay {
  import opened Wrappers
  import opened JsonValues
  import opened Contract
  import opened Schedule
  import opened Base64
  import opened Envelope
  import Diagnostics

  /** One coherent read: coordinates, version and provider, and the document. */
  datatype Snapshot = Snapshot(execution: ExecutionBinding, checkpoint: Bytes)

  datatype Bundle = Bundle(plan: Bytes, preview: Bytes, checkpoint: Bytes)

  /* ---------- the bundle's byte form ---------- */

  function BundleJson(bundle: Bundle): Json {
    JObject(map["plan" := JText(Encode(bundle.plan)), "preview" := JText(Encode(bundle.preview)),
                "checkpoint" := JText(Encode(bundle.checkpoint))])
  }

  function Pack(setting: Setting, bundle: Bundle): Bytes {
    setting.write(BundleJson(bundle))
  }

  function Unbase(value: Json): Option<Bytes> {
    if value.JText? then Lenient(value.text) else None
  }

  /** Three base64 members and no other. */
  function Unpack(setting: Setting, raw: Bytes): Option<Bundle> {
    var value := setting.parse(raw);
    if value.None? || !value.value.JObject? || value.value.members.Keys != {"plan", "preview", "checkpoint"} then None
    else
      var m := value.value.members;
      var plan, preview, checkpoint := Unbase(m["plan"]), Unbase(m["preview"]), Unbase(m["checkpoint"]);
      if plan.None? || preview.None? || checkpoint.None? then None
      else Some(Bundle(plan.value, preview.value, checkpoint.value))
  }

  /** What was bundled is what is unbundled. */
  lemma BundlesUnpack(setting: Setting, bundle: Bundle)
    requires Faithful(setting)
    ensures Unpack(setting, Pack(setting, bundle)) == Some(bundle)
  {
    DecodingInvertsEncoding(bundle.plan);
    DecodingInvertsEncoding(bundle.preview);
    DecodingInvertsEncoding(bundle.checkpoint);
    hide Encode, Lenient;
    assert !HasFloat(BundleJson(bundle));
  }

  datatype Stage = Preview | Apply

  /** A running execution: what it was admitted for, its first snapshot and, once
      an apply has opened its artifact, what it holds. */
  datatype Process = Process(stage: Stage, contract: DeploymentContract, before: Snapshot, holds: Option<Opened>)

  datatype Opened = Opened(bundle: Bundle, ciphertext: Blob)

  datatype SealEvent = SealEvent(contract: DeploymentContract, snapshot: Snapshot, bundle: Bundle, ciphertext: Blob)

  datatype ApplyEvent = ApplyEvent(contract: DeploymentContract, snapshot: Snapshot, bundle: Bundle, ciphertext: Blob)

  /** `ciphertexts` are all that were ever sealed; nobody can make another. */
  datatype World = World(
    current: Snapshot,
    versions: set<string>,
    running: map<nat, Process>,
    ciphertexts: set<Blob>,
    seals: seq<SealEvent>,
    applies: seq<ApplyEvent>)

  datatype Action =
    | Begin(pid: nat, stage: Stage, contract: DeploymentContract)
    | Seal(pid: nat, plan: Bytes, preview: Bytes, validated: bool, key: nat, width: nat, nonce: Bytes)
    | SealFailure(pid: nat, payload: Diagnostics.Payload, key: nat, width: nat, nonce: Bytes)
    | Open(pid: nat, artifact: Envelope)
    | Finish(pid: nat, validated: bool, next: Snapshot)
    | Write(next: Snapshot)

  function Version(snapshot: Snapshot): string {
    snapshot.execution.checkpoint.versionId
  }

  /** A write takes a version that was never used. */
  function Written(w: World, next: Snapshot): World {
    w.(current := next, versions := w.versions + {Version(next)})
  }

  predicate Running(w: World, pid: nat, stage: Stage) {
    pid in w.running && w.running[pid].stage == stage
  }

  /** Preview's end: the snapshot is unchanged, and what was validated is sealed
      together with the checkpoint it was computed from. */
  function SealStep(w: World, setting: Setting, pid: nat, plan: Bytes, preview: Bytes, validated: bool,
                    key: nat, width: nat, nonce: Bytes): World {
    if !(Running(w, pid, Preview) && validated && w.running[pid].before == w.current) then w
    else
      var p := w.running[pid];
      var bundle := Bundle(plan, preview, p.before.checkpoint);
      match SealPlan(setting, Pack(setting, bundle), p.contract, p.before.execution, key, width, nonce)
      case Rejected => w
      case Ok(envelope) =>
        w.(ciphertexts := w.ciphertexts + {envelope.ciphertext},
           seals := w.seals + [SealEvent(p.contract, p.before, bundle, envelope.ciphertext)])
  }

  function SealFailureStep(w: World, setting: Setting, pid: nat, payload: Diagnostics.Payload, key: nat, width: nat,
                           nonce: Bytes): World
  {
    if !Running(w, pid, Preview) then w
    else
      match SealDiagnostic(setting, payload, w.running[pid].contract, w.running[pid].before.execution, key, width,
                           nonce)
      case Rejected => w
      case Ok(envelope) => w.(ciphertexts := w.ciphertexts + {envelope.ciphertext})
  }

  /** Apply's opening: the artifact may be any envelope around a known
      ciphertext; its checkpoint must be the one just read. */
  function OpenStep(w: World, setting: Setting, pid: nat, artifact: Envelope): World {
    if || !Running(w, pid, Apply) || artifact.ciphertext !in w.ciphertexts
       || w.running[pid].contract.identity.command != UP then w
    else
      var p := w.running[pid];
      match OpenPlan(setting, artifact, p.contract, p.before.execution)
      case Rejected => w
      case Ok(bytes) =>
        var bundle := Unpack(setting, bytes);
        if bundle.None? || bundle.value.checkpoint != p.before.checkpoint then w
        else w.(running := w.running[pid := p.(holds := Some(Opened(bundle.value, artifact.ciphertext)))])
  }

  /** Apply's end: the final snapshot equals the first, and the apply that
      follows it at once writes a fresh version. */
  function FinishStep(w: World, pid: nat, validated: bool, next: Snapshot): World {
    if !(Running(w, pid, Apply) && w.running[pid].holds.Some? && validated && w.running[pid].before == w.current
         && Version(next) !in w.versions) then w
    else
      var p := w.running[pid];
      Written(w, next).(running := w.running - {pid},
                        applies := w.applies + [ApplyEvent(p.contract, p.before, p.holds.value.bundle,
                                                           p.holds.value.ciphertext)])
  }

  function Step(w: World, setting: Setting, action: Action): World {
    match action
    case Begin(pid, stage, contract) =>
      if pid in w.running then w else w.(running := w.running[pid := Process(stage, contract, w.current, None)])
    case Seal(pid, plan, preview, validated, key, width, nonce) =>
      SealStep(w, setting, pid, plan, preview, validated, key, width, nonce)
    case SealFailure(pid, payload, key, width, nonce) => SealFailureStep(w, setting, pid, payload, key, width, nonce)
    case Open(pid, artifact) => OpenStep(w, setting, pid, artifact)
    case Finish(pid, validated, next) => FinishStep(w, pid, validated, next)
    case Write(next) => if Version(next) in w.versions then w else Written(w, next)
  }

  function Start(first: Snapshot): World {
    World(first, {Version(first)}, map[], {}, [], [])
  }

  function After(first: Snapshot, setting: Setting, actions: seq<Action>): World {
    if actions == [] then Start(first)
    else Step(After(first, setting, actions[..|actions| - 1]), setting, actions[|actions| - 1])
  }

  /* ---------- the invariant ---------- */

  /** A blob sealed as a plan under a binding. */
  ghost predicate PlanBound(blob: Blob, binding: Binding) {
    blob.Sealed? && exists wrapped :: blob.aad == PlanAad(binding, wrapped)
  }

  ghost predicate AsPlan(blob: Blob) {
    exists binding :: PlanBound(blob, binding)
  }

  lemma PlanBindingIsUnique(blob: Blob, b: Binding, b': Binding)
    requires PlanBound(blob, b) && PlanBound(blob, b')
    ensures b == b'
  {
    hide PlanAad;
    var w :| blob.aad == PlanAad(b, w);
    var w' :| blob.aad == PlanAad(b', w');
    AadsDiffer(b, w, b', w');
  }

  lemma DiagnosticsAreOther(setting: Setting, payload: Diagnostics.Payload, c: DeploymentContract, e: ExecutionBinding,
                            key: nat, width: nat, nonce: Bytes)
    requires SealDiagnostic(setting, payload, c, e, key, width, nonce).Ok?
    ensures var blob := SealDiagnostic(setting, payload, c, e, key, width, nonce).value.ciphertext;
            blob.Sealed? && !AsPlan(blob)
  {
    hide BindingOf, PlanAad, DiagnosticAad, PayloadJson, Diagnostics.FieldsAccepted;
    forall b, w, b', w' ensures PlanAad(b, w) != DiagnosticAad(b', w') {
      AadsDiffer(b, w, b', w');
    }
  }

  /** A seal event's ciphertext is its bundle, under the binding of its contract
      and snapshot. */
  ghost predicate SealedRight(setting: Setting, s: SealEvent) {
    && BindingOf(setting, s.contract, s.snapshot.execution).Ok?
    && s.ciphertext.Sealed?
    && PlanBound(s.ciphertext, BindingOf(setting, s.contract, s.snapshot.execution).value)
    && s.ciphertext.text == Pack(setting, s.bundle)
    && s.bundle.checkpoint == s.snapshot.checkpoint
  }

  ghost predicate SealsRight(w: World, setting: Setting) {
    && (forall s :: s in w.seals ==> SealedRight(setting, s))
    && (forall blob :: blob in w.ciphertexts ==>
          blob.Sealed? && (AsPlan(blob) ==> exists s :: s in w.seals && s.ciphertext == blob))
  }

  /** Something computed for this contract on this very snapshot. */
  ghost predicate Computed(w: World, contract: DeploymentContract, execution: ExecutionBinding, bundle: Bundle,
                           ciphertext: Blob)
  {
    exists s :: s in w.seals && s.contract == contract && s.snapshot.execution == execution && s.bundle == bundle
      && s.ciphertext == ciphertext
  }

  ghost predicate RunningRight(w: World) {
    forall pid :: pid in w.running ==>
      && Version(w.running[pid].before) in w.versions
      && (w.running[pid].holds.Some? ==>
            && Computed(w, w.running[pid].contract, w.running[pid].before.execution,
                        w.running[pid].holds.value.bundle, w.running[pid].holds.value.ciphertext)
            && w.running[pid].holds.value.bundle.checkpoint == w.running[pid].before.checkpoint)
  }

  ghost predicate AppliesRight(w: World) {
    && Version(w.current) in w.versions
    && (forall a :: a in w.applies ==>
          && Computed(w, a.contract, a.snapshot.execution, a.bundle, a.ciphertext)
          && a.bundle.checkpoint == a.snapshot.checkpoint
          && Version(a.snapshot) in w.versions && Version(a.snapshot) != Version(w.current))
    && (forall i, j :: 0 <= i < j < |w.applies| ==> Version(w.applies[i].snapshot) != Version(w.applies[j].snapshot))
  }

  ghost predicate Right(w: World, setting: Setting) {
    SealsRight(w, setting) && RunningRight(w) && AppliesRight(w)
  }

  lemma SealKeepsRight(w: World, setting: Setting, pid: nat, plan: Bytes, preview: Bytes, validated: bool,
                       key: nat, width: nat, nonce: Bytes)
    requires Right(w, setting)
    ensures Right(SealStep(w, setting, pid, plan, preview, validated, key, width, nonce), setting)
  {
    hide BindingOf, PlanAccepted, AsPlan, PlanAad, Pack, Computed;
    var v := SealStep(w, setting, pid, plan, preview, validated, key, width, nonce);
    if v != w {
      var n := |w.seals|;
      assert v.seals[..n] == w.seals && v.seals[n] in v.seals;
      forall blob | blob in v.ciphertexts && AsPlan(blob) ensures exists s :: s in v.seals && s.ciphertext == blob {
        if blob in w.ciphertexts {
          var s :| s in w.seals && s.ciphertext == blob;
          assert s in v.seals;
        }
      }
      ComputedStays(w, v);
    }
  }

  lemma ComputedStays(w: World, v: World)
    requires w.seals <= v.seals
    ensures forall c, e, b, x :: Computed(w, c, e, b, x) ==> Computed(v, c, e, b, x)
  {
    forall c, e, b, x | Computed(w, c, e, b, x) ensures Computed(v, c, e, b, x) {
      var s :| s in w.seals && s.contract == c && s.snapshot.execution == e && s.bundle == b && s.ciphertext == x;
      assert s in v.seals;
    }
  }

  lemma SealFailureKeepsRight(w: World, setting: Setting, pid: nat, payload: Diagnostics.Payload, key: nat, width: nat,
                              nonce: Bytes)
    requires Right(w, setting)
    ensures Right(SealFailureStep(w, setting, pid, payload, key, width, nonce), setting)
  {
    hide SealedRight, SealDiagnostic, AsPlan, Computed;
    var v := SealFailureStep(w, setting, pid, payload, key, width, nonce);
    ComputedStays(w, v);
    if v != w {
      DiagnosticsAreOther(setting, payload, w.running[pid].contract, w.running[pid].before.execution, key, width,
                          nonce);
    }
  }

  /** What an apply opens was sealed for its contract on its snapshot. */
  lemma OpenedIsComputed(w: World, setting: Setting, pid: nat, artifact: Envelope)
    requires Faithful(setting) && SealsRight(w, setting)
    requires pid in w.running && artifact.ciphertext in w.ciphertexts
    requires OpenPlan(setting, artifact, w.running[pid].contract, w.running[pid].before.execution).Ok?
    ensures var p := w.running[pid];
            var bundle := Unpack(setting, OpenPlan(setting, artifact, p.contract, p.before.execution).value);
            bundle.Some? && Computed(w, p.contract, p.before.execution, bundle.value, artifact.ciphertext)
  {
    var p := w.running[pid];
    OpenedWasSealed(setting, artifact, p.contract, p.before.execution);
    hide BindingOf, OpenPlan, PlanAad, PlanBound, Faithful, Unpack, Pack;
    assert PlanBound(artifact.ciphertext, BindingOf(setting, p.contract, p.before.execution).value) by {
      OpenedIsBound(setting, artifact, p.contract, p.before.execution);
    }
    assert AsPlan(artifact.ciphertext);
    var s :| s in w.seals && s.ciphertext == artifact.ciphertext;
    assert SealedRight(setting, s);
    PlanBindingIsUnique(s.ciphertext, BindingOf(setting, s.contract, s.snapshot.execution).value,
                        BindingOf(setting, p.contract, p.before.execution).value);
    BindingsBind(setting, s.contract, s.snapshot.execution, p.contract, p.before.execution);
    BundlesUnpack(setting, s.bundle);
  }

  lemma OpenedIsBound(setting: Setting, artifact: Envelope, c: DeploymentContract, e: ExecutionBinding)
    requires OpenPlan(setting, artifact, c, e).Ok? && BindingOf(setting, c, e).Ok?
    ensures PlanBound(artifact.ciphertext, BindingOf(setting, c, e).value)
  {
    OpenedWasSealed(setting, artifact, c, e);
    hide OpenPlan, BindingOf, PlanAad;
  }

  /** One ciphertext was sealed for one contract and execution. */
  lemma SealsOfOneBlob(setting: Setting, s: SealEvent, t: SealEvent)
    requires SealedRight(setting, s) && SealedRight(setting, t) && s.ciphertext == t.ciphertext
    ensures s.contract == t.contract && s.snapshot.execution == t.snapshot.execution
  {
    hide BindingOf, PlanBound, Pack;
    PlanBindingIsUnique(s.ciphertext, BindingOf(setting, s.contract, s.snapshot.execution).value,
                        BindingOf(setting, t.contract, t.snapshot.execution).value);
    BindingsBind(setting, s.contract, s.snapshot.execution, t.contract, t.snapshot.execution);
  }

  lemma OpenKeepsRight(w: World, setting: Setting, pid: nat, artifact: Envelope)
    requires Faithful(setting) && Right(w, setting)
    ensures Right(OpenStep(w, setting, pid, artifact), setting)
  {
    hide OpenPlan, SealedRight, Faithful;
    var v := OpenStep(w, setting, pid, artifact);
    if v != w {
      OpenedIsComputed(w, setting, pid, artifact);
      ComputedStays(w, v);
      hide Computed;
    }
  }

  lemma FinishKeepsRight(w: World, setting: Setting, pid: nat, validated: bool, next: Snapshot)
    requires Right(w, setting)
    ensures Right(FinishStep(w, pid, validated, next), setting)
  {
    hide SealedRight;
    var v := FinishStep(w, pid, validated, next);
    ComputedStays(w, v);
    hide Computed;
  }

  lemma OtherKeepsRight(w: World, setting: Setting, action: Action)
    requires Right(w, setting) && (action.Begin? || action.Write?)
    ensures Right(Step(w, setting, action), setting)
  {
    hide SealedRight;
    var v := Step(w, setting, action);
    ComputedStays(w, v);
    hide Computed;
  }

  lemma {:induction false} AlwaysRight(first: Snapshot, setting: Setting, actions: seq<Action>)
    requires Faithful(setting)
    ensures Right(After(first, setting, actions), setting)
  {
    if actions != [] {
      var n := |actions| - 1;
      AlwaysRight(first, setting, actions[..n]);
      var w := After(first, setting, actions[..n]);
      hide Right, Faithful;
      match actions[n]
      case Seal(pid, plan, preview, validated, key, width, nonce) =>
        SealKeepsRight(w, setting, pid, plan, preview, validated, key, width, nonce);
      case SealFailure(pid, payload, key, width, nonce) =>
        SealFailureKeepsRight(w, setting, pid, payload, key, width, nonce);
      case Open(pid, artifact) => OpenKeepsRight(w, setting, pid, artifact);
      case Finish(pid, validated, next) => FinishKeepsRight(w, setting, pid, validated, next);
      case _ => OtherKeepsRight(w, setting, actions[n]);
    }
  }

  /* ---------- the promise ---------- */

  /** In every interleaving, what is applied was previewed and sealed under the
      same contract, on exactly the checkpoint version it is applied to. */
  lemma AppliedWhereComputed(first: Snapshot, setting: Setting, actions: seq<Action>, i: nat)
    requires Faithful(setting) && i < |After(first, setting, actions).applies|
    ensures var w := After(first, setting, actions); var a := w.applies[i];
            exists s :: && s in w.seals && s.contract == a.contract && s.snapshot == a.snapshot
                        && s.bundle == a.bundle && s.ciphertext == a.ciphertext
  {
    AlwaysRight(first, setting, actions);
    var w := After(first, setting, actions);
    var a := w.applies[i];
    hide After;
    assert Computed(w, a.contract, a.snapshot.execution, a.bundle, a.ciphertext);
    var s :| s in w.seals && s.contract == a.contract && s.snapshot.execution == a.snapshot.execution
             && s.bundle == a.bundle && s.ciphertext == a.ciphertext;
    assert SealedRight(setting, s);
    assert s.snapshot == a.snapshot;
  }

  /** And it is applied at most once: no sealed plan, nor even two plans of one
      checkpoint version, is ever applied twice. */
  lemma AppliedAtMostOnce(first: Snapshot, setting: Setting, actions: seq<Action>, i: nat, j: nat)
    requires Faithful(setting) && i < j < |After(first, setting, actions).applies|
    ensures var applies := After(first, setting, actions).applies;
            && Version(applies[i].snapshot) != Version(applies[j].snapshot)
            && applies[i].ciphertext != applies[j].ciphertext
  {
    var w := After(first, setting, actions);
    AlwaysRight(first, setting, actions);
    AppliedWhereComputed(first, setting, actions, i);
    AppliedWhereComputed(first, setting, actions, j);
    hide After, SealedRight, RunningRight, Computed;
    var a, b := w.applies[i], w.applies[j];
    var s :| s in w.seals && s.snapshot == a.snapshot && s.contract == a.contract && s.ciphertext == a.ciphertext;
    var t :| t in w.seals && t.snapshot == b.snapshot && t.contract == b.contract && t.ciphertext == b.ciphertext;
    assert SealedRight(setting, s) && SealedRight(setting, t);
    if a.ciphertext == b.ciphertext {
      SealsOfOneBlob(setting, s, t);
    }
  }
}
