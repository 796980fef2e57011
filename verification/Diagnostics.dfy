/** Bounded diagnostic capture and the sizes of what is sealed
    (scripts/operator_execution_transport.py, scripts/operator_execution_runtime.py,
    scripts/operator_plan_envelope.py). */
module Diagnostics {
  import opened Wrappers
  import opened Base64

  const MIB := 1024 * 1024
  const MAX_PLAN_BYTES := 32 * MIB
  const MAX_ENVELOPE_BYTES := 48 * MIB
  const MAX_CONTEXT_BYTES := 8192
  const MAX_WRAPPED_BYTES := 6144
  const NONCE_BYTES := 12
  const TAG_BYTES := 16
  const MAX_STDOUT_BYTES := 32 * MIB
  const MAX_STDERR_BYTES := MIB
  const MAX_PAYLOAD_BYTES := 45 * MIB
  const MAX_DIAGNOSTIC_ENVELOPE_BYTES := 61 * MIB
  const MAX_REASON_BYTES := 4096
  const MAX_LABEL := 128

  /* ---------- capture ---------- */

  function Prefix(s: Bytes, maximum: nat): Bytes {
    if |s| <= maximum then s else s[..maximum]
  }

  /** A stream as captured: its exact prefix, flagged when there was more. */
  ghost predicate Captured(kept: Bytes, truncated: bool, fed: Bytes, maximum: nat) {
    kept == Prefix(fed, maximum) && (truncated <==> |fed| > maximum)
  }

  lemma CapturedMore(kept: Bytes, truncated: bool, fed: Bytes, chunk: Bytes, maximum: nat)
    requires Captured(kept, truncated, fed, maximum)
    ensures |kept| <= maximum
    ensures Captured(kept + Prefix(chunk, maximum - |kept|), truncated || |chunk| > maximum - |kept|,
                     fed + chunk, maximum)
  {
  }

  class DiagnosticCapture {
    var stdout: Bytes
    var stderr: Bytes
    var stdoutTruncated: bool
    var stderrTruncated: bool
    /** Everything the two streams produced. */
    ghost var fedOut: Bytes
    ghost var fedErr: Bytes

    ghost predicate Valid()
      reads this
    {
      && Captured(stdout, stdoutTruncated, fedOut, MAX_STDOUT_BYTES)
      && Captured(stderr, stderrTruncated, fedErr, MAX_STDERR_BYTES)
    }

    constructor ()
      ensures Valid() && fedOut == [] && fedErr == []
    {
      stdout, stderr, stdoutTruncated, stderrTruncated := [], [], false, false;
      fedOut, fedErr := [], [];
    }

    /** Keep what still fits of a chunk; note that some did not. */
    method Append(toStdout: bool, chunk: Bytes)
      requires Valid()
      modifies this
      ensures Valid()
      ensures fedOut == old(fedOut) + if toStdout then chunk else []
      ensures fedErr == old(fedErr) + if toStdout then [] else chunk
    {
      if toStdout {
        CapturedMore(stdout, stdoutTruncated, fedOut, chunk, MAX_STDOUT_BYTES);
        var remaining := MAX_STDOUT_BYTES - |stdout|;
        stdout := stdout + Prefix(chunk, remaining);
        if |chunk| > remaining {
          stdoutTruncated := true;
        }
        fedOut, fedErr := fedOut + chunk, fedErr + [];
      } else {
        CapturedMore(stderr, stderrTruncated, fedErr, chunk, MAX_STDERR_BYTES);
        var remaining := MAX_STDERR_BYTES - |stderr|;
        stderr := stderr + Prefix(chunk, remaining);
        if |chunk| > remaining {
          stderrTruncated := true;
        }
        fedOut, fedErr := fedOut + [], fedErr + chunk;
      }
    }

    /** The drain loop: however the streams are cut into chunks and interleaved,
        the capture depends only on their contents. */
    method Drain(chunks: seq<(bool, Bytes)>)
      requires Valid()
      modifies this
      ensures Valid()
      ensures fedOut == old(fedOut) + Stream(chunks, true) && fedErr == old(fedErr) + Stream(chunks, false)
    {
      hide Stream, Captured;
      StreamSnoc([], (true, []));
      for i := 0 to |chunks|
        invariant Valid()
        invariant fedOut == old(fedOut) + Stream(chunks[..i], true)
                  && fedErr == old(fedErr) + Stream(chunks[..i], false)
      {
        assert chunks[..i + 1] == chunks[..i] + [chunks[i]];
        StreamSnoc(chunks[..i], chunks[i]);
        Append(chunks[i].0, chunks[i].1);
      }
      assert chunks[..|chunks|] == chunks;
    }
  }

  /** The bytes of one of the two streams, in order. */
  function Stream(chunks: seq<(bool, Bytes)>, toStdout: bool): Bytes {
    if chunks == [] then []
    else
      var n := |chunks| - 1;
      Stream(chunks[..n], toStdout) + if chunks[n].0 == toStdout then chunks[n].1 else []
  }

  lemma StreamSnoc(chunks: seq<(bool, Bytes)>, chunk: (bool, Bytes))
    ensures Stream(chunks + [chunk], true) == Stream(chunks, true) + if chunk.0 then chunk.1 else []
    ensures Stream(chunks + [chunk], false) == Stream(chunks, false) + if chunk.0 then [] else chunk.1
    ensures Stream([], true) == Stream([], false) == []
  {
    assert (chunks + [chunk])[..|chunks|] == chunks;
  }

  /* ---------- text sizes ---------- */

  /** A code point's width in UTF-8 and in ASCII-only JSON. */
  function Utf8Width(c: char): nat {
    if c as int < 0x80 then 1 else if c as int < 0x800 then 2 else if c as int < 0x10000 then 3 else 4
  }

  function EscapedWidth(c: char): nat {
    if c in {'"', '\\', '\n', '\r', '\t'} || c as int in {8, 12} then 2
    else if 32 <= c as int < 127 then 1
    else if c as int < 0x10000 then 6
    else 12
  }

  function Utf8Length(s: string): nat {
    if s == "" then 0 else Utf8Width(s[0]) + Utf8Length(s[1..])
  }

  function EscapedLength(s: string): nat {
    if s == "" then 0 else EscapedWidth(s[0]) + EscapedLength(s[1..])
  }

  lemma {:induction false} EscapingGrowsSixfold(s: string)
    ensures EscapedLength(s) <= 6 * Utf8Length(s)
  {
    if s != "" {
      EscapingGrowsSixfold(s[1..]);
    }
  }

  predicate Label(s: string) {
    0 < |s| <= MAX_LABEL && forall c :: c in s ==> 33 <= c as int <= 126
  }

  lemma {:induction false} LabelLength(s: string)
    requires forall c :: c in s ==> 33 <= c as int <= 126
    ensures EscapedLength(s) <= 2 * |s|
  {
    if s != "" {
      assert s[0] in s;
      assert forall c :: c in s[1..] ==> c in s;
      LabelLength(s[1..]);
    }
  }

  /* ---------- the diagnostic payload ---------- */

  datatype Payload = Payload(
    stage: string,
    category: string,
    exitCode: Option<int>,
    stdout: string,
    stderr: string,
    stdoutTruncated: bool,
    stderrTruncated: bool,
    reason: string)

  const PAYLOAD_FRAME := "{\"category\":\"\",\"exit_code\":,\"stage\":\"\",\"stderr\":\"\",\"stderr_truncated\":,"
                       + "\"stdout\":\"\",\"stdout_truncated\":,\"validation_reason\":\"\"}"

  /** Widest rendering of an exit code or a boolean. */
  const SCALAR_WIDTH := 5

  /** The size of the payload's canonical JSON, at most. */
  function PayloadLength(p: Payload): nat {
    |PAYLOAD_FRAME| + 3 * SCALAR_WIDTH + EscapedLength(p.category) + EscapedLength(p.stage) + EscapedLength(p.reason)
    + |p.stdout| + |p.stderr|
  }

  predicate ExitCodeAccepted(code: Option<int>) {
    code.Some? ==> -127 <= code.value <= 255 && code.value != 0
  }

  predicate FieldsAccepted(p: Payload) {
    && Label(p.stage) && Label(p.category)
    && |p.reason| <= MAX_REASON_BYTES && Utf8Length(p.reason) <= MAX_REASON_BYTES
    && ExitCodeAccepted(p.exitCode)
    && Decode(p.stdout, 0, MAX_STDOUT_BYTES).Ok?
    && Decode(p.stderr, 0, MAX_STDERR_BYTES).Ok?
  }

  predicate PayloadAccepted(p: Payload) {
    FieldsAccepted(p) && PayloadLength(p) <= MAX_PAYLOAD_BYTES
  }

  /** The payload a failed preview seals. */
  function PayloadOf(stage: string, category: string, exitCode: Option<int>, stdout: Bytes, stderr: Bytes,
                     stdoutTruncated: bool, stderrTruncated: bool, reason: string): Payload {
    Payload(stage, category, exitCode, Encode(stdout), Encode(stderr), stdoutTruncated, stderrTruncated, reason)
  }

  lemma EncodedWithin(raw: Bytes, maximum: nat)
    requires |raw| <= maximum
    ensures |Encode(raw)| <= 4 * ((maximum + 2) / 3)
  {
    EncodedLength(raw);
    LongerEncodesLonger(|raw|, maximum);
  }

  /** A payload whose fields are in bounds is within the payload bound: the size
      check never fires. */
  lemma AcceptedFieldsFit(p: Payload)
    requires FieldsAccepted(p)
    ensures PayloadAccepted(p)
  {
    var out, err := Decode(p.stdout, 0, MAX_STDOUT_BYTES).value, Decode(p.stderr, 0, MAX_STDERR_BYTES).value;
    EncodedWithin(out, MAX_STDOUT_BYTES);
    EncodedWithin(err, MAX_STDERR_BYTES);
    LabelLength(p.stage);
    LabelLength(p.category);
    EscapingGrowsSixfold(p.reason);
    hide Decode, Encode, EscapedLength, Utf8Length;
  }

  lemma CapturedLength(kept: Bytes, truncated: bool, fed: Bytes, maximum: nat)
    requires Captured(kept, truncated, fed, maximum)
    ensures |kept| <= maximum
  {
  }

  /* ---------- what a failure is sealed as ---------- */

  /** A Python string's element: a character, or a lone surrogate, which has no
      UTF-8. */
  datatype Symbol = Scalar(c: char) | Surrogate

  /** The exception behind a failed stage; attributes of another type than the
      expected one are absent. */
  datatype Failure =
    | ProcessFailure(category: Option<string>, exitCode: Option<int>)
    | ValueError(message: Option<seq<Symbol>>)
    | OtherError

  const STAGES := [
    "initialization", "transport-setup", "public-output", "admission", "tools", "initial-enrollment",
    "initial-snapshot", "saved-plan-input", "plan-validation", "iam-analysis", "destructive-review",
    "admission-recheck", "final-enrollment", "final-snapshot", "pulumi-preview", "pulumi-apply", "pulumi-drift",
    "post-preview-snapshot", "post-apply-snapshot", "drift-validation", "plan-seal"]

  const PROCESS_CATEGORIES := [
    "spawn-failed", "process-timeout", "stdout-bound", "stderr-bound", "process-exit", "child-cleanup-failed",
    "unknown"]

  const PREVIEW_INPUTS := "preview-inputs"

  function StageOf(stage: Option<string>): string {
    if stage.Some? && stage.value in STAGES then stage.value else "unknown"
  }

  function CategoryOf(failure: Failure): string {
    match failure
    case ProcessFailure(category, _) =>
      if category.Some? && category.value in PROCESS_CATEGORIES then category.value else "unknown"
    case ValueError(_) => "validation-rejected"
    case OtherError => "unknown"
  }

  function SafeExitCode(code: Option<int>): Option<int> {
    if code.Some? && -127 <= code.value <= 255 && code.value != 0 then code else None
  }

  function ExitCodeOf(failure: Failure): Option<int> {
    if failure.ProcessFailure? then SafeExitCode(failure.exitCode) else None
  }

  /** A question mark stands for what cannot be encoded. */
  function Encodable(message: seq<Symbol>): (r: string)
    ensures |r| == |message|
  {
    seq(|message|, i requires 0 <= i < |message| => if message[i].Scalar? then message[i].c else '?')
  }

  /** The characters whose encodings lie wholly within the first `n` bytes: what
      decoding those bytes leaves when the cut character is ignored. */
  function Whole(s: string, n: nat): (r: string)
    ensures r <= s && Utf8Length(r) <= n
  {
    if s == "" || Utf8Width(s[0]) > n then "" else [s[0]] + Whole(s[1..], n - Utf8Width(s[0]))
  }

  /** The cut loses no more than it must. */
  lemma {:induction false} WholeIsLongest(s: string, n: nat, prefix: string)
    requires prefix <= s && Utf8Length(prefix) <= n
    ensures prefix <= Whole(s, n)
  {
    if prefix != "" {
      WholeIsLongest(s[1..], n - Utf8Width(s[0]), prefix[1..]);
    }
  }

  /** The first mismatching resource as one line of JSON, when it is one the
      validator may describe and its line is short enough. */
  function MismatchReason(comparison: Option<string>): string {
    if comparison.Some? && Utf8Length(comparison.value) <= MAX_REASON_BYTES then comparison.value else PREVIEW_INPUTS
  }

  function ReasonOf(failure: Failure, comparison: Option<string>): string {
    var reason :=
      if failure.ValueError? && failure.message.Some? then
        var message := failure.message.value;
        Whole(Encodable(if |message| <= MAX_REASON_BYTES then message else message[..MAX_REASON_BYTES]),
              MAX_REASON_BYTES)
      else "";
    if reason == PREVIEW_INPUTS then MismatchReason(comparison) else reason
  }

  lemma {:induction false} WidthIsPositive(s: string)
    ensures |s| <= Utf8Length(s)
  {
    if s != "" {
      WidthIsPositive(s[1..]);
    }
  }

  lemma ReasonsFit(failure: Failure, comparison: Option<string>)
    ensures |ReasonOf(failure, comparison)| <= MAX_REASON_BYTES
    ensures Utf8Length(ReasonOf(failure, comparison)) <= MAX_REASON_BYTES
  {
    PreviewInputsFits();
    WidthIsPositive(ReasonOf(failure, comparison));
    hide Whole, Utf8Length, Encodable;
  }

  lemma PreviewInputsFits()
    ensures Utf8Length(PREVIEW_INPUTS) == 14 && Utf8Length("") == 0
  {
    assert Utf8Length("") == 0;
    hide Utf8Length;
    ShortText(PREVIEW_INPUTS);
  }

  /** Plain text takes a byte a character. */
  lemma {:induction false} ShortText(s: string)
    requires forall c :: c in s ==> c as int < 128
    ensures Utf8Length(s) == |s|
  {
    if s != "" {
      assert s[0] in s;
      assert forall c :: c in s[1..] ==> c in s;
      ShortText(s[1..]);
    }
  }

  lemma StagesAreLabels(k: nat)
    requires k < |STAGES|
    ensures Label(STAGES[k])
  {
    hide Label;
    if k < 11 {
      EarlyStagesAreLabels(k);
    } else {
      LateStagesAreLabels(k);
    }
  }

  lemma EarlyStagesAreLabels(k: nat)
    requires k < 11
    ensures Label(STAGES[k])
  {
  }

  lemma LateStagesAreLabels(k: nat)
    requires 11 <= k < |STAGES|
    ensures Label(STAGES[k])
  {
  }

  lemma CategoriesAreLabels(k: nat)
    requires k < |PROCESS_CATEGORIES|
    ensures Label(PROCESS_CATEGORIES[k])
  {
  }

  lemma LabelsAreAccepted(failure: Failure, stage: Option<string>)
    ensures Label(StageOf(stage)) && Label(CategoryOf(failure))
  {
    if stage.Some? && stage.value in STAGES {
      var k :| 0 <= k < |STAGES| && STAGES[k] == stage.value;
      StagesAreLabels(k);
    }
    if failure.ProcessFailure? && failure.category.Some? && failure.category.value in PROCESS_CATEGORIES {
      var k :| 0 <= k < |PROCESS_CATEGORIES| && PROCESS_CATEGORIES[k] == failure.category.value;
      CategoriesAreLabels(k);
    }
  }

  /** Whatever failed, wherever, and whatever the streams produced: what is
      sealed about it is a payload the envelope accepts. */
  lemma CapturedPayloadsAreAccepted(failure: Failure, stage: Option<string>, comparison: Option<string>,
                                    fedOut: Bytes, fedErr: Bytes, stdout: Bytes, stderr: Bytes,
                                    outTruncated: bool, errTruncated: bool)
    requires Captured(stdout, outTruncated, fedOut, MAX_STDOUT_BYTES)
    requires Captured(stderr, errTruncated, fedErr, MAX_STDERR_BYTES)
    ensures PayloadAccepted(PayloadOf(StageOf(stage), CategoryOf(failure), ExitCodeOf(failure), stdout, stderr,
                                      outTruncated, errTruncated, ReasonOf(failure, comparison)))
  {
    LabelsAreAccepted(failure, stage);
    ReasonsFit(failure, comparison);
    hide Encode, Decode, Captured, Utf8Length, PayloadLength, StageOf, CategoryOf, ReasonOf, Label;
    CapturedLength(stdout, outTruncated, fedOut, MAX_STDOUT_BYTES);
    CapturedLength(stderr, errTruncated, fedErr, MAX_STDERR_BYTES);
    DecodeAcceptsExactlyCanonical(Encode(stdout), 0, MAX_STDOUT_BYTES, stdout);
    DecodeAcceptsExactlyCanonical(Encode(stderr), 0, MAX_STDERR_BYTES, stderr);
    AcceptedFieldsFit(PayloadOf(StageOf(stage), CategoryOf(failure), ExitCodeOf(failure), stdout, stderr,
                                outTruncated, errTruncated, ReasonOf(failure, comparison)));
  }

  /* ---------- envelopes ---------- */

  /** The canonical text of a saved-plan envelope. */
  function PlanEnvelope(binding: string, wrapped: Bytes, nonce: Bytes, ciphertext: Bytes): string {
    "{\"binding\":" + binding + ",\"ciphertext\":\"" + Encode(ciphertext) + "\",\"nonce\":\"" + Encode(nonce)
    + "\",\"schema\":1,\"wrapped_key\":\"" + Encode(wrapped) + "\"}"
  }

  function DiagnosticEnvelope(binding: string, wrapped: Bytes, nonce: Bytes, ciphertext: Bytes): string {
    "{\"binding\":" + binding + ",\"ciphertext\":\"" + Encode(ciphertext)
    + "\",\"kind\":\"operator-private-diagnostic-v1\",\"nonce\":\"" + Encode(nonce)
    + "\",\"schema\":1,\"wrapped_key\":\"" + Encode(wrapped) + "\"}"
  }

  predicate PartsAccepted(binding: string, wrapped: Bytes, nonce: Bytes) {
    |binding| <= MAX_CONTEXT_BYTES && 0 < |wrapped| <= MAX_WRAPPED_BYTES && |nonce| == NONCE_BYTES
  }

  /** A plan within its bound seals within the envelope bound, with room to
      spare: that check never fires either. */
  lemma PlansFit(binding: string, wrapped: Bytes, nonce: Bytes, ciphertext: Bytes, size: nat)
    requires PartsAccepted(binding, wrapped, nonce) && size <= MAX_PLAN_BYTES && |ciphertext| == size + TAG_BYTES
    ensures |PlanEnvelope(binding, wrapped, nonce, ciphertext)| <= MAX_ENVELOPE_BYTES
  {
    EncodedWithin(ciphertext, MAX_PLAN_BYTES + TAG_BYTES);
    EncodedWithin(wrapped, MAX_WRAPPED_BYTES);
    EncodedWithin(nonce, NONCE_BYTES);
    hide Encode;
  }

  lemma DiagnosticsFit(binding: string, wrapped: Bytes, nonce: Bytes, ciphertext: Bytes, size: nat)
    requires PartsAccepted(binding, wrapped, nonce) && size <= MAX_PAYLOAD_BYTES && |ciphertext| == size + TAG_BYTES
    ensures |DiagnosticEnvelope(binding, wrapped, nonce, ciphertext)| <= MAX_DIAGNOSTIC_ENVELOPE_BYTES
  {
    EncodedWithin(ciphertext, MAX_PAYLOAD_BYTES + TAG_BYTES);
    EncodedWithin(wrapped, MAX_WRAPPED_BYTES);
    EncodedWithin(nonce, NONCE_BYTES);
    hide Encode;
  }
}
