/** Acknowledging, grouping and fingerprinting operations alerts
    (scripts/operations_alert_triage.py). */
module Alerts {
  import opened Wrappers
  import opened JsonValues
  import opened Sorting

  /** A queue message; `Body` nests a notification that nests an event. */
  type Message = Members

  datatype Envelope = Malformed | Parsed(sns: Members, event: Members)

  /** Installed readers: strict and lenient parsing of a message, timestamps,
      printable text, how a value other than text prints, and digests. */
  datatype Readers = Readers(
    strict: Message -> Envelope,
    event: Message -> Members,
    isTime: Json -> bool,
    isPrintable: string -> bool,
    format: Json -> string,
    messageDigest: Message -> string,
    partsDigest: Parts -> string)

  /** What a batch is expected from. */
  datatype Context = Context(accountId: string, region: string, topic: string)

  /** Different parts have different digests. */
  ghost predicate Ideal(readers: Readers) {
    forall p, q :: readers.partsDigest(p) == readers.partsDigest(q) ==> p == q
  }

  predicate Blank(s: string) {
    forall c :: c in s ==> Space(c)
  }

  predicate NonemptyText(value: Json, readers: Readers) {
    value.JText? && !Blank(value.text) && readers.isPrintable(value.text)
  }

  /** How a value prints. */
  function Printed(value: Json, readers: Readers): string {
    if value.JText? then value.text else readers.format(value)
  }

  /* ---------- disposition ---------- */

  datatype Disposition = Actionable | Benign | Quarantine

  datatype Verdict = Verdict(disposition: Disposition, reason: string)

  const JOB_TYPES := map["Backup Job State Change" := "backupJobId", "Copy Job State Change" := "copyJobId",
                         "Restore Job State Change" := "restoreJobId"]

  predicate BackupEnvelope(message: Message, sns: Members, event: Members, context: Context, readers: Readers) {
    && Get(sns, "Type") == JText("Notification")
    && Get(sns, "TopicArn") == JText(context.topic)
    && Get(event, "account") == JText(context.accountId)
    && Get(event, "region") == JText(context.region)
    && readers.isTime(Get(event, "time"))
    && NonemptyText(Get(message, "MessageId"), readers) && NonemptyText(Get(message, "ReceiptHandle"), readers)
    && NonemptyText(Get(sns, "MessageId"), readers)
    && NonemptyText(Get(event, "id"), readers) && NonemptyText(Get(event, "time"), readers)
  }

  /** The states a backup event reports, under either name or both. */
  function BackupStates(detail: Members): seq<Json> {
    (if "state" in detail then [detail["state"]] else []) + if "status" in detail then [detail["status"]] else []
  }

  function BackupState(detail: Members): (r: (Option<string>, string)) {
    var states := BackupStates(detail);
    if states == [] || exists i :: 0 <= i < |states| && !states[i].JText? then (None, "invalid_backup_state")
    else if |states| == 2 && states[0] != states[1] then (None, "conflicting_backup_state")
    else (Some(states[0].text), "")
  }

  function BackupVerdict(detail: Members): Verdict {
    var message := Get(detail, "statusMessage");
    match BackupState(detail)
    case (None, error) => Verdict(Quarantine, error)
    case (Some(state), _) =>
      if "StatusMessage" in detail || !(message.JNull? || message.JText?)
        then Verdict(Quarantine, "invalid_backup_status_message")
      else if state in {"FAILED", "ABORTED", "EXPIRED"} then Verdict(Actionable, "backup_terminal_failure")
      else if state != "COMPLETED" then Verdict(Quarantine, "unexpected_backup_state")
      else if message in {JNull, JText("")} then Verdict(Benign, "backup_completed_without_warning")
      else Verdict(Actionable, "backup_completed_with_warning")
  }

  function MessageVerdict(message: Message, context: Context, readers: Readers): Verdict {
    match readers.strict(message)
    case Malformed => Verdict(Quarantine, "invalid_alert_envelope")
    case Parsed(sns, event) =>
      var kind, detail := Get(event, "detail-type"), Get(event, "detail");
      if Get(event, "source") != JText("aws.backup") then Verdict(Actionable, "existing_alert")
      else if !kind.JText? then Verdict(Quarantine, "invalid_backup_type")
      else if kind.text !in JOB_TYPES then Verdict(Actionable, "existing_alert")
      else if !BackupEnvelope(message, sns, event, context, readers) then Verdict(Quarantine, "invalid_backup_envelope")
      else if !detail.JObject? || !NonemptyText(Get(detail.members, JOB_TYPES[kind.text]), readers) then
        Verdict(Quarantine, "invalid_backup_job")
      else BackupVerdict(detail.members)
  }

  /** Only a well-formed, completed backup event of this account, region and
      topic, free of warnings, is acknowledged without an alert. */
  lemma BenignMeansCompleted(message: Message, context: Context, readers: Readers)
    requires MessageVerdict(message, context, readers).disposition == Benign
    ensures readers.strict(message).Parsed?
    ensures var event := readers.strict(message).event;
            && Get(event, "account") == JText(context.accountId) && Get(event, "region") == JText(context.region)
            && Get(readers.strict(message).sns, "TopicArn") == JText(context.topic)
            && Get(event, "detail").JObject?
            && var detail := Get(event, "detail").members;
               && (forall key :: key in {"state", "status"} && key in detail ==> detail[key] == JText("COMPLETED"))
               && ("state" in detail || "status" in detail)
               && Get(detail, "statusMessage") in {JNull, JText("")} && "StatusMessage" !in detail
  {
    var detail := Get(readers.strict(message).event, "detail").members;
    var states := BackupStates(detail);
    assert forall i :: 0 <= i < |states| ==> states[i].JText?;
  }

  /* ---------- acknowledging a batch ---------- */

  function Receipt(message: Message): Json {
    Get(message, "ReceiptHandle")
  }

  function Receipts(messages: seq<Message>, readers: Readers): multiset<string> {
    if messages == [] then multiset{}
    else
      var n := |messages| - 1;
      Receipts(messages[..n], readers) + multiset{Printed(Receipt(messages[n]), readers)}
  }

  /** A message's final verdict in its batch. */
  function Settled(message: Message, receipts: multiset<string>, context: Context, readers: Readers): Verdict {
    if !NonemptyText(Receipt(message), readers) then Verdict(Quarantine, "invalid_receipt")
    else if receipts[Printed(Receipt(message), readers)] != 1 then Verdict(Quarantine, "duplicate_receipt")
    else MessageVerdict(message, context, readers)
  }

  function Filtered(messages: seq<Message>, receipts: multiset<string>, context: Context, readers: Readers,
                    kept: set<Disposition>): seq<Message> {
    if messages == [] then []
    else
      var n := |messages| - 1;
      Filtered(messages[..n], receipts, context, readers, kept)
      + if Settled(messages[n], receipts, context, readers).disposition in kept then [messages[n]] else []
  }

  datatype Record = Record(messageSha256: string, disposition: Disposition, reason: string)

  function RecordOf(message: Message, verdict: Verdict, readers: Readers): Record {
    Record(readers.messageDigest(message), verdict.disposition, verdict.reason)
  }

  /** The topic must be a named one of the trusted account and region. */
  predicate TopicAccepted(context: Context, readers: Readers) {
    var prefix := "arn:aws:sns:" + context.region + ":" + context.accountId + ":";
    prefix <= context.topic && NonemptyText(JText(context.topic[|prefix|..]), readers)
  }

  datatype Classified = Classified(actionable: seq<Message>, acknowledged: seq<string>, records: seq<Record>)

  /** The loop: one audit record for each message, in order; what is acted on
      and what is acknowledged are in-order selections.  A foreign topic refuses
      the whole batch. */
  method ClassifiedAlerts(messages: seq<Message>, context: Context, readers: Readers) returns (r: Result<Classified>)
    ensures r.Ok? <==> TopicAccepted(context, readers)
    ensures r.Ok? ==> var receipts := Receipts(messages, readers);
                      && r.value.actionable == Filtered(messages, receipts, context, readers, {Actionable})
                      && r.value.acknowledged ==
                         Handles(Filtered(messages, receipts, context, readers, {Actionable, Benign}), readers)
                      && |r.value.records| == |messages|
                      && forall i :: 0 <= i < |messages| ==>
                           r.value.records[i] ==
                           RecordOf(messages[i], Settled(messages[i], receipts, context, readers), readers)
  {
    hide MessageVerdict, NonemptyText, Printed;
    if !TopicAccepted(context, readers) {
      return Rejected;
    }
    var receipts := Receipts(messages, readers);
    var actionable: seq<Message>, acknowledged: seq<string>, records: seq<Record> := [], [], [];
    for i := 0 to |messages|
      invariant actionable == Filtered(messages[..i], receipts, context, readers, {Actionable})
      invariant acknowledged ==
                Handles(Filtered(messages[..i], receipts, context, readers, {Actionable, Benign}), readers)
      invariant |records| == i
      invariant forall k :: 0 <= k < i ==>
                  records[k] == RecordOf(messages[k], Settled(messages[k], receipts, context, readers), readers)
    {
      var message := messages[i];
      var verdict := MessageVerdict(message, context, readers);
      assert messages[..i + 1][..i] == messages[..i];
      if !NonemptyText(Receipt(message), readers) {
        verdict := Verdict(Quarantine, "invalid_receipt");
      } else if receipts[Printed(Receipt(message), readers)] != 1 {
        verdict := Verdict(Quarantine, "duplicate_receipt");
      }
      if verdict.disposition == Actionable {
        actionable := actionable + [message];
      }
      if verdict.disposition != Quarantine {
        acknowledged := acknowledged + [Printed(Receipt(message), readers)];
      }
      records := records + [RecordOf(message, verdict, readers)];
    }
    assert messages[..|messages|] == messages;
    return Ok(Classified(actionable, acknowledged, records));
  }

  function Handles(messages: seq<Message>, readers: Readers): (r: seq<string>)
    ensures |r| == |messages| && forall i :: 0 <= i < |r| ==> r[i] == Printed(Receipt(messages[i]), readers)
  {
    seq(|messages|, i requires 0 <= i < |messages| => Printed(Receipt(messages[i]), readers))
  }

  lemma {:induction false} FilteredMembers(messages: seq<Message>, receipts: multiset<string>, context: Context,
                                           readers: Readers, kept: set<Disposition>)
    ensures forall m :: m in Filtered(messages, receipts, context, readers, kept)
                   <==> m in messages && Settled(m, receipts, context, readers).disposition in kept
  {
    hide Settled;
    if messages != [] {
      var n := |messages| - 1;
      FilteredMembers(messages[..n], receipts, context, readers, kept);
      assert forall m :: m in messages <==> m in messages[..n] || m == messages[n];
    }
  }

  lemma {:induction false} ReceiptCounted(messages: seq<Message>, readers: Readers, i: nat, j: nat)
    requires i < j < |messages|
    ensures Printed(Receipt(messages[i]), readers) == Printed(Receipt(messages[j]), readers) ==>
              Receipts(messages, readers)[Printed(Receipt(messages[i]), readers)] >= 2
  {
    hide Printed, Receipt;
    var n := |messages| - 1;
    assert messages[..n][i] == messages[i];
    if j < n {
      ReceiptCounted(messages[..n], readers, i, j);
    } else {
      ReceiptPresent(messages[..n], readers, i);
    }
  }

  lemma {:induction false} ReceiptPresent(messages: seq<Message>, readers: Readers, i: nat)
    requires i < |messages|
    ensures Receipts(messages, readers)[Printed(Receipt(messages[i]), readers)] >= 1
  {
    hide Printed;
    var n := |messages| - 1;
    if i < n {
      ReceiptPresent(messages[..n], readers, i);
    }
  }

  /** Two places of an in-order selection come from two places of the batch. */
  lemma {:induction false} FilteredPlaces(messages: seq<Message>, receipts: multiset<string>, context: Context,
                                          readers: Readers, kept: set<Disposition>, i: nat, j: nat)
    returns (a: nat, b: nat)
    requires i < j < |Filtered(messages, receipts, context, readers, kept)|
    ensures a < b < |messages|
    ensures messages[a] == Filtered(messages, receipts, context, readers, kept)[i]
    ensures messages[b] == Filtered(messages, receipts, context, readers, kept)[j]
  {
    hide Settled;
    var n := |messages| - 1;
    var before := Filtered(messages[..n], receipts, context, readers, kept);
    if j < |before| {
      a, b := FilteredPlaces(messages[..n], receipts, context, readers, kept, i, j);
    } else {
      FilteredMembers(messages[..n], receipts, context, readers, kept);
      assert before[i] in messages[..n];
      a :| 0 <= a < n && messages[..n][a] == before[i];
      b := n;
    }
  }

  /** No receipt is acknowledged twice, and every acknowledged one is the
      printable text of its message. */
  lemma AcknowledgedOnce(messages: seq<Message>, context: Context, readers: Readers, i: nat, j: nat)
    requires i < j < |Filtered(messages, Receipts(messages, readers), context, readers, {Actionable, Benign})|
    ensures var kept := Filtered(messages, Receipts(messages, readers), context, readers, {Actionable, Benign});
            && Receipt(kept[i]).JText? && Receipt(kept[j]).JText?
            && Receipt(kept[i]).text != Receipt(kept[j]).text
  {
    var receipts := Receipts(messages, readers);
    var kept := Filtered(messages, receipts, context, readers, {Actionable, Benign});
    FilteredMembers(messages, receipts, context, readers, {Actionable, Benign});
    var a, b := FilteredPlaces(messages, receipts, context, readers, {Actionable, Benign}, i, j);
    ReceiptCounted(messages, readers, a, b);
    hide Filtered, Receipts, MessageVerdict;
    assert kept[i] in kept && kept[j] in kept;
  }

  /* ---------- fingerprints ---------- */

  const VOLATILE := {"backupJobId", "copyJobId", "eventID", "eventId", "eventTime", "recoveryPointArn", "requestID",
                     "requestId", "restoreJobId", "time", "x-amz-request-id", "xAmzRequestId"}

  /** A value without per-occurrence members, at any depth. */
  function Stable(value: Json): Json {
    match value
    case JObject(members) => JObject(map k | k in members && k !in VOLATILE :: Stable(members[k]))
    case JArray(items) => JArray(seq(|items|, i requires 0 <= i < |items| => Stable(items[i])))
    case _ => value
  }

  /** Two values that differ in nothing but volatile members. */
  ghost predicate AlikeButVolatile(a: Json, b: Json) {
    match a
    case JObject(members) =>
      && b.JObject?
      && (forall k :: k !in VOLATILE ==> (k in members <==> k in b.members))
      && (forall k :: k in members && k !in VOLATILE && k in b.members ==> AlikeButVolatile(members[k], b.members[k]))
    case JArray(items) =>
      && b.JArray? && |items| == |b.items|
      && forall i :: 0 <= i < |items| && i < |b.items| ==> AlikeButVolatile(items[i], b.items[i])
    case _ => a == b
  }

  lemma {:induction false} StableIgnoresVolatile(a: Json, b: Json)
    ensures Stable(a) == Stable(b) <==> AlikeButVolatile(a, b)
  {
    match a
    case JObject(members) =>
      if b.JObject? {
        forall k | k in members && k in b.members
          ensures Stable(members[k]) == Stable(b.members[k]) <==> AlikeButVolatile(members[k], b.members[k])
        {
          StableIgnoresVolatile(members[k], b.members[k]);
        }
        StableObjects(members, b.members);
      }
    case JArray(items) =>
      if b.JArray? {
        forall i | 0 <= i < |items| && i < |b.items|
          ensures Stable(items[i]) == Stable(b.items[i]) <==> AlikeButVolatile(items[i], b.items[i])
        {
          StableIgnoresVolatile(items[i], b.items[i]);
        }
        StableLists(items, b.items);
      }
    case _ =>
  }

  lemma StableObjects(a: Members, b: Members)
    ensures Stable(JObject(a)) == Stable(JObject(b))
       <==> && (forall k :: k !in VOLATILE ==> (k in a <==> k in b))
            && (forall k :: k in a && k !in VOLATILE && k in b ==> Stable(a[k]) == Stable(b[k]))
  {
    var x, y := Stable(JObject(a)).members, Stable(JObject(b)).members;
    hide VOLATILE;
    assert forall k :: k in x <==> k in a && k !in VOLATILE;
    assert forall k :: k in y <==> k in b && k !in VOLATILE;
    if x == y {
      forall k | k in a && k !in VOLATILE && k in b ensures Stable(a[k]) == Stable(b[k]) {
        assert x[k] == y[k];
      }
    }
  }

  lemma StableLists(a: seq<Json>, b: seq<Json>)
    ensures Stable(JArray(a)) == Stable(JArray(b))
       <==> |a| == |b| && forall i :: 0 <= i < |a| && i < |b| ==> Stable(a[i]) == Stable(b[i])
  {
    var x, y := Stable(JArray(a)).items, Stable(JArray(b)).items;
    if x == y {
      forall i | 0 <= i < |a| && i < |b| ensures Stable(a[i]) == Stable(b[i]) {
        assert x[i] == y[i];
      }
    }
  }

  datatype Parts = Parts(source: Json, detailType: Json, state: Json, vault: Json, plan: Json, rule: Json,
                         resource: Json, detail: Json, hasResources: bool, resources: Json)

  function DetailOf(event: Members): Members {
    var detail := Get(event, "detail");
    if detail.JObject? then detail.members else map[]
  }

  function PartsOf(event: Members): Parts {
    var detail := DetailOf(event);
    Parts(Get(event, "source"), Get(event, "detail-type"), Get(detail, "state"), Get(detail, "backupVaultName"),
          Get(detail, "backupPlanId"), Get(detail, "backupRuleId"), Get(detail, "resourceArn"), Stable(JObject(detail)),
          "resources" in event, Stable(Get(event, "resources")))
  }

  function Fingerprint(message: Message, readers: Readers): string {
    readers.partsDigest(PartsOf(readers.event(message)))
  }

  predicate SameIdentity(a: Members, b: Members) {
    && Get(a, "source") == Get(b, "source") && Get(a, "detail-type") == Get(b, "detail-type")
    && (forall key :: key in {"state", "backupVaultName", "backupPlanId", "backupRuleId", "resourceArn"} ==>
          Get(DetailOf(a), key) == Get(DetailOf(b), key))
    && ("resources" in a <==> "resources" in b)
  }

  /** The same stream: identity fields agree and the rest differs, at whatever
      depth, only in volatile members. */
  ghost predicate SameStream(a: Members, b: Members) {
    && SameIdentity(a, b)
    && AlikeButVolatile(JObject(DetailOf(a)), JObject(DetailOf(b)))
    && AlikeButVolatile(Get(a, "resources"), Get(b, "resources"))
  }

  lemma PartsIdentifyStreams(a: Members, b: Members)
    ensures PartsOf(a) == PartsOf(b) <==> SameStream(a, b)
  {
    StableIgnoresVolatile(JObject(DetailOf(a)), JObject(DetailOf(b)));
    StableIgnoresVolatile(Get(a, "resources"), Get(b, "resources"));
    hide Stable, AlikeButVolatile, DetailOf;
    var identity := {"state", "backupVaultName", "backupPlanId", "backupRuleId", "resourceArn"};
    assert "state" in identity && "backupVaultName" in identity && "backupPlanId" in identity
           && "backupRuleId" in identity && "resourceArn" in identity;
  }

  /** Messages of one stream share a fingerprint, whatever the digest. */
  lemma StreamsShareFingerprints(a: Message, b: Message, readers: Readers)
    requires SameStream(readers.event(a), readers.event(b))
    ensures Fingerprint(a, readers) == Fingerprint(b, readers)
  {
    hide SameStream, PartsOf;
    PartsIdentifyStreams(readers.event(a), readers.event(b));
  }

  /** Under an ideal digest only they do. */
  lemma FingerprintsIdentifyStreams(a: Message, b: Message, readers: Readers)
    requires Ideal(readers)
    ensures Fingerprint(a, readers) == Fingerprint(b, readers) <==> SameStream(readers.event(a), readers.event(b))
  {
    hide SameStream, PartsOf;
    PartsIdentifyStreams(readers.event(a), readers.event(b));
  }

  /* ---------- groups and batches ---------- */

  function WithFingerprint(messages: seq<Message>, fingerprint: string, readers: Readers): seq<Message> {
    if messages == [] then []
    else
      var n := |messages| - 1;
      WithFingerprint(messages[..n], fingerprint, readers)
      + if Fingerprint(messages[n], readers) == fingerprint then [messages[n]] else []
  }

  function Fingerprints(messages: seq<Message>, readers: Readers): (r: set<string>)
    ensures forall f :: f in r <==> exists m :: m in messages && Fingerprint(m, readers) == f
  {
    set m | m in messages :: Fingerprint(m, readers)
  }

  /** The loop: append each message to its fingerprint's group. */
  method CollectGroups(messages: seq<Message>, readers: Readers) returns (groups: map<string, seq<Message>>)
    ensures groups.Keys == Fingerprints(messages, readers)
    ensures forall f :: f in groups ==> groups[f] == WithFingerprint(messages, f, readers)
  {
    hide Fingerprint;
    groups := map[];
    for i := 0 to |messages|
      invariant forall f :: f in groups <==> exists m :: m in messages[..i] && Fingerprint(m, readers) == f
      invariant forall f :: f in groups ==> groups[f] == WithFingerprint(messages[..i], f, readers)
    {
      var message := messages[i];
      var fingerprint := Fingerprint(message, readers);
      assert messages[..i + 1][..i] == messages[..i];
      assert forall m :: m in messages[..i + 1] <==> m in messages[..i] || m == message;
      if fingerprint !in groups {
        NoneYet(messages[..i], fingerprint, readers);
      }
      groups := groups[fingerprint := (if fingerprint in groups then groups[fingerprint] else []) + [message]];
    }
    assert messages[..|messages|] == messages;
  }

  datatype Group = Group(fingerprint: string, messages: seq<Message>)

  /** The groups in fingerprint order, one for each stream of the batch, with
      its messages in batch order. */
  method AlertGroups(messages: seq<Message>, readers: Readers) returns (groups: seq<Group>)
    ensures |groups| == |Fingerprints(messages, readers)|
    ensures forall i, j :: 0 <= i < j < |groups| ==> Less(groups[i].fingerprint, groups[j].fingerprint)
    ensures forall i :: 0 <= i < |groups| ==>
              && groups[i].fingerprint in Fingerprints(messages, readers)
              && groups[i].messages == WithFingerprint(messages, groups[i].fingerprint, readers)
  {
    hide Fingerprints, WithFingerprint, Less;
    var collected := CollectGroups(messages, readers);
    var order := SortSet(collected.Keys);
    ListingLength(order, collected.Keys);
    groups := [];
    for i := 0 to |order|
      invariant |groups| == i
      invariant forall k :: 0 <= k < i ==> groups[k] == Group(order[k], WithFingerprint(messages, order[k], readers))
    {
      assert order[i] in order;
      groups := groups + [Group(order[i], collected[order[i]])];
    }
  }

  lemma {:induction false} NoneYet(messages: seq<Message>, fingerprint: string, readers: Readers)
    requires forall m :: m in messages ==> Fingerprint(m, readers) != fingerprint
    ensures WithFingerprint(messages, fingerprint, readers) == []
  {
    hide Fingerprint;
    if messages != [] {
      NoneYet(messages[..|messages| - 1], fingerprint, readers);
    }
  }

  /** Grouping partitions the batch: a message occurs in its own fingerprint's
      group as often as in the batch, and in no other. */
  lemma MultisetSnoc<T>(xs: seq<T>)
    requires xs != []
    ensures multiset(xs) == multiset(xs[..|xs| - 1]) + multiset{xs[|xs| - 1]}
  {
    assert xs == xs[..|xs| - 1] + [xs[|xs| - 1]];
  }

  lemma {:induction false} GroupsPartition(messages: seq<Message>, message: Message, fingerprint: string,
                                           readers: Readers)
    ensures multiset(WithFingerprint(messages, fingerprint, readers))[message]
         == if Fingerprint(message, readers) == fingerprint then multiset(messages)[message] else 0
  {
    hide Fingerprint;
    if messages != [] {
      var n := |messages| - 1;
      GroupsPartition(messages[..n], message, fingerprint, readers);
      MultisetSnoc(messages);
    }
  }

  datatype BatchFingerprint = Empty | One(fingerprint: string) | Many(fingerprints: seq<string>)

  /** One stream keeps its own fingerprint; several are digested in order. */
  function Batch(messages: seq<Message>, readers: Readers): BatchFingerprint {
    var listing := Sorted(FingerprintList(messages, readers));
    if messages == [] then Empty else if |listing| == 1 then One(listing[0]) else Many(listing)
  }

  function FingerprintList(messages: seq<Message>, readers: Readers): (r: seq<string>)
    ensures |r| == |messages| && forall i :: 0 <= i < |r| ==> r[i] == Fingerprint(messages[i], readers)
  {
    seq(|messages|, i requires 0 <= i < |messages| => Fingerprint(messages[i], readers))
  }

  lemma BatchLists(messages: seq<Message>, readers: Readers)
    ensures Lists(Sorted(FingerprintList(messages, readers)), Fingerprints(messages, readers))
  {
    var list := FingerprintList(messages, readers);
    hide Fingerprint, Ascending;
    SortedLists(list);
    forall f ensures f in list <==> f in Fingerprints(messages, readers) {
      if f in Fingerprints(messages, readers) {
        var m :| m in messages && Fingerprint(m, readers) == f;
        var i :| 0 <= i < |messages| && messages[i] == m;
        assert list[i] == f;
      }
      if f in list {
        var i :| 0 <= i < |list| && list[i] == f;
        assert messages[i] in messages;
      }
    }
  }

  /** A batch is identified by its set of streams: reordering or repeating
      messages never changes its fingerprint, adding a stream always does. */
  lemma BatchesIdentifyStreamSets(a: seq<Message>, b: seq<Message>, readers: Readers)
    ensures Batch(a, readers) == Batch(b, readers) <==> Fingerprints(a, readers) == Fingerprints(b, readers)
  {
    BatchLists(a, readers);
    BatchLists(b, readers);
    hide Fingerprint, Ascending;
    var x, y := Sorted(FingerprintList(a, readers)), Sorted(FingerprintList(b, readers));
    SomeFingerprint(a, readers);
    SomeFingerprint(b, readers);
    if Fingerprints(a, readers) == Fingerprints(b, readers) {
      ListingIsUnique(x, y, Fingerprints(a, readers));
    }
    if Batch(a, readers) == Batch(b, readers) && a != [] {
      assert x == y by {
        assert |x| == 1 ==> x == [x[0]];
        assert |y| == 1 ==> y == [y[0]];
      }
      assert forall f :: f in Fingerprints(a, readers) <==> f in x;
      assert forall f :: f in Fingerprints(b, readers) <==> f in y;
    }
  }

  lemma SomeFingerprint(messages: seq<Message>, readers: Readers)
    ensures messages == [] <==> Fingerprints(messages, readers) == {}
  {
    hide Fingerprint;
    if messages != [] {
      assert messages[0] in messages;
      assert Fingerprint(messages[0], readers) in Fingerprints(messages, readers);
    }
  }
}
