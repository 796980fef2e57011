/** The stack-wide storage and logging rules (policy/guardrails.py): an S3 bucket
    may be encrypted or logged by another resource of the stack, so the rules
    index those resources first and then report what nothing covers. */
module StackIndex {
  import opened Wrappers
  import opened JsonValues

  /** A resource the `bucket` property of another one depends on. */
  datatype Dependency = Dependency(kind: string, urn: string)

  datatype Resource = Resource(kind: string, urn: Option<string>, props: Members, bucketDependencies: seq<Dependency>)

  /** The two rules are built alike. */
  datatype Control = Encryption | Logging

  datatype Violation = Violation(urn: Option<string>, message: string)

  const S3_BUCKET := "s3/bucket:Bucket"
  const ENCRYPTION_KINDS := [
    "s3/bucketServerSideEncryptionConfiguration:BucketServerSideEncryptionConfiguration",
    "s3/bucketServerSideEncryptionConfigurationV2:BucketServerSideEncryptionConfigurationV2"]
  const LOGGING_KINDS := ["s3/bucketLogging:BucketLogging"]
  const EBS_VOLUME := "ec2/volume:Volume"
  const EFS_FILE_SYSTEM := "efs/fileSystem:FileSystem"
  const RDS_CLUSTER := "rds/cluster:Cluster"
  const RDS_INSTANCE := "rds/instance:Instance"
  const LOAD_BALANCER := "lb/loadBalancer:LoadBalancer"
  const ALGORITHMS := ["AES256", "aws:fsx", "aws:kms", "aws:kms:dsse"]
  const UNKNOWN := "04da6b54-80e4-46f7-96ec-b56ff0331ba9"
  const LOGGING_EXEMPT_TAG := "LoggingExempt"
  const LOGGING_EXEMPT_REASON_TAG := "LoggingExemptReason"

  const UNENCRYPTED_BUCKET := "S3 buckets must enable default server-side encryption."
  const UNENCRYPTED_VOLUME := "EBS volumes must enable encryption at rest."
  const UNENCRYPTED_FILE_SYSTEM := "EFS file systems must enable encryption at rest."
  const UNENCRYPTED_DATABASE := "RDS databases must enable storage encryption."
  const UNLOGGED_BUCKET := "S3 buckets must send access logs to a target bucket."
  const UNLOGGED_BALANCER := "Load balancers must enable access logs."

  /* ---------- reading one resource ---------- */

  predicate Matches(kind: string, suffix: string) {
    |suffix| <= |kind| && kind[|kind| - |suffix|..] == suffix
  }

  predicate MatchesAny(kind: string, suffixes: seq<string>) {
    exists i :: 0 <= i < |suffixes| && Matches(kind, suffixes[i])
  }

  function StripLeft(s: string): string {
    if s == "" || !Space(s[0]) then s else StripLeft(s[1..])
  }

  function StripRight(s: string): string {
    if s == "" || !Space(s[|s| - 1]) then s else StripRight(s[..|s| - 1])
  }

  /** A stripped text, if anything is left of it. */
  function StringValue(value: Json): (r: Option<string>)
    ensures r.Some? ==> r.value != ""
  {
    if !value.JText? || StripRight(StripLeft(value.text)) == "" then None
    else Some(StripRight(StripLeft(value.text)))
  }

  function Lower(s: string): string {
    seq(|s|, i requires 0 <= i < |s| => if 'A' <= s[i] <= 'Z' then (s[i] as int + 32) as char else s[i])
  }

  predicate Truthy(value: Json) {
    match value
    case JBool(flag) => flag
    case JText(text) => Lower(StripRight(StripLeft(text))) in ["1", "true", "yes", "on"]
    case _ => false
  }

  /** A name the provider does not know yet names nothing. */
  function ConcreteName(value: Json): (r: Option<string>)
    ensures r.Some? ==> r.value != ""
  {
    if StringValue(value) == Some(UNKNOWN) then None else StringValue(value)
  }

  predicate EncryptsByDefault(rule: Json) {
    && rule.JObject?
    && Get(rule.members, "applyServerSideEncryptionByDefault").JObject?
    && var algorithm := StringValue(Get(Get(rule.members, "applyServerSideEncryptionByDefault").members,
                                        "sseAlgorithm"));
       algorithm.Some? && algorithm.value in ALGORITHMS
  }

  /** The rule given inline or one of the rules given apart. */
  predicate HasDefaultRule(props: Members) {
    || EncryptsByDefault(Get(props, "rule"))
    || (&& Get(props, "rules").JArray?
        && var rules := Get(props, "rules").items;
           exists i :: 0 <= i < |rules| && EncryptsByDefault(rules[i]))
  }

  function Tag(props: Members, name: string): Json {
    var all, own := Get(props, "tagsAll"), Get(props, "tags");
    if own.JObject? && name in own.members then own.members[name]
    else if all.JObject? then Get(all.members, name)
    else JNull
  }

  predicate LoggingExempt(props: Members) {
    Truthy(Tag(props, LOGGING_EXEMPT_TAG)) && StringValue(Tag(props, LOGGING_EXEMPT_REASON_TAG)).Some?
  }

  /* ---------- the index ---------- */

  /** A standalone resource that does configure the control. */
  predicate Configures(control: Control, resource: Resource) {
    match control
    case Encryption => MatchesAny(resource.kind, ENCRYPTION_KINDS) && HasDefaultRule(resource.props)
    case Logging =>
      MatchesAny(resource.kind, LOGGING_KINDS) && ConcreteName(Get(resource.props, "targetBucket")).Some?
  }

  /** The bucket itself configures the control, or is exempt from it. */
  predicate Inline(control: Control, props: Members) {
    match control
    case Encryption =>
      && Get(props, "serverSideEncryptionConfiguration").JObject?
      && HasDefaultRule(Get(props, "serverSideEncryptionConfiguration").members)
    case Logging =>
      || LoggingExempt(props)
      || (&& Get(props, "logging").JObject?
          && ConcreteName(Get(Get(props, "logging").members, "targetBucket")).Some?)
  }

  /** What a standalone resource protects: a bucket name, and the buckets its
      `bucket` property depends on. */
  predicate Names(resource: Resource, name: string) {
    ConcreteName(Get(resource.props, "bucket")) == Some(name)
  }

  predicate DependsOn(resource: Resource, urn: string) {
    && urn != ""
    && exists i :: 0 <= i < |resource.bucketDependencies|
         && Matches(resource.bucketDependencies[i].kind, S3_BUCKET) && resource.bucketDependencies[i].urn == urn
  }

  datatype Index = Index(names: set<string>, urns: set<string>)

  /** The index holds exactly what some configuring resource protects. */
  ghost predicate Indexes(index: Index, resources: seq<Resource>, control: Control) {
    && (forall name :: name in index.names <==>
          exists r :: r in resources && Configures(control, r) && Names(r, name))
    && (forall urn :: urn in index.urns <==>
          exists r :: r in resources && Configures(control, r) && DependsOn(r, urn))
  }

  lemma IndexIsUnique(a: Index, b: Index, resources: seq<Resource>, control: Control)
    requires Indexes(a, resources, control) && Indexes(b, resources, control)
    ensures a == b
  {
    SameMembers(a.names, b.names);
    SameMembers(a.urns, b.urns);
  }

  lemma SameMembers<T>(a: set<T>, b: set<T>)
    requires forall x :: x in a <==> x in b
    ensures a == b
  {
  }

  /** The inner loop: the buckets a configuring resource depends on. */
  method DependencyUrns(known: set<string>, resource: Resource) returns (urns: set<string>)
    ensures forall urn :: urn in urns <==> urn in known || DependsOn(resource, urn)
  {
    urns := known;
    var dependencies := resource.bucketDependencies;
    for i := 0 to |dependencies|
      invariant forall urn :: urn in urns <==>
                  (|| urn in known
                   || (&& urn != ""
                       && exists k :: 0 <= k < i && Matches(dependencies[k].kind, S3_BUCKET)
                            && dependencies[k].urn == urn))
    {
      if Matches(dependencies[i].kind, S3_BUCKET) && dependencies[i].urn != "" {
        urns := urns + {dependencies[i].urn};
      }
    }
  }

  /** The outer loop: every standalone resource of the stack. */
  method Targets(control: Control, resources: seq<Resource>) returns (index: Index)
    ensures Indexes(index, resources, control)
  {
    hide Configures, Names, DependsOn;
    index := Index({}, {});
    for i := 0 to |resources|
      invariant Indexes(index, resources[..i], control)
    {
      var resource := resources[i];
      MembersSnoc(resources, i);
      if Configures(control, resource) {
        var name := ConcreteName(Get(resource.props, "bucket"));
        var names := if name.Some? then index.names + {name.value} else index.names;
        assert forall n :: n in names <==> n in index.names || Names(resource, n) by {
          NamedOnce(resource, index.names);
        }
        var urns := DependencyUrns(index.urns, resource);
        IndexedOne(index, resources[..i], resource, resources[..i + 1], names, urns, control);
        index := Index(names, urns);
      } else {
        SkippedOne(index, resources[..i], resource, resources[..i + 1], control);
      }
    }
    assert resources[..|resources|] == resources;
  }

  lemma MembersSnoc<T(!new)>(xs: seq<T>, i: nat)
    requires i < |xs|
    ensures forall x :: x in xs[..i + 1] <==> x in xs[..i] || x == xs[i]
  {
    assert xs[..i + 1] == xs[..i] + [xs[i]];
  }

  lemma NamedOnce(resource: Resource, names: set<string>)
    ensures var name := ConcreteName(Get(resource.props, "bucket"));
            forall n :: n in (if name.Some? then names + {name.value} else names) <==> n in names || Names(resource, n)
  {
  }

  lemma IndexedOne(index: Index, before: seq<Resource>, resource: Resource, after: seq<Resource>,
                   names: set<string>, urns: set<string>, control: Control)
    requires Indexes(index, before, control) && Configures(control, resource)
    requires forall r :: r in after <==> r in before || r == resource
    requires forall n :: n in names <==> n in index.names || Names(resource, n)
    requires forall u :: u in urns <==> u in index.urns || DependsOn(resource, u)
    ensures Indexes(Index(names, urns), after, control)
  {
    hide Configures, Names, DependsOn;
  }

  lemma SkippedOne(index: Index, before: seq<Resource>, resource: Resource, after: seq<Resource>, control: Control)
    requires Indexes(index, before, control) && !Configures(control, resource)
    requires forall r :: r in after <==> r in before || r == resource
    ensures Indexes(index, after, control)
  {
    hide Configures, Names, DependsOn;
  }

  /* ---------- what is reported ---------- */

  predicate Bucket(resource: Resource) {
    Matches(resource.kind, S3_BUCKET)
  }

  /** A bucket found in the index, or configured inline. */
  predicate Covered(control: Control, resource: Resource, index: Index) {
    && Bucket(resource)
    && (|| Inline(control, resource.props)
        || (resource.urn.Some? && resource.urn.value in index.urns)
        || (var name := ConcreteName(Get(resource.props, "bucket")); name.Some? && name.value in index.names))
  }

  /** What one resource would be told on its own. */
  function Messages(control: Control, resource: Resource): seq<string> {
    match control
    case Encryption =>
      (if Bucket(resource) && !Inline(Encryption, resource.props) then [UNENCRYPTED_BUCKET] else [])
      + (if Matches(resource.kind, EBS_VOLUME) && !Truthy(Get(resource.props, "encrypted"))
         then [UNENCRYPTED_VOLUME] else [])
      + (if Matches(resource.kind, EFS_FILE_SYSTEM) && !Truthy(Get(resource.props, "encrypted"))
         then [UNENCRYPTED_FILE_SYSTEM] else [])
      + (if MatchesAny(resource.kind, [RDS_CLUSTER, RDS_INSTANCE]) && !Truthy(Get(resource.props, "storageEncrypted"))
         then [UNENCRYPTED_DATABASE] else [])
    case Logging =>
      if Bucket(resource) && LoggingExempt(resource.props) then []
      else
        (if Bucket(resource) && !Inline(Logging, resource.props) then [UNLOGGED_BUCKET] else [])
        + (if && Matches(resource.kind, LOAD_BALANCER)
              && !(&& Get(resource.props, "accessLogs").JObject?
                   && Truthy(Get(Get(resource.props, "accessLogs").members, "enabled")))
           then [UNLOGGED_BALANCER] else [])
  }

  function Reports(control: Control, resource: Resource): (r: seq<Violation>)
    ensures |r| == |Messages(control, resource)|
    ensures forall i :: 0 <= i < |r| ==> r[i] == Violation(resource.urn, Messages(control, resource)[i])
  {
    var messages := Messages(control, resource);
    seq(|messages|, i requires 0 <= i < |messages| => Violation(resource.urn, messages[i]))
  }

  function ReportsOf(control: Control, resource: Resource, index: Index): seq<Violation> {
    if Covered(control, resource, index) then [] else Reports(control, resource)
  }

  /** The reports of the resources nothing covers, in order. */
  function Reported(control: Control, resources: seq<Resource>, index: Index): seq<Violation> {
    if resources == [] then []
    else
      var n := |resources| - 1;
      Reported(control, resources[..n], index) + ReportsOf(control, resources[n], index)
  }

  /** The rule: index the stack, then report. */
  method StackViolations(control: Control, resources: seq<Resource>) returns (violations: seq<Violation>)
    ensures exists index :: Indexes(index, resources, control) && violations == Reported(control, resources, index)
  {
    var index := Targets(control, resources);
    hide Indexes, Covered, Reports;
    violations := [];
    for i := 0 to |resources|
      invariant violations == Reported(control, resources[..i], index)
    {
      assert resources[..i + 1][..i] == resources[..i];
      if !Covered(control, resources[i], index) {
        violations := violations + Reports(control, resources[i]);
      }
    }
    assert resources[..|resources|] == resources;
  }

  /* ---------- what the rule means ---------- */

  /** Some resource of the stack protects this bucket, or it does itself. */
  ghost predicate Protected(control: Control, bucket: Resource, resources: seq<Resource>) {
    || Inline(control, bucket.props)
    || exists other :: other in resources && Protects(control, other, bucket)
  }

  predicate Protects(control: Control, other: Resource, bucket: Resource) {
    && Configures(control, other)
    && (|| (bucket.urn.Some? && DependsOn(other, bucket.urn.value))
        || (var name := ConcreteName(Get(bucket.props, "bucket")); name.Some? && Names(other, name.value)))
  }

  /** Looking a bucket up in the index is asking for a protector in the stack. */
  lemma CoveredMeansProtected(control: Control, bucket: Resource, resources: seq<Resource>, index: Index)
    requires Indexes(index, resources, control)
    ensures Covered(control, bucket, index) <==> Bucket(bucket) && Protected(control, bucket, resources)
  {
    hide Configures, Names, DependsOn, Inline, Bucket;
    var name := ConcreteName(Get(bucket.props, "bucket"));
    if Bucket(bucket) && Covered(control, bucket, index) && !Inline(control, bucket.props) {
      if bucket.urn.Some? && bucket.urn.value in index.urns {
        var r :| r in resources && Configures(control, r) && DependsOn(r, bucket.urn.value);
        assert Protects(control, r, bucket);
      } else {
        var r :| r in resources && Configures(control, r) && Names(r, name.value);
        assert Protects(control, r, bucket);
      }
    }
  }

  lemma {:induction false} ReportedAre(control: Control, resources: seq<Resource>, index: Index, violation: Violation)
    ensures violation in Reported(control, resources, index) <==>
              exists r :: r in resources && !Covered(control, r, index) && violation in Reports(control, r)
  {
    hide Covered, Reports;
    if resources != [] {
      var n := |resources| - 1;
      ReportedAre(control, resources[..n], index, violation);
      MembersSnoc(resources, n);
      assert resources[..n + 1] == resources;
    }
  }

  lemma SuffixesDiffer(kind: string)
    requires Matches(kind, S3_BUCKET)
    ensures !Matches(kind, EBS_VOLUME) && !Matches(kind, EFS_FILE_SYSTEM) && !Matches(kind, LOAD_BALANCER)
    ensures !MatchesAny(kind, [RDS_CLUSTER, RDS_INSTANCE])
  {
    LastLetters(kind, S3_BUCKET);
    LastLetters(kind, EBS_VOLUME);
    LastLetters(kind, EFS_FILE_SYSTEM);
    LastLetters(kind, LOAD_BALANCER);
    LastLetters(kind, RDS_CLUSTER);
    LastLetters(kind, RDS_INSTANCE);
    assert S3_BUCKET[|S3_BUCKET| - 1] == 't' && EBS_VOLUME[|EBS_VOLUME| - 1] == 'e';
    assert EFS_FILE_SYSTEM[|EFS_FILE_SYSTEM| - 1] == 'm' && LOAD_BALANCER[|LOAD_BALANCER| - 1] == 'r';
    assert RDS_CLUSTER[|RDS_CLUSTER| - 1] == 'r' && RDS_INSTANCE[|RDS_INSTANCE| - 1] == 'e';
  }

  lemma LastLetters(kind: string, suffix: string)
    requires suffix != ""
    ensures Matches(kind, suffix) ==> kind != "" && kind[|kind| - 1] == suffix[|suffix| - 1]
  {
    if Matches(kind, suffix) {
      assert kind[|kind| - |suffix|..][|suffix| - 1] == suffix[|suffix| - 1];
    }
  }

  /** A bucket that does not configure the control itself has just one message. */
  lemma BucketMessages(control: Control, bucket: Resource)
    requires Bucket(bucket)
    ensures Messages(control, bucket) ==
            if Inline(control, bucket.props) then []
            else [if control == Encryption then UNENCRYPTED_BUCKET else UNLOGGED_BUCKET]
  {
    SuffixesDiffer(bucket.kind);
    hide Matches, MatchesAny, HasDefaultRule, LoggingExempt;
  }

  /** A message is reported of exactly the unprotected buckets and of the other
      resources that lack the control: where the protecting resource stands in
      the stack, and which of them protects, plays no part. */
  lemma ReportedMeansUnprotected(control: Control, resources: seq<Resource>, index: Index, violation: Violation)
    requires Indexes(index, resources, control)
    ensures violation in Reported(control, resources, index) <==>
              exists r :: r in resources && r.urn == violation.urn && Lacks(control, r, resources, violation.message)
  {
    ReportedAre(control, resources, index, violation);
    forall r ensures (!Covered(control, r, index) && violation in Reports(control, r)) <==>
                     (r.urn == violation.urn && Lacks(control, r, resources, violation.message)) {
      CoveredMeansProtected(control, r, resources, index);
      ReportsAre(control, r, violation);
      if Bucket(r) {
        BucketMessages(control, r);
      }
    }
    hide Covered, Reports, Lacks;
  }

  ghost predicate Lacks(control: Control, r: Resource, resources: seq<Resource>, message: string) {
    if Bucket(r) then
      && !Protected(control, r, resources)
      && message == (if control == Encryption then UNENCRYPTED_BUCKET else UNLOGGED_BUCKET)
    else message in Messages(control, r)
  }

  lemma ReportsAre(control: Control, r: Resource, violation: Violation)
    ensures violation in Reports(control, r) <==> violation.urn == r.urn && violation.message in Messages(control, r)
  {
    var reports, messages := Reports(control, r), Messages(control, r);
    hide Messages;
    if violation.urn == r.urn && violation.message in messages {
      var i :| 0 <= i < |messages| && messages[i] == violation.message;
      assert reports[i] == violation;
    }
  }

  /* ---------- order and growth ---------- */

  lemma {:induction false} ReportedConcat(control: Control, xs: seq<Resource>, ys: seq<Resource>, index: Index)
    ensures Reported(control, xs + ys, index) == Reported(control, xs, index) + Reported(control, ys, index)
  {
    hide *;
    if ys == [] {
      ReportedNone(control, index);
      assert xs + [] == xs;
    } else {
      var front, last := ys[..|ys| - 1], ys[|ys| - 1];
      ReportedConcat(control, xs, front, index);
      ReportedSnoc(control, xs + front, last, index);
      ReportedSnoc(control, front, last, index);
      SplitLast(xs, ys);
      Associates(Reported(control, xs, index), Reported(control, front, index), ReportsOf(control, last, index));
    }
  }

  lemma ReportedNone(control: Control, index: Index)
    ensures Reported(control, [], index) == []
  {
  }

  lemma Associates<T>(a: seq<T>, b: seq<T>, c: seq<T>)
    ensures a + b + c == a + (b + c)
  {
  }

  lemma SplitLast<T>(xs: seq<T>, ys: seq<T>)
    requires ys != []
    ensures xs + ys == xs + ys[..|ys| - 1] + [ys[|ys| - 1]] && ys == ys[..|ys| - 1] + [ys[|ys| - 1]]
  {
  }

  lemma ReportedSnoc(control: Control, xs: seq<Resource>, resource: Resource, index: Index)
    ensures Reported(control, xs + [resource], index)
              == Reported(control, xs, index) + ReportsOf(control, resource, index)
    ensures Reported(control, [resource], index) == ReportsOf(control, resource, index)
  {
    hide ReportsOf;
    assert (xs + [resource])[..|xs|] == xs;
    assert [resource][..0] == [];
  }

  lemma TakeOut<T>(xs: seq<T>, k: nat)
    requires k < |xs|
    ensures xs == xs[..k] + [xs[k]] + xs[k + 1..]
    ensures multiset(xs) == multiset(xs[..k] + xs[k + 1..]) + multiset{xs[k]}
  {
    assert xs == xs[..k] + [xs[k]] + xs[k + 1..];
  }

  lemma ReportedTakeOut(control: Control, xs: seq<Resource>, k: nat, index: Index)
    requires k < |xs|
    ensures multiset(Reported(control, xs, index))
         == multiset(Reported(control, xs[..k] + xs[k + 1..], index)) + multiset(ReportsOf(control, xs[k], index))
  {
    TakeOut(xs, k);
    ReportedSnoc(control, [], xs[k], index);
    ReportedConcat(control, xs[..k] + [xs[k]], xs[k + 1..], index);
    ReportedConcat(control, xs[..k], [xs[k]], index);
    ReportedConcat(control, xs[..k], xs[k + 1..], index);
    hide Reported, ReportsOf;
  }

  lemma Cancel<T>(a: multiset<T>, b: multiset<T>, x: T)
    requires a + multiset{x} == b + multiset{x}
    ensures a == b
  {
    assert a == a + multiset{x} - multiset{x} && b == b + multiset{x} - multiset{x};
  }

  lemma {:induction false} SameIndexAnyOrder(control: Control, xs: seq<Resource>, ys: seq<Resource>, index: Index)
    requires multiset(xs) == multiset(ys)
    ensures multiset(Reported(control, xs, index)) == multiset(Reported(control, ys, index))
    decreases |xs|
  {
    hide Reported, ReportsOf;
    if xs == [] {
      assert |multiset(ys)| == 0;
      assert ys == [];
    } else {
      var n := |xs| - 1;
      assert xs[n] in multiset(ys);
      var k :| 0 <= k < |ys| && ys[k] == xs[n];
      TakeOut(xs, n);
      TakeOut(ys, k);
      assert xs[..n] + xs[n + 1..] == xs[..n];
      Cancel(multiset(xs[..n]), multiset(ys[..k] + ys[k + 1..]), xs[n]);
      SameIndexAnyOrder(control, xs[..n], ys[..k] + ys[k + 1..], index);
      ReportedTakeOut(control, xs, n, index);
      ReportedTakeOut(control, ys, k, index);
    }
  }

  /** The order in which the stack lists its resources does not matter: the same
      violations are reported, each as often. */
  lemma OrderIsIrrelevant(control: Control, xs: seq<Resource>, ys: seq<Resource>, before: Index, after: Index)
    requires multiset(xs) == multiset(ys)
    requires Indexes(before, xs, control) && Indexes(after, ys, control)
    ensures before == after
    ensures multiset(Reported(control, xs, before)) == multiset(Reported(control, ys, after))
  {
    SameElements(xs, ys);
    IndexIsUnique(before, after, xs, control) by {
      hide Configures, Names, DependsOn;
      assert Indexes(after, xs, control);
    }
    SameIndexAnyOrder(control, xs, ys, before);
  }

  lemma SameElements<T(!new)>(xs: seq<T>, ys: seq<T>)
    requires multiset(xs) == multiset(ys)
    ensures forall x :: x in xs <==> x in ys
  {
    forall x ensures x in xs <==> x in ys {
      assert x in multiset(xs) <==> x in multiset(ys);
    }
  }

  lemma ProtectionGrows(control: Control, bucket: Resource, xs: seq<Resource>, ys: seq<Resource>, before: Index,
                        after: Index)
    requires Indexes(before, xs, control) && Indexes(after, xs + ys, control)
    ensures Covered(control, bucket, before) ==> Covered(control, bucket, after)
  {
    CoveredMeansProtected(control, bucket, xs, before);
    CoveredMeansProtected(control, bucket, xs + ys, after);
    hide Covered, Indexes, Inline, Protects;
    if Protected(control, bucket, xs) && !Inline(control, bucket.props) {
      var other :| other in xs && Protects(control, other, bucket);
      assert other in xs + ys;
    }
  }

  lemma {:induction false} FewerReports(control: Control, some: seq<Resource>, xs: seq<Resource>, ys: seq<Resource>,
                                        before: Index, after: Index)
    requires Indexes(before, xs, control) && Indexes(after, xs + ys, control)
    ensures multiset(Reported(control, some, after)) <= multiset(Reported(control, some, before))
  {
    hide Indexes, Covered, Reports;
    if some != [] {
      var n := |some| - 1;
      FewerReports(control, some[..n], xs, ys, before, after);
      ProtectionGrows(control, some[n], xs, ys, before, after);
    }
  }

  /** Resources added to a stack never bring up an old one: what is reported of
      the old ones can only become less, and the rest is about the new ones. */
  lemma GrowthOnlySilences(control: Control, xs: seq<Resource>, ys: seq<Resource>, before: Index, after: Index)
    requires Indexes(before, xs, control) && Indexes(after, xs + ys, control)
    ensures Reported(control, xs + ys, after) == Reported(control, xs, after) + Reported(control, ys, after)
    ensures multiset(Reported(control, xs, after)) <= multiset(Reported(control, xs, before))
  {
    ReportedConcat(control, xs, ys, after);
    FewerReports(control, xs, xs, ys, before, after);
  }
}
