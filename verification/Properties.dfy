/** Property maps of planned resources: JSON values, Pulumi input diffs, the
    comparison that ignores bridge metadata, and the secret-redacted projection
    (scripts/operator_plan_validation.py). */
module Properties {
  import opened Wrappers
  import opened JsonValues
  import opened Sorting

  type Properties = Members

  const INLINE := "aws:iam/rolePolicy:RolePolicy"
  const ATTACHMENT := "aws:iam/rolePolicyAttachment:RolePolicyAttachment"
  const EXCLUSIVE := "aws:iam/rolePolicyAttachmentsExclusive:RolePolicyAttachmentsExclusive"
  const VERSION := "aws:secretsmanager/secretVersion:SecretVersion"

  const DEFAULTS := "__defaults"
  const POLICY_ARNS := "policyArns"
  const SIGNATURE := "4dabf18193072939515e22adb298388d"
  const WIRE_VALUE_TAG := "1b47061264138c4ac30d75fd1eb44270"
  const UNKNOWN := "04da6b54-80e4-46f7-96ec-b56ff0331ba9"
  const REDACTED := "[secret]"

  /** Neither empty nor a placeholder. */
  predicate Concrete(value: string) {
    value != "" && value !in {UNKNOWN, REDACTED}
  }

  function Text(value: Json): Result<string> {
    if value.JText? && Concrete(value.text) then Ok(value.text) else Rejected
  }

  predicate Repeats(xs: seq<string>) {
    exists i, j :: 0 <= i < j < |xs| && xs[i] == xs[j]
  }

  predicate StringItems(items: seq<Json>) {
    forall i :: 0 <= i < |items| ==> items[i].JText? && items[i].text != ""
  }

  function Texts(items: seq<Json>): (r: seq<string>)
    requires StringItems(items)
    ensures |r| == |items| && forall i :: 0 <= i < |r| ==> JText(r[i]) == items[i]
  {
    seq(|items|, i requires 0 <= i < |items| => items[i].text)
  }

  /** A list of nonempty, pairwise different strings. */
  function Strings(value: Json): Result<seq<string>> {
    if value.JArray? && StringItems(value.items) && !Repeats(Texts(value.items))
      then Ok(Texts(value.items))
      else Rejected
  }

  function StringSet(value: Json): Result<set<string>> {
    var items :- Strings(value);
    Ok(set x | x in items)
  }

  function Array(xs: seq<string>): (r: Json)
    ensures r.JArray? && |r.items| == |xs| && forall i :: 0 <= i < |xs| ==> r.items[i] == JText(xs[i])
  {
    JArray(seq(|xs|, i requires 0 <= i < |xs| => JText(xs[i])))
  }

  lemma ArrayIsInjective(a: seq<string>, b: seq<string>)
    requires Array(a) == Array(b)
    ensures a == b
  {
    assert |Array(a).items| == |Array(b).items|;
    forall i | 0 <= i < |a| ensures a[i] == b[i] {
      assert Array(a).items[i] == Array(b).items[i];
    }
  }

  /* ---------- input diffs ---------- */

  datatype Diff = Diff(adds: Properties, updates: Properties, deletes: set<string>)

  predicate DiffAccepted(diff: Diff, prior: Properties) {
    && diff.adds.Keys !! prior.Keys
    && diff.updates.Keys <= prior.Keys
    && diff.deletes <= prior.Keys
    && diff.adds.Keys !! diff.updates.Keys
    && diff.adds.Keys !! diff.deletes
    && diff.updates.Keys !! diff.deletes
  }

  function ApplyDiff(diff: Diff, prior: Properties): Result<Properties> {
    if DiffAccepted(diff, prior) then Ok((prior - diff.deletes) + diff.adds + diff.updates) else Rejected
  }

  function DiffBetween(prior: Properties, wanted: Properties): Diff {
    Diff(map k | k in wanted && k !in prior :: wanted[k],
         map k | k in wanted && k in prior && wanted[k] != prior[k] :: wanted[k],
         prior.Keys - wanted.Keys)
  }

  /** Every change of one property map into another has an accepted diff. */
  lemma DiffsReachEverything(prior: Properties, wanted: Properties)
    ensures ApplyDiff(DiffBetween(prior, wanted), prior) == Ok(wanted)
  {
    var diff := DiffBetween(prior, wanted);
    var made := (prior - diff.deletes) + diff.adds + diff.updates;
    forall k ensures k in made <==> k in wanted {
    }
    forall k | k in wanted ensures made[k] == wanted[k] {
    }
    assert made == wanted;
    assert DiffAccepted(diff, prior);
  }

  /** An accepted diff says exactly what changed: its deletions and additions
      are the difference of the key sets, and an update may only rewrite a kept
      key. */
  lemma DiffsAreExact(diff: Diff, prior: Properties)
    requires ApplyDiff(diff, prior).Ok?
    ensures var made := ApplyDiff(diff, prior).value;
            && diff.deletes == prior.Keys - made.Keys
            && diff.adds.Keys == made.Keys - prior.Keys
            && forall k :: k in prior && k in made && prior[k] != made[k] ==>
                 k in diff.updates && diff.updates[k] == made[k]
  {
  }

  /* ---------- comparison up to bridge metadata ---------- */

  predicate Bridged(kind: string) {
    kind in {INLINE, ATTACHMENT, VERSION}
  }

  function Undefaulted(value: Properties, kind: string, inputs: bool): Properties {
    if inputs && Bridged(kind) && Get(value, DEFAULTS) == JArray([]) then value - {DEFAULTS} else value
  }

  /** The value with a redundant empty-defaults marker dropped and, for an
      exclusive attachment set, its list sorted. */
  function Semantics(value: Properties, kind: string, inputs: bool): Result<Properties> {
    var kept := Undefaulted(value, kind, inputs);
    if kind == EXCLUSIVE && POLICY_ARNS in kept then
      var arns :- Strings(kept[POLICY_ARNS]);
      Ok(kept[POLICY_ARNS := Array(Sorted(arns))])
    else Ok(kept)
  }

  predicate Same(a: Properties, b: Properties, kind: string, inputs: bool) {
    Semantics(a, kind, inputs).Ok? && Semantics(a, kind, inputs) == Semantics(b, kind, inputs)
  }

  /** For every kind but four the comparison is equality. */
  lemma SameIsEqualElsewhere(a: Properties, b: Properties, kind: string, inputs: bool)
    requires kind != EXCLUSIVE && !(inputs && Bridged(kind))
    ensures Same(a, b, kind, inputs) <==> a == b
  {
  }

  /** For an exclusive set it is equality of the listed set and of everything else. */
  lemma SameExclusive(a: Properties, b: Properties, inputs: bool)
    requires POLICY_ARNS in a && POLICY_ARNS in b
    ensures Same(a, b, EXCLUSIVE, inputs)
       <==> && StringSet(a[POLICY_ARNS]).Ok? && StringSet(a[POLICY_ARNS]) == StringSet(b[POLICY_ARNS])
            && a - {POLICY_ARNS} == b - {POLICY_ARNS}
  {
    if Strings(a[POLICY_ARNS]).Ok? && Strings(b[POLICY_ARNS]).Ok? {
      var xs, ys := Strings(a[POLICY_ARNS]).value, Strings(b[POLICY_ARNS]).value;
      SortedAgree(xs, ys);
      var m, n := a[POLICY_ARNS := Array(Sorted(xs))], b[POLICY_ARNS := Array(Sorted(ys))];
      if m == n {
        assert m[POLICY_ARNS] == n[POLICY_ARNS];
        ArrayIsInjective(Sorted(xs), Sorted(ys));
        assert a - {POLICY_ARNS} == m - {POLICY_ARNS} && b - {POLICY_ARNS} == n - {POLICY_ARNS};
      } else if a - {POLICY_ARNS} == b - {POLICY_ARNS} && Sorted(xs) == Sorted(ys) {
        SameRest(a, b, Array(Sorted(xs)));
      }
    }
  }

  lemma SameRest(a: Properties, b: Properties, value: Json)
    requires a - {POLICY_ARNS} == b - {POLICY_ARNS} && POLICY_ARNS in a && POLICY_ARNS in b
    ensures a[POLICY_ARNS := value] == b[POLICY_ARNS := value]
  {
    assert a[POLICY_ARNS := value] == (a - {POLICY_ARNS})[POLICY_ARNS := value];
    assert b[POLICY_ARNS := value] == (b - {POLICY_ARNS})[POLICY_ARNS := value];
  }

  lemma SortedAgree(xs: seq<string>, ys: seq<string>)
    ensures Sorted(xs) == Sorted(ys) <==> (set x | x in xs) == (set y | y in ys)
  {
    SortedLists(xs);
    SortedLists(ys);
    if (set x | x in xs) == (set y | y in ys) {
      ListingIsUnique(Sorted(xs), Sorted(ys), set x | x in xs);
    } else if Sorted(xs) == Sorted(ys) {
      assert forall x :: x in xs <==> x in Sorted(xs);
      assert forall y :: y in ys <==> y in Sorted(ys);
    }
  }

  /** A key that the comparison never touches reads the same on both sides. */
  lemma SameKeeps(a: Properties, b: Properties, kind: string, inputs: bool, key: string)
    requires Same(a, b, kind, inputs)
    requires !(inputs && Bridged(kind) && key == DEFAULTS) && !(kind == EXCLUSIVE && key == POLICY_ARNS)
    ensures key in a <==> key in b
    ensures Get(a, key) == Get(b, key)
  {
    var m := Semantics(a, kind, inputs).value;
    assert key in m <==> key in a;
    assert key in m <==> key in b;
  }

  /* ---------- the redacted projection ---------- */

  predicate SecretShaped(members: Properties) {
    && Get(members, SIGNATURE) == JText(WIRE_VALUE_TAG)
    && members.Keys in {{SIGNATURE, "ciphertext"}, {SIGNATURE, "plaintext"}}
    && forall k :: k in members && k != SIGNATURE ==> members[k].JText? && members[k].text != ""
  }

  /** The value as the CLI shows it: secrets redacted, nothing unknown. */
  function Project(value: Json): Result<Json> {
    match value
    case JObject(members) =>
      if SIGNATURE in members then
        (if SecretShaped(members) then Ok(JText(REDACTED)) else Rejected)
      else if forall k :: k in members ==> Project(members[k]).Ok? then
        Ok(JObject(map k | k in members :: Project(members[k]).value))
      else Rejected
    case JArray(items) =>
      if forall i :: 0 <= i < |items| ==> Project(items[i]).Ok? then
        Ok(JArray(seq(|items|, i requires 0 <= i < |items| => Project(items[i]).value)))
      else Rejected
    case _ => if value == JText(UNKNOWN) then Rejected else Ok(value)
  }

  function Shown(value: Properties, kind: string, inputs: bool): Result<Json> {
    var kept :- Semantics(value, kind, inputs);
    Project(JObject(kept))
  }

  /** Whether a secret occurs anywhere in a value. */
  predicate HasSecret(value: Json) {
    match value
    case JObject(members) => SIGNATURE in members || exists k :: k in members && HasSecret(members[k])
    case JArray(items) => exists i :: 0 <= i < |items| && HasSecret(items[i])
    case JText(text) => text == REDACTED
    case _ => false
  }

  /** Redaction hides only secrets: two values free of them that look alike are
      the same value. */
  lemma {:induction false} ProjectionHidesOnlySecrets(a: Json, b: Json)
    requires !HasSecret(a) && !HasSecret(b)
    requires Project(a).Ok? && Project(a) == Project(b)
    ensures a == b
  {
    match a
    case JObject(members) =>
      var shown := Project(a).value.members;
      assert shown.Keys == members.Keys == b.members.Keys;
      forall k | k in members ensures members[k] == b.members[k] {
        assert shown[k] == Project(members[k]).value == Project(b.members[k]).value;
        ProjectionHidesOnlySecrets(members[k], b.members[k]);
      }
      assert members == b.members;
    case JArray(items) =>
      var shown := Project(a).value.items;
      assert |items| == |shown| == |b.items|;
      forall i | 0 <= i < |items| ensures items[i] == b.items[i] {
        assert shown[i] == Project(items[i]).value == Project(b.items[i]).value;
        ProjectionHidesOnlySecrets(items[i], b.items[i]);
      }
      assert items == b.items;
    case _ =>
  }
}
