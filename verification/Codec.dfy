/** Strict decoding of contract and receipt artifacts
    (scripts/deployment_contract_io.py): exact members, exact primitive types, no
    duplicate member at any depth. */
module Codec {
  import opened Wrappers
  import opened JsonValues
  import opened Sorting
  import opened Schedule
  import opened Scopes
  import opened Contract
  import opened Barriers

  /* ---------- loading ---------- */

  /** A document as the parser meets it: an object is its members in order,
      repetitions included. */
  datatype Tree =
    | Scalar(leaf: Leaf)
    | Sequence(elements: seq<Tree>)
    | Entries(pairs: seq<Member>)

  datatype Member = Member(key: string, value: Tree)

  datatype Leaf = Null | Bool(flag: bool) | Int(number: int) | Noninteger(shown: string) | Str(text: string)

  /** The object hook: a repeated member is refused, not overwritten. */
  function Unique(pairs: seq<(string, Json)>): Result<map<string, Json>> {
    if pairs == [] then Ok(map[])
    else
      var n := |pairs| - 1;
      var before :- Unique(pairs[..n]);
      var _ :- Require(pairs[n].0 !in before);
      Ok(before[pairs[n].0 := pairs[n].1])
  }

  method UniqueObject(pairs: seq<(string, Json)>) returns (r: Result<map<string, Json>>)
    ensures r == Unique(pairs)
    ensures r.Ok? <==> forall i, j :: 0 <= i < j < |pairs| ==> pairs[i].0 != pairs[j].0
  {
    var result: map<string, Json> := map[];
    for i := 0 to |pairs|
      invariant Unique(pairs[..i]) == Ok(result)
      invariant forall key :: key in result <==> exists k :: 0 <= k < i && pairs[k].0 == key
      invariant forall j, k :: 0 <= j < k < i ==> pairs[j].0 != pairs[k].0
    {
      assert pairs[..i + 1][..i] == pairs[..i];
      if pairs[i].0 in result {
        UniqueFails(pairs, i + 1);
        return Rejected;
      }
      result := result[pairs[i].0 := pairs[i].1];
    }
    assert pairs[..|pairs|] == pairs;
    return Ok(result);
  }

  lemma {:induction false} UniqueFails(pairs: seq<(string, Json)>, n: nat)
    requires n <= |pairs| && Unique(pairs[..n]).Rejected?
    ensures Unique(pairs).Rejected?
    decreases |pairs| - n
  {
    if n < |pairs| {
      assert pairs[..n + 1][..n] == pairs[..n];
      UniqueFails(pairs, n + 1);
    } else {
      assert pairs[..n] == pairs;
    }
  }

  function LoadAll(trees: seq<Tree>): Result<seq<Json>> {
    if trees == [] then Ok([])
    else
      var first :- Load(trees[0]);
      var rest :- LoadAll(trees[1..]);
      Ok([first] + rest)
  }

  function LoadPairs(pairs: seq<Member>): Result<seq<(string, Json)>> {
    if pairs == [] then Ok([])
    else
      var first :- Load(pairs[0].value);
      var rest :- LoadPairs(pairs[1..]);
      Ok([(pairs[0].key, first)] + rest)
  }

  function LoadLeaf(leaf: Leaf): Result<Json> {
    match leaf
    case Null => Ok(JNull)
    case Bool(flag) => Ok(JBool(flag))
    case Int(number) => Ok(JInt(number))
    case Noninteger(_) => Rejected
    case Str(text) => Ok(JText(text))
  }

  function Load(tree: Tree): Result<Json> {
    match tree
    case Scalar(leaf) => LoadLeaf(leaf)
    case Sequence(elements) =>
      var items :- LoadAll(elements);
      Ok(JArray(items))
    case Entries(pairs) =>
      var loaded :- LoadPairs(pairs);
      var members :- Unique(loaded);
      Ok(JObject(members))
  }

  /** No object anywhere repeats a member, and every number is an integer. */
  ghost predicate Clean(tree: Tree) {
    match tree
    case Scalar(leaf) => !leaf.Noninteger?
    case Sequence(elements) => forall i :: 0 <= i < |elements| ==> Clean(elements[i])
    case Entries(pairs) =>
      && (forall i :: 0 <= i < |pairs| ==> Clean(pairs[i].value))
      && (forall i, j :: 0 <= i < j < |pairs| ==> pairs[i].key != pairs[j].key)
  }

  lemma {:induction false} UniqueAccepts(pairs: seq<(string, Json)>)
    ensures Unique(pairs).Ok? <==> forall i, j :: 0 <= i < j < |pairs| ==> pairs[i].0 != pairs[j].0
    ensures Unique(pairs).Ok? ==>
              forall key :: key in Unique(pairs).value <==> exists i :: 0 <= i < |pairs| && pairs[i].0 == key
  {
    if pairs != [] {
      var n := |pairs| - 1;
      UniqueAccepts(pairs[..n]);
      if Unique(pairs).Ok? {
        forall key ensures key in Unique(pairs).value <==> exists i :: 0 <= i < |pairs| && pairs[i].0 == key {
          if key == pairs[n].0 {
            assert pairs[n].0 == key;
          }
        }
      }
    }
  }

  lemma {:induction false} LoadAllAccepts(trees: seq<Tree>)
    ensures LoadAll(trees).Ok? <==> forall i :: 0 <= i < |trees| ==> Load(trees[i]).Ok?
  {
    if trees != [] {
      LoadAllAccepts(trees[1..]);
      assert forall i :: 0 <= i < |trees| - 1 ==> trees[1..][i] == trees[i + 1];
      assert forall i :: 0 < i < |trees| ==> trees[i] == trees[1..][i - 1];
    }
  }

  lemma {:induction false} LoadPairsAccepts(pairs: seq<Member>)
    ensures LoadPairs(pairs).Ok? <==> forall i :: 0 <= i < |pairs| ==> Load(pairs[i].value).Ok?
    ensures LoadPairs(pairs).Ok? ==>
              && |LoadPairs(pairs).value| == |pairs|
              && forall i :: 0 <= i < |pairs| ==> LoadPairs(pairs).value[i].0 == pairs[i].key
  {
    if pairs != [] {
      LoadPairsAccepts(pairs[1..]);
      assert forall i :: 0 <= i < |pairs| - 1 ==> pairs[1..][i] == pairs[i + 1];
      assert forall i :: 0 < i < |pairs| ==> pairs[i] == pairs[1..][i - 1];
    }
  }

  /** Exactly the clean documents load. */
  lemma {:induction false} LoadAcceptsClean(tree: Tree)
    ensures Load(tree).Ok? <==> Clean(tree)
  {
    match tree
    case Scalar(_) =>
    case Sequence(elements) =>
      LoadAllAccepts(elements);
      forall i | 0 <= i < |elements| ensures Load(elements[i]).Ok? <==> Clean(elements[i]) {
        LoadAcceptsClean(elements[i]);
      }
    case Entries(pairs) =>
      LoadPairsAccepts(pairs);
      forall i | 0 <= i < |pairs| ensures Load(pairs[i].value).Ok? <==> Clean(pairs[i].value) {
        LoadAcceptsClean(pairs[i].value);
      }
      if LoadPairs(pairs).Ok? {
        UniqueAccepts(LoadPairs(pairs).value);
      }
  }

  /* ---------- writing ---------- */

  /** A set's members in canonical order. */
  ghost function Listing(keys: set<string>): (r: seq<string>)
    ensures Lists(r, keys)
  {
    ListingExists(keys);
    var r :| Lists(r, keys);
    r
  }

  lemma {:induction false} ListingExists(keys: set<string>)
    ensures exists r :: Lists(r, keys)
  {
    if keys == {} {
      assert Lists([], keys);
    } else {
      var x :| x in keys;
      ListingExists(keys - {x});
      var rest :| Lists(rest, keys - {x});
      InsertLists(x, rest, keys - {x});
      assert keys - {x} + {x} == keys;
      assert Lists(Insert(x, rest), keys);
    }
  }

  /** Canonical JSON as a tree: every object's members once, in key order. */
  ghost function Write(value: Json): Tree {
    match value
    case JNull => Scalar(Null)
    case JBool(flag) => Scalar(Bool(flag))
    case JInt(number) => Scalar(Int(number))
    case JFloat(_, _) => Scalar(Noninteger(""))
    case JText(text) => Scalar(Str(text))
    case JArray(items) => Sequence(seq(|items|, i requires 0 <= i < |items| => Write(items[i])))
    case JObject(members) =>
      var order := Listing(members.Keys);
      Entries(seq(|order|, i requires 0 <= i < |order| =>
        assert order[i] in order;
        Member(order[i], Write(members[order[i]]))))
  }

  lemma {:induction false} LoadAllOf(trees: seq<Tree>, items: seq<Json>)
    requires |trees| == |items| && forall i :: 0 <= i < |trees| ==> Load(trees[i]) == Ok(items[i])
    ensures LoadAll(trees) == Ok(items)
  {
    hide Load;
    if trees != [] {
      LoadAllOf(trees[1..], items[1..]);
      assert items == [items[0]] + items[1..];
    }
  }

  lemma {:induction false} LoadPairsOf(pairs: seq<Member>, loaded: seq<(string, Json)>)
    requires |pairs| == |loaded|
    requires forall i :: 0 <= i < |pairs| ==> pairs[i].key == loaded[i].0 && Load(pairs[i].value) == Ok(loaded[i].1)
    ensures LoadPairs(pairs) == Ok(loaded)
  {
    hide Load;
    if pairs != [] {
      LoadPairsOf(pairs[1..], loaded[1..]);
      assert loaded == [loaded[0]] + loaded[1..];
    }
  }

  /** Members of a map, listed without repetition, are put back together. */
  ghost function NamesOf(pairs: seq<(string, Json)>): set<string> {
    set i | 0 <= i < |pairs| :: pairs[i].0
  }

  lemma NamesSnoc(pairs: seq<(string, Json)>)
    requires pairs != []
    ensures var n := |pairs| - 1; NamesOf(pairs) == NamesOf(pairs[..n]) + {pairs[n].0}
  {
    var n := |pairs| - 1;
    forall name | name in NamesOf(pairs[..n]) ensures name in NamesOf(pairs) {
      var i :| 0 <= i < n && pairs[..n][i].0 == name;
      assert pairs[i].0 == name;
    }
    forall name | name in NamesOf(pairs) && name != pairs[n].0 ensures name in NamesOf(pairs[..n]) {
      var i :| 0 <= i < |pairs| && pairs[i].0 == name;
      assert pairs[..n][i].0 == name;
    }
  }

  lemma {:induction false} UniqueOf(pairs: seq<(string, Json)>, members: Members)
    requires forall i, j :: 0 <= i < j < |pairs| ==> pairs[i].0 != pairs[j].0
    requires forall i :: 0 <= i < |pairs| ==> pairs[i].0 in members && members[pairs[i].0] == pairs[i].1
    ensures Unique(pairs).Ok? && Unique(pairs).value.Keys == NamesOf(pairs)
    ensures forall k :: k in Unique(pairs).value ==> k in members && members[k] == Unique(pairs).value[k]
  {
    if pairs != [] {
      var n := |pairs| - 1;
      UniqueOf(pairs[..n], members);
      assert pairs[n].0 !in NamesOf(pairs[..n]);
      NamesSnoc(pairs);
    }
  }

  lemma ListedMembers(members: Members, pairs: seq<(string, Json)>, order: seq<string>)
    requires Lists(order, members.Keys) && |pairs| == |order|
    requires forall i :: 0 <= i < |order| ==> order[i] in members && pairs[i] == (order[i], members[order[i]])
    ensures Unique(pairs) == Ok(members)
  {
    forall i, j | 0 <= i < j < |pairs| ensures pairs[i].0 != pairs[j].0 {
      assert Less(order[i], order[j]);
      LessIrreflexive(order[i]);
    }
    UniqueOf(pairs, members);
    hide Unique;
    var made := Unique(pairs).value;
    forall k | k in members ensures k in made {
      assert k in order;
      var i :| 0 <= i < |order| && order[i] == k;
      assert pairs[i].0 in NamesOf(pairs);
    }
    assert made == members;
  }

  /** What is written loads as itself. */
  lemma {:induction false} WrittenLoads(value: Json)
    requires !HasFloat(value)
    ensures Load(Write(value)) == Ok(value)
  {
    match value
    case JArray(items) =>
      var trees := Write(value).elements;
      forall i | 0 <= i < |items| ensures Load(trees[i]) == Ok(items[i]) {
        WrittenLoads(items[i]);
      }
      LoadAllOf(trees, items);
    case JObject(members) =>
      var order := Listing(members.Keys);
      var pairs := Write(value).pairs;
      assert forall i :: 0 <= i < |order| ==> order[i] in order;
      var loaded := seq(|order|, i requires 0 <= i < |order| => (order[i], members[order[i]]));
      forall i | 0 <= i < |order| ensures pairs[i].key == loaded[i].0 && Load(pairs[i].value) == Ok(loaded[i].1) {
        WrittenLoads(members[order[i]]);
      }
      LoadPairsOf(pairs, loaded);
      ListedMembers(members, loaded, order);
    case _ =>
  }

  /* ---------- combinators ---------- */

  function Text(s: string): Json { JText(s) }

  function DecodeText(v: Json): Result<string> {
    if v.JText? then Ok(v.text) else Rejected
  }

  function Integer(n: int): Json { JInt(n) }

  function DecodeInteger(v: Json): Result<int> {
    if v.JInt? then Ok(v.number) else Rejected
  }

  function Boolean(b: bool): Json { JBool(b) }

  function DecodeBoolean(v: Json): Result<bool> {
    if v.JBool? then Ok(v.flag) else Rejected
  }

  function OptionalText(s: Option<string>): Json {
    if s.Some? then Text(s.value) else JNull
  }

  function DecodeOptionalText(v: Json): Result<Option<string>> {
    if v == JNull then Ok(None)
    else
      var s :- DecodeText(v);
      Ok(Some(s))
  }

  function DecodeItems<T>(items: seq<Json>, decode: Json -> Result<T>): Result<seq<T>> {
    if items == [] then Ok([])
    else
      var n := |items| - 1;
      var before :- DecodeItems(items[..n], decode);
      var last :- decode(items[n]);
      Ok(before + [last])
  }

  function DecodeArray<T>(v: Json, decode: Json -> Result<T>): Result<seq<T>> {
    if v.JArray? then DecodeItems(v.items, decode) else Rejected
  }

  function EncodeArray<T>(xs: seq<T>, encode: T -> Json): (r: Json)
    ensures r.JArray? && |r.items| == |xs| && forall i :: 0 <= i < |xs| ==> r.items[i] == encode(xs[i])
  {
    JArray(seq(|xs|, i requires 0 <= i < |xs| => encode(xs[i])))
  }

  /** Exactly the encodings are accepted, each as what it encodes. */
  ghost predicate Inverse<T(!new)>(decode: Json -> Result<T>, encode: T -> Json) {
    forall v, x :: decode(v) == Ok(x) <==> v == encode(x)
  }

  lemma {:induction false} ItemsInverse<T(!new)>(items: seq<Json>, xs: seq<T>, decode: Json -> Result<T>,
                                                 encode: T -> Json)
    requires Inverse(decode, encode)
    ensures DecodeItems(items, decode) == Ok(xs)
       <==> |items| == |xs| && forall i :: 0 <= i < |items| ==> items[i] == encode(xs[i])
  {
    if items != [] {
      var n := |items| - 1;
      if xs != [] {
        var m := |xs| - 1;
        ItemsInverse(items[..n], xs[..m], decode, encode);
        assert decode(items[n]) == Ok(xs[m]) <==> items[n] == encode(xs[m]);
        assert xs == xs[..m] + [xs[m]];
        if |items| == |xs| && forall i :: 0 <= i < |items| ==> items[i] == encode(xs[i]) {
          assert forall i :: 0 <= i < n ==> items[..n][i] == encode(xs[..m][i]);
        }
      }
    }
  }

  lemma ArrayInverse<T(!new)>(v: Json, xs: seq<T>, decode: Json -> Result<T>, encode: T -> Json)
    requires Inverse(decode, encode)
    ensures DecodeArray(v, decode) == Ok(xs) <==> v == EncodeArray(xs, encode)
  {
    hide DecodeItems;
    if v.JArray? {
      ItemsInverse(v.items, xs, decode, encode);
      var made := EncodeArray(xs, encode);
      if |v.items| == |xs| && forall i :: 0 <= i < |v.items| ==> v.items[i] == encode(xs[i]) {
        assert v.items == made.items;
      }
    }
  }

  function Texts(xs: seq<string>): Json { EncodeArray(xs, Text) }

  function DecodeTexts(v: Json): Result<seq<string>> { DecodeArray(v, DecodeText) }

  lemma TextsInverse(v: Json, xs: seq<string>)
    ensures DecodeTexts(v) == Ok(xs) <==> v == Texts(xs)
  {
    assert Inverse(DecodeText, Text);
    ArrayInverse(v, xs, DecodeText, Text);
  }

  /** An object with exactly these members. */
  function Fields(v: Json, keys: set<string>): Result<map<string, Json>> {
    if v.JObject? && v.members.Keys == keys then Ok(v.members) else Rejected
  }

  /* ---------- documents ---------- */

  function EncodeController(c: Controller): Json {
    JObject(map["sha" := Text(c.sha), "run_id" := Text(c.runId), "run_attempt" := Integer(c.runAttempt),
               "workflow_ref" := Text(c.workflowRef)])
  }

  function DecodeController(v: Json): Result<Controller> {
    var m :- Fields(v, {"sha", "run_id", "run_attempt", "workflow_ref"});
    var sha :- DecodeText(m["sha"]);
    var runId :- DecodeText(m["run_id"]);
    var runAttempt :- DecodeInteger(m["run_attempt"]);
    var workflowRef :- DecodeText(m["workflow_ref"]);
    Ok(Controller(sha, runId, runAttempt, workflowRef))
  }

  lemma ControllerInverse(v: Json, c: Controller)
    ensures DecodeController(v) == Ok(c) <==> v == EncodeController(c)
  {
    if DecodeController(v) == Ok(c) {
      assert v.members == EncodeController(c).members;
    }
  }

  function EncodeStep(s: Step): Json {
    JObject(map["key" := Text(s.key), "environment" := Text(s.environment), "scope" := Text(s.scope),
               "operation" := Text(s.operation), "predecessor" := OptionalText(s.predecessor)])
  }

  function DecodeStep(v: Json): Result<Step> {
    var m :- Fields(v, {"key", "environment", "scope", "operation", "predecessor"});
    var key :- DecodeText(m["key"]);
    var environment :- DecodeText(m["environment"]);
    var scope :- DecodeText(m["scope"]);
    var operation :- DecodeText(m["operation"]);
    var predecessor :- DecodeOptionalText(m["predecessor"]);
    Ok(Step(key, environment, scope, operation, predecessor))
  }

  lemma StepInverse(v: Json, s: Step)
    ensures DecodeStep(v) == Ok(s) <==> v == EncodeStep(s)
  {
    if DecodeStep(v) == Ok(s) {
      assert v.members == EncodeStep(s).members;
    }
  }

  function EncodeStage(s: StageResult): Json {
    JObject(map["operation" := Text(s.operation), "result" := Text(s.result)])
  }

  function DecodeStage(v: Json): Result<StageResult> {
    var m :- Fields(v, {"operation", "result"});
    var operation :- DecodeText(m["operation"]);
    var result :- DecodeText(m["result"]);
    Ok(StageResult(operation, result))
  }

  lemma StageInverse(v: Json, s: StageResult)
    ensures DecodeStage(v) == Ok(s) <==> v == EncodeStage(s)
  {
    if DecodeStage(v) == Ok(s) {
      assert v.members == EncodeStage(s).members;
    }
  }

  function EncodeReason(p: PathImpact): Json {
    JObject(map["path" := Text(p.path), "stacks" := Texts(p.stacks),
               "scaffold_validation" := Boolean(p.scaffoldValidation),
               "execution_validation" := Boolean(p.executionValidation),
               "catalog_validation" := Boolean(p.catalogValidation), "reason" := Text(p.reason)])
  }

  function DecodeReason(v: Json): Result<PathImpact> {
    var m :- Fields(v, {"path", "stacks", "scaffold_validation", "execution_validation", "catalog_validation",
                        "reason"});
    var path :- DecodeText(m["path"]);
    var stacks :- DecodeTexts(m["stacks"]);
    var scaffold :- DecodeBoolean(m["scaffold_validation"]);
    var execution :- DecodeBoolean(m["execution_validation"]);
    var catalog :- DecodeBoolean(m["catalog_validation"]);
    var reason :- DecodeText(m["reason"]);
    Ok(PathImpact(path, stacks, scaffold, execution, catalog, reason))
  }

  lemma ReasonInverse(v: Json, p: PathImpact)
    ensures DecodeReason(v) == Ok(p) <==> v == EncodeReason(p)
  {
    hide DecodeTexts, Texts;
    TextsInverse(Texts(p.stacks), p.stacks);
    if DecodeReason(v) == Ok(p) {
      TextsInverse(v.members["stacks"], p.stacks);
      assert v.members == EncodeReason(p).members;
    }
  }

  function EncodeIdentity(i: Identity): Json {
    JObject(map["repository" := Text(i.repository), "repository_id" := Integer(i.repositoryId),
               "owner_id" := Integer(i.ownerId), "pull_request_number" := Text(i.pullRequestNumber),
               "head_sha" := Text(i.headSha), "base_sha" := Text(i.baseSha), "comment_id" := Text(i.commentId),
               "source_run_id" := Text(i.sourceRunId), "command" := Text(i.command),
               "target_environment" := Text(i.targetEnvironment), "controller" := EncodeController(i.controller)])
  }

  function DecodeIdentity(v: Json): Result<Identity> {
    var m :- Fields(v, {"repository", "repository_id", "owner_id", "pull_request_number", "head_sha", "base_sha",
                        "comment_id", "source_run_id", "command", "target_environment", "controller"});
    var repository :- DecodeText(m["repository"]);
    var repositoryId :- DecodeInteger(m["repository_id"]);
    var ownerId :- DecodeInteger(m["owner_id"]);
    var pullRequestNumber :- DecodeText(m["pull_request_number"]);
    var headSha :- DecodeText(m["head_sha"]);
    var baseSha :- DecodeText(m["base_sha"]);
    var commentId :- DecodeText(m["comment_id"]);
    var sourceRunId :- DecodeText(m["source_run_id"]);
    var command :- DecodeText(m["command"]);
    var targetEnvironment :- DecodeText(m["target_environment"]);
    var controller :- DecodeController(m["controller"]);
    Ok(Identity(repository, repositoryId, ownerId, pullRequestNumber, headSha, baseSha, commentId, sourceRunId, command,
                targetEnvironment, controller))
  }

  lemma IdentityDecodes(i: Identity)
    ensures DecodeIdentity(EncodeIdentity(i)) == Ok(i)
  {
    hide DecodeController, EncodeController;
    ControllerInverse(EncodeController(i.controller), i.controller);
  }

  lemma IdentityEncodes(v: Json, i: Identity)
    requires DecodeIdentity(v) == Ok(i)
    ensures v == EncodeIdentity(i)
  {
    hide DecodeController, EncodeController;
    ControllerInverse(v.members["controller"], i.controller);
    assert v.members == EncodeIdentity(i).members;
  }

  lemma IdentityInverse(v: Json, i: Identity)
    ensures DecodeIdentity(v) == Ok(i) <==> v == EncodeIdentity(i)
  {
    hide DecodeIdentity, EncodeIdentity;
    IdentityDecodes(i);
    if DecodeIdentity(v) == Ok(i) {
      IdentityEncodes(v, i);
    }
  }

  function EncodeSelection(d: DeploymentScopes): Json {
    JObject(map["base_sha" := Text(d.baseSha), "head_sha" := Text(d.headSha), "stacks" := Texts(d.stacks),
               "scaffold_validation" := Boolean(d.scaffoldValidation),
               "execution_validation" := Boolean(d.executionValidation),
               "catalog_validation" := Boolean(d.catalogValidation), "reasons" := EncodeArray(d.reasons, EncodeReason)])
  }

  function DecodeSelection(v: Json): Result<DeploymentScopes> {
    var m :- Fields(v, {"base_sha", "head_sha", "stacks", "scaffold_validation", "execution_validation",
                        "catalog_validation", "reasons"});
    var baseSha :- DecodeText(m["base_sha"]);
    var headSha :- DecodeText(m["head_sha"]);
    var stacks :- DecodeTexts(m["stacks"]);
    var scaffold :- DecodeBoolean(m["scaffold_validation"]);
    var execution :- DecodeBoolean(m["execution_validation"]);
    var catalog :- DecodeBoolean(m["catalog_validation"]);
    var reasons :- DecodeArray(m["reasons"], DecodeReason);
    Ok(DeploymentScopes(baseSha, headSha, stacks, scaffold, execution, catalog, reasons))
  }

  lemma ReasonsInverse(v: Json, reasons: seq<PathImpact>)
    ensures DecodeArray(v, DecodeReason) == Ok(reasons) <==> v == EncodeArray(reasons, EncodeReason)
  {
    forall w, p ensures DecodeReason(w) == Ok(p) <==> w == EncodeReason(p) {
      ReasonInverse(w, p);
    }
    hide DecodeReason, EncodeReason, DecodeArray, EncodeArray;
    ArrayInverse(v, reasons, DecodeReason, EncodeReason);
  }

  lemma SelectionInverse(v: Json, d: DeploymentScopes)
    ensures DecodeSelection(v) == Ok(d) <==> v == EncodeSelection(d)
  {
    hide DecodeTexts, Texts, DecodeReason, EncodeReason, DecodeArray, EncodeArray;
    TextsInverse(Texts(d.stacks), d.stacks);
    ReasonsInverse(EncodeArray(d.reasons, EncodeReason), d.reasons);
    if DecodeSelection(v) == Ok(d) {
      TextsInverse(v.members["stacks"], d.stacks);
      ReasonsInverse(v.members["reasons"], d.reasons);
      assert v.members == EncodeSelection(d).members;
    }
  }

  /** Digests as text: every text is one digest's, and the other way round. */
  datatype Hexing = Hexing(show: Digest -> string, read: string -> Digest)

  ghost predicate Faithful(hexing: Hexing) {
    forall d, s :: hexing.read(s) == d <==> s == hexing.show(d)
  }

  function DecodeDigest(v: Json, hexing: Hexing): Result<Digest> {
    var s :- DecodeText(v);
    Ok(hexing.read(s))
  }

  lemma DigestInverse(v: Json, d: Digest, hexing: Hexing)
    requires Faithful(hexing)
    ensures DecodeDigest(v, hexing) == Ok(d) <==> v == Text(hexing.show(d))
  {
  }

  function EncodeContract(c: DeploymentContract, hexing: Hexing): Json {
    JObject(map["schema_version" := Integer(c.schemaVersion), "identity" := EncodeIdentity(c.identity),
               "selector_sha256" := Text(c.selectorSha256), "selection" := EncodeSelection(c.selection),
               "selection_digest" := Text(hexing.show(c.selectionDigest)),
               "schedule" := EncodeArray(c.schedule, EncodeStep),
               "contract_digest" := Text(hexing.show(c.contractDigest))])
  }

  function DecodeContractShape(v: Json, hexing: Hexing): Result<DeploymentContract> {
    var m :- Fields(v, {"schema_version", "identity", "selector_sha256", "selection", "selection_digest", "schedule",
                        "contract_digest"});
    var schemaVersion :- DecodeInteger(m["schema_version"]);
    var identity :- DecodeIdentity(m["identity"]);
    var selectorSha256 :- DecodeText(m["selector_sha256"]);
    var selection :- DecodeSelection(m["selection"]);
    var selectionDigest :- DecodeDigest(m["selection_digest"], hexing);
    var schedule :- DecodeArray(m["schedule"], DecodeStep);
    var contractDigest :- DecodeDigest(m["contract_digest"], hexing);
    Ok(DeploymentContract(schemaVersion, identity, selectorSha256, selection, selectionDigest, schedule,
                          contractDigest))
  }

  lemma StepsInverse(v: Json, steps: seq<Step>)
    ensures DecodeArray(v, DecodeStep) == Ok(steps) <==> v == EncodeArray(steps, EncodeStep)
  {
    forall w, step ensures DecodeStep(w) == Ok(step) <==> w == EncodeStep(step) {
      StepInverse(w, step);
    }
    hide DecodeStep, EncodeStep, DecodeArray, EncodeArray;
    ArrayInverse(v, steps, DecodeStep, EncodeStep);
  }

  lemma ShapeInverse(v: Json, c: DeploymentContract, hexing: Hexing)
    requires Faithful(hexing)
    ensures DecodeContractShape(v, hexing) == Ok(c) <==> v == EncodeContract(c, hexing)
  {
    hide DecodeIdentity, EncodeIdentity, DecodeSelection, EncodeSelection, DecodeArray, EncodeArray, DecodeStep,
         EncodeStep, DecodeDigest, Faithful;
    IdentityInverse(EncodeIdentity(c.identity), c.identity);
    SelectionInverse(EncodeSelection(c.selection), c.selection);
    StepsInverse(EncodeArray(c.schedule, EncodeStep), c.schedule);
    DigestInverse(Text(hexing.show(c.selectionDigest)), c.selectionDigest, hexing);
    DigestInverse(Text(hexing.show(c.contractDigest)), c.contractDigest, hexing);
    if DecodeContractShape(v, hexing) == Ok(c) {
      IdentityInverse(v.members["identity"], c.identity);
      SelectionInverse(v.members["selection"], c.selection);
      StepsInverse(v.members["schedule"], c.schedule);
      DigestInverse(v.members["selection_digest"], c.selectionDigest, hexing);
      DigestInverse(v.members["contract_digest"], c.contractDigest, hexing);
      assert v.members == EncodeContract(c, hexing).members;
    }
  }

  function DecodeContract(selector: Selector, tree: Tree, hexing: Hexing): Result<DeploymentContract> {
    var v :- Load(tree);
    var c :- DecodeContractShape(v, hexing);
    var _ :- Require(ValidContract(selector, c));
    Ok(c)
  }

  /** A document decodes to a contract exactly when it is that contract's
      encoding, with no member extra, missing or repeated, and the contract is
      valid: decoding and encoding are inverse. */
  lemma ContractsDecodeExactly(selector: Selector, tree: Tree, c: DeploymentContract, hexing: Hexing)
    requires Faithful(hexing)
    ensures DecodeContract(selector, tree, hexing) == Ok(c)
       <==> Clean(tree) && Load(tree) == Ok(EncodeContract(c, hexing)) && ValidContract(selector, c)
  {
    LoadAcceptsClean(tree);
    hide ValidContract, DecodeContractShape, EncodeContract, Load, Faithful, Clean;
    if Load(tree).Ok? {
      ShapeInverse(Load(tree).value, c, hexing);
    }
  }

  lemma FloatlessArray<T>(xs: seq<T>, encode: T -> Json)
    requires forall x :: x in xs ==> !HasFloat(encode(x))
    ensures !HasFloat(EncodeArray(xs, encode))
  {
    var items := EncodeArray(xs, encode).items;
    forall i | 0 <= i < |items| ensures !HasFloat(items[i]) {
      assert xs[i] in xs;
    }
  }

  lemma FloatlessContract(c: DeploymentContract, hexing: Hexing)
    ensures !HasFloat(EncodeContract(c, hexing))
  {
    FloatlessIdentity(c.identity);
    FloatlessSelection(c.selection);
    forall step | step in c.schedule ensures !HasFloat(EncodeStep(step)) {
    }
    FloatlessArray(c.schedule, EncodeStep);
    hide EncodeIdentity, EncodeSelection, EncodeStep, EncodeArray;
  }

  lemma FloatlessIdentity(i: Identity)
    ensures !HasFloat(EncodeIdentity(i))
  {
    assert !HasFloat(EncodeController(i.controller));
    hide EncodeController;
  }

  lemma FloatlessSelection(d: DeploymentScopes)
    ensures !HasFloat(EncodeSelection(d))
  {
    forall reason | reason in d.reasons ensures !HasFloat(EncodeReason(reason)) {
      FloatlessArray(reason.stacks, Text);
      hide EncodeArray;
    }
    FloatlessArray(d.stacks, Text);
    FloatlessArray(d.reasons, EncodeReason);
    hide EncodeReason, EncodeArray;
  }

  /** Decoding the canonical JSON of any valid contract returns it. */
  lemma WrittenContractsDecode(selector: Selector, c: DeploymentContract, hexing: Hexing)
    requires Faithful(hexing) && ValidContract(selector, c)
    ensures DecodeContract(selector, Write(EncodeContract(c, hexing)), hexing) == Ok(c)
  {
    FloatlessContract(c, hexing);
    hide ValidContract, EncodeContract, DecodeContract, Faithful, Load, Write, Clean;
    var tree := Write(EncodeContract(c, hexing));
    WrittenLoads(EncodeContract(c, hexing));
    LoadAcceptsClean(tree);
    ContractsDecodeExactly(selector, tree, c, hexing);
  }

  /* ---------- receipts ---------- */

  function EncodeReceipt(r: Receipt, hexing: Hexing): Json {
    JObject(map["identity" := EncodeIdentity(r.identity), "contract_digest" := Text(hexing.show(r.contractDigest)),
               "selection_digest" := Text(hexing.show(r.selectionDigest)), "scope" := Text(r.scope),
               "environment" := Text(r.environment), "stages" := EncodeArray(r.stages, EncodeStage)])
  }

  function DecodeReceiptShape(v: Json, hexing: Hexing): Result<Receipt> {
    var m :- Fields(v, {"identity", "contract_digest", "selection_digest", "scope", "environment", "stages"});
    var identity :- DecodeIdentity(m["identity"]);
    var contractDigest :- DecodeDigest(m["contract_digest"], hexing);
    var selectionDigest :- DecodeDigest(m["selection_digest"], hexing);
    var scope :- DecodeText(m["scope"]);
    var environment :- DecodeText(m["environment"]);
    var stages :- DecodeArray(m["stages"], DecodeStage);
    Ok(Receipt(identity, contractDigest, selectionDigest, scope, environment, stages))
  }

  lemma StagesInverse(v: Json, stages: seq<StageResult>)
    ensures DecodeArray(v, DecodeStage) == Ok(stages) <==> v == EncodeArray(stages, EncodeStage)
  {
    forall w, stage ensures DecodeStage(w) == Ok(stage) <==> w == EncodeStage(stage) {
      StageInverse(w, stage);
    }
    hide DecodeStage, EncodeStage, DecodeArray, EncodeArray;
    ArrayInverse(v, stages, DecodeStage, EncodeStage);
  }

  lemma ReceiptShapeInverse(v: Json, r: Receipt, hexing: Hexing)
    requires Faithful(hexing)
    ensures DecodeReceiptShape(v, hexing) == Ok(r) <==> v == EncodeReceipt(r, hexing)
  {
    hide DecodeIdentity, EncodeIdentity, DecodeArray, EncodeArray, DecodeStage, EncodeStage, DecodeDigest, Faithful;
    IdentityInverse(EncodeIdentity(r.identity), r.identity);
    StagesInverse(EncodeArray(r.stages, EncodeStage), r.stages);
    DigestInverse(Text(hexing.show(r.selectionDigest)), r.selectionDigest, hexing);
    DigestInverse(Text(hexing.show(r.contractDigest)), r.contractDigest, hexing);
    if DecodeReceiptShape(v, hexing) == Ok(r) {
      IdentityInverse(v.members["identity"], r.identity);
      StagesInverse(v.members["stages"], r.stages);
      DigestInverse(v.members["selection_digest"], r.selectionDigest, hexing);
      DigestInverse(v.members["contract_digest"], r.contractDigest, hexing);
      assert v.members == EncodeReceipt(r, hexing).members;
    }
  }

  function DecodeReceipt(selector: Selector, tree: Tree, c: DeploymentContract, scope: string, environment: string,
                         hexing: Hexing): Result<Receipt>
  {
    var _ :- Require(ValidContract(selector, c));
    var _ :- Require(exists step :: step in c.schedule && step.scope == scope && step.environment == environment);
    var v :- Load(tree);
    var r :- DecodeReceiptShape(v, hexing);
    var _ :- Require(ReceiptAccepted(c, r, scope, environment));
    Ok(r)
  }

  /** There is one receipt a scheduled node's artifact can decode to, and one
      document that decodes to it. */
  lemma ReceiptsDecodeExactly(selector: Selector, tree: Tree, c: DeploymentContract, scope: string, environment: string,
                              r: Receipt, hexing: Hexing)
    requires Faithful(hexing)
    requires ValidContract(selector, c)
    requires exists step :: step in c.schedule && step.scope == scope && step.environment == environment
    ensures var expected := Receipt(c.identity, c.contractDigest, c.selectionDigest, scope, environment,
                                    Successes(NodeOperations(c.schedule, environment, scope)));
            (DecodeReceipt(selector, tree, c, scope, environment, hexing) == Ok(r)
             <==> Clean(tree) && Load(tree) == Ok(EncodeReceipt(expected, hexing)) && r == expected)
  {
    LoadAcceptsClean(tree);
    hide ValidContract, DecodeReceiptShape, EncodeReceipt, Load, Faithful, Clean, Successes, NodeOperations;
    if Load(tree).Ok? {
      ReceiptShapeInverse(Load(tree).value, r, hexing);
    }
  }

  lemma FloatlessReceipt(r: Receipt, hexing: Hexing)
    ensures !HasFloat(EncodeReceipt(r, hexing))
  {
    FloatlessIdentity(r.identity);
    forall stage | stage in r.stages ensures !HasFloat(EncodeStage(stage)) {
    }
    FloatlessArray(r.stages, EncodeStage);
    hide EncodeIdentity, EncodeStage, EncodeArray;
  }

  /** Decoding the canonical JSON of an accepted receipt returns it. */
  lemma WrittenReceiptsDecode(selector: Selector, c: DeploymentContract, scope: string, environment: string, r: Receipt,
                              hexing: Hexing)
    requires Faithful(hexing) && ValidContract(selector, c) && ReceiptAccepted(c, r, scope, environment)
    requires exists step :: step in c.schedule && step.scope == scope && step.environment == environment
    ensures DecodeReceipt(selector, Write(EncodeReceipt(r, hexing)), c, scope, environment, hexing) == Ok(r)
  {
    FloatlessReceipt(r, hexing);
    hide ValidContract, EncodeReceipt, DecodeReceipt, Faithful, Load, Write, Clean, Successes, NodeOperations;
    var tree := Write(EncodeReceipt(r, hexing));
    WrittenLoads(EncodeReceipt(r, hexing));
    LoadAcceptsClean(tree);
    ReceiptsDecodeExactly(selector, tree, c, scope, environment, r, hexing);
  }
}
