/** The credential-stage schedule (scripts/deployment_schedule.py).

    The stack order is an arbitrary sequence here, not the repository's three
    names: nothing below depends on how many scopes there are. */
module Schedule {
  import opened Wrappers

  const TEST := "test"
  const PROD := "prod"
  const PLAN := "plan"
  const UP := "up"

  datatype Step = Step(
    key: string,
    environment: string,
    scope: string,
    operation: string,
    predecessor: Option<string>)

  /** One worker: a scope in an account. */
  datatype Node = Node(environment: string, scope: string)

  /** The members of `chosen` in dependency order. */
  function InOrder(order: seq<string>, chosen: set<string>): (r: seq<string>)
    ensures forall x :: x in r <==> x in order && x in chosen
  {
    if order == [] then []
    else (if order[0] in chosen then [order[0]] else []) + InOrder(order[1..], chosen)
  }

  function Names(scopes: seq<string>): (r: set<string>)
    ensures forall x :: x in r <==> x in scopes
  {
    set x | x in scopes
  }

  ghost predicate Distinct<T(!new)>(xs: seq<T>) {
    forall i, j :: 0 <= i < j < |xs| ==> xs[i] != xs[j]
  }

  function Environments(target: string): seq<string> {
    if target == PROD then [TEST, PROD] else [TEST]
  }

  function Operations(command: string): seq<string> {
    if command == UP then [PLAN, "apply", "drift"] else [PLAN]
  }

  predicate RequestAccepted(order: seq<string>, scopes: seq<string>, command: string, target: string) {
    && command in [PLAN, UP]
    && target in [TEST, PROD]
    && scopes == InOrder(order, Names(scopes))
  }

  function Key(environment: string, scope: string, operation: string): string {
    environment + "_" + scope + "_" + operation
  }

  /* ---------- the specification ---------- */

  function Row(environment: string, scopes: seq<string>): (r: seq<Node>)
    ensures |r| == |scopes|
    ensures forall i :: 0 <= i < |scopes| ==> r[i] == Node(environment, scopes[i])
  {
    seq(|scopes|, i requires 0 <= i < |scopes| => Node(environment, scopes[i]))
  }

  /** Every scope of the first environment, then every scope of the next. */
  function Nodes(environments: seq<string>, scopes: seq<string>): seq<Node> {
    if environments == [] then []
    else
      var n := |environments| - 1;
      Nodes(environments[..n], scopes) + Row(environments[n], scopes)
  }

  function NodeKey(node: Node, operation: string): string {
    Key(node.environment, node.scope, operation)
  }

  /** A node's `o`-th step; the first waits for `predecessor`, each later one
      for the one before it. */
  function StepOf(node: Node, ops: seq<string>, predecessor: Option<string>, o: nat): Step
    requires o < |ops|
  {
    var previous := if o == 0 then predecessor else Some(NodeKey(node, ops[o - 1]));
    Step(NodeKey(node, ops[o]), node.environment, node.scope, ops[o], previous)
  }

  function Block(node: Node, ops: seq<string>, predecessor: Option<string>): (r: seq<Step>)
    ensures |r| == |ops|
  {
    seq(|ops|, o requires 0 <= o < |ops| => StepOf(node, ops, predecessor, o))
  }

  function LastKey(nodes: seq<Node>, ops: seq<string>): Option<string>
    requires ops != []
  {
    if nodes == [] then None else Some(NodeKey(nodes[|nodes| - 1], ops[|ops| - 1]))
  }

  function Steps(nodes: seq<Node>, ops: seq<string>): seq<Step>
    requires ops != []
  {
    if nodes == [] then []
    else
      var n := |nodes| - 1;
      Steps(nodes[..n], ops) + Block(nodes[n], ops, LastKey(nodes[..n], ops))
  }

  /** The schedule of an accepted request; a rejected request has none. */
  function ScheduleOf(order: seq<string>, scopes: seq<string>, command: string, target: string): Result<seq<Step>> {
    if RequestAccepted(order, scopes, command, target)
    then Ok(Steps(Nodes(Environments(target), scopes), Operations(command)))
    else Rejected
  }

  lemma StepsSnoc(nodes: seq<Node>, node: Node, ops: seq<string>)
    requires ops != []
    ensures Steps(nodes + [node], ops) == Steps(nodes, ops) + Block(node, ops, LastKey(nodes, ops))
    ensures LastKey(nodes + [node], ops) == Some(NodeKey(node, ops[|ops| - 1]))
  {
    assert (nodes + [node])[..|nodes|] == nodes;
  }

  /** The innermost loop: one node's operations. */
  method AppendBlock(before: seq<Step>, last: Option<string>, node: Node, ops: seq<string>)
    returns (steps: seq<Step>, predecessor: Option<string>)
    requires ops != []
    ensures steps == before + Block(node, ops, last)
    ensures predecessor == Some(NodeKey(node, ops[|ops| - 1]))
  {
    steps, predecessor := before, last;
    for k := 0 to |ops|
      invariant steps == before + Block(node, ops, last)[..k]
      invariant predecessor == if k == 0 then last else Some(NodeKey(node, ops[k - 1]))
    {
      var key := NodeKey(node, ops[k]);
      steps := steps + [Step(key, node.environment, node.scope, ops[k], predecessor)];
      predecessor := Some(key);
    }
  }

  lemma RowSnoc<T>(done: seq<T>, row: seq<T>, j: nat)
    requires j < |row|
    ensures done + row[..j] + [row[j]] == done + row[..j + 1]
  {
  }

  /** The middle loop: one account's scopes. */
  method AppendRow(before: seq<Step>, last: Option<string>, ghost done: seq<Node>,
                   environment: string, scopes: seq<string>, ops: seq<string>)
    returns (steps: seq<Step>, predecessor: Option<string>)
    requires ops != []
    requires before == Steps(done, ops) && last == LastKey(done, ops)
    ensures steps == Steps(done + Row(environment, scopes), ops)
    ensures predecessor == LastKey(done + Row(environment, scopes), ops)
  {
    steps, predecessor := before, last;
    ghost var row := Row(environment, scopes);
    assert done + row[..0] == done;
    hide Steps, LastKey;
    for j := 0 to |scopes|
      invariant steps == Steps(done + row[..j], ops) && predecessor == LastKey(done + row[..j], ops)
    {
      StepsSnoc(done + row[..j], row[j], ops);
      RowSnoc(done, row, j);
      steps, predecessor := AppendBlock(steps, predecessor, Node(environment, scopes[j]), ops);
    }
    assert row[..|scopes|] == row;
  }

  /** The builder: loops that append a step and remember its key. */
  method DeploymentSchedule(order: seq<string>, scopes: seq<string>, command: string, target: string)
    returns (r: Result<seq<Step>>)
    ensures r == ScheduleOf(order, scopes, command, target)
  {
    if !RequestAccepted(order, scopes, command, target) {
      return Rejected;
    }
    var envs := Environments(target);
    var ops := Operations(command);
    var steps: seq<Step> := [];
    var predecessor: Option<string> := None;
    hide Steps, LastKey, Nodes, Environments;
    NothingScheduled(envs, scopes, ops);
    for i := 0 to |envs|
      invariant steps == Steps(Nodes(envs[..i], scopes), ops)
      invariant predecessor == LastKey(Nodes(envs[..i], scopes), ops)
    {
      NodesSnoc(envs, i, scopes);
      steps, predecessor := AppendRow(steps, predecessor, Nodes(envs[..i], scopes), envs[i], scopes, ops);
    }
    assert envs[..|envs|] == envs;
    return Ok(steps);
  }

  lemma NothingScheduled(envs: seq<string>, scopes: seq<string>, ops: seq<string>)
    requires ops != []
    ensures Steps(Nodes(envs[..0], scopes), ops) == [] && LastKey(Nodes(envs[..0], scopes), ops) == None
  {
  }

  lemma NodesSnoc(envs: seq<string>, i: nat, scopes: seq<string>)
    requires i < |envs|
    ensures Nodes(envs[..i + 1], scopes) == Nodes(envs[..i], scopes) + Row(envs[i], scopes)
  {
    assert envs[..i + 1][..i] == envs[..i];
  }

  /* ---------- what the schedule promises ---------- */

  lemma {:induction false} InOrderDistinct(order: seq<string>, chosen: set<string>)
    requires Distinct(order)
    ensures Distinct(InOrder(order, chosen))
  {
    if order != [] {
      assert forall i, j :: 0 <= i < j < |order[1..]| ==>
        order[1..][i] == order[i + 1] && order[1..][j] == order[j + 1];
      InOrderDistinct(order[1..], chosen);
      var rest := InOrder(order[1..], chosen);
      if order[0] in chosen {
        assert order[0] !in order[1..];
        assert order[0] !in rest;
      }
    }
  }

  lemma NodesOfTarget(target: string, scopes: seq<string>)
    ensures Nodes(Environments(target), scopes)
         == Row(TEST, scopes) + (if target == PROD then Row(PROD, scopes) else [])
  {
    assert [TEST, PROD][..1] == [TEST] && [TEST][..0] == [];
    assert Nodes([TEST], scopes) == Row(TEST, scopes);
  }

  /** A node position and an operation position. */
  datatype Place = Place(node: nat, op: nat)

  predicate PlaceBefore(a: Place, b: Place) {
    a.node < b.node || (a.node == b.node && a.op < b.op)
  }

  ghost predicate At(nodes: seq<Node>, ops: seq<string>, i: nat, p: Place)
    requires ops != []
  {
    && p.node < |nodes| && p.op < |ops|
    && i < |Steps(nodes, ops)|
    && var s := Steps(nodes, ops)[i];
       s.environment == nodes[p.node].environment && s.scope == nodes[p.node].scope && s.operation == ops[p.op]
       && s.key == Key(s.environment, s.scope, s.operation)
  }

  /** Where a step of the serialized schedule comes from. */
  lemma {:induction false} Locate(nodes: seq<Node>, ops: seq<string>, i: nat) returns (p: Place)
    requires ops != [] && i < |Steps(nodes, ops)|
    ensures At(nodes, ops, i, p)
  {
    var n := |nodes| - 1;
    var front := Steps(nodes[..n], ops);
    if i < |front| {
      p := Locate(nodes[..n], ops, i);
    } else {
      p := Place(n, i - |front|);
    }
  }

  lemma {:induction false} LocateBoth(nodes: seq<Node>, ops: seq<string>, i: nat, j: nat) returns (a: Place, b: Place)
    requires ops != [] && i < j < |Steps(nodes, ops)|
    ensures At(nodes, ops, i, a) && At(nodes, ops, j, b) && PlaceBefore(a, b)
  {
    var n := |nodes| - 1;
    var front := Steps(nodes[..n], ops);
    if j < |front| {
      a, b := LocateBoth(nodes[..n], ops, i, j);
    } else if i < |front| {
      a := Locate(nodes[..n], ops, i);
      b := Place(n, j - |front|);
    } else {
      a, b := Place(n, i - |front|), Place(n, j - |front|);
    }
  }

  /** Every step but the first waits for the one before it. */
  lemma {:induction false} Predecessors(nodes: seq<Node>, ops: seq<string>, i: nat)
    requires ops != [] && i < |Steps(nodes, ops)|
    ensures Steps(nodes, ops)[i].predecessor == if i == 0 then None else Some(Steps(nodes, ops)[i - 1].key)
  {
    var n := |nodes| - 1;
    var front := Steps(nodes[..n], ops);
    if i < |front| {
      Predecessors(nodes[..n], ops, i);
    } else if i == |front| && n > 0 {
      LastIsLast(nodes[..n], ops);
    }
  }

  /** The last key belongs to the last step. */
  lemma LastIsLast(nodes: seq<Node>, ops: seq<string>)
    requires ops != [] && nodes != []
    ensures Steps(nodes, ops) != []
    ensures LastKey(nodes, ops) == Some(Steps(nodes, ops)[|Steps(nodes, ops)| - 1].key)
  {
    hide *;
    var front, last := nodes[..|nodes| - 1], nodes[|nodes| - 1];
    StepsSnoc(front, last, ops);
    BlockEnds(last, ops, LastKey(front, ops));
    FrontAndLast(nodes);
    ConcatEnds(Steps(front, ops), Block(last, ops, LastKey(front, ops)));
  }

  lemma BlockEnds(node: Node, ops: seq<string>, predecessor: Option<string>)
    requires ops != []
    ensures Block(node, ops, predecessor)[|ops| - 1].key == NodeKey(node, ops[|ops| - 1])
  {
  }

  lemma FrontAndLast<T>(xs: seq<T>)
    requires xs != []
    ensures xs == xs[..|xs| - 1] + [xs[|xs| - 1]]
  {
  }

  lemma ConcatEnds<T>(a: seq<T>, b: seq<T>)
    requires b != []
    ensures a + b != [] && (a + b)[|a + b| - 1] == b[|b| - 1]
  {
  }

  /** Of two steps, the earlier is for an earlier account, or for an earlier
      scope of the same account, or is an earlier operation of the same node:
      all of TEST precedes all of PROD and nodes never interleave. */
  lemma ScheduleOrder(order: seq<string>, scopes: seq<string>, command: string, target: string, i: nat, j: nat)
    returns (a: Place, b: Place)
    requires ScheduleOf(order, scopes, command, target).Ok?
    requires i < j < |ScheduleOf(order, scopes, command, target).value|
    ensures PlaceBefore(a, b)
    ensures At(Nodes(Environments(target), scopes), Operations(command), i, a)
    ensures At(Nodes(Environments(target), scopes), Operations(command), j, b)
  {
    var nodes, ops := Nodes(Environments(target), scopes), Operations(command);
    a, b := LocateBoth(nodes, ops, i, j);
  }

  lemma Framed(e: string, x: string, e': string, x': string)
    requires |e| == |e'| && e + x == e' + x'
    ensures e == e' && x == x'
  {
    assert e == (e + x)[..|e|] && e' == (e' + x')[..|e|];
    assert x == (e + x)[|e|..] && x' == (e' + x')[|e|..];
  }

  lemma FramedBack(x: string, o: string, x': string, o': string)
    requires |o| == |o'| && x + o == x' + o'
    ensures x == x' && o == o'
  {
    Framed(x, o, x', o');
  }

  lemma JoinIsInjective(e: string, s: string, o: string, e': string, s': string, o': string)
    requires |e| == |e'|
    requires |o| > 0 && |o'| > 0 && (o[|o| - 1] == o'[|o'| - 1] ==> |o| == |o'|)
    requires Key(e, s, o) == Key(e', s', o')
    ensures e == e' && s == s' && o == o'
  {
    var k := Key(e, s, o);
    assert k[|k| - 1] == o[|o| - 1];
    assert Key(e', s', o')[|k| - 1] == o'[|o'| - 1];
    FramedBack(e + "_" + s + "_", o, e' + "_" + s' + "_", o');
    FramedBack(e + "_" + s, "_", e' + "_" + s', "_");
    assert e + "_" + s == e + ("_" + s) && e' + "_" + s' == e' + ("_" + s');
    Framed(e, "_" + s, e', "_" + s');
    Framed("_", s, "_", s');
  }

  /** A key determines its environment, scope and operation, whatever the scope
      name contains. */
  lemma KeysAreInjective(e: string, s: string, o: string, e': string, s': string, o': string)
    requires {e, e'} <= {TEST, PROD} && {o, o'} <= {PLAN, "apply", "drift"}
    requires Key(e, s, o) == Key(e', s', o')
    ensures e == e' && s == s' && o == o'
  {
    assert |TEST| == 4 && |PROD| == 4;
    assert e in {e, e'} && e' in {e, e'} && o in {o, o'} && o' in {o, o'};
    assert forall x :: x in {TEST, PROD} ==> |x| == 4;
    assert forall x :: x in {PLAN, "apply", "drift"} ==>
        (x == PLAN && |x| == 4 && x[3] == 'n') || (|x| == 5 && x[4] == 'y') || (|x| == 5 && x[4] == 't');
    JoinIsInjective(e, s, o, e', s', o');
  }

  /** No two steps of a schedule share a key, so a predecessor names one step. */
  lemma ScheduleKeysAreDistinct(order: seq<string>, scopes: seq<string>, command: string, target: string, i: nat,
                                j: nat)
    requires Distinct(order)
    requires ScheduleOf(order, scopes, command, target).Ok?
    requires i < j < |ScheduleOf(order, scopes, command, target).value|
    ensures var steps := ScheduleOf(order, scopes, command, target).value; steps[i].key != steps[j].key
  {
    var nodes, ops := Nodes(Environments(target), scopes), Operations(command);
    InOrderDistinct(order, Names(scopes));
    hide Nodes, Steps, InOrder, Environments, Operations;
    var a, b := ScheduleOrder(order, scopes, command, target, i, j);
    NodesDistinct(target, scopes);
    OperationsDistinct(command);
    PlacesDiffer(nodes, ops, a, b);
    NodesMembers(target, scopes, nodes[a.node]);
    NodesMembers(target, scopes, nodes[b.node]);
    AccountsOf(target);
    hide Key;
    var x, y := Steps(nodes, ops)[i], Steps(nodes, ops)[j];
    assert {x.environment, y.environment} <= {TEST, PROD};
    assert {x.operation, y.operation} <= {PLAN, "apply", "drift"};
    if x.key == y.key {
      KeysAreInjective(x.environment, x.scope, x.operation, y.environment, y.scope, y.operation);
    }
  }

  lemma OperationsDistinct(command: string)
    ensures Distinct(Operations(command))
    ensures forall operation :: operation in Operations(command) ==> operation in {PLAN, "apply", "drift"}
  {
    assert |PLAN| == 4 && "apply"[0] == 'a' && "drift"[0] == 'd';
  }

  lemma AccountsOf(target: string)
    ensures forall environment :: environment in Environments(target) ==> environment in {TEST, PROD}
  {
  }

  lemma PlacesDiffer(nodes: seq<Node>, ops: seq<string>, a: Place, b: Place)
    requires Distinct(nodes) && Distinct(ops) && PlaceBefore(a, b)
    requires a.node < |nodes| && b.node < |nodes| && a.op < |ops| && b.op < |ops|
    ensures nodes[a.node] != nodes[b.node] || ops[a.op] != ops[b.op]
  {
  }

  /** The operations scheduled for one node. */
  function NodeOperations(steps: seq<Step>, environment: string, scope: string): seq<string> {
    if steps == [] then []
    else
      var n := |steps| - 1;
      NodeOperations(steps[..n], environment, scope)
      + (if steps[n].environment == environment && steps[n].scope == scope then [steps[n].operation] else [])
  }

  lemma {:induction false} NodeOperationsConcat(a: seq<Step>, b: seq<Step>, environment: string, scope: string)
    ensures NodeOperations(a + b, environment, scope)
         == NodeOperations(a, environment, scope) + NodeOperations(b, environment, scope)
  {
    if b == [] {
      assert a + b == a;
    } else {
      var n := |b| - 1;
      assert (a + b)[..|a| + n] == a + b[..n];
      NodeOperationsConcat(a, b[..n], environment, scope);
    }
  }

  lemma {:induction false} OperationsOfBlock(steps: seq<Step>, node: Node, ops: seq<string>, environment: string,
                                             scope: string)
    requires |steps| == |ops|
    requires forall o :: 0 <= o < |ops| ==>
               steps[o].environment == node.environment && steps[o].scope == node.scope && steps[o].operation == ops[o]
    ensures NodeOperations(steps, environment, scope) == if node == Node(environment, scope) then ops else []
  {
    if steps != [] {
      var n := |steps| - 1;
      OperationsOfBlock(steps[..n], node, ops[..n], environment, scope);
      assert ops == ops[..n] + [ops[n]];
    }
  }

  lemma {:induction false} OperationsOfSteps(nodes: seq<Node>, ops: seq<string>, environment: string, scope: string)
    requires ops != [] && Distinct(nodes)
    ensures NodeOperations(Steps(nodes, ops), environment, scope)
         == if Node(environment, scope) in nodes then ops else []
  {
    if nodes != [] {
      var n := |nodes| - 1;
      var front, back := Steps(nodes[..n], ops), Block(nodes[n], ops, LastKey(nodes[..n], ops));
      OperationsOfSteps(nodes[..n], ops, environment, scope);
      OperationsOfBlock(back, nodes[n], ops, environment, scope);
      NodeOperationsConcat(front, back, environment, scope);
    }
  }

  lemma RowMembers(environment: string, scopes: seq<string>, node: Node)
    ensures node in Row(environment, scopes) <==> node.environment == environment && node.scope in scopes
  {
    if node.environment == environment && node.scope in scopes {
      var s :| 0 <= s < |scopes| && scopes[s] == node.scope;
      assert Row(environment, scopes)[s] == node;
    }
  }

  lemma RowDistinct(environment: string, scopes: seq<string>)
    requires Distinct(scopes)
    ensures Distinct(Row(environment, scopes))
  {
    var row := Row(environment, scopes);
    forall i, j | 0 <= i < j < |row| ensures row[i] != row[j] {
      assert row[i].scope == scopes[i] && row[j].scope == scopes[j];
    }
  }

  lemma NodesDistinct(target: string, scopes: seq<string>)
    requires Distinct(scopes)
    ensures Distinct(Nodes(Environments(target), scopes))
  {
    NodesOfTarget(target, scopes);
    RowDistinct(TEST, scopes);
    RowDistinct(PROD, scopes);
    var test, prod := Row(TEST, scopes), Row(PROD, scopes);
    var both := test + prod;
    forall i, j | 0 <= i < j < |both| ensures both[i] != both[j] {
      if i < |test| <= j {
        assert both[i].environment == TEST && both[j].environment == PROD;
      }
    }
  }

  lemma NodesMembers(target: string, scopes: seq<string>, node: Node)
    ensures node in Nodes(Environments(target), scopes)
       <==> node.environment in Environments(target) && node.scope in scopes
  {
    NodesOfTarget(target, scopes);
    RowMembers(TEST, scopes, node);
    RowMembers(PROD, scopes, node);
  }

  /** Each selected node is scheduled for exactly the command's operations, in
      order, in exactly the requested accounts; no other node appears. */
  lemma ScheduledOperations(order: seq<string>, scopes: seq<string>, command: string, target: string,
                            environment: string, scope: string)
    requires Distinct(order)
    requires ScheduleOf(order, scopes, command, target).Ok?
    ensures NodeOperations(ScheduleOf(order, scopes, command, target).value, environment, scope)
         == if environment in Environments(target) && scope in scopes then Operations(command) else []
  {
    InOrderDistinct(order, Names(scopes));
    NodesDistinct(target, scopes);
    NodesMembers(target, scopes, Node(environment, scope));
    OperationsOfSteps(Nodes(Environments(target), scopes), Operations(command), environment, scope);
  }
}
