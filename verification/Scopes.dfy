/** Conservative impact selection (scripts/deployment_scopes.py): a complete
    changed-file snapshot becomes an ordered selection of stacks.

    The path tables are a parameter: `classify` maps a path to its impact or
    rejects it.  The one pinned comparison that narrows a path is a parameter too. */
module Scopes {
  import opened Wrappers
  import opened Schedule
  import opened Sorting

  datatype Impact = Impact(stacks: seq<string>, scaffold: bool, execution: bool, catalog: bool, reason: string)

  datatype PathImpact = PathImpact(
    path: string,
    stacks: seq<string>,
    scaffoldValidation: bool,
    executionValidation: bool,
    catalogValidation: bool,
    reason: string)

  datatype DeploymentScopes = DeploymentScopes(
    baseSha: string,
    headSha: string,
    stacks: seq<string>,
    scaffoldValidation: bool,
    executionValidation: bool,
    catalogValidation: bool,
    reasons: seq<PathImpact>)

  /** The reviewed comparison: exactly these revisions and paths narrow `path`. */
  datatype Cutover = Cutover(base: string, head: string, paths: set<string>, path: string, narrowed: Impact)

  datatype Selector = Selector(order: seq<string>, classify: string -> Option<Impact>, cutover: Cutover)

  /** A changed-file record; the previous name's presence is part of it. */
  datatype Record = Record(filename: string, status: string, previous: Option<string>)

  /* ---------- validating a snapshot ---------- */

  predicate Hex(value: string, length: nat) {
    |value| == length && forall c :: c in value ==> '0' <= c <= '9' || 'a' <= c <= 'f'
  }

  function Split(path: string): (parts: seq<string>)
    ensures parts != []
  {
    if path == [] then [[]]
    else
      var rest := Split(path[1..]);
      if path[0] == '/' then [[]] + rest else [[path[0]] + rest[0]] + rest[1..]
  }

  predicate ValidPath(path: string) {
    && path != [] && !Space(path[0]) && !Space(path[|path| - 1])
    && '\\' !in path
    && (forall c :: c in path ==> ' ' <= c && c != '\U{7F}')
    && (forall part :: part in Split(path) ==> part !in ["", ".", ".."])
  }

  /** The paths a record touches, its destination first. */
  function RecordPaths(record: Record): Result<seq<string>> {
    if !ValidPath(record.filename) then Rejected
    else if record.status in ["renamed", "copied"] then
      if record.previous.Some? && ValidPath(record.previous.value) && record.previous.value != record.filename
      then Ok([record.filename, record.previous.value])
      else Rejected
    else if record.status !in ["added", "modified", "removed", "changed"] then Rejected
    else if record.previous.Some? then Rejected
    else Ok([record.filename])
  }

  predicate Revisions(base: string, head: string) {
    Hex(base, 40) && Hex(head, 40) && base != head
  }

  predicate RecordsAccepted(records: seq<Record>) {
    && (forall i :: 0 <= i < |records| ==> RecordPaths(records[i]).Ok?)
    && (forall i, j :: 0 <= i < j < |records| ==> records[i].filename != records[j].filename)
  }

  function Touched(records: seq<Record>): seq<string> {
    if records == [] then []
    else
      var n := |records| - 1;
      Touched(records[..n]) + (if RecordPaths(records[n]).Ok? then RecordPaths(records[n]).value else [])
  }

  /** Every path a complete snapshot touches, sorted. */
  function Snapshot(records: seq<Record>, base: string, head: string, count: int, complete: bool): Result<seq<string>> {
    if Revisions(base, head) && complete && count > 0 && |records| == count && RecordsAccepted(records)
    then Ok(Sorted(Touched(records)))
    else Rejected
  }

  predicate Touches(record: Record, p: string) {
    RecordPaths(record).Ok? && p in RecordPaths(record).value
  }

  predicate TouchedBy(records: seq<Record>, p: string) {
    exists i :: 0 <= i < |records| && Touches(records[i], p)
  }

  lemma {:induction false} TouchedFrom(records: seq<Record>, p: string) returns (i: nat)
    requires p in Touched(records)
    ensures i < |records| && Touches(records[i], p)
  {
    var n := |records| - 1;
    if p in Touched(records[..n]) {
      i := TouchedFrom(records[..n], p);
    } else {
      i := n;
    }
  }

  lemma {:induction false} TouchedIn(records: seq<Record>, i: nat, p: string)
    requires i < |records| && Touches(records[i], p)
    ensures p in Touched(records)
  {
    var n := |records| - 1;
    if i < n {
      TouchedIn(records[..n], i, p);
    }
  }

  lemma TouchedAre(records: seq<Record>, p: string)
    ensures p in Touched(records) <==> TouchedBy(records, p)
  {
    if p in Touched(records) {
      var i := TouchedFrom(records, p);
    }
    if TouchedBy(records, p) {
      var i :| 0 <= i < |records| && Touches(records[i], p);
      TouchedIn(records, i, p);
    }
  }

  ghost predicate Destinations(records: seq<Record>, destinations: set<string>) {
    forall d :: d in destinations <==> exists k :: 0 <= k < |records| && records[k].filename == d
  }

  ghost predicate Collected(records: seq<Record>, paths: set<string>, destinations: set<string>) {
    && RecordsAccepted(records)
    && paths == Names(Touched(records))
    && Destinations(records, destinations)
  }

  lemma AddDestination(records: seq<Record>, i: nat, destinations: set<string>)
    requires i < |records| && Destinations(records[..i], destinations)
    ensures Destinations(records[..i + 1], destinations + {records[i].filename})
  {
    var less, more := records[..i], records[..i + 1];
    forall d | d in destinations + {records[i].filename} ensures exists k :: 0 <= k < |more| && more[k].filename == d {
      if d == records[i].filename {
        assert more[i].filename == d;
      } else {
        var k :| 0 <= k < |less| && less[k].filename == d;
        assert more[k].filename == d;
      }
    }
    forall k | 0 <= k < i ensures more[k].filename in destinations {
      assert less[k].filename == more[k].filename;
    }
  }

  lemma StaysAccepted(records: seq<Record>, i: nat, destinations: set<string>)
    requires i < |records| && RecordsAccepted(records[..i]) && Destinations(records[..i], destinations)
    requires RecordPaths(records[i]).Ok? && records[i].filename !in destinations
    ensures RecordsAccepted(records[..i + 1])
  {
    hide RecordPaths;
    var less, more := records[..i], records[..i + 1];
    forall a | 0 <= a < |more| ensures RecordPaths(more[a]).Ok? {
      if a < i {
        assert more[a] == less[a];
      }
    }
    forall a, b | 0 <= a < b < |more| ensures more[a].filename != more[b].filename {
      assert more[a] == less[a];
      if b < i {
        assert more[b] == less[b];
      } else {
        assert less[a].filename in destinations;
      }
    }
  }

  lemma CollectOne(records: seq<Record>, i: nat, paths: set<string>, destinations: set<string>)
    requires i < |records| && Collected(records[..i], paths, destinations)
    requires RecordPaths(records[i]).Ok? && records[i].filename !in destinations
    ensures Collected(records[..i + 1], paths + Names(RecordPaths(records[i]).value),
                      destinations + {records[i].filename})
  {
    AddDestination(records, i, destinations);
    StaysAccepted(records, i, destinations);
    assert records[..i + 1][..i] == records[..i];
  }

  lemma Repeated(records: seq<Record>, i: nat, paths: set<string>, destinations: set<string>)
    requires i < |records| && Collected(records[..i], paths, destinations)
    requires records[i].filename in destinations
    ensures !RecordsAccepted(records)
  {
    var k :| 0 <= k < |records[..i]| && records[..i][k].filename == records[i].filename;
    assert records[k].filename == records[i].filename;
  }

  /** The collecting loop: sets of seen paths and of seen destinations. */
  method SnapshotPaths(records: seq<Record>, base: string, head: string, count: int, complete: bool)
    returns (r: Result<seq<string>>)
    ensures r == Snapshot(records, base, head, count, complete)
  {
    if !(Revisions(base, head) && complete && count > 0 && |records| == count) {
      return Rejected;
    }
    var paths: set<string> := {};
    var destinations: set<string> := {};
    for i := 0 to |records|
      invariant Collected(records[..i], paths, destinations)
    {
      var record := RecordPaths(records[i]);
      if record.Rejected? {
        return Rejected;
      }
      if record.value[0] in destinations {
        Repeated(records, i, paths, destinations);
        return Rejected;
      }
      CollectOne(records, i, paths, destinations);
      destinations := destinations + {record.value[0]};
      paths := paths + Names(record.value);
    }
    assert records[..|records|] == records;
    var sorted := SortSet(paths);
    SortedLists(Touched(records));
    assert (set x | x in Touched(records)) == paths;
    ListingIsUnique(sorted, Sorted(Touched(records)), paths);
    return Ok(sorted);
  }

  /* ---------- selecting ---------- */

  function Describe(path: string, impact: Impact): PathImpact {
    PathImpact(path, impact.stacks, impact.scaffold, impact.execution, impact.catalog, impact.reason)
  }

  predicate ReviewedCutover(cutover: Cutover, paths: seq<string>, base: string, head: string, count: int) {
    && base == cutover.base
    && head == cutover.head
    && count == |cutover.paths|
    && Names(paths) == cutover.paths
  }

  function ReasonFor(selector: Selector, reviewed: bool, path: string): Option<PathImpact> {
    if reviewed && path == selector.cutover.path then Some(Describe(path, selector.cutover.narrowed))
    else
      match selector.classify(path)
      case None => None
      case Some(impact) => Some(Describe(path, impact))
  }

  /** One reason per path, in path order; an unclassified path rejects them all. */
  function Reasons(selector: Selector, reviewed: bool, paths: seq<string>): Result<seq<PathImpact>> {
    if paths == [] then Ok([])
    else
      var n := |paths| - 1;
      var reasons :- Reasons(selector, reviewed, paths[..n]);
      match ReasonFor(selector, reviewed, paths[n])
      case None => Rejected
      case Some(reason) => Ok(reasons + [reason])
  }

  function StacksOf(reasons: seq<PathImpact>): set<string> {
    set r, s | r in reasons && s in r.stacks :: s
  }

  function Selection(selector: Selector, base: string, head: string, reasons: seq<PathImpact>): DeploymentScopes {
    DeploymentScopes(
      base, head,
      InOrder(selector.order, StacksOf(reasons)),
      exists r :: r in reasons && r.scaffoldValidation,
      exists r :: r in reasons && r.executionValidation,
      exists r :: r in reasons && r.catalogValidation,
      reasons)
  }

  function Select(selector: Selector, records: seq<Record>, base: string, head: string, count: int, complete: bool):
    Result<DeploymentScopes>
  {
    var paths :- Snapshot(records, base, head, count, complete);
    var reasons :- Reasons(selector, ReviewedCutover(selector.cutover, paths, base, head, count), paths);
    Ok(Selection(selector, base, head, reasons))
  }

  /* ---------- what a selection is ---------- */

  lemma {:induction false} ReasonsAt(selector: Selector, reviewed: bool, paths: seq<string>)
    requires Reasons(selector, reviewed, paths).Ok?
    ensures var reasons := Reasons(selector, reviewed, paths).value;
            |reasons| == |paths|
            && forall i :: 0 <= i < |paths| ==>
                 ReasonFor(selector, reviewed, paths[i]) == Some(reasons[i]) && reasons[i].path == paths[i]
  {
    if paths != [] {
      ReasonsAt(selector, reviewed, paths[..|paths| - 1]);
    }
  }

  lemma {:induction false} ReasonsAccepted(selector: Selector, reviewed: bool, paths: seq<string>)
    ensures Reasons(selector, reviewed, paths).Ok?
       <==> forall p :: p in paths ==> ReasonFor(selector, reviewed, p).Some?
  {
    if paths != [] {
      var n := |paths| - 1;
      ReasonsAccepted(selector, reviewed, paths[..n]);
      assert paths[n] in paths;
      assert forall p :: p in paths <==> p in paths[..n] || p == paths[n];
    }
  }

  /** Selection fails closed: it succeeds only when every record is sound and
      every path it touches, renamed sources included, is classified. */
  lemma SelectAccepts(selector: Selector, records: seq<Record>, base: string, head: string, count: int, complete: bool)
    ensures Select(selector, records, base, head, count, complete).Ok?
       <==> && Snapshot(records, base, head, count, complete).Ok?
            && var paths := Snapshot(records, base, head, count, complete).value;
               var reviewed := ReviewedCutover(selector.cutover, paths, base, head, count);
               forall p :: TouchedBy(records, p) ==> ReasonFor(selector, reviewed, p).Some?
  {
    if Snapshot(records, base, head, count, complete).Ok? {
      var paths := Snapshot(records, base, head, count, complete).value;
      var reviewed := ReviewedCutover(selector.cutover, paths, base, head, count);
      ReasonsAccepted(selector, reviewed, paths);
      SortedLists(Touched(records));
      forall p ensures p in paths <==> TouchedBy(records, p) {
        TouchedAre(records, p);
      }
    }
  }

  predicate Needs(selector: Selector, reviewed: bool, path: string, stack: string) {
    ReasonFor(selector, reviewed, path).Some? && stack in ReasonFor(selector, reviewed, path).value.stacks
  }

  /** A stack is selected exactly when some path a record touches needs it, and
      every touched path keeps its reason. */
  lemma SelectedStacks(selector: Selector, records: seq<Record>, base: string, head: string, count: int, complete: bool,
                       stack: string)
    requires Select(selector, records, base, head, count, complete).Ok?
    ensures var chosen := Select(selector, records, base, head, count, complete).value;
            var paths := Snapshot(records, base, head, count, complete).value;
            var reviewed := ReviewedCutover(selector.cutover, paths, base, head, count);
            && (stack in chosen.stacks <==>
                  stack in selector.order && exists p :: TouchedBy(records, p) && Needs(selector, reviewed, p, stack))
            && (forall p :: TouchedBy(records, p) <==> p in PathsOf(chosen.reasons))
  {
    var chosen := Select(selector, records, base, head, count, complete).value;
    var paths := Snapshot(records, base, head, count, complete).value;
    var reviewed := ReviewedCutover(selector.cutover, paths, base, head, count);
    SelectAccepts(selector, records, base, head, count, complete);
    TouchedAreListed(records, base, head, count, complete);
    ReasonsAt(selector, reviewed, paths);
    hide Select, Snapshot, TouchedBy, ReasonFor, Reasons;
    assert PathsOf(chosen.reasons) == paths;
    if p :| TouchedBy(records, p) && Needs(selector, reviewed, p, stack) {
      var i :| 0 <= i < |paths| && paths[i] == p;
      assert chosen.reasons[i] in chosen.reasons && stack in chosen.reasons[i].stacks;
    }
    if r :| r in chosen.reasons && stack in r.stacks {
      var i :| 0 <= i < |chosen.reasons| && chosen.reasons[i] == r;
      assert paths[i] in paths && Needs(selector, reviewed, paths[i], stack);
    }
  }

  lemma TouchedAreListed(records: seq<Record>, base: string, head: string, count: int, complete: bool)
    requires Snapshot(records, base, head, count, complete).Ok?
    ensures forall p :: p in Snapshot(records, base, head, count, complete).value <==> TouchedBy(records, p)
  {
    SortedLists(Touched(records));
    forall p ensures p in Snapshot(records, base, head, count, complete).value <==> TouchedBy(records, p) {
      TouchedAre(records, p);
    }
  }

  /* ---------- selecting again from the reasons ---------- */

  /** The reasons' paths as plain modifications, which is how a contract's
      selection is checked later. */
  function AsModified(reasons: seq<PathImpact>): (r: seq<Record>)
    ensures |r| == |reasons|
    ensures forall i :: 0 <= i < |r| ==> r[i] == Record(reasons[i].path, "modified", None)
  {
    seq(|reasons|, i requires 0 <= i < |reasons| => Record(reasons[i].path, "modified", None))
  }

  function Reselect(selector: Selector, chosen: DeploymentScopes): Result<DeploymentScopes> {
    Select(selector, AsModified(chosen.reasons), chosen.baseSha, chosen.headSha, |chosen.reasons|, true)
  }

  function PathsOf(reasons: seq<PathImpact>): (r: seq<string>)
    ensures |r| == |reasons|
    ensures forall i :: 0 <= i < |r| ==> r[i] == reasons[i].path
  {
    seq(|reasons|, i requires 0 <= i < |reasons| => reasons[i].path)
  }

  lemma {:induction false} TouchedModified(reasons: seq<PathImpact>)
    requires forall r :: r in reasons ==> ValidPath(r.path)
    ensures Touched(AsModified(reasons)) == PathsOf(reasons)
  {
    if reasons != [] {
      var n := |reasons| - 1;
      TouchedModified(reasons[..n]);
      assert AsModified(reasons)[..n] == AsModified(reasons[..n]);
      assert reasons[n] in reasons;
      assert RecordPaths(AsModified(reasons)[n]) == Ok([reasons[n].path]);
      assert PathsOf(reasons) == PathsOf(reasons[..n]) + [reasons[n].path];
    }
  }

  lemma SnapshotPathsAreValid(records: seq<Record>, base: string, head: string, count: int, complete: bool)
    requires Snapshot(records, base, head, count, complete).Ok?
    ensures var paths := Snapshot(records, base, head, count, complete).value;
            paths != [] && Ascending(paths) && forall p :: p in paths ==> ValidPath(p)
  {
    var paths := Snapshot(records, base, head, count, complete).value;
    SortedLists(Touched(records));
    forall p | p in paths ensures ValidPath(p) {
      TouchedAre(records, p);
      var i :| 0 <= i < |records| && Touches(records[i], p);
    }
    var first := records[0].filename;
    assert Touches(records[0], first);
    TouchedAre(records, first);
    assert first in paths;
  }

  /** The snapshot of the reasons' paths is those paths. */
  lemma ModifiedSnapshot(reasons: seq<PathImpact>, base: string, head: string)
    requires Revisions(base, head) && reasons != []
    requires Ascending(PathsOf(reasons)) && forall p :: p in PathsOf(reasons) ==> ValidPath(p)
    ensures Snapshot(AsModified(reasons), base, head, |reasons|, true) == Ok(PathsOf(reasons))
  {
    var paths := PathsOf(reasons);
    forall r | r in reasons ensures ValidPath(r.path) {
      var i :| 0 <= i < |reasons| && reasons[i] == r;
      assert paths[i] in paths;
    }
    hide ValidPath, Ascending;
    TouchedModified(reasons);
    ModifiedAccepted(reasons);
    hide RecordsAccepted, Touched;
    ListingIsSorted(paths, Names(paths));
  }

  lemma ModifiedAccepted(reasons: seq<PathImpact>)
    requires Ascending(PathsOf(reasons)) && forall r :: r in reasons ==> ValidPath(r.path)
    ensures RecordsAccepted(AsModified(reasons))
  {
    var paths, records := PathsOf(reasons), AsModified(reasons);
    hide ValidPath;
    forall i, j | 0 <= i < j < |records| ensures records[i].filename != records[j].filename {
      assert Less(paths[i], paths[j]);
      LessIrreflexive(paths[i]);
    }
    forall i | 0 <= i < |records| ensures RecordPaths(records[i]).Ok? {
      assert reasons[i] in reasons;
    }
  }

  /** The pinned comparison seen with a record count other than its path count
      (a rename touches two paths): only then do the two passes disagree about
      whether it was reviewed. */
  predicate Miscounted(selector: Selector, records: seq<Record>, base: string, head: string) {
    && base == selector.cutover.base
    && head == selector.cutover.head
    && Names(Touched(records)) == selector.cutover.paths
    && |records| != |selector.cutover.paths|
  }

  /** The pinned narrowing changes the pinned path's reason. */
  predicate Pinned(selector: Selector) {
    && selector.cutover.path in selector.cutover.paths
    && selector.classify(selector.cutover.path) != Some(selector.cutover.narrowed)
  }

  lemma {:induction false} SameReasons(selector: Selector, a: bool, b: bool, paths: seq<string>)
    requires a == b || selector.cutover.path !in paths
    ensures Reasons(selector, a, paths) == Reasons(selector, b, paths)
  {
    if paths != [] {
      SameReasons(selector, a, b, paths[..|paths| - 1]);
    }
  }

  /** Reselecting from the reasons reproduces the selection exactly when the
      snapshot was not the miscounted pinned comparison. */
  lemma ReselectReproduces(selector: Selector, records: seq<Record>, base: string, head: string, count: int,
                           complete: bool)
    requires Pinned(selector)
    requires Select(selector, records, base, head, count, complete).Ok?
    ensures var chosen := Select(selector, records, base, head, count, complete).value;
            Reselect(selector, chosen) == Ok(chosen) <==> !Miscounted(selector, records, base, head)
  {
    var chosen := Select(selector, records, base, head, count, complete).value;
    var paths := Snapshot(records, base, head, count, complete).value;
    var reviewed := ReviewedCutover(selector.cutover, paths, base, head, count);
    ReasonsAt(selector, reviewed, paths);
    assert PathsOf(chosen.reasons) == paths;
    SnapshotPathsAreValid(records, base, head, count, complete);
    SortedLists(Touched(records));
    assert Names(paths) == Names(Touched(records));
    ModifiedSnapshot(chosen.reasons, base, head);
    var again := ReviewedCutover(selector.cutover, paths, base, head, |paths|);
    ListingLength(paths, Names(paths));
    assert again <==> (&& base == selector.cutover.base && head == selector.cutover.head
                       && Names(paths) == selector.cutover.paths);
    if again == reviewed {
      assert Reselect(selector, chosen) == Ok(chosen);
    } else {
      assert Miscounted(selector, records, base, head);
      var i :| 0 <= i < |paths| && paths[i] == selector.cutover.path;
      if Reasons(selector, again, paths).Ok? {
        ReasonsAt(selector, again, paths);
        assert Reasons(selector, again, paths).value[i] != chosen.reasons[i];
      }
    }
  }
}
