/** The installed pinned comparison (scripts/deployment_scopes.py), and the input
    on which selecting again does not reproduce its selection. */
module PinnedComparison {
  import opened Wrappers
  import opened Sorting
  import opened Scopes
  import opened Schedule

  const BASE := "df1d51a325e0a01ca2d9affc417d8833ed9592f7"
  const HEAD := "3d6645ae95274f4e70ec3037e4c06af96e1f61ec"

  const BOOTSTRAP := "pulumi" + "/" + ("infra" + "/" + "ci_bootstrap.py")
  const RUNBOOK := "specs" + "/" + ("service-test-preview-trust-cutover" + "/" + "runbook.md")
  const PARITY_TEST := "tests" + "/" + ("unit" + "/" + "test_governance_parity.py")
  const COMPONENT_TEST := "tests" + "/" + ("unit" + "/" + "test_governance_repo_component.py")
  const TRUST_TEST := "tests" + "/" + ("unit" + "/" + "test_oidc_trust_integration.py")

  const PATHS: seq<string> := [BOOTSTRAP, RUNBOOK, PARITY_TEST, COMPONENT_TEST, TRUST_TEST]

  const REVIEWED := Cutover(
    BASE, HEAD, {BOOTSTRAP, RUNBOOK, PARITY_TEST, COMPONENT_TEST, TRUST_TEST}, BOOTSTRAP,
    Impact(["governance"], false, false, false, "Reviewed PR #276 service preview trust cutover"))

  /** The five paths in four records: one test was renamed to another's name. */
  const RENAMED := [
    Record(BOOTSTRAP, "modified", None),
    Record(RUNBOOK, "modified", None),
    Record(PARITY_TEST, "modified", None),
    Record(COMPONENT_TEST, "renamed", Some(TRUST_TEST))]

  /* ---------- the paths are sound ---------- */

  predicate Plain(c: char) {
    'a' <= c <= 'z' || '0' <= c <= '9' || c in {'_', '-', '.'}
  }

  predicate PlainPart(s: string) {
    s != "" && 'a' <= s[0] <= 'z' && Plain(s[|s| - 1]) && forall c :: c in s ==> Plain(c)
  }

  lemma {:induction false} PartSplits(part: string)
    requires '/' !in part
    ensures Split(part) == [part]
  {
    if part != [] {
      PartSplits(part[1..]);
      assert [part[0]] + part[1..] == part;
    }
  }

  lemma {:induction false} FirstSplits(part: string, rest: string)
    requires '/' !in part
    ensures Split(part + "/" + rest) == [part] + Split(rest)
  {
    var whole := part + "/" + rest;
    if part == [] {
      assert whole[1..] == rest;
    } else {
      assert whole[1..] == part[1..] + "/" + rest;
      FirstSplits(part[1..], rest);
      assert [part[0]] + part[1..] == part;
    }
  }

  lemma PlainHasNoSlash(part: string)
    requires PlainPart(part)
    ensures '/' !in part && part !in ["", ".", ".."] && !Space(part[0]) && !Space(part[|part| - 1])
    ensures forall c :: c in part ==> ' ' <= c && c != '\U{7F}' && c != '\\'
  {
  }

  lemma ThreeParts(path: string, a: string, b: string, c: string)
    requires PlainPart(a) && PlainPart(b) && PlainPart(c)
    requires path == a + "/" + (b + "/" + c)
    ensures ValidPath(path)
  {
    PlainHasNoSlash(a);
    PlainHasNoSlash(b);
    PlainHasNoSlash(c);
    FirstSplits(a, b + "/" + c);
    FirstSplits(b, c);
    PartSplits(c);
    hide PlainPart, Split, Space;
    assert a != "" && c != "";
    assert path[0] == a[0] && path[|path| - 1] == c[|c| - 1];
    forall x | x in path ensures x in a || x == '/' || x in b || x in c {
    }
    assert [a] + ([b] + [c]) == [a, b, c];
  }

  lemma BootstrapIsValid()
    ensures ValidPath(BOOTSTRAP)
  {
    hide ValidPath;
    ThreeParts(BOOTSTRAP, "pulumi", "infra", "ci_bootstrap.py");
  }

  lemma RunbookIsValid()
    ensures ValidPath(RUNBOOK)
  {
    hide ValidPath;
    ThreeParts(RUNBOOK, "specs", "service-test-preview-trust-cutover", "runbook.md");
  }

  lemma ParityTestIsValid()
    ensures ValidPath(PARITY_TEST)
  {
    hide ValidPath;
    ThreeParts(PARITY_TEST, "tests", "unit", "test_governance_parity.py");
  }

  lemma ComponentTestIsValid()
    ensures ValidPath(COMPONENT_TEST)
  {
    hide ValidPath;
    ThreeParts(COMPONENT_TEST, "tests", "unit", "test_governance_repo_component.py");
  }

  lemma TrustTestIsValid()
    ensures ValidPath(TRUST_TEST)
  {
    hide ValidPath;
    ThreeParts(TRUST_TEST, "tests", "unit", "test_oidc_trust_integration.py");
  }

  lemma PathsAreValid()
    ensures forall p :: p in PATHS ==> ValidPath(p)
  {
    hide ValidPath;
    BootstrapIsValid();
    RunbookIsValid();
    ParityTestIsValid();
    ComponentTestIsValid();
    TrustTestIsValid();
  }

  lemma PathsDiffer()
    ensures |BOOTSTRAP| == 28 && |RUNBOOK| == 51 && |PARITY_TEST| == 36 && |COMPONENT_TEST| == 44 && |TRUST_TEST| == 41
  {
  }

  lemma RevisionsAreSound()
    ensures Revisions(BASE, HEAD)
  {
    assert BASE[0] != HEAD[0];
  }

  lemma RenameTouches()
    ensures RecordsAccepted(RENAMED) && Touched(RENAMED) == PATHS
    ensures Snapshot(RENAMED, BASE, HEAD, 4, true) == Ok(Sorted(PATHS))
  {
    PathsAreValid();
    PathsDiffer();
    RevisionsAreSound();
    hide ValidPath, Revisions, Sorted;
    assert RecordPaths(RENAMED[0]) == Ok([BOOTSTRAP]) && RecordPaths(RENAMED[1]) == Ok([RUNBOOK]);
    assert RecordPaths(RENAMED[2]) == Ok([PARITY_TEST]) && RecordPaths(RENAMED[3]) == Ok([COMPONENT_TEST, TRUST_TEST]);
    hide RecordPaths;
    assert RENAMED[..1] == [RENAMED[0]] && RENAMED[..2] == [RENAMED[0], RENAMED[1]];
    assert RENAMED[..3] == [RENAMED[0], RENAMED[1], RENAMED[2]];
    assert RENAMED[..3][..2] == RENAMED[..2] && RENAMED[..2][..1] == RENAMED[..1] && RENAMED[..1][..0] == [];
    assert Touched([]) == [];
    assert Touched(RENAMED[..1]) == [BOOTSTRAP] && Touched(RENAMED[..2]) == [BOOTSTRAP, RUNBOOK];
    assert Touched(RENAMED[..3]) == [BOOTSTRAP, RUNBOOK, PARITY_TEST];
  }

  lemma FivePaths()
    ensures |REVIEWED.paths| == 5 && Names(PATHS) == REVIEWED.paths
  {
    PathsDiffer();
    assert REVIEWED.paths == {BOOTSTRAP} + {RUNBOOK} + {PARITY_TEST} + {COMPONENT_TEST} + {TRUST_TEST};
  }

  /** Reproduction does fail at the installed comparison: whatever the path
      tables say of the five paths, the renamed snapshot is selected and its
      selection is not reproduced. */
  lemma RenameDefeatsReselection(selector: Selector)
    requires selector.cutover == REVIEWED && Pinned(selector)
    requires forall p :: p in PATHS ==> selector.classify(p).Some?
    ensures var r := Select(selector, RENAMED, BASE, HEAD, 4, true);
            r.Ok? && Reselect(selector, r.value) != Ok(r.value)
  {
    RenameTouches();
    FivePaths();
    hide Snapshot, RecordPaths, Touched, Sorted, Reselect, Pinned, Reasons;
    SelectAccepts(selector, RENAMED, BASE, HEAD, 4, true);
    forall p | TouchedBy(RENAMED, p) ensures p in PATHS {
      TouchedAre(RENAMED, p);
    }
    ReselectReproduces(selector, RENAMED, BASE, HEAD, 4, true);
  }
}
