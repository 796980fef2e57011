/** Which job listings a promotion proof accepts
    (scripts/deployment_promotion_proof.py), said of the listing itself rather
    than of the evidence selected from it, and a listing that is accepted: the
    jobs of a run that executes them one after another. */
module JobListings {
  import opened Wrappers
  import opened Schedule
  import opened JobGraph
  import opened JobOrder

  /** Of two listed jobs the one that must come first ended before the other
      started. */
  ghost predicate Timely(jobs: seq<Job>, scopes: seq<string>) {
    forall i, j :: 0 <= i < |jobs| && 0 <= j < |jobs| && MustPrecede(scopes, jobs[i].name, jobs[j].name) ==>
      EndsFirst(jobs[i], jobs[j])
  }

  predicate EndsFirst(first: Job, second: Job) {
    first.completedAt.Some? && second.startedAt.Some? && first.completedAt.value <= second.startedAt.value
  }

  lemma {:induction false} SelectionExists(jobs: seq<Job>, scopes: seq<string>, i: nat) returns (selected: Evidences)
    requires Evident(jobs, scopes) && i <= |jobs|
    ensures Selects(jobs[..i], scopes, selected) && Unrepeated(jobs[..i], scopes)
  {
    if i == 0 {
      selected := map[];
    } else {
      var n := i - 1;
      selected := SelectionExists(jobs, scopes, n);
      hide Evident, Selects, Unrepeated, Expected, JobEvidence;
      if Expected(scopes, jobs[n].name) {
        if jobs[n].name in selected {
          Repeats(jobs, scopes, selected, n);
          assert false;
        } else {
          var evidence := EvidenceAt(jobs, scopes, n);
          SelectOne(jobs, scopes, selected, n, evidence);
          StaysUnrepeated(jobs, scopes, selected, n);
          selected := selected[jobs[n].name := evidence];
        }
      } else {
        SkipOne(jobs, scopes, selected, n);
      }
    }
  }

  lemma EvidenceAt(jobs: seq<Job>, scopes: seq<string>, i: nat) returns (evidence: Evidence)
    requires Evident(jobs, scopes) && i < |jobs| && Expected(scopes, jobs[i].name)
    ensures JobEvidence(jobs[i]) == Some(evidence)
  {
    evidence := JobEvidence(jobs[i]).value;
  }

  lemma HonouredMeansTimely(jobs: seq<Job>, scopes: seq<string>, selected: Evidences)
    requires Selected(jobs, scopes, selected)
    ensures Honoured(scopes, selected) <==> Timely(jobs, scopes)
  {
    hide MustPrecede, Expected;
    if Honoured(scopes, selected) {
      forall i, j | 0 <= i < |jobs| && 0 <= j < |jobs| && MustPrecede(scopes, jobs[i].name, jobs[j].name)
        ensures EndsFirst(jobs[i], jobs[j])
      {
        PrecedenceIsOfExpected(scopes, jobs[i].name, jobs[j].name);
        assert Ends(selected, jobs[i].name, jobs[j].name);
      }
    }
    if Timely(jobs, scopes) {
      forall a, b | MustPrecede(scopes, a, b) ensures Ends(selected, a, b) {
        PrecedenceIsOfExpected(scopes, a, b);
        var i :| 0 <= i < |jobs| && jobs[i].name == a;
        var j :| 0 <= j < |jobs| && jobs[j].name == b;
        assert EndsFirst(jobs[i], jobs[j]);
      }
    }
  }

  lemma PrecedenceIsOfExpected(scopes: seq<string>, a: JobName, b: JobName)
    requires MustPrecede(scopes, a, b)
    ensures Expected(scopes, a) && Expected(scopes, b)
  {
  }

  /** A listing is accepted exactly when it shows every expected job once, as a
      successful one, and times every two of them as the precedence asks. */
  lemma AcceptedMeansTimely(jobs: seq<Job>, scopes: seq<string>)
    requires scopes != []
    ensures GraphAccepted(jobs, scopes) <==> Evident(jobs, scopes) && Timely(jobs, scopes)
  {
    if Evident(jobs, scopes) {
      var selected := SelectionExists(jobs, scopes, |jobs|);
      assert jobs[..|jobs|] == jobs;
      SelectedAll(jobs, scopes, selected);
      hide Evident, Selects, Unrepeated, Timely, VerifyOrder, Honoured, Complete;
      assert Selected(jobs, scopes, selected);
      SelectedIsComplete(jobs, scopes, selected);
      ChecksAreExact(scopes, selected);
      HonouredMeansTimely(jobs, scopes, selected);
      forall other | Selected(jobs, scopes, other) ensures other == selected {
        SelectionIsUnique(jobs, scopes, other, selected);
      }
    }
  }

  /* ---------- a serial run's listing ---------- */

  /** An account's worker jobs: scope by scope, stage by stage. */
  function Workers(scopes: seq<string>, account: string): (r: seq<JobName>)
    ensures |r| == 7 * |scopes|
    ensures forall k :: 0 <= k < |r| ==> r[k] == Worker(scopes[k / 7], account, STAGES[k % 7])
  {
    seq(7 * |scopes|, k requires 0 <= k < 7 * |scopes| => Worker(scopes[k / 7], account, STAGES[k % 7]))
  }

  function Front(scopes: seq<string>): seq<JobName> {
    [Preflight, ValidateInputs] + Workers(scopes, TEST)
  }

  /** Every expected job, in the order a run without any parallelism takes. */
  function SerialNames(scopes: seq<string>): seq<JobName> {
    Front(scopes) + [WholeTest] + Workers(scopes, PROD) + [WholeProd]
  }

  /** The jobs as listed: each starts when the one before it ended. */
  function SerialListing(names: seq<JobName>, run: Run): (r: seq<Job>)
    ensures |r| == |names|
    ensures forall k :: 0 <= k < |r| ==> r[k].name == names[k] && JobEvidence(r[k]) == Some(Evidence(k + 1, k, k + 1))
  {
    seq(|names|, k requires 0 <= k < |names| =>
      Job(k + 1, names[k], run.id, 1, run.url, run.sha, "main", "completed", "success", Some(k), Some(k + 1)))
  }

  /** Where a name stands in the order: its phase, then its place in its account. */
  ghost predicate Placed(scopes: seq<string>, name: JobName, k: int) {
    var n := 7 * |scopes|;
    match name
    case Preflight => k == 0
    case ValidateInputs => k == 1
    case WholeTest => k == n + 2
    case WholeProd => k == 2 * n + 3
    case Worker(scope, account, stage) =>
      exists s :: 0 <= s < |scopes| && scopes[s] == scope
        && ((account == TEST && k == 2 + 7 * s + Rank(stage)) || (account == PROD && k == n + 3 + 7 * s + Rank(stage)))
    case Unrelated(_) => false
  }

  lemma WorkerPlace(scopes: seq<string>, account: string, k: nat)
    requires k < 7 * |scopes|
    ensures Workers(scopes, account)[k] == Worker(scopes[k / 7], account, STAGES[k % 7])
    ensures k == 7 * (k / 7) + Rank(STAGES[k % 7]) && 0 <= k / 7 < |scopes|
  {
    RankOfStage(k % 7);
  }

  lemma RankOfStage(r: nat)
    requires r < 7
    ensures Rank(STAGES[r]) == r
  {
    assert STAGES[0] == Resolve && STAGES[1] == Preview && STAGES[2] == DestructiveDiff && STAGES[3] == IamValidation;
    assert STAGES[4] == Apply && STAGES[5] == PostApplyDrift && STAGES[6] == Receipt;
  }

  lemma NamesArePlaced(scopes: seq<string>, k: nat)
    requires k < |SerialNames(scopes)|
    ensures Placed(scopes, SerialNames(scopes)[k], k) && Expected(scopes, SerialNames(scopes)[k])
  {
    SerialLength(scopes);
    var n := 7 * |scopes|;
    NameAt(scopes, k);
    hide Workers, SerialNames, Rank;
    if 2 <= k < n + 2 {
      WorkerPlace(scopes, TEST, k - 2);
    } else if n + 3 <= k < 2 * n + 3 {
      WorkerPlace(scopes, PROD, k - n - 3);
    }
  }

  lemma SerialLength(scopes: seq<string>)
    ensures |SerialNames(scopes)| == 14 * |scopes| + 4
  {
  }

  /** What stands at each place of the order. */
  lemma NameAt(scopes: seq<string>, k: nat)
    requires k < |SerialNames(scopes)|
    ensures var n := 7 * |scopes|;
            SerialNames(scopes)[k] ==
              if k == 0 then Preflight
              else if k == 1 then ValidateInputs
              else if k < n + 2 then Workers(scopes, TEST)[k - 2]
              else if k == n + 2 then WholeTest
              else if k < 2 * n + 3 then Workers(scopes, PROD)[k - n - 3]
              else WholeProd
  {
    hide Workers;
  }

  lemma PlaceIsThere(scopes: seq<string>, name: JobName) returns (k: nat)
    requires Expected(scopes, name)
    ensures k < |SerialNames(scopes)| && SerialNames(scopes)[k] == name
  {
    SerialLength(scopes);
    hide Workers, SerialNames, Rank;
    var n := 7 * |scopes|;
    match name
    case Preflight => k := 0; NameAt(scopes, k);
    case ValidateInputs => k := 1; NameAt(scopes, k);
    case WholeTest => k := n + 2; NameAt(scopes, k);
    case WholeProd => k := 2 * n + 3; NameAt(scopes, k);
    case Worker(scope, account, stage) =>
      var s :| 0 <= s < |scopes| && scopes[s] == scope;
      var place := 7 * s + Rank(stage);
      WorkerAt(scopes, account, s, stage);
      k := if account == TEST then place + 2 else place + n + 3;
      NameAt(scopes, k);
  }

  lemma WorkerAt(scopes: seq<string>, account: string, s: nat, stage: Stage)
    requires s < |scopes|
    ensures 0 <= Rank(stage) < 7 && Workers(scopes, account)[7 * s + Rank(stage)] == Worker(scopes[s], account, stage)
  {
    StageOfRank(stage);
    assert (7 * s + Rank(stage)) / 7 == s && (7 * s + Rank(stage)) % 7 == Rank(stage);
  }

  lemma StageOfRank(stage: Stage)
    ensures 0 <= Rank(stage) < 7 && STAGES[Rank(stage)] == stage
  {
    assert STAGES[0] == Resolve && STAGES[1] == Preview && STAGES[2] == DestructiveDiff && STAGES[3] == IamValidation;
    assert STAGES[4] == Apply && STAGES[5] == PostApplyDrift && STAGES[6] == Receipt;
  }

  /** Each name has one place, and what must come first has the earlier one. */
  lemma PlacesFollowPrecedence(scopes: seq<string>, a: JobName, b: JobName, i: int, j: int)
    requires Distinct(scopes) && Placed(scopes, a, i) && Placed(scopes, b, j)
    ensures a == b ==> i == j
    ensures MustPrecede(scopes, a, b) ==> i < j
  {
    forall stage ensures 0 <= Rank(stage) < 7 {
      StageOfRank(stage);
    }
    if a.Worker? && b.Worker? && a.account == b.account {
      var s :| 0 <= s < |scopes| && scopes[s] == a.scope
               && i == 7 * s + Rank(a.stage) + if a.account == TEST then 2 else 7 * |scopes| + 3;
      var t :| 0 <= t < |scopes| && scopes[t] == b.scope
               && j == 7 * t + Rank(b.stage) + if a.account == TEST then 2 else 7 * |scopes| + 3;
      if ScopeBefore(scopes, a.scope, b.scope) {
        assert s < t;
      }
    }
  }

  lemma SerialListingIsTimely(scopes: seq<string>, run: Run)
    requires Distinct(scopes)
    ensures Timely(SerialListing(SerialNames(scopes), run), scopes)
  {
    hide SerialNames, MustPrecede, Placed, Expected;
    var names := SerialNames(scopes);
    var jobs := SerialListing(names, run);
    forall i, j | 0 <= i < |jobs| && 0 <= j < |jobs| && MustPrecede(scopes, jobs[i].name, jobs[j].name)
      ensures EndsFirst(jobs[i], jobs[j])
    {
      NamesArePlaced(scopes, i);
      NamesArePlaced(scopes, j);
      PlacesFollowPrecedence(scopes, names[i], names[j], i, j);
      assert JobEvidence(jobs[i]) == Some(Evidence(i + 1, i, i + 1))
        && JobEvidence(jobs[j]) == Some(Evidence(j + 1, j, j + 1));
    }
  }

  /** The jobs of a run that executes them one after another in that order are a
      listing the graph check accepts: its timing conditions can be met for every
      selection of different scopes. */
  lemma SerialListingIsAccepted(scopes: seq<string>, run: Run)
    requires Distinct(scopes) && scopes != [] && run.id > 0
    ensures var jobs := SerialListing(SerialNames(scopes), run);
            && DistinctIds(jobs) && (forall job :: job in jobs ==> JobIdentity(job, run))
            && GraphAccepted(jobs, scopes)
  {
    hide SerialNames, Evident, Timely, GraphAccepted;
    SerialListingIsEvident(scopes, run);
    SerialListingIsTimely(scopes, run);
    AcceptedMeansTimely(SerialListing(SerialNames(scopes), run), scopes);
  }

  lemma SerialListingIsEvident(scopes: seq<string>, run: Run)
    requires Distinct(scopes)
    ensures Evident(SerialListing(SerialNames(scopes), run), scopes)
  {
    hide SerialNames, Placed, Expected;
    var names := SerialNames(scopes);
    var jobs := SerialListing(names, run);
    forall i, j | 0 <= i < j < |jobs| ensures jobs[i].name != jobs[j].name {
      NamesArePlaced(scopes, i);
      NamesArePlaced(scopes, j);
      PlacesFollowPrecedence(scopes, names[i], names[j], i, j);
    }
    forall name | Expected(scopes, name) ensures exists i :: 0 <= i < |jobs| && jobs[i].name == name {
      var k := PlaceIsThere(scopes, name);
      assert jobs[k].name == name;
    }
  }
}
