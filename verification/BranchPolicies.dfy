/** Convergence of an environment's branch policies to the one main rule
    (scripts/configure_github_repository_controls.py,
    scripts/_github_environment_controls.py), acting on server state. */
module BranchPolicies {
  import opened Wrappers

  datatype Rule = Rule(name: string, kind: string)

  datatype Policy = Policy(id: int, rule: Rule)

  /** A listing as returned; it may be a partial page. */
  datatype Response = Response(totalCount: int, policies: seq<Policy>)

  datatype Write = Deleted(id: int) | Posted(rule: Rule)

  const MAIN := Rule("main", "branch")

  predicate PolicyAccepted(policy: Policy) {
    && policy.id > 0
    && policy.rule.name != "" && !Space(policy.rule.name[0]) && !Space(policy.rule.name[|policy.rule.name| - 1])
    && policy.rule.kind in ["branch", "tag"]
  }

  predicate DistinctIds(policies: seq<Policy>) {
    forall i, j :: 0 <= i < j < |policies| ==> policies[i].id != policies[j].id
  }

  predicate ListingAccepted(response: Response) {
    && (forall policy :: policy in response.policies ==> PolicyAccepted(policy))
    && DistinctIds(response.policies)
    && response.totalCount == |response.policies|
  }

  ghost predicate Ascending(policies: seq<Policy>) {
    forall i, j :: 0 <= i < j < |policies| ==> policies[i].id < policies[j].id
  }

  function Insert(policy: Policy, sorted: seq<Policy>): seq<Policy> {
    if sorted == [] then [policy]
    else if policy.id < sorted[0].id then [policy] + sorted
    else [sorted[0]] + Insert(policy, sorted[1..])
  }

  function SortById(policies: seq<Policy>): seq<Policy> {
    if policies == [] then [] else Insert(policies[|policies| - 1], SortById(policies[..|policies| - 1]))
  }

  lemma {:induction false} InsertSorts(policy: Policy, sorted: seq<Policy>)
    requires Ascending(sorted) && forall p :: p in sorted ==> p.id != policy.id
    ensures Ascending(Insert(policy, sorted))
    ensures forall p :: p in Insert(policy, sorted) <==> p in sorted || p == policy
  {
    if sorted != [] && policy.id >= sorted[0].id {
      InsertSorts(policy, sorted[1..]);
      var rest := Insert(policy, sorted[1..]);
      assert forall p :: p in sorted <==> p == sorted[0] || p in sorted[1..];
      forall i | 0 <= i < |rest| ensures sorted[0].id < rest[i].id {
        assert rest[i] in rest;
      }
    }
  }

  lemma {:induction false} SortSorts(policies: seq<Policy>)
    requires DistinctIds(policies)
    ensures Ascending(SortById(policies))
    ensures forall p :: p in SortById(policies) <==> p in policies
  {
    if policies != [] {
      var n := |policies| - 1;
      SortSorts(policies[..n]);
      InsertSorts(policies[n], SortById(policies[..n]));
      assert forall p :: p in policies <==> p in policies[..n] || p == policies[n];
    }
  }

  /* ---------- which policy stays ---------- */

  /** The first main rule of a list. */
  function Kept(policies: seq<Policy>): Option<int> {
    if policies == [] then None
    else
      var n := |policies| - 1;
      var before := Kept(policies[..n]);
      if before.None? && policies[n].rule == MAIN then Some(policies[n].id) else before
  }

  /** Every other policy, in list order. */
  function Doomed(policies: seq<Policy>): seq<int> {
    if policies == [] then []
    else
      var n := |policies| - 1;
      Doomed(policies[..n]) + if Kept(policies[..n]).None? && policies[n].rule == MAIN then [] else [policies[n].id]
  }

  function Ids(policies: seq<Policy>): set<int> {
    set p | p in policies :: p.id
  }

  function Deletions(ids: seq<int>): (r: seq<Write>)
    ensures |r| == |ids| && forall i :: 0 <= i < |r| ==> r[i] == Deleted(ids[i])
  {
    seq(|ids|, i requires 0 <= i < |ids| => Deleted(ids[i]))
  }

  function Set(ids: seq<int>): set<int> {
    set id | id in ids
  }

  ghost predicate DistinctInts(ids: seq<int>) {
    forall i, j :: 0 <= i < j < |ids| ==> ids[i] != ids[j]
  }

  /** Exactly one main rule stays: the one with the smallest ID. */
  lemma {:induction false} KeptIsSmallest(policies: seq<Policy>)
    requires Ascending(policies)
    ensures Kept(policies).None? <==> forall p :: p in policies ==> p.rule != MAIN
    ensures Kept(policies).Some? ==>
              && Policy(Kept(policies).value, MAIN) in policies
              && forall p :: p in policies && p.rule == MAIN ==> Kept(policies).value <= p.id
  {
    if policies != [] {
      var n := |policies| - 1;
      KeptIsSmallest(policies[..n]);
      assert forall p :: p in policies <==> p in policies[..n] || p == policies[n];
      if Kept(policies[..n]).None? && policies[n].rule == MAIN {
        assert policies[n] == Policy(policies[n].id, MAIN);
      }
      if Kept(policies[..n]).Some? {
        var kept := Policy(Kept(policies[..n]).value, MAIN);
        var i :| 0 <= i < n && policies[..n][i] == kept;
        assert policies[i] == kept;
      }
    }
  }

  lemma IdsSnoc(policies: seq<Policy>)
    requires Ascending(policies) && policies != []
    ensures var n := |policies| - 1;
            && Ascending(policies[..n])
            && Ids(policies) == Ids(policies[..n]) + {policies[n].id}
            && policies[n].id !in Ids(policies[..n])
  {
    var n := |policies| - 1;
    assert forall p :: p in policies <==> p in policies[..n] || p == policies[n];
    forall p | p in policies[..n] ensures p.id < policies[n].id {
      var i :| 0 <= i < |policies[..n]| && policies[..n][i] == p;
    }
  }

  lemma {:induction false} DoomedAreTheOthers(policies: seq<Policy>)
    requires Ascending(policies)
    ensures forall id :: id in Doomed(policies) <==> id in Ids(policies) && Kept(policies) != Some(id)
    ensures DistinctInts(Doomed(policies))
    ensures Kept(policies).Some? ==> Kept(policies).value in Ids(policies)
  {
    hide Ids, Ascending;
    if policies == [] {
      assert Ids([]) == {} by {
        NoIds();
      }
    } else {
      var n := |policies| - 1;
      IdsSnoc(policies);
      DoomedAreTheOthers(policies[..n]);
      forall i | 0 <= i < |Doomed(policies[..n])| ensures Doomed(policies[..n])[i] != policies[n].id {
        assert Doomed(policies[..n])[i] in Doomed(policies[..n]);
      }
    }
  }

  lemma NoIds()
    ensures Ids([]) == {}
  {
  }

  lemma DoomedSnoc(policies: seq<Policy>, i: nat)
    requires i < |policies|
    ensures var less, more := policies[..i], policies[..i + 1];
            && Kept(more) == (if Kept(less).None? && policies[i].rule == MAIN then Some(policies[i].id) else Kept(less))
            && Doomed(more) ==
               Doomed(less) + if Kept(less).None? && policies[i].rule == MAIN then [] else [policies[i].id]
  {
    assert policies[..i + 1][..i] == policies[..i];
  }

  /* ---------- the server ---------- */

  class Environment {
    var policies: map<int, Rule>
    ghost var writes: seq<Write>

    constructor ()
      ensures policies == map[] && writes == []
    {
      policies, writes := map[], [];
    }

    /** A listing shows some of the policies and how many there are. */
    method List() returns (r: Option<Response>)
      ensures r.Some? ==> r.value.totalCount == |policies|
      ensures r.Some? ==> forall p :: p in r.value.policies ==> p.id in policies && policies[p.id] == p.rule
    {
      var shown: seq<Policy> := *;
      if forall i :: 0 <= i < |shown| ==> shown[i].id in policies && policies[shown[i].id] == shown[i].rule {
        return Some(Response(|policies|, shown));
      }
      return None;
    }

    /** A deletion happens, or is reported to have failed, and then it may have
        happened or not. */
    method Delete(id: int) returns (ok: bool)
      modifies this
      ensures || (policies == old(policies) - {id} && writes == old(writes) + [Deleted(id)])
              || (!ok && policies == old(policies) && writes == old(writes))
    {
      ok := *;
      var effective: bool := *;
      if ok || effective {
        policies, writes := policies - {id}, writes + [Deleted(id)];
      }
    }

    method Post(rule: Rule) returns (ok: bool)
      modifies this
      ensures || (&& writes == old(writes) + [Posted(rule)]
                  && exists id :: id !in old(policies) && policies == old(policies)[id := rule])
              || (!ok && policies == old(policies) && writes == old(writes))
    {
      ok := *;
      var id: int := *;
      if id in policies {
        return false;
      }
      var effective: bool := *;
      if ok || effective {
        policies, writes := policies[id := rule], writes + [Posted(rule)];
      }
    }

    /** Read and validate the whole listing, which changes nothing. */
    method ValidatedPolicies() returns (r: Result<seq<Policy>>)
      ensures r.Ok? ==> Ascending(r.value) && Ids(r.value) == policies.Keys
      ensures r.Ok? ==> forall p :: p in r.value ==> p.id in policies && policies[p.id] == p.rule
    {
      var response := List();
      if response.None? || !ListingAccepted(response.value) {
        return Rejected;
      }
      SortSorts(response.value.policies);
      CompleteListing(response.value.policies, policies);
      hide Ascending, SortById;
      var listing := SortById(response.value.policies);
      assert Ids(listing) == policies.Keys;
      return Ok(listing);
    }

    /** Delete all but the first main rule of a validated listing; create one if
        there is none.  A run that stops has deleted some of the doomed policies,
        in order, and nothing else. */
    method Converge(listing: seq<Policy>) returns (ok: bool)
      requires Ascending(listing)
      modifies this
      ensures Partly(old(policies), policies, old(writes), writes, listing)
                || Fully(old(policies), policies, old(writes), writes, listing)
      ensures ok ==> Fully(old(policies), policies, old(writes), writes, listing)
    {
      hide Ascending;
      var mainExists := false;
      ghost var before, sent := policies, writes;
      assert before - Set([]) == before && sent + Deletions([]) == sent;
      DoomedNothing(listing);
      for i := 0 to |listing|
        invariant mainExists <==> Kept(listing[..i]).Some?
        invariant policies == before - Set(Doomed(listing[..i]))
        invariant writes == sent + Deletions(Doomed(listing[..i]))
      {
        DoomedSnoc(listing, i);
        DoomedPrefix(listing, i);
        DoomedPrefix(listing, i + 1);
        if !mainExists && listing[i].rule == MAIN {
          mainExists := true;
        } else {
          ghost var doomed := Doomed(listing[..i]);
          OneMore(doomed, listing[i].id, before, sent);
          ok := Delete(listing[i].id);
          if !ok {
            StopsAt(before, sent, listing, if writes == sent + Deletions(doomed) then i else i + 1);
            return;
          }
        }
      }
      assert listing[..|listing|] == listing;
      StopsAt(before, sent, listing, |listing|);
      if mainExists {
        return true;
      }
      ok := Post(MAIN);
    }

    /** The reconciliation.  A listing that is refused leaves everything as it
        was.  A run that stops halfway still has the smallest main rule there
        was, and deleted others at most once each.  A converged run leaves the
        main rule alone, with its smallest ID if there was one. */
    method ConfigureMainBranchPolicy() returns (outcome: Outcome)
      modifies this
      ensures outcome.Refused? ==> policies == old(policies) && writes == old(writes)
      ensures outcome.Converged? ==> exists id :: policies == map[id := MAIN]
      ensures outcome.Converged? ==> forall id :: SmallestMain(old(policies), id) ==>
                policies == map[id := MAIN] && DeletesOnce(old(writes), writes, old(policies).Keys - {id}, [])
      ensures outcome.Converged? && NoMain(old(policies)) ==>
                DeletesOnce(old(writes), writes, old(policies).Keys, [Posted(MAIN)])
      ensures NoMain(old(policies)) ==>
                || DeletesSome(old(writes), writes, old(policies).Keys)
                || DeletesOnce(old(writes), writes, old(policies).Keys, [Posted(MAIN)])
      ensures forall id :: SmallestMain(old(policies), id) ==>
                && id in policies && policies[id] == MAIN && policies.Keys <= old(policies).Keys
                && DeletesSome(old(writes), writes, old(policies).Keys - {id})
    {
      hide Ascending, Kept, Doomed, Set, Deletions, DeletesSome, DeletesOnce, Ids;
      ghost var before, sent := policies, writes;
      NothingDeleted(sent, before);
      var listing := ValidatedPolicies();
      if listing.Rejected? {
        return Refused;
      }
      KeptRule(listing.value, before);
      var ok := Converge(listing.value);
      Outcomes(listing.value, before, policies, sent, writes);
      return if ok then Converged else Stopped;
    }
  }

  datatype Outcome = Refused | Stopped | Converged

  predicate SmallestMain(policies: map<int, Rule>, id: int) {
    && id in policies && policies[id] == MAIN
    && forall other :: other in policies && policies[other] == MAIN ==> id <= other
  }

  predicate NoMain(policies: map<int, Rule>) {
    forall id :: id in policies ==> policies[id] != MAIN
  }

  /** The first `n` doomed policies were deleted and nothing else happened. */
  ghost predicate Partly(before: map<int, Rule>, after: map<int, Rule>, sent: seq<Write>, writes: seq<Write>,
                         listing: seq<Policy>)
  {
    exists n :: 0 <= n <= |Doomed(listing)|
      && after == before - Set(Doomed(listing)[..n]) && writes == sent + Deletions(Doomed(listing)[..n])
  }

  /** All doomed policies were deleted, and a main rule created if none was kept. */
  ghost predicate Fully(before: map<int, Rule>, after: map<int, Rule>, sent: seq<Write>, writes: seq<Write>,
                        listing: seq<Policy>)
  {
    if Kept(listing).Some? then
      after == before - Set(Doomed(listing)) && writes == sent + Deletions(Doomed(listing))
    else
      && writes == sent + Deletions(Doomed(listing)) + [Posted(MAIN)]
      && exists id :: id !in before - Set(Doomed(listing)) && after == (before - Set(Doomed(listing)))[id := MAIN]
  }

  lemma DoomedNothing(listing: seq<Policy>)
    ensures Doomed(listing[..0]) == [] && Kept(listing[..0]) == None
  {
  }

  lemma {:induction false} DoomedPrefix(listing: seq<Policy>, i: nat)
    requires i <= |listing|
    ensures Doomed(listing[..i]) <= Doomed(listing)
    decreases |listing| - i
  {
    if i == |listing| {
      assert listing[..i] == listing;
    } else {
      DoomedPrefix(listing, i + 1);
      assert listing[..i + 1][..i] == listing[..i];
    }
  }

  lemma StopsAt(before: map<int, Rule>, sent: seq<Write>, listing: seq<Policy>, i: nat)
    requires i <= |listing|
    ensures Partly(before, before - Set(Doomed(listing[..i])), sent, sent + Deletions(Doomed(listing[..i])), listing)
  {
    DoomedPrefix(listing, i);
    assert Doomed(listing)[..|Doomed(listing[..i])|] == Doomed(listing[..i]);
  }

  lemma OneMore(doomed: seq<int>, id: int, policies: map<int, Rule>, writes: seq<Write>)
    ensures policies - Set(doomed) - {id} == policies - Set(doomed + [id])
    ensures writes + Deletions(doomed) + [Deleted(id)] == writes + Deletions(doomed + [id])
  {
    assert Set(doomed + [id]) == Set(doomed) + {id};
    assert Deletions(doomed + [id]) == Deletions(doomed) + [Deleted(id)];
  }

  /** The writes were one deletion of each of these, then these. */
  ghost predicate DeletesOnce(before: seq<Write>, after: seq<Write>, ids: set<int>, last: seq<Write>) {
    exists order :: && DistinctInts(order) && (forall id :: id in order <==> id in ids)
                    && after == before + Deletions(order) + last
  }

  /** The writes were deletions of some of these, each at most once. */
  ghost predicate DeletesSome(before: seq<Write>, after: seq<Write>, ids: set<int>) {
    exists order :: && DistinctInts(order) && (forall id :: id in order ==> id in ids)
                    && after == before + Deletions(order)
  }

  /** As many different policies as there are is all of them. */
  lemma CompleteListing(listing: seq<Policy>, policies: map<int, Rule>)
    requires DistinctIds(listing) && |listing| == |policies|
    requires forall p :: p in listing ==> p.id in policies && policies[p.id] == p.rule
    ensures Ids(listing) == policies.Keys
  {
    IdsCount(listing);
    assert Ids(listing) <= policies.Keys;
    FullSubset(Ids(listing), policies.Keys);
  }

  lemma {:induction false} FullSubset<T>(a: set<T>, b: set<T>)
    requires a <= b && |a| == |b|
    ensures a == b
  {
    if a != {} {
      var x :| x in a;
      FullSubset(a - {x}, b - {x});
      assert a == a - {x} + {x} && b == b - {x} + {x};
    }
  }

  lemma {:induction false} IdsCount(listing: seq<Policy>)
    requires DistinctIds(listing)
    ensures |Ids(listing)| == |listing|
  {
    if listing != [] {
      var n := |listing| - 1;
      IdsCount(listing[..n]);
      assert Ids(listing) == Ids(listing[..n]) + {listing[n].id} by {
        assert forall p :: p in listing <==> p in listing[..n] || p == listing[n];
      }
      forall p | p in listing[..n] ensures p.id != listing[n].id {
        var i :| 0 <= i < |listing[..n]| && listing[..n][i] == p;
      }
    }
  }

  /** The kept rule is the smallest main rule on the server. */
  lemma KeptRule(listing: seq<Policy>, policies: map<int, Rule>)
    requires Ascending(listing) && Ids(listing) == policies.Keys
    requires forall p :: p in listing ==> p.id in policies && policies[p.id] == p.rule
    ensures forall id :: SmallestMain(policies, id) <==> Kept(listing) == Some(id)
    ensures Kept(listing).Some? ==> Kept(listing).value in policies && policies[Kept(listing).value] == MAIN
    ensures NoMain(policies) <==> Kept(listing).None?
    ensures forall id :: id in Doomed(listing) <==> id in policies && Kept(listing) != Some(id)
    ensures DistinctInts(Doomed(listing))
  {
    KeptIsSmallest(listing);
    DoomedAreTheOthers(listing);
    MainsAreListed(listing, policies);
    hide Ascending, Kept, Doomed, DistinctInts, Ids;
    forall p | p in listing ensures p.rule == MAIN <==> p == Policy(p.id, MAIN) {
    }
    if Kept(listing).Some? {
      var kept := Kept(listing).value;
      assert Policy(kept, MAIN) in listing;
      assert SmallestMain(policies, kept);
    }
  }

  lemma MainsAreListed(listing: seq<Policy>, policies: map<int, Rule>)
    requires Ids(listing) == policies.Keys
    requires forall p :: p in listing ==> p.id in policies && policies[p.id] == p.rule
    ensures forall id :: id in policies && policies[id] == MAIN <==> Policy(id, MAIN) in listing
  {
    forall id | id in policies ensures Policy(id, policies[id]) in listing {
      assert id in Ids(listing);
      var p :| p in listing && p.id == id;
      assert p == Policy(id, policies[id]);
    }
  }

  lemma NothingDeleted(writes: seq<Write>, policies: map<int, Rule>)
    ensures forall ids :: DeletesSome(writes, writes, ids)
  {
    forall ids: set<int> ensures DeletesSome(writes, writes, ids) {
      assert DistinctInts([]) && writes == writes + Deletions([]);
    }
  }

  lemma {:induction false} DistinctPrefix(ids: seq<int>, n: nat)
    requires DistinctInts(ids) && n <= |ids|
    ensures DistinctInts(ids[..n]) && forall id :: id in ids[..n] ==> id in ids
  {
  }

  /** What a run did, however it ended. */
  lemma Outcomes(listing: seq<Policy>, before: map<int, Rule>, after: map<int, Rule>, sent: seq<Write>,
                 writes: seq<Write>)
    requires Partly(before, after, sent, writes, listing) || Fully(before, after, sent, writes, listing)
    requires Kept(listing).Some? ==> Kept(listing).value in before && before[Kept(listing).value] == MAIN
    requires forall id :: id in Doomed(listing) <==> id in before && Kept(listing) != Some(id)
    requires DistinctInts(Doomed(listing))
    ensures Kept(listing).Some? ==>
              && Kept(listing).value in after && after[Kept(listing).value] == MAIN && after.Keys <= before.Keys
              && DeletesSome(sent, writes, before.Keys - {Kept(listing).value})
    ensures Fully(before, after, sent, writes, listing) ==> exists id :: after == map[id := MAIN]
    ensures Fully(before, after, sent, writes, listing) && Kept(listing).Some? ==>
              && after == map[Kept(listing).value := MAIN]
              && DeletesOnce(sent, writes, before.Keys - {Kept(listing).value}, [])
    ensures Fully(before, after, sent, writes, listing) && Kept(listing).None? ==>
              DeletesOnce(sent, writes, before.Keys, [Posted(MAIN)])
    ensures Kept(listing).None? ==>
              DeletesSome(sent, writes, before.Keys) || DeletesOnce(sent, writes, before.Keys, [Posted(MAIN)])
  {
    hide DistinctInts, Kept, Doomed, Partly, Fully, DeletesSome, DeletesOnce;
    if Partly(before, after, sent, writes, listing) && Kept(listing).None? {
      PartialDeletions(listing, before, after, sent, writes);
    }
    if Partly(before, after, sent, writes, listing) && Kept(listing).Some? {
      PartialOutcome(listing, before, after, sent, writes);
    }
    if Fully(before, after, sent, writes, listing) {
      if Kept(listing).Some? {
        KeptOnly(listing, before, after, sent, writes);
        OneRule(after, Kept(listing).value);
      } else {
        NoneKept(listing, before, after, sent, writes);
      }
    }
  }

  lemma OneRule(policies: map<int, Rule>, id: int)
    requires policies == map[id := MAIN]
    ensures exists other :: policies == map[other := MAIN]
  {
  }

  lemma PartialDeletions(listing: seq<Policy>, before: map<int, Rule>, after: map<int, Rule>,
                         sent: seq<Write>, writes: seq<Write>)
    requires Partly(before, after, sent, writes, listing)
    requires forall id :: id in Doomed(listing) ==> id in before
    requires DistinctInts(Doomed(listing))
    ensures DeletesSome(sent, writes, before.Keys)
  {
    hide Doomed;
    var n :| 0 <= n <= |Doomed(listing)|
             && after == before - Set(Doomed(listing)[..n]) && writes == sent + Deletions(Doomed(listing)[..n]);
    DistinctPrefix(Doomed(listing), n);
    var order := Doomed(listing)[..n];
    hide DistinctInts;
    assert forall id :: id in order ==> id in before.Keys;
  }

  lemma PartialOutcome(listing: seq<Policy>, before: map<int, Rule>, after: map<int, Rule>, sent: seq<Write>,
                       writes: seq<Write>)
    requires Partly(before, after, sent, writes, listing) && Kept(listing).Some?
    requires Kept(listing).value in before && before[Kept(listing).value] == MAIN
    requires forall id :: id in Doomed(listing) <==> id in before && Kept(listing) != Some(id)
    requires DistinctInts(Doomed(listing))
    ensures Kept(listing).value in after && after[Kept(listing).value] == MAIN && after.Keys <= before.Keys
    ensures DeletesSome(sent, writes, before.Keys - {Kept(listing).value})
  {
    hide Kept, Doomed;
    var n :| 0 <= n <= |Doomed(listing)|
             && after == before - Set(Doomed(listing)[..n]) && writes == sent + Deletions(Doomed(listing)[..n]);
    DistinctPrefix(Doomed(listing), n);
    var order := Doomed(listing)[..n];
    assert Kept(listing).value !in Set(order);
    hide DistinctInts;
    assert forall id :: id in order ==> id in before.Keys - {Kept(listing).value};
  }

  lemma KeptOnly(listing: seq<Policy>, before: map<int, Rule>, after: map<int, Rule>, sent: seq<Write>,
                 writes: seq<Write>)
    requires Fully(before, after, sent, writes, listing) && Kept(listing).Some?
    requires Kept(listing).value in before && before[Kept(listing).value] == MAIN
    requires forall id :: id in Doomed(listing) <==> id in before && Kept(listing) != Some(id)
    requires DistinctInts(Doomed(listing))
    ensures after == map[Kept(listing).value := MAIN]
    ensures DeletesOnce(sent, writes, before.Keys - {Kept(listing).value}, [])
    ensures DeletesSome(sent, writes, before.Keys - {Kept(listing).value})
  {
    hide DistinctInts, Kept, Doomed;
    forall id ensures id in after <==> id == Kept(listing).value {
      assert id in Set(Doomed(listing)) <==> id in Doomed(listing);
    }
    assert writes == sent + Deletions(Doomed(listing)) + [];
  }

  lemma NoneKept(listing: seq<Policy>, before: map<int, Rule>, after: map<int, Rule>, sent: seq<Write>,
                 writes: seq<Write>)
    requires Fully(before, after, sent, writes, listing) && Kept(listing).None?
    requires forall id :: id in Doomed(listing) <==> id in before && Kept(listing) != Some(id)
    requires DistinctInts(Doomed(listing))
    ensures exists id :: after == map[id := MAIN]
    ensures DeletesOnce(sent, writes, before.Keys, [Posted(MAIN)])
  {
    hide DistinctInts, Kept, Doomed;
    forall id ensures id !in before - Set(Doomed(listing)) {
      assert id in Set(Doomed(listing)) <==> id in Doomed(listing);
    }
    assert before - Set(Doomed(listing)) == map[];
    var id :| after == (before - Set(Doomed(listing)))[id := MAIN];
    assert after == map[id := MAIN];
  }

  /** Over a converged server a run writes nothing, whether or not it succeeds:
      there is no other policy to delete. */
  lemma ConvergedStays(before: seq<Write>, after: seq<Write>, policies: map<int, Rule>, id: int)
    requires policies == map[id := MAIN]
    ensures SmallestMain(policies, id)
    ensures DeletesSome(before, after, policies.Keys - {id}) ==> after == before
  {
    if DeletesSome(before, after, policies.Keys - {id}) {
      var order :| DistinctInts(order) && (forall i :: i in order ==> i in policies.Keys - {id})
        && after == before + Deletions(order);
      forall i ensures i !in order {
        assert i in policies.Keys <==> i == id;
      }
      SomeMember(order);
    }
  }

  lemma SomeMember<T>(xs: seq<T>)
    ensures xs == [] || exists x :: x in xs
  {
    if xs != [] {
      assert xs[0] in xs;
    }
  }
}
