/** Marker pagination of IAM metadata (scripts/operator_enrollment_runtime.py). */
module Enrollment {
  import opened Wrappers

  const MAX_PAGES := 20
  const MAX_ITEMS := 1000
  const MAX_MARKER := 1024

  /** A page of a listing; `marker` is where the next one starts. */
  datatype Page<T> = Page(entries: seq<T>, truncated: bool, marker: Option<string>)

  /** A server: the page at a marker, or a failed read. */
  type Server<T> = Option<string> -> Option<Page<T>>

  /** The pages along a trail of markers, concatenated. */
  function Collected<T>(server: Server<T>, trail: seq<Option<string>>): seq<T> {
    if trail == [] then []
    else
      var n := |trail| - 1;
      var page := server(trail[n]);
      Collected(server, trail[..n]) + if page.Some? then page.value.entries else []
  }

  predicate MarkerAccepted(marker: Option<string>) {
    marker.Some? && 0 < |marker.value| <= MAX_MARKER
  }

  ghost predicate Distinct(trail: seq<Option<string>>) {
    forall i, j :: 0 <= i < j < |trail| ==> trail[i] != trail[j]
  }

  /** The marker at `i` is the one its predecessor's page gave. */
  predicate Linked<T>(server: Server<T>, trail: seq<Option<string>>, i: nat)
    requires 0 < i < |trail|
  {
    var before := server(trail[i - 1]);
    before.Some? && before.value.truncated && before.value.marker == trail[i] && MarkerAccepted(trail[i])
  }

  /** From the first page, each marker followed is the one the page before gave,
      and none is followed twice. */
  ghost predicate Trail<T>(server: Server<T>, trail: seq<Option<string>>) {
    && 0 < |trail| <= MAX_PAGES
    && trail[0] == None
    && Distinct(trail)
    && (forall i :: 0 <= i < |trail| ==> server(trail[i]).Some?)
    && (forall i :: 0 < i < |trail| ==> Linked(server, trail, i))
    && |Collected(server, trail)| <= MAX_ITEMS
  }

  /** A trail to a page that is the last. */
  ghost predicate Exhausts<T>(server: Server<T>, trail: seq<Option<string>>) {
    Trail(server, trail) && !server(trail[|trail| - 1]).value.truncated
  }

  lemma CollectedSnoc<T>(server: Server<T>, trail: seq<Option<string>>, marker: Option<string>)
    requires server(marker).Some?
    ensures Collected(server, trail + [marker]) == Collected(server, trail) + server(marker).value.entries
  {
    assert (trail + [marker])[..|trail|] == trail;
  }

  lemma {:induction false} CollectedGrows<T>(server: Server<T>, trail: seq<Option<string>>, n: nat)
    requires n <= |trail|
    ensures |Collected(server, trail[..n])| <= |Collected(server, trail)|
    decreases |trail|
  {
    if n == |trail| {
      assert trail[..n] == trail;
    } else {
      assert trail[..|trail| - 1][..n] == trail[..n];
      CollectedGrows(server, trail[..|trail| - 1], n);
    }
  }

  /** Trails from the same server agree as far as both go. */
  lemma {:induction false} TrailsAgree<T>(server: Server<T>, a: seq<Option<string>>, b: seq<Option<string>>, i: nat)
    requires Trail(server, a) && Trail(server, b) && i < |a| && i < |b|
    ensures a[i] == b[i]
  {
    hide Collected, Distinct;
    if i > 0 {
      TrailsAgree(server, a, b, i - 1);
      assert Linked(server, a, i) && Linked(server, b, i);
    }
  }

  /** A trail not at its end continues, in any trail that exhausts the server,
      by the marker its last page gave, which is new. */
  lemma TrailGoesOn<T>(server: Server<T>, walked: seq<Option<string>>, whole: seq<Option<string>>)
    requires Trail(server, walked) && Exhausts(server, whole)
    requires server(walked[|walked| - 1]).value.truncated
    ensures 0 < |walked| < |whole| && walked == whole[..|walked|]
    ensures Linked(server, whole, |walked|) && whole[|walked|] !in walked && server(whole[|walked|]).Some?
  {
    hide Collected;
    var n, m := |walked|, |whole|;
    if m < n {
      TrailsAgree(server, walked, whole, m - 1);
      assert Linked(server, walked, m);
    }
    TrailsAgree(server, walked, whole, if m < n then m - 1 else n - 1);
    assert n < m;
    forall i | 0 <= i < n ensures walked[i] == whole[i] {
      TrailsAgree(server, walked, whole, i);
    }
    assert Linked(server, whole, n);
  }

  /** One page more. */
  lemma TrailSnoc<T>(server: Server<T>, walked: seq<Option<string>>, marker: Option<string>)
    requires Trail(server, walked) && |walked| < MAX_PAGES && server(walked[|walked| - 1]).value.truncated
    requires server(walked[|walked| - 1]).value.marker == marker && MarkerAccepted(marker) && marker !in walked
    requires server(marker).Some?
    requires |Collected(server, walked)| + |server(marker).value.entries| <= MAX_ITEMS
    ensures Trail(server, walked + [marker])
  {
    var all := walked + [marker];
    CollectedSnoc(server, walked, marker);
    hide Collected;
    forall i | 0 < i < |all| ensures Linked(server, all, i) {
      if i < |walked| {
        assert Linked(server, walked, i);
      }
    }
  }

  /** Between pages: what was walked is a trail, and `next` leads on from it. */
  ghost predicate Expected<T>(server: Server<T>, walked: seq<Option<string>>, next: Option<string>) {
    if walked == [] then next == None
    else
      && Trail(server, walked)
      && server(walked[|walked| - 1]).value.truncated
      && server(walked[|walked| - 1]).value.marker == next
      && MarkerAccepted(next) && next !in walked
  }

  lemma Continues<T>(server: Server<T>, walked: seq<Option<string>>, next: Option<string>, whole: seq<Option<string>>)
    requires Expected(server, walked, next) && Exhausts(server, whole)
    ensures |walked| < |whole| && whole[|walked|] == next && server(next).Some?
    ensures |Collected(server, walked)| + |server(next).value.entries| <= MAX_ITEMS
  {
    var n := |walked|;
    if walked != [] {
      TrailGoesOn(server, walked, whole);
    }
    assert whole[..n + 1] == walked + [next];
    CollectedSnoc(server, walked, next);
    CollectedGrows(server, whole, n + 1);
  }

  lemma Extends<T>(server: Server<T>, walked: seq<Option<string>>, next: Option<string>)
    requires Expected(server, walked, next) && |walked| < MAX_PAGES
    requires server(next).Some? && |Collected(server, walked)| + |server(next).value.entries| <= MAX_ITEMS
    ensures Trail(server, walked + [next])
  {
    hide Collected;
    CollectedSnoc(server, walked, next);
    if walked == [] {
      assert walked + [next] == [next];
    } else {
      TrailSnoc(server, walked, next);
    }
  }

  /** The loop: follow markers, collecting pages, until one is the last.  It
      accepts exactly when some trail exhausts the server, and then returns all
      of that trail's pages. */
  method ListAll<T>(server: Server<T>) returns (r: Result<seq<T>>, ghost walked: seq<Option<string>>)
    ensures r.Ok? <==> exists trail :: Exhausts(server, trail)
    ensures r.Ok? ==> Exhausts(server, walked) && r.value == Collected(server, walked)
  {
    hide Trail, Collected;
    var items: seq<T> := [];
    var markers: set<string> := {};
    var next: Option<string> := None;
    walked := [];
    assert items == Collected(server, walked) by {
      NothingCollected(server);
    }
    for page := 0 to MAX_PAGES
      invariant |walked| == page && items == Collected(server, walked)
      invariant forall marker :: marker in markers <==> Some(marker) in walked + [next]
      invariant Expected(server, walked, next)
    {
      forall trail | Exhausts(server, trail)
        ensures server(next).Some? && |items| + |server(next).value.entries| <= MAX_ITEMS
      {
        Continues(server, walked, next, trail);
      }
      var answer := server(next);
      if answer.None? {
        return Rejected, walked;
      }
      CollectedSnoc(server, walked, next);
      items := items + answer.value.entries;
      if |items| > MAX_ITEMS {
        return Rejected, walked;
      }
      Extends(server, walked, next);
      walked := walked + [next];
      if !answer.value.truncated {
        assert Exhausts(server, walked);
        return Ok(items), walked;
      }
      var marker := answer.value.marker;
      forall trail | Exhausts(server, trail) ensures MarkerAccepted(marker) && marker !in walked {
        TrailGoesOn(server, walked, trail);
      }
      if !MarkerAccepted(marker) || marker.value in markers {
        return Rejected, walked;
      }
      markers := markers + {marker.value};
      next := marker;
    }
    forall trail | Exhausts(server, trail) ensures |trail| > MAX_PAGES {
      Continues(server, walked, next, trail);
    }
    TrailsAreShort(server);
    return Rejected, walked;
  }

  lemma NothingCollected<T>(server: Server<T>)
    ensures Collected(server, []) == []
  {
  }

  lemma TrailsAreShort<T>(server: Server<T>)
    ensures forall trail :: Exhausts(server, trail) ==> |trail| <= MAX_PAGES
  {
    hide Collected, Distinct;
  }
}
