/** Publishing a promotion over an unreliable API
    (scripts/deployment_promotion_emitter.py): reads may fail and are retried; a
    write may fail, take effect with its response lost, or succeed, and is never
    sent twice. */
module Emitter {
  import opened Wrappers

  /** A status body; a deployment's own statuses have no context. */
  datatype Body = Body(context: Option<string>, state: string, link: string, description: string)

  datatype Request = Request(
    ref: string,
    environment: string,
    production: bool,
    description: string,
    payload: string,
    success: Body)

  datatype Deployment = Deployment(
    id: int,
    ours: bool,
    sha: string,
    ref: string,
    environment: string,
    production: bool,
    description: string,
    payload: string,
    repositoryUrl: string)

  /** Where a status is written. */
  datatype Place = OfDeployment(id: int) | OfCommit(sha: string)

  /** A status's API address; a deployment status is addressed by its own ID. */
  datatype Address = Address(place: Place, id: Option<int>)

  datatype Status = Status(id: int, ours: bool, body: Body, url: Address)

  datatype Event =
    | PostedDeployment(request: Request)
    | PostedStatus(place: Place, body: Body)
    | SawDeployment(deployment: Deployment)
    | SawLatest(at: Place, latest: Option<Status>)

  const REPOSITORY_URL := "https://api.github.com/repos/VilnaCRM-Org/bootstrap-infrastructure"
  const READ_ATTEMPTS := 3
  const PAGE_SIZE := 100
  const MAX_PAGES := 5

  /* ---------- what a record must be ---------- */

  /** The listing a request is looked for in, and its rows with the same evidence. */
  predicate Matches(row: Deployment, request: Request) {
    row.sha == request.ref && row.environment == request.environment && row.payload == request.payload
  }

  function Matching(rows: seq<Deployment>, request: Request): (r: seq<Deployment>)
    ensures forall row :: row in r ==> row in rows && Matches(row, request)
  {
    if rows == [] then []
    else
      var n := |rows| - 1;
      Matching(rows[..n], request) + if Matches(rows[n], request) then [rows[n]] else []
  }

  predicate DeploymentAccepted(row: Deployment, request: Request) {
    && row.id > 0 && row.ours
    && row.sha == request.ref && row.ref == request.ref
    && row.environment == request.environment
    && row.production == request.production
    && row.description == request.description
    && row.payload == request.payload
    && row.repositoryUrl == REPOSITORY_URL
  }

  predicate StatusAccepted(row: Status, body: Body, place: Place) {
    && row.id > 0 && row.ours
    && row.body == body
    && row.url == Address(place, if place.OfDeployment? then Some(row.id) else None)
  }

  function ById(rows: seq<Deployment>, id: int): Option<Deployment> {
    if rows == [] then None
    else if rows[0].id == id then Some(rows[0])
    else ById(rows[1..], id)
  }

  predicate InContext(row: Status, context: Option<string>) {
    context.Some? ==> row.body.context == context
  }

  function Filtered(rows: seq<Status>, context: Option<string>): seq<Status> {
    if rows == [] then []
    else (if InContext(rows[0], context) then [rows[0]] else []) + Filtered(rows[1..], context)
  }

  function Newest(rows: seq<Status>): (r: Status)
    requires rows != []
    ensures r in rows && forall row :: row in rows ==> row.id <= r.id
  {
    var n := |rows| - 1;
    if n == 0 then rows[0]
    else
      var before := Newest(rows[..n]);
      if rows[n].id > before.id then rows[n] else before
  }

  /** The status with the greatest ID; an invalid ID is refused. */
  function Latest(rows: seq<Status>, context: Option<string>): Result<Option<Status>> {
    var found := Filtered(rows, context);
    if found == [] then Ok(None)
    else
      var _ :- Require(forall row :: row in found ==> row.id > 0);
      Ok(Some(Newest(found)))
  }

  /* ---------- reads ---------- */

  /** A read of a value the server holds: retried, then given up. */
  method Read<T>(value: T) returns (r: Option<T>)
    ensures r.Some? ==> r.value == value
  {
    for attempt := 0 to READ_ATTEMPTS {
      var answered: bool := *;
      if answered {
        return Some(value);
      }
    }
    return None;
  }

  function Page<T>(rows: seq<T>, page: nat): seq<T>
    requires page > 0
  {
    var low := PAGE_SIZE * (page - 1);
    var high := PAGE_SIZE * page;
    if |rows| <= low then [] else if |rows| < high then rows[low..] else rows[low..high]
  }

  /** Every page of a listing; a listing that fills them all is refused. */
  method Pages<T>(rows: seq<T>) returns (r: Option<seq<T>>)
    ensures r.Some? ==> r.value == rows && |rows| < PAGE_SIZE * MAX_PAGES
  {
    var values: seq<T> := [];
    for page := 1 to MAX_PAGES + 1
      invariant |rows| >= PAGE_SIZE * (page - 1) && values == rows[..PAGE_SIZE * (page - 1)]
    {
      var answer := Read(Page(rows, page));
      if answer.None? {
        return None;
      }
      values := values + answer.value;
      if |answer.value| < PAGE_SIZE {
        return Some(values);
      }
    }
    return None;
  }

  /* ---------- what a stretch of the log sent ---------- */

  /** No write was sent. */
  ghost predicate NoPosts(before: seq<Event>, after: seq<Event>) {
    && before <= after
    && forall k :: |before| <= k < |after| ==> !after[k].PostedDeployment? && !after[k].PostedStatus?
  }

  /** Exactly the writes allowed: at most one deployment in this account, if
      `may`, and no status. */
  ghost predicate DeploymentSent(before: seq<Event>, after: seq<Event>, request: Request, may: bool) {
    && before <= after
    && (forall k :: |before| <= k < |after| ==> !after[k].PostedStatus?)
    && (forall k :: |before| <= k < |after| && after[k].PostedDeployment? ==> may && after[k].request == request)
    && (forall j, k :: |before| <= j < k < |after| ==> !(after[j].PostedDeployment? && after[k].PostedDeployment?))
  }

  ghost predicate StatusSent(before: seq<Event>, after: seq<Event>, place: Place, body: Body, may: bool) {
    && before <= after
    && (forall k :: |before| <= k < |after| ==> !after[k].PostedDeployment?)
    && (forall k :: |before| <= k < |after| && after[k].PostedStatus? ==> may && after[k] == PostedStatus(place, body))
    && (forall j, k :: |before| <= j < k < |after| ==> !(after[j].PostedStatus? && after[k].PostedStatus?))
  }

  lemma SawNothing(log: seq<Event>, request: Request, may: bool, place: Place, body: Body, mayStatus: bool)
    ensures NoPosts(log, log) && DeploymentSent(log, log, request, may) && StatusSent(log, log, place, body, mayStatus)
  {
  }

  lemma SawOne(before: seq<Event>, after: seq<Event>, event: Event, request: Request, may: bool)
    requires DeploymentSent(before, after, request, may) && !event.PostedDeployment? && !event.PostedStatus?
    ensures DeploymentSent(before, after + [event], request, may)
  {
  }

  lemma SawOneStatus(before: seq<Event>, after: seq<Event>, event: Event, place: Place, body: Body, may: bool)
    requires StatusSent(before, after, place, body, may) && !event.PostedDeployment? && !event.PostedStatus?
    ensures StatusSent(before, after + [event], place, body, may)
  {
  }

  lemma PostedOne(log: seq<Event>, request: Request)
    ensures DeploymentSent(log, log + [PostedDeployment(request)], request, true)
  {
  }

  lemma PostedOneStatus(log: seq<Event>, seen: Event, place: Place, body: Body)
    requires !seen.PostedDeployment? && !seen.PostedStatus?
    ensures StatusSent(log, log + [seen] + [PostedStatus(place, body)], place, body, true)
  {
  }

  lemma MatchingSnoc(rows: seq<Deployment>, row: Deployment, request: Request)
    ensures Matching(rows + [row], request) == Matching(rows, request) + if Matches(row, request) then [row] else []
  {
    assert (rows + [row])[..|rows|] == rows;
  }

  lemma {:induction false} ByIdStays(rows: seq<Deployment>, row: Deployment, id: int)
    requires ById(rows, id).Some?
    ensures ById(rows + [row], id) == ById(rows, id)
  {
    if rows[0].id != id {
      assert (rows + [row])[1..] == rows[1..] + [row];
      ByIdStays(rows[1..], row, id);
    }
  }

  /** The request's one row is stored as asked, and reads back under its ID. */
  predicate Stored(rows: seq<Deployment>, request: Request, id: int) {
    && |Matching(rows, request)| == 1
    && DeploymentAccepted(Matching(rows, request)[0], request)
    && Matching(rows, request)[0].id == id
    && ById(rows, id).Some?
    && DeploymentAccepted(ById(rows, id).value, request)
    && ById(rows, id).value.id == id
  }

  predicate LatestStored(rows: seq<Status>, place: Place, body: Body, context: Option<string>) {
    && Latest(rows, context).Ok?
    && Latest(rows, context).value.Some?
    && StatusAccepted(Latest(rows, context).value.value, body, place)
  }

  lemma StoredApart(rows: seq<Deployment>, a: Request, b: Request, id: int)
    requires Stored(rows, a, id) && Stored(rows, b, id)
    ensures a.environment == b.environment
  {
    hide Matching;
  }

  lemma StoredStays(rows: seq<Deployment>, row: Deployment, request: Request, other: Request, id: int)
    requires Stored(rows, request, id) && Matches(row, other) && request.environment != other.environment
    ensures Stored(rows + [row], request, id)
  {
    MatchingSnoc(rows, row, request);
    ByIdStays(rows, row, id);
    hide Matching, ById, DeploymentAccepted;
  }

  /** Whether rows are as before, or one row for the request was added. */
  ghost predicate Grown(before: seq<Deployment>, after: seq<Deployment>, request: Request) {
    || after == before
    || (Matching(before, request) == [] && exists row :: Matches(row, request) && after == before + [row])
  }

  lemma GrownKeeps(before: seq<Deployment>, after: seq<Deployment>, request: Request, other: Request)
    requires Grown(before, after, request)
    ensures |Matching(before, request)| <= 1 ==> |Matching(after, request)| <= 1
    ensures request.environment != other.environment ==> Matching(after, other) == Matching(before, other)
    ensures forall id :: request.environment != other.environment && Stored(before, other, id) ==>
              Stored(after, other, id)
  {
    hide Matching, Stored;
    if after != before {
      var row :| Matches(row, request) && after == before + [row];
      MatchingSnoc(before, row, request);
      MatchingSnoc(before, row, other);
      forall id | request.environment != other.environment && Stored(before, other, id)
        ensures Stored(after, other, id)
      {
        StoredStays(before, row, other, request, id);
      }
    }
  }

  type Statuses = map<Place, seq<Status>>

  function At(statuses: Statuses, place: Place): seq<Status> {
    if place in statuses then statuses[place] else []
  }

  /** Statuses are as they were, except perhaps those of the request's own
      deployment. */
  ghost predicate OthersKept(before: Statuses, after: Statuses, rows: seq<Deployment>, request: Request) {
    forall place: Place :: place.OfCommit? || !Stored(rows, request, place.id) ==> At(after, place) == At(before, place)
  }

  ghost predicate AllKept(before: Statuses, after: Statuses) {
    forall place :: At(after, place) == At(before, place)
  }

  /** An account is published: its deployment is stored and its latest status is
      the success asked for. */
  predicate PublishedAs(rows: seq<Deployment>, statuses: Statuses, request: Request, id: int) {
    && Stored(rows, request, id)
    && LatestStored(At(statuses, OfDeployment(id)), OfDeployment(id), request.success, None)
  }

  ghost predicate PublishedAccount(rows: seq<Deployment>, statuses: Statuses, request: Request) {
    exists id :: PublishedAs(rows, statuses, request, id)
  }

  ghost predicate AllPublished(rows: seq<Deployment>, statuses: Statuses, requests: seq<Request>) {
    forall request :: request in requests ==> PublishedAccount(rows, statuses, request)
  }

  lemma StillPublished(rows: seq<Deployment>, before: Statuses, after: Statuses, request: Request)
    requires PublishedAccount(rows, before, request) && AllKept(before, after)
    ensures PublishedAccount(rows, after, request)
  {
    hide Stored, LatestStored, At;
    var id :| PublishedAs(rows, before, request, id);
    assert PublishedAs(rows, after, request, id);
  }

  lemma OthersStayPublished(rows: seq<Deployment>, grown: seq<Deployment>, before: Statuses, after: Statuses,
                            request: Request, other: Request, id: int)
    requires PublishedAs(rows, before, other, id) && Grown(rows, grown, request)
    requires request.environment != other.environment && OthersKept(before, after, grown, request)
    ensures PublishedAs(grown, after, other, id)
  {
    hide Stored, LatestStored, At, Grown;
    GrownKeeps(rows, grown, request, other);
    if Stored(grown, request, id) {
      StoredApart(grown, request, other, id);
    }
  }

  /* ---------- what publishing several accounts sends ---------- */

  ghost predicate SeparateAccounts(requests: seq<Request>) {
    forall i, j :: 0 <= i < j < |requests| ==> requests[i].environment != requests[j].environment
  }

  ghost predicate StoredForOne(rows: seq<Deployment>, requests: seq<Request>, id: int) {
    exists m :: 0 <= m < |requests| && Stored(rows, requests[m], id)
  }

  /** At most one write per deployment request and per status. */
  ghost predicate AtMostOnce(before: seq<Event>, after: seq<Event>) {
    && before <= after
    && (forall j, k :: |before| <= j < k < |after| && after[j].PostedDeployment? && after[k].PostedDeployment? ==>
          after[j].request.environment != after[k].request.environment)
    && (forall j, k :: |before| <= j < k < |after| && after[j].PostedStatus? && after[k].PostedStatus? ==>
          after[j].place != after[k].place)
  }

  /** Every write is for one of the requests. */
  ghost predicate SentFor(before: seq<Event>, after: seq<Event>, rows: seq<Deployment>, requests: seq<Request>) {
    && before <= after
    && (forall k :: |before| <= k < |after| && after[k].PostedDeployment? ==> after[k].request in requests)
    && (forall k :: |before| <= k < |after| && after[k].PostedStatus? ==>
          after[k].place.OfDeployment? && StoredForOne(rows, requests, after[k].place.id))
  }

  /** One account's writes. */
  ghost predicate OneSent(before: seq<Event>, after: seq<Event>, rows: seq<Deployment>, request: Request) {
    && before <= after
    && (forall k :: |before| <= k < |after| && after[k].PostedDeployment? ==> after[k].request == request)
    && (forall k :: |before| <= k < |after| && after[k].PostedStatus? ==>
          after[k].place.OfDeployment? && Stored(rows, request, after[k].place.id))
    && (forall j, k :: |before| <= j < k < |after| ==> !(after[j].PostedDeployment? && after[k].PostedDeployment?))
    && (forall j, k :: |before| <= j < k < |after| ==> !(after[j].PostedStatus? && after[k].PostedStatus?))
  }

  lemma SentOne(before: seq<Event>, middle: seq<Event>, after: seq<Event>, rows: seq<Deployment>,
                request: Request, id: int, body: Body, a: bool, b: bool)
    requires DeploymentSent(before, middle, request, a) && StatusSent(middle, after, OfDeployment(id), body, b)
    requires Stored(rows, request, id)
    ensures OneSent(before, after, rows, request)
  {
    hide Stored;
  }

  lemma SentDeploymentOnly(before: seq<Event>, after: seq<Event>, rows: seq<Deployment>, request: Request, a: bool)
    requires DeploymentSent(before, after, request, a)
    ensures OneSent(before, after, rows, request)
  {
    hide Stored;
  }

  lemma StoredForOneMore(before: seq<Deployment>, after: seq<Deployment>, requests: seq<Request>, request: Request,
                         id: int)
    requires Grown(before, after, request) && StoredForOne(before, requests, id)
    requires forall m :: 0 <= m < |requests| ==> requests[m].environment != request.environment
    ensures StoredForOne(after, requests + [request], id)
    ensures !Stored(after, request, id)
  {
    hide Stored, Grown;
    var m :| 0 <= m < |requests| && Stored(before, requests[m], id);
    GrownKeeps(before, after, request, requests[m]);
    assert (requests + [request])[m] == requests[m];
    if Stored(after, request, id) {
      StoredApart(after, request, requests[m], id);
    }
  }

  lemma SentForMore(before: seq<Event>, middle: seq<Event>, after: seq<Event>, rows: seq<Deployment>,
                    grown: seq<Deployment>, requests: seq<Request>, request: Request)
    requires SentFor(before, middle, rows, requests) && AtMostOnce(before, middle)
    requires OneSent(middle, after, grown, request) && Grown(rows, grown, request)
    requires forall m :: 0 <= m < |requests| ==> requests[m].environment != request.environment
    ensures SentFor(before, after, grown, requests + [request]) && AtMostOnce(before, after)
  {
    hide Stored, Grown, StoredForOne;
    var all := requests + [request];
    assert all[|requests|] == request;
    forall k | |before| <= k < |after| && after[k].PostedDeployment? ensures after[k].request in all {
      if k < |middle| {
        assert after[k] == middle[k];
      }
    }
    forall k | |before| <= k < |middle| && after[k].PostedStatus?
      ensures after[k].place.OfDeployment? && StoredForOne(grown, all, after[k].place.id)
                && !Stored(grown, request, after[k].place.id)
    {
      assert after[k] == middle[k];
      StoredForOneMore(rows, grown, requests, request, after[k].place.id);
    }
    forall k | |middle| <= k < |after| && after[k].PostedStatus?
      ensures after[k].place.OfDeployment? && StoredForOne(grown, all, after[k].place.id)
    {
      StoredForLast(grown, requests, request, after[k].place.id);
    }
    assert forall j, k :: |before| <= j < k < |middle| ==> after[j] == middle[j] && after[k] == middle[k];
    forall k | |before| <= k < |middle| && after[k].PostedDeployment?
      ensures after[k].request.environment != request.environment
    {
      assert after[k] == middle[k];
    }
  }

  lemma StoredForLast(rows: seq<Deployment>, requests: seq<Request>, request: Request, id: int)
    requires Stored(rows, request, id)
    ensures StoredForOne(rows, requests + [request], id)
  {
    assert (requests + [request])[|requests|] == request;
  }

  /** A stretch of the log in which the deployment and then its latest status
      were read back as asked. */
  ghost predicate ReadBack(log: seq<Event>, start: nat, request: Request, id: int) {
    exists a, b ::
      && start <= a < b < |log|
      && log[a].SawDeployment? && log[a].deployment.id == id && DeploymentAccepted(log[a].deployment, request)
      && log[b].SawLatest? && log[b].at == OfDeployment(id) && log[b].latest.Some?
      && StatusAccepted(log[b].latest.value, request.success, OfDeployment(id))
  }

  lemma ReadBackStays(log: seq<Event>, longer: seq<Event>, start: nat, request: Request, id: int)
    requires ReadBack(log, start, request, id) && log <= longer
    ensures ReadBack(longer, start, request, id)
  {
    hide DeploymentAccepted, StatusAccepted;
    var a, b :|
      && start <= a < b < |log|
      && log[a].SawDeployment? && log[a].deployment.id == id && DeploymentAccepted(log[a].deployment, request)
      && log[b].SawLatest? && log[b].at == OfDeployment(id) && log[b].latest.Some?
      && StatusAccepted(log[b].latest.value, request.success, OfDeployment(id));
    assert longer[a] == log[a] && longer[b] == log[b];
  }

  lemma NoPostsJoin(before: seq<Event>, middle: seq<Event>, after: seq<Event>)
    requires NoPosts(before, middle) && NoPosts(middle, after)
    ensures NoPosts(before, after)
  {
    forall k | |before| <= k < |after| ensures !after[k].PostedDeployment? && !after[k].PostedStatus? {
      if k < |middle| {
        assert after[k] == middle[k];
      }
    }
  }

  lemma PrefixNoPosts(before: seq<Event>, after: seq<Event>)
    requires NoPosts(before, after)
    ensures |before| <= |after|
  {
  }

  lemma BothRead(before: seq<Event>, start: nat, request: Request, row: Deployment, status: Status)
    requires start <= |before| && DeploymentAccepted(row, request)
    requires StatusAccepted(status, request.success, OfDeployment(row.id))
    ensures ReadBack(before + [SawDeployment(row)] + [SawLatest(OfDeployment(row.id), Some(status))],
                     start, request, row.id)
  {
    var log := before + [SawDeployment(row)] + [SawLatest(OfDeployment(row.id), Some(status))];
    assert log[|before|] == SawDeployment(row) && log[|before| + 1] == SawLatest(OfDeployment(row.id), Some(status));
  }

  lemma ReadBackWidens(log: seq<Event>, start: nat, earlier: nat, request: Request, id: int)
    requires ReadBack(log, start, request, id) && earlier <= start
    ensures ReadBack(log, earlier, request, id)
  {
    hide DeploymentAccepted, StatusAccepted;
  }

  /** What is published: the accounts' deployments and the commit status. */
  datatype Publication = Publication(deployments: seq<Request>, head: string, commit: Body)

  const CONTEXT := "Infrastructure Promotion"

  ghost predicate Published(rows: seq<Deployment>, statuses: Statuses, publication: Publication) {
    && AllPublished(rows, statuses, publication.deployments)
    && LatestStored(At(statuses, OfCommit(publication.head)), OfCommit(publication.head), publication.commit,
                    Some(CONTEXT))
  }

  /** No commit status is written before every account was read back as
      published. */
  ghost predicate CommitIsLast(start: nat, log: seq<Event>, requests: seq<Request>) {
    forall k :: start <= k < |log| && log[k].PostedStatus? && log[k].place.OfCommit? ==>
      forall request :: request in requests ==> exists id :: ReadBack(log[..k], start, request, id)
  }

  lemma SentAccounts(before: seq<Event>, after: seq<Event>, rows: seq<Deployment>, requests: seq<Request>)
    requires SentFor(before, after, rows, requests) && AtMostOnce(before, after)
    ensures |before| <= |after| && CommitIsLast(|before|, after, requests)
  {
    hide StoredForOne;
  }

  lemma SentThenRead(before: seq<Event>, middle: seq<Event>, after: seq<Event>, rows: seq<Deployment>,
                     requests: seq<Request>)
    requires SentFor(before, middle, rows, requests) && AtMostOnce(before, middle) && NoPosts(middle, after)
    ensures SentFor(before, after, rows, requests) && AtMostOnce(before, after)
              && CommitIsLast(|before|, after, requests)
    ensures NoPosts(before, middle) ==> NoPosts(before, after)
  {
    hide StoredForOne;
    assert forall k :: 0 <= k < |middle| ==> after[k] == middle[k];
    if NoPosts(before, middle) {
      NoPostsJoin(before, middle, after);
    }
  }

  lemma SentCommit(before: seq<Event>, middle: seq<Event>, after: seq<Event>, rows: seq<Deployment>,
                   requests: seq<Request>, head: string, commit: Body, may: bool)
    requires SentFor(before, middle, rows, requests) && AtMostOnce(before, middle)
    requires StatusSent(middle, after, OfCommit(head), commit, may)
    requires forall request :: request in requests ==> exists id :: ReadBack(middle, |before|, request, id)
    ensures AtMostOnce(before, after) && CommitIsLast(|before|, after, requests)
    ensures NoPosts(before, middle) && !may ==> NoPosts(before, after)
  {
    hide StoredForOne, ReadBack;
    assert forall k :: 0 <= k < |middle| ==> after[k] == middle[k];
    forall k, request | |before| <= k < |after| && after[k].PostedStatus? && after[k].place.OfCommit?
      && request in requests
      ensures exists id :: ReadBack(after[..k], |before|, request, id)
    {
      assert k >= |middle| && middle <= after[..k];
      var id :| ReadBack(middle, |before|, request, id);
      ReadBackStays(middle, after[..k], |before|, request, id);
    }
  }

  lemma AllAre(rows: seq<Deployment>, statuses: Statuses, requests: seq<Request>, ids: seq<int>)
    requires |ids| == |requests| && forall k :: 0 <= k < |requests| ==> PublishedAs(rows, statuses, requests[k], ids[k])
    ensures AllPublished(rows, statuses, requests)
  {
    hide PublishedAs;
    forall request | request in requests ensures PublishedAccount(rows, statuses, request) {
      var k :| 0 <= k < |requests| && requests[k] == request;
    }
  }

  /** Writing the commit's status leaves the accounts published. */
  lemma CommitUntouched(rows: seq<Deployment>, before: Statuses, after: Statuses, publication: Publication)
    requires AllPublished(rows, before, publication.deployments)
    requires forall other :: other != OfCommit(publication.head) ==> At(after, other) == At(before, other)
    ensures AllPublished(rows, after, publication.deployments)
  {
    hide Stored, LatestStored, At;
    forall request | request in publication.deployments ensures PublishedAccount(rows, after, request) {
      assert PublishedAccount(rows, before, request);
      var id :| PublishedAs(rows, before, request, id);
      assert PublishedAs(rows, after, request, id);
    }
  }

  lemma NoPostsAppend(before: seq<Event>, after: seq<Event>, event: Event)
    requires NoPosts(before, after) && !event.PostedDeployment? && !event.PostedStatus?
    ensures NoPosts(before, after + [event])
  {
  }

  /* ---------- the server ---------- */

  class Server {
    var deployments: seq<Deployment>
    var statuses: map<Place, seq<Status>>
    ghost var log: seq<Event>

    constructor ()
      ensures deployments == [] && statuses == map[] && log == []
    {
      deployments, statuses, log := [], map[], [];
    }

    /** The one row with a request's evidence; two are ambiguous. */
    method FindDeployment(request: Request) returns (r: Result<Option<Deployment>>)
      ensures r.Ok? ==> |Matching(deployments, request)| <= 1
      ensures r.Ok? ==>
                r.value == if Matching(deployments, request) == [] then None
                           else Some(Matching(deployments, request)[0])
    {
      var rows := Pages(deployments);
      if rows.None? || |Matching(rows.value, request)| > 1 {
        return Rejected;
      }
      var found := Matching(rows.value, request);
      return Ok(if found == [] then None else Some(found[0]));
    }

    method ReadLatest(place: Place, context: Option<string>) returns (r: Result<Option<Status>>)
      modifies this`log
      ensures r.Ok? ==> r == Latest(At(statuses, place), context)
      ensures log == if r.Ok? then old(log) + [SawLatest(place, r.value)] else old(log)
    {
      var rows := Pages(At(statuses, place));
      if rows.None? || Latest(rows.value, context).Rejected? {
        return Rejected;
      }
      r := Latest(rows.value, context);
      log := log + [SawLatest(place, r.value)];
    }

    method ReadDeployment(id: int) returns (r: Result<Deployment>)
      modifies this`log
      ensures r.Ok? ==> ById(deployments, id) == Some(r.value)
      ensures log == if r.Ok? then old(log) + [SawDeployment(r.value)] else old(log)
    {
      var answer := Read(ById(deployments, id));
      if answer.None? || answer.value.None? {
        return Rejected;
      }
      log := log + [SawDeployment(answer.value.value)];
      return Ok(answer.value.value);
    }

    /** The server stores at most one record per write, with the commit, account
        and evidence asked for; the rest of it is read back, not believed. */
    method StoreDeployment(request: Request) returns (r: Option<Deployment>)
      modifies this`deployments, this`log
      ensures log == old(log) + [PostedDeployment(request)]
      ensures deployments == old(deployments)
           || (exists row :: Matches(row, request) && deployments == old(deployments) + [row])
      ensures r.Some? ==> Matches(r.value, request) && deployments == old(deployments) + [r.value]
    {
      log := log + [PostedDeployment(request)];
      var delivered: bool := *;
      if !delivered {
        return None;
      }
      var id: int, ours: bool, production: bool, description: string, url: string := *, *, *, *, *;
      var row := Deployment(id, ours, request.ref, request.ref, request.environment, production, description,
                            request.payload, url);
      deployments := deployments + [row];
      var answered: bool := *;
      return if answered then Some(row) else None;
    }

    method StoreStatus(place: Place, body: Body) returns (r: Option<Status>)
      modifies this`statuses, this`log
      ensures log == old(log) + [PostedStatus(place, body)]
      ensures forall other :: other != place ==> At(statuses, other) == At(old(statuses), other)
    {
      log := log + [PostedStatus(place, body)];
      var delivered: bool := *;
      if !delivered {
        return None;
      }
      var row: Status := *;
      statuses := statuses[place := At(statuses, place) + [row]];
      var answered: bool := *;
      return if answered then Some(row) else None;
    }

    /** The live recheck before every write. */
    method Authorize() returns (ok: bool)
    {
      ok := *;
    }

    method PostDeploymentOnce(request: Request) returns (r: Result<Option<Deployment>>)
      modifies this`deployments, this`log
      ensures log == if r.Ok? then old(log) + [PostedDeployment(request)] else old(log)
      ensures deployments == old(deployments)
           || (r.Ok? && exists row :: Matches(row, request) && deployments == old(deployments) + [row])
      ensures r.Ok? && r.value.Some? ==>
                Matches(r.value.value, request) && deployments == old(deployments) + [r.value.value]
    {
      var ok := Authorize();
      if !ok {
        return Rejected;
      }
      var created := StoreDeployment(request);
      return Ok(created);
    }

    /** Bounded reads for a write whose response was lost. */
    method RecoverDeployment(request: Request) returns (r: Result<Option<Deployment>>)
      ensures r.Ok? && r.value.Some? ==> Matching(deployments, request) == [r.value.value]
    {
      hide Matching;
      for attempt := 0 to READ_ATTEMPTS {
        var found := FindDeployment(request);
        if found.Rejected? || found.value.Some? {
          return found;
        }
      }
      return Ok(None);
    }

    method FindOrCreate(request: Request) returns (r: Result<Deployment>)
      modifies this`deployments, this`log
      ensures DeploymentSent(old(log), log, request, Matching(old(deployments), request) == [])
      ensures Grown(old(deployments), deployments, request)
      ensures r.Ok? ==> Matching(deployments, request) == [r.value]
    {
      hide Matching, DeploymentSent, StatusSent, NoPosts, Matches;
      SawNothing(log, request, Matching(deployments, request) == [], OfCommit(""), request.success, true);
      var existing := FindDeployment(request);
      if existing.Rejected? {
        return Rejected;
      }
      if existing.value.Some? {
        return Ok(existing.value.value);
      }
      var posted := PostDeploymentOnce(request);
      if posted.Rejected? {
        return Rejected;
      }
      PostedOne(old(log), request);
      if posted.value.Some? {
        MatchingSnoc(old(deployments), posted.value.value, request);
        return Ok(posted.value.value);
      }
      var recovered := RecoverDeployment(request);
      if recovered.Rejected? || recovered.value.None? {
        return Rejected;
      }
      return Ok(recovered.value.value);
    }

    /** Find the request's deployment or create it; a lost response is resolved by
        reading, never by writing again. */
    method EnsureDeployment(request: Request) returns (r: Result<int>)
      modifies this`deployments, this`log
      ensures DeploymentSent(old(log), log, request, Matching(old(deployments), request) == [])
      ensures Grown(old(deployments), deployments, request)
      ensures r.Ok? ==> Stored(deployments, request, r.value)
    {
      hide Matching, DeploymentSent, Matches, DeploymentAccepted, ById;
      var created := FindOrCreate(request);
      if created.Rejected? || !DeploymentAccepted(created.value, request) {
        return Rejected;
      }
      var id := created.value.id;
      ghost var sent := log;
      var persisted := ReadDeployment(id);
      if persisted.Ok? {
        SawOne(old(log), sent, SawDeployment(persisted.value), request, Matching(old(deployments), request) == []);
      }
      if persisted.Rejected? || !DeploymentAccepted(persisted.value, request) || persisted.value.id != id {
        return Rejected;
      }
      return Ok(id);
    }

    method PostStatusOnce(place: Place, body: Body) returns (r: Result<Option<Status>>)
      modifies this`statuses, this`log
      ensures log == if r.Ok? then old(log) + [PostedStatus(place, body)] else old(log)
      ensures forall other :: other != place ==> At(statuses, other) == At(old(statuses), other)
    {
      var ok := Authorize();
      if !ok {
        return Rejected;
      }
      var result := StoreStatus(place, body);
      return Ok(result);
    }

    /** Bounded reads of the status just written. */
    method ConfirmStatus(place: Place, body: Body, context: Option<string>, expected: Option<int>,
                         ghost before: seq<Event>, ghost may: bool)
      returns (r: Result<int>)
      requires StatusSent(before, log, place, body, may)
      modifies this`log
      ensures StatusSent(before, log, place, body, may)
      ensures r.Ok? ==>
                LatestStored(At(statuses, place), place, body, context)
                  && r.value == Latest(At(statuses, place), context).value.value.id
    {
      hide StatusSent, Latest, StatusAccepted;
      for attempt := 0 to READ_ATTEMPTS
        modifies this`log
        invariant StatusSent(before, log, place, body, may)
      {
        ghost var sent := log;
        var persisted := ReadLatest(place, context);
        if persisted.Ok? {
          SawOneStatus(before, sent, SawLatest(place, persisted.value), place, body, may);
        }
        if persisted.Rejected? {
          return Rejected;
        }
        if persisted.value.Some? {
          var status := persisted.value.value;
          if !StatusAccepted(status, body, place) || (expected.Some? && status.id != expected.value) {
            return Rejected;
          }
          return Ok(status.id);
        }
      }
      return Rejected;
    }

    /** Keep an already correct latest status, or write one and read it back. */
    method EnsureStatus(place: Place, body: Body, context: Option<string>) returns (r: Result<int>)
      modifies this`statuses, this`log
      ensures StatusSent(old(log), log, place, body, !LatestStored(At(old(statuses), place), place, body, context))
      ensures forall other :: other != place ==> At(statuses, other) == At(old(statuses), other)
      ensures LatestStored(At(old(statuses), place), place, body, context) ==>
                At(statuses, place) == At(old(statuses), place)
      ensures r.Ok? ==>
                LatestStored(At(statuses, place), place, body, context)
                  && r.value == Latest(At(statuses, place), context).value.value.id
    {
      hide StatusSent, Latest, StatusAccepted, DeploymentSent, NoPosts;
      ghost var may := !LatestStored(At(statuses, place), place, body, context);
      SawNothing(log, Request("", "", false, "", "", body), true, place, body, may);
      var current := ReadLatest(place, context);
      if current.Rejected? {
        return Rejected;
      }
      SawOneStatus(old(log), old(log), SawLatest(place, current.value), place, body, may);
      if current.value.Some? && StatusAccepted(current.value.value, body, place) {
        return Ok(current.value.value.id);
      }
      var result := PostStatusOnce(place, body);
      PostedOneStatus(old(log), SawLatest(place, current.value), place, body);
      if result.Rejected? || (result.value.Some? && !StatusAccepted(result.value.value, body, place)) {
        return Rejected;
      }
      var expected := if result.value.Some? then Some(result.value.value.id) else None;
      r := ConfirmStatus(place, body, context, expected, old(log), may);
    }

    method PublishAccount(request: Request) returns (r: Result<int>)
      modifies this`deployments, this`statuses, this`log
      ensures OneSent(old(log), log, deployments, request)
      ensures Grown(old(deployments), deployments, request)
      ensures OthersKept(old(statuses), statuses, deployments, request)
      ensures PublishedAccount(old(deployments), old(statuses), request) ==>
                NoPosts(old(log), log) && deployments == old(deployments) && AllKept(old(statuses), statuses)
      ensures r.Ok? ==> PublishedAs(deployments, statuses, request, r.value)
    {
      hide Matching, DeploymentAccepted, LatestStored, StatusAccepted, ById, Latest;
      ghost var may := Matching(deployments, request) == [];
      var created := EnsureDeployment(request);
      SentDeploymentOnly(old(log), log, deployments, request, may);
      if created.Rejected? {
        return Rejected;
      }
      ghost var sent := log;
      ghost var mayStatus := !LatestStored(At(statuses, OfDeployment(created.value)), OfDeployment(created.value),
                                           request.success, None);
      var status := EnsureStatus(OfDeployment(created.value), request.success, None);
      SentOne(old(log), sent, log, deployments, request, created.value, request.success, may, mayStatus);
      return if status.Ok? then created else Rejected;
    }

    /** The loop over the accounts. */
    method PublishAccounts(requests: seq<Request>) returns (r: Result<seq<int>>)
      requires SeparateAccounts(requests)
      modifies this`deployments, this`statuses, this`log
      ensures SentFor(old(log), log, deployments, requests) && AtMostOnce(old(log), log)
      ensures NoneDoubled(old(deployments), deployments, requests)
      ensures forall sha :: At(statuses, OfCommit(sha)) == At(old(statuses), OfCommit(sha))
      ensures AllPublished(old(deployments), old(statuses), requests) ==>
                NoPosts(old(log), log) && deployments == old(deployments) && AllKept(old(statuses), statuses)
      ensures r.Ok? ==> |r.value| == |requests|
      ensures r.Ok? ==> forall k :: 0 <= k < |requests| ==> PublishedAs(deployments, statuses, requests[k], r.value[k])
    {
      hide Matching, Stored, LatestStored, At, SentFor, AtMostOnce, OneSent, NoPosts, Grown, PublishedAs,
           PublishedAccount, NoneDoubled;
      var ids: seq<int> := [];
      NothingSent(log, deployments, requests);
      for i := 0 to |requests|
        invariant |ids| == i
        invariant SentFor(old(log), log, deployments, requests[..i]) && AtMostOnce(old(log), log)
        invariant NoneDoubled(old(deployments), deployments, requests)
        invariant forall sha :: At(statuses, OfCommit(sha)) == At(old(statuses), OfCommit(sha))
        invariant AllPublished(old(deployments), old(statuses), requests) ==>
                    NoPosts(old(log), log) && deployments == old(deployments) && AllKept(old(statuses), statuses)
        invariant forall k :: 0 <= k < i ==> PublishedAs(deployments, statuses, requests[k], ids[k])
      {
        ghost var middle, rows, kept := log, deployments, statuses;
        ghost var published := AllPublished(old(deployments), old(statuses), requests);
        if published {
          assert requests[i] in requests;
          StillPublished(rows, old(statuses), kept, requests[i]);
        }
        var id := PublishAccount(requests[i]);
        if published {
          NoPostsJoin(old(log), middle, log);
        }
        assert requests[..i + 1] == requests[..i] + [requests[i]];
        SentForMore(old(log), middle, log, rows, deployments, requests[..i], requests[i]);
        SentForAll(old(log), log, deployments, requests, i + 1);
        NoneDoubledMore(old(deployments), rows, deployments, requests, requests[i]);
        forall k | 0 <= k < i ensures PublishedAs(deployments, statuses, requests[k], ids[k]) {
          OthersStayPublished(rows, deployments, kept, statuses, requests[i], requests[k], ids[k]);
        }
        if id.Rejected? {
          return Rejected;
        }
        ids := ids + [id.value];
      }
      assert requests[..|requests|] == requests;
      return Ok(ids);
    }

    /** Read every account's deployment and latest status back once more. */
    method ConfirmAccounts(requests: seq<Request>, ids: seq<int>) returns (ok: bool)
      requires |ids| == |requests|
      modifies this`log
      ensures NoPosts(old(log), log)
      ensures ok ==> forall k :: 0 <= k < |requests| ==> ReadBack(log, |old(log)|, requests[k], ids[k])
    {
      hide NoPosts, ReadBack, DeploymentAccepted, StatusAccepted, Latest, ById;
      ghost var start := |log|;
      NothingSent(log, deployments, requests);
      for i := 0 to |requests|
        modifies this`log
        invariant NoPosts(old(log), log)
        invariant forall k :: 0 <= k < i ==> ReadBack(log, start, requests[k], ids[k])
      {
        ghost var before := log;
        var persisted := ReadDeployment(ids[i]);
        if persisted.Rejected? {
          return false;
        }
        NoPostsAppend(old(log), before, SawDeployment(persisted.value));
        if !DeploymentAccepted(persisted.value, requests[i]) || persisted.value.id != ids[i] {
          return false;
        }
        ghost var middle := log;
        var latest := ReadLatest(OfDeployment(ids[i]), None);
        if latest.Rejected? {
          return false;
        }
        NoPostsAppend(old(log), middle, SawLatest(OfDeployment(ids[i]), latest.value));
        if latest.value.None? || !StatusAccepted(latest.value.value, requests[i].success, OfDeployment(ids[i])) {
          return false;
        }
        PrefixNoPosts(old(log), before);
        BothRead(before, start, requests[i], persisted.value, latest.value.value);
        forall k | 0 <= k < i ensures ReadBack(log, start, requests[k], ids[k]) {
          ReadBackStays(before, log, start, requests[k], ids[k]);
        }
      }
      return true;
    }

    /** Publish every account, confirm them all, and only then the commit status. */
    method Publish(publication: Publication) returns (r: Result<int>)
      requires SeparateAccounts(publication.deployments)
      modifies this`deployments, this`statuses, this`log
      ensures AtMostOnce(old(log), log)
      ensures NoneDoubled(old(deployments), deployments, publication.deployments)
      ensures CommitIsLast(|old(log)|, log, publication.deployments)
      ensures Published(old(deployments), old(statuses), publication) ==>
                NoPosts(old(log), log) && deployments == old(deployments) && AllKept(old(statuses), statuses)
      ensures r.Ok? ==> Published(deployments, statuses, publication)
      ensures r.Ok? ==> r.value == Latest(At(statuses, OfCommit(publication.head)), Some(CONTEXT)).value.value.id
    {
      hide Matching, Stored, LatestStored, At, SentFor, AtMostOnce, NoPosts, PublishedAs, PublishedAccount, NoneDoubled,
           ReadBack, StatusSent, CommitIsLast, Latest;
      var requests := publication.deployments;
      var ids := PublishAccounts(requests);
      ghost var sent := log;
      SentAccounts(old(log), sent, deployments, requests);
      if ids.Rejected? {
        return Rejected;
      }
      AllAre(deployments, statuses, requests, ids.value);
      var ok := Authorize();
      if !ok {
        return Rejected;
      }
      ok := ConfirmAccounts(requests, ids.value);
      ghost var confirmed, kept := log, statuses;
      SentThenRead(old(log), sent, confirmed, deployments, requests);
      if !ok {
        return Rejected;
      }
      forall request | request in requests ensures exists id :: ReadBack(confirmed, |old(log)|, request, id) {
        var k :| 0 <= k < |requests| && requests[k] == request;
        ReadBackWidens(confirmed, |sent|, |old(log)|, request, ids.value[k]);
      }
      var place := OfCommit(publication.head);
      ghost var may := !LatestStored(At(kept, place), place, publication.commit, Some(CONTEXT));
      r := EnsureStatus(place, publication.commit, Some(CONTEXT));
      SentCommit(old(log), confirmed, log, deployments, requests, publication.head, publication.commit, may);
      CommitUntouched(deployments, kept, statuses, publication);
      ok := Authorize();
      if !ok {
        return Rejected;
      }
    }
  }

  /** No request gains a second matching deployment. */
  ghost predicate NoneDoubled(before: seq<Deployment>, after: seq<Deployment>, requests: seq<Request>) {
    forall request :: request in requests ==> |Matching(before, request)| <= 1 ==> |Matching(after, request)| <= 1
  }

  lemma NoneDoubledMore(before: seq<Deployment>, middle: seq<Deployment>, after: seq<Deployment>,
                        requests: seq<Request>, request: Request)
    requires NoneDoubled(before, middle, requests) && Grown(middle, after, request) && request in requests
    requires SeparateAccounts(requests)
    ensures NoneDoubled(before, after, requests)
  {
    hide Matching, Grown;
    forall other | other in requests ensures |Matching(before, other)| <= 1 ==> |Matching(after, other)| <= 1 {
      GrownKeeps(middle, after, request, other);
    }
  }

  lemma SentForAll(before: seq<Event>, after: seq<Event>, rows: seq<Deployment>, requests: seq<Request>, n: nat)
    requires n <= |requests| && SentFor(before, after, rows, requests[..n])
    ensures SentFor(before, after, rows, requests)
  {
    hide Stored;
    forall id | StoredForOne(rows, requests[..n], id) ensures StoredForOne(rows, requests, id) {
      var m :| 0 <= m < n && Stored(rows, requests[..n][m], id);
      assert requests[m] == requests[..n][m];
    }
  }

  lemma NothingSent(log: seq<Event>, rows: seq<Deployment>, requests: seq<Request>)
    ensures SentFor(log, log, rows, []) && AtMostOnce(log, log) && NoPosts(log, log)
              && NoneDoubled(rows, rows, requests)
  {
  }
}
