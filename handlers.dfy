/** The two JSON endpoints, with the upstream answers given as inputs and
    the upstream requests returned as a log. */
module Handlers {
  import opened Wrappers
  import opened Coercion
  import opened Participants
  import opened Packages
  import opened Odds

  /** An upstream request the handlers make. */
  datatype Call =
    | ParticipantPageCall(compId: string, pageSize: nat, page: nat)  // GET /sweepstake/{id}/participant?pageSize=..&page=..
    | CompetitionCall(compId: string)                                // GET /sweepstake/{id}

  /** A JSON reply: a 200 body, or an error status with its `error` message. */
  datatype Reply<T> = Ok(body: T) | Error(status: nat, error: string)

  /** The query of `/api/calculate`. `entries` holds `Number(entries)` when
      the parameter is given. */
  datatype Query = Query(compid: Option<string>, entries: Option<JsNumber>)

  /** The competition record; only its package list is read, and a missing
      or null list is the empty sequence. */
  datatype CompetitionData = CompetitionData(entryPackages: seq<RawPackage>)

  /** The body of a successful calculation. */
  datatype Calculation = Calculation(compId: string, summary: Summary)

  /** An upstream competition record (only `id` and `name` are read) and
      its projection for the lister. */
  datatype CompetitionRecord = CompetitionRecord(id: string, name: string)
  datatype Competition = Competition(id: string, name: string)

  const PageSize: nat := 10
  const MissingCompId := "Missing compid parameter"
  const FetchFailed := "Failed to fetch data"
  const CompetitionsFailed := "Failed to fetch competitions"

  /** `!compid` is false: the parameter is present and not empty. */
  predicate HasCompId(q: Query)
  {
    q.compid.Some? && q.compid.value != ""
  }

  /** `Number(entries) || 0`, with `entries` defaulting to '0'. */
  function YourEntries(q: Query): real
  {
    if q.entries.Some? then OrZero(q.entries.value) else 0.0
  }

  /** `err.message || 'Failed to fetch data'`. */
  function ErrorMessage(message: string): (r: string)
    ensures r != ""
    ensures message != "" ==> r == message
    ensures message == "" ==> r == FetchFailed
  {
    if message == "" then FetchFailed else message
  }

  /** Requests for participant pages 1 to n, in that order. */
  function PageCalls(id: string, n: nat): seq<Call>
  {
    seq(n, i requires 0 <= i < n => ParticipantPageCall(id, PageSize, i + 1))
  }

  /** `GET /api/competitions`: each upstream record becomes `{id, name}`, in
      upstream order; an upstream error gives a 500 with a fixed message. */
  function ListCompetitions(upstream: Result<seq<CompetitionRecord>>): (reply: Reply<seq<Competition>>)
    ensures upstream.Failure? ==> reply == Error(500, CompetitionsFailed)
    ensures upstream.Success? ==> reply.Ok? && |reply.body| == |upstream.value|
    ensures upstream.Success? ==> forall i :: 0 <= i < |upstream.value| ==>
      reply.body[i].id == upstream.value[i].id && reply.body[i].name == upstream.value[i].name
  {
    if upstream.Failure? then Error(500, CompetitionsFailed)
    else
      var records := upstream.value;
      Ok(seq(|records|, i requires 0 <= i < |records| => Competition(records[i].id, records[i].name)))
  }

  /** `GET /api/calculate`. A missing or empty compid is refused before any
      upstream request; the participant pages are then read in order, the
      competition record is read only when every page request succeeded, and
      any upstream error replaces the whole result with a 500. */
  method Calculate(q: Query, participants: seq<Response>, competition: Result<CompetitionData>)
    returns (reply: Reply<Calculation>, calls: seq<Call>)
    requires PageCountsWithin(participants)
    ensures !HasCompId(q) ==> reply == Error(400, MissingCompId) && calls == []
    ensures HasCompId(q) ==>
      var n := PagesRequested(participants);
      var crawl := CrawlResult(participants);
      && n <= |calls|
      && calls[..n] == PageCalls(q.compid.value, n)
      && calls[n..] == (if crawl.Success? then [CompetitionCall(q.compid.value)] else [])
      && (crawl.Failure? ==> reply == Error(500, ErrorMessage(crawl.error)))
      && (crawl.Success? && competition.Failure? ==> reply == Error(500, ErrorMessage(competition.error)))
      && (crawl.Success? && competition.Success? ==>
            reply == Ok(Calculation(q.compid.value,
              Summarize(crawl.value, YourEntries(q), SortedPackages(competition.value.entryPackages)))))
  {
    if !HasCompId(q) {
      return Error(400, MissingCompId), [];
    }
    var id := q.compid.value;
    var requested, crawl := SumParticipants(participants);
    calls := PageCalls(id, requested);
    if crawl.Failure? {
      return Error(500, ErrorMessage(crawl.error)), calls;
    }
    calls := calls + [CompetitionCall(id)];
    if competition.Failure? {
      return Error(500, ErrorMessage(competition.error)), calls;
    }
    var packages := SortedPackages(competition.value.entryPackages);
    var yourEntries := YourEntries(q);
    reply := Ok(Calculation(id, Summarize(crawl.value, yourEntries, packages)));
  }
}
