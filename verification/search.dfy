/** `exports.search(query, callback)`: a term lookup (esearch) followed, when
    it yields ids, by a metadata fetch (esummary) whose records form the
    result. The network is replaced by the two responses it would deliver;
    the model returns the requests actually issued and the single outcome
    delivered to the callback. */
module Search {
  import opened Wrappers
  import QueryString
  import Summary

  /** The `query` argument: `None` when it is falsy (null, undefined). */
  datatype Query = Query(searchTerm: Option<string>)

  /** What one `http.get` ends in: a transport `'error'` event, a body that
      `JSON.parse` rejects, a body that parses to `null` (whose property read
      throws inside the same `try`), or a parsed body. */
  datatype Response<B> = TransportFailure | ParseFailure | ParsedNull | Parsed(body: B)

  /** `esearchresult.idlist`, `None` when it is not an array. */
  datatype IdSection = IdSection(idlist: Option<seq<string>>)

  /** The parsed esearch body; `esearchresult` is `None` when falsy. */
  datatype EsearchBody = EsearchBody(esearchresult: Option<IdSection>)

  /** The parsed esummary body; `result` is `None` when falsy. */
  datatype EsummaryBody = EsummaryBody(result: Option<Summary.SummaryResult>)

  datatype Request = Request(host: string, path: string)

  /** The error handed to `callback(e)`. */
  datatype Cause = Transport | Syntax | NullBody

  /** What the caller observes: `callback(e)`, `callback(null, {data})`, or
      an exception thrown from the response handler for the uid whose entry
      has no name, in which case the callback is never called. */
  datatype Outcome = Error(cause: Cause) | Ok(data: seq<Summary.Record>) | Thrown(uid: string)

  datatype Run = Run(requests: seq<Request>, outcome: Outcome)

  const Host: string := "eutils.ncbi.nlm.nih.gov"
  const EsearchBase: string := "/entrez/eutils/esearch.fcgi?retmode=json&"
  const EsummaryBase: string := "/entrez/eutils/esummary.fcgi?db=pubmed&retmode=json&"

  /** The guard `!query || !query.searchTerm` fails: there is a non-empty term. */
  predicate HasTerm(query: Option<Query>) {
    query.Some? && Summary.Truthy(query.value.searchTerm)
  }

  function EsearchRequest(term: string): Request {
    Request(Host, EsearchBase + QueryString.Param("term", term))
  }

  /** The esummary request for the id list joined with `,`. */
  function EsummaryRequest(ids: seq<string>): Request {
    Request(Host, EsummaryBase + QueryString.Param("id", QueryString.Join(ids, ",")))
  }

  /** The ids the first response passes on: `idlist` when it is a non-empty
      array inside a present `esearchresult`. */
  function IdsOf(body: EsearchBody): (ids: Option<seq<string>>)
    ensures ids.Some? ==> |ids.value| > 0
    ensures ids.Some? <==>
              body.esearchresult.Some? && body.esearchresult.value.idlist.Some?
              && |body.esearchresult.value.idlist.value| > 0
    ensures ids.Some? ==> ids.value == body.esearchresult.value.idlist.value
  {
    match body.esearchresult
    case None => None
    case Some(section) =>
      match section.idlist
      case Some(ids) => if |ids| > 0 then Some(ids) else None
      case None => None
  }

  /** The failure cause of a response that did not parse to an object. */
  function FailureCause<B>(r: Response<B>): Cause
    requires !r.Parsed?
  {
    match r
    case TransportFailure => Transport
    case ParseFailure => Syntax
    case ParsedNull => NullBody
  }

  /** The end of the esummary step. */
  function SummaryOutcome(second: Response<EsummaryBody>): Outcome {
    if !second.Parsed? then Error(FailureCause(second))
    else match Summary.Records(second.body.result)
      case Success(data) => Ok(data)
      case Failure(uid) => Thrown(uid)
  }

  /** The search as a total function of the query and the two responses the
      network would deliver. The second response is only consulted when the
      second request is issued. */
  function SearchRun(query: Option<Query>, first: Response<EsearchBody>,
                     second: Response<EsummaryBody>): (run: Run)
    ensures !HasTerm(query) ==> run == Run([], Ok([]))
    ensures |run.requests| <= 2
    ensures HasTerm(query) ==>
              |run.requests| >= 1 && run.requests[0] == EsearchRequest(query.value.searchTerm.value)
    ensures |run.requests| == 2 <==>
              HasTerm(query) && first.Parsed? && IdsOf(first.body).Some?
    ensures |run.requests| == 2 ==>
              run.requests[1] == EsummaryRequest(IdsOf(first.body).value)
    ensures run.outcome.Error? <==>
              HasTerm(query) && (!first.Parsed? || (|run.requests| == 2 && !second.Parsed?))
    ensures run.outcome.Thrown? ==> |run.requests| == 2 && second.Parsed?
    ensures |run.requests| < 2 && !run.outcome.Error? ==> run.outcome == Ok([])
    ensures run.outcome.Error? ==>
              run.outcome.cause == (if !first.Parsed? then FailureCause(first) else FailureCause(second))
    ensures |run.requests| == 2 && second.Parsed? ==>
              var res := second.body.result;
              if res.None? || res.value.uids.None? then run.outcome == Ok([])
              else
                var p := Summary.Project(res.value.uids.value, res.value.entries);
                && (p.Success? ==> run.outcome == Ok(p.value))
                && (p.Failure? ==> run.outcome == Thrown(res.value.uids.value[p.error]))
  {
    if !HasTerm(query) then Run([], Ok([]))
    else
      var lookup := EsearchRequest(query.value.searchTerm.value);
      if !first.Parsed? then Run([lookup], Error(FailureCause(first)))
      else match IdsOf(first.body)
        case None => Run([lookup], Ok([]))
        case Some(ids) => Run([lookup, EsummaryRequest(ids)], SummaryOutcome(second))
  }

  /** When the second request is not issued, the second response cannot
      influence the run: an empty term, a failed lookup and a lookup without
      ids all end before any metadata is fetched. */
  lemma SecondIgnoredUnlessRequested(query: Option<Query>, first: Response<EsearchBody>,
                                     second: Response<EsummaryBody>, other: Response<EsummaryBody>)
    requires |SearchRun(query, first, second).requests| < 2
    ensures SearchRun(query, first, second) == SearchRun(query, first, other)
    ensures SearchRun(query, first, second).outcome == Ok([])
            || SearchRun(query, first, second).outcome == Error(FailureCause(first))
  {
  }

  /** The records follow the metadata response alone: two lookups that both
      yield ids lead to the same outcome, whatever the ids and their order. */
  lemma OutcomeFollowsMetadata(query: Option<Query>, first: Response<EsearchBody>,
                               other: Response<EsearchBody>, second: Response<EsummaryBody>)
    requires HasTerm(query)
    requires first.Parsed? && IdsOf(first.body).Some?
    requires other.Parsed? && IdsOf(other.body).Some?
    ensures SearchRun(query, first, second).outcome == SearchRun(query, other, second).outcome
  {
  }

  /** The metadata request's `id` parameter is each id escaped, joined by
      `%2C` in the order of the lookup's `idlist`. */
  lemma EsummaryIdParameter(ids: seq<string>)
    ensures EsummaryRequest(ids).path
            == EsummaryBase + ("id=" + QueryString.Join(QueryString.EscapeEach(ids), "%2C"))
  {
    QueryString.EscapeJoin(ids);
    assert "id" + "=" == "id=";
  }
}
