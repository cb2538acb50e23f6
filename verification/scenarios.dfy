/** The repository's test scenarios, stated over the model: each fixes the
    term and the two responses and states the requests and the outcome. */
module Scenarios {
  import opened Wrappers
  import opened Summary
  import opened Search
  import QueryString
  import EntityStrip

  const Uid1: string := "25230398"
  const Uid2: string := "25230381"

  function Medicine(): Option<Query> {
    Some(Query(Some("medicine")))
  }

  function LookupWith(ids: seq<string>): Response<EsearchBody> {
    Parsed(EsearchBody(Some(IdSection(Some(ids)))))
  }

  function SummaryWith(uids: seq<string>, entries: map<string, Entry>): Response<EsummaryBody> {
    Parsed(EsummaryBody(Some(SummaryResult(Some(uids), entries))))
  }

  lemma UnreservedUnescaped(s: string)
    requires QueryString.AllUnreserved(s)
    ensures QueryString.Escape(s) == s
  {
    QueryString.EscapeIdentityIff(s);
  }

  lemma PlainTitle(s: string)
    requires '&' !in s
    ensures EntityStrip.Strip(s) == s
  {
    EntityStrip.StripKeepsPlainPrefix(s, []);
    assert s + [] == s;
  }

  lemma LookupPath(term: string)
    requires QueryString.Escape(term) == term
    ensures EsearchRequest(term).path == EsearchBase + (("term" + "=") + term)
  {
  }

  lemma MedicineLookupShape(term: string)
    requires term == "medicine"
    ensures "/entrez/eutils/esearch.fcgi?retmode=json&term=medicine" == EsearchBase + (("term" + "=") + term)
  {
  }

  lemma MedicineLookupPath(term: string)
    requires term == "medicine"
    ensures EsearchRequest(term).path == "/entrez/eutils/esearch.fcgi?retmode=json&term=medicine"
  {
    UnreservedUnescaped(term);
    LookupPath(term);
    MedicineLookupShape(term);
  }

  lemma MedicineIdsShape()
    ensures "/entrez/eutils/esummary.fcgi?db=pubmed&retmode=json&id=25230398%2C25230381"
            == EsummaryBase + (("id" + "=") + ((Uid1 + "%2C") + Uid2))
  {
  }

  lemma TwoIdsPath(u1: string, u2: string)
    requires QueryString.Escape(u1) == u1 && QueryString.Escape(u2) == u2
    ensures EsummaryRequest([u1, u2]).path == EsummaryBase + (("id" + "=") + ((u1 + "%2C") + u2))
  {
    var ids := [u1, u2];
    QueryString.EscapeJoin(ids);
    assert QueryString.EscapeEach(ids) == ids;
    assert QueryString.Join(ids, "%2C") == (u1 + "%2C") + u2;
  }

  lemma MedicineIdsPath(u1: string, u2: string)
    requires u1 == Uid1 && u2 == Uid2
    ensures EsummaryRequest([u1, u2]).path
            == "/entrez/eutils/esummary.fcgi?db=pubmed&retmode=json&id=25230398%2C25230381"
  {
    UnreservedUnescaped(u1);
    UnreservedUnescaped(u2);
    TwoIdsPath(u1, u2);
    MedicineIdsShape();
  }
  lemma ProjectOne(u: string, m: map<string, Entry>)
    requires u in m && HasName(m[u])
    ensures Project([u], m) == Success([MakeRecord(u, m[u])])
  {
    assert Project([], m) == Success([]);
    ProjectConsPresent(u, [], m);
    assert [u] + [] == [u];
    var r := MakeRecord(u, m[u]);
    assert [r] + [] == [r];
  }

  lemma ProjectTwo(u1: string, u2: string, m: map<string, Entry>)
    requires u1 in m && u2 in m && HasName(m[u1]) && HasName(m[u2])
    ensures Project([u1, u2], m) == Success([MakeRecord(u1, m[u1]), MakeRecord(u2, m[u2])])
  {
    ProjectOne(u2, m);
    ProjectConsPresent(u1, [u2], m);
    assert [u1] + [u2] == [u1, u2];
    var a, b := MakeRecord(u1, m[u1]), MakeRecord(u2, m[u2]);
    assert [a] + [b] == [a, b];
  }

  lemma ProjectSecondOnly(u1: string, u2: string, m: map<string, Entry>)
    requires u1 !in m && u2 in m && HasName(m[u2])
    ensures Project([u1, u2], m) == Success([MakeRecord(u2, m[u2])])
  {
    ProjectOne(u2, m);
    ProjectConsAbsent(u1, [u2], m);
    assert [u1] + [u2] == [u1, u2];
  }

  function MedicineEntries(u1: string, u2: string, t1: string, t2: string): map<string, Entry> {
    map[u1 := Entry(Some(t1), None), u2 := Entry(Some(t2), None)]
  }

  lemma MedicineRecords(u1: string, u2: string, t1: string, t2: string)
    requires u1 != u2 && t1 != "" && t2 != "" && '&' !in t1 && '&' !in t2
    ensures Records(Some(SummaryResult(Some([u1, u2]), MedicineEntries(u1, u2, t1, t2))))
            == Success([Record(t1, RecordUrl(u1)), Record(t2, RecordUrl(u2))])
  {
    ProjectTwo(u1, u2, MedicineEntries(u1, u2, t1, t2));
    PlainTitle(t1);
    PlainTitle(t2);
  }

  /** Two hits, both with entries: two requests, two records in uid order. */
  lemma TwoHitRun(query: Option<Query>, u1: string, u2: string, t1: string, t2: string)
    requires HasTerm(query)
    requires u1 != u2 && t1 != "" && t2 != "" && '&' !in t1 && '&' !in t2
    ensures SearchRun(query, LookupWith([u1, u2]), SummaryWith([u1, u2], MedicineEntries(u1, u2, t1, t2)))
            == Run([EsearchRequest(query.value.searchTerm.value), EsummaryRequest([u1, u2])],
                   Ok([Record(t1, RecordUrl(u1)), Record(t2, RecordUrl(u2))]))
  {
    MedicineRecords(u1, u2, t1, t2);
  }

  lemma DigitLinks(u1: string, u2: string)
    requires u1 == Uid1 && u2 == Uid2
    ensures UidOf(RecordUrl(u1)) == Some(u1) && UidOf(RecordUrl(u2)) == Some(u2)
  {
    assert QueryString.AllUnreserved(u1) && QueryString.AllUnreserved(u2);
    RecordUrlShape(u1);
    RecordUrlShape(u2);
  }

  /** A term with two hits (titles such as "Medicine 1" and "Medicine 2"):
      both requests go out with the paths the test expects (the joined ids
      escaped as `%2C`), and the records carry the two titles in uid order,
      each link holding its uid. */
  lemma MedicineSearch(u1: string, u2: string, t1: string, t2: string)
    requires u1 == Uid1 && u2 == Uid2
    requires t1 != "" && t2 != "" && '&' !in t1 && '&' !in t2
    ensures var run := SearchRun(Medicine(), LookupWith([u1, u2]),
                                 SummaryWith([u1, u2], MedicineEntries(u1, u2, t1, t2)));
            && run.requests
               == [Request(Host, "/entrez/eutils/esearch.fcgi?retmode=json&term=medicine"),
                   Request(Host, "/entrez/eutils/esummary.fcgi?db=pubmed&retmode=json&id=25230398%2C25230381")]
            && run.outcome == Ok([Record(t1, RecordUrl(u1)), Record(t2, RecordUrl(u2))])
            && UidOf(run.outcome.data[0].url) == Some(u1)
            && UidOf(run.outcome.data[1].url) == Some(u2)
  {
    assert u1 != u2;
    TwoHitRun(Medicine(), u1, u2, t1, t2);
    MedicineLookupPath("medicine");
    MedicineIdsPath(u1, u2);
    DigitLinks(u1, u2);
  }

  /** An id listed in `uids` without an entry is omitted; the other keeps
      its record. */
  lemma OmitsMissingEntry(u1: string, u2: string, t2: string)
    requires u1 != u2 && t2 != "" && '&' !in t2
    ensures SearchRun(Medicine(), LookupWith([u1, u2]),
                      SummaryWith([u1, u2], map[u2 := Entry(Some(t2), None)])).outcome
            == Ok([Record(t2, RecordUrl(u2))])
  {
    var m := map[u2 := Entry(Some(t2), None)];
    ProjectSecondOnly(u1, u2, m);
    PlainTitle(t2);
    assert MakeRecord(u2, m[u2]) == Record(t2, RecordUrl(u2));
    assert Records(Some(SummaryResult(Some([u1, u2]), m))) == Success([Record(t2, RecordUrl(u2))]);
    assert IdsOf(LookupWith([u1, u2]).body) == Some([u1, u2]);
  }

  /** Entries with only a `booktitle` are named by it. */
  lemma BooktitleNames(u1: string, u2: string, b1: string, b2: string)
    requires u1 != u2 && '&' !in b1 && '&' !in b2
    ensures SearchRun(Medicine(), LookupWith([u1, u2]),
              SummaryWith([u1, u2], map[u1 := Entry(None, Some(b1)), u2 := Entry(None, Some(b2))])).outcome
            == Ok([Record(b1, RecordUrl(u1)), Record(b2, RecordUrl(u2))])
  {
    var m := map[u1 := Entry(None, Some(b1)), u2 := Entry(None, Some(b2))];
    ProjectTwo(u1, u2, m);
    PlainTitle(b1);
    PlainTitle(b2);
    assert MakeRecord(u1, m[u1]) == Record(b1, RecordUrl(u1));
    assert MakeRecord(u2, m[u2]) == Record(b2, RecordUrl(u2));
    assert Records(Some(SummaryResult(Some([u1, u2]), m)))
           == Success([Record(b1, RecordUrl(u1)), Record(b2, RecordUrl(u2))]);
    assert IdsOf(LookupWith([u1, u2]).body) == Some([u1, u2]);
  }

  /** No query or an empty term: `{data: []}` at once, without a request. */
  lemma NoTermScenarios(first: Response<EsearchBody>, second: Response<EsummaryBody>)
    ensures SearchRun(None, first, second) == Run([], Ok([]))
    ensures SearchRun(Some(Query(Some(""))), first, second) == Run([], Ok([]))
    ensures SearchRun(Some(Query(None)), first, second) == Run([], Ok([]))
  {
  }

  /** No `esearchresult` or an empty `idlist`: `{data: []}` without an
      error and without a metadata request. */
  lemma NoIdsScenarios(second: Response<EsummaryBody>)
    ensures SearchRun(Medicine(), Parsed(EsearchBody(None)), second)
            == Run([EsearchRequest("medicine")], Ok([]))
    ensures SearchRun(Some(Query(Some("fhqwhgads"))), LookupWith([]), second)
            == Run([EsearchRequest("fhqwhgads")], Ok([]))
  {
  }

  /** Errors on the lookup or an unparsable metadata body: a transport
      failure or unparsable body is delivered as an error with no data. A
      failed lookup issues no metadata request; an unparsable metadata body
      comes after both requests. */
  lemma ErrorScenarios(second: Response<EsummaryBody>)
    ensures SearchRun(Medicine(), TransportFailure, second)
            == Run([EsearchRequest("medicine")], Error(Transport))
    ensures SearchRun(Medicine(), ParseFailure, second)
            == Run([EsearchRequest("medicine")], Error(Syntax))
    ensures SearchRun(Medicine(), LookupWith([Uid1, Uid2]), ParseFailure)
            == Run([EsearchRequest("medicine"), EsummaryRequest([Uid1, Uid2])], Error(Syntax))
  {
  }

  /** A metadata body without `result` gives `{data: []}` without an error. */
  lemma MissingResultScenario()
    ensures SearchRun(Medicine(), LookupWith([Uid1, Uid2]), Parsed(EsummaryBody(None))).outcome
            == Ok([])
  {
  }

  /** A transport failure on the metadata request is delivered as an error. */
  lemma SecondTransportScenario()
    ensures SearchRun(Medicine(), LookupWith([Uid1, Uid2]), TransportFailure).outcome
            == Error(Transport)
  {
  }
}
