/** The projection of an esummary `result` object into display records:
    one record per listed uid whose entry is present, in the order of the
    `uids` array, named by the cleaned `title` (or `booktitle`) and linked
    by a fixed Retrieve URL ending in `list_uids=<uid>`. */
module Summary {
  import opened Wrappers
  import opened Sequences
  import QueryString
  import EntityStrip

  /** One esummary entry as far as the projection reads it: each field is
      `None` when absent (undefined or null). */
  datatype Entry = Entry(title: Option<string>, booktitle: Option<string>)

  /** The `result` object: `uids` when it is an array (`None` otherwise),
      and the entries that are present under their uid keys. */
  datatype SummaryResult = SummaryResult(uids: Option<seq<string>>, entries: map<string, Entry>)

  /** One element of the callback's `data` array. */
  datatype Record = Record(name: string, url: string)

  /** The Retrieve link up to and including its fixed attribution
      parameters `tool=cdl&otool=cdlotool&`. */
  const RetrievePrefix: string :=
    "http://www.ncbi.nlm.nih.gov/entrez/query.fcgi?db=pubmed&cmd=Retrieve&dopt=AbstractPlus&query_hl=2&itool=pubmed_docsum&tool=cdl&otool=cdlotool&"

  const UidKey: string := "list_uids="

  /** A JavaScript string value is truthy unless it is empty. */
  predicate Truthy(v: Option<string>) {
    v.Some? && v.value != ""
  }

  /** `title || booktitle` yields a string: the title is truthy, or else a
      booktitle (possibly empty) is there. Otherwise it yields `undefined`
      and the following `.replace` throws. */
  predicate HasName(e: Entry) {
    Truthy(e.title) || e.booktitle.Some?
  }

  /** `title || booktitle`, before clean-up. */
  function RawName(e: Entry): string
    requires HasName(e)
  {
    if Truthy(e.title) then e.title.value else e.booktitle.value
  }

  /** The record link: the Retrieve prefix, then `list_uids=` and the
      escaped uid. */
  function RecordUrl(id: string): string {
    RetrievePrefix + QueryString.Param("list_uids", id)
  }

  function MakeRecord(id: string, e: Entry): Record
    requires HasName(e)
  {
    Record(EntityStrip.Strip(RawName(e)), RecordUrl(id))
  }

  /** The uids whose entry is present, in their listed order. */
  function Kept(uids: seq<string>, entries: map<string, Entry>): (r: seq<string>)
    ensures IsSubsequence(r, uids) && |r| <= |uids|
    ensures forall k :: 0 <= k < |r| ==> r[k] in entries
    ensures forall i :: 0 <= i < |uids| && uids[i] in entries ==> uids[i] in r
    decreases |uids|
  {
    if |uids| == 0 then []
    else if uids[0] in entries then [uids[0]] + Kept(uids[1..], entries)
    else Kept(uids[1..], entries)
  }

  /** Keeping preserves multiplicity: a uid with an entry is kept as often
      as it is listed, one without is never kept. */
  lemma {:induction false} KeptCounts(uids: seq<string>, entries: map<string, Entry>)
    ensures forall x :: multiset(Kept(uids, entries))[x]
                        == if x in entries then multiset(uids)[x] else 0
    decreases |uids|
  {
    if |uids| > 0 {
      KeptCounts(uids[1..], entries);
      assert uids == [uids[0]] + uids[1..];
    }
  }

  /** Every present entry among the listed uids yields a name. */
  predicate AllNamed(uids: seq<string>, entries: map<string, Entry>) {
    forall i :: 0 <= i < |uids| && uids[i] in entries ==> HasName(entries[uids[i]])
  }

  /** The `uids.forEach` loop. On success the records are exactly those of
      the kept uids, in order: the k-th record is named by the cleaned
      title-or-booktitle of the k-th kept uid and linked to that uid. On
      failure the error is the index of the first listed uid whose present
      entry has no name, which is where the loop throws. */
  function Project(uids: seq<string>, entries: map<string, Entry>): (r: Result<seq<Record>, nat>)
    ensures r.Success? <==> AllNamed(uids, entries)
    ensures r.Success? ==>
              && |r.value| == |Kept(uids, entries)|
              && forall k :: 0 <= k < |r.value| ==>
                   var id := Kept(uids, entries)[k];
                   && HasName(entries[id])
                   && r.value[k].name == EntityStrip.Strip(RawName(entries[id]))
                   && r.value[k].url == RecordUrl(id)
    ensures r.Failure? ==>
              && r.error < |uids|
              && uids[r.error] in entries
              && !HasName(entries[uids[r.error]])
              && AllNamed(uids[..r.error], entries)
    decreases |uids|
  {
    if |uids| == 0 then Success([])
    else
      var id := uids[0];
      match Project(uids[1..], entries)
      case Failure(i) =>
        if id in entries && !HasName(entries[id]) then Failure(0)
        else
          assert uids[1..][..i] == uids[1..i + 1];
          Failure(i + 1)
      case Success(rest) =>
        if id !in entries then Success(rest)
        else if !HasName(entries[id]) then Failure(0)
        else Success([MakeRecord(id, entries[id])] + rest)
  }

  /** The records of a summary `result`: none when it is missing or its
      `uids` is not an array; otherwise the projection, whose failure names
      the uid at which the loop throws. */
  function Records(result: Option<SummaryResult>): (r: Result<seq<Record>, string>)
    ensures result.None? || result.value.uids.None? ==> r == Success([])
    ensures result.Some? && result.value.uids.Some? ==>
              (r.Success? <==> AllNamed(result.value.uids.value, result.value.entries))
    ensures r.Success? ==> result.Some? ==> result.value.uids.Some? ==>
              |r.value| <= |result.value.uids.value|
    ensures r.Failure? ==>
              && result.Some? && result.value.uids.Some?
              && r.error in result.value.uids.value && r.error in result.value.entries
              && !HasName(result.value.entries[r.error])
    ensures result.Some? && result.value.uids.Some? ==>
              var p := Project(result.value.uids.value, result.value.entries);
              && (r.Success? ==> r.value == p.value)
              && (r.Failure? ==> r.error == result.value.uids.value[p.error])
  {
    match result
    case None => Success([])
    case Some(res) =>
      match res.uids
      case None => Success([])
      case Some(uids) =>
        match Project(uids, res.entries)
        case Success(data) => Success(data)
        case Failure(i) => Failure(uids[i])
  }

  /** One step of the loop: a present, named entry contributes its record
      in front of the rest. */
  lemma ProjectConsPresent(id: string, rest: seq<string>, entries: map<string, Entry>)
    requires id in entries && HasName(entries[id])
    requires Project(rest, entries).Success?
    ensures Project([id] + rest, entries)
            == Success([MakeRecord(id, entries[id])] + Project(rest, entries).value)
  {
    assert ([id] + rest)[0] == id;
    assert ([id] + rest)[1..] == rest;
  }

  /** One step of the loop: a uid without an entry contributes nothing. */
  lemma ProjectConsAbsent(id: string, rest: seq<string>, entries: map<string, Entry>)
    requires id !in entries
    requires Project(rest, entries).Success?
    ensures Project([id] + rest, entries) == Project(rest, entries)
  {
    assert ([id] + rest)[0] == id;
    assert ([id] + rest)[1..] == rest;
  }

  /** The uid read back from a record link: what follows `list_uids=` after
      the Retrieve prefix. */
  function UidOf(url: string): Option<string> {
    var head := RetrievePrefix + UidKey;
    if |head| <= |url| && url[..|head|] == head then Some(url[|head|..]) else None
  }

  /** The fixed attribution parameters are the last ones of the prefix, so
      they come before `list_uids` in every record link. */
  lemma AttributionBeforeUid()
    ensures RetrievePrefix[|RetrievePrefix| - 24..] == "tool=cdl&otool=cdlotool&"
  {
  }

  /** Every record link starts with the fixed Retrieve prefix; reading the
      link back gives the escaped uid, which is the uid itself for
      unreserved (for instance all-digit) uids. */
  lemma RecordUrlShape(id: string)
    ensures RetrievePrefix <= RecordUrl(id)
    ensures UidOf(RecordUrl(id)) == Some(QueryString.Escape(id))
    ensures QueryString.AllUnreserved(id) ==> UidOf(RecordUrl(id)) == Some(id)
  {
    var head := RetrievePrefix + UidKey;
    var escaped := QueryString.Escape(id);
    assert "list_uids" + "=" == UidKey;
    assert RecordUrl(id) == head + escaped;
    assert (head + escaped)[..|head|] == head;
    assert (head + escaped)[|head|..] == escaped;
    assert (head + escaped)[..|RetrievePrefix|] == RetrievePrefix;
    QueryString.EscapeIdentityIff(id);
  }

  /** For all-digit uids, reading the uid back out of each record link
      gives the kept uids in their listed order. */
  lemma ProjectLinksCarryUids(uids: seq<string>, entries: map<string, Entry>)
    requires forall i :: 0 <= i < |uids| ==> QueryString.AllUnreserved(uids[i])
    requires Project(uids, entries).Success?
    ensures var data := Project(uids, entries).value;
            forall k :: 0 <= k < |data| ==> UidOf(data[k].url) == Some(Kept(uids, entries)[k])
  {
    var data := Project(uids, entries).value;
    var kept := Kept(uids, entries);
    forall k | 0 <= k < |data|
      ensures UidOf(data[k].url) == Some(kept[k])
    {
      KeptUnreserved(uids, entries);
      RecordUrlShape(kept[k]);
    }
  }

  lemma {:induction false} KeptUnreserved(uids: seq<string>, entries: map<string, Entry>)
    requires forall i :: 0 <= i < |uids| ==> QueryString.AllUnreserved(uids[i])
    ensures forall k :: 0 <= k < |Kept(uids, entries)| ==> QueryString.AllUnreserved(Kept(uids, entries)[k])
    decreases |uids|
  {
    if |uids| > 0 {
      KeptUnreserved(uids[1..], entries);
    }
  }

  /** Keeping distributes over concatenation of uid lists. */
  lemma {:induction false} KeptAppend(a: seq<string>, b: seq<string>, entries: map<string, Entry>)
    ensures Kept(a + b, entries) == Kept(a, entries) + Kept(b, entries)
    decreases |a|
  {
    if |a| == 0 {
      assert a + b == b;
    } else {
      assert (a + b)[0] == a[0];
      assert (a + b)[1..] == a[1..] + b;
      KeptAppend(a[1..], b, entries);
    }
  }

  /** Projection is order-preserving: the records of a concatenated uid list
      are the records of its first part followed by those of its second. */
  lemma ProjectAppend(a: seq<string>, b: seq<string>, entries: map<string, Entry>)
    requires Project(a + b, entries).Success?
    ensures Project(a, entries).Success? && Project(b, entries).Success?
    ensures Project(a + b, entries).value == Project(a, entries).value + Project(b, entries).value
  {
    forall i | 0 <= i < |a| && a[i] in entries
      ensures HasName(entries[a[i]])
    {
      assert a[i] == (a + b)[i];
    }
    forall i | 0 <= i < |b| && b[i] in entries
      ensures HasName(entries[b[i]])
    {
      assert b[i] == (a + b)[|a| + i];
    }
    KeptAppend(a, b, entries);
    var ka, kb := Kept(a, entries), Kept(b, entries);
    var pa, pb := Project(a, entries).value, Project(b, entries).value;
    var pab := Project(a + b, entries).value;
    assert |pab| == |pa| + |pb|;
    forall k | 0 <= k < |pab|
      ensures pab[k] == (pa + pb)[k]
    {
      if k < |ka| {
        assert (ka + kb)[k] == ka[k];
      } else {
        assert (ka + kb)[k] == kb[k - |ka|];
      }
    }
  }

  /** Uids without an entry contribute nothing: projecting only the kept
      uids gives the same records. */
  lemma ProjectSkipsAbsent(uids: seq<string>, entries: map<string, Entry>)
    requires Project(uids, entries).Success?
    ensures Project(Kept(uids, entries), entries) == Project(uids, entries)
  {
    KeptTwice(uids, entries);
    var kept := Kept(uids, entries);
    assert AllNamed(kept, entries);
  }

  lemma {:induction false} KeptTwice(uids: seq<string>, entries: map<string, Entry>)
    ensures Kept(Kept(uids, entries), entries) == Kept(uids, entries)
    decreases |uids|
  {
    if |uids| > 0 {
      KeptTwice(uids[1..], entries);
      var rest := Kept(uids[1..], entries);
      if uids[0] in entries {
        assert ([uids[0]] + rest)[1..] == rest;
      }
    }
  }
}
