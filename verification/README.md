# amalgamatic-pubmed search, modelled in Dafny

`exports.search(query, callback)` in `index.js` searches PubMed in two HTTP
steps. The esearch step looks a term up and yields an id list. The esummary
step fetches metadata for those ids. It then turns every listed uid with an
entry into a display record `{name, url}`: the name is the entry's `title`
(or `booktitle`) with `&lt;…&gt;` markup entities removed, and the url is a
fixed PubMed Retrieve link carrying the uid.

This project models that logic as pure functions and proves its properties:

- `Search` (`search.dfy`) models the whole call as a total function
  `SearchRun(query, first, second)`. The two network responses are inputs.
  A response is a transport failure, an unparsable body, a body that parses
  to `null`, or a parsed body. The result lists the requests actually issued
  and the single outcome the caller observes:
  - `Error(cause)` for `callback(e)`;
  - `Ok(data)` for `callback(null, {data})`;
  - `Thrown(uid)` when the handler throws on an entry that has no name.
- `Summary` (`summary.dfy`) models the projection of the esummary `result`
  into records (`Project`, `Records`) and the record link (`RecordUrl`, read
  back by `UidOf`).
- `EntityStrip` (`entity_strip.dfy`) models `name.replace(/&lt;.*?&gt;/g, '')`.
  The lazy match is the first `&gt;` reached on the same line (`CloseFrom`).
  The global replace is a left-to-right scan that resumes after each deletion
  (`Strip`).
- `QueryString` (`query_string.dfy`) models Node's
  `querystring.stringify({key: value})` for one string value, its
  `querystring.escape`, and `Array.prototype.join`:
  - escaping is UTF-8 percent-encoding with upper-case hex, applied to every
    character outside `A-Z a-z 0-9 - _ . ! ~ * ' ( )`;
  - `Split` is the inverse of `Join`.
- `Scenarios` (`scenarios.dfy`) restates the repository's test cases over
  the model.
- `Wrappers` and `Sequences` are small shared helpers (`Option`, `Result`,
  subsequence).

The callback convention is the one in `index.js`: `callback(e)` on an error,
`callback(null, {data})` otherwise. The test file calls the callback with a
single `result` argument and reads `result.error` from it. The model follows
the code and does not use that shape. The scenario lemmas state what the code
delivers for the responses each test sets up.

## Model

| member | source | states |
|---|---|---|
| Search.HasTerm | index.js:7 | The search goes ahead exactly when a query is given and its `searchTerm` is a non-empty string. |
| Search.EsearchRequest | index.js:12-16 | The lookup request goes to the fixed eutils host, at the esearch path `retmode=json&` followed by `term=` and the escaped term. |
| Search.EsummaryRequest | index.js:42-46 | The metadata request goes to the same host, at the esummary path `db=pubmed&retmode=json&` followed by `id=` and the escaped comma-joined ids. |
| Search.FailureCause | index.js:27-32 | A response that did not end in a parsed object is delivered as its error: the transport error, the parse error, or the error of reading a property of `null`. |
| Search.SummaryOutcome | index.js:56-81 | An unparsed metadata response gives its error. A parsed one gives `Ok` of the records, or `Thrown` when the projection fails. |
| Search.SearchRun | index.js:7-93 | An empty or missing term issues no request and gives `Ok([])`. Otherwise the esearch request goes first. A second request is issued exactly when the first body parsed and has a non-empty `idlist`, and it carries those ids. The outcome is an error exactly when a response that was asked for failed or did not parse. The error's cause is that of the lookup response if the lookup failed, otherwise that of the metadata response. When the metadata body parsed, a missing `result` or non-array `uids` gives `Ok([])`. Otherwise the outcome is `Ok` of the projected records, or `Thrown` at the first listed uid whose entry has no name. With fewer than two requests and no error, the data is empty. |
| Search.IdsOf | index.js:28-40 | Ids are passed on exactly when `esearchresult` is present and its `idlist` is a non-empty array, and then they are that `idlist` unchanged. |
| Search.SecondIgnoredUnlessRequested | index.js:27-40 | Without a second request, the metadata response cannot change the run, and the outcome is `Ok([])` or the first response's error. |
| Search.OutcomeFollowsMetadata | index.js:42-81 | Once ids are found, the outcome depends only on the metadata response. |
| Search.EsummaryIdParameter | index.js:36-46 | The esummary path is the fixed prefix, then `id=`, then each id escaped, joined by `%2C` in `idlist` order. |
| QueryString.Escape | index.js:15 | `querystring.escape`: each character is escaped on its own and the pieces are concatenated in order. The result is never shorter than the input. |
| QueryString.Param | index.js:45 | `querystring.stringify({key: value})` for one string value is the key, `=` and the escaped value. |
| QueryString.Join | index.js:36 | `Array.prototype.join`: the items in order with the separator between neighbours. An empty list gives `""` and a single item gives that item. |
| QueryString.EscapeIdentityIff | index.js:15 | Escaping leaves a string unchanged exactly when all its characters are unreserved. |
| QueryString.EscapeGrows | index.js:15 | A reserved character anywhere makes the escaped string at least two characters longer. |
| QueryString.EscapeAppend | index.js:45 | Escaping distributes over concatenation. |
| QueryString.EscapeComma | index.js:36-45 | The `,` between joined ids is sent as `%2C`. |
| QueryString.EscapeJoin | index.js:36-45 | Escaping a comma-joined list gives the escaped items joined by `%2C`. |
| QueryString.SplitJoin | index.js:36 | For a non-empty list whose items do not contain the separator, splitting the joined string recovers the list, items and order. |
| QueryString.Utf8 | index.js:15 | Encoding a character gives the number of bytes set by its code point, as in RFC 3629. A multi-byte form is a lead byte in the range legal for its length (`C2-DF`, `E0-EF`, `F0-F4`), then continuation bytes. |
| QueryString.Utf8Decodes | index.js:15 | Decoding the bytes of a character, with the bit layout of section 3 of RFC 3629, gives back its code point. |
| Summary.HasName | index.js:67-70 | The logical or of `title` and `booktitle` yields a string exactly when the title is a non-empty string or a booktitle is present. Otherwise `.replace` at index.js:70 throws. |
| Summary.RawName | index.js:67 | The name before clean-up is the title when it is non-empty, else the booktitle. |
| Summary.RecordUrl | index.js:74-75 | The record link is the fixed Retrieve prefix followed by `list_uids=` and the escaped uid. |
| Summary.MakeRecord | index.js:72-75 | A record is named by the stripped title-or-booktitle and linked by the record link of its uid. |
| Summary.Kept | index.js:64-66 | The uids with an entry form a subsequence of `uids` that contains every listed uid with an entry, and nothing else. |
| Summary.KeptCounts | index.js:65-66 | A uid with an entry is kept as often as it is listed, and one without an entry never is. Since `Project` gives one record per kept uid, a repeated uid gives repeated records. |
| Summary.Project | index.js:64-78 | Success exactly when every listed uid with an entry has a name. On success there is one record per kept uid, in order. Record k is named by the stripped title-or-booktitle of kept uid k and linked to that uid. On failure, the index is the first listed uid whose entry has no name. |
| Summary.Records | index.js:59-81 | A missing `result` or a non-array `uids` gives no records. Otherwise success matches `AllNamed`, the records are those of the projection (at most as many as uids), and a failure names the first listed uid whose entry has no name, which is where `forEach` throws. |
| Summary.ProjectConsPresent | index.js:65-76 | A listed uid with a named entry puts its record in front of the records of the rest. |
| Summary.ProjectConsAbsent | index.js:66 | A listed uid without an entry contributes nothing. |
| Summary.ProjectAppend | index.js:65-78 | The records of a concatenated uid list are the records of its first part followed by those of its second. |
| Summary.ProjectSkipsAbsent | index.js:66 | Projecting only the kept uids gives the same records. |
| Summary.KeptAppend | index.js:65-66 | Keeping distributes over concatenation. |
| Summary.KeptTwice | index.js:66 | Keeping is idempotent. |
| Summary.AttributionBeforeUid | index.js:74 | The fixed link prefix ends with the attribution parameters `tool=cdl&otool=cdlotool&`. |
| Summary.RecordUrlShape | index.js:74-75 | Every link starts with the Retrieve prefix. Reading the link back gives the escaped uid, which for an unreserved uid is the uid itself. |
| Summary.ProjectLinksCarryUids | index.js:72-75 | For unreserved uids, reading each record's link gives the kept uids in order. |
| EntityStrip.IsSpan | index.js:70 | A match of `&lt;.*?&gt;` at the start: `&lt;`, a run of characters without a line terminator, then `&gt;`. |
| EntityStrip.CloseFrom | index.js:70 | The lazy `.*?&gt;` ends at the first `&gt;` reached without crossing a line terminator, or finds none. |
| EntityStrip.SpanEnd | index.js:70 | Gives the shortest match anchored at the start, and none exactly when no prefix matches. |
| EntityStrip.Strip | index.js:70 | The output is never longer than the input. |
| EntityStrip.StripIsSubsequence | index.js:70 | The kept characters appear in the input in the same order. |
| EntityStrip.StripShrinksWhenSpan | index.js:70 | If the input holds a match anywhere, the output is at least eight characters shorter. |
| EntityStrip.StripKeepsSpanFree | index.js:70 | An input with no match comes back unchanged. |
| EntityStrip.StripFixedIff | index.js:70 | The strip changes nothing exactly when the input holds no match. |
| EntityStrip.StripWithoutOpen | index.js:70 | A string without `&lt;` is returned unchanged. |
| EntityStrip.StripKeepsPlainPrefix | index.js:70 | A prefix without `&` is copied through unchanged. |
| EntityStrip.StripDropsTag | index.js:70 | A single-line tag without `&` inside is deleted whole, and scanning resumes after it. |
| EntityStrip.StripTwoTags | index.js:69-70 | Plain words around two tags are kept in order while the tags disappear. |
| EntityStrip.StripExample | index.js:69-70 | `A &lt;i&gt;Simple&lt;/i&gt; Method` becomes `A Simple Method`. |
| EntityStrip.StripSplicesOpen | index.js:70 | Deleting a tag between `&l` and `t;` joins a new `&lt;` that the same pass does not delete. |
| EntityStrip.StripNotIdempotent | index.js:70 | For `&l&lt;a&gt;t;b&gt;`, one pass leaves `&lt;b&gt;` and a second pass leaves nothing, so the strip is not idempotent. |
| Scenarios.NoTermScenarios | test/index.js:28-40 | No query, or a query whose term is empty or missing, gives `{data: []}` without a request. |
| Scenarios.NoIdsScenarios | test/index.js:58-80 | A lookup body without `esearchresult`, or with an empty `idlist`, gives `{data: []}` without a metadata request. |
| Scenarios.ErrorScenarios | test/index.js:82-116 | A transport failure or an unparsable body on the lookup gives an error after one request, while an unparsable metadata body gives an error after both requests. |
| Scenarios.MissingResultScenario | test/index.js:118-132 | A metadata body without `result` gives `Ok([])`. |
| Scenarios.SecondTransportScenario | test/index.js:168-178 | A transport failure on the metadata request gives an error. |
| Scenarios.MedicineSearch | test/index.js:42-56 | The search for `medicine` issues exactly the two request paths the test expects. It yields the two titles in uid order, and each link carries its uid. |
| Scenarios.OmitsMissingEntry | test/index.js:134-148 | A listed uid without an entry is omitted, and the other keeps its record. |
| Scenarios.BooktitleNames | test/index.js:150-166 | Entries with only a `booktitle` are named by it. |
| Scenarios.DigitLinks | test/index.js:180-194 | The links of the two test uids read back to those uids. |

## Left out

- `http.get`, the `data`/`end` chunk accumulation and the `error` listeners are I/O. Each response is an input of `SearchRun`.
- `JSON.parse` is an input too: a body that does not parse is `ParseFailure`. The exact error messages (`Unexpected end of input`, …) are not modelled.
- HTTP status codes are not modelled, because `index.js` never looks at them.
- JSON values of other types are not modelled. The model covers ids and titles that are strings, `uids`/`idlist` that are arrays or absent, and entries that are objects. Numeric ids, non-string titles and array-valued entries are not represented.
- Uids that name a property the `result` object has besides its entries are not modelled. `uids` reads the uid array itself. Inherited keys such as `constructor`, `toString` or `__proto__` read a truthy value with neither `title` nor `booktitle`, and index.js:70 then throws. The model's entries hold only the listed records, so it skips such a uid instead.
- A second `callback` call is not modelled. One can happen when a transport error follows an already-handled response. The model delivers one outcome per run.
- After a throw (`Thrown`), the process-level effect of an uncaught exception is not modelled.
- Lone UTF-16 surrogates cannot be represented, because Dafny characters are Unicode scalar values. This applies to the search term, to an `idlist` element and to a uid. For such a string Node's `querystring.escape` throws. For an `idlist` element or a uid it throws outside any `try` (index.js:45 and 75).
- EntityStrip.Strip: its own contract states only the length bound. What the strip does is stated by the lemmas about it (`StripFixedIff`, `StripIsSubsequence`, `StripDropsTag`, …).
- Spelling suggestions, configurable options and a hosted-results link are not part of this `index.js`, so they are not modelled.
