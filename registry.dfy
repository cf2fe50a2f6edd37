/** The Companies House client: the retrying request, the paged advanced
    search (by SIC code or by company name), the union over several SIC codes,
    the normalisation of one search item into a flat company record, and the
    sorted listing of the SIC code table.

    The HTTP server is a parameter: for each request (its query parameters)
    and each attempt number it answers with an HTTP status and, on success, a
    decoded search page.  Sleeping is recorded as a log of delays. */
module Registry {
  import opened Records
  import opened Strings
  import opened Seqs
  import Filters

  /** Page size asked of the search endpoint. */
  const ItemsPerPage: nat := 500
  /** The search endpoint serves no result at or beyond this index. */
  const ResultWindowCap: nat := 10000
  /** Attempts `_make_request` makes before giving up. */
  const MaxRetries: nat := 3

  // ---------------------------------------------------------------------------
  // The SIC code table
  // ---------------------------------------------------------------------------

  /** Code -> description, as the module-level dictionary. */
  type SicTable = map<string, string>

  /** A few entries of the table, those the truck-tyre search and the tests use. */
  const SampleSicTable: SicTable := map[
    "01110" := "Growing of cereals and other crops",
    "22110" := "Manufacture of rubber tyres and tubes",
    "45200" := "Maintenance and repair of motor vehicles",
    "45310" := "Wholesale trade of motor vehicle parts and accessories",
    "45320" := "Retail trade of motor vehicle parts and accessories",
    "99999" := "Dormant Company"
  ]

  /** `SIC_DESCRIPTIONS.get(code, 'Unknown')`. */
  function Describe(table: SicTable, code: string): string {
    if code in table then table[code] else "Unknown"
  }

  /** The description of each code, in the order of the codes. */
  function Descriptions(table: SicTable, codes: seq<string>): (r: seq<string>)
    ensures |r| == |codes|
    ensures forall i :: 0 <= i < |codes| ==> r[i] == Describe(table, codes[i])
    decreases |codes|
  {
    if |codes| == 0 then []
    else Descriptions(table, codes[..|codes| - 1]) + [Describe(table, codes[|codes| - 1])]
  }

  /** `k` comes before every other element of `keys`. */
  predicate IsLeast(k: string, keys: set<string>) {
    k in keys && forall o | o in keys && o != k :: LexLess(k, o)
  }

  lemma LexLessAsymmetric()
    ensures forall a: string, b: string :: LexLess(a, b) ==> !LexLess(b, a)
  {
    forall a: string, b: string | LexLess(a, b)
      ensures !LexLess(b, a)
    {
      if LexLess(b, a) {
        LexLessTransitive(a, b, a);
        LexLessIrreflexive(a);
      }
    }
  }

  /** Every non-empty finite set of strings has a least element. */
  lemma {:induction false} LeastExists(keys: set<string>)
    requires keys != {}
    ensures exists k :: IsLeast(k, keys)
    decreases |keys|
  {
    var x :| x in keys;
    if keys == {x} {
      assert IsLeast(x, keys);
    } else {
      var rest := keys - {x};
      LeastExists(rest);
      var m :| IsLeast(m, rest);
      if LexLess(x, m) {
        forall o | o in keys && o != x
          ensures LexLess(x, o)
        {
          if o != m {
            LexLessTransitive(x, m, o);
          }
        }
        assert IsLeast(x, keys);
      } else {
        LexLessTotal(x, m);
        assert IsLeast(m, keys);
      }
    }
  }

  function LeastCode(keys: set<string>): (k: string)
    requires keys != {}
    ensures IsLeast(k, keys)
  {
    LeastExists(keys);
    LexLessAsymmetric();
    var k :| IsLeast(k, keys);
    k
  }

  /** `sorted(keys)`: every key once, in strictly ascending order. */
  function SortedCodes(keys: set<string>): (r: seq<string>)
    ensures |r| == |keys|
    ensures forall i :: 0 <= i < |r| ==> r[i] in keys
    ensures forall c :: c in keys ==> c in r
    ensures forall i, j :: 0 <= i < j < |r| ==> LexLess(r[i], r[j])
    decreases |keys|
  {
    if keys == {} then []
    else
      var k := LeastCode(keys);
      [k] + SortedCodes(keys - {k})
  }

  /** One entry of the listing served to the front end. */
  datatype SicCodeEntry = SicCodeEntry(code: string, description: string)

  /** `get_all_sic_codes`: the table's entries sorted by code. */
  function GetAllSicCodes(table: SicTable): (r: seq<SicCodeEntry>)
    ensures |r| == |table|
    ensures forall i :: 0 <= i < |r| ==> r[i].code in table && r[i].description == table[r[i].code]
    ensures forall code :: code in table ==> exists i :: 0 <= i < |r| && r[i].code == code
    ensures forall i, j :: 0 <= i < j < |r| ==> LexLess(r[i].code, r[j].code)
  {
    var codes := SortedCodes(table.Keys);
    assert |table.Keys| == |table|;
    var r := seq(|codes|, i requires 0 <= i < |codes| => SicCodeEntry(codes[i], table[codes[i]]));
    EntriesCoverCodes(r, codes, table.Keys);
    r
  }

  /** A listing whose codes are, position by position, a sequence holding
      every key holds an entry for every key. */
  lemma EntriesCoverCodes(r: seq<SicCodeEntry>, codes: seq<string>, keys: set<string>)
    requires |r| == |codes| && forall i :: 0 <= i < |r| ==> r[i].code == codes[i]
    requires forall c :: c in keys ==> c in codes
    ensures forall code :: code in keys ==> exists i :: 0 <= i < |r| && r[i].code == code
  {
    forall code | code in keys
      ensures exists i :: 0 <= i < |r| && r[i].code == code
    {
      var i :| 0 <= i < |codes| && codes[i] == code;
      assert r[i].code == code;
    }
  }

  // ---------------------------------------------------------------------------
  // Normalising one search item
  // ---------------------------------------------------------------------------

  /** An item of a search page: its top-level text fields, its SIC codes and
      its registered office address. */
  datatype RawItem = RawItem(fields: map<string, string>, sicCodes: seq<string>, address: map<string, string>)

  /** `d.get(key, '')`. */
  function Get(m: map<string, string>, key: string): string {
    if key in m then m[key] else ""
  }

  const AddressKeys: seq<string> := [AddressLine1, AddressLine2, Locality, Region, PostalCode, Country]

  function AddressParts(address: map<string, string>): seq<string> {
    seq(|AddressKeys|, i requires 0 <= i < |AddressKeys| => Get(address, AddressKeys[i]))
  }

  predicate NonEmptyText(s: string) {
    s != ""
  }

  /** `_format_address`: the non-empty address parts joined by ", ". */
  function FormatAddress(address: map<string, string>): string {
    Join(Filter(AddressParts(address), NonEmptyText), ", ")
  }

  /** The formatted address is empty exactly when every part is, and it
      contains every non-empty part. */
  lemma FormatAddressProperties(address: map<string, string>)
    ensures FormatAddress(address) == "" <==>
      forall k :: 0 <= k < |AddressKeys| ==> Get(address, AddressKeys[k]) == ""
    ensures forall k :: 0 <= k < |AddressKeys| && Get(address, AddressKeys[k]) != "" ==>
      Contains(FormatAddress(address), Get(address, AddressKeys[k]))
  {
    var parts := AddressParts(address);
    var kept := Filter(parts, NonEmptyText);
    FilterSatisfies(parts, NonEmptyText);
    JoinContainsParts(kept, ", ");
    forall k | 0 <= k < |AddressKeys| && Get(address, AddressKeys[k]) != ""
      ensures Get(address, AddressKeys[k]) in kept
    {
      FilterMembership(parts, NonEmptyText, parts[k]);
    }
    if |kept| > 0 {
      JoinStartsWithFirst(kept, ", ");
      assert NonEmptyText(kept[0]);
      assert FormatAddress(address) != "";
      var x := kept[0];
      FilterMembership(parts, NonEmptyText, x);
      var k :| 0 <= k < |parts| && parts[k] == x;
      assert Get(address, AddressKeys[k]) != "";
    } else {
      forall k | 0 <= k < |AddressKeys|
        ensures Get(address, AddressKeys[k]) == ""
      {
        FilterMembership(parts, NonEmptyText, parts[k]);
      }
    }
  }

  /** `', '.join(xs) if xs else ''`. */
  function JoinedList(xs: seq<string>): string {
    if |xs| == 0 then "" else Join(xs, ", ")
  }

  /** `_process_company`: the flat record built from one search item. */
  function ProcessCompany(table: SicTable, item: RawItem): (r: Record)
    ensures Number(r) == Get(item.fields, CompanyNumber)
    ensures Text(r, FullAddress) == FormatAddress(item.address)
    ensures Text(r, SicDescriptionsField) == JoinedList(Descriptions(table, item.sicCodes))
  {
    var descriptions := Descriptions(table, item.sicCodes);
    map[
      SicCodesField := Str(JoinedList(item.sicCodes)),
      SicDescriptionsField := Str(JoinedList(descriptions)),
      CompanyNumber := Str(Get(item.fields, CompanyNumber)),
      CompanyName := Str(Get(item.fields, CompanyName)),
      CompanyStatus := Str(Get(item.fields, CompanyStatus)),
      CompanyType := Str(Get(item.fields, CompanyType)),
      DateOfCreation := Str(Get(item.fields, DateOfCreation)),
      AddressLine1 := Str(Get(item.address, AddressLine1)),
      AddressLine2 := Str(Get(item.address, AddressLine2)),
      Locality := Str(Get(item.address, Locality)),
      Region := Str(Get(item.address, Region)),
      PostalCode := Str(Get(item.address, PostalCode)),
      Country := Str(Get(item.address, Country)),
      FullAddress := Str(FormatAddress(item.address))
    ]
  }

  /** A company number or name the item lacks is "" in the normalised record. */
  lemma ProcessCompanyIdentityDefaults(table: SicTable, item: RawItem)
    ensures var r := ProcessCompany(table, item);
      && (CompanyNumber !in item.fields ==> Text(r, CompanyNumber) == "")
      && (CompanyName !in item.fields ==> Text(r, CompanyName) == "")
  {
    var r := ProcessCompany(table, item);
    assert r[CompanyName] == Str(Get(item.fields, CompanyName));
  }

  /** A status, type or creation date the item lacks is "" in the normalised
      record. */
  lemma ProcessCompanyDefaults(table: SicTable, item: RawItem)
    ensures var r := ProcessCompany(table, item);
      && (CompanyStatus !in item.fields ==> Text(r, CompanyStatus) == "")
      && (CompanyType !in item.fields ==> Text(r, CompanyType) == "")
      && (DateOfCreation !in item.fields ==> Text(r, DateOfCreation) == "")
  {
    var r := ProcessCompany(table, item);
    assert r[CompanyStatus] == Str(Get(item.fields, CompanyStatus));
    assert r[CompanyType] == Str(Get(item.fields, CompanyType));
    assert r[DateOfCreation] == Str(Get(item.fields, DateOfCreation));
  }

  /** No SIC codes give "" for both the codes and the descriptions. */
  lemma ProcessCompanyNoSicCodes(table: SicTable, item: RawItem)
    requires item.sicCodes == []
    ensures Text(ProcessCompany(table, item), SicCodesField) == ""
    ensures Text(ProcessCompany(table, item), SicDescriptionsField) == ""
  {
  }

  /** An address line or locality the item lacks is "" in the normalised
      record. */
  lemma ProcessCompanyAddressDefaults(table: SicTable, item: RawItem)
    ensures var r := ProcessCompany(table, item);
      && (AddressLine1 !in item.address ==> Text(r, AddressLine1) == "")
      && (AddressLine2 !in item.address ==> Text(r, AddressLine2) == "")
      && (Locality !in item.address ==> Text(r, Locality) == "")
  {
  }

  /** A region, postal code or country the item lacks is "" in the normalised
      record. */
  lemma ProcessCompanyAreaDefaults(table: SicTable, item: RawItem)
    ensures var r := ProcessCompany(table, item);
      && (Region !in item.address ==> Text(r, Region) == "")
      && (PostalCode !in item.address ==> Text(r, PostalCode) == "")
      && (Country !in item.address ==> Text(r, Country) == "")
  {
  }

  /** Each SIC code of a normalised record is described in the same position
      of its description list: the description list is empty exactly when the
      code list is, and every description that is not "Unknown" is the table's. */
  lemma SicDescriptionsAligned(table: SicTable, item: RawItem)
    requires forall c | c in table :: table[c] != ""
    ensures (Text(ProcessCompany(table, item), SicDescriptionsField) == "") <==> item.sicCodes == []
    ensures forall i :: 0 <= i < |item.sicCodes| && item.sicCodes[i] in table ==>
      Contains(Text(ProcessCompany(table, item), SicDescriptionsField), table[item.sicCodes[i]])
  {
    var descriptions := Descriptions(table, item.sicCodes);
    JoinContainsParts(descriptions, ", ");
    if |descriptions| > 0 {
      JoinStartsWithFirst(descriptions, ", ");
      assert descriptions[0] != "" by {
        if item.sicCodes[0] !in table {
          assert descriptions[0] == "Unknown";
        }
      }
    }
    forall i | 0 <= i < |item.sicCodes| && item.sicCodes[i] in table
      ensures Contains(Text(ProcessCompany(table, item), SicDescriptionsField), table[item.sicCodes[i]])
    {
      assert descriptions[i] == table[item.sicCodes[i]];
    }
  }

  // ---------------------------------------------------------------------------
  // The retrying request
  // ---------------------------------------------------------------------------

  /** A decoded search page: its items and, when present, its `hits` total. */
  datatype SearchPage = SearchPage(items: seq<RawItem>, hits: Option<int>)

  /** What one attempt of a GET yields: an HTTP status with the decoded body,
      or a transport failure (connection error, timeout). */
  datatype Outcome = Http(status: int, page: SearchPage) | TransportError

  /** The pauses the client takes: the long back-off after a 429, the short
      pause before retrying another failure, and the pause between pages. */
  datatype Delay = RateLimitBackoff | RetryPause | PageDelay

  /** The answer of `_make_request`, the pauses it took and the number of
      attempts it made. */
  datatype RequestResult = RequestResult(body: Option<SearchPage>, delays: seq<Delay>, attempts: nat)

  predicate IsStatus(o: Outcome, code: int) {
    o.Http? && o.status == code
  }

  /** An outcome after which no further attempt is made. */
  predicate Final(o: Outcome) {
    IsStatus(o, 200) || IsStatus(o, 404) || IsStatus(o, 416)
  }

  /** The request from attempt number `attempt` on, `respond(k)` being the
      outcome of attempt `k`. */
  function RequestFrom(respond: nat -> Outcome, attempt: nat): RequestResult
    decreases MaxRetries - attempt
  {
    if attempt >= MaxRetries then RequestResult(None, [], attempt)
    else
      var outcome := respond(attempt);
      if IsStatus(outcome, 200) then RequestResult(Some(outcome.page), [], attempt + 1)
      else if IsStatus(outcome, 416) then RequestResult(None, [], attempt + 1)
      else if IsStatus(outcome, 429) then
        var rest := RequestFrom(respond, attempt + 1);
        RequestResult(rest.body, [RateLimitBackoff] + rest.delays, rest.attempts)
      else if IsStatus(outcome, 404) then RequestResult(None, [], attempt + 1)
      else if attempt < MaxRetries - 1 then
        var rest := RequestFrom(respond, attempt + 1);
        RequestResult(rest.body, [RetryPause] + rest.delays, rest.attempts)
      else RequestResult(None, [], attempt + 1)
  }

  function Prepend(delays: seq<Delay>, r: RequestResult): RequestResult {
    RequestResult(r.body, delays + r.delays, r.attempts)
  }

  /** A retry after the pause `d` adds the pause to the log of the rest. */
  lemma PrependRetry(delays: seq<Delay>, d: Delay, rest: RequestResult)
    ensures Prepend(delays, RequestResult(rest.body, [d] + rest.delays, rest.attempts))
         == Prepend(delays + [d], rest)
  {
    assert delays + ([d] + rest.delays) == (delays + [d]) + rest.delays;
  }

  /** `_make_request`: at most `MaxRetries` attempts. */
  method MakeRequest(respond: nat -> Outcome) returns (body: Option<SearchPage>, delays: seq<Delay>, attempts: nat)
    ensures RequestResult(body, delays, attempts) == RequestFrom(respond, 0)
  {
    delays := [];
    for attempt := 0 to MaxRetries
      invariant RequestFrom(respond, 0) == Prepend(delays, RequestFrom(respond, attempt))
    {
      var outcome := respond(attempt);
      if IsStatus(outcome, 200) {
        return Some(outcome.page), delays, attempt + 1;
      } else if IsStatus(outcome, 416) {
        return None, delays, attempt + 1;
      } else if IsStatus(outcome, 429) {
        PrependRetry(delays, RateLimitBackoff, RequestFrom(respond, attempt + 1));
        delays := delays + [RateLimitBackoff];
      } else if IsStatus(outcome, 404) {
        return None, delays, attempt + 1;
      } else if attempt < MaxRetries - 1 {
        PrependRetry(delays, RetryPause, RequestFrom(respond, attempt + 1));
        delays := delays + [RetryPause];
      } else {
        return None, delays, attempt + 1;
      }
    }
    return None, delays, MaxRetries;
  }

  /** Between one and `MaxRetries` attempts are made; every attempt but the
      last was retryable; stopping early means the last outcome was final;
      and a body is returned exactly when the last attempt was a 200, whose
      page it is. */
  lemma {:induction false} RequestProperties(respond: nat -> Outcome, attempt: nat)
    requires attempt < MaxRetries
    ensures var r := RequestFrom(respond, attempt);
      && attempt + 1 <= r.attempts <= MaxRetries
      && (forall k :: attempt <= k < r.attempts - 1 ==> !Final(respond(k)))
      && (r.attempts < MaxRetries ==> Final(respond(r.attempts - 1)))
      && (r.body.Some? <==> IsStatus(respond(r.attempts - 1), 200))
      && (r.body.Some? ==> r.body.value == respond(r.attempts - 1).page)
    decreases MaxRetries - attempt
  {
    var outcome := respond(attempt);
    if !Final(outcome) && attempt + 1 < MaxRetries {
      RequestProperties(respond, attempt + 1);
    }
  }

  /** A 404 or a 416 ends the request at once, without a retry or a pause. */
  lemma NotFoundIsNotRetried(respond: nat -> Outcome)
    requires IsStatus(respond(0), 404) || IsStatus(respond(0), 416)
    ensures RequestFrom(respond, 0) == RequestResult(None, [], 1)
  {
  }

  /** A 429 uses up an attempt: three of them in a row give up, after three
      back-offs, without a fourth attempt. */
  lemma RateLimitUsesAttempts(respond: nat -> Outcome)
    requires forall k :: 0 <= k < MaxRetries ==> IsStatus(respond(k), 429)
    ensures RequestFrom(respond, 0) ==
      RequestResult(None, [RateLimitBackoff, RateLimitBackoff, RateLimitBackoff], MaxRetries)
  {
    assert IsStatus(respond(0), 429) && IsStatus(respond(1), 429) && IsStatus(respond(2), 429);
  }

  /** Any other failure is retried after a short pause, except on the last
      attempt, after which there is no pause. */
  lemma ServerErrorsAreRetried(respond: nat -> Outcome)
    requires forall k :: 0 <= k < MaxRetries ==> respond(k) == TransportError
    ensures RequestFrom(respond, 0) == RequestResult(None, [RetryPause, RetryPause], MaxRetries)
  {
    assert respond(0) == TransportError && respond(1) == TransportError && respond(2) == TransportError;
  }

  // ---------------------------------------------------------------------------
  // The paged search
  // ---------------------------------------------------------------------------

  /** What is searched for: companies with a SIC code, or companies whose name
      matches a term. */
  datatype Query = BySicCode(code: string) | ByName(term: string)

  /** The query parameters of one search request. */
  datatype Params = Params(query: Query, size: nat, startIndex: nat, companyStatus: Option<string>)

  /** The server: the outcome of each attempt of each request. */
  type Server = Params -> nat -> Outcome

  function BuildParams(query: Query, activeOnly: bool, start: nat): Params {
    Params(query, ItemsPerPage, start, if activeOnly then Some("active") else None)
  }

  /** `response.get('hits', 0)`. */
  function HitsOf(page: SearchPage): int {
    match page.hits
    case Some(h) => h
    case None => 0
  }

  function ProcessAll(table: SicTable, items: seq<RawItem>): (r: seq<Record>)
    ensures |r| == |items|
  {
    seq(|items|, j requires 0 <= j < |items| => ProcessCompany(table, items[j]))
  }

  /** The records a paged search collects, the requests it sends and the
      pauses it takes. */
  datatype PagingResult = PagingResult(companies: seq<Record>, requests: seq<Params>, delays: seq<Delay>)

  function Then(a: PagingResult, b: PagingResult): PagingResult {
    PagingResult(a.companies + b.companies, a.requests + b.requests, a.delays + b.delays)
  }

  lemma ThenAssociative(a: PagingResult, b: PagingResult, c: PagingResult)
    ensures Then(Then(a, b), c) == Then(a, Then(b, c))
  {
    assert (a.companies + b.companies) + c.companies == a.companies + (b.companies + c.companies);
    assert (a.requests + b.requests) + c.requests == a.requests + (b.requests + c.requests);
    assert (a.delays + b.delays) + c.delays == a.delays + (b.delays + c.delays);
  }

  /** The paged search from index `start` on: a failed request or an empty
      page ends it; otherwise the page's items are kept and the search goes
      on from the next index unless that reaches the reported total or the
      result window. */
  function Paginate(server: Server, table: SicTable, query: Query, activeOnly: bool, start: nat): PagingResult
    decreases ResultWindowCap - start
  {
    var params := BuildParams(query, activeOnly, start);
    var response := RequestFrom(server(params), 0);
    if response.body.None? || |response.body.value.items| == 0 then
      PagingResult([], [params], response.delays)
    else
      var items := response.body.value.items;
      var next := start + |items|;
      if next >= HitsOf(response.body.value) || next >= ResultWindowCap then
        PagingResult(ProcessAll(table, items), [params], response.delays)
      else
        var rest := Paginate(server, table, query, activeOnly, next);
        PagingResult(ProcessAll(table, items) + rest.companies, [params] + rest.requests,
                     response.delays + [PageDelay] + rest.delays)
  }

  /** The records of one page, each item normalised, in page order. */
  method ProcessItems(table: SicTable, items: seq<RawItem>) returns (records: seq<Record>)
    ensures records == ProcessAll(table, items)
  {
    records := [];
    for j := 0 to |items|
      invariant records == ProcessAll(table, items[..j])
    {
      assert ProcessAll(table, items[..j + 1]) == ProcessAll(table, items[..j]) + [ProcessCompany(table, items[j])];
      records := records + [ProcessCompany(table, items[j])];
    }
    assert items[..|items|] == items;
  }

  /** One step of the paged search that ends it. */
  lemma PaginateStops(server: Server, table: SicTable, query: Query, activeOnly: bool, start: nat)
    requires var response := RequestFrom(server(BuildParams(query, activeOnly, start)), 0);
      || response.body.None? || |response.body.value.items| == 0
      || start + |response.body.value.items| >= HitsOf(response.body.value)
      || start + |response.body.value.items| >= ResultWindowCap
    ensures var params := BuildParams(query, activeOnly, start);
      var response := RequestFrom(server(params), 0);
      Paginate(server, table, query, activeOnly, start) ==
        PagingResult(if response.body.None? then [] else ProcessAll(table, response.body.value.items),
                     [params], response.delays)
  {
  }

  /** One step of the paged search that goes on to the next page. */
  lemma PaginateContinues(server: Server, table: SicTable, query: Query, activeOnly: bool, start: nat)
    requires var response := RequestFrom(server(BuildParams(query, activeOnly, start)), 0);
      && response.body.Some? && |response.body.value.items| > 0
      && start + |response.body.value.items| < HitsOf(response.body.value)
      && start + |response.body.value.items| < ResultWindowCap
    ensures var params := BuildParams(query, activeOnly, start);
      var response := RequestFrom(server(params), 0);
      var items := response.body.value.items;
      Paginate(server, table, query, activeOnly, start) ==
        Then(PagingResult(ProcessAll(table, items), [params], response.delays + [PageDelay]),
             Paginate(server, table, query, activeOnly, start + |items|))
  {
  }

  /** One pass of the paging loop's body: request the page at `startIndex`
      and normalise its items; `next` is the index to go on from, or `None`
      when the loop stops after this page. */
  method FetchPage(server: Server, table: SicTable, query: Query, activeOnly: bool, startIndex: nat)
    returns (params: Params, waits: seq<Delay>, page: seq<Record>, next: Option<nat>)
    ensures params == BuildParams(query, activeOnly, startIndex)
    ensures next.None? ==>
      Paginate(server, table, query, activeOnly, startIndex) == PagingResult(page, [params], waits)
    ensures next.Some? ==>
      && next.value == startIndex + |page| && startIndex < next.value < ResultWindowCap
      && Paginate(server, table, query, activeOnly, startIndex) ==
           Then(PagingResult(page, [params], waits + [PageDelay]),
                Paginate(server, table, query, activeOnly, next.value))
  {
    params := BuildParams(query, activeOnly, startIndex);
    var response, attempts;
    response, waits, attempts := MakeRequest(server(params));
    if response.None? {
      PaginateStops(server, table, query, activeOnly, startIndex);
      return params, waits, [], None;
    }
    var items := response.value.items;
    if |items| == 0 {
      PaginateStops(server, table, query, activeOnly, startIndex);
      return params, waits, [], None;
    }
    page := ProcessItems(table, items);
    var hits := HitsOf(response.value);
    var nextIndex := startIndex + |items|;
    if nextIndex >= hits || nextIndex >= ResultWindowCap {
      PaginateStops(server, table, query, activeOnly, startIndex);
      return params, waits, page, None;
    }
    PaginateContinues(server, table, query, activeOnly, startIndex);
    next := Some(nextIndex);
  }

  /** The loop shared by `_search_single_sic` and `search_by_company_name`;
      the number of records collected is always the index of the next page. */
  method SearchPaged(server: Server, table: SicTable, query: Query, activeOnly: bool)
    returns (companies: seq<Record>, requests: seq<Params>, delays: seq<Delay>)
    ensures PagingResult(companies, requests, delays) == Paginate(server, table, query, activeOnly, 0)
  {
    companies, requests, delays := [], [], [];
    var startIndex: nat := 0;
    assert Then(PagingResult([], [], []), Paginate(server, table, query, activeOnly, 0))
        == Paginate(server, table, query, activeOnly, 0);
    while true
      invariant startIndex == |companies|
      invariant startIndex < ResultWindowCap
      invariant Paginate(server, table, query, activeOnly, 0) ==
        Then(PagingResult(companies, requests, delays), Paginate(server, table, query, activeOnly, startIndex))
      decreases ResultWindowCap - startIndex
    {
      ghost var before := PagingResult(companies, requests, delays);
      var params, waits, page, next := FetchPage(server, table, query, activeOnly, startIndex);
      requests := requests + [params];
      delays := delays + waits;
      companies := companies + page;
      if next.None? {
        break;
      }
      startIndex := next.value;
      delays := delays + [PageDelay];
      ghost var thisPage := PagingResult(page, [params], waits + [PageDelay]);
      assert PagingResult(companies, requests, delays) == Then(before, thisPage);
      ThenAssociative(before, thisPage, Paginate(server, table, query, activeOnly, startIndex));
    }
  }

  /** A run of page requests as a paged search starting at `start` sends
      them: at least one and at most one per index left in the result window,
      the first at `start`, each a full page of the same query, restricted to
      active companies exactly when asked to, with start indexes rising
      strictly inside the window. */
  predicate PageRequests(requests: seq<Params>, query: Query, activeOnly: bool, start: nat) {
    && 1 <= |requests| <= ResultWindowCap - start
    && requests[0].startIndex == start
    && (forall k :: 0 <= k < |requests| ==>
          requests[k].query == query && requests[k].size == ItemsPerPage
          && (requests[k].companyStatus == Some("active") <==> activeOnly)
          && (requests[k].companyStatus == None <==> !activeOnly)
          && start <= requests[k].startIndex < ResultWindowCap)
    && (forall k :: 0 <= k < |requests| - 1 ==> requests[k].startIndex < requests[k + 1].startIndex)
  }

  /** Every paged search sends such a run of requests, so at most
      `ResultWindowCap` of them. */
  lemma {:induction false} PagingRequests(server: Server, table: SicTable, query: Query, activeOnly: bool, start: nat)
    requires start < ResultWindowCap
    ensures PageRequests(Paginate(server, table, query, activeOnly, start).requests, query, activeOnly, start)
    decreases ResultWindowCap - start
  {
    var params := BuildParams(query, activeOnly, start);
    var response := RequestFrom(server(params), 0);
    if response.body.Some? && |response.body.value.items| > 0 {
      var next := start + |response.body.value.items|;
      if next < HitsOf(response.body.value) && next < ResultWindowCap {
        PagingRequests(server, table, query, activeOnly, next);
        var rest := Paginate(server, table, query, activeOnly, next);
        assert Paginate(server, table, query, activeOnly, start).requests == [params] + rest.requests;
        PageRequestsCons(rest.requests, query, activeOnly, start, next);
      }
    }
  }

  /** A request for a page at `start` followed by the run from a later index
      is a run from `start`. */
  lemma PageRequestsCons(rest: seq<Params>, query: Query, activeOnly: bool, start: nat, next: nat)
    requires start < next && PageRequests(rest, query, activeOnly, next)
    ensures PageRequests([BuildParams(query, activeOnly, start)] + rest, query, activeOnly, start)
  {
    var requests := [BuildParams(query, activeOnly, start)] + rest;
    forall k | 0 <= k < |requests| - 1
      ensures requests[k].startIndex < requests[k + 1].startIndex
    {
      if k > 0 {
        assert requests[k] == rest[k - 1];
      }
    }
  }


  function NameSearch(server: Server, table: SicTable, term: string, activeOnly: bool): seq<Record> {
    Paginate(server, table, ByName(term), activeOnly, 0).companies
  }

  /** `_search_single_sic`. */
  method SearchSingleSic(server: Server, table: SicTable, sicCode: string, activeOnly: bool)
    returns (companies: seq<Record>)
    ensures companies == SicSearch(server, table, sicCode, activeOnly)
  {
    var requests, delays;
    companies, requests, delays := SearchPaged(server, table, BySicCode(sicCode), activeOnly);
  }

  /** `search_by_company_name`. */
  method SearchByCompanyName(server: Server, table: SicTable, term: string, activeOnly: bool)
    returns (companies: seq<Record>)
    ensures companies == NameSearch(server, table, term, activeOnly)
  {
    var requests, delays;
    companies, requests, delays := SearchPaged(server, table, ByName(term), activeOnly);
  }

  // ---------------------------------------------------------------------------
  // The union over several SIC codes
  // ---------------------------------------------------------------------------

  function SicSearch(server: Server, table: SicTable, code: string, activeOnly: bool): seq<Record> {
    Paginate(server, table, BySicCode(code), activeOnly, 0).companies
  }

  /** The per-code results one after the other, in the order of the codes. */
  function SicResults(server: Server, table: SicTable, codes: seq<string>, activeOnly: bool): seq<Record>
    decreases |codes|
  {
    if |codes| == 0 then []
    else SicResults(server, table, codes[..|codes| - 1], activeOnly) + SicSearch(server, table, codes[|codes| - 1], activeOnly)
  }

  /** What `search_by_sic_codes` returns. */
  function SicUnion(server: Server, table: SicTable, codes: seq<string>, activeOnly: bool): seq<Record> {
    Filters.Dedup(SicResults(server, table, codes, activeOnly))
  }

  /** `search_by_sic_codes`: each code searched in turn, keeping the first
      record seen for each non-empty company number. */
  method SearchBySicCodes(server: Server, table: SicTable, sicCodes: seq<string>, activeOnly: bool)
    returns (allCompanies: seq<Record>)
    ensures allCompanies == SicUnion(server, table, sicCodes, activeOnly)
  {
    allCompanies := [];
    var seen: set<string> := {};
    for i := 0 to |sicCodes|
      invariant allCompanies == Filters.Dedup(SicResults(server, table, sicCodes[..i], activeOnly))
      invariant seen == Numbers(SicResults(server, table, sicCodes[..i], activeOnly)) - {""}
    {
      var companies := SearchSingleSic(server, table, sicCodes[i], activeOnly);
      ghost var done := SicResults(server, table, sicCodes[..i], activeOnly);
      assert sicCodes[..i + 1][..i] == sicCodes[..i];
      assert SicResults(server, table, sicCodes[..i + 1], activeOnly) == done + companies;
      assert done + companies[..0] == done;
      for j := 0 to |companies|
        invariant allCompanies == Filters.Dedup(done + companies[..j])
        invariant seen == Numbers(done + companies[..j]) - {""}
      {
        var company := companies[j];
        var num := Number(company);
        AppendSliceSnoc(done, companies, j);
        Filters.NumbersSnoc(done + companies[..j], company);
        if num != "" && num !in seen {
          seen := seen + {num};
          allCompanies := allCompanies + [company];
        }
      }
      assert companies[..|companies|] == companies;
    }
    assert sicCodes[..|sicCodes|] == sicCodes;
  }

  lemma AppendSliceSnoc<T>(a: seq<T>, b: seq<T>, j: nat)
    requires j < |b|
    ensures a + b[..j + 1] == (a + b[..j]) + [b[j]]
  {
    assert b[..j + 1] == b[..j] + [b[j]];
  }

  /** Every record of the per-code results comes from the search of one of
      the codes. */
  lemma {:induction false} SicResultsMembership(server: Server, table: SicTable, codes: seq<string>, activeOnly: bool)
    ensures forall c :: c in SicResults(server, table, codes, activeOnly) ==>
      exists i :: 0 <= i < |codes| && c in SicSearch(server, table, codes[i], activeOnly)
    decreases |codes|
  {
    if |codes| > 0 {
      var prefix := codes[..|codes| - 1];
      SicResultsMembership(server, table, prefix, activeOnly);
      forall c | c in SicResults(server, table, codes, activeOnly)
        ensures exists i :: 0 <= i < |codes| && c in SicSearch(server, table, codes[i], activeOnly)
      {
        if c in SicResults(server, table, prefix, activeOnly) {
          var i :| 0 <= i < |prefix| && c in SicSearch(server, table, prefix[i], activeOnly);
          assert codes[i] == prefix[i];
        } else {
          assert c in SicSearch(server, table, codes[|codes| - 1], activeOnly);
        }
      }
    }
  }

  /** The union holds one record per non-empty company number found under any
      code, the first one met when the codes are searched in order; every
      record came from the search of one of the codes. */
  lemma SicUnionProperties(server: Server, table: SicTable, codes: seq<string>, activeOnly: bool)
    ensures var u := SicUnion(server, table, codes, activeOnly);
      && Filters.DistinctNumbers(u) && Filters.NonEmptyNumbers(u)
      && Numbers(u) == Numbers(SicResults(server, table, codes, activeOnly)) - {""}
      && Subseq(u, SicResults(server, table, codes, activeOnly))
      && (forall k :: 0 <= k < |u| ==>
            Number(u[k]) in Numbers(SicResults(server, table, codes, activeOnly)) &&
            u[k] == Filters.FirstWith(SicResults(server, table, codes, activeOnly), Number(u[k])))
      && (forall c :: c in u ==> exists i :: 0 <= i < |codes| && c in SicSearch(server, table, codes[i], activeOnly))
  {
    var all := SicResults(server, table, codes, activeOnly);
    Filters.DedupSubseq(all);
    Filters.DedupKeepsFirst(all);
    SubseqMembership(Filters.Dedup(all), all);
    SicResultsMembership(server, table, codes, activeOnly);
  }
}
