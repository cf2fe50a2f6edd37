/** The search endpoint of backend/app.py: a request naming SIC codes and
    optional filters is checked, the registry is searched by the codes, and
    the fixed chain of filters (Northern Ireland, include keywords, exclude
    keywords, deduplication) is applied to the result. */
module SearchApi {
  import opened Records
  import opened Seqs
  import Filters
  import Registry

  /** The body of a search request; an absent keyword list is `None`. */
  datatype SearchRequest = SearchRequest(
    sicCodes: seq<string>,
    includeKeywords: Option<seq<string>>,
    excludeKeywords: Option<seq<string>>,
    activeOnly: bool,
    excludeNorthernIreland: bool)

  /** The answer: a rejection with an HTTP status, or the companies found. */
  datatype SearchResponse =
    | Rejected(status: nat, detail: string)
    | Found(count: nat, companies: seq<Record>)

  const MissingSicCodes := "At least one SIC code is required"

  /** A keyword list as `if request.include_keywords:` sees it: `None` and
      the empty list are both false. */
  function KeywordsOf(keywords: Option<seq<string>>): seq<string> {
    match keywords
    case None => []
    case Some(ks) => ks
  }

  /** The filter chain applied to the records the registry returned. */
  function FilterChain(companies: seq<Record>, request: SearchRequest): seq<Record> {
    var outside := if request.excludeNorthernIreland then Filters.FilterExcludeNorthernIreland(companies) else companies;
    var includeKw := KeywordsOf(request.includeKeywords);
    var included := if |includeKw| > 0 then Filters.IncludeFilter(outside, includeKw) else outside;
    var excludeKw := KeywordsOf(request.excludeKeywords);
    var kept := if |excludeKw| > 0 then Filters.ExcludeFilter(included, excludeKw) else included;
    Filters.Dedup(kept)
  }

  /** `search_companies`: an empty list of SIC codes is rejected with 400;
      otherwise the union of the code searches goes through the filter chain
      and is returned with its length. */
  function SearchCompanies(server: Registry.Server, table: Registry.SicTable, request: SearchRequest): SearchResponse {
    if |request.sicCodes| == 0 then Rejected(400, MissingSicCodes)
    else
      var companies := FilterChain(Registry.SicUnion(server, table, request.sicCodes, request.activeOnly), request);
      Found(|companies|, companies)
  }

  /** A record passes the chain's three selections. */
  predicate PassesFilters(c: Record, request: SearchRequest) {
    && (request.excludeNorthernIreland ==> !Filters.IsNorthernIreland(c))
    && (|KeywordsOf(request.includeKeywords)| > 0 ==> Filters.IncludeMatch(c, KeywordsOf(request.includeKeywords)))
    && (|KeywordsOf(request.excludeKeywords)| > 0 ==> !Filters.ExcludeMatch(c, KeywordsOf(request.excludeKeywords)))
  }

  /** The three selections keep, in order, exactly the records that pass
      them; on records whose numbers are already distinct and non-empty the
      closing deduplication removes nothing. */
  lemma {:induction false} FilterChainProperties(companies: seq<Record>, request: SearchRequest)
    requires Filters.DistinctNumbers(companies) && Filters.NonEmptyNumbers(companies)
    ensures Subseq(FilterChain(companies, request), companies)
    ensures forall c :: c in FilterChain(companies, request) <==> c in companies && PassesFilters(c, request)
    ensures Filters.DistinctNumbers(FilterChain(companies, request))
    ensures Filters.NonEmptyNumbers(FilterChain(companies, request))
  {
    var outside := if request.excludeNorthernIreland then Filters.FilterExcludeNorthernIreland(companies) else companies;
    var includeKw := KeywordsOf(request.includeKeywords);
    var included := if |includeKw| > 0 then Filters.IncludeFilter(outside, includeKw) else outside;
    var excludeKw := KeywordsOf(request.excludeKeywords);
    var kept := if |excludeKw| > 0 then Filters.ExcludeFilter(included, excludeKw) else included;

    if request.excludeNorthernIreland {
      Filters.NorthernIrelandFilterProperties(companies);
    } else {
      SubseqRefl(companies);
    }
    if |includeKw| > 0 {
      Filters.IncludeFilterProperties(outside, includeKw);
    } else {
      SubseqRefl(outside);
    }
    if |excludeKw| > 0 {
      Filters.ExcludeFilterProperties(included, excludeKw);
    } else {
      SubseqRefl(included);
    }
    SubseqTransitive(included, outside, companies);
    SubseqTransitive(kept, included, companies);
    Filters.SubseqKeepsUnique(kept, companies);
    Filters.DedupOfUnique(kept);
    assert FilterChain(companies, request) == kept;
  }

  /** The endpoint: no SIC codes means a 400 that does not depend on the
      registry at all, so no search is made; otherwise the count is the
      length of the list, and the list is an ordered selection of the SIC
      union holding exactly its records that pass the requested filters, with
      distinct, non-empty company numbers. */
  lemma SearchCompaniesProperties(server: Registry.Server, other: Registry.Server,
                                  table: Registry.SicTable, request: SearchRequest)
    ensures |request.sicCodes| == 0 <==> SearchCompanies(server, table, request).Rejected?
    ensures |request.sicCodes| == 0 ==>
      SearchCompanies(server, table, request) == SearchCompanies(other, table, request)
      && SearchCompanies(server, table, request).status == 400
    ensures var r := SearchCompanies(server, table, request);
      var union := Registry.SicUnion(server, table, request.sicCodes, request.activeOnly);
      r.Found? ==>
        && r.count == |r.companies|
        && Subseq(r.companies, union)
        && (forall c :: c in r.companies <==> c in union && PassesFilters(c, request))
        && Filters.DistinctNumbers(r.companies) && Filters.NonEmptyNumbers(r.companies)
  {
    if |request.sicCodes| > 0 {
      var union := Registry.SicUnion(server, table, request.sicCodes, request.activeOnly);
      Registry.SicUnionProperties(server, table, request.sicCodes, request.activeOnly);
      FilterChainProperties(union, request);
    }
  }

  /** With no filter asked for, the endpoint returns the SIC union as it is. */
  lemma UnfilteredSearchIsUnion(server: Registry.Server, table: Registry.SicTable, request: SearchRequest)
    requires |request.sicCodes| > 0 && !request.excludeNorthernIreland
    requires |KeywordsOf(request.includeKeywords)| == 0 && |KeywordsOf(request.excludeKeywords)| == 0
    ensures SearchCompanies(server, table, request).companies ==
      Registry.SicUnion(server, table, request.sicCodes, request.activeOnly)
  {
    Filters.DedupIdempotent(Registry.SicResults(server, table, request.sicCodes, request.activeOnly));
  }
}
