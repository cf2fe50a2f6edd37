# UK companies search: a verified model of the search pipeline

This project models, in Dafny, the company-search pipeline of a small service
that queries the Companies House advanced-search API. It covers five parts:

- **Record filters** (`Filters`, filters.dfy). Include keywords match as a
  case-insensitive substring of the company name. Exclude keywords match as a
  case-insensitive whole word, with the `\b` rule of regular expressions. The
  Northern Ireland test looks at the company-number prefix and then at the
  address text. There is an active-status filter and first-seen
  deduplication by company number.
- **Registry client** (`Registry`, registry.dfy). It covers the retrying
  request (`_make_request`) and the offset-paged search by SIC code and by
  company name. It also covers the union over several SIC codes, the
  normalisation of one search item into a flat record, address formatting
  and the sorted SIC-code listing.
- **Truck-tyre search** (`TruckTyreSearch`, orchestrator.dfy). It covers
  `run_search`, the four fixed strategies and the merge of their results by
  company number with source labels joined. It also covers the "likely
  chain" flag from the owners' names and the column order of the output sheet.
- **Classifier bookkeeping** (`Classifier`, classifier.dfy). It covers
  batching into tens with a per-batch error fallback, and stripping markdown
  code fences from the model's reply. It covers the fallback when the reply
  is not a JSON list, writing labels with their defaults, and the text that
  describes one company.
- **Search endpoint** (`SearchApi`, app.dfy). `search_companies` rejects a
  request without SIC codes and otherwise runs the fixed filter chain:
  Northern Ireland, then include, then exclude, then deduplication.

Shared pieces: `Records` (records as maps from field names to JSON-like
values), `Strings` (ASCII case mapping, substring, `startswith`, `strip`,
`split`, `join`, string order) and `Seqs` (order-preserving selection and
the subsequence relation).

The outside world is passed in as parameters:

- The HTTP server is a `Registry.Server`. It maps the query parameters of a
  request and the attempt number to an outcome: an HTTP status with a
  decoded page, or a transport error.
- Pauses are recorded as a log of `Delay` values.
- The language-model call is a `Classifier.Llm`: batch to optional reply
  text, where `None` means the call raised.
- `json.loads` is a partial function `string -> Option<Value>`.
- Rendering a non-text value with `str()` is a `Classifier.Show` parameter.
- The enrichment call `enrich_with_people_data` is a function parameter of
  `FindSpecialists`.
- Whether a model client is configured is a boolean.

Points where the code's behaviour is easy to misread:

- A 429 response uses up one of the three attempts, like any other
  failure. Three 429s in a row end the request with no body
  (`Registry.RateLimitUsesAttempts`).
- `deduplicate_companies` and `search_by_sic_codes` drop records whose
  company number is empty; they are not kept as unique.
- The merge in `main` files records under `company_number` as it is. All
  records with an empty number collapse into one. The merge checks whether
  the new label is already a substring of the joined label, not whether it
  is in a set of labels.
- `run_search` has no "required keyword" step and no global exclude filter.
  No relevance score is computed anywhere in the code.

## Model

| member | source | states |
|---|---|---|
| `Filters.FilterByIncludeKeywords` | backend/utils/filters.py:8-23 | the loop returns exactly the input when there are no keywords, else the records whose upper-cased name contains some upper-cased keyword, in input order |
| `Filters.IncludeFilterProperties` | backend/utils/filters.py:13-23 | no keywords returns the input unchanged; the output is an ordered subsequence; a record is in it iff it is in the input and some keyword is a substring of its name (a missing name reads as ""); each kept record keeps its multiplicity, so it is never added twice |
| `Filters.FilterByExcludeKeywords` | backend/utils/filters.py:26-46 | the loop returns the input when there are no keywords, else the records whose upper-cased name holds no upper-cased keyword with a word boundary at both ends, in input order |
| `Filters.HasExcludedWord` | backend/utils/filters.py:38-43 | the keyword scan finds a match exactly when some upper-cased keyword occurs in the name between two word boundaries, whether or not it stops early |
| `Filters.ExcludeFilterProperties` | backend/utils/filters.py:31-46 | no keywords returns the input; the output is an ordered subsequence; a record is dropped iff some keyword occurs as a whole word in its name; kept records keep their multiplicity |
| `Filters.ExcludeImpliesInclude` | backend/utils/filters.py:18-20 | a keyword that excludes a record as a whole word also occurs in its name as a substring, so exclusion is the stricter match |
| `Filters.CarKeywordIsWholeWord` | backend/utils/filters.py:39-41 | the keyword CAR does not remove CARLTON TYRES LTD but does remove CAR TYRES LTD |
| `Filters.NorthernIrelandByPrefix` | backend/utils/filters.py:55-76 | a number starting with NI or R0 makes a record Northern Irish whatever its address; otherwise it is Northern Irish iff one of the ten indicators is a substring of "FULL_ADDRESS LOCALITY REGION COUNTRY", upper-cased |
| `Filters.NorthernIrelandNumberExample` | backend/utils/filters.py:55-57 | a record numbered NI123456 is Northern Irish for every address |
| `Filters.NorthernIrelandAddressExample` | backend/utils/filters.py:59-74 | a record with an ordinary number and locality Belfast is Northern Irish |
| `Filters.NorthernIrelandSubstringExample` | backend/utils/filters.py:70-74 | indicators match as plain substrings: region Downpatrick matches DOWN |
| `Filters.NorthernIrelandCaseExample` | backend/utils/filters.py:55-57 | the prefix test is case-sensitive: ni123456 with no address is not Northern Irish |
| `Filters.NorthernIrelandFilterProperties` | backend/utils/filters.py:79-83 | the filter keeps, in order and with multiplicity, exactly the records that are not Northern Irish |
| `Filters.ActiveFilterProperties` | backend/utils/filters.py:86-90 | the filter keeps, in order, exactly the records whose lower-cased status is "active" |
| `Filters.Dedup` | backend/utils/filters.py:93-104 | the numbers of the output are those of the input minus ""; they are non-empty and pairwise distinct; the output is no longer than the input |
| `Filters.DeduplicateCompanies` | backend/utils/filters.py:97-104 | the loop with its `seen` set returns the first record of each non-empty number, in input order |
| `Filters.DedupKeepsFirst` | backend/utils/filters.py:99-103 | every kept record is the first record of the input with its number |
| `Filters.DedupSubseq` | backend/utils/filters.py:97-104 | deduplication keeps input order: the output is a subsequence of the input |
| `Filters.DedupOfUnique` | backend/utils/filters.py:97-104 | a list whose numbers are already non-empty and distinct is returned unchanged |
| `Filters.DedupIdempotent` | backend/utils/filters.py:93-104 | deduplicating twice is the same as deduplicating once |
| `Filters.SubseqKeepsUnique` | backend/utils/filters.py:97-104 | any ordered selection from a deduplicated list still has distinct, non-empty numbers |
| `Registry.Descriptions` | backend/services/companies_house.py:886-890 | one description per SIC code, same length and order; the table's description, or "Unknown" for a code not in the table |
| `Registry.GetAllSicCodes` | backend/services/companies_house.py:922-927 | one entry per table key, strictly ascending by code, each carrying the table's description for its code |
| `Registry.SortedCodes` | backend/services/companies_house.py:926 | `sorted` on the keys: each key exactly once, in strictly ascending string order |
| `Registry.FormatAddressProperties` | backend/services/companies_house.py:909-919 | the formatted address is "" iff all six parts are empty, and it contains every non-empty part |
| `Registry.ProcessCompany` | backend/services/companies_house.py:881-907 | the record's number is the item's number (or ""); its full address is the formatted registered office address; its descriptions field joins the per-code descriptions |
| `Registry.ProcessCompanyIdentityDefaults` | backend/services/companies_house.py:892-893 | a company number or name the item lacks is "" in the record |
| `Registry.ProcessCompanyDefaults` | backend/services/companies_house.py:894-897 | a status, type or creation date the item lacks is "" in the record |
| `Registry.ProcessCompanyAddressDefaults` | backend/services/companies_house.py:900-902 | an address line or locality the item lacks is "" in the record |
| `Registry.ProcessCompanyAreaDefaults` | backend/services/companies_house.py:903-905 | a region, postal code or country the item lacks is "" in the record |
| `Registry.ProcessCompanyNoSicCodes` | backend/services/companies_house.py:898-899 | an item without SIC codes gives "" for both the codes and the descriptions field |
| `Registry.SicDescriptionsAligned` | backend/services/companies_house.py:884-899 | the descriptions field is "" iff there are no codes, and holds the table's description of every code that is in the table |
| `Registry.MakeRequest` | backend/services/companies_house.py:839-879 | the attempt loop returns the body, the pauses and the attempt count that the recursive definition of the retry policy gives |
| `Registry.RequestProperties` | backend/services/companies_house.py:846-879 | between one and three attempts; every attempt but the last got a retryable outcome; stopping before the third means a 200, 404 or 416; a body is returned iff the last attempt was a 200, and it is that page |
| `Registry.NotFoundIsNotRetried` | backend/services/companies_house.py:852-864 | a first 404 or 416 returns no body after one attempt and no pause |
| `Registry.RateLimitUsesAttempts` | backend/services/companies_house.py:848-861 | three 429s in a row return no body after three attempts and three back-offs; a 429 uses up an attempt |
| `Registry.ServerErrorsAreRetried` | backend/services/companies_house.py:865-877 | three transport failures return no body after three attempts, with a retry pause after the first two only |
| `Registry.ProcessItems` | backend/services/companies_house.py:820-822 | the loop normalises every item of a page, in page order |
| `Registry.PaginateStops` | backend/services/companies_house.py:810-829 | no response, an empty page, reaching the hit count or reaching 10000 ends the paged search after this page |
| `Registry.PaginateContinues` | backend/services/companies_house.py:815-831 | otherwise the page's records are kept, a page delay is taken and the search goes on from start index plus the number of items |
| `Registry.FetchPage` | backend/services/companies_house.py:800-831 | one loop body: the next start index, when there is one, is the current one plus the page length and stays below 10000, and the rest of the search is the paged search from there |
| `Registry.SearchPaged` | backend/services/companies_house.py:796-837 | the `while True` loop, whose start index always equals the number of records collected, returns exactly the records, requests and pauses of the paged search from index 0 |
| `Registry.PagingRequests` | backend/services/companies_house.py:800-807 | every request is for the same query with size 500, has `company_status` "active" iff `active_only`, and starts inside the 10000 window; the first starts at 0 and start indexes rise strictly, so the loop ends |
| `Registry.SearchSingleSic` | backend/services/companies_house.py:790-837 | `_search_single_sic` returns the paged search for its SIC code |
| `Registry.SearchByCompanyName` | backend/services/companies_house.py:733-788 | `search_by_company_name` returns the paged search for its term |
| `Registry.SearchBySicCodes` | backend/services/companies_house.py:706-731 | the two nested loops with `seen_company_numbers` return the deduplication of the per-code results concatenated in code order |
| `Registry.SicResultsMembership` | backend/services/companies_house.py:718-727 | every record of the concatenated results came from the search of one of the codes |
| `Registry.SicUnionProperties` | backend/services/companies_house.py:715-731 | the union has non-empty, pairwise distinct numbers: exactly the non-empty numbers found under any code, each with its first occurrence in code order; every record came from some per-code search |
| `TruckTyreSearch.ScanNamesYes` | backend/truck_tyre_search.py:37-41 | the scan answers Yes or No, and Yes iff some stripped, lower-cased name contains a corporate keyword |
| `TruckTyreSearch.CorporateInSomeName` | backend/truck_tyre_search.py:37-39 | a keyword occurs in some stripped, lower-cased `;`-separated name iff it occurs in the lower-cased whole value |
| `TruckTyreSearch.LikelyChainMeaning` | backend/truck_tyre_search.py:33-41 | Unknown iff the value is missing, empty or white space only; otherwise Yes iff one of the 13 corporate keywords is a substring of the lower-cased value, and No otherwise |
| `TruckTyreSearch.LikelyChainInsideWord` | backend/truck_tyre_search.py:26-39 | "inc" inside the personal name Vincent makes the flag Yes |
| `TruckTyreSearch.LikelyChainBlank` | backend/truck_tyre_search.py:35-36 | a blank or missing value gives Unknown |
| `TruckTyreSearch.RunSearch` | backend/truck_tyre_search.py:44-71 | `run_search` returns the strategy's result. With SIC codes, it takes the union, narrowed by the include filter only when there are include keywords. Without codes, it concatenates the name searches over the keywords, then deduplicates. Then comes the exclude filter (only with exclude keywords), then the Northern Ireland filter, then the label on every record |
| `TruckTyreSearch.TagKeepsFields` | backend/truck_tyre_search.py:66-68 | writing the search source changes no other field, so neither the number nor the Northern Ireland test |
| `TruckTyreSearch.TagProperties` | backend/truck_tyre_search.py:66-68 | every tagged record carries the label and keeps its number and Northern Ireland test |
| `TruckTyreSearch.NarrowedUnique` | backend/truck_tyre_search.py:49-61 | the records after the search, include and exclude steps have non-empty, distinct numbers |
| `TruckTyreSearch.StrategyResultProperties` | backend/truck_tyre_search.py:44-71 | no SIC codes and no include keywords give []; every returned record has `search_source == label` and is not Northern Irish; numbers are non-empty and distinct |
| `TruckTyreSearch.TaggedOutside` | backend/truck_tyre_search.py:63-68 | the last two steps of `run_search` leave only labelled records outside Northern Ireland and keep numbers distinct |
| `TruckTyreSearch.MergeAll` | backend/truck_tyre_search.py:104-113 | the `source_map` dictionary has distinct keys in insertion order, exactly the numbers seen, each entry filed under its own number, and no more keys than records |
| `TruckTyreSearch.Values` | backend/truck_tyre_search.py:115 | `list(source_map.values())` lists the entries in key insertion order, each with the number it is filed under |
| `TruckTyreSearch.MergeSearchResults` | backend/truck_tyre_search.py:104-115 | the merge loop returns the values of the dictionary that the merge steps build |
| `TruckTyreSearch.MergeAllFirstSeen` | backend/truck_tyre_search.py:107-113 | each entry equals the first record seen with its number apart from the source label, which begins with that record's label |
| `TruckTyreSearch.MergeAllOrder` | backend/truck_tyre_search.py:104-113 | the dictionary's keys are in order of first appearance |
| `TruckTyreSearch.MergeAllLabels` | backend/truck_tyre_search.py:107-111 | every record's label is a substring of the label of the entry under its number |
| `TruckTyreSearch.MergeKeepsOnePerNumber` | backend/truck_tyre_search.py:104-115 | exactly one survivor per distinct number, "" included, so all empty numbers collapse into one; merged length at most the combined length |
| `TruckTyreSearch.MergeFirstSeen` | backend/truck_tyre_search.py:105-115 | every survivor is the first-seen record with its number, with no field but the source label changed, and that label begins with the first-seen label |
| `TruckTyreSearch.MergeOrder` | backend/truck_tyre_search.py:104-115 | survivors appear in order of the first appearance of their numbers |
| `TruckTyreSearch.MergeLabels` | backend/truck_tyre_search.py:107-111 | every combined record's label is contained in its survivor's label |
| `TruckTyreSearch.SourceLabels` | backend/truck_tyre_search.py:104-111 | the labels of the records with a given number, in input order, are empty exactly when no record has that number |
| `TruckTyreSearch.FoldLabelsSnoc` | backend/truck_tyre_search.py:108-111 | one more label leaves the joined label as it is when the new label is already a substring of it, and otherwise appends "; " and the new label |
| `TruckTyreSearch.MergeStepFold` | backend/truck_tyre_search.py:105-113 | one merge step keeps every entry labelled with the fold of the labels of the records filed under its number |
| `TruckTyreSearch.MergeAllFoldsLabels` | backend/truck_tyre_search.py:104-113 | every dictionary entry's label is the fold, in input order, of the labels of all records with its number |
| `TruckTyreSearch.MergeLabelRule` | backend/truck_tyre_search.py:104-115 | every survivor's label is its first-seen label followed by each later label of the same number that was not already a substring, joined by "; " |
| `TruckTyreSearch.FoldLabelsContains` | backend/truck_tyre_search.py:108-111 | every label folded in occurs in the joined label |
| `TruckTyreSearch.FoldLabelsRepeat` | backend/truck_tyre_search.py:108-111 | a label met again for the same number leaves the joined label unchanged |
| `TruckTyreSearch.FoldLabelsJoinExample` | backend/truck_tyre_search.py:108-111 | a company found by the SIC 22110 strategy and then by the SIC 45320 strategy is labelled with both labels joined by "; " |
| `TruckTyreSearch.FoldLabelsRepeatExample` | backend/truck_tyre_search.py:108-111 | a third record from the first strategy leaves that joined label unchanged |
| `TruckTyreSearch.TagLikelyChain` | backend/truck_tyre_search.py:126-128 | the loop sets `likely_chain` of each record to the flag of its `psc_names` (absent reads as "") and changes nothing else |
| `TruckTyreSearch.ReorderColumnsProperties` | backend/truck_tyre_search.py:143-147 | with distinct names, the new order is a permutation of the frame's columns: first the listed columns present, in list order, then the other columns, in frame order |
| `TruckTyreSearch.FindSpecialists` | backend/truck_tyre_search.py:74-128 | the four strategies are merged; no survivors gives nothing; otherwise each enriched record gets its likely-chain flag, same length and order |
| `Classifier.SetLabels` | backend/services/claude_classifier.py:72-75 | the loop gives every record the same two labels and confidence 0, keeping its other fields |
| `Classifier.ContextLines` | backend/services/claude_classifier.py:31-50 | the 8 base lines in fixed order, then the 2 director lines only when `directors_count` is truthy, then the 2 owner lines only when `psc_count` is truthy; each line is its label followed by the field's text, or "Unknown" when the key is missing (the two count lines show the count itself) |
| `Classifier.BuildCompanyContext` | backend/services/claude_classifier.py:29-52 | the text begins with the company-name line and contains every line |
| `Classifier.StripCodeFences` | backend/services/claude_classifier.py:221-236 | the `in_json` loop returns the stripped text when it does not start with a fence, else the lines kept by the fence rule, joined with newlines |
| `Classifier.InJsonMeaning` | backend/services/claude_classifier.py:226-233 | after reading some lines the loop is inside a block iff some ```` ```json ```` line has no fence line after it |
| `Classifier.KeptLinesNoFence` | backend/services/claude_classifier.py:228-233 | no kept line starts with ```` ``` ```` |
| `Classifier.KeptLinesSubseq` | backend/services/claude_classifier.py:227-235 | kept lines are a subsequence of the reply's lines |
| `Classifier.KeptLinesMembership` | backend/services/claude_classifier.py:227-235 | a line is kept iff some occurrence of it is no fence and comes after a ```` ```json ```` line with no fence between |
| `Classifier.NoJsonFenceKeepsNothing` | backend/services/claude_classifier.py:228-235 | with no ```` ```json ```` line, for instance with a bare ```` ``` ```` fence, nothing is kept |
| `Classifier.UnfencedPassesThrough` | backend/services/claude_classifier.py:221-222 | text not starting with a fence reaches the parser only stripped, as a slice of the reply |
| `Classifier.ParseResponse` | backend/services/claude_classifier.py:238-249 | a reply that decodes to a list gives that list; one that does not decode, or decodes to a non-list, gives exactly `expected_count` entries of Unknown, Unknown, 0 |
| `Classifier.ParseClassificationResponse` | backend/services/claude_classifier.py:218-249 | strips the fences, decodes, and falls back as the parse function says |
| `Classifier.Assigned` | backend/services/claude_classifier.py:131-139 | the assignment succeeds iff every parsed entry a record reads is a dictionary, and then gives one record per batch record |
| `Classifier.AssignClassifications` | backend/services/claude_classifier.py:131-139 | the `enumerate` loop writes the labels index by index, and stops with a failure at an entry that is not a dictionary |
| `Classifier.AssignmentProperties` | backend/services/claude_classifier.py:131-139 | records past the parsed entries get Unknown, Unknown, 0; otherwise a missing label is Unknown and a missing confidence 0.5, present ones are copied; no other field changes |
| `Classifier.AssignedKeepsFields` | backend/services/claude_classifier.py:131-139 | each labelled record has the three label fields and keeps all others |
| `Classifier.UnreadableReplyLabelsUnknown` | backend/services/claude_classifier.py:240-249 | a reply that does not decode to a list labels every record of the batch Unknown, Unknown, 0 |
| `Classifier.ClassifyBatchInternal` | backend/services/claude_classifier.py:100-141 | a failed model call fails the batch; otherwise the reply is parsed and assigned to the batch |
| `Classifier.BatchResult` | backend/services/claude_classifier.py:86-96 | one batch contributes as many records as it holds |
| `Classifier.ClassifyOneBatch` | backend/services/claude_classifier.py:86-96 | the `try` gives the labelled batch; the `except` marks the batch's records Error, Error, 0 |
| `Classifier.ClassifyBatch` | backend/services/claude_classifier.py:54-98 | without a client, every record is marked not configured and no batch is sent; with one, the batches are processed and ⌈n/10⌉ of them are sent |
| `Classifier.ClassifyInBatches` | backend/services/claude_classifier.py:78-98 | the loop over `range(0, n, 10)` concatenates the per-batch results of consecutive slices of at most 10 and sends ⌈n/10⌉ batches |
| `Classifier.ClassifiedByBatch` | backend/services/claude_classifier.py:81-96 | record j is decided by batch j/10 alone: its classification there, or Error, Error, 0 when that batch's call failed; other batches do not matter |
| `Classifier.ClassifiedWithoutClient` | backend/services/claude_classifier.py:69-76 | without a client, every record gets the not-configured label twice and confidence 0, other fields unchanged |
| `Classifier.ClassifiedKeepsFields` | backend/services/claude_classifier.py:78-98 | the output has the input's length and order; each record gains the three label fields and keeps all others |
| `SearchApi.FilterChainProperties` | backend/app.py:97-111 | on a list with distinct, non-empty numbers, the chain gives an ordered subsequence holding exactly the records that pass the requested filters. NI applies iff requested; include and exclude apply only with non-empty lists. Numbers stay distinct and non-empty |
| `SearchApi.SearchCompaniesProperties` | backend/app.py:79-117 | empty `sic_codes` gives 400, the same for every server, so no search is made. Otherwise `count` is the list's length, and the list is an ordered selection of the SIC union with exactly its records that pass the filters, with distinct, non-empty numbers |
| `SearchApi.UnfilteredSearchIsUnion` | backend/app.py:89-111 | with no filter requested, the endpoint returns the SIC union unchanged |

## Left out

- HTTP: the requests session, basic authentication, URLs and the 30-second
  timeout. A request is an abstract server answer per attempt.
- Sleep durations (`RATE_LIMIT_DELAY`, `RATE_LIMIT_BACKOFF`, the 5-second
  pause). Only which kind of pause is taken is recorded.
- Logging, everywhere.
- The full SIC description table. It is reference data; `SampleSicTable`
  holds six of its entries and every operation takes the table as a
  parameter.
- The model call and the prompt text (`_build_classification_prompt`). The
  call is the `Llm` parameter.
- `json.loads`. It is a parameter. Confidence values are opaque JSON values
  with no arithmetic.
- backend/services/export_service.py, backend/config.py, the FastAPI
  routing, CORS, the export, health and SIC-code endpoints, and the unused
  results cache are not part of this model.
- The 500 response of `search_companies` (backend/app.py:119-121). It needs
  an exception from the search, and the modelled search cannot raise.
- The spreadsheet written by `main` and its summary counts.
- `enrich_with_people_data` is not in any of the modelled files. It is an
  opaque function parameter, so no officer or owner lookup is modelled.
- The relevance score: no such function exists in the code.
- Unicode: upper and lower case, `strip` white space and the `\w` class of
  `\b` are their ASCII parts.
- In-place mutation and aliasing. Records are values, and every write into a
  record dictionary is a functional update of a list element. This covers
  the search-source tag in `run_search`, the merged label in `main`,
  `likely_chain`, and the classifier's labels. The model does not capture
  that the Python code also changes the caller's dictionaries. Nor does it
  capture that the merge changes a record object still held by the
  per-strategy lists.
- Python exceptions other than the modelled ones: a failed request, a
  failed model call, an undecodable reply, and a parsed entry that is not a
  dictionary. A `company_name` or `company_number` that is present but not a
  string is read as "" instead of raising. So is a missing `company_number`
  in the merge, where the code would raise `KeyError`. A failure while a
  page is processed ends the paged search only in the form of a failed
  request.
- `TruckTyreSearch.PscNamesOf`: a `psc_names` value that is present,
  truthy and not a string (a non-zero number, a non-empty list) is read as
  `None`, so `TruckTyreSearch.TagLikelyChain` flags it "Unknown". The code
  calls `.strip()` on it (backend/truck_tyre_search.py:35) and raises
  `AttributeError` instead. Falsy non-string values give "Unknown" in both.
- `Registry.SearchPaged`: that the start index equals the number of
  records collected is a loop invariant and not part of the `ensures`.
- `Filters.FilterActiveOnly` is modelled but no modelled caller uses it. The
  endpoint asks the registry for active companies through the request
  parameter instead.
