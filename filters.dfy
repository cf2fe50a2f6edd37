/** The record filters of backend/utils/filters.py: keyword inclusion by
    substring, keyword exclusion by whole word, the Northern Ireland heuristic,
    the active-status filter and first-seen deduplication by company number. */
module Filters {
  import opened Records
  import opened Strings
  import opened Seqs

  // ---------------------------------------------------------------------------
  // Include keywords: case-insensitive substring of the company name
  // ---------------------------------------------------------------------------

  /** Some keyword, upper-cased, occurs in the upper-cased company name. */
  predicate IncludeMatch(c: Record, keywords: seq<string>) {
    exists k | 0 <= k < |keywords| :: Contains(Upper(Text(c, CompanyName)), Upper(keywords[k]))
  }

  function IncludeMatcher(keywords: seq<string>): Record -> bool {
    c => IncludeMatch(c, keywords)
  }

  /** What `filter_by_include_keywords` returns. */
  function IncludeFilter(companies: seq<Record>, keywords: seq<string>): seq<Record> {
    if |keywords| == 0 then companies else Filter(companies, IncludeMatcher(keywords))
  }

  method FilterByIncludeKeywords(companies: seq<Record>, keywords: seq<string>)
    returns (filtered: seq<Record>)
    ensures filtered == IncludeFilter(companies, keywords)
  {
    if |keywords| == 0 {
      return companies;
    }
    filtered := [];
    for i := 0 to |companies|
      invariant filtered == Filter(companies[..i], IncludeMatcher(keywords))
    {
      var company := companies[i];
      var name := Upper(Text(company, CompanyName));
      var found := false;
      var j := 0;
      while j < |keywords| && !found
        invariant 0 <= j <= |keywords|
        invariant found <==> exists k | 0 <= k < j :: Contains(name, Upper(keywords[k]))
      {
        if Contains(name, Upper(keywords[j])) {
          found := true;
        }
        j := j + 1;
      }
      FilterStep(companies, i, IncludeMatcher(keywords));
      if found {
        filtered := filtered + [company];
      }
    }
    assert companies[..|companies|] == companies;
  }

  /** The include filter: no keywords keeps the list; otherwise it keeps, in
      order and with their multiplicity, exactly the records whose name holds
      a keyword. */
  lemma IncludeFilterProperties(companies: seq<Record>, keywords: seq<string>)
    ensures |keywords| == 0 ==> IncludeFilter(companies, keywords) == companies
    ensures Subseq(IncludeFilter(companies, keywords), companies)
    ensures forall c :: c in IncludeFilter(companies, keywords) <==>
      c in companies && (|keywords| == 0 || IncludeMatch(c, keywords))
    ensures forall c ::
      multiset(IncludeFilter(companies, keywords))[c] ==
        (if |keywords| == 0 || IncludeMatch(c, keywords) then multiset(companies)[c] else 0)
  {
    if |keywords| == 0 {
      SubseqRefl(companies);
    } else {
      FilterSubseq(companies, IncludeMatcher(keywords));
      forall c
        ensures c in IncludeFilter(companies, keywords) <==> c in companies && IncludeMatch(c, keywords)
        ensures multiset(IncludeFilter(companies, keywords))[c] ==
          if IncludeMatch(c, keywords) then multiset(companies)[c] else 0
      {
        FilterMembership(companies, IncludeMatcher(keywords), c);
        FilterCount(companies, IncludeMatcher(keywords), c);
      }
    }
  }

  // ---------------------------------------------------------------------------
  // Exclude keywords: case-insensitive whole word, as the regex \bKEYWORD\b
  // ---------------------------------------------------------------------------

  /** A character of the regular-expression class \w (ASCII part). */
  predicate IsWordChar(c: char) {
    'A' <= c <= 'Z' || 'a' <= c <= 'z' || '0' <= c <= '9' || c == '_'
  }

  /** Position `p` holds a word character; positions outside the string do not. */
  predicate WordAt(s: string, p: int) {
    0 <= p < |s| && IsWordChar(s[p])
  }

  /** \b matches at position `p`: exactly one of `p - 1` and `p` is a word character. */
  predicate BoundaryAt(s: string, p: int) {
    WordAt(s, p - 1) != WordAt(s, p)
  }

  predicate WholeWordAt(word: string, s: string, i: int) {
    OccursAt(word, s, i) && BoundaryAt(s, i) && BoundaryAt(s, i + |word|)
  }

  /** `re.search(r'\b' + re.escape(word) + r'\b', s)` finds a match. */
  predicate ContainsWholeWord(s: string, word: string) {
    exists i | 0 <= i <= |s| - |word| :: WholeWordAt(word, s, i)
  }

  /** Some upper-cased keyword occurs as a whole word in the upper-cased name. */
  predicate ExcludeMatch(c: Record, keywords: seq<string>) {
    exists k | 0 <= k < |keywords| :: ContainsWholeWord(Upper(Text(c, CompanyName)), Upper(keywords[k]))
  }

  function ExcludeKeeper(keywords: seq<string>): Record -> bool {
    c => !ExcludeMatch(c, keywords)
  }

  /** What `filter_by_exclude_keywords` returns. */
  function ExcludeFilter(companies: seq<Record>, keywords: seq<string>): seq<Record> {
    if |keywords| == 0 then companies else Filter(companies, ExcludeKeeper(keywords))
  }

  method FilterByExcludeKeywords(companies: seq<Record>, keywords: seq<string>)
    returns (filtered: seq<Record>)
    ensures filtered == ExcludeFilter(companies, keywords)
  {
    if |keywords| == 0 {
      return companies;
    }
    filtered := [];
    for i := 0 to |companies|
      invariant filtered == Filter(companies[..i], ExcludeKeeper(keywords))
    {
      var company := companies[i];
      var exclude := HasExcludedWord(Upper(Text(company, CompanyName)), keywords);
      FilterStep(companies, i, ExcludeKeeper(keywords));
      assert ExcludeKeeper(keywords)(company) == !exclude;
      if !exclude {
        filtered := filtered + [company];
      }
    }
    assert companies[..|companies|] == companies;
  }

  /** The inner loop of `filter_by_exclude_keywords`: whether some
      upper-cased keyword occurs in `name` as a whole word. */
  method HasExcludedWord(name: string, keywords: seq<string>) returns (exclude: bool)
    ensures exclude <==> exists k | 0 <= k < |keywords| :: ContainsWholeWord(name, Upper(keywords[k]))
  {
    exclude := false;
    var j := 0;
    while j < |keywords| && !exclude
      invariant 0 <= j <= |keywords|
      invariant exclude <==> exists k | 0 <= k < j :: ContainsWholeWord(name, Upper(keywords[k]))
    {
      if ContainsWholeWord(name, Upper(keywords[j])) {
        exclude := true;
      }
      j := j + 1;
    }
  }

  /** The exclude filter: no keywords keeps the list; otherwise it keeps, in
      order and with their multiplicity, exactly the records whose name holds
      no keyword as a whole word. */
  lemma ExcludeFilterProperties(companies: seq<Record>, keywords: seq<string>)
    ensures |keywords| == 0 ==> ExcludeFilter(companies, keywords) == companies
    ensures Subseq(ExcludeFilter(companies, keywords), companies)
    ensures forall c :: c in ExcludeFilter(companies, keywords) <==>
      c in companies && !ExcludeMatch(c, keywords)
    ensures forall c ::
      multiset(ExcludeFilter(companies, keywords))[c] ==
        (if ExcludeMatch(c, keywords) then 0 else multiset(companies)[c])
  {
    if |keywords| == 0 {
      SubseqRefl(companies);
    } else {
      FilterSubseq(companies, ExcludeKeeper(keywords));
      forall c
        ensures c in ExcludeFilter(companies, keywords) <==> c in companies && !ExcludeMatch(c, keywords)
        ensures multiset(ExcludeFilter(companies, keywords))[c] ==
          if ExcludeMatch(c, keywords) then 0 else multiset(companies)[c]
      {
        FilterMembership(companies, ExcludeKeeper(keywords), c);
        FilterCount(companies, ExcludeKeeper(keywords), c);
      }
    }
  }

  /** Exclusion is stricter than inclusion: a keyword that excludes a record
      as a whole word would also have included it as a substring. */
  lemma ExcludeImpliesInclude(c: Record, keywords: seq<string>)
    requires ExcludeMatch(c, keywords)
    ensures IncludeMatch(c, keywords)
  {
    var name := Upper(Text(c, CompanyName));
    var k :| 0 <= k < |keywords| && ContainsWholeWord(name, Upper(keywords[k]));
    var i :| 0 <= i <= |name| - |Upper(keywords[k])| && WholeWordAt(Upper(keywords[k]), name, i);
    assert OccursAt(Upper(keywords[k]), name, i);
  }

  /** The keyword "car" leaves "Carlton Tyres Ltd" alone but removes "Car Tyres Ltd". */
  lemma CarKeywordIsWholeWord()
    ensures !ContainsWholeWord("CARLTON TYRES LTD", "CAR")
    ensures ContainsWholeWord("CAR TYRES LTD", "CAR")
  {
    var s := "CARLTON TYRES LTD";
    forall i | 0 <= i <= |s| - 3
      ensures !WholeWordAt("CAR", s, i)
    {
      if OccursAt("CAR", s, i) {
        assert s[i] == s[i..i + 3][0] == 'C';
        assert i == 0;
        assert WordAt(s, 2) && WordAt(s, 3);
      }
    }
    var t := "CAR TYRES LTD";
    assert t[0..3] == "CAR";
    assert WholeWordAt("CAR", t, 0);
  }

  // ---------------------------------------------------------------------------
  // Northern Ireland
  // ---------------------------------------------------------------------------

  const NiIndicators: seq<string> :=
    ["NORTHERN IRELAND", "BELFAST", "ANTRIM", "ARMAGH", "DERRY",
     "DOWN", "FERMANAGH", "TYRONE", "LISBURN", "NEWRY"]

  /** The upper-cased full address, locality, region and country, space-joined. */
  function AddressText(c: Record): string {
    Upper(Text(c, FullAddress)) + " " + Upper(Text(c, Locality)) + " "
    + Upper(Text(c, Region)) + " " + Upper(Text(c, Country))
  }

  predicate IsNorthernIreland(c: Record) {
    var number := Number(c);
    if StartsWith(number, "NI") || StartsWith(number, "R0") then true
    else exists k | 0 <= k < |NiIndicators| :: Contains(AddressText(c), NiIndicators[k])
  }

  predicate OutsideNorthernIreland(c: Record) {
    !IsNorthernIreland(c)
  }

  function FilterExcludeNorthernIreland(companies: seq<Record>): seq<Record> {
    Filter(companies, OutsideNorthernIreland)
  }

  /** A company number starting with NI or R0 decides the question whatever the
      address says; the prefix test is case-sensitive. */
  lemma NorthernIrelandByPrefix(c: Record)
    ensures StartsWith(Number(c), "NI") || StartsWith(Number(c), "R0") ==> IsNorthernIreland(c)
    ensures !(StartsWith(Number(c), "NI") || StartsWith(Number(c), "R0")) ==>
      (IsNorthernIreland(c) <==> exists k | 0 <= k < |NiIndicators| :: Contains(AddressText(c), NiIndicators[k]))
  {
  }

  /** A number such as NI123456 marks the record whatever its address. */
  lemma NorthernIrelandNumberExample(address: string)
    ensures IsNorthernIreland(map[CompanyNumber := Str("NI123456"), FullAddress := Str(address)])
  {
    var r := map[CompanyNumber := Str("NI123456"), FullAddress := Str(address)];
    assert Number(r)[..2] == "NI";
  }

  /** A Belfast address marks the record whatever its number. */
  lemma NorthernIrelandAddressExample()
    ensures IsNorthernIreland(map[CompanyNumber := Str("00012345"), Locality := Str("Belfast")])
  {
    var r := map[CompanyNumber := Str("00012345"), Locality := Str("Belfast")];
    assert Number(r) == "00012345";
    assert Number(r)[..2] == "00";
    assert Text(r, FullAddress) == "" && Text(r, Region) == "" && Text(r, Country) == "";
    var locality := Upper("Belfast");
    assert locality == "BELFAST";
    assert AddressText(r) == " " + locality + "  ";
    assert AddressText(r)[1..8] == locality;
    assert OccursAt("BELFAST", AddressText(r), 1);
    assert Contains(AddressText(r), NiIndicators[1]);
  }

  /** Indicators match as plain substrings: DOWN is found inside DOWNPATRICK. */
  lemma NorthernIrelandSubstringExample()
    ensures IsNorthernIreland(map[CompanyNumber := Str("00012345"), Region := Str("Downpatrick")])
  {
    var r := map[CompanyNumber := Str("00012345"), Region := Str("Downpatrick")];
    assert Number(r) == "00012345";
    assert Number(r)[..2] == "00";
    assert Text(r, FullAddress) == "" && Text(r, Locality) == "" && Text(r, Country) == "";
    var region := Upper("Downpatrick");
    assert region[..4] == "DOWN";
    assert AddressText(r) == "  " + region + " ";
    assert AddressText(r)[2..6] == region[..4];
    assert OccursAt("DOWN", AddressText(r), 2);
    assert Contains(AddressText(r), NiIndicators[5]);
  }

  /** The prefix test is case-sensitive: "ni123456" with no address is not marked. */
  lemma NorthernIrelandCaseExample()
    ensures !IsNorthernIreland(map[CompanyNumber := Str("ni123456")])
  {
    var r := map[CompanyNumber := Str("ni123456")];
    assert Number(r) == "ni123456";
    assert Number(r)[..2] == "ni";
    assert AddressText(r) == "   ";
    forall k | 0 <= k < |NiIndicators|
      ensures !Contains(AddressText(r), NiIndicators[k])
    {
      assert |NiIndicators[k]| >= 4;
    }
  }

  /** Keeps exactly the records outside Northern Ireland, in order. */
  lemma NorthernIrelandFilterProperties(companies: seq<Record>)
    ensures Subseq(FilterExcludeNorthernIreland(companies), companies)
    ensures forall c :: c in FilterExcludeNorthernIreland(companies) <==> c in companies && !IsNorthernIreland(c)
    ensures forall c ::
      multiset(FilterExcludeNorthernIreland(companies))[c] ==
        (if IsNorthernIreland(c) then 0 else multiset(companies)[c])
  {
    FilterSubseq(companies, OutsideNorthernIreland);
    forall c
      ensures c in FilterExcludeNorthernIreland(companies) <==> c in companies && !IsNorthernIreland(c)
      ensures multiset(FilterExcludeNorthernIreland(companies))[c] ==
        if IsNorthernIreland(c) then 0 else multiset(companies)[c]
    {
      FilterMembership(companies, OutsideNorthernIreland, c);
      FilterCount(companies, OutsideNorthernIreland, c);
    }
  }

  // ---------------------------------------------------------------------------
  // Active only
  // ---------------------------------------------------------------------------

  predicate IsActive(c: Record) {
    Lower(Text(c, CompanyStatus)) == "active"
  }

  function FilterActiveOnly(companies: seq<Record>): seq<Record> {
    Filter(companies, IsActive)
  }

  /** Keeps exactly the records whose lower-cased status is "active", in order. */
  lemma ActiveFilterProperties(companies: seq<Record>)
    ensures Subseq(FilterActiveOnly(companies), companies)
    ensures forall c :: c in FilterActiveOnly(companies) <==> c in companies && IsActive(c)
    ensures forall i :: 0 <= i < |FilterActiveOnly(companies)| ==> IsActive(FilterActiveOnly(companies)[i])
  {
    FilterSubseq(companies, IsActive);
    FilterSatisfies(companies, IsActive);
    forall c
      ensures c in FilterActiveOnly(companies) <==> c in companies && IsActive(c)
    {
      FilterMembership(companies, IsActive, c);
    }
  }

  // ---------------------------------------------------------------------------
  // Deduplication by company number
  // ---------------------------------------------------------------------------

  predicate DistinctNumbers(s: seq<Record>) {
    forall i, j | 0 <= i < j < |s| :: Number(s[i]) != Number(s[j])
  }

  predicate NonEmptyNumbers(s: seq<Record>) {
    forall i | 0 <= i < |s| :: Number(s[i]) != ""
  }

  lemma NumbersSnoc(s: seq<Record>, c: Record)
    ensures Numbers(s + [c]) == Numbers(s) + {Number(c)}
  {
    var t := s + [c];
    assert Number(t[|s|]) == Number(c);
    forall n | n in Numbers(s) ensures n in Numbers(t) {
      var i :| 0 <= i < |s| && Number(s[i]) == n;
      assert t[i] == s[i];
    }
  }

  /** The first record of `s`, in list order, whose number is `n`. */
  function FirstWith(s: seq<Record>, n: string): Record
    requires n in Numbers(s)
    decreases |s|
  {
    var prefix := s[..|s| - 1];
    NumbersSnoc(prefix, s[|s| - 1]);
    assert s == prefix + [s[|s| - 1]];
    if n in Numbers(prefix) then FirstWith(prefix, n) else s[|s| - 1]
  }

  /** What `deduplicate_companies` returns: the first record for each non-empty
      number, in input order; records with an empty number are dropped. */
  function Dedup(s: seq<Record>): (r: seq<Record>)
    ensures Numbers(r) == Numbers(s) - {""}
    ensures DistinctNumbers(r) && NonEmptyNumbers(r)
    ensures |r| <= |s|
    decreases |s|
  {
    if |s| == 0 then []
    else
      var prefix := s[..|s| - 1];
      var c := s[|s| - 1];
      NumbersSnoc(prefix, c);
      assert s == prefix + [c];
      if Number(c) != "" && Number(c) !in Numbers(prefix) then
        NumbersSnoc(Dedup(prefix), c);
        Dedup(prefix) + [c]
      else
        Dedup(prefix)
  }

  method DeduplicateCompanies(companies: seq<Record>) returns (unique: seq<Record>)
    ensures unique == Dedup(companies)
  {
    var seen: set<string> := {};
    unique := [];
    for i := 0 to |companies|
      invariant unique == Dedup(companies[..i])
      invariant seen == Numbers(companies[..i]) - {""}
    {
      var company := companies[i];
      var num := Number(company);
      assert companies[..i + 1] == companies[..i] + [company];
      NumbersSnoc(companies[..i], company);
      if num != "" && num !in seen {
        seen := seen + {num};
        unique := unique + [company];
      }
    }
    assert companies[..|companies|] == companies;
  }

  /** Each record deduplication keeps is the first one in the input with its number. */
  lemma {:induction false} DedupKeepsFirst(s: seq<Record>)
    ensures forall k :: 0 <= k < |Dedup(s)| ==>
      Number(Dedup(s)[k]) in Numbers(s) && Dedup(s)[k] == FirstWith(s, Number(Dedup(s)[k]))
    decreases |s|
  {
    if |s| > 0 {
      var prefix := s[..|s| - 1];
      var c := s[|s| - 1];
      assert s == prefix + [c];
      NumbersSnoc(prefix, c);
      DedupKeepsFirst(prefix);
      var d := Dedup(s);
      forall k | 0 <= k < |d|
        ensures Number(d[k]) in Numbers(s) && d[k] == FirstWith(s, Number(d[k]))
      {
        if k < |Dedup(prefix)| {
          assert d[k] == Dedup(prefix)[k];
          assert Number(d[k]) in Numbers(prefix);
        } else {
          assert d[k] == c && Number(c) !in Numbers(prefix);
        }
      }
    }
  }

  /** Deduplication keeps records in input order. */
  lemma {:induction false} DedupSubseq(s: seq<Record>)
    ensures Subseq(Dedup(s), s)
    decreases |s|
  {
    if |s| > 0 {
      var prefix := s[..|s| - 1];
      var c := s[|s| - 1];
      assert s == prefix + [c];
      DedupSubseq(prefix);
      SubseqSnoc(Dedup(prefix), prefix, c);
    }
  }

  /** A list whose numbers are already non-empty and distinct is left as it is. */
  lemma {:induction false} DedupOfUnique(s: seq<Record>)
    requires DistinctNumbers(s) && NonEmptyNumbers(s)
    ensures Dedup(s) == s
    decreases |s|
  {
    if |s| > 0 {
      var prefix := s[..|s| - 1];
      var c := s[|s| - 1];
      assert s == prefix + [c];
      DedupOfUnique(prefix);
      assert Number(c) !in Numbers(prefix);
    }
  }

  /** Deduplicating twice is deduplicating once. */
  lemma DedupIdempotent(s: seq<Record>)
    ensures Dedup(Dedup(s)) == Dedup(s)
  {
    DedupOfUnique(Dedup(s));
  }

  /** Selecting records in order keeps the numbers distinct and non-empty. */
  lemma {:induction false} SubseqKeepsUnique(a: seq<Record>, b: seq<Record>)
    requires Subseq(a, b) && DistinctNumbers(b) && NonEmptyNumbers(b)
    ensures DistinctNumbers(a) && NonEmptyNumbers(a)
    decreases |b|
  {
    if |a| > 0 {
      var a' := a[..|a| - 1];
      var b' := b[..|b| - 1];
      assert DistinctNumbers(b') && NonEmptyNumbers(b');
      if a[|a| - 1] == b[|b| - 1] && Subseq(a', b') {
        SubseqKeepsUnique(a', b');
        SubseqMembership(a', b');
        forall i | 0 <= i < |a'|
          ensures Number(a'[i]) != Number(a[|a| - 1])
        {
          assert a'[i] in a';
          var j :| 0 <= j < |b'| && b'[j] == a'[i];
          assert b == b' + [b[|b| - 1]];
          assert Number(b[j]) != Number(b[|b| - 1]);
        }
        assert a == a' + [a[|a| - 1]];
      } else {
        SubseqKeepsUnique(a, b');
      }
    }
  }
}
