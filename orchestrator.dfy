/** The truck-tyre specialist finder: four search strategies run against the
    registry, merged by company number with their source labels combined,
    enriched by an opaque call, flagged as likely chains from their owners'
    names, and laid out in a fixed column order. */
module TruckTyreSearch {
  import opened Records
  import opened Strings
  import opened Seqs
  import Filters
  import Registry

  // ---------------------------------------------------------------------------
  // Likely chain
  // ---------------------------------------------------------------------------

  /** Words that mark an owner as a corporate body. */
  const CorporateKeywords: seq<string> := [
    "ltd", "limited", "plc", "group", "holdings",
    "llp", "inc", "corporation", "corp", "partners",
    "capital", "investments", "enterprises"
  ]

  const ChainYes := "Yes"
  const ChainNo := "No"
  const ChainUnknown := "Unknown"

  /** Some corporate keyword occurs in `name`. */
  predicate MentionsCorporate(name: string) {
    exists k | 0 <= k < |CorporateKeywords| :: Contains(name, CorporateKeywords[k])
  }

  /** The scan over the `;`-separated owner names, stopping at the first
      corporate one. */
  function ScanNames(names: seq<string>): string
    decreases |names|
  {
    if |names| == 0 then ChainNo
    else if MentionsCorporate(Lower(Strip(names[0]))) then ChainYes
    else ScanNames(names[1..])
  }

  /** `is_likely_chain`; `None` stands for a missing value. */
  function IsLikelyChain(pscNames: Option<string>): string {
    if pscNames.None? || pscNames.value == "" || Strip(pscNames.value) == "" then ChainUnknown
    else ScanNames(Split(pscNames.value, ';'))
  }

  lemma {:induction false} ScanNamesYes(names: seq<string>)
    ensures ScanNames(names) == ChainYes || ScanNames(names) == ChainNo
    ensures ScanNames(names) == ChainYes <==>
      exists k :: 0 <= k < |names| && MentionsCorporate(Lower(Strip(names[k])))
    decreases |names|
  {
    if |names| > 0 && !MentionsCorporate(Lower(Strip(names[0]))) {
      ScanNamesYes(names[1..]);
      assert forall k :: 1 <= k < |names| ==> names[k] == names[1..][k - 1];
    }
  }

  lemma KeywordsPlain()
    ensures forall k :: 0 <= k < |CorporateKeywords| ==>
      |CorporateKeywords[k]| > 0 && NoSpace(CorporateKeywords[k]) && ';' !in CorporateKeywords[k]
  {
  }

  /** A keyword occurs in some stripped, lower-cased name exactly when it
      occurs in the lower-cased whole string. */
  lemma CorporateInSomeName(s: string)
    ensures (exists k :: 0 <= k < |Split(s, ';')| && MentionsCorporate(Lower(Strip(Split(s, ';')[k]))))
        <==> MentionsCorporate(Lower(s))
  {
    var names := Split(s, ';');
    KeywordsPlain();
    SplitLower(s, ';');
    forall k | 0 <= k < |names|
      ensures MentionsCorporate(Lower(Strip(names[k]))) <==> MentionsCorporate(Split(Lower(s), ';')[k])
    {
      LowerStrip(names[k]);
      forall w | 0 <= w < |CorporateKeywords|
        ensures Contains(Strip(Lower(names[k])), CorporateKeywords[w]) <==> Contains(Lower(names[k]), CorporateKeywords[w])
      {
        ContainsStrip(Lower(names[k]), CorporateKeywords[w]);
      }
    }
    if MentionsCorporate(Lower(s)) {
      var w :| 0 <= w < |CorporateKeywords| && Contains(Lower(s), CorporateKeywords[w]);
      ContainsSomePiece(Lower(s), CorporateKeywords[w], ';');
      var k :| 0 <= k < |Split(Lower(s), ';')| && Contains(Split(Lower(s), ';')[k], CorporateKeywords[w]);
      assert MentionsCorporate(Split(Lower(s), ';')[k]);
    }
    if exists k :: 0 <= k < |names| && MentionsCorporate(Lower(Strip(names[k]))) {
      var k :| 0 <= k < |names| && MentionsCorporate(Lower(Strip(names[k])));
      var w :| 0 <= w < |CorporateKeywords| && Contains(Split(Lower(s), ';')[k], CorporateKeywords[w]);
      PieceInside(Lower(s), ';', k, CorporateKeywords[w]);
    }
  }

  /** The flag is "Unknown" exactly for a missing, empty or white-space-only
      value; otherwise "Yes" exactly when a corporate keyword occurs anywhere
      in the lower-cased value (so inside a longer word too), else "No". */
  lemma LikelyChainMeaning(pscNames: Option<string>)
    ensures IsLikelyChain(pscNames) == ChainUnknown <==>
      pscNames.None? || forall i :: 0 <= i < |pscNames.value| ==> IsSpace(pscNames.value[i])
    ensures IsLikelyChain(pscNames) == ChainYes <==>
      pscNames.Some? && Strip(pscNames.value) != "" && MentionsCorporate(Lower(pscNames.value))
    ensures IsLikelyChain(pscNames) == ChainNo <==>
      pscNames.Some? && Strip(pscNames.value) != "" && !MentionsCorporate(Lower(pscNames.value))
  {
    if pscNames.Some? {
      StripEmpty(pscNames.value);
      if Strip(pscNames.value) != "" {
        var v := pscNames.value;
        assert v != "";
        assert IsLikelyChain(pscNames) == ScanNames(Split(v, ';'));
        ScanNamesYes(Split(v, ';'));
        CorporateInSomeName(v);
        assert ScanNames(Split(v, ';')) == ChainYes <==> MentionsCorporate(Lower(v));
      }
    }
  }

  /** `inc` inside a personal name counts as corporate. */
  lemma LikelyChainInsideWord()
    ensures IsLikelyChain(Some("Vincent")) == ChainYes
  {
    var s := "Vincent";
    LikelyChainMeaning(Some(s));
    assert !IsSpace(s[0]);
    StripEmpty(s);
    var l := Lower(s);
    assert l[1] == 'i' && l[2] == 'n' && l[3] == 'c';
    assert l[1..4] == CorporateKeywords[6];
    assert OccursAt(CorporateKeywords[6], l, 1);
  }

  /** A blank or missing value is unknown. */
  lemma LikelyChainBlank()
    ensures IsLikelyChain(Some("   ")) == ChainUnknown
    ensures IsLikelyChain(None) == ChainUnknown
  {
    LikelyChainMeaning(Some("   "));
  }

  // ---------------------------------------------------------------------------
  // One search strategy
  // ---------------------------------------------------------------------------

  /** Name searches for each keyword, concatenated in keyword order. */
  function NameResults(server: Registry.Server, table: Registry.SicTable, keywords: seq<string>): seq<Record>
    decreases |keywords|
  {
    if |keywords| == 0 then []
    else NameResults(server, table, keywords[..|keywords| - 1])
         + Registry.NameSearch(server, table, keywords[|keywords| - 1], true)
  }

  /** The records a strategy starts from: the union over its SIC codes,
      narrowed by its include keywords when it has any; failing SIC codes, the
      deduplicated name searches for its keywords; failing both, nothing. */
  function Candidates(server: Registry.Server, table: Registry.SicTable, sicCodes: seq<string>, includeKw: seq<string>): seq<Record> {
    if |sicCodes| > 0 then
      var found := Registry.SicUnion(server, table, sicCodes, true);
      if |includeKw| > 0 then Filters.IncludeFilter(found, includeKw) else found
    else if |includeKw| > 0 then Filters.Dedup(NameResults(server, table, includeKw))
    else []
  }

  /** Every record with its search source set to `sourceLabel`. */
  function Tag(companies: seq<Record>, sourceLabel: string): (r: seq<Record>)
    ensures |r| == |companies|
  {
    seq(|companies|, i requires 0 <= i < |companies| => companies[i][SearchSource := Str(sourceLabel)])
  }

  /** What `run_search` returns. */
  function StrategyResult(server: Registry.Server, table: Registry.SicTable, sourceLabel: string,
                          sicCodes: seq<string>, includeKw: seq<string>, excludeKw: seq<string>): seq<Record>
  {
    Tag(Filters.FilterExcludeNorthernIreland(Narrowed(server, table, sicCodes, includeKw, excludeKw)), sourceLabel)
  }

  /** The candidates without those matching an exclude keyword. */
  function Narrowed(server: Registry.Server, table: Registry.SicTable,
                    sicCodes: seq<string>, includeKw: seq<string>, excludeKw: seq<string>): seq<Record>
  {
    var candidates := Candidates(server, table, sicCodes, includeKw);
    if |excludeKw| > 0 then Filters.ExcludeFilter(candidates, excludeKw) else candidates
  }

  /** `run_search`; an absent list of codes or keywords is the empty list. */
  method RunSearch(server: Registry.Server, table: Registry.SicTable, sourceLabel: string,
                   sicCodes: seq<string>, includeKw: seq<string>, excludeKw: seq<string>)
    returns (companies: seq<Record>)
    ensures companies == StrategyResult(server, table, sourceLabel, sicCodes, includeKw, excludeKw)
  {
    companies := [];
    if |sicCodes| > 0 {
      companies := Registry.SearchBySicCodes(server, table, sicCodes, true);
      if |includeKw| > 0 {
        companies := Filters.FilterByIncludeKeywords(companies, includeKw);
      }
    } else if |includeKw| > 0 {
      for k := 0 to |includeKw|
        invariant companies == NameResults(server, table, includeKw[..k])
      {
        var results := Registry.SearchByCompanyName(server, table, includeKw[k], true);
        assert includeKw[..k + 1][..k] == includeKw[..k];
        companies := companies + results;
      }
      assert includeKw[..|includeKw|] == includeKw;
      companies := Filters.DeduplicateCompanies(companies);
    }
    if |excludeKw| > 0 {
      companies := Filters.FilterByExcludeKeywords(companies, excludeKw);
    }
    companies := Filters.FilterExcludeNorthernIreland(companies);
    ghost var untagged := companies;
    for i := 0 to |companies|
      invariant |companies| == |untagged|
      invariant forall j :: 0 <= j < i ==> companies[j] == untagged[j][SearchSource := Str(sourceLabel)]
      invariant forall j :: i <= j < |companies| ==> companies[j] == untagged[j]
    {
      companies := companies[i := companies[i][SearchSource := Str(sourceLabel)]];
    }
  }

  /** Setting the search source changes no other field. */
  lemma TagKeepsFields(c: Record, sourceLabel: string)
    ensures Number(c[SearchSource := Str(sourceLabel)]) == Number(c)
    ensures Filters.IsNorthernIreland(c[SearchSource := Str(sourceLabel)]) == Filters.IsNorthernIreland(c)
    ensures c[SearchSource := Str(sourceLabel)] - {SearchSource} == c - {SearchSource}
  {
    var t := c[SearchSource := Str(sourceLabel)];
    assert Text(t, FullAddress) == Text(c, FullAddress);
    assert Text(t, Locality) == Text(c, Locality);
    assert Text(t, Region) == Text(c, Region);
    assert Text(t, Country) == Text(c, Country);
    assert Filters.AddressText(t) == Filters.AddressText(c);
  }

  /** The candidates, and what is left of them, have distinct, non-empty numbers. */
  lemma NarrowedUnique(server: Registry.Server, table: Registry.SicTable,
                       sicCodes: seq<string>, includeKw: seq<string>, excludeKw: seq<string>)
    ensures Filters.DistinctNumbers(Narrowed(server, table, sicCodes, includeKw, excludeKw))
    ensures Filters.NonEmptyNumbers(Narrowed(server, table, sicCodes, includeKw, excludeKw))
  {
    var candidates := Candidates(server, table, sicCodes, includeKw);
    assert Filters.DistinctNumbers(candidates) && Filters.NonEmptyNumbers(candidates) by {
      if |sicCodes| > 0 {
        var found := Registry.SicUnion(server, table, sicCodes, true);
        if |includeKw| > 0 {
          Filters.IncludeFilterProperties(found, includeKw);
          Filters.SubseqKeepsUnique(candidates, found);
        }
      }
    }
    if |excludeKw| > 0 {
      Filters.ExcludeFilterProperties(candidates, excludeKw);
      Filters.SubseqKeepsUnique(Filters.ExcludeFilter(candidates, excludeKw), candidates);
    }
  }

  /** Tagging keeps the numbers and the Northern Ireland test of every record. */
  lemma TagProperties(companies: seq<Record>, sourceLabel: string)
    ensures forall i :: 0 <= i < |companies| ==>
      && Text(Tag(companies, sourceLabel)[i], SearchSource) == sourceLabel
      && Number(Tag(companies, sourceLabel)[i]) == Number(companies[i])
      && Filters.IsNorthernIreland(Tag(companies, sourceLabel)[i]) == Filters.IsNorthernIreland(companies[i])
  {
    forall i | 0 <= i < |companies|
      ensures Text(Tag(companies, sourceLabel)[i], SearchSource) == sourceLabel
      ensures Number(Tag(companies, sourceLabel)[i]) == Number(companies[i])
      ensures Filters.IsNorthernIreland(Tag(companies, sourceLabel)[i]) == Filters.IsNorthernIreland(companies[i])
    {
      TagKeepsFields(companies[i], sourceLabel);
    }
  }

  /** A strategy with neither SIC codes nor include keywords finds nothing;
      every record a strategy returns carries its label, lies outside Northern
      Ireland, and has a non-empty number no other returned record has. */
  lemma StrategyResultProperties(server: Registry.Server, table: Registry.SicTable, sourceLabel: string,
                                 sicCodes: seq<string>, includeKw: seq<string>, excludeKw: seq<string>)
    ensures |sicCodes| == 0 && |includeKw| == 0 ==>
      StrategyResult(server, table, sourceLabel, sicCodes, includeKw, excludeKw) == []
    ensures forall i :: 0 <= i < |StrategyResult(server, table, sourceLabel, sicCodes, includeKw, excludeKw)| ==>
      var c := StrategyResult(server, table, sourceLabel, sicCodes, includeKw, excludeKw)[i];
      Text(c, SearchSource) == sourceLabel && !Filters.IsNorthernIreland(c)
    ensures Filters.DistinctNumbers(StrategyResult(server, table, sourceLabel, sicCodes, includeKw, excludeKw))
    ensures Filters.NonEmptyNumbers(StrategyResult(server, table, sourceLabel, sicCodes, includeKw, excludeKw))
  {
    NarrowedUnique(server, table, sicCodes, includeKw, excludeKw);
    TaggedOutside(Narrowed(server, table, sicCodes, includeKw, excludeKw), sourceLabel);
  }

  /** The last two steps of `run_search` on records with distinct, non-empty
      numbers. */
  lemma TaggedOutside(kept: seq<Record>, sourceLabel: string)
    requires Filters.DistinctNumbers(kept) && Filters.NonEmptyNumbers(kept)
    ensures var r := Tag(Filters.FilterExcludeNorthernIreland(kept), sourceLabel);
      forall i :: 0 <= i < |r| ==> Text(r[i], SearchSource) == sourceLabel && !Filters.IsNorthernIreland(r[i])
    ensures Filters.DistinctNumbers(Tag(Filters.FilterExcludeNorthernIreland(kept), sourceLabel))
    ensures Filters.NonEmptyNumbers(Tag(Filters.FilterExcludeNorthernIreland(kept), sourceLabel))
  {
    var outside := Filters.FilterExcludeNorthernIreland(kept);
    Filters.NorthernIrelandFilterProperties(kept);
    Filters.SubseqKeepsUnique(outside, kept);
    TagProperties(outside, sourceLabel);
    forall i | 0 <= i < |outside|
      ensures !Filters.IsNorthernIreland(outside[i])
    {
      assert outside[i] in outside;
    }
  }

  // ---------------------------------------------------------------------------
  // Merging the strategies' results
  // ---------------------------------------------------------------------------

  /** The insertion-ordered dictionary `source_map`: its keys in insertion
      order and its entries. */
  datatype SourceMap = SourceMap(keys: seq<string>, entries: map<string, Record>)

  /** The keys are distinct and are exactly the entries' keys, and each entry
      is filed under its own company number. */
  ghost predicate ValidSourceMap(m: SourceMap) {
    && (forall i, j :: 0 <= i < j < |m.keys| ==> m.keys[i] != m.keys[j])
    && (forall k :: k in m.entries <==> k in m.keys)
    && (forall k :: k in m.entries ==> Number(m.entries[k]) == k)
  }

  /** One iteration of the merge loop. */
  function MergeInto(m: SourceMap, c: Record): SourceMap {
    var num := Number(c);
    if num in m.entries then
      var existing := Text(m.entries[num], SearchSource);
      var newSource := Text(c, SearchSource);
      if Contains(existing, newSource) then m
      else SourceMap(m.keys, m.entries[num := m.entries[num][SearchSource := Str(existing + "; " + newSource)]])
    else SourceMap(m.keys + [num], m.entries[num := c])
  }

  /** The dictionary after merging every record of `all`. */
  function MergeAll(all: seq<Record>): (m: SourceMap)
    ensures ValidSourceMap(m)
    ensures m.entries.Keys == Numbers(all)
    ensures |m.keys| <= |all|
    decreases |all|
  {
    if |all| == 0 then SourceMap([], map[])
    else
      var prefix := all[..|all| - 1];
      var c := all[|all| - 1];
      Filters.NumbersSnoc(prefix, c);
      assert all == prefix + [c];
      var m := MergeAll(prefix);
      var num := Number(c);
      if num in m.entries then
        TagKeepsFields(m.entries[num], Text(m.entries[num], SearchSource) + "; " + Text(c, SearchSource));
        MergeInto(m, c)
      else
        MergeInto(m, c)
  }

  /** `list(source_map.values())`. */
  function Values(m: SourceMap): (r: seq<Record>)
    requires ValidSourceMap(m)
    ensures |r| == |m.keys|
    ensures forall i :: 0 <= i < |r| ==> r[i] == m.entries[m.keys[i]] && Number(r[i]) == m.keys[i]
  {
    seq(|m.keys|, i requires 0 <= i < |m.keys| => m.entries[m.keys[i]])
  }

  function MergeSources(all: seq<Record>): seq<Record> {
    Values(MergeAll(all))
  }

  /** The merge loop of `main` over the four strategies' combined results. */
  method MergeSearchResults(all: seq<Record>) returns (unique: seq<Record>)
    ensures unique == MergeSources(all)
  {
    var sourceMap: map<string, Record> := map[];
    var order: seq<string> := [];
    for i := 0 to |all|
      invariant SourceMap(order, sourceMap) == MergeAll(all[..i])
    {
      var c := all[i];
      ghost var before := SourceMap(order, sourceMap);
      MergeStepAt(all, i);
      var num := Number(c);
      if num in sourceMap {
        var existing := Text(sourceMap[num], SearchSource);
        var newSource := Text(c, SearchSource);
        if !Contains(existing, newSource) {
          sourceMap := sourceMap[num := sourceMap[num][SearchSource := Str(existing + "; " + newSource)]];
        }
      } else {
        sourceMap := sourceMap[num := c];
        order := order + [num];
      }
      assert SourceMap(order, sourceMap) == MergeInto(before, c);
    }
    assert all[..|all|] == all;
    ghost var m := MergeAll(all);
    unique := seq(|order|, i requires 0 <= i < |order| && order[i] in sourceMap => sourceMap[order[i]]);
    assert unique == Values(m) by {
      assert |unique| == |Values(m)|;
      forall i | 0 <= i < |unique|
        ensures unique[i] == Values(m)[i]
      {
      }
    }
  }

  /** The merge of the first `i + 1` records is one merge step after that of
      the first `i`. */
  lemma MergeStepAt(all: seq<Record>, i: nat)
    requires i < |all|
    ensures MergeAll(all[..i + 1]) == MergeInto(MergeAll(all[..i]), all[i])
  {
    assert all[..i + 1] == all[..i] + [all[i]];
    MergeAllSnoc(all[..i], all[i]);
  }

  /** Merging one more record is one more merge step. */
  lemma MergeAllSnoc(prefix: seq<Record>, c: Record)
    ensures MergeAll(prefix + [c]) == MergeInto(MergeAll(prefix), c)
  {
    assert (prefix + [c])[..|prefix + [c]| - 1] == prefix;
  }

  /** The position of the first record of `s` whose number is `n`. */
  function FirstIndex(s: seq<Record>, n: string): (r: nat)
    requires n in Numbers(s)
    ensures r < |s| && Number(s[r]) == n
    decreases |s|
  {
    var prefix := s[..|s| - 1];
    Filters.NumbersSnoc(prefix, s[|s| - 1]);
    assert s == prefix + [s[|s| - 1]];
    if n in Numbers(prefix) then FirstIndex(prefix, n) else |s| - 1
  }

  /** No record before position `FirstIndex(s, n)` has number `n`. */
  lemma {:induction false} FirstIndexIsFirst(s: seq<Record>, n: string)
    requires n in Numbers(s)
    ensures forall j :: 0 <= j < FirstIndex(s, n) ==> Number(s[j]) != n
    decreases |s|
  {
    var prefix := s[..|s| - 1];
    Filters.NumbersSnoc(prefix, s[|s| - 1]);
    assert s == prefix + [s[|s| - 1]];
    if n in Numbers(prefix) {
      FirstIndexIsFirst(prefix, n);
    } else {
      forall j | 0 <= j < |s| - 1
        ensures Number(s[j]) != n
      {
        assert Number(prefix[j]) in Numbers(prefix);
      }
    }
  }

  /** Appending a record moves no first appearance of a number already seen,
      and a new number first appears at the end. */
  lemma FirstIndexSnoc(s: seq<Record>, c: Record, n: string)
    requires n in Numbers(s) || n == Number(c)
    ensures n in Numbers(s + [c])
    ensures n in Numbers(s) ==> FirstIndex(s + [c], n) == FirstIndex(s, n)
    ensures n !in Numbers(s) ==> FirstIndex(s + [c], n) == |s|
  {
    Filters.NumbersSnoc(s, c);
    assert (s + [c])[..|s + [c]| - 1] == s;
  }

  /** `e`, filed under `k`, is the first record of `all` with number `k`
      except for its source label, which begins with that record's label. */
  predicate FirstSeenSurvivor(all: seq<Record>, k: string, e: Record) {
    k in Numbers(all)
    && e - {SearchSource} == all[FirstIndex(all, k)] - {SearchSource}
    && StartsWith(Text(e, SearchSource), Text(all[FirstIndex(all, k)], SearchSource))
  }

  /** One merge step keeps every survivor a first-seen survivor. */
  lemma MergeStepFirstSeen(prefix: seq<Record>, c: Record, m: SourceMap, k: string)
    requires m.entries.Keys == Numbers(prefix)
    requires k in m.entries ==> FirstSeenSurvivor(prefix, k, m.entries[k])
    requires k in MergeInto(m, c).entries
    ensures FirstSeenSurvivor(prefix + [c], k, MergeInto(m, c).entries[k])
  {
    var all := prefix + [c];
    FirstIndexSnoc(prefix, c, k);
    if k in m.entries {
      var e := m.entries[k];
      var existing := Text(e, SearchSource);
      var newSource := Text(c, SearchSource);
      if k == Number(c) && !Contains(existing, newSource) {
        var joined := existing + "; " + newSource;
        TagKeepsFields(e, joined);
        StartsWithExtend(existing, "; " + newSource, Text(prefix[FirstIndex(prefix, k)], SearchSource));
        assert existing + ("; " + newSource) == joined;
        assert MergeInto(m, c).entries[k] == e[SearchSource := Str(joined)];
      } else {
        assert MergeInto(m, c).entries[k] == e;
      }
      assert all[FirstIndex(all, k)] == prefix[FirstIndex(prefix, k)];
    } else {
      assert MergeInto(m, c).entries[k] == c;
      assert all[FirstIndex(all, k)] == c;
      assert Text(c, SearchSource)[..|Text(c, SearchSource)|] == Text(c, SearchSource);
    }
  }

  /** Each survivor is the first record seen with its number, apart from its
      source label, which begins with that record's label. */
  lemma {:induction false} MergeAllFirstSeen(all: seq<Record>)
    ensures forall k :: k in MergeAll(all).entries ==> FirstSeenSurvivor(all, k, MergeAll(all).entries[k])
    decreases |all|
  {
    if |all| > 0 {
      var prefix := all[..|all| - 1];
      var c := all[|all| - 1];
      assert all == prefix + [c];
      MergeAllFirstSeen(prefix);
      MergeAllSnoc(prefix, c);
      forall k | k in MergeAll(all).entries
        ensures FirstSeenSurvivor(all, k, MergeAll(all).entries[k])
      {
        MergeStepFirstSeen(prefix, c, MergeAll(prefix), k);
      }
    }
  }

  /** The keys are in order of first appearance. */
  predicate KeysInFirstSeenOrder(all: seq<Record>, keys: seq<string>) {
    forall i, j :: 0 <= i < j < |keys| ==>
      keys[i] in Numbers(all) && keys[j] in Numbers(all) &&
      FirstIndex(all, keys[i]) < FirstIndex(all, keys[j])
  }

  /** One merge step keeps the keys in order of first appearance. */
  lemma MergeStepOrder(prefix: seq<Record>, c: Record, m: SourceMap)
    requires ValidSourceMap(m) && m.entries.Keys == Numbers(prefix)
    requires KeysInFirstSeenOrder(prefix, m.keys)
    ensures KeysInFirstSeenOrder(prefix + [c], MergeInto(m, c).keys)
  {
    var all := prefix + [c];
    var keys := MergeInto(m, c).keys;
    forall i | 0 <= i < |m.keys|
      ensures m.keys[i] in Numbers(prefix) && m.keys[i] in Numbers(all)
      ensures FirstIndex(all, m.keys[i]) == FirstIndex(prefix, m.keys[i]) < |prefix|
    {
      assert m.keys[i] in m.entries;
      FirstIndexSnoc(prefix, c, m.keys[i]);
    }
    if Number(c) !in m.entries {
      FirstIndexSnoc(prefix, c, Number(c));
      assert keys == m.keys + [Number(c)];
      forall i, j | 0 <= i < j < |keys|
        ensures keys[i] in Numbers(all) && keys[j] in Numbers(all)
        ensures FirstIndex(all, keys[i]) < FirstIndex(all, keys[j])
      {
        assert keys[i] == m.keys[i];
        if j < |m.keys| {
          assert keys[j] == m.keys[j];
        }
      }
    }
  }

  /** The keys of the dictionary are in order of first appearance. */
  lemma {:induction false} MergeAllOrder(all: seq<Record>)
    ensures KeysInFirstSeenOrder(all, MergeAll(all).keys)
    decreases |all|
  {
    if |all| > 0 {
      var prefix := all[..|all| - 1];
      var c := all[|all| - 1];
      assert all == prefix + [c];
      MergeAllOrder(prefix);
      MergeAllSnoc(prefix, c);
      MergeStepOrder(prefix, c, MergeAll(prefix));
    }
  }

  /** Every record's source label occurs in the label of the survivor filed
      under its number. */
  predicate LabelsKept(all: seq<Record>, m: SourceMap) {
    forall p :: 0 <= p < |all| ==>
      Number(all[p]) in m.entries &&
      Contains(Text(m.entries[Number(all[p])], SearchSource), Text(all[p], SearchSource))
  }

  /** One merge step keeps every label seen so far and adds the new one. */
  lemma MergeStepLabels(prefix: seq<Record>, c: Record, m: SourceMap)
    requires LabelsKept(prefix, m)
    ensures LabelsKept(prefix + [c], MergeInto(m, c))
  {
    var all := prefix + [c];
    var m' := MergeInto(m, c);
    var newSource := Text(c, SearchSource);
    ContainsSelf(newSource);
    forall p | 0 <= p < |all|
      ensures Number(all[p]) in m'.entries
      ensures Contains(Text(m'.entries[Number(all[p])], SearchSource), Text(all[p], SearchSource))
    {
      var k := Number(all[p]);
      if p < |prefix| {
        assert all[p] == prefix[p];
        if k == Number(c) && !Contains(Text(m.entries[k], SearchSource), newSource) {
          ContainsEitherPart(Text(m.entries[k], SearchSource), "; ", newSource, Text(all[p], SearchSource));
        }
      } else {
        assert all[p] == c;
        if k in m.entries && !Contains(Text(m.entries[k], SearchSource), newSource) {
          ContainsEitherPart(Text(m.entries[k], SearchSource), "; ", newSource, newSource);
        }
      }
    }
  }

  lemma {:induction false} MergeAllLabels(all: seq<Record>)
    ensures LabelsKept(all, MergeAll(all))
    decreases |all|
  {
    if |all| > 0 {
      var prefix := all[..|all| - 1];
      var c := all[|all| - 1];
      assert all == prefix + [c];
      MergeAllLabels(prefix);
      MergeAllSnoc(prefix, c);
      MergeStepLabels(prefix, c, MergeAll(prefix));
    }
  }

  /** The merge keeps exactly one record per company number found, records
      with an empty number collapsing into one. */
  lemma MergeKeepsOnePerNumber(all: seq<Record>)
    ensures var r := MergeSources(all);
      |r| <= |all| && Numbers(r) == Numbers(all) && Filters.DistinctNumbers(r)
  {
    var m := MergeAll(all);
    var r := MergeSources(all);
    forall n | n in Numbers(all)
      ensures n in Numbers(r)
    {
      var i :| 0 <= i < |m.keys| && m.keys[i] == n;
      assert Number(r[i]) == n;
    }
  }

  /** Each survivor is the first record seen with its number, apart from its
      source label, which begins with that record's label. */
  lemma MergeFirstSeen(all: seq<Record>)
    ensures var r := MergeSources(all);
      forall i :: 0 <= i < |r| ==> FirstSeenSurvivor(all, Number(r[i]), r[i])
  {
    var m := MergeAll(all);
    MergeAllFirstSeen(all);
    forall i | 0 <= i < |m.keys|
      ensures m.keys[i] in m.entries
    {
    }
  }

  /** Survivors come in order of first appearance. */
  lemma MergeOrder(all: seq<Record>)
    ensures var r := MergeSources(all);
      forall i, j :: 0 <= i < j < |r| ==>
        Number(r[i]) in Numbers(all) && Number(r[j]) in Numbers(all) &&
        FirstIndex(all, Number(r[i])) < FirstIndex(all, Number(r[j]))
  {
    MergeAllOrder(all);
  }

  /** Every record's source label occurs in the label of the survivor that
      carries its number. */
  lemma MergeLabels(all: seq<Record>)
    ensures var r := MergeSources(all);
      forall p :: 0 <= p < |all| ==>
        exists i :: 0 <= i < |r| && Number(r[i]) == Number(all[p]) &&
          Contains(Text(r[i], SearchSource), Text(all[p], SearchSource))
  {
    var m := MergeAll(all);
    var r := MergeSources(all);
    MergeAllLabels(all);
    forall p | 0 <= p < |all|
      ensures exists i ::
        0 <= i < |r| && Number(r[i]) == Number(all[p]) &&
        Contains(Text(r[i], SearchSource), Text(all[p], SearchSource))
    {
      var i :| 0 <= i < |m.keys| && m.keys[i] == Number(all[p]);
      assert Number(r[i]) == Number(all[p]);
    }
  }

  /** The source labels of the records numbered `n`, in input order. */
  function SourceLabels(all: seq<Record>, n: string): (r: seq<string>)
    ensures |r| == 0 <==> n !in Numbers(all)
    decreases |all|
  {
    if |all| == 0 then []
    else
      var prefix := all[..|all| - 1];
      var c := all[|all| - 1];
      Filters.NumbersSnoc(prefix, c);
      assert all == prefix + [c];
      SourceLabels(prefix, n) + (if Number(c) == n then [Text(c, SearchSource)] else [])
  }

  /** The label built from labels met in order: the first one, then each
      later one appended after "; " unless it already occurs in the label so
      far. */
  function FoldLabels(labels: seq<string>): string
    decreases |labels|
  {
    if |labels| == 0 then ""
    else if |labels| == 1 then labels[0]
    else
      var soFar := FoldLabels(labels[..|labels| - 1]);
      var next := labels[|labels| - 1];
      if Contains(soFar, next) then soFar else soFar + "; " + next
  }

  /** Folding one more label. */
  lemma FoldLabelsSnoc(labels: seq<string>, next: string)
    requires |labels| > 0
    ensures FoldLabels(labels + [next]) ==
      if Contains(FoldLabels(labels), next) then FoldLabels(labels) else FoldLabels(labels) + "; " + next
  {
    assert (labels + [next])[..|labels|] == labels;
  }

  /** Adding one record adds its label to the labels of its own number only. */
  lemma SourceLabelsSnoc(prefix: seq<Record>, c: Record, n: string)
    ensures SourceLabels(prefix + [c], n) ==
      SourceLabels(prefix, n) + (if Number(c) == n then [Text(c, SearchSource)] else [])
  {
    var all := prefix + [c];
    assert all[..|all| - 1] == prefix;
  }

  /** A merge step for a number already in the dictionary folds in the new
      record's label. */
  lemma MergeStepFoldSame(m: SourceMap, c: Record, labels: seq<string>)
    requires Number(c) in m.entries
    requires |labels| > 0
    requires Text(m.entries[Number(c)], SearchSource) == FoldLabels(labels)
    ensures Text(MergeInto(m, c).entries[Number(c)], SearchSource) == FoldLabels(labels + [Text(c, SearchSource)])
  {
    FoldLabelsSnoc(labels, Text(c, SearchSource));
  }

  /** One merge step keeps the entry under `n` labelled with the fold of the
      labels of the records numbered `n`. */
  lemma MergeStepFold(prefix: seq<Record>, c: Record, m: SourceMap, n: string)
    requires m.entries.Keys == Numbers(prefix)
    requires n in m.entries ==> Text(m.entries[n], SearchSource) == FoldLabels(SourceLabels(prefix, n))
    requires n in MergeInto(m, c).entries
    ensures Text(MergeInto(m, c).entries[n], SearchSource) == FoldLabels(SourceLabels(prefix + [c], n))
  {
    SourceLabelsSnoc(prefix, c, n);
    var labels := SourceLabels(prefix, n);
    if Number(c) != n {
      assert SourceLabels(prefix + [c], n) == labels by {
        assert labels + [] == labels;
      }
      MergeIntoOther(m, c, n);
    } else if n in m.entries {
      MergeStepFoldSame(m, c, labels);
    } else {
      assert labels == [];
      assert SourceLabels(prefix + [c], n) == [Text(c, SearchSource)];
      MergeIntoNew(m, c);
    }
  }

  /** A merge step leaves the entries of other numbers alone. */
  lemma MergeIntoOther(m: SourceMap, c: Record, n: string)
    requires Number(c) != n
    requires n in m.entries
    ensures n in MergeInto(m, c).entries && MergeInto(m, c).entries[n] == m.entries[n]
  {
  }

  /** A record with a new number is filed as it is. */
  lemma MergeIntoNew(m: SourceMap, c: Record)
    requires Number(c) !in m.entries
    ensures Number(c) in MergeInto(m, c).entries && MergeInto(m, c).entries[Number(c)] == c
  {
  }

  /** Every entry of the dictionary is labelled with the fold of the labels
      of the records filed under its number, in input order. */
  lemma {:induction false} MergeAllFoldsLabels(all: seq<Record>)
    ensures forall n :: n in MergeAll(all).entries ==>
      Text(MergeAll(all).entries[n], SearchSource) == FoldLabels(SourceLabels(all, n))
    decreases |all|
  {
    if |all| > 0 {
      var prefix := all[..|all| - 1];
      var c := all[|all| - 1];
      assert all == prefix + [c];
      MergeAllFoldsLabels(prefix);
      MergeAllSnoc(prefix, c);
      forall n | n in MergeAll(all).entries
        ensures Text(MergeAll(all).entries[n], SearchSource) == FoldLabels(SourceLabels(all, n))
      {
        MergeStepFold(prefix, c, MergeAll(prefix), n);
      }
    }
  }

  /** The label rule of the merge: each survivor's label is the first label
      seen for its number, followed by each later label for that number that
      did not already occur in it, joined by "; ". */
  lemma MergeLabelRule(all: seq<Record>)
    ensures var r := MergeSources(all);
      forall i :: 0 <= i < |r| ==> Text(r[i], SearchSource) == FoldLabels(SourceLabels(all, Number(r[i])))
  {
    var m := MergeAll(all);
    MergeAllFoldsLabels(all);
    forall i | 0 <= i < |m.keys|
      ensures m.keys[i] in m.entries
    {
    }
  }

  /** A label met again adds nothing: every label folded so far occurs in
      the fold. */
  lemma {:induction false} FoldLabelsContains(labels: seq<string>)
    ensures forall k :: 0 <= k < |labels| ==> Contains(FoldLabels(labels), labels[k])
    decreases |labels|
  {
    if |labels| == 1 {
      ContainsSelf(labels[0]);
    } else if |labels| > 1 {
      var prev := labels[..|labels| - 1];
      var next := labels[|labels| - 1];
      FoldLabelsContains(prev);
      FoldLabelsSnoc(prev, next);
      assert labels == prev + [next];
      forall k | 0 <= k < |labels|
        ensures Contains(FoldLabels(labels), labels[k])
      {
        if !Contains(FoldLabels(prev), next) {
          if k < |prev| {
            assert labels[k] == prev[k];
            ContainsEitherPart(FoldLabels(prev), "; ", next, labels[k]);
          } else {
            ContainsSelf(next);
            ContainsEitherPart(FoldLabels(prev), "; ", next, next);
          }
        }
      }
    }
  }

  /** A strategy label met a second time leaves the merged label as it was. */
  lemma FoldLabelsRepeat(labels: seq<string>, next: string)
    requires next in labels
    ensures FoldLabels(labels + [next]) == FoldLabels(labels)
  {
    FoldLabelsContains(labels);
    FoldLabelsSnoc(labels, next);
  }

  /** The labels of two different strategies are joined with "; ". */
  lemma FoldLabelsJoinExample()
    ensures FoldLabels(["SIC 22110 + tyre/truck", "SIC 45320 + tyre (retail)"])
         == "SIC 22110 + tyre/truck; SIC 45320 + tyre (retail)"
  {
    var first := "SIC 22110 + tyre/truck";
    var second := "SIC 45320 + tyre (retail)";
    FoldLabelsSnoc([first], second);
    assert [first] + [second] == [first, second];
    assert |second| > |first|;
    NotContainsLonger(first, second);
  }

  /** A company found again by the first strategy after a second one keeps
      the joined label of the two. */
  lemma FoldLabelsRepeatExample()
    ensures FoldLabels(["SIC 22110 + tyre/truck", "SIC 45320 + tyre (retail)", "SIC 22110 + tyre/truck"])
         == "SIC 22110 + tyre/truck; SIC 45320 + tyre (retail)"
  {
    var first := "SIC 22110 + tyre/truck";
    var second := "SIC 45320 + tyre (retail)";
    var joined := "SIC 22110 + tyre/truck; SIC 45320 + tyre (retail)";
    FoldLabelsJoinExample();
    FoldLabelsSnoc([first, second], first);
    assert [first, second] + [first] == [first, second, first];
    assert joined[..|first|] == first;
    assert OccursAt(first, joined, 0);
  }

  // ---------------------------------------------------------------------------
  // Likely-chain flags and column order
  // ---------------------------------------------------------------------------

  /** `company.get('psc_names', '')`: absent reads as "", null as `None`;
      a non-text value is taken as `None`. */
  function PscNamesOf(c: Record): Option<string> {
    if PscNames !in c then Some("")
    else match c[PscNames]
      case Str(s) => Some(s)
      case _ => None
  }

  /** The loop that sets `likely_chain` on every enriched record. */
  method TagLikelyChain(companies: seq<Record>) returns (flagged: seq<Record>)
    ensures |flagged| == |companies|
    ensures forall i :: 0 <= i < |companies| ==>
      flagged[i] == companies[i][LikelyChain := Str(IsLikelyChain(PscNamesOf(companies[i])))]
  {
    flagged := companies;
    for i := 0 to |flagged|
      invariant |flagged| == |companies|
      invariant forall j :: 0 <= j < i ==>
        flagged[j] == companies[j][LikelyChain := Str(IsLikelyChain(PscNamesOf(companies[j])))]
      invariant forall j :: i <= j < |flagged| ==> flagged[j] == companies[j]
    {
      flagged := flagged[i := flagged[i][LikelyChain := Str(IsLikelyChain(PscNamesOf(flagged[i])))]];
    }
  }

  /** The column list of the spreadsheet. */
  const Columns: seq<string> := [
    CompanyName, CompanyNumber, CompanyStatus, LikelyChain,
    SearchSource, SicCodesField, SicDescriptionsField,
    FullAddress, Locality, Region, PostalCode,
    DateOfCreation,
    "directors_count", "directors_names",
    "psc_count", PscNames, "psc_control",
    "companies_house_url"
  ]

  predicate DistinctStrings(xs: seq<string>) {
    forall i, j :: 0 <= i < j < |xs| ==> xs[i] != xs[j]
  }

  function InList(xs: seq<string>): string -> bool {
    c => c in xs
  }

  function NotInList(xs: seq<string>): string -> bool {
    c => c !in xs
  }

  /** The listed columns the frame has, in list order, then the frame's other
      columns in frame order. */
  function ReorderColumns(columns: seq<string>, frame: seq<string>): seq<string> {
    Filter(columns, InList(frame)) + Filter(frame, NotInList(columns))
  }

  lemma {:induction false} DistinctCount(xs: seq<string>, x: string)
    requires DistinctStrings(xs)
    ensures multiset(xs)[x] == if x in xs then 1 else 0
    decreases |xs|
  {
    if |xs| > 0 {
      var xs' := xs[..|xs| - 1];
      assert xs == xs' + [xs[|xs| - 1]];
      DistinctCount(xs', x);
    }
  }

  /** With distinct column names on both sides, the reordering is a
      permutation of the frame's columns: the listed ones first, in list
      order, the rest after them, in frame order. */
  lemma ReorderColumnsProperties(columns: seq<string>, frame: seq<string>)
    requires DistinctStrings(columns) && DistinctStrings(frame)
    ensures multiset(ReorderColumns(columns, frame)) == multiset(frame)
    ensures var r := ReorderColumns(columns, frame);
      var n := |Filter(columns, InList(frame))|;
      && Subseq(r[..n], columns) && Subseq(r[n..], frame)
      && (forall i :: 0 <= i < n ==> r[i] in columns)
      && (forall i :: n <= i < |r| ==> r[i] !in columns)
  {
    var ordered := Filter(columns, InList(frame));
    var extra := Filter(frame, NotInList(columns));
    var r := ordered + extra;
    forall x
      ensures multiset(r)[x] == multiset(frame)[x]
    {
      FilterCount(columns, InList(frame), x);
      FilterCount(frame, NotInList(columns), x);
      DistinctCount(columns, x);
      DistinctCount(frame, x);
    }
    assert multiset(r) == multiset(frame);
    FilterSubseq(columns, InList(frame));
    FilterSubseq(frame, NotInList(columns));
    assert r[..|ordered|] == ordered && r[|ordered|..] == extra;
    forall i | 0 <= i < |ordered|
      ensures r[i] in columns
    {
      FilterMembership(columns, InList(frame), ordered[i]);
    }
    FilterSatisfies(frame, NotInList(columns));
  }

  // ---------------------------------------------------------------------------
  // The whole run
  // ---------------------------------------------------------------------------

  /** A search strategy: its sourceLabel, SIC codes and keywords. */
  datatype Strategy = Strategy(sourceLabel: string, sicCodes: seq<string>, includeKw: seq<string>, excludeKw: seq<string>)

  const Strategies: seq<Strategy> := [
    Strategy("SIC 22110 + tyre/truck", ["22110"], ["tyre", "tire", "truck"], []),
    Strategy("Keyword: truck/commercial/HGV tyre", [],
             ["truck tyre", "truck tire", "commercial tyre", "commercial tire", "HGV tyre"], []),
    Strategy("SIC 45320 + tyre (retail)", ["45320"], ["tyre", "tire"],
             ["car", "bicycle", "cycle", "motorcycle", "motorbike"]),
    Strategy("SIC 45310 + tyre (wholesale)", ["45310"], ["tyre", "tire"], [])
  ]

  function RunStrategy(server: Registry.Server, table: Registry.SicTable, s: Strategy): seq<Record> {
    StrategyResult(server, table, s.sourceLabel, s.sicCodes, s.includeKw, s.excludeKw)
  }

  /** The four strategies' results, one after the other. */
  function CombinedResults(server: Registry.Server, table: Registry.SicTable): seq<Record> {
    RunStrategy(server, table, Strategies[0]) + RunStrategy(server, table, Strategies[1])
    + RunStrategy(server, table, Strategies[2]) + RunStrategy(server, table, Strategies[3])
  }

  /** `main` up to the spreadsheet: the merged records, enriched by `enrich`
      and flagged; nothing when no company was found. */
  method FindSpecialists(server: Registry.Server, table: Registry.SicTable, enrich: seq<Record> -> seq<Record>)
    returns (companies: seq<Record>)
    ensures var merged := MergeSources(CombinedResults(server, table));
      merged == [] ==> companies == []
    ensures var merged := MergeSources(CombinedResults(server, table));
      merged != [] ==> |companies| == |enrich(merged)|
    ensures var merged := MergeSources(CombinedResults(server, table));
      merged != [] ==>
        forall i :: 0 <= i < |companies| ==>
          companies[i] == enrich(merged)[i][LikelyChain := Str(IsLikelyChain(PscNamesOf(enrich(merged)[i])))]
  {
    var s1 := RunSearch(server, table, Strategies[0].sourceLabel, Strategies[0].sicCodes, Strategies[0].includeKw, Strategies[0].excludeKw);
    var s2 := RunSearch(server, table, Strategies[1].sourceLabel, Strategies[1].sicCodes, Strategies[1].includeKw, Strategies[1].excludeKw);
    var s3 := RunSearch(server, table, Strategies[2].sourceLabel, Strategies[2].sicCodes, Strategies[2].includeKw, Strategies[2].excludeKw);
    var s4 := RunSearch(server, table, Strategies[3].sourceLabel, Strategies[3].sicCodes, Strategies[3].includeKw, Strategies[3].excludeKw);
    var unique := MergeSearchResults(s1 + s2 + s3 + s4);
    if |unique| == 0 {
      return [];
    }
    var enriched := enrich(unique);
    companies := TagLikelyChain(enriched);
  }
}
