/** The classification bookkeeping around the language-model call: batching
    the records in tens, reading the reply (code-fence stripping, a fallback
    when it is not a JSON list), writing the labels into the records with
    their defaults, and the text that describes one company.  The model call
    itself and `json.loads` are parameters. */
module Classifier {
  import opened Records
  import opened Strings
  import opened Seqs

  const NotConfiguredLabel := "N/A (API not configured)"
  const ErrorLabel := "Error"
  const UnknownLabel := "Unknown"
  /** The key of the confidence in a parsed classification. */
  const ConfidenceKey := "confidence"
  const Fence := "```"
  const JsonFence := "```json"

  /** The three fields the classifier writes. */
  const LabelFields: set<string> := {ShopType, Channel, AiConfidence}

  /** A record with its three classification fields set. */
  function Labelled(c: Record, shopType: Value, channel: Value, confidence: Value): (r: Record)
    ensures r.Keys == c.Keys + LabelFields
    ensures r[ShopType] == shopType && r[Channel] == channel && r[AiConfidence] == confidence
    ensures r - LabelFields == c - LabelFields
  {
    c[ShopType := shopType][Channel := channel][AiConfidence := confidence]
  }

  /** Every record labelled `label`, `label`, 0: the no-client loop and the
      failed-batch loop. */
  function LabelledAll(companies: seq<Record>, mark: string): (r: seq<Record>)
    ensures |r| == |companies|
  {
    seq(|companies|, i requires 0 <= i < |companies| => Labelled(companies[i], Str(mark), Str(mark), Num(0.0)))
  }

  /** The loop that writes the same labels into every record of a list. */
  method SetLabels(companies: seq<Record>, mark: string) returns (labelled: seq<Record>)
    ensures labelled == LabelledAll(companies, mark)
  {
    labelled := companies;
    for i := 0 to |labelled|
      invariant |labelled| == |companies|
      invariant forall j :: 0 <= j < i ==> labelled[j] == Labelled(companies[j], Str(mark), Str(mark), Num(0.0))
      invariant forall j :: i <= j < |labelled| ==> labelled[j] == companies[j]
    {
      labelled := labelled[i := Labelled(labelled[i], Str(mark), Str(mark), Num(0.0))];
    }
  }

  // ---------------------------------------------------------------------------
  // Company context
  // ---------------------------------------------------------------------------

  /** Renders a field value that is not text (`str()` of a number, a list, ...). */
  type Show = Value -> string

  function Shown(v: Value, show: Show): string {
    if v.Str? then v.s else show(v)
  }

  /** `company.get(key, 'Unknown')`, rendered. */
  function FieldText(c: Record, key: string, show: Show): string {
    if key in c then Shown(c[key], show) else UnknownLabel
  }

  const BaseLabels: seq<string> := [
    "Company Name: ", "Company Number: ", "Company Type: ", "Status: ",
    "SIC Codes: ", "SIC Descriptions: ", "Address: ", "Date Created: "
  ]

  const BaseFields: seq<string> := [
    CompanyName, CompanyNumber, CompanyType, CompanyStatus,
    SicCodesField, SicDescriptionsField, FullAddress, DateOfCreation
  ]

  const DirectorsCount := "directors_count"
  const DirectorsNames := "directors_names"
  const PscCount := "psc_count"

  /** `company.get(key)` is truthy. */
  predicate Present(c: Record, key: string) {
    key in c && Truthy(c[key])
  }

  /** The lines of the description of one company. */
  function ContextLines(c: Record, show: Show): (lines: seq<string>)
    ensures |lines| == 8 + (if Present(c, DirectorsCount) then 2 else 0) + (if Present(c, PscCount) then 2 else 0)
    ensures forall i :: 0 <= i < 8 ==> StartsWith(lines[i], BaseLabels[i])
    ensures Present(c, DirectorsCount) ==>
      StartsWith(lines[8], "Directors Count: ") && StartsWith(lines[9], "Directors: ")
    ensures Present(c, PscCount) ==>
      StartsWith(lines[|lines| - 2], "Owners Count: ") && StartsWith(lines[|lines| - 1], "Owners: ")
    // each line is its label followed by the field's text, "Unknown" when the key is missing
    ensures forall i :: 0 <= i < 8 ==>
      lines[i] == BaseLabels[i] + (if BaseFields[i] in c then Shown(c[BaseFields[i]], show) else "Unknown")
    ensures Present(c, DirectorsCount) ==>
      lines[8] == "Directors Count: " + Shown(c[DirectorsCount], show) &&
      lines[9] == "Directors: " + (if DirectorsNames in c then Shown(c[DirectorsNames], show) else "Unknown")
    ensures Present(c, PscCount) ==>
      lines[|lines| - 2] == "Owners Count: " + Shown(c[PscCount], show) &&
      lines[|lines| - 1] == "Owners: " + (if PscNames in c then Shown(c[PscNames], show) else "Unknown")
  {
    var base := seq(8, i requires 0 <= i < 8 => BaseLabels[i] + FieldText(c, BaseFields[i], show));
    var directors :=
      if Present(c, DirectorsCount) then
        ["Directors Count: " + Shown(c[DirectorsCount], show), "Directors: " + FieldText(c, DirectorsNames, show)]
      else [];
    var owners :=
      if Present(c, PscCount) then
        ["Owners Count: " + Shown(c[PscCount], show), "Owners: " + FieldText(c, PscNames, show)]
      else [];
    forall i | 0 <= i < 8
      ensures StartsWith(base[i], BaseLabels[i])
    {
      assert (BaseLabels[i] + FieldText(c, BaseFields[i], show))[..|BaseLabels[i]|] == BaseLabels[i];
    }
    StartsWithConcat("Directors Count: ", if Present(c, DirectorsCount) then Shown(c[DirectorsCount], show) else "");
    StartsWithConcat("Directors: ", FieldText(c, DirectorsNames, show));
    StartsWithConcat("Owners Count: ", if Present(c, PscCount) then Shown(c[PscCount], show) else "");
    StartsWithConcat("Owners: ", FieldText(c, PscNames, show));
    base + directors + owners
  }

  lemma StartsWithConcat(prefix: string, rest: string)
    ensures StartsWith(prefix + rest, prefix)
  {
    assert (prefix + rest)[..|prefix|] == prefix;
  }

  /** `_build_company_context`: the lines joined with newlines.  It begins
      with the company-name line and holds every line. */
  function BuildCompanyContext(c: Record, show: Show): (r: string)
    ensures StartsWith(r, "Company Name: ")
    ensures forall i :: 0 <= i < |ContextLines(c, show)| ==> Contains(r, ContextLines(c, show)[i])
  {
    var lines := ContextLines(c, show);
    JoinStartsWithFirst(lines, "\n");
    StartsWithTransitive(Join(lines, "\n"), lines[0], "Company Name: ");
    JoinContainsParts(lines, "\n");
    Join(lines, "\n")
  }

  lemma StartsWithTransitive(s: string, t: string, prefix: string)
    requires StartsWith(s, t) && StartsWith(t, prefix)
    ensures StartsWith(s, prefix)
  {
    assert s[..|prefix|] == s[..|t|][..|prefix|];
  }

  // ---------------------------------------------------------------------------
  // Code-fence stripping
  // ---------------------------------------------------------------------------

  /** `line.startswith("```")`. */
  predicate IsFence(line: string) {
    StartsWith(line, Fence)
  }

  /** `line.startswith("```json")`. */
  predicate IsJsonFence(line: string) {
    StartsWith(line, JsonFence)
  }

  lemma JsonFenceIsFence(line: string)
    requires IsJsonFence(line)
    ensures IsFence(line)
  {
    assert line[..|Fence|] == line[..|JsonFence|][..|Fence|];
  }

  /** Whether the stripper is inside a ```json block after reading `lines`. */
  function InJsonAfter(lines: seq<string>): bool
    decreases |lines|
  {
    if |lines| == 0 then false
    else if IsJsonFence(lines[|lines| - 1]) then true
    else if IsFence(lines[|lines| - 1]) then false
    else InJsonAfter(lines[..|lines| - 1])
  }

  /** The stripper keeps line `k`: it is no fence and comes inside a block. */
  predicate KeptAt(lines: seq<string>, k: nat)
    requires k < |lines|
  {
    !IsFence(lines[k]) && InJsonAfter(lines[..k])
  }

  /** The lines the stripper keeps, in order. */
  function KeptLines(lines: seq<string>): (r: seq<string>)
    ensures |r| <= |lines|
    decreases |lines|
  {
    if |lines| == 0 then []
    else
      var prev := lines[..|lines| - 1];
      KeptLines(prev) + (if KeptAt(lines, |lines| - 1) then [lines[|lines| - 1]] else [])
  }

  /** The reply text `json.loads` is given. */
  function FenceText(responseText: string): string {
    var text := Strip(responseText);
    if IsFence(text) then Join(KeptLines(Split(text, '\n')), "\n") else text
  }

  /** The fence-stripping loop of `_parse_classification_response`. */
  method StripCodeFences(responseText: string) returns (text: string)
    ensures text == FenceText(responseText)
  {
    text := Strip(responseText);
    if IsFence(text) {
      var lines := Split(text, '\n');
      var jsonLines: seq<string> := [];
      var inJson := false;
      for i := 0 to |lines|
        invariant jsonLines == KeptLines(lines[..i])
        invariant inJson == InJsonAfter(lines[..i])
      {
        var line := lines[i];
        assert lines[..i + 1][..i] == lines[..i];
        if IsJsonFence(line) {
          inJson := true;
          continue;
        } else if IsFence(line) {
          inJson := false;
          continue;
        }
        if inJson {
          jsonLines := jsonLines + [line];
        }
      }
      assert lines[..|lines|] == lines;
      text := Join(jsonLines, "\n");
    }
  }

  /** Line `j` opens a block that no later fence line closes. */
  predicate OpenAt(lines: seq<string>, j: nat)
    requires j < |lines|
  {
    IsJsonFence(lines[j]) && forall m :: j < m < |lines| ==> !IsFence(lines[m])
  }

  lemma OpenAtSnoc(prev: seq<string>, line: string, j: nat)
    requires j < |prev| && !IsFence(line)
    ensures OpenAt(prev + [line], j) <==> OpenAt(prev, j)
  {
    var lines := prev + [line];
    assert lines[j] == prev[j];
    assert forall m :: j < m < |prev| ==> lines[m] == prev[m];
  }

  /** Inside a block exactly when some ```json line has no fence line after it. */
  lemma {:induction false} InJsonMeaning(lines: seq<string>)
    ensures InJsonAfter(lines) <==> exists j :: 0 <= j < |lines| && OpenAt(lines, j)
    decreases |lines|
  {
    if |lines| > 0 {
      var prev := lines[..|lines| - 1];
      var last := |lines| - 1;
      var line := lines[last];
      assert lines == prev + [line];
      if IsJsonFence(line) {
        assert OpenAt(lines, last);
      } else if IsFence(line) {
        forall j | 0 <= j < |lines|
          ensures !OpenAt(lines, j)
        {
          if j < last {
            assert IsFence(lines[last]);
          }
        }
      } else {
        InJsonMeaning(prev);
        forall j | 0 <= j < last
          ensures OpenAt(lines, j) <==> OpenAt(prev, j)
        {
          OpenAtSnoc(prev, line, j);
        }
        assert !OpenAt(lines, last);
      }
    }
  }

  /** No fence line is ever kept. */
  lemma {:induction false} KeptLinesNoFence(lines: seq<string>)
    ensures forall i :: 0 <= i < |KeptLines(lines)| ==> !IsFence(KeptLines(lines)[i])
    decreases |lines|
  {
    if |lines| > 0 {
      KeptLinesNoFence(lines[..|lines| - 1]);
    }
  }

  /** The kept lines keep their order and add nothing. */
  lemma {:induction false} KeptLinesSubseq(lines: seq<string>)
    ensures Subseq(KeptLines(lines), lines)
    decreases |lines|
  {
    if |lines| > 0 {
      var prev := lines[..|lines| - 1];
      var line := lines[|lines| - 1];
      KeptLinesSubseq(prev);
      assert lines == prev + [line];
      SubseqSnoc(KeptLines(prev), prev, line);
      if KeptAt(lines, |lines| - 1) {
        assert KeptLines(lines) == KeptLines(prev) + [line];
      } else {
        assert KeptLines(lines) == KeptLines(prev);
      }
    }
  }

  /** A line is among the kept ones exactly when some occurrence of it is kept. */
  lemma {:induction false} KeptLinesMembership(lines: seq<string>, x: string)
    ensures x in KeptLines(lines) <==> exists k :: 0 <= k < |lines| && lines[k] == x && KeptAt(lines, k)
    decreases |lines|
  {
    if |lines| > 0 {
      var prev := lines[..|lines| - 1];
      var last := |lines| - 1;
      KeptLinesMembership(prev, x);
      assert KeptLines(lines) == KeptLines(prev) + (if KeptAt(lines, last) then [lines[last]] else []);
      if x in KeptLines(prev) {
        var k :| 0 <= k < |prev| && prev[k] == x && KeptAt(prev, k);
        KeptAtPrefix(lines, k);
        assert lines[k] == x && KeptAt(lines, k);
      }
      if exists k :: 0 <= k < |lines| && lines[k] == x && KeptAt(lines, k) {
        var k :| 0 <= k < |lines| && lines[k] == x && KeptAt(lines, k);
        if k < last {
          KeptAtPrefix(lines, k);
          assert prev[k] == x && KeptAt(prev, k);
        }
      }
    }
  }

  /** Whether a line is kept does not depend on the lines after it. */
  lemma KeptAtPrefix(lines: seq<string>, k: nat)
    requires k < |lines| - 1
    ensures lines[..|lines| - 1][k] == lines[k]
    ensures KeptAt(lines[..|lines| - 1], k) <==> KeptAt(lines, k)
  {
    assert lines[..|lines| - 1][..k] == lines[..k];
  }

  /** Without a ```json line nothing is kept: a bare ``` fence keeps nothing. */
  lemma {:induction false} NoJsonFenceKeepsNothing(lines: seq<string>)
    requires forall k :: 0 <= k < |lines| ==> !IsJsonFence(lines[k])
    ensures !InJsonAfter(lines) && KeptLines(lines) == []
    decreases |lines|
  {
    if |lines| > 0 {
      NoJsonFenceKeepsNothing(lines[..|lines| - 1]);
    }
  }

  /** Text that does not begin with a fence reaches the parser only
      stripped: a slice of the reply. */
  lemma UnfencedPassesThrough(responseText: string)
    requires !IsFence(Strip(responseText))
    ensures FenceText(responseText) == Strip(responseText)
    ensures exists a, b :: 0 <= a <= b <= |responseText| && FenceText(responseText) == responseText[a..b]
  {
    StripIsSlice(responseText);
  }

  // ---------------------------------------------------------------------------
  // Reading the reply
  // ---------------------------------------------------------------------------

  /** The entry used for every record when the reply cannot be read. */
  const UnknownEntry: Value :=
    Object(map[ShopType := Str(UnknownLabel), Channel := Str(UnknownLabel), ConfidenceKey := Num(0.0)])

  /** `_parse_classification_response`: the decoded list, or `expectedCount`
      unknown entries when the text does not decode (`loads` gives `None`) or
      decodes to something other than a list. */
  function ParseResponse(responseText: string, loads: string -> Option<Value>, expectedCount: nat): (r: seq<Value>)
    ensures (match loads(FenceText(responseText)) case Some(List(_)) => false case _ => true) ==>
      |r| == expectedCount && forall i :: 0 <= i < |r| ==> r[i] == UnknownEntry
    ensures (match loads(FenceText(responseText)) case Some(List(xs)) => r == xs case _ => true)
  {
    match loads(FenceText(responseText))
    case Some(List(xs)) => xs
    case _ => seq(expectedCount, _ => UnknownEntry)
  }

  /** The method form: strip the fences, decode, fall back. */
  method ParseClassificationResponse(responseText: string, loads: string -> Option<Value>, expectedCount: nat)
    returns (classifications: seq<Value>)
    ensures classifications == ParseResponse(responseText, loads, expectedCount)
  {
    var text := StripCodeFences(responseText);
    match loads(text) {
      case Some(List(xs)) =>
        classifications := xs;
      case _ =>
        classifications := seq(expectedCount, _ => UnknownEntry);
    }
  }

  // ---------------------------------------------------------------------------
  // Writing the labels
  // ---------------------------------------------------------------------------

  /** `entry.get(key, default)`. */
  function EntryField(entry: map<string, Value>, key: string, default: Value): Value {
    if key in entry then entry[key] else default
  }

  /** The labels written at position `idx`; `None` when the parsed entry there
      is not a dictionary, so that `.get` raises. */
  function AssignOne(c: Record, idx: nat, classifications: seq<Value>): Option<Record> {
    if idx < |classifications| then
      match classifications[idx]
      case Object(e) =>
        Some(Labelled(c, EntryField(e, ShopType, Str(UnknownLabel)), EntryField(e, Channel, Str(UnknownLabel)),
                      EntryField(e, ConfidenceKey, Num(0.5))))
      case _ => None
    else Some(Labelled(c, Str(UnknownLabel), Str(UnknownLabel), Num(0.0)))
  }

  /** Every parsed entry that a record reads is a dictionary. */
  predicate EntriesUsable(batch: seq<Record>, classifications: seq<Value>) {
    forall idx :: 0 <= idx < |batch| && idx < |classifications| ==> classifications[idx].Object?
  }

  /** The labelled batch, or `None` when the assignment raises. */
  function Assigned(batch: seq<Record>, classifications: seq<Value>): (r: Option<seq<Record>>)
    ensures r.Some? <==> EntriesUsable(batch, classifications)
    ensures r.Some? ==> |r.value| == |batch|
  {
    if EntriesUsable(batch, classifications) then
      Some(seq(|batch|, i requires 0 <= i < |batch| && AssignOne(batch[i], i, classifications).Some? =>
        AssignOne(batch[i], i, classifications).value))
    else None
  }

  /** The assignment loop of `_classify_batch_internal`. */
  method AssignClassifications(batch: seq<Record>, classifications: seq<Value>) returns (r: Option<seq<Record>>)
    ensures r == Assigned(batch, classifications)
  {
    var companies := batch;
    for idx := 0 to |batch|
      invariant |companies| == |batch|
      invariant forall j :: 0 <= j < idx ==> AssignOne(batch[j], j, classifications) == Some(companies[j])
      invariant forall j :: idx <= j < |batch| ==> companies[j] == batch[j]
    {
      if idx < |classifications| {
        match classifications[idx] {
          case Object(e) =>
            companies := companies[idx := Labelled(companies[idx], EntryField(e, ShopType, Str(UnknownLabel)),
                                                   EntryField(e, Channel, Str(UnknownLabel)),
                                                   EntryField(e, ConfidenceKey, Num(0.5)))];
          case _ =>
            return None;
        }
      } else {
        companies := companies[idx := Labelled(companies[idx], Str(UnknownLabel), Str(UnknownLabel), Num(0.0))];
      }
    }
    forall idx | 0 <= idx < |batch| && idx < |classifications|
      ensures classifications[idx].Object?
    {
      assert AssignOne(batch[idx], idx, classifications).Some?;
    }
    assert companies == Assigned(batch, classifications).value;
    return Some(companies);
  }

  /** A record past the parsed entries gets "Unknown", "Unknown", 0; one with
      an entry gets the entry's labels, "Unknown" for a missing label and 0.5
      for a missing confidence; no other field changes. */
  lemma AssignmentProperties(batch: seq<Record>, classifications: seq<Value>, i: nat)
    requires Assigned(batch, classifications).Some? && i < |batch|
    ensures var r := Assigned(batch, classifications).value[i];
      && r - LabelFields == batch[i] - LabelFields
      && (i >= |classifications| ==>
            r[ShopType] == Str(UnknownLabel) && r[Channel] == Str(UnknownLabel) && r[AiConfidence] == Num(0.0))
      && (i < |classifications| ==>
            var e := classifications[i].fields;
            && (ShopType !in e ==> r[ShopType] == Str(UnknownLabel))
            && (ShopType in e ==> r[ShopType] == e[ShopType])
            && (Channel !in e ==> r[Channel] == Str(UnknownLabel))
            && (Channel in e ==> r[Channel] == e[Channel])
            && (ConfidenceKey !in e ==> r[AiConfidence] == Num(0.5))
            && (ConfidenceKey in e ==> r[AiConfidence] == e[ConfidenceKey]))
  {
    assert Assigned(batch, classifications).value[i] == AssignOne(batch[i], i, classifications).value;
  }

  /** A reply that cannot be read labels every record of the batch unknown. */
  lemma UnreadableReplyLabelsUnknown(batch: seq<Record>, responseText: string, loads: string -> Option<Value>)
    requires !loads(FenceText(responseText)).Some? || !loads(FenceText(responseText)).value.List?
    ensures var r := Assigned(batch, ParseResponse(responseText, loads, |batch|));
      r.Some? && forall i :: 0 <= i < |batch| ==>
        r.value[i][ShopType] == Str(UnknownLabel) && r.value[i][Channel] == Str(UnknownLabel) &&
        r.value[i][AiConfidence] == Num(0.0)
  {
    var cls := ParseResponse(responseText, loads, |batch|);
    assert forall i :: 0 <= i < |cls| ==> cls[i] == UnknownEntry;
    forall i | 0 <= i < |batch|
      ensures AssignOne(batch[i], i, cls) == Some(Labelled(batch[i], Str(UnknownLabel), Str(UnknownLabel), Num(0.0)))
    {
      assert cls[i] == UnknownEntry;
    }
  }

  // ---------------------------------------------------------------------------
  // Batching
  // ---------------------------------------------------------------------------

  /** The model call and the read of its first text block; `None` when either
      raises. */
  type Llm = seq<Record> -> Option<string>

  /** `_classify_batch_internal`: `None` when it raises. */
  function ClassifyInternal(batch: seq<Record>, llm: Llm, loads: string -> Option<Value>): Option<seq<Record>> {
    match llm(batch)
    case None => None
    case Some(reply) => Assigned(batch, ParseResponse(reply, loads, |batch|))
  }

  /** The method form of `_classify_batch_internal`. */
  method ClassifyBatchInternal(batch: seq<Record>, llm: Llm, loads: string -> Option<Value>)
    returns (r: Option<seq<Record>>)
    ensures r == ClassifyInternal(batch, llm, loads)
  {
    match llm(batch) {
      case None =>
        r := None;
      case Some(reply) =>
        var classifications := ParseClassificationResponse(reply, loads, |batch|);
        r := AssignClassifications(batch, classifications);
    }
  }

  /** What one batch contributes: its labelled records, or the records marked
      "Error" when the call raised. */
  function BatchResult(batch: seq<Record>, llm: Llm, loads: string -> Option<Value>): (r: seq<Record>)
    ensures |r| == |batch|
  {
    match ClassifyInternal(batch, llm, loads)
    case Some(labelled) => labelled
    case None => LabelledAll(batch, ErrorLabel)
  }

  /** The end of the batch that starts at `i`: `companies[i:i + 10]` stops there. */
  function BatchEnd(n: nat, i: nat): nat {
    if i + 10 <= n then i + 10 else n
  }

  /** The `k`th batch: `companies[10k : 10k + 10]`. */
  function Batch(companies: seq<Record>, k: nat): seq<Record>
    requires 10 * k < |companies|
  {
    companies[10 * k..BatchEnd(|companies|, 10 * k)]
  }

  /** `f` applied to the batches starting at `i`, `i + 10`, ..., the results
      concatenated. */
  function Batched(companies: seq<Record>, i: nat, f: seq<Record> -> seq<Record>): seq<Record>
    decreases |companies| - i
  {
    if i >= |companies| then []
    else f(companies[i..BatchEnd(|companies|, i)]) + Batched(companies, i + 10, f)
  }

  /** What one batch contributes, as a function value. */
  function BatchStep(llm: Llm, loads: string -> Option<Value>): seq<Record> -> seq<Record> {
    batch => BatchResult(batch, llm, loads)
  }

  /** The results of the batches starting at `i`, `i + 10`, ... */
  function ClassifyFrom(companies: seq<Record>, i: nat, llm: Llm, loads: string -> Option<Value>): seq<Record> {
    Batched(companies, i, BatchStep(llm, loads))
  }

  /** `classify_batch`; `available` says whether a client is configured. */
  function Classified(companies: seq<Record>, available: bool, llm: Llm, loads: string -> Option<Value>): seq<Record> {
    if available then ClassifyFrom(companies, 0, llm, loads) else LabelledAll(companies, NotConfiguredLabel)
  }

  /** `classify_batch`, also returning how many batches it sent. */
  method ClassifyBatch(companies: seq<Record>, available: bool, llm: Llm, loads: string -> Option<Value>)
    returns (classified: seq<Record>, batches: nat)
    ensures classified == Classified(companies, available, llm, loads)
    ensures batches == if available then (|companies| + 9) / 10 else 0
  {
    if !available {
      classified := SetLabels(companies, NotConfiguredLabel);
      batches := 0;
    } else {
      classified, batches := ClassifyInBatches(companies, llm, loads);
    }
  }

  /** The batch loop of `classify_batch`, with a client configured: batches
      of ten, ⌈n / 10⌉ of them. */
  method ClassifyInBatches(companies: seq<Record>, llm: Llm, loads: string -> Option<Value>)
    returns (classified: seq<Record>, batches: nat)
    ensures classified == ClassifyFrom(companies, 0, llm, loads)
    ensures batches == (|companies| + 9) / 10
  {
    classified := [];
    batches := 0;
    var i := 0;
    while i < |companies|
      invariant i == 10 * batches
      invariant i == 0 || i - 10 < |companies|
      invariant ClassifyFrom(companies, 0, llm, loads) == classified + ClassifyFrom(companies, i, llm, loads)
    {
      var batch := companies[i..BatchEnd(|companies|, i)];
      var part := ClassifyOneBatch(batch, llm, loads);
      ClassifyFromStep(companies, i, llm, loads, classified);
      classified := classified + part;
      i := i + 10;
      batches := batches + 1;
    }
    BatchCount(|companies|, batches);
  }

  /** Taking the batch at `i` off the front of the remaining results. */
  lemma ClassifyFromStep(companies: seq<Record>, i: nat, llm: Llm, loads: string -> Option<Value>, done: seq<Record>)
    requires i < |companies|
    ensures done + ClassifyFrom(companies, i, llm, loads)
         == (done + BatchResult(companies[i..BatchEnd(|companies|, i)], llm, loads)) + ClassifyFrom(companies, i + 10, llm, loads)
  {
    var f := BatchStep(llm, loads);
    var batch := companies[i..BatchEnd(|companies|, i)];
    assert f(batch) == BatchResult(batch, llm, loads);
    assert Batched(companies, i, f) == f(batch) + Batched(companies, i + 10, f);
    assert done + (f(batch) + Batched(companies, i + 10, f)) == (done + f(batch)) + Batched(companies, i + 10, f);
  }

  /** `b` batches of ten cover `n` records with fewer than ten left over in
      the last: `b` is ⌈n / 10⌉. */
  lemma BatchCount(n: nat, b: nat)
    requires n <= 10 * b && (b == 0 || 10 * b - 10 < n)
    ensures b == (n + 9) / 10
  {
  }

  /** The body of the batch loop: the `try` around the internal call and the
      `except` branch that marks the batch's records "Error". */
  method ClassifyOneBatch(batch: seq<Record>, llm: Llm, loads: string -> Option<Value>) returns (part: seq<Record>)
    ensures part == BatchResult(batch, llm, loads)
  {
    var result := ClassifyBatchInternal(batch, llm, loads);
    match result {
      case Some(labelled) =>
        part := labelled;
      case None =>
        part := SetLabels(batch, ErrorLabel);
    }
  }

  /** A batch result function that keeps the length of each batch. */
  ghost predicate KeepsLength(f: seq<Record> -> seq<Record>) {
    forall batch :: |f(batch)| == |batch|
  }

  lemma {:induction false} BatchedLength(companies: seq<Record>, i: nat, f: seq<Record> -> seq<Record>)
    requires i <= |companies| && KeepsLength(f)
    ensures |Batched(companies, i, f)| == |companies| - i
    decreases |companies| - i
  {
    if i < |companies| {
      var e := BatchEnd(|companies|, i);
      assert |f(companies[i..e])| == e - i;
      if e < |companies| {
        BatchedLength(companies, e, f);
      }
    }
  }

  /** The record at position `10q + p` of the results from batch `k` on is
      decided by batch `q` alone. */
  lemma {:induction false} BatchedAt(companies: seq<Record>, k: nat, q: nat, p: nat, f: seq<Record> -> seq<Record>)
    requires k <= q && p < 10 && 10 * q + p < |companies| && KeepsLength(f)
    ensures |Batched(companies, 10 * k, f)| == |companies| - 10 * k
    ensures p < |Batch(companies, q)|
    ensures Batched(companies, 10 * k, f)[10 * q + p - 10 * k] == f(Batch(companies, q))[p]
    decreases q - k
  {
    BatchedLength(companies, 10 * k, f);
    var head := f(companies[10 * k..BatchEnd(|companies|, 10 * k)]);
    assert Batched(companies, 10 * k, f) == head + Batched(companies, 10 * k + 10, f);
    if k < q {
      assert |head| == 10;
      BatchedAt(companies, k + 1, q, p, f);
    }
  }

  lemma BatchStepKeepsLength(llm: Llm, loads: string -> Option<Value>)
    ensures KeepsLength(BatchStep(llm, loads))
  {
    forall batch
      ensures |BatchStep(llm, loads)(batch)| == |batch|
    {
      assert BatchStep(llm, loads)(batch) == BatchResult(batch, llm, loads);
    }
  }

  /** With a client, record `j` is decided by its own batch of ten alone: it
      is what that batch's classification made of it, or it is marked "Error"
      with confidence 0 when that batch's call raised. */
  lemma ClassifiedByBatch(companies: seq<Record>, llm: Llm, loads: string -> Option<Value>, j: nat)
    requires j < |companies|
    ensures |Classified(companies, true, llm, loads)| == |companies|
    ensures 10 * (j / 10) < |companies| && j % 10 < |Batch(companies, j / 10)|
    ensures ClassifyInternal(Batch(companies, j / 10), llm, loads).Some? ==>
      Classified(companies, true, llm, loads)[j] ==
        ClassifyInternal(Batch(companies, j / 10), llm, loads).value[j % 10]
    ensures ClassifyInternal(Batch(companies, j / 10), llm, loads).None? ==>
      Classified(companies, true, llm, loads)[j] ==
        Labelled(companies[j], Str(ErrorLabel), Str(ErrorLabel), Num(0.0))
  {
    var q := j / 10;
    var p := j % 10;
    BatchIndex(companies, j);
    BatchStepKeepsLength(llm, loads);
    BatchedAt(companies, 0, q, p, BatchStep(llm, loads));
    BatchResultAt(Batch(companies, q), p, llm, loads);
  }

  /** Record `j` sits at position `j % 10` of batch `j / 10`. */
  lemma BatchIndex(companies: seq<Record>, j: nat)
    requires j < |companies|
    ensures j == 10 * (j / 10) + j % 10 && j % 10 < 10
    ensures 10 * (j / 10) < |companies| && j % 10 < |Batch(companies, j / 10)|
    ensures Batch(companies, j / 10)[j % 10] == companies[j]
  {
  }

  /** One record of a batch's result. */
  lemma BatchResultAt(batch: seq<Record>, i: nat, llm: Llm, loads: string -> Option<Value>)
    requires i < |batch|
    ensures ClassifyInternal(batch, llm, loads).Some? ==>
      BatchResult(batch, llm, loads)[i] == ClassifyInternal(batch, llm, loads).value[i]
    ensures ClassifyInternal(batch, llm, loads).None? ==>
      BatchResult(batch, llm, loads)[i] == Labelled(batch[i], Str(ErrorLabel), Str(ErrorLabel), Num(0.0))
  {
  }

  /** Without a client every record is marked "N/A (API not configured)"
      with confidence 0, and nothing else changes. */
  lemma ClassifiedWithoutClient(companies: seq<Record>, llm: Llm, loads: string -> Option<Value>, j: nat)
    requires j < |companies|
    ensures |Classified(companies, false, llm, loads)| == |companies|
    ensures var r := Classified(companies, false, llm, loads)[j];
      && r[ShopType] == Str(NotConfiguredLabel) && r[Channel] == Str(NotConfiguredLabel)
      && r[AiConfidence] == Num(0.0)
      && r - LabelFields == companies[j] - LabelFields
  {
  }

  /** `classify_batch` returns one record per input record, in input order,
      each with the three label fields set and every other field unchanged. */
  lemma ClassifiedKeepsFields(companies: seq<Record>, available: bool, llm: Llm, loads: string -> Option<Value>, j: nat)
    requires j < |companies|
    ensures |Classified(companies, available, llm, loads)| == |companies|
    ensures var r := Classified(companies, available, llm, loads)[j];
      LabelFields <= r.Keys && r - LabelFields == companies[j] - LabelFields
  {
    if available {
      ClassifiedWithClientKeepsFields(companies, llm, loads, j);
    } else {
      ClassifiedWithoutClient(companies, llm, loads, j);
    }
  }

  lemma ClassifiedWithClientKeepsFields(companies: seq<Record>, llm: Llm, loads: string -> Option<Value>, j: nat)
    requires j < |companies|
    ensures |Classified(companies, true, llm, loads)| == |companies|
    ensures var r := Classified(companies, true, llm, loads)[j];
      LabelFields <= r.Keys && r - LabelFields == companies[j] - LabelFields
  {
    ClassifiedByBatch(companies, llm, loads, j);
    var batch := Batch(companies, j / 10);
    var result := ClassifyInternal(batch, llm, loads);
    var r := Classified(companies, true, llm, loads)[j];
    assert batch[j % 10] == companies[j];
    if result.Some? {
      var classifications := ParseResponse(llm(batch).value, loads, |batch|);
      assert result == Assigned(batch, classifications);
      AssignedKeepsFields(batch, classifications, j % 10);
      assert r == result.value[j % 10];
    } else {
      var labelled := Labelled(companies[j], Str(ErrorLabel), Str(ErrorLabel), Num(0.0));
      assert r == labelled;
      assert labelled - LabelFields == companies[j] - LabelFields;
    }
  }

  /** A labelled batch keeps each record apart from its label fields. */
  lemma AssignedKeepsFields(batch: seq<Record>, classifications: seq<Value>, i: nat)
    requires Assigned(batch, classifications).Some? && i < |batch|
    ensures var r := Assigned(batch, classifications).value[i];
      LabelFields <= r.Keys && r - LabelFields == batch[i] - LabelFields
  {
    assert Assigned(batch, classifications).value[i] == AssignOne(batch[i], i, classifications).value;
  }
}
