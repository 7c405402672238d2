/** The Gradio front end: input limits, validation records, the summary
    buckets and the detail lookup. */
module App {
  import opened Wrappers
  import opened Strings
  import opened SourceReplies
  import opened Validator
  import opened Frontend

  /** The batch limit of this front end. */
  const MaxNames: nat := 20

  // ------------------------------------------------------------ summary

  /** The summary sections, in the order they are printed. */
  datatype Section = LocalMatches | ExactMatches | SimilarMatches | Available | NeedsAttention | Failed

  function Rank(s: Section): nat {
    match s
    case LocalMatches => 0
    case ExactMatches => 1
    case SimilarMatches => 2
    case Available => 3
    case NeedsAttention => 4
    case Failed => 5
  }

  /** A line of a section: the name, or the name with the counts of a
      truncated listing, or the name with the count to review. */
  datatype Entry = Plain(name: string) | Truncated(name: string, found: int, displayed: int) | Review(name: string, found: int)

  /** The section of one result: the first test that holds, in the order
      local match, error, exact match, similar match, truncated listing,
      nothing found; anything else needs a look. */
  function SectionOf(r: Verdict): Section {
    if r.inLocalDb then LocalMatches
    else if r.status == Error then Failed
    else if r.hasExactMatch then ExactMatches
    else if r.hasSimilarMatch then SimilarMatches
    else if r.totalDisplayed != r.totalFound then NeedsAttention
    else if r.totalFound == 0 then Available
    else NeedsAttention
  }

  /** The bucket tests are applied in strict priority order: a result is
      "available" only when it is no local match, no error, has neither an
      exact nor a similar match, and every one of zero results is shown. */
  lemma SectionPriority(r: Verdict)
    ensures SectionOf(r) == LocalMatches <==> r.inLocalDb
    ensures SectionOf(r) == Failed <==> !r.inLocalDb && r.status == Error
    ensures SectionOf(r) == ExactMatches <==> !r.inLocalDb && r.status != Error && r.hasExactMatch
    ensures SectionOf(r) == SimilarMatches <==>
              !r.inLocalDb && r.status != Error && !r.hasExactMatch && r.hasSimilarMatch
    ensures SectionOf(r) == Available <==>
              && !r.inLocalDb && r.status != Error && !r.hasExactMatch && !r.hasSimilarMatch
              && r.totalDisplayed == r.totalFound && r.totalFound == 0
    ensures EntryOf(r).Truncated? <==> SectionOf(r) == NeedsAttention && r.totalDisplayed != r.totalFound
  {
  }

  function EntryOf(r: Verdict): (e: Entry)
    ensures e.name == r.queryName
  {
    if SectionOf(r) == NeedsAttention then
      if r.totalDisplayed != r.totalFound then Truncated(r.queryName, r.totalFound, r.totalDisplayed)
      else Review(r.queryName, r.totalFound)
    else Plain(r.queryName)
  }

  /** The six lists of `format_summary`. */
  datatype Buckets = Buckets(local: seq<Entry>, exact: seq<Entry>, similar: seq<Entry>,
                             available: seq<Entry>, warning: seq<Entry>, errors: seq<Entry>)

  /** The list of section `s`. */
  function Pick(s: Section, b: Buckets): seq<Entry> {
    match s
    case LocalMatches => b.local
    case ExactMatches => b.exact
    case SimilarMatches => b.similar
    case Available => b.available
    case NeedsAttention => b.warning
    case Failed => b.errors
  }

  /** Append `e` to the list of section `s`. */
  function Put(b: Buckets, s: Section, e: Entry): (c: Buckets)
    ensures forall t :: Pick(t, c) == Pick(t, b) + (if t == s then [e] else [])
  {
    match s
    case LocalMatches => b.(local := b.local + [e])
    case ExactMatches => b.(exact := b.exact + [e])
    case SimilarMatches => b.(similar := b.similar + [e])
    case Available => b.(available := b.available + [e])
    case NeedsAttention => b.(warning := b.warning + [e])
    case Failed => b.(errors := b.errors + [e])
  }

  /** Each result's entry appended to its section's list, in result order. */
  function BucketsOf(results: seq<Verdict>): Buckets
    decreases |results|
  {
    if results == [] then Buckets([], [], [], [], [], [])
    else
      var last := results[|results| - 1];
      Put(BucketsOf(results[..|results| - 1]), SectionOf(last), EntryOf(last))
  }

  function Size(b: Buckets): nat {
    |b.local| + |b.exact| + |b.similar| + |b.available| + |b.warning| + |b.errors|
  }

  /** The six lists together have one entry per result. */
  lemma {:induction false} BucketsPartition(results: seq<Verdict>)
    ensures Size(BucketsOf(results)) == |results|
    decreases |results|
  {
    if results != [] {
      BucketsPartition(results[..|results| - 1]);
    }
  }

  /** Each result's entry is in the list of the section its tests pick. */
  lemma {:induction false} ResultInItsSection(results: seq<Verdict>, i: nat)
    requires i < |results|
    ensures EntryOf(results[i]) in Pick(SectionOf(results[i]), BucketsOf(results))
    decreases |results|
  {
    if i < |results| - 1 {
      ResultInItsSection(results[..|results| - 1], i);
    }
  }

  /** Every listed entry comes from a result of that section. */
  lemma {:induction false} EntriesComeFromResults(results: seq<Verdict>, s: Section, e: Entry)
    requires e in Pick(s, BucketsOf(results))
    ensures exists i :: 0 <= i < |results| && SectionOf(results[i]) == s && EntryOf(results[i]) == e
    decreases |results|
  {
    var init := results[..|results| - 1];
    if e !in Pick(s, BucketsOf(init)) {
      assert SectionOf(results[|results| - 1]) == s && EntryOf(results[|results| - 1]) == e;
    } else {
      EntriesComeFromResults(init, s, e);
      var i :| 0 <= i < |init| && SectionOf(init[i]) == s && EntryOf(init[i]) == e;
      assert results[i] == init[i];
    }
  }

  datatype Block = Block(section: Section, entries: seq<Entry>)

  /** Section `s` as printed: its block, or nothing when it is empty. */
  function Present(s: Section, entries: seq<Entry>): seq<Block> {
    if entries != [] then [Block(s, entries)] else []
  }

  /** The non-empty lists in print order. */
  function Assemble(b: Buckets): seq<Block> {
    Present(LocalMatches, b.local) + Present(ExactMatches, b.exact) + Present(SimilarMatches, b.similar)
    + Present(Available, b.available) + Present(NeedsAttention, b.warning) + Present(Failed, b.errors)
  }

  /** `format_summary`: the sections of the results, fixed order, empty ones left out. */
  function SummaryOf(results: seq<Verdict>): seq<Block> {
    Assemble(BucketsOf(results))
  }

  /** Sections in strictly increasing rank, all of rank below `r`, each
      holding the non-empty list of its section in `b`. */
  ghost predicate WellOrdered(bs: seq<Block>, r: nat, b: Buckets) {
    && (forall i :: 0 <= i < |bs| ==> Rank(bs[i].section) < r && bs[i].entries == Pick(bs[i].section, b) != [])
    && (forall i, j :: 0 <= i < j < |bs| ==> Rank(bs[i].section) < Rank(bs[j].section))
  }

  lemma WellOrderedSnoc(bs: seq<Block>, s: Section, b: Buckets)
    requires WellOrdered(bs, Rank(s), b)
    ensures WellOrdered(bs + Present(s, Pick(s, b)), Rank(s) + 1, b)
  {
  }

  /** The printed sections come in strictly increasing rank, each holding
      exactly the non-empty list of its section. */
  lemma AssembleWellOrdered(b: Buckets)
    ensures WellOrdered(Assemble(b), 6, b)
  {
    var b0 := Present(LocalMatches, b.local);
    WellOrderedSnoc([], LocalMatches, b);
    var b1 := b0 + Present(ExactMatches, b.exact);
    WellOrderedSnoc(b0, ExactMatches, b);
    var b2 := b1 + Present(SimilarMatches, b.similar);
    WellOrderedSnoc(b1, SimilarMatches, b);
    var b3 := b2 + Present(Available, b.available);
    WellOrderedSnoc(b2, Available, b);
    var b4 := b3 + Present(NeedsAttention, b.warning);
    WellOrderedSnoc(b3, NeedsAttention, b);
    WellOrderedSnoc(b4, Failed, b);
  }

  /** The summary's sections come in print order, each holding exactly the
      entries of its section, and empty sections are left out. */
  lemma SummaryShape(results: seq<Verdict>)
    ensures forall i, j :: 0 <= i < j < |SummaryOf(results)| ==>
              Rank(SummaryOf(results)[i].section) < Rank(SummaryOf(results)[j].section)
    ensures forall i :: 0 <= i < |SummaryOf(results)| ==>
              SummaryOf(results)[i].entries == Pick(SummaryOf(results)[i].section, BucketsOf(results)) != []
  {
    AssembleWellOrdered(BucketsOf(results));
  }

  /** No non-empty section is left out. */
  lemma AssembleComplete(b: Buckets, s: Section)
    requires Pick(s, b) != []
    ensures exists i :: 0 <= i < |Assemble(b)| && Assemble(b)[i].section == s
  {
    var p0, p1, p2 := Present(LocalMatches, b.local), Present(ExactMatches, b.exact), Present(SimilarMatches, b.similar);
    var p3, p4, p5 := Present(Available, b.available), Present(NeedsAttention, b.warning), Present(Failed, b.errors);
    var bs := Assemble(b);
    assert bs == p0 + p1 + p2 + p3 + p4 + p5;
    match s
    case LocalMatches => assert bs[0] == p0[0];
    case ExactMatches => assert bs[|p0|] == p1[0];
    case SimilarMatches => assert bs[|p0 + p1|] == p2[0];
    case Available => assert bs[|p0 + p1 + p2|] == p3[0];
    case NeedsAttention => assert bs[|p0 + p1 + p2 + p3|] == p4[0];
    case Failed => assert bs[|p0 + p1 + p2 + p3 + p4|] == p5[0];
  }

  lemma SummaryComplete(results: seq<Verdict>, s: Section)
    requires Pick(s, BucketsOf(results)) != []
    ensures exists i :: 0 <= i < |SummaryOf(results)| && SummaryOf(results)[i].section == s
  {
    AssembleComplete(BucketsOf(results), s);
    var i :| 0 <= i < |Assemble(BucketsOf(results))| && Assemble(BucketsOf(results))[i].section == s;
    assert SummaryOf(results)[i].section == s;
  }

  function EntryCount(bs: seq<Block>): nat {
    if bs == [] then 0 else |bs[0].entries| + EntryCount(bs[1..])
  }

  lemma {:induction false} EntryCountAppend(a: seq<Block>, b: seq<Block>)
    ensures EntryCount(a + b) == EntryCount(a) + EntryCount(b)
    decreases |a|
  {
    if a == [] {
      assert a + b == b;
    } else {
      assert (a + b)[1..] == a[1..] + b;
      EntryCountAppend(a[1..], b);
    }
  }

  lemma EntryCountSnoc(bs: seq<Block>, s: Section, entries: seq<Entry>)
    ensures EntryCount(bs + Present(s, entries)) == EntryCount(bs) + |entries|
  {
    EntryCountAppend(bs, Present(s, entries));
    assert EntryCount(Present(s, entries)) == |entries| by {
      if entries != [] { assert Present(s, entries)[1..] == []; }
    }
  }

  lemma AssembleCount(b: Buckets)
    ensures EntryCount(Assemble(b)) == Size(b)
  {
    var b0 := Present(LocalMatches, b.local);
    EntryCountSnoc([], LocalMatches, b.local);
    assert [] + b0 == b0;
    var b1 := b0 + Present(ExactMatches, b.exact);
    EntryCountSnoc(b0, ExactMatches, b.exact);
    var b2 := b1 + Present(SimilarMatches, b.similar);
    EntryCountSnoc(b1, SimilarMatches, b.similar);
    var b3 := b2 + Present(Available, b.available);
    EntryCountSnoc(b2, Available, b.available);
    var b4 := b3 + Present(NeedsAttention, b.warning);
    EntryCountSnoc(b3, NeedsAttention, b.warning);
    EntryCountSnoc(b4, Failed, b.errors);
  }

  /** Every result is listed exactly once: the sections together hold as
      many entries as there are results. */
  lemma SummaryListsEveryResultOnce(results: seq<Verdict>)
    ensures EntryCount(SummaryOf(results)) == |results|
  {
    AssembleCount(BucketsOf(results));
    BucketsPartition(results);
  }

  /** The loop of `format_summary` appending each result to its list. */
  method Bucket(results: seq<Verdict>) returns (b: Buckets)
    ensures b == BucketsOf(results)
  {
    var local, existing, similar, available, warning, errors := [], [], [], [], [], [];
    for i := 0 to |results|
      invariant Buckets(local, existing, similar, available, warning, errors) == BucketsOf(results[..i])
    {
      assert results[..i + 1][..i] == results[..i];
      var r := results[i];
      var name := r.queryName;
      if r.inLocalDb {
        local := local + [Plain(name)];
      } else if r.status == Error {
        errors := errors + [Plain(name)];
      } else if r.hasExactMatch {
        existing := existing + [Plain(name)];
      } else if r.hasSimilarMatch {
        similar := similar + [Plain(name)];
      } else if r.totalDisplayed != r.totalFound {
        warning := warning + [Truncated(name, r.totalFound, r.totalDisplayed)];
      } else if r.totalFound == 0 {
        available := available + [Plain(name)];
      } else {
        warning := warning + [Review(name, r.totalFound)];
      }
    }
    assert results[..|results|] == results;
    b := Buckets(local, existing, similar, available, warning, errors);
  }

  /** `format_summary`: the loop filling the lists, then the non-empty
      lists in print order. */
  method FormatSummary(results: seq<Verdict>) returns (summary: seq<Block>)
    ensures summary == SummaryOf(results)
  {
    var b := Bucket(results);
    summary := [];
    if b.local != [] { summary := summary + [Block(LocalMatches, b.local)]; }
    assert summary == Present(LocalMatches, b.local);
    ghost var upTo := summary;
    if b.exact != [] { summary := summary + [Block(ExactMatches, b.exact)]; }
    assert summary == upTo + Present(ExactMatches, b.exact);
    upTo := summary;
    if b.similar != [] { summary := summary + [Block(SimilarMatches, b.similar)]; }
    assert summary == upTo + Present(SimilarMatches, b.similar);
    upTo := summary;
    if b.available != [] { summary := summary + [Block(Available, b.available)]; }
    assert summary == upTo + Present(Available, b.available);
    upTo := summary;
    if b.warning != [] { summary := summary + [Block(NeedsAttention, b.warning)]; }
    assert summary == upTo + Present(NeedsAttention, b.warning);
    upTo := summary;
    if b.errors != [] { summary := summary + [Block(Failed, b.errors)]; }
    assert summary == upTo + Present(Failed, b.errors);
    assert summary == Assemble(b);
  }

  // ------------------------------------------------------------ details

  const NoSelection: string := "请选择要查看的查询结果"

  /** The detail shown for a dropdown choice. */
  datatype Shown = Detail(result: Verdict) | Placeholder(text: string)

  /** `show_details`: the stored detail, or the default prompt for an unknown key. */
  function ShowDetails(choice: string, details: map<string, Verdict>): (s: Shown)
    ensures choice in details ==> s == Detail(details[choice])
    ensures choice !in details ==> s == Placeholder(NoSelection)
  {
    if choice in details then Detail(details[choice]) else Placeholder(NoSelection)
  }

  // ------------------------------------------------------------ process_query

  /** The error record for a rejected name. */
  function InvalidRecord(name: string, e: NameError): (r: Verdict)
    ensures r.queryName == name && r.status == Error && r.errorMessage == Some(Message(e))
    ensures r.brands == [] && r.totalFound == 0 && r.totalDisplayed == 0 && !r.hasExactMatch && !r.inLocalDb
  {
    Verdict(name, Error, Some(Message(e)), false, false, false, 0, 0, [], None)
  }

  /** The error records of the rejected names, in input order. */
  function InvalidRecords(names: seq<string>): (rs: seq<Verdict>)
    ensures forall i :: 0 <= i < |rs| ==> rs[i].status == Error
    decreases |names|
  {
    if names == [] then []
    else
      var init := InvalidRecords(names[..|names| - 1]);
      var last := names[|names| - 1];
      match ValidateName(last)
      case Rejected(e) => init + [InvalidRecord(last, e)]
      case Accepted(_) => init
  }

  /** Every name is either rejected with a record or passed on. */
  lemma {:induction false} EveryNameAccountedFor(names: seq<string>)
    ensures |InvalidRecords(names)| + |ValidNames(names)| == |names|
    decreases |names|
  {
    if names != [] {
      EveryNameAccountedFor(names[..|names| - 1]);
    }
  }

  /** The check of each valid name, in order. */
  function CheckAll(names: seq<string>, niceClass: string, check: (string, string) -> Verdict): (rs: seq<Verdict>)
    ensures |rs| == |names| && forall i :: 0 <= i < |names| ==> rs[i] == check(names[i], niceClass)
  {
    seq(|names|, i requires 0 <= i < |names| => check(names[i], niceClass))
  }

  /** What `process_query` shows. */
  datatype Output =
    | Notice(message: string)
    | Report(summary: seq<Block>, choices: seq<string>, details: map<string, Verdict>)

  const TooManyMessage: string := "为避免服务器压力，次最多查询20个名称"

  /** `process_query(names, nice_class)`, with `check` standing for
      `checker.check_trademark(name, nice_class)`. `checked` lists the names
      passed to it, in call order. */
  method ProcessQuery(text: string, niceClass: string, check: (string, string) -> Verdict)
    returns (output: Output, results: seq<Verdict>, checked: seq<string>)
    ensures var names := ParseInputNames(text);
            && (names == [] ==> output == Notice(PromptMessage) && checked == [])
            && (|names| > MaxNames ==> output == Notice(TooManyMessage) && checked == [])
            && (0 < |names| <= MaxNames ==>
                  && checked == ValidNames(names)
                  && results == InvalidRecords(names) + CheckAll(checked, niceClass, check)
                  && (AllFailed(results) ==> output == Notice(AllFailedMessage))
                  && (!AllFailed(results) ==>
                        && output.Report?
                        && output.summary == SummaryOf(results)
                        && output.choices == NamesInOrder(results)
                        && (forall n :: n in output.details <==> Reported(results, n))
                        && (forall n :: n in output.details ==> output.details[n] == LastFor(results, n))))
  {
    var nameList := ParseInputNames(text);
    results, checked := [], [];
    if nameList == [] {
      output := Notice(PromptMessage);
      return;
    }
    if |nameList| > MaxNames {
      output := Notice(TooManyMessage);
      return;
    }
    var validNames: seq<string>;
    results, validNames := ValidateAll(nameList);
    var checkedResults: seq<Verdict>;
    checkedResults, checked := CheckEach(validNames, niceClass, check);
    results := results + checkedResults;
    var details, choices := FormatDetailedResults(results);
    if forall k :: 0 <= k < |results| ==> results[k].status == Error {
      output := Notice(AllFailedMessage);
      return;
    }
    var summary := FormatSummary(results);
    output := Report(summary, choices, details);
  }

  /** The validation loop of `process_query`. */
  method ValidateAll(nameList: seq<string>) returns (results: seq<Verdict>, validNames: seq<string>)
    ensures results == InvalidRecords(nameList) && validNames == ValidNames(nameList)
  {
    results, validNames := [], [];
    for i := 0 to |nameList|
      invariant results == InvalidRecords(nameList[..i])
      invariant validNames == ValidNames(nameList[..i])
    {
      assert nameList[..i + 1][..i] == nameList[..i];
      var name := nameList[i];
      match ValidateName(name)
      case Rejected(e) =>
        results := results + [Verdict(name, Error, Some(Message(e)), false, false, false, 0, 0, [], None)];
      case Accepted(validated) =>
        validNames := validNames + [validated];
    }
    assert nameList[..|nameList|] == nameList;
  }

  /** The query loop of `process_query` over the valid names. */
  method CheckEach(validNames: seq<string>, niceClass: string, check: (string, string) -> Verdict)
    returns (results: seq<Verdict>, checked: seq<string>)
    ensures checked == validNames && results == CheckAll(validNames, niceClass, check)
  {
    results, checked := [], [];
    for i := 0 to |validNames|
      invariant checked == validNames[..i]
      invariant results == CheckAll(checked, niceClass, check)
    {
      var result := check(validNames[i], niceClass);
      assert validNames[..i + 1] == checked + [validNames[i]];
      checked := checked + [validNames[i]];
      results := results + [result];
    }
    assert validNames[..|validNames|] == validNames;
  }
}
