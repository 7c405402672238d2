/** The Streamlit front end: a larger batch limit, validation records that
    echo the search parameters, and a four-way summary. */
module AppStreamlit {
  import opened Wrappers
  import opened Strings
  import opened SourceReplies
  import opened Validator
  import opened Config
  import opened Frontend

  /** A multiselect value as `process_query` receives it: one string or a list. */
  datatype Selection = One(value: string) | Several(values: seq<string>)

  /** `", ".join(v) if isinstance(v, list) else v` */
  function Render(sel: Selection): (s: string)
    ensures sel.One? ==> s == sel.value
    ensures sel.Several? && |sel.values| == 1 ==> s == sel.values[0]
    ensures sel.Several? && sel.values == [] ==> s == []
  {
    match sel
    case One(v) => v
    case Several(vs) => Join(vs, ", ")
  }

  /** Each further selected value is echoed after one more ", ". */
  lemma RenderAppend(vs: seq<string>, v: string)
    requires vs != []
    ensures Render(Several(vs + [v])) == Render(Several(vs)) + ", " + v
  {
    JoinSnoc(vs, v, ", ");
  }

  /** Two selected regions are echoed separated by ", ". */
  lemma RenderTwoRegions()
    ensures Render(Several(["美国", "欧洲"])) == "美国, 欧洲"
  {
    RenderAppend(["美国"], "欧洲");
    assert ["美国"] + ["欧洲"] == ["美国", "欧洲"];
  }

  // ------------------------------------------------------------ summary

  /** The summary sections, in the order they are printed. */
  datatype Section = LocalMatches | ExactMatches | Available | Failed

  function Rank(s: Section): nat {
    match s
    case LocalMatches => 0
    case ExactMatches => 1
    case Available => 2
    case Failed => 3
  }

  /** The section of one result: local match, else error, else exact match,
      else available. */
  function SectionOf(r: Verdict): Section {
    if r.inLocalDb then LocalMatches
    else if r.status == Error then Failed
    else if r.hasExactMatch then ExactMatches
    else Available
  }

  /** The tests are applied in strict priority order; everything that is no
      local match, no error and no exact match counts as available. */
  lemma SectionPriority(r: Verdict)
    ensures SectionOf(r) == LocalMatches <==> r.inLocalDb
    ensures SectionOf(r) == Failed <==> !r.inLocalDb && r.status == Error
    ensures SectionOf(r) == ExactMatches <==> !r.inLocalDb && r.status != Error && r.hasExactMatch
    ensures SectionOf(r) == Available <==> !r.inLocalDb && r.status != Error && !r.hasExactMatch
  {
  }

  /** The four lists of `format_summary`. */
  datatype Buckets = Buckets(local: seq<string>, existing: seq<string>, available: seq<string>, errors: seq<string>)

  /** The list of section `s`. */
  function Pick(s: Section, b: Buckets): seq<string> {
    match s
    case LocalMatches => b.local
    case ExactMatches => b.existing
    case Available => b.available
    case Failed => b.errors
  }

  /** Append `name` to the list of section `s`. */
  function Put(b: Buckets, s: Section, name: string): (c: Buckets)
    ensures forall t :: Pick(t, c) == Pick(t, b) + (if t == s then [name] else [])
  {
    match s
    case LocalMatches => b.(local := b.local + [name])
    case ExactMatches => b.(existing := b.existing + [name])
    case Available => b.(available := b.available + [name])
    case Failed => b.(errors := b.errors + [name])
  }

  /** Each result's name appended to its section's list, in result order. */
  function BucketsOf(results: seq<Verdict>): Buckets
    decreases |results|
  {
    if results == [] then Buckets([], [], [], [])
    else
      var last := results[|results| - 1];
      Put(BucketsOf(results[..|results| - 1]), SectionOf(last), last.queryName)
  }

  function Size(b: Buckets): nat {
    |b.local| + |b.existing| + |b.available| + |b.errors|
  }

  /** The four lists together have one name per result. */
  lemma {:induction false} BucketsPartition(results: seq<Verdict>)
    ensures Size(BucketsOf(results)) == |results|
    decreases |results|
  {
    if results != [] {
      BucketsPartition(results[..|results| - 1]);
    }
  }

  /** Each result's name is listed in the section its tests pick. */
  lemma {:induction false} ResultInItsSection(results: seq<Verdict>, i: nat)
    requires i < |results|
    ensures results[i].queryName in Pick(SectionOf(results[i]), BucketsOf(results))
    decreases |results|
  {
    if i < |results| - 1 {
      ResultInItsSection(results[..|results| - 1], i);
    }
  }

  /** Every listed name is that of a result of that section. */
  lemma {:induction false} NamesComeFromResults(results: seq<Verdict>, s: Section, name: string)
    requires name in Pick(s, BucketsOf(results))
    ensures exists i :: 0 <= i < |results| && SectionOf(results[i]) == s && results[i].queryName == name
    decreases |results|
  {
    var init := results[..|results| - 1];
    if name !in Pick(s, BucketsOf(init)) {
      assert SectionOf(results[|results| - 1]) == s && results[|results| - 1].queryName == name;
    } else {
      NamesComeFromResults(init, s, name);
      var i :| 0 <= i < |init| && SectionOf(init[i]) == s && init[i].queryName == name;
      assert results[i] == init[i];
    }
  }

  datatype Block = Block(section: Section, names: seq<string>)

  /** Section `s` as printed: its block, or nothing when it is empty. */
  function Present(s: Section, names: seq<string>): seq<Block> {
    if names != [] then [Block(s, names)] else []
  }

  /** The non-empty lists in print order. */
  function Assemble(b: Buckets): seq<Block> {
    Present(LocalMatches, b.local) + Present(ExactMatches, b.existing)
    + Present(Available, b.available) + Present(Failed, b.errors)
  }

  /** `format_summary`: the sections in fixed order, empty ones left out. */
  function SummaryOf(results: seq<Verdict>): seq<Block> {
    Assemble(BucketsOf(results))
  }

  /** Sections in strictly increasing rank, all of rank below `r`, each
      holding the non-empty list of its section in `b`. */
  ghost predicate WellOrdered(bs: seq<Block>, r: nat, b: Buckets) {
    && (forall i :: 0 <= i < |bs| ==> Rank(bs[i].section) < r && bs[i].names == Pick(bs[i].section, b) != [])
    && (forall i, j :: 0 <= i < j < |bs| ==> Rank(bs[i].section) < Rank(bs[j].section))
  }

  lemma WellOrderedSnoc(bs: seq<Block>, s: Section, b: Buckets)
    requires WellOrdered(bs, Rank(s), b)
    ensures WellOrdered(bs + Present(s, Pick(s, b)), Rank(s) + 1, b)
  {
  }

  lemma AssembleWellOrdered(b: Buckets)
    ensures WellOrdered(Assemble(b), 4, b)
  {
    var b0 := Present(LocalMatches, b.local);
    WellOrderedSnoc([], LocalMatches, b);
    var b1 := b0 + Present(ExactMatches, b.existing);
    WellOrderedSnoc(b0, ExactMatches, b);
    var b2 := b1 + Present(Available, b.available);
    WellOrderedSnoc(b1, Available, b);
    WellOrderedSnoc(b2, Failed, b);
  }

  /** The summary's sections come in print order, each holding exactly the
      names of its section, and empty sections are left out. */
  lemma SummaryShape(results: seq<Verdict>)
    ensures forall i, j :: 0 <= i < j < |SummaryOf(results)| ==>
              Rank(SummaryOf(results)[i].section) < Rank(SummaryOf(results)[j].section)
    ensures forall i :: 0 <= i < |SummaryOf(results)| ==>
              SummaryOf(results)[i].names == Pick(SummaryOf(results)[i].section, BucketsOf(results)) != []
  {
    AssembleWellOrdered(BucketsOf(results));
  }

  /** No non-empty section is left out. */
  lemma AssembleComplete(b: Buckets, s: Section)
    requires Pick(s, b) != []
    ensures exists i :: 0 <= i < |Assemble(b)| && Assemble(b)[i].section == s
  {
    var p0, p1 := Present(LocalMatches, b.local), Present(ExactMatches, b.existing);
    var p2, p3 := Present(Available, b.available), Present(Failed, b.errors);
    var bs := Assemble(b);
    assert bs == p0 + p1 + p2 + p3;
    match s
    case LocalMatches => assert bs[0] == p0[0];
    case ExactMatches => assert bs[|p0|] == p1[0];
    case Available => assert bs[|p0 + p1|] == p2[0];
    case Failed => assert bs[|p0 + p1 + p2|] == p3[0];
  }

  lemma SummaryComplete(results: seq<Verdict>, s: Section)
    requires Pick(s, BucketsOf(results)) != []
    ensures exists i :: 0 <= i < |SummaryOf(results)| && SummaryOf(results)[i].section == s
  {
    AssembleComplete(BucketsOf(results), s);
    var i :| 0 <= i < |Assemble(BucketsOf(results))| && Assemble(BucketsOf(results))[i].section == s;
    assert SummaryOf(results)[i].section == s;
  }

  function NameCount(bs: seq<Block>): nat {
    if bs == [] then 0 else |bs[0].names| + NameCount(bs[1..])
  }

  lemma {:induction false} NameCountAppend(a: seq<Block>, b: seq<Block>)
    ensures NameCount(a + b) == NameCount(a) + NameCount(b)
    decreases |a|
  {
    if a == [] {
      assert a + b == b;
    } else {
      assert (a + b)[1..] == a[1..] + b;
      NameCountAppend(a[1..], b);
    }
  }

  lemma NameCountSnoc(bs: seq<Block>, s: Section, names: seq<string>)
    ensures NameCount(bs + Present(s, names)) == NameCount(bs) + |names|
  {
    NameCountAppend(bs, Present(s, names));
    assert NameCount(Present(s, names)) == |names| by {
      if names != [] { assert Present(s, names)[1..] == []; }
    }
  }

  lemma AssembleCount(b: Buckets)
    ensures NameCount(Assemble(b)) == Size(b)
  {
    var b0 := Present(LocalMatches, b.local);
    NameCountSnoc([], LocalMatches, b.local);
    assert [] + b0 == b0;
    var b1 := b0 + Present(ExactMatches, b.existing);
    NameCountSnoc(b0, ExactMatches, b.existing);
    var b2 := b1 + Present(Available, b.available);
    NameCountSnoc(b1, Available, b.available);
    NameCountSnoc(b2, Failed, b.errors);
  }

  /** Every result is listed exactly once. */
  lemma SummaryListsEveryResultOnce(results: seq<Verdict>)
    ensures NameCount(SummaryOf(results)) == |results|
  {
    AssembleCount(BucketsOf(results));
    BucketsPartition(results);
  }

  /** The loop of `format_summary` appending each name to its list. */
  method Bucket(results: seq<Verdict>) returns (b: Buckets)
    ensures b == BucketsOf(results)
  {
    var existing, available, errors, local := [], [], [], [];
    for i := 0 to |results|
      invariant Buckets(local, existing, available, errors) == BucketsOf(results[..i])
    {
      assert results[..i + 1][..i] == results[..i];
      var result := results[i];
      var name := result.queryName;
      if result.inLocalDb {
        local := local + [name];
      } else if result.status == Error {
        errors := errors + [name];
      } else if result.hasExactMatch {
        existing := existing + [name];
      } else {
        available := available + [name];
      }
    }
    assert results[..|results|] == results;
    b := Buckets(local, existing, available, errors);
  }

  /** `format_summary`: the loop filling the lists, then the non-empty lists
      in print order. */
  method FormatSummary(results: seq<Verdict>) returns (summary: seq<Block>)
    ensures summary == SummaryOf(results)
  {
    var b := Bucket(results);
    summary := [];
    if b.local != [] { summary := summary + [Block(LocalMatches, b.local)]; }
    assert summary == Present(LocalMatches, b.local);
    ghost var upTo := summary;
    if b.existing != [] { summary := summary + [Block(ExactMatches, b.existing)]; }
    assert summary == upTo + Present(ExactMatches, b.existing);
    upTo := summary;
    if b.available != [] { summary := summary + [Block(Available, b.available)]; }
    assert summary == upTo + Present(Available, b.available);
    upTo := summary;
    if b.errors != [] { summary := summary + [Block(Failed, b.errors)]; }
    assert summary == upTo + Present(Failed, b.errors);
    assert summary == Assemble(b);
  }

  // ------------------------------------------------------------ process_query

  /** The error record for a rejected name, echoing the selected parameters. */
  function InvalidRecord(name: string, e: NameError, regions: Selection, classes: Selection): (r: Verdict)
    ensures r.queryName == name && r.status == Error && r.errorMessage == Some("输入格式错误: " + Message(e))
    ensures r.brands == [] && r.totalFound == 0 && !r.hasExactMatch && !r.inLocalDb
    ensures r.searchParams == Some(SearchParams(Render(regions), Render(classes), "输入验证失败"))
  {
    Verdict(name, Error, Some("输入格式错误: " + Message(e)), false, false, false, 0, 0, [],
            Some(SearchParams(Render(regions), Render(classes), "输入验证失败")))
  }

  /** The error records of the rejected names, in input order. */
  function InvalidRecords(names: seq<string>, regions: Selection, classes: Selection): (rs: seq<Verdict>)
    ensures forall i :: 0 <= i < |rs| ==> rs[i].status == Error && rs[i].searchParams.Some?
    decreases |names|
  {
    if names == [] then []
    else
      var init := InvalidRecords(names[..|names| - 1], regions, classes);
      var last := names[|names| - 1];
      match ValidateName(last)
      case Rejected(e) => init + [InvalidRecord(last, e, regions, classes)]
      case Accepted(_) => init
  }

  /** Every name is either rejected with a record or passed on. */
  lemma {:induction false} EveryNameAccountedFor(names: seq<string>, regions: Selection, classes: Selection)
    ensures |InvalidRecords(names, regions, classes)| + |ValidNames(names)| == |names|
    decreases |names|
  {
    if names != [] {
      EveryNameAccountedFor(names[..|names| - 1], regions, classes);
    }
  }

  /** `check_trademark(name, nice_classes, regions)` for each valid name, in order. */
  function CheckAll(names: seq<string>, classes: Selection, regions: Selection,
                    check: (string, Selection, Selection) -> Verdict): (rs: seq<Verdict>)
    ensures |rs| == |names| && forall i :: 0 <= i < |names| ==> rs[i] == check(names[i], classes, regions)
  {
    seq(|names|, i requires 0 <= i < |names| => check(names[i], classes, regions))
  }

  /** The detail text of a result reads its `search_params`; a result
      without them makes `format_detailed_results` raise `KeyError`. */
  predicate AllHaveParams(results: seq<Verdict>) {
    forall i :: 0 <= i < |results| ==> results[i].searchParams.Some?
  }

  /** What `process_query` returns — a message alone, or the summary, the
      names to pick from and their details — or the exception it raises. */
  datatype Output =
    | Notice(message: string)
    | Report(summary: seq<Block>, choices: seq<string>, details: map<string, Verdict>)
    | Raises(exception: string)

  const TooManyMessage: string := "为避免服务器压力，每次最多查询100个名称"
  const NoValidMessage: string := "所有输入的名称都不合法，请检查输入格式"
  /** `logger` is bound only on the first run of a session, before any button
      can be pressed, so the handler's first statement raises on the rerun
      that runs `process_query`: the `KeyError` of a missing `search_params`
      leaves `process_query` as this `NameError`. */
  const HandlerRaises: string := "NameError: name 'logger' is not defined"

  /** `process_query(names, regions, nice_classes)`, with `check` standing for
      `checker.check_trademark`. `checked` lists the names passed to it, in
      call order. */
  method ProcessQuery(text: string, regions: Selection, classes: Selection,
                      check: (string, Selection, Selection) -> Verdict)
    returns (output: Output, results: seq<Verdict>, checked: seq<string>)
    ensures var names := ParseInputNames(text);
            && (names == [] ==> output == Notice(PromptMessage) && checked == [])
            && (|names| > MaxNamesPerQuery ==> output == Notice(TooManyMessage) && checked == [])
            && (0 < |names| <= MaxNamesPerQuery && ValidNames(names) == [] ==>
                  output == Notice(NoValidMessage) && checked == [])
            && (0 < |names| <= MaxNamesPerQuery && ValidNames(names) != [] ==>
                  && checked == ValidNames(names)
                  && results == InvalidRecords(names, regions, classes) + CheckAll(checked, classes, regions, check)
                  && (!AllHaveParams(results) ==> output == Raises(HandlerRaises))
                  && (AllHaveParams(results) && AllFailed(results) ==> output == Notice(AllFailedMessage))
                  && (AllHaveParams(results) && !AllFailed(results) ==>
                        && output.Report?
                        && output.summary == SummaryOf(results)
                        && output.choices == NamesInOrder(results)
                        && (forall n :: n in output.details <==> Reported(results, n))
                        && (forall n :: n in output.details ==> output.details[n] == LastFor(results, n))))
  {
    var nameList := ParseInputNames(text);
    results, checked := [], [];
    if nameList == [] {
      output := Notice(PromptMessage);
      return;
    }
    if |nameList| > MaxNamesPerQuery {
      output := Notice(TooManyMessage);
      return;
    }
    var validNames: seq<string>;
    results, validNames := ValidateAll(nameList, regions, classes);
    if validNames == [] {
      output := Notice(NoValidMessage);
      return;
    }
    var checkedResults: seq<Verdict>;
    checkedResults, checked := CheckEach(validNames, classes, regions, check);
    results := results + checkedResults;
    assert results == InvalidRecords(nameList, regions, classes) + CheckAll(checked, classes, regions, check);
    if exists k :: 0 <= k < |results| && results[k].searchParams.None? {
      output := Raises(HandlerRaises);
      return;
    }
    assert AllHaveParams(results);
    var details, choices := FormatDetailedResults(results);
    if forall k :: 0 <= k < |results| ==> results[k].status == Error {
      output := Notice(AllFailedMessage);
      return;
    }
    assert !AllFailed(results);
    var summary := FormatSummary(results);
    output := Report(summary, choices, details);
  }

  /** The validation loop of `process_query`. */
  method ValidateAll(nameList: seq<string>, regions: Selection, classes: Selection)
    returns (results: seq<Verdict>, validNames: seq<string>)
    ensures results == InvalidRecords(nameList, regions, classes) && validNames == ValidNames(nameList)
  {
    results, validNames := [], [];
    for i := 0 to |nameList|
      invariant results == InvalidRecords(nameList[..i], regions, classes)
      invariant validNames == ValidNames(nameList[..i])
    {
      assert nameList[..i + 1][..i] == nameList[..i];
      var name := nameList[i];
      match ValidateName(name)
      case Rejected(e) =>
        var params := SearchParams(Render(regions), Render(classes), "输入验证失败");
        results := results + [Verdict(name, Error, Some("输入格式错误: " + Message(e)), false, false, false, 0, 0, [], Some(params))];
      case Accepted(validated) =>
        validNames := validNames + [validated];
    }
    assert nameList[..|nameList|] == nameList;
  }

  /** The query loop of `process_query` over the valid names. */
  method CheckEach(validNames: seq<string>, classes: Selection, regions: Selection,
                   check: (string, Selection, Selection) -> Verdict)
    returns (results: seq<Verdict>, checked: seq<string>)
    ensures checked == validNames && results == CheckAll(validNames, classes, regions, check)
  {
    results, checked := [], [];
    for i := 0 to |validNames|
      invariant checked == validNames[..i]
      invariant results == CheckAll(checked, classes, regions, check)
    {
      var result := check(validNames[i], classes, regions);
      assert validNames[..i + 1] == checked + [validNames[i]];
      checked := checked + [validNames[i]];
      results := results + [result];
    }
    assert validNames[..|validNames|] == validNames;
  }
}
