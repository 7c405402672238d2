/** What the two front ends share: the per-name result record they read, the
    parsing of the input box, and the keying of the detail texts by name. */
module Frontend {
  import opened Wrappers
  import opened Strings
  import opened SourceReplies
  import opened Validator

  /** `search_params` as the front ends read it. */
  datatype SearchParams = SearchParams(region: string, niceClass: string, status: string)

  /** The fields of a result dict that the front ends read; a key the dict
      lacks is read here with the default `.get` would give. */
  datatype Verdict = Verdict(
    queryName: string,
    status: Status,
    errorMessage: Option<string>,
    inLocalDb: bool,
    hasExactMatch: bool,
    hasSimilarMatch: bool,
    totalFound: int,
    totalDisplayed: int,
    brands: seq<string>,
    searchParams: Option<SearchParams>)

  // ------------------------------------------------------------ input parsing

  /** The stripped non-blank lines, in order. */
  function KeepNonBlank(lines: seq<string>): (r: seq<string>)
    ensures |r| <= |lines|
    ensures forall n :: n in r ==> n != [] && IsStripped(n)
  {
    if lines == [] then []
    else
      var n := Strip(lines[0]);
      (if n != [] then [n] else []) + KeepNonBlank(lines[1..])
  }

  /** `[name.strip() for name in text.split('\n') if name.strip()]` */
  function ParseInputNames(text: string): (names: seq<string>)
    ensures forall n :: n in names ==> n != [] && IsStripped(n) && '\n' !in n
  {
    var lines := SplitLines(text);
    var r := KeepNonBlank(lines);
    assert forall n :: n in r ==> '\n' !in n by {
      forall n | n in r ensures '\n' !in n {
        KeepNonBlankFrom(lines, n);
        var i :| 0 <= i < |lines| && Strip(lines[i]) == n;
        StripIsSlice(lines[i]);
      }
    }
    r
  }

  /** Every kept name is the stripped form of one of the lines. */
  lemma {:induction false} KeepNonBlankFrom(lines: seq<string>, n: string)
    requires n in KeepNonBlank(lines)
    ensures exists i :: 0 <= i < |lines| && Strip(lines[i]) == n
  {
    if Strip(lines[0]) != n {
      KeepNonBlankFrom(lines[1..], n);
      var i :| 0 <= i < |lines[1..]| && Strip(lines[1..][i]) == n;
      assert Strip(lines[i + 1]) == n;
    }
  }

  /** A stripped string is part of the original, so it has no newline the
      original lacks. */
  lemma StripIsSlice(s: string)
    ensures '\n' !in s ==> '\n' !in Strip(s)
  {
    var a := NextNonBlank(s, 0);
    if a < |s| && '\n' in Strip(s) {
      var k :| 0 <= k < |Strip(s)| && Strip(s)[k] == '\n';
      assert s[a + k] == '\n';
    }
  }

  /** Parsing one line and then the rest is parsing the whole text. */
  lemma ParseLineThenRest(line: string, rest: string)
    requires '\n' !in line
    ensures ParseInputNames(line + "\n" + rest) ==
              (if Strip(line) != [] then [Strip(line)] else []) + ParseInputNames(rest)
  {
    SplitLinesJoin(line, rest);
  }

  /** Names typed one per line, already tidy, are read back unchanged. */
  lemma {:induction false} ParseJoinedNames(names: seq<string>)
    requires forall i :: 0 <= i < |names| ==> names[i] != [] && IsStripped(names[i]) && '\n' !in names[i]
    ensures ParseInputNames(Join(names, "\n")) == names
  {
    if names != [] {
      var n := names[0];
      assert n == [] + n + [];
      StripOfPadded([], n, []);
      if |names| == 1 {
        assert SplitLines(n) == [n];
      } else {
        ParseJoinedNames(names[1..]);
        ParseLineThenRest(n, Join(names[1..], "\n"));
        assert names == [n] + names[1..];
      }
    }
  }

  /** Blank lines and margins are ignored. */
  lemma BlankLinesIgnored(text: string)
    requires forall l :: l in SplitLines(text) ==> AllWhitespace(l)
    ensures ParseInputNames(text) == []
  {
    KeepNothing(SplitLines(text));
  }

  lemma {:induction false} KeepNothing(lines: seq<string>)
    requires forall l :: l in lines ==> AllWhitespace(l)
    ensures KeepNonBlank(lines) == []
  {
    if lines != [] {
      assert lines[0] in lines;
      assert forall l :: l in lines[1..] ==> l in lines;
      KeepNothing(lines[1..]);
    }
  }

  // ------------------------------------------------------------ validation

  /** The validated forms of the accepted names, in input order. */
  function ValidNames(names: seq<string>): (vs: seq<string>)
    ensures forall v :: v in vs ==> WellFormedName(v)
    decreases |names|
  {
    if names == [] then []
    else
      var init := ValidNames(names[..|names| - 1]);
      match ValidateName(names[|names| - 1])
      case Accepted(v) => init + [v]
      case Rejected(_) => init
  }

  /** Every accepted input is passed on, in its validated form. */
  lemma {:induction false} AcceptedNamesPassedOn(names: seq<string>, i: nat)
    requires i < |names| && ValidateName(names[i]).Accepted?
    ensures ValidateName(names[i]).name in ValidNames(names)
    decreases |names|
  {
    if i < |names| - 1 {
      var init := names[..|names| - 1];
      assert init[i] == names[i];
      AcceptedNamesPassedOn(init, i);
    }
  }

  // ------------------------------------------------------------ detail keying

  /** Some result answers for `name`. */
  ghost predicate Reported(results: seq<Verdict>, name: string) {
    exists i :: 0 <= i < |results| && results[i].queryName == name
  }

  lemma ReportedSnoc(results: seq<Verdict>, name: string)
    requires results != []
    ensures Reported(results, name) <==>
              Reported(results[..|results| - 1], name) || results[|results| - 1].queryName == name
  {
    var init := results[..|results| - 1];
    if Reported(results, name) {
      var i :| 0 <= i < |results| && results[i].queryName == name;
      if i < |init| { assert init[i] == results[i]; }
    }
    if Reported(init, name) {
      var i :| 0 <= i < |init| && init[i].queryName == name;
      assert results[i] == init[i];
    }
  }

  /** The last result reported for `name`. */
  function LastFor(results: seq<Verdict>, name: string): (v: Verdict)
    requires Reported(results, name)
    ensures v in results && v.queryName == name
    decreases |results|
  {
    var last := results[|results| - 1];
    if last.queryName == name then last
    else
      ReportedSnoc(results, name);
      LastFor(results[..|results| - 1], name)
  }

  /** The queried names without repeats, in order of first appearance: the
      key order of the detail dict. */
  function NamesInOrder(results: seq<Verdict>): (keys: seq<string>)
    ensures forall n :: n in keys <==> Reported(results, n)
    ensures forall i, j :: 0 <= i < j < |keys| ==> keys[i] != keys[j]
    decreases |results|
  {
    if results == [] then []
    else
      var name := results[|results| - 1].queryName;
      var before := NamesInOrder(results[..|results| - 1]);
      assert forall n :: Reported(results, n) <==> n in before || n == name by {
        forall n { ReportedSnoc(results, n); }
      }
      if name in before then before else before + [name]
  }

  /** `format_detailed_results` keyed by `query_name`: a later result with the
      same name replaces an earlier one; keys keep first-insertion order. The
      detail text itself is rendered from the stored record. */
  method FormatDetailedResults(results: seq<Verdict>) returns (details: map<string, Verdict>, keys: seq<string>)
    ensures keys == NamesInOrder(results)
    ensures forall n :: n in details <==> Reported(results, n)
    ensures forall n :: n in details ==> Reported(results, n) && details[n] == LastFor(results, n)
  {
    details := map[];
    keys := [];
    for i := 0 to |results|
      invariant keys == NamesInOrder(results[..i])
      invariant forall n :: n in details <==> n in keys
      invariant forall n :: n in details ==> Reported(results[..i], n) && details[n] == LastFor(results[..i], n)
    {
      var r := results[i];
      ghost var done := results[..i + 1];
      assert done[..i] == results[..i] && done[i] == r;
      if r.queryName !in details {
        keys := keys + [r.queryName];
      }
      details := details[r.queryName := r];
      forall n | n in details ensures Reported(done, n) && details[n] == LastFor(done, n) {
        ReportedSnoc(done, n);
      }
    }
    assert results[..|results|] == results;
  }

  const PromptMessage: string := "请输入要查询的名称"
  const AllFailedMessage: string := "所有查询都失败了，可能网络问题或服务器故障，请稍后重试"

  /** `all(result["status"] == "error" for result in results)` */
  predicate AllFailed(results: seq<Verdict>) {
    forall i :: 0 <= i < |results| ==> results[i].status == Error
  }
}
