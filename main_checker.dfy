/** The two-registry orchestration of `TrademarkChecker`: TMDN first, WIPO only
    when TMDN gave no exact match, partial results kept on a WIPO failure, and
    a one-second spacing between TMDN calls. */
module MainChecker {
  import opened Wrappers
  import opened Strings
  import opened SourceReplies

  /** Minimum spacing of TMDN calls, on a millisecond clock. */
  const MinTmdnIntervalMs: int := 1000

  /** `check_trademarks` refuses batches larger than this. */
  const MaxBatchNames: nat := 20

  // ---------------------------------------------------------------- exact match

  /** `query.lower() in name.lower().split()` */
  predicate IsExactMatch(query: string, brand: string) {
    Lower(query) in Words(Lower(brand))
  }

  /** An exact match is the lower-cased query standing as a whole word of the
      lower-cased brand: never a prefix or an infix of a longer word. */
  lemma ExactMatchIsWholeWord(query: string, brand: string)
    ensures IsExactMatch(query, brand) <==>
              Lower(query) != [] && NoWhitespace(Lower(query)) && Standalone(Lower(brand), Lower(query))
  {
    WordsAreStandalone(Lower(brand), Lower(query));
  }

  /** `_check_exact_match`: the brands, in input order and with repeats, that
      contain the query as a word. */
  function ExactMatches(query: string, brands: seq<string>): (r: seq<string>)
    ensures forall b :: b in r <==> b in brands && IsExactMatch(query, b)
    ensures |r| <= |brands|
  {
    if brands == [] then []
    else
      assert forall b :: b in brands <==> b == brands[0] || b in brands[1..];
      (if IsExactMatch(query, brands[0]) then [brands[0]] else []) + ExactMatches(query, brands[1..])
  }

  /** The filter distributes over concatenation: it keeps the input order. */
  lemma {:induction false} ExactMatchesAppend(query: string, a: seq<string>, b: seq<string>)
    ensures ExactMatches(query, a + b) == ExactMatches(query, a) + ExactMatches(query, b)
  {
    if a == [] {
      assert a + b == b;
    } else {
      assert (a + b)[0] == a[0] && (a + b)[1..] == a[1..] + b;
      ExactMatchesAppend(query, a[1..], b);
    }
  }

  /** Every matching brand is kept as often as it occurs; no other brand is kept. */
  lemma {:induction false} ExactMatchesCount(query: string, brands: seq<string>, x: string)
    ensures multiset(ExactMatches(query, brands))[x] ==
              if IsExactMatch(query, x) then multiset(brands)[x] else 0
  {
    if brands != [] {
      ExactMatchesCount(query, brands[1..], x);
      assert brands == [brands[0]] + brands[1..];
    }
  }

  /** A brand that is a single token matches exactly the queries equal to it
      up to case: "cat" against "catch", "monica" against "Monica's". */
  lemma {:induction false} OneWordBrand(query: string, brand: string)
    requires brand != [] && NoWhitespace(brand)
    ensures IsExactMatch(query, brand) <==> Lower(query) == Lower(brand)
  {
    var q, w := Lower(query), Lower(brand);
    assert NoWhitespace(w) by {
      forall k | 0 <= k < |w| ensures !IsWhitespace(w[k]) { LowerKeepsWhitespace(brand[k]); }
    }
    ExactMatchIsWholeWord(query, brand);
    if q == w {
      assert StandaloneAt(w, q, 0);
    }
    if Standalone(w, q) && q != [] {
      var i :| StandaloneAt(w, q, i);
      assert i == 0;
      assert |q| == |w|;
      assert q == w[0..|q|];
    }
  }

  /** A query standing between blanks (or the ends) of a brand matches it. */
  lemma {:induction false} WholeWordMatches(query: string, before: string, after: string)
    requires Lower(query) != [] && NoWhitespace(Lower(query))
    requires before == [] || IsWhitespace(before[|before| - 1])
    requires after == [] || IsWhitespace(after[0])
    ensures IsExactMatch(query, before + query + after)
  {
    var brand := before + query + after;
    var w, q := Lower(brand), Lower(query);
    var i := |before|;
    assert w[i..i + |q|] == q by {
      forall k | 0 <= k < |q| ensures w[i..i + |q|][k] == q[k] { assert brand[i + k] == query[k]; }
    }
    if i > 0 {
      assert brand[i - 1] == before[i - 1];
      LowerKeepsWhitespace(brand[i - 1]);
    }
    if after != [] {
      assert brand[i + |q|] == after[0];
      LowerKeepsWhitespace(after[0]);
    }
    assert StandaloneAt(w, q, i);
    ExactMatchIsWholeWord(query, brand);
  }

  /** "cat" is not an exact match of "catch" nor of "Monica's" of "monica". */
  lemma PrefixIsNotAWord()
    ensures !IsExactMatch("cat", "catch")
    ensures !IsExactMatch("monica", "Monica's")
  {
    assert |Lower("cat")| != |Lower("catch")|;
    OneWordBrand("cat", "catch");
    assert |Lower("monica")| != |Lower("Monica's")|;
    OneWordBrand("monica", "Monica's");
  }

  // ---------------------------------------------------------------- one query

  datatype Source = Tmdn | Wipo

  /** `status_message`: left empty on failures, else "nothing found" or
      "found N (with exact match) from these sources". */
  datatype StatusMessage =
    | NoMessage
    | NothingFound
    | FoundRecords(total: int, withExactMatch: bool, sources: seq<Source>)

  /** The result dict of `check_trademark`; `exactMatches` is `list(set(...))`,
      whose order Python leaves unspecified, so it is a set here. */
  datatype CheckResult = CheckResult(
    queryName: string,
    status: Status,
    brands: seq<string>,
    totalFound: int,
    totalDisplayed: int,
    hasExactMatch: bool,
    exactMatches: set<string>,
    statusMessage: StatusMessage,
    searchSource: seq<Source>,
    errorDetails: seq<string>,
    errorMessage: Option<string>)

  function Fresh(query: string): CheckResult {
    CheckResult(query, Success, [], 0, 0, false, {}, NoMessage, [], [], None)
  }

  function WithError(r: CheckResult, msg: string): CheckResult {
    r.(status := Error, errorMessage := Some(msg), errorDetails := r.errorDetails + [msg])
  }

  /** `set(s)` */
  function Distinct(s: seq<string>): (r: set<string>)
    ensures forall x :: x in r <==> x in s
    ensures r == {} <==> s == []
  {
    if s == [] then {} else
      assert forall x :: x in s <==> x == s[0] || x in s[1..];
      {s[0]} + Distinct(s[1..])
  }

  function Concluded(r: CheckResult, exact: seq<string>): (c: CheckResult)
    ensures c.hasExactMatch == (c.exactMatches != {})
  {
    r.(totalDisplayed := |r.brands|,
       hasExactMatch := |exact| > 0,
       exactMatches := Distinct(exact),
       statusMessage := if r.totalFound == 0 then NothingFound
                        else FoundRecords(r.totalFound, |exact| > 0, r.searchSource))
  }

  predicate Succeeded(c: Call) {
    c.Returned? && c.reply.status == Success
  }

  /** The outcome `check_trademark` returns, given what each search call does. */
  function CheckOutcome(query: string, tmdn: Call, wipo: Call): (r: CheckResult)
    ensures r.queryName == query
    ensures !Succeeded(tmdn) ==>
              r.status == Error && r.brands == [] && r.totalFound == 0
              && r.searchSource == [] && |r.errorDetails| == 1 && !r.hasExactMatch
    ensures Succeeded(tmdn) && ExactMatches(query, tmdn.reply.brands) == [] && !Succeeded(wipo) ==>
              r.status == Error && r.brands == tmdn.reply.brands
              && r.totalFound == tmdn.reply.totalFound && r.searchSource == [Tmdn]
              && |r.errorDetails| == 1
    ensures r.status == Error ==> r.errorMessage.Some? && r.errorDetails == [r.errorMessage.value]
    ensures r.status == Success ==>
              && Succeeded(tmdn)
              && r.totalDisplayed == |r.brands|
              && r.hasExactMatch == (r.exactMatches != {})
              && r.errorDetails == [] && r.errorMessage == None
    ensures Wipo in r.searchSource ==> Succeeded(tmdn) && ExactMatches(query, tmdn.reply.brands) == []
  {
    match tmdn
    case Raised(m) => WithError(Fresh(query), "查询过程出错: " + m)
    case Returned(t) =>
      if t.status != Success then WithError(Fresh(query), "TMDN查询失败: " + ErrorDetail(t))
      else
        var exact := ExactMatches(query, t.brands);
        if exact != [] then Concluded(AfterTmdn(query, t), exact)
        else AfterWipo(AfterTmdn(query, t), t, wipo)
  }

  /** The record once TMDN has answered successfully. */
  function AfterTmdn(query: string, t: SourceReply): CheckResult {
    Fresh(query).(brands := t.brands, totalFound := t.totalFound, searchSource := [Tmdn])
  }

  /** The final record when TMDN found no exact match and WIPO was asked. */
  function AfterWipo(afterTmdn: CheckResult, t: SourceReply, wipo: Call): CheckResult {
    match wipo
    case Raised(m) => WithError(afterTmdn, "WIPO查询出错: " + m)
    case Returned(w) =>
      if w.status != Success then WithError(afterTmdn, "WIPO查询失败: " + ErrorDetail(w))
      else
        Concluded(afterTmdn.(brands := t.brands + w.brands,
                             totalFound := t.totalFound + w.totalFound,
                             searchSource := [Tmdn, Wipo]),
                  ExactMatches(afterTmdn.queryName, t.brands) + ExactMatches(afterTmdn.queryName, w.brands))
  }

  /** The registries `check_trademark` calls, in order. */
  ghost function QueriedSources(query: string, tmdn: Call): (s: seq<Source>)
    ensures s == [Tmdn] || s == [Tmdn, Wipo]
  {
    if Succeeded(tmdn) && ExactMatches(query, tmdn.reply.brands) == [] then [Tmdn, Wipo] else [Tmdn]
  }

  /** The reply of a source listed in `search_source`. */
  function ReplyOf(s: Source, tmdn: Call, wipo: Call): SourceReply
    requires tmdn.Returned? && wipo.Returned?
  {
    match s
    case Tmdn => tmdn.reply
    case Wipo => wipo.reply
  }

  function SumTotals(sources: seq<Source>, tmdn: Call, wipo: Call): int
    requires tmdn.Returned? && wipo.Returned?
  {
    if sources == [] then 0 else ReplyOf(sources[0], tmdn, wipo).totalFound + SumTotals(sources[1..], tmdn, wipo)
  }

  function ConcatBrands(sources: seq<Source>, tmdn: Call, wipo: Call): seq<string>
    requires tmdn.Returned? && wipo.Returned?
  {
    if sources == [] then [] else ReplyOf(sources[0], tmdn, wipo).brands + ConcatBrands(sources[1..], tmdn, wipo)
  }

  /** On success: the brands are the queried sources' brands in query order,
      and `total_found` is the sum of their reported totals (independent of
      how many brands they listed). */
  lemma SuccessMergesQueriedSources(query: string, tmdn: Call, wipo: Call)
    requires tmdn.Returned? && wipo.Returned?
    requires CheckOutcome(query, tmdn, wipo).status == Success
    ensures var r := CheckOutcome(query, tmdn, wipo);
            && r.searchSource == QueriedSources(query, tmdn)
            && r.brands == ConcatBrands(r.searchSource, tmdn, wipo)
            && r.totalFound == SumTotals(r.searchSource, tmdn, wipo)
  {
    var t := tmdn.reply;
    if ExactMatches(query, t.brands) == [] {
      var w := wipo.reply;
      assert ConcatBrands([Wipo], tmdn, wipo) == w.brands + [];
      assert SumTotals([Wipo], tmdn, wipo) == w.totalFound + 0;
    } else {
      assert ConcatBrands([Tmdn], tmdn, wipo) == t.brands + [];
    }
  }

  /** On success `exact_matches` is exactly the set of listed brands that
      contain the query as a word, whichever registries were asked. */
  lemma SuccessExactMatchesAreMatchingBrands(query: string, tmdn: Call, wipo: Call)
    requires CheckOutcome(query, tmdn, wipo).status == Success
    ensures var r := CheckOutcome(query, tmdn, wipo);
            forall b :: b in r.exactMatches <==> b in r.brands && IsExactMatch(query, b)
  {
    var t := tmdn.reply;
    if ExactMatches(query, t.brands) == [] {
      ExactMatchesAppend(query, t.brands, wipo.reply.brands);
    }
  }

  /** The step-by-step body of `check_trademark` after the rate-limit wait: the
      result record is updated in place as each registry answers. */
  method RunSources(query: string, tmdn: Call, wipo: Call) returns (r: CheckResult, ghost queried: seq<Source>)
    ensures r == CheckOutcome(query, tmdn, wipo)
    ensures queried == QueriedSources(query, tmdn)
  {
    r := CheckResult(query, Success, [], 0, 0, false, {}, NoMessage, [], [], None);
    queried := [Tmdn];
    if tmdn.Raised? {
      var msg := "查询过程出错: " + tmdn.message;
      r := r.(status := Error, errorMessage := Some(msg));
      r := r.(errorDetails := r.errorDetails + [msg]);
      assert r == WithError(Fresh(query), msg);
      return;
    }
    var t := tmdn.reply;
    if t.status != Success {
      var msg := "TMDN查询失败: " + t.errorMessage.GetOr("未知错误");
      r := r.(status := Error, errorMessage := Some(msg));
      r := r.(errorDetails := r.errorDetails + [msg]);
      assert r == WithError(Fresh(query), msg);
      return;
    }
    r := r.(brands := r.brands + t.brands);
    r := r.(totalFound := r.totalFound + t.totalFound);
    r := r.(searchSource := r.searchSource + [Tmdn]);
    assert r == AfterTmdn(query, t);
    var exact := ExactMatches(query, t.brands);
    if exact == [] {
      queried := queried + [Wipo];
      r := QueryWipo(r, t, wipo);
    } else {
      r := Conclude(r, exact);
    }
  }

  /** The WIPO step: a failure is recorded on the TMDN partial result, a
      success is merged in and the record concluded. */
  method QueryWipo(afterTmdn: CheckResult, t: SourceReply, wipo: Call) returns (r: CheckResult)
    ensures r == AfterWipo(afterTmdn, t, wipo)
  {
    r := afterTmdn;
    if wipo.Raised? {
      var msg := "WIPO查询出错: " + wipo.message;
      r := r.(errorDetails := r.errorDetails + [msg]);
      r := r.(status := Error, errorMessage := Some(msg));
      assert r == WithError(afterTmdn, msg);
      return;
    }
    var w := wipo.reply;
    if w.status != Success {
      var msg := "WIPO查询失败: " + w.errorMessage.GetOr("未知错误");
      r := r.(errorDetails := r.errorDetails + [msg]);
      r := r.(status := Error, errorMessage := Some(msg));
      assert r == WithError(afterTmdn, msg);
      return;
    }
    r := r.(brands := t.brands + w.brands);
    r := r.(totalFound := t.totalFound + w.totalFound);
    r := r.(searchSource := [Tmdn, Wipo]);
    var exact := ExactMatches(afterTmdn.queryName, t.brands) + ExactMatches(afterTmdn.queryName, w.brands);
    r := Conclude(r, exact);
  }

  /** The closing fields of the record: display count, exact-match flag and
      set, and the status message. */
  method Conclude(merged: CheckResult, exact: seq<string>) returns (r: CheckResult)
    ensures r == Concluded(merged, exact)
  {
    r := merged;
    r := r.(totalDisplayed := |r.brands|);
    r := r.(hasExactMatch := |exact| > 0);
    r := r.(exactMatches := Distinct(exact));
    if r.totalFound == 0 {
      r := r.(statusMessage := NothingFound);
    } else {
      r := r.(statusMessage := FoundRecords(r.totalFound, r.hasExactMatch, r.searchSource));
    }
  }

  // ---------------------------------------------------------------- batch

  /** What happens to one name of a batch: the two search calls answer, or
      `check_trademark` itself raises before reaching them. */
  datatype NameRun = Answered(tmdn: Call, wipo: Call) | Crashed(message: string)

  /** The error record `check_trademarks` builds when `check_trademark` raises. */
  function CrashRecord(name: string, message: string): (r: CheckResult)
    ensures r.queryName == name && r.status == Error && r.brands == [] && r.totalFound == 0
    ensures r.errorMessage.Some? && r.errorDetails == [r.errorMessage.value]
  {
    var msg := "检查商标 " + name + " 时出错: " + message;
    CheckResult(name, Error, [], 0, 0, false, {}, NoMessage, [], [msg], Some(msg))
  }

  function BatchEntry(name: string, run: NameRun): CheckResult {
    match run
    case Answered(t, w) => CheckOutcome(name, t, w)
    case Crashed(m) => CrashRecord(name, m)
  }

  /** Consecutive TMDN call times are at least the minimum interval apart. */
  ghost predicate Spaced(times: seq<int>, after: int) {
    (|times| > 0 ==> times[0] >= after + MinTmdnIntervalMs)
    && forall i :: 0 < i < |times| ==> times[i] >= times[i - 1] + MinTmdnIntervalMs
  }

  /** A call at least the interval after the previous one keeps the calls spaced. */
  lemma SpacedSnoc(times: seq<int>, after: int, t: int)
    requires Spaced(times, after)
    requires t >= (if times == [] then after else times[|times| - 1]) + MinTmdnIntervalMs
    ensures Spaced(times + [t], after)
  {
  }

  class TrademarkChecker {
    /** `last_tmdn_query_time`, in milliseconds. */
    var lastTmdnQueryTime: int

    constructor ()
      ensures lastTmdnQueryTime == 0
    {
      lastTmdnQueryTime := 0;
    }

    /** `_wait_for_tmdn_rate_limit` at clock reading `now`: sleeps for what is
        left of the interval and records the wake-up time. */
    method WaitForTmdnRateLimit(now: int) returns (slept: int)
      modifies this
      ensures slept == if now - old(lastTmdnQueryTime) < MinTmdnIntervalMs
                       then MinTmdnIntervalMs - (now - old(lastTmdnQueryTime)) else 0
      ensures lastTmdnQueryTime == now + slept
      ensures lastTmdnQueryTime >= old(lastTmdnQueryTime) + MinTmdnIntervalMs
      ensures lastTmdnQueryTime >= now && slept >= 0
    {
      var sinceLast := now - lastTmdnQueryTime;
      slept := 0;
      if sinceLast < MinTmdnIntervalMs {
        slept := MinTmdnIntervalMs - sinceLast;
      }
      lastTmdnQueryTime := now + slept;
    }

    /** `check_trademark`: wait for the TMDN slot, then query the registries.
        `tmdnStart` is the time the TMDN call starts. */
    method CheckTrademark(query: string, now: int, tmdn: Call, wipo: Call)
      returns (r: CheckResult, ghost queried: seq<Source>, ghost tmdnStart: int)
      modifies this
      ensures r == CheckOutcome(query, tmdn, wipo)
      ensures queried == QueriedSources(query, tmdn) && queried[0] == Tmdn
      ensures tmdnStart == lastTmdnQueryTime
      ensures tmdnStart >= old(lastTmdnQueryTime) + MinTmdnIntervalMs && tmdnStart >= now
    {
      var _ := WaitForTmdnRateLimit(now);
      tmdnStart := lastTmdnQueryTime;
      r, queried := RunSources(query, tmdn, wipo);
    }

    /** One name of `check_trademarks`: its result, or the error record when
        `check_trademark` raises; `start` is the time its TMDN call starts. */
    method CheckOne(name: string, now: int, run: NameRun) returns (result: CheckResult, ghost start: Option<int>)
      modifies this
      ensures result == BatchEntry(name, run)
      ensures run.Crashed? ==> start == None && lastTmdnQueryTime == old(lastTmdnQueryTime)
      ensures run.Answered? ==>
                start == Some(lastTmdnQueryTime) && lastTmdnQueryTime >= old(lastTmdnQueryTime) + MinTmdnIntervalMs
    {
      match run
      case Answered(t, w) =>
        var r, _, tmdnStart := CheckTrademark(name, now, t, w);
        result := r;
        start := Some(tmdnStart);
      case Crashed(m) =>
        result := CrashRecord(name, m);
        start := None;
    }

    /** `check_trademarks`: more than 20 names raise before any query; otherwise
        one result per name, in input order, with raised errors captured.
        `clock[i]` is the clock reading when name i starts. */
    method CheckTrademarks(names: seq<string>, clock: seq<int>, runs: seq<NameRun>)
      returns (r: Result<seq<CheckResult>, string>, ghost tmdnStarts: seq<int>)
      requires |clock| == |names| && |runs| == |names|
      modifies this
      ensures |names| > MaxBatchNames ==>
                r == Err("每次最多可查询20个名称") && tmdnStarts == []
                && lastTmdnQueryTime == old(lastTmdnQueryTime)
      ensures |names| <= MaxBatchNames ==>
                && r.Ok? && |r.value| == |names|
                && (forall i :: 0 <= i < |names| ==> r.value[i] == BatchEntry(names[i], runs[i]))
      ensures Spaced(tmdnStarts, old(lastTmdnQueryTime)) && |tmdnStarts| <= |names|
    {
      tmdnStarts := [];
      if |names| > MaxBatchNames {
        r := Err("每次最多可查询20个名称");
        return;
      }
      ghost var entries := seq(|names|, k requires 0 <= k < |names| => BatchEntry(names[k], runs[k]));
      var results: seq<CheckResult> := [];
      for i := 0 to |names|
        invariant results == entries[..i]
        invariant |tmdnStarts| <= i
        invariant Spaced(tmdnStarts, old(lastTmdnQueryTime))
        invariant lastTmdnQueryTime >= old(lastTmdnQueryTime)
        invariant |tmdnStarts| > 0 ==> lastTmdnQueryTime == tmdnStarts[|tmdnStarts| - 1]
      {
        var result, start := CheckOne(names[i], clock[i], runs[i]);
        if start.Some? {
          SpacedSnoc(tmdnStarts, old(lastTmdnQueryTime), start.value);
          tmdnStarts := tmdnStarts + [start.value];
        }
        assert entries[..i + 1] == entries[..i] + [entries[i]];
        results := results + [result];
      }
      assert results == entries;
      r := Ok(results);
    }
  }

  /** Every batch entry answers for its own name. */
  lemma BatchEntryNamesItsQuery(name: string, run: NameRun)
    ensures BatchEntry(name, run).queryName == name
  {
  }
}
