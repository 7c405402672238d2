/** The decision logic of the WIPO Global Brand Database search once the page
    has been read: the result count from the status line, and the cleaned,
    sorted list of brand names. */
module WipoNameChecker {
  import opened Wrappers
  import opened Strings
  import opened Sorting
  import opened SourceReplies

  // ------------------------------------------------------------ result count

  predicate IsDigit(c: char) {
    '0' <= c <= '9'
  }

  ghost predicate AllDigits(s: string) {
    forall i :: 0 <= i < |s| ==> IsDigit(s[i])
  }

  /** `int(digits)` for a string of decimal digits. */
  function DigitsValue(s: string): (n: nat)
    decreases |s|
  {
    if s == [] then 0
    else if IsDigit(s[|s| - 1]) then DigitsValue(s[..|s| - 1]) * 10 + (s[|s| - 1] as int - '0' as int)
    else DigitsValue(s[..|s| - 1]) * 10
  }

  /** One past the run of digits of `s` that starts at `j`. */
  function DigitRunEnd(s: string, j: nat): (e: nat)
    requires j <= |s|
    ensures j <= e <= |s|
    ensures forall k :: j <= k < e ==> IsDigit(s[k])
    ensures e < |s| ==> !IsDigit(s[e])
    decreases |s| - j
  {
    if j == |s| || !IsDigit(s[j]) then j else DigitRunEnd(s, j + 1)
  }

  /** The pattern `of (\d+) results` matches at `i` with a group of `k` digits. */
  ghost predicate RegexMatchAt(text: string, i: int, k: int) {
    && OccursAt(text, "of ", i)
    && k >= 1 && i + 3 + k <= |text|
    && AllDigits(text[i + 3..i + 3 + k])
    && OccursAt(text, " results", i + 3 + k)
  }

  /** The matcher's test at position `i`: "of ", the maximal digit run, " results". */
  predicate MatchesAt(text: string, i: nat)
    requires i <= |text|
  {
    && StartsWith(text[i..], "of ")
    && var e := DigitRunEnd(text, i + 3);
       e > i + 3 && StartsWith(text[e..], " results")
  }

  /** The digit group of the match at `i`. */
  function GroupAt(text: string, i: nat): string
    requires i <= |text| && MatchesAt(text, i)
  {
    text[i + 3..DigitRunEnd(text, i + 3)]
  }

  /** Since a blank is not a digit, the greedy digit run is the only way the
      pattern can match at `i`. */
  lemma {:induction false} MatchesAtIsRegexMatch(text: string, i: nat)
    requires i <= |text|
    ensures MatchesAt(text, i) <==> exists k :: RegexMatchAt(text, i, k)
    ensures MatchesAt(text, i) ==> RegexMatchAt(text, i, |GroupAt(text, i)|)
    ensures forall k :: RegexMatchAt(text, i, k) ==> k == DigitRunEnd(text, i + 3) - (i + 3)
  {
    forall k | RegexMatchAt(text, i, k) ensures k == DigitRunEnd(text, i + 3) - (i + 3) && MatchesAt(text, i) {
      assert text[i..][..3] == text[i..i + 3];
      var e := DigitRunEnd(text, i + 3);
      forall m | i + 3 <= m < i + 3 + k ensures IsDigit(text[m]) {
        assert text[m] == text[i + 3..i + 3 + k][m - (i + 3)];
      }
      assert text[i + 3 + k] == text[i + 3 + k..i + 3 + k + 8][0] == ' ';
      assert e == i + 3 + k;
      assert text[e..][..8] == text[e..e + 8];
    }
    if MatchesAt(text, i) {
      var e := DigitRunEnd(text, i + 3);
      assert text[i..][..3] == text[i..i + 3];
      assert text[e..][..8] == text[e..e + 8];
      var g := text[i + 3..e];
      assert AllDigits(g) by {
        forall m | 0 <= m < |g| ensures IsDigit(g[m]) { assert g[m] == text[i + 3 + m]; }
      }
      assert RegexMatchAt(text, i, e - (i + 3));
    }
  }

  /** The value of the leftmost match at or after `i`, or 0. */
  function ExtractFrom(text: string, i: nat): (n: nat)
    requires i <= |text|
    decreases |text| - i
  {
    if MatchesAt(text, i) then DigitsValue(GroupAt(text, i))
    else if i == |text| then 0
    else ExtractFrom(text, i + 1)
  }

  /** `_extract_total_results`: the number in the leftmost `of N results`, else 0. */
  function ExtractTotalResults(text: string): (n: nat) {
    ExtractFrom(text, 0)
  }

  lemma {:induction false} ExtractFromLeftmost(text: string, from: nat, i: nat, k: nat)
    requires from <= i && RegexMatchAt(text, i, k)
    requires forall j, k' :: from <= j < i ==> !RegexMatchAt(text, j, k')
    ensures ExtractFrom(text, from) == DigitsValue(text[i + 3..i + 3 + k])
    decreases i - from
  {
    MatchesAtIsRegexMatch(text, from);
    if from < i {
      ExtractFromLeftmost(text, from + 1, i, k);
    }
  }

  lemma {:induction false} ExtractFromNone(text: string, from: nat)
    requires from <= |text|
    requires forall j, k :: from <= j ==> !RegexMatchAt(text, j, k)
    ensures ExtractFrom(text, from) == 0
    decreases |text| - from
  {
    MatchesAtIsRegexMatch(text, from);
    if from < |text| {
      ExtractFromNone(text, from + 1);
    }
  }

  /** The leftmost occurrence of the pattern decides the count. */
  lemma ExtractLeftmostMatch(text: string, i: nat, k: nat)
    requires RegexMatchAt(text, i, k)
    requires forall j, k' :: 0 <= j < i ==> !RegexMatchAt(text, j, k')
    ensures ExtractTotalResults(text) == DigitsValue(text[i + 3..i + 3 + k])
  {
    ExtractFromLeftmost(text, 0, i, k);
  }

  /** Without an occurrence of the pattern the count is 0. */
  lemma ExtractWithoutMatch(text: string)
    requires forall j, k :: !RegexMatchAt(text, j, k)
    ensures ExtractTotalResults(text) == 0
  {
    ExtractFromNone(text, 0);
  }

  /** The decimal digits of `n`, most significant first. */
  function NatToDigits(n: nat): (s: string)
    ensures s != [] && AllDigits(s)
    decreases n
  {
    var last := ['0' + ((n % 10) as char)];
    if n < 10 then last
    else
      var front := NatToDigits(n / 10);
      assert forall i :: 0 <= i < |front| ==> (front + last)[i] == front[i];
      front + last
  }

  lemma {:induction false} DigitsRoundTrip(n: nat)
    ensures DigitsValue(NatToDigits(n)) == n
    decreases n
  {
    var s := NatToDigits(n);
    if n >= 10 {
      DigitsRoundTrip(n / 10);
      assert s[..|s| - 1] == NatToDigits(n / 10);
    }
  }

  /** A status line that reports `n` results, after a lead-in without an
      'o' (such as "Displaying 1-15 "), yields `n`. */
  lemma CountTextRoundTrip(prefix: string, n: nat, suffix: string)
    requires 'o' !in prefix
    ensures ExtractTotalResults(prefix + "of " + NatToDigits(n) + " results" + suffix) == n
  {
    CountTextReadsDigits(prefix, NatToDigits(n), suffix);
    DigitsRoundTrip(n);
  }

  /** The count read from such a status line is the value of its digits. */
  lemma CountTextReadsDigits(prefix: string, d: string, suffix: string)
    requires 'o' !in prefix && d != [] && AllDigits(d)
    ensures ExtractTotalResults(prefix + "of " + d + " results" + suffix) == DigitsValue(d)
  {
    var text := prefix + "of " + d + " results" + suffix;
    var i := |prefix|;
    assert text[..i] == prefix;
    assert text[i..i + 3] == "of ";
    assert text[i + 3..i + 3 + |d|] == d;
    assert text[i + 3 + |d|..i + 3 + |d| + 8] == " results";
    NoMatchInLeadIn(prefix, text);
    LeftmostCount(text, i, d);
  }

  /** The leftmost match reads `d`, so the count is the value of `d`. */
  lemma LeftmostCount(text: string, i: nat, d: string)
    requires RegexMatchAt(text, i, |d|) && text[i + 3..i + 3 + |d|] == d
    requires forall j, k :: 0 <= j < i ==> !RegexMatchAt(text, j, k)
    ensures ExtractTotalResults(text) == DigitsValue(d)
  {
    ExtractLeftmostMatch(text, i, |d|);
  }

  /** No match starts inside a lead-in without an 'o'. */
  lemma NoMatchInLeadIn(prefix: string, text: string)
    requires 'o' !in prefix && |prefix| <= |text| && text[..|prefix|] == prefix
    ensures forall j, k :: 0 <= j < |prefix| ==> !RegexMatchAt(text, j, k)
  {
    forall j, k | 0 <= j < |prefix| ensures !RegexMatchAt(text, j, k) {
      assert text[j] == prefix[j];
      if RegexMatchAt(text, j, k) {
        OccursAtChars(text, "of ", j);
        assert false;
      }
    }
  }

  // ------------------------------------------------------------ brand names

  /** The kept brand texts: each stripped, empty ones dropped, page order. */
  function CleanBrandTexts(texts: seq<string>): (r: seq<string>)
    ensures |r| <= |texts|
    ensures forall b :: b in r ==> b != [] && IsStripped(b)
    decreases |texts|
  {
    if texts == [] then []
    else
      var last := Strip(texts[|texts| - 1]);
      CleanBrandTexts(texts[..|texts| - 1]) + (if last != [] then [last] else [])
  }

  /** Some text of `texts` strips to `b`. */
  ghost predicate StripsTo(texts: seq<string>, b: string) {
    exists i :: 0 <= i < |texts| && Strip(texts[i]) == b
  }

  lemma StripsToSnoc(init: seq<string>, t: string, b: string)
    ensures StripsTo(init + [t], b) <==> StripsTo(init, b) || Strip(t) == b
  {
    var texts := init + [t];
    if StripsTo(texts, b) {
      var i :| 0 <= i < |texts| && Strip(texts[i]) == b;
      if i < |init| { assert init[i] == texts[i]; }
    }
    if StripsTo(init, b) {
      var i :| 0 <= i < |init| && Strip(init[i]) == b;
      assert texts[i] == init[i];
    }
    assert texts[|init|] == t;
  }

  /** A text is kept exactly when its stripped form is non-empty. */
  lemma {:induction false} CleanBrandTextsMembers(texts: seq<string>, b: string)
    ensures b in CleanBrandTexts(texts) <==> b != [] && StripsTo(texts, b)
    decreases |texts|
  {
    if texts != [] {
      var init := texts[..|texts| - 1];
      var last := Strip(texts[|texts| - 1]);
      var kept := if last != [] then [last] else [];
      assert CleanBrandTexts(texts) == CleanBrandTexts(init) + kept;
      assert b in CleanBrandTexts(texts) <==> b in CleanBrandTexts(init) || b in kept;
      CleanBrandTextsMembers(init, b);
      assert texts == init + [texts[|texts| - 1]];
      StripsToSnoc(init, texts[|texts| - 1], b);
    }
  }

  /** The loop of `search_trademark` over the brand elements, then `sort()`. */
  method CollectBrandNames(texts: seq<string>) returns (brandNames: seq<string>)
    ensures Sorted(brandNames)
    ensures multiset(brandNames) == multiset(CleanBrandTexts(texts))
    ensures brandNames == Sort(CleanBrandTexts(texts))
  {
    brandNames := [];
    for i := 0 to |texts|
      invariant brandNames == CleanBrandTexts(texts[..i])
    {
      var text := Strip(texts[i]);
      assert texts[..i + 1][..i] == texts[..i];
      if text != [] {
        brandNames := brandNames + [text];
      }
    }
    assert texts[..|texts|] == texts;
    brandNames := Sort(brandNames);
  }

  // ------------------------------------------------------------ the search

  /** What the browser session yields: the status line and the brand texts,
      or an exception message. */
  datatype Page = Rendered(countText: string, brandTexts: seq<string>) | PageFailed(message: string)

  const NoResultsMarker: string := "No results found"

  /** The reply of `search_trademark` for the page it read. */
  function Reply(page: Page): (r: SourceReply)
    ensures page.PageFailed? ==>
              r == SourceReply(Error, [], 0, Some(page.message))
    ensures page.Rendered? && Contains(page.countText, NoResultsMarker) ==>
              r == SourceReply(Success, [], 0, None)
    ensures page.Rendered? && !Contains(page.countText, NoResultsMarker) ==>
              && r.status == Success && r.errorMessage == None
              && r.totalFound == ExtractTotalResults(page.countText)
              && Sorted(r.brands) && multiset(r.brands) == multiset(CleanBrandTexts(page.brandTexts))
    ensures r.totalFound >= 0
  {
    match page
    case PageFailed(m) => SourceReply(Error, [], 0, Some(m))
    case Rendered(countText, texts) =>
      var total := ExtractTotalResults(countText);
      if !Contains(countText, NoResultsMarker) then
        SourceReply(Success, Sort(CleanBrandTexts(texts)), total, None)
      else
        SourceReply(Success, [], 0, None)
  }

  /** `search_trademark` after the page has been read. */
  method SearchTrademark(page: Page) returns (reply: SourceReply)
    ensures reply == Reply(page)
  {
    match page
    case PageFailed(m) =>
      reply := SourceReply(Error, [], 0, Some(m));
    case Rendered(countText, texts) =>
      var total := ExtractTotalResults(countText);
      if !Contains(countText, NoResultsMarker) {
        var brandNames := CollectBrandNames(texts);
        reply := SourceReply(Success, brandNames, total, None);
      } else {
        reply := SourceReply(Success, [], 0, None);
      }
  }

  /** The reported total does not depend on how many brands the page listed. */
  lemma TotalIndependentOfBrands(countText: string, texts1: seq<string>, texts2: seq<string>)
    ensures Reply(Rendered(countText, texts1)).totalFound == Reply(Rendered(countText, texts2)).totalFound
  {
  }

  /** Every listed brand is a non-empty stripped text of the page. */
  lemma {:induction false} BrandsComeFromPage(page: Page, b: string)
    requires page.Rendered? && b in Reply(page).brands
    ensures b != [] && StripsTo(page.brandTexts, b)
  {
    var clean := CleanBrandTexts(page.brandTexts);
    assert b in multiset(Reply(page).brands);
    assert b in multiset(clean);
    CleanBrandTextsMembers(page.brandTexts, b);
  }
}
