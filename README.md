# Trademark checker — a verified model of its decision logic

The trademark checker takes a list of candidate brand names. For each name it
says whether the name is already registered or free to use. It answers from
several sources:

- a local CSV table of known risky names;
- the TMDN registry, which is always asked first;
- the WIPO Global Brand Database, which is asked only when TMDN shows no
  exact match;
- the USPTO search service.

Two front ends, one in Gradio and one in Streamlit, parse the input box,
validate each name, run the checks and print a summary in sections. A small
Clash controller rotates the proxy node the browser sessions go through.

This project models in Dafny the decisions these components make once the
outside world has answered. It covers:

- the name rules;
- exact-match detection, meaning the query as a whole word of a brand;
- the rule that WIPO is asked only when TMDN has no exact match, and merging
  the two replies;
- the 1-second spacing of TMDN calls;
- the batch loop that captures raised errors;
- the local table lookup;
- reading the result count from WIPO's status line, and sorting the brand
  list;
- building the USPTO payload and extracting its wordmarks;
- bucketing results into summary sections and keying the detail texts;
- the whole `process_query` flow of both front ends;
- cyclic proxy selection.

Each outside call becomes a parameter: the reply it gave, or the exception it
raised. The clock is a parameter too.

The modules follow the source files:

- `Validator`: `validator.py`
- `MainChecker`: `main_checker.py`
- `LocalDbChecker`: `local_db_checker.py`
- `WipoNameChecker`: `WIPO_name_checker.py`
- `UsChecker`: `us_checker.py`
- `App`: `app.py`
- `AppStreamlit`: `app_streamlit.py`
- `ClashController`: `clash_controller.py`

Shared pieces live in their own modules:

- `Frontend`: the result record both front ends read, input parsing, detail
  keying and collecting the valid names.
- `Strings`: Python's `strip`, `lower`, `split` and `in`.
- `Sorting`: Python's string order and `sorted`.
- `SourceReplies`: a registry's reply dict.
- `Config`: the constants of `config.py` that the modelled code reads.
- `Wrappers`: `Option` and `Result`.

`TrademarkChecker` and `LocalDbChecker` are classes, because the source
updates their fields: the last TMDN query time and the loaded table. Loops in
the source are methods with loop invariants. Each method is proved equal to a
specification function, and the properties are proved about those functions.

## Model

| member | source | states |
|---|---|---|
| Validator.ValidateName | validator.py:3-23 | a name is accepted exactly when its stripped form is non-empty, has no space and only letters, and then the stripped form is returned; each rejection message is given exactly when its rule is the first to fail |
| Validator.ValidateIdempotent | validator.py:3-23 | validating an accepted name again accepts it, unchanged |
| Validator.SpaceReportedBeforeLetters | validator.py:15-21 | a name with both an inner space and a digit is rejected for the space, because the space rule comes first |
| Validator.TabIsNotALetter | validator.py:15-21 | an inner tab passes the space rule but fails the letter rule |
| Strings.Strip | validator.py:9 | `strip()` leaves no whitespace at either end, and gives the empty string exactly for an all-whitespace input |
| Strings.StripOfPadded | validator.py:9 | stripping a stripped text padded with whitespace gives back that text |
| Strings.StripIdempotent | validator.py:9 | stripping twice is stripping once |
| Strings.Lower | main_checker.py:33 | `lower()` changes each character on its own and keeps the length |
| Strings.LowerOfLowerCase | main_checker.py:33 | a text without capitals is unchanged by `lower()` |
| Strings.Words | main_checker.py:33 | every token of `split()` is non-empty and has no whitespace |
| Strings.WordsAreStandalone | main_checker.py:33 | a string is a token of `split()` exactly when it is non-empty, blank-free and stands in the text between blanks or the ends |
| Strings.SplitLines | app.py:37 | `split('\n')` gives at least one piece, and no piece has a newline |
| Strings.SplitLinesJoin | app.py:37 | splitting `a + "\n" + b` gives `a` followed by the pieces of `b` |
| Strings.ContainsAt | WIPO_name_checker.py:52 | the substring test holds exactly when the substring occurs at some index |
| Strings.Join | app_streamlit.py:158-159 | joining no parts gives the empty string, and joining one part gives that part |
| Strings.JoinSnoc | app_streamlit.py:158-159 | each further part is appended after one more separator, so a list is its elements separated by the separator |
| Sorting.LessEqTotal | WIPO_name_checker.py:63 | Python's string order is total |
| Sorting.LessEqAntisymmetric | WIPO_name_checker.py:63 | two strings ordered both ways are equal |
| Sorting.LessEqTransitive | WIPO_name_checker.py:63 | the string order is transitive |
| Sorting.Insert | WIPO_name_checker.py:63 | inserting into a sorted list keeps it sorted and adds exactly one copy of the element |
| Sorting.Sort | WIPO_name_checker.py:63 | `sort()` gives a sorted permutation of its input |
| Sorting.SortedUnique | WIPO_name_checker.py:63 | two sorted permutations of one another are equal, so any correct sort gives the same list as `Sort` |
| Sorting.SortOfSorted | WIPO_name_checker.py:63 | sorting a sorted list changes nothing |
| MainChecker.ExactMatchIsWholeWord | main_checker.py:30-33 | a brand is an exact match of a query exactly when the lower-cased query is non-empty, blank-free and stands as a whole word of the lower-cased brand |
| MainChecker.ExactMatches | main_checker.py:30-33 | the kept brands are exactly the listed brands that match the query, and there are no more of them than brands |
| MainChecker.ExactMatchesAppend | main_checker.py:30-33 | the filter keeps input order: filtering a concatenation concatenates the filtered parts |
| MainChecker.ExactMatchesCount | main_checker.py:30-33 | a matching brand is kept as many times as it occurs, and a non-matching one never |
| MainChecker.OneWordBrand | main_checker.py:30-33 | a one-word brand matches exactly the queries equal to it ignoring case |
| MainChecker.WholeWordMatches | main_checker.py:30-33 | a one-word query placed between blanks, or at the ends of a brand, is an exact match of that brand |
| MainChecker.PrefixIsNotAWord | main_checker.py:30-33 | a query that is only a prefix of a brand's word ("cat" in "catch", "monica" in "Monica's") is not an exact match |
| MainChecker.Distinct | main_checker.py:107 | `set(...)` holds exactly the listed elements, and is empty exactly for the empty list |
| MainChecker.Concluded | main_checker.py:104-116 | `has_exact_match` holds exactly when `exact_matches` is non-empty |
| MainChecker.CheckOutcome | main_checker.py:35-125 | a TMDN failure or exception ends the check with an error and no brands and no sources; with no TMDN exact match, a WIPO failure gives an error that keeps the TMDN brands, total and source; every error has its message as the single detail; every success has TMDN succeeding, the displayed count equal to the brand count, and no errors; WIPO is listed only when TMDN succeeded without an exact match |
| MainChecker.QueriedSources | main_checker.py:55-79 | the registries asked are TMDN, alone or followed by WIPO |
| MainChecker.SuccessMergesQueriedSources | main_checker.py:66-86 | on success the sources are the registries asked, in order; the brands are their brand lists concatenated in that order; the total is the sum of their reported totals |
| MainChecker.SuccessExactMatchesAreMatchingBrands | main_checker.py:73-107 | on success `exact_matches` holds exactly the listed brands that match the query, from both registries |
| MainChecker.RunSources | main_checker.py:55-116 | the step-by-step body after the wait computes `CheckOutcome`, and asks WIPO exactly when `QueriedSources` says so |
| MainChecker.QueryWipo | main_checker.py:78-100 | the WIPO step records a failure or an exception on the TMDN partial result, or merges WIPO's brands, total and exact matches |
| MainChecker.Conclude | main_checker.py:104-116 | the closing step sets the displayed count, the exact-match fields and the status message |
| MainChecker.CrashRecord | main_checker.py:137-151 | a name whose check raised gets an error record for that name, with no brands, a zero total and its message as the single detail |
| MainChecker.BatchEntryNamesItsQuery | main_checker.py:133-151 | every batch entry, answered or crashed, is for the name it was made for |
| MainChecker.TrademarkChecker.constructor | main_checker.py:12 | the last TMDN query time starts at 0 |
| MainChecker.TrademarkChecker.WaitForTmdnRateLimit | main_checker.py:22-28 | sleeps for what is left of the 1-second interval, or not at all, and records the wake-up time, which is at least 1 s after the previous call and not before now |
| MainChecker.TrademarkChecker.CheckTrademark | main_checker.py:35-125 | the result is `CheckOutcome` of the calls' answers; TMDN is asked first; its call starts at the recorded time, at least 1 s after the previous TMDN call |
| MainChecker.TrademarkChecker.CheckOne | main_checker.py:133-151 | one name's batch entry is its check result or its crash record; only an answered name moves the TMDN clock, and by at least the interval |
| MainChecker.TrademarkChecker.CheckTrademarks | main_checker.py:127-152 | more than 20 names raise before any query or clock change; otherwise there is one entry per name, in input order, with crashes captured; all TMDN calls of the batch are at least 1 s apart |
| LocalDbChecker.FallbackTable | local_db_checker.py:29-35 | a failed load leaves an empty frame with the three configured columns |
| LocalDbChecker.ClassLabel | local_db_checker.py:85 | the echoed class label starts with the class code and " - ", and has nothing after it for an unknown class |
| LocalDbChecker.CreateResponse | local_db_checker.py:90-106 | a success answer for the local store: a hit lists the query as its one brand and its one exact match, with total 1; a miss lists nothing, with total 0 |
| LocalDbChecker.ErrorResponse | local_db_checker.py:70-88 | an exception gives an error answer that is never a hit, with no brands and the prefixed message |
| LocalDbChecker.MatchingRows | local_db_checker.py:55-61 | the mask keeps exactly the rows whose stripped, lower-cased name equals the query and whose class string equals the class |
| LocalDbChecker.MissingColumn | local_db_checker.py:55-59 | the lookup raises exactly when the name or class column is missing |
| LocalDbChecker.FoundIffSomeRowMatches | local_db_checker.py:37-68 | a name is found exactly when the frame is non-empty and has both columns, and some row has the same normalised name and the same class |
| LocalDbChecker.RegionIgnored | local_db_checker.py:42 | the region reaches only the echoed search parameters |
| LocalDbChecker.EchoedQueryName | local_db_checker.py:47-52 | an empty frame echoes the query as given, and otherwise the lower-cased, stripped query |
| LocalDbChecker.SourceIsAlwaysLocal | local_db_checker.py:70-106 | every answer names the local store as its only source, and an error is never a hit |
| LocalDbChecker.FailedLoadNeverFinds | local_db_checker.py:29-49 | after a failed load every search is a success without a hit |
| LocalDbChecker.LocalDbChecker.constructor | local_db_checker.py:7-14 | construction loads the table, or the empty fallback when loading fails |
| LocalDbChecker.LocalDbChecker.LoadDatabase | local_db_checker.py:24-35 | the stored table is the loaded one, or the empty fallback when loading fails |
| LocalDbChecker.LocalDbChecker.SearchTrademark | local_db_checker.py:37-88 | a hit is reported only when some row of the stored table matches, and exactly when the answer is a success with total 1 |
| WipoNameChecker.MatchesAtIsRegexMatch | WIPO_name_checker.py:90 | the scanner's test at a position agrees with the pattern `of (\d+) results` there, with `\d` read as an ASCII digit, and the digit group can only be the maximal digit run |
| WipoNameChecker.ExtractLeftmostMatch | WIPO_name_checker.py:88-93 | the count is the value of the digits of the leftmost occurrence of the pattern |
| WipoNameChecker.ExtractWithoutMatch | WIPO_name_checker.py:91-93 | without an occurrence of the pattern the count is 0 |
| WipoNameChecker.DigitsRoundTrip | WIPO_name_checker.py:92 | reading back the decimal digits of n gives n |
| WipoNameChecker.CountTextReadsDigits | WIPO_name_checker.py:88-93 | a status line "… of D results …" whose lead-in has no 'o' reads as the value of its digit string D |
| WipoNameChecker.CountTextRoundTrip | WIPO_name_checker.py:88-93 | a status line reporting n results, after such a lead-in, reads back as n |
| WipoNameChecker.CleanBrandTexts | WIPO_name_checker.py:58-61 | the kept brand texts are stripped and non-empty, and there are no more of them than elements |
| WipoNameChecker.CleanBrandTextsMembers | WIPO_name_checker.py:58-61 | a string is kept exactly when it is non-empty and is the stripped text of some element |
| WipoNameChecker.CollectBrandNames | WIPO_name_checker.py:55-63 | the loop and `sort()` give the kept texts as a sorted permutation |
| WipoNameChecker.Reply | WIPO_name_checker.py:49-86 | a failed page gives an error with its message and nothing found; a "No results found" line gives success with no brands and total 0; any other line gives success with the count read from the line and the kept brand texts sorted |
| WipoNameChecker.SearchTrademark | WIPO_name_checker.py:49-86 | the step-by-step reply equals `Reply` |
| WipoNameChecker.TotalIndependentOfBrands | WIPO_name_checker.py:49-70 | the reported total comes from the status line alone, not from how many brands the page listed |
| WipoNameChecker.BrandsComeFromPage | WIPO_name_checker.py:58-68 | every reported brand is the non-empty stripped text of some brand element of the page |
| UsChecker.NormaliseClasses | us_checker.py:86-87 | one class string becomes a one-element list, and a list is kept as it is |
| UsChecker.FormattedClasses | us_checker.py:23 | the filter holds exactly the configured codes of the known classes, and the result is never longer than its input |
| UsChecker.FormattedClassesAppend | us_checker.py:23 | the filter keeps order: formatting a concatenation concatenates the results |
| UsChecker.FormattedOneClass | us_checker.py:23 | one class is kept, mapped to its code, exactly when the configuration knows it |
| UsChecker.BuildQueryPayload | us_checker.py:14-76 | the payload searches the name, filters on the formatted classes, and asks for the first 200 wordmarks with the total hit count |
| UsChecker.ChosenDoc | us_checker.py:134-140 | the wordmark is read from `source` when it has one, else from `_source` when that has one, else not at all |
| UsChecker.FalsySourceDoesNotFallBack | us_checker.py:134-141 | an empty or null wordmark in `source` contributes nothing, even when `_source` has a wordmark |
| UsChecker.Wordmarks | us_checker.py:132-141 | the extracted names are non-empty, and there are no more of them than hits |
| UsChecker.WordmarksMembers | us_checker.py:132-141 | a name is extracted exactly when some hit contributes it |
| UsChecker.WordmarksAppend | us_checker.py:132-141 | extraction keeps hit order: it distributes over concatenation |
| UsChecker.ExtractWordmarks | us_checker.py:127-141 | the loop over the hits computes `Wordmarks` |
| UsChecker.Outcome | us_checker.py:127-172 | names found give success with exactly the extracted names; none give the no-results answer; a request exception or a processing error gives a failure with its prefixed message |
| UsChecker.SearchTrademark | us_checker.py:78-172 | the search posts the payload built from the normalised classes, and returns `Outcome` of the response |
| Frontend.KeepNonBlank | app.py:37 | the kept lines are non-empty and stripped, and there are no more of them than lines |
| Frontend.ParseInputNames | app.py:35-38 | every parsed name is non-empty, stripped and on one line |
| Frontend.ParseLineThenRest | app.py:37 | parsing a first line and then the rest is parsing the whole text |
| Frontend.ParseJoinedNames | app_streamlit.py:40-42 | tidy names typed one per line are read back unchanged |
| Frontend.BlankLinesIgnored | app.py:37 | a text of blank lines gives no names |
| Frontend.ValidNames | app.py:175-190 | every passed-on name satisfies the name rules |
| Frontend.AcceptedNamesPassedOn | app.py:175-190 | every accepted input is passed on in its validated form |
| Frontend.LastFor | app.py:91 | the stored record for a name is a result for that name |
| Frontend.NamesInOrder | app.py:199-200 | the dropdown choices are exactly the reported names, without repeats |
| Frontend.FormatDetailedResults | app.py:40-93 | the detail dict holds exactly the reported names, each with its last result; its keys are in first-insertion order |
| App.SectionPriority | app.py:104-122 | a result goes to local matches, failed, exact, similar, available or needs-attention by the first test that holds, in that order; only a needs-attention entry whose displayed and found counts differ shows both counts |
| App.EntryOf | app.py:104-122 | a summary line carries its result's name |
| App.Put | app.py:104-122 | appending to one section's list leaves the other lists unchanged |
| App.BucketsPartition | app.py:104-122 | the six lists together hold one entry per result |
| App.ResultInItsSection | app.py:104-122 | each result's line is in the list of the section its tests pick |
| App.EntriesComeFromResults | app.py:104-122 | every listed line comes from a result of that section |
| App.AssembleWellOrdered | app.py:124-154 | the printed sections come in the fixed order, each holding exactly its list |
| App.SummaryShape | app.py:95-154 | the summary's sections are in print order, none twice, each holding its non-empty list |
| App.AssembleComplete | app.py:124-154 | no non-empty section is left out |
| App.SummaryComplete | app.py:95-154 | every section with a result appears in the summary |
| App.AssembleCount | app.py:124-154 | the printed sections hold as many lines as the lists |
| App.SummaryListsEveryResultOnce | app.py:95-154 | the summary lists as many lines as there are results |
| App.Bucket | app.py:104-122 | the loop puts each result in its section's list, in result order |
| App.FormatSummary | app.py:95-154 | the loop and assembly compute the summary specification |
| App.ShowDetails | app.py:156-158 | a known choice shows its stored detail, and an unknown one shows the prompt |
| App.InvalidRecord | app.py:178-188 | a rejected name gets an error record with its validation message, no brands and zero counts |
| App.InvalidRecords | app.py:175-190 | the records of the rejected names are all errors |
| App.EveryNameAccountedFor | app.py:175-190 | every parsed name is either rejected with a record or passed on |
| App.CheckAll | app.py:192-197 | each valid name's result is the check of that name with the selected class, in order |
| App.ValidateAll | app.py:175-190 | the validation loop computes the rejected records and the valid names |
| App.CheckEach | app.py:192-197 | the query loop checks exactly the valid names, in order |
| App.ProcessQuery | app.py:160-210 | no names gives the prompt; more than 20 gives the limit message; otherwise exactly the valid names are checked, in order, and the results are the rejected records followed by the checks; the all-failed message is shown exactly when every result is an error, and otherwise the summary, the choices and the details of those results |
| AppStreamlit.Render | app_streamlit.py:158-159 | one selected value is echoed as it is, an empty list as the empty string, and a list of one value as that value |
| AppStreamlit.RenderAppend | app_streamlit.py:158-159 | a list of several values is echoed as its values separated by ", ": each further value comes after one more ", " |
| AppStreamlit.RenderTwoRegions | app_streamlit.py:158 | the two regions 美国 and 欧洲 are echoed as "美国, 欧洲" |
| AppStreamlit.SectionPriority | app_streamlit.py:89-99 | a result goes to local matches, failed, exact or available by the first test that holds, in that order |
| AppStreamlit.Put | app_streamlit.py:89-99 | appending to one section's list leaves the other lists unchanged |
| AppStreamlit.BucketsPartition | app_streamlit.py:89-99 | the four lists together hold one name per result |
| AppStreamlit.ResultInItsSection | app_streamlit.py:89-99 | each result's name is in the list of the section its tests pick |
| AppStreamlit.NamesComeFromResults | app_streamlit.py:89-99 | every listed name is that of a result of that section |
| AppStreamlit.AssembleWellOrdered | app_streamlit.py:101-121 | the printed sections come in the fixed order, each holding exactly its list |
| AppStreamlit.SummaryShape | app_streamlit.py:82-121 | the summary's sections are in print order, none twice, each holding its non-empty list |
| AppStreamlit.AssembleComplete | app_streamlit.py:101-121 | no non-empty section is left out |
| AppStreamlit.SummaryComplete | app_streamlit.py:82-121 | every section with a result appears in the summary |
| AppStreamlit.AssembleCount | app_streamlit.py:101-121 | the printed sections hold as many names as the lists |
| AppStreamlit.SummaryListsEveryResultOnce | app_streamlit.py:82-121 | the summary lists as many names as there are results |
| AppStreamlit.Bucket | app_streamlit.py:89-99 | the loop puts each name in its section's list, in result order |
| AppStreamlit.FormatSummary | app_streamlit.py:82-121 | the loop and assembly compute the summary specification |
| AppStreamlit.InvalidRecord | app_streamlit.py:148-162 | a rejected name gets an error record with the prefixed validation message, no brands, and the selected regions and classes echoed |
| AppStreamlit.InvalidRecords | app_streamlit.py:145-164 | the records of the rejected names are errors, and all carry search parameters |
| AppStreamlit.EveryNameAccountedFor | app_streamlit.py:145-164 | every parsed name is either rejected with a record or passed on |
| AppStreamlit.CheckAll | app_streamlit.py:172-175 | each valid name's result is the check of that name with the selected classes and regions, in order |
| AppStreamlit.ValidateAll | app_streamlit.py:145-164 | the validation loop computes the rejected records and the valid names |
| AppStreamlit.CheckEach | app_streamlit.py:172-175 | the query loop checks exactly the valid names, in order |
| AppStreamlit.ProcessQuery | app_streamlit.py:123-196 | no names gives the prompt; more than 100 gives the limit message; no valid name gives the no-valid message; otherwise exactly the valid names are checked, in order; a result without search parameters makes `process_query` raise, because its handler fails on the unbound `logger` before it can return a message; the all-failed message is shown exactly when every result is an error, and otherwise the summary, the choices and the details |
| ClashController.FilterProxies | clash_controller.py:92-103 | the kept nodes are nodes of the group, in order, and none is a reserved name, an automatic-selection group or a node marked as automatic, fail-over, load-balancing or known bad |
| ClashController.FilterProxiesMembers | clash_controller.py:92-103 | a node is kept exactly when it is in the group and is not excluded |
| ClashController.FilterProxiesAppend | clash_controller.py:92-103 | filtering keeps the group's order |
| ClashController.GetAvailableProxies | clash_controller.py:86-106 | a group that could not be fetched gives no nodes; a fetched group gives its filtered `all` list, or nothing when the key is missing |
| ClashController.TestProxyDelay | clash_controller.py:49-65 | a delay test gives the reported delay only for status 200, and -1 for any other status, a missing delay or an exception |
| ClashController.UsableOnlyOnSuccess | clash_controller.py:49-65 | a node counts as usable exactly when status 200 came with a delay other than -1 |
| ClashController.ProbedIsLastProbe | clash_controller.py:67-84 | a node is stored with the delay of its last probe |
| ClashController.ProbedDomain | clash_controller.py:67-84 | the probe map has exactly the probed nodes |
| ClashController.ProbeProxies | clash_controller.py:67-84 | the probing loop computes the probe map |
| ClashController.SwitchProxy | clash_controller.py:108-129 | a switch succeeds exactly on status 204 |
| ClashController.IndexOf | clash_controller.py:153 | the index found is the node's first listing |
| ClashController.StartIndex | clash_controller.py:151-157 | the round starts at a valid index |
| ClashController.StartFollowsCurrent | clash_controller.py:151-157 | the round starts just after the current node's first listing, cyclically, or at the first node when there is no current node or it is not listed |
| ClashController.CyclicIndex | clash_controller.py:180-182 | the attempt index stays in range |
| ClashController.CyclicIndexIsMod | clash_controller.py:180-182 | the k-th attempt is at (start + k) mod n |
| ClashController.RoundVisitsEachPositionOnce | clash_controller.py:159-182 | a full round tries every node position exactly once |
| ClashController.Candidate | clash_controller.py:162 | every candidate is a node of the list |
| ClashController.SelectProxy | clash_controller.py:151-186 | the nodes are tried in cyclic order from the start; the round stops at the first node whose delay test and switch both succeed, and switches to it; when none does, all n are tried and the current node is kept |
| ClashController.AutoSwitchStep | clash_controller.py:142-186 | with no nodes nothing is tried; otherwise one selection round runs; the proxy in use afterwards is the old one or a usable, non-excluded node of the group |

## Left out

- Network and browser I/O are parameters: the TMDN, WIPO (Playwright) and USPTO calls, the Clash HTTP API, and reading the CSV file with pandas. So are logging, `time.sleep` and the progress callbacks.
- The TMDN checker and the UK checkers are not part of this model; a TMDN search is represented by its reply or its exception.
- The Gradio and Streamlit widgets, page layout and session state are left out. The summary is modelled as its sections and their lines, and a detail is the stored record, not the exact text and emoji of the printed lines.
- App.ProcessQuery: the handler's translation of exception messages at app.py:211-222 is left out; no exception inside `process_query` is modelled there.
- AppStreamlit.ProcessQuery: the handler at app_streamlit.py:184-196 never returns its message. Its first statement, line 185, uses `logger`, which line 34 binds only on the first run of a session. `process_query` runs only on the rerun after the button press (lines 262-272), and each rerun executes the script afresh, so the handler raises `NameError`. The model therefore has `process_query` raise on the one exception it produces: the `KeyError` of a missing `search_params`, raised at app_streamlit.py:55-56. Other exceptions inside `process_query` are not modelled.
- WipoNameChecker.MatchesAtIsRegexMatch / ExtractTotalResults: `\d` is read as the ASCII digits 0-9. Python's `\d` on a str pattern, and `int()`, also accept the other Unicode decimal digits, which the model does not.
- Strings.Lower and Validator.ValidateName: `lower()` and `isalpha()` are modelled on ASCII only. Only A-Z is lower-cased, and only a-z and A-Z count as letters. `strip()` and `split()` use Python's full list of whitespace characters.
- MainChecker.TrademarkChecker.WaitForTmdnRateLimit: the clock is an integer millisecond reading given by the caller. The time after the sleep is taken as exactly the reading plus the sleep, where the source reads the clock again.
- MainChecker.CheckOutcome: an exception inside `check_trademark` is modelled only as the TMDN call raising. A TMDN reply is used through its `status`, `brands`, `total_found` and `error_message` keys, with `total_found` always present.
- MainChecker.TrademarkChecker.CheckOne: a name whose check raises is modelled as raising before the rate-limit wait, so it leaves the TMDN clock unchanged.
- MainChecker.CheckResult: `exact_matches` is `list(set(...))`, whose order Python does not fix, so it is a set.
- App.ProcessQuery and AppStreamlit.ProcessQuery: the checker each front end calls is a function parameter. app.py:196 calls `check_trademark(name, nice_class)` and app_streamlit.py:173 calls it with classes and regions, neither matching the one-argument method in main_checker.py. Every result is read through the fields the front ends use.
- App.SectionPriority: app.py reads `has_similar_match`, which the modelled `check_trademark` never sets, so in the source a result reaching that test would raise `KeyError`. The model reads the field as present on every result, as app.py's code assumes.
- App.InvalidRecord: app.py's rejection record lacks `has_similar_match` and `in_local_db`, and is read with the defaults a missing key would need. It is an error, so the summary never reaches those tests for it.
- UsChecker.BuildQueryPayload: the query-string clauses, sort order and other constant fields of the payload are left out; the class map is a parameter, because the US configuration is not in `config.py`. The reply's `total` value is never read by the source and is not modelled.
- UsChecker.Wordmarks: the `if brand_name:` test is modelled for strings and `null` only, not for other JSON values.
- ClashController.AutoSwitchStep: the endless outer loop, the interval sleep, `KeyboardInterrupt` and the generic exception handler at clash_controller.py:188-194 are left out; one pass of the loop is modelled. The controller holds only configuration (API address and headers), so it is a module of functions and methods, not a class.
- ClashController.TestProxyDelay: the test URL and timeout of the request are left out; the reply is a parameter, and the `k`-th attempt of a round gets the `k`-th reply.
- Frontend.ValidNames: it proves that every accepted name is passed on and that every passed-on name is well formed. Order is fixed by its definition, not restated as a lemma.
- The local table's rows are read with `str.lower().str.strip()`; a missing cell (`NaN`) never matches, and the class cell is compared as a string.
