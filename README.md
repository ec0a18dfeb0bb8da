# MMM-DailyLDSVerse in Dafny

MMM-DailyLDSVerse is a MagicMirror² module that shows one scripture verse a day. It has three parts:

- **The front end** (`MMM-DailyLDSVerse.js`). It asks its node helper for the verse when it starts, then again on a single refresh timer. It keeps the last verse while an error is shown, and renders one of four displays.
- **The node helper** (`node_helper.js`), for each request:
  - it takes the day number of the current date;
  - the four volumes of scripture (Bible, Book of Mormon, Doctrine and Covenants, Pearl of Great Price) rotate every four days, so the day number picks a volume;
  - it picks an entry of that volume's list of references;
  - it parses the reference, builds the API address, and fetches the text with a bounded retry;
  - it reads the response, which may come in several shapes;
  - it answers with exactly one notification.
- **The data converter** (`convert-lds-data.js`), which builds those lists:
  - it reads CSV rows;
  - it converts each record (three record shapes) into a `{reference, text}` entry;
  - it files each entry under a volume by the first word of its reference;
  - it removes duplicate references from each list and writes one file per volume;
  - it exits non-zero when any volume failed;
  - separately, it can generate placeholder references for the Book of Mormon from a table of chapter counts.

The model is split into these modules:

| Module | File | Contents |
|---|---|---|
| `Calendar` | `calendar.dfy` | Gregorian dates, day numbers, next day, times of day |
| `Volumes` | `volumes.dfy` | the four volumes and their order |
| `Text` | `text.dfy` | the ECMAScript string behaviour relied on: `\s`, `trim`, `split`, `includes`, `indexOf`, `replace`, number printing and `parseInt` |
| `VerseSelection` | `verse_selection.dfy` | day of year, volume of the day, index of the day, verse of the day |
| `ReferenceParser` | `reference_parser.dfy` | the helper's anchored reference pattern and the converter's unanchored one |
| `ApiRequest` | `api_request.dfy` | `buildAPIUrl` |
| `ApiResponse` | `api_response.dfy` | JSON values and `parseAPIResponse` |
| `NodeHelper` | `node_helper.dfy` | one fetch, the retry loop, the `GET_VERSE` handler, and the `Helper` class |
| `DailyVerseModule` | `daily_verse_module.dfy` | the front end as the `DailyVerse` class |
| `Converter` | `converter.dfy` | the reference formatter, the volume lookup, and `convertVerse` |
| `Csv` | `csv.dfy` | the CSV reader |
| `ConversionPipeline` | `conversion_pipeline.dfy` | grouping, de-duplication, saving and exit status, and the generator |
| `Wrappers`, `Arith` | `wrappers.dfy`, `arith.dfy` | `Option`/`Result` and arithmetic helpers |

Design points:

- **The `DailyVerse` class.** The front end's timers are handles in a map of pending delays. A timer going off is the `Fire` method, and a cleared handle never fires. `Valid()` says that at most one timer is pending and that it is the one `updateTimer` names. The `sent` field records the socket notifications.
- **The `Helper` class.** It holds the loaded verse lists and the API settings. Its `sent` field records the notifications sent to the front end.
- **The HTTP exchange is an oracle.** The environment maps an address and an attempt number to an outcome:
  - a network error;
  - a status with a body that did or did not decode;
  - or a timeout.
- **Delays are counted, not waited.** `FetchWithRetry` returns the milliseconds it waits between attempts, since waiting is not modelled.
- **The default refresh interval.** The shipped default `updateInterval` is 86400000 ms (`MMM-DailyLDSVerse.js:11`). It is positive, so `scheduleNextUpdate` waits a fixed 24 hours. Only a missing or non-positive interval waits until the next midnight. The model follows the code: `DefaultConfigurationWaitsOneDay`, `NonPositiveIntervalMeansMidnight`.
- **Filing by first word.** The converter files an entry by the first space-separated word of its reference (`convert-lds-data.js:273`), not by its book. This is modelled as written. `NumberedBooksFiledUnderBible` proves the effect: "1 Nephi 3:7" is filed under the Bible, because "1 Samuel" contains "1".
- **The Doctrine and Covenants special case** in `getVolumeFromBook` (`convert-lds-data.js:111-113`) can never decide anything. Both spellings it tests for are already listed names of that volume (`DoctrineAndCovenantsListed`).

## Model

| member | source | states |
|---|---|---|
| Calendar.DayOfYear | node_helper.js:112-117 | a valid date's day number lies between 1 and the length of its year, at most 366 |
| Calendar.DayOfYearLandmarks | node_helper.js:112-117 | January 1 is day 1; December 31 is day 365 or 366; February 28 is day 59 in a common year; February 29 is day 60 in a leap year |
| Calendar.MonthOfDay | node_helper.js:112-117 | the month found for a day number is the one whose range of day numbers holds it |
| Calendar.DateOfDayOfYear | node_helper.js:112-117 | for every day number of a year there is a valid date of that year with that number |
| Calendar.DayOfYearInjective | node_helper.js:112-117 | two dates of one year with the same day number are the same date |
| Calendar.DateOfDayOfYearRoundTrip | node_helper.js:112-117 | a date's day number, turned back into a date, is that date |
| Calendar.NextDay | MMM-DailyLDSVerse.js:47-48 | moving a date one day on always gives a valid date, as `setDate(getDate() + 1)` normalises an overflowing day |
| Calendar.NextDayOfYear | MMM-DailyLDSVerse.js:47-48 | the next day has the next day number of the same year, or is January 1 of the next year after the last day |
| Calendar.DaysBeforeYearStep | MMM-DailyLDSVerse.js:47-50 | the day count up to next year's start grows by exactly the length of this year |
| Calendar.AbsoluteDayOfNextDay | MMM-DailyLDSVerse.js:47-50 | the next day's serial day number is one more than the date's |
| Calendar.MsOfDay | MMM-DailyLDSVerse.js:49-50 | the time since the start of the day is at least 0 and less than one day |
| Volumes.Rank | node_helper.js:127-131 | each volume has a position in the fixed four-volume order |
| VerseSelection.GetDayOfYearAsWritten | node_helper.js:112-117 | getDayOfYear as written returns the date's day number for every year that the Date constructor leaves unchanged |
| VerseSelection.GetDayOfYearAsWrittenFailsInYear50 | node_helper.js:113 | for a moment in year 50, the as-written result is below 1, so it is no day number at all |
| VerseSelection.GetDayOfYear | node_helper.js:112-117 | the corrected getDayOfYear returns the date's own day number, between 1 and 366 |
| VerseSelection.DayStartsYear | node_helper.js:113-116 | dividing the time since midnight of December 31 of the previous year by a day length gives the day number, for every moment of the year |
| VerseSelection.VolumeCycle | node_helper.js:127-131 | the volume repeats every four days; each day moves to the next volume in order; a day shows the Bible exactly when its number is 1 mod 4 |
| VerseSelection.VolumeExamples | node_helper.js:127-131 | days 1 to 5 show Bible, Book of Mormon, Doctrine and Covenants, Pearl of Great Price, Bible; day 365 shows the Bible and day 366 the Book of Mormon |
| VerseSelection.YearEndRepeatsBible | node_helper.js:127-131 | in a common year both December 31 and the next January 1 show the Bible |
| VerseSelection.VerseIndexForDay | node_helper.js:143-148 | the index is 0 for an empty list and a valid position otherwise |
| VerseSelection.VerseIndexVariety | node_helper.js:146-147 | for a list of two entries or more, the same volume four days later uses a different index |
| VerseSelection.VerseIndexReachesEveryEntry | node_helper.js:146-147 | on days 1, 5, 9, … one volume's index runs through every position in turn, and wraps around after one full list |
| VerseSelection.VerseIndexExamples | node_helper.js:143-148 | days 1, 5 and 13 of a three-entry list give indices 0, 1 and 0; an empty list gives 0 |
| VerseSelection.PhaseOffsetIndex | tests/node-helper.test.js:100-106 | the tests' phase-offset index is 0 for an empty list and a valid position otherwise |
| VerseSelection.PhaseOffsetVariety | tests/node-helper.test.js:100-106 | with the phase-offset index, four days later shows another entry exactly when the list length does not divide 4 |
| VerseSelection.GetVerseForDay | node_helper.js:158-168 | the day's volume list is used; the call fails exactly when that list is empty, with the source's message; otherwise it returns the list entry at the day's index |
| VerseSelection.SingleEntryListAlwaysChosen | node_helper.js:158-168 | a one-entry list always yields that entry |
| VerseSelection.GetVerseForDayVaries | node_helper.js:158-168 | four days later the same list is used, and a list of two or more distinct entries then shows a different verse |
| VerseSelection.JanuarySecondExample | node_helper.js:158-168 | January 2 picks the Book of Mormon list and its first entry |
| Text.LeadingSpaces | node_helper.js:185 | the leading whitespace run is all whitespace and is followed by the end or by a non-space |
| Text.TrailingSpaces | node_helper.js:185 | the trailing whitespace run is all whitespace and is preceded by the start or by a non-space |
| Text.LeadingDigits | node_helper.js:185 | the greedy digit run is all digits and is followed by the end or by a non-digit |
| Text.TrimSpec | node_helper.js:192 | `trim` removes only whitespace, and only from the two ends; the result neither starts nor ends with whitespace |
| Text.TrimIdentity | node_helper.js:192 | a string without whitespace at its ends is unchanged by `trim` |
| Text.LeadingSpacesOfConcat | node_helper.js:192 | whitespace followed by a non-space text is exactly the leading whitespace run |
| Text.TrailingSpacesOfConcat | node_helper.js:192 | a text not ending in whitespace, then whitespace, has exactly that trailing run |
| Text.TrimOfPadded | node_helper.js:192 | trimming whitespace-padded text whose ends are not spaces returns that text exactly |
| Text.TrimEmptyIff | convert-lds-data.js:154 | a line trims to nothing exactly when it is all whitespace |
| Text.IndexOf | convert-lds-data.js:273 | the result is the first position of the character, or the length when the character does not occur |
| Text.Split | convert-lds-data.js:149-150 | `split` gives at least one piece; no piece holds the separator; joining the pieces gives the input back |
| Text.SplitJoin | convert-lds-data.js:149-150 | splitting joined pieces that hold no separator gives those pieces back |
| Text.SplitHead | convert-lds-data.js:273 | the first piece of a split is everything before the first separator |
| Text.IncludesIff | convert-lds-data.js:103-104 | `includes` holds exactly when the text occurs at some position |
| Text.IndexOfSub | node_helper.js:217-220 | a position found leaves room for the whole pattern |
| Text.IndexOfSubSpec | node_helper.js:217-220 | the position found is an occurrence with no earlier one; nothing is found only when the pattern occurs nowhere |
| Text.IndexOfSubAt | node_helper.js:217-220 | an occurrence with none before it is the position found |
| Text.ReplaceFirstAt | node_helper.js:217-220 | a string-pattern `replace` changes the occurrence with none before it, and keeps the text on both sides |
| Text.ReplaceFirstAbsent | node_helper.js:217-220 | a pattern that does not occur leaves the text unchanged |
| Text.NatToString | node_helper.js:224 | a number prints as a non-empty run of digits without a leading zero |
| Text.DigitsValueOfNatToString | node_helper.js:193-194 | printing a number and reading it back with `parseInt` gives the number |
| ReferenceParser.MatchEnd | node_helper.js:185 | the optional `-verse` group covers exactly what follows the verse digits, and is itself a digit run |
| ReferenceParser.MatchVerse | node_helper.js:185 | the verse group is a digit run; anchored, it and the end group cover the rest; unanchored, there is no end group |
| ReferenceParser.MatchNumbers | node_helper.js:185 | the chapter and verse groups are digit runs; anchored, they cover the rest exactly |
| ReferenceParser.MatchTail | node_helper.js:185 | a tail match starts with whitespace and has well-formed number groups; anchored, the groups cover the rest after the whitespace |
| ReferenceParser.MatchVerseComplete | node_helper.js:185 | every well-formed verse part is matched into its own groups |
| ReferenceParser.MatchNumbersComplete | node_helper.js:185 | every well-formed chapter-and-verse text is matched into its own groups |
| ReferenceParser.MatchTailComplete | node_helper.js:185 | every whitespace-plus-numbers tail is matched, and into exactly its own groups |
| ReferenceParser.TailSpacesLead | node_helper.js:185 | in a tail, every character before a whitespace character is whitespace too |
| ReferenceParser.TailHasColon | node_helper.js:185 | a tail has a colon right after its whitespace and chapter |
| ReferenceParser.FindBook | node_helper.js:185 | a book length found lies in the searched range, with the tail matching after it |
| ReferenceParser.FindBookSpec | node_helper.js:185 | the lazy `(.+?)` finds the smallest candidate book length, and finds none only when there is no candidate |
| ReferenceParser.FindBookFirst | node_helper.js:185 | a candidate with no shorter candidate is the one the lazy search finds |
| ReferenceParser.FindBookFrom | node_helper.js:185 | a candidate with no shorter candidate from a given start is the one the search from that start finds |
| ReferenceParser.FoundBook | node_helper.js:185 | the book length found is a candidate with no shorter candidate |
| ReferenceParser.TailSplit | node_helper.js:185 | an anchored tail match is a whitespace run followed exactly by the matched numbers |
| ReferenceParser.ParseVerseReference | node_helper.js:183-197 | a refused text fails with "Invalid verse reference format: " followed by the text |
| ReferenceParser.ParseVerseReferenceRefuses | node_helper.js:185-189 | a text is refused exactly when no book length leaves a tail the anchored pattern matches |
| ReferenceParser.ParseVerseReferenceSuccess | node_helper.js:185-196 | a parse takes the shortest possible book, followed by a tail the pattern covers entirely; it returns the trimmed book and the parsed numbers |
| ReferenceParser.NoShorterBook | node_helper.js:185 | no prefix shorter than a plain book name is followed by an anchored tail |
| ReferenceParser.AnchoredTailBlocked | node_helper.js:185 | whitespace after a non-space character rules out an anchored tail |
| ReferenceParser.FormatReferenceSplits | node_helper.js:183-197 | a formatted reference is its book followed by a one-space tail |
| ReferenceParser.ParseFormatRoundTrip | node_helper.js:183-197 | formatting a book, chapter, verse and optional end verse, then parsing, gives back every part |
| ReferenceParser.CandidateHasColon | node_helper.js:185 | a text with a candidate book holds a colon |
| ReferenceParser.NoColonRejected | node_helper.js:185-189 | a text without a colon is always refused |
| ReferenceParser.NoInnerSpaceRejected | node_helper.js:185-189 | a text with no whitespace after its first character is always refused |
| ReferenceParser.ParseSingleVerseExample | node_helper.js:183-197 | "1 Nephi 3:7" parses to book "1 Nephi", chapter 3, verse 7 and no end verse |
| ReferenceParser.ParseVerseRangeExample | node_helper.js:183-197 | "1 Nephi 3:7-8" parses with end verse 8 |
| ReferenceParser.NoColonExamples | node_helper.js:185-189 | "Invalid" and the empty text are refused |
| ReferenceParser.BookOnlyExample | node_helper.js:185-189 | "1 Nephi" is refused |
| ReferenceParser.ChapterOnlyExample | node_helper.js:185-189 | "1 Nephi 3" is refused |
| ReferenceParser.NoBookExample | node_helper.js:185-189 | "3:7" is refused |
| ReferenceParser.MatchLooseReferenceFails | convert-lds-data.js:191 | the converter's unanchored pattern fails exactly when no book length leaves a tail it matches |
| ReferenceParser.LooseTailOfFormatted | convert-lds-data.js:191 | after one space, the unanchored tail reads the chapter and the verse |
| ReferenceParser.LooseTail | convert-lds-data.js:191 | the unanchored tail reads one space, two digit runs and a colon into those runs |
| ReferenceParser.LooseNumbers | convert-lds-data.js:191 | the unanchored numbers read two digit runs joined by a colon |
| ReferenceParser.LooseVerse | convert-lds-data.js:191 | the unanchored verse group reads a whole digit run |
| ReferenceParser.NoShorterLooseBook | convert-lds-data.js:191 | for a book without a colon, no shorter prefix of a formatted reference is followed by the unanchored tail |
| ReferenceParser.LooseTailBlocked | convert-lds-data.js:191 | a non-space followed by a space before any colon rules out the unanchored tail |
| ReferenceParser.LooseMatchOfFormatted | convert-lds-data.js:191-195 | the unanchored pattern reads a formatted reference back into its book, chapter and verse |
| ApiRequest.BuildApiUrl | node_helper.js:208-225 | without a base address the call fails with "API base URL not configured"; with one it fails exactly when the reference does not parse, with the parser's message; with no pattern, the address starts with the base |
| ApiRequest.DefaultUrlSegments | node_helper.js:224 | the default address starts with the base, and the rest splits on `/` into `verses`, the book, the chapter and the verse |
| ApiRequest.DefaultUrlTail | node_helper.js:224 | after the base, the default address is its segments joined by `/` |
| ApiRequest.SplitSegments | node_helper.js:224 | the default address's segments split back apart |
| ApiRequest.JoinSegments | node_helper.js:224 | joining the segments gives the template's layout |
| ApiRequest.NoSlashInNumber | node_helper.js:224 | a printed number holds no `/` |
| ApiRequest.BuildDefaultUrlReadBack | node_helper.js:213-224 | the default address splits into five segments: `verses`, the encoded book, and a chapter and verse that parse back to the reference's numbers |
| ApiRequest.PlaceholderFoundAfter | node_helper.js:217-220 | a placeholder after text with no `{` is found where it starts |
| ApiRequest.ReplaceAfter | node_helper.js:217-220 | replacing such a placeholder puts the replacement in its place and keeps the rest |
| ApiRequest.NoBraceInNumber | node_helper.js:219-220 | a printed number holds no `{` |
| ApiRequest.FillDefaultPattern | node_helper.js:216-220 | filling the pattern that spells out the default layout gives the default address |
| ApiRequest.DefaultPatternAgrees | node_helper.js:216-224 | such a pattern and no pattern at all build the same address |
| ApiRequest.BuildDefaultUrl | node_helper.js:223-224 | with a base and no pattern, the address is the default layout of the encoded book and the parsed numbers |
| ApiRequest.DefaultUrlExample | node_helper.js:223-224 | "1 Nephi 3:7" gives `<base>/verses/1%20Nephi/3/7` |
| ApiRequest.DefaultUrlLayoutExample | node_helper.js:224 | the default layout's concrete text for one book, chapter and verse |
| ApiRequest.UnconfiguredExample | node_helper.js:209-211 | a missing or empty base fails whatever the pattern |
| ApiResponse.Get | node_helper.js:311 | a property read is defined exactly when the value is an object holding the key, and is that field |
| ApiResponse.GetNested | node_helper.js:313 | a truthy nested read has a truthy outer value and reads the inner field of it |
| ApiResponse.SelectText | node_helper.js:311-321 | the text chosen is the first truthy one of `text`, `verse.text`, `data.text`, `content` and a string response; none is chosen only when none is truthy |
| ApiResponse.SelectReference | node_helper.js:328-332 | the reference is a truthy `reference`, else a truthy `verse.reference`, else the requested one |
| ApiResponse.ParseApiResponseOutcomes | node_helper.js:300-338 | the call fails in exactly three cases: a null response; no truthy text source; a first truthy source that is not a string. Otherwise it returns that string trimmed, with the selected reference |
| ApiResponse.FirstPresentUnique | node_helper.js:311-321 | only one source can be the first truthy one |
| ApiResponse.TopLevelTextWins | node_helper.js:311-312 | a truthy top-level `text` string is used, trimmed |
| ApiResponse.TextIsTrimmed | node_helper.js:335 | the text returned never starts or ends with whitespace |
| ApiResponse.ReferenceDefaultsToRequested | node_helper.js:308-332 | without a truthy `reference` or `verse.reference`, the requested reference is returned |
| ApiResponse.SimpleShapeExample | node_helper.js:311-312 | `{text: "  Amen.  "}` gives "Amen." with the requested reference |
| ApiResponse.NestedShapeExample | node_helper.js:313-314 | the `verse` wrapper gives its text and its reference |
| ApiResponse.DataShapeExample | node_helper.js:315-316 | the `data` wrapper gives its text |
| ApiResponse.EmptyTextFallsThrough | node_helper.js:311-318 | an empty `text` is skipped in favour of `content` |
| ApiResponse.StringShapeExample | node_helper.js:319-320 | a string response is the text |
| ApiResponse.RefusedShapeExamples | node_helper.js:323-325 | an empty object, a numeric `text` and `null` are each refused with their own error |
| NodeHelper.Prefix | node_helper.js:260 | `substring(0, 100)` is a prefix of at most 100 characters, and the whole text when that is shorter |
| NodeHelper.FetchVerseFromApi | node_helper.js:239-283 | one attempt rejects when no endpoint is configured, then when the address cannot be built; it resolves only on a 200 response whose decoded body `parseAPIResponse` reads |
| NodeHelper.RetryFrom | node_helper.js:352-366 | the loop makes at most `maxRetries` attempts, and settles neither way exactly when it makes none |
| NodeHelper.RetryResolvedMeans | node_helper.js:355-357 | a resolved run resolves with the first successful attempt, and every attempt before it failed |
| NodeHelper.RetryRejectedMeans | node_helper.js:358-362 | a rejected run made every attempt, all failed, and it rethrows the last error |
| NodeHelper.FirstSuccessResolves | node_helper.js:353-357 | conversely, the first successful attempt within the bound decides the run |
| NodeHelper.AllFailuresReject | node_helper.js:358-362 | conversely, when all attempts fail the run rejects with the last error |
| NodeHelper.GetVerseNotificationMeans | node_helper.js:385-407 | a result carries the day's selected reference and the text of a successful attempt; a selection error is sent as it is; a fetch error means all three attempts failed |
| NodeHelper.UnconfiguredApiError | node_helper.js:241-243 | without an API address every request ends in "API endpoint not yet configured" |
| NodeHelper.RefusedAddressError | node_helper.js:246-251 | when `protocol.get` throws on the address, every attempt rejects with that raw error, and the front end gets it without a prefix |
| NodeHelper.Helper.constructor | node_helper.js:15-22 | the helper starts with no lists, no settings and nothing sent |
| NodeHelper.Helper.Start | node_helper.js:29-33 | start stores the loaded lists and settings and sends nothing |
| NodeHelper.Helper.FetchWithRetry | node_helper.js:352-366 | the loop settles as `RetryFrom` over the attempt outcomes says: the first success, or the last error once `maxRetries` attempts have failed; at most `maxRetries` attempts, and one delay between each two |
| NodeHelper.Helper.HandleGetVerse | node_helper.js:385-407 | the handler sends exactly one notification, `GetVerseNotification` of its lists, settings, moment and exchanges (whose meaning `GetVerseNotificationMeans` states), and leaves the settings alone |
| NodeHelper.Helper.SocketNotificationReceived | node_helper.js:371-375 | only `GET_VERSE` is answered, with one notification; anything else sends nothing |
| DailyVerseModule.MidnightDelay | MMM-DailyLDSVerse.js:45-51 | the delay is positive, at most one day, and reaches exactly the midnight that starts the next day |
| DailyVerseModule.UpdateDelay | MMM-DailyLDSVerse.js:66-77 | a positive interval is used as it is; otherwise the delay runs to the next midnight |
| DailyVerseModule.TimerDelay | MMM-DailyLDSVerse.js:79-83 | the browser's timer keeps a delay of 0 to 2^31 - 1 milliseconds; any other delay wraps modulo 2^32 to a 32-bit signed value, and a negative one waits 0 milliseconds |
| DailyVerseModule.ThirtyDayIntervalFiresAtOnce | MMM-DailyLDSVerse.js:67-83 | a 30-day interval is armed as one timer that goes off after 0 milliseconds |
| DailyVerseModule.WrappedIntervalExample | MMM-DailyLDSVerse.js:67-83 | an interval of 2^32 + 5000 milliseconds waits only 5000 |
| DailyVerseModule.TimerChainWaitsWholeInterval | MMM-DailyLDSVerse.js:67-83 | a chain of kept timers waits exactly the interval asked for |
| DailyVerseModule.DefaultConfigurationWaitsOneDay | MMM-DailyLDSVerse.js:11 | the shipped default waits exactly one day, whatever the time |
| DailyVerseModule.NonPositiveIntervalMeansMidnight | MMM-DailyLDSVerse.js:67-74 | a zero, negative or missing interval falls back to midnight |
| DailyVerseModule.MidnightDelayExamples | MMM-DailyLDSVerse.js:45-51 | noon is 12 hours from midnight, and 23:59 is one minute from it |
| DailyVerseModule.NextMidnightBoundaryExamples | MMM-DailyLDSVerse.js:47-48 | the next day is right across the year end, leap day and month ends |
| DailyVerseModule.OneHourBeforeMidnight | MMM-DailyLDSVerse.js:45-51 | at 23:00 the next midnight is one hour away |
| DailyVerseModule.DisplayFor | MMM-DailyLDSVerse.js:140-168 | loading comes first, then the error, then the verse when both text and reference are present, else the fallback; each display exactly when its condition holds |
| DailyVerseModule.DailyVerse.constructor | MMM-DailyLDSVerse.js:14-20 | the module starts loading, with no verse, no date, no timer and nothing sent |
| DailyVerseModule.DailyVerse.GetNextMidnight | MMM-DailyLDSVerse.js:45-51 | the method computes the midnight delay |
| DailyVerseModule.DailyVerse.ScheduleNextUpdate | MMM-DailyLDSVerse.js:59-84 | the old timer is cleared and exactly one new timer is armed with the chosen delay; `updateTimer` names it and nothing else changes |
| DailyVerseModule.DailyVerse.NextUpdateDelay | MMM-DailyLDSVerse.js:65-77 | the method chooses the update delay |
| DailyVerseModule.DailyVerse.ClearUpdateTimer | MMM-DailyLDSVerse.js:61-63 | clearing leaves no timer pending and changes nothing else |
| DailyVerseModule.DailyVerse.Start | MMM-DailyLDSVerse.js:27-37 | start shows loading, sends one `GET_VERSE`, and arms exactly one timer |
| DailyVerseModule.DailyVerse.Fire | MMM-DailyLDSVerse.js:79-83 | a cleared handle does nothing; the pending one sends `GET_VERSE` and re-arms exactly one new timer |
| DailyVerseModule.DailyVerse.Stop | MMM-DailyLDSVerse.js:179-183 | stop leaves no timer pending and keeps the old handle |
| DailyVerseModule.DailyVerse.IsNewDay | MMM-DailyLDSVerse.js:92-101 | the day is new exactly when nothing was loaded yet or the calendar day differs from the last result's |
| DailyVerseModule.DailyVerse.SocketNotificationReceived | MMM-DailyLDSVerse.js:111-126 | a result replaces the verse and stamps the day; an error keeps the verse and sets the error flag; anything else changes nothing; timers are never touched |
| DailyVerseModule.DailyVerse.Dom | MMM-DailyLDSVerse.js:136-171 | getDom shows the display chosen for the current state |
| DailyVerseModule.ResultThenRender | MMM-DailyLDSVerse.js:111-168 | after a result with text and reference, the verse is shown and the day is not new |
| DailyVerseModule.ErrorKeepsVerse | MMM-DailyLDSVerse.js:111-150 | an error after a result shows the error, and the next result shows the verse again |
| DailyVerseModule.StartFireStop | MMM-DailyLDSVerse.js:27-183 | start, one timer going off, then stop: two `GET_VERSE` requests and no timer left |
| DailyVerseModule.StartThenFire | MMM-DailyLDSVerse.js:27-83 | the same handle going off twice requests only once more |
| DailyVerseModule.StopThenFire | MMM-DailyLDSVerse.js:79-183 | after stop, the last handle going off sends nothing |
| Converter.BookLabel | convert-lds-data.js:80-89 | both spellings of the Doctrine and Covenants become "D&C"; every other string book stays as it is |
| Converter.FormatAgreesWithParser | convert-lds-data.js:91 | the converter's formatter writes the same text as the reference layout the helper parses |
| Converter.FormattedReferenceParses | convert-lds-data.js:78-92 | what the converter writes, the helper parses back into the same book label, chapter and verse |
| Converter.FormatExamples | convert-lds-data.js:83-91 | "1 Nephi" 3:7 stays as it is; both spellings of the Doctrine and Covenants give "D&C 1:1" |
| Converter.FormatStringFieldsExample | convert-lds-data.js:91 | a chapter and verse given as strings print like the numbers |
| Converter.FirstMatchingVolume | convert-lds-data.js:100-108 | the volume found lists a matching name and no earlier volume does; none is found exactly when no volume lists one |
| Converter.FirstMatchInOrder | convert-lds-data.js:100-108 | the same statement in terms of the volumes' ranks |
| Converter.GetVolumeFromBookSpec | convert-lds-data.js:97-116 | of the trimmed name, the result is the first volume that lists a name equal to it, contained in it, or containing it; nothing is found exactly when no volume lists one |
| Converter.DoctrineAndCovenantsListed | convert-lds-data.js:111-113 | both spellings the special case tests are listed names, so the case never decides |
| Converter.FoundInBible | convert-lds-data.js:100-107 | a name matching a Bible book is filed under the Bible |
| Converter.MatthewExample | convert-lds-data.js:97-116 | "Matthew" is found in the Bible |
| Converter.JohnExample | convert-lds-data.js:97-116 | "John" is found in the Bible |
| Converter.PaddedGenesisExample | convert-lds-data.js:98 | a padded "Genesis" is found in the Bible |
| Converter.BlankBookIsBible | convert-lds-data.js:98-107 | a blank name lands on the Bible, since every name contains the empty text |
| Converter.FirstToken | convert-lds-data.js:273 | the first word is a prefix without spaces, ending at the first space |
| Converter.NumberedBooksFiledUnderBible | convert-lds-data.js:273 | every reference whose first word is a bare 1, 2 or 3 is filed under the Bible |
| Converter.FirstTruthy | convert-lds-data.js:183 | the result is the first truthy candidate, or the empty string when none is truthy |
| Converter.ReferenceParts | convert-lds-data.js:191-206 | parts read from a `Reference` are what the unanchored pattern reads, with a non-empty book and non-zero numbers |
| Converter.ConvertVerseOutcomes | convert-lds-data.js:175-214 | a record throws exactly when it falls through to a non-string `Reference`; it is refused exactly when it has no shape or its `Reference` does not read; each shape builds its reference and text from its own fields, and the earlier shape wins |
| Converter.BookShapeReferenceParses | convert-lds-data.js:179-208 | a first-shape record with a plain book and whole numbers gives a reference the helper parses back |
| Converter.ReferencePassesThrough | convert-lds-data.js:189-208 | a well-formed `Reference` whose book holds no colon is written out unchanged, unless its book is spelled "Doctrine and Covenants", which is written "D&C" |
| Converter.ZeroChapterRefused | convert-lds-data.js:194-206 | a `Reference` with chapter 0 is refused, since 0 is falsy |
| Converter.BookShapeExample | convert-lds-data.js:179-183 | the first shape with its text |
| Converter.MissingTextExample | convert-lds-data.js:183 | the first shape with no text gives empty text |
| Converter.NumberedShapeExample | convert-lds-data.js:184-188 | the second shape with `verse_text` |
| Converter.ReferenceShapeExample | convert-lds-data.js:189-196 | the third shape with `Text` |
| Converter.UnknownShapeExample | convert-lds-data.js:200-202 | a record with no shape is refused |
| Converter.NumericReferenceThrows | convert-lds-data.js:189-191 | a numeric `Reference` makes the conversion throw |
| Csv.TrimAll | convert-lds-data.js:150 | trimming every piece keeps the number of pieces |
| Csv.ParseCsv | convert-lds-data.js:148-166 | the reader returns the records of the content's lines |
| Csv.ParseLines | convert-lds-data.js:149-166 | the first line names the columns and the rest are read under them |
| Csv.ParseDataLines | convert-lds-data.js:153-164 | the loop returns the records of the data lines in order, with blank lines skipped |
| Csv.BuildRecord | convert-lds-data.js:157-161 | the `forEach` builds the record of one line |
| Csv.RecordsAppend | convert-lds-data.js:153-164 | one more line adds its record, unless it is blank |
| Csv.RowRecordKeys | convert-lds-data.js:159-161 | a record's keys are exactly the column names |
| Csv.RowRecordValue | convert-lds-data.js:160 | a column holds the value in its position, or the empty string when the line is short; a repeated column name keeps its last value |
| Csv.NonBlank | convert-lds-data.js:154 | the lines kept contain no blank line |
| Csv.NonBlankAppend | convert-lds-data.js:154 | one more line is kept exactly when it is not blank |
| Csv.OneRecordPerLine | convert-lds-data.js:153-164 | each line that is not blank gives one record, in order |
| Csv.LinesRecordsPerLine | convert-lds-data.js:148-166 | of a file, each line after the header that is not blank gives one record, in order |
| ConversionPipeline.CsvRowNeverThrows | convert-lds-data.js:189-191 | a CSV row never makes the converter throw |
| ConversionPipeline.Route | convert-lds-data.js:266-280 | a record throws exactly when converting it throws; a filed record goes under the volume its reference's first word is found in |
| ConversionPipeline.GroupVerses | convert-lds-data.js:262-281 | the grouping loop computes `Group` of the records with the converter's routing |
| ConversionPipeline.GroupWith | convert-lds-data.js:262-281 | the loop with any routing computes `Group` of the records with that routing |
| ConversionPipeline.GroupStopsAt | convert-lds-data.js:265-266 | once a prefix has thrown, the whole run has thrown the same error |
| ConversionPipeline.GroupBuckets | convert-lds-data.js:275-277 | a run that does not throw leaves every list holding exactly the entries filed under its volume, in order |
| ConversionPipeline.GroupCounts | convert-lds-data.js:262-281 | every record is counted once, as processed or as skipped, and the processed count equals the entries filed |
| ConversionPipeline.GroupThrows | convert-lds-data.js:265-266 | a run throws exactly when some record throws, and with that record's error |
| ConversionPipeline.ConversionThrows | convert-lds-data.js:265-266 | the converter throws on its input exactly when converting some record throws, always with the `Reference` type error |
| ConversionPipeline.FiledEntriesRouted | convert-lds-data.js:273-277 | every filed entry is what some record was routed to |
| ConversionPipeline.FiledEntryBelongs | convert-lds-data.js:266-277 | every filed entry came from converting a record, and its first word is found in its volume |
| ConversionPipeline.FiledEntriesComplete | convert-lds-data.js:275-277 | every routed record is filed under its volume |
| ConversionPipeline.ReferencesAppend | convert-lds-data.js:313-318 | one more entry adds its reference to the set |
| ConversionPipeline.RemoveDuplicates | convert-lds-data.js:311-318 | the `seen` loop keeps the first entry of each reference, in order |
| ConversionPipeline.FirstOccurrencesDistinct | convert-lds-data.js:311-318 | de-duplication keeps the set of references and leaves no reference twice |
| ConversionPipeline.DistinctCount | convert-lds-data.js:311-318 | a list without repeated references has one reference per entry |
| ConversionPipeline.UniqueCount | convert-lds-data.js:311-318 | the de-duplicated list has one entry per distinct reference |
| ConversionPipeline.FirstOccurrencesPositions | convert-lds-data.js:313-318 | de-duplication keeps exactly the positions that are first with their reference, in increasing order |
| ConversionPipeline.SortDoesNotChangeCount | convert-lds-data.js:308-318 | a rearranged list de-duplicates to the same length |
| ConversionPipeline.SameEntriesSameReferences | convert-lds-data.js:308-318 | a rearranged list has the same references |
| ConversionPipeline.DistinctUnchanged | convert-lds-data.js:313-318 | a list without repeated references is unchanged |
| ConversionPipeline.SaveVerseLists | convert-lds-data.js:298-341 | the save loop computes `SaveAll` over the four volumes in order: what is written, and which volumes succeed and fail |
| ConversionPipeline.SaveAllRecordsEach | convert-lds-data.js:298-341 | each volume is recorded once, as a success or a failure, and every success has its file |
| ConversionPipeline.SaveAllFailsNone | convert-lds-data.js:298-341 | nothing fails exactly when every volume is saved |
| ConversionPipeline.SaveAllWrites | convert-lds-data.js:320-333 | a saved volume's file holds its sorted, de-duplicated list |
| ConversionPipeline.ExitStatus | convert-lds-data.js:298-368 | the exit status is 0 exactly when every volume has entries and every write succeeds; a volume with no entries fails with "No verses found" |
| ConversionPipeline.SavedCount | convert-lds-data.js:307-333 | when the sort only rearranges the list, the count saved is the number of distinct references |
| ConversionPipeline.GenerateFromStructure | convert-lds-data.js:389-420 | the generator returns the entries of the Book of Mormon table |
| ConversionPipeline.GenerateReferences | convert-lds-data.js:409-420 | the loop over the books appends each book's entries in turn |
| ConversionPipeline.BookEntries | convert-lds-data.js:410-419 | the loop over the chapters appends each chapter's entries |
| ConversionPipeline.ChapterEntries | convert-lds-data.js:412-418 | the innermost loop gives verses 1 to 30 of a chapter |
| ConversionPipeline.RenderConcat | convert-lds-data.js:414-417 | rendering piece by piece gives the same entries |
| ConversionPipeline.RenderAt | convert-lds-data.js:414-417 | each position gives the entry for its book, chapter and verse, with empty text |
| ConversionPipeline.ChapterSlotsAt | convert-lds-data.js:413 | a chapter's positions are its verses in order |
| ConversionPipeline.BookSlotsAt | convert-lds-data.js:410-419 | verse `v` of chapter `c` sits at `30(c-1)+v-1` |
| ConversionPipeline.StructureLength | convert-lds-data.js:409-420 | there are 30 positions per chapter |
| ConversionPipeline.StructureSlotAt | convert-lds-data.js:409-420 | the positions are in book, chapter, verse order |
| ConversionPipeline.GeneratedEntry | convert-lds-data.js:414-417 | every generated entry is the reference to its verse with empty text, and the helper parses it back |
| ConversionPipeline.TotalChaptersPrefix | convert-lds-data.js:389-405 | one more book adds its chapters to the total |
| ConversionPipeline.BookOfMormonChapters | convert-lds-data.js:389-405 | the table has 239 chapters |
| ConversionPipeline.GeneratedCount | convert-lds-data.js:409-420 | the generator writes 30 entries per chapter |
| ConversionPipeline.BookOfMormonGenerated | convert-lds-data.js:389-425 | the generator writes 7170 references for the Book of Mormon |

## Left out

- **Reading files and the environment.**
  - `loadVerseLists` and `loadAPIConfig` (`node_helper.js:41-103`) read files and environment variables. What they read becomes the inputs of `Helper.Start`.
  - The converter's `fs.readFileSync` is also left out; `Csv.ParseCsv` takes the file content.
- **HTTP.** One exchange is an oracle from an address and an attempt number to an outcome. A timeout is one of its outcomes, and so is an error `protocol.get` throws at once, such as on a relative address built from a pattern alone. The timer behind the timeout, the streaming of the body and which addresses the http module refuses are not modelled.
- **Waiting.** The 5-second delay between retries is not waited but counted, as `waitedMs`.
- **Converter file handling.**
  - `parseJSONFile` (`convert-lds-data.js:121-141`) is not modelled, and neither are the file-extension dispatch, the existence checks and the directory creation in `processInputFile`.
  - The error a `writeFileSync` may throw is a `writeError` parameter.
  - Console output is not modelled.
  - `process.exit` is modelled as `ExitCode`.
- **Sorting.** The `localeCompare` sort (`convert-lds-data.js:288-290`) is a `sortVerses` parameter. Locale collation is not modelled. Only the count saved for a volume is shown not to depend on the order (`SortDoesNotChangeCount`).
- **Scripts outside the core.** `generate-verse-lists.js`, and the command-line handling of the converter from line 429 on.
- **The DOM.**
  - Element construction is not modelled. Only which display `getDom` chooses is modelled.
  - A call to `updateDom` is counted in `domUpdates`.
- **Dates.**
  - Days are exactly 24 hours long. Daylight-saving changes and time zones are not modelled.
  - `new Date()` is a `now` parameter.
- **JSON values.** Numbers are integers only. A fraction never decides a branch of the modelled code.
- **`encodeURIComponent`** is an abstract function parameter. `replace` is modelled as a literal insertion; the real encoder turns `$` into `%24`, so no `$` replacement pattern reaches it, but an `encode` parameter that keeps `$` would be inserted literally here.
- **Verse-list entries** are reference strings. Entries that are objects with a `reference` field are not modelled.
- **A `null` record.** A `Record` is always an object, so a record that is `null` cannot be written. A JSON array such as `[null]` can hold one, and then `convertVerse` throws on the property read (`convert-lds-data.js:179`) and the run aborts. The JSON reader is not part of this model, so neither is that path.
- **Error wording.** The wording of the two thrown `TypeError`s follows the V8 engine's messages.
- **Number precision.** Dafny integers are exact. JavaScript numbers are doubles: `parseInt` rounds a digit run above 2^53, and `${n}` prints a number from 1e21 up in exponent form. The lines below state the round trips for exact integers only.
- Text.NatToString: states digits for every natural number; `${n}` gives such digits only below 1e21.
- Text.DigitsValueOfNatToString: the read-back is exact for every number; with doubles it is exact only up to 2^53.
- ReferenceParser.ParseFormatRoundTrip: chapter and verse numbers come back exactly; the source gets them back only up to 2^53.
- ReferenceParser.LooseMatchOfFormatted: the numbers read back are exact; the source's `parseInt` reads them exactly only up to 2^53.
- ApiRequest.BuildDefaultUrlReadBack: the segments parse back to the reference's numbers exactly; the source's does so only up to 2^53.
- Converter.FormattedReferenceParses: chapter and verse come back exactly; in the source only up to 2^53, and `${n}` uses exponent form from 1e21.
- Converter.BookShapeReferenceParses: whole numbers of any size; in the source only up to 2^53.
- Converter.ReferencePassesThrough: any whole numbers; in the source only up to 2^53.
- NodeHelper.Prefix: counts characters. `substring(0, 100)` counts UTF-16 code units, so a body with characters outside the Basic Multilingual Plane gives fewer characters, and possibly half a surrogate pair, at the end.
- NodeHelper.GetVerseNotification: uses the corrected day number `GetDayOfYear` (see Findings). For the years 0 to 99 the source's handler computes a day number below 1. `(dayOfYear - 1) % 4` then truncates to 0 or a negative index. A negative index gives an undefined volume, and the handler sends VERSE_ERROR "No verses available for volume: undefined". Index 0 picks the Bible, whose verse index is then negative or 0. A negative one gives an undefined reference, and fetching it fails, so the handler sends VERSE_ERROR. Index 0 fetches the Bible's first entry.
- NodeHelper.GetVerseNotificationMeans: states the notification for the corrected day number only; what the source sends for the years 0 to 99 is described on the line above.
- NodeHelper.Helper.HandleGetVerse: sends `GetVerseNotification`, so it too uses the corrected day number. It also runs as one step, while `socketNotificationReceived` (`node_helper.js:371-375`) does not await `handleGetVerse`, so two close GET_VERSE requests can interleave their retries and their notifications in either order.
- DailyVerseModule.UpdateDelay: `updateInterval` is an optional integer, so a truthy non-number, such as a string, cannot be configured. The delay it gives is the one asked for; what the browser's timer makes of a delay above 2^31 - 1 is `TimerDelay`, a finding below.
- DailyVerseModule.DailyVerse.ScheduleNextUpdate: `pending` records the delay asked for, which is the corrected behaviour `TimerChain` realises, not the wrapped delay the browser's timer waits for a delay above 2^31 - 1 (0 milliseconds for 30 days).

## Findings

| source | as written | input that shows it | evidently intended | confidence | as-written member | corrected member |
|---|---|---|---|---|---|---|
| node_helper.js:113 | `new Date(now.getFullYear(), 0, 0)` reads the years 0 to 99 as 1900 to 1999, so the day count starts in the wrong century | a moment in year 50, such as 0050-01-01 00:00 | day number 1, the date's day within its own year | not executed | VerseSelection.GetDayOfYearAsWrittenFailsInYear50 | VerseSelection.GetDayOfYear |
| MMM-DailyLDSVerse.js:67-83 | a positive `updateInterval` goes straight to one `setTimeout`, which in the browser wraps a delay above 2^31 - 1 milliseconds modulo 2^32 and waits 0 milliseconds when that is negative | `updateInterval: 2592000000` (30 days) | the next refresh after the configured interval | not executed | DailyVerseModule.ThirtyDayIntervalFiresAtOnce | DailyVerseModule.TimerChainWaitsWholeInterval |
