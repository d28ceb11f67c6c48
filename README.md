# The Daily Beatles: session, statistics, share text and GIF grouping

This project is a Dafny model of the logic behind a daily music-trivia web
application and its GIF build script. The application serves one puzzle a
day. It keeps the player's progress and each day's result in browser
storage and shows a result screen with statistics. It also sends a
completion event and offers a share text.

The model covers four parts.

- **The game session** (`Session.GameSession`). A class whose fields are the
  application's state variables, with browser storage as a `map` field.
  - Loading a puzzle: it resumes saved progress, or starts with every answer `null`.
  - Answering a question.
  - The 2000 ms and 50 ms callbacks. They are kept as pending `Timer` values that carry what their closures captured.
  - Rendering. A completed game writes the day's result under the date key, and the result screen mounts.
- **The statistics** (`Stats`, `StatsFacts`, `StatsExamples`). `calculateStats` is modelled as imperative code in two steps:
  - a loop that collects the keys matching `^dailyBeatles_\d{4}-\d{2}-\d{2}$`;
  - then the sort, and a loop that folds the sorted keys into games played, average score, current streak and longest streak.

  The fold is proved equal to a functional specification (`StatsOf`). About that specification it is proved that:
  - key order is chronological order;
  - `isConsecutiveDate` means "the next calendar day";
  - streaks are runs of consecutive days;
  - the figures have the stated bounds.

  The completion event is recorded as a sequence of emitted payloads.
- **The share text** (`Share`). The formatter, and a reader that recovers the puzzle number, the score, the question count and which answers were right (a round trip).
- **The GIF grouping** (`GifConfig`). The script's loop is modelled as a method over a `map`. It is proved equal to a grouping function whose counting, ordering and naming properties are lemmas.

Supporting modules:
- `Calendar`: a proleptic Gregorian day count.
- `Decimal`: digit strings, template-string integers and JavaScript `parseInt`.
- `Keys`: the two storage key formats.
- `Ordering`: JavaScript string order and the sort.
- `Records`: the stored values.

Constants from the site configuration:
- The storage prefix `dailyBeatles` (config/beatles/site.js:6).
- The share tag `daily.band/beatles` (config/beatles/site.js:10).

The `key === today` test of the fold compares a 23-character key with a 10-character date, so it never holds. It is kept as written, and the current streak is the streak at the last sorted key.

## Model

| member | source | states |
|---|---|---|
| Basics.Abs | src/components/ResultDisplay.jsx:64 | `Math.abs`: the result is non-negative and equals the argument or its negation |
| Calendar.DaysFromCivil | src/components/ResultDisplay.jsx:62-64 | the day number behind `new Date(date1) - new Date(date2)`; with NextDay and OneDayApart it steps by one per calendar day, and DaysFromCivilOrder proves it follows date order and tells dates apart |
| Calendar.NextDay | src/components/ResultDisplay.jsx:61-67 | the calendar day after a real date is a real date with the next day number, in the same year or the next |
| Calendar.YearStep | src/components/ResultDisplay.jsx:61-67 | the closed-form day count of January 1 grows by exactly the length of the year, leap years included |
| Calendar.MonthStep | src/components/ResultDisplay.jsx:61-67 | the day count of the first of a month grows by exactly the length of that month |
| Calendar.DaysFromCivilOrder | src/components/ResultDisplay.jsx:61-67 | for real dates, chronological order is the order of day numbers, and equal day numbers mean equal dates |
| Calendar.OneDayApart | src/components/ResultDisplay.jsx:61-67 | two real dates are one day number apart exactly when the second is the calendar day after the first |
| Decimal.NatToStringDigits | src/App.jsx:83 | the template text of a natural number is digits only, denotes the number and has no leading zero |
| Decimal.IntToStringDigits | src/App.jsx:83 | the template text of an integer is digits, after a minus sign exactly when it is negative |
| Decimal.NatToString | src/App.jsx:83 | the decimal text of a natural number; NatToStringDigits and ParseIntOfNatToString state what it denotes |
| Decimal.IntToString | src/App.jsx:83 | the template-string text of an integer; IntToStringDigits and ParseIntOfIntToString state what it denotes |
| Decimal.PadDigits | src/components/ResultDisplay.jsx:33 | a zero-padded field has the given width, is digits only, and denotes the number when it fits |
| Decimal.PadDigitsValue | src/components/ResultDisplay.jsx:33 | re-padding the value of a digit string to its own width gives back the same string |
| Decimal.TrimStart | scripts/generate-gif-config.js:19 | `parseInt` skips exactly the leading white space, and what remains does not start with white space |
| Decimal.LeadingDigits | scripts/generate-gif-config.js:19 | the digits `parseInt` reads are the longest run of decimal digits at the front |
| Decimal.ParseIntOfDigits | scripts/generate-gif-config.js:19 | `parseInt` of a digit run followed by a non-digit is the value of the run |
| Decimal.ParseIntNaN | scripts/generate-gif-config.js:19 | `parseInt` is `NaN` for text that starts with neither white space, a sign nor a digit |
| Decimal.ParseIntOfNegative | scripts/generate-gif-config.js:19 | `parseInt` of a minus sign and digits is the negated value |
| Decimal.ParseIntOfIntToString | src/App.jsx:83 | `parseInt` reads back the template text of every integer |
| Decimal.ParseInt | scripts/generate-gif-config.js:19 | `parseInt(s, 10)`: skip white space, an optional sign, then the leading digits, or `NaN`; described by ParseIntOfDigits, ParseIntNaN, ParseIntOfNegative and ParseIntOfIntToString |
| GifConfig.BeforeFirst | scripts/generate-gif-config.js:19 | `split('.')[0]` is a dot-free prefix of the name, followed by a dot whenever it is shorter than the name |
| GifConfig.RemoveFirst | scripts/generate-gif-config.js:26 | `replace('.gif', '')` either keeps the length or removes exactly one occurrence's worth of characters; which characters go is stated by RemoveFirstFirst and RemoveFirstNone |
| GifConfig.RemoveFirstFirst | scripts/generate-gif-config.js:26 | `replace` with a text pattern removes the first occurrence of the pattern, wherever it is, and keeps everything before and after it |
| GifConfig.RemoveFirstNone | scripts/generate-gif-config.js:26 | a text in which the pattern does not occur is left unchanged |
| GifConfig.EntryName | scripts/generate-gif-config.js:26 | the entry name is the file name with its first `.gif` removed; see RemoveFirstFirst and EntryNameOfPlainGif |
| GifConfig.IsGif | scripts/generate-gif-config.js:17 | `endsWith('.gif')`: the last four characters are `.gif`; the grouping lemmas below are stated over it |
| GifConfig.FileNumber | scripts/generate-gif-config.js:19 | the group key is the `parseInt` value of the text before the first dot, or `NaN`; see FileNumberOfDigits, LeadingZeroExample and NaNExample |
| GifConfig.GroupKeys | scripts/generate-gif-config.js:21-23 | the keys the loop creates; GroupKeysOfGifs proves they are exactly the file numbers of the `.gif` files |
| GifConfig.Grouping | scripts/generate-gif-config.js:16-29 | the object the script writes; GenerateGifConfig proves the loop builds it, and EntryOfFile, EntriesKeepListingOrder and EntriesCountGifs describe its groups |
| GifConfig.Group | scripts/generate-gif-config.js:16-29 | a group never has more entries than there are files |
| GifConfig.Gifs | scripts/generate-gif-config.js:17 | the files that end in `.gif` and no others; how often and in what order is stated by GifsCount and GifsConcat |
| GifConfig.GifsCount | scripts/generate-gif-config.js:17 | each `.gif` file occurs among the `.gif` files as often as in the listing, and no other file occurs there |
| GifConfig.GifsConcat | scripts/generate-gif-config.js:16-17 | the `.gif` files keep the listing order: those of two listings in a row are those of the first, then those of the second |
| GifConfig.GroupKeysOfGifs | scripts/generate-gif-config.js:17-23 | a group exists exactly for the file numbers of the `.gif` files |
| GifConfig.GroupingAppendGif | scripts/generate-gif-config.js:21-27 | one more `.gif` file appends its entry to its own group, which is created when new, and leaves every other group unchanged |
| GifConfig.GroupingAppendOther | scripts/generate-gif-config.js:17 | one more file that does not end in `.gif` changes nothing |
| GifConfig.GroupOutsideKeys | scripts/generate-gif-config.js:21-23 | a key that no `.gif` file falls into has no entries |
| GifConfig.GroupsAreNonEmpty | scripts/generate-gif-config.js:21-25 | every group written has at least one entry |
| GifConfig.GroupPrefix | scripts/generate-gif-config.js:16-25 | the group built from an initial part of the listing is a prefix of the final group |
| GifConfig.EntryOfFile | scripts/generate-gif-config.js:19-27 | each `.gif` file's entry, named after it, lands in the group of its file number, after the entries of the earlier files of that group |
| GifConfig.EntriesKeepListingOrder | scripts/generate-gif-config.js:16-25 | within a group, a file listed earlier has its entry earlier |
| GifConfig.EntriesCountGifs | scripts/generate-gif-config.js:17-27 | the groups hold exactly as many entries as there are `.gif` files, counted with repetition (GifsCount) |
| GifConfig.GenerateGifConfig | scripts/generate-gif-config.js:16-29 | the loop's create-then-push on the map builds exactly the grouping of the listing |
| GifConfig.PushOnGroup | scripts/generate-gif-config.js:21-27 | creating a missing group and then pushing onto it is a single update of the map |
| GifConfig.EntryNameOfPlainGif | scripts/generate-gif-config.js:26 | a name whose only `.gif` is its ending is named by the text before it |
| GifConfig.RemoveFirstAtEnd | scripts/generate-gif-config.js:26 | a text whose only occurrence of the pattern is at its end loses just that ending |
| GifConfig.RemoveFirstAtFront | scripts/generate-gif-config.js:26 | a text that starts with the pattern loses just that start |
| GifConfig.RemoveFirstOfEnding | scripts/generate-gif-config.js:26 | a text ending in the pattern, with the pattern's second character absent before it, loses just that ending |
| GifConfig.EntryNameWithoutG | scripts/generate-gif-config.js:26 | a `.gif` name with no `g` before its ending is named by the text before `.gif` |
| GifConfig.BeforeFirstOf | scripts/generate-gif-config.js:19 | the text before the first dot is everything up to that dot |
| GifConfig.FileNumberOfDigits | scripts/generate-gif-config.js:19 | a name that starts with digits and a dot falls into the group of the digits' value |
| GifConfig.PlainNameExample | scripts/generate-gif-config.js:19-26 | `12.gif` is entry `12` of group 12 |
| GifConfig.DottedNumberExample | scripts/generate-gif-config.js:19 | `12.b.gif` falls into group 12 |
| GifConfig.DottedNameExample | scripts/generate-gif-config.js:26 | `12.b.gif` becomes entry `12.b` |
| GifConfig.LeadingZeroExample | scripts/generate-gif-config.js:19 | `007.gif` falls into group 7 |
| GifConfig.NaNExample | scripts/generate-gif-config.js:19 | `x.gif` falls into the `NaN` group |
| GifConfig.DoubleExtensionExample | scripts/generate-gif-config.js:26 | only the first `.gif` is removed: `3.gif.gif` becomes `3.gif` |
| Keys.DateText | src/components/ResultDisplay.jsx:33 | a date written `YYYY-MM-DD` with zero padding matches the date part of the pattern and reads back as the same date |
| Keys.ProgressKey | src/App.jsx:32 | the progress key `<prefix>_<gameNumber>`; ProgressKeyIsNotDateKey proves the statistics never select it |
| Keys.DateKey | src/App.jsx:119 | the daily-result key `<prefix>_<YYYY-MM-DD>`; DateKeyRoundTrip proves it matches the pattern and names its day |
| Keys.IsDateKey | src/components/ResultDisplay.jsx:26 | the key pattern `^dailyBeatles_\d{4}-\d{2}-\d{2}$`; see KeyPatternExamples, DateKeyRoundTrip and DateKeyOfParsed |
| Keys.DateTextOfParsed | src/components/ResultDisplay.jsx:26 | reading a `YYYY-MM-DD` text and writing it back gives the same text |
| Keys.DateKeyRoundTrip | src/App.jsx:119 | the key written for a day matches the pattern and names that day |
| Keys.DateKeyOfParsed | src/components/ResultDisplay.jsx:26 | every key the pattern selects is the key of the date it names |
| Keys.ProgressKeyIsNotDateKey | src/App.jsx:83 | no progress key `<prefix>_<gameNumber>` matches the daily-result pattern |
| Keys.KeyPatternExamples | src/components/ResultDisplay.jsx:26 | `<prefix>_2024-01-05` is selected, while `<prefix>_142`, `<prefix>_abc` and `dailyBeatles-2024-01-05` are not |
| Keys.DigitsValueOrder | src/components/ResultDisplay.jsx:30 | equal-width digit strings compare as text as their values compare as numbers |
| Keys.NumberThenRest | src/components/ResultDisplay.jsx:30 | texts that start with equal-width numbers compare by the numbers first, then by the rest |
| Keys.DateTextOrder | src/components/ResultDisplay.jsx:30 | `YYYY-MM-DD` texts sort as text in chronological order |
| Keys.KeyOrderIsChronological | src/components/ResultDisplay.jsx:30 | date keys sort as text in chronological order, which for real dates is the order of their day numbers |
| Ordering.LexLess | src/components/ResultDisplay.jsx:30 | the code-point comparison `dateKeys.sort()` uses without a comparator; LexLessIrreflexive, LexLessAsymmetric, LexLessTransitive and LexLessTotal prove it a strict total order |
| Ordering.LexLessIrreflexive | src/components/ResultDisplay.jsx:30 | no string sorts before itself |
| Ordering.LexLessAsymmetric | src/components/ResultDisplay.jsx:30 | two strings never sort before each other |
| Ordering.LexLessTransitive | src/components/ResultDisplay.jsx:30 | the string order is transitive |
| Ordering.LexLessTotal | src/components/ResultDisplay.jsx:30 | of two different strings, one sorts before the other |
| Ordering.LexLessCommonPrefix | src/components/ResultDisplay.jsx:30 | a shared prefix does not change the comparison |
| Ordering.LexLessConcat | src/components/ResultDisplay.jsx:30 | concatenations whose first parts have equal length compare by the first parts, then by the second |
| Ordering.Insert | src/components/ResultDisplay.jsx:30 | inserting adds exactly that element |
| Ordering.Sort | src/components/ResultDisplay.jsx:30 | sorting is a permutation |
| Ordering.InsertAscending | src/components/ResultDisplay.jsx:30 | inserting a new element into a strictly ascending sequence keeps it strictly ascending |
| Ordering.SortAscending | src/components/ResultDisplay.jsx:30 | sorting distinct strings gives them in strictly ascending order, each exactly once |
| Ordering.AscendingUnique | src/components/ResultDisplay.jsx:30 | two strictly ascending sequences with the same elements are equal, so the sorted keys do not depend on the storage's enumeration order |
| Records.Score | src/App.jsx:115 | the score is at most the number of entries |
| Records.ScoreCountsCorrect | src/App.jsx:115 | `results.filter(Boolean).length` is the number of positions holding `true` |
| Records.Truthy | src/App.jsx:115 | an entry is truthy only when it is `true`; ScoreCountsCorrect and GreenBoxesAreScore are stated over it |
| Session.SetAt | src/App.jsx:73-74 | the copy holds the new entry at the index and every other entry unchanged, and grows with `null`s when the index is past the end |
| Session.NoAnswers | src/App.jsx:41 | `new Array(n).fill(null)` has `n` entries, all `null`, and scores 0 |
| Session.DayResult | src/App.jsx:114-118 | the day's result records the results as they are, the question count, and as score the number of correct answers, which is no larger than the number of entries |
| Session.DailyWriteKeepsReady | src/App.jsx:119 | writing the day's result keeps every selected key readable, and adds today's key to the selected keys |
| Session.ProgressWriteKeepsReady | src/App.jsx:83 | writing a progress record keeps every selected key readable |
| Session.GameSession.constructor | src/App.jsx:10-20 | the initial state: nothing loaded, no questions, no puzzle number, question 0, no answers, no pending callback, no event |
| Session.GameSession.Load | src/App.jsx:23-47 | absent or empty questions change nothing but the loaded flag; otherwise the puzzle is taken on, resumed verbatim from any saved record (then marked previously completed) or started at question 0 with every answer `null` |
| Session.GameSession.Resume | src/App.jsx:32-38 | a saved record restores the question index, the results and the completion flag as stored, and marks the puzzle previously completed |
| Session.GameSession.StartFresh | src/App.jsx:39-42 | without a saved record the puzzle starts at question 0, with one `null` per question, not complete and not previously completed |
| Session.GameSession.Answer | src/App.jsx:66-85 | while the answer is revealed nothing changes; otherwise the entry of the current question becomes whether the answer is correct, the record with `gameComplete` set for the last question is saved under the puzzle's key, and the 2000 ms callback is pending |
| Session.GameSession.SaveProgress | src/App.jsx:83 | the store changes only under the puzzle's progress key, to the given record |
| Session.GameSession.StartTimer | src/App.jsx:85-89 | the callback joins the pending ones |
| Session.GameSession.RevealElapsed | src/App.jsx:85-98 | before the last question the reveal is hidden and the 50 ms callback is pending; at the last question the game is complete |
| Session.GameSession.HideReveal | src/App.jsx:86-89 | the reveal and the selection are cleared, and the 50 ms callback replaces the 2000 ms one |
| Session.GameSession.CompleteGame | src/App.jsx:95-97 | the game is complete and the callback is done |
| Session.GameSession.AdvanceElapsed | src/App.jsx:89-94 | the question index becomes one more than the answered one and stays within the questions, and the captured record is saved again with that index |
| Session.GameSession.SaveDay | src/App.jsx:111-119 | the day's result is stored under the day's key, which the statistics then select |
| Session.GameSession.MountResult | src/components/ResultDisplay.jsx:13-82 | the result screen shows the store's statistics, and the event carries them once, only for a puzzle not found saved on load |
| Session.GameSession.Render | src/App.jsx:101-147 | with no questions nothing is shown or written; while playing, the current question is shown; once complete, the day's result is written on every render, and the first result render computes and sends the statistics, counting at least today |
| Session.AnswerThenReload | src/App.jsx:32-83 | reloading right after an answer resumes at the same question with the same results, the record marked complete exactly when the last question was answered, and the puzzle marked previously completed |
| Session.AnswerAgainBeforeAdvance | src/App.jsx:66-94 | between the two callbacks a second answer re-answers the same question and overwrites the first one's entry |
| Session.RenderAgain | src/App.jsx:111-121 | rendering a completed game again rewrites the same value, so the store, the figures shown and the events stay as they are |
| Share.Boxes | src/components/ResultDisplay.jsx:85 | one box per result, green exactly for a truthy result and black otherwise |
| Share.ShareText | src/components/ResultDisplay.jsx:84-87 | `generateShareText`; ShareTextRoundTrip proves the text gives back the puzzle number, the score, the question count and which answers were right |
| Share.GreenBoxesAreScore | src/components/ResultDisplay.jsx:85 | the number of green boxes is the score and the rest are black |
| Share.ReadBoxesOfBoxes | src/components/ResultDisplay.jsx:85 | the boxes read back as which answers were right |
| Share.NumberTextChars | src/components/ResultDisplay.jsx:86 | the text of a number holds no line break and no slash, so the layout's separators are unambiguous |
| Share.FieldsOfLayout | src/components/ResultDisplay.jsx:86 | a text laid out as `<tag> #<n>\n\n<score>/<total>\n<boxes>` is cut back into the same four fields |
| Share.ScoreFieldsOfLayout | src/components/ResultDisplay.jsx:86 | the part after the first line is cut back into the score, the total and the boxes |
| Share.ShareTextRoundTrip | src/components/ResultDisplay.jsx:84-87 | the share text gives back the puzzle number, the score, the question count and which answers were right |
| Stats.SortedDateKeys | src/components/ResultDisplay.jsx:23-30 | the sorted keys are strictly ascending and exactly the keys the pattern selects |
| Stats.ConsecutiveMeansNextDay | src/components/ResultDisplay.jsx:61-67 | `isConsecutiveDate` is symmetric and holds exactly when one date is the calendar day after the other |
| Stats.IsConsecutiveDate | src/components/ResultDisplay.jsx:61-67 | the whole-day gap between the dates of the two keys, rounded up, is 1; ConsecutiveMeansNextDay proves this means one is the calendar day after the other |
| Stats.WholeDays | src/components/ResultDisplay.jsx:64-65 | rounding a whole number of days in milliseconds up to days gives the number of days, whichever order the dates come in |
| Stats.Round | src/components/ResultDisplay.jsx:71 | `Math.round` gives the integer within one half below and strictly less than one half above |
| Stats.Max | src/components/ResultDisplay.jsx:52 | `Math.max`: the result is at least each argument and equals one of them |
| Stats.Percent | src/components/ResultDisplay.jsx:40 | one day's score as a percentage of its question count; see TotalScoreBounds and PercentOfPlayed |
| Stats.AvgScore | src/components/ResultDisplay.jsx:71 | the average percentage divided by 10 and rounded, 0 with no games; see AvgScoreBounds, AvgScoreOfBoundedTotal and Averages |
| Stats.TotalScore | src/components/ResultDisplay.jsx:40 | the sum of the percentages of the first keys; see TotalScoreBounds and TotalScoreOnAgreement |
| Stats.Links | src/components/ResultDisplay.jsx:45 | for each sorted key, whether it is consecutive with the one before; NeighboursAreNextDays and LinkedIsDayRun state what a link means |
| Stats.Streak | src/components/ResultDisplay.jsx:43-49 | the streak at a key; StreakIsMaximalLinked and LinkedWithinStreak prove it is the longest linked stretch ending there |
| Stats.MaxStreak | src/components/ResultDisplay.jsx:52 | the longest streak among the first keys; MaxStreakIsLargestStreak and MaxStreakIsLongestRun prove it is the longest run of consecutive days |
| Stats.StatsOf | src/components/ResultDisplay.jsx:36-74 | the figures of the fold, as a function of the sorted keys; FoldStats proves the loop computes it, and the StatsFacts lemmas describe each figure |
| Stats.DateKeysOf | src/components/ResultDisplay.jsx:23-29 | the keys of the store that match the pattern; CollectDateKeys proves the loop collects them |
| Stats.StoreStats | src/components/ResultDisplay.jsx:15-79 | the statistics of a store, whatever its enumeration order; CalculateStats proves it is what the function computes |
| Stats.CollectDateKeys | src/components/ResultDisplay.jsx:23-29 | the first loop collects each key of the store that matches the pattern, once, and no other |
| Stats.NextStreak | src/components/ResultDisplay.jsx:43-49 | the streak is 1 at the first key, one more when the key is the day after the previous one, and 1 again otherwise |
| Stats.FoldKey | src/components/ResultDisplay.jsx:37-57 | one pass of the loop body extends the folded figures from the first `i` keys to the first `i + 1` |
| Stats.FoldedAll | src/components/ResultDisplay.jsx:69-74 | the figures folded over every key, with the average rounded, are the specification's statistics |
| Stats.FoldStats | src/components/ResultDisplay.jsx:36-74 | the second loop yields games played, the rounded average of the percentages, the streak at the last key and the longest streak |
| Stats.CalculateStats | src/components/ResultDisplay.jsx:15-79 | `calculateStats` gives the store's statistics whatever order storage enumerates its keys in, and sends the event exactly when the puzzle was not found saved on load |
| StatsFacts.AscendingNeighbours | src/components/ResultDisplay.jsx:30 | in the sorted keys, each key sorts after the one before it |
| StatsFacts.NeighboursAreNextDays | src/components/ResultDisplay.jsx:45 | in the sorted keys, `isConsecutiveDate` of neighbours means the later key is the next calendar day |
| StatsFacts.LinkedIsDayRun | src/components/ResultDisplay.jsx:43-49 | in the sorted keys, a stretch along which the streak keeps growing is exactly a run of consecutive calendar days |
| StatsFacts.StreakIsMaximalLinked | src/components/ResultDisplay.jsx:43-49 | the streak at a key counts the longest stretch of linked keys ending there, which cannot be extended further back |
| StatsFacts.LinkedWithinStreak | src/components/ResultDisplay.jsx:43-49 | no stretch of linked keys ending at a key is longer than the streak there |
| StatsFacts.MaxStreakIsLargestStreak | src/components/ResultDisplay.jsx:52 | `maxStreak` is the streak at one of the keys and at least the streak at each |
| StatsFacts.MaxStreakIsLongestRun | src/components/ResultDisplay.jsx:43-52 | `maxStreak` is the length of the longest run of consecutive calendar days among the keys |
| StatsFacts.CurrentStreakIsLatestRun | src/components/ResultDisplay.jsx:55-57 | `currentStreak` is the length of the run of consecutive days ending at the latest key, which the key before it does not extend |
| StatsFacts.StreakBounds | src/components/ResultDisplay.jsx:43-56 | with at least one key, `1 <= currentStreak <= maxStreak <= played` |
| StatsFacts.PlayedCountsDateKeys | src/components/ResultDisplay.jsx:24-39 | games played is the number of keys the pattern selects |
| StatsFacts.NoDateKeysNoStats | src/components/ResultDisplay.jsx:16-74 | every figure is zero exactly when no key is selected |
| StatsFacts.StoreStreakBounds | src/components/ResultDisplay.jsx:43-56 | for a store with a selected key, `1 <= currentStreak <= maxStreak <= played` |
| StatsFacts.TotalScoreBounds | src/components/ResultDisplay.jsx:40 | with scores within their question counts, the running total is between 0 and 100 per game |
| StatsFacts.AvgScoreBounds | src/components/ResultDisplay.jsx:71 | with scores within their question counts, the average score is between 0 and 10 |
| StatsFacts.AvgScoreOfBoundedTotal | src/components/ResultDisplay.jsx:71 | a total of at most 100 per game averages to between 0 and 10 |
| StatsFacts.StatsIgnoreOtherKeys | src/components/ResultDisplay.jsx:26 | a key the pattern does not select, such as a progress record, has no effect on the statistics |
| StatsExamples.ConsecutiveByGap | src/components/ResultDisplay.jsx:61-67 | keys whose day numbers differ by the gap are consecutive exactly when the gap is one either way |
| StatsExamples.KeysAscend | src/components/ResultDisplay.jsx:30 | the key of a real date with a smaller day number sorts first |
| StatsExamples.StreaksOfLinks | src/components/ResultDisplay.jsx:43-52 | three linked keys give streak 3 and longest streak 3, two unlinked keys give 1 and 1 |
| StatsExamples.PercentOfPlayed | src/components/ResultDisplay.jsx:40 | 5/5 is 100 per cent and 3/5 is 60 |
| StatsExamples.Averages | src/components/ResultDisplay.jsx:71 | totals 300 over 3 games and 160 over 2 average to 10 and 8 |
| StatsExamples.ThreeDayKeys | src/components/ResultDisplay.jsx:23-30 | three consecutive days' results and a progress record give the three date keys, in date order |
| StatsExamples.GapKeys | src/components/ResultDisplay.jsx:23-30 | days two apart give their two keys, in date order |
| StatsExamples.ThreePerfectLinkedDays | src/components/ResultDisplay.jsx:36-74 | three keys a day apart at 5/5 fold to played 3, average 10, streaks 3 and 3 |
| StatsExamples.TwoUnlinkedDays | src/components/ResultDisplay.jsx:36-74 | keys at 3/5 and 5/5 that are not a day apart fold to played 2, average 8, streaks 1 and 1 |
| StatsExamples.ThreeKeyStats | src/components/ResultDisplay.jsx:15-79 | a store whose selected keys are three days in a row at 5/5 has statistics 3, 10, 3, 3 |
| StatsExamples.GapKeyStats | src/components/ResultDisplay.jsx:15-79 | a store whose selected keys are 3/5 and, two days later, 5/5 has statistics 2, 8, 1, 1 |
| StatsExamples.ThreeConsecutiveDays | src/components/ResultDisplay.jsx:15-79 | three days in a row at 5/5, beside a progress record, give 3 played, average 10.0 and streaks 3 and 3 |
| StatsExamples.TwoDaysWithGap | src/components/ResultDisplay.jsx:15-79 | results 3/5 and, two days later, 5/5 give 2 played, average 8.0 and streaks 1 and 1 |

## Left out

- Stats.IsConsecutiveDate: it reads each date from the `YYYY-MM-DD` part of the key. The source passes the whole prefixed key to `new Date`, and how a browser parses such a non-ISO string is implementation-defined (section 21.4.3.2 of ECMA-262, `Date.parse`). A browser that returns `NaN` there would never count two days as consecutive. That parse is not modelled. A browser that reads the key as local midnight would also see a 23- or 25-hour gap across a daylight-saving change. For the 25-hour gap, `Math.ceil` gives 2, so those two days would not count as consecutive. The model measures the gap in whole days and does not capture this.
- Session.SetAt: assigning past the end of a JavaScript array leaves holes, and the model fills them with `Unanswered` instead. The difference shows only in memory, in `results.map(...).join('')`, which skips holes, so the share text would have fewer boxes than the model gives. Storage is unaffected, since JSON writes holes as `null`. Holes arise only when a stored progress record has fewer results than its question index. No record the application writes is like that: StartFresh establishes `InPlay` and Answer preserves it.
- Stats.CalculateStats: it requires:
  - every selected key to hold a day's result for a real calendar date, with a non-zero question count;
  - the current date to have a four-digit year.

  The source parses whatever is stored without a guard. For keys such as `2024-13-45` it would compute with an invalid date, and for corrupt data it would throw or produce `NaN`.
- Stats.AvgScore: the average is computed on exact reals. Floating-point rounding of the percentages and of `Math.round` at halves is not modelled.
- Session.GameSession.Load: it requires:
  - the state before any puzzle (the effect runs once, at mount);
  - the value under the progress key, when present, to be a progress record.

  What `JSON.parse` makes of other stored text is not modelled.
- Session.GameSession.Answer: it requires a loaded puzzle that is not complete, at a question index within range. Answer buttons exist only on the question screen.
- Session.GameSession.Render: it requires the question index to be within range while the game is not complete. A restored record with an index out of range would make the source throw, and that is not modelled.
- React itself is not modelled:
  - State updates take effect at once; batching and re-render scheduling are not modelled.
  - Markup, the header, the question display and the answer buttons' styling are not modelled.
  - The layout-overlap check and its resize listener are left out, because they depend on DOM measurements.
  - The `Math.random` phrase pick of src/components/AnswerButton.jsx is left out.
- Timers are pending callbacks in a multiset, fired in any order the caller chooses. Real time is not modelled.
- Today's date and the current instant are parameters. src/utils/triviaData is not part of this model, so `getFormattedDate` and `fetchTriviaQuestions`, and their results, are inputs. `new Date().toISOString()` appears as the date it yields.
- The share transport is left out: `navigator.share`, the clipboard, the "Copied!" label and its timeout. Only the share text is modelled.
- `sa_event` is recorded as the sequence of payloads sent. The analytics transport is left out.
- Storage holds data values rather than JSON text, and its enumeration order is arbitrary. `dateKeys.sort()` is modelled as an insertion sort by code point, which agrees with JavaScript's UTF-16 order on these ASCII keys.
- GifConfig.FileNumber: group keys are exact integers. `parseInt` loses precision on digit runs beyond 2^53, and the model does not capture that. A negative zero becomes key 0, as the JavaScript property key does.
- The GIF script's I/O is left out: reading the folder, writing `gif-config.js`, `JSON.stringify`, and the order in which that writes the keys.
- The site configuration is reduced to the two constants used. The other site's configuration and the selector in config/index.js are left out.
- The result screen's grid and dialogs, and its unmount, are left out.
