# TOE_PARSER: a Dafny model of the outage-schedule parsers

TOE_PARSER turns the Ternopil power company's outage schedules into one JSON
document. The document maps each day, keyed by its Unix timestamp, to the
twelve queues "GPV1.1" ... "GPV6.2". Each queue maps the hours "1" to "24" to
one of seven status codes:

- `yes`: power on;
- `no`, `first`, `second`: a certain outage in the whole hour, its first half or its second half;
- `maybe`, `mfirst`, `msecond`: a possible outage in the same halves.

The schedule comes from two places:

- **A table image** (`src/recognizer.py`). The cells found in the image are
  sorted and grouped into rows. The rows above the table give the schedule
  date and the update time. The colours of each cell give its hour status.
  The day's groups are then merged into the stored document, and days before
  today are dropped.
- **The company's JSON API** (`src/toe_api_parser.py`). Each half-hour carries
  a code "0", "1" or "10". `process_times` folds the two codes of an hour into
  one of the same seven statuses, and `fetch_all_groups` files the processed
  groups by day.

`src/Test_groups.py` holds a third reader of the same half-hour codes. It
turns them into "HH:MM - HH:MM" outage intervals.

## Modules

| file | module | what it holds |
|---|---|---|
| `results.dfy` | `Results` | `Option` and `MapSeq`, a map over a sequence |
| `text.dfy` | `Text`, `PyInt` | decimal digits, `str()` of integers, `:02d` padding, `split`, `strip`; Python's `int()` on text, and `str()` of a JSON scalar |
| `statuses.dfy` | `Statuses` | the seven status codes, and what each one says (certain or possible, and which halves) |
| `classifier.dfy` | `CellClassifier` | the red and yellow pixel tests, `_is_red_section`, `_is_yellow_section`, `get_cell_color_status` |
| `grid.dfy` | `Grid` | `sort_contours`, the grouping of sorted boxes into rows, the header boundary |
| `header_date.dfy` | `HeaderDate` | the date patterns over the recognised header text, the year repair, the update time, the fall-back to the current date |
| `store.dfy` | `ScheduleStore` | the group builder over the last 12 rows and last 24 cells, the `fact` section (`Fact` class) with its merge and purge, one recognition run, `preset.time_zone` |
| `half_hours.dfy` | `HalfHours` | `time_to_half_hour_index`, `format_half_hour_time`, `is_outage_value`, `build_intervals_from_half_hours`, `parse_outage_intervals_from_times` |
| `toe_api.dfy` | `ToeApi` | `process_times` and the filing loop of `fetch_all_groups` |

Images are sequences of rows of BGR pixels. numpy slicing is modelled
explicitly: bounds are clamped, and `g + 50` on `uint8` wraps modulo 256.
The things the model cannot see are passed in as parameters:

- the recognised header text;
- the current moment `now`;
- the day-key conversion `dayKeyOf`, which stands for `strptime` and the time-zone timestamp;
- the API responses.

## Model

| member | source | states |
|---|---|---|
| `Statuses.ReadingOf` | src/recognizer.py:170-212 | every status says "power on" exactly when it marks neither half |
| `Statuses.StatusOf` | src/recognizer.py:195-212 | every consistent reading has a status code that says exactly it; inverse of `ReadingOf` |
| `Statuses.StatusOfReading` | src/recognizer.py:170-212 | `StatusOf` undoes `ReadingOf`: the seven codes and the seven consistent readings correspond one to one |
| `Statuses.Strongest` | src/recognizer.py:195-212 | the priority: a possible outage is reported exactly when some half is possible, a certain one exactly when no half is possible and some half is certain, and power on otherwise; the winning kind reports exactly its own halves, and the result is always a consistent reading |
| `CellClassifier.Slice` | src/recognizer.py:135 | numpy's `s[a:b]` for non-negative bounds: length clamped to the sequence, and element `k` is `s[a + k]` |
| `CellClassifier.Crop` | src/recognizer.py:135 | a 2-D slice of a rectangular image is rectangular, with clamped height and width, and pixel `(i, j)` is `img[top + i][left + j]` |
| `CellClassifier.IsRed` | src/recognizer.py:143-144 | the red mask on `uint8` channels, with `g + 50` and `b + 50` wrapping; characterised by `RedWithoutWrap` and `RedIsNotYellow` |
| `CellClassifier.IsYellow` | src/recognizer.py:163-164 | the yellow mask, the difference taken on `int`; disjoint from red (`RedIsNotYellow`) |
| `CellClassifier.Wrap8` | src/recognizer.py:143-144 | numpy `uint8` addition wraps modulo 256; helper of `IsRed`, and `RedWithoutWrap` shows it cannot change the red test |
| `CellClassifier.RedWithoutWrap` | src/recognizer.py:143-144 | the uint8 `g + 50` and `b + 50` wrap cannot change the red test, because `g` and `b` are below 100 |
| `CellClassifier.RedIsNotYellow` | src/recognizer.py:143-144 | no pixel is both red and yellow (green is below 100 for red and above 150 for yellow) |
| `CellClassifier.CountInRow` | src/recognizer.py:145 | a row never has more matching pixels than pixels |
| `CellClassifier.CountIn` | src/recognizer.py:145 | `np.sum(mask)` never exceeds the pixel count |
| `CellClassifier.PixelCountOfRectangle` | src/recognizer.py:137 | a rectangular image has height times width pixels |
| `CellClassifier.CountInRowBounds` | src/recognizer.py:145 | an all-matching row counts its length, and a row with no match counts zero |
| `CellClassifier.CountInBounds` | src/recognizer.py:145 | an all-matching image counts every pixel, and an image with no match counts zero |
| `CellClassifier.TestSection` | src/recognizer.py:130-168 | a section under 5x5 never shows the colour; otherwise the total is the inner (h-4)x(w-4) area, the count is the matches in it, and found holds exactly when count/total > 0.30 |
| `CellClassifier.CombineHalves` | src/recognizer.py:195-212 | the status reads as the priority of the four half tests; it is a possible-outage code exactly when a half is yellow, and a certain one exactly when no half is yellow and some half is red |
| `CellClassifier.InnerCell` | src/recognizer.py:179-180 | the cell without its 3-pixel border; `HalfSizes` gives its size (h-6)x(w-6) |
| `CellClassifier.LeftHalf` | src/recognizer.py:183-184 | the first `w_c // 2` columns of the inner cell (`HalfSizes`); a uniform colour stays uniform (`HalvesKeepUniform`) |
| `CellClassifier.RightHalf` | src/recognizer.py:183-185 | the remaining columns of the inner cell, the wider half for odd widths (`HalfSizes`, `HalvesKeepUniform`) |
| `CellClassifier.ClassifyCell` | src/recognizer.py:170-212 | a cell under 10 pixels high or wide is `yes`; otherwise the status is the priority over the red and yellow tests of the two halves of the 3-pixel-inset crop |
| `CellClassifier.CropKeepsUniform` | src/recognizer.py:135 | cropping keeps an all-matching or a no-match image so |
| `CellClassifier.UniformSectionShows` | src/recognizer.py:130-168 | a section of at least 5x5 whose pixels all match is found |
| `CellClassifier.BlankSectionHides` | src/recognizer.py:130-168 | a section with no matching pixel is never found |
| `CellClassifier.HalfSizes` | src/recognizer.py:179-185 | for a cell of at least 10x10 the crop is (h-6)x(w-6), at least 4 wide; the left half takes `w_c // 2` columns and the right half the rest, so the `w_c < 2` guard never fires |
| `CellClassifier.ShortCellIsYes` | src/recognizer.py:175-176 | a cell at most 10 pixels high is `yes`, whatever its colours |
| `CellClassifier.NarrowCellHidesFirstHalf` | src/recognizer.py:175-212 | a cell under 16 pixels wide can never report its first half: its status is `yes`, `second` or `msecond` |
| `CellClassifier.HalvesKeepUniform` | src/recognizer.py:179-185 | both halves of a uniformly coloured cell keep the uniform colour |
| `CellClassifier.RedCellIsNo` | src/recognizer.py:170-212 | a fully red cell of at least 11x16 is `no` |
| `CellClassifier.YellowCellIsMaybe` | src/recognizer.py:170-212 | a fully yellow cell of at least 11x16 is `maybe` |
| `CellClassifier.UncolouredCellIsYes` | src/recognizer.py:170-212 | a cell with neither red nor yellow pixels is `yes` |
| `Grid.InsertPermutes` | src/recognizer.py:56-57 | stable insertion adds exactly the inserted box |
| `Grid.Insert` | src/recognizer.py:56-57 | one step of the stable sort; `InsertPermutes`, `InsertSorted`, `InsertBounded` and `InsertKeepsTies` characterise it |
| `Grid.Sort` | src/recognizer.py:56-57 | Python's stable `sorted` on the key coordinate; `SortFacts` proves it a sorted, stable permutation |
| `Grid.OrderOf` | src/recognizer.py:48-53 | the `method` string decoded: y for "top-to-bottom" and "bottom-to-top", reversed for "right-to-left" and "bottom-to-top", else x ascending; helper of `SortContours` |
| `Grid.Rank` | src/recognizer.py:56-57 | the sort key `b[1][i]`, negated when `reverse`; `Sorted`, `SortFacts` and `InsertKeepsTies` are stated over it |
| `Grid.InsertSorted` | src/recognizer.py:56-57 | insertion keeps a sequence sorted by the key coordinate |
| `Grid.InsertBounded` | src/recognizer.py:56-57 | a lower bound on every key survives insertion |
| `Grid.InsertKeepsTies` | src/recognizer.py:56-57 | among equal keys, insertion keeps the input order (the sort is stable) |
| `Grid.SortFacts` | src/recognizer.py:56-57 | the sort yields a sorted permutation that keeps equal keys in input order |
| `Grid.SortContours` | src/recognizer.py:46-58 | fails exactly on no boxes; otherwise a permutation ordered by x or y, ascending or descending as the method names, stable among ties |
| `Grid.CloseRow` | src/recognizer.py:266-273 | closing a row whose boxes lie within 15 px of its first box, and which starts more than 15 px from the previous row, keeps the cut well formed |
| `Grid.Cut` | src/recognizer.py:261-276 | the row cut of a non-empty sequence has a non-empty last row, and the cut of an empty one is empty |
| `Grid.JoinLastRow` | src/recognizer.py:266-267 | a box within 15 px of the last row's anchor extends that row, and the result is still a partition |
| `Grid.OpenRow` | src/recognizer.py:268-272 | a box more than 15 px from the anchor opens a new row, and the result is still a partition |
| `Grid.CutIsPartition` | src/recognizer.py:261-276 | the rows partition the sorted boxes in order, each within 15 px of its first box and each starting more than 15 px from the previous anchor |
| `Grid.GroupRows` | src/recognizer.py:261-276 | the loop yields the row cut with each row sorted by x, and the rows hold exactly the input boxes |
| `Grid.EachByXRows` | src/recognizer.py:270-275 | row `k` of the result is row `k` of the cut, sorted by x |
| `Grid.EachByXPermutes` | src/recognizer.py:270-275 | sorting rows by x keeps the multiset of boxes |
| `Grid.RowsPermutation` | src/recognizer.py:270-275 | rows sorted one by one hold the same boxes as the cut |
| `Grid.AnchorsIncrease` | src/recognizer.py:264-273 | on y-sorted boxes each row's anchor lies more than 15 px below the previous anchor |
| `Grid.LaterRowsBelowSecondAnchor` | src/recognizer.py:264-273 | every box of the second and later rows lies at or below the second anchor |
| `Grid.MinY` | src/recognizer.py:279-280 | `min(b[1] for b in bounds)` is attained by a box and bounds every box |
| `Grid.HeaderY` | src/recognizer.py:279-288 | the header boundary is never negative; with fewer than two rows it is the top of the highest box |
| `Grid.HeaderAboveLaterRows` | src/recognizer.py:279-288 | with two or more rows the header boundary lies above every box of the second and later rows |
| `Grid.FirstBoxesNearAnchors` | src/recognizer.py:279-288 | after the x sort, the first box of row 1 lies above the second anchor, and the first box of row 2 lies within 15 px of it |
| `Grid.HeaderBelow` | src/recognizer.py:282-288 | the midpoint of the first two rows, raised by 35 px and clamped at 0, lies above that anchor |
| `Grid.RowKeepsBoxes` | src/recognizer.py:270 | sorting a row by x keeps its length and its boxes |
| `Text.DigitChar` | src/recognizer.py:337 | digit `d` is the character `'0' + d` |
| `Text.DigitValue` | src/recognizer.py:337 | reading a digit character is the inverse of `DigitChar` |
| `Text.NatToString` | src/recognizer.py:337 | `str(n)` is a non-empty digit string without a leading zero |
| `Text.NatToStringValue` | src/recognizer.py:337 | the digits of `str(n)` are worth `n` |
| `Text.NatToStringInjective` | src/recognizer.py:337 | distinct numbers have distinct `str()` |
| `Text.NatToStringLength` | src/recognizer.py:101-107 | one digit below 10, two below 100, four for years 1000-9999 |
| `Text.Pad2` | src/Test_groups.py:136 | `:02d` is all digits, at least two of them, exactly two below 100 |
| `Text.Pad2Value` | src/Test_groups.py:136 | the padded digits are worth `n` |
| `Text.IntToString` | src/toe_api_parser.py:53 | `str()` of an integer is non-empty |
| `Text.Strip` | src/Test_groups.py:125 | the `strip()` inside `int()`: the result is the slice of the input left after removing whitespace only, from both ends; it neither starts nor ends with whitespace, and an already-trimmed string is kept |
| `Text.SkipSpaces` | src/recognizer.py:87 | `\s+` / `\s*` skipping, and the leading cut of `strip()`: only whitespace is skipped, and it stops at the first other character or at the end |
| `Text.TrimEnd` | src/Test_groups.py:125 | the trailing cut of `strip()`: only whitespace is dropped, and what is left does not end in whitespace |
| `Text.Before` | src/toe_api_parser.py:114 | `split(sep)[0]` is the longest prefix without `sep`, followed in the input by `sep` when shorter |
| `Text.SplitOn` | src/Test_groups.py:125 | `str.split(sep)` yields at least one part, no part holds `sep`, and joining the parts with `sep` gives back the input |
| `Text.Join` | src/Test_groups.py:125 | `sep.join(parts)`, the inverse that `SplitOn` is proved against |
| `Text.SplitOnTwo` | src/Test_groups.py:125 | two `sep`-free parts joined by one `sep` split back into exactly those parts |
| `Text.BeforeSeparator` | src/toe_api_parser.py:126 | the head before the separator is recovered by `split(sep)[0]` |
| `Text.SplitOnTwoParts` | src/Test_groups.py:125 | a two-part split rejoins to the input |
| `PyInt.DigitsOnly` | src/Test_groups.py:125 | the `_` separators Python allows inside a numeral are dropped, leaving only digits |
| `PyInt.DigitsOnlyOfDigits` | src/Test_groups.py:125 | a plain digit string is its own digit content |
| `PyInt.NumeralOfDigits` | src/Test_groups.py:125 | a non-empty digit string is a numeral worth its digits |
| `PyInt.NatToStringNumeral` | src/Test_groups.py:125 | `str(n)` is a numeral worth `n` |
| `PyInt.ParseIntOfNumeral` | src/Test_groups.py:125 | `int()` accepts a numeral and returns its value |
| `PyInt.ParseIntOfDigits` | src/Test_groups.py:125 | `int()` of a digit string is its value, leading zeros included |
| `PyInt.ParseIntOfNegative` | src/Test_groups.py:125 | `int("-" + t)` is minus the value of the numeral `t` |
| `PyInt.ParseIntOfNatString` | src/Test_groups.py:125 | `int(str(n)) == n` for `n >= 0` |
| `PyInt.ParseIntOfNegativeString` | src/Test_groups.py:125 | `int(str(i)) == i` for `i < 0` |
| `PyInt.MinusNatString` | src/Test_groups.py:125 | `int("-" + str(n)) == -n` |
| `PyInt.ParseIntOfString` | src/Test_groups.py:125 | `int(str(i)) == i` for every integer |
| `PyInt.ParseInt` | src/Test_groups.py:125 | Python's `int()` on text, `None` where it raises `ValueError`; it reads back `str(i)` for every integer (`ParseIntOfString`), any numeral (`ParseIntOfNumeral`) and digit strings with leading zeros (`ParseIntOfDigits`) |
| `PyInt.PyStr` | src/toe_api_parser.py:53-54 | `str()` of a JSON value; it equals a short code's text exactly for that integer or that string (`PyStrIsCode`) |
| `PyInt.IntToStringInjective` | src/toe_api_parser.py:53 | distinct integers have distinct `str()` |
| `PyInt.PyStrIsCode` | src/Test_groups.py:97-99 | `str(v)` is the decimal text of `n` exactly when `v` is the integer `n` or a value printed as that text |
| `HeaderDate.FormatDate` | src/recognizer.py:95-97 | `strftime("%d.%m.%Y")`; DD.MM.YYYY for a valid moment (`FormatDateShape`) |
| `HeaderDate.FormatDateTime` | src/recognizer.py:123-126 | `strftime("%d.%m.%Y %H:%M")`; DD.MM.YYYY HH:MM for a valid moment (`FormatDateTimeShape`) |
| `HeaderDate.AsOfAt` | src/recognizer.py:115 | a "(станом на DD.MM.YYYY HH:MM)" match yields a date and a clock position |
| `HeaderDate.OnDateAt` | src/recognizer.py:87 | an "на DD.MM.YYYY" match yields a full-date position |
| `HeaderDate.SearchFrom` | src/recognizer.py:87-93 | `re.search` from position `i`: the leftmost match at or after `i`, or no match anywhere from `i` |
| `HeaderDate.Search` | src/recognizer.py:87-93 | `re.search`: the leftmost match, and `None` exactly when nothing matches |
| `HeaderDate.FindScheduleDate` | src/recognizer.py:87-93 | no date is found exactly when none of the four patterns matches |
| `HeaderDate.FindIntendedDate` | src/recognizer.py:87-93 | the intended search (a bare DD.MM.YYYY tried before the two-digit-year pattern) finds a date exactly when the program's search does |
| `HeaderDate.CleanDate` | src/recognizer.py:99-109 | the year repair; any found group becomes DD.MM.YYYY (`FoundDateIsDate`), a full date is kept (`FullDateKept`), DD.MM.YY gets 2000 plus its year (`ShortYearCompleted`), DD.MM the current year (`DayMonthCompleted`) |
| `HeaderDate.ScheduleDate` | src/recognizer.py:87-109 | the schedule date as the program computes it; always DD.MM.YYYY (`ScheduleDateIsDate`), and a bare full date loses its year (`BareFullDateReadAsShortYear`, see Findings) |
| `HeaderDate.IntendedScheduleDate` | src/recognizer.py:87-109 | the schedule date as intended (see Findings); characterised by `IntendedDateIsDate`, `IntendedAgreesWithoutFullDate` and `BareFullDateKept` |
| `HeaderDate.UpdateString` | src/recognizer.py:115-126 | the update string; always DD.MM.YYYY HH:MM (`UpdateStringIsDateTime`), decided by the leftmost "(станом на" match (`UpdateStringFromLeftmost`) |
| `HeaderDate.TwoDigits` | src/recognizer.py:101-103 | `int()` of two digits is below 100 |
| `HeaderDate.Flatten` | src/recognizer.py:82 | `replace('\n', ' ')` keeps the length, removes every newline and changes nothing else |
| `HeaderDate.DigitAt` | src/recognizer.py:87-93 | `\d` at a position; helper of the pattern predicates below |
| `HeaderDate.CharAt` | src/recognizer.py:87-93 | a literal character at a position; helper of the pattern predicates below |
| `HeaderDate.WordAt` | src/recognizer.py:87-115 | a literal word ("на", "р.", "(станом") at a position; helper of `OnDateAt`, `MatchesAt` and `AsOfAt` |
| `HeaderDate.DayMonthAt` | src/recognizer.py:93 | `\d{2}\.\d{2}` at a position; its group is DD.MM (`DayMonthGroupShape`) |
| `HeaderDate.ShortDateAt` | src/recognizer.py:91 | `\d{2}\.\d{2}\.\d{2}` at a position; its group is DD.MM.YY (`ShortGroupShape`) |
| `HeaderDate.DateAt` | src/recognizer.py:87-115 | `\d{2}\.\d{2}\.\d{4}` at a position; its group is DD.MM.YYYY (`DateGroupShape`) |
| `HeaderDate.ClockAt` | src/recognizer.py:115 | `(\d{2})[:.](\d{2})\)` at a position; with `DateAt` it makes the update string date-time shaped (`AsOfGroupsShape`) |
| `HeaderDate.MatchesAt` | src/recognizer.py:87-115 | `pattern.match` at a position, one case of the `Pattern` datatype per regex (plus the intended bare full date); `Search` returns its leftmost position, and `FoundShapes` gives each group's shape |
| `HeaderDate.Group` | src/recognizer.py:99-118 | group 1 of a match; `FoundShapes` gives its shape per pattern |
| `HeaderDate.Stamp` | src/recognizer.py:118-121 | `f"{update_date} {update_hour}:{update_minute}"` from the groups; helper of `UpdateString`, date-time shaped by `AsOfGroupsShape` |
| `HeaderDate.DatesFromHeader` | src/recognizer.py:60-128 | an empty header area gives the current date and time; otherwise the program's schedule date and update string of the flattened header text |
| `HeaderDate.IntendedDatesFromHeader` | src/recognizer.py:60-128 | the same extraction with the intended schedule date (see Findings): the same update string, and the same result wherever the text holds no bare DD.MM.YYYY |
| `HeaderDate.FormatDateShape` | src/recognizer.py:95-97 | `strftime("%d.%m.%Y")` of a valid moment is a DD.MM.YYYY date |
| `HeaderDate.DateGroupShape` | src/recognizer.py:87-89 | a full-date group is DD.MM.YYYY |
| `HeaderDate.ScheduleDateIsDate` | src/recognizer.py:87-109 | the schedule date is always DD.MM.YYYY |
| `HeaderDate.FoundDateIsDate` | src/recognizer.py:99-109 | the year repair turns any found group into DD.MM.YYYY |
| `HeaderDate.FoundShapes` | src/recognizer.py:87-93 | a found group is a full date, a two-digit-year date or a day and month |
| `HeaderDate.ShortGroupShape` | src/recognizer.py:91 | the two-digit-year group is DD.MM.YY |
| `HeaderDate.DayMonthGroupShape` | src/recognizer.py:93 | the day-month group is DD.MM |
| `HeaderDate.FullDateKept` | src/recognizer.py:108-109 | a full date is kept as found |
| `HeaderDate.ShortYearCompleted` | src/recognizer.py:101-104 | DD.MM.YY becomes a full date |
| `HeaderDate.DayMonthCompleted` | src/recognizer.py:105-107 | DD.MM gets the current year and becomes a full date |
| `HeaderDate.FormatDateTimeShape` | src/recognizer.py:123-126 | `strftime("%d.%m.%Y %H:%M")` gives DD.MM.YYYY HH:MM |
| `HeaderDate.AsOfGroupsShape` | src/recognizer.py:117-121 | the update string built from the groups is DD.MM.YYYY HH:MM |
| `HeaderDate.UpdateStringIsDateTime` | src/recognizer.py:115-126 | the update string is always DD.MM.YYYY HH:MM |
| `HeaderDate.NoFullYearPatterns` | src/recognizer.py:87-90 | without "н" and "р" in the text, neither full-year pattern can match |
| `HeaderDate.BareFullDateReadAsShortYear` | src/recognizer.py:87-104 | a bare DD.MM.YYYY at any position, with no "на", no "р." and no earlier DD.MM.YY in the text, is matched by the DD.MM.YY pattern on its first 8 characters, so its year becomes 2000 plus the first two year digits |
| `HeaderDate.BareFullDateExample` | src/recognizer.py:87-104 | "05.03.2025" is read as "05.03.2020" |
| `HeaderDate.ShortYearFound` | src/recognizer.py:91 | "05.03.25" is found as it is |
| `HeaderDate.ShortYearExample` | src/recognizer.py:101-104 | "05.03.25" becomes "05.03.2025" |
| `HeaderDate.DayMonthExample` | src/recognizer.py:105-107 | "05.03" in 2025 becomes "05.03.2025" |
| `HeaderDate.OnDateExample` | src/recognizer.py:87-109 | "на 05.03.2025" gives "05.03.2025" |
| `HeaderDate.IntendedDateIsDate` | src/recognizer.py:87-109 | the intended schedule date is always DD.MM.YYYY |
| `HeaderDate.IntendedAgreesWithoutFullDate` | src/recognizer.py:87-109 | where no DD.MM.YYYY occurs in the text, the intended date is the program's |
| `HeaderDate.BareFullDateKept` | src/recognizer.py:87-109 | the first bare DD.MM.YYYY of a text with no "на" and no "р." is kept whole by the intended search |
| `HeaderDate.IntendedBareFullDateExample` | src/recognizer.py:87-109 | read as intended, "05.03.2025" stays "05.03.2025" |
| `HeaderDate.LeftmostSearch` | src/recognizer.py:87-93 | a match with no match before it is the one `re.search` returns |
| `HeaderDate.UpdateStringFromLeftmost` | src/recognizer.py:115-121 | the leftmost "(станом на DD.MM.YYYY HH:MM)" match decides the update string: its date, a space, its hour, a colon (whatever separator the text used) and its minute |
| `ScheduleStore.QueueName` | src/recognizer.py:300-303 | each queue name is "Q.H" |
| `ScheduleStore.QueueNamesListed` | src/recognizer.py:300-303 | the names in row order are "1.1" to "6.2" |
| `ScheduleStore.QueueKeysDistinct` | src/recognizer.py:317-318 | the twelve "GPV" keys are pairwise distinct |
| `ScheduleStore.QueueKey` | src/recognizer.py:317-318 | `f"GPV{q_name_original}"`; the twelve keys are pairwise distinct (`QueueKeysDistinct`) |
| `ScheduleStore.LastN` | src/recognizer.py:298 | for `n >= 1`, `s[-n:]` is the last `min(n, len)` elements |
| `ScheduleStore.CellImage` | src/recognizer.py:330-331 | the cell image is rectangular with the clamped width |
| `ScheduleStore.CellImageIsCrop` | src/recognizer.py:330-331 | the cell image is `original[y:y+h, x:x+w]` |
| `ScheduleStore.CellStatus` | src/recognizer.py:330-334 | the status of one cell, `get_cell_color_status(original[y:y+h, x:x+w])` (`CellImageIsCrop`); `CellStatuses` puts it at the cell's position |
| `ScheduleStore.CellStatuses` | src/recognizer.py:328-334 | one status per cell, in cell order, each the classification of that cell |
| `ScheduleStore.Numbered` | src/recognizer.py:336-338 | statuses filed by position; hour `str(k)` holds the `k`-th status (`NumberedHas`) and no other key appears (`NumberedOnly`) |
| `ScheduleStore.NumberedHas` | src/recognizer.py:336-338 | hour key `str(k)` holds the status of cell `k` |
| `ScheduleStore.NumberedOnly` | src/recognizer.py:336-338 | the hour keys are exactly "1" to the number of cells |
| `ScheduleStore.StatusRows` | src/recognizer.py:313-338 | one status row per data row |
| `ScheduleStore.StatusRowsAt` | src/recognizer.py:322-334 | status row `i` classifies the last 24 cells of row `i` |
| `ScheduleStore.GroupsOf` | src/recognizer.py:313-319 | status rows filed as queues; queue `i` holds row `i` numbered (`GroupsOfHas`) and only present queues appear (`GroupsOfOnly`) |
| `ScheduleStore.GroupsOfHas` | src/recognizer.py:313-319 | queue `i` holds the numbered statuses of row `i` |
| `ScheduleStore.GroupsOfOnly` | src/recognizer.py:313-319 | only the keys of the queues present are filled |
| `ScheduleStore.FillHours` | src/recognizer.py:328-338 | the inner loop files exactly the numbered statuses of the time cells |
| `ScheduleStore.QueueGroups` | src/recognizer.py:298-338 | the groups of the data rows; `BuildGroups` computes exactly them, with the keys of `BuiltQueues` and the hours of `BuiltHours` |
| `ScheduleStore.BuildGroups` | src/recognizer.py:298-338 | the group loop builds exactly the queue groups of the last 12 rows |
| `ScheduleStore.BuiltQueues` | src/recognizer.py:298-319 | the keys are exactly the "GPV" keys of the first `min(rows, 12)` queue names |
| `ScheduleStore.BuiltHours` | src/recognizer.py:322-338 | queue `i` holds exactly hours "1" to `min(24, cells)`, hour `k` being the status of the `k`-th of the row's last 24 cells |
| `ScheduleStore.Merged` | src/recognizer.py:374-396 | after the merge every key is today or later, the new day holds the new groups when not in the past, every other current day is untouched, and no other key appears |
| `ScheduleStore.PurgeIsMerged` | src/recognizer.py:380-391 | inserting then deleting the keys below today is the merge |
| `ScheduleStore.MergeIdempotent` | src/recognizer.py:374-396 | merging the same groups twice is merging them once |
| `ScheduleStore.PastScheduleDropped` | src/recognizer.py:380-391 | a schedule dated before today is deleted straight after insertion, leaving only the current days |
| `ScheduleStore.BareFullDateScheduleLost` | src/recognizer.py:379-391 | as written (the date read by lines 87-104), a header dated "05.03.2025" files the groups under the day of "05.03.2020", which the purge deletes at once when it is before today: only the current stored days remain |
| `ScheduleStore.MergeIntoEmpty` | src/recognizer.py:374-380 | a fresh store holds just today's groups |
| `ScheduleStore.MergeDropsPastDays` | src/recognizer.py:383-391 | yesterday's and the day before's buckets are deleted |
| `ScheduleStore.Fact.Empty` | src/recognizer.py:374-377 | a missing or malformed `fact` section starts with empty data |
| `ScheduleStore.Fact.Load` | src/recognizer.py:364-372 | a loaded `fact` section holds the stored days, update string and today key |
| `ScheduleStore.Fact.Merge` | src/recognizer.py:380-396 | the data becomes the merge of the old data; update and today are overwritten |
| `ScheduleStore.TableRows` | src/recognizer.py:258-276 | the rows of the sorted boxes are non-empty and hold exactly the boxes |
| `ScheduleStore.SameHeader` | src/recognizer.py:279-280 | the header boundary does not depend on the order of the boxes |
| `ScheduleStore.Run` | src/recognizer.py:254-396 | no candidate boxes fails and leaves the store untouched; otherwise the result is the queue groups of the last 12 rows, filed into the store by the merge under the schedule date's day key, with the update string and today's key |
| `ScheduleStore.TimeZoneSlot` | src/recognizer.py:408-414 | one `preset.time_zone` entry; the slots tile the day (`TimeZoneSlotsMeet`) |
| `ScheduleStore.TimeZoneSlotsMeet` | src/recognizer.py:408-414 | each hour slot ends where the next starts, and the last ends at "24:00" |
| `HalfHours.TimeToHalfHourIndex` | src/Test_groups.py:122-130 | an accepted key is a slot below 48 |
| `HalfHours.ClockSlot` | src/Test_groups.py:126-128 | a slot is returned only for an hour 0-23 and a minute 0 or 30 |
| `HalfHours.ClockSlotIs` | src/Test_groups.py:126-128 | the slot is `i` exactly when the hour is `i // 2` and the minute is 30 for odd `i`, else 0 |
| `HalfHours.FormatHalfHourTime` | src/Test_groups.py:132-136 | `format_half_hour_time`; read back by `time_to_half_hour_index` (`FormatRoundTrip`), injective (`FormatInjective`), and "24:00" for slot 48 (`EndOfDayFormat`) |
| `HalfHours.TimeToHalfHourIndexSound` | src/Test_groups.py:122-130 | a key read as slot `i` is two integer literals around a single colon for the hour and minute of `i` |
| `HalfHours.TimeToHalfHourIndexComplete` | src/Test_groups.py:122-130 | every such key is read as slot `i` |
| `HalfHours.TimeToHalfHourIndexChar` | src/Test_groups.py:122-130 | both directions: a key is read as `i` exactly when it spells `i`'s hour and minute |
| `HalfHours.DigitsHaveNoColon` | src/Test_groups.py:136 | a padded number has no colon |
| `HalfHours.ParsePad2` | src/Test_groups.py:136 | `int()` reads a padded number back |
| `HalfHours.FormatRoundTrip` | src/Test_groups.py:122-136 | `time_to_half_hour_index(format_half_hour_time(i)) == i` for every slot |
| `HalfHours.FormatInjective` | src/Test_groups.py:132-136 | distinct slots (and the day end 48) format differently |
| `HalfHours.Pad2Prefix` | src/Test_groups.py:132-136 | the formatted time is the padded hour, a colon and the padded minute |
| `HalfHours.EndOfDayFormat` | src/Test_groups.py:132-136 | slot 48 is formatted "24:00" |
| `HalfHours.IsOutageValueChar` | src/Test_groups.py:97-99 | exactly 1, 10, "1" and "10" (and values printed so) are outages |
| `HalfHours.IsOutageValue` | src/Test_groups.py:97-99 | `str(value) in ("1", "10")`; exactly 1, 10, "1" and "10" (`IsOutageValueChar`) |
| `HalfHours.RunsFrom` | src/Test_groups.py:101-120 | the maximal outage runs from a slot on; in range, maximal and ordered (`RunsFromShape`), and covering every outage (`RunsFromCover`) |
| `HalfHours.Runs` | src/Test_groups.py:101-120 | the runs of the whole day; they decode back to the slots (`DecodeRuns`) and re-encode to themselves (`ReencodeRuns`) |
| `HalfHours.IntervalText` | src/Test_groups.py:116-117 | "start - end", each slot formatted; a run to 48 ends "- 24:00" (`EndOfDayInterval`) |
| `HalfHours.Intervals` | src/Test_groups.py:101-120 | one text per maximal run; the loop `BuildIntervalsFromHalfHours` emits exactly these |
| `HalfHours.RunEnd` | src/Test_groups.py:108-118 | a run from `i` covers only outages and stops at the first non-outage or at the end |
| `HalfHours.BuildIntervalsFromHalfHours` | src/Test_groups.py:101-120 | the loop emits exactly the interval texts of the maximal outage runs, in order |
| `HalfHours.RunsFromShape` | src/Test_groups.py:101-120 | the runs lie in range, cover only outages, cannot be extended either way, and are ordered with a gap between neighbours |
| `HalfHours.RunsFromCover` | src/Test_groups.py:101-120 | every outage slot lies in some run |
| `HalfHours.DecodeRuns` | src/Test_groups.py:101-120 | the runs describe the slots exactly: decoding them gives back the slots, with every non-outage code read as power on |
| `HalfHours.ReencodeRuns` | src/Test_groups.py:101-120 | decoding then re-encoding gives back the same runs and intervals |
| `HalfHours.RunToEndOfDay` | src/Test_groups.py:108-118 | an outage in the last slot gives a final interval ending "24:00" |
| `HalfHours.LastRunEndsDay` | src/Test_groups.py:108-118 | an outage in the last slot makes the last run end at slot 48 |
| `HalfHours.EndOfDayInterval` | src/Test_groups.py:116-117 | a run ending at 48 prints as "... - 24:00" |
| `HalfHours.Writes` | src/Test_groups.py:89-93 | one write per entry, in entry order |
| `HalfHours.SlotsAfter` | src/Test_groups.py:87-93 | the 48 slots after the writes |
| `HalfHours.LastWriter` | src/Test_groups.py:89-93 | the last entry that writes slot `i`, or none |
| `HalfHours.SlotsAfterDecided` | src/Test_groups.py:87-93 | a slot is "no" exactly when its last writer carries an outage value; every slot is "no" or "yes" |
| `HalfHours.ParseOutageIntervalsFromTimes` | src/Test_groups.py:86-95 | the result is the intervals of the slots written by the entries in order, with unknown keys skipped |
| `HalfHours.NoTimesNoIntervals` | src/Test_groups.py:86-95 | no entries give no intervals |
| `HalfHours.NoRunsFrom` | src/Test_groups.py:101-120 | a day without outages has no runs |
| `ToeApi.PairReading` | src/toe_api_parser.py:56-72 | the codes read as a consistent reading |
| `ToeApi.Get` | src/toe_api_parser.py:53-54 | `str(times.get(key, "0"))`; only the printed text of the value matters (`SameTextSameStatuses`, `IntAndStringAlike`) |
| `ToeApi.SlotKey` | src/toe_api_parser.py:50-51 | the ":00" and ":30" keys of hour `h - 1`, the two keys `ProcessTimes` reads for hour `h` |
| `ToeApi.HourStatus` | src/toe_api_parser.py:57-72 | the decision table; on the codes it gives the status that says exactly `PairReading` (`HourStatusOfCodes`), on any other value only a "10" counts (`HourStatusOfOther`), and "10" beats "1" (`PossibleBeatsCertain`) |
| `ToeApi.HourAt` | src/toe_api_parser.py:49-72 | hour `h` from its two half-hour values; `HourStatusesAt` puts it at position `h - 1` |
| `ToeApi.HourStatusOfCodes` | src/toe_api_parser.py:56-72 | for codes "0", "1" and "10" the table gives the status that says exactly the combined reading: "10" beats "1" beats "0" |
| `ToeApi.HourStatusOfOther` | src/toe_api_parser.py:56-72 | any other value in either half counts only through a "10" in a half, and otherwise gives "yes" |
| `ToeApi.PossibleBeatsCertain` | src/toe_api_parser.py:63-66 | "10" with "1" gives `mfirst` and "1" with "10" gives `msecond` |
| `ToeApi.HourStatuses` | src/toe_api_parser.py:49-74 | one status per hour |
| `ToeApi.HourStatusesAt` | src/toe_api_parser.py:49-74 | status `k` is hour `k + 1` |
| `ToeApi.HoursOf` | src/toe_api_parser.py:46-75 | the map `process_times` returns; keys exactly "1" to "24" (`HoursOfKeys`), all "yes" without times (`EmptyTimesAllYes`), built by `ProcessTimes` |
| `ToeApi.ProcessTimes` | src/toe_api_parser.py:46-75 | the loop builds exactly hours "1" to "24", each the table's status of its ":00" and ":30" values |
| `ToeApi.HoursOfKeys` | src/toe_api_parser.py:49-74 | the keys are exactly "1" to "24" |
| `ToeApi.EmptyTimesAllYes` | src/toe_api_parser.py:53-60 | with no times every hour is "yes" |
| `ToeApi.SameTextSameStatuses` | src/toe_api_parser.py:53-54 | only the `str()` of each value matters |
| `ToeApi.IntAndStringAlike` | src/toe_api_parser.py:53-54 | the integer `n` and the string "n" give the same hours |
| `ToeApi.GroupKey` | src/toe_api_parser.py:126-127 | "GPV" followed by the name up to its first "#" |
| `ToeApi.FileGroups` | src/toe_api_parser.py:124-132 | the `dataJson` entries filed over a bucket; a key is present exactly when it was or some entry names it, and the last entry naming it decides its hours (`FileGroupsLastWins`) |
| `ToeApi.LastEntry` | src/toe_api_parser.py:125-132 | the last entry with that key, or none |
| `ToeApi.DayOf` | src/toe_api_parser.py:114-119 | the member's day: none for an empty date part, else the converted date; `FileMember` files under exactly it |
| `ToeApi.FileGroupsLastWins` | src/toe_api_parser.py:125-132 | a key is filed exactly when it was there or some entry has it, and the last entry with the key decides its hours |
| `ToeApi.FileMember` | src/toe_api_parser.py:113-132 | fails exactly when the date is present and unreadable; a member without a date is skipped; otherwise only its day is added or changed, and that day's bucket becomes the member's groups filed over the old bucket, or over an empty one when the day is new |
| `ToeApi.FileMembers` | src/toe_api_parser.py:113-132 | the member loop; it never drops a day (`FileMembersKeepsDays`), the later member for a day wins (`LaterMemberWins`), and `AddMembers` computes it |
| `ToeApi.FileMembersKeepsDays` | src/toe_api_parser.py:113-132 | filing never removes a day |
| `ToeApi.LaterMemberWins` | src/toe_api_parser.py:121-132 | of two members for the same day, the later one's group hours win |
| `ToeApi.FileResponses` | src/toe_api_parser.py:84-138 | every response filed in turn; it never drops a day (`FileResponsesKeepsDays`), and `FetchAllGroups` computes it from an empty structure |
| `ToeApi.FileResponsesKeepsDays` | src/toe_api_parser.py:84-138 | filing responses never removes a day |
| `ToeApi.AddGroups` | src/toe_api_parser.py:125-132 | the loop files exactly the groups the entries give |
| `ToeApi.AddMember` | src/toe_api_parser.py:114-132 | the loop body files one member exactly as `FileMember` |
| `ToeApi.AddMembers` | src/toe_api_parser.py:113-138 | the member loop files exactly as `FileMembers`; an unreadable date ends the response |
| `ToeApi.FetchAllGroups` | src/toe_api_parser.py:78-147 | the result is the filing of every response in turn into an empty structure |

## Findings

| source | as written | input that shows it | evidently intended | confidence | as-written member | corrected member |
|---|---|---|---|---|---|---|
| src/recognizer.py:87-104 | the two-digit-year pattern (line 91) is searched before any pattern for a bare four-digit-year date, so a bare DD.MM.YYYY is matched on its first eight characters and the year repair makes its year 2000 plus the first two year digits | header text "05.03.2025", with no "на" before it and no "р." after it, gives "05.03.2020" | a full date is kept as found (lines 108-109 keep any other found group unchanged): "05.03.2025" stays "05.03.2025" | not executed | `HeaderDate.BareFullDateReadAsShortYear` | `HeaderDate.BareFullDateKept` |

`HeaderDate.ScheduleDate`, `HeaderDate.DatesFromHeader` and `ScheduleStore.Run`
keep the code as written, so a run on such a header loses its schedule
(`ScheduleStore.BareFullDateScheduleLost`). `HeaderDate.IntendedScheduleDate`
tries a bare DD.MM.YYYY after the two full-date patterns and before the
two-digit-year one; `HeaderDate.IntendedDatesFromHeader` is the extraction
built on it. It agrees with the code wherever no DD.MM.YYYY occurs
(`HeaderDate.IntendedAgreesWithoutFullDate`).

## Left out

- Image processing: OpenCV thresholding, morphology, `findContours`, the contour area filter (src/recognizer.py:245-252) and `boundingRect`. The model starts from the candidate boxes.
- OCR: pytesseract is outside the model. The recognised header text is a parameter, and an OCR failure is the empty text.
- Clocks and time zones: `datetime.now(TZ)` is the parameter `now`. One `now` serves every call in a run, whereas the source reads the clock several times.
- Day keys: `date_to_unix_timestamp`, `strptime` and the Kyiv timestamp are the parameter `dayKeyOf`. A date it rejects is `None` in the API path.
- Stored day keys: they are integers in the model. The source stores their decimal strings and compares `int(ts)`. A non-numeric key in a loaded document is not modelled.
- File I/O: JSON reading and writing, the corrupt-file reset, the `lastUpdated` and `regionId` fields, and `preset.time_type` are left out. The time zone table is `ScheduleStore.TimeZoneSlot`.
- Side effects: Telegram messages, logging, debug drawing and `send_photo` are left out, and so are main.py and downloader.py.
- Network: `fetch_json`, `build_debug_key` and the HTTP request are left out. Each response is passed in as its member list; an empty or failed response is an empty list.
- `processed_count` is left out: it only feeds a log line.
- JSON shapes: a non-string `dateGraph`, a `group_info` that is not a dict, and floats are left out. A value other than an integer or a string is known only by its printed text.
- `times` in src/Test_groups.py is a sequence of (key, value) pairs in dict order. In the API path it is a map.
- Python's regular expressions and `int()`: `\d`, `\s` and `int()` are modelled on ASCII digits and spaces only. Unicode digits and other whitespace are left out.
- `ScheduleStore.CellStatuses`: each cell is cropped from the colour image as a rectangular pixel grid. The grey and binary images are not modelled.
- `ScheduleStore.Run`: an image that fails to load, or a missing file, is outside the model.
