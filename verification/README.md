# US bikeshare explorer, modelled in Dafny

The program is an interactive tool. It loads the trip records of one of three
cities (Chicago, New York City, Washington). It can filter them by month
(January to June) and by day of the week. It then prints four groups of
figures:

- the most common travel times;
- the most popular stations and start-to-end trip;
- the total and mean trip duration;
- user statistics: the counts of user types and genders, and the earliest,
  most recent and most common birth year.

Finally it pages through the raw rows five at a time.

This project models the program's logic on values:

- `wrappers.dfy` (`Wrappers`): `Option` and `Result`.
- `text.dfy` (`Text`): `str.lower()` and `str.title()` on ASCII letters.
- `selection.dfy` (`Selection`):
  - the answers each prompt accepts;
  - the month-name-to-number lookup;
  - the re-prompt loop, as a method over a given sequence of typed answers.
- `trips.dfy` (`Trips`):
  - a trip row and a city table with its optional Gender and Birth Year columns;
  - the boolean-mask filter (`Where`) and the filter stage of `load_data`.
- `tally.dfy` (`Tally`): `value_counts()`, the most frequent value, `min()`, `max()` and the skipping of missing cells.
- `stats.dfy` (`Stats`): the four reporters, each a function from the filtered table to the figures it prints.
- `paging.dfy` (`Paging`): the `display_data` loop, as a method over a given sequence of answers.

Missing cells (NaN) in the User Type, Gender and Birth Year columns are
`None` in the row; the other columns are taken to be complete. Where the
program raises, the model returns `None` or `Failure`:

- `mode()[0]` or `idxmax()` on an empty table;
- `int()` of the NaN that `min()` gives when no birth year is present;
- `list.index` of a name that is not in the list.

## Model

| member | source | states |
|---|---|---|
| `Text.Lower` | bikeshare.py:12 | lower-casing keeps the length, turns each upper-case letter into its lower-case letter and leaves every other character as it is |
| `Text.LowerIgnoresCase` | bikeshare.py:12 | two strings that differ only in the case of their letters lower-case to the same string |
| `Text.LowerOfNoUpper` | bikeshare.py:12 | a string with no upper-case letter is its own lower-case form |
| `Text.LowerIdempotent` | bikeshare.py:12 | lower-casing twice equals lower-casing once |
| `Text.Title` | bikeshare.py:70 | `str.title()` keeps the length and leaves every non-letter as it is; each letter of the result is the input's letter, in upper or lower case |
| `Text.TitleSameUpToCase` | bikeshare.py:70 | title-casing changes at most the case of each letter: the result agrees with the input up to letter case |
| `Text.TitleCasing` | bikeshare.py:70 | in `title()`'s result, every letter that starts a word is upper case and every other letter is lower case; non-letters are unchanged in kind |
| `Text.TitleOfLowerWord` | bikeshare.py:70 | a lower-case word title-cases to itself with its first letter upper-cased |
| `Selection.CitiesAreTheDataKeys` | bikeshare.py:5-13 | the accepted cities are exactly the three keys of the data-file table |
| `Selection.IndexOf` | bikeshare.py:67 | `list.index`: the first position of the value, and None (ValueError) exactly when the value is absent |
| `Selection.MonthNumber` | bikeshare.py:66-67 | a month name maps to a number in 1..6, and the list holds that name at the number's position |
| `Selection.AcceptedMonthsHaveNumbers` | bikeshare.py:66-67 | every accepted month other than "all" has a number in 1..6, and two months get the same number only if they are the same month |
| `Selection.AcceptedDaysMatchWeekdays` | bikeshare.py:69-70 | each accepted day other than "all" title-cases to the calendar weekday name, Monday to Sunday in order, so the day mask can match rows |
| `Selection.AcceptanceIgnoresCase` | bikeshare.py:20-21 | two answers that differ only in letter case are accepted alike |
| `Selection.FirstAccepted` | bikeshare.py:11-14 | the position of the first answer whose lower-cased form is accepted, every earlier one rejected; None exactly when every answer is rejected |
| `Selection.Prompt` | bikeshare.py:9-15 | the re-prompt loop returns the lower-cased first accepted answer and has read exactly the answers up to it; every earlier answer was rejected; it returns None only when every answer was rejected |
| `Selection.Selected` | bikeshare.py:43-45 | the city, month and day chosen from one answer stream, each prompt reading on after the previous prompt's accepted answer, are a data-file key, an accepted month and an accepted day |
| `Selection.SelectedAfterCity` | bikeshare.py:44-45 | once a city is chosen, the month and day prompts keep that city and yield an accepted month and day |
| `Selection.SelectedAfterMonth` | bikeshare.py:45 | once city and month are chosen, the day prompt keeps both and yields an accepted day |
| `Selection.GetMonthAndDay` | bikeshare.py:44-45 | the month prompt and then the day prompt, reading on after the accepted month, make exactly the selection of the answers left after the city |
| `Selection.GetDay` | bikeshare.py:45 | the day prompt makes exactly the day selection of the answers left after the month |
| `Selection.GetFilters` | bikeshare.py:33-47 | the three prompts in turn return exactly the selection made from the successive answer segments (None exactly when a prompt runs out of answers), and it is a valid selection |
| `Trips.Where` | bikeshare.py:68 | a boolean mask keeps exactly the rows that pass and never grows the table |
| `Trips.WhereCounts` | bikeshare.py:68 | a row that passes occurs in the result as often as in the input, and a row that fails does not occur |
| `Trips.KeptPositionsExact` | bikeshare.py:68 | the index labels left after masking are positions of the input, and a position is kept exactly when its row passes |
| `Trips.WhereKeepsOrder` | bikeshare.py:68 | the kept rows sit in the input at those positions, which strictly increase |
| `Trips.WhereIsSubsequence` | bikeshare.py:68 | the masked table is a subsequence of the input |
| `Trips.WhereTwice` | bikeshare.py:68-70 | masking twice equals masking once with both conditions |
| `Trips.WhereAll` | bikeshare.py:65-70 | a mask that keeps every row leaves the table unchanged |
| `Trips.ByMonth` | bikeshare.py:65-68 | the month mask keeps exactly the rows of the selected month's number; with "all" it keeps every row |
| `Trips.ByDay` | bikeshare.py:69-70 | the day mask keeps exactly the rows whose weekday equals the title-cased day; with "all" it keeps every row |
| `Trips.FilterFrame` | bikeshare.py:65-70 | the filter stage keeps exactly the rows that match both selections, and the optional columns stay as they were |
| `Trips.FilterIsOneMask` | bikeshare.py:65-70 | the month mask followed by the day mask equals one mask on the conjunction |
| `Trips.FilterCounts` | bikeshare.py:65-70 | filtering never duplicates a row and drops every row that does not match |
| `Trips.FilterIsSubsequence` | bikeshare.py:65-70 | the filtered table keeps the original row order |
| `Trips.FilterAllIsIdentity` | bikeshare.py:65-70 | selecting "all" for both month and day returns the loaded table unchanged |
| `Tally.Present` | bikeshare.py:145 | the non-missing cells of a column: each value occurs as often as cells holding it, and the length is the number of non-missing cells |
| `Tally.Bump` | bikeshare.py:145 | one more occurrence raises that value's count by one and the total by one, and keeps the keys distinct |
| `Tally.ValueCounts` | bikeshare.py:145 | `value_counts()`: distinct values with positive counts, each count equal to the value's number of occurrences, counts adding up to the column length |
| `Tally.ArgMax` | bikeshare.py:105 | `idxmax()`: an entry whose count no other entry exceeds |
| `Tally.MostCommon` | bikeshare.py:83 | `mode()[0]`: None on an empty column; otherwise a value of the column that no other value outnumbers |
| `Tally.StrictModeIsReported` | bikeshare.py:83 | a value that occurs more often than every other is the one reported, whatever the tie-break rule |
| `Tally.Min` | bikeshare.py:157 | `min()`: a value of the column no larger than any other |
| `Tally.Max` | bikeshare.py:158 | `max()`: a value of the column no smaller than any other |
| `Stats.TimeStats` | bikeshare.py:83-91 | the reported month, weekday and hour are each a most frequent value of their column; it fails exactly on an empty table |
| `Stats.StationStats` | bikeshare.py:105-113 | the reported start station, end station and " to " pair are most frequent values, and the pair joins the two stations of one and the same row; it fails exactly on an empty table |
| `Stats.PairKey` | bikeshare.py:113 | the key is the start station, then " to ", then the end station of the same row |
| `Stats.PairKeyCanCollide` | bikeshare.py:113 | two different station pairs can share one " to " key |
| `Stats.TotalDuration` | bikeshare.py:127 | `sum()` of the durations: 0 on an empty table; with non-negative durations it is non-negative and no smaller than any single duration |
| `Stats.TotalSplitsByMask` | bikeshare.py:127 | the total duration of the rows a mask keeps plus that of the rows it drops equals the table's total |
| `Stats.TotalAppendOne` | bikeshare.py:127 | one more row adds its duration to the total |
| `Stats.TripDurationStats` | bikeshare.py:127-131 | the total is the sum of the durations; the mean is undefined exactly on an empty table and otherwise times the row count gives the total |
| `Stats.UserStats` | bikeshare.py:145-164 | the user-type counts are the counts of the non-missing user types; gender counts are present exactly when the Gender column is, and are the counts of the non-missing genders; birth-year figures are present exactly when the Birth Year column is; it fails exactly when that column has no value |
| `Stats.BirthYearFigures` | bikeshare.py:157-159 | when the Birth Year column exists and has a value, the report succeeds with birth-year figures; the earliest and most recent birth years are the least and greatest years present, the most common is a most frequent year, and earliest <= most common <= most recent |
| `Stats.CountsAddUp` | bikeshare.py:145-151 | the user-type and gender tables give, for each value, the number of rows holding it, and their counts add up to the number of non-missing cells |
| `Paging.Page` | bikeshare.py:175 | `iloc[5k:5k+5]`: five rows, or the rest of the table when fewer remain, each the row at 5k plus its place on the page |
| `Paging.DisplayData` | bikeshare.py:169-179 | page k is rows [5k, min(5k+5, n)), and every page follows a "yes" answer; the loop stops at the first other answer, or after the page that reaches row n, with the end notice; at most max(1, ceil(n/5)) pages are shown |
| `Paging.PagesCoverPrefix` | bikeshare.py:175-177 | read one after another, the pages shown are the table's first rows in order, with no gap or repeat; once the end is reached they are the whole table |

## Left out

- Reading the CSV file (`pd.read_csv`) and the `CITY_DATA` file lookup are not modelled. They are file I/O and CSV decoding. A table is a given value.
- Parsing the start time and deriving month, weekday name and hour (`pd.to_datetime`, `.dt.month`, `.dt.day_name()`, `.dt.hour`) is not modelled. This calendar logic lives inside the data library. The three fields are given in each row, and the in-place column additions of `load_data` and `time_stats` are not modelled either.
- The prompts, `print` and all console formatting are not modelled. The restart loop of `main` and the order in which `main` calls the reporters are not modelled either. Typed answers are a given sequence. When that sequence runs out, the model stops; the program would wait for more input.
- The Start Station, End Station, Trip Duration, month, weekday and hour columns are assumed complete. pandas would skip missing cells in them when it counts, sums and averages; the model has no missing case there.
- `Stats.UserStats`: when Birth Year has no value, the whole report is a `Failure`. The program prints the user-type and gender counts before `int()` raises on the missing birth year, and the model drops them.
- Timing output (`time.time()`) is not modelled. It is a clock reading.
- `Stats.TripDurationStats`: the mean is an exact rational, not a floating-point number. Durations are integers.
- `Tally.MostCommon`: pandas picks among tied values in a fixed order, and `mode()` and `value_counts().idxmax()` use different orders. The model states only that no other value outnumbers the one reported.
- `Tally.ValueCounts`: pandas orders entries by count, highest first. The model keeps first-occurrence order and states only the contents of the table.
- `Text.Lower`: `str.lower()` and `str.title()` are modelled on ASCII letters only. Other Unicode case mappings are left out.
- Birth years are whole numbers in the model. The program applies `int()` to the float results of `min()`, `max()` and `mode()[0]` on the Birth Year column; the model takes those results as whole numbers directly.
- `Trips.FilterFrame`: a month outside the list makes `list.index` raise ValueError. The filter therefore requires an accepted month, which `get_month` guarantees.
