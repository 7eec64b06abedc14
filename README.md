# Bikeshare trip filtering and statistics

A Dafny model of the logic inside the bikeshare exploration script
`Project_bikeshare/bikeshare_2.py`. The script loads one city's trip table,
derives an hour, a month, a weekday and a "Station Combination" label for
every trip, optionally keeps only the trips of one month and/or one
weekday, and reports:

- the most common month, weekday and start hour;
- the most common start station, end station and station pair;
- the total trip duration;
- counts per user type and per gender, and the earliest, latest and most
  common birth year.

The model works on a table of trip records whose time-derived fields are
given. It covers:

- the name/number tables `MONTHS` and `DAYS` and the conversions between
  them, including Python's `list.index`, list subscripting and `str.title`;
- the answer check of `validate_input` and its re-prompting loop;
- `load_data`'s derived column and its two equality filters, with the
  errors raised by its lookups and by a missing file;
- the modes, sums, minima, maxima and group counts of the reporters.

Modules, one file each:

- `Wrappers`: `Option` and `Result`.
- `Text`: ASCII `str.lower` and `str.title`.
- `Lookups`: `CITY_DATA`, `DAYS`, `MONTHS`, the prompt option lists and the
  name/number conversions.
- `Validate`: `validate_input` and `get_filters`.
- `Trips`: the trip record, the table, the station-pair label and the
  filters.
- `Stats`: count, mode, sum, min, max and group counts.
- `Loader`: `load_data`.
- `Reports`: the four reporters.

## Model

| member | source | states |
|---|---|---|
| Lookups.IndexOf | Project_bikeshare/bikeshare_2.py:92 | `xs.index(x)` is absent exactly when `x` is not in `xs`; otherwise it is the first position holding `x` |
| Lookups.PyIndex | Project_bikeshare/bikeshare_2.py:112 | a list subscript succeeds exactly for -len..len-1; a non-negative subscript gives the element at that position, a negative one the element counted from the end |
| Lookups.MonthNumber | Project_bikeshare/bikeshare_2.py:90-93 | a month name has a number exactly when it is in `MONTHS`; the number lies in 1..6 and names that month |
| Lookups.DayNumber | Project_bikeshare/bikeshare_2.py:96-99 | a day has a number exactly when its title-cased form is in `DAYS`; the number lies in 0..6 and names that day |
| Lookups.MonthName | Project_bikeshare/bikeshare_2.py:112 | `MONTHS[n - 1]` is the n-th month for 1..6 and raises for a month after June |
| Lookups.DayName | Project_bikeshare/bikeshare_2.py:117 | `DAYS[n]` is the n-th weekday for 0..6 |
| Lookups.MonthRoundTrip | Project_bikeshare/bikeshare_2.py:92 | for every month name, naming its number gives the name back |
| Lookups.MonthNumberRoundTrip | Project_bikeshare/bikeshare_2.py:112 | every month number 1..6 has a name whose number is that month number again |
| Lookups.DayRoundTrip | Project_bikeshare/bikeshare_2.py:98 | every spelling of a weekday name, in any case, maps to that weekday's number, and the number names the weekday back |
| Lookups.DayNumberOnlyForWeekdays | Project_bikeshare/bikeshare_2.py:98 | conversely, a day gets a weekday number only when it spells that weekday's name up to case |
| Lookups.CityOptionsHaveFiles | Project_bikeshare/bikeshare_2.py:48 | the city prompt's options are exactly the cities of `CITY_DATA` |
| Lookups.MonthOptionsResolve | Project_bikeshare/bikeshare_2.py:51 | every month answer the prompt accepts is "all" or has a number in 1..6 |
| Lookups.DayOptionsResolve | Project_bikeshare/bikeshare_2.py:54 | every day answer the prompt accepts is "all" or has a number in 0..6 |
| Text.Lower | Project_bikeshare/bikeshare_2.py:26 | lower-casing keeps the length, leaves no upper-case letter and lowers each character |
| Text.Title | Project_bikeshare/bikeshare_2.py:98 | `title()` keeps the length; the title-case rule itself is Text.TitleFromAt, and Text.TitleKeepsLetters, Text.TitleIgnoresCase and Text.TitleOfCapitalized follow from it |
| Text.TitleFromAt | Project_bikeshare/bikeshare_2.py:98 | character by character: a character after a letter is lowered, any other is raised |
| Text.TitleKeepsLetters | Project_bikeshare/bikeshare_2.py:98 | `title()` changes only the case of letters: its result lowers to the lowered input |
| Text.LowerIdempotent | Project_bikeshare/bikeshare_2.py:26 | lower-casing twice is lower-casing once |
| Text.TitleIgnoresCase | Project_bikeshare/bikeshare_2.py:98 | `title()` gives the same result for a string and its lower-cased form |
| Text.TitleOfCapitalized | Project_bikeshare/bikeshare_2.py:98 | a capitalised word is title-cased back to itself from any spelling that differs only in case |
| Validate.Accepts | Project_bikeshare/bikeshare_2.py:26-27 | an answer is accepted exactly when it spells one of the options, letter by letter, ignoring case |
| Validate.FirstAccepted | Project_bikeshare/bikeshare_2.py:25-33 | the position of the first answer whose lower-cased form is an option; no earlier answer is one |
| Validate.ValidateInput | Project_bikeshare/bikeshare_2.py:13-33 | the loop returns the lower-cased first valid answer, which is an option, after reading exactly up to it; with no valid answer it reads them all and returns nothing; what it returns and leaves unread is `Prompt` of the answers |
| Validate.AcceptanceIsCaseInsensitive | Project_bikeshare/bikeshare_2.py:26-27 | an answer and its lower-cased form are accepted alike |
| Validate.Prompt | Project_bikeshare/bikeshare_2.py:25-29 | one prompt yields the lower-cased first accepted answer, which is an option, and the answers after it; nothing when no answer is accepted |
| Validate.FiltersFrom | Project_bikeshare/bikeshare_2.py:37-57 | the first accepted city, then the first accepted month after it, then the first accepted day after that; the city has a data file, and the month and day are "all" or have numbers in range |
| Validate.GetFilters | Project_bikeshare/bikeshare_2.py:37-57 | the three prompts, each reading on from where the previous one stopped, return exactly `FiltersFrom` of the answers |
| Trips.AddCombination | Project_bikeshare/bikeshare_2.py:87 | every row gets the label "start / end"; every other field and the row order stay unchanged |
| Trips.Filter | Project_bikeshare/bikeshare_2.py:93 | every row boolean indexing keeps is a row of the table and meets the condition; no row that meets it is dropped |
| Trips.Dropped | Project_bikeshare/bikeshare_2.py:93 | the rows boolean indexing leaves out are exactly those that fail the condition |
| Trips.FilterAppend | Project_bikeshare/bikeshare_2.py:93 | filtering preserves relative order: it distributes over concatenation |
| Trips.FilterLength | Project_bikeshare/bikeshare_2.py:93 | as many rows are kept as meet the condition |
| Trips.FilterKeepsAll | Project_bikeshare/bikeshare_2.py:93 | a table whose rows all meet the condition is returned unchanged |
| Trips.FilterIdempotent | Project_bikeshare/bikeshare_2.py:93 | filtering twice by one condition is filtering once |
| Trips.FilterSameCondition | Project_bikeshare/bikeshare_2.py:93 | conditions that agree on every row select the same rows |
| Trips.FilterTwice | Project_bikeshare/bikeshare_2.py:90-99 | the month filter followed by the day filter keeps exactly the rows meeting both, in order |
| Trips.FilterCommutes | Project_bikeshare/bikeshare_2.py:90-99 | applying the month and day filters in either order gives the same rows |
| Trips.FilterKeepsWellFormed | Project_bikeshare/bikeshare_2.py:82-84 | the derived hour, month and weekday of kept rows stay in range |
| Trips.DaysPartitionRows | Project_bikeshare/bikeshare_2.py:84 | the seven weekday filters together keep every well-formed row exactly once |
| Loader.LoadData | Project_bikeshare/bikeshare_2.py:60-101 | the load succeeds exactly when the city is known, its file exists, the month is "all" or in `MONTHS` and the day is "all" or a weekday; otherwise it fails with the first error the source raises, in the source's order; "all"/"all" returns every row in order with its label; one filter keeps the rows of that month or weekday; both filters keep the rows meeting both; the optional columns are kept |
| Stats.Count | Project_bikeshare/bikeshare_2.py:183 | a value's count is at most the column's length and zero exactly when the value is absent |
| Stats.MostFrequentOf | Project_bikeshare/bikeshare_2.py:137 | the chosen candidate occurs at least as often as every other candidate |
| Stats.Mode | Project_bikeshare/bikeshare_2.py:137-147 | `mode()[0]` of a non-empty string column occurs in it, and no value occurs more often |
| Stats.SmallestMostFrequentOf | Project_bikeshare/bikeshare_2.py:112 | the chosen candidate has maximal count among the candidates and is the smallest candidate with that count |
| Stats.SmallestMode | Project_bikeshare/bikeshare_2.py:112-122 | `mode()[0]` of a non-empty numeric column is a value of maximal count and the smallest such value, as pandas sorts the modes |
| Stats.ModeOfConstantColumn | Project_bikeshare/bikeshare_2.py:112 | a column holding one value has that value as its only mode |
| Stats.Sum | Project_bikeshare/bikeshare_2.py:163 | the sum of non-negative entries is non-negative; Stats.SumAppend gives its value over concatenations |
| Stats.SumAppend | Project_bikeshare/bikeshare_2.py:163 | the sum of a concatenation is the sum of the sums |
| Stats.Min | Project_bikeshare/bikeshare_2.py:199 | the minimum occurs in the column and is at most every entry |
| Stats.Max | Project_bikeshare/bikeshare_2.py:200 | the maximum occurs in the column and is at least every entry |
| Stats.MinModeMax | Project_bikeshare/bikeshare_2.py:199-201 | min <= smallest mode <= max |
| Stats.GroupCounts | Project_bikeshare/bikeshare_2.py:183 | the groups are exactly the values in the column, each with its count, which is at least one |
| Stats.GroupCountsAddUp | Project_bikeshare/bikeshare_2.py:183 | over the groups, the counts sum to the number of rows |
| Reports.TimeStats | Project_bikeshare/bikeshare_2.py:104-126 | the month, weekday and hour are the smallest modes of their columns; no report exactly when `MONTHS[month - 1]` or `DAYS[day]` raises for that month or weekday; otherwise both are named by `MONTHS` and `DAYS` |
| Reports.TimeStatsInRange | Project_bikeshare/bikeshare_2.py:110-123 | on well-formed rows the report is made exactly when the smallest most common month is at most 6; its weekday is then a name in `DAYS` and its hour lies in 0..23 |
| Reports.TimeStatsOnTiedMonths | Project_bikeshare/bikeshare_2.py:112 | on well-formed rows, whatever their order, the report is made exactly when some most common month is at most 6 |
| Reports.TimeStatsAfterMonthFilter | Project_bikeshare/bikeshare_2.py:90-112 | after filtering well-formed rows by a month name the report is made, and the month it names is that month |
| Reports.TimeStatsAfterDayFilter | Project_bikeshare/bikeshare_2.py:96-117 | after filtering by a weekday the weekday reported is that weekday as `DAYS` spells it |
| Reports.StationStats | Project_bikeshare/bikeshare_2.py:129-152 | the start station, end station and pair reported are modes of their columns |
| Reports.StationPairIsATrip | Project_bikeshare/bikeshare_2.py:87-147 | on a loaded table the most common pair is the "start / end" label of one of its trips |
| Reports.TotalDuration | Project_bikeshare/bikeshare_2.py:163 | the total of non-negative durations is non-negative |
| Reports.TotalDurationAppend | Project_bikeshare/bikeshare_2.py:163 | the total is additive over concatenation |
| Reports.TotalDurationSplits | Project_bikeshare/bikeshare_2.py:90-99 | the total of what a filter keeps plus the total of what it drops is the table's total |
| Reports.BirthYearStats | Project_bikeshare/bikeshare_2.py:197-202 | the earliest and latest years occur in the column and bound every entry; the common year is the smallest mode, between them |
| Reports.UserStats | Project_bikeshare/bikeshare_2.py:175-209 | the user-type groups are the types in the column, each with its row count; gender counts exist exactly when the column does; birth-year stats exist exactly when that column does: the earliest and latest years occur in the column and bound it, and the common year is the smallest mode between them |
| Reports.UserTypeCountsAddUp | Project_bikeshare/bikeshare_2.py:183 | the user-type counts sum to the number of rows |

## Left out

- Reading the CSV (`read_csv`) is not modelled, and neither are the errors it raises on a malformed file, a missing column, or a timestamp `to_datetime` cannot parse. Each file's contents are a parameter of `LoadData`, a map from path to table; a path missing from it is the missing-file error.
- Timestamp parsing and the `.dt.hour`, `.dt.month` and `.dt.dayofweek` extraction are not modelled. The derived fields are given record fields; `WellFormed` states their ranges.
- `sort_index` is left out: none of the outputs depend on the index order.
- The mean trip duration is left out: it is a floating-point result. `Trip Duration` is modelled as a whole number of seconds, so the sum is exact.
- `input()`, `print`, `time.time()` and the restart loop in `main` are left out. The user's answers are a sequence given to `ValidateInput`; an exhausted sequence stands for end of input.
- Text.Lower: only ASCII letters are case-mapped. Python also maps non-ASCII letters, some of them onto ASCII ones: the Kelvin sign U+212A lowers to `k`, so Python accepts "new yor\u212a city" as a city while `Validate.Accepts` rejects it. Every option and name in the script is ASCII.
- Text.Title: only ASCII letters are case-mapped or count as cased, for the same reason.
- Stats.Mode: for the station columns, states only that the value has maximal count. pandas sorts tied station names and prints the first; string order is not modelled. The numeric columns use `Stats.SmallestMode`, which does state the tie-break. Both require a non-empty column, because `mode()[0]` raises on an empty one.
- Reports.TimeStats: a missing report stands for the `IndexError` that ends the script. The model does not sequence the reporters, so it does not capture that the weekday and hour lines, the later reporters and the restart prompt never run after it.
- Reports.UserStats: requires rows when the table has a `Birth Year` column, because `mode()[0]` raises on an empty column.
- Missing values (NaN) in the `Gender`, `Birth Year` and `User Type` columns are not modelled. pandas skips them in `count`, `min`, `max` and `mode`. A column is either present with a value in every row, or absent.
- The order in which pandas prints group counts (sorted by key) is not modelled: the counts are a map.
