/** The four reporters `time_stats`, `station_stats`, `trip_duration_stats`
    and `user_stats`, as the values they print. Printing, timing and the
    mean trip duration are not modelled. */
module Reports {
  import opened Wrappers
  import opened Lookups
  import opened Trips
  import opened Stats

  // The columns the reporters read, in row order.

  function MonthColumn(rows: seq<Trip>): (col: seq<int>)
    ensures |col| == |rows| && forall i :: 0 <= i < |rows| ==> col[i] == rows[i].month
  {
    seq(|rows|, i requires 0 <= i < |rows| => rows[i].month)
  }

  function DayColumn(rows: seq<Trip>): (col: seq<int>)
    ensures |col| == |rows| && forall i :: 0 <= i < |rows| ==> col[i] == rows[i].dayOfWeek
  {
    seq(|rows|, i requires 0 <= i < |rows| => rows[i].dayOfWeek)
  }

  function HourColumn(rows: seq<Trip>): (col: seq<int>)
    ensures |col| == |rows| && forall i :: 0 <= i < |rows| ==> col[i] == rows[i].hour
  {
    seq(|rows|, i requires 0 <= i < |rows| => rows[i].hour)
  }

  function StartColumn(rows: seq<Trip>): (col: seq<string>)
    ensures |col| == |rows| && forall i :: 0 <= i < |rows| ==> col[i] == rows[i].startStation
  {
    seq(|rows|, i requires 0 <= i < |rows| => rows[i].startStation)
  }

  function EndColumn(rows: seq<Trip>): (col: seq<string>)
    ensures |col| == |rows| && forall i :: 0 <= i < |rows| ==> col[i] == rows[i].endStation
  {
    seq(|rows|, i requires 0 <= i < |rows| => rows[i].endStation)
  }

  function CombinationColumn(rows: seq<Trip>): (col: seq<string>)
    ensures |col| == |rows| && forall i :: 0 <= i < |rows| ==> col[i] == rows[i].combination
  {
    seq(|rows|, i requires 0 <= i < |rows| => rows[i].combination)
  }

  function DurationColumn(rows: seq<Trip>): (col: seq<int>)
    ensures |col| == |rows| && forall i :: 0 <= i < |rows| ==> col[i] == rows[i].duration
  {
    seq(|rows|, i requires 0 <= i < |rows| => rows[i].duration)
  }

  function UserTypeColumn(rows: seq<Trip>): (col: seq<string>)
    ensures |col| == |rows| && forall i :: 0 <= i < |rows| ==> col[i] == rows[i].userType
  {
    seq(|rows|, i requires 0 <= i < |rows| => rows[i].userType)
  }

  function GenderColumn(rows: seq<Trip>): (col: seq<string>)
    ensures |col| == |rows| && forall i :: 0 <= i < |rows| ==> col[i] == rows[i].gender
  {
    seq(|rows|, i requires 0 <= i < |rows| => rows[i].gender)
  }

  function BirthYearColumn(rows: seq<Trip>): (col: seq<int>)
    ensures |col| == |rows| && forall i :: 0 <= i < |rows| ==> col[i] == rows[i].birthYear
  {
    seq(|rows|, i requires 0 <= i < |rows| => rows[i].birthYear)
  }

  /** What `time_stats` prints: the most common month, weekday and start
      hour, with the month and weekday named. */
  datatype TimeReport = TimeReport(
    month: int, monthName: string,
    day: int, dayName: string,
    hour: int)

  /** `None` where `MONTHS[month - 1]` raises `IndexError` (the most common
      month is after June), or `DAYS[day]` does: the script stops there and
      prints no weekday or hour. */
  function TimeStats(rows: seq<Trip>): (r: Option<TimeReport>)
    requires |rows| > 0
    ensures r.None? <==>
      MonthName(SmallestMode(MonthColumn(rows))).None? || DayName(SmallestMode(DayColumn(rows))).None?
    ensures r.Some? ==>
      && r.value.month == SmallestMode(MonthColumn(rows))
      && MonthName(r.value.month) == Some(r.value.monthName)
      && r.value.day == SmallestMode(DayColumn(rows))
      && DayName(r.value.day) == Some(r.value.dayName)
      && r.value.hour == SmallestMode(HourColumn(rows))
  {
    var month := SmallestMode(MonthColumn(rows));
    var day := SmallestMode(DayColumn(rows));
    match (MonthName(month), DayName(day))
    case (Some(monthName), Some(dayName)) =>
      Some(TimeReport(month, monthName, day, dayName, SmallestMode(HourColumn(rows))))
    case _ => None
  }

  /** On well-formed rows the weekday always has a name, so the report is
      made exactly when the most common month is one of the six months
      `MONTHS` lists; its hour then lies in 0..23. */
  lemma TimeStatsInRange(rows: seq<Trip>)
    requires |rows| > 0 && forall i :: 0 <= i < |rows| ==> WellFormed(rows[i])
    ensures TimeStats(rows).Some? <==> SmallestMode(MonthColumn(rows)) <= 6
    ensures TimeStats(rows).Some? ==>
      var r := TimeStats(rows).value;
      && 0 <= r.hour < 24 && 1 <= r.month <= 6 && r.dayName in DAYS
  {
    var month := SmallestMode(MonthColumn(rows));
    var day := SmallestMode(DayColumn(rows));
    var hour := SmallestMode(HourColumn(rows));
    var i :| 0 <= i < |rows| && MonthColumn(rows)[i] == month;
    var j :| 0 <= j < |rows| && DayColumn(rows)[j] == day;
    var k :| 0 <= k < |rows| && HourColumn(rows)[k] == hour;
  }

  /** Whatever the row order, the report is made exactly when some most
      common month is one of the six months `MONTHS` lists: among tied
      months, the earliest is named. */
  lemma TimeStatsOnTiedMonths(rows: seq<Trip>)
    requires |rows| > 0 && forall i :: 0 <= i < |rows| ==> WellFormed(rows[i])
    ensures TimeStats(rows).Some? <==>
      exists i :: 0 <= i < |rows| && rows[i].month <= 6 && IsMode(MonthColumn(rows), rows[i].month)
  {
    TimeStatsInRange(rows);
    var month := SmallestMode(MonthColumn(rows));
    var i :| 0 <= i < |rows| && MonthColumn(rows)[i] == month;
    if TimeStats(rows).Some? {
      assert rows[i].month == month;
    }
  }

  /** After filtering by a month name, the report is made and the most
      common month printed is that same name: the round trip
      MONTHS.index / MONTHS[... - 1]. */
  lemma TimeStatsAfterMonthFilter(rows: seq<Trip>, month: string)
    requires month in MONTHS
    requires forall i :: 0 <= i < |rows| ==> WellFormed(rows[i])
    requires |Filter(rows, MonthIs(MonthNumber(month).value))| > 0
    ensures TimeStats(Filter(rows, MonthIs(MonthNumber(month).value))).Some?
    ensures TimeStats(Filter(rows, MonthIs(MonthNumber(month).value))).value.monthName == month
  {
    var kept := Filter(rows, MonthIs(MonthNumber(month).value));
    assert forall i :: 0 <= i < |kept| ==> kept[i] in kept;
    FilterKeepsWellFormed(rows, MonthIs(MonthNumber(month).value));
    ModeOfConstantColumn(MonthColumn(kept), MonthNumber(month).value);
    MonthRoundTrip(month);
    TimeStatsInRange(kept);
  }

  /** After filtering by a weekday, a report that is made prints that
      weekday's name as `DAYS` spells it. */
  lemma TimeStatsAfterDayFilter(rows: seq<Trip>, day: string)
    requires DayNumber(day).Some?
    requires |Filter(rows, DayIs(DayNumber(day).value))| > 0
    ensures TimeStats(Filter(rows, DayIs(DayNumber(day).value))).Some? ==>
      TimeStats(Filter(rows, DayIs(DayNumber(day).value))).value.dayName == Text.Title(day)
  {
    var kept := Filter(rows, DayIs(DayNumber(day).value));
    assert forall i :: 0 <= i < |kept| ==> kept[i] in kept;
    ModeOfConstantColumn(DayColumn(kept), DayNumber(day).value);
  }

  /** What `station_stats` prints: the most common start station, end
      station and start/end pair. */
  datatype StationReport = StationReport(start: string, end: string, combination: string)

  function StationStats(rows: seq<Trip>): (r: StationReport)
    requires |rows| > 0
    ensures IsMode(StartColumn(rows), r.start)
    ensures IsMode(EndColumn(rows), r.end)
    ensures IsMode(CombinationColumn(rows), r.combination)
  {
    StationReport(Mode(StartColumn(rows)), Mode(EndColumn(rows)), Mode(CombinationColumn(rows)))
  }

  /** On a loaded table, the most common pair is the label
      "start / end" of one of its trips. */
  lemma StationPairIsATrip(raw: seq<Trip>, c: Criterion)
    requires |Filter(AddCombination(raw), c)| > 0
    ensures exists t :: t in raw && StationStats(Filter(AddCombination(raw), c)).combination == PairLabel(t)
  {
    var rows := Filter(AddCombination(raw), c);
    var r := StationStats(rows);
    var i :| 0 <= i < |rows| && CombinationColumn(rows)[i] == r.combination;
    assert rows[i] in AddCombination(raw);
    var j :| 0 <= j < |raw| && AddCombination(raw)[j] == rows[i];
    assert raw[j] in raw;
  }

  /** What `trip_duration_stats` prints first: the total duration. */
  function TotalDuration(rows: seq<Trip>): (total: int)
    ensures (forall i :: 0 <= i < |rows| ==> rows[i].duration >= 0) ==> total >= 0
  {
    Sum(DurationColumn(rows))
  }

  /** Total duration is additive: the total of two runs of rows is the sum
      of their totals. */
  lemma TotalDurationAppend(a: seq<Trip>, b: seq<Trip>)
    ensures TotalDuration(a + b) == TotalDuration(a) + TotalDuration(b)
  {
    assert DurationColumn(a + b) == DurationColumn(a) + DurationColumn(b);
    SumAppend(DurationColumn(a), DurationColumn(b));
  }

  /** The total of one trip is its duration. */
  lemma TotalDurationSingle(t: Trip)
    ensures TotalDuration([t]) == t.duration
  {
    assert DurationColumn([t]) == [t.duration];
    assert [t.duration][1..] == [];
    assert Sum([t.duration]) == t.duration + Sum([]);
  }

  /** Filtering splits the total: what one condition keeps and what it
      drops add up to the total of the table. */
  lemma {:induction false} TotalDurationSplits(rows: seq<Trip>, c: Criterion)
    ensures TotalDuration(Filter(rows, c)) + TotalDuration(Dropped(rows, c)) == TotalDuration(rows)
  {
    if rows == [] {
      assert DurationColumn([]) == [];
    } else {
      TotalDurationSplits(rows[1..], c);
      TotalDurationSingle(rows[0]);
      TotalDurationAppend([rows[0]], rows[1..]);
      assert [rows[0]] + rows[1..] == rows;
      if Matches(rows[0], c) {
        TotalDurationAppend([rows[0]], Filter(rows[1..], c));
      } else {
        TotalDurationAppend([rows[0]], Dropped(rows[1..], c));
      }
    }
  }

  /** What `user_stats` prints: the count per user type, the count per
      gender when the table has a `Gender` column, and the earliest,
      latest and most common birth year when it has a `Birth Year`
      column; `None` stands for the fallback message. */
  datatype BirthYearReport = BirthYearReport(earliest: int, latest: int, common: int)

  datatype UserReport = UserReport(
    userTypes: map<string, nat>,
    genders: Option<map<string, nat>>,
    birthYears: Option<BirthYearReport>)

  /** The earliest, latest and most common of a non-empty column of
      birth years. */
  function BirthYearStats(years: seq<int>): (b: BirthYearReport)
    requires |years| > 0
    ensures b.earliest <= b.common <= b.latest && IsMode(years, b.common)
    ensures forall y :: IsMode(years, y) ==> b.common <= y
    ensures b.earliest in years && b.latest in years
    ensures forall i :: 0 <= i < |years| ==> b.earliest <= years[i] <= b.latest
  {
    MinModeMax(years);
    BirthYearReport(Min(years), Max(years), SmallestMode(years))
  }

  /** `mode()[0]` of the birth-year column raises on an empty table, so a
      table with that column must have rows. */
  function UserStats(table: Table): (r: UserReport)
    requires table.hasBirthYear ==> |table.rows| > 0
    ensures forall u :: u in r.userTypes <==> u in UserTypeColumn(table.rows)
    ensures forall u :: u in r.userTypes ==> r.userTypes[u] == Count(UserTypeColumn(table.rows), u)
    ensures r.genders.Some? <==> table.hasGender
    ensures r.genders.Some? ==>
      forall g :: g in r.genders.value <==> g in GenderColumn(table.rows)
    ensures r.genders.Some? ==>
      forall g :: g in r.genders.value ==> r.genders.value[g] == Count(GenderColumn(table.rows), g)
    ensures r.birthYears.Some? <==> table.hasBirthYear
    ensures r.birthYears.Some? ==>
      var b := r.birthYears.value;
      && b.earliest <= b.common <= b.latest
      && IsMode(BirthYearColumn(table.rows), b.common)
      && (forall y :: IsMode(BirthYearColumn(table.rows), y) ==> b.common <= y)
      && (forall i :: 0 <= i < |table.rows| ==> b.earliest <= table.rows[i].birthYear <= b.latest)
      && b.earliest in BirthYearColumn(table.rows) && b.latest in BirthYearColumn(table.rows)
  {
    var rows := table.rows;
    UserReport(
      GroupCounts(UserTypeColumn(rows)),
      if table.hasGender then Some(GroupCounts(GenderColumn(rows))) else None,
      if table.hasBirthYear then Some(BirthYearStats(BirthYearColumn(rows))) else None)
  }

  /** Each user-type count is the number of rows of that type, and the
      counts add up to the number of rows. */
  lemma UserTypeCountsAddUp(table: Table, types: seq<string>)
    requires table.hasBirthYear ==> |table.rows| > 0
    requires forall u :: u in types <==> u in UserStats(table).userTypes
    requires forall i, j :: 0 <= i < j < |types| ==> types[i] != types[j]
    ensures SumAt(UserStats(table).userTypes, types) == |table.rows|
  {
    var col := UserTypeColumn(table.rows);
    assert UserStats(table).userTypes == GroupCounts(col);
    GroupCountsAddUp(col, types);
  }
}
