/** The script's static tables (`CITY_DATA`, `DAYS`, `MONTHS`), the option
    lists its prompts accept, and the name/number conversions `load_data`
    and `time_stats` perform with them. */
module Lookups {
  import opened Wrappers
  import opened Text

  /** City name to CSV file name. */
  const CITY_DATA: map<string, string> :=
    map["chicago" := "chicago.csv",
        "new york city" := "new_york_city.csv",
        "washington" := "washington.csv"]

  /** Weekday names; the position is pandas' `dayofweek` (Monday = 0). */
  const DAYS: seq<string> :=
    ["Monday", "Tuesday", "Wednesday", "Thursday", "Friday", "Saturday", "Sunday"]

  /** Month names; the position plus one is the calendar month. */
  const MONTHS: seq<string> := ["january", "february", "march", "april", "may", "june"]

  /** The options offered by the city, month and day prompts. */
  const CITY_OPTIONS: seq<string> := ["chicago", "new york city", "washington"]
  const MONTH_OPTIONS: seq<string> := ["january", "february", "march", "april", "may", "june", "all"]
  const DAY_OPTIONS: seq<string> :=
    ["monday", "tuesday", "wednesday", "thursday", "friday", "saturday", "sunday", "all"]

  /** The value that switches a filter off. */
  const ALL: string := "all"

  /** Python's `xs.index(x)`: the first position of `x`, or `None` where
      Python raises `ValueError`. */
  function IndexOf<T(==)>(xs: seq<T>, x: T): (r: Option<nat>)
    ensures r.None? <==> x !in xs
    ensures r.Some? ==> r.value < |xs| && xs[r.value] == x && x !in xs[..r.value]
  {
    if xs == [] then None
    else if xs[0] == x then Some(0)
    else match IndexOf(xs[1..], x)
      case None => None
      case Some(i) =>
        assert xs[..i + 1] == [xs[0]] + xs[1..][..i];
        Some(i + 1)
  }

  /** Python's `xs[i]`, negative subscripts counting from the end; `None`
      where Python raises `IndexError`. */
  function PyIndex<T>(xs: seq<T>, i: int): (r: Option<T>)
    ensures r.Some? <==> -|xs| <= i < |xs|
    ensures 0 <= i < |xs| ==> r == Some(xs[i])
    ensures -|xs| <= i < 0 ==> r == Some(xs[|xs| + i])
  {
    if 0 <= i < |xs| then Some(xs[i])
    else if -|xs| <= i < 0 then Some(xs[|xs| + i])
    else None
  }

  /** `MONTHS.index(month) + 1`, the month number `load_data` filters on. */
  function MonthNumber(month: string): (r: Option<int>)
    ensures r.Some? <==> month in MONTHS
    ensures r.Some? ==> 1 <= r.value <= |MONTHS| && MONTHS[r.value - 1] == month
  {
    match IndexOf(MONTHS, month)
    case None => None
    case Some(i) => Some(i + 1)
  }

  /** `DAYS.index(day.title())`, the weekday number `load_data` filters on. */
  function DayNumber(day: string): (r: Option<int>)
    ensures r.Some? <==> Title(day) in DAYS
    ensures r.Some? ==> 0 <= r.value < |DAYS| && DAYS[r.value] == Title(day)
  {
    match IndexOf(DAYS, Title(day))
    case None => None
    case Some(i) => Some(i)
  }

  /** `MONTHS[month - 1]`, how `time_stats` names the most common month. */
  function MonthName(month: int): (r: Option<string>)
    ensures 1 <= month <= |MONTHS| ==> r == Some(MONTHS[month - 1])
    ensures |MONTHS| < month ==> r == None
  {
    PyIndex(MONTHS, month - 1)
  }

  /** `DAYS[day]`, how `time_stats` names the most common weekday. */
  function DayName(day: int): (r: Option<string>)
    ensures 0 <= day < |DAYS| ==> r == Some(DAYS[day])
    ensures |DAYS| <= day ==> r == None
  {
    PyIndex(DAYS, day)
  }

  lemma MonthsDistinct()
    ensures forall i, j :: 0 <= i < j < |MONTHS| ==> MONTHS[i] != MONTHS[j]
  {
  }

  lemma DaysCapitalized()
    ensures forall i :: 0 <= i < |DAYS| ==> Capitalized(DAYS[i])
  {
  }

  /** Naming a month number that `MonthNumber` produced gives back the
      month: the inverse `time_stats` relies on. */
  lemma MonthRoundTrip(month: string)
    requires month in MONTHS
    ensures MonthNumber(month).Some?
    ensures MonthName(MonthNumber(month).value) == Some(month)
  {
  }

  /** And the other way round: every month number 1..6 has a name, and
      that name's number is the month number again. */
  lemma MonthNumberRoundTrip(n: int)
    requires 1 <= n <= |MONTHS|
    ensures MonthName(n).Some? && MonthNumber(MonthName(n).value) == Some(n)
  {
    MonthsDistinct();
    var k := IndexOf(MONTHS, MONTHS[n - 1]).value;
    assert MONTHS[k] == MONTHS[n - 1];
  }

  /** The weekday filter does not depend on how the day is capitalised:
      every spelling of a weekday name maps to that weekday's number, and
      naming the number gives back the name as `DAYS` writes it. */
  lemma DayRoundTrip(day: string, n: int)
    requires 0 <= n < |DAYS| && Lower(day) == Lower(DAYS[n])
    ensures DayNumber(day) == Some(n)
    ensures DayName(n) == Some(DAYS[n]) && Title(day) == DAYS[n]
  {
    DaysCapitalized();
    TitleOfCapitalized(DAYS[n], day);
    var k := IndexOf(DAYS, DAYS[n]).value;
    assert DAYS[k] == DAYS[n];
    assert k == n;
  }

  /** Only spellings of a weekday name get a weekday number: the day
      differs from the name its number gives only in the case of letters. */
  lemma DayNumberOnlyForWeekdays(day: string)
    requires DayNumber(day).Some?
    ensures Lower(day) == Lower(DAYS[DayNumber(day).value])
  {
    TitleKeepsLetters(day);
  }

  /** The city prompt offers exactly the cities of `CITY_DATA`, so every
      city it accepts names a data file and every city with a file is
      accepted. */
  lemma CityOptionsHaveFiles()
    ensures forall c :: c in CITY_OPTIONS <==> c in CITY_DATA
  {
  }

  /** Every answer the month prompt accepts is `"all"` or a month with a
      number in 1..6, so `MONTHS.index` does not raise. */
  lemma MonthOptionsResolve(month: string)
    requires month in MONTH_OPTIONS
    ensures month == ALL || (MonthNumber(month).Some? && 1 <= MonthNumber(month).value <= 6)
  {
  }

  /** Every answer the day prompt accepts is `"all"` or a weekday with a
      number in 0..6, so `DAYS.index(day.title())` does not raise. */
  lemma DayOptionsResolve(day: string)
    requires day in DAY_OPTIONS
    ensures day == ALL || (DayNumber(day).Some? && 0 <= DayNumber(day).value <= 6)
  {
    if day != ALL {
      var n :| 0 <= n < 7 && DAY_OPTIONS[n] == day;
      assert Lower(day) == Lower(DAYS[n]);
      DayRoundTrip(day, n);
    }
  }
}
