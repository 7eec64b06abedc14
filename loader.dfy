/** `load_data`: pick the city's CSV, add the derived station-pair column,
    then keep the rows of the chosen month and weekday. Reading the CSV
    and parsing its timestamps are not modelled: `files` maps each path to
    the table its CSV holds, with `hour`, `month` and `dayOfWeek` already
    derived. */
module Loader {
  import opened Wrappers
  import opened Lookups
  import opened Trips

  /** Where `load_data` raises: `CITY_DATA[city]` (KeyError), `read_csv`
      (no such file), `MONTHS.index` and `DAYS.index` (ValueError). */
  datatype LoadError = UnknownCity | MissingFile(path: string) | UnknownMonth | UnknownDay

  /** The path `load_data` reads for a known city. */
  function CsvPath(city: string): string
    requires city in CITY_DATA
  {
    "./" + CITY_DATA[city]
  }

  /** Loads the city's table and applies the month and day filters.
      `"all"` skips a filter. Rows keep their order; the optional columns
      stay as they were. */
  method LoadData(city: string, month: string, day: string, files: map<string, Table>)
    returns (result: Result<Table, LoadError>)
    ensures result.Success? <==>
      city in CITY_DATA && CsvPath(city) in files
      && (month == ALL || month in MONTHS) && (day == ALL || DayNumber(day).Some?)
    ensures result == Failure(UnknownCity) <==> city !in CITY_DATA
    ensures result.Failure? && result.error.MissingFile? <==>
      city in CITY_DATA && CsvPath(city) !in files
    ensures result.Failure? && result.error.MissingFile? ==>
      result.error.path == CsvPath(city)
    ensures result.Failure? && result.error == UnknownMonth <==>
      city in CITY_DATA && CsvPath(city) in files && month != ALL && month !in MONTHS
    ensures result.Failure? && result.error == UnknownDay <==>
      city in CITY_DATA && CsvPath(city) in files && (month == ALL || month in MONTHS)
      && day != ALL && DayNumber(day).None?
    ensures result.Success? ==>
      var loaded := files[CsvPath(city)];
      var rows := AddCombination(loaded.rows);
      && result.value.hasGender == loaded.hasGender
      && result.value.hasBirthYear == loaded.hasBirthYear
      && (month == ALL && day == ALL ==> result.value.rows == rows)
      && (month != ALL && day == ALL ==>
            result.value.rows == Filter(rows, MonthIs(MonthNumber(month).value)))
      && (month == ALL && day != ALL ==>
            result.value.rows == Filter(rows, DayIs(DayNumber(day).value)))
      && (month != ALL && day != ALL ==>
            result.value.rows == Filter(rows, And(MonthIs(MonthNumber(month).value),
                                                  DayIs(DayNumber(day).value))))
  {
    if city !in CITY_DATA {
      return Failure(UnknownCity);
    }
    var path := CsvPath(city);
    if path !in files {
      return Failure(MissingFile(path));
    }
    var df := files[path];
    df := df.(rows := AddCombination(df.rows));
    ghost var derived := df.rows;

    if month != ALL {
      var monthNo := MonthNumber(month);
      if monthNo.None? {
        return Failure(UnknownMonth);
      }
      df := df.(rows := Filter(df.rows, MonthIs(monthNo.value)));
    }

    if day != ALL {
      var dayNo := DayNumber(day);
      if dayNo.None? {
        return Failure(UnknownDay);
      }
      if month != ALL {
        FilterTwice(derived, MonthIs(MonthNumber(month).value), DayIs(dayNo.value));
      }
      df := df.(rows := Filter(df.rows, DayIs(dayNo.value)));
    }
    return Success(df);
  }
}
