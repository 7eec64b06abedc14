/** Trip records, the loaded table, the derived station-pair label and the
    equality filters `load_data` applies. */
module Trips {

  /** One row of a city's table. `hour`, `month` and `dayOfWeek` are the
      columns derived from `Start Time`; `combination` is the derived
      "Station Combination" column. `gender` and `birthYear` are meaningful
      only in a table that has those columns. */
  datatype Trip = Trip(
    startStation: string,
    endStation: string,
    combination: string,
    duration: int,
    userType: string,
    gender: string,
    birthYear: int,
    hour: int,
    month: int,
    dayOfWeek: int)

  /** A loaded table: its rows in order, and whether the optional `Gender`
      and `Birth Year` columns exist. */
  datatype Table = Table(rows: seq<Trip>, hasGender: bool, hasBirthYear: bool)

  /** The ranges of the fields derived from a timestamp. */
  predicate WellFormed(t: Trip)
  {
    0 <= t.hour < 24 && 1 <= t.month <= 12 && 0 <= t.dayOfWeek < 7
  }

  /** The "Station Combination" label of a trip. */
  function PairLabel(t: Trip): string
  {
    t.startStation + " / " + t.endStation
  }

  /** Adds the "Station Combination" column: every row gets its label,
      every other field and the order of the rows stay as they were. */
  function AddCombination(rows: seq<Trip>): (r: seq<Trip>)
    ensures |r| == |rows|
    ensures forall i :: 0 <= i < |rows| ==> r[i].combination == PairLabel(rows[i])
    ensures forall i :: 0 <= i < |rows| ==> r[i].(combination := rows[i].combination) == rows[i]
  {
    seq(|rows|, i requires 0 <= i < |rows| => rows[i].(combination := PairLabel(rows[i])))
  }

  /** A condition a row may have to meet: `df['month'] == n`,
      `df['day_of_week'] == n`, or both of two conditions. */
  datatype Criterion = MonthIs(month: int) | DayIs(day: int) | And(left: Criterion, right: Criterion)

  predicate Matches(t: Trip, c: Criterion)
  {
    match c
    case MonthIs(m) => t.month == m
    case DayIs(d) => t.dayOfWeek == d
    case And(a, b) => Matches(t, a) && Matches(t, b)
  }

  /** `df[mask]`: the rows that meet `c`, in their original order. Every
      row kept meets `c`, and no row that meets `c` is dropped. */
  function Filter(rows: seq<Trip>, c: Criterion): (r: seq<Trip>)
    ensures |r| <= |rows|
    ensures forall t :: t in r ==> t in rows && Matches(t, c)
    ensures forall t :: t in rows && Matches(t, c) ==> t in r
  {
    if rows == [] then []
    else if Matches(rows[0], c) then [rows[0]] + Filter(rows[1..], c)
    else Filter(rows[1..], c)
  }

  /** The rows a filter by `c` drops, in their original order. */
  function Dropped(rows: seq<Trip>, c: Criterion): (r: seq<Trip>)
    ensures forall t :: t in r <==> t in rows && !Matches(t, c)
  {
    if rows == [] then []
    else if Matches(rows[0], c) then Dropped(rows[1..], c)
    else [rows[0]] + Dropped(rows[1..], c)
  }

  /** The number of rows that meet `c`. */
  function CountMatching(rows: seq<Trip>, c: Criterion): (n: nat)
    ensures n <= |rows|
  {
    if rows == [] then 0
    else (if Matches(rows[0], c) then 1 else 0) + CountMatching(rows[1..], c)
  }

  /** Filtering keeps relative order: filtering a concatenation is the
      concatenation of the filtered parts. */
  lemma {:induction false} FilterAppend(a: seq<Trip>, b: seq<Trip>, c: Criterion)
    ensures Filter(a + b, c) == Filter(a, c) + Filter(b, c)
  {
    if a == [] {
      assert a + b == b;
    } else {
      assert (a + b)[1..] == a[1..] + b;
      FilterAppend(a[1..], b, c);
    }
  }

  /** Exactly as many rows are kept as meet the condition. */
  lemma {:induction false} FilterLength(rows: seq<Trip>, c: Criterion)
    ensures |Filter(rows, c)| == CountMatching(rows, c)
  {
    if rows != [] {
      FilterLength(rows[1..], c);
    }
  }

  /** Filtering a table whose every row meets the condition returns it
      unchanged, in the same order. */
  lemma {:induction false} FilterKeepsAll(rows: seq<Trip>, c: Criterion)
    requires forall i :: 0 <= i < |rows| ==> Matches(rows[i], c)
    ensures Filter(rows, c) == rows
  {
    if rows != [] {
      FilterKeepsAll(rows[1..], c);
    }
  }

  /** Filtering twice is idempotent. */
  lemma FilterIdempotent(rows: seq<Trip>, c: Criterion)
    ensures Filter(Filter(rows, c), c) == Filter(rows, c)
  {
    var r := Filter(rows, c);
    assert forall i :: 0 <= i < |r| ==> r[i] in r;
    FilterKeepsAll(r, c);
  }

  /** Two conditions that agree on every row select the same rows. */
  lemma {:induction false} FilterSameCondition(rows: seq<Trip>, a: Criterion, b: Criterion)
    requires forall i :: 0 <= i < |rows| ==> Matches(rows[i], a) == Matches(rows[i], b)
    ensures Filter(rows, a) == Filter(rows, b)
  {
    if rows != [] {
      FilterSameCondition(rows[1..], a, b);
    }
  }

  /** Filtering by `a` and then by `b` keeps exactly the rows that meet
      both, in their original order. */
  lemma {:induction false} FilterTwice(rows: seq<Trip>, a: Criterion, b: Criterion)
    ensures Filter(Filter(rows, a), b) == Filter(rows, And(a, b))
  {
    if rows != [] {
      FilterTwice(rows[1..], a, b);
      if Matches(rows[0], a) {
        assert Filter(rows, a)[1..] == Filter(rows[1..], a);
      }
    }
  }

  /** The month filter and the day filter commute. */
  lemma FilterCommutes(rows: seq<Trip>, a: Criterion, b: Criterion)
    ensures Filter(Filter(rows, a), b) == Filter(Filter(rows, b), a)
  {
    FilterTwice(rows, a, b);
    FilterTwice(rows, b, a);
    FilterSameCondition(rows, And(a, b), And(b, a));
  }

  /** Filtering does not change any row it keeps, so the derived columns
      stay within range. */
  lemma FilterKeepsWellFormed(rows: seq<Trip>, c: Criterion)
    requires forall i :: 0 <= i < |rows| ==> WellFormed(rows[i])
    ensures forall i :: 0 <= i < |Filter(rows, c)| ==> WellFormed(Filter(rows, c)[i])
  {
    var r := Filter(rows, c);
    forall i | 0 <= i < |r| ensures WellFormed(r[i]) {
      assert r[i] in r;
    }
  }

  /** The number of rows whose weekday is below `days`, counted one
      weekday filter at a time. */
  function CountByDays(rows: seq<Trip>, days: nat): (n: nat)
    requires days <= 7
  {
    if days == 0 then 0 else CountByDays(rows, days - 1) + CountMatching(rows, DayIs(days - 1))
  }

  lemma {:induction false} CountByDaysCons(t: Trip, rows: seq<Trip>, days: nat)
    requires days <= 7
    ensures CountByDays([t] + rows, days)
         == CountByDays(rows, days) + (if 0 <= t.dayOfWeek < days then 1 else 0)
  {
    if days > 0 {
      CountByDaysCons(t, rows, days - 1);
      assert ([t] + rows)[1..] == rows;
    }
  }

  /** The weekdays split a well-formed table: the seven day filters
      together keep every row exactly once. */
  lemma {:induction false} DaysPartitionRows(rows: seq<Trip>)
    requires forall i :: 0 <= i < |rows| ==> WellFormed(rows[i])
    ensures CountByDays(rows, 7) == |rows|
  {
    if rows == [] {
      ZeroDays(7);
    } else {
      DaysPartitionRows(rows[1..]);
      CountByDaysCons(rows[0], rows[1..], 7);
      assert [rows[0]] + rows[1..] == rows;
    }
  }

  lemma {:induction false} ZeroDays(d: nat)
    requires d <= 7
    ensures CountByDays([], d) == 0
  {
    if d > 0 {
      ZeroDays(d - 1);
    }
  }
}
