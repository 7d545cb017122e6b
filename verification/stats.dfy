/** The four reporters: `time_stats`, `station_stats`,
    `trip_duration_stats` and `user_stats`, each a function from the
    filtered table to the figures it prints. */
module Stats {
  import opened Wrappers
  import opened Trips
  import opened Tally

  /** The reporters raise on a column with nothing to aggregate: `mode()[0]`
      and `idxmax()` of an empty column, `int()` of the NaN that `min()` gives
      for a column with no values. */
  datatype StatsError = NoValues(column: string)

  function MonthColumn(rows: seq<Trip>): seq<int> { seq(|rows|, i requires 0 <= i < |rows| => rows[i].month) }

  function DayColumn(rows: seq<Trip>): seq<string> { seq(|rows|, i requires 0 <= i < |rows| => rows[i].dayOfWeek) }

  function HourColumn(rows: seq<Trip>): seq<int> { seq(|rows|, i requires 0 <= i < |rows| => rows[i].hour) }

  function StartColumn(rows: seq<Trip>): seq<string> { seq(|rows|, i requires 0 <= i < |rows| => rows[i].startStation) }

  function EndColumn(rows: seq<Trip>): seq<string> { seq(|rows|, i requires 0 <= i < |rows| => rows[i].endStation) }

  /** The User Type and Gender columns, missing cells included. */
  function UserTypeCells(rows: seq<Trip>): seq<Option<string>> { seq(|rows|, i requires 0 <= i < |rows| => rows[i].userType) }

  function GenderCells(rows: seq<Trip>): seq<Option<string>> { seq(|rows|, i requires 0 <= i < |rows| => rows[i].gender) }

  /** The non-missing cells of the User Type, Gender and Birth Year columns. */
  function UserTypes(rows: seq<Trip>): seq<string> { Present(UserTypeCells(rows)) }

  function Genders(rows: seq<Trip>): seq<string> { Present(GenderCells(rows)) }

  function BirthYears(rows: seq<Trip>): seq<int> { Present(seq(|rows|, i requires 0 <= i < |rows| => rows[i].birthYear)) }

  // ---- time_stats ----

  datatype TimeReport = TimeReport(commonMonth: int, commonDay: string, commonHour: int)

  /** The most common month, weekday and start hour of the table. */
  function TimeStats(rows: seq<Trip>): (r: Result<TimeReport, StatsError>)
    ensures r.Failure? <==> rows == []
    ensures r.Success? ==>
      && IsMode(MonthColumn(rows), r.value.commonMonth)
      && IsMode(DayColumn(rows), r.value.commonDay)
      && IsMode(HourColumn(rows), r.value.commonHour)
  {
    match (MostCommon(MonthColumn(rows)), MostCommon(DayColumn(rows)), MostCommon(HourColumn(rows)))
    case (Some(month), Some(day), Some(hour)) => Success(TimeReport(month, day, hour))
    case _ => Failure(NoValues("month"))
  }

  // ---- station_stats ----

  /** The key that identifies a trip's start and end station: the two names
      joined by " to ". */
  function PairKey(t: Trip): (key: string)
    ensures var n := |t.startStation|;
            && |key| == n + 4 + |t.endStation|
            && key[..n] == t.startStation
            && key[n..n + 4] == " to "
            && key[n + 4..] == t.endStation
  {
    t.startStation + " to " + t.endStation
  }

  function PairColumn(rows: seq<Trip>): seq<string> { seq(|rows|, i requires 0 <= i < |rows| => PairKey(rows[i])) }

  datatype StationReport = StationReport(commonStart: string, commonEnd: string, commonTrip: string)

  /** The most used start station, end station, and start-to-end pair. The
      pair reported is built from the two stations of one and the same row. */
  function StationStats(rows: seq<Trip>): (r: Result<StationReport, StatsError>)
    ensures r.Failure? <==> rows == []
    ensures r.Success? ==>
      && IsMode(StartColumn(rows), r.value.commonStart)
      && IsMode(EndColumn(rows), r.value.commonEnd)
      && IsMode(PairColumn(rows), r.value.commonTrip)
      && exists i :: 0 <= i < |rows| && r.value.commonTrip == rows[i].startStation + " to " + rows[i].endStation
  {
    match (MostCommon(StartColumn(rows)), MostCommon(EndColumn(rows)), MostCommon(PairColumn(rows)))
    case (Some(start), Some(end), Some(trip)) =>
      assert exists i :: 0 <= i < |rows| && PairColumn(rows)[i] == trip;
      Success(StationReport(start, end, trip))
    case _ => Failure(NoValues("Start Station"))
  }

  /** Joining with " to " can give two different station pairs the same key
      when a station name itself contains " to "; the pair count then adds
      up trips between different stations. */
  lemma PairKeyCanCollide()
    ensures exists a: Trip, b: Trip ::
      (a.startStation, a.endStation) != (b.startStation, b.endStation) && PairKey(a) == PairKey(b)
  {
    var a := Trip(1, "Monday", 0, "A to B", "C", 0, None, None, None);
    var b := Trip(1, "Monday", 0, "A", "B to C", 0, None, None, None);
    assert PairKey(a) == "A to B to C" == PairKey(b);
  }

  // ---- trip_duration_stats ----

  /** `sum()` of the Trip Duration column, 0 for an empty table. */
  function TotalDuration(rows: seq<Trip>): (total: int)
    ensures rows == [] ==> total == 0
    ensures (forall i :: 0 <= i < |rows| ==> rows[i].duration >= 0) ==> total >= 0
    ensures (forall i :: 0 <= i < |rows| ==> rows[i].duration >= 0) ==> forall i :: 0 <= i < |rows| ==> rows[i].duration <= total
    decreases |rows|
  {
    if rows == [] then 0 else TotalDuration(rows[..|rows| - 1]) + rows[|rows| - 1].duration
  }

  /** Any mask splits the total: the rows it keeps and the rows it drops
      together account for the whole total, each row once. */
  lemma {:induction false} TotalSplitsByMask(rows: seq<Trip>, keep: Trip -> bool, drop: Trip -> bool)
    requires forall t :: drop(t) == !keep(t)
    ensures TotalDuration(Where(rows, keep)) + TotalDuration(Where(rows, drop)) == TotalDuration(rows)
    decreases |rows|
  {
    if rows != [] {
      var n := |rows| - 1;
      var front, last := rows[..n], rows[n];
      TotalSplitsByMask(front, keep, drop);
      var kept, dropped := Where(front, keep), Where(front, drop);
      assert TotalDuration(rows) == TotalDuration(front) + last.duration;
      if keep(last) {
        assert Where(rows, keep) == kept + [last];
        assert Where(rows, drop) == dropped;
        TotalAppendOne(kept, last);
      } else {
        assert Where(rows, keep) == kept;
        assert Where(rows, drop) == dropped + [last];
        TotalAppendOne(dropped, last);
      }
    }
  }

  lemma TotalAppendOne(rows: seq<Trip>, t: Trip)
    ensures TotalDuration(rows + [t]) == TotalDuration(rows) + t.duration
  {
    assert (rows + [t])[..|rows|] == rows;
  }

  datatype DurationReport = DurationReport(total: int, mean: Option<real>)

  /** The total and mean trip duration. The mean of an empty table is NaN,
      shown here as None. */
  function TripDurationStats(rows: seq<Trip>): (r: DurationReport)
    ensures r.total == TotalDuration(rows)
    ensures r.mean.None? <==> rows == []
    ensures r.mean.Some? ==> r.mean.value * (|rows| as real) == r.total as real
  {
    var total := TotalDuration(rows);
    DurationReport(total, if rows == [] then None else Some(total as real / |rows| as real))
  }

  // ---- user_stats ----

  datatype BirthYearReport = BirthYearReport(earliest: int, mostRecent: int, mostCommon: int)

  /** The user-type counts; the gender counts when the table has a Gender
      column; the earliest, most recent and most common birth year when it
      has a Birth Year column. An absent column gives None, for which the
      program prints a "cannot be calculated" message. */
  datatype UserReport = UserReport(
    userTypes: Counts<string>,
    genders: Option<Counts<string>>,
    birthYears: Option<BirthYearReport>)

  function UserStats(f: Frame): (r: Result<UserReport, StatsError>)
    ensures r.Failure? <==> f.hasBirthYear && BirthYears(f.rows) == []
    ensures r.Success? ==>
      && IsCountsOf(r.value.userTypes, UserTypes(f.rows))
      && (r.value.genders.Some? <==> f.hasGender)
      && (r.value.genders.Some? ==> IsCountsOf(r.value.genders.value, Genders(f.rows)))
      && (r.value.birthYears.Some? <==> f.hasBirthYear)
  {
    var genders := if f.hasGender then Some(ValueCounts(Genders(f.rows))) else None;
    if !f.hasBirthYear then
      Success(UserReport(ValueCounts(UserTypes(f.rows)), genders, None))
    else
      var years := BirthYears(f.rows);
      match MostCommon(years)
      case None => Failure(NoValues("Birth Year"))
      case Some(common) =>
        Success(UserReport(ValueCounts(UserTypes(f.rows)), genders,
                           Some(BirthYearReport(Min(years), Max(years), common))))
  }

  /** The birth-year figures: the earliest and most recent are the smallest
      and largest years present, the most common is a most frequent one, and
      it lies between the other two. */
  lemma BirthYearFigures(f: Frame)
    requires f.hasBirthYear && BirthYears(f.rows) != []
    ensures UserStats(f).Success? && UserStats(f).value.birthYears.Some?
    ensures var b := UserStats(f).value.birthYears.value;
            var years := BirthYears(f.rows);
            && b.earliest in years && b.mostRecent in years
            && (forall y :: y in years ==> b.earliest <= y <= b.mostRecent)
            && IsMode(years, b.mostCommon)
            && b.earliest <= b.mostCommon <= b.mostRecent
  {
  }

  /** Each counts table gives, for every value, the number of rows holding
      it, and the counts add up to the number of non-missing cells. */
  lemma CountsAddUp(f: Frame)
    requires UserStats(f).Success?
    ensures var t := UserStats(f).value.userTypes;
            && (forall x :: Lookup(t, x) == multiset(UserTypeCells(f.rows))[Some(x)])
            && SumCounts(t) == |f.rows| - multiset(UserTypeCells(f.rows))[None]
    ensures f.hasGender ==>
            var t := UserStats(f).value.genders.value;
            && (forall x :: Lookup(t, x) == multiset(GenderCells(f.rows))[Some(x)])
            && SumCounts(t) == |f.rows| - multiset(GenderCells(f.rows))[None]
  {
  }
}
