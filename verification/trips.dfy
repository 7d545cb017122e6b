/** The trip table and the filter stage of `load_data`: two boolean masks,
    one on the month number and one on the weekday name, each skipped when
    its selection is "all". */
module Trips {
  import opened Wrappers
  import Text
  import Selection

  /** One trip row, with the calendar fields already derived from its start
      time. A missing cell (NaN) in an optional column is None. */
  datatype Trip = Trip(
    month: int,
    dayOfWeek: string,
    hour: int,
    startStation: string,
    endStation: string,
    duration: int,
    userType: Option<string>,
    gender: Option<string>,
    birthYear: Option<int>)

  /** A city's table: its rows in file order, and whether the file has the
      Gender and Birth Year columns at all. */
  datatype Frame = Frame(rows: seq<Trip>, hasGender: bool, hasBirthYear: bool)

  /** `rows[mask]` where the mask is `keep` applied to each row: the rows that
      pass, in their original order, each once. */
  function Where(rows: seq<Trip>, keep: Trip -> bool): (r: seq<Trip>)
    ensures |r| <= |rows|
    ensures forall t :: t in r <==> t in rows && keep(t)
    decreases |rows|
  {
    if rows == [] then []
    else
      var last := rows[|rows| - 1];
      assert rows == rows[..|rows| - 1] + [last];
      Where(rows[..|rows| - 1], keep) + (if keep(last) then [last] else [])
  }

  /** A row that passes the mask appears in the result as often as in the
      input, and one that fails does not appear: no row is duplicated. */
  lemma {:induction false} WhereCounts(rows: seq<Trip>, keep: Trip -> bool, t: Trip)
    ensures multiset(Where(rows, keep))[t] == if keep(t) then multiset(rows)[t] else 0
    decreases |rows|
  {
    if rows != [] {
      var n := |rows| - 1;
      WhereCounts(rows[..n], keep, t);
      assert rows == rows[..n] + [rows[n]];
    }
  }

  /** The positions in `rows` of the rows `Where` keeps: the index labels a
      boolean mask leaves on the filtered table. */
  function KeptPositions(rows: seq<Trip>, keep: Trip -> bool): seq<nat>
    decreases |rows|
  {
    if rows == [] then []
    else
      KeptPositions(rows[..|rows| - 1], keep)
        + (if keep(rows[|rows| - 1]) then [|rows| - 1] else [])
  }

  /** `sub` is `rows` with some rows left out: `at` gives, strictly increasing,
      the position in `rows` of each row of `sub`. */
  ghost predicate EmbedsAt(sub: seq<Trip>, rows: seq<Trip>, at: seq<nat>)
  {
    && |at| == |sub|
    && (forall k :: 0 <= k < |at| ==> at[k] < |rows| && sub[k] == rows[at[k]])
    && (forall j, k :: 0 <= j < k < |at| ==> at[j] < at[k])
  }

  ghost predicate IsSubsequence(sub: seq<Trip>, rows: seq<Trip>)
  {
    exists at :: EmbedsAt(sub, rows, at)
  }

  /** The kept positions are positions of `rows`, and a position is among
      them exactly when its row passes the mask. */
  lemma {:induction false} KeptPositionsExact(rows: seq<Trip>, keep: Trip -> bool)
    ensures forall p :: p in KeptPositions(rows, keep) ==> p < |rows|
    ensures forall i :: 0 <= i < |rows| ==> (keep(rows[i]) <==> i in KeptPositions(rows, keep))
    decreases |rows|
  {
    if rows != [] {
      var n := |rows| - 1;
      var front := rows[..n];
      KeptPositionsExact(front, keep);
      var p := KeptPositions(front, keep);
      var tail: seq<nat> := if keep(rows[n]) then [n] else [];
      assert KeptPositions(rows, keep) == p + tail;
      forall i | 0 <= i < |rows| ensures keep(rows[i]) <==> i in p + tail {
        if i < n {
          assert front[i] == rows[i];
        }
      }
    }
  }

  /** The kept rows sit in `rows` at the kept positions, which increase. */
  lemma {:induction false} WhereKeepsOrder(rows: seq<Trip>, keep: Trip -> bool)
    ensures EmbedsAt(Where(rows, keep), rows, KeptPositions(rows, keep))
    decreases |rows|
  {
    if rows != [] {
      var n := |rows| - 1;
      var front, last := rows[..n], rows[n];
      WhereKeepsOrder(front, keep);
      KeptPositionsExact(front, keep);
      var w, p := Where(front, keep), KeptPositions(front, keep);
      var tailW: seq<Trip> := if keep(last) then [last] else [];
      var tailP: seq<nat> := if keep(last) then [n] else [];
      assert Where(rows, keep) == w + tailW;
      assert KeptPositions(rows, keep) == p + tailP;
      EmbedsExtend(w, front, p, rows, tailW, tailP);
    }
  }

  /** An embedding into a prefix of `rows`, followed by at most the last row
      of `rows`, is an embedding into `rows`. */
  lemma EmbedsExtend(w: seq<Trip>, front: seq<Trip>, p: seq<nat>, rows: seq<Trip>, tailW: seq<Trip>, tailP: seq<nat>)
    requires EmbedsAt(w, front, p)
    requires |rows| == |front| + 1 && front == rows[..|front|]
    requires (tailW == [] && tailP == []) || (tailW == [rows[|front|]] && tailP == [|front|])
    ensures EmbedsAt(w + tailW, rows, p + tailP)
  {
    var n := |front|;
    forall k | 0 <= k < |p + tailP|
      ensures (p + tailP)[k] < |rows| && (w + tailW)[k] == rows[(p + tailP)[k]]
    {
      if k < |p| {
        assert (p + tailP)[k] == p[k] && (w + tailW)[k] == w[k];
        assert front[p[k]] == rows[p[k]];
      }
    }
    forall j, k | 0 <= j < k < |p + tailP| ensures (p + tailP)[j] < (p + tailP)[k] {
      if k < |p| {
        assert (p + tailP)[j] == p[j] && (p + tailP)[k] == p[k];
      } else {
        assert (p + tailP)[j] == p[j] < n;
      }
    }
  }

  lemma WhereIsSubsequence(rows: seq<Trip>, keep: Trip -> bool)
    ensures IsSubsequence(Where(rows, keep), rows)
  {
    WhereKeepsOrder(rows, keep);
  }

  /** Masking twice is masking once with both conditions. */
  lemma {:induction false} WhereTwice(rows: seq<Trip>, first: Trip -> bool, second: Trip -> bool, both: Trip -> bool)
    requires forall t :: both(t) == (first(t) && second(t))
    ensures Where(Where(rows, first), second) == Where(rows, both)
    decreases |rows|
  {
    if rows != [] {
      var n := |rows| - 1;
      var last := rows[n];
      WhereTwice(rows[..n], first, second, both);
      var once := Where(rows[..n], first);
      assert Where(rows, first) == once + (if first(last) then [last] else []);
      assert Where(rows, both) == Where(rows[..n], both) + (if both(last) then [last] else []);
      if first(last) {
        var w := once + [last];
        assert w[..|w| - 1] == once;
        assert Where(w, second) == Where(once, second) + (if second(last) then [last] else []);
        assert both(last) == second(last);
      } else {
        assert Where(rows, first) == once;
        assert !both(last);
      }
    }
  }

  /** A mask that keeps every row leaves the table as it is. */
  lemma {:induction false} WhereAll(rows: seq<Trip>, keep: Trip -> bool)
    requires forall t :: keep(t)
    ensures Where(rows, keep) == rows
    decreases |rows|
  {
    if rows != [] {
      var n := |rows| - 1;
      WhereAll(rows[..n], keep);
      assert rows == rows[..n] + [rows[n]];
    }
  }

  /** Whether a trip passes the selection; the month and day are the answers
      as the prompts accepted them. */
  predicate Matches(t: Trip, month: string, day: string)
    requires Selection.IsMonth(month)
  {
    && (month != "all" ==> t.month == Selection.MonthNumber(month))
    && (day != "all" ==> t.dayOfWeek == Text.Title(day))
  }

  /** The month mask of `load_data`, skipped for "all". */
  function ByMonth(rows: seq<Trip>, month: string): (r: seq<Trip>)
    requires Selection.IsMonth(month)
    ensures forall t :: t in r <==> t in rows && (month != "all" ==> t.month == Selection.MonthNumber(month))
  {
    if month != "all" then
      var n := Selection.MonthNumber(month);
      Where(rows, (t: Trip) => t.month == n)
    else rows
  }

  /** The weekday mask of `load_data`, skipped for "all": the day answer is
      title-cased before it is compared with the weekday names. */
  function ByDay(rows: seq<Trip>, day: string): (r: seq<Trip>)
    ensures forall t :: t in r <==> t in rows && (day != "all" ==> t.dayOfWeek == Text.Title(day))
  {
    if day != "all" then
      var name := Text.Title(day);
      Where(rows, (t: Trip) => t.dayOfWeek == name)
    else rows
  }

  /** The filter stage of `load_data`: first the month mask, then the day
      mask. The Gender and Birth Year columns stay as they were. */
  function FilterFrame(f: Frame, month: string, day: string): (r: Frame)
    requires Selection.IsMonth(month)
    ensures r.hasGender == f.hasGender && r.hasBirthYear == f.hasBirthYear
    ensures forall t :: t in r.rows <==> t in f.rows && Matches(t, month, day)
  {
    Frame(ByDay(ByMonth(f.rows, month), day), f.hasGender, f.hasBirthYear)
  }

  /** The two masks in a row keep the same rows as one mask on both
      conditions. */
  lemma FilterIsOneMask(f: Frame, month: string, day: string)
    requires Selection.IsMonth(month)
    ensures FilterFrame(f, month, day).rows == Where(f.rows, t => Matches(t, month, day))
  {
    var both := (t: Trip) => Matches(t, month, day);
    if month != "all" && day != "all" {
      var n := Selection.MonthNumber(month);
      var name := Text.Title(day);
      WhereTwice(f.rows, (t: Trip) => t.month == n, (t: Trip) => t.dayOfWeek == name, both);
    } else if month != "all" {
      var n := Selection.MonthNumber(month);
      WhereSameMask(f.rows, (t: Trip) => t.month == n, both);
    } else if day != "all" {
      var name := Text.Title(day);
      WhereSameMask(f.rows, (t: Trip) => t.dayOfWeek == name, both);
    } else {
      WhereAll(f.rows, both);
    }
  }

  /** Filtering never duplicates a row: each row of the result occurs in it
      as often as in the loaded table, and a row that fails the selection
      does not occur at all. */
  lemma FilterCounts(f: Frame, month: string, day: string, t: Trip)
    requires Selection.IsMonth(month)
    ensures multiset(FilterFrame(f, month, day).rows)[t]
         == if Matches(t, month, day) then multiset(f.rows)[t] else 0
  {
    FilterIsOneMask(f, month, day);
    WhereCounts(f.rows, t => Matches(t, month, day), t);
  }

  /** Two masks that agree on every row keep the same rows. */
  lemma {:induction false} WhereSameMask(rows: seq<Trip>, a: Trip -> bool, b: Trip -> bool)
    requires forall t :: a(t) == b(t)
    ensures Where(rows, a) == Where(rows, b)
    decreases |rows|
  {
    if rows != [] {
      var n := |rows| - 1;
      WhereSameMask(rows[..n], a, b);
      assert rows == rows[..n] + [rows[n]];
    }
  }

  /** The filtered table is the loaded table with rows left out: order is
      kept and nothing is repeated. */
  lemma FilterIsSubsequence(f: Frame, month: string, day: string)
    requires Selection.IsMonth(month)
    ensures IsSubsequence(FilterFrame(f, month, day).rows, f.rows)
  {
    FilterIsOneMask(f, month, day);
    WhereIsSubsequence(f.rows, t => Matches(t, month, day));
  }

  /** Selecting "all" for both month and day leaves the table unchanged. */
  lemma FilterAllIsIdentity(f: Frame)
    ensures FilterFrame(f, "all", "all") == f
  {
  }
}
