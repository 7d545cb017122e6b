/** Column aggregates: `value_counts()`, the most frequent value
    (`mode()[0]`, `value_counts().idxmax()`), `min()` and `max()`, and the
    skipping of missing cells that these perform. */
module Tally {
  import opened Wrappers

  /** A counts table: each entry a distinct value with its number of rows. */
  type Counts<T> = seq<(T, nat)>

  /** The non-missing cells of a column, in order. */
  function Present<T(!new)>(column: seq<Option<T>>): (r: seq<T>)
    ensures |r| <= |column|
    ensures forall x :: x in r <==> Some(x) in column
    ensures forall x :: multiset(r)[x] == multiset(column)[Some(x)]
    ensures |r| == |column| - multiset(column)[None]
    decreases |column|
  {
    if column == [] then []
    else
      var n := |column| - 1;
      assert column == column[..n] + [column[n]];
      Present(column[..n]) + (if column[n].Some? then [column[n].value] else [])
  }

  /** The count a table gives for `x`, 0 when `x` has no entry. */
  function Lookup<T(==)>(t: Counts<T>, x: T): nat
  {
    if t == [] then 0 else if t[0].0 == x then t[0].1 else Lookup(t[1..], x)
  }

  function SumCounts<T>(t: Counts<T>): nat
  {
    if t == [] then 0 else t[0].1 + SumCounts(t[1..])
  }

  ghost predicate DistinctKeys<T>(t: Counts<T>)
  {
    forall i, j :: 0 <= i < j < |t| ==> t[i].0 != t[j].0
  }

  ghost predicate PositiveCounts<T>(t: Counts<T>)
  {
    forall i :: 0 <= i < |t| ==> t[i].1 > 0
  }

  /** `t` is the `value_counts()` table of `values`: one entry per distinct
      value, each holding the number of times the value occurs, so that the
      counts add up to the number of values. */
  ghost predicate IsCountsOf<T(!new)>(t: Counts<T>, values: seq<T>)
  {
    && DistinctKeys(t)
    && PositiveCounts(t)
    && (forall x :: Lookup(t, x) == multiset(values)[x])
    && SumCounts(t) == |values|
  }

  /** One more occurrence of `x`: its entry goes up by one, or a new entry
      with count 1 is added at the end. */
  function Bump<T(==,!new)>(t: Counts<T>, x: T): (r: Counts<T>)
    ensures forall y :: Lookup(r, y) == Lookup(t, y) + (if y == x then 1 else 0)
    ensures SumCounts(r) == SumCounts(t) + 1
    ensures DistinctKeys(t) ==> DistinctKeys(r)
    ensures PositiveCounts(t) ==> PositiveCounts(r)
    ensures forall i :: 0 <= i < |r| && r[i].0 != x ==> exists j :: 0 <= j < |t| && t[j].0 == r[i].0
  {
    if t == [] then [(x, 1)]
    else if t[0].0 == x then [(x, t[0].1 + 1)] + t[1..]
    else
      var rest := Bump(t[1..], x);
      assert forall i :: 0 <= i < |t[1..]| ==> t[1..][i] == t[i + 1];
      [t[0]] + rest
  }

  /** `value_counts()` of a column without missing cells, entries in order
      of first occurrence. */
  function ValueCounts<T(==,!new)>(values: seq<T>): (t: Counts<T>)
    ensures IsCountsOf(t, values)
    decreases |values|
  {
    if values == [] then []
    else
      var n := |values| - 1;
      assert values == values[..n] + [values[n]];
      Bump(ValueCounts(values[..n]), values[n])
  }

  /** The position of an entry with the largest count. */
  function ArgMax<T>(t: Counts<T>): (k: nat)
    requires t != []
    ensures k < |t|
    ensures forall i :: 0 <= i < |t| ==> t[i].1 <= t[k].1
  {
    if |t| == 1 then 0
    else
      var k := ArgMax(t[1..]) + 1;
      if t[0].1 >= t[k].1 then 0 else k
  }

  /** `v` is a most frequent value of `values`. */
  ghost predicate IsMode<T(!new)>(values: seq<T>, v: T)
  {
    v in values && forall y :: multiset(values)[y] <= multiset(values)[v]
  }

  /** `mode()[0]` and `value_counts().idxmax()`: a value of the column with
      the largest count. On an empty column both raise; that is None here. */
  function MostCommon<T(==,!new)>(values: seq<T>): (r: Option<T>)
    ensures r.None? <==> values == []
    ensures r.Some? ==> IsMode(values, r.value)
  {
    var t := ValueCounts(values);
    if t == [] then
      None
    else
      var v := t[ArgMax(t)].0;
      LookupBelowMax(t, ArgMax(t));
      LookupAtKey(t, ArgMax(t));
      Some(v)
  }

  /** No value has a larger count in the table than the entry at `k`, when
      `k` holds the largest count. */
  lemma {:induction false} LookupBelowMax<T(!new)>(t: Counts<T>, k: nat)
    requires k < |t|
    requires forall i :: 0 <= i < |t| ==> t[i].1 <= t[k].1
    ensures forall y :: Lookup(t, y) <= t[k].1
  {
    forall y ensures Lookup(t, y) <= t[k].1 {
      LookupIsSomeEntry(t, y);
    }
  }

  lemma {:induction false} LookupIsSomeEntry<T>(t: Counts<T>, y: T)
    ensures Lookup(t, y) == 0 || exists i :: 0 <= i < |t| && Lookup(t, y) == t[i].1
  {
    if t != [] && t[0].0 != y {
      LookupIsSomeEntry(t[1..], y);
      if Lookup(t, y) != 0 {
        var i :| 0 <= i < |t[1..]| && Lookup(t[1..], y) == t[1..][i].1;
        assert Lookup(t, y) == t[i + 1].1;
      }
    }
  }

  /** In a table with distinct keys, looking up the key at `k` gives the
      count at `k`. */
  lemma {:induction false} LookupAtKey<T>(t: Counts<T>, k: nat)
    requires k < |t| && DistinctKeys(t)
    ensures Lookup(t, t[k].0) == t[k].1
  {
    if k > 0 {
      assert t[1..][k - 1] == t[k];
      LookupAtKey(t[1..], k - 1);
    }
  }

  /** `min()` of a non-empty column. */
  function Min(values: seq<int>): (m: int)
    requires values != []
    ensures m in values
    ensures forall x :: x in values ==> m <= x
  {
    if |values| == 1 then values[0]
    else
      var rest := Min(values[1..]);
      assert values == [values[0]] + values[1..];
      if values[0] <= rest then values[0] else rest
  }

  /** `max()` of a non-empty column. */
  function Max(values: seq<int>): (m: int)
    requires values != []
    ensures m in values
    ensures forall x :: x in values ==> x <= m
  {
    if |values| == 1 then values[0]
    else
      var rest := Max(values[1..]);
      assert values == [values[0]] + values[1..];
      if values[0] >= rest then values[0] else rest
  }

  /** When one value occurs more often than every other, it is the one the
      mode reports, whatever the tie-breaking rule. */
  lemma StrictModeIsReported<T(!new)>(values: seq<T>, v: T)
    requires v in values
    requires forall y :: y != v ==> multiset(values)[y] < multiset(values)[v]
    ensures MostCommon(values) == Some(v)
  {
    var r := MostCommon(values);
    assert r.Some? && multiset(values)[v] <= multiset(values)[r.value];
  }
}
