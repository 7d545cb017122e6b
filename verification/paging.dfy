/** `display_data`: show the table five rows at a time for as long as the
    user answers "yes" and rows remain. */
module Paging {
  import opened Trips
  import Text

  /** The number of rows shown per answer. */
  const PageSize: nat := 5

  /** `rows.iloc[start:start + 5]` for page number k, where start is 5k: the
      end is clamped to the table's length. */
  function Page(rows: seq<Trip>, k: nat): (page: seq<Trip>)
    requires PageSize * k <= |rows|
    ensures |page| == if PageSize * (k + 1) <= |rows| then PageSize else |rows| - PageSize * k
    ensures forall j :: 0 <= j < |page| ==> page[j] == rows[PageSize * k + j]
  {
    var start := PageSize * k;
    rows[start..if start + PageSize <= |rows| then start + PageSize else |rows|]
  }

  /** The pagination loop over the answers the user types, in order. It
      returns the pages printed and whether the end-of-data notice was
      printed. The loop stops at the first answer that is not "yes" in any
      case, once a page reaches the end of the table, or when the answers
      run out (the program itself would wait for more input). */
  method DisplayData(rows: seq<Trip>, answers: seq<string>) returns (pages: seq<seq<Trip>>, reachedEnd: bool)
    ensures |pages| <= |answers|
    ensures forall k :: 0 <= k < |pages| ==> Text.Lower(answers[k]) == "yes"
    ensures forall k :: 0 <= k < |pages| ==> PageSize * k <= |rows| && pages[k] == Page(rows, k)
    ensures |pages| >= 2 ==> PageSize * (|pages| - 1) < |rows|
    ensures reachedEnd <==> |pages| > 0 && PageSize * |pages| >= |rows|
    ensures !reachedEnd ==> |pages| == |answers| || Text.Lower(answers[|pages|]) != "yes"
    ensures |pages| <= if |rows| == 0 then 1 else (|rows| + PageSize - 1) / PageSize
  {
    var startLoc := 0;
    pages, reachedEnd := [], false;
    while |pages| < |answers|
      invariant startLoc == PageSize * |pages|
      invariant |pages| <= |answers|
      invariant |pages| == 0 || startLoc < |rows|
      invariant forall k :: 0 <= k < |pages| ==> Text.Lower(answers[k]) == "yes"
      invariant forall k :: 0 <= k < |pages| ==> PageSize * k <= |rows| && pages[k] == Page(rows, k)
    {
      if Text.Lower(answers[|pages|]) != "yes" {
        break;
      }
      var end := if startLoc + PageSize <= |rows| then startLoc + PageSize else |rows|;
      pages := pages + [rows[startLoc..end]];
      startLoc := startLoc + PageSize;
      if startLoc >= |rows| {
        reachedEnd := true;
        break;
      }
    }
  }

  /** The rows of the pages, one page after another. */
  function Concat(pages: seq<seq<Trip>>): seq<Trip>
    decreases |pages|
  {
    if pages == [] then [] else Concat(pages[..|pages| - 1]) + pages[|pages| - 1]
  }

  /** The pages shown, read one after another, are the table's first rows in
      order, without gaps or repeats; once the end is reached they are the
      whole table. */
  lemma {:induction false} PagesCoverPrefix(rows: seq<Trip>, pages: seq<seq<Trip>>)
    requires forall k :: 0 <= k < |pages| ==> PageSize * k <= |rows| && pages[k] == Page(rows, k)
    ensures Concat(pages) == rows[..if PageSize * |pages| <= |rows| then PageSize * |pages| else |rows|]
    ensures PageSize * |pages| >= |rows| && pages != [] ==> Concat(pages) == rows
    decreases |pages|
  {
    if pages != [] {
      var m := |pages| - 1;
      PagesCoverPrefix(rows, pages[..m]);
      var start := PageSize * m;
      var end := if start + PageSize <= |rows| then start + PageSize else |rows|;
      assert pages[m] == rows[start..end];
      assert rows[..start] + rows[start..end] == rows[..end];
    }
  }
}
