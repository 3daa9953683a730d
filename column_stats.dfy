/**
 * Per-column statistics and fills the cleaning actions use: `Series.mean`,
 * `min`, `max`, `median`, `mode`, and `ffill`/`bfill`. All of them skip
 * missing cells, as pandas does.
 */
module ColumnStats {
  import opened Wrappers
  import opened Seqs
  import opened Tables

  /** The numbers of a column, in order (`dataset[col].dropna()` of a numeric column). */
  function Numbers(cells: seq<Cell>): (xs: seq<real>)
    ensures |xs| <= |cells|
    ensures forall k :: 0 <= k < |xs| ==> Num(xs[k]) in cells
    ensures forall i :: 0 <= i < |cells| && cells[i].Num? ==> cells[i].value in xs
  {
    if cells == [] then []
    else
      var n := |cells| - 1;
      var init := Numbers(cells[..n]);
      assert forall i :: 0 <= i < n ==> cells[..n][i] == cells[i];
      assert forall k :: 0 <= k < |init| ==> Num(init[k]) in cells by {
        forall k | 0 <= k < |init| ensures Num(init[k]) in cells {
          var i :| 0 <= i < n && cells[..n][i] == Num(init[k]);
          assert cells[i] == Num(init[k]);
        }
      }
      if cells[n].Num? then init + [cells[n].value] else init
  }

  /** A column holds no number exactly when `Numbers` is empty. */
  lemma NumbersEmpty(cells: seq<Cell>)
    ensures Numbers(cells) == [] <==> forall i :: 0 <= i < |cells| ==> !cells[i].Num?
  {
    if Numbers(cells) != [] {
      assert Num(Numbers(cells)[0]) in cells;
    }
  }

  function Sum(xs: seq<real>): real {
    if xs == [] then 0.0 else Sum(xs[..|xs| - 1]) + xs[|xs| - 1]
  }

  function Minimum(xs: seq<real>): (m: real)
    requires xs != []
    ensures m in xs && forall k :: 0 <= k < |xs| ==> m <= xs[k]
  {
    if |xs| == 1 then xs[0]
    else
      var m := Minimum(xs[..|xs| - 1]);
      assert forall k :: 0 <= k < |xs| - 1 ==> xs[..|xs| - 1][k] == xs[k];
      if xs[|xs| - 1] < m then xs[|xs| - 1] else m
  }

  function Maximum(xs: seq<real>): (m: real)
    requires xs != []
    ensures m in xs && forall k :: 0 <= k < |xs| ==> xs[k] <= m
  {
    if |xs| == 1 then xs[0]
    else
      var m := Maximum(xs[..|xs| - 1]);
      assert forall k :: 0 <= k < |xs| - 1 ==> xs[..|xs| - 1][k] == xs[k];
      if xs[|xs| - 1] > m then xs[|xs| - 1] else m
  }

  /** A sum lies between the count times the smallest and the count times the largest term. */
  lemma {:induction false} SumBounds(xs: seq<real>, lo: real, hi: real)
    requires forall k :: 0 <= k < |xs| ==> lo <= xs[k] <= hi
    ensures |xs| as real * lo <= Sum(xs) <= |xs| as real * hi
  {
    if xs != [] {
      SumBounds(xs[..|xs| - 1], lo, hi);
    }
  }

  /** `Series.mean()`: NaN (None) when the column has no number. */
  function Mean(cells: seq<Cell>): (m: Option<real>)
    ensures m.None? <==> Numbers(cells) == []
    ensures m.Some? ==> Minimum(Numbers(cells)) <= m.value <= Maximum(Numbers(cells))
  {
    var xs := Numbers(cells);
    if xs == [] then None else Some(Average(xs))
  }

  /** The arithmetic mean of a non-empty sequence lies between its extremes. */
  function Average(xs: seq<real>): (a: real)
    requires xs != []
    ensures Minimum(xs) <= a <= Maximum(xs)
  {
    var n := |xs| as real;
    SumBounds(xs, Minimum(xs), Maximum(xs));
    AverageBounds(Sum(xs), n, Minimum(xs), Maximum(xs));
    Sum(xs) / n
  }

  lemma AverageBounds(s: real, n: real, lo: real, hi: real)
    requires n > 0.0 && n * lo <= s <= n * hi
    ensures lo <= s / n <= hi
  {
    assert s / n - lo == (s - n * lo) / n;
    assert hi - s / n == (n * hi - s) / n;
  }

  /** `Series.min()` and `Series.max()`: NaN (None) when the column has no number. */
  function MinMax(cells: seq<Cell>): (r: Option<(real, real)>)
    ensures r.None? <==> Numbers(cells) == []
    ensures r.Some? ==> r.value.0 <= r.value.1
    ensures r.Some? ==> forall i :: 0 <= i < |cells| && cells[i].Num? ==>
                          r.value.0 <= cells[i].value <= r.value.1
    ensures r.Some? ==> Num(r.value.0) in cells && Num(r.value.1) in cells
  {
    var xs := Numbers(cells);
    if xs == [] then None else Some((Minimum(xs), Maximum(xs)))
  }

  predicate SortedReals(xs: seq<real>) {
    forall k, l :: 0 <= k < l < |xs| ==> xs[k] <= xs[l]
  }

  function Insert(x: real, xs: seq<real>): (r: seq<real>)
    requires SortedReals(xs)
    ensures SortedReals(r) && multiset(r) == multiset(xs) + multiset{x}
    ensures r[0] == x || (xs != [] && r[0] == xs[0])
  {
    if xs == [] then [x]
    else if x <= xs[0] then
      ConsSortedReals(x, xs);
      [x] + xs
    else
      var rest := Insert(x, xs[1..]);
      ConsSortedReals(xs[0], rest);
      ConsMultiset(xs, rest, x);
      [xs[0]] + rest
  }

  /** A number not above the head of an ascending list can go in front of it. */
  lemma ConsSortedReals(x: real, xs: seq<real>)
    requires SortedReals(xs) && (xs == [] || x <= xs[0])
    ensures SortedReals([x] + xs)
  {
  }


  /** The numbers of a column in ascending order. */
  function SortReals(xs: seq<real>): (r: seq<real>)
    ensures SortedReals(r) && multiset(r) == multiset(xs)
  {
    if xs == [] then []
    else
      assert xs == xs[..|xs| - 1] + [xs[|xs| - 1]];
      Insert(xs[|xs| - 1], SortReals(xs[..|xs| - 1]))
  }

  /** `Series.median()`: the middle number, or the average of the two middle ones; NaN without numbers. */
  function Median(cells: seq<Cell>): (m: Option<real>)
    ensures m.None? <==> Numbers(cells) == []
    ensures m.Some? ==> Minimum(Numbers(cells)) <= m.value <= Maximum(Numbers(cells))
  {
    var xs := Numbers(cells);
    if xs == [] then None
    else
      var s := SortReals(xs);
      var n := |s|;
      assert s[0] in multiset(xs) && s[n - 1] in multiset(xs);
      assert s[n / 2] in multiset(xs);
      assert s[(n - 1) / 2] in multiset(xs);
      var lo, hi := Minimum(xs), Maximum(xs);
      assert forall k :: 0 <= k < n ==> lo <= s[k] <= hi by {
        forall k | 0 <= k < n ensures lo <= s[k] <= hi {
          assert s[k] in multiset(xs);
        }
      }
      if n % 2 == 1 then Some(s[n / 2]) else Some((s[n / 2 - 1] + s[n / 2]) / 2.0)
  }

  /** How often `v` occurs in `cells`. */
  function Occurrences(cells: seq<Cell>, v: Cell): nat {
    if cells == [] then 0
    else Occurrences(cells[..|cells| - 1], v) + (if cells[|cells| - 1] == v then 1 else 0)
  }

  /** The most frequent non-missing candidate, the earliest one among equally frequent ones. */
  function MostFrequent(cands: seq<Cell>, cells: seq<Cell>): (r: Option<Cell>)
    ensures r.None? <==> forall k :: 0 <= k < |cands| ==> cands[k].Missing?
    ensures r.Some? ==> !r.value.Missing? && r.value in cands
    ensures r.Some? ==> forall k :: 0 <= k < |cands| && !cands[k].Missing? ==>
                          Occurrences(cells, cands[k]) <= Occurrences(cells, r.value)
  {
    if cands == [] then None
    else
      var n := |cands| - 1;
      var c := cands[n];
      var best := MostFrequent(cands[..n], cells);
      assert forall k :: 0 <= k < n ==> cands[..n][k] == cands[k];
      if c.Missing? then best
      else if best.None? || Occurrences(cells, c) > Occurrences(cells, best.value) then Some(c)
      else best
  }

  /**
   * `Series.mode()[0]`: a most frequent non-missing value; None when the
   * column has no value (`mode()` is empty).
   */
  function Mode(cells: seq<Cell>): (r: Option<Cell>)
    ensures r.None? <==> forall i :: 0 <= i < |cells| ==> cells[i].Missing?
    ensures r.Some? ==> !r.value.Missing? && r.value in cells
    ensures r.Some? ==> forall i :: 0 <= i < |cells| && !cells[i].Missing? ==>
                          Occurrences(cells, cells[i]) <= Occurrences(cells, r.value)
  {
    MostFrequent(cells, cells)
  }

  // ---------------------------------------------------------------------
  // Forward and backward fill

  /** Position of the nearest non-missing cell at or before `i`. */
  function LastPresent(cells: seq<Cell>, i: nat): (r: Option<nat>)
    requires i < |cells|
    ensures r.Some? ==> r.value <= i && !cells[r.value].Missing? &&
                        forall k :: r.value < k <= i ==> cells[k].Missing?
    ensures r.None? ==> forall k :: 0 <= k <= i ==> cells[k].Missing?
  {
    if !cells[i].Missing? then Some(i)
    else if i == 0 then None
    else LastPresent(cells, i - 1)
  }

  /** Position of the nearest non-missing cell at or after `i`. */
  function FirstPresent(cells: seq<Cell>, i: nat): (r: Option<nat>)
    requires i < |cells|
    ensures r.Some? ==> i <= r.value < |cells| && !cells[r.value].Missing? &&
                        forall k :: i <= k < r.value ==> cells[k].Missing?
    ensures r.None? ==> forall k :: i <= k < |cells| ==> cells[k].Missing?
    decreases |cells| - i
  {
    if !cells[i].Missing? then Some(i)
    else if i == |cells| - 1 then None
    else FirstPresent(cells, i + 1)
  }

  /** `Series.ffill()`: each missing cell takes the last value above it, if any. */
  function ForwardFill(cells: seq<Cell>): (r: seq<Cell>)
    ensures |r| == |cells|
  {
    seq(|cells|, i requires 0 <= i < |cells| =>
      match LastPresent(cells, i)
      case Some(j) => cells[j]
      case None => Missing)
  }

  /** `Series.bfill()`: each missing cell takes the first value below it, if any. */
  function BackwardFill(cells: seq<Cell>): (r: seq<Cell>)
    ensures |r| == |cells|
  {
    seq(|cells|, i requires 0 <= i < |cells| =>
      match FirstPresent(cells, i)
      case Some(j) => cells[j]
      case None => Missing)
  }

  /** The fills leave every non-missing cell as it is. */
  lemma FillsKeepValues(cells: seq<Cell>)
    ensures forall i :: 0 <= i < |cells| && !cells[i].Missing? ==>
              ForwardFill(cells)[i] == cells[i] && BackwardFill(cells)[i] == cells[i]
  {
  }

  /**
   * `ffill()` then `bfill()`: a gap takes the nearest earlier value when
   * there is one and otherwise the nearest later one, so a column with any
   * value ends with no missing cell.
   */
  lemma {:induction false} ForwardBackwardFill(cells: seq<Cell>)
    ensures forall i :: 0 <= i < |cells| ==>
              BackwardFill(ForwardFill(cells))[i] ==
                match LastPresent(cells, i)
                case Some(j) => cells[j]
                case None =>
                  match FirstPresent(cells, i)
                  case Some(j) => cells[j]
                  case None => Missing
    ensures (exists i :: 0 <= i < |cells| && !cells[i].Missing?) ==>
              forall i :: 0 <= i < |cells| ==> !BackwardFill(ForwardFill(cells))[i].Missing?
  {
    var f := ForwardFill(cells);
    var r := BackwardFill(f);
    forall i | 0 <= i < |cells|
      ensures r[i] == match LastPresent(cells, i)
                      case Some(j) => cells[j]
                      case None =>
                        match FirstPresent(cells, i)
                        case Some(j) => cells[j]
                        case None => Missing
    {
      match LastPresent(cells, i)
      case Some(j) =>
        assert f[i] == cells[j];
        assert FirstPresent(f, i) == Some(i);
      case None =>
        assert f[i] == Missing;
        ForwardFillGap(cells, i);
    }
    if exists i :: 0 <= i < |cells| && !cells[i].Missing? {
      var w :| 0 <= w < |cells| && !cells[w].Missing?;
      forall i | 0 <= i < |cells| ensures !r[i].Missing? {
        if LastPresent(cells, i).None? {
          assert w > i;
          assert FirstPresent(cells, i).Some?;
        }
      }
    }
  }

  /**
   * Before the first value of a column the forward fill leaves cells
   * missing, and the first value the backward fill then meets is the
   * column's first value.
   */
  lemma ForwardFillGap(cells: seq<Cell>, i: nat)
    requires i < |cells| && LastPresent(cells, i).None?
    ensures FirstPresent(ForwardFill(cells), i) == FirstPresent(cells, i)
    decreases |cells| - i
  {
    var f := ForwardFill(cells);
    if i < |cells| - 1 && cells[i + 1].Missing? {
      assert LastPresent(cells, i + 1).None?;
      ForwardFillGap(cells, i + 1);
    } else if i < |cells| - 1 {
      assert f[i + 1] == cells[i + 1];
    }
  }
}
