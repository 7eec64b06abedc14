/** The column aggregations the reporters use: per-value counts, the mode,
    the sum, the minimum and the maximum. A column is a sequence of values
    in row order. */
module Stats {

  /** How often `v` occurs in `col`. */
  function Count<T(==,!new)>(col: seq<T>, v: T): (n: nat)
    ensures n <= |col|
    ensures n == 0 <==> v !in col
  {
    if col == [] then 0
    else (if col[0] == v then 1 else 0) + Count(col[1..], v)
  }

  /** `v` is a most common value of `col`: it occurs, and no value occurs
      more often. */
  ghost predicate IsMode<T(!new)>(col: seq<T>, v: T)
  {
    v in col && forall w :: Count(col, w) <= Count(col, v)
  }

  /** The candidate in `cands` that occurs most often in `col`. */
  function MostFrequentOf<T(==,!new)>(col: seq<T>, cands: seq<T>): (r: T)
    requires |cands| > 0
    ensures r in cands
    ensures forall i :: 0 <= i < |cands| ==> Count(col, cands[i]) <= Count(col, r)
  {
    if |cands| == 1 then cands[0]
    else
      var best := MostFrequentOf(col, cands[1..]);
      if Count(col, cands[0]) >= Count(col, best) then cands[0] else best
  }

  /** `col.mode()[0]` on a non-empty column of strings: a value of maximal
      count. pandas sorts the tied values and shows the first; string order
      is not part of this. */
  function Mode<T(==,!new)>(col: seq<T>): (r: T)
    requires |col| > 0
    ensures IsMode(col, r)
  {
    var r := MostFrequentOf(col, col);
    assert forall w :: Count(col, w) <= Count(col, r) by {
      forall w ensures Count(col, w) <= Count(col, r) {
        if w in col {
          var i :| 0 <= i < |col| && col[i] == w;
        }
      }
    }
    r
  }

  /** A column holding a single value has that value as its only mode. */
  lemma ModeOfConstantColumn<T(!new)>(col: seq<T>, v: T)
    requires |col| > 0 && forall i :: 0 <= i < |col| ==> col[i] == v
    ensures IsMode(col, v)
    ensures forall w :: IsMode(col, w) ==> w == v
  {
    assert col[0] in col;
  }

  /** The smallest candidate among those in `cands` that occur most often
      in `col`. */
  function SmallestMostFrequentOf(col: seq<int>, cands: seq<int>): (r: int)
    requires |cands| > 0
    ensures r in cands
    ensures forall i :: 0 <= i < |cands| ==> Count(col, cands[i]) <= Count(col, r)
    ensures forall i :: 0 <= i < |cands| && Count(col, cands[i]) == Count(col, r) ==> r <= cands[i]
  {
    if |cands| == 1 then cands[0]
    else
      var best := SmallestMostFrequentOf(col, cands[1..]);
      var c := cands[0];
      if Count(col, c) > Count(col, best) || (Count(col, c) == Count(col, best) && c <= best)
      then c else best
  }

  /** `col.mode()[0]` on a non-empty numeric column: pandas sorts the most
      common values, so this is the smallest value of maximal count. */
  function SmallestMode(col: seq<int>): (r: int)
    requires |col| > 0
    ensures IsMode(col, r)
    ensures forall w :: IsMode(col, w) ==> r <= w
  {
    var r := SmallestMostFrequentOf(col, col);
    assert forall w :: Count(col, w) <= Count(col, r) by {
      forall w ensures Count(col, w) <= Count(col, r) {
        if w in col {
          var i :| 0 <= i < |col| && col[i] == w;
        }
      }
    }
    assert forall w :: IsMode(col, w) ==> r <= w by {
      forall w | IsMode(col, w) ensures r <= w {
        var i :| 0 <= i < |col| && col[i] == w;
      }
    }
    r
  }

  /** `col.sum()`; a column of non-negative entries has a non-negative
      sum. */
  function Sum(col: seq<int>): (total: int)
    ensures (forall i :: 0 <= i < |col| ==> col[i] >= 0) ==> total >= 0
  {
    if col == [] then 0 else col[0] + Sum(col[1..])
  }

  lemma {:induction false} SumAppend(a: seq<int>, b: seq<int>)
    ensures Sum(a + b) == Sum(a) + Sum(b)
  {
    if a == [] {
      assert a + b == b;
    } else {
      assert (a + b)[1..] == a[1..] + b;
      SumAppend(a[1..], b);
    }
  }

  /** `col.min()` on a non-empty column. */
  function Min(col: seq<int>): (r: int)
    requires |col| > 0
    ensures r in col && forall i :: 0 <= i < |col| ==> r <= col[i]
  {
    if |col| == 1 then col[0]
    else
      var m := Min(col[1..]);
      if col[0] <= m then col[0] else m
  }

  /** `col.max()` on a non-empty column. */
  function Max(col: seq<int>): (r: int)
    requires |col| > 0
    ensures r in col && forall i :: 0 <= i < |col| ==> col[i] <= r
  {
    if |col| == 1 then col[0]
    else
      var m := Max(col[1..]);
      if col[0] >= m then col[0] else m
  }

  /** The most common value lies between the smallest and the largest. */
  lemma MinModeMax(col: seq<int>)
    requires |col| > 0
    ensures Min(col) <= SmallestMode(col) <= Max(col)
  {
    var m := SmallestMode(col);
    var i :| 0 <= i < |col| && col[i] == m;
  }

  /** `df.groupby([c])[c].count()`: each distinct value of the column,
      with the number of rows that hold it. */
  function GroupCounts<T(==,!new)>(col: seq<T>): (r: map<T, nat>)
    ensures forall v :: v in r <==> v in col
    ensures forall v :: v in r ==> r[v] == Count(col, v) && r[v] >= 1
  {
    map v | v in col :: Count(col, v)
  }

  /** The sum of the counts in `col` of the values in `keys`. */
  function SumOfCounts<T(==,!new)>(col: seq<T>, keys: seq<T>): nat
  {
    if keys == [] then 0 else Count(col, keys[0]) + SumOfCounts(col, keys[1..])
  }

  lemma {:induction false} SumOfCountsCons<T(!new)>(x: T, rest: seq<T>, keys: seq<T>)
    ensures SumOfCounts([x] + rest, keys) == Count(keys, x) + SumOfCounts(rest, keys)
  {
    if keys != [] {
      assert ([x] + rest)[1..] == rest;
      SumOfCountsCons(x, rest, keys[1..]);
    }
  }

  lemma {:induction false} CountOfDistinct<T(!new)>(keys: seq<T>, x: T)
    requires x in keys
    requires forall i, j :: 0 <= i < j < |keys| ==> keys[i] != keys[j]
    ensures Count(keys, x) == 1
  {
    if keys[0] != x {
      CountOfDistinct(keys[1..], x);
    }
  }

  lemma {:induction false} SumOfCountsCoversColumn<T(!new)>(col: seq<T>, keys: seq<T>)
    requires forall v :: v in col ==> v in keys
    requires forall i, j :: 0 <= i < j < |keys| ==> keys[i] != keys[j]
    ensures SumOfCounts(col, keys) == |col|
  {
    if col == [] {
      SumOfCountsEmpty(keys);
    } else {
      SumOfCountsCoversColumn(col[1..], keys);
      SumOfCountsCons(col[0], col[1..], keys);
      CountOfDistinct(keys, col[0]);
      assert [col[0]] + col[1..] == col;
    }
  }

  lemma {:induction false} SumOfCountsEmpty<T(!new)>(keys: seq<T>)
    ensures SumOfCounts([], keys) == 0
  {
    if keys != [] {
      SumOfCountsEmpty(keys[1..]);
    }
  }

  /** The sum of the entries of `m` at `keys`. */
  function SumAt<T>(m: map<T, nat>, keys: seq<T>): nat
    requires forall i :: 0 <= i < |keys| ==> keys[i] in m
  {
    if keys == [] then 0 else m[keys[0]] + SumAt(m, keys[1..])
  }

  lemma {:induction false} SumAtGroupCounts<T(!new)>(col: seq<T>, keys: seq<T>)
    requires forall i :: 0 <= i < |keys| ==> keys[i] in GroupCounts(col)
    ensures SumAt(GroupCounts(col), keys) == SumOfCounts(col, keys)
  {
    if keys != [] {
      SumAtGroupCounts(col, keys[1..]);
    }
  }

  /** The group counts add up: listing each group once, in any order, the
      counts sum to the number of rows. */
  lemma GroupCountsAddUp<T(!new)>(col: seq<T>, keys: seq<T>)
    requires forall v :: v in keys <==> v in GroupCounts(col)
    requires forall i, j :: 0 <= i < j < |keys| ==> keys[i] != keys[j]
    ensures SumAt(GroupCounts(col), keys) == |col|
  {
    SumAtGroupCounts(col, keys);
    SumOfCountsCoversColumn(col, keys);
  }
}
