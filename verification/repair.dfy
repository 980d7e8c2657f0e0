/**
 * Repair of one university's IGC series (its values in panel order, a
 * missing value being `None`):
 *
 * - `Interpolate` is pandas' `interpolate(method='linear')` with its
 *   defaults: the row positions (not the years) are the x-coordinates, the
 *   known values are joined by straight lines, positions after the last
 *   known value take that value (the interpolator clamps at the right end),
 *   and positions before the first known value stay missing (the default
 *   forward limit direction preserves leading gaps);
 * - `Ffill` is `ffill()`: every missing value takes the last known value
 *   before it, and leading gaps stay missing.
 *
 * `Interpolate` is written the way the library computes it (evaluate the
 * piecewise-linear interpolant through the known points at every missing
 * position); `InterpolatedAt` is the reference reading in terms of each
 * gap's neighbouring known values, and `InterpolateAgrees` proves them
 * equal.
 */
module Repair {
  import opened Wrappers

  type Series = seq<Option<real>>

  /** The position of the last known value strictly before `k`. */
  function LastKnownBefore(s: Series, k: nat): (r: Option<nat>)
    requires k <= |s|
    ensures r.Some? ==> r.value < k && s[r.value].Some? && forall j :: r.value < j < k ==> s[j].None?
    ensures r.None? ==> forall j :: 0 <= j < k ==> s[j].None?
  {
    if k == 0 then None else if s[k - 1].Some? then Some(k - 1) else LastKnownBefore(s, k - 1)
  }

  /** The position of the first known value at or after `k`. */
  function NextKnownFrom(s: Series, k: nat): (r: Option<nat>)
    requires k <= |s|
    ensures r.Some? ==> k <= r.value < |s| && s[r.value].Some? && forall j :: k <= j < r.value ==> s[j].None?
    ensures r.None? ==> forall j :: k <= j < |s| ==> s[j].None?
    decreases |s| - k
  {
    if k == |s| then None else if s[k].Some? then Some(k) else NextKnownFrom(s, k + 1)
  }

  /** The point at `x` on the line through (xi, yi) and (xj, yj). */
  function Lerp(xi: int, yi: real, xj: int, yj: real, x: int): real
    requires xi < xj
  {
    yi + (yj - yi) * (x - xi) as real / (xj - xi) as real
  }

  /** Reference: what position-based linear interpolation leaves at `k`. */
  function InterpolatedAt(s: Series, k: nat): Option<real>
    requires k < |s|
  {
    if s[k].Some? then s[k]
    else match LastKnownBefore(s, k)
      case None => None
      case Some(i) =>
        match NextKnownFrom(s, k + 1)
        case None => s[i]
        case Some(j) => Some(Lerp(i, s[i].value, j, s[j].value, k))
  }

  /** Reference: what forward filling leaves at `k`. */
  function FilledAt(s: Series, k: nat): Option<real>
    requires k < |s|
  {
    if s[k].Some? then s[k]
    else match LastKnownBefore(s, k)
      case None => None
      case Some(i) => s[i]
  }

  predicate Increasing(xs: seq<int>) {
    forall t, u :: 0 <= t < u < |xs| ==> xs[t] < xs[u]
  }

  /** In an increasing sequence, a smaller entry sits at an earlier index. */
  lemma IncreasingOrder(xs: seq<int>, t: nat, u: nat)
    requires Increasing(xs) && t < |xs| && u < |xs| && xs[t] < xs[u]
    ensures t < u
  {
  }

  /** Position `j` holds a known value. */
  predicate Known(s: Series, j: int) {
    0 <= j < |s| && s[j].Some?
  }

  /** The positions of the known values at or after `k`, in order. */
  function KnownFrom(s: Series, k: nat): (xs: seq<int>)
    requires k <= |s|
    ensures Increasing(xs)
    ensures forall t :: 0 <= t < |xs| ==> k <= xs[t] < |s| && s[xs[t]].Some?
    ensures forall j :: k <= j && Known(s, j) ==> j in xs
    decreases |s| - k
  {
    if k == |s| then [] else (if s[k].Some? then [k] else []) + KnownFrom(s, k + 1)
  }

  function ValuesAt(s: Series, xs: seq<int>): (ys: seq<real>)
    requires forall t :: 0 <= t < |xs| ==> 0 <= xs[t] < |s| && s[xs[t]].Some?
    ensures |ys| == |xs|
  {
    seq(|xs|, t requires 0 <= t < |xs| => s[xs[t]].value)
  }

  /**
   * The piecewise-linear interpolant through the points (xs[t], ys[t]),
   * constant beyond either end.
   */
  function NpInterp(x: int, xs: seq<int>, ys: seq<real>): real
    requires |xs| == |ys| > 0 && Increasing(xs)
  {
    if x <= xs[0] || |xs| == 1 then ys[0]
    else if x < xs[1] then Lerp(xs[0], ys[0], xs[1], ys[1], x)
    else NpInterp(x, xs[1..], ys[1..])
  }

  /** `interpolate(method='linear')` on one series. */
  function Interpolate(s: Series): (r: Series)
    ensures |r| == |s|
  {
    var xs := KnownFrom(s, 0);
    seq(|s|, k requires 0 <= k < |s| => InterpolationEntry(s, xs, ValuesAt(s, xs), k))
  }

  /** One position of `Interpolate`: known values stay, leading gaps stay, the rest is read off the interpolant. */
  function InterpolationEntry(s: Series, xs: seq<int>, ys: seq<real>, k: nat): Option<real>
    requires k < |s| && |xs| == |ys| && Increasing(xs)
  {
    if s[k].Some? then s[k]
    else if xs == [] || k < xs[0] then None
    else Some(NpInterp(k, xs, ys))
  }

  /** `ffill()` on one series: carry the last value seen forward. */
  function Ffill(s: Series): (r: Series)
    ensures |r| == |s|
  {
    if s == [] then []
    else
      var p := Ffill(s[..|s| - 1]);
      p + [if s[|s| - 1].Some? then s[|s| - 1] else if p == [] then None else p[|p| - 1]]
  }

  /** The dashboard's repair: `interpolate(method='linear').fillna(method='ffill')`. */
  function InterpolateThenFfill(s: Series): (r: Series)
    ensures |r| == |s|
  {
    Ffill(Interpolate(s))
  }

  // ---------------------------------------------------------------------
  // The interpolant between and beyond the known points

  lemma {:induction false} NpInterpSegment(x: int, xs: seq<int>, ys: seq<real>, t: nat)
    requires |xs| == |ys| > 0 && Increasing(xs)
    requires t + 1 < |xs| && xs[t] < x < xs[t + 1]
    ensures NpInterp(x, xs, ys) == Lerp(xs[t], ys[t], xs[t + 1], ys[t + 1], x)
  {
    if t > 0 {
      assert xs[0] < xs[1] <= xs[t];
      NpInterpSegment(x, xs[1..], ys[1..], t - 1);
    }
  }

  lemma {:induction false} NpInterpBeyondLast(x: int, xs: seq<int>, ys: seq<real>)
    requires |xs| == |ys| > 0 && Increasing(xs)
    requires x > xs[|xs| - 1]
    ensures NpInterp(x, xs, ys) == ys[|ys| - 1]
  {
    if |xs| > 1 {
      assert xs[1] <= xs[|xs| - 1];
      NpInterpBeyondLast(x, xs[1..], ys[1..]);
    }
  }

  /** Where a known position sits among the known positions. */
  lemma KnownIndex(s: Series, i: nat) returns (t: nat)
    requires i < |s| && s[i].Some?
    ensures t < |KnownFrom(s, 0)| && KnownFrom(s, 0)[t] == i
  {
    var xs := KnownFrom(s, 0);
    assert Known(s, i);
    t :| 0 <= t < |xs| && xs[t] == i;
  }

  /**
   * The known position that follows `i` among the known positions lies
   * beyond the gap at `k`, and is the first known position after it.
   */
  lemma FollowingKnownIndex(s: Series, t: nat, k: nat)
    requires t + 1 < |KnownFrom(s, 0)|
    requires KnownFrom(s, 0)[t] < k < |s| && s[k].None?
    requires LastKnownBefore(s, k) == Some(KnownFrom(s, 0)[t])
    ensures NextKnownFrom(s, k + 1) == Some(KnownFrom(s, 0)[t + 1])
  {
    var xs := KnownFrom(s, 0);
    var i, p := xs[t], xs[t + 1];
    assert s[p].Some? && i < p;
    assert k < p;
    var next := NextKnownFrom(s, k + 1);
    assert next.Some?;
    var j := next.value;
    var u := KnownIndex(s, j);
    assert xs[t] < xs[u];
    assert t < u;
    assert p <= j;
  }

  lemma AgreesBeforeFirstKnown(s: Series, k: nat)
    requires k < |s| && s[k].None? && LastKnownBefore(s, k).None?
    ensures Interpolate(s)[k] == None
  {
    var xs := KnownFrom(s, 0);
    assert Interpolate(s)[k] == InterpolationEntry(s, xs, ValuesAt(s, xs), k);
    if xs != [] {
      assert s[xs[0]].Some? && xs[0] != k;
      assert k < xs[0];
    }
  }

  /** The known neighbours of a gap are consecutive among the known positions. */
  lemma BracketingIndices(s: Series, k: nat, i: nat, j: nat) returns (t: nat)
    requires k < |s| && s[k].None? && LastKnownBefore(s, k) == Some(i) && NextKnownFrom(s, k + 1) == Some(j)
    ensures t + 1 < |KnownFrom(s, 0)| && KnownFrom(s, 0)[t] == i && KnownFrom(s, 0)[t + 1] == j
  {
    var xs := KnownFrom(s, 0);
    t := KnownIndex(s, i);
    var u := KnownIndex(s, j);
    IncreasingOrder(xs, t, u);
    FollowingKnownIndex(s, t, k);
  }

  lemma AgreesBetweenKnown(s: Series, k: nat, i: nat, j: nat)
    requires k < |s| && s[k].None? && LastKnownBefore(s, k) == Some(i) && NextKnownFrom(s, k + 1) == Some(j)
    ensures Interpolate(s)[k] == Some(Lerp(i, s[i].value, j, s[j].value, k))
  {
    var xs := KnownFrom(s, 0);
    var ys := ValuesAt(s, xs);
    var t := BracketingIndices(s, k, i, j);
    assert xs[0] <= xs[t] < k;
    assert Interpolate(s)[k] == InterpolationEntry(s, xs, ys, k) == Some(NpInterp(k, xs, ys));
    NpInterpSegment(k, xs, ys, t);
    assert ys[t] == s[i].value && ys[t + 1] == s[j].value;
  }

  lemma AgreesAfterLastKnown(s: Series, k: nat, i: nat)
    requires k < |s| && s[k].None? && LastKnownBefore(s, k) == Some(i) && NextKnownFrom(s, k + 1).None?
    ensures Interpolate(s)[k] == s[i]
  {
    var xs := KnownFrom(s, 0);
    var ys := ValuesAt(s, xs);
    assert Interpolate(s)[k] == InterpolationEntry(s, xs, ys, k);
    var t := KnownIndex(s, i);
    assert InterpolationEntry(s, xs, ys, k) == Some(NpInterp(k, xs, ys));
    if t + 1 < |xs| {
      FollowingKnownIndex(s, t, k);
    }
    NpInterpBeyondLast(k, xs, ys);
  }

  /** The library's computation and the neighbour-based reading agree everywhere. */
  lemma InterpolateAgrees(s: Series, k: nat)
    requires k < |s|
    ensures Interpolate(s)[k] == InterpolatedAt(s, k)
  {
    if s[k].None? {
      match LastKnownBefore(s, k)
      case None =>
        AgreesBeforeFirstKnown(s, k);
      case Some(i) =>
        match NextKnownFrom(s, k + 1)
        case Some(j) =>
          AgreesBetweenKnown(s, k, i, j);
        case None =>
          AgreesAfterLastKnown(s, k, i);
    }
  }

  // ---------------------------------------------------------------------
  // Forward fill

  lemma {:induction false} LastKnownBeforePrefix(s: Series, m: nat, k: nat)
    requires k <= m <= |s|
    ensures LastKnownBefore(s[..m], k) == LastKnownBefore(s, k)
  {
    if k > 0 {
      LastKnownBeforePrefix(s, m, k - 1);
    }
  }

  /**
   * `Ffill` keeps every known value, gives every other position the last
   * known value before it, and leaves positions before the first known
   * value missing.
   */
  lemma {:induction false} FfillAgrees(s: Series, k: nat)
    requires k < |s|
    ensures Ffill(s)[k] == FilledAt(s, k)
    decreases |s|
  {
    var n := |s|;
    var init := s[..n - 1];
    var p := Ffill(init);
    assert Ffill(s) == p + [if s[n - 1].Some? then s[n - 1] else if p == [] then None else p[|p| - 1]];
    if k < n - 1 {
      FfillAgrees(init, k);
      LastKnownBeforePrefix(s, n - 1, k);
      assert Ffill(s)[k] == p[k] && init[k] == s[k];
      var last := LastKnownBefore(s, k);
      assert last.Some? ==> init[last.value] == s[last.value];
      assert FilledAt(init, k) == FilledAt(s, k);
    } else if s[k].None? && k > 0 {
      FfillAgrees(init, k - 1);
      LastKnownBeforePrefix(s, n - 1, k - 1);
      assert Ffill(s)[k] == p[k - 1] && init[k - 1] == s[k - 1];
      var last := LastKnownBefore(s, k - 1);
      assert last.Some? ==> init[last.value] == s[last.value];
      assert FilledAt(init, k - 1) == FilledAt(s, k);
    }
  }

  // ---------------------------------------------------------------------
  // Locating the neighbours of a gap

  lemma {:induction false} LastKnownIs(s: Series, i: nat, k: nat)
    requires i < k <= |s| && s[i].Some?
    requires forall m :: i < m < k ==> s[m].None?
    ensures LastKnownBefore(s, k) == Some(i)
  {
    if k - 1 != i {
      LastKnownIs(s, i, k - 1);
    }
  }

  lemma {:induction false} NextKnownIs(s: Series, k: nat, j: nat)
    requires k <= j < |s| && s[j].Some?
    requires forall m :: k <= m < j ==> s[m].None?
    ensures NextKnownFrom(s, k) == Some(j)
    decreases j - k
  {
    if k != j {
      NextKnownIs(s, k + 1, j);
    }
  }

  lemma {:induction false} NoKnownFrom(s: Series, k: nat)
    requires k <= |s|
    requires forall m :: k <= m < |s| ==> s[m].None?
    ensures NextKnownFrom(s, k).None?
    decreases |s| - k
  {
    if k < |s| {
      NoKnownFrom(s, k + 1);
    }
  }

  // ---------------------------------------------------------------------
  // What the repair promises

  /** Known values are never changed. */
  lemma InterpolateKeepsKnown(s: Series, k: nat)
    requires k < |s| && s[k].Some?
    ensures Interpolate(s)[k] == s[k]
  {
  }

  /**
   * A gap between known values at positions i and j is filled on the
   * straight line between them, by position.
   */
  lemma InterpolateInteriorGap(s: Series, i: nat, j: nat, k: nat)
    requires i < k < j < |s| && s[i].Some? && s[j].Some?
    requires forall m :: i < m < j ==> s[m].None?
    ensures Interpolate(s)[k] == Some(Lerp(i, s[i].value, j, s[j].value, k))
  {
    InterpolateAgrees(s, k);
    LastKnownIs(s, i, k);
    NextKnownIs(s, k + 1, j);
  }

  /** An interpolated value lies between the two known values around it. */
  lemma InterpolateBetweenNeighbours(s: Series, i: nat, j: nat, k: nat)
    requires i < k < j < |s| && s[i].Some? && s[j].Some?
    requires forall m :: i < m < j ==> s[m].None?
    ensures Interpolate(s)[k].Some?
    ensures var v, a, b := Interpolate(s)[k].value, s[i].value, s[j].value;
            (a <= v <= b) || (b <= v <= a)
  {
    InterpolateInteriorGap(s, i, j, k);
    LerpBetween(i, s[i].value, j, s[j].value, k);
  }

  lemma LerpBetween(xi: int, yi: real, xj: int, yj: real, x: int)
    requires xi < x < xj
    ensures var v := Lerp(xi, yi, xj, yj, x); (yi <= v <= yj) || (yj <= v <= yi)
  {
    var num, den := (x - xi) as real, (xj - xi) as real;
    var f := num / den;
    assert 0.0 < f < 1.0;
    assert (yj - yi) * num / den == (yj - yi) * f;
    if yi <= yj {
      assert 0.0 <= (yj - yi) * f <= yj - yi;
    } else {
      assert (yi - yj) * f <= yi - yj;
      assert yj - yi <= (yj - yi) * f <= 0.0;
    }
  }

  /** After the last known value, every missing value becomes that value. */
  lemma InterpolateTrailingGap(s: Series, i: nat, k: nat)
    requires i < k < |s| && s[i].Some?
    requires forall m :: i < m < |s| ==> s[m].None?
    ensures Interpolate(s)[k] == s[i]
  {
    InterpolateAgrees(s, k);
    LastKnownIs(s, i, k);
    NoKnownFrom(s, k + 1);
  }

  /** Before the first known value nothing is filled. */
  lemma InterpolateLeadingGap(s: Series, k: nat)
    requires k < |s|
    requires forall m :: 0 <= m <= k ==> s[m].None?
    ensures Interpolate(s)[k].None?
  {
    InterpolateAgrees(s, k);
  }

  /**
   * After interpolation the only missing values are the leading ones: a
   * position is missing exactly when no known value occurs at or before it.
   */
  lemma InterpolateMissingExactlyLeading(s: Series, k: nat)
    requires k < |s|
    ensures Interpolate(s)[k].None? <==> LastKnownBefore(s, k + 1).None?
  {
    InterpolateAgrees(s, k);
  }

  /**
   * The forward fill the scripts run after interpolating changes nothing:
   * interpolation has already carried the last known value to the end, and
   * the leading gaps it left are exactly the ones a forward fill also
   * leaves.
   */
  lemma FfillAfterInterpolateIsIdentity(s: Series)
    ensures Ffill(Interpolate(s)) == Interpolate(s)
  {
    var r := Interpolate(s);
    forall k | 0 <= k < |r| ensures Ffill(r)[k] == r[k] {
      FfillAgrees(r, k);
      if r[k].None? {
        LeadingRunStaysMissing(s, k);
      }
    }
  }

  /** A missing interpolated value has only missing interpolated values before it. */
  lemma LeadingRunStaysMissing(s: Series, k: nat)
    requires k < |s| && Interpolate(s)[k].None?
    ensures LastKnownBefore(Interpolate(s), k).None?
  {
    var r := Interpolate(s);
    InterpolateMissingExactlyLeading(s, k);
    forall j | 0 <= j < k ensures r[j].None? {
      InterpolateMissingExactlyLeading(s, j);
      assert LastKnownBefore(s, j + 1).None?;
    }
  }

  /** Interpolating a second time changes nothing. */
  lemma InterpolateIdempotent(s: Series)
    ensures Interpolate(Interpolate(s)) == Interpolate(s)
  {
    var r := Interpolate(s);
    forall k | 0 <= k < |r| ensures Interpolate(r)[k] == r[k] {
      InterpolateAgrees(r, k);
      if r[k].None? {
        LeadingRunStaysMissing(s, k);
      }
    }
  }

  /** The worked example: [10, _, 14, _] becomes [10, 12, 14, 14]. */
  lemma RepairExampleInteriorAndTrailing(s: Series)
    requires s == [Some(10.0), None, Some(14.0), None]
    ensures InterpolateThenFfill(s) == [Some(10.0), Some(12.0), Some(14.0), Some(14.0)]
  {
    var r := Interpolate(s);
    InterpolateKeepsKnown(s, 0);
    InterpolateInteriorGap(s, 0, 2, 1);
    assert Lerp(0, 10.0, 2, 14.0, 1) == 12.0;
    InterpolateKeepsKnown(s, 2);
    InterpolateTrailingGap(s, 2, 3);
    assert r == [Some(10.0), Some(12.0), Some(14.0), Some(14.0)];
    FfillAfterInterpolateIsIdentity(s);
  }


  /** The worked example: [_, 10, 12] keeps its leading gap. */
  lemma RepairExampleLeading(s: Series)
    requires s == [None, Some(10.0), Some(12.0)]
    ensures InterpolateThenFfill(s) == [None, Some(10.0), Some(12.0)]
  {
    InterpolateLeadingGap(s, 0);
    InterpolateKeepsKnown(s, 1);
    InterpolateKeepsKnown(s, 2);
    FfillAfterInterpolateIsIdentity(s);
  }

}
