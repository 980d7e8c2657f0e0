/**
 * `df.groupby('Universidade')['IGC'].transform(f)`: `f` is applied to each
 * university's IGC series (its rows in panel order) and the result is
 * written back into the rows it came from. Nothing but IGC changes.
 */
module GroupBy {
  import opened Wrappers
  import opened Table
  import opened Repair

  /** The per-university repairs the scripts apply. */
  datatype FillRule = Linear | ForwardFill | LinearThenForwardFill

  function ApplyFill(rule: FillRule, s: Series): (r: Series)
    ensures |r| == |s|
  {
    match rule
    case Linear => Interpolate(s)
    case ForwardFill => Ffill(s)
    case LinearThenForwardFill => InterpolateThenFfill(s)
  }

  /** One university's IGC values, in row order. */
  function IgcOf(rows: seq<Row>, uni: string): Series {
    if rows == [] then []
    else IgcOf(rows[..|rows| - 1], uni) + (if rows[|rows| - 1].uni == uni then [rows[|rows| - 1].igc] else [])
  }

  lemma {:induction false} IgcOfPrefixShorter(rows: seq<Row>, m: nat, uni: string)
    requires m <= |rows|
    ensures |IgcOf(rows[..m], uni)| <= |IgcOf(rows, uni)|
    decreases |rows|
  {
    if m < |rows| {
      assert rows[..|rows| - 1][..m] == rows[..m];
      IgcOfPrefixShorter(rows[..|rows| - 1], m, uni);
    } else {
      assert rows[..m] == rows;
    }
  }

  /** How many rows of row `k`'s university come before it: its position in its group. */
  function Rank(rows: seq<Row>, k: nat): (r: nat)
    requires k < |rows|
    ensures r < |IgcOf(rows, rows[k].uni)|
  {
    assert rows[..k + 1][..k] == rows[..k];
    IgcOfPrefixShorter(rows, k + 1, rows[k].uni);
    |IgcOf(rows[..k], rows[k].uni)|
  }

  /** The transform: each row's IGC is replaced by its group's repaired value at its rank. */
  function GroupTransform(rows: seq<Row>, rule: FillRule): (r: seq<Row>)
    ensures |r| == |rows|
    ensures forall k :: 0 <= k < |rows| ==> r[k] == rows[k].(igc := r[k].igc)
  {
    seq(|rows|, k requires 0 <= k < |rows| =>
      rows[k].(igc := ApplyFill(rule, IgcOf(rows, rows[k].uni))[Rank(rows, k)]))
  }

  lemma IgcOfSnoc(rows: seq<Row>, n: nat, uni: string)
    requires n < |rows|
    ensures IgcOf(rows[..n + 1], uni) == IgcOf(rows[..n], uni) + (if rows[n].uni == uni then [rows[n].igc] else [])
  {
    assert rows[..n + 1][..n] == rows[..n];
  }

  /**
   * Rows `g` that match `rows` row by row in university, and whose IGC at
   * every row of `uni` is `f` at that row's rank, have `f` as the series of
   * `uni` (up to the first `n` rows).
   */
  lemma {:induction false} WrittenBackPrefix(rows: seq<Row>, g: seq<Row>, uni: string, f: Series, n: nat)
    requires |g| == |rows| && n <= |rows| && |f| == |IgcOf(rows, uni)|
    requires forall k :: 0 <= k < |rows| ==> g[k].uni == rows[k].uni
    requires forall k :: 0 <= k < |rows| && rows[k].uni == uni ==> g[k].igc == f[Rank(rows, k)]
    ensures |IgcOf(rows[..n], uni)| <= |f|
    ensures IgcOf(g[..n], uni) == f[..|IgcOf(rows[..n], uni)|]
  {
    IgcOfPrefixShorter(rows, n, uni);
    if n > 0 {
      var m := n - 1;
      WrittenBackPrefix(rows, g, uni, f, m);
      IgcOfSnoc(rows, m, uni);
      IgcOfSnoc(g, m, uni);
      var c := |IgcOf(rows[..m], uni)|;
      assert IgcOf(g[..m], uni) == f[..c];
      if rows[m].uni == uni {
        assert Rank(rows, m) == c;
        assert g[m].uni == uni && g[m].igc == f[c];
        assert IgcOf(g[..n], uni) == f[..c] + [f[c]];
        assert f[..c] + [f[c]] == f[..c + 1];
      } else {
        assert g[m].uni != uni;
        assert IgcOf(g[..n], uni) == IgcOf(g[..m], uni);
      }
    }
  }

  /**
   * The groupby law: the transformed panel's series for a university is
   * the repair of that university's original series, and nothing else.
   */
  lemma GroupTransformLaw(rows: seq<Row>, rule: FillRule, uni: string)
    ensures IgcOf(GroupTransform(rows, rule), uni) == ApplyFill(rule, IgcOf(rows, uni))
  {
    var g := GroupTransform(rows, rule);
    var f := ApplyFill(rule, IgcOf(rows, uni));
    WrittenBackPrefix(rows, g, uni, f, |rows|);
    assert rows[..|rows|] == rows;
    assert g[..|rows|] == g;
  }

  /** A university's repaired values depend only on that university's own rows. */
  lemma GroupTransformIsPerUniversity(a: seq<Row>, b: seq<Row>, rule: FillRule, uni: string)
    requires IgcOf(a, uni) == IgcOf(b, uni)
    ensures IgcOf(GroupTransform(a, rule), uni) == IgcOf(GroupTransform(b, rule), uni)
  {
    GroupTransformLaw(a, rule, uni);
    GroupTransformLaw(b, rule, uni);
  }

  lemma {:induction false} SameUniversitiesSameCounts(a: seq<Row>, b: seq<Row>, uni: string)
    requires |a| == |b| && forall k :: 0 <= k < |a| ==> a[k].uni == b[k].uni
    ensures |IgcOf(a, uni)| == |IgcOf(b, uni)|
  {
    if a != [] {
      SameUniversitiesSameCounts(a[..|a| - 1], b[..|b| - 1], uni);
    }
  }

  /** A university's series depends on the universities and IGC values of the rows alone. */
  lemma {:induction false} IgcOfSameFields(a: seq<Row>, b: seq<Row>, uni: string)
    requires |a| == |b|
    requires forall k :: 0 <= k < |a| ==> a[k].uni == b[k].uni && a[k].igc == b[k].igc
    ensures IgcOf(a, uni) == IgcOf(b, uni)
  {
    if a != [] {
      IgcOfSameFields(a[..|a| - 1], b[..|b| - 1], uni);
    }
  }

  /** The transform keeps each row's university, and so its rank in its group. */
  lemma TransformKeepsRank(rows: seq<Row>, rule: FillRule, k: nat)
    requires k < |rows|
    ensures GroupTransform(rows, rule)[k].uni == rows[k].uni
    ensures Rank(GroupTransform(rows, rule), k) == Rank(rows, k)
  {
    var g := GroupTransform(rows, rule);
    SameUniversitiesSameCounts(g[..k], rows[..k], rows[k].uni);
  }

  /** Applying `second` after `first`, each through the groupby, is one groupby of the composition. */
  lemma TransformTwice(rows: seq<Row>, first: FillRule, second: FillRule, k: nat)
    requires k < |rows|
    ensures var g := GroupTransform(rows, first);
            GroupTransform(g, second)[k]
              == rows[k].(igc := ApplyFill(second, ApplyFill(first, IgcOf(rows, rows[k].uni)))[Rank(rows, k)])
  {
    var g := GroupTransform(rows, first);
    TransformKeepsRank(rows, first, k);
    GroupTransformLaw(rows, first, rows[k].uni);
  }

  /**
   * The exploratory script's two passes (interpolate per university, then
   * forward-fill per university) give the dashboard's single pass, and
   * both are just the interpolation.
   */
  lemma TwoPassesEqualOnePass(rows: seq<Row>)
    ensures GroupTransform(GroupTransform(rows, Linear), ForwardFill) == GroupTransform(rows, LinearThenForwardFill)
    ensures GroupTransform(rows, LinearThenForwardFill) == GroupTransform(rows, Linear)
  {
    var two := GroupTransform(GroupTransform(rows, Linear), ForwardFill);
    var one := GroupTransform(rows, LinearThenForwardFill);
    var lin := GroupTransform(rows, Linear);
    forall k | 0 <= k < |rows| ensures two[k] == one[k] && one[k] == lin[k] {
      TransformTwice(rows, Linear, ForwardFill, k);
      FfillAfterInterpolateIsIdentity(IgcOf(rows, rows[k].uni));
    }
  }

  /** Repairing an already repaired panel changes nothing. */
  lemma RepairIdempotent(rows: seq<Row>)
    ensures GroupTransform(GroupTransform(rows, Linear), Linear) == GroupTransform(rows, Linear)
  {
    var twice := GroupTransform(GroupTransform(rows, Linear), Linear);
    var once := GroupTransform(rows, Linear);
    forall k | 0 <= k < |rows| ensures twice[k] == once[k] {
      TransformTwice(rows, Linear, Linear, k);
      InterpolateIdempotent(IgcOf(rows, rows[k].uni));
    }
  }
}
