/**
 * The columns the loader derives, one whole column at a time, from the
 * cleaned fields: the budget in millions, the logarithms, the spending-cap
 * indicator and the difference-in-differences interaction.
 *
 * Floating point is not modelled: arithmetic is exact on `real`, and every
 * non-finite result (NaN, an infinite logarithm) is `None`, as is a missing
 * input. The natural logarithm is foreign code and is passed in as `ln`; it
 * is only ever applied to positive numbers.
 */
module Derived {
  import opened Wrappers
  import opened Table

  const Million: real := 1000000.0

  /** The first year under the federal spending cap. */
  const CapYear: int := 2017

  /** `Orcamento / 1_000_000`. */
  function InMillions(orcamento: Option<real>): (r: Option<real>)
    ensures r.Some? <==> orcamento.Some?
    ensures r.Some? ==> r.value * Million == orcamento.value
  {
    match orcamento
    case Some(v) => Some(v / Million)
    case None => None
  }

  /** `np.log` of one value: finite exactly for positive numbers. */
  function LogOf(ln: real -> real, x: Option<real>): (r: Option<real>)
    ensures r.Some? <==> x.Some? && x.value > 0.0
    ensures r.Some? ==> r.value == ln(x.value)
  {
    if x.Some? && x.value > 0.0 then Some(ln(x.value)) else None
  }

  /** `(Ano >= 2017).astype(int)`. */
  function PostCap(ano: int): (r: real)
    ensures r == 1.0 <==> ano >= CapYear
    ensures r == 0.0 <==> ano < CapYear
  {
    if ano >= CapYear then 1.0 else 0.0
  }

  /** The product of two column values; a non-finite factor makes it non-finite. */
  function Times(x: Option<real>, y: Option<real>): Option<real> {
    if x.Some? && y.Some? then Some(x.value * y.value) else None
  }

  /** A derived column's value in a row; `None` if it is missing or absent. */
  function Column(row: Row, name: DerivedColumn): Option<real> {
    if name in row.columns then row.columns[name] else None
  }

  /** `df[name] = values`: the column is added, or replaced, in every row. */
  function WithColumn(rows: seq<Row>, name: DerivedColumn, values: seq<Option<real>>): (r: seq<Row>)
    requires |values| == |rows|
    ensures |r| == |rows|
    ensures forall k :: 0 <= k < |rows| ==> r[k].columns.Keys == rows[k].columns.Keys + {name}
    ensures forall k :: 0 <= k < |rows| ==> Column(r[k], name) == values[k]
    ensures forall k, c :: 0 <= k < |rows| && c != name ==> Column(r[k], c) == Column(rows[k], c)
    ensures forall k :: 0 <= k < |rows| ==> r[k] == rows[k].(columns := r[k].columns)
  {
    seq(|rows|, k requires 0 <= k < |rows| => rows[k].(columns := rows[k].columns[name := values[k]]))
  }

  function MillionsColumn(rows: seq<Row>): (c: seq<Option<real>>)
    ensures |c| == |rows|
  {
    seq(|rows|, k requires 0 <= k < |rows| => InMillions(rows[k].orcamento))
  }

  function LogBudgetColumn(ln: real -> real, rows: seq<Row>): (c: seq<Option<real>>)
    ensures |c| == |rows|
  {
    seq(|rows|, k requires 0 <= k < |rows| => LogOf(ln, rows[k].orcamento))
  }

  function LogIgcColumn(ln: real -> real, rows: seq<Row>): (c: seq<Option<real>>)
    ensures |c| == |rows|
  {
    seq(|rows|, k requires 0 <= k < |rows| => LogOf(ln, rows[k].igc))
  }

  function PostCapColumn(rows: seq<Row>): (c: seq<Option<real>>)
    ensures |c| == |rows|
  {
    seq(|rows|, k requires 0 <= k < |rows| => Some(PostCap(rows[k].ano)))
  }

  /** `df['ln_Orcamento'] * df['Pos_Teto']`, read from the columns already in place. */
  function InteractionColumn(rows: seq<Row>): (c: seq<Option<real>>)
    ensures |c| == |rows|
  {
    seq(|rows|, k requires 0 <= k < |rows| => Times(Column(rows[k], LnOrcamento), Column(rows[k], PosTeto)))
  }

  /** The derived columns both scripts add, as functions of the row's own fields. */
  predicate ModelColumnsHold(row: Row, ln: real -> real) {
    && Column(row, LnOrcamento) == LogOf(ln, row.orcamento)
    && Column(row, LnIgc) == LogOf(ln, row.igc)
    && Column(row, PosTeto) == Some(PostCap(row.ano))
    && Column(row, Interacao) == Times(LogOf(ln, row.orcamento), Some(PostCap(row.ano)))
  }

  /**
   * What the indicator and the interaction mean: `Pos_Teto` is 1 exactly
   * from 2017 on and 0 before; for a positive budget `Interacao` is
   * `ln(Orcamento)` from 2017 on and 0 before; without a positive budget it
   * is not finite.
   */
  lemma InteractionMeaning(row: Row, ln: real -> real)
    requires ModelColumnsHold(row, ln)
    ensures Column(row, PosTeto) == Some(1.0) <==> row.ano >= CapYear
    ensures Column(row, PosTeto) == Some(0.0) <==> row.ano < CapYear
    ensures row.orcamento.Some? && row.orcamento.value > 0.0 ==>
              Column(row, Interacao) == Some(if row.ano >= CapYear then ln(row.orcamento.value) else 0.0)
    ensures !(row.orcamento.Some? && row.orcamento.value > 0.0) ==> Column(row, Interacao).None?
  {
  }
}
