/**
 * The table the loader works on. A parsed file is a header and rows of
 * cells; the cleaned panel is a sequence of rows with the four columns the
 * analysis needs (`Universidade`, `Ano`, `Orcamento`, `IGC`) plus the
 * columns the loaders derive from them (`Orcamento_Milhoes`, `ln_Orcamento`, ...).
 * A missing value (pandas' NaN) is `None`.
 */
module Table {
  import opened Wrappers

  /** One cell as the file parser delivers it. */
  datatype Cell = TextCell(text: string) | IntCell(whole: int) | RealCell(number: real) | EmptyCell

  /** A parsed file: column names as they appear in the file, then the data rows. */
  datatype RawTable = RawTable(header: seq<string>, rows: seq<seq<Cell>>)

  /** The columns the loaders derive; `Label` is the name each is stored under. */
  datatype DerivedColumn = OrcamentoMilhoes | LnOrcamento | LnIgc | PosTeto | Interacao

  function Label(c: DerivedColumn): string {
    match c
    case OrcamentoMilhoes => "Orcamento_Milhoes"
    case LnOrcamento => "ln_Orcamento"
    case LnIgc => "ln_IGC"
    case PosTeto => "Pos_Teto"
    case Interacao => "Interacao"
  }

  /** One university-year observation of the panel. */
  datatype Row = Row(uni: string, ano: int, orcamento: Option<real>, igc: Option<real>,
                     columns: map<DerivedColumn, Option<real>>)

  /** Everything that makes loading give up; the scripts report all of them as one failure. */
  datatype LoadError =
    | NoDataFile
    | Unreadable
    | MissingColumn(name: string)
    | DuplicateColumn(name: string)
    | BadCell(column: string, row: nat)

  /** The columns the pipeline reads, in the order the scripts first touch them. */
  const Required: seq<string> := ["Universidade", "Ano", "IGC", "Orcamento"]

  function Occurrences(header: seq<string>, name: string): (n: nat)
    ensures n == 0 <==> name !in header
  {
    if header == [] then 0
    else Occurrences(header[..|header| - 1], name) + (if header[|header| - 1] == name then 1 else 0)
  }

  function IndexOf(header: seq<string>, name: string): (i: nat)
    requires name in header
    ensures i < |header| && header[i] == name
    ensures forall j :: 0 <= j < i ==> header[j] != name
  {
    if header[0] == name then 0 else 1 + IndexOf(header[1..], name)
  }

  /**
   * Column lookup by label: a label that is absent fails like a pandas
   * KeyError, a label that occurs twice fails like the "label is not
   * unique" / "cannot set a frame with several columns" errors pandas
   * raises for a duplicated label.
   */
  function Locate(header: seq<string>, name: string): (r: Result<nat, LoadError>)
    ensures r.Success? <==> Occurrences(header, name) == 1
    ensures r.Success? ==> r.value == FirstIndex(header, name)
    ensures r.Failure? ==> r.error == if name in header then DuplicateColumn(name) else MissingColumn(name)
  {
    if name !in header then Failure(MissingColumn(name))
    else if Occurrences(header, name) > 1 then Failure(DuplicateColumn(name))
    else Success(IndexOf(header, name))
  }

  /** The positions of the four required columns. */
  datatype Layout = Layout(uni: nat, ano: nat, igc: nat, orcamento: nat)

  /** A short row reads as missing values, as `read_csv` pads it. */
  function CellAt(cells: seq<Cell>, i: nat): Cell {
    if i < |cells| then cells[i] else EmptyCell
  }

  /** A numeric column's value: a number, or missing; text is not a measure. */
  function Measure(c: Cell): Option<Option<real>> {
    match c
    case IntCell(n) => Some(Some(n as real))
    case RealCell(x) => Some(Some(x))
    case EmptyCell => Some(None)
    case TextCell(_) => None
  }

  /** The `k`-th data row read through the layout. */
  function RowOf(cells: seq<Cell>, at: Layout, k: nat): (r: Result<Row, LoadError>)
    ensures r.Success? <==> CellAt(cells, at.uni).TextCell? && CellAt(cells, at.ano).IntCell?
                            && Measure(CellAt(cells, at.igc)).Some? && Measure(CellAt(cells, at.orcamento)).Some?
    ensures r.Success? ==> && CellAt(cells, at.uni) == TextCell(r.value.uni)
                           && CellAt(cells, at.ano) == IntCell(r.value.ano)
                           && Measure(CellAt(cells, at.igc)) == Some(r.value.igc)
                           && Measure(CellAt(cells, at.orcamento)) == Some(r.value.orcamento)
                           && r.value.columns == map[]
    ensures r.Failure? ==> r.error.BadCell? && r.error.row == k && r.error.column in Required
  {
    match (CellAt(cells, at.uni), CellAt(cells, at.ano), Measure(CellAt(cells, at.igc)), Measure(CellAt(cells, at.orcamento)))
    case (TextCell(u), IntCell(a), Some(g), Some(o)) => Success(Row(u, a, o, g, map[]))
    case (TextCell(_), IntCell(_), Some(_), None) => Failure(BadCell("Orcamento", k))
    case (TextCell(_), IntCell(_), None, _) => Failure(BadCell("IGC", k))
    case (TextCell(_), _, _, _) => Failure(BadCell("Ano", k))
    case _ => Failure(BadCell("Universidade", k))
  }

  function ExtractRows(rows: seq<seq<Cell>>, at: Layout, k: nat): (r: Result<seq<Row>, LoadError>)
    ensures r.Success? <==> forall i :: 0 <= i < |rows| ==> RowOf(rows[i], at, k + i).Success?
    ensures r.Success? ==> |r.value| == |rows|
                           && forall i :: 0 <= i < |rows| ==> RowOf(rows[i], at, k + i) == Success(r.value[i])
    ensures r.Failure? ==> r.error.BadCell?
    decreases |rows|
  {
    if rows == [] then Success([])
    else
      var first :- RowOf(rows[0], at, k);
      var rest :- ExtractRows(rows[1..], at, k + 1);
      Success([first] + rest)
  }

  /**
   * Reading the four required columns out of a (normalised) table: fails on
   * the first required label that is missing or repeated, then on the first
   * ill-typed cell; otherwise one row per data row, in file order.
   */
  function Extract(t: RawTable): (r: Result<seq<Row>, LoadError>)
    ensures r.Success? <==> && HasRequiredColumns(t.header)
                            && forall k :: 0 <= k < |t.rows| ==> RowOf(t.rows[k], LayoutOf(t), k).Success?
    ensures r.Success? ==> |r.value| == |t.rows|
                           && forall k :: 0 <= k < |t.rows| ==> RowOf(t.rows[k], LayoutOf(t), k) == Success(r.value[k])
    ensures r.Failure? && !HasRequiredColumns(t.header) ==>
              && (r.error.MissingColumn? || r.error.DuplicateColumn?)
              && r.error.name in Required && Occurrences(t.header, r.error.name) != 1
              && (r.error.MissingColumn? <==> r.error.name !in t.header)
    ensures r.Failure? && HasRequiredColumns(t.header) ==> r.error.BadCell?
    ensures r.Failure? && r.error.MissingColumn? ==> r.error.name in Required && r.error.name !in t.header
  {
    var iu :- Locate(t.header, "Universidade");
    var ia :- Locate(t.header, "Ano");
    var ig :- Locate(t.header, "IGC");
    var io :- Locate(t.header, "Orcamento");
    ExtractRows(t.rows, Layout(iu, ia, ig, io), 0)
  }

  /** A file without an IGC column fails, and the error names IGC. */
  lemma ExtractMissingIgc()
    ensures Extract(RawTable(["Universidade", "Ano", "Orcamento"], [])) == Failure(MissingColumn("IGC"))
  {
    var h := ["Universidade", "Ano", "Orcamento"];
    assert Occurrences(h, "IGC") == 0;
    assert Occurrences(h[..2], "Universidade") == 1 && Occurrences(h[..1], "Ano") == 0;
    assert Occurrences(h, "Universidade") == 1 && Occurrences(h, "Ano") == 1 && Occurrences(h, "Orcamento") == 1;
    var r := Extract(RawTable(h, []));
    assert r.Failure? && !HasRequiredColumns(h);
  }

  /** Each required label occurs exactly once. */
  predicate HasRequiredColumns(header: seq<string>) {
    && Occurrences(header, "Universidade") == 1 && Occurrences(header, "Ano") == 1
    && Occurrences(header, "IGC") == 1 && Occurrences(header, "Orcamento") == 1
  }

  /** Where the required columns are; only meaningful once each occurs exactly once. */
  function LayoutOf(t: RawTable): Layout {
    Layout(FirstIndex(t.header, "Universidade"), FirstIndex(t.header, "Ano"),
           FirstIndex(t.header, "IGC"), FirstIndex(t.header, "Orcamento"))
  }

  function FirstIndex(header: seq<string>, name: string): nat {
    if name in header then IndexOf(header, name) else 0
  }
}
