/**
 * The two loaders, step by step as the scripts run them: the dashboard's
 * `carregar_dados` (an uploaded file) and the exploratory script's loading
 * section (the first data file found in the working directory).
 *
 * Both read the file, clean the header, sort by (Universidade, Ano),
 * repair IGC per university and add the derived columns; any exception on
 * the way is an error here.
 */
module Pipeline {
  import opened Wrappers
  import opened Strings
  import opened Table
  import opened Columns
  import opened FileChoice
  import opened Ordering
  import opened Repair
  import opened GroupBy
  import opened Derived

  /** The rows a read file yields once its header is cleaned; an unreadable file is an error. */
  function RowsRead(file: Option<RawTable>): (r: Result<seq<Row>, LoadError>)
    ensures file.None? ==> r == Failure(Unreadable)
    ensures file.Some? ==>
              (r.Success? <==> && HasRequiredColumns(NormalizeHeader(file.value.header))
                               && forall k :: 0 <= k < |file.value.rows| ==>
                                    RowOf(file.value.rows[k], LayoutOf(Normalize(file.value)), k).Success?)
    ensures r.Success? ==> && file.Some? && |r.value| == |file.value.rows|
                           && forall k :: 0 <= k < |r.value| ==>
                                RowOf(file.value.rows[k], LayoutOf(Normalize(file.value)), k) == Success(r.value[k])
    ensures file.Some? && r.Failure? ==>
              if HasRequiredColumns(NormalizeHeader(file.value.header)) then r.error.BadCell?
              else r.error.MissingColumn? || r.error.DuplicateColumn?
    ensures file.Some? && r.Failure? && r.error.MissingColumn? ==>
              && r.error.name in Required
              && forall i :: 0 <= i < |file.value.header| ==> Strip(file.value.header[i]) !in Sources(r.error.name)
  {
    match file
    case None => Failure(Unreadable)
    case Some(t) =>
      var r := Extract(Normalize(t));
      if r.Failure? && r.error.MissingColumn? then
        AbsentAfterNormalize(t, r.error.name);
        r
      else r
  }

  /** The derived columns the exploratory script adds. */
  const AnalysisColumns: set<DerivedColumn> := {LnOrcamento, LnIgc, PosTeto, Interacao}

  /** The derived columns the dashboard adds. */
  const DashboardColumns: set<DerivedColumn> := AnalysisColumns + {OrcamentoMilhoes}

  /**
   * `out` is the cleaned panel of the rows `raw` read from the file: the
   * same rows sorted by (Universidade, Ano), budget and keys untouched, each
   * university's IGC series replaced by its interpolation, and the model
   * columns computed from the row's own fields.
   */
  ghost predicate Cleaned(out: seq<Row>, raw: seq<Row>, ln: real -> real) {
    && |out| == |raw|
    && Sorted(out)
    && BaseOf(out) == BaseOf(SortRows(raw))
    && multiset(BaseOf(out)) == multiset(BaseOf(raw))
    && (forall uni :: IgcOf(out, uni) == Interpolate(IgcOf(SortRows(raw), uni)))
    && (forall k :: 0 <= k < |out| ==> ModelColumnsHold(out[k], ln))
  }

  /** Rows that differ from `a` in the IGC and derived columns alone keep its keys and budgets. */
  lemma SameBase(a: seq<Row>, b: seq<Row>)
    requires |a| == |b|
    requires forall k :: 0 <= k < |a| ==> b[k] == a[k].(igc := b[k].igc, columns := b[k].columns)
    ensures BaseOf(b) == BaseOf(a)
    ensures Sorted(a) ==> Sorted(b)
  {
    assert forall k :: 0 <= k < |a| ==> Base(b[k]) == Base(a[k]);
    if Sorted(a) {
      SortedByKeys(a, b);
    }
  }

  /** The sorted, repaired panel, before any column is derived. */
  lemma RepairedPanel(raw: seq<Row>)
    ensures var panel := GroupTransform(SortRows(raw), Linear);
            && |panel| == |raw|
            && Sorted(panel)
            && BaseOf(panel) == BaseOf(SortRows(raw))
            && multiset(BaseOf(panel)) == multiset(BaseOf(raw))
            && (forall uni :: IgcOf(panel, uni) == Interpolate(IgcOf(SortRows(raw), uni)))
  {
    var sorted := SortRows(raw);
    var panel := GroupTransform(sorted, Linear);
    SortRowsSorted(raw);
    SortRowsPermutesBase(raw);
    SameBase(sorted, panel);
    RepairedSeries(sorted);
  }

  lemma RepairedSeries(rows: seq<Row>)
    ensures forall uni :: IgcOf(GroupTransform(rows, Linear), uni) == Interpolate(IgcOf(rows, uni))
  {
    forall uni ensures IgcOf(GroupTransform(rows, Linear), uni) == Interpolate(IgcOf(rows, uni)) {
      GroupTransformLaw(rows, Linear, uni);
    }
  }

  /** Deriving columns onto the repaired panel, changing nothing else, gives a cleaned panel. */
  lemma DerivedOntoRepaired(raw: seq<Row>, out: seq<Row>, ln: real -> real)
    requires var panel := GroupTransform(SortRows(raw), Linear);
             |out| == |panel| && forall k :: 0 <= k < |out| ==> out[k] == panel[k].(columns := out[k].columns)
    requires forall k :: 0 <= k < |out| ==> ModelColumnsHold(out[k], ln)
    ensures Cleaned(out, raw, ln)
  {
    var panel := GroupTransform(SortRows(raw), Linear);
    RepairedPanel(raw);
    SortedByKeys(panel, out);
    assert BaseOf(out) == BaseOf(panel);
    forall uni ensures IgcOf(out, uni) == IgcOf(panel, uni) {
      IgcOfSameFields(out, panel, uni);
    }
  }

  lemma ReadRowsHaveNoColumns(t: RawTable)
    requires Extract(Normalize(t)).Success?
    ensures var raw := Extract(Normalize(t)).value;
            forall k :: 0 <= k < |raw| ==> raw[k].columns == map[]
  {
    var n := Normalize(t);
    var raw := Extract(n).value;
    forall k | 0 <= k < |raw| ensures raw[k].columns == map[] {
      assert RowOf(n.rows[k], LayoutOf(n), k) == Success(raw[k]);
    }
  }

  /** Rows freshly read carry no derived column, and sorting and repairing add none. */
  lemma PanelHasNoColumns(raw: seq<Row>)
    requires forall k :: 0 <= k < |raw| ==> raw[k].columns == map[]
    ensures var panel := GroupTransform(SortRows(raw), Linear);
            forall k :: 0 <= k < |panel| ==> panel[k].columns == map[]
  {
    var sorted := SortRows(raw);
    SortRowsPermutes(raw);
    forall k | 0 <= k < |sorted| ensures sorted[k].columns == map[] {
      assert sorted[k] in multiset(raw);
    }
  }

  /** `df` is `panel` with the columns `names` added to every row, and nothing else changed. */
  ghost predicate Extends(panel: seq<Row>, df: seq<Row>, names: set<DerivedColumn>) {
    && |df| == |panel|
    && forall k :: 0 <= k < |df| ==>
         && df[k] == panel[k].(columns := df[k].columns)
         && df[k].columns.Keys == panel[k].columns.Keys + names
  }

  /** Rows read from a file, sorted, repaired and extended by `names` carry exactly the columns `names`. */
  lemma OnlyDerivedColumns(raw: seq<Row>, df: seq<Row>, names: set<DerivedColumn>)
    requires forall k :: 0 <= k < |raw| ==> raw[k].columns == map[]
    requires Extends(GroupTransform(SortRows(raw), Linear), df, names)
    ensures forall k :: 0 <= k < |df| ==> df[k].columns.Keys == names
  {
    PanelHasNoColumns(raw);
  }

  lemma ExtendsStep(panel: seq<Row>, df: seq<Row>, names: set<DerivedColumn>, name: DerivedColumn, values: seq<Option<real>>)
    requires Extends(panel, df, names) && |values| == |df|
    ensures Extends(panel, WithColumn(df, name, values), names + {name})
  {
  }

  lemma ExtendsTrans(a: seq<Row>, b: seq<Row>, c: seq<Row>, first: set<DerivedColumn>, second: set<DerivedColumn>)
    requires Extends(a, b, first) && Extends(b, c, second)
    ensures Extends(a, c, first + second)
  {
  }

  /** `Orcamento / 1_000_000`, as a new column. */
  method AddMillionsColumn(df: seq<Row>) returns (out: seq<Row>)
    ensures Extends(df, out, {OrcamentoMilhoes})
    ensures forall k :: 0 <= k < |out| ==> Column(out[k], OrcamentoMilhoes) == InMillions(df[k].orcamento)
    ensures forall k, c :: 0 <= k < |out| && c != OrcamentoMilhoes ==> Column(out[k], c) == Column(df[k], c)
  {
    assert Extends(df, df, {});
    ExtendsStep(df, df, {}, OrcamentoMilhoes, MillionsColumn(df));
    out := WithColumn(df, OrcamentoMilhoes, MillionsColumn(df));
  }

  /** The log columns of a row hold the logarithms of its own budget and IGC. */
  predicate LogsHold(row: Row, ln: real -> real) {
    && Column(row, LnOrcamento) == LogOf(ln, row.orcamento)
    && Column(row, LnIgc) == LogOf(ln, row.igc)
  }

  /** The cap columns of a row: its year's indicator, and that times its own log budget. */
  predicate CapHolds(row: Row) {
    && Column(row, PosTeto) == Some(PostCap(row.ano))
    && Column(row, Interacao) == Times(Column(row, LnOrcamento), Some(PostCap(row.ano)))
  }

  /** `np.log` of the budget and of IGC, as two new columns. */
  method AddLogColumns(df: seq<Row>, ln: real -> real) returns (out: seq<Row>)
    ensures Extends(df, out, {LnOrcamento, LnIgc})
    ensures forall k :: 0 <= k < |out| ==> LogsHold(out[k], ln)
    ensures forall k, c :: 0 <= k < |out| && c != LnOrcamento && c != LnIgc ==> Column(out[k], c) == Column(df[k], c)
  {
    out := df;
    assert Extends(df, out, {});
    ExtendsStep(df, out, {}, LnOrcamento, LogBudgetColumn(ln, out));
    out := WithColumn(out, LnOrcamento, LogBudgetColumn(ln, out));
    ExtendsStep(df, out, {LnOrcamento}, LnIgc, LogIgcColumn(ln, out));
    out := WithColumn(out, LnIgc, LogIgcColumn(ln, out));
  }

  /** The spending-cap indicator and its interaction with the log budget already in place. */
  method AddCapColumns(df: seq<Row>) returns (out: seq<Row>)
    ensures Extends(df, out, {PosTeto, Interacao})
    ensures forall k :: 0 <= k < |out| ==> CapHolds(out[k])
    ensures forall k, c :: 0 <= k < |out| && c != PosTeto && c != Interacao ==> Column(out[k], c) == Column(df[k], c)
  {
    out := df;
    assert Extends(df, out, {});
    ExtendsStep(df, out, {}, PosTeto, PostCapColumn(out));
    out := WithColumn(out, PosTeto, PostCapColumn(out));
    ExtendsStep(df, out, {PosTeto}, Interacao, InteractionColumn(out));
    out := WithColumn(out, Interacao, InteractionColumn(out));
  }

  /** The cap columns added after the log columns complete the model columns. */
  lemma CapAfterLogs(logs: seq<Row>, out: seq<Row>, ln: real -> real)
    requires forall k :: 0 <= k < |logs| ==> LogsHold(logs[k], ln)
    requires Extends(logs, out, {PosTeto, Interacao})
    requires forall k :: 0 <= k < |out| ==> CapHolds(out[k])
    requires forall k, c :: 0 <= k < |out| && c != PosTeto && c != Interacao ==> Column(out[k], c) == Column(logs[k], c)
    ensures forall k :: 0 <= k < |out| ==> ModelColumnsHold(out[k], ln)
  {
    forall k | 0 <= k < |out| ensures ModelColumnsHold(out[k], ln) {
      assert Column(out[k], LnOrcamento) == Column(logs[k], LnOrcamento);
      assert Column(out[k], LnIgc) == Column(logs[k], LnIgc);
    }
  }

  /**
   * Lines 53 to 59 of `carregar_dados`: the budget in millions, the
   * logarithms, the cap indicator and the interaction, in that order.
   */
  method AddDashboardColumns(panel: seq<Row>, ln: real -> real) returns (df: seq<Row>)
    ensures Extends(panel, df, DashboardColumns)
    ensures forall k :: 0 <= k < |df| ==> ModelColumnsHold(df[k], ln)
    ensures forall k :: 0 <= k < |df| ==> Column(df[k], OrcamentoMilhoes) == InMillions(df[k].orcamento)
  {
    df := AddMillionsColumn(panel);
    ghost var millions := df;
    df := AddLogColumns(df, ln);
    ghost var logs := df;
    df := AddCapColumns(df);
    ExtendsTrans(panel, millions, logs, {OrcamentoMilhoes}, {LnOrcamento, LnIgc});
    ExtendsTrans(panel, logs, df, {OrcamentoMilhoes, LnOrcamento, LnIgc}, {PosTeto, Interacao});
    CapAfterLogs(logs, df, ln);
    forall k | 0 <= k < |df| ensures Column(df[k], OrcamentoMilhoes) == InMillions(df[k].orcamento) {
      assert Column(df[k], OrcamentoMilhoes) == Column(logs[k], OrcamentoMilhoes) == Column(millions[k], OrcamentoMilhoes);
      assert df[k].orcamento == panel[k].orcamento;
    }
  }

  /**
   * Lines 51 to 59 of `carregar_dados`: sort, repair IGC (interpolate then
   * forward-fill, per university), then derive the columns.
   */
  method CleanForDashboard(raw: seq<Row>, ln: real -> real) returns (df: seq<Row>)
    ensures Cleaned(df, raw, ln)
    ensures Extends(GroupTransform(SortRows(raw), Linear), df, DashboardColumns)
    ensures forall k :: 0 <= k < |df| ==> Column(df[k], OrcamentoMilhoes) == InMillions(df[k].orcamento)
  {
    df := SortRows(raw);
    df := GroupTransform(df, LinearThenForwardFill);
    TwoPassesEqualOnePass(SortRows(raw));
    df := AddDashboardColumns(df, ln);
    DerivedOntoRepaired(raw, df, ln);
  }

  /**
   * `carregar_dados`: read the upload, clean the header, then clean the
   * panel; an unreadable file or a table without the required columns or
   * with an ill-typed cell is an error.
   */
  method LoadPanel(name: string, content: Bytes, readCsv: (Dialect, Bytes) -> Option<RawTable>,
                   readExcel: Bytes -> Option<RawTable>, ln: real -> real)
    returns (r: Result<seq<Row>, LoadError>)
    ensures var read := RowsRead(Ingest(name, content, readCsv, readExcel));
            read.Failure? ==> r == Failure(read.error)
    ensures var read := RowsRead(Ingest(name, content, readCsv, readExcel));
            read.Success? ==> && r.Success? && Cleaned(r.value, read.value, ln)
                              && forall k :: 0 <= k < |r.value| ==>
                                   && r.value[k].columns.Keys == DashboardColumns
                                   && Column(r.value[k], OrcamentoMilhoes) == InMillions(r.value[k].orcamento)
  {
    var file := Ingest(name, content, readCsv, readExcel);
    if file.None? {
      return Failure(Unreadable);
    }
    var read := Extract(Normalize(file.value));
    if read.Failure? {
      return Failure(read.error);
    }
    var df := CleanForDashboard(read.value, ln);
    ReadRowsHaveNoColumns(file.value);
    OnlyDerivedColumns(read.value, df, DashboardColumns);
    r := Success(df);
  }

  /**
   * The exploratory script's cleaning, lines 45 to 51 and, in its
   * difference-in-differences section, lines 112 to 115: sort, interpolate
   * per university, forward-fill per university, then add the logarithms,
   * the cap indicator and the interaction.
   */
  method CleanForAnalysis(raw: seq<Row>, ln: real -> real) returns (df: seq<Row>)
    ensures Cleaned(df, raw, ln)
    ensures Extends(GroupTransform(SortRows(raw), Linear), df, AnalysisColumns)
  {
    df := SortRows(raw);
    df := GroupTransform(df, Linear);
    df := GroupTransform(df, ForwardFill);
    TwoPassesEqualOnePass(SortRows(raw));
    ghost var panel := df;
    df := AddLogColumns(df, ln);
    ghost var logs := df;
    df := AddCapColumns(df);
    ExtendsTrans(panel, logs, df, {LnOrcamento, LnIgc}, {PosTeto, Interacao});
    CapAfterLogs(logs, df, ln);
    DerivedOntoRepaired(raw, df, ln);
  }

  /**
   * The exploratory script's loading: the first qualifying name in the
   * directory listing is read (its content is `contentOf` that name, read
   * afresh by each attempt), its header cleaned and its panel cleaned. No
   * qualifying name is an error, and so is any failure on the way.
   */
  method PrepareExploratory(listing: seq<string>, contentOf: string -> Bytes,
                            readCsv: (Dialect, Bytes) -> Option<RawTable>,
                            readExcel: Bytes -> Option<RawTable>, ln: real -> real)
    returns (r: Result<seq<Row>, LoadError>)
    ensures (forall i :: 0 <= i < |listing| ==> !Qualifies(listing[i])) ==> r == Failure(NoDataFile)
    ensures forall i :: FirstQualifying(listing, i) ==>
              var read := RowsRead(Ingest(listing[i], contentOf(listing[i]), readCsv, readExcel));
              && (read.Failure? ==> r == Failure(read.error))
              && (read.Success? ==> && r.Success? && Cleaned(r.value, read.value, ln)
                                    && forall k :: 0 <= k < |r.value| ==> r.value[k].columns.Keys == AnalysisColumns)
  {
    var target := SelectFile(listing);
    if target.None? {
      return Failure(NoDataFile);
    }
    var path := target.value;
    var file := Ingest(path, contentOf(path), readCsv, readExcel);
    if file.None? {
      r := Failure(Unreadable);
    } else {
      var read := Extract(Normalize(file.value));
      if read.Failure? {
        r := Failure(read.error);
      } else {
        var df := CleanForAnalysis(read.value, ln);
        ReadRowsHaveNoColumns(file.value);
        OnlyDerivedColumns(read.value, df, AnalysisColumns);
        r := Success(df);
      }
    }
    forall i | FirstQualifying(listing, i) ensures listing[i] == path {
      FirstQualifyingUnique(listing, i, target);
    }
  }
}
