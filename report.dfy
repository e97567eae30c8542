/**
 * The report normaliser of app.py: `process_page` reads one page's table,
 * pushes the extractor's header labels down as an ordinary row, renumbers the
 * columns, drops the artefact columns and renumbers again; `process_pdf`
 * stacks the pages 2 to 5, relabels the result with the header of the second
 * table on page 1, erases `Unnamed: <n>` placeholders and adds the derived
 * `Amount` and `Layer` columns.
 *
 * The PDF table extractor is a parameter: a function from a page number to the
 * tables found on that page, in document order.
 */
module Report {
  import opened Wrappers
  import opened Table
  import opened Extractors

  /** A page to read and the positions of the extraction-artefact columns to drop from it. */
  datatype PageConfig = PageConfig(page: nat, drop: seq<int>)

  /** The fixed layout of the report: page numbers and drop lists of app.py:26-29. */
  const ReportLayout: seq<PageConfig> :=
    [PageConfig(2, [4, 10]), PageConfig(3, [9]), PageConfig(4, [9]), PageConfig(5, [9])]

  /** The true header is the second table (index 1) on page 1. */
  const HeaderPage: nat := 1
  const HeaderTable: nat := 1

  const DetailsColumn: Cell := Str("Transaction Details")
  const AccountColumn: Cell := Str("Account\rNo./ (Wallet\r/PG/PA) Id\rTransaction\rId / UTR\rNumber")
  const AmountColumn: Cell := Str("Amount")
  const LayerColumn: Cell := Str("Layer")

  /** `tabula.read_pdf(path, pages=p, multiple_tables=True)`: the tables of page p. */
  type Extractor = nat -> seq<Frame>

  predicate WellFormed(tables: seq<Frame>)
  {
    forall k :: 0 <= k < |tables| ==> tables[k].Rectangular()
  }

  ghost predicate WellFormedExtractor(extract: Extractor)
  {
    forall p :: WellFormed(extract(p))
  }

  // ---------------------------------------------------------------- process_page

  /** `pd.concat([pd.DataFrame([df.columns], columns=df.columns), df], ignore_index=True)`. */
  function PushHeaderDown(t: Frame): (r: Frame)
    requires t.Rectangular()
    ensures r.Rectangular()
  {
    assert forall i :: 1 <= i < |t.rows| + 1 ==> ([t.columns] + t.rows)[i] == t.rows[i - 1];
    Frame(t.columns, [t.columns] + t.rows)
  }

  /** `df.columns = range(df.shape[1])`. */
  function Renumber(f: Frame): (r: Frame)
    requires f.Rectangular()
    ensures r.Rectangular() && r.columns == Positions(|f.columns|) && r.rows == f.rows
  {
    Frame(Positions(|f.columns|), f.rows)
  }

  function DropSet(drop: seq<int>): set<int>
  {
    set d | d in drop
  }

  predicate LabelsInRange(drop: seq<int>, n: nat)
  {
    forall d :: d in drop ==> 0 <= d < n
  }

  /** The drop labels that name no column of a frame of width n. */
  function Missing(drop: seq<int>, n: nat): (m: seq<int>)
    ensures forall d :: d in m <==> d in drop && !(0 <= d < n)
  {
    if drop == [] then []
    else
      var rest := Missing(drop[..|drop| - 1], n);
      var d := drop[|drop| - 1];
      assert drop == drop[..|drop| - 1] + [d];
      if 0 <= d < n then rest else rest + [d]
  }

  /** The positions below n that survive a drop, in ascending order. */
  function KeptPositions(n: nat, drop: set<int>): (kept: seq<nat>)
    ensures |kept| <= n
    ensures forall j :: 0 <= j < |kept| ==> kept[j] < n && kept[j] !in drop
    ensures forall j, j' :: 0 <= j < j' < |kept| ==> kept[j] < kept[j']
    ensures forall k :: 0 <= k < n && k !in drop ==> k in kept
  {
    if n == 0 then [] else KeptPositions(n - 1, drop) + (if n - 1 in drop then [] else [n - 1])
  }

  function DroppedBelow(n: nat, drop: set<int>): set<int>
  {
    set d | d in drop && 0 <= d < n
  }

  /** The kept width is n minus the number of dropped positions below n. */
  lemma {:induction false} KeptCount(n: nat, drop: set<int>)
    ensures |KeptPositions(n, drop)| == n - |DroppedBelow(n, drop)|
  {
    if n > 0 {
      KeptCount(n - 1, drop);
      if n - 1 in drop {
        assert DroppedBelow(n, drop) == DroppedBelow(n - 1, drop) + {n - 1};
      } else {
        assert DroppedBelow(n, drop) == DroppedBelow(n - 1, drop);
      }
    }
  }

  /** `drop(columns=...)` on one row: the cells at positions outside `drop`, in order. */
  function DropRow(row: seq<Cell>, drop: set<int>): (r: seq<Cell>)
    ensures |r| == |KeptPositions(|row|, drop)|
  {
    if row == [] then []
    else
      var n := |row|;
      DropRow(row[..n - 1], drop) + (if n - 1 in drop then [] else [row[n - 1]])
  }

  /** Cell j of a dropped row is the cell at the j-th kept position. */
  lemma {:induction false} DropRowKept(row: seq<Cell>, drop: set<int>)
    ensures forall j :: 0 <= j < |DropRow(row, drop)| ==>
              DropRow(row, drop)[j] == row[KeptPositions(|row|, drop)[j]]
  {
    if row != [] {
      var n := |row|;
      var init := row[..n - 1];
      DropRowKept(init, drop);
      var r, r0 := DropRow(row, drop), DropRow(init, drop);
      var kept, kept0 := KeptPositions(n, drop), KeptPositions(n - 1, drop);
      forall j | 0 <= j < |r|
        ensures r[j] == row[kept[j]]
      {
        if j < |r0| {
          assert r[j] == r0[j] && kept[j] == kept0[j];
        }
      }
    }
  }

  /** `drop(columns=...)` on every row. */
  function DropRows(rows: seq<seq<Cell>>, drop: set<int>): (r: seq<seq<Cell>>)
    ensures |r| == |rows|
    ensures forall i :: 0 <= i < |rows| ==> r[i] == DropRow(rows[i], drop)
  {
    if rows == [] then [] else DropRows(rows[..|rows| - 1], drop) + [DropRow(rows[|rows| - 1], drop)]
  }

  /** Cell j of dropped row i is the cell of row i at the j-th kept position. */
  lemma DropRowsKept(rows: seq<seq<Cell>>, drop: set<int>, i: nat, n: nat)
    requires i < |rows| && |rows[i]| == n
    ensures |DropRows(rows, drop)[i]| == |KeptPositions(n, drop)|
    ensures forall j :: 0 <= j < |KeptPositions(n, drop)| ==> DropRows(rows, drop)[i][j] == rows[i][KeptPositions(n, drop)[j]]
  {
    DropRowKept(rows[i], drop);
  }

  /** `df.drop(columns=drop)` on a renumbered frame: a label that names no column raises KeyError. */
  function DropColumns(f: Frame, drop: seq<int>): (r: Result<Frame, Error>)
    requires f.Rectangular() && f.columns == Positions(|f.columns|)
    ensures r.Err? <==> !LabelsInRange(drop, |f.columns|)
    ensures r.Err? ==> r.error == DropKeyError(Missing(drop, |f.columns|))
    ensures r.Ok? ==> r.value.Rectangular() && |r.value.rows| == |f.rows|
  {
    if !LabelsInRange(drop, |f.columns|) then Err(DropKeyError(Missing(drop, |f.columns|)))
    else Ok(Frame(DropRow(f.columns, DropSet(drop)), DropRows(f.rows, DropSet(drop))))
  }

  /** `process_page(pdf_path, page, drop_columns)`, given the tables the extractor found on that page. */
  function ProcessPage(tables: seq<Frame>, drop: seq<int>): (r: Result<Frame, Error>)
    requires WellFormed(tables)
    ensures |tables| == 0 ==> r == Err(TableIndexError)
    ensures |tables| > 0 ==> (r.Err? <==> !LabelsInRange(drop, |tables[0].columns|))
    ensures |tables| > 0 && r.Err? ==> r.error == DropKeyError(Missing(drop, |tables[0].columns|))
    ensures r.Ok? ==> r.value.Rectangular() && r.value.columns == Positions(|r.value.columns|)
  {
    if |tables| == 0 then Err(TableIndexError) else ProcessTable(tables[0], drop)
  }

  /** Lines 14-17 of process_page, on the first table of the page. */
  function ProcessTable(t: Frame, drop: seq<int>): (r: Result<Frame, Error>)
    requires t.Rectangular()
    ensures r.Err? <==> !LabelsInRange(drop, |t.columns|)
    ensures r.Err? ==> r.error == DropKeyError(Missing(drop, |t.columns|))
    ensures r.Ok? ==> r.value.Rectangular() && r.value.columns == Positions(|r.value.columns|)
  {
    match DropColumns(Renumber(PushHeaderDown(t)), drop)
    case Err(e) => Err(e)
    case Ok(kept) => Ok(Renumber(kept))
  }

  /** A successful page frame is the dropped form of the table with its labels pushed down as row 0. */
  lemma ProcessTableShape(t: Frame, drop: seq<int>)
    requires t.Rectangular() && ProcessTable(t, drop).Ok?
    ensures LabelsInRange(drop, |t.columns|)
    ensures ProcessTable(t, drop).value.rows == DropRows([t.columns] + t.rows, DropSet(drop))
  {
  }

  /** Row 0 of a page frame is the table's header labels at the kept positions. */
  lemma ProcessTableHeader(t: Frame, drop: seq<int>)
    requires t.Rectangular() && ProcessTable(t, drop).Ok?
    ensures var r, kept := ProcessTable(t, drop).value, KeptPositions(|t.columns|, DropSet(drop));
            && |r.rows| == |t.rows| + 1
            && |r.rows[0]| == |kept|
            && forall j :: 0 <= j < |kept| ==> r.rows[0][j] == t.columns[kept[j]]
  {
    ProcessTableShape(t, drop);
    DropRowsKept([t.columns] + t.rows, DropSet(drop), 0, |t.columns|);
  }

  /** Row i+1 of a page frame is row i of the table at the kept positions. */
  lemma ProcessTableRow(t: Frame, drop: seq<int>, i: nat)
    requires t.Rectangular() && ProcessTable(t, drop).Ok? && i < |t.rows|
    ensures var r, kept := ProcessTable(t, drop).value, KeptPositions(|t.columns|, DropSet(drop));
            && i + 1 < |r.rows|
            && |r.rows[i + 1]| == |kept|
            && forall j :: 0 <= j < |kept| ==> r.rows[i + 1][j] == t.rows[i][kept[j]]
  {
    var ds, kept := DropSet(drop), KeptPositions(|t.columns|, DropSet(drop));
    var all := [t.columns] + t.rows;
    var rows := ProcessTable(t, drop).value.rows;
    assert rows == DropRows(all, ds) by {
      ProcessTableShape(t, drop);
    }
    assert all[i + 1] == t.rows[i] && |all[i + 1]| == |t.columns|;
    DropRowsKept(all, ds, i + 1, |t.columns|);
  }

  /**
   * The page frame is the extracted table with its header labels as first row,
   * restricted to the kept positions: column j is input column kept[j], the
   * width is N minus the number of dropped positions and the labels are 0..width-1.
   */
  lemma ProcessTableColumns(t: Frame, drop: seq<int>)
    requires t.Rectangular() && ProcessTable(t, drop).Ok?
    ensures var r, kept := ProcessTable(t, drop).value, KeptPositions(|t.columns|, DropSet(drop));
            && |kept| == |t.columns| - |DropSet(drop)|
            && r.columns == Positions(|kept|)
            && |r.rows| == |t.rows| + 1
            && (forall j :: 0 <= j < |kept| ==> r.rows[0][j] == t.columns[kept[j]])
            && (forall i, j :: 0 <= i < |t.rows| && 0 <= j < |kept| ==> r.rows[i + 1][j] == t.rows[i][kept[j]])
  {
    ProcessTableShape(t, drop);
    AllDropsInRange(drop, |t.columns|);
    ProcessTableHeader(t, drop);
    forall i | 0 <= i < |t.rows|
      ensures forall j :: 0 <= j < |KeptPositions(|t.columns|, DropSet(drop))| ==>
                ProcessTable(t, drop).value.rows[i + 1][j] == t.rows[i][KeptPositions(|t.columns|, DropSet(drop))[j]]
    {
      ProcessTableRow(t, drop, i);
    }
  }

  /** With every drop label in range, the dropped set lies below the width. */
  lemma AllDropsInRange(drop: seq<int>, n: nat)
    requires LabelsInRange(drop, n)
    ensures |KeptPositions(n, DropSet(drop))| == n - |DropSet(drop)|
  {
    assert DroppedBelow(n, DropSet(drop)) == DropSet(drop);
    KeptCount(n, DropSet(drop));
  }

  // ---------------------------------------------------------------- stacking the pages

  /** The width of `pd.concat(frames, axis=0)` when every frame is labelled 0..w-1: the largest w. */
  function MaxWidth(fs: seq<Frame>): (w: nat)
    ensures forall p :: 0 <= p < |fs| ==> |fs[p].columns| <= w
    ensures fs == [] ==> w == 0
    ensures fs != [] ==> exists p :: 0 <= p < |fs| && |fs[p].columns| == w
  {
    if fs == [] then 0
    else
      var m, last := MaxWidth(fs[..|fs| - 1]), |fs[|fs| - 1].columns|;
      assert forall p :: 0 <= p < |fs| - 1 ==> fs[..|fs| - 1][p] == fs[p];
      if m < last then last else m
  }

  /** The total number of rows of the frames. */
  function RowCount(fs: seq<Frame>): nat
  {
    if fs == [] then 0 else RowCount(fs[..|fs| - 1]) + |fs[|fs| - 1].rows|
  }

  /** A row of a narrower frame in the stacked result: pandas fills the missing columns with NaN. */
  function PadRow(row: seq<Cell>, w: nat): (r: seq<Cell>)
    requires |row| <= w
    ensures |r| == w && r[..|row|] == row
    ensures forall k :: |row| <= k < w ==> r[k] == Absent
  {
    row + seq(w - |row|, _ => Absent)
  }

  /** Frames that pandas stacks by position: each is rectangular and labelled 0..w-1. */
  predicate Stackable(fs: seq<Frame>)
  {
    forall p :: 0 <= p < |fs| ==> fs[p].Rectangular() && fs[p].columns == Positions(|fs[p].columns|)
  }

  function StackRows(fs: seq<Frame>, w: nat): (rows: seq<seq<Cell>>)
    requires Stackable(fs) && forall p :: 0 <= p < |fs| ==> |fs[p].columns| <= w
    ensures |rows| == RowCount(fs)
    ensures forall i :: 0 <= i < |rows| ==> |rows[i]| == w
  {
    if fs == [] then []
    else
      var last := fs[|fs| - 1];
      StackRows(fs[..|fs| - 1], w) + seq(|last.rows|, i requires 0 <= i < |last.rows| => PadRow(last.rows[i], w))
  }

  /** `pd.concat([df_1, df_2, df_3, df_4], axis=0)` of frames labelled 0..w-1. */
  function Stack(fs: seq<Frame>): (r: Frame)
    requires Stackable(fs)
    ensures r.Rectangular() && r.columns == Positions(MaxWidth(fs)) && |r.rows| == RowCount(fs)
  {
    Frame(Positions(MaxWidth(fs)), StackRows(fs, MaxWidth(fs)))
  }

  lemma {:induction false} StackRowsAt(fs: seq<Frame>, w: nat, p: nat, i: nat)
    requires Stackable(fs) && forall q :: 0 <= q < |fs| ==> |fs[q].columns| <= w
    requires p < |fs| && i < |fs[p].rows|
    ensures RowCount(fs[..p]) + i < RowCount(fs)
    ensures StackRows(fs, w)[RowCount(fs[..p]) + i] == PadRow(fs[p].rows[i], w)
  {
    var n := |fs|;
    var init := fs[..n - 1];
    if p == n - 1 {
      assert fs[..p] == init;
    } else {
      assert init[..p] == fs[..p];
      assert init[p] == fs[p];
      StackRowsAt(init, w, p, i);
    }
  }

  /**
   * Stacking keeps page order and row order: row i of frame p is row
   * RowCount(fs[..p]) + i of the result, padded with missing cells; frames of
   * the full width appear unchanged. Frame p's block ends where frame p+1's begins.
   */
  lemma StackLayout(fs: seq<Frame>, p: nat, i: nat)
    requires Stackable(fs) && p < |fs| && i < |fs[p].rows|
    ensures RowCount(fs[..p + 1]) == RowCount(fs[..p]) + |fs[p].rows|
    ensures RowCount(fs[..p]) + i < |Stack(fs).rows|
    ensures Stack(fs).rows[RowCount(fs[..p]) + i][..|fs[p].columns|] == fs[p].rows[i]
    ensures Stack(fs).rows[RowCount(fs[..p]) + i][|fs[p].columns|..] == seq(MaxWidth(fs) - |fs[p].columns|, _ => Absent)
    ensures |fs[p].columns| == MaxWidth(fs) ==> Stack(fs).rows[RowCount(fs[..p]) + i] == fs[p].rows[i]
  {
    assert fs[..p + 1][..p] == fs[..p];
    StackRowsAt(fs, MaxWidth(fs), p, i);
  }

  /** The outcomes of the pages in order; the first failure decides the error, as the first exception does. */
  function AllOk(outcomes: seq<Result<Frame, Error>>): (r: Result<seq<Frame>, Error>)
    ensures r.Ok? <==> forall k :: 0 <= k < |outcomes| ==> outcomes[k].Ok?
    ensures r.Ok? ==> |r.value| == |outcomes| && forall k :: 0 <= k < |outcomes| ==> outcomes[k] == Ok(r.value[k])
    ensures r.Err? ==> exists k :: 0 <= k < |outcomes| && outcomes[k] == Err(r.error) &&
                                   forall j :: 0 <= j < k ==> outcomes[j].Ok?
  {
    if outcomes == [] then Ok([])
    else
      match outcomes[0]
      case Err(e) => Err(e)
      case Ok(f) =>
        match AllOk(outcomes[1..])
        case Err(e) =>
          ghost var k :| 0 <= k < |outcomes[1..]| && outcomes[1..][k] == Err(e) &&
                         forall j :: 0 <= j < k ==> outcomes[1..][j].Ok?;
          assert outcomes[k + 1] == Err(e) && forall j :: 0 <= j < k + 1 ==> outcomes[j].Ok?;
          Err(e)
        case Ok(rest) => Ok([f] + rest)
  }

  function PageOutcomes(extract: Extractor, layout: seq<PageConfig>): (o: seq<Result<Frame, Error>>)
    requires WellFormedExtractor(extract)
    ensures |o| == |layout|
    ensures forall k :: 0 <= k < |layout| ==> o[k] == ProcessPage(extract(layout[k].page), layout[k].drop)
  {
    seq(|layout|, k requires 0 <= k < |layout| => ProcessPage(extract(layout[k].page), layout[k].drop))
  }

  /** `process_page` for every page of the layout, in order. */
  function ProcessPages(extract: Extractor, layout: seq<PageConfig>): (r: Result<seq<Frame>, Error>)
    requires WellFormedExtractor(extract)
    ensures r.Ok? ==> Stackable(r.value)
  {
    AllOk(PageOutcomes(extract, layout))
  }

  // ---------------------------------------------------------------- process_pdf

  /** `data.replace(r'^Unnamed: \d+$', np.nan, regex=True)` on every cell. */
  function EraseFrame(f: Frame): (r: Frame)
    requires f.Rectangular()
    ensures r.Rectangular() && r.columns == f.columns && |r.rows| == |f.rows|
    ensures forall i, k :: 0 <= i < |f.rows| && 0 <= k < |f.columns| ==> r.rows[i][k] == EraseCell(f.rows[i][k])
  {
    Frame(f.columns, seq(|f.rows|, i requires 0 <= i < |f.rows| =>
      seq(|f.rows[i]|, k requires 0 <= k < |f.rows[i]| => EraseCell(f.rows[i][k]))))
  }

  /** `column.apply(Money)`. */
  function MapMoney(cells: seq<Cell>): (r: seq<Cell>)
    ensures |r| == |cells| && forall i :: 0 <= i < |cells| ==> r[i] == Money(cells[i])
  {
    seq(|cells|, i requires 0 <= i < |cells| => Money(cells[i]))
  }

  /** `column.apply(Layer)`: the first cell that is not a string raises, so no column is produced. */
  function MapLayer(cells: seq<Cell>): (r: Result<seq<Cell>, Error>)
    ensures r.Ok? <==> forall i :: 0 <= i < |cells| ==> cells[i].Str?
    ensures r.Err? ==> r.error == NotAString
    ensures r.Ok? ==> |r.value| == |cells| && forall i :: 0 <= i < |cells| ==> Layer(cells[i]) == Ok(r.value[i])
  {
    if forall i :: 0 <= i < |cells| ==> cells[i].Str? then
      Ok(seq(|cells|, i requires 0 <= i < |cells| => Layer(cells[i]).value))
    else Err(NotAString)
  }

  /** Lines 23-35: the stacked, relabelled frame with placeholders erased. */
  function Normalised(extract: Extractor): (r: Result<Frame, Error>)
    requires WellFormedExtractor(extract)
    ensures r.Ok? ==> r.value.Rectangular()
  {
    var page1 := extract(HeaderPage);
    if |page1| <= HeaderTable then Err(TableIndexError)
    else
      var header := PushHeaderDown(page1[HeaderTable]).rows[0];
      match ProcessPages(extract, ReportLayout)
      case Err(e) => Err(e)
      case Ok(pages) =>
        match Relabel(Stack(pages), header)
        case Err(e) => Err(e)
        case Ok(data) => Ok(EraseFrame(data))
  }

  /** Lines 49-50: the derived `Amount` and `Layer` columns. */
  function Derive(data: Frame): (r: Result<Frame, Error>)
    requires data.Rectangular()
    ensures r.Ok? ==> r.value.Rectangular() && |r.value.rows| == |data.rows|
    ensures r.Ok? ==> |r.value.columns| >= |data.columns| && r.value.columns[..|data.columns|] == data.columns
  {
    match Lookup(data, DetailsColumn)
    case Err(e) => Err(e)
    case Ok(details) =>
      var withAmount := AssignColumn(data, AmountColumn, MapMoney(details));
      match Lookup(withAmount, AccountColumn)
      case Err(e) => Err(e)
      case Ok(accounts) =>
        match MapLayer(accounts)
        case Err(e) => Err(e)
        case Ok(layers) => Ok(AssignColumn(withAmount, LayerColumn, layers))
  }

  /** `process_pdf(file_path)` as a value: what the method ProcessPdf below computes. */
  function PdfResult(extract: Extractor): (r: Result<Frame, Error>)
    requires WellFormedExtractor(extract)
    ensures Normalised(extract).Err? ==> r == Err(Normalised(extract).error)
    ensures r.Ok? ==> Normalised(extract).Ok? && r.value.Rectangular()
    ensures r.Ok? ==> var data := Normalised(extract).value;
                      && |r.value.rows| == |data.rows|
                      && |r.value.columns| >= |data.columns| && r.value.columns[..|data.columns|] == data.columns
  {
    match Normalised(extract)
    case Err(e) => Err(e)
    case Ok(data) => Derive(data)
  }

  /** The header row the report is relabelled with: the labels the extractor gave the second table of page 1. */
  lemma HeaderIsLabels(t: Frame)
    requires t.Rectangular()
    ensures PushHeaderDown(t).rows[0] == t.columns
  {
  }

  /** Every page processed, in layout order: page k of the result is process_page of the k-th layout entry. */
  lemma ProcessPagesOrder(extract: Extractor, layout: seq<PageConfig>)
    requires WellFormedExtractor(extract)
    ensures ProcessPages(extract, layout).Ok? <==>
              forall k :: 0 <= k < |layout| ==> ProcessPage(extract(layout[k].page), layout[k].drop).Ok?
    ensures ProcessPages(extract, layout).Ok? ==>
              var pages := ProcessPages(extract, layout).value;
              && |pages| == |layout|
              && forall k :: 0 <= k < |layout| ==> Ok(pages[k]) == ProcessPage(extract(layout[k].page), layout[k].drop)
    ensures ProcessPages(extract, layout).Err? ==>
              exists k :: 0 <= k < |layout| && ProcessPage(extract(layout[k].page), layout[k].drop) == Err(ProcessPages(extract, layout).error)
                       && forall j :: 0 <= j < k ==> ProcessPage(extract(layout[j].page), layout[j].drop).Ok?
  {
    var o := PageOutcomes(extract, layout);
    var r := AllOk(o);
    if r.Err? {
      var k :| 0 <= k < |o| && o[k] == Err(r.error) && forall j :: 0 <= j < k ==> o[j].Ok?;
      assert ProcessPage(extract(layout[k].page), layout[k].drop) == Err(r.error);
    }
  }

  /**
   * The failures of lines 23-35, in the order the source meets them: page 1
   * without a second table, then the first page of the layout that fails, then
   * a header whose length differs from the width of the stacked frame.
   */
  lemma NormalisedFails(extract: Extractor)
    requires WellFormedExtractor(extract)
    ensures |extract(HeaderPage)| <= HeaderTable ==> Normalised(extract) == Err(TableIndexError)
    ensures |extract(HeaderPage)| > HeaderTable && ProcessPages(extract, ReportLayout).Err? ==>
              Normalised(extract) == Err(ProcessPages(extract, ReportLayout).error)
    ensures |extract(HeaderPage)| > HeaderTable && ProcessPages(extract, ReportLayout).Ok? ==>
              var w, h := MaxWidth(ProcessPages(extract, ReportLayout).value), |extract(HeaderPage)[HeaderTable].columns|;
              (Normalised(extract).Ok? <==> w == h) &&
              (w != h ==> Normalised(extract) == Err(LengthMismatch(w, h)))
  {
    if |extract(HeaderPage)| > HeaderTable {
      HeaderIsLabels(extract(HeaderPage)[HeaderTable]);
    }
  }

  /**
   * A successful normalisation carries the header labels of page 1, one row
   * per stacked row, and every cell is the stacked cell with placeholders erased.
   */
  lemma NormalisedFrame(extract: Extractor)
    requires WellFormedExtractor(extract) && Normalised(extract).Ok?
    ensures |extract(HeaderPage)| > HeaderTable && ProcessPages(extract, ReportLayout).Ok?
    ensures var r, s := Normalised(extract).value, Stack(ProcessPages(extract, ReportLayout).value);
            && r.columns == extract(HeaderPage)[HeaderTable].columns
            && |r.columns| == |s.columns|
            && |r.rows| == |s.rows| == RowCount(ProcessPages(extract, ReportLayout).value)
            && forall i, k :: 0 <= i < |r.rows| && 0 <= k < |r.columns| ==> r.rows[i][k] == EraseCell(s.rows[i][k])
  {
    HeaderIsLabels(extract(HeaderPage)[HeaderTable]);
  }

  /** After normalisation no cell is a placeholder `Unnamed: <digits>`: they are all missing. */
  lemma NormalisedNoPlaceholders(extract: Extractor)
    requires WellFormedExtractor(extract) && Normalised(extract).Ok?
    ensures var r := Normalised(extract).value;
            forall i, k :: 0 <= i < |r.rows| && 0 <= k < |r.columns| ==> !(r.rows[i][k].Str? && IsPlaceholder(r.rows[i][k].s))
  {
    NormalisedFrame(extract);
  }

  /** The report has one row per page row plus one (the pushed-down header) for each of its four pages. */
  lemma ReportRowCount(extract: Extractor)
    requires WellFormedExtractor(extract) && Normalised(extract).Ok?
    ensures ProcessPages(extract, ReportLayout).Ok?
    ensures var pages := ProcessPages(extract, ReportLayout).value;
            && |pages| == 4
            && (forall k :: 0 <= k < 4 ==> |extract(ReportLayout[k].page)| > 0 &&
                                           |pages[k].rows| == |extract(ReportLayout[k].page)[0].rows| + 1)
            && |Normalised(extract).value.rows| == |pages[0].rows| + |pages[1].rows| + |pages[2].rows| + |pages[3].rows|
  {
    NormalisedFrame(extract);
    ProcessPagesOrder(extract, ReportLayout);
    var pages := ProcessPages(extract, ReportLayout).value;
    forall k | 0 <= k < 4
      ensures |extract(ReportLayout[k].page)| > 0 && |pages[k].rows| == |extract(ReportLayout[k].page)[0].rows| + 1
    {
      var tables := extract(ReportLayout[k].page);
      assert ProcessPage(tables, ReportLayout[k].drop).Ok?;
      ProcessTableColumns(tables[0], ReportLayout[k].drop);
    }
    RowCountOfFour(pages);
  }

  lemma RowCountOfFour(fs: seq<Frame>)
    requires |fs| == 4
    ensures RowCount(fs) == |fs[0].rows| + |fs[1].rows| + |fs[2].rows| + |fs[3].rows|
  {
    assert fs[..4] == fs && fs[..4][..3] == fs[..3] && fs[..3][..2] == fs[..2] && fs[..2][..1] == fs[..1];
    assert RowCount(fs[..1]) == |fs[0].rows|;
    assert RowCount(fs[..2]) == RowCount(fs[..1]) + |fs[1].rows|;
    assert RowCount(fs[..3]) == RowCount(fs[..2]) + |fs[2].rows|;
  }

  /**
   * Lines 49-50 succeed exactly when `Transaction Details` and the account
   * column each label exactly one column and every account cell is a string;
   * otherwise the first failing step decides the error.
   */
  lemma DeriveOutcome(data: Frame)
    requires data.Rectangular()
    ensures Derive(data).Ok? <==>
              && Count(data.columns, DetailsColumn) == 1
              && Count(data.columns, AccountColumn) == 1
              && forall i :: 0 <= i < |data.rows| ==> Lookup(data, AccountColumn).value[i].Str?
    ensures Count(data.columns, DetailsColumn) != 1 ==> Derive(data) == Err(Lookup(data, DetailsColumn).error)
    ensures Count(data.columns, DetailsColumn) == 1 && Count(data.columns, AccountColumn) != 1 ==>
              Derive(data) == Err(Lookup(data, AccountColumn).error)
    ensures Count(data.columns, DetailsColumn) == 1 && Count(data.columns, AccountColumn) == 1 && Derive(data).Err? ==>
              Derive(data) == Err(NotAString)
  {
    if Lookup(data, DetailsColumn).Ok? {
      var details := Lookup(data, DetailsColumn).value;
      AssignOtherLookup(data, AmountColumn, MapMoney(details), AccountColumn);
    }
  }

  /**
   * In a derived frame `Amount` is `Money` of each `Transaction Details` cell,
   * `Layer` is `Layer` of each account cell, and every other column is as it
   * was; the two columns are appended unless their labels already exist.
   */
  lemma DeriveColumns(data: Frame)
    requires data.Rectangular() && Derive(data).Ok?
    requires Count(data.columns, AmountColumn) <= 1 && Count(data.columns, LayerColumn) <= 1
    ensures var r := Derive(data).value;
            && |r.rows| == |data.rows|
            && r.columns == data.columns + (if AmountColumn in data.columns then [] else [AmountColumn])
                                         + (if LayerColumn in data.columns then [] else [LayerColumn])
            && Lookup(data, DetailsColumn).Ok? && Lookup(data, AccountColumn).Ok?
            && Lookup(r, AmountColumn) == Ok(MapMoney(Lookup(data, DetailsColumn).value))
            && Lookup(r, LayerColumn) == MapLayer(Lookup(data, AccountColumn).value)
            && forall other :: other != AmountColumn && other != LayerColumn ==> Lookup(r, other) == Lookup(data, other)
  {
    var details := Lookup(data, DetailsColumn).value;
    var withAmount := AssignColumn(data, AmountColumn, MapMoney(details));
    AssignOtherLookup(data, AmountColumn, MapMoney(details), AccountColumn);
    var layers := MapLayer(Lookup(withAmount, AccountColumn).value).value;
    assert Derive(data).value == AssignColumn(withAmount, LayerColumn, layers);
    AssignTwice(data, AmountColumn, MapMoney(details), LayerColumn, layers);
  }

  /** The frame object that process_pdf builds by stacking and then changes in place. */
  class DataFrame {
    var columns: seq<Cell>
    var rows: seq<seq<Cell>>

    ghost predicate Valid()
      reads this
    {
      AsFrame().Rectangular()
    }

    function AsFrame(): Frame
      reads this
    {
      Frame(columns, rows)
    }

    constructor (f: Frame)
      requires f.Rectangular()
      ensures Valid() && AsFrame() == f
    {
      columns := f.columns;
      rows := f.rows;
    }

    /** `data.columns = labels`; on a length mismatch pandas raises and leaves the frame as it was. */
    method SetColumns(labels: seq<Cell>) returns (failure: Option<Error>)
      requires Valid()
      modifies this
      ensures Valid()
      ensures failure.None? <==> |labels| == |old(columns)|
      ensures failure.None? ==> Relabel(old(AsFrame()), labels) == Ok(AsFrame())
      ensures failure.Some? ==> Relabel(old(AsFrame()), labels) == Err(failure.value) && AsFrame() == old(AsFrame())
    {
      if |labels| == |columns| {
        columns := labels;
        failure := None;
      } else {
        failure := Some(LengthMismatch(|columns|, |labels|));
      }
    }

    /** `data.replace(r'^Unnamed: \d+$', np.nan, regex=True, inplace=True)`. */
    method ReplacePlaceholders()
      requires Valid()
      modifies this
      ensures Valid() && AsFrame() == EraseFrame(old(AsFrame()))
    {
      var erased := EraseFrame(AsFrame());
      rows := erased.rows;
    }

    /** `data[key] = values`. */
    method Assign(key: Cell, values: seq<Cell>)
      requires Valid() && |values| == |rows|
      modifies this
      ensures Valid() && AsFrame() == AssignColumn(old(AsFrame()), key, values)
    {
      var updated := AssignColumn(AsFrame(), key, values);
      columns, rows := updated.columns, updated.rows;
    }
  }

  /** `process_pdf(file_path)`: builds the frame and changes it in place, step by step. */
  method ProcessPdf(extract: Extractor) returns (r: Result<DataFrame, Error>)
    requires WellFormedExtractor(extract)
    ensures r.Err? <==> PdfResult(extract).Err?
    ensures r.Err? ==> r.error == PdfResult(extract).error
    ensures r.Ok? ==> fresh(r.value) && r.value.Valid() && PdfResult(extract) == Ok(r.value.AsFrame())
  {
    var page1 := extract(HeaderPage);
    if |page1| <= HeaderTable {
      return Err(TableIndexError);
    }
    var header := PushHeaderDown(page1[HeaderTable]).rows[0];
    var pages := ProcessPages(extract, ReportLayout);
    if pages.Err? {
      return Err(pages.error);
    }
    var data := new DataFrame(Stack(pages.value));
    var failure := data.SetColumns(header);
    if failure.Some? {
      return Err(failure.value);
    }
    data.ReplacePlaceholders();
    var details := Lookup(data.AsFrame(), DetailsColumn);
    if details.Err? {
      return Err(details.error);
    }
    data.Assign(AmountColumn, MapMoney(details.value));
    var accounts := Lookup(data.AsFrame(), AccountColumn);
    if accounts.Err? {
      return Err(accounts.error);
    }
    var layers := MapLayer(accounts.value);
    if layers.Err? {
      return Err(layers.error);
    }
    data.Assign(LayerColumn, layers.value);
    return Ok(data);
  }
}
