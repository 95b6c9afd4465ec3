/** The decisions of the chart panel: whether a table can be charted and
    with which chart kinds, which kind is drawn, and how the rows are
    converted for the chart library.

    `parseFloat` is a parameter: the model knows only whether its value is
    NaN, a finite number or an infinity. Loading and drawing with the chart
    library is not modelled. */
module ChartDisplay {

  /** What `parseFloat` returns. */
  datatype Number = NaN | Finite(value: real) | PosInfinity | NegInfinity

  /** `!isNaN(val) && isFinite(val)`. */
  predicate IsFiniteNumber(n: Number)
  {
    n.Finite?
  }

  datatype ChartKind = ColumnChart | BarChart | PieChart

  datatype Chartability = Chartability(isChartable: bool, suitableCharts: seq<ChartKind>)

  /** The row cells after the first that parse as finite numbers, counted
      from index `from` on. */
  function NumericCells(row: seq<string>, parseFloat: string -> Number, from: nat): nat
    decreases |row| - from
  {
    if from >= |row| then 0
    else (if IsFiniteNumber(parseFloat(row[from])) then 1 else 0) + NumericCells(row, parseFloat, from + 1)
  }

  /** There is a numeric cell from `from` on exactly when the count is not
      zero. */
  lemma {:induction false} NumericCellsZero(row: seq<string>, parseFloat: string -> Number, from: nat)
    ensures NumericCells(row, parseFloat, from) == 0
        <==> forall i :: from <= i < |row| ==> !IsFiniteNumber(parseFloat(row[i]))
    decreases |row| - from
  {
    if from < |row| {
      NumericCellsZero(row, parseFloat, from + 1);
    }
  }

  /** The chart kinds offered for a table. */
  function SuitableCharts(data: seq<seq<string>>, parseFloat: string -> Number): seq<ChartKind>
  {
    if |data| < 2 || |data[0]| < 2 then []
    else if NumericCells(data[1], parseFloat, 1) == 0 then []
    else if |data[0]| == 2 then [ColumnChart, BarChart, PieChart]
    else [ColumnChart, BarChart]
  }

  /** `getChartability`. Only the first data row is inspected, from its
      second cell on; a table is chartable when it has a header of at least
      two cells, a data row, and a finite number in that data row after its
      first cell. Column and Bar are then offered, and Pie exactly when the
      header has two cells. */
  method GetChartability(data: seq<seq<string>>, parseFloat: string -> Number) returns (r: Chartability)
    ensures r.suitableCharts == SuitableCharts(data, parseFloat)
    ensures r.isChartable <==> r.suitableCharts != []
    ensures r.isChartable <==>
      && |data| >= 2 && |data[0]| >= 2
      && exists i :: 1 <= i < |data[1]| && IsFiniteNumber(parseFloat(data[1][i]))
    ensures r.isChartable ==> r.suitableCharts[..2] == [ColumnChart, BarChart]
    ensures r.isChartable ==> (PieChart in r.suitableCharts <==> |data[0]| == 2)
    ensures r.isChartable ==> |r.suitableCharts| == if |data[0]| == 2 then 3 else 2
  {
    if |data| < 2 || |data[0]| < 2 {
      return Chartability(false, []);
    }
    var firstDataRow := data[1];
    var numericColumns := 0;
    var i := 1;
    while i < |firstDataRow|
      invariant 1 <= i && (i <= |firstDataRow| || i == 1)
      invariant numericColumns + NumericCells(firstDataRow, parseFloat, i) == NumericCells(firstDataRow, parseFloat, 1)
    {
      if IsFiniteNumber(parseFloat(firstDataRow[i])) {
        numericColumns := numericColumns + 1;
      }
      i := i + 1;
    }
    NumericCellsZero(firstDataRow, parseFloat, 1);
    if numericColumns == 0 {
      return Chartability(false, []);
    }
    var suitableCharts := [ColumnChart, BarChart];
    if |data[0]| == 2 {
      suitableCharts := suitableCharts + [PieChart];
    }
    r := Chartability(true, suitableCharts);
  }

  /** The kind `drawChart` draws for the selected kind: Pie only if it was
      selected and is offered, Bar whenever it was selected, Column in every
      other case. */
  function DrawnChart(chartType: ChartKind, suitableCharts: seq<ChartKind>): (k: ChartKind)
    ensures k == PieChart <==> chartType == PieChart && PieChart in suitableCharts
    ensures k == BarChart <==> chartType == BarChart
    ensures k == ColumnChart <==> !(chartType == BarChart || (chartType == PieChart && PieChart in suitableCharts))
  {
    if chartType == PieChart && PieChart in suitableCharts then PieChart
    else if chartType == BarChart then BarChart
    else ColumnChart
  }

  /** For a chartable table, whatever kind is selected, the kind drawn is
      one of those offered. */
  lemma DrawnChartIsOffered(data: seq<seq<string>>, parseFloat: string -> Number, chartType: ChartKind)
    requires SuitableCharts(data, parseFloat) != []
    ensures DrawnChart(chartType, SuitableCharts(data, parseFloat)) in SuitableCharts(data, parseFloat)
  {
    var s := SuitableCharts(data, parseFloat);
    assert s[0] == ColumnChart && s[1] == BarChart;
  }

  /** A cell of the chart's data table. */
  datatype DataCell = Label(text: string) | Value(number: Number) | Null

  /** `parseFloat(cell)`, or `null` when that is NaN; infinities are kept. */
  function ConvertCell(cell: string, parseFloat: string -> Number): (d: DataCell)
    ensures !d.Label?
    ensures d.Null? <==> parseFloat(cell).NaN?
    ensures d.Value? ==> d.number == parseFloat(cell) && !d.number.NaN?
  {
    var num := parseFloat(cell);
    if num.NaN? then Null else Value(num)
  }

  /** A data row: the first cell kept as a label, every other cell
      converted. */
  function ConvertRow(row: seq<string>, parseFloat: string -> Number): (r: seq<DataCell>)
    ensures |r| == |row|
    ensures |row| > 0 ==> r[0] == Label(row[0])
    ensures forall j :: 0 < j < |row| ==> !r[j].Label? && (r[j].Null? <==> parseFloat(row[j]).NaN?)
    ensures forall j :: 0 < j < |row| && r[j].Value? ==> r[j].number == parseFloat(row[j])
  {
    seq(|row|, j requires 0 <= j < |row| => if j > 0 then ConvertCell(row[j], parseFloat) else Label(row[j]))
  }

  /** The converted table: the header row as it is, then the data rows. */
  datatype DataTable = DataTable(header: seq<string>, rows: seq<seq<DataCell>>)

  /** `[header, ...rows]` of `drawChart` (which runs only for a chartable
      table, so the header exists): the header is unchanged; each data row
      keeps its length and its first cell, and every later cell becomes a
      number, or null exactly when it is not a number. */
  function ToDataTable(data: seq<seq<string>>, parseFloat: string -> Number): (t: DataTable)
    requires |data| >= 1
    ensures t.header == data[0] && |t.rows| == |data| - 1
    ensures forall i :: 0 <= i < |t.rows| ==> |t.rows[i]| == |data[i + 1]|
    ensures forall i :: 0 <= i < |t.rows| && |data[i + 1]| > 0 ==> t.rows[i][0] == Label(data[i + 1][0])
    ensures forall i, j :: 0 <= i < |t.rows| && 1 <= j < |data[i + 1]| ==>
      (t.rows[i][j] == Null <==> parseFloat(data[i + 1][j]).NaN?)
      && (t.rows[i][j] != Null ==> t.rows[i][j] == Value(parseFloat(data[i + 1][j])))
  {
    DataTable(data[0], seq(|data| - 1, i requires 0 <= i < |data| - 1 => ConvertRow(data[i + 1], parseFloat)))
  }
}
