/** Two chart shapers that bucket amounts by group and cell: the series chart with its table
    (lib/analytics-sets-dashboard-compute.ts) and the daily series pivot
    (lib/analytics-pivot.ts). */
module SeriesCharts {
  import opened Wrappers
  import opened Sequences

  /** An amount bound for one cell of one group. */
  datatype Item = Item(group: string, cell: string, amount: real)

  type Cells = map<string, real>
  type Buckets = map<string, Cells>

  function CellSum(items: seq<Item>, group: string, cell: string): real {
    if items == [] then 0.0 else
      var last := items[|items| - 1];
      CellSum(items[..|items| - 1], group, cell) + if last.group == group && last.cell == cell then last.amount else 0.0
  }

  function GroupSum(items: seq<Item>, group: string): real {
    if items == [] then 0.0 else
      var last := items[|items| - 1];
      GroupSum(items[..|items| - 1], group) + if last.group == group then last.amount else 0.0
  }

  function GroupsOf(items: seq<Item>): set<string> { set i | i in items :: i.group }

  function CellsOf(items: seq<Item>, group: string): set<string> { set i | i in items && i.group == group :: i.cell }

  /** The buckets hold every item, each in its own cell, and nothing else. */
  ghost predicate Holds(b: Buckets, items: seq<Item>) {
    && b.Keys == GroupsOf(items)
    && (forall g | g in b :: b[g].Keys == CellsOf(items, g))
    && (forall g, c | g in b && c in b[g] :: b[g][c] == CellSum(items, g, c))
  }

  function CellOr0(cells: Cells, cell: string): real { if cell in cells then cells[cell] else 0.0 }

  function CellsOr(b: Buckets, group: string): Cells { if group in b then b[group] else map[] }

  function WithItem(b: Buckets, i: Item): Buckets {
    b[i.group := CellsOr(b, i.group)[i.cell := CellOr0(CellsOr(b, i.group), i.cell) + i.amount]]
  }

  lemma {:induction false} NoItemsNoSum(items: seq<Item>, group: string, cell: string)
    requires group !in GroupsOf(items) || cell !in CellsOf(items, group)
    ensures CellSum(items, group, cell) == 0.0
  {
    if items != [] {
      var front, last := items[..|items| - 1], items[|items| - 1];
      assert last in items && forall i | i in front :: i in items;
      assert last.group in GroupsOf(items);
      assert last.group == group ==> last.cell in CellsOf(items, group);
      NoItemsNoSum(front, group, cell);
    }
  }

  lemma OneMoreGroup(items: seq<Item>, i: Item)
    ensures GroupsOf(items + [i]) == GroupsOf(items) + {i.group}
    ensures forall g :: CellsOf(items + [i], g) == CellsOf(items, g) + if i.group == g then {i.cell} else {}
    ensures i.group !in GroupsOf(items) ==> CellsOf(items, i.group) == {}
  {
  }

  lemma OneMoreCell(items: seq<Item>, i: Item, g: string, c: string)
    ensures CellSum(items + [i], g, c) == CellSum(items, g, c) + if i.group == g && i.cell == c then i.amount else 0.0
  {
    assert (items + [i])[..|items|] == items;
  }

  lemma CellOneMore(b: Buckets, items: seq<Item>, i: Item, g: string, c: string)
    requires Holds(b, items) && g in WithItem(b, i) && c in WithItem(b, i)[g]
    ensures WithItem(b, i)[g][c] == CellSum(items + [i], g, c)
  {
    OneMoreCell(items, i, g, c);
    if g !in b || c !in b[g] { NoItemsNoSum(items, g, c); }
  }

  lemma HoldsOneMore(b: Buckets, items: seq<Item>, i: Item)
    requires Holds(b, items)
    ensures Holds(WithItem(b, i), items + [i])
  {
    OneMoreGroup(items, i);
    var b2 := WithItem(b, i);
    forall g, c | g in b2 && c in b2[g] ensures b2[g][c] == CellSum(items + [i], g, c) {
      CellOneMore(b, items, i, g, c);
    }
  }

  method AddItem(b: Buckets, item: Item) returns (updated: Buckets)
    ensures updated == WithItem(b, item)
  {
    var existing := CellsOr(b, item.group);
    updated := b[item.group := existing[item.cell := CellOr0(existing, item.cell) + item.amount]];
  }

  lemma FilterMapNext<T>(rows: seq<T>, f: T -> Option<Item>, i: nat)
    requires i < |rows|
    ensures FilterMap(rows[..i + 1], f) == FilterMap(rows[..i], f) + Head(rows[i], f)
  {
    assert rows[..i + 1] == rows[..i] + [rows[i]];
    FilterMapConcat(rows[..i], [rows[i]], f);
    assert FilterMap([rows[i]], f) == Head(rows[i], f);
  }

  function AfterRow(b: Buckets, item: Option<Item>): Buckets { if item.Some? then WithItem(b, item.value) else b }

  lemma HoldsNext<T>(b: Buckets, rows: seq<T>, itemOf: T -> Option<Item>, i: nat)
    requires i < |rows| && Holds(b, FilterMap(rows[..i], itemOf))
    ensures Holds(AfterRow(b, itemOf(rows[i])), FilterMap(rows[..i + 1], itemOf))
  {
    var seen, item := FilterMap(rows[..i], itemOf), itemOf(rows[i]);
    FilterMapNext(rows, itemOf, i);
    if item.Some? {
      HoldsOneMore(b, seen, item.value);
    } else {
      assert seen + [] == seen;
    }
  }

  /** The accumulation loop both shapers share; `itemOf` says what a row adds, if anything. */
  method Accumulate<T>(rows: seq<T>, itemOf: T -> Option<Item>) returns (b: Buckets)
    ensures Holds(b, FilterMap(rows, itemOf))
  {
    b := map[];
    for i := 0 to |rows|
      invariant Holds(b, FilterMap(rows[..i], itemOf))
    {
      HoldsNext(b, rows, itemOf, i);
      var item := itemOf(rows[i]);
      if item.None? {
        continue;
      }
      b := AddItem(b, item.value);
    }
    assert rows[..|rows|] == rows;
  }

  // ---------------------------------------------------------------- conservation

  function SumOver(items: seq<Item>, group: string, cells: seq<string>): real {
    if cells == [] then 0.0 else CellSum(items, group, cells[0]) + SumOver(items, group, cells[1..])
  }

  lemma {:induction false} SumOverOneMore(items: seq<Item>, i: Item, group: string, cells: seq<string>)
    requires Distinct(cells)
    ensures SumOver(items + [i], group, cells)
            == SumOver(items, group, cells) + if i.group == group && i.cell in cells then i.amount else 0.0
  {
    if cells != [] {
      OneMoreCell(items, i, group, cells[0]);
      SumOverOneMore(items, i, group, cells[1..]);
      assert cells == [cells[0]] + cells[1..];
    }
  }

  /** The cells of a group add up to the group, over any listing that names each of its
      cells once. */
  lemma {:induction false} CellsAddUp(items: seq<Item>, group: string, cells: seq<string>)
    requires Distinct(cells) && forall i | i in items && i.group == group :: i.cell in cells
    ensures SumOver(items, group, cells) == GroupSum(items, group)
  {
    if items == [] {
      SumOfNothing(group, cells);
    } else {
      var front, last := items[..|items| - 1], items[|items| - 1];
      assert last in items && forall i | i in front :: i in items;
      CellsAddUp(front, group, cells);
      SumOverOneMore(front, last, group, cells);
      assert items == front + [last];
    }
  }

  /** The height of a stack of bars, or of one day's stack. */
  function BarSum(bars: Cells, order: seq<string>): real {
    if order == [] then 0.0 else CellOr0(bars, order[0]) + BarSum(bars, order[1..])
  }

  lemma {:induction false} BarsAreCells(bars: Cells, items: seq<Item>, group: string, order: seq<string>)
    requires forall c | c in order :: c in bars && bars[c] == CellSum(items, group, c)
    ensures BarSum(bars, order) == SumOver(items, group, order)
  {
    if order != [] {
      assert order[0] in order && forall c | c in order[1..] :: c in order;
      BarsAreCells(bars, items, group, order[1..]);
    }
  }

  lemma {:induction false} SumOfNothing(group: string, cells: seq<string>)
    ensures SumOver([], group, cells) == 0.0
  {
    if cells != [] { SumOfNothing(group, cells[1..]); }
  }

  // ---------------------------------------------------------------- ordered keys

  /** `le` orders labels without ties between different ones. */
  ghost predicate LabelOrder(le: (string, string) -> bool) {
    TotalPreorder(le) && forall x, y :: le(x, y) && le(y, x) ==> x == y
  }

  /** Lists a set once, in order. */
  method SortedKeys(keys: set<string>, le: (string, string) -> bool) returns (s: seq<string>)
    requires LabelOrder(le)
    ensures Sorted(s, le) && Distinct(s) && forall k :: k in s <==> k in keys
  {
    var listed: seq<string> := [];
    var rest := keys;
    while rest != {}
      invariant rest <= keys && Distinct(listed)
      invariant forall k :: k in listed <==> k in keys && k !in rest
    {
      var k :| k in rest;
      listed := listed + [k];
      rest := rest - {k};
    }
    s := SortBy(listed, le);
    SortSorts(listed, le);
    SortPermutes(listed, le);
    SameElementsDistinct(listed, s);
  }

  lemma SameElementsDistinct(a: seq<string>, b: seq<string>)
    requires multiset(a) == multiset(b) && Distinct(a)
    ensures Distinct(b) && forall k :: k in b <==> k in a
  {
    assert forall k :: k in a <==> k in multiset(a);
    assert forall k :: k in b <==> k in multiset(b);
    forall i, j | 0 <= i < j < |b| ensures b[i] != b[j] {
      AtMostOnce(a, b[i]);
      assert b == b[..i] + [b[i]] + b[i + 1..j] + [b[j]] + b[j + 1..];
      assert multiset(b)[b[i]] >= multiset{b[i], b[j]}[b[i]];
    }
  }

  lemma {:induction false} AtMostOnce(s: seq<string>, k: string)
    requires Distinct(s)
    ensures multiset(s)[k] <= 1
  {
    if s != [] {
      AtMostOnce(s[1..], k);
      assert s == [s[0]] + s[1..];
      assert s[0] !in s[1..];
    }
  }

  // ---------------------------------------------------------------- series chart and table

  datatype SeriesRow = SeriesRow(
    collection: string, series: string, setCount: int, editionCount: int, withFmv: int, fmv: real, median: Option<real>)

  const UNMAPPED_LABEL := "Misc / Unmapped"

  function ChartItem(r: SeriesRow): Option<Item> {
    if r.series == "" then None else Some(Item(r.series, r.collection, r.fmv))
  }

  datatype SeriesChart = SeriesChart(labels: seq<string>, data: seq<Cells>)

  /** What the chart shows: each label with a row once, in order with the unmapped one last,
      and per label one bar per collection holding that collection's value. */
  ghost predicate Charts(chart: SeriesChart, rows: seq<SeriesRow>, le: (string, string) -> bool) {
    var items := FilterMap(rows, ChartItem);
    && |chart.data| == |chart.labels|
    && Distinct(chart.labels)
    && (forall l :: l in chart.labels <==> l in GroupsOf(items))
    && (forall i, j | 0 <= i < j < |chart.labels| ::
          chart.labels[i] != UNMAPPED_LABEL && (chart.labels[j] == UNMAPPED_LABEL || le(chart.labels[i], chart.labels[j])))
    && (forall i | 0 <= i < |chart.labels| ::
          && chart.data[i].Keys == CellsOf(items, chart.labels[i])
          && forall c | c in chart.data[i] :: chart.data[i][c] == CellSum(items, chart.labels[i], c))
  }

  method BuildSeriesChart(rows: seq<SeriesRow>, le: (string, string) -> bool) returns (chart: SeriesChart)
    requires LabelOrder(le)
    ensures Charts(chart, rows, le)
  {
    var labelMap := Accumulate(rows, ChartItem);
    var ordered := SortedKeys(labelMap.Keys - {UNMAPPED_LABEL}, le);
    if UNMAPPED_LABEL in labelMap {
      ordered := ordered + [UNMAPPED_LABEL];
    }
    var data := [];
    for i := 0 to |ordered|
      invariant |data| == i
      invariant forall j | 0 <= j < i :: ordered[j] in labelMap && data[j] == labelMap[ordered[j]]
    {
      assert ordered[i] in ordered;
      data := data + [labelMap[ordered[i]]];
    }
    chart := SeriesChart(ordered, data);
  }

  datatype TableRow = TableRow(
    series: string, setCount: int, editionCount: int, withFmv: int, totalRobust: real, medianTotal: real, medianCount: int)

  function PlusRow(t: TableRow, r: SeriesRow): TableRow {
    TableRow(t.series, t.setCount + r.setCount, t.editionCount + r.editionCount, t.withFmv + r.withFmv, t.totalRobust + r.fmv,
             t.medianTotal + (if r.median.Some? then r.median.value else 0.0),
             t.medianCount + (if r.median.Some? then 1 else 0))
  }

  /** The rollup of a label's rows, in one sum. */
  function TableRowOf(rows: seq<SeriesRow>, series: string): TableRow {
    if rows == [] then TableRow(series, 0, 0, 0, 0.0, 0.0, 0) else
      var front, last := TableRowOf(rows[..|rows| - 1], series), rows[|rows| - 1];
      if last.series == series then PlusRow(front, last) else front
  }

  function LabelsIn(rows: seq<SeriesRow>): set<string> { set r | r in rows :: r.series }

  function RowFor(m: map<string, TableRow>): string -> Option<TableRow> { l => if l in m then Some(m[l]) else None }

  function RollUp(rows: seq<SeriesRow>): map<string, TableRow> {
    map l | l in LabelsIn(rows) :: TableRowOf(rows, l)
  }

  function RowOrNew(m: map<string, TableRow>, series: string): TableRow {
    if series in m then m[series] else TableRow(series, 0, 0, 0, 0.0, 0.0, 0)
  }

  lemma RollUpOneMore(rows: seq<SeriesRow>, r: SeriesRow)
    ensures RollUp(rows + [r]) == RollUp(rows)[r.series := PlusRow(RowOrNew(RollUp(rows), r.series), r)]
  {
    assert (rows + [r])[..|rows|] == rows;
    TableRowOfAbsent(rows, r.series);
    assert LabelsIn(rows + [r]) == LabelsIn(rows) + {r.series};
  }

  method RollUpRows(rows: seq<SeriesRow>) returns (m: map<string, TableRow>)
    ensures m == RollUp(rows)
  {
    m := map[];
    for i := 0 to |rows|
      invariant m == RollUp(rows[..i])
    {
      var r := rows[i];
      RollUpOneMore(rows[..i], r);
      assert rows[..i + 1] == rows[..i] + [r];
      m := m[r.series := PlusRow(RowOrNew(m, r.series), r)];
    }
    assert rows[..|rows|] == rows;
  }

  method BuildSeriesTableRows(rows: seq<SeriesRow>, labels: seq<string>) returns (table: seq<TableRow>)
    ensures table == FilterMap(labels, RowFor(RollUp(rows)))
  {
    var m := RollUpRows(rows);
    table := FilterMap(labels, RowFor(m));
  }

  lemma {:induction false} TableRowOfAbsent(rows: seq<SeriesRow>, series: string)
    ensures series !in LabelsIn(rows) ==> TableRowOf(rows, series) == TableRow(series, 0, 0, 0, 0.0, 0.0, 0)
    ensures TableRowOf(rows, series).series == series
  {
    if rows != [] {
      assert rows[|rows| - 1] in rows && forall r | r in rows[..|rows| - 1] :: r in rows;
      TableRowOfAbsent(rows[..|rows| - 1], series);
    }
  }

  lemma {:induction false} TotalIsGroupSum(rows: seq<SeriesRow>, series: string)
    requires series != ""
    ensures TableRowOf(rows, series).totalRobust == GroupSum(FilterMap(rows, ChartItem), series)
  {
    if rows != [] {
      var front, last := rows[..|rows| - 1], rows[|rows| - 1];
      TotalIsGroupSum(front, series);
      FilterMapConcat(front, [last], ChartItem);
      assert rows == front + [last];
      var items := FilterMap(front, ChartItem);
      if ChartItem(last).Some? {
        assert FilterMap([last], ChartItem) == [ChartItem(last).value];
        assert (items + [ChartItem(last).value])[..|items|] == items;
      } else {
        assert FilterMap([last], ChartItem) == [];
        assert items + [] == items;
      }
    }
  }

  lemma {:induction false} FilterMapTotal<T, U>(s: seq<T>, f: T -> Option<U>)
    requires forall x | x in s :: f(x).Some?
    ensures |FilterMap(s, f)| == |s| && forall i | 0 <= i < |s| :: FilterMap(s, f)[i] == f(s[i]).value
  {
    if s != [] { FilterMapTotal(s[1..], f); }
  }

  lemma StackIsGroup(bars: Cells, items: seq<Item>, group: string, order: seq<string>)
    requires bars.Keys == CellsOf(items, group) && forall c | c in bars :: bars[c] == CellSum(items, group, c)
    requires Distinct(order) && forall c :: c in order <==> c in bars
    ensures BarSum(bars, order) == GroupSum(items, group)
  {
    assert forall x | x in items && x.group == group :: x.cell in CellsOf(items, group);
    CellsAddUp(items, group, order);
    BarsAreCells(bars, items, group, order);
  }

  /** Chart and table agree: over the chart's labels the table has one row per bar stack, in
      the chart's order, and each row's total is the sum of the bars in its stack. */
  lemma ChartAndTableAgree(rows: seq<SeriesRow>, le: (string, string) -> bool, chart: SeriesChart, table: seq<TableRow>)
    requires Charts(chart, rows, le)
    requires table == FilterMap(chart.labels, RowFor(RollUp(rows)))
    ensures |table| == |chart.labels|
    ensures forall i | 0 <= i < |table| :: table[i].series == chart.labels[i]
    ensures forall i, order | 0 <= i < |table| && Distinct(order) && (forall c :: c in order <==> c in chart.data[i]) ::
              BarSum(chart.data[i], order) == table[i].totalRobust
  {
    var items := FilterMap(rows, ChartItem);
    var m := RollUp(rows);
    forall l | l in chart.labels ensures l in m && l != "" {
      var i :| i in items && i.group == l;
      FilterMapMembers(rows, ChartItem, i);
    }
    assert forall l | l in chart.labels :: RowFor(m)(l).Some?;
    FilterMapTotal(chart.labels, RowFor(m));
    forall i | 0 <= i < |table|
      ensures table[i].series == chart.labels[i]
      ensures table[i].totalRobust == GroupSum(items, chart.labels[i])
    {
      assert chart.labels[i] in chart.labels;
      TableRowOfAbsent(rows, chart.labels[i]);
      TotalIsGroupSum(rows, chart.labels[i]);
    }
    forall i, order | 0 <= i < |table| && Distinct(order) && (forall c :: c in order <==> c in chart.data[i])
      ensures BarSum(chart.data[i], order) == table[i].totalRobust
    {
      StackIsGroup(chart.data[i], items, chart.labels[i], order);
    }
  }

  // ---------------------------------------------------------------- what the chart shows, row by row

  /** A sum over items is a sum over the rows they come from. */
  lemma {:induction false} CellSumIs<T>(rows: seq<T>, itemOf: T -> Option<Item>, f: T -> real, group: string, cell: string)
    requires forall r :: f(r) == var i := itemOf(r); if i.Some? && i.value.group == group && i.value.cell == cell then i.value.amount else 0.0
    ensures CellSum(FilterMap(rows, itemOf), group, cell) == SumReal(rows, f)
  {
    if rows != [] {
      var n := |rows| - 1;
      CellSumIs(rows[..n], itemOf, f, group, cell);
      assert rows[..n + 1] == rows;
      FilterMapNext(rows, itemOf, n);
      var items := FilterMap(rows[..n], itemOf);
      if itemOf(rows[n]).Some? {
        OneMoreCell(items, itemOf(rows[n]).value, group, cell);
      } else {
        assert items + [] == items;
      }
    }
  }

  lemma {:induction false} GroupSumIs<T>(rows: seq<T>, itemOf: T -> Option<Item>, f: T -> real, group: string)
    requires forall r :: f(r) == var i := itemOf(r); if i.Some? && i.value.group == group then i.value.amount else 0.0
    ensures GroupSum(FilterMap(rows, itemOf), group) == SumReal(rows, f)
  {
    if rows != [] {
      var n := |rows| - 1;
      GroupSumIs(rows[..n], itemOf, f, group);
      assert rows[..n + 1] == rows;
      FilterMapNext(rows, itemOf, n);
      var items := FilterMap(rows[..n], itemOf);
      if itemOf(rows[n]).Some? {
        assert (items + [itemOf(rows[n]).value])[..|items|] == items;
      } else {
        assert items + [] == items;
      }
    }
  }

  lemma GroupIsThere<T>(rows: seq<T>, itemOf: T -> Option<Item>, group: string)
    ensures group in GroupsOf(FilterMap(rows, itemOf))
            <==> exists r :: r in rows && itemOf(r).Some? && itemOf(r).value.group == group
  {
    var items := FilterMap(rows, itemOf);
    if group in GroupsOf(items) {
      var i :| i in items && i.group == group;
      FilterMapMembers(rows, itemOf, i);
    }
    forall r | r in rows && itemOf(r).Some? && itemOf(r).value.group == group ensures group in GroupsOf(items) {
      FilterMapMembers(rows, itemOf, itemOf(r).value);
    }
  }

  function FmvOf(series: string, collection: string): SeriesRow -> real {
    (r: SeriesRow) => if r.series == series && r.collection == collection then r.fmv else 0.0
  }

  /** The chart, read off the rows: the labels are the rows' own but for the empty one, and
      each bar is the value of the rows with its label and collection. */
  lemma ChartShowsRows(rows: seq<SeriesRow>, le: (string, string) -> bool, chart: SeriesChart)
    requires Charts(chart, rows, le)
    ensures forall l :: l in chart.labels <==> l != "" && exists r :: r in rows && r.series == l
    ensures forall i, c | 0 <= i < |chart.labels| && c in chart.data[i] ::
              chart.data[i][c] == SumReal(rows, FmvOf(chart.labels[i], c))
  {
    forall l ensures l in chart.labels <==> l != "" && exists r :: r in rows && r.series == l {
      GroupIsThere(rows, ChartItem, l);
    }
    forall i, c | 0 <= i < |chart.labels| && c in chart.data[i]
      ensures chart.data[i][c] == SumReal(rows, FmvOf(chart.labels[i], c))
    {
      assert chart.labels[i] in chart.labels;
      CellSumIs(rows, ChartItem, FmvOf(chart.labels[i], c), chart.labels[i], c);
    }
  }

  // ---------------------------------------------------------------- the table loses no row

  const NOTHING := TableRow("", 0, 0, 0, 0.0, 0.0, 0)

  function Plus(a: TableRow, b: TableRow): TableRow {
    TableRow(a.series, a.setCount + b.setCount, a.editionCount + b.editionCount, a.withFmv + b.withFmv,
             a.totalRobust + b.totalRobust, a.medianTotal + b.medianTotal, a.medianCount + b.medianCount)
  }

  function SumTable(table: seq<TableRow>): TableRow {
    if table == [] then NOTHING else Plus(SumTable(table[1..]), table[0])
  }

  /** The columns summed over all rows that a filter keeps. */
  function Total(rows: seq<SeriesRow>, series: string, keep: SeriesRow -> bool): TableRow {
    TableRow(series,
             SumInt(rows, (r: SeriesRow) => if keep(r) then r.setCount else 0),
             SumInt(rows, (r: SeriesRow) => if keep(r) then r.editionCount else 0),
             SumInt(rows, (r: SeriesRow) => if keep(r) then r.withFmv else 0),
             SumReal(rows, (r: SeriesRow) => if keep(r) then r.fmv else 0.0),
             SumReal(rows, (r: SeriesRow) => if keep(r) && r.median.Some? then r.median.value else 0.0),
             SumInt(rows, (r: SeriesRow) => if keep(r) && r.median.Some? then 1 else 0))
  }

  function WithLabel(series: string): SeriesRow -> bool { (r: SeriesRow) => r.series == series }

  function AnyRow(): SeriesRow -> bool { (r: SeriesRow) => true }

  lemma TotalOneMore(rows: seq<SeriesRow>, r: SeriesRow, series: string, keep: SeriesRow -> bool)
    ensures Total(rows + [r], series, keep)
            == if keep(r) then PlusRow(Total(rows, series, keep), r) else Total(rows, series, keep)
  {
    assert (rows + [r])[..|rows|] == rows;
  }

  /** A row of the table holds the sums of its label's rows, column by column. */
  lemma {:induction false} TableRowIsTotal(rows: seq<SeriesRow>, series: string)
    ensures TableRowOf(rows, series) == Total(rows, series, WithLabel(series))
  {
    if rows != [] {
      var front, last := rows[..|rows| - 1], rows[|rows| - 1];
      TableRowIsTotal(front, series);
      TotalOneMore(front, last, series, WithLabel(series));
      assert rows == front + [last];
    }
  }

  /** The table, read off the rows: for each label in turn that some row has, its totals. */
  lemma TableShowsRows(rows: seq<SeriesRow>, labels: seq<string>, table: seq<TableRow>)
    requires table == FilterMap(labels, RowFor(RollUp(rows)))
    ensures forall t :: t in table <==>
              t.series in labels && (exists r :: r in rows && r.series == t.series) && t == Total(rows, t.series, WithLabel(t.series))
  {
    var m := RollUp(rows);
    forall t ensures t in table <==>
        t.series in labels && (exists r :: r in rows && r.series == t.series) && t == Total(rows, t.series, WithLabel(t.series))
    {
      FilterMapMembers(labels, RowFor(m), t);
      if t in table {
        var l :| l in labels && RowFor(m)(l) == Some(t);
        TableRowOfAbsent(rows, l);
        TableRowIsTotal(rows, l);
      }
      if t.series in labels && (exists r :: r in rows && r.series == t.series) && t == Total(rows, t.series, WithLabel(t.series)) {
        TableRowIsTotal(rows, t.series);
        assert t.series in LabelsIn(rows);
        assert RowFor(m)(t.series) == Some(t);
      }
    }
  }

  function SumLabels(rows: seq<SeriesRow>, labels: seq<string>): TableRow {
    if labels == [] then NOTHING else Plus(SumLabels(rows, labels[1..]), TableRowOf(rows, labels[0]))
  }

  lemma {:induction false} TableIsSumLabels(rows: seq<SeriesRow>, labels: seq<string>)
    ensures SumTable(FilterMap(labels, RowFor(RollUp(rows)))) == SumLabels(rows, labels)
  {
    if labels != [] {
      var f := RowFor(RollUp(rows));
      TableIsSumLabels(rows, labels[1..]);
      TableRowOfAbsent(rows, labels[0]);
      FilterMapStep(labels, f);
      var rest := FilterMap(labels[1..], f);
      if labels[0] in LabelsIn(rows) {
        assert FilterMap(labels, f)[1..] == rest && FilterMap(labels, f)[0] == TableRowOf(rows, labels[0]);
      } else {
        assert FilterMap(labels, f) == rest;
      }
    }
  }

  lemma {:induction false} SumLabelsOneMore(rows: seq<SeriesRow>, r: SeriesRow, labels: seq<string>)
    requires Distinct(labels)
    ensures SumLabels(rows + [r], labels)
            == if r.series in labels then PlusRow(SumLabels(rows, labels), r) else SumLabels(rows, labels)
  {
    if labels != [] {
      SumLabelsOneMore(rows, r, labels[1..]);
      assert (rows + [r])[..|rows|] == rows;
      assert labels == [labels[0]] + labels[1..];
      assert labels[0] !in labels[1..];
    }
  }

  lemma {:induction false} SumLabelsIsTotal(rows: seq<SeriesRow>, labels: seq<string>)
    requires Distinct(labels) && forall r | r in rows :: r.series in labels
    ensures SumLabels(rows, labels) == Total(rows, "", AnyRow())
  {
    if rows == [] {
      NoRowsNoSum(labels);
    } else {
      var front, last := rows[..|rows| - 1], rows[|rows| - 1];
      assert last in rows && forall r | r in front :: r in rows;
      SumLabelsIsTotal(front, labels);
      SumLabelsOneMore(front, last, labels);
      TotalOneMore(front, last, "", AnyRow());
      assert rows == front + [last];
    }
  }

  lemma {:induction false} NoRowsNoSum(labels: seq<string>)
    ensures SumLabels([], labels) == NOTHING
  {
    if labels != [] { NoRowsNoSum(labels[1..]); }
  }

  /** Every column of the table adds up to that column over all the rows, for any ordering
      that names each label once. */
  lemma TableConserves(rows: seq<SeriesRow>, labels: seq<string>)
    requires Distinct(labels) && forall r | r in rows :: r.series in labels
    ensures SumTable(FilterMap(labels, RowFor(RollUp(rows)))) == Total(rows, "", AnyRow())
  {
    TableIsSumLabels(rows, labels);
    SumLabelsIsTotal(rows, labels);
  }

  // ---------------------------------------------------------------- the daily pivot

  datatype DailyRow = DailyRow(date: string, seriesLabel: string, volume: real)

  datatype Day = Day(date: string, cells: Cells)

  function Kept(topSeriesKeys: seq<string>): DailyRow -> Option<Item> {
    (r: DailyRow) => if r.seriesLabel in topSeriesKeys then Some(Item(r.date, r.seriesLabel, r.volume)) else None
  }

  /** One day per date with a kept row, in date order; a value for every top series on every
      day, which is the volume of that day's rows of the series, or zero. */
  ghost predicate Pivoted(days: seq<Day>, rows: seq<DailyRow>, topSeriesKeys: seq<string>, le: (string, string) -> bool) {
    var items := FilterMap(rows, Kept(topSeriesKeys));
    && (forall i, j | 0 <= i < j < |days| :: days[i].date != days[j].date && le(days[i].date, days[j].date))
    && (forall d :: d in GroupsOf(items) <==> HasDay(days, d))
    && (forall i | 0 <= i < |days| :: DayIsRight(days[i], items, topSeriesKeys))
  }

  predicate HasDay(days: seq<Day>, date: string) { exists i :: 0 <= i < |days| && days[i].date == date }

  lemma KeptCells(rows: seq<DailyRow>, topSeriesKeys: seq<string>)
    ensures forall x | x in FilterMap(rows, Kept(topSeriesKeys)) :: x.cell in topSeriesKeys
  {
    forall x | x in FilterMap(rows, Kept(topSeriesKeys)) ensures x.cell in topSeriesKeys {
      FilterMapMembers(rows, Kept(topSeriesKeys), x);
    }
  }

  function ZeroFilled(cells: Cells, keys: seq<string>): Cells {
    cells + map k | k in keys && k !in cells :: 0.0
  }

  method PivotDailySeries(rows: seq<DailyRow>, topSeriesKeys: seq<string>, le: (string, string) -> bool) returns (days: seq<Day>)
    requires LabelOrder(le)
    ensures Pivoted(days, rows, topSeriesKeys, le)
  {
    KeptCells(rows, topSeriesKeys);
    var byDate := Accumulate(rows, Kept(topSeriesKeys));
    var dates := SortedKeys(byDate.Keys, le);
    days := FillDays(byDate, dates, topSeriesKeys);
    DaysArePivoted(FilterMap(rows, Kept(topSeriesKeys)), byDate, dates, topSeriesKeys, days);
  }

  /** The zero-filling loop. */
  method FillDays(byDate: Buckets, dates: seq<string>, keys: seq<string>) returns (days: seq<Day>)
    requires forall d | d in dates :: d in byDate
    ensures |days| == |dates|
    ensures forall j | 0 <= j < |dates| :: dates[j] in byDate && days[j] == Day(dates[j], ZeroFilled(byDate[dates[j]], keys))
  {
    days := [];
    for i := 0 to |dates|
      invariant |days| == i
      invariant forall j | 0 <= j < i :: dates[j] in byDate && days[j] == Day(dates[j], ZeroFilled(byDate[dates[j]], keys))
    {
      assert dates[i] in dates;
      days := days + [Day(dates[i], ZeroFilled(byDate[dates[i]], keys))];
    }
  }

  lemma DaysArePivoted(items: seq<Item>, byDate: Buckets, dates: seq<string>, keys: seq<string>, days: seq<Day>)
    requires Holds(byDate, items) && forall x | x in items :: x.cell in keys
    requires forall k :: k in dates <==> k in byDate.Keys
    requires |days| == |dates|
    requires forall j | 0 <= j < |dates| :: dates[j] in byDate && days[j] == Day(dates[j], ZeroFilled(byDate[dates[j]], keys))
    ensures forall d :: d in GroupsOf(items) <==> HasDay(days, d)
    ensures forall i | 0 <= i < |days| :: DayIsRight(days[i], items, keys)
  {
    forall i | 0 <= i < |days| ensures DayIsRight(days[i], items, keys) {
      FilledDay(byDate, items, dates[i], keys);
    }
    forall d ensures d in GroupsOf(items) <==> HasDay(days, d) {
      if d in GroupsOf(items) {
        var i :| 0 <= i < |dates| && dates[i] == d;
        assert days[i].date == d;
      }
      if i :| 0 <= i < |days| && days[i].date == d {
        assert dates[i] in dates;
      }
    }
  }

  ghost predicate DayIsRight(day: Day, items: seq<Item>, keys: seq<string>) {
    && (forall k :: k in day.cells <==> k in keys)
    && (forall k | k in day.cells :: day.cells[k] == CellSum(items, day.date, k))
  }

  lemma FilledDay(byDate: Buckets, items: seq<Item>, date: string, keys: seq<string>)
    requires Holds(byDate, items) && date in byDate && forall x | x in items :: x.cell in keys
    ensures var cells := ZeroFilled(byDate[date], keys);
            && (forall k :: k in cells <==> k in keys)
            && (forall k | k in cells :: cells[k] == CellSum(items, date, k))
  {
    var cells := ZeroFilled(byDate[date], keys);
    forall k | k in cells ensures cells[k] == CellSum(items, date, k) {
      if k !in byDate[date] { NoItemsNoSum(items, date, k); }
    }
  }

  function VolumeOf(date: string, series: string): DailyRow -> real {
    (r: DailyRow) => if r.date == date && r.seriesLabel == series then r.volume else 0.0
  }

  function VolumeOn(date: string, keys: seq<string>): DailyRow -> real {
    (r: DailyRow) => if r.date == date && r.seriesLabel in keys then r.volume else 0.0
  }

  /** The pivot, read off the rows: a day for each date with a row of a top series, and on
      each day each top series' volume of that date. */
  lemma PivotShowsRows(days: seq<Day>, rows: seq<DailyRow>, topSeriesKeys: seq<string>, le: (string, string) -> bool)
    requires Pivoted(days, rows, topSeriesKeys, le)
    ensures forall d :: HasDay(days, d) <==> exists r :: r in rows && r.date == d && r.seriesLabel in topSeriesKeys
    ensures forall i, k | 0 <= i < |days| && k in topSeriesKeys ::
              k in days[i].cells && days[i].cells[k] == SumReal(rows, VolumeOf(days[i].date, k))
  {
    var kept := Kept(topSeriesKeys);
    forall d ensures HasDay(days, d) <==> exists r :: r in rows && r.date == d && r.seriesLabel in topSeriesKeys {
      GroupIsThere(rows, kept, d);
    }
    forall i, k | 0 <= i < |days| && k in topSeriesKeys
      ensures k in days[i].cells && days[i].cells[k] == SumReal(rows, VolumeOf(days[i].date, k))
    {
      assert DayIsRight(days[i], FilterMap(rows, kept), topSeriesKeys);
      CellSumIs(rows, kept, VolumeOf(days[i].date, k), days[i].date, k);
    }
  }

  /** Nothing is lost or counted twice: the bars of a day add up to the volume of its rows
      of the top series. */
  lemma PivotConserves(days: seq<Day>, rows: seq<DailyRow>, topSeriesKeys: seq<string>, le: (string, string) -> bool)
    requires Pivoted(days, rows, topSeriesKeys, le) && Distinct(topSeriesKeys)
    ensures forall i | 0 <= i < |days| ::
              BarSum(days[i].cells, topSeriesKeys) == SumReal(rows, VolumeOn(days[i].date, topSeriesKeys))
  {
    var items := FilterMap(rows, Kept(topSeriesKeys));
    KeptCells(rows, topSeriesKeys);
    forall i | 0 <= i < |days|
      ensures BarSum(days[i].cells, topSeriesKeys) == SumReal(rows, VolumeOn(days[i].date, topSeriesKeys))
    {
      assert DayIsRight(days[i], items, topSeriesKeys);
      CellsAddUp(items, days[i].date, topSeriesKeys);
      BarsAreCells(days[i].cells, items, days[i].date, topSeriesKeys);
      GroupSumIs(rows, Kept(topSeriesKeys), VolumeOn(days[i].date, topSeriesKeys), days[i].date);
    }
  }
}
