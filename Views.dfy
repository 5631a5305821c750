/**
 * The aggregates the dashboard shows for the filtered frame: the headline
 * metrics, the monthly, per-category and per-dealer totals, the top 15
 * consolidated tasks and the supplier ranking. Each view reports why it is
 * not shown (no rows, a guarded column absent, a column pandas would fail on).
 */
module Views {
  import opened Wrappers
  import opened Records
  import opened Sorting
  import opened Grouping

  /**
   * What a chart or table receives: nothing (the frame is empty), the "columns
   * not found" notice, a pandas KeyError on an unguarded column, or its entries.
   */
  datatype View<T> = NoData | ColumnsMissing | MissingKey(column: string) | Shown(entries: seq<T>)

  // ---- Headline metrics ----

  /** The largest present amount, None when no row has one (pandas' max skips NaN). */
  function MaxValor(rows: seq<Record>): (m: Option<int>)
    ensures m.None? <==> forall i :: 0 <= i < |rows| ==> rows[i].valor.None?
    ensures m.Some? ==> forall i :: 0 <= i < |rows| && rows[i].valor.Some? ==> rows[i].valor.value <= m.value
    ensures m.Some? ==> exists i :: 0 <= i < |rows| && rows[i].valor == Some(m.value)
  {
    if rows == [] then None
    else
      var rest := MaxValor(rows[1..]);
      var v := rows[0].valor;
      assert forall i :: 0 < i < |rows| ==> rows[i] == rows[1..][i - 1];
      if v.None? then rest
      else if rest.None? || rest.value <= v.value then v
      else rest
  }

  datatype Metrics = Metrics(total: int, count: nat, mean: real, largest: Option<int>)

  /**
   * The four metric cards. The total, mean and maximum need a non-empty frame
   * with a VALOR column and read 0 otherwise; the mean is only computed when
   * the count is positive.
   */
  function HeadlineMetrics(f: Frame): (m: Metrics)
    ensures m.count == |f.rows|
    ensures m.count > 0 && "VALOR" in f.columns ==> m.mean * (m.count as real) == m.total as real
    ensures m.count == 0 || "VALOR" !in f.columns ==> m.total == 0 && m.mean == 0.0 && m.largest.None?
    ensures m.count > 0 && "VALOR" in f.columns ==> m.total == Total(f.rows) && m.largest == MaxValor(f.rows)
    ensures m.largest.Some? ==>
      forall i :: 0 <= i < |f.rows| && f.rows[i].valor.Some? ==> f.rows[i].valor.value <= m.largest.value
  {
    var shown := |f.rows| > 0 && "VALOR" in f.columns;
    var total := if shown then Total(f.rows) else 0;
    var count := |f.rows|;
    Metrics(
      total,
      count,
      if shown && count > 0 then total as real / count as real else 0.0,
      if shown then MaxValor(f.rows) else None)
  }

  lemma {:induction false} TotalAtMost(rows: seq<Record>, top: int)
    requires forall i :: 0 <= i < |rows| ==> rows[i].valor.Some? && rows[i].valor.value <= top
    ensures Total(rows) <= |rows| * top
  {
    if rows != [] {
      var init := rows[..|rows| - 1];
      assert forall i :: 0 <= i < |init| ==> init[i] == rows[i];
      TotalAtMost(init, top);
      assert (|rows| - 1) * top + top == |rows| * top;
    }
  }

  /** A mean of n values each at most top is at most top. */
  lemma MeanBound(total: int, n: int, top: int)
    requires n > 0 && total <= n * top
    ensures total as real / n as real <= top as real
  {
    var mean := total as real / n as real;
    assert mean * n as real == total as real;
    assert (n * top) as real == n as real * top as real;
  }

  /** When every row carries an amount (as after loading), the mean never exceeds the maximum. */
  lemma MeanAtMostLargest(f: Frame)
    requires "VALOR" in f.columns && |f.rows| > 0
    requires forall i :: 0 <= i < |f.rows| ==> f.rows[i].valor.Some?
    ensures HeadlineMetrics(f).largest.Some?
    ensures HeadlineMetrics(f).mean <= HeadlineMetrics(f).largest.value as real
  {
    var top := MaxValor(f.rows).value;
    TotalAtMost(f.rows, top);
    MeanBound(Total(f.rows), |f.rows|, top);
  }

  // ---- Group keys and measures ----

  datatype YearMonth = YearMonth(year: int, month: Month)

  /** Strict (ANO, MES) order. */
  predicate Earlier(a: YearMonth, b: YearMonth)
  {
    a.year < b.year || (a.year == b.year && a.month < b.month)
  }

  /** Months since the start of year 0: a rank whose order is the (ANO, MES) order. */
  function MonthIndex(ym: YearMonth): int
  {
    ym.year * 12 + (ym.month - 1)
  }

  lemma MonthIndexOrder(a: YearMonth, b: YearMonth)
    ensures MonthIndex(a) < MonthIndex(b) <==> Earlier(a, b)
    ensures MonthIndex(a) == MonthIndex(b) <==> a == b
  {
    if a.year < b.year {
      assert a.year * 12 + 12 <= b.year * 12;
    } else if a.year > b.year {
      assert b.year * 12 + 12 <= a.year * 12;
    }
  }

  /** The monthly group key: rows without a due date have NaN year and month and are dropped. */
  function MonthOf(r: Record): Option<YearMonth>
  {
    if r.ano.Some? && r.mes.Some? then Some(YearMonth(r.ano.value, r.mes.value)) else None
  }

  function CategoryOf(r: Record): Option<Cell> { KeyOf(r.categoria) }
  function DealerOf(r: Record): Option<Cell> { KeyOf(r.categoriaScania) }
  function TaskOf(r: Record): Option<Cell> { KeyOf(r.tarefaConsolidada) }
  function SupplierOf(r: Record): Option<Cell> { KeyOf(r.nomeFornecedor) }

  /**
   * groupby drops NaN keys: no category, dealer, task or supplier table has a
   * group for a blank cell, whatever amounts are summed.
   */
  lemma NoBlankGroups(rows: seq<Record>, w: Record -> int)
    ensures forall e :: e in GroupSum(rows, CategoryOf, w) ==> !e.0.Blank?
    ensures forall e :: e in GroupSum(rows, DealerOf, w) ==> !e.0.Blank?
    ensures forall e :: e in GroupSum(rows, TaskOf, w) ==> !e.0.Blank?
    ensures forall e :: e in GroupSum(rows, SupplierOf, w) ==> !e.0.Blank?
  {
    GroupKeysAvoid(rows, CategoryOf, w, Blank);
    GroupKeysAvoid(rows, DealerOf, w, Blank);
    GroupKeysAvoid(rows, TaskOf, w, Blank);
    GroupKeysAvoid(rows, SupplierOf, w, Blank);
  }

  /** The contribution of a row to count('DOCUMENTO'): 1 when its document number is present. */
  function Documented(r: Record): int
  {
    if r.documento.Blank? then 0 else 1
  }

  function ByMonth(e: (YearMonth, int)): int { MonthIndex(e.0) }
  function ByValue(e: (Cell, int)): int { e.1 }
  function ByValueDescending(e: (Cell, int)): int { -e.1 }

  // ---- The views ----

  /** df_mensal: totals per (year, month) of the due date, sorted by ANO then MES. */
  function MonthlyView(f: Frame): View<(YearMonth, int)>
  {
    if f.rows == [] then NoData
    else if !("MES_ANO" in f.columns && "VALOR" in f.columns) then ColumnsMissing
    else if "MES_NOME" !in f.columns then MissingKey("MES_NOME")
    else if "ANO" !in f.columns then MissingKey("ANO")
    else if "MES" !in f.columns then MissingKey("MES")
    else Shown(SortBy(GroupSum(f.rows, MonthOf, ValorOf), ByMonth))
  }

  /** df_categoria: totals per CATEGORIA, for the pie chart. */
  function CategoryView(f: Frame): View<(Cell, int)>
  {
    if f.rows == [] then NoData
    else if !("CATEGORIA" in f.columns && "VALOR" in f.columns) then ColumnsMissing
    else Shown(GroupSum(f.rows, CategoryOf, ValorOf))
  }

  /** df_concessionaria: totals per CATEGORIA_SCANIA, sorted ascending by value. */
  function DealerView(f: Frame): View<(Cell, int)>
  {
    if f.rows == [] then NoData
    else if !("CATEGORIA_SCANIA" in f.columns && "VALOR" in f.columns) then ColumnsMissing
    else Shown(SortBy(GroupSum(f.rows, DealerOf, ValorOf), ByValue))
  }

  const TopTasks := 15

  /** Every consolidated-task group, largest total first. */
  function RankedTasks(rows: seq<Record>): seq<(Cell, int)>
  {
    SortBy(GroupSum(rows, TaskOf, ValorOf), ByValueDescending)
  }

  /** df_tarefa: the 15 consolidated tasks with the largest totals, largest first. */
  function TaskView(f: Frame): View<(Cell, int)>
  {
    if f.rows == [] then NoData
    else if !("TAREFA_CONSOLIDADA" in f.columns && "VALOR" in f.columns) then ColumnsMissing
    else
      var ranked := RankedTasks(f.rows);
      Shown(ranked[..if |ranked| < TopTasks then |ranked| else TopTasks])
  }

  /** One line of the supplier ranking: NOME_FORNECEDOR, VALOR total and QTD_DOCUMENTOS. */
  datatype SupplierRow = SupplierRow(name: Cell, total: int, documents: int)

  /**
   * df_fornecedores: per supplier the total and the number of present
   * document numbers, largest total first. The aggregation reads DOCUMENTO,
   * which the guard does not check, so a frame without it fails there.
   */
  function SupplierView(f: Frame): View<SupplierRow>
  {
    if f.rows == [] then NoData
    else if !("NOME_FORNECEDOR" in f.columns && "VALOR" in f.columns) then ColumnsMissing
    else if "DOCUMENTO" !in f.columns then MissingKey("DOCUMENTO")
    else
      var ranked := SortBy(GroupSum(f.rows, SupplierOf, ValorOf), ByValueDescending);
      var docs := GroupSum(f.rows, SupplierOf, Documented);
      Shown(seq(|ranked|, i requires 0 <= i < |ranked| => SupplierRow(ranked[i].0, ranked[i].1, Lookup(docs, ranked[i].0))))
  }

  // ---- What the views promise ----

  /**
   * The monthly view is strictly ordered by (ANO, MES), holds each month's
   * total and sums to the total of the rows that have a due date.
   */
  lemma MonthlyViewFacts(f: Frame)
    requires MonthlyView(f).Shown?
    ensures var v := MonthlyView(f).entries;
      && (forall i, j :: 0 <= i < j < |v| ==> Earlier(v[i].0, v[j].0))
      && (forall e :: e in v ==> e.1 == SumWhere(f.rows, MonthOf, e.0, ValorOf))
      && (forall k :: HasKey(v, k) <==> Occurs(f.rows, MonthOf, k))
      && SumBy(v, Value) == SumKeyed(f.rows, MonthOf, ValorOf)
  {
    var v := MonthlyView(f).entries;
    RankedGroups(f.rows, MonthOf, ValorOf, ByMonth);
    forall i, j | 0 <= i < j < |v| ensures Earlier(v[i].0, v[j].0) {
      MonthIndexOrder(v[i].0, v[j].0);
    }
  }

  /**
   * When every row has a due year and month (as after loading, when every
   * row has a due date), the monthly totals add up to the headline total.
   */
  lemma MonthlyConservation(f: Frame)
    requires MonthlyView(f).Shown?
    requires forall i :: 0 <= i < |f.rows| ==> f.rows[i].ano.Some? && f.rows[i].mes.Some?
    ensures SumBy(MonthlyView(f).entries, Value) == HeadlineMetrics(f).total
  {
    RankedGroups(f.rows, MonthOf, ValorOf, ByMonth);
    SumKeyedAll(f.rows, MonthOf);
  }

  /** The category view holds each category's total and conserves the total of the categorised rows. */
  lemma CategoryViewFacts(f: Frame)
    requires CategoryView(f).Shown?
    ensures var v := CategoryView(f).entries;
      && DistinctKeys(v)
      && (forall k :: HasKey(v, k) <==> Occurs(f.rows, CategoryOf, k))
      && (forall k :: Lookup(v, k) == SumWhere(f.rows, CategoryOf, k, ValorOf))
      && SumBy(v, Value) == SumKeyed(f.rows, CategoryOf, ValorOf)
  {
    GroupSumCorrect(f.rows, CategoryOf, ValorOf);
  }

  /** When every row has a category, the per-category totals add up to the headline total. */
  lemma CategoryConservation(f: Frame)
    requires CategoryView(f).Shown?
    requires forall i :: 0 <= i < |f.rows| ==> !f.rows[i].categoria.Blank?
    ensures SumBy(CategoryView(f).entries, Value) == HeadlineMetrics(f).total
  {
    GroupSumCorrect(f.rows, CategoryOf, ValorOf);
    SumKeyedAll(f.rows, CategoryOf);
  }

  /** The dealer view is sorted ascending by value, holds each dealer's total and conserves the total. */
  lemma DealerViewFacts(f: Frame)
    requires DealerView(f).Shown?
    ensures var v := DealerView(f).entries;
      && (forall i, j :: 0 <= i < j < |v| ==> v[i].1 <= v[j].1)
      && DistinctKeys(v)
      && (forall e :: e in v ==> e.1 == SumWhere(f.rows, DealerOf, e.0, ValorOf))
      && (forall k :: HasKey(v, k) <==> Occurs(f.rows, DealerOf, k))
      && SumBy(v, Value) == SumKeyed(f.rows, DealerOf, ValorOf)
  {
    RankedGroups(f.rows, DealerOf, ValorOf, ByValue);
  }

  /** When every row has a CATEGORIA_SCANIA, the dealer totals add up to the headline total. */
  lemma DealerConservation(f: Frame)
    requires DealerView(f).Shown?
    requires forall i :: 0 <= i < |f.rows| ==> !f.rows[i].categoriaScania.Blank?
    ensures SumBy(DealerView(f).entries, Value) == HeadlineMetrics(f).total
  {
    RankedGroups(f.rows, DealerOf, ValorOf, ByValue);
    SumKeyedAll(f.rows, DealerOf);
  }

  /** In a ranking sorted largest first, a prefix is sorted and nothing after it is larger. */
  lemma DescendingPrefix(full: seq<(Cell, int)>, n: nat)
    requires n <= |full|
    requires Ascending(full, ByValueDescending)
    ensures forall i, j :: 0 <= i < j < n ==> full[..n][i].1 >= full[..n][j].1
    ensures forall i, j :: 0 <= i < n <= j < |full| ==> full[j].1 <= full[..n][i].1
  {
    forall i, j | 0 <= i < j < |full| ensures full[j].1 <= full[i].1 {
      assert ByValueDescending(full[i]) <= ByValueDescending(full[j]);
    }
  }

  /** A prefix of the consolidated-task ranking is largest first, and no omitted group is larger than a kept one. */
  lemma RankedPrefixOrder(rows: seq<Record>, n: nat)
    requires n <= |RankedTasks(rows)|
    ensures var full := RankedTasks(rows);
      && (forall i, j :: 0 <= i < j < n ==> full[..n][i].1 >= full[..n][j].1)
      && (forall i, j :: 0 <= i < n <= j < |full| ==> full[j].1 <= full[..n][i].1)
  {
    RankedGroups(rows, TaskOf, ValorOf, ByValueDescending);
    DescendingPrefix(RankedTasks(rows), n);
  }

  /**
   * Every entry of a prefix of the consolidated-task ranking is the total of its task, and
   * kept and omitted groups together conserve the total.
   */
  lemma RankedPrefixTotals(rows: seq<Record>, n: nat)
    requires n <= |RankedTasks(rows)|
    ensures var full := RankedTasks(rows);
      && (forall e :: e in full[..n] ==> e.1 == SumWhere(rows, TaskOf, e.0, ValorOf))
      && SumBy(full[..n], Value) + SumBy(full[n..], Value) == SumKeyed(rows, TaskOf, ValorOf)
  {
    var full := RankedTasks(rows);
    assert SumBy(full, Value) == SumKeyed(rows, TaskOf, ValorOf)
        && forall e :: e in full ==> e.1 == SumWhere(rows, TaskOf, e.0, ValorOf) by {
      RankedGroups(rows, TaskOf, ValorOf, ByValueDescending);
    }
    assert forall e :: e in full[..n] ==> e in full;
    PrefixSplit(full, n, Value);
  }

  /**
   * The consolidated-task view: at most 15 entries, the first of the full
   * ranking, so largest first and with no omitted group larger than a kept one.
   */
  lemma TaskViewFacts(f: Frame)
    requires TaskView(f).Shown?
    ensures var v := TaskView(f).entries;
      var full := RankedTasks(f.rows);
      && |v| <= TopTasks
      && |v| == (if |full| < TopTasks then |full| else TopTasks)
      && v == full[..|v|]
      && (forall i, j :: 0 <= i < j < |v| ==> v[i].1 >= v[j].1)
      && (forall i, j :: 0 <= i < |v| <= j < |full| ==> full[j].1 <= v[i].1)
      && (forall e :: e in v ==> e.1 == SumWhere(f.rows, TaskOf, e.0, ValorOf))
      && SumBy(v, Value) + SumBy(full[|v|..], Value) == SumKeyed(f.rows, TaskOf, ValorOf)
  {
    var full := RankedTasks(f.rows);
    var n := if |full| < TopTasks then |full| else TopTasks;
    assert TaskView(f).entries == full[..n];
    RankedPrefixOrder(f.rows, n);
    RankedPrefixTotals(f.rows, n);
  }

  /** With at most 15 consolidated tasks nothing is cut, and the view conserves the total. */
  lemma TaskViewComplete(f: Frame)
    requires TaskView(f).Shown?
    requires |RankedTasks(f.rows)| <= TopTasks
    ensures SumBy(TaskView(f).entries, Value) == SumKeyed(f.rows, TaskOf, ValorOf)
  {
    var full := RankedTasks(f.rows);
    RankedGroups(f.rows, TaskOf, ValorOf, ByValueDescending);
    assert TaskView(f).entries == full;
  }

  /**
   * With at most 15 consolidated tasks and every row assigned one, the consolidated-task
   * view adds up to the headline total.
   */
  lemma TaskConservation(f: Frame)
    requires TaskView(f).Shown?
    requires |RankedTasks(f.rows)| <= TopTasks
    requires forall i :: 0 <= i < |f.rows| ==> !f.rows[i].tarefaConsolidada.Blank?
    ensures SumBy(TaskView(f).entries, Value) == HeadlineMetrics(f).total
  {
    TaskViewComplete(f);
    SumKeyedAll(f.rows, TaskOf);
  }

  /** The rows of a supplier that carry a document number. */
  function DocumentsOf(rows: seq<Record>, k: Cell): seq<Record>
  {
    if rows == [] then []
    else
      var r := rows[|rows| - 1];
      DocumentsOf(rows[..|rows| - 1], k) + (if SupplierOf(r) == Some(k) && !r.documento.Blank? then [r] else [])
  }

  lemma {:induction false} DocumentCount(rows: seq<Record>, k: Cell)
    ensures SumWhere(rows, SupplierOf, k, Documented) == |DocumentsOf(rows, k)|
  {
    if rows != [] {
      DocumentCount(rows[..|rows| - 1], k);
    }
  }

  /**
   * The supplier ranking is sorted descending by total, lists each supplier
   * once, and for each gives the total of its rows and the number of its rows
   * with a present DOCUMENTO.
   */
  lemma SupplierViewFacts(f: Frame)
    requires SupplierView(f).Shown?
    ensures var v := SupplierView(f).entries;
      && (forall i, j :: 0 <= i < j < |v| ==> v[i].total >= v[j].total)
      && (forall i, j :: 0 <= i < j < |v| ==> v[i].name != v[j].name)
      && (forall i :: 0 <= i < |v| ==> v[i].total == SumWhere(f.rows, SupplierOf, v[i].name, ValorOf))
      && (forall i :: 0 <= i < |v| ==> v[i].documents == |DocumentsOf(f.rows, v[i].name)|)
      && (forall k :: (exists i :: 0 <= i < |v| && v[i].name == k) <==> Occurs(f.rows, SupplierOf, k))
  {
    var v := SupplierView(f).entries;
    var ranked := SortBy(GroupSum(f.rows, SupplierOf, ValorOf), ByValueDescending);
    RankedGroups(f.rows, SupplierOf, ValorOf, ByValueDescending);
    GroupSumCorrect(f.rows, SupplierOf, Documented);
    forall i, j | 0 <= i < j < |v| ensures v[i].total >= v[j].total {
      assert ByValueDescending(ranked[i]) <= ByValueDescending(ranked[j]);
    }
    forall i | 0 <= i < |v|
      ensures v[i].total == SumWhere(f.rows, SupplierOf, v[i].name, ValorOf)
      ensures v[i].documents == |DocumentsOf(f.rows, v[i].name)|
    {
      assert ranked[i] in ranked;
      DocumentCount(f.rows, v[i].name);
    }
    forall k ensures (exists i :: 0 <= i < |v| && v[i].name == k) <==> HasKey(ranked, k) {
      if HasKey(ranked, k) {
        var i :| 0 <= i < |ranked| && ranked[i].0 == k;
        assert v[i].name == k;
      }
    }
  }

  function SupplierTotal(e: SupplierRow): int { e.total }

  /** The supplier totals add up to the total of the rows that name a supplier. */
  lemma SupplierViewTotal(f: Frame)
    requires SupplierView(f).Shown?
    ensures SumBy(SupplierView(f).entries, SupplierTotal) == SumKeyed(f.rows, SupplierOf, ValorOf)
  {
    var v := SupplierView(f).entries;
    var ranked := SortBy(GroupSum(f.rows, SupplierOf, ValorOf), ByValueDescending);
    RankedGroups(f.rows, SupplierOf, ValorOf, ByValueDescending);
    SumByPointwise(v, SupplierTotal, ranked, Value);
  }

  /** When every row names a supplier, the supplier ranking adds up to the headline total. */
  lemma SupplierConservation(f: Frame)
    requires SupplierView(f).Shown?
    requires forall i :: 0 <= i < |f.rows| ==> !f.rows[i].nomeFornecedor.Blank?
    ensures SumBy(SupplierView(f).entries, SupplierTotal) == HeadlineMetrics(f).total
  {
    SupplierViewTotal(f);
    SumKeyedAll(f.rows, SupplierOf);
  }
}
