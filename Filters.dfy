/**
 * The filter engine of the dashboard (apply_filters in dashbord.py): a due-date
 * range, an optional year and five "value is among the selected ones" tests,
 * each applied only when it is active, combined by conjunction, and applied to
 * the frame one mask at a time.
 */
module Filters {
  import opened Wrappers
  import opened Records

  /** The year choice of the sidebar: "Todos" (every year) or one year. */
  datatype YearChoice = Todos | OnlyYear(year: int)

  /** What the user selected in the sidebar. */
  datatype Selection = Selection(
    start: Date,
    end: Date,
    year: YearChoice,
    scania: seq<Cell>,
    categories: seq<Cell>,
    docTypes: seq<Cell>,
    taskNames: seq<Cell>,
    consolidated: seq<Cell>)

  /** The five columns that have a multi-select filter. */
  datatype Column = CategoriaScania | Categoria | TipoDoc | NomeTarefa | TarefaConsolidada

  function ColumnName(c: Column): string
  {
    match c
    case CategoriaScania => "CATEGORIA_SCANIA"
    case Categoria => "CATEGORIA"
    case TipoDoc => "TIPO_DOC"
    case NomeTarefa => "NOME_TAREFA"
    case TarefaConsolidada => "TAREFA_CONSOLIDADA"
  }

  function ValueIn(r: Record, c: Column): Cell
  {
    match c
    case CategoriaScania => r.categoriaScania
    case Categoria => r.categoria
    case TipoDoc => r.tipoDoc
    case NomeTarefa => r.nomeTarefa
    case TarefaConsolidada => r.tarefaConsolidada
  }

  /** One boolean mask of apply_filters. */
  datatype Pred = DueBetween(lo: Date, hi: Date) | InYear(year: int) | OneOf(column: Column, chosen: seq<Cell>)

  /**
   * Whether a row passes one mask. A missing due date compares false with both
   * bounds; a missing year never equals the chosen one; isin matches a missing
   * value only against a missing value in the selection.
   */
  predicate Holds(p: Pred, r: Record)
  {
    match p
    case DueBetween(lo, hi) =>
      r.dataVencimento.Some? && DateLe(lo, r.dataVencimento.value) && DateLe(r.dataVencimento.value, hi)
    case InYear(y) => r.ano == Some(y)
    case OneOf(c, chosen) => ValueIn(r, c) in chosen
  }

  predicate AllHold(ps: seq<Pred>, r: Record)
  {
    forall i :: 0 <= i < |ps| ==> Holds(ps[i], r)
  }

  /** df[mask]: the rows that pass one mask, in their original order. */
  function Keep(rows: seq<Record>, p: Pred): seq<Record>
  {
    if rows == [] then []
    else (if Holds(p, rows[0]) then [rows[0]] else []) + Keep(rows[1..], p)
  }

  /** The rows that pass every mask of ps, in their original order. */
  function Satisfying(rows: seq<Record>, ps: seq<Pred>): seq<Record>
  {
    if rows == [] then []
    else (if AllHold(ps, rows[0]) then [rows[0]] else []) + Satisfying(rows[1..], ps)
  }

  /** A multi-select mask applies only when something is selected and the column exists. */
  function MemberStep(c: Column, chosen: seq<Cell>, columns: set<string>): seq<Pred>
  {
    if |chosen| > 0 && ColumnName(c) in columns then [OneOf(c, chosen)] else []
  }

  function DueStep(f: Frame, q: Selection): seq<Pred>
  {
    if "DATA_VENCIMENTO" in f.columns && |f.rows| > 0 then [DueBetween(q.start, q.end)] else []
  }

  function YearStep(f: Frame, q: Selection): seq<Pred>
  {
    if q.year.OnlyYear? && "ANO" in f.columns then [InYear(q.year.year)] else []
  }

  /** The masks apply_filters applies, in its order. */
  function ActivePreds(f: Frame, q: Selection): seq<Pred>
  {
    DueStep(f, q) + YearStep(f, q)
    + MemberStep(CategoriaScania, q.scania, f.columns)
    + MemberStep(Categoria, q.categories, f.columns)
    + MemberStep(TipoDoc, q.docTypes, f.columns)
    + MemberStep(NomeTarefa, q.taskNames, f.columns)
    + MemberStep(TarefaConsolidada, q.consolidated, f.columns)
  }

  /** The filtered frame: same columns, the rows that pass every active mask. */
  function Filtered(f: Frame, q: Selection): Frame
  {
    Frame(f.columns, Satisfying(f.rows, ActivePreds(f, q)))
  }

  /**
   * The filter contract stated directly in the dashboard's terms, one
   * implication per filter: the condition under which the filter applies, and
   * what a row must satisfy then.
   */
  ghost predicate Admits(f: Frame, q: Selection, r: Record)
  {
    && ("DATA_VENCIMENTO" in f.columns && |f.rows| > 0 ==>
          r.dataVencimento.Some?
          && DateLe(q.start, r.dataVencimento.value) && DateLe(r.dataVencimento.value, q.end))
    && (q.year.OnlyYear? && "ANO" in f.columns ==> r.ano == Some(q.year.year))
    && (|q.scania| > 0 && "CATEGORIA_SCANIA" in f.columns ==> r.categoriaScania in q.scania)
    && (|q.categories| > 0 && "CATEGORIA" in f.columns ==> r.categoria in q.categories)
    && (|q.docTypes| > 0 && "TIPO_DOC" in f.columns ==> r.tipoDoc in q.docTypes)
    && (|q.taskNames| > 0 && "NOME_TAREFA" in f.columns ==> r.nomeTarefa in q.taskNames)
    && (|q.consolidated| > 0 && "TAREFA_CONSOLIDADA" in f.columns ==> r.tarefaConsolidada in q.consolidated)
  }

  /** a is b with some elements left out, the rest in their original order. */
  ghost predicate IsSubsequence<T>(a: seq<T>, b: seq<T>)
    decreases |b|
  {
    if b == [] then a == []
    else (a != [] && a[0] == b[0] && IsSubsequence(a[1..], b[1..])) || IsSubsequence(a, b[1..])
  }

  /**
   * apply_filters: copy the frame, then narrow df_filtrado by each active mask
   * in turn. Each step is one reassignment of the local rows.
   */
  method ApplyFilters(f: Frame, q: Selection) returns (out: Frame)
    ensures out == Filtered(f, q)
  {
    var rows := f.rows;

    if "DATA_VENCIMENTO" in f.columns && |rows| > 0 {
      rows := Keep(rows, DueBetween(q.start, q.end));
    }
    assert rows == Narrow(f.rows, DueStep(f, q));
    ghost var r1 := rows;

    if q.year.OnlyYear? && "ANO" in f.columns {
      rows := Keep(rows, InYear(q.year.year));
    }
    assert rows == Narrow(r1, YearStep(f, q));
    ghost var r2 := rows;

    if |q.scania| > 0 && ColumnName(CategoriaScania) in f.columns {
      rows := Keep(rows, OneOf(CategoriaScania, q.scania));
    }
    assert rows == Narrow(r2, MemberStep(CategoriaScania, q.scania, f.columns));
    ghost var r3 := rows;

    if |q.categories| > 0 && ColumnName(Categoria) in f.columns {
      rows := Keep(rows, OneOf(Categoria, q.categories));
    }
    assert rows == Narrow(r3, MemberStep(Categoria, q.categories, f.columns));
    ghost var r4 := rows;

    if |q.docTypes| > 0 && ColumnName(TipoDoc) in f.columns {
      rows := Keep(rows, OneOf(TipoDoc, q.docTypes));
    }
    assert rows == Narrow(r4, MemberStep(TipoDoc, q.docTypes, f.columns));
    ghost var r5 := rows;

    if |q.taskNames| > 0 && ColumnName(NomeTarefa) in f.columns {
      rows := Keep(rows, OneOf(NomeTarefa, q.taskNames));
    }
    assert rows == Narrow(r5, MemberStep(NomeTarefa, q.taskNames, f.columns));
    ghost var r6 := rows;

    if |q.consolidated| > 0 && ColumnName(TarefaConsolidada) in f.columns {
      rows := Keep(rows, OneOf(TarefaConsolidada, q.consolidated));
    }
    assert rows == Narrow(r6, MemberStep(TarefaConsolidada, q.consolidated, f.columns));

    FilteredStepwise(f, q, r1, r2, r3, r4, r5, r6, rows);
    out := Frame(f.columns, rows);
  }

  /** One optional step of apply_filters: narrow by its mask, if it has one. */
  function Narrow(rows: seq<Record>, step: seq<Pred>): seq<Record>
  {
    if step == [] then rows else Keep(rows, step[0])
  }

  /** Taking one more optional step is filtering by one more (optional) mask. */
  lemma KeepOrSkip(rows: seq<Record>, ps: seq<Pred>, step: seq<Pred>)
    requires |step| <= 1
    ensures Satisfying(rows, ps + step) == Narrow(Satisfying(rows, ps), step)
  {
    if step == [] {
      assert ps + step == ps;
    } else {
      assert step == [step[0]];
      KeepExtends(rows, ps, step[0]);
    }
  }

  /** The seven optional steps in order leave exactly the rows of Filtered. */
  lemma FilteredStepwise(f: Frame, q: Selection, r1: seq<Record>, r2: seq<Record>, r3: seq<Record>,
                         r4: seq<Record>, r5: seq<Record>, r6: seq<Record>, r7: seq<Record>)
    requires r1 == Narrow(f.rows, DueStep(f, q))
    requires r2 == Narrow(r1, YearStep(f, q))
    requires r3 == Narrow(r2, MemberStep(CategoriaScania, q.scania, f.columns))
    requires r4 == Narrow(r3, MemberStep(Categoria, q.categories, f.columns))
    requires r5 == Narrow(r4, MemberStep(TipoDoc, q.docTypes, f.columns))
    requires r6 == Narrow(r5, MemberStep(NomeTarefa, q.taskNames, f.columns))
    requires r7 == Narrow(r6, MemberStep(TarefaConsolidada, q.consolidated, f.columns))
    ensures r7 == Filtered(f, q).rows
  {
    var a1 := DueStep(f, q);
    SatisfyingNothing(f.rows);
    KeepOrSkip(f.rows, [], a1);
    assert [] + a1 == a1;
    var a2 := a1 + YearStep(f, q);
    KeepOrSkip(f.rows, a1, YearStep(f, q));
    var a3 := a2 + MemberStep(CategoriaScania, q.scania, f.columns);
    KeepOrSkip(f.rows, a2, MemberStep(CategoriaScania, q.scania, f.columns));
    var a4 := a3 + MemberStep(Categoria, q.categories, f.columns);
    KeepOrSkip(f.rows, a3, MemberStep(Categoria, q.categories, f.columns));
    var a5 := a4 + MemberStep(TipoDoc, q.docTypes, f.columns);
    KeepOrSkip(f.rows, a4, MemberStep(TipoDoc, q.docTypes, f.columns));
    var a6 := a5 + MemberStep(NomeTarefa, q.taskNames, f.columns);
    KeepOrSkip(f.rows, a5, MemberStep(NomeTarefa, q.taskNames, f.columns));
    KeepOrSkip(f.rows, a6, MemberStep(TarefaConsolidada, q.consolidated, f.columns));
  }

  /** With no mask at all every row survives. */
  lemma {:induction false} SatisfyingNothing(rows: seq<Record>)
    ensures Satisfying(rows, []) == rows
  {
    if rows != [] {
      SatisfyingNothing(rows[1..]);
      assert rows == [rows[0]] + rows[1..];
    }
  }

  /** Applying one more mask to the survivors of ps is filtering by ps + [p]. */
  lemma {:induction false} KeepExtends(rows: seq<Record>, ps: seq<Pred>, p: Pred)
    ensures Keep(Satisfying(rows, ps), p) == Satisfying(rows, ps + [p])
  {
    if rows != [] {
      KeepExtends(rows[1..], ps, p);
      var r := rows[0];
      assert AllHold(ps + [p], r) <==> AllHold(ps, r) && Holds(p, r) by {
        assert forall i :: 0 <= i < |ps| ==> (ps + [p])[i] == ps[i];
        assert (ps + [p])[|ps|] == p;
      }
      var rest := Satisfying(rows[1..], ps);
      if AllHold(ps, r) {
        assert Satisfying(rows, ps) == [r] + rest;
        assert ([r] + rest)[1..] == rest;
      } else {
        assert Satisfying(rows, ps) == rest;
      }
    }
  }

  lemma AllHoldAppend(a: seq<Pred>, b: seq<Pred>, r: Record)
    ensures AllHold(a + b, r) <==> AllHold(a, r) && AllHold(b, r)
  {
    if AllHold(a, r) && AllHold(b, r) {
      forall i | 0 <= i < |a + b| ensures Holds((a + b)[i], r) {
        if i >= |a| { assert (a + b)[i] == b[i - |a|]; }
      }
    }
    if AllHold(a + b, r) {
      forall i | 0 <= i < |a| ensures Holds(a[i], r) {
        assert (a + b)[i] == a[i];
      }
      forall i | 0 <= i < |b| ensures Holds(b[i], r) {
        assert (a + b)[|a| + i] == b[i];
      }
    }
  }

  /** The active masks, taken together, say exactly what Admits says. */
  lemma ActivePredsMeaning(f: Frame, q: Selection, r: Record)
    ensures AllHold(ActivePreds(f, q), r) <==> Admits(f, q, r)
  {
    var d := DueStep(f, q);
    var y := YearStep(f, q);
    var m1 := MemberStep(CategoriaScania, q.scania, f.columns);
    var m2 := MemberStep(Categoria, q.categories, f.columns);
    var m3 := MemberStep(TipoDoc, q.docTypes, f.columns);
    var m4 := MemberStep(NomeTarefa, q.taskNames, f.columns);
    var m5 := MemberStep(TarefaConsolidada, q.consolidated, f.columns);
    AllHoldAppend(d + y + m1 + m2 + m3 + m4, m5, r);
    AllHoldAppend(d + y + m1 + m2 + m3, m4, r);
    AllHoldAppend(d + y + m1 + m2, m3, r);
    AllHoldAppend(d + y + m1, m2, r);
    AllHoldAppend(d + y, m1, r);
    AllHoldAppend(d, y, r);
    AllHoldOne(d, r);
    AllHoldOne(y, r);
    AllHoldOne(m1, r);
    AllHoldOne(m2, r);
    AllHoldOne(m3, r);
    AllHoldOne(m4, r);
    AllHoldOne(m5, r);
  }

  lemma AllHoldOne(ps: seq<Pred>, r: Record)
    requires |ps| <= 1
    ensures AllHold(ps, r) <==> (ps == [] || Holds(ps[0], r))
  {
  }

  /** A row is among the survivors iff it is a row of the input that passes every mask. */
  lemma {:induction false} SatisfyingMembership(rows: seq<Record>, ps: seq<Pred>, r: Record)
    ensures r in Satisfying(rows, ps) <==> r in rows && AllHold(ps, r)
  {
    if rows != [] {
      SatisfyingMembership(rows[1..], ps, r);
      assert r in rows <==> r == rows[0] || r in rows[1..] by {
        assert rows == [rows[0]] + rows[1..];
      }
    }
  }

  /**
   * Row by row: every copy of a row that passes every mask survives, and no
   * copy of any other row does.
   */
  lemma {:induction false} SatisfyingCount(rows: seq<Record>, ps: seq<Pred>, r: Record)
    ensures multiset(Satisfying(rows, ps))[r] == (if AllHold(ps, r) then multiset(rows)[r] else 0)
  {
    if rows != [] {
      SatisfyingCount(rows[1..], ps, r);
      assert rows == [rows[0]] + rows[1..];
      var head := if AllHold(ps, rows[0]) then [rows[0]] else [];
      assert multiset(Satisfying(rows, ps)) == multiset(head) + multiset(Satisfying(rows[1..], ps));
      assert multiset(rows) == multiset([rows[0]]) + multiset(rows[1..]);
    }
  }

  /** The survivors are a subsequence of the input: nothing added, nothing changed, order kept. */
  lemma {:induction false} SatisfyingIsSubsequence(rows: seq<Record>, ps: seq<Pred>)
    ensures IsSubsequence(Satisfying(rows, ps), rows)
  {
    if rows != [] {
      SatisfyingIsSubsequence(rows[1..], ps);
      var rest := Satisfying(rows[1..], ps);
      var a := Satisfying(rows, ps);
      if AllHold(ps, rows[0]) {
        assert a == [rows[0]] + rest;
        assert a != [] && a[0] == rows[0] && a[1..] == rest;
        assert IsSubsequence(a[1..], rows[1..]);
      } else {
        assert a == rest;
      }
    }
  }

  /** Filtering twice by the same masks changes nothing the second time. */
  lemma {:induction false} SatisfyingIdempotent(rows: seq<Record>, ps: seq<Pred>)
    ensures Satisfying(Satisfying(rows, ps), ps) == Satisfying(rows, ps)
  {
    if rows != [] {
      SatisfyingIdempotent(rows[1..], ps);
      var rest := Satisfying(rows[1..], ps);
      var a := Satisfying(rows, ps);
      if AllHold(ps, rows[0]) {
        assert a == [rows[0]] + rest;
        assert a != [] && a[0] == rows[0] && a[1..] == rest;
        assert Satisfying(a, ps) == [rows[0]] + Satisfying(rest, ps);
      } else {
        assert a == rest;
      }
    }
  }

  /** When every row passes every mask the rows come back unchanged. */
  lemma {:induction false} SatisfyingAll(rows: seq<Record>, ps: seq<Pred>)
    requires forall i :: 0 <= i < |rows| ==> AllHold(ps, rows[i])
    ensures Satisfying(rows, ps) == rows
  {
    if rows != [] {
      SatisfyingAll(rows[1..], ps);
      assert rows == [rows[0]] + rows[1..];
    }
  }

  // ---- The filter contract, in the dashboard's terms ----

  /** apply_filters keeps the columns, and its rows are a subsequence of the input rows. */
  lemma FilterPreservesOrder(f: Frame, q: Selection)
    ensures Filtered(f, q).columns == f.columns
    ensures |Filtered(f, q).rows| <= |f.rows|
    ensures IsSubsequence(Filtered(f, q).rows, f.rows)
  {
    SatisfyingIsSubsequence(f.rows, ActivePreds(f, q));
    SubsequenceShorter(Filtered(f, q).rows, f.rows);
  }

  lemma {:induction false} SubsequenceShorter<T>(a: seq<T>, b: seq<T>)
    requires IsSubsequence(a, b)
    ensures |a| <= |b|
    decreases |b|
  {
    if b != [] {
      if a != [] && a[0] == b[0] && IsSubsequence(a[1..], b[1..]) {
        SubsequenceShorter(a[1..], b[1..]);
      } else {
        SubsequenceShorter(a, b[1..]);
      }
    }
  }

  /** A row survives iff it is an input row that satisfies every active filter. */
  lemma FilterMembership(f: Frame, q: Selection, r: Record)
    ensures r in Filtered(f, q).rows <==> r in f.rows && Admits(f, q, r)
  {
    SatisfyingMembership(f.rows, ActivePreds(f, q), r);
    ActivePredsMeaning(f, q, r);
  }

  /**
   * apply_filters keeps every copy of an admitted bill and no copy of any
   * other: the multiplicity of each row in the result is its multiplicity in
   * the input when the selection admits it, and zero otherwise.
   */
  lemma FilterCount(f: Frame, q: Selection, r: Record)
    ensures multiset(Filtered(f, q).rows)[r] == (if Admits(f, q, r) then multiset(f.rows)[r] else 0)
  {
    SatisfyingCount(f.rows, ActivePreds(f, q), r);
    ActivePredsMeaning(f, q, r);
  }

  /**
   * When the due-date column exists, every surviving row has a due date
   * within the inclusive range; rows without a due date never survive.
   */
  lemma FilterDueRange(f: Frame, q: Selection)
    requires "DATA_VENCIMENTO" in f.columns
    ensures forall r :: r in Filtered(f, q).rows ==>
      r.dataVencimento.Some? && DateLe(q.start, r.dataVencimento.value) && DateLe(r.dataVencimento.value, q.end)
  {
    forall r | r in Filtered(f, q).rows
      ensures r.dataVencimento.Some? && DateLe(q.start, r.dataVencimento.value) && DateLe(r.dataVencimento.value, q.end)
    {
      FilterMembership(f, q, r);
    }
  }

  /**
   * An empty multi-select and the year choice "Todos" switch their filter off:
   * with nothing selected anywhere, only the date range narrows the frame.
   */
  lemma FilterSkipsEmptySelections(f: Frame, q: Selection)
    requires q.year == Todos
    requires q.scania == [] && q.categories == [] && q.docTypes == [] && q.taskNames == [] && q.consolidated == []
    ensures Filtered(f, q).rows == Satisfying(f.rows, DueStep(f, q))
  {
    assert ActivePreds(f, q) == DueStep(f, q);
  }

  /**
   * The identity case: when every row already satisfies every active filter
   * (the whole date range, every category selected, ...) the filter returns
   * the frame unchanged.
   */
  lemma FilterIdentity(f: Frame, q: Selection)
    requires forall i :: 0 <= i < |f.rows| ==> Admits(f, q, f.rows[i])
    ensures Filtered(f, q) == f
  {
    var ps := ActivePreds(f, q);
    forall i | 0 <= i < |f.rows| ensures AllHold(ps, f.rows[i]) {
      ActivePredsMeaning(f, q, f.rows[i]);
    }
    SatisfyingAll(f.rows, ps);
  }

  /** Filtering the filtered frame again with the same selection changes nothing. */
  lemma FilterIdempotent(f: Frame, q: Selection)
    ensures Filtered(Filtered(f, q), q) == Filtered(f, q)
  {
    var g := Filtered(f, q);
    var ps := ActivePreds(f, q);
    if g.rows == [] {
    } else {
      assert |f.rows| > 0;
      assert ActivePreds(g, q) == ps;
      SatisfyingIdempotent(f.rows, ps);
    }
  }
}
