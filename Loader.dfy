/**
 * load_data in dashbord.py: the sheet as read, normalised into a frame of
 * records. Known header variants are renamed to canonical names, the two date
 * columns and VALOR are coerced (unparseable values become missing), year and
 * month are derived from the due date, and rows without an amount are dropped.
 */
module Loader {
  import opened Wrappers
  import opened Records

  /** The sheet as pandas reads it: header labels and rows of cells, column by column. */
  datatype Sheet = Sheet(headers: seq<string>, rows: seq<seq<Cell>>)

  /** column_mapping, in its declaration order: (header as found, canonical name). */
  const ColumnMapping: seq<(string, string)> := [
    ("CODIGO FORNECEDOR", "COD_FORNECEDOR"),
    ("CATEGORIA SCANIA", "CATEGORIA_SCANIA"),
    ("NOME FORNECEDOR", "NOME_FORNECEDOR"),
    ("DATA EMISSIO", "DATA_EMISSAO"),
    ("N. DOCUMENTO", "DOCUMENTO"),
    ("TIPO DOC", "TIPO_DOC"),
    ("N.PARCELAS", "PARCELAS"),
    ("DATA VENCIMENTO", "DATA_VENCIMENTO"),
    ("VALOR", "VALOR"),
    ("N. TAREFA", "TAREFA"),
    ("N.CONTA TAREFA", "CONTA_TAREFA"),
    ("NOME TAREFA", "NOME_TAREFA"),
    ("TAREFA CONSOLIDADA", "TAREFA_CONSOLIDADA")
  ]

  const DateColumns: seq<string> := ["DATA_EMISSAO", "DATA_VENCIMENTO"]

  /** The columns derived from DATA_VENCIMENTO. */
  const DerivedColumns: set<string> := {"ANO", "MES", "MES_ANO", "MES_NOME", "ANO_MES"}

  // ---- Header renaming ----

  /** df.rename(columns={variant: canonical}): every header equal to variant becomes canonical. */
  function RenameHeader(headers: seq<string>, variant: string, canonical: string): seq<string>
  {
    seq(|headers|, i requires 0 <= i < |headers| => if headers[i] == variant then canonical else headers[i])
  }

  /** The headers after the renaming loop has run over the pairs of m, in order. */
  function RenameSteps(headers: seq<string>, m: seq<(string, string)>): seq<string>
  {
    if m == [] then headers
    else
      var h := RenameHeader(RenameSteps(headers, m[..|m| - 1]), m[|m| - 1].0, m[|m| - 1].1) ;
      if m[|m| - 1].0 in RenameSteps(headers, m[..|m| - 1]) then h else RenameSteps(headers, m[..|m| - 1])
  }

  /** One header name renamed by the pairs of m applied one after the other. */
  function RenameNameSteps(x: string, m: seq<(string, string)>): string
  {
    if m == [] then x
    else
      var y := RenameNameSteps(x, m[..|m| - 1]);
      if y == m[|m| - 1].0 then m[|m| - 1].1 else y
  }

  /** The canonical name the first matching pair of m gives x; x itself when no pair matches. */
  function LookupName(x: string, m: seq<(string, string)>): string
  {
    if m == [] then x else if m[0].0 == x then m[0].1 else LookupName(x, m[1..])
  }

  function Canonical(x: string): string
  {
    LookupName(x, ColumnMapping)
  }

  ghost predicate IsVariant(x: string)
  {
    exists i :: 0 <= i < |ColumnMapping| && ColumnMapping[i].0 == x
  }

  /** No pair renames to a name that a later pair would rename again. */
  ghost predicate NeverChains(m: seq<(string, string)>)
  {
    forall i, j :: 0 <= i < j < |m| ==> m[i].1 != m[j].0
  }

  lemma MappingNeverChains()
    ensures NeverChains(ColumnMapping)
  {
  }

  lemma {:induction false} LookupNameSnoc(x: string, m: seq<(string, string)>, p: (string, string))
    ensures LookupName(x, m + [p]) ==
      if (exists i :: 0 <= i < |m| && m[i].0 == x) then LookupName(x, m)
      else if p.0 == x then p.1 else x
  {
    if m == [] {
      assert m + [p] == [p];
    } else {
      assert (m + [p])[1..] == m[1..] + [p];
      LookupNameSnoc(x, m[1..], p);
      if m[0].0 != x {
        assert (exists i :: 0 <= i < |m| && m[i].0 == x) <==> (exists i :: 0 <= i < |m[1..]| && m[1..][i].0 == x) by {
          if exists i :: 0 <= i < |m| && m[i].0 == x {
            var i :| 0 <= i < |m| && m[i].0 == x;
            assert m[1..][i - 1] == m[i];
          }
          if exists i :: 0 <= i < |m[1..]| && m[1..][i].0 == x {
            var i :| 0 <= i < |m[1..]| && m[1..][i].0 == x;
            assert m[i + 1] == m[1..][i];
          }
        }
      } else {
        assert m[0].0 == x;
      }
    }
  }

  lemma {:induction false} LookupNameIsAKey(x: string, m: seq<(string, string)>)
    requires exists i :: 0 <= i < |m| && m[i].0 == x
    ensures exists i :: 0 <= i < |m| && m[i].0 == x && LookupName(x, m) == m[i].1
  {
    if m[0].0 != x {
      var i :| 0 <= i < |m| && m[i].0 == x;
      assert m[1..][i - 1] == m[i];
      LookupNameIsAKey(x, m[1..]);
      var j :| 0 <= j < |m[1..]| && m[1..][j].0 == x && LookupName(x, m[1..]) == m[1..][j].1;
      assert m[j + 1] == m[1..][j];
    } else {
      assert m[0].0 == x;
    }
  }

  /**
   * When no pair renames into a later pair's source name, applying the pairs
   * one after the other is the same as a single lookup of the first match.
   */
  lemma {:induction false} StepsAreLookup(x: string, m: seq<(string, string)>)
    requires NeverChains(m)
    ensures RenameNameSteps(x, m) == LookupName(x, m)
  {
    if m != [] {
      var init := m[..|m| - 1];
      var p := m[|m| - 1];
      assert NeverChains(init) by {
        forall i, j | 0 <= i < j < |init| ensures init[i].1 != init[j].0 {
          assert init[i] == m[i] && init[j] == m[j];
        }
      }
      StepsAreLookup(x, init);
      assert init + [p] == m;
      LookupNameSnoc(x, init, p);
      if exists i :: 0 <= i < |init| && init[i].0 == x {
        LookupNameIsAKey(x, init);
        var i :| 0 <= i < |init| && init[i].0 == x && LookupName(x, init) == init[i].1;
        assert init[i] == m[i];
        assert m[i].1 != m[|m| - 1].0;
      } else {
        LookupNameAbsent(x, init);
      }
    }
  }

  lemma {:induction false} RenameStepsPointwise(headers: seq<string>, m: seq<(string, string)>)
    ensures |RenameSteps(headers, m)| == |headers|
    ensures forall j :: 0 <= j < |headers| ==> RenameSteps(headers, m)[j] == RenameNameSteps(headers[j], m)
  {
    if m != [] {
      RenameStepsPointwise(headers, m[..|m| - 1]);
    }
  }

  /** The renaming loop as a whole sends every header to its canonical name. */
  lemma RenameLoopIsCanonical(headers: seq<string>)
    ensures |RenameSteps(headers, ColumnMapping)| == |headers|
    ensures forall j :: 0 <= j < |headers| ==> RenameSteps(headers, ColumnMapping)[j] == Canonical(headers[j])
  {
    RenameStepsPointwise(headers, ColumnMapping);
    MappingNeverChains();
    forall j | 0 <= j < |headers| ensures RenameNameSteps(headers[j], ColumnMapping) == Canonical(headers[j]) {
      StepsAreLookup(headers[j], ColumnMapping);
    }
  }

  /**
   * A header is renamed only when it is one of the known variants, and then
   * to the canonical name paired with it; every other header is untouched.
   */
  lemma CanonicalRenamesOnlyVariants(x: string)
    ensures !IsVariant(x) ==> Canonical(x) == x
    ensures IsVariant(x) ==> exists i :: 0 <= i < |ColumnMapping| && ColumnMapping[i].0 == x && Canonical(x) == ColumnMapping[i].1
  {
    if IsVariant(x) {
      LookupNameIsAKey(x, ColumnMapping);
    } else {
      LookupNameAbsent(x, ColumnMapping);
    }
  }

  lemma {:induction false} LookupNameAbsent(x: string, m: seq<(string, string)>)
    requires forall i :: 0 <= i < |m| ==> m[i].0 != x
    ensures LookupName(x, m) == x
  {
    if m != [] {
      assert forall i :: 0 <= i < |m[1..]| ==> m[1..][i] == m[i + 1];
      LookupNameAbsent(x, m[1..]);
    }
  }

  /** No pair renames to a name that an earlier pair renames. */
  ghost predicate NeverUndoes(m: seq<(string, string)>)
  {
    forall i, j :: 0 <= j < i < |m| ==> m[i].1 != m[j].0
  }

  lemma MappingNeverUndoes()
    ensures NeverUndoes(ColumnMapping)
  {
  }

  /** Renaming is idempotent: a canonical name is already canonical, so loading again renames nothing. */
  lemma CanonicalIdempotent(x: string)
    ensures Canonical(Canonical(x)) == Canonical(x)
  {
    CanonicalRenamesOnlyVariants(x);
    if IsVariant(x) {
      var i :| 0 <= i < |ColumnMapping| && ColumnMapping[i].0 == x && Canonical(x) == ColumnMapping[i].1;
      var y := ColumnMapping[i].1;
      MappingNeverChains();
      MappingNeverUndoes();
      CanonicalRenamesOnlyVariants(y);
    }
  }

  // ---- Cells, columns and coercion ----

  /** df[name] for one row: the cell under the first header equal to name, Blank when there is none. */
  function Field(headers: seq<string>, row: seq<Cell>, name: string): Cell
  {
    if headers == [] || row == [] then Blank
    else if headers[0] == name then row[0]
    else Field(headers[1..], row[1..], name)
  }

  /** pd.to_datetime(..., errors='coerce') on one cell: anything but a date becomes NaT. */
  function AsDateCell(c: Cell): Cell
  {
    if c.Day? then c else Blank
  }

  /** pd.to_numeric(..., errors='coerce') on one cell: anything but a number becomes NaN. */
  function AsNumberCell(c: Cell): Cell
  {
    if c.Number? then c else Blank
  }

  /** df[col] = conv(df[col]) on one row. */
  function CoerceRow(headers: seq<string>, row: seq<Cell>, col: string, conv: Cell -> Cell): seq<Cell>
  {
    seq(|row|, c requires 0 <= c < |row| => if c < |headers| && headers[c] == col then conv(row[c]) else row[c])
  }

  function CoerceColumn(headers: seq<string>, rows: seq<seq<Cell>>, col: string, conv: Cell -> Cell): seq<seq<Cell>>
  {
    seq(|rows|, k requires 0 <= k < |rows| => CoerceRow(headers, rows[k], col, conv))
  }

  /** The rows after the date loop has run over cols. */
  function CoerceDates(headers: seq<string>, rows: seq<seq<Cell>>, cols: seq<string>): seq<seq<Cell>>
  {
    if cols == [] then rows
    else
      var before := CoerceDates(headers, rows, cols[..|cols| - 1]);
      var col := cols[|cols| - 1];
      if col in headers then CoerceColumn(headers, before, col, AsDateCell) else before
  }

  /** dropna(subset=['VALOR']): the rows whose amount is present. */
  function KeepValued(headers: seq<string>, rows: seq<seq<Cell>>): seq<seq<Cell>>
  {
    if rows == [] then []
    else
      KeepValued(headers, rows[..|rows| - 1])
      + (if Field(headers, rows[|rows| - 1], "VALOR").Number? then [rows[|rows| - 1]] else [])
  }

  function DateOf(c: Cell): Option<Date>
  {
    if c.Day? then Some(c.d) else None
  }

  function NumberOf(c: Cell): Option<int>
  {
    if c.Number? then Some(c.n) else None
  }

  /** One normalised row: canonical fields, typed dates and amount, year and month of the due date. */
  function ToRecord(headers: seq<string>, row: seq<Cell>): Record
  {
    var due := DateOf(Field(headers, row, "DATA_VENCIMENTO"));
    Record(
      codFornecedor := Field(headers, row, "COD_FORNECEDOR"),
      categoriaScania := Field(headers, row, "CATEGORIA_SCANIA"),
      nomeFornecedor := Field(headers, row, "NOME_FORNECEDOR"),
      dataEmissao := DateOf(Field(headers, row, "DATA_EMISSAO")),
      documento := Field(headers, row, "DOCUMENTO"),
      tipoDoc := Field(headers, row, "TIPO_DOC"),
      parcelas := Field(headers, row, "PARCELAS"),
      dataVencimento := due,
      valor := NumberOf(Field(headers, row, "VALOR")),
      tarefa := Field(headers, row, "TAREFA"),
      contaTarefa := Field(headers, row, "CONTA_TAREFA"),
      nomeTarefa := Field(headers, row, "NOME_TAREFA"),
      tarefaConsolidada := Field(headers, row, "TAREFA_CONSOLIDADA"),
      categoria := Field(headers, row, "CATEGORIA"),
      ano := if due.Some? then Some(due.value.year) else None,
      mes := if due.Some? then Some(due.value.month) else None)
  }

  function CanonicalHeaders(headers: seq<string>): seq<string>
  {
    seq(|headers|, j requires 0 <= j < |headers| => Canonical(headers[j]))
  }

  /** The column labels of the loaded frame. */
  function LoadedColumns(headers: seq<string>): set<string>
  {
    (set x | x in headers) + (if "DATA_VENCIMENTO" in headers then DerivedColumns else {})
  }

  /**
   * What load_data returns for a sheet. Without a VALOR column the dropna call
   * raises, and the except branch returns an empty frame.
   */
  function Loaded(sheet: Sheet): Frame
  {
    var headers := CanonicalHeaders(sheet.headers);
    var dated := CoerceDates(headers, sheet.rows, DateColumns);
    if "VALOR" !in headers then Frame({}, [])
    else
      var kept := KeepValued(headers, CoerceColumn(headers, dated, "VALOR", AsNumberCell));
      Frame(LoadedColumns(headers), seq(|kept|, k requires 0 <= k < |kept| => ToRecord(headers, kept[k])))
  }

  /** load_data: rename known headers, coerce the date columns and VALOR, drop rows without an amount. */
  method LoadData(sheet: Sheet) returns (f: Frame)
    ensures f == Loaded(sheet)
  {
    var headers := sheet.headers;
    for i := 0 to |ColumnMapping|
      invariant headers == RenameSteps(sheet.headers, ColumnMapping[..i])
    {
      var variant, canonical := ColumnMapping[i].0, ColumnMapping[i].1;
      assert ColumnMapping[..i + 1][..i] == ColumnMapping[..i];
      if variant in headers {
        headers := RenameHeader(headers, variant, canonical);
      }
    }
    assert ColumnMapping[..|ColumnMapping|] == ColumnMapping;
    RenameLoopIsCanonical(sheet.headers);
    assert headers == CanonicalHeaders(sheet.headers);

    var rows := sheet.rows;
    for j := 0 to |DateColumns|
      invariant rows == CoerceDates(headers, sheet.rows, DateColumns[..j])
    {
      var col := DateColumns[j];
      assert DateColumns[..j + 1][..j] == DateColumns[..j];
      if col in headers {
        rows := CoerceColumn(headers, rows, col, AsDateCell);
      }
    }
    assert DateColumns[..|DateColumns|] == DateColumns;

    if "VALOR" in headers {
      rows := CoerceColumn(headers, rows, "VALOR", AsNumberCell);
    }
    if "VALOR" !in headers {
      // dropna(subset=['VALOR']) raises KeyError; the except branch returns an empty DataFrame
      return Frame({}, []);
    }
    var kept := KeepValued(headers, rows);
    f := Frame(LoadedColumns(headers), seq(|kept|, k requires 0 <= k < |kept| => ToRecord(headers, kept[k])));
  }

  // ---- What loading promises ----

  lemma {:induction false} KeepValuedHaveAmounts(headers: seq<string>, rows: seq<seq<Cell>>)
    ensures forall k :: 0 <= k < |KeepValued(headers, rows)| ==> Field(headers, KeepValued(headers, rows)[k], "VALOR").Number?
  {
    if rows != [] {
      KeepValuedHaveAmounts(headers, rows[..|rows| - 1]);
    }
  }

  /** After loading no row has a missing VALOR. */
  lemma LoadedAmountsPresent(sheet: Sheet)
    ensures forall r :: r in Loaded(sheet).rows ==> r.valor.Some?
  {
    var headers := CanonicalHeaders(sheet.headers);
    if "VALOR" in headers {
      var kept := KeepValued(headers, CoerceColumn(headers, CoerceDates(headers, sheet.rows, DateColumns), "VALOR", AsNumberCell));
      KeepValuedHaveAmounts(headers, CoerceColumn(headers, CoerceDates(headers, sheet.rows, DateColumns), "VALOR", AsNumberCell));
      forall r | r in Loaded(sheet).rows ensures r.valor.Some? {
        var k :| 0 <= k < |kept| && Loaded(sheet).rows[k] == r;
      }
    }
  }

  /** Year and month of every loaded row are those of its due date, and missing exactly when it is. */
  lemma LoadedDerivedFromDueDate(sheet: Sheet)
    ensures forall r :: r in Loaded(sheet).rows ==>
      && (r.ano.Some? <==> r.dataVencimento.Some?)
      && (r.mes.Some? <==> r.dataVencimento.Some?)
      && (r.dataVencimento.Some? ==> r.ano.value == r.dataVencimento.value.year && r.mes.value == r.dataVencimento.value.month)
  {
  }

  /**
   * The loaded frame's columns: none when the sheet has no VALOR column
   * (under any of its names); otherwise every header under its canonical
   * name, plus the derived year and month columns when the due-date column
   * exists, and nothing else.
   */
  lemma LoadedColumnsAre(sheet: Sheet)
    ensures var headers := CanonicalHeaders(sheet.headers);
      && ("VALOR" !in headers ==> Loaded(sheet) == Frame({}, []))
      && ("VALOR" in headers ==>
            && (forall x :: x in sheet.headers ==> Canonical(x) in Loaded(sheet).columns)
            && (forall c :: c in Loaded(sheet).columns ==> c in headers || c in DerivedColumns)
            && ("DATA_VENCIMENTO" in headers ==> DerivedColumns <= Loaded(sheet).columns))
  {
    var headers := CanonicalHeaders(sheet.headers);
    if "VALOR" in headers {
      var cols := Loaded(sheet).columns;
      assert cols == LoadedColumns(headers);
      forall x | x in sheet.headers ensures Canonical(x) in cols {
        var j :| 0 <= j < |sheet.headers| && sheet.headers[j] == x;
        assert headers[j] == Canonical(x);
      }
    }
  }

  lemma {:induction false} FieldOfCoerceRow(headers: seq<string>, row: seq<Cell>, col: string, conv: Cell -> Cell, name: string)
    requires conv(Blank) == Blank
    ensures Field(headers, CoerceRow(headers, row, col, conv), name)
      == if name == col then conv(Field(headers, row, name)) else Field(headers, row, name)
  {
    var c := CoerceRow(headers, row, col, conv);
    if headers != [] && row != [] {
      assert c[1..] == CoerceRow(headers[1..], row[1..], col, conv);
      FieldOfCoerceRow(headers[1..], row[1..], col, conv, name);
    }
  }

  lemma {:induction false} CoerceDatesKeepsAmounts(headers: seq<string>, rows: seq<seq<Cell>>, cols: seq<string>)
    requires "VALOR" !in cols
    ensures |CoerceDates(headers, rows, cols)| == |rows|
    ensures forall k :: 0 <= k < |rows| ==>
      Field(headers, CoerceDates(headers, rows, cols)[k], "VALOR") == Field(headers, rows[k], "VALOR")
  {
    if cols != [] {
      var init := cols[..|cols| - 1];
      var col := cols[|cols| - 1];
      assert "VALOR" !in init by { assert forall i :: 0 <= i < |init| ==> init[i] == cols[i]; }
      CoerceDatesKeepsAmounts(headers, rows, init);
      var before := CoerceDates(headers, rows, init);
      if col in headers {
        forall k | 0 <= k < |rows|
          ensures Field(headers, CoerceColumn(headers, before, col, AsDateCell)[k], "VALOR") == Field(headers, rows[k], "VALOR")
        {
          FieldOfCoerceRow(headers, before[k], col, AsDateCell, "VALOR");
        }
      }
    }
  }

  lemma {:induction false} KeepValuedSameAmounts(headers: seq<string>, a: seq<seq<Cell>>, b: seq<seq<Cell>>)
    requires |a| == |b|
    requires forall k :: 0 <= k < |a| ==>
      Field(headers, a[k], "VALOR").Number? == Field(headers, b[k], "VALOR").Number?
    ensures |KeepValued(headers, a)| == |KeepValued(headers, b)|
  {
    if a != [] {
      KeepValuedSameAmounts(headers, a[..|a| - 1], b[..|b| - 1]);
    }
  }

  /**
   * Loading drops exactly the rows whose amount cell is not a number: the
   * frame has as many rows as the sheet has rows with a numeric VALOR.
   */
  lemma LoadedRowCount(sheet: Sheet)
    ensures var headers := CanonicalHeaders(sheet.headers);
      "VALOR" in headers ==> |Loaded(sheet).rows| == |KeepValued(headers, sheet.rows)|
  {
    var headers := CanonicalHeaders(sheet.headers);
    if "VALOR" in headers {
      var dated := CoerceDates(headers, sheet.rows, DateColumns);
      CoerceDatesKeepsAmounts(headers, sheet.rows, DateColumns);
      var valued := CoerceColumn(headers, dated, "VALOR", AsNumberCell);
      forall k | 0 <= k < |valued|
        ensures Field(headers, valued[k], "VALOR").Number? == Field(headers, sheet.rows[k], "VALOR").Number?
      {
        FieldOfCoerceRow(headers, dated[k], "VALOR", AsNumberCell, "VALOR");
      }
      KeepValuedSameAmounts(headers, valued, sheet.rows);
    }
  }
}
