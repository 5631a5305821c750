/**
 * The cost records the dashboard works on: calendar dates, spreadsheet cells,
 * one record per row of the cost sheet, and the frame (column labels plus rows)
 * that every stage of the pipeline consumes and produces.
 */
module Records {
  import opened Wrappers

  type Month = m: int | 1 <= m <= 12 witness 1
  type DayOfMonth = d: int | 1 <= d <= 31 witness 1

  /** A parsed calendar date, as pandas' datetime holds it. */
  datatype Date = Date(year: int, month: Month, day: DayOfMonth)

  /** Chronological order on dates: year, then month, then day. */
  predicate DateLe(a: Date, b: Date)
  {
    a.year < b.year
    || (a.year == b.year && (a.month < b.month || (a.month == b.month && a.day <= b.day)))
  }

  /**
   * One spreadsheet cell. Blank is a missing value (NaN, or NaT in a date column);
   * amounts are whole centavos.
   */
  datatype Cell = Blank | Number(n: int) | Text(s: string) | Day(d: Date)

  /** A cell used as a group-by key: pandas drops rows whose key is missing. */
  function KeyOf(c: Cell): Option<Cell>
  {
    if c.Blank? then None else Some(c)
  }

  /**
   * One cost entry after loading: the canonical columns of the sheet, the
   * typed due date and amount, and the year and month derived from the due date.
   */
  datatype Record = Record(
    codFornecedor: Cell,
    categoriaScania: Cell,
    nomeFornecedor: Cell,
    dataEmissao: Option<Date>,
    documento: Cell,
    tipoDoc: Cell,
    parcelas: Cell,
    dataVencimento: Option<Date>,
    valor: Option<int>,
    tarefa: Cell,
    contaTarefa: Cell,
    nomeTarefa: Cell,
    tarefaConsolidada: Cell,
    categoria: Cell,
    ano: Option<int>,
    mes: Option<Month>)

  /** A data frame: the set of column labels it carries and its rows in order. */
  datatype Frame = Frame(columns: set<string>, rows: seq<Record>)

  /** The amount as pandas' sum and max see it: a missing amount is skipped (counts as 0 in a sum). */
  function ValorOf(r: Record): int
  {
    if r.valor.Some? then r.valor.value else 0
  }
}
