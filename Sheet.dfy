/**
 * The raw sheet as the scan in app.py sees it: rows of heterogeneous cells,
 * read with no header row, and the three sentinel tests on a row's first cell.
 */
module Sheet {

  /** A cell value: a string, a number (Excel numbers and dates) or an empty cell (NaN). */
  datatype Cell = Text(s: string) | Num(v: real) | Empty

  /** A row, indexed by column position. */
  type Row = seq<Cell>

  /** First cell of a row that opens a company section. */
  const CompanyMarker: string := "Empresa"

  /** Prefix of the first cell of a row that closes a block. */
  const TotalPrefix: string := "Total de empregados"

  /** First cell of a row whose cells become the column labels. */
  const HeaderMarker: string := "Matrícula"

  /**
   * Cell i of a row. The sheet is read into a rectangular frame, so a cell
   * beyond the end of a shorter row reads as empty (NaN).
   */
  function At(row: Row, i: nat): (c: Cell)
  {
    if i < |row| then row[i] else Empty
  }

  predicate StartsWith(s: string, prefix: string)
  {
    |prefix| <= |s| && s[..|prefix|] == prefix
  }

  /** What the first cell makes of a row. */
  datatype Kind = CompanyRow | TotalRow | HeaderRow | DataRow

  /**
   * The three first-cell tests in the scan's order. No first cell passes two
   * of them, so each kind is decided by its own test alone.
   */
  function KindOf(row: Row): (k: Kind)
    ensures k == CompanyRow <==> At(row, 0) == Text(CompanyMarker)
    ensures k == TotalRow <==> At(row, 0).Text? && StartsWith(At(row, 0).s, TotalPrefix)
    ensures k == HeaderRow <==> At(row, 0) == Text(HeaderMarker)
  {
    var first := At(row, 0);
    if first == Text(CompanyMarker) then CompanyRow
    // only a string cell can pass the prefix test; numbers and NaN never do
    else if first.Text? && StartsWith(first.s, TotalPrefix) then TotalRow
    else if first == Text(HeaderMarker) then HeaderRow
    else DataRow
  }

  predicate IsCompany(row: Row) { KindOf(row) == CompanyRow }

  predicate IsTotal(row: Row) { KindOf(row) == TotalRow }

  predicate IsHeader(row: Row) { KindOf(row) == HeaderRow }

  /** A row that neither opens nor closes a block: data rows and company rows. */
  predicate Plain(row: Row) { !IsHeader(row) && !IsTotal(row) }
}
