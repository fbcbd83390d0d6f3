# Employee sheet loader: block extractor and filter

This project models the core of a small spreadsheet tool that reads one sheet
holding several company employee tables stacked one above the other. The
tool rebuilds them as one table and filters it by city of work and by job
title. The core is the function `carregar_dados_com_filtro` in `app.py`. It
has two parts.

- **Block extractor** (module `Extractor`). One pass over the rows, looking
  only at the first cell of each row:
  - an `"Empresa"` row sets the current company to its cell 1;
  - a row whose first cell is a string starting with `"Total de empregados"`
    closes the open block, if there is one, and always leaves no block open;
  - a `"Matrícula"` row becomes the header and opens a block at the next row.

  A closed block is the rows strictly between its header and its total row,
  cut out all at once. Each of those rows is labelled positionally by the
  header and tagged `empresa` with the company in force at the total row. The
  scan is the method `ExtractBlocks`, proved equal to a declarative reference
  `Extracted`, which is built from `Spans`, `LatestOpenHeader` and `CompanyAt`.
- **Filter stage** (module `Filter`). It uses `str.contains(fragment,
  case=False, na=False)` masks on the columns `Cidade de Atuação` and `Cargo`,
  applied one after the other. Each is applied only when its criterion is
  given and non-empty. The results are in module `Loader`: `Load` is the
  whole function, and the method `LoadWithFilter` is its step-by-step
  rendition.

Cells are `Text`, `Num` or `Empty` (NaN). A cell past the end of a shorter row
reads as `Empty`, just as pandas pads a ragged sheet. A record keeps its
block's header, its own row and its company. `Lookup` reads a column by label,
as pandas' concatenation aligns blocks by label. When a label occurs more than
once in a header, `Lookup` takes its first position: that is the model's own
choice, since pandas then returns a frame or refuses to concatenate.

A few behaviours of `carregar_dados_com_filtro` worth noting:
- The city filter is a case-insensitive substring test, like the job filter.
  It is not an exact match against a set of cities.
- A data row longer than the header is not cut short. Its extra cells sit in
  columns with NaN labels, which no filter can select.
- An `"Empresa"` row between a header and its total row is not a sentinel
  there. It is emitted as a record, and it re-tags the whole block
  (`Examples.CompanyRowInsideBlock`).
- Selecting a column that no closed block has raises `KeyError`, modelled as
  `MissingColumn`. This happens even when every block is empty. When no block
  was closed at all, the empty table is returned before any filter runs, so
  there is no error.

## Model

| member | source | states |
|---|---|---|
| `Sheet.KindOf` | app.py:17-30 | The first-cell tests, in the scan's order. A row is a company row exactly when its first cell is `"Empresa"`, a total row exactly when its first cell is a string starting with `"Total de empregados"`, and a header row exactly when its first cell is `"Matrícula"`. No first cell passes two tests, and numbers and NaN pass none. |
| `Extractor.CompanyAt` | app.py:13-18 | The company in force is None, or cell 1 of some `"Empresa"` row before the current row. |
| `Extractor.RecordsOf` | app.py:23-25 | A block gives one record per sliced row. Each record is labelled by the block's header and tagged with its company. |
| `Extractor.Flatten` | app.py:35 | Every record of the concatenated table is a row of one block, labelled by that block's header and tagged with that block's company. |
| `Extractor.ExtractBlocks` | app.py:12-30 | The scan with its three state variables returns exactly the blocks of the declarative reference `Extracted`. The loop invariants tie the company, the start of the open block and the header to the latest company row and the latest open header row. Each block is `BlockOf` its span: the header row, the rows strictly between it and the total row, and the company in force at the total row (app.py:22-25). |
| `Extractor.LatestOpenHeader` | app.py:27-30 | The open block, if any, starts after a header row that lies before the current row. |
| `Extractor.Spans` | app.py:20-22 | Every closed block has its header row before its total row, and both lie before the current row. |
| `Extractor.LatestOpenHeaderIsLatest` | app.py:27-30 | Row h starts the open block if and only if row h is a header row and no header row or total row follows it before the current row. |
| `Extractor.NoOpenHeader` | app.py:14-30 | No block is open if and only if no header row before the current row is free of later header and total rows. |
| `Extractor.CompanyAtIsLatest` | app.py:17-18 | The company in force at a row is cell 1 of the latest `"Empresa"` row before it. |
| `Extractor.CompanyAtNone` | app.py:13-18 | The company is None exactly when no `"Empresa"` row comes before the current row. |
| `Extractor.SpansSound` | app.py:20-22 | Every closed block runs from a header row to a total row, with only data and company rows in between. |
| `Extractor.SpansComplete` | app.py:20-26 | Every total row that finds a block open closes that block, and the block appears in the output. |
| `Extractor.SpansIncreasing` | app.py:16-26 | Blocks are emitted in the order of their total rows. |
| `Extractor.SpansOrdered` | app.py:16-35 | Blocks are disjoint and in sheet order: each starts after the previous block's total row. |
| `Extractor.TotalRowResets` | app.py:21-27 | After a total row no block is open. A total row with no open block emits nothing. |
| `Extractor.TrailingRowsDropped` | app.py:20-30 | Appending rows that hold no total row does not change the output, so a header with no later total row contributes no records. |
| `Extractor.NoClosedSpans` | app.py:20-27 | A sheet in which no total row finds a block open closes no block: stray totals and totals before any header emit nothing. |
| `Extractor.NoTotalRowNoBlocks` | app.py:20-33 | A sheet without total rows yields no block. |
| `Extractor.NoHeaderRowNoSpans` | app.py:21-30 | A sheet without header rows closes no block. |
| `Extractor.HeaderRestartsBlock` | app.py:28-30 | A second header row before the total row restarts the block: the block closed by that total row starts after the latest header and is labelled by it, and the earlier header does not pair with that total row. |
| `Extractor.EarlierHeaderClosesNothing` | app.py:20-30 | When no total row lies between two header rows, the earlier header closes no block at all, and no block holds any row from the earlier header up to the later one, so those rows never reach the table. |
| `Extractor.RecordCount` | app.py:22-26 | The number of records is the sum, over the closed blocks, of the rows strictly between header and total row. |
| `Extractor.RecordsArePlainRows` | app.py:22-23 | Every record is a row of the sheet that is neither a header nor a total row. Its labels are a header row, whose first cell is `"Matrícula"`. |
| `Extractor.BlockCompany` | app.py:25 | Each block is tagged with cell 1 of the latest `"Empresa"` row before its total row. |
| `Filter.LabelIndex` | app.py:39-44 | The column selected by a label is its first occurrence in the header, and it is absent exactly when the label is not in the header. |
| `Filter.Lookup` | app.py:35-44 | Selecting a column by label gives the cell at the label's first position in the record's header. A label the header lacks reads as NaN, and `empresa` reads the company tag. |
| `Filter.Matches` | app.py:40-44 | The `str.contains(fragment, case=False, na=False)` mask holds only for a string cell at least as long as the fragment. Numbers and NaN never match. |
| `Filter.Keep` | app.py:38-45 | The filtered table holds exactly the records whose mask is true. No record is added, and none that passes is lost. |
| `Filter.KeepPositions` | app.py:39-45 | The filter is stable and exact. Its result is the subsequence taken at precisely the positions whose mask is true, in their original order. |
| `Filter.KeepAll` | app.py:38-45 | A filter that every record passes returns the table unchanged. |
| `Filter.KeepCommutes` | app.py:37-45 | Applying the city and job filters in either order gives the same table, so the two filters combine as a logical AND. |
| `Filter.MissingValueNeverMatches` | app.py:40-44 | A record whose block lacks the column, or whose cell there is NaN or a number, never passes an active filter (`na=False`). |
| `Loader.HasColumn` | app.py:35-44 | When no block header has the label, the column would read as NaN in every record of the concatenated table. |
| `Loader.Narrow` | app.py:38-45 | One guarded filter step fails with `MissingColumn` exactly when the criterion is active and the column is absent. A criterion is `Active` when it is given and non-empty, as the truthiness tests `if cidade:` and `if cargo:` decide. Otherwise it keeps exactly the records of the table that pass the criterion. |
| `Loader.Load` | app.py:8-47 | With no closed block the result is the empty table. A failure names the city or the job column. A success holds exactly the extracted records that pass every active criterion. |
| `Loader.LoadWithFilter` | app.py:8-47 | The extract, the empty-table return and the two filters give exactly `Load`. |
| `Loader.LoadWithoutCriteria` | app.py:32-47 | With no city and no job criterion (None or empty) the result is every extracted record, unchanged and in order. |
| `Loader.LoadNoBlocks` | app.py:21-33 | A sheet in which no total row finds a block open gives the empty table, whatever the criteria, and never an error. |
| `Loader.LoadFails` | app.py:32-45 | The function fails exactly when some block was closed and an active criterion names a column that no block header has. |
| `Loader.NarrowPositions` | app.py:38-45 | One filter step keeps exactly the rows that pass its criterion, in order. An inactive criterion keeps every row. |
| `Loader.LoadSelects` | app.py:35-47 | A successful result is the subsequence of the extracted records that pass every active criterion, in original order. |
| `Examples.OneEmployee` | app.py:16-35 | A sheet with one company, one header, one employee and one total row yields one record tagged with that company. |
| `Examples.OneEmployeeFields` | app.py:22-25 | That record reads `Ana`, `Analista` and `Recife` under its header labels, and `ACME` under `empresa`. |
| `Examples.CompanyRowInsideBlock` | app.py:17-26 | An `"Empresa"` row inside a block is emitted as a record, and the company it names tags the whole block. |
| `Examples.JobFilter` | app.py:42-45 | `"analista"` selects `"Analista de Sistemas"` and not `"Gerente"`. |
| `Examples.CityFilter` | app.py:38-41 | `"RECIFE"` selects a city stored as `"recife"`. |

## Left out

- Reading the workbook with `pd.ExcelFile` and `parse` (app.py:9-10) is I/O through a foreign library. The model starts from the rows of the first sheet, already in memory.
- The Streamlit page is presentation and is not modelled (app.py:1-5, 49-83). This covers the uploader, the selectors and their sorted distinct value lists, the result display, the CSV download, and the `except` that turns errors into a message.
- Case-insensitive matching is a character fold passed in by the caller. Unicode case folding is not modelled.
- `str.contains` compiles the fragment as a regular expression, so `.` matches any character and an unbalanced `(` raises `re.error`. The model treats every character of the fragment literally, and leaves out the `re.error` raised on an invalid pattern.
- Numbers and dates are abstracted as `Num`. Their values never take part in a sentinel test or a match.
- pandas raises `AttributeError` from the `.str` accessor on a column whose non-missing values are all numbers or all dates. The model reads such cells as non-matching. An all-NaN or empty column raises nothing and matches no record, as in the model.
- The case where a column label occurs twice is not modelled. pandas then returns a frame, or refuses to concatenate. `Lookup` takes the first occurrence.
- In a sheet only one column wide, `row[1]` on an `"Empresa"` row raises `KeyError`. The model reads that missing cell as empty.
- The company None and a NaN company both read as missing under `empresa`. pandas keeps them distinct, but no filter tells them apart.
- pandas index bookkeeping (`reset_index`, `ignore_index`) and the column order of the concatenated frame are not modelled. Records are read by label.
