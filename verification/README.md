# Company importer: verified model of the row pipeline

The importer reads a CSV export of registered companies and loads it into a
PostgreSQL `companies` table. Rows are handled one at a time, in file order.
The parser is paused on each row and resumed only after that row is settled.
A row without a `CompanyNumber` is dropped. Every other row becomes the
eighteen parameters of an `INSERT ... ON CONFLICT (company_number) DO NOTHING`.
A write the database rejects is logged, and the run goes on.

This project models that pipeline in Dafny as pure functions:

- `Fields`: a raw row (header to trimmed text) and JavaScript truthiness of its cells.
- `Sic`: `[...].filter(Boolean)` over the four SIC cells, with a reference
  enumeration of the kept positions.
- `Mapper`: the admissibility test, the eighteen-column `Params` record and
  `MapRow`.
- `Sink`: the table as `map<string, Params>`, the conflict-ignoring insert
  and the per-row step.
- `Importer`: the run as a left fold `ImportAll` over the rows, the streaming
  loop `ImportStream`, the `maxRows` cap, and the lemmas for first write wins,
  existence, key provenance and idempotence.
- `Scenarios`: two worked inputs, a SIC row and a three-row run.

Whether the database rejects a write is an input, one flag per row: `fails[i]` for row `i`.
The two runtime conversions are inputs too: `parseDate` on non-empty text and
`parseInt`, bundled as `Parsers`.

The outcomes `Inserted` and `Duplicate` are a model-level observation.
The code does not look at the insert's row count, so both look the same to it.
A non-blank account reference cell that is not numeric is sent as
`parseInt`'s `NaN`, not `NULL`. The model keeps that as `NotANumber`: a
non-blank cell yields whatever `parseInt` returns.

## Model

| member | source | states |
|---|---|---|
| `Fields.TextColumn` | import.js:55-64 | a text column is `NULL` exactly when the cell is absent or empty, and otherwise the cell text unchanged |
| `Mapper.IsAdmissible` | import.js:29-33 | a row is admissible exactly when `CompanyNumber` is present and non-empty |
| `Sic.Compact` | import.js:35-40 | the filtered list is no longer than its input and holds no empty string |
| `Sic.TruthyIndicesFrom` | import.js:35-40 | reference enumeration: strictly increasing positions, each of a truthy cell |
| `Sic.CompactEnumeratesTruthyCellsFrom` | import.js:35-40 | the j-th element kept by the filter is the text of the j-th truthy cell |
| `Sic.CompactEnumeratesTruthyCells` | import.js:35-40 | the same for the whole list: the filter is the in-order subsequence of truthy cells |
| `Sic.TruthyIndicesComplete` | import.js:35-40 | every truthy cell's position is listed by the reference enumeration |
| `Sic.CompactEmptyIff` | import.js:40 | the filter yields nothing exactly when every cell is falsy |
| `Sic.SicCodes` | import.js:35-40 | `sicArray` has at most four codes, none empty |
| `Sic.SicCodesAreNonBlankCellsInOrder` | import.js:35-40 | `sicArray` is the four SIC cells with the blank ones removed, in column order |
| `Sic.SicColumn` | import.js:67 | the SIC column is `NULL` exactly when all four SIC cells are blank, and otherwise the non-empty filtered list |
| `Mapper.ParseDate` | import.js:14-17 | `parseDate` of `undefined` or `""` is `NULL`; of non-empty text, the parser's verdict |
| `Mapper.DateColumn` | import.js:65-66 | a date column is `NULL` for a blank cell, and otherwise the parser's verdict on the text |
| `Mapper.RefColumn` | import.js:68-69 | an account reference column is `NULL` exactly when its cell is blank, and otherwise `parseInt` of the text |
| `Mapper.MapRow` | import.js:54-73 | every one of the eighteen parameters relates to its cell as above: text columns as the cell text or `NULL`, date columns as `NULL` or the parser's verdict, reference columns as `NULL` or `parseInt` of the text, the SIC column as above; an admissible row's key column is its company number |
| `Sink.Insert` | import.js:42-50 | a new key is added with exactly this record; an existing key keeps its record; a rejected write changes nothing; no other key changes |
| `Sink.Process` | import.js:26-76 | an inadmissible row leaves the store unchanged; an admissible row with a new key and a successful write adds its mapping; every other case leaves the store unchanged; every record stays under its own company number |
| `Importer.ImportAll` | import.js:26-79 | one outcome per row; records stored before the run are never changed |
| `Importer.RunOutcomes` | import.js:29-33 | row `i` is dropped exactly when inadmissible, and fails exactly when admissible with a rejected write |
| `Importer.ImportAllAppend` | import.js:26-79 | running `a + b` equals running `a`, then `b` on the resulting store |
| `Importer.ImportStream` | import.js:26-79 | the row-at-a-time loop computes the same store and outcomes as the fold |
| `Importer.KeysComeFromInput` | import.js:43-76 | every key in the final store was stored before or came from an admissible row whose write succeeded |
| `Importer.FirstSuccessWins` | import.js:50-76 | a new key's stored record is the mapping of the first row under that key whose write succeeded |
| `Importer.SucceededRowIsStored` | import.js:43-76 | every admissible row whose write succeeded has its key in the final store |
| `Importer.KnownKeysChangeNothing` | import.js:50 | a pass whose admissible keys are all stored changes nothing and inserts nothing |
| `Importer.ImportTwiceIsImportOnce` | import.js:43-50 | after a run without rejected writes, running the same rows again leaves the store unchanged and inserts nothing |
| `Importer.ImportKeepsWellKeyed` | import.js:43-50 | a run keeps every record stored under its own company number |
| `Importer.Delivered` | import.js:25 | of the `n` rows the parser delivers, the first `min(n, 1000)` reach the handler, as a prefix |
| `Importer.ImportFile` | import.js:25 | a run handles exactly `min(n, 1000)` rows of an `n`-row input: all of them when there are fewer than 1000 |
| `Importer.RowsPastCapIgnored` | import.js:25 | rows after the first 1000 do not affect the run |
| `Scenarios.SicExample` | import.js:35-40 | SIC cells `62012`, blank, `70100`, blank give `[62012, 70100]`; four blank cells give `NULL` |
| `Scenarios.ThreeRowRun` | import.js:26-79 | a valid row, a keyless row and a duplicate of the first give one stored record (the first row's), with outcomes inserted, dropped, duplicate |

## Left out

- The PostgreSQL pool, client acquisition and release (import.js:6-12, 21, 83-84) are driver I/O. The table is an in-memory map.
- Reading the file and parsing CSV with `fast-csv` (import.js:24-25) are library calls. The input is a sequence of already-trimmed rows. Only the `maxRows: 1000` option is modelled, as a prefix of the rows. The model assumes the parser accepts the options at import.js:25 and delivers rows. `renameHeaders: true` without an array of headers may instead be rejected on the first row; the handler at import.js:80 would only log that, and no row would be handled.
- The `pause`/`resume` calls and the async `data` callback (import.js:26-27, 31, 78) are flow control. Their effect, one row at a time in order, is the fold and the loop of `ImportStream`.
- The end of the run is not modelled. The `end` handler (import.js:81-85) releases the client and ends the pool without waiting for the last row's `client.query` (import.js:54). Once the parser has read the whole file, that last write may still be in flight. It may be cut off, or logged as failed after the server committed it. The model takes its store effect as `fails[|rows| - 1]`, and otherwise treats every write as settled before the run ends.
- Mapper.DateColumn (and Mapper.ParseDate): the date text that `parseDate` produces for non-empty input (import.js:14-17) depends on JavaScript `Date` parsing and the time zone. It is an input function. The model fixes only that `undefined` and `""` give `NULL`: ECMAScript makes `new Date` of both an invalid date.
- Mapper.RefColumn: the value `parseInt` gives for non-empty text (import.js:68-69) is an input function, so the contract cannot say which integer or `NaN` results.
- The reason a write is rejected is not modelled. A rejection is an input flag per row that leaves the store unchanged (import.js:53-76).
- Console logging and error messages (import.js:22, 30, 75, 80, 82, 87) are output formatting.
- A failed connection at import.js:21 jumps to the catch at import.js:86-88 before the stream is created, so no row is read. That is a run over no rows, and it leaves the store unchanged.
- The parser's `error` handler (import.js:80) only logs. Whether rows after a parse error are delivered is up to the CSV library; the model takes the row sequence it receives as given.
