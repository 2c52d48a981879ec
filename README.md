# Check listing (`listado_cheques.py`) in Dafny

`listado_cheques.py` reads a CSV file of bank checks. It selects one customer's
checks and prints them as a table or exports them to CSV. This project models
the selection chain of its `main` and the column-width computation of its
screen renderer `mostrar_en_columnas`, and proves what each stage promises.

- `records.dfy` (module `Records`): a record is a `map<string, string>`, which is
  one CSV row. `Row` is a record that holds the eight columns the listing reads.
  The module also has `CheckType` (`EMITIDO`/`DEPOSITADO`), `Status`
  (`PENDIENTE`/`APROBADO`/`RECHAZADO`) and the order-preserving `Filter`, which
  models a Python list comprehension, with facts about subsequences.
- `strings.dfy` (module `Strings`): `str.isdigit` on the customer identifier. It
  also defines Python's `>=` on `str`, which orders code points
  lexicographically, and proves that this is a total order. For digit strings
  of equal length it coincides with numeric order. For different lengths the
  two orders can disagree.
- `duplicates.dfy` (module `Duplicates`): the repeated-check detector. It is a
  loop over a local `map<string, set<string>>`, from account to the check
  numbers seen so far. Its invariant is stated with set comprehensions. Its
  result is characterised as "no repeats" or "the first repeat in scan order".
- `listado.dfy` (module `Listado`): the customer, type, status and date filters
  as functions, and `Select`, the whole chain with its three error exits.
- `screen.dfy` (module `Screen`): the widths of the report's columns.

Each `sys.exit(1)` of the chain becomes a `Failure` value: `NotDigits`,
`DniNotFound` or `Duplicate(cheque, cuenta)`. The enumerated values are those
of the code (`EMITIDO`, `DEPOSITADO`, `PENDIENTE`, …). Every row is required to
hold the columns the chain can read (see "Left out").
The date filter is kept literally: it compares `FechaOrigen >= fecha_inicio`
and `FechaPago >= fecha_fin` as text.

## Model

| member | source | states |
|---|---|---|
| `Listado.Select` | listado_cheques.py:79-123 | The identifier is rejected first: the error is `NotDigits` exactly when it fails `IsDigits` (`str.isdigit`: empty, or holding a character that is not a digit). Next, the error is `DniNotFound` exactly when the identifier is all digits and no record carries it. A digit identifier whose customer has a repeated (account, check number) gets a `Duplicate` error, which names the first repeat in scan order. The run succeeds iff none of these applies. On success the result is the type, status and date filters applied in that order. It is a subsequence of the input, repeat-free, and every record in it matches the identifier, type, given status and given dates. |
| `Listado.ByCustomer` | listado_cheques.py:83-87 | Fails with `DniNotFound` iff no record's `DNI` equals the identifier. Otherwise the result is non-empty, in input order, holds exactly the records with that `DNI`, each as often as in the input. |
| `Listado.ByType` | listado_cheques.py:107-110 | Keeps exactly the records whose `Tipo` is the requested type, in order, with their multiplicity. |
| `Listado.ByStatus` | listado_cheques.py:114-118 | The identity with no status; with one, keeps exactly the records whose `Estado` is it, in order, with their multiplicity. |
| `Listado.ByDates` | listado_cheques.py:122-123 | The identity unless both bounds are given and non-empty (`DatesGiven`, the truthiness of `fecha_inicio and fecha_fin`). Otherwise it keeps exactly the records with `FechaOrigen >= fecha_inicio` and `FechaPago >= fecha_fin` (text order), in order. |
| `Listado.InDates` | listado_cheques.py:123 | The comprehension's test: `FechaOrigen >= fecha_inicio and FechaPago >= fecha_fin` as text. When each date has as many digits as its bound, this equals the numeric comparison. |
| `Records.Filter` | listado_cheques.py:87-123 | A list comprehension returns a subsequence of its input. It holds only passing elements, and each passing element appears as often as in the input. |
| `Records.SubsequenceTransitive` | listado_cheques.py:87-123 | A subsequence of a subsequence is a subsequence, so the chained stages leave a subsequence of the loaded records. |
| `Records.SubsequenceMembers` | listado_cheques.py:87-123 | Every element of a subsequence is an element of the sequence. |
| `Records.SubsequenceReflexive` | listado_cheques.py:114-123 | A skipped stage (no status, no dates) returns its input, which is a subsequence of itself. |
| `Duplicates.FindDuplicate` | listado_cheques.py:91-100 | Reports nothing iff no two records share account (`Account`: origin for `EMITIDO`, destination otherwise) and check number. A report names the first record, in scan order, whose pair was already seen. Loop invariant: the dictionary maps each scanned account to exactly the check numbers of the scanned records filed under it. |
| `Duplicates.SeenLookup` | listado_cheques.py:95-97 | Looking up the current record's account and check number in the dictionary succeeds iff an earlier record has the same pair. |
| `Duplicates.SeenAdd` | listado_cheques.py:95-100 | Opening the account with an empty set if new and adding the check number yields the dictionary for one more record. |
| `Duplicates.UniqueExtend` | listado_cheques.py:97-100 | A record whose pair is new keeps the scanned prefix free of repeats. |
| `Duplicates.FirstRepeatIsUnique` | listado_cheques.py:92-99 | At most one record is the first repeat, so the reported check and account are determined by the input. |
| `Duplicates.UniqueSubsequence` | listado_cheques.py:107-123 | Filtering a repeat-free sequence leaves it repeat-free, so the checked uniqueness still holds for the final output. |
| `Strings.Less` | listado_cheques.py:123 | Python's `<` on `str` by code points. A string is never `<` itself, and a proper prefix is `<` the longer string. |
| `Strings.AtLeast` | listado_cheques.py:123 | Python's `>=` on `str`: holds exactly when the strings are equal or the right one is `<` the left one. |
| `Strings.LessAsymmetric` | listado_cheques.py:123 | `a < b` and `b < a` never both hold. |
| `Strings.AtLeastIsTotalOrder` | listado_cheques.py:123 | Python's `>=` on strings is reflexive, antisymmetric, transitive and total. |
| `Strings.LessTransitive` | listado_cheques.py:123 | `<` on strings is transitive. |
| `Strings.LessTotal` | listado_cheques.py:123 | Of two distinct strings one is `<` the other. |
| `Strings.AtLeastOnDigitsIsNumeric` | listado_cheques.py:123 | On digit strings of equal length (epoch seconds with equally many digits) the text comparison agrees with the numeric one. |
| `Strings.AtLeastOnDigitsIgnoresLength` | listado_cheques.py:123 | With different lengths the two orders can disagree: `"9" >= "10"` holds although 9 < 10. |
| `Screen.ColumnWidths` | listado_cheques.py:33-52 | No widths for an empty listing. Otherwise there is one width per column of the first row, and it equals `ColumnWidth`. |
| `Screen.WidenToRow` | listado_cheques.py:45-47 | Each column becomes the larger of its width and this row's cell length; the set of columns is unchanged. |
| `Screen.WidenDates` | listado_cheques.py:49-52 | `FechaOrigen` and `FechaPago` become at least 19 wide; every other width is unchanged. |
| `Screen.MaxCellIsMaximum` | listado_cheques.py:45-47 | The widest cell bounds every cell of its column and is the length of one of them (or 0 with none). |
| `Screen.ColumnWidthIsMaximum` | listado_cheques.py:39-52 | A column's width is at least its header length, every cell length and, for a date column, 19. It equals one of these, so it is their maximum. |

## Left out

- Argument parsing with `argparse` and its check of the required arguments (lines 7-20). Type and status are datatypes, so the `choices` are enforced by typing. The re-checks at lines 103-105 and 115-117 therefore cannot fail and have no counterpart. An empty identifier stops the source at lines 18-20 with the usage message, before the file is read. The model has no such step and gives it `NotDigits` instead; the exit status is 1 either way.
- Reading the file with `csv.DictReader`, and the missing-file error (lines 22-31). The records arrive as a parameter.
- Missing columns: the model requires every `Row` to hold all eight columns the chain can read, even where a run reads fewer. The source reads `NumeroCuentaDestino` only for `DEPOSITADO` and `NumeroCuentaOrigen` only for `EMITIDO` (line 94). It reads `Estado` only when a status is given (lines 114-118). It reads `FechaOrigen` only when both date bounds are non-empty (lines 122-123), and `FechaPago` only when the `FechaOrigen` test passes. Input files that lack a column a given run does not read are not modelled. Neither is the `KeyError` a run raises when a column it does read is missing. `csv.DictReader` rows with missing cells (`None`) or surplus cells (a list under the `None` key) are not modelled either: every cell is a string.
- Strings.IsDigits: accepts exactly the non-empty strings of ASCII `0`-`9`. Python's `str.isdigit` also accepts other Unicode digit characters, such as superscripts and the digits of other scripts, which would need the Unicode character database.
- Screen.ColumnWidths: widths are a map, so the column order of the first row (`list(notas[0].keys())`) is not kept. It matters only to the printing, which is not modelled. Rows whose columns are not all among the first row's columns raise `KeyError` in the source; this is a precondition here.
- Printing the header, the separator and the rows, and converting epoch seconds to local time with `datetime` (lines 55-76). This is console output and depends on the time zone.
- The CSV export (lines 127-143): a file name built from today's date, `csv.DictWriter`, and the in-place rewriting of the date cells. This is file output plus clock and time-zone calls.
