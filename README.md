# dadabase: the church register's store and reports, in Dafny

`dadabase.py` is a Streamlit application for a church. It keeps a register of
members, a list of requests for pastoral help, and a ledger of income
("Entrada") and expenses ("Saída"), all in three SQLite tables. Below its forms
and charts sit three pieces of logic, and this project models and proves them:

- **The age-bracket classifier** `definir_faixa_etaria` (`bracket.dfy`). It maps
  an age to "Crianças", "Jovens", "Pais/Mães" or "Idosos".
- **The record store** (`tables.dfy`, `store.dfy`). It is a class `Database`
  with one row sequence per table and one `sqlite_sequence` counter per table.
  Its methods are the inserts `salvar_*`, the status update
  `atualizar_status_ajuda`, the deletions `deletar_*` and `limpar_tabela`.
  The reads `carregar_*` are functions of the state, built on the text order
  SQLite uses for `ORDER BY ... DESC` (`ordering.dfy`).
- **The reports** built from a snapshot of rows:
  - the totals entradas, saídas and saldo, and the income per category
    (`finance.dfy`);
  - the "dd/mm/YYYY" to "YYYY-mm" month key (`dates.dfy`);
  - the monthly table with its two forced columns (`monthly.dfy`);
  - the age-bracket counts of the members report (`relatorios.dfy`).

Rows are values of `Row<T>(id, fields)`. A table is `WellKeyed` when its ids
are strictly ascending and all lie in `1..sqlite_sequence`. Every method
requires and keeps this, and states each table's new contents and counter
outright. Amounts are exact `real`s.

Three behaviours of the code a reader may not expect (the model follows the
code):

- Reads sort by the date *text*. So "15/01/2024" is listed before
  "01/02/2024": the order is not by recency. `Store.TextOrderIsNotRecency`
  shows this.
- `atualizar_status_ajuda` writes any status string it is given. Nothing in
  the function restricts the change to 'Pendente' → 'Atendido'.
- The income categories are every category some 'Entrada' row has. A category
  whose sum is zero is still listed.

## Model

| member | source | states |
|---|---|---|
| Bracket.DefinirFaixaEtaria | dadabase.py:122-126 | The result is one of the four labels. Each label holds exactly for its range: below 13, 13 to 17, 18 to 59, 60 and above. So the ranges cover every integer without overlap. |
| Bracket.BracketBoundaries | dadabase.py:122-126 | The brackets change exactly between 12 and 13, 17 and 18, and 59 and 60. |
| Bracket.BracketMonotone | dadabase.py:122-126 | An older age never gets a younger bracket. |
| Tables.AppendWellKeyed | dadabase.py:19-25 | The next AUTOINCREMENT id is not in the table, and appending a row with it keeps the ids ascending and within the counter. |
| Tables.DeleteId | dadabase.py:94 | `DELETE ... WHERE id = ?` keeps exactly the rows whose id differs. |
| Tables.DeleteIdWellKeyed | dadabase.py:94 | Deleting by id keeps the table well keyed. |
| Tables.DeleteIdAbsent | dadabase.py:94 | Deleting an id that is not in the table changes nothing. |
| Tables.DeleteIdIdempotent | dadabase.py:94 | Deleting the same id twice is the same as deleting it once. |
| Tables.DeleteIdKeepsOrder | dadabase.py:94 | Two surviving rows keep their relative order. |
| Tables.UpdateStatus | dadabase.py:60 | `UPDATE ajuda_pastoral SET status` keeps the length and every id. Only the row with the given id gets the new status; every other field and row is unchanged. |
| Tables.UpdateStatusWellKeyed | dadabase.py:60 | The update keeps the table well keyed and its set of ids. |
| Tables.UpdateStatusAbsent | dadabase.py:60 | Updating an absent id changes nothing. |
| Tables.UpdateStatusIdempotent | dadabase.py:60 | Applying the same update twice is the same as applying it once. |
| Tables.DeletePreservesBrackets | dadabase.py:91-96 | Deleting members keeps every remaining stored bracket equal to the bracket of the stored age. |
| Store.Database.constructor | dadabase.py:16-27 | init_db on a new file: three empty tables, all counters at 0. |
| Store.Database.SalvarMembro | dadabase.py:40-46 | Appends the member with id counter+1, which no row had. The counter grows by one and the other tables are unchanged. |
| Store.Database.CadastrarMembro | dadabase.py:147-151 | Inserts exactly when both name and residence are non-empty. The stored bracket is the classifier's result for the stored age, so bracket consistency is kept. Otherwise nothing changes. |
| Store.Database.SalvarAjuda | dadabase.py:48-55 | Appends one request with a new id, the given time and status 'Pendente'. Everything else is unchanged. |
| Store.Database.AtualizarStatusAjuda | dadabase.py:57-62 | The requests become UpdateStatus of the old ones. The ids are kept, an absent id is a no-op, and every other table and counter is unchanged. |
| Store.Database.SalvarMovimentacao | dadabase.py:64-70 | Appends one movement with a new id. Everything else is unchanged. |
| Store.Database.CarregarMembros | dadabase.py:72-76 | The read is a permutation of the members, sorted descending by data_cadastro text. |
| Store.Database.CarregarAjudas | dadabase.py:78-82 | The read is a permutation of the requests, sorted descending by data_pedido text. |
| Store.Database.CarregarFinanceiro | dadabase.py:84-88 | The read is a permutation of the movements, sorted descending by data text. |
| Store.Database.DeletarMembro | dadabase.py:91-96 | The table becomes DeleteId of the old one, and the id is gone. The counter and the other tables are unchanged. Bracket consistency is kept. |
| Store.Database.DeletarAjuda | dadabase.py:98-103 | The table becomes DeleteId of the old one, and the id is gone. The counter and the other tables are unchanged. |
| Store.Database.DeletarMovimentacao | dadabase.py:105-110 | The table becomes DeleteId of the old one, and the id is gone. The counter and the other tables are unchanged. |
| Store.Database.LimparTabela | dadabase.py:112-117 | The named table is emptied and the other two are unchanged. No counter is reset. |
| Store.InsertedRowListedOnce | dadabase.py:40-46 | After an insert, the read lists the new id exactly once, as the inserted row. |
| Store.ReadOrderIndependent | dadabase.py:74 | Any two sorted reads of the same rows give the same sequence of date keys. |
| Store.TextOrderIsNotRecency | dadabase.py:80 | Every read of a request dated 15/01/2024 and one dated 01/02/2024 lists the January one first. |
| Ordering.SortDesc | dadabase.py:74 | The reference sort: a permutation of its input, descending in BINARY text order. |
| Ordering.LexLeTransitive | dadabase.py:74 | The BINARY text order is transitive. With LexLeTotal and LexLeAntisymmetric, it is a total order. |
| Ordering.LexLeTotal | dadabase.py:74 | Any two strings are comparable. |
| Ordering.LexLeAntisymmetric | dadabase.py:74 | Two strings each at most the other are equal. |
| Dates.MonthKey | dadabase.py:298-299 | A date has a month exactly when it is DD/MM/YYYY naming a real day in pandas' nanosecond Timestamp range (pandas 2.x). The date text is then the formatting of that day, and the key is its "YYYY-mm". |
| Dates.DateTextRoundTrip | dadabase.py:298-299 | Parsing a DD/MM/YYYY string and formatting it back gives the same string. |
| Dates.MonthKeyOfFormattedDate | dadabase.py:288 | Every day the ledger form writes with "%d/%m/%Y" gets the key of its own year and month. |
| Dates.MonthKeyInjective | dadabase.py:299 | Two dates share a key exactly when they share year and month. |
| Finance.Resumo | dadabase.py:301-303 | entradas and saidas are the sums of valor over the 'Entrada' and 'Saída' rows, and saldo is their difference. |
| Finance.ResumoEmpty | dadabase.py:301-303 | An empty snapshot gives 0, 0 and 0. |
| Finance.SumTipoAppend | dadabase.py:301-302 | The sum of a type over two joined snapshots is the sum of the two sums. |
| Finance.ResumoPermutation | dadabase.py:301-303 | The totals do not depend on the order of the read. |
| Finance.SaldoAfterInsert | dadabase.py:289 | One new movement moves the saldo by +valor for an income, -valor for an expense, and not at all otherwise. |
| Finance.ResumoExample | dadabase.py:301-303 | Incomes of 100 and 25 and an expense of 40 give 125, 40 and 85. |
| Finance.SumOverKeysIsKeyedSum | dadabase.py:341 | Summing each group separately over distinct keys equals summing the rows whose key is among them. |
| Finance.KeyedSumCoversAll | dadabase.py:341 | When every row of the type has a key in the list, the grouped sums add up to the total of the type. |
| Finance.Observed | dadabase.py:341 | A key is observed exactly when some row has it. |
| Finance.Categorias | dadabase.py:341 | The categories are ascending with no repeats. A category is listed exactly when some 'Entrada' row has it. |
| Finance.EntradasPorCategoria | dadabase.py:341 | There is one entry per category, in the same order, holding the income of that category. |
| Finance.CategoriasSumToEntradas | dadabase.py:341 | The category sums add up to entradas. |
| Monthly.Meses | dadabase.py:327 | The rows are ascending with no repeats. A month is listed exactly when some movement's date parses to it. |
| Monthly.Tipos | dadabase.py:327 | The unstacked columns are ascending with no repeats. A type is listed exactly when some movement with a month has it. |
| Monthly.Unstack | dadabase.py:327 | Every (month, type) cell is present. It holds the sum of that type in that month, which is 0 for a missing pair. |
| Monthly.AbsentTipoSumsToZero | dadabase.py:329-330 | A type that no dated movement has sums to 0 in every month. |
| Monthly.AddZeroColumn | dadabase.py:330 | Adding a zero column for an absent type keeps every cell equal to its sum. |
| Monthly.MonthlyPivot | dadabase.py:327-331 | The rows are the parsed months. The columns are the unstacked types followed by `Missing`: those of 'Entrada' and 'Saída' that unstack did not produce, each once, in that order. So both are present. Every cell holds its sum. When every date parses, each of the two columns adds up to entradas and saidas. |
| Monthly.MissingContents | dadabase.py:328-330 | The loop appends a name exactly when it is in the list and not yet a column, and never appends one twice. |
| Monthly.ColumnAddsUp | dadabase.py:327-331 | A column, summed over the months, equals the total of its type over the rows with a month. With every date well-formed, it equals the whole total. |
| Relatorios.CountFaixaPositive | dadabase.py:247 | A bracket counts at least one exactly when some member has it. |
| Relatorios.CountFaixaPermutation | dadabase.py:247 | The counts do not depend on the order the members are read in. |
| Relatorios.ValueCounts | dadabase.py:247 | There is one entry per bracket that occurs. It holds the positive number of members with that bracket. |
| Relatorios.ContagemIgnoresReadOrder | dadabase.py:237-247 | The counts of carregar_membros equal the counts of the table. |
| Relatorios.BracketCountsCoverMembers | dadabase.py:247 | When the stored brackets match the stored ages, the four counts add up to the number of members. |
| Relatorios.BracketSlicesAreLabels | dadabase.py:247 | When the stored brackets match the stored ages, every slice of the chart is one of the four labels. |
| Relatorios.CountAfterInsert | dadabase.py:151 | A new member adds one to its own bracket and nothing to any other. |

## Left out

- The Streamlit interface is not modelled. This covers the sidebar, forms, tabs, buttons and reruns. The exception is the registration guard at lines 147-151, which `CadastrarMembro` models.
- Passwords and session flags are not modelled: they are fixed string comparisons on UI state.
- SQLite and pandas are not modelled as libraries. The tables are sequences of rows. `read_sql_query` is a function of the state. The group-by, unstack and value_counts are functions over those rows.
- Plotly charts and the "MZN" currency formatting are presentation only.
- `valor` is an exact `real`, not a binary float, so rounding in the sums is not modelled.
- `datetime.now()` and the form's date picker are inputs. Timestamps are strings the caller passes in.
- The UI's lookups of the row to delete are not modelled: by name at line 164, and by label and frame position at lines 317-320. They depend on what the page displays. The store's deletions take the id.
- `limpar_tabela` takes a closed choice of the three tables instead of a table-name string.
- Dates.MonthKey: accepts only two-digit day and month and a four-digit year. pandas' "%d/%m/%Y" also accepts one-digit day and month, but the application only writes zero-padded dates. It also assumes nanosecond timestamps, as in pandas 2.x, so a day outside 1677-09-22 to 2262-04-11 gets no month. A pandas that parses at microsecond resolution would give such days a month. The form's date picker never writes them.
- Relatorios.ValueCounts: returns a map, so the descending-count order of value_counts is not modelled.
- Monthly.MonthlyPivot: keys the frame by labels. The row order of the grouped index is ascending (`Meses`), but `reset_index` is not modelled.
- Store.Database.CarregarMembros: leaves the order of rows with equal keys unspecified, as SQLite does. The same holds for the other two reads.
- Database size limits and the 64-bit limit on ids are not modelled. The counters are unbounded integers.
