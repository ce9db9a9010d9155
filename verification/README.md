# Colaboradores: a Dafny model of the registration and management pages

The system is a small Streamlit application that keeps a register of
employees ("colaboradores") in one SQLite table. It has three parts:

- a registration page (`cadastro.py`);
- a management page (`listagem.py`) that lists, filters, edits and deletes rows;
- a `DatabaseManager` class (`database.py`) that wraps the SQL.

This project models the logic those pages run on each interaction:

- `Texto`: the pieces of Python string behaviour the pages rely on. These are
  `str.strip()`, case-insensitive substring search, `split(sep)[0]`, `str(n)`
  and `int(s)`.
- `Validacao`: the CEP and phone validators. Both pages define them
  identically.
- `Formulario`: the error list and the normalised data tuple that both submit
  handlers build from the form fields. There is also an invariant every
  stored row satisfies (`DadosConsistentes`).
- `Database`: the table as a map from id to row, plus the AUTOINCREMENT
  counter SQLite keeps in `sqlite_sequence`. It covers every
  `DatabaseManager` method and the statistics.
- `Cadastro`: the registration submit.
- `Listagem`: the list page's filters, the "id - nome" selectbox options and
  their parse back to an id, and the prefilled edit form. It also covers the
  update submit and the two-click delete with its session slot.

The database is a value. Each write returns the new table. The insertion
timestamp is a parameter (`agora`).

Where the code and its documentation differ, the model follows the code:

- An empty CEP or phone is never validated; only a filled one is checked.
- Python's `$` also matches before a final newline. So `ValidarCep` accepts
  `"12345-678\n"`, and the stored value is stripped back to the CEP layout
  (`CepArmazenado`).
- A whitespace-only optional text field is stored as the empty string, not
  NULL. The handlers test `if campo` before stripping. The edit form shows a
  stored `""` as `""` (`or ""`, listagem.py:147), and saving it again stores
  NULL (`if cidade else None`, listagem.py:252). So an untouched re-save of
  such a row turns `""` into NULL. `CidadeEmBrancoGravadaVazia` shows such a
  row being written, and `CidadeVaziaViraNula` shows the re-save changing it.
- `nunique()` counts the empty string as a value of its own.
- `nome_completo` is NOT NULL, so the `na=False` branch of the name filter
  is never taken.

## Model

| member | source | states |
|---|---|---|
| Texto.Strip | cadastro.py:66 | `strip()` is empty exactly for all-whitespace text; otherwise it starts and ends with a non-space character and is no longer than the input |
| Texto.StripPartes | cadastro.py:79-85 | the stripped text is the input with only whitespace removed on each side |
| Texto.StripIdempotent | cadastro.py:79 | stripping an already stripped value changes nothing |
| Texto.BeforeFirst | listagem.py:124 | `split(" - ")[0]` is the longest prefix before the first occurrence of the separator, or the whole text when there is none |
| Texto.ParseInt | listagem.py:124 | `int()` succeeds exactly on an optional sign followed by at least one ASCII digit, and gives the signed decimal value |
| Texto.ParseIntToString | listagem.py:117-124 | `int(str(n)) == n` for every integer, negative ones included |
| Validacao.ValidarCep | cadastro.py:11-13 | the regex accepts exactly the CEP layout (5 digits, optional hyphen, 3 digits), or that layout followed by one newline |
| Validacao.ValidarCepSemQuebra | listagem.py:10-12 | without a trailing newline, validity is exactly the CEP layout |
| Validacao.ValidarTelefone | cadastro.py:15-18 | a phone is accepted exactly when at least ten of its positions hold a digit |
| Validacao.DigitCount | cadastro.py:17 | removing the non-digits keeps one character per digit position |
| Validacao.SomenteDigitosConcat | listagem.py:16 | digit extraction distributes over concatenation |
| Validacao.TelefoneIgnoraNaoDigitos | listagem.py:14-17 | inserting a non-digit anywhere never changes the phone verdict |
| Validacao.TelefoneIgnoraStrip | cadastro.py:85 | stripping a phone removes no digit, so the stored phone passes exactly when the typed one does |
| Validacao.ExemplosCep | cadastro.py:115 | the documented formats 12345-678 and 12345678 are accepted; a 4+3-digit CEP is not |
| Validacao.ExemplosTelefone | cadastro.py:114 | the documented formats (11) 99999-9999 and 11999999999 are accepted; five digits are not |
| Formulario.Erros | cadastro.py:65-71 | the error list is empty exactly when the name is not blank and the filled CEP and phone are valid; each message appears exactly when its check fails, in the order name, CEP, phone |
| Formulario.TextoOpcional | cadastro.py:80-85 | only the empty text is stored as NULL; a stored text is already stripped; read back with `or ""` it is the stripped input; it is `""` exactly for whitespace-only input |
| Formulario.EscolhaOpcional | cadastro.py:83 | a stored choice is never empty, and reading it back with `or ""` gives the choice made |
| Formulario.Normalizar | cadastro.py:73-88 | an error-free form gives data every stored row must satisfy: non-empty stripped name, stripped optional texts, CEP in the exact layout, stripped phone with at least ten digits |
| Formulario.CamposValidados | cadastro.py:65-85 | once the three checks pass, the stripped name is non-empty, the stripped CEP has the CEP layout and the stripped phone still has ten digits |
| Formulario.CepArmazenado | cadastro.py:68-84 | a CEP that passes validation is stored, after strip, in the exact CEP layout |
| Cadastro.SubmeterCadastro | cadastro.py:64-92 | errors block the insert and leave the table unchanged; a full table gives an insert error; otherwise exactly the normalised row is added under an id above the AUTOINCREMENT counter, the counter moves to that id, and the row can be read back |
| Cadastro.CadastroPreservaConsistencia | cadastro.py:64-89 | a registration submit keeps every stored row consistent |
| Database.CreateTable | database.py:10-32 | `CREATE TABLE IF NOT EXISTS` keeps an existing table and otherwise creates an empty one with counter 0 |
| Database.CreateTableIdempotente | database.py:15-16 | running `create_table` again changes nothing |
| Database.InserirColaborador | database.py:17 | AUTOINCREMENT: the new id is above the counter and every existing id, exactly the new row is added, and the insert fails exactly at the largest rowid |
| Database.BuscarColaboradorPorId | database.py:56-63 | the lookup finds a row exactly when the id is present, and returns that row |
| Database.InserirEntaoBuscar | database.py:34-63 | reading back a just-inserted id returns the inserted values and timestamp |
| Database.AtualizarColaborador | database.py:65-79 | the update reports success exactly when the id exists, replaces only that row's nine columns, and keeps its id and `data_cadastro` |
| Database.ExcluirColaborador | database.py:81-88 | the delete reports success exactly when the id exists, removes only that key and keeps the counter |
| Database.ContagemDasEscritas | database.py:90-97 | `contar_colaboradores` goes up by one per successful insert and down by one per effective delete; an update keeps it |
| Database.AutoincrementNuncaReutiliza | database.py:17 | over any run of inserts, updates and deletes, the returned ids strictly increase and none was in the table before the run |
| Database.LinhasAte | database.py:52 | the scan lists only rows of the table, each under its own id, none above the bound |
| Database.ListarColaboradores | database.py:49-54 | `ORDER BY id DESC` lists every row exactly once with strictly decreasing ids, as many as `COUNT(*)` |
| Database.ListagemUnica | database.py:52 | there is exactly one such listing of a table |
| Database.DecrescentesIguais | database.py:52 | two strictly decreasing sequences with the same elements are equal |
| Database.ContarDistintos | database.py:115-117 | `nunique()` is the number of distinct non-null values of the column |
| Database.Moda | database.py:118-119 | `mode().iloc[0]` is a non-null value no other value outnumbers, and there is none when the column is all null |
| Database.FrequenciaDaListagem | database.py:118-119 | counting a value in the listing's column counts the table rows that hold it |
| Database.ModaDaTabela | database.py:118-119 | the reported mode is a stored value of maximal frequency, or 'N/A' when the column holds no value |
| Database.ObterEstatisticas | database.py:99-122 | an empty table gives zeros and 'N/A'; otherwise the row count, the distinct city/state/role counts and the most frequent role and state |
| Listagem.Manter | listagem.py:57-63 | a boolean mask keeps exactly the rows satisfying it, in order, each as often as it occurred |
| Listagem.Filtrar | listagem.py:54-63 | the filtered table is the sub-listing of exactly the rows passing the filled name (case-insensitive), role and state filters |
| Listagem.FiltrosVazios | listagem.py:54-63 | with every filter empty, the whole listing is shown |
| Listagem.SubsequenciaTransitiva | listagem.py:57-63 | filtering a filtered table is still a sub-listing of the original |
| Listagem.SubsequenciaMesmoTamanho | listagem.py:54 | a sub-listing as long as the listing is the listing |
| Listagem.FiltradoOrdenado | listagem.py:54-70 | the filtered rows keep the newest-first order and are no more than the total |
| Listagem.Opcoes | listagem.py:117 | after the empty choice, each option reads back as its own row's id; for a listing no two options are equal, so the chosen text determines the row |
| Listagem.LerSelecao | listagem.py:123-124 | the empty option selects nothing; a non-empty option is refused exactly when `int()` fails on the text before the first " - ", and otherwise selects that integer |
| Listagem.RotuloIdaEVolta | listagem.py:117-124 | every row's label parses back to that row's id, even when the name contains " - " |
| Listagem.IndiceOuZero | listagem.py:174-175 | the preselected index is the first occurrence of the stored value, or 0 when the list does not offer it |
| Listagem.Preencher | listagem.py:138-218 | the edit form shows NULL text as "", preselects a stored state or role only when the list offers it, and carries the birth date over |
| Listagem.AbrirEdicao | listagem.py:123-131 | the empty option opens no form; an unparsable option opens none; a parsed id that is missing opens nothing; a parsed id that is present opens exactly that row's prefilled form |
| Listagem.OpcoesAbremSuasLinhas | listagem.py:117-131 | each option of the selectbox opens the form of its own row |
| Listagem.ReedicaoSemAlteracoes | listagem.py:138-258 | for any row the forms could have written, an untouched re-save passes validation and writes back the stored data, with address, district and city stored as "" turned into NULL |
| Listagem.EdicaoSemAlteracoes | listagem.py:138-258 | for a form-written row with no free text stored as "", an untouched re-save writes back exactly the stored data |
| Listagem.CidadeVaziaViraNula | listagem.py:145-149 | a city stored as "" comes back as NULL after an untouched re-save, so the stored data changes |
| Listagem.CidadeEmBrancoGravadaVazia | cadastro.py:82 | registering a city of one blank stores it as "" in a row the forms could have written |
| Listagem.SubmeterAtualizacao | listagem.py:229-268 | errors block the update; a vanished row gives the error message; otherwise only that row's fields are replaced by the normalised data, with the other rows and the AUTOINCREMENT counter kept |
| Listagem.AtualizacaoPreservaConsistencia | listagem.py:229-261 | an update submit keeps every stored row consistent |
| Listagem.ClicarExcluir | listagem.py:270-284 | a click arms the slot unless it already holds this id; only an armed click deletes, and then it removes exactly that row, keeps the AUTOINCREMENT counter and clears the slot |
| Listagem.DoisCliquesExcluem | listagem.py:270-280 | two consecutive clicks on a present row delete it |
| Listagem.CliquesExcluir | listagem.py:270-279 | after a run of clicks the slot is empty or holds the last clicked id |
| Listagem.ExclusaoExigeConfirmacao | listagem.py:270-280 | from a fresh session, a click deletes only when the click just before it was on the same row |

## Left out

- SQL text, connections, commits and `pandas.read_sql_query` are not modelled. The table is a value and each write returns the new table.
- `CURRENT_TIMESTAMP` comes from the clock; it is the parameter `agora`.
- Only the SQLITE_FULL error of AUTOINCREMENT is modelled. Other database exceptions (disk, locking) come from outside the program.
- Dates are opaque values. Storing a `date` as text, `pd.to_datetime` parsing of the stored birth date, and the `date_input` bounds are not modelled.
- `\d` is modelled as the ASCII digits; Python's `re` also matches other Unicode decimal digits.
- Listagem.Filtrar: the name filter is matched as a literal text. pandas' `str.contains` compiles it as a case-insensitive regular expression (`regex=True` by default). So a filter of "." keeps every row in the source but only names containing a dot in the model. A filter of "(" makes the source raise an error, which the model does not reproduce. Regex semantics are not modelled.
- Texto.LowerChar folds only ASCII and Latin-1 capitals; the rest of Unicode case folding is not modelled.
- Texto.ParseInt accepts an optional sign and ASCII digits; `int()`'s surrounding whitespace, underscores and other Unicode digits are not modelled. Labels built by the page never contain them.
- Database.Moda: returns one value of maximal frequency; pandas' tie-break (the smallest value in sort order) is not modelled.
- Database.ContarColaboradores has no contract of its own. Its meaning is stated through Database.ListarColaboradores, Database.ObterEstatisticas and Database.ContagemDasEscritas.
- The filter option lists built from the data (listagem.py:46, 50) and the "most common role" metric of the list tab (listagem.py:72-74) are not modelled. They are display only.
- CSV export, date formatting for display, the per-month registration chart and the bar charts are not modelled. They are presentation.
- Streamlit widgets, reruns, messages and the `clear_on_submit` reset are not modelled; each submit or click is one function call.
- Concurrent sessions writing to the same database file are not modelled.
- `main.py`, `sobre.py` and the navigation between pages are not part of this model.
