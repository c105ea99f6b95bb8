# HTS Agent core in Dafny

This project models the decision logic of the HTS AI Agent, a Streamlit assistant for the US Harmonized Tariff Schedule (HTS). The model covers four pieces:

- **Duty-rate parsing and tariff lookup** (`rate_parser.dfy`, `tariff_lookup.dfy`). A cell of the schedule's "General Rate of Duty" column becomes a fraction. `"Free"` and specific rates in cents become `0`, `"5%"` becomes `0.05`, and plain numerals are taken as written. A `%` text that is not a number raises an error. Any such error empties the lookup for *every* code. The lookup keeps the rows whose HTS number equals the code, in file order.
- **The duty calculator** (`duty_calculator.dfy`). The first matching row's rate times the product cost gives the duty. The landed cost is the product cost plus freight, insurance and the unrounded duty. Both outputs are rounded to cents, and a code with no row costs zero.
- **The retrieval tool** (`rag_tool.dfy`, with the seeded passages in `seed_passages.dfy`). It tries two tiers in turn, with no fallback once an error occurs:
  1. a semantic index, when one is present, whose best passage wins;
  2. otherwise, the first stored passage that contains the query;
  3. otherwise, a fixed sentinel sentence.
  A failure of either tier becomes an `Error while searching: …` answer.
- **The user session** (`memory_store.dfy`, `user_session.dfy`):
  - A 4-digit user id names two history files, `<id>_rag_memory.json` and `<id>_duty_memory.json`.
  - Entering a different id reloads both histories, or starts them empty when the user has neither file.
  - Every append or delete writes the changed history back to its file immediately.
  - The `Session` class holds the per-browser-session state (`st.session_state`). Its methods keep the invariant `Synced()`: while a user is known, each history in memory equals what its file holds.

The file system is a value, `map<string, seq<E>>`, from file name to stored list. JSON encoding is the identity. The semantic index and the document table are parameters, and each of them may report a failure.

The choice of module follows the source:
- The parser, lookup, calculator and retrieval answer are pure code, so they are functions and lemmas.
- Two loops are methods proved against those functions: the column-wide `apply` of the parser and the row filter.
- The session's mutable state is a class whose methods state the whole new state.

### Three consequences of the code worth knowing

- **Numeric cells.** A cell that is already a number is passed through `float`, which returns it unchanged (`modules/prepare_db.py:31`). So a number is its own rate.
- **Parse errors.** Falling back to `0.0` happens only for text without `%` (`modules/prepare_db.py:26-30`). A malformed `%` text raises (`modules/prepare_db.py:25`). `query_database` catches the exception and returns an empty frame (`modules/prepare_db.py:13-15`). So one such cell makes every code cost zero (`TariffLookup.AnyFailureEmpties`).
- **Semantic-tier failures.** An exception while loading or querying the index leaves the one `try` that also holds the keyword search (`modules/rag_tool.py:18-35`). So the answer is the error string, and the keyword search is not tried.

## Model

| member | source | states |
|---|---|---|
| RateParser.Lower | modules/prepare_db.py:20 | lower-casing keeps the length and maps each ASCII capital to its small letter, leaving every other character alone |
| RateParser.RStripPercent | modules/prepare_db.py:25 | the result is a prefix of the text, does not end in `%`, and everything removed is `%` |
| RateParser.ParseUnsigned | modules/prepare_db.py:28 | an unsigned number that parses is non-empty text and denotes a non-negative value |
| RateParser.ParseDecimal | modules/prepare_db.py:28 | what `float` accepts is non-empty; a value after a leading `-` is at most zero and any other value is at least zero |
| RateParser.SignRule | modules/prepare_db.py:28 | a leading `+` changes nothing, and a leading `-` negates the value or leaves the text malformed |
| RateParser.ParseDigits | modules/prepare_db.py:28 | every non-empty run of decimal digits parses to the number it denotes |
| RateParser.ParseDigitsDotDigits | modules/prepare_db.py:28 | digits, a `.` and digits, with at least one digit, parse to the whole part plus the fraction digits scaled down by their count of places |
| RateParser.ParseDutyRate | modules/prepare_db.py:17-31 | a number is its own rate; a parse fails only for text that is not `free`, has no cent marker and contains `%` |
| RateParser.PercentRate | modules/prepare_db.py:25 | the `%` branch fails exactly when the stripped text is not a number; otherwise its result times 100 is that number |
| RateParser.PlainRate | modules/prepare_db.py:26-30 | the branch without `%` never fails, and a non-zero result is the number the text denotes |
| RateParser.NumericCellAsIs | modules/prepare_db.py:31 | a cell that is already a number parses to itself |
| RateParser.FreeIsZero | modules/prepare_db.py:20-21 | any text whose lower-case form is `free` parses to `0` |
| RateParser.CentIsZero | modules/prepare_db.py:22-23 | not `free` and containing the cent marker `Â¢` gives rate `0`, whatever else the text holds |
| RateParser.PercentBranch | modules/prepare_db.py:24-25 | text with `%` and no cent marker is parsed by the `%` branch |
| RateParser.PercentOf | modules/prepare_db.py:24-25 | a number followed by one `%` parses to that number divided by 100 |
| RateParser.PercentRule | modules/prepare_db.py:24-25 | with `%` and no earlier rule: a number after right-stripping `%` gives that number divided by 100; otherwise the parse is an error |
| RateParser.PlainRule | modules/prepare_db.py:26-30 | with no earlier rule and no `%`: a number gives itself, and anything else gives `0` |
| RateParser.RaisesExactly | modules/prepare_db.py:17-31 | the parser errs if and only if the cell is text that is not `free`, has no cent marker, contains `%`, and is not a number once its trailing `%` are stripped |
| RateParser.ParsePercentNumeral | modules/prepare_db.py:24-25 | every percentage `n%` written in decimal digits parses to exactly `n/100` |
| RateParser.ParseNumeral | modules/prepare_db.py:28 | the numeral `str(n)` of a natural number `n` parses to `n` |
| RateParser.FreeExamples | modules/prepare_db.py:20-21 | `free` and `Free` both give `0` |
| RateParser.PercentExamples | modules/prepare_db.py:24-25 | `5%` gives `0.05` and `12.5%` gives `0.125` |
| RateParser.PlainExamples | modules/prepare_db.py:26-31 | the number 3.0 and the text `3.0` give `3.0`, and `garbage` gives `0` |
| RateParser.RaisingExample | modules/prepare_db.py:24-25 | `5% ad val` raises |
| RateParser.MixedExample | modules/prepare_db.py:22-23 | `5% + 3Â¢` gives `0`, because the cent rule comes before the percent rule |
| TariffLookup.ParseColumn | modules/prepare_db.py:8 | the column parses if and only if every cell does; then each row keeps its code and gets its own cell's rate |
| TariffLookup.ParseRates | modules/prepare_db.py:8 | the loop over the column returns exactly `ParseColumn`, stopping at the first failing cell |
| TariffLookup.PrefixErrSpoils | modules/prepare_db.py:8 | once a prefix of the column fails, the whole column fails the same way |
| TariffLookup.Matching | modules/prepare_db.py:9 | the selection is no longer than the table, and each selected row has the code and comes from the table |
| TariffLookup.MatchingKeeps | modules/prepare_db.py:9 | conversely, every row with the code is selected |
| TariffLookup.MatchingAppend | modules/prepare_db.py:9 | selecting from a concatenation selects from each part, in order |
| TariffLookup.FirstMatch | modules/prepare_db.py:9 | when anything is selected, the first selected row is the first row of the table that has the code |
| TariffLookup.SelectCode | modules/prepare_db.py:9 | the filtering loop returns exactly `Matching` |
| TariffLookup.Lookup | modules/prepare_db.py:3-15 | a missing file gives no rows; every row returned has the code asked for, and there are no more of them than rows in the file |
| TariffLookup.QueryDatabase | modules/prepare_db.py:3-15 | the lookup returns exactly `Lookup`: nothing for a missing file or any parse error, and otherwise the matching parsed rows |
| TariffLookup.LookupSucceeds | modules/prepare_db.py:6-9 | when every cell parses, a parsed row appears in the result if and only if it has the code |
| TariffLookup.AnyFailureEmpties | modules/prepare_db.py:8-15 | one unparseable cell anywhere in the column empties the result for every code |
| TariffLookup.LookupExample | modules/prepare_db.py:6-9 | in a three-row table, two rows with the code come back in order and the third is dropped |
| DutyCalculator.HandleDutyCalculation | modules/hts_duty_calculator.py:9-20 | a code without rows costs nothing; otherwise both outputs are whole cents within half a cent of the first row's rate times the cost, and of the costs plus that duty |
| DutyCalculator.Round2 | modules/hts_duty_calculator.py:20 | rounding to two places is within half a cent, gives a whole number of cents, and keeps non-negative amounts non-negative |
| DutyCalculator.Priced | modules/hts_duty_calculator.py:17-20 | for one rate, the duty is within half a cent of rate times product cost, the total is within half a cent of the costs plus that unrounded duty, and both are whole cents |
| DutyCalculator.LandedCost | modules/hts_duty_calculator.py:11-20 | with no row, both costs are `0`; otherwise the duty is the first row's rate times the product cost and the total is the sum of the costs with the unrounded duty, each within half a cent and in whole cents |
| DutyCalculator.FirstRowDecides | modules/hts_duty_calculator.py:16 | only the first matching row's rate matters |
| DutyCalculator.NonNegativeCosts | modules/hts_duty_calculator.py:17-20 | non-negative inputs and rate give non-negative duty and total |
| DutyCalculator.ZeroRateNoDuty | modules/hts_duty_calculator.py:17-20 | a zero rate gives zero duty, and the total is the rounded sum of the other costs |
| DutyCalculator.NoRowNoCost | modules/hts_duty_calculator.py:10-13 | a code with no usable row costs `0` in both outputs |
| DutyCalculator.WorkedExample | modules/hts_duty_calculator.py:9-20 | a `5%` row, cost 1000, freight 50 and insurance 20 give duty 50 and total 1120 |
| DutyCalculator.TotalUsesUnroundedDuty | modules/hts_duty_calculator.py:17-20 | the total adds the unrounded duty, and the case shown differs from adding the rounded duty |
| MemoryStore.Save | modules/rag_tool.py:37-40 | saving creates or replaces exactly that file, and every other file is unchanged |
| MemoryStore.Load | modules/rag_tool.py:42-47 | loading a missing file gives the empty list, and loading an existing one gives its contents |
| MemoryStore.LoadAfterSave | modules/hts_duty_calculator.py:36-46 | loading a file just saved returns what was saved |
| MemoryStore.SaveIsolated | modules/hts_duty_calculator.py:36-39 | saving one file does not change what another file loads |
| MemoryStore.SaveOverwrites | modules/hts_duty_calculator.py:36-39 | a second save to the same file replaces the first |
| RagTool.FirstContaining | modules/rag_tool.py:29-30 | the result is the index of the first document containing the query, or none when no document contains it |
| RagTool.HandleRagQuery | modules/rag_tool.py:16-35 | every branch of the answer: an index failure gives the error; a semantic hit gives its first passage; otherwise a document failure gives the error, a containing document gives the first such, and no match gives the sentinel |
| RagTool.SemanticFirst | modules/rag_tool.py:20-24 | a non-empty semantic result is answered by its first passage, whatever the documents are |
| RagTool.SentinelIffNoMatch | modules/rag_tool.py:27-33 | without a semantic answer, and when no document is the sentinel text, the sentinel comes back if and only if no document contains the query |
| RagTool.EmptyQueryReturnsFirst | modules/rag_tool.py:29-33 | the empty query matches the first stored document |
| RagTool.FreeTradeQuery | modules/rag_tool.py:27-33 | over the five seeded passages, `Free Trade` returns the first passage, the one about the United States–Israel Free Trade Agreement |
| RagTool.UnknownTermQuery | modules/rag_tool.py:27-33 | over the five seeded passages, `nonexistent-term-xyz` returns the sentinel |
| UserSession.RemoveAt | main.py:97 | popping index `i` keeps the entries before `i`, shifts the rest down by one, and removes exactly one copy of the popped entry |
| UserSession.GetMemoryFile | main.py:15-16 | the name is the id, `_`, the file kind and `_memory.json`, in that order |
| UserSession.ValidateUserIdFormat | main.py:19-21 | an accepted id has exactly four characters and no `_` |
| UserSession.ValidateUserId | main.py:24-28 | a user rejected by the existence check loads empty histories from both files |
| UserSession.ValidIdHasNoUnderscore | main.py:19-21 | a valid id has no `_` |
| UserSession.MemoryFileInjective | main.py:15-16 | the file name determines both the user id and the file kind when neither contains `_` |
| UserSession.DistinctUsersDistinctFiles | main.py:15-21 | two different valid ids never share a history file |
| UserSession.RagAndDutyFilesDiffer | main.py:15-16 | a user's query file and calculation file are different files |
| UserSession.FormatExamples | main.py:19-21 | `1234` is valid; `123`, `12a4`, `12345` and the empty id are not |
| UserSession.FileNameExamples | main.py:15-16 | user `1234` has the files `1234_rag_memory.json` and `1234_duty_memory.json` |
| UserSession.ReloadIsLoad | main.py:24-38 | guarding the reload with the existence check changes nothing: a user with neither file loads empty histories either way |
| UserSession.Session.Synced | main.py:31-38 | before any id is entered, the session is trivially in step with the files |
| UserSession.Session.constructor | main.py:31-33 | a new session has no user and empty histories |
| UserSession.Session.ResetMemoryOnIdChange | main.py:31-38 | the same id leaves both histories alone; a new id reloads both, or empties both if the user has neither file; no file changes |
| UserSession.Session.EnterUserId | main.py:56-60 | an ill-formed id changes nothing; a well-formed one passes through the reset |
| UserSession.Session.SubmitQuery | main.py:76-85 | an empty query does nothing; otherwise the answer is appended to the query history, which is written to this user's query file and nowhere else |
| UserSession.Session.DeleteRagEntry | main.py:96-99 | the query history loses entry `idx` and is written back to this user's query file only |
| UserSession.Session.SubmitCalculation | main.py:114-127 | the calculation and its inputs are appended to the calculation history, which is written to this user's calculation file only |
| UserSession.Session.DeleteDutyEntry | main.py:139-143 | the calculation history loses entry `idx` and is written back to this user's calculation file only |
| UserSession.Scenario | main.py:56-99 | in one session, an ill-formed id is refused, a returning user gets their history back, adding and deleting a query restores it, and another user's file keeps its contents |

## Left out

- Reading the CSV with pandas is left out. A table is a list of rows whose codes are text and whose rate cells are text or numbers. Dtype inference is not modelled: a numeric HTS-number column or a blank cell read as NaN becomes a number. A missing column, which would surface as a caught `KeyError`, is also left out.
- `float()` is modelled only on an optional sign, digits and an optional single `.` with at least one digit. Python also accepts surrounding whitespace, exponents, `inf`/`nan`, underscores and non-ASCII digits. The model therefore treats `"5 %"` or `"1e2%"` as malformed, where Python accepts them.
- `str.lower()` is modelled on ASCII letters only. This is exact for the one use made of it, the comparison with `free`, since no non-ASCII character lower-cases to one of those letters.
- UserSession.ValidateUserIdFormat: only the ASCII digits `0`-`9` count as digits. Python's `str.isdigit()` also accepts other Unicode digits, such as `١` or `²`, so the source accepts ids like `١٢٣٤` that the model refuses.
- RateParser.ParseDutyRate: the cent test looks for the two characters `Â¢`, as written in the code. The real cent sign `¢` alone does not trigger it, and this agrees with the code.
- DutyCalculator.Round2: amounts are exact reals and rounding is half-up. Python rounds binary floats half to even. The bounds stated by `Priced`, `LandedCost` and `HandleDutyCalculation` allow half a cent either way and whole cents, which both roundings meet. The lemmas ZeroRateNoDuty, WorkedExample and TotalUsesUnroundedDuty name exact half-up values, and Python may differ from them by a cent or by binary representation.
- The messages printed to the console when the table is missing or a query fails are left out, because they are output only.
- The FAISS index and the OpenAI embeddings are a parameter. It is either failed or present, and when present it holds no index or a list of ranked passages. Similarity ranking itself is not modelled.
- RagTool.HandleRagQuery: the keyword tier is case-sensitive substring containment in storage order. SQLite's `LIKE` is case-insensitive for ASCII and treats `%` and `_` in the query as wildcards. Without an `ORDER BY`, SQLite also does not promise which row `fetchone` returns.
- The tool's error detail (`str(e)`) is an arbitrary string supplied with the failure, because exception texts come from libraries outside this model.
- `initialize_rag_tool` (`modules/rag_tool.py:12-14`) does nothing and is not modelled.
- JSON encoding and decoding are the identity. Corrupt or unreadable history files, and files written by another process, are not modelled.
- Saving to a file name Python cannot open is not modelled.
- The export functions are left out because they only write documents: `export_results_to_file` (`modules/hts_duty_calculator.py:22-34`) and the Excel/PDF download buttons (`main.py:147-162`).
- The Streamlit page is left out: layout, the chat display and the messages of the "Validate User ID" button (`main.py:48-54`, which change no state). The model treats one method call as one submission. On each script rerun, Streamlit resubmits whatever the query box still holds; that is not modelled.
- `st.experimental_rerun` and concurrent sessions are not modelled. Each session here has its own copy of the file map, so writes by two sessions at once are not captured.
- The database seeding, data ingestion and the alternative `app.py` entry point are not part of this model. Only the five seeded passages (`initialize_db.py:22-26`) appear, as the document table in two example lemmas.
- The source promises that every operation is deterministic. Here that holds by construction, because every operation is a function or a method of its inputs, so no lemma states it.
