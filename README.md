# Supabase schema setup: orchestration core

`App.py` is a Streamlit page that applies the `.sql` files of the current working
directory to a Supabase database. Beneath the page sits a small orchestration core, and that core
is modelled here:

- **Script set** (`get_sql_scripts`). The directory listing is sorted by Python's
  string order. Names ending in `.sql` are kept, and each file's content is stored in
  a dict under its name. The dict's keys come out strictly ascending: they are the
  `.sql` names of the listing, each once.
- **Per-script execution** (`execute_sql_with_supabase`). The script content is sent
  to the `sql` remote procedure. The call either returns or raises. The result is a
  `(success, message)` pair with fixed wording.
- **Setup run** (the "Setup Complete Schema" loop in `main`, App.py:116-145). The
  dict is loaded again (App.py:118), and its items run in order. The progress
  fraction `(i + 1) / len(scripts)` is shown before each execution (App.py:129-132),
  and each result is logged. The loop stops at the first failure. Completion is
  announced only when the last attempted script succeeded. An empty dict is
  reported as an error (App.py:119-120) and nothing is executed.
- **Preview** (the expander content). Content longer than 500 characters shows its
  first 500 characters followed by `...`.

Modules:

- `NameOrder` holds Python's `<` on `str` and the `sorted` function.
- `ScriptLoader` holds the insertion-ordered dict and the loader.
- `Execution` holds the result pair and its messages.
- `SetupRun` holds the run loop.
- `Preview` holds the preview rule.
- `Wrappers` holds `Option` and `Result`.

The remote procedure call is an oracle `rpc: (seq<string>, string) -> Outcome`. It
gives the database's answer to a query, `Returned` or `Raised(text)`, where `text` is
`str(e)` of the exception. Its first argument is the list of queries the run has
already sent. Each call in one run follows a different number of earlier queries,
so any sequence of answers a run can meet is produced by some `rpc`. This holds
whatever decides the answers: earlier scripts, timeouts, dropped connections or
other clients' writes. `Trace` lists the outcomes the calls have when every script
is sent one after another. `FirstFailure` is the index of the first outcome that
raised.

The directory listing is the input `listing`. File reading is the input `files`,
which maps every name that can be opened and read to its content. A `.sql` name
missing from `files` makes `open` raise, and the exception ends `get_sql_scripts`.
The loader then returns `Failure(name)`, naming the first such file in sorted order.

The listing is not assumed free of repeated names. The dict semantics of `Put` would
collapse repeats, and the keys would still be strictly ascending.

## Model

| member | source | states |
|---|---|---|
| `NameOrder.BelowIsFirstDifference` | App.py:42 | `Below`, Python's `<` on `str`, holds exactly when the first name is a proper prefix of the second, or has the smaller code point at the first index where they differ |
| `NameOrder.BelowIrreflexive` | App.py:42 | no name sorts before itself under Python's string order |
| `NameOrder.BelowTransitive` | App.py:42 | Python's string order is transitive |
| `NameOrder.BelowTotal` | App.py:42 | any two names are equal or one sorts before the other |
| `NameOrder.SortNames` | App.py:42 | `sorted(listing)` is in ascending order and holds the same names as the listing, each as often |
| `NameOrder.SortedUnique` | App.py:42 | two sorted sequences holding the same names, each as often, are equal, so `sorted` has one answer even with repeated names |
| `NameOrder.AscendingUnique` | App.py:36-37 | two strictly ascending name sequences with the same names are equal, so the dict's key order is fixed by its key set |
| `ScriptLoader.ScriptMap.Put` | App.py:46 | `scripts[filename] = content` keeps keys distinct and in insertion order; a new key goes last, it maps to the new content, and other keys keep their values |
| `ScriptLoader.ScriptMap.AppendKey` | App.py:46 | a key not yet in the dict, appended at the end, stays distinct from every key already there |
| `ScriptLoader.SqlNameIsStemAndSuffix` | App.py:43 | `IsSqlName`, the model of `filename.endswith(".sql")`, holds exactly when the name is some stem followed by `.sql` |
| `ScriptLoader.LoadScripts` | App.py:34-48 | succeeds exactly when every `.sql` name of the listing can be read; the keys are then exactly the `.sql` names of the listing, strictly ascending, each mapped to its file's content; otherwise the failure names the least unreadable `.sql` name |
| `ScriptLoader.LoadedItems` | App.py:118-128 | the items the run loop takes from a loaded dict are the `.sql` names of the listing, each once and in strictly ascending order, each with its file's content |
| `ScriptLoader.LoadStep` | App.py:42-46 | one turn of the loop over the sorted listing keeps the dict equal to the `.sql` names seen so far, strictly ascending, with their contents |
| `ScriptLoader.LoadSqlName` | App.py:43-46 | storing a readable `.sql` name keeps the dict equal to the `.sql` names seen so far, whether the name is new or already a key |
| `ScriptLoader.LoadNewName` | App.py:43-46 | a `.sql` name met for the first time in the sorted walk goes to the end of the dict, and the keys stay strictly ascending |
| `ScriptLoader.UnreadableIsLeast` | App.py:42-46 | the first `.sql` name whose `open` raises is in the listing and sorts at or before every other unreadable `.sql` name |
| `ScriptLoader.AppendKeepsAscending` | App.py:42-46 | a new key met in the sorted walk sorts after every key already in the dict |
| `Execution.SuccessMessageReadable` | App.py:25 | `SuccessMessage`, the model of the success f-string, reads back as a success naming its script |
| `Execution.FailureMessageShape` | App.py:27 | `FailureMessage`, the model of the error f-string, never reads as a success; it is `"❌ Error in "`, the name, `": "` and the exception text, which ends the message verbatim |
| `Execution.ResultOf` | App.py:23-27 | the success flag is true exactly when the remote call returned |
| `Execution.ExecuteSql` | App.py:21-27 | the script's content is the query sent, after the run's earlier queries; the flag reports whether that call returned |
| `Execution.ResultMessageReadable` | App.py:25-27 | a result's message reads back as `"✅ <name> executed successfully"` exactly when the call returned, and then gives back the script's name |
| `SetupRun.TraceFromAt` | App.py:128-133 | in a trace, the call for a script comes after exactly the queries sent before the trace and the contents of the scripts before it |
| `SetupRun.NextCall` | App.py:128-133 | once the first scripts' contents have been sent, the next script meets the outcome the trace gives it |
| `SetupRun.FirstFailure` | App.py:135-139 | every outcome before the index returned, and the outcome at the index raised unless the index is the end |
| `SetupRun.RunScripts` | App.py:116-145 | with `k` the first failing script: scripts `0..k` are each executed once, in dict order, and none after; the log is their results, successes before `k` and the failure at `k`; progress `j + 1` of `len(scripts)` is shown for each, reaching `len(scripts)` only at the last script; completion exactly when no script failed; an empty set executes nothing and ends `NoScripts` |
| `SetupRun.RunConclusion` | App.py:128-145 | when the loop stops (after the last script, or at the failure it breaks on), the number of attempts is `k + 1` or all, and the last attempted result succeeded exactly when no script failed |
| `SetupRun.LoggedExtend` | App.py:128-138 | recording the next script's result, query and progress fraction extends the record of executed scripts by exactly that script |
| `Preview.Preview` | App.py:109 | the preview is at most 503 characters; content of at most 500 characters is shown unchanged; longer content keeps its first 500 characters, followed by `...` |
| `Preview.PreviewIdempotent` | App.py:109 | previewing a preview changes nothing |
| `Preview.PreviewUnchangedIff` | App.py:109 | the preview equals the content exactly when the content has at most 500 characters, or has 503 characters and ends in `...` |

## Left out

- Streamlit rendering: page set-up, sidebar inputs, columns, expanders, buttons, progress bar, balloons, dividers and the "Next Steps" text (App.py:55-169). The wording of the completion and "no scripts" notices (App.py:120, 145) is represented by the run's end state.
- `create_supabase_client` and the real `postgrest.rpc(...).execute()` call (App.py:11-18, 24). The client library is not part of this model; the call is the `rpc` oracle.
- Filesystem access: `os.path.abspath`, `os.listdir`, `os.path.join` (App.py:40-44) are replaced by the `listing` input, the listing of `os.path.abspath(".")`: the current working directory, which is the folder of `App.py` only when the app is started from there, as the docstring at App.py:36 assumes. A failure of `os.listdir` itself is not modelled. `open`/`read` with UTF-8 decoding (App.py:45-46) are replaced by the `files` map; every way reading can raise is one case, a name absent from `files`.
- `time.sleep(0.5)` between scripts (App.py:141) has no effect on results.
- The float `(i + 1) / len(scripts)` (App.py:129) is kept as its numerator and denominator.
- The "Run Individual Scripts" buttons (App.py:149-157) call the same executor with no halting logic, once per click. Click events are outside the model.
- The preview loop over the dict (App.py:102-111) is rendering; only the preview rule at App.py:109 is modelled.
- Python's `str` can hold lone surrogate code points; Dafny's `char` cannot. Lengths and order otherwise agree, since both count and compare code points.
