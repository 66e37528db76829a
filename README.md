# Clinical trial dropout predictor — a Dafny model of its pipeline

The repository is a single Streamlit script, `app.py`. It reads an uploaded
patient table, fills the empty cells with `"Unknown"`, keeps the first
`max_rows` rows, turns each row into a question for a locally run language
model (`create_prompt`), and, when the button is pressed, asks the model about
each row in turn. It classifies each reply as `Drop`, `Stay` or `Uncertain`, or
records `Error: <message>` when the call raised, and stores the labels as the
table's `Prediction` column.

This project models that pipeline and proves what it promises. The language
model is an abstract runner. Each call either completes with some standard
output or raises with a message.

- `wrappers.dfy` (`Wrappers`): `Option` and `Result`. A `Failure` carries an exception's message.
- `text.dfy` (`Text`): Python's `str.strip()`, `str.lower()` and the `in` substring test, on ASCII.
- `classifier.dfy` (`Classifier`): the labels, the first-match substring policy, and the text stored per label.
- `prompt.dfy` (`Prompt`): the prompt template as 19 slots (literal text, then a column) and a closing instruction, filled left to right. A missing column is a `KeyError`.
- `table.dfy` (`Table`): the DataFrame as a class `Frame`, with `fillna`, `head`, `apply` and column assignment.
- `predict.dfy` (`Predict`): the prediction loop as a method, proved against the function `Predictions`.
- `app.dfy` (`App`): one run of the whole script, as the function `Run` and the method `RunScript`, with lemmas about alignment, schema errors and cleaning.

Two points about how the runner's reply is handled:

- A launch failure of `ollama` does not raise. The call goes through a shell (`shell=True`), so a missing or failing `ollama` only makes the shell exit with a nonzero status. Whatever reached standard output by then, often nothing, is classified like any other reply, and an empty one is `Uncertain`. Only an exception of `subprocess.run` itself, such as the 60-second timeout, becomes `Error: ...`. `Predict.Reply` has `Completed(stdout)` for any finished run, whatever its exit status.
- The runner's reply is taken as printed. The loop itself trims and lower-cases it (app.py:63) before looking for the two words, and the model does the same.

## Model

| member | source | states |
|---|---|---|
| `Text.TrimStart` | app.py:63 | the result is a suffix of the input that is empty or starts with a non-space, and everything dropped is whitespace |
| `Text.TrimEnd` | app.py:63 | the result is a prefix of the input that is empty or ends with a non-space, and everything dropped is whitespace |
| `Text.Strip` | app.py:63 | `strip()` returns the slice of the input between a run of leading and a run of trailing whitespace, and the slice neither starts nor ends with whitespace |
| `Text.Lower` | app.py:63 | `lower()` keeps the length, leaves no capital A-Z, turns every capital into the small letter 32 code points on (A to a, ..., Z to z), and leaves every other character as it was |
| `Text.Contains` | app.py:64-66 | Python's `in`: the word is a prefix of the text or occurs in its tail; `Text.ContainsIffOccurs` is its contract |
| `Text.LowerChar` | app.py:63 | `lower()` on one character: capitals A-Z become the letter 32 code points on, every other character is unchanged |
| `Text.StripAround` | app.py:63 | stripping whitespace + text + whitespace gives back the text when it neither starts nor ends with whitespace |
| `Text.LowerStrip` | app.py:63 | lower-casing and stripping commute |
| `Text.ContainsIffOccurs` | app.py:64-67 | the recursive substring test holds exactly when the word occurs at some position of the text |
| `Text.ContainsExtend` | app.py:64-67 | an occurrence survives any text added before or after |
| `Text.ContainsStrip` | app.py:63-67 | for a word without whitespace, stripping the text does not change whether the word occurs |
| `Classifier.Normalize` | app.py:63 | `strip().lower()` never lengthens the output, neither starts nor ends with whitespace, and holds no capital A-Z; `Classifier.NormalizeStripsLower` states which text it is |
| `Classifier.NormalizeStripsLower` | app.py:63 | the normalized reply is exactly the lower-cased reply with its leading and trailing whitespace removed: the slice starting after the leading whitespace, with only whitespace after it |
| `Classifier.Classify` | app.py:63-69 | every completed reply gets exactly one of Drop, Stay, Uncertain, and never an error label |
| `Classifier.FirstMatch` | app.py:64-69 | the first-match policy on the normalized reply yields exactly one of Drop, Stay, Uncertain, never an error label |
| `Classifier.FirstMatchWord` | app.py:64-67 | on a normalized reply that is exactly "drop" the policy picks Drop, and on exactly "stay" it picks Stay |
| `Classifier.ClassifyDropIff` | app.py:63-65 | a reply is Drop exactly when its lower-cased text contains "drop", wherever it occurs and whatever else it holds |
| `Classifier.ClassifyStayIff` | app.py:63-67 | a reply is Stay exactly when its lower-cased text has no "drop" and contains "stay" |
| `Classifier.ClassifyUncertainIff` | app.py:63-69 | a reply is Uncertain exactly when its lower-cased text contains neither word |
| `Classifier.ContainsLowerStrip` | app.py:63 | looking for a word without whitespace in `strip().lower()` is the same as looking in `lower()` |
| `Classifier.DropAbsorbs` | app.py:64-65 | once a reply is Drop, no text added before or after it changes that: any mention of "drop" wins |
| `Classifier.NormalizeAround` | app.py:63 | trimming and lower-casing an answer wrapped in whitespace leaves the lower-cased answer |
| `Classifier.ClassifyWord` | app.py:63-67 | a reply that normalizes to exactly "drop" is Drop and one that normalizes to exactly "stay" is Stay |
| `Classifier.DropWordIsDrop` | app.py:64-65 | the bare reply "drop" is Drop |
| `Classifier.ClassifyInstructedAnswer` | app.py:41-67 | a reply that is just "stay" or "drop", in any case and with any surrounding whitespace, gets that answer's label |
| `Classifier.ClassifyMixedReply` | app.py:64-67 | "i think they will stay but might drop" is Drop: Drop takes precedence over Stay |
| `Classifier.ClassifyShoutedStay` | app.py:63-67 | "  STAY\n" is Stay: the reply is trimmed and lower-cased before matching |
| `Classifier.ClassifyEmpty` | app.py:63-69 | an empty reply is Uncertain |
| `Classifier.Render` | app.py:65-71 | the text appended to the result list is never empty |
| `Classifier.ParseRender` | app.py:65-71 | every label can be read back from its `Prediction` text, so an "Error: " text never passes for a verdict |
| `Classifier.RenderInjective` | app.py:65-71 | two different labels never give the same `Prediction` text |
| `Prompt.Fill` | app.py:31-41 | filling the slots succeeds exactly when the row has every slot's column; otherwise the error names the first absent column in template order |
| `Prompt.CreatePrompt` | app.py:30-42 | the prompt exists exactly when the row has all 19 columns, ends with the fixed "Reply only 'stay' or 'drop'." instruction, and a failure is the `KeyError` of the first absent column |
| `Prompt.FillLaysOutSlots` | app.py:31-41 | the filled text is the slots laid end to end: slot k's literal text and column value sit at its start offset, and slot k+1 begins right after them |
| `Prompt.PromptFieldsInOrder` | app.py:31-41 | the prompt holds the 19 column values, each after its literal text, in the fixed template order, then exactly ". " and the closing instruction, and nothing else |
| `Prompt.FillOpening` | app.py:32-33 | the filled text opens with the first slot's text, the first value and the second slot's text |
| `Prompt.PromptStartsWithId` | app.py:32 | the prompt starts with "Patient ID: ", the row's `Patient_ID` and ". " |
| `Prompt.MissingAgeFails` | app.py:32-33 | a row with `Patient_ID` but without `Age` fails with the key `Age` |
| `Table.FillRecord` | app.py:20 | after `fillna("Unknown")` a row has the same columns, no missing cell, the same value in every cell that had one, and "Unknown" in every cell that was empty |
| `Table.FillRows` | app.py:20 | cleaning keeps the number and order of the rows and cleans each one |
| `Table.FillRowsClean` | app.py:20 | a cleaned table keeps its columns and has no missing cell |
| `Table.FirstRows` | app.py:27 | `head(n)` keeps exactly the first min(n, length) rows in their original order |
| `Table.AsRow` | app.py:30-31 | the row `create_prompt` reads has the same columns, the text of every filled cell, and "nan" for every missing cell |
| `Table.SetColumn` | app.py:44 | `df[name] = values` gives every row its own value in that column, adds the column, and leaves every other cell as it was |
| `Table.Apply` | app.py:44 | `apply` gives one result per row, in row order, each the function's result on that row, or the exception the function raised on the first row on which it raised |
| `Table.TextOf` | app.py:32-40 | the text the f-string writes for a cell: a filled cell's text, pandas' "nan" for a missing one; `Table.AsRow` carries its contract |
| `Table.RowPrompt` | app.py:44 | `create_prompt` applied to a table row; `Table.RowPromptSchema` and `Table.RowPromptNamesColumn` carry its contract |
| `Table.RowPromptSchema` | app.py:30-44 | a row's prompt can be built exactly when the row has every column the template reads |
| `Table.RowPromptNamesColumn` | app.py:30-42 | a row whose prompt cannot be built fails with the name of a column the template reads and the row lacks |
| `Table.SetColumnNoMissing` | app.py:44 | assigning a column leaves no cell missing in a table that had none |
| `Table.ApplyPromptSchema` | app.py:44 | on a non-empty table whose rows share their columns, building the prompts fails exactly when a template column is absent |
| `Table.ApplyTotal` | app.py:44 | `apply` succeeds when the function succeeds on every row |
| `Table.Frame.constructor` | app.py:15 | the uploaded table, with every row holding exactly the table's columns |
| `Table.Frame.FillNa` | app.py:20 | cleans the frame in place: same columns, rows replaced by their cleaned versions, no cell missing |
| `Table.Frame.Head` | app.py:27 | returns a new frame with the same columns and the first rows; the frame it is called on is unchanged |
| `Table.Frame.Assign` | app.py:44 | assigns a column as long as the table: adds the column name and sets each row's cell |
| `Predict.LabelOf` | app.py:54-71 | a reply earns an error label, carrying the exception's message, exactly when the call raised |
| `Predict.Verdict` | app.py:63-69 | the if/elif/else on the trimmed, lower-cased output appends exactly the text of the output's classifier label |
| `Predict.Appended` | app.py:52-71 | a list built by appending one entry per prompt, in order, holds exactly one entry per prompt |
| `Predict.AppendedAt` | app.py:52-71 | entry i of such a list is the entry made for the i-th prompt |
| `Predict.Predictions` | app.py:52-71 | the result list holds exactly one entry per prompt |
| `Predict.PredictionsAt` | app.py:53-71 | entry i is the label of the reply to the i-th call, made with the i-th prompt |
| `Predict.PredictionsPointwise` | app.py:53-71 | every entry is the label of its own prompt's reply, in prompt order |
| `Predict.PredictionsPrefix` | app.py:52-53 | handling more prompts never changes the entries already recorded |
| `Predict.FailureIsolated` | app.py:54-71 | a call that raises makes its own entry "Error: " and the message, and changes no other entry: later prompts are still handled |
| `Predict.FixedOutputSameLabel` | app.py:53-69 | with a runner stubbed to print the same text every time, every row gets that text's label |
| `Predict.PredictAll` | app.py:52-71 | the loop appends one entry per prompt, in order, and ends with exactly the list `Predictions` describes |
| `App.Run` | app.py:20-73 | a run stops exactly when building the prompts raised, with that exception; otherwise it keeps the first max_rows rows, or all rows of a shorter table; `App.RunKeepsCells` states their contents |
| `App.RunKeepsCells` | app.py:20-73 | with the button pressed or not, and for any max_rows, even past a short table's length, each kept row i has its input columns, cleaned, plus `Prompt` (and `Prediction` once pressed), and its `Prompt` cell is the prompt built from the cleaned input row i |
| `App.KeptPrompts` | app.py:44 | one prompt per kept row, in order, each built from its cleaned input row, or the exception of the first kept row whose prompt cannot be built |
| `App.RunKeepsRows` | app.py:20-73 | whatever function builds the prompts, after a run the table has exactly max_rows (at most 50) rows, in input order, each with its input columns cleaned, plus `Prompt` and `Prediction` |
| `App.RunAligned` | app.py:44-73 | whatever function builds the prompts (the script uses `create_prompt`), row i's `Prompt` is built by it from the cleaned input row i, and its `Prediction` is the label of the reply to the call made with that prompt |
| `App.RunSchemaError` | app.py:30-44 | the run stops with a `KeyError` exactly when the table lacks a column the template reads |
| `App.RunSchemaErrorNamesColumn` | app.py:30-44 | the error of a stopped run names a template column that the table lacks |
| `App.RunNoMissing` | app.py:20-73 | whatever function builds the prompts, a finished run leaves no cell missing |
| `App.InstructionMentionsDrop` | app.py:41 | the closing instruction is 100 characters long and holds the word "drop" at offset 94 |
| `App.PromptAroundDrop` | app.py:30-42 | every prompt is some text, then "drop", then the rest of the instruction |
| `App.EchoedPromptIsDrop` | app.py:41-65 | the prompt contains "drop" in its instruction, so a runner that echoed its input would have every row labelled Drop |
| `App.RunScript` | app.py:20-73 | the script cleans the uploaded frame in place and returns the truncated frame. On a schema error that frame is only cleaned and truncated, and no prompt is sent. Otherwise it is exactly `Run`'s table, and with the button pressed the `Prediction` column matches the table's length |

## Left out

- The Streamlit interface (`st.title`, `st.dataframe`, the slider widget, `st.button`, `st.download_button`) is presentation. The slider's bounds are kept as the precondition `RowCountInRange`, and the button as the flag `clicked`.
- The slider's default value (10, app.py:26) is not modelled. It lies outside the slider's range `[1, min(50, len(df))]` when the table has fewer than 10 rows, and the lemmas that require `RowCountInRange` (`App.RunKeepsRows`, `App.RunAligned`, `App.RunSchemaError`, `App.RunSchemaErrorNamesColumn`, `App.RunNoMissing`) exclude such a table. `App.Run` itself takes any `max_rows` and keeps min(max_rows, length) rows.
- Reading the upload (`pd.read_csv`) and the CSV export with UTF-8 encoding (app.py:77) are library I/O. A table is given directly as a set of columns and a sequence of rows.
- pandas' typing of cells is not modelled. Every cell is text or missing, so a numeric column that pandas would print as, say, "34.0" is not distinguished.
- The shell call `echo "{prompt}" | ollama run llama3`, its shell quoting, the 60-second timeout and the capture of standard error are external process behaviour. They are replaced by the abstract runner `Predict.Invoker`, a total function from the call number and the prompt to a `Reply`. The call number lets the runner answer each call differently.
- The exact text of exception messages is not modelled. A message is an opaque string.
- Python's whitespace and case mapping are modelled only on ASCII. `Text.IsSpace` holds for code points 9-13, 28-31 and 32, and `Text.LowerChar` maps only A-Z. Other Unicode whitespace and case pairs are not modelled.
- `Table.TextOf` reads a missing cell as pandas' "nan". No run reaches this, because cleaning comes first.
