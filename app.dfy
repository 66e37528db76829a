/**
 * One run of the script on an uploaded table: clean it, keep the first
 * `max_rows` rows, build a prompt per row, and, once the button is pressed,
 * run the prediction loop and store its results as the `Prediction` column.
 * A schema error while building the prompts stops the run before the model
 * runner is called at all.
 */
module App {
  import opened Wrappers
  import opened Classifier
  import opened Prompt
  import opened Table
  import opened Predict
  import opened Text

  const PromptColumn: string := "Prompt"
  const PredictionColumn: string := "Prediction"

  /** The slider's range: 1 to the smaller of 50 and the table's length. */
  predicate RowCountInRange(maxRows: int, total: int) {
    1 <= maxRows <= Min(50, total)
  }

  /** A function from a cleaned row to its prompt; the script uses
      `RowPrompt`, i.e. `create_prompt`. */
  type Builder = Record -> Result<string>

  /** The rows the script ends with, or the `KeyError` that stopped it, when
      `build` makes the prompts. A run stops exactly when building the
      prompts raised, with that exception; otherwise it keeps the first
      `maxRows` rows, or all of them when there are fewer. */
  function Run(build: Builder, rows: seq<Record>, maxRows: nat, clicked: bool, invoke: Invoker): (r: Result<seq<Record>>)
    ensures r.Failure? <==> KeptPrompts(build, rows, maxRows).Failure?
    ensures r.Failure? ==> r.error == KeptPrompts(build, rows, maxRows).error
    ensures r.Success? ==> |r.value| == Min(maxRows, |rows|)
  {
    var kept := FirstRows(FillRows(rows), maxRows);
    match KeptPrompts(build, rows, maxRows)
    case Failure(e) => Failure(e)
    case Success(prompts) =>
      var prompted := SetColumn(kept, PromptColumn, prompts);
      if clicked then Success(SetColumn(prompted, PredictionColumn, Predictions(prompts, invoke)))
      else Success(prompted)
  }

  /** The prompts of the kept rows, in order, each built from its cleaned
      input row; or the exception of the first kept row whose prompt cannot
      be built. */
  function KeptPrompts(build: Builder, rows: seq<Record>, maxRows: nat): (r: Result<seq<string>>)
    ensures r.Success? ==> |r.value| == Min(maxRows, |rows|)
    ensures r.Success? ==>
      forall i :: 0 <= i < |r.value| ==> build(FillRecord(rows[i])) == Success(r.value[i])
    ensures r.Failure? ==>
      exists i :: 0 <= i < Min(maxRows, |rows|) && build(FillRecord(rows[i])) == Failure(r.error)
        && (forall j :: 0 <= j < i ==> build(FillRecord(rows[j])).Success?)
  {
    var kept := FirstRows(FillRows(rows), maxRows);
    assert forall i :: 0 <= i < |kept| ==> kept[i] == FillRecord(rows[i]);
    Apply(kept, build)
  }

  /** After a run there is one row per kept input row, in input order, with
      the input row's columns, cleaned, plus the columns the run adds. */
  lemma RunKeepsRows(build: Builder, columns: set<string>, rows: seq<Record>, maxRows: nat, invoke: Invoker, i: nat)
    requires Rectangular(columns, rows) && RowCountInRange(maxRows, |rows|)
    requires Run(build, rows, maxRows, true, invoke).Success?
    requires i < maxRows
    ensures |Run(build, rows, maxRows, true, invoke).value| == maxRows <= 50
    ensures Run(build, rows, maxRows, true, invoke).value[i].Keys == columns + {PromptColumn, PredictionColumn}
    ensures forall c :: c in columns && c != PromptColumn && c != PredictionColumn ==>
      Run(build, rows, maxRows, true, invoke).value[i][c] == FillRecord(rows[i])[c]
  {
    var kept := FirstRows(FillRows(rows), maxRows);
    var prompts := KeptPrompts(build, rows, maxRows).value;
    var prompted := SetColumn(kept, PromptColumn, prompts);
    var final := SetColumn(prompted, PredictionColumn, Predictions(prompts, invoke));
    assert Run(build, rows, maxRows, true, invoke).value == final;
    assert kept[i] == FillRecord(rows[i]) && kept[i].Keys == columns;
    assert prompted[i].Keys == columns + {PromptColumn};
    assert final[i].Keys == columns + {PromptColumn, PredictionColumn};
    forall c | c in columns && c != PromptColumn && c != PredictionColumn
      ensures final[i][c] == FillRecord(rows[i])[c]
    {
      assert prompted[i][c] == kept[i][c];
    }
  }

  /** Whether or not the button was pressed, and however short the table,
      a successful run keeps each kept input row's columns, cleaned, and
      adds its prompt as the `Prompt` cell (and, once pressed, a
      `Prediction` cell). */
  lemma RunKeepsCells(build: Builder, rows: seq<Record>, maxRows: nat, clicked: bool, invoke: Invoker, i: nat)
    requires Run(build, rows, maxRows, clicked, invoke).Success?
    requires i < Min(maxRows, |rows|)
    ensures build(FillRecord(rows[i])).Success?
    ensures i < |Run(build, rows, maxRows, clicked, invoke).value|
    ensures Run(build, rows, maxRows, clicked, invoke).value[i].Keys
      == rows[i].Keys + {PromptColumn} + (if clicked then {PredictionColumn} else {})
    ensures Run(build, rows, maxRows, clicked, invoke).value[i][PromptColumn]
      == Value(build(FillRecord(rows[i])).value)
    ensures forall c :: c in rows[i] && c != PromptColumn && c != PredictionColumn ==>
      Run(build, rows, maxRows, clicked, invoke).value[i][c] == FillRecord(rows[i])[c]
  {
    var kept := FirstRows(FillRows(rows), maxRows);
    var prompts := KeptPrompts(build, rows, maxRows).value;
    var prompted := SetColumn(kept, PromptColumn, prompts);
    var final := if clicked then SetColumn(prompted, PredictionColumn, Predictions(prompts, invoke)) else prompted;
    assert Run(build, rows, maxRows, clicked, invoke).value == final;
    assert kept[i] == FillRecord(rows[i]) && kept[i].Keys == rows[i].Keys;
    assert build(kept[i]) == Success(prompts[i]);
    assert prompted[i].Keys == rows[i].Keys + {PromptColumn};
    assert prompted[i][PromptColumn] == Value(prompts[i]);
    assert final[i][PromptColumn] == Value(prompts[i]);
    forall c | c in rows[i] && c != PromptColumn && c != PredictionColumn
      ensures final[i][c] == FillRecord(rows[i])[c]
    {
      assert prompted[i][c] == kept[i][c];
    }
  }

  /** After a run with the button pressed, row `i`'s `Prompt` is built (by
      `build`, in the script `create_prompt`) from the cleaned input row `i`, and its `Prediction` is the label of the
      reply to the `i`-th call, made with that prompt. */
  lemma RunAligned(build: Builder, rows: seq<Record>, maxRows: nat, invoke: Invoker, i: nat)
    requires RowCountInRange(maxRows, |rows|)
    requires Run(build, rows, maxRows, true, invoke).Success?
    requires i < maxRows
    ensures build(FillRecord(rows[i])).Success?
    ensures i < |Run(build, rows, maxRows, true, invoke).value|
    ensures PromptColumn in Run(build, rows, maxRows, true, invoke).value[i]
    ensures PredictionColumn in Run(build, rows, maxRows, true, invoke).value[i]
    ensures Run(build, rows, maxRows, true, invoke).value[i][PromptColumn]
      == Value(build(FillRecord(rows[i])).value)
    ensures Run(build, rows, maxRows, true, invoke).value[i][PredictionColumn]
      == Value(Render(LabelOf(invoke(i, build(FillRecord(rows[i])).value))))
  {
    var kept := FirstRows(FillRows(rows), maxRows);
    var prompts := KeptPrompts(build, rows, maxRows).value;
    var prompted := SetColumn(kept, PromptColumn, prompts);
    assert Run(build, rows, maxRows, true, invoke).value
        == SetColumn(prompted, PredictionColumn, Predictions(prompts, invoke));
    assert kept[i] == FillRecord(rows[i]);
    assert build(kept[i]) == Success(prompts[i]);
    PredictionsAt(prompts, invoke, i);
  }

  /** The run stops with a `KeyError` exactly when the table lacks a column
      the template reads. */
  lemma RunSchemaError(columns: set<string>, rows: seq<Record>, maxRows: nat, clicked: bool, invoke: Invoker)
    requires Rectangular(columns, rows) && RowCountInRange(maxRows, |rows|)
    ensures Run(RowPrompt, rows, maxRows, clicked, invoke).Failure? <==> !HasColumns(columns)
  {
    FillRowsClean(columns, rows);
    ApplyPromptSchema(columns, FirstRows(FillRows(rows), maxRows));
  }

  /** The error of a stopped run names a column the template reads and the
      table lacks. */
  lemma RunSchemaErrorNamesColumn(columns: set<string>, rows: seq<Record>, maxRows: nat, clicked: bool, invoke: Invoker)
    requires Rectangular(columns, rows) && RowCountInRange(maxRows, |rows|)
    requires Run(RowPrompt, rows, maxRows, clicked, invoke).Failure?
    ensures Run(RowPrompt, rows, maxRows, clicked, invoke).error !in columns
    ensures exists k :: 0 <= k < |Slots| && Slots[k].field == Run(RowPrompt, rows, maxRows, clicked, invoke).error
  {
    var kept := FirstRows(FillRows(rows), maxRows);
    var r := KeptPrompts(RowPrompt, rows, maxRows);
    var i :| 0 <= i < |kept| && RowPrompt(kept[i]) == Failure(r.error);
    FillRowsClean(columns, rows);
    assert kept[i].Keys == columns;
    RowPromptNamesColumn(kept[i]);
  }

  /** A run leaves no cell of the table missing. */
  lemma RunNoMissing(build: Builder, columns: set<string>, rows: seq<Record>, maxRows: nat, clicked: bool, invoke: Invoker)
    requires Rectangular(columns, rows) && RowCountInRange(maxRows, |rows|)
    requires Run(build, rows, maxRows, clicked, invoke).Success?
    ensures NoMissing(Run(build, rows, maxRows, clicked, invoke).value)
  {
    FillRowsClean(columns, rows);
    var kept := FirstRows(FillRows(rows), maxRows);
    assert NoMissing(kept);
    var prompts := KeptPrompts(build, rows, maxRows).value;
    SetColumnNoMissing(kept, PromptColumn, prompts);
    var prompted := SetColumn(kept, PromptColumn, prompts);
    if clicked {
      SetColumnNoMissing(prompted, PredictionColumn, Predictions(prompts, invoke));
    }
  }

  /** The closing instruction names the answer "drop": the word sits at
      offset 94, just before the final "'.". */
  lemma InstructionMentionsDrop()
    ensures |Instruction| == 100
    ensures Instruction == Instruction[..94] + DropWord + Instruction[98..]
  {
    assert Instruction[94] == 'd' && Instruction[95] == 'r';
    assert Instruction[96] == 'o' && Instruction[97] == 'p';
    assert Instruction[94..98] == DropWord;
    assert Instruction == Instruction[..94] + Instruction[94..98] + Instruction[98..];
  }

  /** A prompt is some text, the word "drop", and some more text. */
  lemma PromptAroundDrop(row: Row)
    requires HasFields(Slots, row)
    ensures CreatePrompt(row).value
      == (Fill(Slots, row).value + ". " + Instruction[..94]) + DropWord + Instruction[98..]
  {
    InstructionMentionsDrop();
    Regroup(Fill(Slots, row).value, ". ", Instruction[..94], DropWord, Instruction[98..]);
  }

  /** Every prompt mentions "drop" in its closing instruction: a runner that
      only echoed its input back would have every row labelled Drop. */
  lemma EchoedPromptIsDrop(row: Row)
    requires HasFields(Slots, row)
    ensures Classify(CreatePrompt(row).value) == Drop
  {
    PromptAroundDrop(row);
    DropWordIsDrop();
    DropAbsorbs(Fill(Slots, row).value + ". " + Instruction[..94], DropWord, Instruction[98..]);
  }

  /** The script on an uploaded frame: cleaning changes the uploaded frame
      in place; the rest works on the frame `df` that `head` returns. */
  method RunScript(upload: Frame, maxRows: nat, clicked: bool, invoke: Invoker)
      returns (df: Frame, schemaError: Option<string>)
    requires upload.Valid() && RowCountInRange(maxRows, |upload.rows|)
    modifies upload
    ensures upload.Valid() && upload.rows == FillRows(old(upload.rows))
    ensures fresh(df) && df.Valid()
    ensures schemaError.Some? <==> Run(RowPrompt, old(upload.rows), maxRows, clicked, invoke).Failure?
    ensures schemaError.Some? ==>
      schemaError.value == Run(RowPrompt, old(upload.rows), maxRows, clicked, invoke).error
      && df.rows == FirstRows(FillRows(old(upload.rows)), maxRows)
    ensures schemaError.None? ==> df.rows == Run(RowPrompt, old(upload.rows), maxRows, clicked, invoke).value
  {
    upload.FillNa();
    df := upload.Head(maxRows);
    var prompts := Apply(df.rows, RowPrompt);
    assert prompts == KeptPrompts(RowPrompt, old(upload.rows), maxRows);
    if prompts.Failure? {
      return df, Some(prompts.error);
    }
    df.Assign(PromptColumn, prompts.value);
    schemaError := None;
    if clicked {
      var results := PredictAll(prompts.value, invoke);
      df.Assign(PredictionColumn, results);
    }
  }
}
