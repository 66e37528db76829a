/**
 * `create_prompt`: one row of the cleaned table becomes one question for the
 * language model. The template is a fixed sequence of slots, each a piece of
 * literal text followed by the value of one named column, closed by a fixed
 * instruction. Looking up a column the row does not have raises `KeyError`,
 * and the f-string looks the columns up left to right, so the error names
 * the first absent column in template order.
 */
module Prompt {
  import opened Wrappers
  import opened Text

  /** A row as `create_prompt` sees it: column name to cell text. */
  type Row = map<string, string>

  /** Literal text, then the value of column `field`. */
  datatype Slot = Slot(lead: string, field: string)

  const Slots: seq<Slot> := [
    Slot("Patient ID: ", "Patient_ID"),
    Slot(". ", "Age"),
    Slot(" years old ", "Gender"),
    Slot(" of ", "Ethnicity"),
    Slot(" ethnicity. Education: ", "Education"),
    Slot(". Employment: ", "Employment"),
    Slot(". Medical history includes ", "Medical_History"),
    Slot(". Allergies: ", "Allergies"),
    Slot(". Comorbidities: ", "Comorbidities"),
    Slot(". Medication history: ", "Medication_History"),
    Slot(". Alcohol use: ", "Alcohol"),
    Slot(", Sleep: ", "Sleep"),
    Slot(", Exercise: ", "Exercise"),
    Slot(". Stress level is ", "Stress_Level"),
    Slot(" and motivation is ", "Motivation"),
    Slot(". Trial understanding: ", "Trial_Understanding"),
    Slot(". Personal goals: ", "Personal_Goals"),
    Slot(". Family support: ", "Family_Support"),
    Slot(", Transportation: ", "Transportation_Access")
  ]

  const Instruction: string :=
    "Based on this profile, will the patient drop out of the clinical trial? Reply only 'stay' or 'drop'."

  /** What follows the last column value. */
  const Closing: string := ". " + Instruction

  /** Every column the slots name is present in the row. */
  predicate HasFields(slots: seq<Slot>, row: Row) {
    forall i :: 0 <= i < |slots| ==> slots[i].field in row
  }

  /** Slot `k` is the first whose column the row lacks. */
  predicate FirstMissingAt(slots: seq<Slot>, row: Row, k: int) {
    0 <= k < |slots| && slots[k].field !in row
    && forall j :: 0 <= j < k ==> slots[j].field in row
  }

  /** The slots filled in from left to right: the concatenated text, or the
      `KeyError` of the first column that is absent. */
  function Fill(slots: seq<Slot>, row: Row): (r: Result<string>)
    ensures r.Success? <==> HasFields(slots, row)
    ensures r.Failure? ==>
      exists k {:trigger FirstMissingAt(slots, row, k)} ::
        FirstMissingAt(slots, row, k) && slots[k].field == r.error
  {
    if slots == [] then Success("")
    else if slots[0].field !in row then
      assert FirstMissingAt(slots, row, 0);
      Failure(slots[0].field)
    else
      match Fill(slots[1..], row)
      case Success(rest) => Success(slots[0].lead + row[slots[0].field] + rest)
      case Failure(e) =>
        var k :| FirstMissingAt(slots[1..], row, k) && slots[1..][k].field == e;
        assert FirstMissingAt(slots, row, k + 1);
        Failure(e)
  }

  /** `create_prompt(row)`. */
  function CreatePrompt(row: Row): (r: Result<string>)
    ensures r.Success? <==> HasFields(Slots, row)
    ensures r.Success? ==> |r.value| >= |Closing| && r.value[|r.value| - |Instruction|..] == Instruction
    ensures r.Failure? ==>
      exists k {:trigger FirstMissingAt(Slots, row, k)} ::
        FirstMissingAt(Slots, row, k) && Slots[k].field == r.error
  {
    match Fill(Slots, row)
    case Success(body) => Success(body + Closing)
    case Failure(e) => Failure(e)
  }

  /** Where slot `k`'s literal text starts in the filled-in text. */
  function Start(slots: seq<Slot>, row: Row, k: nat): nat
    requires HasFields(slots, row) && k <= |slots|
  {
    if k == 0 then 0
    else |slots[0].lead| + |row[slots[0].field]| + Start(slots[1..], row, k - 1)
  }

  /** The filled-in text is the slots' texts laid end to end in template
      order: slot `k`'s literal text and then its column's value sit at
      `Start(k)`, and slot `k + 1` begins right after them. */
  lemma {:induction false} FillLaysOutSlots(slots: seq<Slot>, row: Row, k: nat)
    requires HasFields(slots, row) && k < |slots|
    ensures OccursAt(Fill(slots, row).value, slots[k].lead + row[slots[k].field], Start(slots, row, k))
    ensures Start(slots, row, k + 1) == Start(slots, row, k) + |slots[k].lead| + |row[slots[k].field]|
    ensures Start(slots, row, |slots|) == |Fill(slots, row).value|
  {
    var head := slots[0].lead + row[slots[0].field];
    var rest := Fill(slots[1..], row).value;
    assert Fill(slots, row).value == head + rest;
    if k == 0 {
      if |slots| == 1 {
        assert rest == "";
      } else {
        FillLaysOutSlots(slots[1..], row, 0);
      }
    } else {
      FillLaysOutSlots(slots[1..], row, k - 1);
    }
  }

  /** For a row with every column, the prompt is the template filled in:
      each slot's text and value in order, then the closing instruction. */
  lemma PromptFieldsInOrder(row: Row, k: nat)
    requires HasFields(Slots, row) && k < |Slots|
    ensures OccursAt(CreatePrompt(row).value, Slots[k].lead + row[Slots[k].field], Start(Slots, row, k))
    ensures Start(Slots, row, k + 1) == Start(Slots, row, k) + |Slots[k].lead| + |row[Slots[k].field]|
    ensures Start(Slots, row, |Slots|) + |Closing| == |CreatePrompt(row).value|
    ensures CreatePrompt(row).value[Start(Slots, row, |Slots|)..] == Closing
  {
    FillLaysOutSlots(Slots, row, k);
  }

  /** The filled-in text opens with the first slot and the second slot's
      literal text. */
  lemma FillOpening(slots: seq<Slot>, row: Row)
    requires HasFields(slots, row) && |slots| >= 2
    ensures IsPrefix(slots[0].lead + row[slots[0].field] + slots[1].lead, Fill(slots, row).value)
  {
    var second := Fill(slots[1..], row).value;
    assert second == slots[1].lead + row[slots[1].field] + Fill(slots[2..], row).value by {
      assert slots[1..][1..] == slots[2..];
    }
    var w := slots[0].lead + row[slots[0].field] + slots[1].lead;
    assert Fill(slots, row).value == w + (row[slots[1].field] + Fill(slots[2..], row).value);
  }

  /** The prompt opens with the patient's identifier. */
  lemma PromptStartsWithId(row: Row)
    requires HasFields(Slots, row) && "Patient_ID" in row
    ensures IsPrefix("Patient ID: " + row["Patient_ID"] + ". ", CreatePrompt(row).value)
  {
    FillOpening(Slots, row);
    var w := "Patient ID: " + row["Patient_ID"] + ". ";
    var body := Fill(Slots, row).value;
    assert body[..|w|] == w;
    assert (body + Closing)[..|w|] == body[..|w|];
  }

  /** A schema error: a row without `Age` (but with `Patient_ID`) fails
      with the key `Age`. */
  lemma MissingAgeFails(row: Row)
    requires "Patient_ID" in row && "Age" !in row
    ensures CreatePrompt(row) == Failure("Age")
  {
    var r := CreatePrompt(row);
    assert !HasFields(Slots, row) by { assert Slots[1].field !in row; }
    var k :| FirstMissingAt(Slots, row, k) && Slots[k].field == r.error;
    assert Slots[0].field in row && Slots[1].field !in row;
    assert k == 1;
  }
}
