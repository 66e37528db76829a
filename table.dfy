/**
 * The uploaded table (a pandas DataFrame): rows of cells keyed by column
 * name. The script cleans it in place (`fillna("Unknown", inplace=True)`),
 * replaces it by its first rows (`df = df.head(max_rows)`) and adds the
 * `Prompt` and `Prediction` columns by assignment.
 */
module Table {
  import opened Wrappers
  import opened Prompt

  /** A cell as read from the file: empty (pandas' NaN) or some text. */
  datatype Cell = Missing | Value(text: string)

  type Record = map<string, Cell>

  const Unknown: string := "Unknown"

  function Min(a: int, b: int): int {
    if a <= b then a else b
  }

  /** Every row has exactly the table's columns. */
  predicate Rectangular(columns: set<string>, rows: seq<Record>) {
    forall i :: 0 <= i < |rows| ==> rows[i].Keys == columns
  }

  /** No cell of any row is missing. */
  predicate NoMissing(rows: seq<Record>) {
    forall i, c :: 0 <= i < |rows| && c in rows[i] ==> rows[i][c].Value?
  }

  /** One row after `fillna("Unknown")`: the same columns, no missing cell,
      every cell that had a value keeps it, every missing one reads
      "Unknown". */
  function FillRecord(r: Record): (f: Record)
    ensures f.Keys == r.Keys
    ensures forall c :: c in f ==> f[c].Value?
    ensures forall c :: c in r && r[c].Value? ==> f[c] == r[c]
    ensures forall c :: c in r && r[c].Missing? ==> f[c] == Value(Unknown)
  {
    map c | c in r :: if r[c].Missing? then Value(Unknown) else r[c]
  }

  function FillRows(rows: seq<Record>): (filled: seq<Record>)
    ensures |filled| == |rows|
    ensures forall i :: 0 <= i < |rows| ==> filled[i] == FillRecord(rows[i])
  {
    seq(|rows|, i requires 0 <= i < |rows| => FillRecord(rows[i]))
  }

  /** Cleaning keeps the shape of the table and leaves no cell missing. */
  lemma FillRowsClean(columns: set<string>, rows: seq<Record>)
    requires Rectangular(columns, rows)
    ensures Rectangular(columns, FillRows(rows)) && NoMissing(FillRows(rows))
  {
  }

  /** `rows.head(n)`: the first `n` rows, or all of them when there are
      fewer, in their original order. */
  function FirstRows(rows: seq<Record>, n: nat): (h: seq<Record>)
    ensures |h| == Min(n, |rows|)
    ensures forall i :: 0 <= i < |h| ==> h[i] == rows[i]
  {
    rows[..Min(n, |rows|)]
  }

  /** The text `create_prompt` reads from a cell. A missing cell would read
      as pandas' "nan"; after cleaning none is left. */
  function TextOf(c: Cell): string {
    match c
    case Missing => "nan"
    case Value(t) => t
  }

  /** The row handed to `create_prompt`. */
  function AsRow(r: Record): (row: Row)
    ensures row.Keys == r.Keys
    ensures forall c :: c in r && r[c].Value? ==> row[c] == r[c].text
    ensures forall c :: c in r && r[c].Missing? ==> row[c] == "nan"
  {
    map c | c in r :: TextOf(r[c])
  }

  /** `df[name] = values`: every row gets the value at its own position. */
  function SetColumn(rows: seq<Record>, name: string, values: seq<string>): (r: seq<Record>)
    requires |values| == |rows|
    ensures |r| == |rows|
    ensures forall i :: 0 <= i < |rows| ==> r[i].Keys == rows[i].Keys + {name}
    ensures forall i :: 0 <= i < |rows| ==> r[i][name] == Value(values[i])
    ensures forall i, c :: 0 <= i < |rows| && c in rows[i] && c != name ==> r[i][c] == rows[i][c]
  {
    seq(|rows|, i requires 0 <= i < |rows| => rows[i][name := Value(values[i])])
  }

  /** Assigning a column leaves no cell missing in a table that had none. */
  lemma SetColumnNoMissing(rows: seq<Record>, name: string, values: seq<string>)
    requires |values| == |rows| && NoMissing(rows)
    ensures NoMissing(SetColumn(rows, name, values))
  {
    var r: seq<Record> := SetColumn(rows, name, values);
    forall i, c | 0 <= i < |r| && c in r[i] ensures r[i][c].Value? {
      if c != name {
        assert c in rows[i];
      }
    }
  }

  /** `df.apply(f, axis=1)` for a row function `f` that may raise: one
      result per row, in row order, or the exception of the first row on
      which `f` raises. */
  function Apply(rows: seq<Record>, f: Record -> Result<string>): (r: Result<seq<string>>)
    ensures r.Success? ==> |r.value| == |rows|
    ensures r.Success? ==> forall i :: 0 <= i < |rows| ==> f(rows[i]) == Success(r.value[i])
    ensures r.Failure? ==>
      exists i :: 0 <= i < |rows| && f(rows[i]) == Failure(r.error)
        && (forall j :: 0 <= j < i ==> f(rows[j]).Success?)
  {
    if rows == [] then Success([])
    else
      match f(rows[0])
      case Failure(e) => Failure(e)
      case Success(p) =>
        match Apply(rows[1..], f)
        case Failure(e) =>
          var i :| 0 <= i < |rows[1..]| && f(rows[1..][i]) == Failure(e)
            && (forall j :: 0 <= j < i ==> f(rows[1..][j]).Success?);
          assert f(rows[i + 1]) == Failure(e);
          assert forall j :: 0 <= j < i + 1 ==> f(rows[j]).Success? by {
            forall j | 0 <= j < i + 1 ensures f(rows[j]).Success? {
              if j > 0 {
                assert rows[j] == rows[1..][j - 1];
              }
            }
          }
          Failure(e)
        case Success(ps) => Success([p] + ps)
  }

  /** `create_prompt` on a row of the table. */
  function RowPrompt(r: Record): Result<string> {
    CreatePrompt(AsRow(r))
  }

  /** The table has every column the template reads. */
  predicate HasColumns(columns: set<string>) {
    forall k :: 0 <= k < |Slots| ==> Slots[k].field in columns
  }

  /** A row's prompt can be built exactly when its columns include every
      column the template reads. */
  lemma RowPromptSchema(r: Record)
    ensures RowPrompt(r).Success? <==> HasColumns(r.Keys)
  {
    assert AsRow(r).Keys == r.Keys;
  }

  /** A row whose prompt cannot be built fails on a column the template
      reads and the row lacks. */
  lemma RowPromptNamesColumn(r: Record)
    requires RowPrompt(r).Failure?
    ensures RowPrompt(r).error !in r.Keys
    ensures exists k :: 0 <= k < |Slots| && Slots[k].field == RowPrompt(r).error
  {
    var row := AsRow(r);
    var k :| FirstMissingAt(Slots, row, k) && Slots[k].field == RowPrompt(r).error;
  }

  /** On a non-empty table, building the prompts fails exactly when a column
      the template reads is absent: a schema error, the same for every row. */
  lemma ApplyPromptSchema(columns: set<string>, rows: seq<Record>)
    requires Rectangular(columns, rows) && |rows| >= 1
    ensures Apply(rows, RowPrompt).Success? <==> HasColumns(columns)
  {
    RowPromptSchema(rows[0]);
    if HasColumns(columns) {
      forall i | 0 <= i < |rows| ensures RowPrompt(rows[i]).Success? {
        RowPromptSchema(rows[i]);
      }
      ApplyTotal(rows, RowPrompt);
    }
  }

  /** `apply` succeeds when `f` succeeds on every row. */
  lemma {:induction false} ApplyTotal(rows: seq<Record>, f: Record -> Result<string>)
    requires forall i :: 0 <= i < |rows| ==> f(rows[i]).Success?
    ensures Apply(rows, f).Success?
  {
    if rows != [] {
      ApplyTotal(rows[1..], f);
    }
  }

  /** The DataFrame, updated in place. */
  class Frame {
    var columns: set<string>
    var rows: seq<Record>

    ghost predicate Valid()
      reads this
    {
      Rectangular(columns, rows)
    }

    /** The table as read from the uploaded file. */
    constructor (columns: set<string>, rows: seq<Record>)
      requires Rectangular(columns, rows)
      ensures Valid() && this.columns == columns && this.rows == rows
    {
      this.columns := columns;
      this.rows := rows;
    }

    /** `df.fillna("Unknown", inplace=True)`. */
    method FillNa()
      requires Valid()
      modifies this
      ensures Valid() && NoMissing(rows)
      ensures columns == old(columns) && rows == FillRows(old(rows))
    {
      FillRowsClean(columns, rows);
      rows := FillRows(rows);
    }

    /** `df.head(n)`: a new frame holding the first rows; this one is left
        as it is. */
    method Head(n: nat) returns (h: Frame)
      requires Valid()
      ensures fresh(h) && h.Valid()
      ensures h.columns == columns && h.rows == FirstRows(rows, n)
    {
      h := new Frame(columns, FirstRows(rows, n));
    }

    /** `df[name] = values`, for a list as long as the table. */
    method Assign(name: string, values: seq<string>)
      requires Valid() && |values| == |rows|
      modifies this
      ensures Valid()
      ensures columns == old(columns) + {name}
      ensures rows == SetColumn(old(rows), name, values)
    {
      rows := SetColumn(rows, name, values);
      columns := columns + {name};
    }
  }
}
