/**
 * The prediction loop: each prompt, in row order, is handed to the model
 * runner; a run that completes has its standard output classified, a run
 * that raises (a timeout, for one) is recorded as an error for that row
 * alone, and the loop goes on with the next prompt.
 */
module Predict {
  import opened Text
  import opened Classifier

  /** What one call of the model runner gives back: the standard output of
      a run that finished (whatever its exit status), or the message of the
      exception the call raised. */
  datatype Reply = Completed(stdout: string) | Raised(msg: string)

  /** The model runner, seen from the loop: the reply to the `k`-th call,
      made with `prompt`. The call number lets each call answer differently. */
  type Invoker = (nat, string) -> Reply

  /** The label a reply earns: an error label, with the exception's message,
      exactly when the call raised. */
  function LabelOf(reply: Reply): (l: Label)
    ensures l.Error? <==> reply.Raised?
    ensures l.Error? ==> l.msg == reply.msg
  {
    match reply
    case Completed(out) => Classify(out)
    case Raised(msg) => Error(msg)
  }

  /** The list a loop builds by appending `entry(k, prompts[k])` for each
      prompt in turn: the list for all but the last prompt, then the last
      one's entry. */
  function Appended(prompts: seq<string>, entry: (nat, string) -> string): (results: seq<string>)
    ensures |results| == |prompts|
    decreases |prompts|
  {
    if prompts == [] then []
    else
      var n := |prompts| - 1;
      Appended(prompts[..n], entry) + [entry(n, prompts[n])]
  }

  /** Entry `i` of such a list is the entry of the `i`-th prompt. */
  lemma {:induction false} AppendedAt(prompts: seq<string>, entry: (nat, string) -> string, i: nat)
    requires i < |prompts|
    ensures Appended(prompts, entry)[i] == entry(i, prompts[i])
    decreases |prompts|
  {
    var n := |prompts| - 1;
    var front := prompts[..n];
    assert Appended(prompts, entry) == Appended(front, entry) + [entry(n, prompts[n])];
    if i < n {
      assert front[i] == prompts[i];
      AppendedAt(front, entry, i);
    }
  }

  /** What the loop records for the `k`-th call, made with `prompt`. */
  function Outcomes(invoke: Invoker): (nat, string) -> string {
    (k: nat, prompt: string) => Render(LabelOf(invoke(k, prompt)))
  }

  /** The result list after the loop has handled `prompts`. */
  function Predictions(prompts: seq<string>, invoke: Invoker): (results: seq<string>)
    ensures |results| == |prompts|
  {
    Appended(prompts, Outcomes(invoke))
  }

  /** The result at position `i` is the label of the reply to the `i`-th
      call, made with the `i`-th prompt. */
  lemma PredictionsAt(prompts: seq<string>, invoke: Invoker, i: nat)
    requires i < |prompts|
    ensures Predictions(prompts, invoke)[i] == Render(LabelOf(invoke(i, prompts[i])))
  {
    AppendedAt(prompts, Outcomes(invoke), i);
  }

  /** The pointwise reading of the result list. */
  lemma PredictionsPointwise(prompts: seq<string>, invoke: Invoker)
    ensures forall i :: 0 <= i < |prompts| ==>
      Predictions(prompts, invoke)[i] == Render(LabelOf(invoke(i, prompts[i])))
  {
    forall i | 0 <= i < |prompts|
      ensures Predictions(prompts, invoke)[i] == Render(LabelOf(invoke(i, prompts[i])))
    {
      PredictionsAt(prompts, invoke, i);
    }
  }

  /** Handling more prompts never changes the results already recorded. */
  lemma PredictionsPrefix(prompts: seq<string>, invoke: Invoker, k: nat)
    requires k <= |prompts|
    ensures Predictions(prompts[..k], invoke) == Predictions(prompts, invoke)[..k]
  {
    PredictionsPointwise(prompts[..k], invoke);
    PredictionsPointwise(prompts, invoke);
  }

  /** A call that raises costs its own row a verdict and nothing else: two
      runners that agree on every other call give the same results at every
      other row, and that row reads "Error: " and the message. */
  lemma FailureIsolated(prompts: seq<string>, invoke: Invoker, other: Invoker, j: nat, msg: string)
    requires j < |prompts| && invoke(j, prompts[j]) == Raised(msg)
    requires forall i :: 0 <= i < |prompts| && i != j ==> invoke(i, prompts[i]) == other(i, prompts[i])
    ensures Predictions(prompts, invoke)[j] == ErrorPrefix + msg
    ensures forall i :: 0 <= i < |prompts| && i != j ==>
      Predictions(prompts, invoke)[i] == Predictions(prompts, other)[i]
  {
    PredictionsPointwise(prompts, invoke);
    PredictionsPointwise(prompts, other);
  }

  /** With a runner stubbed to print the same text on every call, every row
      gets the label of that text. */
  lemma FixedOutputSameLabel(prompts: seq<string>, invoke: Invoker, out: string)
    requires forall i :: 0 <= i < |prompts| ==> invoke(i, prompts[i]) == Completed(out)
    ensures forall i :: 0 <= i < |prompts| ==> Predictions(prompts, invoke)[i] == Render(Classify(out))
  {
    PredictionsPointwise(prompts, invoke);
  }

  /** The body of the loop for a run that completed: trim and lower-case
      the output, then look for "drop", then for "stay". */
  method Verdict(stdout: string) returns (entry: string)
    ensures entry == Render(Classify(stdout))
  {
    var output := Normalize(stdout);
    if Contains(output, DropWord) {
      entry := "Drop";
    } else if Contains(output, StayWord) {
      entry := "Stay";
    } else {
      entry := "Uncertain";
    }
  }

  /** The loop of the script: one call per prompt, in order, each outcome
      appended to `results`. */
  method PredictAll(prompts: seq<string>, invoke: Invoker) returns (results: seq<string>)
    ensures results == Predictions(prompts, invoke)
    ensures |results| == |prompts|
  {
    results := [];
    for k := 0 to |prompts|
      invariant results == Predictions(prompts[..k], invoke)
      invariant |results| == k
    {
      var prompt := prompts[k];
      var entry: string;
      match invoke(k, prompt) {
        case Completed(stdout) =>
          entry := Verdict(stdout);
        case Raised(e) =>
          entry := ErrorPrefix + e;
      }
      assert entry == Outcomes(invoke)(k, prompt);
      assert prompts[..k + 1][..k] == prompts[..k];
      assert Appended(prompts[..k + 1], Outcomes(invoke))
          == Appended(prompts[..k], Outcomes(invoke)) + [entry];
      results := results + [entry];
    }
    assert prompts[..|prompts|] == prompts;
  }
}
