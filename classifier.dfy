/**
 * The reply classifier of the prediction loop: the runner's standard output
 * is trimmed and lower-cased, then a first-match substring policy picks the
 * label ("drop" is looked for first, then "stay"). The label is stored in the
 * table's `Prediction` column as text; an invocation that raised is stored as
 * "Error: " followed by the exception's message.
 */
module Classifier {
  import opened Text

  datatype Label = Stay | Drop | Uncertain | Error(msg: string)

  const DropWord: string := "drop"
  const StayWord: string := "stay"
  const ErrorPrefix: string := "Error: "

  /** `output.strip().lower()`. */
  function Normalize(output: string): (r: string)
    ensures |r| <= |output|
    ensures r == [] || (!IsSpace(r[0]) && !IsSpace(r[|r| - 1]))
    ensures forall i :: 0 <= i < |r| ==> !('A' <= r[i] <= 'Z')
  {
    var t := Strip(output);
    LowerEnds(t);
    Lower(t)
  }

  /** The normalized output is the lower-cased output stripped: the part of
      it between the leading and the trailing whitespace. */
  lemma NormalizeStripsLower(output: string)
    ensures IsStripOf(Lower(output), |output| - |TrimStart(output)|, Normalize(output))
  {
    LowerStrip(output);
    LowerTrimStart(output);
  }

  /** The label for a completed run whose standard output was `output`. The
      classifier never produces an error label. */
  function Classify(output: string): (l: Label)
    ensures l == Drop || l == Stay || l == Uncertain
  {
    FirstMatch(Normalize(output))
  }

  /** The first-match policy on a normalized reply: "drop" is looked for
      first, then "stay". */
  function FirstMatch(reply: string): (l: Label)
    ensures l == Drop || l == Stay || l == Uncertain
  {
    if Contains(reply, DropWord) then Drop
    else if Contains(reply, StayWord) then Stay
    else Uncertain
  }

  /** The text appended to the result list for a label. */
  function Render(l: Label): (s: string)
    ensures s != []
  {
    match l
    case Stay => "Stay"
    case Drop => "Drop"
    case Uncertain => "Uncertain"
    case Error(msg) => ErrorPrefix + msg
  }

  /** Reads a `Prediction` cell back into a label. */
  function Parse(s: string): Label {
    if s == "Stay" then Stay
    else if s == "Drop" then Drop
    else if s == "Uncertain" then Uncertain
    else if |ErrorPrefix| <= |s| && s[..|ErrorPrefix|] == ErrorPrefix then Error(s[|ErrorPrefix|..])
    else Uncertain
  }

  /** The `Prediction` column loses nothing: every label can be read back
      from its text, so an error text can never be mistaken for a verdict. */
  lemma ParseRender(l: Label)
    ensures Parse(Render(l)) == l
  {
    if l.Error? {
      var s := Render(l);
      assert s[..|ErrorPrefix|] == ErrorPrefix;
      assert s != "Stay" && s != "Drop" by {
        assert s[0] == 'E';
      }
      assert s != "Uncertain" by {
        assert s[0] == 'E';
      }
      assert s[|ErrorPrefix|..] == l.msg;
    }
  }

  /** Different labels never share a `Prediction` text. */
  lemma RenderInjective(l1: Label, l2: Label)
    requires Render(l1) == Render(l2)
    ensures l1 == l2
  {
    ParseRender(l1);
    ParseRender(l2);
  }

  /** Neither word holds whitespace. */
  lemma NoSpaceWords()
    ensures NoSpace(DropWord) && NoSpace(StayWord)
  {
  }

  /** Drop is decided by the lower-cased output alone: the surrounding
      whitespace plays no part, since "drop" holds none. */
  lemma ClassifyDropIff(output: string)
    ensures Classify(output) == Drop <==> Contains(Lower(output), DropWord)
  {
    NoSpaceWords();
    ContainsLowerStrip(output, DropWord);
  }

  /** Stay exactly when "drop" is absent and "stay" is present. */
  lemma ClassifyStayIff(output: string)
    ensures Classify(output) == Stay
        <==> !Contains(Lower(output), DropWord) && Contains(Lower(output), StayWord)
  {
    NoSpaceWords();
    ContainsLowerStrip(output, DropWord);
    ContainsLowerStrip(output, StayWord);
  }

  /** Uncertain exactly when neither word is present. */
  lemma ClassifyUncertainIff(output: string)
    ensures Classify(output) == Uncertain
        <==> !Contains(Lower(output), DropWord) && !Contains(Lower(output), StayWord)
  {
    NoSpaceWords();
    ContainsLowerStrip(output, DropWord);
    ContainsLowerStrip(output, StayWord);
  }

  /** Looking for a word without whitespace in `output.strip().lower()` is
      the same as looking for it in `output.lower()`. */
  lemma ContainsLowerStrip(output: string, w: string)
    requires NoSpace(w)
    ensures Contains(Normalize(output), w) <==> Contains(Lower(output), w)
  {
    LowerStrip(output);
    ContainsStrip(Lower(output), w);
  }

  /** Once "drop" appears, no text added before or after the reply changes
      the verdict: any mention of "drop", even "will not drop", is a Drop. */
  lemma DropAbsorbs(before: string, output: string, after: string)
    requires Classify(output) == Drop
    ensures Classify(before + output + after) == Drop
  {
    ClassifyDropIff(output);
    ContainsExtend(Lower(before), Lower(output), Lower(after), DropWord);
    LowerAppend(before, output);
    LowerAppend(before + output, after);
    ClassifyDropIff(before + output + after);
  }

  /** Trimming and lower-casing an answer wrapped in whitespace leaves the
      lower-cased answer, provided it neither starts nor ends with space. */
  lemma NormalizeAround(lead: string, answer: string, trail: string)
    requires AllSpace(lead) && AllSpace(trail) && |answer| >= 1
    requires !IsSpace(Lower(answer)[0]) && !IsSpace(Lower(answer)[|answer| - 1])
    ensures Normalize(lead + answer + trail) == Lower(answer)
  {
    LowerKeepsSpace(answer);
    StripAround(lead, answer, trail);
  }

  /** A reply that normalizes to one of the two words gets that word's label. */
  lemma ClassifyWord(output: string)
    requires Normalize(output) == DropWord || Normalize(output) == StayWord
    ensures Classify(output) == (if Normalize(output) == DropWord then Drop else Stay)
  {
    FirstMatchWord(Normalize(output));
  }

  /** The first-match policy on one of the two words alone. */
  lemma FirstMatchWord(n: string)
    requires n == DropWord || n == StayWord
    ensures FirstMatch(n) == (if n == DropWord then Drop else Stay)
  {
    if n == DropWord {
      assert IsPrefix(DropWord, n);
    } else {
      StayIsNotDrop();
      assert IsPrefix(StayWord, n);
    }
  }

  /** A reply that is one of the two instructed answers, in any case and with
      any surrounding whitespace, gets that answer's label. */
  lemma ClassifyInstructedAnswer(lead: string, answer: string, trail: string)
    requires AllSpace(lead) && AllSpace(trail)
    requires Lower(answer) == StayWord || Lower(answer) == DropWord
    ensures Classify(lead + answer + trail) == (if Lower(answer) == DropWord then Drop else Stay)
  {
    var w := Lower(answer);
    assert !IsSpace(w[0]) && !IsSpace(w[3]);
    NormalizeAround(lead, answer, trail);
    ClassifyWord(lead + answer + trail);
  }

  /** The bare word "drop" is a Drop. */
  lemma DropWordIsDrop()
    ensures Classify(DropWord) == Drop
  {
    assert Lower(DropWord) == DropWord;
    assert IsPrefix(DropWord, DropWord);
    ClassifyDropIff(DropWord);
  }

  /** The two words differ, so an exact "stay" holds no "drop". */
  lemma StayIsNotDrop()
    ensures !Contains(StayWord, DropWord)
  {
    ContainsIffOccurs(StayWord, DropWord);
    assert !OccursAt(StayWord, DropWord, 0) by {
      assert StayWord[0] != DropWord[0];
    }
  }

  /** Drop takes precedence over Stay in a reply that mentions both. */
  lemma ClassifyMixedReply()
    ensures Classify("i think they will stay but might drop") == Drop
  {
    var s := "i think they will stay but might drop";
    assert s == "i think they will stay but might " + DropWord + "";
    assert Contains(DropWord, DropWord) by { assert IsPrefix(DropWord, DropWord); }
    ContainsExtend("i think they will stay but might ", DropWord, "", DropWord);
    LowerWithoutCapitals(s);
    ClassifyDropIff(s);
  }

  /** Lower-casing leaves text without capitals as it is. */
  lemma LowerWithoutCapitals(s: string)
    requires forall i :: 0 <= i < |s| ==> !('A' <= s[i] <= 'Z')
    ensures Lower(s) == s
  {
  }

  /** An upper-case answer wrapped in whitespace is a Stay. */
  lemma ClassifyShoutedStay()
    ensures Classify("  STAY\n") == Stay
  {
    assert "  STAY\n" == "  " + "STAY" + "\n";
    assert Lower("STAY") == StayWord;
    ClassifyInstructedAnswer("  ", "STAY", "\n");
  }

  /** An empty reply is Uncertain. */
  lemma ClassifyEmpty()
    ensures Classify("") == Uncertain
  {
    var empty: string := [];
    assert Lower(empty) == empty;
    assert !IsPrefix(DropWord, empty) && !IsPrefix(StayWord, empty);
    ClassifyUncertainIff(empty);
  }
}
