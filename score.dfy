/** `_parse_score` and `evaluate_answer`: the grade an LLM gives a free-text
    answer, read as the first standalone run of digits and clamped to 0..100.
    The search `\b(\d+)\b` is modelled exactly, for ASCII digits and for word
    characters that are ASCII letters, digits, `_` or Cyrillic letters. */
module Score {
  import opened Wrappers
  import opened Text
  import opened Cleaning

  /** A character of `\w`: in the Cyrillic block U+0400-U+04FF every code
      point is a letter except the thousands sign U+0482 and the combining
      marks U+0483-U+0489, which `\w` does not match. */
  predicate IsWordChar(c: char) {
    IsDigit(c) || ('a' <= c <= 'z') || ('A' <= c <= 'Z') || c == '_'
    || ('\U{0400}' <= c <= '\U{04FF}' && !('\U{0482}' <= c <= '\U{0489}'))
  }

  /** The end of the run of digits starting at `i`. */
  function RunEnd(s: string, i: nat): (j: nat)
    requires i <= |s|
    ensures i <= j <= |s| && (forall k | i <= k < j :: IsDigit(s[k])) && (j == |s| || !IsDigit(s[j]))
    decreases |s| - i
  {
    if i < |s| && IsDigit(s[i]) then RunEnd(s, i + 1) else i
  }

  /** The digits of the run starting at `i`. */
  function Run(s: string, i: nat): (d: string)
    requires i <= |s|
    ensures AllDigits(d) && d == s[i..RunEnd(s, i)]
  {
    s[i..RunEnd(s, i)]
  }

  /** `\b(\d+)\b` matches at `i`: a digit with no word character just before
      it, whose run of digits is not followed by a word character. Shorter
      runs from `i` end before a digit, so they never match. */
  predicate StandaloneAt(s: string, i: nat) {
    i < |s| && IsDigit(s[i]) && (i == 0 || !IsWordChar(s[i - 1]))
    && (RunEnd(s, i) == |s| || !IsWordChar(s[RunEnd(s, i)]))
  }

  /** `re.search`: the first position from `from` where the pattern matches. */
  function FindRun(s: string, from: nat): (r: Option<nat>)
    requires from <= |s|
    ensures r.Some? ==> from <= r.value < |s| && StandaloneAt(s, r.value)
    ensures forall j | from <= j < (if r.Some? then r.value else |s|) :: !StandaloneAt(s, j)
    decreases |s| - from
  {
    if from == |s| then None
    else if StandaloneAt(s, from) then Some(from)
    else FindRun(s, from + 1)
  }

  /** `min(score, 100)`. */
  function Clamp(v: nat): (c: nat)
    ensures c <= 100 && (v <= 100 ==> c == v) && (v > 100 ==> c == 100)
  {
    if v <= 100 then v else 100
  }

  /** The score read from an already stripped reply. */
  function ScoreOf(s: string): (score: nat)
    ensures score <= 100
  {
    match FindRun(s, 0)
    case None => 0
    case Some(i) => Clamp(DigitsValue(Run(s, i)))
  }

  /** `_parse_score(response_text)`. */
  function ParseScore(response: string): (score: nat)
    ensures score <= 100
  {
    ScoreOf(Strip(response))
  }

  lemma AllDigitsStripped(s: string)
    requires AllDigits(s)
    ensures Strip(s) == s
  {
    if s != [] {
      assert !IsSpace(s[0]) && !IsSpace(s[|s| - 1]);
      assert LStrip(s) == s;
    }
  }

  /** A reply made only of digits scores their value, capped at 100. */
  lemma ScoreOfDigits(s: string)
    requires |s| >= 1 && AllDigits(s)
    ensures ParseScore(s) == Clamp(DigitsValue(s))
  {
    AllDigitsStripped(s);
    DigitsScore(s);
  }

  lemma DigitsScore(s: string)
    requires |s| >= 1 && AllDigits(s)
    ensures ScoreOf(s) == Clamp(DigitsValue(s))
  {
    RunEndOfDigits(s, 0);
    assert StandaloneAt(s, 0);
    assert Run(s, 0) == s;
  }

  /** A reply that is just a number gives that number, capped at 100. */
  lemma ScoreOfNumeral(n: nat)
    ensures ParseScore(NatToString(n)) == Clamp(n)
  {
    ScoreOfDigits(NatToString(n));
    DigitsValueOfNatToString(n);
  }

  lemma {:induction false} RunEndOfDigits(s: string, i: nat)
    requires i <= |s| && AllDigits(s)
    ensures RunEnd(s, i) == |s|
    decreases |s| - i
  {
    if i < |s| { RunEndOfDigits(s, i + 1); }
  }

  /** A digit-free reply scores 0. */
  lemma NoDigitsScoresZero(response: string)
    requires forall i | 0 <= i < |response| :: !IsDigit(response[i])
    ensures ParseScore(response) == 0
  {
    var s := Strip(response);
    var r := LStrip(response);
    assert forall i | 0 <= i < |s| :: s[i] == response[|response| - |r| + i];
  }

  // ---------------------------------------------------------------------------
  // `evaluate_answer` around the parser (lines 107-123)

  const EvaluationFailed: string := "Failed to evaluate answer: "
  const EmptyReply: string := "LLM returned empty response"
  /** What `response.choices[0]` raises when there is no choice. */
  const NoChoice: string := "list index out of range"

  /** The grade for the reply of the evaluation call. */
  function EvaluateAnswer(reply: ChatReply): Result<nat> {
    match reply
    case ApiFailed(d) => Err(EvaluationFailed + d)
    case Choices(contents) =>
      if |contents| == 0 then Err(EvaluationFailed + NoChoice)
      else if contents[0].None? || contents[0].value == "" then Err(EvaluationFailed + EmptyReply)
      else Ok(ParseScore(Strip(contents[0].value)))
  }

  /** A grade exists exactly when the first choice has content, and it is in 0..100. */
  lemma EvaluateOutcome(reply: ChatReply)
    ensures var r := EvaluateAnswer(reply);
      (r.Ok? <==> reply.Choices? && |reply.contents| > 0 && reply.contents[0].Some? && reply.contents[0].value != "")
      && (r.Ok? ==> r.value <= 100 && r.value == ParseScore(reply.contents[0].value))
  {
    if EvaluateAnswer(reply).Ok? {
      StripIdempotent(reply.contents[0].value);
    }
  }
}
