/** `_parse_situational_tests`: the reply of the test generator, a sequence of
    `Ситуация N` blocks, becomes four-option multiple-choice questions; and
    the structure check `generate_test` applies to it. The regular
    expressions are oracles returning their matches. */
module Situational {
  import opened Wrappers
  import opened Text
  import opened Questions

  /** A match of `Вопрос:\s*(.+?)(?=Варианты ответов:)`: where it starts and its group. */
  datatype QuestionMatch = QuestionMatch(start: nat, text: string)

  /** The four groups of the `A) … B) … C) … D) …` match. */
  datatype OptionsMatch = OptionsMatch(a: string, b: string, c: string, d: string)

  /** The group of `Правильный ответ:\s*([A-D])`. */
  datatype Letter = A | B | C | D

  datatype SituationRegex = SituationRegex(
    splitSituations: string -> seq<string>,
    findQuestion: string -> Option<QuestionMatch>,
    findOptions: string -> Option<OptionsMatch>,
    findCorrect: string -> Option<Letter>)

  /** `letter_to_index`. */
  function Index(l: Letter): (i: nat)
    ensures i < 4
  {
    match l
    case A => 0
    case B => 1
    case C => 2
    case D => 3
  }

  /** `s[:n]`, which Python clamps to the string. */
  function Prefix(s: string, n: nat): string {
    if n <= |s| then s[..n] else s
  }

  /** One block: a question needs the question, the four options and the letter. */
  function ParseBlock(rx: SituationRegex, block: string): Option<Question> {
    match rx.findQuestion(block)
    case None => None
    case Some(qm) =>
      match rx.findOptions(block)
      case None => None
      case Some(om) =>
        match rx.findCorrect(block)
        case None => None
        case Some(letter) =>
          var options := [Strip(om.a), Strip(om.b), Strip(om.c), Strip(om.d)];
          Some(Question(Strip(Prefix(block, qm.start)) + "\n\n" + Strip(qm.text), options, options[Index(letter)]))
  }

  /** The questions of the blocks that give one: every question comes from
      a block (the converse is `ParseBlocksKeeps`). */
  function ParseBlocks(rx: SituationRegex, blocks: seq<string>): (qs: seq<Question>)
    ensures |qs| <= |blocks|
    ensures forall q | q in qs :: exists b | b in blocks :: ParseBlock(rx, b) == Some(q)
  {
    if blocks == [] then []
    else Listed(ParseBlock(rx, blocks[0])) + ParseBlocks(rx, blocks[1..])
  }

  /** Every block that gives a question contributes it. */
  lemma {:induction false} ParseBlocksKeeps(rx: SituationRegex, blocks: seq<string>, b: string)
    requires b in blocks && ParseBlock(rx, b).Some?
    ensures ParseBlock(rx, b).value in ParseBlocks(rx, blocks)
  {
    if blocks[0] != b {
      ParseBlocksKeeps(rx, blocks[1..], b);
    }
  }

  /** One turn of the parsing loop, as the questions collected see it. */
  lemma ParseStep(rx: SituationRegex, acc: seq<Question>, pending: seq<string>)
    requires pending != []
    ensures acc + ParseBlocks(rx, pending) == (acc + Listed(ParseBlock(rx, pending[0]))) + ParseBlocks(rx, pending[1..])
  {
  }

  /** What `_parse_situational_tests(response)` returns. */
  function ParseSpec(rx: SituationRegex, response: string): seq<Question> {
    ParseBlocks(rx, NonBlankStripped(rx.splitSituations(response)))
  }

  /** A question exists exactly when all three searches match; it is the text
      before the question match and the question, the stripped options, and
      the option the letter names. */
  lemma ParseBlockShape(rx: SituationRegex, block: string)
    ensures ParseBlock(rx, block).Some?
      <==> rx.findQuestion(block).Some? && rx.findOptions(block).Some? && rx.findCorrect(block).Some?
    ensures ParseBlock(rx, block).Some? ==>
      var q := ParseBlock(rx, block).value;
      var qm := rx.findQuestion(block).value;
      var om := rx.findOptions(block).value;
      q.question == Strip(Prefix(block, qm.start)) + "\n\n" + Strip(qm.text)
      && q.options == [Strip(om.a), Strip(om.b), Strip(om.c), Strip(om.d)]
      && q.correctAnswer == q.options[Index(rx.findCorrect(block).value)]
  {
  }

  predicate WellFormed(q: Question) {
    |q.options| == 4 && q.correctAnswer in q.options
  }

  /** Every question parsed has four options and its correct answer among them. */
  lemma {:induction false} ParsedWellFormed(rx: SituationRegex, blocks: seq<string>)
    ensures forall q | q in ParseBlocks(rx, blocks) :: WellFormed(q)
  {
    if blocks != [] {
      ParsedWellFormed(rx, blocks[1..]);
      ParseBlockShape(rx, blocks[0]);
    }
  }

  /** Questions come out in block order: parsing concatenated blocks parses each part in turn. */
  lemma {:induction false} ParseBlocksAppend(rx: SituationRegex, a: seq<string>, b: seq<string>)
    ensures ParseBlocks(rx, a + b) == ParseBlocks(rx, a) + ParseBlocks(rx, b)
    decreases |a|
  {
    if a == [] {
      assert a + b == b;
    } else {
      assert (a + b)[1..] == a[1..] + b;
      ParseBlocksAppend(rx, a[1..], b);
    }
  }

  /** The body of the loop over the blocks: each `continue` of the source
      is a return without a question. */
  method ParseSituation(rx: SituationRegex, block: string) returns (q: Option<Question>)
    ensures q == ParseBlock(rx, block)
  {
    var questionMatch := rx.findQuestion(block);
    if questionMatch.None? {
      return None;
    }
    var situationText := Strip(Prefix(block, questionMatch.value.start));
    var questionText := Strip(questionMatch.value.text);
    var fullQuestion := situationText + "\n\n" + questionText;
    var optionsMatch := rx.findOptions(block);
    if optionsMatch.None? {
      return None;
    }
    var om := optionsMatch.value;
    var options := [Strip(om.a), Strip(om.b), Strip(om.c), Strip(om.d)];
    var correctMatch := rx.findCorrect(block);
    if correctMatch.None? {
      return None;
    }
    return Some(Question(fullQuestion, options, options[Index(correctMatch.value)]));
  }

  /** `_parse_situational_tests`. */
  method ParseSituationalTests(rx: SituationRegex, response: string) returns (questions: seq<Question>)
    ensures questions == ParseSpec(rx, response)
  {
    questions := [];
    var pending := NonBlankStripped(rx.splitSituations(response));
    assert questions + ParseBlocks(rx, pending) == ParseSpec(rx, response);
    while pending != []
      invariant questions + ParseBlocks(rx, pending) == ParseSpec(rx, response)
      decreases |pending|
    {
      var q := ParseSituation(rx, pending[0]);
      ParseStep(rx, questions, pending);
      questions := questions + Listed(q);
      pending := pending[1..];
    }
    assert questions + [] == questions;
  }

  const WrongOptionCount: string := "Failed to generate test: Failed to parse test questions: Each question must have exactly 4 options"

  /** The check in `generate_test` (lines 321-325): every question needs its
      three keys, always present in a `Question`, and exactly four options. */
  method CheckStructure(questions: seq<Question>) returns (r: Result<seq<Question>>)
    ensures r == if forall i | 0 <= i < |questions| :: |questions[i].options| == 4 then Ok(questions) else Err(WrongOptionCount)
  {
    var i := 0;
    while i < |questions|
      invariant 0 <= i <= |questions|
      invariant forall j | 0 <= j < i :: |questions[j].options| == 4
    {
      if |questions[i].options| != 4 {
        return Err(WrongOptionCount);
      }
      i := i + 1;
    }
    return Ok(questions);
  }

  /** The structure check never rejects what the parser produced. */
  lemma ParsedPassesCheck(rx: SituationRegex, response: string)
    ensures var qs := ParseSpec(rx, response); forall i | 0 <= i < |qs| :: |qs[i].options| == 4
  {
    var qs := ParseSpec(rx, response);
    ParsedWellFormed(rx, NonBlankStripped(rx.splitSituations(response)));
    assert forall i | 0 <= i < |qs| :: qs[i] in qs;
  }
}
