/** `_parse_case_questions`: `ВОПРОС n` / `ОТВЕТ n` pairs read from the reply
    of the case-question generator, by a primary strategy on `---`-separated
    blocks and a fallback on `ВОПРОС n` headers; and the checks
    `generate_case_questions` makes around it. The regular expressions are
    oracles returning their matches. */
module CaseQuestions {
  import opened Wrappers
  import opened Text
  import opened Cleaning

  datatype Pair = Pair(question: string, answer: string)

  datatype CaseRegex = CaseRegex(
    /** `re.split(r'\n---+\n', ·)` */
    splitBlocks: string -> seq<string>,
    /** the two groups of `ВОПРОС\s+\d+\s*\n(.+?)\n\s*ОТВЕТ\s+\d+\s*\n(.+)`, ignoring case */
    findPair: string -> Option<Pair>,
    /** `re.split(r'ВОПРОС\s+\d+', ·)`, ignoring case */
    splitHeaders: string -> seq<string>,
    /** the group of `ОТВЕТ\s+\d+\s*\n(.+)`, ignoring case */
    findAnswer: string -> Option<string>,
    /** `re.sub(r'ОТВЕТ\s+\d+.*', '', ·)`, ignoring case */
    dropAnswer: string -> string)

  /** The primary strategy on one block (lines 207-226). */
  function PrimaryBlock(rx: CaseRegex, block: string): Option<Pair> {
    var b := Strip(block);
    if b == "" then None
    else match rx.findPair(b)
      case None => None
      case Some(p) => Some(Pair(Strip(p.question), Strip(p.answer)))
  }

  /** The pairs of the blocks that give one: every pair comes from a block,
      and every block that gives a pair contributes it. */
  function Primary(rx: CaseRegex, blocks: seq<string>): (ps: seq<Pair>)
    ensures |ps| <= |blocks|
    ensures forall p | p in ps :: exists b | b in blocks :: PrimaryBlock(rx, b) == Some(p)
    ensures forall b | b in blocks && PrimaryBlock(rx, b).Some? :: PrimaryBlock(rx, b).value in ps
  {
    if blocks == [] then [] else Listed(PrimaryBlock(rx, blocks[0])) + Primary(rx, blocks[1..])
  }

  /** The fallback strategy on one part after a header (lines 238-249). */
  function FallbackPart(rx: CaseRegex, part: string): Option<Pair> {
    match rx.findAnswer(part)
    case None => None
    case Some(a) =>
      var q := Strip(rx.dropAnswer(part));
      var ans := Strip(a);
      if q != "" && ans != "" then Some(Pair(q, ans)) else None
  }

  /** The pairs of the parts that give one: every pair comes from a part,
      and every part that gives a pair contributes it. */
  function Fallback(rx: CaseRegex, parts: seq<string>): (ps: seq<Pair>)
    ensures |ps| <= |parts|
    ensures forall p | p in ps :: exists q | q in parts :: FallbackPart(rx, q) == Some(p)
    ensures forall q | q in parts && FallbackPart(rx, q).Some? :: FallbackPart(rx, q).value in ps
  {
    if parts == [] then [] else Listed(FallbackPart(rx, parts[0])) + Fallback(rx, parts[1..])
  }

  function PrimaryPairs(rx: CaseRegex, response: string): seq<Pair> {
    Primary(rx, rx.splitBlocks(Strip(response)))
  }

  function FallbackPairs(rx: CaseRegex, response: string): seq<Pair> {
    Fallback(rx, NonBlankStripped(rx.splitHeaders(response)))
  }

  /** What `_parse_case_questions(response)` returns. */
  function ParseSpec(rx: CaseRegex, response: string): seq<Pair> {
    var primary := PrimaryPairs(rx, response);
    if primary != [] then primary else FallbackPairs(rx, response)
  }

  predicate IsStripped(p: Pair) {
    Strip(p.question) == p.question && Strip(p.answer) == p.answer
  }

  /** A block gives a pair exactly when it is not blank and the pattern
      matches its stripped text; the pair is the two groups, stripped. */
  lemma PrimaryBlockShape(rx: CaseRegex, block: string)
    ensures PrimaryBlock(rx, block).Some? <==> Strip(block) != "" && rx.findPair(Strip(block)).Some?
    ensures PrimaryBlock(rx, block).Some? ==> IsStripped(PrimaryBlock(rx, block).value)
  {
    if PrimaryBlock(rx, block).Some? {
      var p := rx.findPair(Strip(block)).value;
      StripIdempotent(p.question);
      StripIdempotent(p.answer);
    }
  }

  /** A fallback pair has a non-empty, stripped question and answer. */
  lemma FallbackPartShape(rx: CaseRegex, part: string)
    ensures FallbackPart(rx, part).Some? ==>
      var p := FallbackPart(rx, part).value;
      p.question != "" && p.answer != "" && IsStripped(p)
      && p.question == Strip(rx.dropAnswer(part)) && p.answer == Strip(rx.findAnswer(part).value)
  {
    if FallbackPart(rx, part).Some? {
      StripIdempotent(rx.dropAnswer(part));
      StripIdempotent(rx.findAnswer(part).value);
    }
  }

  lemma {:induction false} PrimaryStripped(rx: CaseRegex, blocks: seq<string>)
    ensures forall p | p in Primary(rx, blocks) :: IsStripped(p)
  {
    if blocks != [] {
      PrimaryBlockShape(rx, blocks[0]);
      PrimaryStripped(rx, blocks[1..]);
    }
  }

  lemma {:induction false} FallbackNonEmpty(rx: CaseRegex, parts: seq<string>)
    ensures forall p | p in Fallback(rx, parts) :: p.question != "" && p.answer != "" && IsStripped(p)
  {
    if parts != [] {
      FallbackPartShape(rx, parts[0]);
      FallbackNonEmpty(rx, parts[1..]);
    }
  }

  /** Every pair returned is stripped; the fallback runs only when the
      primary strategy found nothing, and its pairs are never empty. */
  lemma ParsedPairs(rx: CaseRegex, response: string)
    ensures forall p | p in ParseSpec(rx, response) :: IsStripped(p)
    ensures PrimaryPairs(rx, response) != [] ==> ParseSpec(rx, response) == PrimaryPairs(rx, response)
    ensures PrimaryPairs(rx, response) == [] ==>
      forall p | p in ParseSpec(rx, response) :: p.question != "" && p.answer != ""
  {
    PrimaryStripped(rx, rx.splitBlocks(Strip(response)));
    FallbackNonEmpty(rx, NonBlankStripped(rx.splitHeaders(response)));
  }

  /** Pairs come out in block order: a split list of blocks parses part by part. */
  lemma {:induction false} PrimaryAppend(rx: CaseRegex, a: seq<string>, b: seq<string>)
    ensures Primary(rx, a + b) == Primary(rx, a) + Primary(rx, b)
    decreases |a|
  {
    if a == [] {
      assert a + b == b;
    } else {
      assert (a + b)[1..] == a[1..] + b;
      PrimaryAppend(rx, a[1..], b);
    }
  }

  lemma PrimaryStep(rx: CaseRegex, acc: seq<Pair>, pending: seq<string>)
    requires pending != []
    ensures acc + Primary(rx, pending) == (acc + Listed(PrimaryBlock(rx, pending[0]))) + Primary(rx, pending[1..])
  {
  }

  lemma FallbackStep(rx: CaseRegex, acc: seq<Pair>, pending: seq<string>)
    requires pending != []
    ensures acc + Fallback(rx, pending) == (acc + Listed(FallbackPart(rx, pending[0]))) + Fallback(rx, pending[1..])
  {
  }

  /** The body of the first loop. */
  method ReadBlock(rx: CaseRegex, block: string) returns (p: Option<Pair>)
    ensures p == PrimaryBlock(rx, block)
  {
    var b := Strip(block);
    if b == "" {
      return None;
    }
    var m := rx.findPair(b);
    if m.Some? {
      return Some(Pair(Strip(m.value.question), Strip(m.value.answer)));
    }
    return None;
  }

  /** The body of the second loop. */
  method ReadPart(rx: CaseRegex, part: string) returns (p: Option<Pair>)
    ensures p == FallbackPart(rx, part)
  {
    var answerMatch := rx.findAnswer(part);
    if answerMatch.None? {
      return None;
    }
    var questionText := Strip(rx.dropAnswer(part));
    var answerText := Strip(answerMatch.value);
    if questionText != "" && answerText != "" {
      return Some(Pair(questionText, answerText));
    }
    return None;
  }

  /** The first loop (lines 207-228): the primary strategy over the blocks. */
  method ReadBlocks(rx: CaseRegex, blocks: seq<string>) returns (questions: seq<Pair>)
    ensures questions == Primary(rx, blocks)
  {
    questions := [];
    var pending := blocks;
    assert questions + Primary(rx, pending) == Primary(rx, blocks);
    while pending != []
      invariant questions + Primary(rx, pending) == Primary(rx, blocks)
      decreases |pending|
    {
      var p := ReadBlock(rx, pending[0]);
      PrimaryStep(rx, questions, pending);
      questions := questions + Listed(p);
      pending := pending[1..];
    }
    assert questions + [] == questions;
  }

  /** The second loop (lines 238-249): the fallback strategy over the parts. */
  method ReadParts(rx: CaseRegex, parts: seq<string>) returns (questions: seq<Pair>)
    ensures questions == Fallback(rx, parts)
  {
    questions := [];
    var pending := parts;
    assert questions + Fallback(rx, pending) == Fallback(rx, parts);
    while pending != []
      invariant questions + Fallback(rx, pending) == Fallback(rx, parts)
      decreases |pending|
    {
      var p := ReadPart(rx, pending[0]);
      FallbackStep(rx, questions, pending);
      questions := questions + Listed(p);
      pending := pending[1..];
    }
    assert questions + [] == questions;
  }

  /** `_parse_case_questions`. */
  method ParseCaseQuestions(rx: CaseRegex, response: string) returns (questions: seq<Pair>)
    ensures questions == ParseSpec(rx, response)
  {
    questions := ReadBlocks(rx, rx.splitBlocks(Strip(response)));
    if questions == [] {
      questions := ReadParts(rx, NonBlankStripped(rx.splitHeaders(response)));
    }
  }

  // ---------------------------------------------------------------------------
  // `generate_case_questions` around the parser (lines 153-170)

  const GenerationFailed: string := "Failed to generate case questions: "
  const EmptyReply: string := "LLM returned empty response"
  const NothingParsed: string := "Failed to parse questions from LLM response"
  /** What `response.choices[0]` raises when there is no choice. */
  const NoChoice: string := "list index out of range"

  /** The generator's result for the reply of the LLM call. */
  function GenerateCaseQuestions(rx: CaseRegex, reply: ChatReply): Result<seq<Pair>> {
    match reply
    case ApiFailed(d) => Err(GenerationFailed + d)
    case Choices(contents) =>
      if |contents| == 0 then Err(GenerationFailed + NoChoice)
      else if contents[0].None? || contents[0].value == "" then Err(GenerationFailed + EmptyReply)
      else
        var pairs := ParseSpec(rx, contents[0].value);
        if pairs == [] then Err(GenerationFailed + NothingParsed) else Ok(pairs)
  }

  /** The generator returns a non-empty list of parsed pairs, or fails: on an
      empty reply and when nothing could be parsed. */
  lemma GenerateOutcome(rx: CaseRegex, reply: ChatReply)
    ensures var r := GenerateCaseQuestions(rx, reply);
      (r.Ok? <==> reply.Choices? && |reply.contents| > 0 && reply.contents[0].Some? && reply.contents[0].value != ""
                  && ParseSpec(rx, reply.contents[0].value) != [])
      && (r.Ok? ==> r.value != [] && r.value == ParseSpec(rx, reply.contents[0].value))
      && (reply.Choices? && |reply.contents| > 0 && reply.contents[0] == Some("") ==> r == Err(GenerationFailed + EmptyReply))
  {
  }
}
