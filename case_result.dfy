/** `app/crud/case_result.py`: students' written answers to case questions,
    one per student and question, graded on submission by the evaluation
    model. A missing answer is not graded, and a failed grading still stores
    the answer, without a score. */
module CaseResultStore {
  import opened Wrappers
  import opened Text
  import opened Table
  import opened Cleaning
  import opened Score

  /** A case question (`CaseTest`): the case it belongs to, the question and its model answer. */
  datatype CaseTest = CaseTest(caseId: nat, question: string, answer: string)

  datatype CaseResult = CaseResult(
    testId: nat, studentId: nat, answer: Option<string>, fileUrl: Option<string>, score: Option<int>)

  /** `CaseResultCreate`. */
  datatype CaseResultCreate = CaseResultCreate(testId: nat, answer: Option<string>, fileUrl: Option<string>)

  /** The evaluation model, as a function of (student answer, correct answer, question). */
  type Grader = (string, string, string) -> ChatReply

  function TestNotFound(testId: nat): string {
    "Test with ID " + NatToString(testId) + " not found"
  }

  function AlreadySubmitted(testId: nat): string {
    "Student already submitted answer for test " + NatToString(testId)
  }

  /** The pair an answer belongs to: (test, student). */
  function Pair(r: CaseResult): (nat, nat) {
    (r.testId, r.studentId)
  }

  /** Every stored score is absent or a grade in 0..100. */
  predicate ScoresValid(rows: seq<Row<CaseResult>>) {
    forall k | 0 <= k < |rows| :: rows[k].value.score.None? || 0 <= rows[k].value.score.value <= 100
  }

  /** `get_student_result_for_test`: the first answer of the pair. */
  function ResultFor(rows: seq<Row<CaseResult>>, testId: nat, studentId: nat): (r: Option<Row<CaseResult>>)
    ensures r.Some? ==> r.value in rows && r.value.value.testId == testId && r.value.value.studentId == studentId
    ensures r.None? ==> forall k | 0 <= k < |rows| :: Pair(rows[k].value) != (testId, studentId)
  {
    match FirstWhere(rows, SameKey(Pair, (testId, studentId)))
    case None => None
    case Some(i) =>
      assert Pair(rows[i].value) == (testId, studentId) by { assert SameKey(Pair, (testId, studentId))(rows[i]); }
      Some(rows[i])
  }

  /** The grading of lines 47-60: only a non-empty answer is sent, and a
      failed evaluation leaves the score empty. */
  function Graded(grader: Grader, answer: Option<string>, test: CaseTest): (score: Option<int>)
    ensures answer.None? || answer == Some("") ==> score.None?
    ensures score.Some? ==> 0 <= score.value <= 100
  {
    if answer.None? || answer.value == "" then None
    else match EvaluateAnswer(grader(answer.value, test.answer, test.question))
      case Ok(v) => Some(v)
      case Err(_) => None
  }

  /** The answer `create_case_result` stores, or why it refuses to. */
  function Submission(rows: seq<Row<CaseResult>>, tests: seq<Row<CaseTest>>, data: CaseResultCreate,
                      studentId: nat, grader: Grader): Result<CaseResult> {
    match Get(tests, data.testId)
    case None => Err(TestNotFound(data.testId))
    case Some(test) =>
      if ResultFor(rows, data.testId, studentId).Some? then Err(AlreadySubmitted(data.testId))
      else Ok(CaseResult(data.testId, studentId, data.answer, data.fileUrl, Graded(grader, data.answer, test.value)))
  }

  /** A submission is refused exactly when the question does not exist or the
      student has answered it; otherwise the stored answer is the one sent,
      with a grade in 0..100 if any. */
  lemma SubmissionOutcome(rows: seq<Row<CaseResult>>, tests: seq<Row<CaseTest>>, data: CaseResultCreate,
                          studentId: nat, grader: Grader)
    ensures var r := Submission(rows, tests, data, studentId, grader);
      (r.Err? <==> (!exists t | t in tests :: t.id == data.testId)
                   || exists x | x in rows :: x.value.testId == data.testId && x.value.studentId == studentId)
      && (r.Ok? ==> r.value.testId == data.testId && r.value.studentId == studentId
                    && r.value.answer == data.answer && r.value.fileUrl == data.fileUrl
                    && (r.value.score.None? || 0 <= r.value.score.value <= 100))
  {
    if exists x | x in rows :: x.value.testId == data.testId && x.value.studentId == studentId {
      var x :| x in rows && x.value.testId == data.testId && x.value.studentId == studentId;
      var k :| 0 <= k < |rows| && rows[k] == x;
      assert Pair(rows[k].value) == (data.testId, studentId);
    }
    if exists t | t in tests :: t.id == data.testId {
      var t :| t in tests && t.id == data.testId;
      var k :| 0 <= k < |tests| && tests[k] == t;
    }
  }

  /** Without a text answer the evaluation model is not consulted: the stored
      answer is the same whatever it would reply, and has no score. */
  lemma NoAnswerNoGrading(rows: seq<Row<CaseResult>>, tests: seq<Row<CaseTest>>, data: CaseResultCreate,
                          studentId: nat, g1: Grader, g2: Grader)
    requires data.answer.None? || data.answer == Some("")
    ensures Submission(rows, tests, data, studentId, g1) == Submission(rows, tests, data, studentId, g2)
    ensures Submission(rows, tests, data, studentId, g1).Ok? ==> Submission(rows, tests, data, studentId, g1).value.score.None?
  {
  }

  /** A failed evaluation does not refuse the answer: it is stored without a score. */
  lemma FailedGradingStillStored(rows: seq<Row<CaseResult>>, tests: seq<Row<CaseTest>>, data: CaseResultCreate,
                                 studentId: nat, grader: Grader)
    requires Get(tests, data.testId).Some? && ResultFor(rows, data.testId, studentId).None?
    requires data.answer.Some? && data.answer.value != ""
    requires var test := Get(tests, data.testId).value.value;
      EvaluateAnswer(grader(data.answer.value, test.answer, test.question)).Err?
    ensures Submission(rows, tests, data, studentId, grader)
      == Ok(CaseResult(data.testId, studentId, data.answer, data.fileUrl, None))
  {
  }

  /** A graded answer carries the grade parsed from the model's reply. */
  lemma GradeFromReply(grader: Grader, answer: string, test: CaseTest)
    requires answer != ""
    ensures var reply := grader(answer, test.answer, test.question);
      Graded(grader, Some(answer), test).Some? <==>
        reply.Choices? && |reply.contents| > 0 && reply.contents[0].Some? && reply.contents[0].value != ""
    ensures var reply := grader(answer, test.answer, test.question);
      Graded(grader, Some(answer), test).Some? ==> Graded(grader, Some(answer), test).value == ParseScore(reply.contents[0].value)
  {
    var reply := grader(answer, test.answer, test.question);
    var g := EvaluateAnswer(reply);
    assert Graded(grader, Some(answer), test) == if g.Ok? then Some(g.value) else None;
    EvaluateOutcome(reply);
  }

  /** Storing an accepted submission keeps one answer per pair and every
      score a grade. */
  lemma SubmissionKeepsInvariant(rows: seq<Row<CaseResult>>, next: nat, tests: seq<Row<CaseTest>>,
                                 data: CaseResultCreate, studentId: nat, grader: Grader)
    requires Valid(rows, next) && UniqueBy(rows, Pair) && ScoresValid(rows)
    requires Submission(rows, tests, data, studentId, grader).Ok?
    ensures var r := rows + [Row(next, Submission(rows, tests, data, studentId, grader).value)];
      Valid(r, next + 1) && UniqueBy(r, Pair) && ScoresValid(r)
  {
    var v := Submission(rows, tests, data, studentId, grader).value;
    InsertValid(rows, next, v);
    var r := rows + [Row(next, v)];
    forall i, j | 0 <= i < j < |r| ensures Pair(r[i].value) != Pair(r[j].value) {
      if j == |rows| {
        assert r[i] == rows[i];
      }
    }
  }

  function OfStudent(studentId: nat): Row<CaseResult> -> bool {
    (x: Row<CaseResult>) => x.value.studentId == studentId
  }

  function OfTest(testId: nat): Row<CaseResult> -> bool {
    (x: Row<CaseResult>) => x.value.testId == testId
  }

  /** The join on `case_tests` of lines 156-160. */
  function OfCase(tests: seq<Row<CaseTest>>, caseId: nat): Row<CaseResult> -> bool {
    (x: Row<CaseResult>) => Get(tests, x.value.testId).Some? && Get(tests, x.value.testId).value.value.caseId == caseId
  }

  /** `get_student_results`. */
  function StudentResults(rows: seq<Row<CaseResult>>, studentId: nat, skip: nat, limit: nat): (r: seq<Row<CaseResult>>)
    ensures |r| <= limit
    ensures forall k | 0 <= k < |r| :: r[k] in rows && r[k].value.studentId == studentId
  {
    PageWhere(rows, OfStudent(studentId), skip, limit)
  }

  /** `get_results_by_test`. */
  function ResultsByTest(rows: seq<Row<CaseResult>>, testId: nat, skip: nat, limit: nat): (r: seq<Row<CaseResult>>)
    ensures |r| <= limit
    ensures forall k | 0 <= k < |r| :: r[k] in rows && r[k].value.testId == testId
  {
    PageWhere(rows, OfTest(testId), skip, limit)
  }

  /** `get_results_by_case`. */
  function ResultsByCase(rows: seq<Row<CaseResult>>, tests: seq<Row<CaseTest>>, caseId: nat, skip: nat, limit: nat)
    : (r: seq<Row<CaseResult>>)
    ensures |r| <= limit
    ensures forall k | 0 <= k < |r| :: r[k] in rows && OfCase(tests, caseId)(r[k])
  {
    PageWhere(rows, OfCase(tests, caseId), skip, limit)
  }

  /** A first page at least as long as the table holds every answer to the
      case's questions and nothing else. */
  lemma ResultsByCaseComplete(rows: seq<Row<CaseResult>>, tests: seq<Row<CaseTest>>, caseId: nat, limit: nat,
                              x: Row<CaseResult>)
    requires Ascending(tests) && limit >= |rows|
    ensures x in ResultsByCase(rows, tests, caseId, 0, limit) <==>
      x in rows && exists t | t in tests :: t.id == x.value.testId && t.value.caseId == caseId
  {
    PageWhereComplete(rows, OfCase(tests, caseId), limit, x);
    if exists t | t in tests :: t.id == x.value.testId && t.value.caseId == caseId {
      var t :| t in tests && t.id == x.value.testId && t.value.caseId == caseId;
      GetMember(tests, t);
    }
  }

  function WithScore(score: int): CaseResult -> CaseResult {
    (r: CaseResult) => r.(score := Some(score))
  }

  /** A grade set by a methodist keeps every score a grade. */
  lemma RescoreKeepsInvariant(rows: seq<Row<CaseResult>>, next: nat, id: nat, score: int)
    requires Valid(rows, next) && UniqueBy(rows, Pair) && ScoresValid(rows) && 0 <= score <= 100
    ensures var r := Modify(rows, id, WithScore(score));
      Valid(r, next) && UniqueBy(r, Pair) && ScoresValid(r)
      && forall k | 0 <= k < |rows| :: Pair(r[k].value) == Pair(rows[k].value)
  {
    ModifyAt(rows, next, id, WithScore(score));
  }

  class CaseResults {
    var rows: seq<Row<CaseResult>>
    var nextId: nat

    /** The `uq_test_student` constraint and the grade range. */
    ghost predicate Valid() reads this {
      Table.Valid(rows, nextId) && UniqueBy(rows, Pair) && ScoresValid(rows)
    }

    constructor ()
      ensures Valid() && rows == []
    {
      rows, nextId := [], 1;
    }

    /** `create_case_result`. */
    method CreateCaseResult(tests: seq<Row<CaseTest>>, data: CaseResultCreate, studentId: nat, grader: Grader)
      returns (r: Result<Row<CaseResult>>)
      requires Valid()
      modifies this
      ensures Valid()
      ensures Submission(old(rows), tests, data, studentId, grader).Err? ==>
        r == Err(Submission(old(rows), tests, data, studentId, grader).error) && rows == old(rows) && nextId == old(nextId)
      ensures Submission(old(rows), tests, data, studentId, grader).Ok? ==>
        r == Ok(Row(old(nextId), Submission(old(rows), tests, data, studentId, grader).value))
        && rows == old(rows) + [r.value] && nextId == old(nextId) + 1
    {
      var test := Get(tests, data.testId);
      if test.None? {
        return Err(TestNotFound(data.testId));
      }
      var existing := ResultFor(rows, data.testId, studentId);
      if existing.Some? {
        return Err(AlreadySubmitted(data.testId));
      }
      var score: Option<int> := None;
      if data.answer.Some? && data.answer.value != "" {
        var graded := EvaluateAnswer(grader(data.answer.value, test.value.value.answer, test.value.value.question));
        if graded.Ok? {
          score := Some(graded.value);
        }
      }
      var row := Row(nextId, CaseResult(data.testId, studentId, data.answer, data.fileUrl, score));
      SubmissionKeepsInvariant(rows, nextId, tests, data, studentId, grader);
      rows := rows + [row];
      nextId := nextId + 1;
      return Ok(row);
    }

    /** `get_case_result_by_id`. */
    function GetCaseResultById(id: nat): Option<Row<CaseResult>>
      reads this
    {
      Get(rows, id)
    }

    /** `get_student_results`. */
    function GetStudentResults(studentId: nat, skip: nat, limit: nat): seq<Row<CaseResult>>
      reads this
    {
      StudentResults(rows, studentId, skip, limit)
    }

    /** `get_results_by_test`. */
    function GetResultsByTest(testId: nat, skip: nat, limit: nat): seq<Row<CaseResult>>
      reads this
    {
      ResultsByTest(rows, testId, skip, limit)
    }

    /** `get_results_by_case`. */
    function GetResultsByCase(tests: seq<Row<CaseTest>>, caseId: nat, skip: nat, limit: nat): seq<Row<CaseResult>>
      reads this
    {
      ResultsByCase(rows, tests, caseId, skip, limit)
    }

    /** `get_student_result_for_test`. */
    function GetStudentResultForTest(testId: nat, studentId: nat): Option<Row<CaseResult>>
      reads this
    {
      ResultFor(rows, testId, studentId)
    }

    /** `update_case_result_score`: only the score changes; `None` for a missing key. */
    method UpdateCaseResultScore(id: nat, newScore: int) returns (r: Option<Row<CaseResult>>)
      requires Valid() && 0 <= newScore <= 100
      modifies this
      ensures Valid() && nextId == old(nextId)
      ensures rows == Modify(old(rows), id, WithScore(newScore))
      ensures r.Some? <==> old(Get(rows, id)).Some?
      ensures r.Some? ==> r.value == Row(id, old(Get(rows, id)).value.value.(score := Some(newScore)))
    {
      var i := KeyIndex(rows, id);
      if i.None? {
        return None;
      }
      RescoreKeepsInvariant(rows, nextId, id, newScore);
      ModifyAt(rows, nextId, id, WithScore(newScore));
      r := Some(Row(id, rows[i.value].value.(score := Some(newScore))));
      rows := SetAt(rows, i.value, rows[i.value].value.(score := Some(newScore)));
    }

    /** `delete_case_result`: true exactly when the answer existed. */
    method DeleteCaseResult(id: nat) returns (deleted: bool)
      requires Valid()
      modifies this
      ensures Valid() && nextId == old(nextId)
      ensures deleted <==> old(Get(rows, id)).Some?
      ensures Get(rows, id) == None
      ensures deleted ==> rows == RemoveAt(old(rows), old(KeyIndex(rows, id)).value)
      ensures !deleted ==> rows == old(rows)
    {
      var i := KeyIndex(rows, id);
      if i.None? {
        return false;
      }
      RemoveAtValid(rows, nextId, i.value);
      RemoveKeepsInvariant(rows, i.value);
      rows := RemoveAt(rows, i.value);
      return true;
    }
  }

  /** Removing an answer keeps one answer per pair and every score a grade. */
  lemma RemoveKeepsInvariant(rows: seq<Row<CaseResult>>, i: nat)
    requires i < |rows| && UniqueBy(rows, Pair) && ScoresValid(rows)
    ensures UniqueBy(RemoveAt(rows, i), Pair) && ScoresValid(RemoveAt(rows, i))
  {
    var r := RemoveAt(rows, i);
    forall a, b | 0 <= a < b < |r| ensures Pair(r[a].value) != Pair(r[b].value) {
      var a' := if a < i then a else a + 1;
      var b' := if b < i then b else b + 1;
      assert r[a] == rows[a'] && r[b] == rows[b'];
    }
  }
}
