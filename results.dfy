/** `app/api/results.py`: a student's results in a course with every stored
    answer shown next to its question, and the pass rule of the CSV export.
    A stored answer is shown when its question id passes the `< len` check;
    below it Python indexing applies, as when the answers were scored. */
module Results {
  import opened Wrappers
  import opened Table
  import opened Questions
  import opened Quiz
  import TestStore
  import CourseStore
  import opened TestResultStore

  /** `DetailedAnswer`. */
  datatype DetailedAnswer = DetailedAnswer(
    questionId: int, question: string, options: seq<string>,
    selectedAnswer: string, correctAnswer: string, isCorrect: bool)

  /** `TestResultDetailed`. */
  datatype DetailedResult = DetailedResult(
    id: nat, testId: nat, studentId: nat, answers: seq<DetailedAnswer>,
    score: int, totalQuestions: int, passed: bool)

  const CourseNotFound: string := "Course not found"

  /** A stored answer next to the question it answers. */
  function Describe(q: Question, a: MarkedAnswer): DetailedAnswer {
    DetailedAnswer(a.questionId, q.question, q.options, a.selectedAnswer, q.correctAnswer, a.isCorrect)
  }

  /** The inner loop of lines 187-200. */
  function Details(qs: seq<Question>, answers: seq<MarkedAnswer>): Result<seq<DetailedAnswer>> {
    if answers == [] then Ok([])
    else match QuestionAt(qs, answers[0].questionId)
      case Err(e) => Err(e)
      case Ok(q) =>
        match Details(qs, answers[1..])
        case Err(e) => Err(e)
        case Ok(rest) => Ok((if q.Some? then [Describe(q.value, answers[0])] else []) + rest)
  }

  /** The question a stored answer in range refers to. */
  function Asked(qs: seq<Question>, id: int): Question
    requires -|qs| <= id < |qs|
  {
    qs[if id >= 0 then id else |qs| + id]
  }

  /** `x` describes one of the stored answers whose id is in range, with its question. */
  predicate ShownFrom(qs: seq<Question>, answers: seq<MarkedAnswer>, x: DetailedAnswer) {
    exists k | 0 <= k < |answers| ::
      -|qs| <= answers[k].questionId < |qs| && x == Describe(Asked(qs, answers[k].questionId), answers[k])
  }

  /** Showing the answers fails exactly when one has an id below `-len`.
      Otherwise there are at most as many shown answers as stored ones, and
      each comes from a stored answer in range, with the question, options
      and correct answer of the test and the choice and flag of storage. */
  lemma {:induction false} DetailsOutcome(qs: seq<Question>, answers: seq<MarkedAnswer>)
    ensures Details(qs, answers).Err? <==> exists k | 0 <= k < |answers| :: answers[k].questionId < -|qs|
    ensures Details(qs, answers).Ok? ==>
      |Details(qs, answers).value| <= |answers|
      && forall j | 0 <= j < |Details(qs, answers).value| :: ShownFrom(qs, answers, Details(qs, answers).value[j])
  {
    if answers != [] {
      var tail := answers[1..];
      DetailsOutcome(qs, tail);
      DetailsErrHead(qs, answers);
      if Details(qs, answers).Ok? {
        DetailsHead(qs, answers);
      }
    }
  }

  /** One step of the failure half of `DetailsOutcome`. */
  lemma DetailsErrHead(qs: seq<Question>, answers: seq<MarkedAnswer>)
    requires answers != []
    requires Details(qs, answers[1..]).Err? <==>
      exists k | 0 <= k < |answers[1..]| :: answers[1..][k].questionId < -|qs|
    ensures Details(qs, answers).Err? <==> exists k | 0 <= k < |answers| :: answers[k].questionId < -|qs|
  {
    var tail := answers[1..];
    if exists k | 0 <= k < |answers| :: answers[k].questionId < -|qs| {
      var k :| 0 <= k < |answers| && answers[k].questionId < -|qs|;
      if k > 0 { assert tail[k - 1] == answers[k]; }
    }
    if answers[0].questionId >= -|qs| && Details(qs, tail).Err? {
      var k :| 0 <= k < |tail| && tail[k].questionId < -|qs|;
      assert answers[k + 1] == tail[k];
    }
  }

  /** What a shown answer of the tail comes from, it comes from in the whole list. */
  lemma ShownFromTail(qs: seq<Question>, answers: seq<MarkedAnswer>, x: DetailedAnswer)
    requires answers != [] && ShownFrom(qs, answers[1..], x)
    ensures ShownFrom(qs, answers, x)
  {
    var tail := answers[1..];
    var k :| 0 <= k < |tail| && -|qs| <= tail[k].questionId < |qs|
      && x == Describe(Asked(qs, tail[k].questionId), tail[k]);
    assert answers[k + 1] == tail[k];
  }

  /** One step of the shown half of `DetailsOutcome`. */
  lemma DetailsHead(qs: seq<Question>, answers: seq<MarkedAnswer>)
    requires answers != [] && Details(qs, answers).Ok?
    requires Details(qs, answers[1..]).Ok? ==>
      |Details(qs, answers[1..]).value| <= |answers[1..]|
      && forall j | 0 <= j < |Details(qs, answers[1..]).value| ::
           ShownFrom(qs, answers[1..], Details(qs, answers[1..]).value[j])
    ensures |Details(qs, answers).value| <= |answers|
    ensures forall j | 0 <= j < |Details(qs, answers).value| :: ShownFrom(qs, answers, Details(qs, answers).value[j])
  {
    var d := Details(qs, answers).value;
    var rest := Details(qs, answers[1..]).value;
    var head := if answers[0].questionId < |qs| then [Describe(Asked(qs, answers[0].questionId), answers[0])] else [];
    assert d == head + rest;
    forall j | 0 <= j < |d| ensures ShownFrom(qs, answers, d[j]) {
      if j < |head| {
        assert -|qs| <= answers[0].questionId < |qs| && d[j] == Describe(Asked(qs, answers[0].questionId), answers[0]);
      } else {
        assert d[j] == rest[j - |head|];
        ShownFromTail(qs, answers, rest[j - |head|]);
      }
    }
  }

  /** When every id is a valid index, every stored answer is shown, in order. */
  lemma {:induction false} DetailsInRange(qs: seq<Question>, answers: seq<MarkedAnswer>)
    requires forall k | 0 <= k < |answers| :: 0 <= answers[k].questionId < |qs|
    ensures Details(qs, answers).Ok?
    ensures |Details(qs, answers).value| == |answers|
    ensures forall k | 0 <= k < |answers| ::
      Details(qs, answers).value[k] == Describe(qs[answers[k].questionId], answers[k])
  {
    if answers != [] {
      var tail := answers[1..];
      assert forall k | 0 <= k < |tail| :: tail[k] == answers[k + 1];
      DetailsInRange(qs, tail);
      var d := Details(qs, answers).value;
      forall k | 0 <= k < |answers| ensures d[k] == Describe(qs[answers[k].questionId], answers[k]) {
        if k > 0 { assert d[k] == Details(qs, tail).value[k - 1]; }
      }
    }
  }

  /** Answers as `submit_test` stores them, shown against the same questions,
      are flagged correct exactly when the choice is the correct answer. */
  lemma ShownFlagsAgree(qs: seq<Question>, submitted: seq<Answer>)
    requires MarkAll(qs, submitted).Ok?
    ensures Details(qs, MarkAll(qs, submitted).value).Ok?
    ensures var d := Details(qs, MarkAll(qs, submitted).value).value;
      forall j | 0 <= j < |d| :: d[j].isCorrect <==> d[j].selectedAnswer == d[j].correctAnswer
  {
    var stored := MarkAll(qs, submitted).value;
    MarkAllShape(qs, submitted);
    DetailsOutcome(qs, stored);
    var d := Details(qs, stored).value;
    forall j | 0 <= j < |d| ensures d[j].isCorrect <==> d[j].selectedAnswer == d[j].correctAnswer {
      assert ShownFrom(qs, stored, d[j]);
      var k :| 0 <= k < |stored| && -|qs| <= stored[k].questionId < |qs|
        && d[j] == Describe(Asked(qs, stored[k].questionId), stored[k]);
      FlagAgrees(qs, submitted[k], stored[k]);
    }
  }

  /** One answer of `ShownFlagsAgree`. */
  lemma FlagAgrees(qs: seq<Question>, a: Answer, m: MarkedAnswer)
    requires m == MarkedAnswer(a.questionId, a.selectedAnswer, IsCorrect(qs, a))
    requires -|qs| <= m.questionId < |qs|
    ensures var x := Describe(Asked(qs, m.questionId), m); x.isCorrect <==> x.selectedAnswer == x.correctAnswer
  {
  }

  /** A stored result with its answers shown, when its test exists. */
  function Detailed(result: Row<TestResult>, tests: seq<Row<TestStore.TestRecord>>): Result<seq<DetailedResult>> {
    match Get(tests, result.value.testId)
    case None => Ok([])
    case Some(test) =>
      match Details(test.value.questions, result.value.answers)
      case Err(e) => Err(e)
      case Ok(shown) =>
        var v := result.value;
        Ok([DetailedResult(result.id, v.testId, v.studentId, shown, v.score, v.totalQuestions,
                           Passed(v.score, v.totalQuestions))])
  }

  /** The outer loop of lines 180-218. */
  function Enrich(results: seq<Row<TestResult>>, tests: seq<Row<TestStore.TestRecord>>): Result<seq<DetailedResult>> {
    if results == [] then Ok([])
    else match Detailed(results[0], tests)
      case Err(e) => Err(e)
      case Ok(d) =>
        match Enrich(results[1..], tests)
        case Err(e) => Err(e)
        case Ok(rest) => Ok(d + rest)
  }

  /** A detailed result made from a stored result whose test exists: the same
      key, student, score and total, passed by the 60 % rule. */
  predicate MadeFrom(d: DetailedResult, x: Row<TestResult>, tests: seq<Row<TestStore.TestRecord>>) {
    Get(tests, x.value.testId).Some?
    && d.id == x.id && d.testId == x.value.testId && d.studentId == x.value.studentId
    && d.score == x.value.score && d.totalQuestions == x.value.totalQuestions
    && (d.passed <==> x.value.totalQuestions > 0 && 100 * x.value.score >= 60 * x.value.totalQuestions)
  }

  /** A stored result is shown at most once, and as made from itself. */
  lemma DetailedMadeFrom(result: Row<TestResult>, tests: seq<Row<TestStore.TestRecord>>)
    requires Detailed(result, tests).Ok?
    ensures |Detailed(result, tests).value| <= 1
    ensures forall j | 0 <= j < |Detailed(result, tests).value| :: MadeFrom(Detailed(result, tests).value[j], result, tests)
  {
  }

  /** There are at most as many detailed results as stored ones, and each is
      made from one of them. */
  lemma {:induction false} EnrichOutcome(results: seq<Row<TestResult>>, tests: seq<Row<TestStore.TestRecord>>)
    ensures Enrich(results, tests).Ok? ==>
      var d := Enrich(results, tests).value;
      |d| <= |results| && forall j | 0 <= j < |d| :: exists k | 0 <= k < |results| :: MadeFrom(d[j], results[k], tests)
  {
    if results != [] {
      var tail := results[1..];
      EnrichOutcome(tail, tests);
      var r := Enrich(results, tests);
      if r.Ok? {
        var d := r.value;
        var head := Detailed(results[0], tests).value;
        var rest := Enrich(tail, tests).value;
        assert d == head + rest;
        forall j | 0 <= j < |d| ensures exists k | 0 <= k < |results| :: MadeFrom(d[j], results[k], tests) {
          if j < |head| {
            DetailedMadeFrom(results[0], tests);
            assert d[j] == head[0] && MadeFrom(d[j], results[0], tests);
          } else {
            assert d[j] == rest[j - |head|];
            var k :| 0 <= k < |tail| && MadeFrom(rest[j - |head|], tail[k], tests);
            assert results[k + 1] == tail[k];
          }
        }
      }
    }
  }

  /** A result whose test has been deleted is left out, and nothing else about
      the listing changes. */
  lemma SkipsMissingTest(result: Row<TestResult>, results: seq<Row<TestResult>>, tests: seq<Row<TestStore.TestRecord>>)
    requires Get(tests, result.value.testId).None?
    ensures Enrich([result] + results, tests) == Enrich(results, tests)
  {
    var all := [result] + results;
    assert all[0] == result && all[1..] == results;
    if Enrich(results, tests).Ok? {
      assert [] + Enrich(results, tests).value == Enrich(results, tests).value;
    }
  }

  /** `get_my_results_by_course`: the course must exist; then the student's
      results in the course, each with its answers shown. */
  function MyResultsByCourse(courses: seq<Row<CourseStore.Course>>, tests: seq<Row<TestStore.TestRecord>>,
                             results: seq<Row<TestResult>>, studentId: nat, courseId: nat): Result<seq<DetailedResult>> {
    if Get(courses, courseId).None? then Err(CourseNotFound)
    else Enrich(ByStudentAndCourse(results, tests, studentId, courseId), tests)
  }

  /** Every result listed for the course is the student's own and belongs to
      a test of the course. */
  lemma MyResultsAreOwn(courses: seq<Row<CourseStore.Course>>, tests: seq<Row<TestStore.TestRecord>>,
                        results: seq<Row<TestResult>>, studentId: nat, courseId: nat)
    ensures MyResultsByCourse(courses, tests, results, studentId, courseId).Err? ==>
      Get(courses, courseId).None? || exists x | x in results :: exists a | a in x.value.answers :: a.questionId < 0
    ensures MyResultsByCourse(courses, tests, results, studentId, courseId).Ok? ==>
      var d := MyResultsByCourse(courses, tests, results, studentId, courseId).value;
      forall j | 0 <= j < |d| :: d[j].studentId == studentId
        && Get(tests, d[j].testId).Some? && Get(tests, d[j].testId).value.value.courseId == courseId
  {
    if Get(courses, courseId).Some? {
      var mine := ByStudentAndCourse(results, tests, studentId, courseId);
      EnrichOutcome(mine, tests);
      if Enrich(mine, tests).Ok? {
        var d := Enrich(mine, tests).value;
        forall j | 0 <= j < |d| ensures d[j].studentId == studentId
          && Get(tests, d[j].testId).Some? && Get(tests, d[j].testId).value.value.courseId == courseId
        {
          var k :| 0 <= k < |mine| && MadeFrom(d[j], mine[k], tests);
          ByStudentAndCourseMembers(results, tests, studentId, courseId, mine[k]);
        }
      } else {
        EnrichFails(mine, tests);
        var x :| x in mine && exists a | a in x.value.answers :: a.questionId < 0;
        ByStudentAndCourseMembers(results, tests, studentId, courseId, x);
      }
    }
  }

  /** Enrichment fails only on a stored answer with a negative id. */
  lemma {:induction false} EnrichFails(results: seq<Row<TestResult>>, tests: seq<Row<TestStore.TestRecord>>)
    requires Enrich(results, tests).Err?
    ensures exists x | x in results :: exists a | a in x.value.answers :: a.questionId < 0
  {
    if Detailed(results[0], tests).Err? {
      var test := Get(tests, results[0].value.testId).value;
      DetailsOutcome(test.value.questions, results[0].value.answers);
      var k :| 0 <= k < |results[0].value.answers| && results[0].value.answers[k].questionId < -|test.value.questions|;
      assert results[0] in results && results[0].value.answers[k] in results[0].value.answers;
    } else {
      EnrichFails(results[1..], tests);
      var x :| x in results[1..] && exists a | a in x.value.answers :: a.questionId < 0;
      assert x in results;
    }
  }

  /** One stored answer, as the inner loop body shows it. */
  method DescribeOne(qs: seq<Question>, a: MarkedAnswer) returns (r: Result<seq<DetailedAnswer>>)
    ensures r.Err? <==> QuestionAt(qs, a.questionId).Err?
    ensures r.Err? ==> r.error == QuestionAt(qs, a.questionId).error
    ensures r.Ok? ==> r.value == if QuestionAt(qs, a.questionId).value.Some? then [Describe(QuestionAt(qs, a.questionId).value.value, a)] else []
  {
    if a.questionId < |qs| {
      if a.questionId < -|qs| {
        return Err(IndexError);
      }
      var question := if a.questionId >= 0 then qs[a.questionId] else qs[|qs| + a.questionId];
      return Ok([DetailedAnswer(a.questionId, question.question, question.options, a.selectedAnswer,
                                question.correctAnswer, a.isCorrect)]);
    }
    return Ok([]);
  }

  function Concat<X>(done: seq<X>, rest: Result<seq<X>>): Result<seq<X>> {
    match rest
    case Err(e) => Err(e)
    case Ok(xs) => Ok(done + xs)
  }

  lemma DetailsStep(qs: seq<Question>, done: seq<DetailedAnswer>, pending: seq<MarkedAnswer>, shown: seq<DetailedAnswer>)
    requires pending != [] && QuestionAt(qs, pending[0].questionId).Ok?
    requires shown == if QuestionAt(qs, pending[0].questionId).value.Some?
      then [Describe(QuestionAt(qs, pending[0].questionId).value.value, pending[0])] else []
    ensures Concat(done, Details(qs, pending)) == Concat(done + shown, Details(qs, pending[1..]))
  {
    var rest := Details(qs, pending[1..]);
    if rest.Ok? {
      assert done + (shown + rest.value) == (done + shown) + rest.value;
    }
  }

  /** The inner loop: the shown answers of one result. */
  method DescribeAll(qs: seq<Question>, answers: seq<MarkedAnswer>) returns (r: Result<seq<DetailedAnswer>>)
    ensures r == Details(qs, answers)
  {
    var shown: seq<DetailedAnswer> := [];
    var pending := answers;
    assert Concat(shown, Details(qs, answers)) == Details(qs, answers) by {
      if Details(qs, answers).Ok? { assert [] + Details(qs, answers).value == Details(qs, answers).value; }
    }
    while pending != []
      invariant Concat(shown, Details(qs, pending)) == Details(qs, answers)
      decreases |pending|
    {
      var one := DescribeOne(qs, pending[0]);
      if one.Err? {
        assert Details(qs, pending) == Err(one.error);
        return Err(one.error);
      }
      DetailsStep(qs, shown, pending, one.value);
      shown := shown + one.value;
      pending := pending[1..];
    }
    assert shown + [] == shown;
    return Ok(shown);
  }

  lemma EnrichStep(tests: seq<Row<TestStore.TestRecord>>, done: seq<DetailedResult>, pending: seq<Row<TestResult>>,
                   d: seq<DetailedResult>)
    requires pending != [] && Detailed(pending[0], tests) == Ok(d)
    ensures Concat(done, Enrich(pending, tests)) == Concat(done + d, Enrich(pending[1..], tests))
  {
    var rest := Enrich(pending[1..], tests);
    if rest.Ok? {
      assert done + (d + rest.value) == (done + d) + rest.value;
    }
  }

  /** One pass of the outer loop. */
  method DetailOne(result: Row<TestResult>, tests: TestStore.Tests) returns (r: Result<seq<DetailedResult>>)
    ensures r == Detailed(result, tests.rows)
  {
    var test := tests.GetTest(result.value.testId);
    if test.None? {
      return Ok([]);
    }
    var shown := DescribeAll(test.value.value.questions, result.value.answers);
    if shown.Err? {
      return Err(shown.error);
    }
    var total := result.value.totalQuestions;
    var passed := total > 0 && result.value.score * 100 >= 60 * total;
    return Ok([DetailedResult(result.id, result.value.testId, result.value.studentId, shown.value,
                              result.value.score, total, passed)]);
  }

  /** `get_my_results_by_course`. */
  method GetMyResultsByCourse(courses: CourseStore.Courses, tests: TestStore.Tests, results: TestResults,
                              studentId: nat, courseId: nat) returns (r: Result<seq<DetailedResult>>)
    ensures r == MyResultsByCourse(courses.rows, tests.rows, results.rows, studentId, courseId)
  {
    if courses.GetCourse(courseId).None? {
      return Err(CourseNotFound);
    }
    var mine := results.GetTestResultsByStudentAndCourse(tests, studentId, courseId);
    var detailed: seq<DetailedResult> := [];
    var pending := mine;
    assert Concat(detailed, Enrich(mine, tests.rows)) == Enrich(mine, tests.rows) by {
      if Enrich(mine, tests.rows).Ok? { assert [] + Enrich(mine, tests.rows).value == Enrich(mine, tests.rows).value; }
    }
    while pending != []
      invariant Concat(detailed, Enrich(pending, tests.rows)) == Enrich(mine, tests.rows)
      decreases |pending|
    {
      var one := DetailOne(pending[0], tests);
      if one.Err? {
        return Err(one.error);
      }
      EnrichStep(tests.rows, detailed, pending, one.value);
      detailed := detailed + one.value;
      pending := pending[1..];
    }
    assert detailed + [] == detailed;
    return Ok(detailed);
  }

  /** The `Passed` column of the CSV export. */
  function CsvPassed(score: int, totalQuestions: int): (r: string)
    ensures r == "Yes" || r == "No"
    ensures r == "Yes" <==> totalQuestions > 0 && 100 * score >= 60 * totalQuestions
  {
    if Passed(score, totalQuestions) then "Yes" else "No"
  }

  /** The export and the detailed view agree on who passed. */
  lemma CsvAgrees(result: Row<TestResult>, tests: seq<Row<TestStore.TestRecord>>)
    requires Detailed(result, tests).Ok? && Detailed(result, tests).value != []
    ensures (CsvPassed(result.value.score, result.value.totalQuestions) == "Yes") == Detailed(result, tests).value[0].passed
  {
  }
}
