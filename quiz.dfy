/** `app/api/tests.py`: scoring a submitted test, the 60 % pass rule, the
    checks on the questions a methodist saves, and the views of a test that
    students get, without the correct answers. */
module Quiz {
  import opened Wrappers
  import opened Text
  import opened Questions
  import opened Table
  import CourseStore
  import TestStore

  /** `AnswerSubmit`. */
  datatype Answer = Answer(questionId: int, selectedAnswer: string)

  /** A submitted answer as stored, with its `is_correct` flag. */
  datatype MarkedAnswer = MarkedAnswer(questionId: int, selectedAnswer: string, isCorrect: bool)

  /** What Python raises for an index below `-len`. */
  const IndexError: string := "list index out of range"

  /** `questions[id] if id < len(questions) else None`. Only the upper bound is
      checked, so Python indexing applies below it: a negative id counts from
      the end, and one below `-len` raises. */
  function QuestionAt(qs: seq<Question>, id: int): (r: Result<Option<Question>>)
    ensures r.Err? <==> id < -|qs|
    ensures r == Ok(None) <==> id >= |qs|
    ensures r.Ok? && r.value.Some? ==> r.value.value == qs[if id >= 0 then id else |qs| + id]
  {
    if id >= |qs| then Ok(None)
    else if id >= 0 then Ok(Some(qs[id]))
    else if id >= -|qs| then Ok(Some(qs[|qs| + id]))
    else Err(IndexError)
  }

  /** One iteration of the loop of lines 197-208. */
  function Mark(qs: seq<Question>, a: Answer): Result<MarkedAnswer> {
    match QuestionAt(qs, a.questionId)
    case Err(e) => Err(e)
    case Ok(q) => Ok(MarkedAnswer(a.questionId, a.selectedAnswer, q.Some? && a.selectedAnswer == q.value.correctAnswer))
  }

  /** The marked answers in submission order, or the error of the first answer that raises. */
  function MarkAll(qs: seq<Question>, answers: seq<Answer>): Result<seq<MarkedAnswer>> {
    if answers == [] then Ok([])
    else match Mark(qs, answers[0])
      case Err(e) => Err(e)
      case Ok(m) => Prepend([m], MarkAll(qs, answers[1..]))
  }

  function Prepend(done: seq<MarkedAnswer>, rest: Result<seq<MarkedAnswer>>): Result<seq<MarkedAnswer>> {
    match rest
    case Err(e) => Err(e)
    case Ok(ms) => Ok(done + ms)
  }

  function CountCorrect(ms: seq<MarkedAnswer>): (n: nat)
    ensures n <= |ms|
  {
    if ms == [] then 0 else (if ms[0].isCorrect then 1 else 0) + CountCorrect(ms[1..])
  }

  /** `passed = percentage >= 60.0` with `percentage = score / total * 100`,
      or 0 when there are no questions: in integers. */
  predicate Passed(score: int, total: int) {
    total > 0 && score * 100 >= 60 * total
  }

  /** What a submission is scored as: the stored answers, the score, the total
      and the verdict (lines 189-214). */
  datatype Submission = Submission(answers: seq<MarkedAnswer>, score: nat, total: nat, passed: bool)

  function Submit(qs: seq<Question>, answers: seq<Answer>): Result<Submission> {
    match MarkAll(qs, answers)
    case Err(e) => Err(e)
    case Ok(ms) => Ok(Submission(ms, CountCorrect(ms), |qs|, Passed(CountCorrect(ms), |qs|)))
  }

  /** An answer is correct exactly when its question id passes the bound and
      picks a question whose correct answer is the one selected. */
  predicate IsCorrect(qs: seq<Question>, a: Answer) {
    -|qs| <= a.questionId < |qs|
    && a.selectedAnswer == qs[if a.questionId >= 0 then a.questionId else |qs| + a.questionId].correctAnswer
  }

  /** Scoring fails exactly when some id is below `-len`; otherwise the stored
      list is the submission, in order, each answer with its flag. */
  lemma {:induction false} MarkAllShape(qs: seq<Question>, answers: seq<Answer>)
    ensures var r := MarkAll(qs, answers);
      (r.Err? <==> exists k | 0 <= k < |answers| :: answers[k].questionId < -|qs|)
      && (r.Ok? ==>
            |r.value| == |answers|
            && forall k | 0 <= k < |answers| ::
                 r.value[k] == MarkedAnswer(answers[k].questionId, answers[k].selectedAnswer, IsCorrect(qs, answers[k])))
  {
    if answers != [] {
      MarkAllShape(qs, answers[1..]);
      var r := MarkAll(qs, answers);
      if r.Ok? {
        forall k | 0 <= k < |answers|
          ensures r.value[k] == MarkedAnswer(answers[k].questionId, answers[k].selectedAnswer, IsCorrect(qs, answers[k]))
        {
          if k > 0 { assert answers[1..][k - 1] == answers[k]; }
        }
      }
      if exists k | 0 <= k < |answers| :: answers[k].questionId < -|qs| {
        var k :| 0 <= k < |answers| && answers[k].questionId < -|qs|;
        if k > 0 { assert answers[1..][k - 1] == answers[k]; }
      }
      if exists k | 0 <= k < |answers[1..]| :: answers[1..][k].questionId < -|qs| {
        var k :| 0 <= k < |answers[1..]| && answers[1..][k].questionId < -|qs|;
        assert answers[k + 1] == answers[1..][k];
      }
    }
  }

  lemma {:induction false} CountAppend(a: seq<MarkedAnswer>, b: seq<MarkedAnswer>)
    ensures CountCorrect(a + b) == CountCorrect(a) + CountCorrect(b)
  {
    if a == [] {
      assert a + b == b;
    } else {
      assert (a + b)[1..] == a[1..] + b;
      CountAppend(a[1..], b);
    }
  }

  lemma {:induction false} MarkAllAppend(qs: seq<Question>, a: seq<Answer>, b: seq<Answer>)
    ensures MarkAll(qs, a + b) ==
      match MarkAll(qs, a)
      case Err(e) => Err(e)
      case Ok(ma) => Prepend(ma, MarkAll(qs, b))
  {
    if a == [] {
      assert a + b == b;
      if MarkAll(qs, b).Ok? { assert [] + MarkAll(qs, b).value == MarkAll(qs, b).value; }
    } else {
      assert (a + b)[0] == a[0] && (a + b)[1..] == a[1..] + b;
      MarkAllAppend(qs, a[1..], b);
      var tail := MarkAll(qs, a[1..]);
      var rb := MarkAll(qs, b);
      if Mark(qs, a[0]).Ok? && tail.Ok? && rb.Ok? {
        var m := Mark(qs, a[0]).value;
        assert [m] + (tail.value + rb.value) == ([m] + tail.value) + rb.value;
      }
    }
  }

  /** The score counts every correct answer, so an answer submitted twice
      counts twice: scoring a submission split in two adds the two scores. */
  lemma ScoreAdds(qs: seq<Question>, a: seq<Answer>, b: seq<Answer>)
    requires Submit(qs, a).Ok? && Submit(qs, b).Ok?
    ensures Submit(qs, a + b).Ok?
    ensures Submit(qs, a + b).value.score == Submit(qs, a).value.score + Submit(qs, b).value.score
    ensures Submit(qs, a + b).value.answers == Submit(qs, a).value.answers + Submit(qs, b).value.answers
  {
    MarkAllAppend(qs, a, b);
    CountAppend(MarkAll(qs, a).value, MarkAll(qs, b).value);
  }

  /** The score is at most the number of answers submitted; the total is the
      number of questions, and a test without questions is never passed. */
  lemma SubmissionBounds(qs: seq<Question>, answers: seq<Answer>)
    requires Submit(qs, answers).Ok?
    ensures var s := Submit(qs, answers).value;
      s.score <= |answers| && s.total == |qs| && |s.answers| == |answers|
      && (|qs| == 0 ==> !s.passed)
      && (s.passed <==> 100 * s.score >= 60 * |qs| && |qs| > 0)
  {
    MarkAllShape(qs, answers);
  }

  /** One answer's correctness as the loop body computes it. */
  method MarkOne(qs: seq<Question>, a: Answer) returns (m: Result<MarkedAnswer>)
    ensures m == Mark(qs, a)
  {
    var question: Option<Question>;
    if a.questionId < |qs| {
      if a.questionId >= 0 {
        question := Some(qs[a.questionId]);
      } else if a.questionId >= -|qs| {
        question := Some(qs[|qs| + a.questionId]);
      } else {
        return Err(IndexError);
      }
    } else {
      question := None;
    }
    var isCorrect := false;
    if question.Some? && a.selectedAnswer == question.value.correctAnswer {
      isCorrect := true;
    }
    return Ok(MarkedAnswer(a.questionId, a.selectedAnswer, isCorrect));
  }

  lemma MarkStep(qs: seq<Question>, answers: seq<Answer>, done: seq<MarkedAnswer>, pending: seq<Answer>, m: MarkedAnswer)
    requires pending != [] && Mark(qs, pending[0]) == Ok(m)
    requires MarkAll(qs, answers) == Prepend(done, MarkAll(qs, pending))
    ensures MarkAll(qs, answers) == Prepend(done + [m], MarkAll(qs, pending[1..]))
  {
    var rest := MarkAll(qs, pending[1..]);
    if rest.Ok? {
      assert done + ([m] + rest.value) == (done + [m]) + rest.value;
    }
  }

  /** The scoring part of `submit_test` (lines 189-214). */
  method ScoreSubmission(qs: seq<Question>, answers: seq<Answer>) returns (r: Result<Submission>)
    ensures r == Submit(qs, answers)
  {
    var total := |qs|;
    var correct := 0;
    var marked: seq<MarkedAnswer> := [];
    var pending := answers;
    assert MarkAll(qs, answers) == Prepend(marked, MarkAll(qs, pending)) by {
      if MarkAll(qs, answers).Ok? { assert [] + MarkAll(qs, answers).value == MarkAll(qs, answers).value; }
    }
    while pending != []
      invariant MarkAll(qs, answers) == Prepend(marked, MarkAll(qs, pending))
      invariant correct == CountCorrect(marked)
      decreases |pending|
    {
      var m := MarkOne(qs, pending[0]);
      if m.Err? {
        return Err(m.error);
      }
      MarkStep(qs, answers, marked, pending, m.value);
      CountAppend(marked, [m.value]);
      if m.value.isCorrect {
        correct := correct + 1;
      }
      marked := marked + [m.value];
      pending := pending[1..];
    }
    assert marked + [] == marked;
    var passed := total > 0 && correct * 100 >= 60 * total;
    return Ok(Submission(marked, correct, total, passed));
  }

  // ---------------------------------------------------------------------------
  // Question checks of `create_test` and `update_test` (lines 330-340, 379-389)

  const TooFewOptions: string := " must have at least 2 options"
  const AnswerNotAnOption: string := ": correct_answer must be one of the options"

  /** A question a methodist may save. */
  predicate Acceptable(q: Question) {
    |q.options| >= 2 && q.correctAnswer in q.options
  }

  /** The rejection of question `idx`, if any. */
  function Problem(q: Question, idx: nat): (r: Option<string>)
    ensures r.None? <==> Acceptable(q)
  {
    if |q.options| < 2 then Some("Question " + NatToString(idx) + TooFewOptions)
    else if q.correctAnswer !in q.options then Some("Question " + NatToString(idx) + AnswerNotAnOption)
    else None
  }

  /** The first rejection among the questions from index `from` on. */
  function FirstProblem(qs: seq<Question>, from: nat): Option<string>
    requires from <= |qs|
    decreases |qs| - from
  {
    if from == |qs| then None
    else if Problem(qs[from], from).Some? then Problem(qs[from], from)
    else FirstProblem(qs, from + 1)
  }

  /** The questions are accepted exactly when each one is acceptable; a rejection
      names the first question that is not. */
  lemma {:induction false} ValidationOutcome(qs: seq<Question>, from: nat)
    requires from <= |qs|
    ensures FirstProblem(qs, from).None? <==> forall k | from <= k < |qs| :: Acceptable(qs[k])
    ensures FirstProblem(qs, from).Some? ==>
      exists k | from <= k < |qs| :: !Acceptable(qs[k]) && FirstProblem(qs, from) == Problem(qs[k], k)
        && forall j | from <= j < k :: Acceptable(qs[j])
    decreases |qs| - from
  {
    if from < |qs| {
      ValidationOutcome(qs, from + 1);
      if Problem(qs[from], from).None? && FirstProblem(qs, from).Some? {
        var k :| from + 1 <= k < |qs| && !Acceptable(qs[k]) && FirstProblem(qs, from + 1) == Problem(qs[k], k)
          && forall j | from + 1 <= j < k :: Acceptable(qs[j]);
        assert forall j | from <= j < k :: Acceptable(qs[j]);
      }
    }
  }

  /** The validation loop: `None` when every question is acceptable. */
  method ValidateQuestions(qs: seq<Question>) returns (problem: Option<string>)
    ensures problem == FirstProblem(qs, 0)
  {
    var idx := 0;
    while idx < |qs|
      invariant 0 <= idx <= |qs|
      invariant FirstProblem(qs, 0) == FirstProblem(qs, idx)
    {
      var q := qs[idx];
      if |q.options| < 2 {
        return Some("Question " + NatToString(idx) + TooFewOptions);
      }
      if q.correctAnswer !in q.options {
        return Some("Question " + NatToString(idx) + AnswerNotAnOption);
      }
      idx := idx + 1;
    }
    return None;
  }

  // ---------------------------------------------------------------------------
  // Student views (lines 40-52, 92-104, 136-148)

  /** `TestForStudent`. */
  datatype StudentTest = StudentTest(id: nat, courseId: int, questions: seq<StudentQuestion>)

  /** `[QuestionForStudent(id=idx, ...) for idx, q in enumerate(questions)]`. */
  function ForStudent(qs: seq<Question>): (r: seq<StudentQuestion>)
    ensures |r| == |qs|
  {
    seq(|qs|, k requires 0 <= k < |qs| => StudentQuestion(k, qs[k].question, qs[k].options))
  }

  /** The view keeps each question's position, text and options and nothing
      else: two tests look the same to a student exactly when they differ at
      most in their correct answers. */
  lemma ViewHidesAnswers(qs: seq<Question>, other: seq<Question>)
    ensures ForStudent(qs) == ForStudent(other) <==>
      |qs| == |other| && forall k | 0 <= k < |qs| :: qs[k].question == other[k].question && qs[k].options == other[k].options
  {
    if ForStudent(qs) == ForStudent(other) {
      forall k | 0 <= k < |qs| ensures qs[k].question == other[k].question && qs[k].options == other[k].options {
        assert ForStudent(qs)[k] == ForStudent(other)[k];
      }
    }
  }

  /** Student question `k` has id `k` and shows question `k`. */
  lemma ViewAt(qs: seq<Question>, k: nat)
    requires k < |qs|
    ensures ForStudent(qs)[k].id == k && ForStudent(qs)[k].question == qs[k].question
      && ForStudent(qs)[k].options == qs[k].options
  {
  }

  function StudentView(t: Row<TestStore.TestRecord>): StudentTest {
    StudentTest(t.id, t.value.courseId, ForStudent(t.value.questions))
  }

  /** The tests of the given courses, in course order, skipping a course without one. */
  function Available(courses: seq<Row<CourseStore.Course>>, tests: seq<Row<TestStore.TestRecord>>): seq<StudentTest> {
    if courses == [] then [] else Entry(courses[0], tests) + Available(courses[1..], tests)
  }

  /** The course's test as a student sees it, if it has one. */
  function Entry(course: Row<CourseStore.Course>, tests: seq<Row<TestStore.TestRecord>>): (e: seq<StudentTest>)
    ensures |e| <= 1 && forall k | 0 <= k < |e| :: e[k].courseId == course.id
  {
    match TestStore.ByCourse(tests, course.id)
    case None => []
    case Some(t) => [StudentView(t)]
  }

  /** What `get_tests(skip, limit)` returns: one page of published courses, each with its test. */
  function StudentTests(courses: seq<Row<CourseStore.Course>>, tests: seq<Row<TestStore.TestRecord>>,
                        skip: nat, limit: nat): seq<StudentTest> {
    Available(CourseStore.Listing(courses, skip, limit, Some(CourseStore.Published)), tests)
  }

  /** Each listed test belongs to one of the courses. */
  lemma {:induction false} AvailableFromCourses(courses: seq<Row<CourseStore.Course>>, tests: seq<Row<TestStore.TestRecord>>)
    ensures var r := Available(courses, tests);
      |r| <= |courses| && forall k | 0 <= k < |r| :: exists m | 0 <= m < |courses| :: courses[m].id == r[k].courseId
  {
    if courses != [] {
      var head := Entry(courses[0], tests);
      var rest := Available(courses[1..], tests);
      AvailableFromCourses(courses[1..], tests);
      var r := Available(courses, tests);
      assert r == head + rest;
      forall k | 0 <= k < |r| ensures exists m | 0 <= m < |courses| :: courses[m].id == r[k].courseId {
        if k < |head| {
          assert courses[0].id == r[k].courseId;
        } else {
          var m :| 0 <= m < |courses[1..]| && courses[1..][m].id == rest[k - |head|].courseId;
          assert courses[m + 1].id == r[k].courseId;
        }
      }
    }
  }

  /** A bound on the courses' keys bounds the listed tests' courses. */
  lemma {:induction false} AvailableAbove(courses: seq<Row<CourseStore.Course>>, tests: seq<Row<TestStore.TestRecord>>, bound: int)
    requires forall m | 0 <= m < |courses| :: courses[m].id > bound
    ensures forall k | 0 <= k < |Available(courses, tests)| :: Available(courses, tests)[k].courseId > bound
  {
    if courses != [] {
      AvailableAbove(courses[1..], tests, bound);
      var head := Entry(courses[0], tests);
      assert Available(courses, tests) == head + Available(courses[1..], tests);
    }
  }

  predicate Increasing(r: seq<StudentTest>) {
    forall i, j | 0 <= i < j < |r| :: r[i].courseId < r[j].courseId
  }

  /** Over courses in key order, the listed tests' courses increase strictly. */
  lemma {:induction false} AvailableIncreasing(courses: seq<Row<CourseStore.Course>>, tests: seq<Row<TestStore.TestRecord>>)
    requires Ascending(courses)
    ensures Increasing(Available(courses, tests))
  {
    if courses != [] {
      var head := Entry(courses[0], tests);
      var rest := Available(courses[1..], tests);
      AvailableIncreasing(courses[1..], tests);
      assert forall m | 0 <= m < |courses[1..]| :: courses[1..][m].id > courses[0].id by {
        forall m | 0 <= m < |courses[1..]| ensures courses[1..][m].id > courses[0].id {
          assert courses[1..][m] == courses[m + 1];
        }
      }
      AvailableAbove(courses[1..], tests, courses[0].id);
      var r := Available(courses, tests);
      assert r == head + rest;
      forall i, j | 0 <= i < j < |r| ensures r[i].courseId < r[j].courseId {
        if i >= |head| {
          assert r[i] == rest[i - |head|] && r[j] == rest[j - |head|];
          assert rest[i - |head|].courseId < rest[j - |head|].courseId;
        } else {
          assert j >= |head| && r[i] == head[i] && r[j] == rest[j - |head|];
          assert head[i].courseId == courses[0].id < rest[j - |head|].courseId;
        }
      }
    }
  }

  /** `get_tests` lists only tests of published courses, at most one per course. */
  lemma StudentTestsPublished(courses: seq<Row<CourseStore.Course>>, tests: seq<Row<TestStore.TestRecord>>,
                              skip: nat, limit: nat)
    requires Ascending(courses)
    ensures var r := StudentTests(courses, tests, skip, limit);
      |r| <= limit
      && (forall k | 0 <= k < |r| :: exists c | c in courses :: c.id == r[k].courseId && c.value.status == CourseStore.Published)
      && (forall i, j | 0 <= i < j < |r| :: r[i].courseId != r[j].courseId)
  {
    var published := CourseStore.Listing(courses, skip, limit, Some(CourseStore.Published));
    var matching := Where(courses, CourseStore.HasStatus(Some(CourseStore.Published)));
    WhereAscending(courses, CourseStore.HasStatus(Some(CourseStore.Published)));
    PageAscending(matching, skip, limit);
    AvailableFromCourses(published, tests);
    AvailableIncreasing(published, tests);
    var r := StudentTests(courses, tests, skip, limit);
    forall k | 0 <= k < |r| ensures exists c | c in courses :: c.id == r[k].courseId && c.value.status == CourseStore.Published {
      var m :| 0 <= m < |published| && published[m].id == r[k].courseId;
      assert published[m] in courses;
    }
  }

  lemma AvailableStep(courses: seq<Row<CourseStore.Course>>, tests: seq<Row<TestStore.TestRecord>>,
                      done: seq<StudentTest>, pending: seq<Row<CourseStore.Course>>)
    requires pending != []
    ensures done + Available(pending, tests) == (done + Entry(pending[0], tests)) + Available(pending[1..], tests)
  {
    assert done + (Entry(pending[0], tests) + Available(pending[1..], tests))
        == (done + Entry(pending[0], tests)) + Available(pending[1..], tests);
  }

  /** `get_tests`. */
  method GetTests(courses: CourseStore.Courses, tests: TestStore.Tests, skip: nat, limit: nat)
    returns (r: seq<StudentTest>)
    ensures r == StudentTests(courses.rows, tests.rows, skip, limit)
  {
    var published := courses.GetCourses(skip, limit, Some(CourseStore.Published));
    r := [];
    var pending := published;
    while pending != []
      invariant r + Available(pending, tests.rows) == Available(published, tests.rows)
      decreases |pending|
    {
      AvailableStep(published, tests.rows, r, pending);
      var test := tests.GetTestByCourse(pending[0].id);
      if test.Some? {
        r := r + [StudentView(test.value)];
      } else {
        assert r + Entry(pending[0], tests.rows) == r;
      }
      pending := pending[1..];
    }
    assert r + [] == r;
  }
}
