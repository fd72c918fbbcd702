/** The question record stored in a test's `questions` list
    (`{question, options, correct_answer}`) and what a student sees of it. */
module Questions {
  datatype Question = Question(question: string, options: seq<string>, correctAnswer: string)

  /** `QuestionForStudent`: the index as id, no correct answer. */
  datatype StudentQuestion = StudentQuestion(id: nat, question: string, options: seq<string>)
}
