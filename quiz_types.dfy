/** The records the quiz pages and routes pass around (the question and answer rows of the store). */
module QuizTypes {

  datatype QuestionType = Mcq | TrueFalse | MultiSelect

  /**
   * A quiz question. The store always holds `correct_answer` as a list of option indices,
   * which is how the card reads it.
   */
  datatype Question = Question(
    id: string,
    question: string,
    options: seq<string>,
    correctAnswer: seq<int>,
    questionType: QuestionType)

  /** The card's selection: one option index, or a list of them for multi-select questions. */
  datatype Selection = Single(index: int) | Multiple(indices: seq<int>)

  /** One submitted answer. */
  datatype Answer = Answer(
    questionId: string,
    selectedAnswer: Selection,
    isCorrect: bool,
    timeTakenSeconds: int)

  ghost predicate NoRepeats(s: seq<int>)
  {
    forall p, q :: 0 <= p < q < |s| ==> s[p] != s[q]
  }
}
