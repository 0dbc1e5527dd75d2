/**
 * The quiz page: loading a session of questions, taking one answer at a time, and storing the
 * result for the result page once the last question is answered.
 */
module QuizPage {
  import opened Js
  import opened QuizTypes
  import ProgressBar

  /** The session without its start time; elapsed seconds are passed in where the page reads the clock. */
  datatype Session = Session(
    questions: seq<Question>,
    currentQuestionIndex: int,
    answers: seq<Answer>,
    language: string,
    userName: string)

  /** The record written under `quizResult` for the result page. */
  datatype StoredResult = StoredResult(
    totalQuestions: int,
    correctAnswers: int,
    timeTaken: int,
    answers: seq<Answer>,
    userName: string,
    language: string,
    questions: seq<Question>)

  /**
   * The outcome of `fetch("/api/quiz?limit=3")` and of reading its JSON: a rejected request,
   * a reply that is not ok, an ok reply whose body is not JSON, or a JSON body whose
   * `questions` may be missing. The two failures carry the message of the error thrown.
   */
  datatype FetchReply = Rejected(message: string) | NotOk | Unparsable(message: string) | Ok(questions: Option<seq<Question>>)

  /** What loading leads to: back to the start page, an error message on screen, or a session. */
  datatype LoadOutcome = RedirectHome | LoadFailed(message: string) | Loaded(session: Session)

  /** A stored string is truthy when it is present and not empty. */
  predicate Truthy(s: Option<string>)
  {
    s.Some? && s.value != ""
  }

  /** A session in progress: one answer per question already passed, and a current question. */
  ghost predicate InProgress(s: Session)
  {
    0 <= s.currentQuestionIndex < |s.questions| && |s.answers| == s.currentQuestionIndex
  }

  /** `initializeQuiz`, with the two stored strings and the reply passed in. */
  function InitializeQuiz(userName: Option<string>, userLanguage: Option<string>, reply: FetchReply): (r: LoadOutcome)
    ensures r.RedirectHome? <==> !Truthy(userName) || !Truthy(userLanguage)
    ensures Truthy(userName) && Truthy(userLanguage) && (reply.Rejected? || reply.Unparsable?) ==>
      r == LoadFailed(reply.message)
    ensures Truthy(userName) && Truthy(userLanguage) && reply.NotOk? ==> r == LoadFailed("Failed to load questions")
    ensures Truthy(userName) && Truthy(userLanguage) && reply.Ok? ==>
      (r.Loaded? <==> reply.questions.Some? && reply.questions.value != [])
    ensures r.Loaded? ==>
      && reply.Ok? && reply.questions.Some? && r.session.questions == reply.questions.value
      && r.session.userName == userName.value && r.session.language == userLanguage.value
      && r.session.currentQuestionIndex == 0 && r.session.answers == []
  {
    if !Truthy(userName) || !Truthy(userLanguage) then RedirectHome
    else
      match reply
      case Rejected(message) => LoadFailed(message)
      case NotOk => LoadFailed("Failed to load questions")
      case Unparsable(message) => LoadFailed(message)
      case Ok(questions) =>
        if questions.None? || |questions.value| == 0 then LoadFailed("No questions available")
        else Loaded(Session(questions.value, 0, [], userLanguage.value, userName.value))
  }

  /** A loaded session is in progress at its first question. */
  lemma LoadedInProgress(userName: Option<string>, userLanguage: Option<string>, reply: FetchReply)
    requires InitializeQuiz(userName, userLanguage, reply).Loaded?
    ensures InProgress(InitializeQuiz(userName, userLanguage, reply).session)
  {
  }

  /**
   * Loading fails with "No questions available" exactly when the reply is ok but lists no
   * questions, or when a failing request or JSON read throws an error with that same text.
   */
  lemma NoQuestionsMessage(userName: Option<string>, userLanguage: Option<string>, reply: FetchReply)
    requires Truthy(userName) && Truthy(userLanguage)
    ensures InitializeQuiz(userName, userLanguage, reply) == LoadFailed("No questions available") <==>
      || (reply.Ok? && (reply.questions.None? || reply.questions.value == []))
      || ((reply.Rejected? || reply.Unparsable?) && reply.message == "No questions available")
  {
  }

  /** `answers.filter(a => a.is_correct).length`. */
  function CountCorrect(answers: seq<Answer>): (n: nat)
    ensures n <= |answers|
  {
    if answers == [] then 0
    else CountCorrect(answers[..|answers| - 1]) + (if answers[|answers| - 1].isCorrect then 1 else 0)
  }

  /** The count is the number of positions holding a correct answer. */
  lemma {:induction false} CountCorrectIsSize(answers: seq<Answer>)
    ensures CountCorrect(answers) == |set i | 0 <= i < |answers| && answers[i].isCorrect|
  {
    if answers != [] {
      var n := |answers| - 1;
      var init := answers[..n];
      CountCorrectIsSize(init);
      var before := set i | 0 <= i < n && init[i].isCorrect;
      var all := set i | 0 <= i < |answers| && answers[i].isCorrect;
      assert before == set i | 0 <= i < n && answers[i].isCorrect;
      if answers[n].isCorrect {
        assert all == before + {n};
      } else {
        assert all == before;
      }
    }
  }

  /** `(currentQuestionIndex + 1) / questions.length * 100`. */
  function Progress(s: Session): (p: real)
    requires |s.questions| > 0
    ensures 0 <= s.currentQuestionIndex < |s.questions| ==> 0.0 < p <= 100.0
  {
    (s.currentQuestionIndex + 1) as real / |s.questions| as real * 100.0
  }

  /** While a question is on screen the progress lies in (0, 100], reaching 100 on the last question. */
  lemma ProgressBounds(s: Session)
    requires 0 <= s.currentQuestionIndex < |s.questions|
    ensures 0.0 < Progress(s) <= 100.0
    ensures Progress(s) == 100.0 <==> s.currentQuestionIndex == |s.questions| - 1
  {
    var n := |s.questions| as real;
    var k := (s.currentQuestionIndex + 1) as real;
    assert Progress(s) * n == k * 100.0;
  }

  /** The bar, with its default maximum, shows the progress unchanged. */
  lemma ProgressBarShowsProgress(s: Session)
    requires 0 <= s.currentQuestionIndex < |s.questions|
    ensures ProgressBar.Percentage(Progress(s), ProgressBar.DefaultMax) == ProgressBar.Finite(Progress(s))
  {
    ProgressBounds(s);
    ProgressBar.DefaultMaxIsValue(Progress(s));
  }

  /** The page's state that `handleAnswer` touches: the session, and what it stores for the result page. */
  class Page {
    var session: Option<Session>
    var storedResult: Option<StoredResult>

    constructor(loaded: LoadOutcome)
      ensures session == (if loaded.Loaded? then Some(loaded.session) else None)
      ensures storedResult == None
    {
      session := if loaded.Loaded? then Some(loaded.session) else None;
      storedResult := None;
    }

    /**
     * `handleAnswer`: append the answer; after the last question store the result (and leave
     * for the result page), otherwise move to the next question.
     */
    method HandleAnswer(answer: Answer, elapsedSeconds: int)
      modifies this
      ensures old(session).None? ==> session == old(session) && storedResult == old(storedResult)
      ensures old(session).Some? ==>
        var s := old(session).value;
        var newAnswers := s.answers + [answer];
        if s.currentQuestionIndex + 1 >= |s.questions| then
          && session == old(session)
          && storedResult == Some(StoredResult(|s.questions|, CountCorrect(newAnswers), elapsedSeconds,
                                               newAnswers, s.userName, s.language, s.questions))
        else
          && session == Some(s.(currentQuestionIndex := s.currentQuestionIndex + 1, answers := newAnswers))
          && storedResult == old(storedResult)
      ensures old(session).Some? && InProgress(old(session).value) ==>
        EndOfStep(old(session).value, answer, session, storedResult)
    {
      if session.None? {
        return;
      }
      var s := session.value;
      var newAnswers := s.answers + [answer];
      var nextQuestionIndex := s.currentQuestionIndex + 1;
      if nextQuestionIndex >= |s.questions| {
        var correctAnswers := CountCorrect(newAnswers);
        storedResult := Some(StoredResult(|s.questions|, correctAnswers, elapsedSeconds,
                                          newAnswers, s.userName, s.language, s.questions));
      } else {
        session := Some(s.(currentQuestionIndex := nextQuestionIndex, answers := newAnswers));
      }
    }
  }

  /**
   * What one answer does to a session in progress: either the next question is in progress with
   * one more answer, or the stored result covers every question with one answer each.
   */
  ghost predicate EndOfStep(s: Session, answer: Answer, session: Option<Session>, stored: Option<StoredResult>)
  {
    if s.currentQuestionIndex + 1 < |s.questions| then
      && session.Some? && InProgress(session.value)
      && session.value.answers == s.answers + [answer]
    else
      && stored.Some?
      && stored.value.totalQuestions == |s.questions| == |stored.value.answers|
      && stored.value.answers == s.answers + [answer]
      && 0 <= stored.value.correctAnswers <= stored.value.totalQuestions
  }
}
