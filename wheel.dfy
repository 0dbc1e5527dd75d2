/**
 * The spin-the-wheel page: spin to pick one of six topics, read about it, answer its question,
 * and see whether the answer was right.
 */
module Wheel {
  import opened Js

  /** A wheel segment, reduced to what the state machine reads: its id and its question's correct option. */
  datatype Segment = Segment(id: string, correct: int)

  const Segments: seq<Segment> := [
    Segment("basics", 1),
    Segment("types", 1),
    Segment("symptoms", 2),
    Segment("prevention", 1),
    Segment("treatment", 2),
    Segment("awareness", 2)
  ]

  /** Every segment's question offers four options. */
  const OptionCount := 4

  /** `Math.floor(Math.random() * wheelSegments.length)`. */
  function SegmentIndex(random: real): (i: int)
    requires 0.0 <= random < 1.0
    ensures 0 <= i < |Segments|
    ensures i as real <= random * |Segments| as real < (i + 1) as real
  {
    (random * |Segments| as real).Floor
  }

  /** Every segment can come up. */
  lemma EverySegmentReachable(i: int)
    requires 0 <= i < |Segments|
    ensures SegmentIndex(i as real / |Segments| as real) == i
  {
    var r := i as real / |Segments| as real;
    assert r * |Segments| as real == i as real;
  }

  /** `wheelSegments.findIndex(s => s.id === id)`: the first position with that id, or -1. */
  function FindIndex(segments: seq<Segment>, id: string): (k: int)
    ensures -1 <= k < |segments|
    ensures 0 <= k ==> segments[k].id == id && forall j :: 0 <= j < k ==> segments[j].id != id
    ensures k == -1 ==> forall j :: 0 <= j < |segments| ==> segments[j].id != id
  {
    if segments == [] then -1
    else if segments[0].id == id then 0
    else
      var rest := FindIndex(segments[1..], id);
      if rest == -1 then -1 else rest + 1
  }

  /** `getRotation`: no turn without a segment, else `360 / 6` degrees per position of the segment. */
  function Rotation(selected: Option<Segment>): (r: int)
    ensures selected.None? ==> r == 0
    ensures selected.Some? && selected.value in Segments ==>
      0 <= r <= 300 && Segments[r / 60].id == selected.value.id
  {
    if selected.None? then 0
    else
      var k := FindIndex(Segments, selected.value.id);
      var step := 360 / |Segments|;
      assert step == 60;
      assert selected.value in Segments ==> 0 <= k && (step * k) / 60 == k by {
        if selected.value in Segments {
          SegmentFound(selected.value);
          StepPosition(k);
        }
      }
      step * k
  }

  /** A segment of the wheel is found by its id. */
  lemma SegmentFound(s: Segment)
    requires s in Segments
    ensures 0 <= FindIndex(Segments, s.id)
  {
    var j :| 0 <= j < |Segments| && Segments[j] == s;
  }

  lemma StepPosition(k: int)
    requires 0 <= k < 6
    ensures (60 * k) / 60 == k
  {
  }

  /** The segment ids are all different, so the rotation of segment `i` is `60 * i` degrees. */
  lemma RotationOfSegment(i: int)
    requires 0 <= i < |Segments|
    ensures Rotation(Some(Segments[i])) == 60 * i
    ensures 0 <= Rotation(Some(Segments[i])) <= 300
  {
    assert forall j, k :: 0 <= j < k < |Segments| ==> Segments[j].id != Segments[k].id;
  }

  /** Which of the five screens the page renders. */
  datatype View = WheelView | LearningView | QuestionView | ResultView | SegmentView

  /** The conditional rendering, tested in order: no segment, learning, question, result, else the segment. */
  function ViewOf(selected: Option<Segment>, showLearning: bool, showQuestion: bool, showResult: bool): (v: View)
    ensures v == WheelView <==> selected.None?
    ensures v == ResultView <==> selected.Some? && !showLearning && !showQuestion && showResult
    ensures v == QuestionView <==> selected.Some? && !showLearning && showQuestion
    ensures v == LearningView <==> selected.Some? && showLearning
    ensures v == SegmentView <==> selected.Some? && !showLearning && !showQuestion && !showResult
  {
    if selected.None? then WheelView
    else if showLearning then LearningView
    else if showQuestion then QuestionView
    else if showResult then ResultView
    else SegmentView
  }

  /** What can happen on the page: a button press (the screen's own buttons) or the spin timer firing. */
  datatype Event =
    | PressSpin(random: real)
    | TimerFires
    | PressLearnMore
    | PressStartQuiz
    | PressOption(index: int)
    | PressSubmit
    | PressNextSpin

  class WheelPage {
    var isSpinning: bool
    var selectedSegment: Option<Segment>
    var showLearning: bool
    var showQuestion: bool
    var selectedAnswer: Option<int>
    var showResult: bool
    var score: int
    var spins: int
    /** The segment the scheduled two-second timeout will select, while one is pending. */
    var pendingTimer: Option<Segment>

    constructor()
      ensures !isSpinning && selectedSegment == None && !showLearning && !showQuestion
      ensures selectedAnswer == None && !showResult && score == 0 && spins == 0 && pendingTimer == None
      ensures Reachable()
    {
      isSpinning := false;
      selectedSegment := None;
      showLearning := false;
      showQuestion := false;
      selectedAnswer := None;
      showResult := false;
      score := 0;
      spins := 0;
      pendingTimer := None;
    }

    function View(): View
      reads this
    {
      ViewOf(selectedSegment, showLearning, showQuestion, showResult)
    }

    /** Whether an event can happen now: its button is on screen and enabled, or the timer is pending. */
    predicate Allowed(e: Event)
      reads this
    {
      match e
      case PressSpin(random) => View() == WheelView && !isSpinning && 0.0 <= random < 1.0
      case TimerFires => pendingTimer.Some?
      case PressLearnMore => View() == SegmentView
      case PressStartQuiz => View() == LearningView
      case PressOption(index) => View() == QuestionView && 0 <= index < OptionCount
      case PressSubmit => View() == QuestionView && selectedAnswer.Some?
      case PressNextSpin => View() == ResultView
    }

    /** The points still to be won for the segment on screen: one until its answer has been judged. */
    function Open(): int
      reads this
    {
      if selectedSegment.Some? && !showResult then 1 else 0
    }

    /**
     * What holds in every state the page can reach when submitting leaves the question screen:
     * a timer is pending exactly while spinning, a spin clears the screen, a judged answer has
     * left the question and learning screens, and at most one point per spin.
     */
    ghost predicate Reachable()
      reads this
    {
      && (isSpinning <==> pendingTimer.Some?)
      && (pendingTimer.Some? ==> pendingTimer.value in Segments)
      && (isSpinning ==> selectedSegment.None?)
      && (selectedSegment.None? ==> !showLearning && !showQuestion && !showResult)
      && (showResult ==> !showQuestion && !showLearning)
      && 0 <= score && score + Open() <= spins
    }

    /**
     * What holds in every state the page as written can reach: the result flag is only ever
     * set while the question screen is up, so the question screen hides it.
     */
    ghost predicate ReachableAsWritten()
      reads this
    {
      && (isSpinning <==> pendingTimer.Some?)
      && (isSpinning ==> selectedSegment.None?)
      && (selectedSegment.None? ==> !showLearning && !showQuestion && !showResult)
      && (showResult ==> showQuestion && !showLearning)
    }

    /** `spinWheel`, up to scheduling the timeout: the guard, clearing the screen, and drawing the segment. */
    method SpinWheel(random: real)
      requires 0.0 <= random < 1.0
      modifies this
      ensures old(isSpinning) ==>
        && isSpinning == old(isSpinning) && selectedSegment == old(selectedSegment)
        && showLearning == old(showLearning) && showQuestion == old(showQuestion)
        && selectedAnswer == old(selectedAnswer) && showResult == old(showResult)
        && pendingTimer == old(pendingTimer)
      ensures !old(isSpinning) ==>
        && isSpinning && selectedSegment == None && !showLearning && !showQuestion
        && selectedAnswer == None && !showResult
        && pendingTimer == Some(Segments[SegmentIndex(random)])
      ensures score == old(score) && spins == old(spins)
    {
      if isSpinning {
        return;
      }
      isSpinning := true;
      selectedSegment := None;
      showLearning := false;
      showQuestion := false;
      showResult := false;
      selectedAnswer := None;
      var randomIndex := SegmentIndex(random);
      pendingTimer := Some(Segments[randomIndex]);
    }

    /** The timeout's callback: show the drawn segment, stop spinning, count the spin. */
    method TimerComplete()
      requires pendingTimer.Some?
      modifies this
      ensures selectedSegment == old(pendingTimer) && !isSpinning && spins == old(spins) + 1
      ensures pendingTimer == None
      ensures showLearning == old(showLearning) && showQuestion == old(showQuestion)
      ensures selectedAnswer == old(selectedAnswer) && showResult == old(showResult) && score == old(score)
    {
      selectedSegment := pendingTimer;
      isSpinning := false;
      spins := spins + 1;
      pendingTimer := None;
    }

    /** `handleLearnMore`. */
    method LearnMore()
      modifies this
      ensures showLearning
      ensures isSpinning == old(isSpinning) && selectedSegment == old(selectedSegment)
      ensures showQuestion == old(showQuestion) && selectedAnswer == old(selectedAnswer) && showResult == old(showResult)
      ensures score == old(score) && spins == old(spins) && pendingTimer == old(pendingTimer)
    {
      showLearning := true;
    }

    /** `handleStartQuiz`. */
    method StartQuiz()
      modifies this
      ensures !showLearning && showQuestion
      ensures isSpinning == old(isSpinning) && selectedSegment == old(selectedSegment)
      ensures selectedAnswer == old(selectedAnswer) && showResult == old(showResult)
      ensures score == old(score) && spins == old(spins) && pendingTimer == old(pendingTimer)
    {
      showLearning := false;
      showQuestion := true;
    }

    /** `handleAnswerSelect(index)`. */
    method AnswerSelect(index: int)
      modifies this
      ensures selectedAnswer == Some(index)
      ensures isSpinning == old(isSpinning) && selectedSegment == old(selectedSegment)
      ensures showLearning == old(showLearning) && showQuestion == old(showQuestion) && showResult == old(showResult)
      ensures score == old(score) && spins == old(spins) && pendingTimer == old(pendingTimer)
    {
      selectedAnswer := Some(index);
    }

    /**
     * `handleSubmitAnswer` as written: a point for the segment's correct option, and the result
     * flag set, but the question flag left on.
     */
    method SubmitAnswer()
      modifies this
      ensures old(selectedAnswer).None? ==> score == old(score) && showResult == old(showResult)
      ensures old(selectedAnswer).Some? ==>
        && score == old(score) + (if IsCorrect(old(selectedAnswer), old(selectedSegment)) then 1 else 0)
        && showResult
      ensures isSpinning == old(isSpinning) && selectedSegment == old(selectedSegment)
      ensures showLearning == old(showLearning) && showQuestion == old(showQuestion)
      ensures selectedAnswer == old(selectedAnswer) && spins == old(spins) && pendingTimer == old(pendingTimer)
    {
      if selectedAnswer.None? {
        return;
      }
      if IsCorrect(selectedAnswer, selectedSegment) {
        score := score + 1;
      }
      showResult := true;
    }

    /** The submit handler as evidently intended: the same, and the question screen closed so the result shows. */
    method SubmitAnswerIntended()
      modifies this
      ensures old(selectedAnswer).None? ==>
        score == old(score) && showResult == old(showResult) && showQuestion == old(showQuestion)
      ensures old(selectedAnswer).Some? ==>
        && score == old(score) + (if IsCorrect(old(selectedAnswer), old(selectedSegment)) then 1 else 0)
        && showResult && !showQuestion
      ensures isSpinning == old(isSpinning) && selectedSegment == old(selectedSegment)
      ensures showLearning == old(showLearning)
      ensures selectedAnswer == old(selectedAnswer) && spins == old(spins) && pendingTimer == old(pendingTimer)
    {
      if selectedAnswer.None? {
        return;
      }
      if IsCorrect(selectedAnswer, selectedSegment) {
        score := score + 1;
      }
      showQuestion := false;
      showResult := true;
    }

    /** `handleNextSpin`: back to the wheel, keeping score and spins. */
    method NextSpin()
      modifies this
      ensures selectedSegment == None && !showLearning && !showQuestion && !showResult && selectedAnswer == None
      ensures isSpinning == old(isSpinning) && score == old(score) && spins == old(spins)
      ensures pendingTimer == old(pendingTimer)
    {
      selectedSegment := None;
      showLearning := false;
      showQuestion := false;
      showResult := false;
      selectedAnswer := None;
    }

    /**
     * One event of the page with the intended submit handler. Every reachable state stays
     * reachable, so no spin earns more than one point.
     */
    method Step(e: Event)
      requires Reachable() && Allowed(e)
      modifies this
      ensures Reachable()
      ensures score <= spins
      ensures e.PressSubmit? ==> View() == ResultView
      ensures e == TimerFires ==> spins == old(spins) + 1 && View() == SegmentView
      ensures !e.TimerFires? ==> spins == old(spins)
    {
      match e
      case PressSpin(random) => SpinWheel(random);
      case TimerFires => TimerComplete();
      case PressLearnMore => LearnMore();
      case PressStartQuiz => StartQuiz();
      case PressOption(index) => AnswerSelect(index);
      case PressSubmit => SubmitAnswerIntended();
      case PressNextSpin => NextSpin();
    }

    /** One event of the page as written: the result screen never shows. */
    method StepAsWritten(e: Event)
      requires ReachableAsWritten() && Allowed(e)
      modifies this
      ensures ReachableAsWritten()
      ensures View() != ResultView
      ensures e.PressSubmit? ==> View() == QuestionView && score >= old(score)
    {
      match e
      case PressSpin(random) => SpinWheel(random);
      case TimerFires => TimerComplete();
      case PressLearnMore => LearnMore();
      case PressStartQuiz => StartQuiz();
      case PressOption(index) => AnswerSelect(index);
      case PressSubmit => SubmitAnswer();
      case PressNextSpin =>
        // the "Spin Again" button sits on the result screen, which never shows
        assert false;
    }
  }

  /** `selectedAnswer === selectedSegment?.question.correct`: never true without a segment. */
  predicate IsCorrect(answer: Option<int>, selected: Option<Segment>)
    ensures IsCorrect(answer, selected) ==>
      answer.Some? && selected.Some? && (selected.value in Segments ==> 0 <= answer.value < OptionCount)
  {
    answer.Some? && selected.Some? && answer.value == selected.value.correct
  }

  /**
   * As written, submitting keeps the question screen up: its submit button stays enabled, the
   * result screen never appears, and submitting a correct answer twice scores two points on one spin.
   */
  method SubmitTwiceAsWritten() returns (score: int, spins: int, view: View)
    ensures score == 2 && spins == 1 && view == QuestionView
  {
    var page := new WheelPage();
    page.SpinWheel(0.0);
    page.TimerComplete();
    assert page.View() == SegmentView;
    page.LearnMore();
    assert page.View() == LearningView;
    page.StartQuiz();
    assert page.View() == QuestionView;
    page.AnswerSelect(1);
    page.SubmitAnswer();
    assert page.View() == QuestionView && page.selectedAnswer.Some?;
    page.SubmitAnswer();
    score, spins, view := page.score, page.spins, page.View();
  }
}
