/**
 * The question card: choosing options (toggling them for multi-select questions), deciding
 * whether the selection is correct, and submitting it once.
 */
module QuizCard {
  import opened QuizTypes

  /** `s.filter(i => i !== x)`. */
  function Without(s: seq<int>, x: int): (r: seq<int>)
    ensures |r| <= |s|
    ensures forall y :: y in r <==> y in s && y != x
  {
    if s == [] then []
    else if s[0] == x then Without(s[1..], x)
    else [s[0]] + Without(s[1..], x)
  }

  /** Filtering keeps a list without repeats free of repeats. */
  lemma {:induction false} WithoutNoRepeats(s: seq<int>, x: int)
    requires NoRepeats(s)
    ensures NoRepeats(Without(s, x))
  {
    if s != [] {
      assert NoRepeats(s[1..]) by {
        forall p, q | 0 <= p < q < |s[1..]| ensures s[1..][p] != s[1..][q] {
          assert s[1..][p] == s[p + 1] && s[1..][q] == s[q + 1];
        }
      }
      WithoutNoRepeats(s[1..], x);
      if s[0] != x {
        var t := Without(s[1..], x);
        assert s[0] !in s[1..];
        assert s[0] !in t;
        forall p, q | 0 <= p < q < |[s[0]] + t| ensures ([s[0]] + t)[p] != ([s[0]] + t)[q] {
          if p == 0 {
            assert ([s[0]] + t)[q] == t[q - 1];
          } else {
            assert ([s[0]] + t)[p] == t[p - 1] && ([s[0]] + t)[q] == t[q - 1];
          }
        }
      }
    }
  }

  /**
   * The multi-select update: the current list (empty when the selection is a single index)
   * without the option when it is already chosen, and with the option appended otherwise.
   * After it the toggled option is chosen exactly when it was not, and every other option is as before;
   * a newly chosen option goes at the end of the list.
   */
  function Toggle(current: Selection, option: int): (r: seq<int>)
    ensures var chosen := if current.Multiple? then current.indices else [];
      forall y :: y in r <==> if y == option then option !in chosen else y in chosen
    ensures var chosen := if current.Multiple? then current.indices else [];
      option !in chosen ==> r == chosen + [option]
  {
    var chosen := if current.Multiple? then current.indices else [];
    if option in chosen then Without(chosen, option) else chosen + [option]
  }

  /** Toggling keeps the multi-select list free of repeats. */
  lemma ToggleNoRepeats(chosen: seq<int>, option: int)
    requires NoRepeats(chosen)
    ensures NoRepeats(Toggle(Multiple(chosen), option))
  {
    if option in chosen {
      WithoutNoRepeats(chosen, option);
    } else {
      var r := chosen + [option];
      forall p, q | 0 <= p < q < |r| ensures r[p] != r[q] {
        if q == |chosen| {
          assert r[p] == chosen[p];
        } else {
          assert r[p] == chosen[p] && r[q] == chosen[q];
        }
      }
    }
  }

  /** Toggling the same option twice leaves the same options chosen, and exactly the same list when it was not chosen. */
  lemma ToggleTwice(chosen: seq<int>, option: int)
    ensures forall y :: y in Toggle(Multiple(Toggle(Multiple(chosen), option)), option) <==> y in chosen
    ensures option !in chosen ==> Toggle(Multiple(Toggle(Multiple(chosen), option)), option) == chosen
  {
    if option !in chosen {
      WithoutAppended(chosen, option);
    }
  }

  lemma {:induction false} WithoutAppended(s: seq<int>, x: int)
    requires x !in s
    ensures Without(s + [x], x) == s
  {
    if s != [] {
      assert (s + [x])[1..] == s[1..] + [x];
      WithoutAppended(s[1..], x);
      assert s == [s[0]] + s[1..];
    } else {
      assert [x][1..] == [];
    }
  }

  /**
   * `isCorrect`: for a list, the same length as the correct list and every correct index chosen;
   * for a single index, a correct list of exactly that one index.
   */
  function IsCorrect(correctAnswer: seq<int>, selected: Selection): (b: bool)
    ensures selected.Single? ==> (b <==> correctAnswer == [selected.index])
    ensures b && selected.Multiple? ==> Elements(correctAnswer) <= Elements(selected.indices)
  {
    match selected
    case Multiple(chosen) =>
      var judged := |correctAnswer| == |chosen| && forall c :: c in correctAnswer ==> c in chosen;
      assert judged ==> Elements(correctAnswer) <= Elements(chosen) by {
        if judged {
          forall c | c in Elements(correctAnswer) ensures c in Elements(chosen) {
            assert c in correctAnswer;
          }
        }
      }
      judged
    case Single(index) => |correctAnswer| == 1 && correctAnswer[0] == index
  }

  function Elements(s: seq<int>): set<int>
  {
    set x | x in s
  }

  lemma {:induction false} ElementsCount(s: seq<int>)
    requires NoRepeats(s)
    ensures |Elements(s)| == |s|
  {
    if s != [] {
      var t := s[1..];
      assert NoRepeats(t) by {
        forall p, q | 0 <= p < q < |t| ensures t[p] != t[q] {
          assert t[p] == s[p + 1] && t[q] == s[q + 1];
        }
      }
      ElementsCount(t);
      assert s[0] !in t;
      assert Elements(s) == {s[0]} + Elements(t);
    }
  }

  lemma SameSizeSubset(a: set<int>, b: set<int>)
    requires a <= b && |a| == |b|
    ensures a == b
  {
    assert |b - a| == |b| - |a| == 0;
    assert b == a + (b - a);
  }

  /** With neither list repeating an index, a list selection is correct exactly when it chooses the same set of indices. */
  lemma IsCorrectIsSetEquality(correctAnswer: seq<int>, chosen: seq<int>)
    requires NoRepeats(correctAnswer) && NoRepeats(chosen)
    ensures IsCorrect(correctAnswer, Multiple(chosen)) <==> Elements(correctAnswer) == Elements(chosen)
  {
    ElementsCount(correctAnswer);
    ElementsCount(chosen);
    if IsCorrect(correctAnswer, Multiple(chosen)) {
      SameSizeSubset(Elements(correctAnswer), Elements(chosen));
    }
    if Elements(correctAnswer) == Elements(chosen) {
      forall c | c in correctAnswer ensures c in chosen {
        assert c in Elements(correctAnswer);
      }
    }
  }

  /** Without the no-repeat condition the check is not set equality: a repeated correct index lets a wrong choice through. */
  lemma RepeatedCorrectIndexAcceptsWrongChoice()
    ensures IsCorrect([1, 1], Multiple([1, 3]))
    ensures Elements([1, 1]) != Elements([1, 3])
  {
    assert 3 in Elements([1, 3]);
  }

  /** `canSubmit`: a non-empty list for multi-select questions, anything but null otherwise. */
  function CanSubmit(questionType: QuestionType, selected: Selection): (b: bool)
    ensures questionType != MultiSelect ==> b
    ensures questionType == MultiSelect && b ==> selected.Multiple? && !SubmitIgnored(selected)
  {
    if questionType == MultiSelect then selected.Multiple? && |selected.indices| > 0 else true
  }

  /** The guard at the start of the submit handler: an empty list is not submitted. */
  predicate SubmitIgnored(selected: Selection)
  {
    selected.Multiple? && |selected.indices| == 0
  }

  /** For a multi-select question the button is enabled exactly when the handler goes ahead. */
  lemma MultiSelectSubmitGuardsAgree(selected: Selection)
    ensures CanSubmit(MultiSelect, selected) <==> !SubmitIgnored(selected) && selected.Multiple?
  {
  }

  /** For other questions the button is enabled on the initial empty list, but the handler ignores the press. */
  lemma EnabledButIgnored(questionType: QuestionType)
    requires questionType != MultiSelect
    ensures CanSubmit(questionType, Multiple([])) && SubmitIgnored(Multiple([]))
  {
  }

  /** One rendered card: the fixed question, the two state variables, and the answers handed to `onAnswer`. */
  class Card {
    const question: Question
    var selectedAnswers: Selection
    var isAnswered: bool
    var emitted: seq<Answer>

    constructor(question: Question)
      ensures this.question == question
      ensures selectedAnswers == Multiple([]) && !isAnswered && emitted == []
      ensures Valid()
    {
      this.question := question;
      selectedAnswers := Multiple([]);
      isAnswered := false;
      emitted := [];
    }

    /**
     * The card's invariant: a multi-select list repeats no index, and the card is answered
     * exactly when it has emitted its one answer.
     */
    ghost predicate Valid()
      reads this
    {
      && (question.questionType == MultiSelect ==> selectedAnswers.Multiple? && NoRepeats(selectedAnswers.indices))
      && |emitted| <= 1
      && (isAnswered <==> |emitted| == 1)
    }

    /** `disabled={!canSubmit || isAnswered}` on the submit button. */
    predicate SubmitEnabled()
      reads this
    {
      CanSubmit(question.questionType, selectedAnswers) && !isAnswered
    }

    /** `handleAnswerSelect(optionIndex)`. */
    method SelectAnswer(optionIndex: int)
      modifies this
      ensures old(isAnswered) ==> selectedAnswers == old(selectedAnswers)
      ensures !old(isAnswered) && question.questionType == MultiSelect ==>
        selectedAnswers == Multiple(Toggle(old(selectedAnswers), optionIndex))
      ensures !old(isAnswered) && question.questionType != MultiSelect ==> selectedAnswers == Single(optionIndex)
      ensures isAnswered == old(isAnswered) && emitted == old(emitted)
      ensures old(Valid()) ==> Valid()
    {
      if isAnswered {
        return;
      }
      if question.questionType == MultiSelect {
        if selectedAnswers.Multiple? && NoRepeats(selectedAnswers.indices) {
          ToggleNoRepeats(selectedAnswers.indices, optionIndex);
        }
        selectedAnswers := Multiple(Toggle(selectedAnswers, optionIndex));
      } else {
        selectedAnswers := Single(optionIndex);
      }
    }

    /** `handleSubmitAnswer`, with the whole seconds elapsed since `timeStarted`, which the quiz page sets to the start of the quiz. */
    method SubmitAnswer(timeTaken: int)
      modifies this
      ensures SubmitIgnored(old(selectedAnswers)) ==> isAnswered == old(isAnswered) && emitted == old(emitted)
      ensures !SubmitIgnored(old(selectedAnswers)) ==>
        && isAnswered
        && emitted == old(emitted) + [Answer(question.id, selectedAnswers,
                                             IsCorrect(question.correctAnswer, selectedAnswers), timeTaken)]
      ensures selectedAnswers == old(selectedAnswers)
      ensures old(Valid()) && old(SubmitEnabled()) ==> Valid()
    {
      if SubmitIgnored(selectedAnswers) {
        return;
      }
      var correct := IsCorrect(question.correctAnswer, selectedAnswers);
      var answer := Answer(question.id, selectedAnswers, correct, timeTaken);
      isAnswered := true;
      emitted := emitted + [answer];
    }
  }
}
