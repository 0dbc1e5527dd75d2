/** Scoring, grading, messages, time formatting and shuffling of the quiz (`QuizService`). */
module QuizService {
  import opened Js

  datatype Grade = APlus | A | BPlus | B | CPlus | C | D | F

  /** The position of a grade in the table, F lowest and A+ highest. */
  function Rank(g: Grade): nat
  {
    match g
    case F => 0
    case D => 1
    case C => 2
    case CPlus => 3
    case B => 4
    case BPlus => 5
    case A => 6
    case APlus => 7
  }

  /** Whether `score` reaches the inclusive lower bound of grade `g`; every score reaches F. */
  predicate Reaches(score: real, g: Grade)
  {
    match g
    case APlus => score >= 120.0
    case A => score >= 110.0
    case BPlus => score >= 100.0
    case B => score >= 90.0
    case CPlus => score >= 80.0
    case C => score >= 70.0
    case D => score >= 60.0
    case F => true
  }

  /** Accuracy as a percentage of correct answers. */
  function Accuracy(correctAnswers: int, totalQuestions: int): (r: real)
    requires totalQuestions != 0
    ensures r * totalQuestions as real == 100.0 * correctAnswers as real
    ensures 0 <= correctAnswers <= totalQuestions ==> 0.0 <= r <= 100.0
    ensures correctAnswers == 0 ==> r == 0.0
    ensures 0 < totalQuestions == correctAnswers ==> r == 100.0
  {
    var q := correctAnswers as real / totalQuestions as real;
    assert q * totalQuestions as real == correctAnswers as real;
    if 0 <= correctAnswers <= totalQuestions then
      assert q <= 1.0 by {
        assert (q - 1.0) * totalQuestions as real == correctAnswers as real - totalQuestions as real;
      }
      q * 100.0
    else
      q * 100.0
  }

  datatype ScoreParts = ScoreParts(metaScore: real, timeBonus: real)

  /** `calculateMetaScore`: accuracy plus a bonus that decays by one point per second over 30 seconds. */
  function CalculateMetaScore(correctAnswers: int, totalQuestions: int, timeTakenSeconds: int): (r: ScoreParts)
    requires totalQuestions != 0
    ensures r.timeBonus >= 0.0
    ensures timeTakenSeconds <= 30 ==> r.timeBonus == (30 - timeTakenSeconds) as real
    ensures timeTakenSeconds >= 30 ==> r.timeBonus == 0.0
    ensures timeTakenSeconds >= 0 ==> r.timeBonus <= 30.0
    ensures r.metaScore == Accuracy(correctAnswers, totalQuestions) + r.timeBonus
    ensures 0 <= correctAnswers <= totalQuestions && timeTakenSeconds >= 0 ==> 0.0 <= r.metaScore <= 130.0
  {
    var accuracyScore := Accuracy(correctAnswers, totalQuestions);
    var timeBonus := if 0 >= 30 - timeTakenSeconds then 0.0 else (30 - timeTakenSeconds) as real;
    ScoreParts(accuracyScore + timeBonus, timeBonus)
  }

  /** `getGrade`: the thresholds are tried from the highest down and the first that is reached wins. */
  function GetGrade(metaScore: real): (g: Grade)
    ensures Reaches(metaScore, g)
    ensures forall h :: Reaches(metaScore, h) ==> Rank(h) <= Rank(g)
  {
    if metaScore >= 120.0 then APlus
    else if metaScore >= 110.0 then A
    else if metaScore >= 100.0 then BPlus
    else if metaScore >= 90.0 then B
    else if metaScore >= 80.0 then CPlus
    else if metaScore >= 70.0 then C
    else if metaScore >= 60.0 then D
    else F
  }

  /** A higher score never earns a worse grade. */
  lemma GradeMonotone(low: real, high: real)
    requires low <= high
    ensures Rank(GetGrade(low)) <= Rank(GetGrade(high))
  {
    var g := GetGrade(low);
    assert Reaches(high, g);
  }

  /** The `k`-th of the three fixed messages of grade `g`. */
  function Message(g: Grade, k: nat): string
    requires k < 3
  {
    match g
    case APlus =>
      if k == 0 then "Outstanding! You are a Thalassemia awareness champion! \U{1F31F}"
      else if k == 1 then "Perfect score! You truly understand Thalassemia prevention! \U{1F3C6}"
      else "Exceptional knowledge! You could teach others about Thalassemia! \U{1F451}"
    case A =>
      if k == 0 then "Excellent work! You have great knowledge about Thalassemia! \U{1F389}"
      else if k == 1 then "Fantastic! You understand Thalassemia prevention well! \U{2B50}"
      else "Amazing! You are well-informed about Thalassemia! \U{1F31F}"
    case BPlus =>
      if k == 0 then "Great job! You have good knowledge about Thalassemia! \U{1F44D}"
      else if k == 1 then "Well done! You understand most Thalassemia concepts! \U{1F3AF}"
      else "Good work! You are on the right track with Thalassemia awareness! \U{1F4DA}"
    case B =>
      if k == 0 then "Good effort! You have decent knowledge about Thalassemia! \U{2705}"
      else if k == 1 then "Nice work! You understand basic Thalassemia concepts! \U{1F4D6}"
      else "Well done! Keep learning about Thalassemia prevention! \U{1F331}"
    case CPlus =>
      if k == 0 then "Not bad! You have some knowledge about Thalassemia! \U{1F4DD}"
      else if k == 1 then "Keep learning! You are making progress with Thalassemia awareness! \U{1F4C8}"
      else "Good start! Continue exploring Thalassemia information! \U{1F50D}"
    case C =>
      if k == 0 then "Room for improvement! Keep studying Thalassemia! \U{1F4DA}"
      else if k == 1 then "Keep trying! Learning about Thalassemia is important! \U{1F4AA}"
      else "Don't give up! Every step in Thalassemia awareness matters! \U{1F680}"
    case D =>
      if k == 0 then "Keep learning! Thalassemia awareness is crucial for health! \U{1F393}"
      else if k == 1 then "Study more! Understanding Thalassemia can save lives! \U{2764}\U{FE0F}"
      else "Don't stop! Thalassemia knowledge is valuable! \U{1F31F}"
    case F =>
      if k == 0 then "Let's learn together! Thalassemia awareness starts with knowledge! \U{1F91D}"
      else if k == 1 then "Every expert was once a beginner! Keep learning about Thalassemia! \U{1F331}"
      else "Knowledge is power! Start your Thalassemia learning journey today! \U{1F4A1}"
  }

  /** The three fixed messages of each grade. */
  function Messages(g: Grade): (ms: seq<string>)
    ensures |ms| == 3
  {
    [Message(g, 0), Message(g, 1), Message(g, 2)]
  }

  /** Index `Math.floor(random * n)` for a draw `random` in [0, 1). */
  function PickIndex(random: real, n: nat): (k: int)
    requires 0.0 <= random < 1.0
    requires n > 0
    ensures 0 <= k < n
    ensures k as real <= random * n as real < (k + 1) as real
  {
    var x := random * n as real;
    assert x < n as real by {
      assert (1.0 - random) * n as real > 0.0;
    }
    x.Floor
  }

  /** `getPersonalizedMessage`, with the value of `Math.random()` passed in. */
  function GetPersonalizedMessage(grade: Grade, random: real): (m: string)
    requires 0.0 <= random < 1.0
    ensures m in Messages(grade)
  {
    Messages(grade)[PickIndex(random, |Messages(grade)|)]
  }

  /** Every index below `n` is picked by some draw, so every message of a grade can be shown. */
  lemma EveryIndexReachable(k: nat, n: nat)
    requires k < n
    ensures PickIndex(k as real / n as real, n) == k
  {
    var random := k as real / n as real;
    assert random * n as real == k as real;
  }

  datatype QuizResult = QuizResult(
    totalQuestions: int,
    correctAnswers: int,
    timeTaken: int,
    accuracy: real,
    metaScore: real,
    timeBonus: real,
    grade: Grade,
    message: string)

  /** `generateQuizResult`: the score, grade and message of one finished quiz. */
  function GenerateQuizResult(totalQuestions: int, correctAnswers: int, timeTakenSeconds: int, random: real): (r: QuizResult)
    requires totalQuestions != 0
    requires 0.0 <= random < 1.0
    ensures r.totalQuestions == totalQuestions && r.correctAnswers == correctAnswers
    ensures r.timeTaken == timeTakenSeconds
    ensures r.accuracy == Accuracy(correctAnswers, totalQuestions)
    ensures r.metaScore == r.accuracy + r.timeBonus
    ensures r.timeBonus == CalculateMetaScore(correctAnswers, totalQuestions, timeTakenSeconds).timeBonus
    ensures r.grade == GetGrade(r.metaScore)
    ensures r.message in Messages(r.grade)
    ensures 0 <= correctAnswers <= totalQuestions && timeTakenSeconds >= 0 ==> 0.0 <= r.metaScore <= 130.0
  {
    var parts := CalculateMetaScore(correctAnswers, totalQuestions, timeTakenSeconds);
    var accuracy := Accuracy(correctAnswers, totalQuestions);
    var grade := GetGrade(parts.metaScore);
    var message := GetPersonalizedMessage(grade, random);
    QuizResult(totalQuestions, correctAnswers, timeTakenSeconds, accuracy, parts.metaScore, parts.timeBonus, grade, message)
  }

  /** All answers right within 10 seconds: a perfect 100 plus a bonus of at least 20 reaches 120. */
  lemma PerfectQuickQuiz(totalQuestions: int, timeTakenSeconds: int, random: real)
    requires totalQuestions > 0
    requires 0 <= timeTakenSeconds <= 10
    requires 0.0 <= random < 1.0
    ensures GenerateQuizResult(totalQuestions, totalQuestions, timeTakenSeconds, random).grade == APlus
  {
    var r := GenerateQuizResult(totalQuestions, totalQuestions, timeTakenSeconds, random);
    assert r.accuracy == 100.0;
  }

  // ---- formatTime ----

  function DigitChar(d: int): char
    requires 0 <= d < 10
  {
    "0123456789"[d]
  }

  predicate IsDigit(c: char) { '0' <= c <= '9' }

  function DigitValue(c: char): int
    requires IsDigit(c)
  {
    c as int - '0' as int
  }

  /** The decimal digits of `n`, as `Number.prototype.toString` writes them. */
  function NatToString(n: nat): (s: string)
    ensures |s| > 0
    ensures forall i :: 0 <= i < |s| ==> IsDigit(s[i])
    ensures n < 10 <==> |s| == 1
  {
    if n < 10 then [DigitChar(n)] else NatToString(n / 10) + [DigitChar(n % 10)]
  }

  function IntToString(i: int): string
  {
    if i < 0 then "-" + NatToString(-i) else NatToString(i)
  }

  /** `s.padStart(2, '0')`. */
  function PadStart2(s: string): (r: string)
    ensures |r| == if |s| >= 2 then |s| else 2
    ensures |s| >= 2 ==> r == s
    ensures |s| < 2 ==> r == seq(2 - |s|, _ => '0') + s
  {
    if |s| >= 2 then s else if |s| == 1 then "0" + s else "00"
  }

  /** The quotient of `a / b` truncated toward zero, as `%` in JavaScript uses it. */
  function TruncDiv(a: int, b: int): int
    requires b > 0
  {
    if a >= 0 then a / b else -((-a) / b)
  }

  /** JavaScript's `a % b` for `b > 0`: the remainder takes the sign of `a`. */
  function JsRemainder(a: int, b: int): (r: int)
    requires b > 0
    ensures a >= 0 ==> 0 <= r < b
    ensures a < 0 ==> -b < r <= 0
    ensures r == a - TruncDiv(a, b) * b
  {
    if a >= 0 then a % b else -((-a) % b)
  }

  /** `formatTime`: minutes rounded down, a colon, and the remaining seconds padded to two digits. */
  function FormatTime(seconds: int): (r: string)
    ensures seconds >= 0 ==> |r| >= 4 && r[|r| - 3] == ':'
    ensures seconds < 0 ==> |r| > 0 && r[0] == '-'
  {
    var minutes := seconds / 60;
    var remainingSeconds := JsRemainder(seconds, 60);
    IntToString(minutes) + ":" + PadStart2(IntToString(remainingSeconds))
  }

  function ParseNat(s: string): nat
    requires forall i :: 0 <= i < |s| ==> IsDigit(s[i])
  {
    if s == [] then 0 else ParseNat(s[..|s| - 1]) * 10 + DigitValue(s[|s| - 1])
  }

  /** Reads back an `m:ss` display: digits, a colon and two digits below 60. */
  function ParseTime(s: string): Option<int>
  {
    if |s| < 4 then None
    else
      var n := |s|;
      var head := s[..n - 3];
      if s[n - 3] == ':' && (forall i :: 0 <= i < |head| ==> IsDigit(head[i])) && IsDigit(s[n - 2]) && IsDigit(s[n - 1]) then
        var ss := DigitValue(s[n - 2]) * 10 + DigitValue(s[n - 1]);
        if ss < 60 then Some(ParseNat(head) * 60 + ss) else None
      else None
  }

  lemma {:induction false} ParseNatToString(n: nat)
    ensures ParseNat(NatToString(n)) == n
  {
    var s := NatToString(n);
    if n >= 10 {
      ParseNatToString(n / 10);
      assert s[..|s| - 1] == NatToString(n / 10);
    }
  }

  lemma DigitRoundTrip(d: int)
    requires 0 <= d < 10
    ensures IsDigit(DigitChar(d)) && DigitValue(DigitChar(d)) == d
  {
  }

  /** The seconds part of the display: always two digits. */
  lemma TwoDigits(rem: int)
    requires 0 <= rem < 60
    ensures PadStart2(IntToString(rem)) == [DigitChar(rem / 10), DigitChar(rem % 10)]
  {
    if rem >= 10 {
      assert NatToString(rem) == NatToString(rem / 10) + [DigitChar(rem % 10)];
    } else {
      assert IntToString(rem) == [DigitChar(rem)];
      assert rem / 10 == 0 && rem % 10 == rem;
      assert PadStart2([DigitChar(rem)]) == "0" + [DigitChar(rem)];
    }
  }

  /** A display of a non-negative number of seconds is the minutes, ':' and two digits. */
  lemma FormatTimeShape(seconds: int)
    requires seconds >= 0
    ensures FormatTime(seconds) ==
      NatToString(seconds / 60) + ":" + [DigitChar(seconds % 60 / 10), DigitChar(seconds % 60 % 10)]
  {
    var rem := seconds % 60;
    assert JsRemainder(seconds, 60) == rem;
    assert IntToString(seconds / 60) == NatToString(seconds / 60);
    TwoDigits(rem);
  }

  /** Reading `m:cd` for a digit string `m` and two digits `c`, `d` that make less than 60. */
  lemma ParseTimeOfDigits(m: string, c: char, d: char)
    requires |m| > 0 && forall i :: 0 <= i < |m| ==> IsDigit(m[i])
    requires IsDigit(c) && IsDigit(d) && DigitValue(c) * 10 + DigitValue(d) < 60
    ensures ParseTime(m + ":" + [c, d]) == Some(ParseNat(m) * 60 + DigitValue(c) * 10 + DigitValue(d))
  {
    var r := m + ":" + [c, d];
    var n := |r|;
    assert r[..n - 3] == m;
    assert r[n - 3] == ':' && r[n - 2] == c && r[n - 1] == d;
  }

  /** The minutes, tens and units of a number of seconds add back up to it. */
  lemma MinutesTensUnits(seconds: int)
    requires seconds >= 0
    ensures (seconds / 60) * 60 + (seconds % 60 / 10) * 10 + seconds % 60 % 10 == seconds
    ensures 0 <= seconds % 60 / 10 < 6 && 0 <= seconds % 60 % 10 < 10
  {
    var rem := seconds % 60;
    assert rem / 10 * 10 + rem % 10 == rem;
  }

  /** Minutes, ':' and two digits below 60 read back as the seconds they stand for. */
  lemma ParseMinutesAndDigits(minutes: nat, tens: int, units: int)
    requires 0 <= tens < 6 && 0 <= units < 10
    ensures ParseTime(NatToString(minutes) + ":" + [DigitChar(tens), DigitChar(units)])
      == Some(minutes * 60 + tens * 10 + units)
  {
    DigitRoundTrip(tens);
    DigitRoundTrip(units);
    ParseNatToString(minutes);
    ParseTimeOfDigits(NatToString(minutes), DigitChar(tens), DigitChar(units));
  }

  /** A display of a non-negative number of seconds reads back as that number. */
  lemma FormatTimeRoundTrip(seconds: int)
    requires seconds >= 0
    ensures ParseTime(FormatTime(seconds)) == Some(seconds)
  {
    var minutes, tens, units := seconds / 60, seconds % 60 / 10, seconds % 60 % 10;
    MinutesTensUnits(seconds);
    calc {
      ParseTime(FormatTime(seconds));
    == { FormatTimeShape(seconds); }
      ParseTime(NatToString(minutes) + ":" + [DigitChar(tens), DigitChar(units)]);
    == { ParseMinutesAndDigits(minutes, tens, units); }
      Some(minutes * 60 + tens * 10 + units);
    ==
      Some(seconds);
    }
  }

  /** Different non-negative durations are displayed differently. */
  lemma FormatTimeInjective(s1: int, s2: int)
    requires 0 <= s1 && 0 <= s2 && s1 != s2
    ensures FormatTime(s1) != FormatTime(s2)
  {
    FormatTimeRoundTrip(s1);
    FormatTimeRoundTrip(s2);
  }

  // ---- shuffleArray ----

  /**
   * `shuffleArray`: a Fisher-Yates shuffle of a copy of `a`. The draw used when swapping
   * position `i` is `randoms[a.Length - 1 - i]`, the values `Math.random()` returned in order.
   */
  method ShuffleArray<T>(a: array<T>, randoms: seq<real>) returns (shuffled: seq<T>)
    requires |randoms| >= a.Length - 1
    requires forall k :: 0 <= k < |randoms| ==> 0.0 <= randoms[k] < 1.0
    ensures |shuffled| == a.Length
    ensures multiset(shuffled) == multiset(a[..])
  {
    var copy := new T[a.Length](k reads a requires 0 <= k < a.Length => a[k]);
    assert copy[..] == a[..];
    var i := copy.Length - 1;
    while i > 0
      invariant -1 <= i < copy.Length
      invariant multiset(copy[..]) == multiset(a[..])
    {
      var j := PickIndex(randoms[copy.Length - 1 - i], i + 1);
      copy[i], copy[j] := copy[j], copy[i];
      i := i - 1;
    }
    shuffled := copy[..];
  }
}
