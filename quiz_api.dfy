/**
 * The quiz endpoint: `GET` picks question ids at random and returns their questions; `POST`
 * checks a submitted attempt field by field and stores it.
 */
module QuizApi {
  import opened Js
  import opened QuizTypes

  // ---- GET /api/quiz ----

  /** `parseInt(searchParams.get('limit') || '3')`, for a missing or empty parameter or a numeric one. */
  function LimitOf(limitParam: Option<int>): (limit: int)
    ensures limitParam.None? ==> limit == 3
    ensures limitParam.Some? ==> limit == limitParam.value
  {
    if limitParam.Some? then limitParam.value else 3
  }

  /** `shuffled.slice(0, limit).map(q => q.id)`, the id rows stood for by their ids. */
  function SelectIds(shuffled: seq<string>, limit: int): (selected: seq<string>)
    ensures selected <= shuffled
    ensures 0 <= limit ==> |selected| == Min(limit, |shuffled|)
  {
    SliceTo(shuffled, limit)
  }

  /**
   * The ids asked for come from the fetched list, without repeating one more often than the list
   * does, and there are `min(limit, |ids|)` of them for a non-negative limit.
   */
  lemma SelectIdsFromList(ids: seq<string>, shuffled: seq<string>, limit: int)
    requires multiset(shuffled) == multiset(ids)
    ensures multiset(SelectIds(shuffled, limit)) <= multiset(ids)
    ensures forall id :: id in SelectIds(shuffled, limit) ==> id in ids
    ensures 0 <= limit ==> |SelectIds(shuffled, limit)| == Min(limit, |ids|)
  {
    var r := SelectIds(shuffled, limit);
    assert shuffled == r + shuffled[|r|..];
    assert |shuffled| == |multiset(shuffled)| == |ids|;
    forall id | id in r ensures id in ids {
      assert id in multiset(shuffled);
    }
  }

  /** With no limit given three ids are asked for, or all of them when there are fewer. */
  lemma DefaultLimitIsThree(ids: seq<string>, shuffled: seq<string>)
    requires multiset(shuffled) == multiset(ids)
    ensures |SelectIds(shuffled, LimitOf(None))| == Min(3, |ids|)
  {
    SelectIdsFromList(ids, shuffled, 3);
  }

  /** A negative limit counts back from the end of the list: all but the last id for -1. */
  lemma NegativeLimitDropsFromEnd(shuffled: seq<string>)
    requires |shuffled| > 0
    ensures SelectIds(shuffled, -1) == shuffled[..|shuffled| - 1]
  {
  }

  datatype GetResponse = Questions(questions: seq<Question>) | GetFailed(error: string)

  /**
   * `GET`: the id query, the order the random shuffle produces, and the question query for the
   * chosen ids are passed in. Any query error becomes the fixed 500 reply.
   */
  function Get(limitParam: Option<int>, ids: QueryResult<string>, shuffled: seq<string>,
               fetchQuestions: seq<string> -> QueryResult<Question>): (r: GetResponse)
    requires ids.Rows? ==> multiset(shuffled) == multiset(ids.rows)
    ensures ids.QueryError? ==> r == GetFailed("Failed to fetch quiz questions")
    ensures ids.Rows? && ids.rows == [] ==> r == Questions([])
    ensures ids.Rows? && ids.rows != [] ==>
      var asked := fetchQuestions(SelectIds(shuffled, LimitOf(limitParam)));
      r == if asked.QueryError? then GetFailed("Failed to fetch quiz questions") else Questions(asked.rows)
  {
    match ids
    case QueryError(_) => GetFailed("Failed to fetch quiz questions")
    case Rows(allQuestions) =>
      if |allQuestions| == 0 then Questions([])
      else
        match fetchQuestions(SelectIds(shuffled, LimitOf(limitParam)))
        case QueryError(_) => GetFailed("Failed to fetch quiz questions")
        case Rows(data) => Questions(data)
  }

  // ---- POST /api/quiz ----

  /** A parsed JSON value. */
  datatype Json =
    | JNull
    | JBool(b: bool)
    | JNumber(n: real)
    | JString(s: string)
    | JArray(items: seq<Json>)
    | JObject(fields: map<string, Json>)

  /** `body.name` on a body that is not null: `None` stands for `undefined`. */
  function Field(body: Json, name: string): Option<Json>
  {
    if body.JObject? && name in body.fields then Some(body.fields[name]) else None
  }

  /** `!v`: undefined, null, false, zero and the empty string are falsy. */
  predicate Falsy(v: Option<Json>)
  {
    match v
    case None => true
    case Some(j) => j == JNull || j == JBool(false) || j == JNumber(0.0) || j == JString("")
  }

  predicate IsNumber(v: Option<Json>) { v.Some? && v.value.JNumber? }

  predicate IsArray(v: Option<Json>) { v.Some? && v.value.JArray? }

  /** The validation chain: the error text of the first check the body fails, in the order of the handler. */
  function Validate(body: Json): (error: Option<string>)
    ensures error.None? ==> body.JObject? && IsArray(Field(body, "answers"))
    ensures Field(body, "user_name").None? ==> error == Some("User name is required")
  {
    if Falsy(Field(body, "user_name")) then Some("User name is required")
    else if Falsy(Field(body, "language")) then Some("Language is required")
    else if !IsNumber(Field(body, "questions_answered")) then Some("Questions answered count is required")
    else if !IsNumber(Field(body, "correct_answers")) then Some("Correct answers count is required")
    else if !IsNumber(Field(body, "time_taken_seconds")) then Some("Time taken is required")
    else if !IsNumber(Field(body, "meta_score")) then Some("Meta score is required")
    else if Falsy(Field(body, "answers")) || !IsArray(Field(body, "answers")) then Some("Answers array is required")
    else None
  }

  /** How a required field is checked. */
  datatype Requirement = Present | Number | ArrayValue

  /** One row of the table of checks: the field, how it is checked, and the text when it fails. */
  datatype Check = Check(field: string, requirement: Requirement, error: string)

  const Checks: seq<Check> := [
    Check("user_name", Present, "User name is required"),
    Check("language", Present, "Language is required"),
    Check("questions_answered", Number, "Questions answered count is required"),
    Check("correct_answers", Number, "Correct answers count is required"),
    Check("time_taken_seconds", Number, "Time taken is required"),
    Check("meta_score", Number, "Meta score is required"),
    Check("answers", ArrayValue, "Answers array is required")
  ]

  predicate Passes(body: Json, c: Check)
  {
    match c.requirement
    case Present => !Falsy(Field(body, c.field))
    case Number => IsNumber(Field(body, c.field))
    case ArrayValue => IsArray(Field(body, c.field))
  }

  /**
   * The chain agrees with the table: the body is accepted exactly when it passes every check,
   * and the error is that of the first check it fails.
   */
  lemma {:induction false} ValidateFollowsTable(body: Json)
    ensures Validate(body).None? <==> forall k :: 0 <= k < |Checks| ==> Passes(body, Checks[k])
    ensures Validate(body).Some? ==>
      exists k :: 0 <= k < |Checks| && !Passes(body, Checks[k]) && Validate(body) == Some(Checks[k].error)
        && forall j :: 0 <= j < k ==> Passes(body, Checks[j])
  {
    var c := Checks;
    if !Passes(body, c[0]) {
      assert Validate(body) == Some(c[0].error);
    } else if !Passes(body, c[1]) {
      assert Validate(body) == Some(c[1].error);
    } else if !Passes(body, c[2]) {
      assert Validate(body) == Some(c[2].error);
    } else if !Passes(body, c[3]) {
      assert Validate(body) == Some(c[3].error);
    } else if !Passes(body, c[4]) {
      assert Validate(body) == Some(c[4].error);
    } else if !Passes(body, c[5]) {
      assert Validate(body) == Some(c[5].error);
    } else if !Passes(body, c[6]) {
      assert Validate(body) == Some(c[6].error);
    } else {
      assert forall k :: 0 <= k < |c| ==> Passes(body, c[k]);
    }
  }

  /** A body whose counts contradict each other: more correct answers than answered, a negative time. */
  const ContradictoryCounts: Json := JObject(map[
    "user_name" := JString("A"), "language" := JString("en"),
    "questions_answered" := JNumber(3.0), "correct_answers" := JNumber(7.0),
    "time_taken_seconds" := JNumber(-5.0), "meta_score" := JNumber(999.0),
    "answers" := JArray([])])

  /** The checks only look at types: counts that contradict each other are accepted. */
  lemma CountsAreNotCompared()
    ensures Validate(ContradictoryCounts) == None
  {
    var body := ContradictoryCounts;
    assert Field(body, "user_name") == Some(JString("A"));
    assert Field(body, "language") == Some(JString("en"));
    assert Field(body, "questions_answered") == Some(JNumber(3.0));
    assert Field(body, "correct_answers") == Some(JNumber(7.0));
    assert Field(body, "time_taken_seconds") == Some(JNumber(-5.0));
    assert Field(body, "meta_score") == Some(JNumber(999.0));
    assert Field(body, "answers") == Some(JArray([]));
  }

  /** An empty answers array is truthy, so it passes the last check. */
  lemma EmptyAnswersAccepted(body: Json)
    requires Field(body, "answers") == Some(JArray([]))
    ensures Passes(body, Checks[6])
    ensures Validate(body) != Some("Answers array is required")
  {
  }

  /** A missing user name is reported first, whatever else is missing. */
  lemma EmptyBodyReportsUserName()
    ensures Validate(JObject(map[])) == Some("User name is required")
  {
  }

  /** What the insert call does: fail with a store error, return the stored rows, or throw. */
  datatype InsertOutcome = InsertError(message: string) | Inserted(data: seq<Json>) | InsertThrew(message: string)

  /** The request body: text that is not JSON (with the parser's message), or a parsed value. */
  datatype RequestBody = Unparsable(message: string) | Parsed(json: Json)

  datatype PostResponse =
    | BadRequest(error: string)
    | ServerError(error: string)
    | Saved(data: seq<Json>)

  /** The message of the `TypeError` thrown by reading a property of a null body. */
  const NullBodyMessage := "Cannot read properties of null (reading 'user_name')"

  /** The outcome of `POST`: the reply, and the row handed to the insert when there is one. */
  datatype PostOutcome = PostOutcome(response: PostResponse, insertedRow: Option<Json>)

  /** `POST`, with the store's behaviour on insert passed in. */
  function Post(body: RequestBody, insert: InsertOutcome): (r: PostOutcome)
    ensures r.insertedRow.Some? <==> body.Parsed? && body.json != JNull && Validate(body.json).None?
    ensures r.insertedRow.Some? ==> r.insertedRow.value == body.json
    ensures r.response.BadRequest? <==> body.Parsed? && body.json != JNull && Validate(body.json).Some?
    ensures r.response.BadRequest? ==> Some(r.response.error) == Validate(body.json)
    ensures r.response.Saved? ==> r.insertedRow.Some? && insert == Inserted(r.response.data)
    ensures body.Unparsable? ==> r.response == ServerError(body.message)
    ensures body == Parsed(JNull) ==> r.response == ServerError(NullBodyMessage)
    ensures r.insertedRow.Some? ==>
      r.response == match insert
        case Inserted(data) => Saved(data)
        case InsertError(message) => ServerError("Database error: " + message)
        case InsertThrew(message) => ServerError(message)
  {
    match body
    case Unparsable(message) => PostOutcome(ServerError(message), None)
    case Parsed(json) =>
      if json == JNull then PostOutcome(ServerError(NullBodyMessage), None)
      else
        match Validate(json)
        case Some(error) => PostOutcome(BadRequest(error), None)
        case None =>
          match insert
          case InsertError(message) => PostOutcome(ServerError("Database error: " + message), Some(json))
          case InsertThrew(message) => PostOutcome(ServerError(message), Some(json))
          case Inserted(data) => PostOutcome(Saved(data), Some(json))
  }

  /** A valid body that the store accepts is answered with the stored rows. */
  lemma ValidBodySaved(json: Json, data: seq<Json>)
    requires json != JNull && Validate(json).None?
    ensures Post(Parsed(json), Inserted(data)) == PostOutcome(Saved(data), Some(json))
  {
  }

  /** A store error after a valid body is reported with its message. */
  lemma StoreErrorReported(json: Json, message: string)
    requires json != JNull && Validate(json).None?
    ensures Post(Parsed(json), InsertError(message)).response == ServerError("Database error: " + message)
  {
  }
}
