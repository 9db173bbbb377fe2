/**
  The REST API of the quiz service. The bank is loaded once at startup and
  never changes, so every handler is a function of the bank and of the
  request; an HTTP error is an `Err` carrying the status it produces.
*/
module Api {
  import opened Wrappers
  import opened Text
  import opened Chatbot

  /** A JSON value of a response field. */
  datatype Value = IntValue(i: int) | StrValue(s: string) | StrListValue(l: seq<string>)

  /** A JSON object, as the handlers' dictionaries. */
  type Response = map<string, Value>

  /** The fields every question response has. */
  const PublicKeys: set<string> := {"id", "question_text", "options"}

  /** The fields only the detail response adds. */
  const AnswerKeys: set<string> := {"correct_option_key", "explanation"}

  /** What makes a handler fail, and so the status of the response. */
  datatype ApiError =
    | NotFound(questionId: int, count: nat)   // the HTTPException raised on an id outside the bank
    | ValidationError(fields: seq<string>)    // the request fields the request model rejects
    | InternalError                           // an exception the handler does not catch

  function StatusCode(e: ApiError): (code: int)
    ensures 400 <= code < 600
  {
    match e
    case NotFound(_, _) => 404
    case ValidationError(_) => 422
    case InternalError => 500
  }

  /** The `detail` message of a NotFound error. */
  function NotFoundDetail(questionId: int, count: nat): (detail: string)
    ensures |detail| > 17 + |IntToString(questionId)| && detail[..17] == "Question with ID "
    ensures detail[17..17 + |IntToString(questionId)|] == IntToString(questionId)
  {
    var idText := IntToString(questionId);
    var head := "Question with ID " + idText + " not found.";
    assert head[..17] == "Question with ID ";
    assert head[17..17 + |idText|] == idText;
    head + RangeText(count)
  }

  /** The end of the message: the valid ids, 0 to the last one. */
  function RangeText(count: nat): string {
    " Available IDs: 0-" + IntToString(count - 1)
  }

  /** For every bank size the message ends by naming the valid ids, 0 to the last one. */
  lemma NotFoundDetailNamesRange(questionId: int, count: nat)
    ensures var tail := " Available IDs: 0-" + IntToString(count - 1);
      var detail := NotFoundDetail(questionId, count);
      |detail| >= |tail| && detail[|detail| - |tail|..] == tail
  {
    var detail, tail := NotFoundDetail(questionId, count), RangeText(count);
    assert detail[|detail| - |tail|..] == tail;
  }

  /** The message for an unknown id names the id and the last id of the bank in decimal. */
  lemma NotFoundDetailExample()
    ensures NotFoundDetail(99, 5) == "Question with ID " + "99" + " not found." + " Available IDs: 0-" + "4"
    ensures NotFoundDetail(-3, 5) == "Question with ID " + "-3" + " not found." + " Available IDs: 0-" + "4"
  {
    assert IntToString(99) == "99" by {
      assert NatToString(9) == "9";
    }
    assert IntToString(-3) == "-" + "3";
    assert RangeText(5) == " Available IDs: 0-" + "4" by {
      assert IntToString(4) == "4";
    }
  }

  // ---------------------------------------------------------------------------
  // Question responses
  // ---------------------------------------------------------------------------

  /**
    `question_to_response(question, question_id, include_answer)`: the id,
    text and options, and, only when asked for, the key and the explanation.
  */
  function QuestionToResponse(q: Question, id: int, includeAnswer: bool): (r: Response)
    ensures r.Keys == if includeAnswer then PublicKeys + AnswerKeys else PublicKeys
  {
    var base := map["id" := IntValue(id), "question_text" := StrValue(q.questionText), "options" := StrListValue(q.options)];
    if includeAnswer then
      base + map["correct_option_key" := StrValue(q.correctOptionKey), "explanation" := StrValue(q.explanation)]
    else base
  }

  /** Reads the id, text and options back from a response that has them. */
  function ReadPublic(r: Response): Option<(int, string, seq<string>)> {
    if "id" in r && "question_text" in r && "options" in r
       && r["id"].IntValue? && r["question_text"].StrValue? && r["options"].StrListValue?
    then Some((r["id"].i, r["question_text"].s, r["options"].l))
    else None
  }

  /** Reads a whole question back from a detail response. */
  function ReadDetail(r: Response): Option<(int, Question)> {
    match ReadPublic(r)
    case None => None
    case Some((id, text, options)) =>
      if "correct_option_key" in r && "explanation" in r
         && r["correct_option_key"].StrValue? && r["explanation"].StrValue?
      then Some((id, Question(text, options, r["correct_option_key"].s, r["explanation"].s)))
      else None
  }

  /**
    Both responses carry the id, the text and the options unchanged; the
    detail response carries the whole question, and the plain one is the
    detail response without the answer fields.
  */
  lemma ResponseRoundTrip(q: Question, id: int)
    ensures ReadPublic(QuestionToResponse(q, id, false)) == Some((id, q.questionText, q.options))
    ensures ReadPublic(QuestionToResponse(q, id, true)) == Some((id, q.questionText, q.options))
    ensures ReadDetail(QuestionToResponse(q, id, true)) == Some((id, q))
    ensures QuestionToResponse(q, id, true) - AnswerKeys == QuestionToResponse(q, id, false)
  {
    var d := QuestionToResponse(q, id, true);
    var p := QuestionToResponse(q, id, false);
    assert (d - AnswerKeys).Keys == p.Keys;
  }

  // ---------------------------------------------------------------------------
  // Reading questions
  // ---------------------------------------------------------------------------

  /** Whether `questionId` names a question of the bank. */
  predicate InBank(bank: seq<Question>, questionId: int) {
    0 <= questionId < |bank|
  }

  /** `get_question`: the question without its answer, or 404 for an id outside the bank. */
  function GetQuestion(bank: seq<Question>, questionId: int): (r: Result<Response, ApiError>)
    ensures r.Err? <==> !InBank(bank, questionId)
    ensures r.Err? ==> r.error == NotFound(questionId, |bank|)
    ensures r.Ok? ==> r.value.Keys == PublicKeys
  {
    if questionId < 0 || questionId >= |bank| then Err(NotFound(questionId, |bank|))
    else Ok(QuestionToResponse(bank[questionId], questionId, false))
  }

  /** `get_question_detail`: the question with its answer, or 404 for an id outside the bank. */
  function GetQuestionDetail(bank: seq<Question>, questionId: int): (r: Result<Response, ApiError>)
    ensures r.Err? <==> !InBank(bank, questionId)
    ensures r.Err? ==> r.error == NotFound(questionId, |bank|)
    ensures r.Ok? ==> r.value.Keys == PublicKeys + AnswerKeys
  {
    if questionId < 0 || questionId >= |bank| then Err(NotFound(questionId, |bank|))
    else Ok(QuestionToResponse(bank[questionId], questionId, true))
  }

  /**
    The two lookups fail together; the detail response is the bank's
    question at that id, and hiding its answer fields gives the plain one.
  */
  lemma DetailExtendsQuestion(bank: seq<Question>, questionId: int)
    ensures GetQuestion(bank, questionId).Ok? <==> GetQuestionDetail(bank, questionId).Ok?
    ensures GetQuestionDetail(bank, questionId).Ok? ==>
      && ReadDetail(GetQuestionDetail(bank, questionId).value) == Some((questionId, bank[questionId]))
      && GetQuestionDetail(bank, questionId).value - AnswerKeys == GetQuestion(bank, questionId).value
  {
    if InBank(bank, questionId) {
      ResponseRoundTrip(bank[questionId], questionId);
    }
  }

  /** `get_all_questions`: one answerless response per question, in bank order. */
  function GetAllQuestions(bank: seq<Question>): (r: seq<Response>)
    ensures |r| == |bank|
    ensures forall i :: 0 <= i < |r| ==> r[i].Keys == PublicKeys
  {
    seq(|bank|, i requires 0 <= i < |bank| => QuestionToResponse(bank[i], i, false))
  }

  /** The listing holds, at each position, what looking that id up returns, and its id is the position. */
  lemma AllQuestionsAgree(bank: seq<Question>)
    ensures forall i :: 0 <= i < |bank| ==> GetQuestion(bank, i) == Ok(GetAllQuestions(bank)[i])
    ensures forall i :: 0 <= i < |bank| ==>
      ReadPublic(GetAllQuestions(bank)[i]) == Some((i, bank[i].questionText, bank[i].options))
  {
    forall i | 0 <= i < |bank|
      ensures ReadPublic(GetAllQuestions(bank)[i]) == Some((i, bank[i].questionText, bank[i].options))
    {
      ResponseRoundTrip(bank[i], i);
    }
  }

  /** `get_stats`. */
  function GetStats(bank: seq<Question>): (r: Response)
    ensures r.Keys == {"total_questions"}
  {
    map["total_questions" := IntValue(|bank|)]
  }

  /** The statistics count exactly the questions the listing returns. */
  lemma StatsCountListing(bank: seq<Question>)
    ensures GetStats(bank)["total_questions"] == IntValue(|GetAllQuestions(bank)|)
  {
  }

  /**
    `get_random_question`: some question of the bank, without its answer;
    `random.randint(0, -1)` raises on an empty bank, which gives a 500.
  */
  method GetRandomQuestion(bank: seq<Question>) returns (r: Result<Response, ApiError>)
    ensures r.Err? <==> bank == []
    ensures r.Err? ==> r.error == InternalError
    ensures r.Ok? ==> ReadPublic(r.value).Some? && GetQuestion(bank, ReadPublic(r.value).value.0) == Ok(r.value)
  {
    if bank == [] {
      return Err(InternalError);
    }
    var questionId :| 0 <= questionId < |bank|;
    ResponseRoundTrip(bank[questionId], questionId);
    r := Ok(QuestionToResponse(bank[questionId], questionId, false));
  }

  // ---------------------------------------------------------------------------
  // Submitting an answer
  // ---------------------------------------------------------------------------

  /** An `AnswerSubmitRequest` that passed validation. */
  datatype AnswerRequest = AnswerRequest(questionId: int, answer: string)

  /** `^[a-d]$` as the request model matches it: `$` is the end of the text, so exactly one letter. */
  predicate MatchesAnswerPattern(s: string) {
    |s| == 1 && 'a' <= s[0] <= 'd'
  }

  /** The answer pattern admits exactly the option letters. */
  lemma AnswerPatternIsLetter(s: string)
    ensures MatchesAnswerPattern(s) <==> s in LetterKeys
  {
    if MatchesAnswerPattern(s) {
      assert s == [s[0]];
    }
  }

  /**
    The field constraints of `AnswerSubmitRequest`: `question_id >= 0`, and
    `answer` one of the letters; an invalid request names every failing field.
  */
  function ValidateRequest(questionId: int, answer: string): (r: Result<AnswerRequest, ApiError>)
    ensures r.Ok? <==> questionId >= 0 && answer in LetterKeys
    ensures r.Ok? ==> r.value == AnswerRequest(questionId, answer)
    ensures r.Err? ==>
      && r.error.ValidationError?
      && ("question_id" in r.error.fields <==> questionId < 0)
      && ("answer" in r.error.fields <==> answer !in LetterKeys)
  {
    AnswerPatternIsLetter(answer);
    var fields := (if questionId < 0 then ["question_id"] else []) + (if !MatchesAnswerPattern(answer) then ["answer"] else []);
    if fields == [] then Ok(AnswerRequest(questionId, answer)) else Err(ValidationError(fields))
  }

  /** The body of the submit response. */
  datatype AnswerResponse = AnswerResponse(
    isCorrect: bool,
    correctAnswer: string,
    correctAnswerText: string,
    explanation: string)

  /**
    `submit_answer`: 404 for an id outside the bank; otherwise whether the
    answer matches the key (both lower-cased), the key, the text of the
    option it labels and the explanation. A key that labels no option makes
    `LETTER_KEYS.index` or the option lookup raise: a 500.
  */
  function SubmitAnswer(bank: seq<Question>, request: AnswerRequest): (r: Result<AnswerResponse, ApiError>)
    ensures (r.Err? && r.error.NotFound?) <==> !InBank(bank, request.questionId)
    ensures r.Err? && r.error.NotFound? ==> r.error == NotFound(request.questionId, |bank|)
    ensures r == Err(InternalError) <==> InBank(bank, request.questionId) && !Resolvable(bank[request.questionId])
    ensures r.Ok? ==>
      var q := bank[request.questionId];
      && r.value.correctAnswer == q.correctOptionKey
      && r.value.correctAnswerText == CorrectText(q)
      && r.value.explanation == q.explanation
  {
    if request.questionId < 0 || request.questionId >= |bank| then
      Err(NotFound(request.questionId, |bank|))
    else
      var q := bank[request.questionId];
      var isCorrect := Lower(request.answer) == Lower(q.correctOptionKey);
      match LetterIndex(q.correctOptionKey)
      case None => Err(InternalError)
      case Some(k) =>
        if k < |q.options| then Ok(AnswerResponse(isCorrect, q.correctOptionKey, q.options[k], q.explanation))
        else Err(InternalError)
  }

  /** An option letter is its own lower case. */
  lemma LowerLetter(s: string)
    requires s in LetterKeys
    ensures Lower(s) == s
  {
    assert s == [s[0]];
    assert Lower(s) == Lower([]) + [LowerChar(s[0])];
  }

  /**
    For a well-formed question, every letter gets an answer, and the answer
    is correct for exactly one letter: the key.
  */
  lemma ExactlyOneLetterCorrect(bank: seq<Question>, questionId: int)
    requires InBank(bank, questionId) && WellFormed(bank[questionId])
    ensures forall a :: a in LetterKeys ==> SubmitAnswer(bank, AnswerRequest(questionId, a)).Ok?
    ensures forall a :: a in LetterKeys ==>
      (SubmitAnswer(bank, AnswerRequest(questionId, a)).value.isCorrect <==> a == bank[questionId].correctOptionKey)
  {
    var q := bank[questionId];
    WellFormedIsResolvable(q);
    LowerLetter(q.correctOptionKey);
    forall a | a in LetterKeys
      ensures SubmitAnswer(bank, AnswerRequest(questionId, a)).Ok?
      ensures SubmitAnswer(bank, AnswerRequest(questionId, a)).value.isCorrect <==> a == q.correctOptionKey
    {
      LowerLetter(a);
    }
  }

  /**
    The API and the command-line quiz judge a letter alike: the answer is
    correct exactly when the session would score it, and the correct text is
    the one the session shows after a wrong answer.
  */
  lemma ApiAgreesWithSession(bank: seq<Question>, id: int, choice: string)
    requires InBank(bank, id) && WellFormed(bank[id]) && choice in LetterKeys
    ensures SubmitAnswer(bank, AnswerRequest(id, choice))
      == Ok(AnswerResponse(IsRight(bank[id], choice), bank[id].correctOptionKey, CorrectText(bank[id]), bank[id].explanation))
  {
    ExactlyOneLetterCorrect(bank, id);
  }

  /** `POST /api/quiz/submit`: the request model's validation, then the handler. */
  function HandleSubmit(bank: seq<Question>, questionId: int, answer: string): (r: Result<AnswerResponse, ApiError>)
    ensures (r.Err? && r.error.ValidationError?) <==> !(questionId >= 0 && answer in LetterKeys)
    ensures questionId >= 0 && answer in LetterKeys ==> r == SubmitAnswer(bank, AnswerRequest(questionId, answer))
  {
    match ValidateRequest(questionId, answer)
    case Err(e) => Err(e)
    case Ok(request) => SubmitAnswer(bank, request)
  }

  /**
    Over a bank of well-formed questions a submission gets 422 when it is
    invalid, 404 when it is valid but its id is past the bank, and an answer
    otherwise; the handler's own check for a negative id is never reached.
  */
  lemma SubmitOutcomes(bank: seq<Question>, questionId: int, answer: string)
    requires forall i :: 0 <= i < |bank| ==> WellFormed(bank[i])
    ensures HandleSubmit(bank, questionId, answer).Err? && StatusCode(HandleSubmit(bank, questionId, answer).error) == 422
      <==> questionId < 0 || answer !in LetterKeys
    ensures HandleSubmit(bank, questionId, answer).Err? && StatusCode(HandleSubmit(bank, questionId, answer).error) == 404
      <==> questionId >= |bank| && answer in LetterKeys
    ensures HandleSubmit(bank, questionId, answer).Ok? <==> InBank(bank, questionId) && answer in LetterKeys
  {
    if InBank(bank, questionId) {
      WellFormedIsResolvable(bank[questionId]);
    }
  }

  /** The first question of the seed bank, answered with its key. */
  lemma SubmitExample(bank: seq<Question>)
    requires |bank| == 5 && bank[0] == FileExtensionQuestion()
    ensures HandleSubmit(bank, 0, "c") ==
      Ok(AnswerResponse(true, "c", ".py", ".py is the standard extension for Python source files."))
  {
    LowerLetter("c");
    assert LetterIndex("c") == Some(2);
  }

  /** A valid submission past the end of a bank of five is a 404 naming the id. */
  lemma SubmitPastEndExample(bank: seq<Question>)
    requires |bank| == 5
    ensures HandleSubmit(bank, 7, "c") == Err(NotFound(7, 5))
  {
    assert "c" in LetterKeys;
  }

  /** A letter outside a-d is rejected before the handler runs. */
  lemma SubmitBadLetterExample(bank: seq<Question>)
    ensures HandleSubmit(bank, 0, "e") == Err(ValidationError(["answer"]))
  {
    assert !MatchesAnswerPattern("e");
    assert [] + ["answer"] == ["answer"];
  }

  /**
    `QUESTIONS = build_questions()` at startup: the service then has five
    questions, reports five, and answers lookups for ids 0 to 4 only.
  */
  method LoadQuestions() returns (questions: seq<Question>)
    ensures GetStats(questions) == map["total_questions" := IntValue(5)]
    ensures forall id :: GetQuestion(questions, id).Ok? <==> 0 <= id <= 4
    ensures forall i :: 0 <= i < |questions| ==> WellFormed(questions[i])
    ensures questions == [FileExtensionQuestion(), DefKeywordQuestion(), CommentQuestion(), InputTypeQuestion(), ListLiteralQuestion()]
    ensures HandleSubmit(questions, 0, "c") ==
      Ok(AnswerResponse(true, "c", ".py", ".py is the standard extension for Python source files."))
  {
    questions := BuildQuestions();
    SubmitExample(questions);
  }
}
