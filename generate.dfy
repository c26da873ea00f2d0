/**
 * `generate_quiz_from_text` after the model has answered: extract the JSON
 * block from the raw reply, parse it, validate it against the requested
 * number of questions per tier, and return the parsed quiz.
 *
 * The model call itself is not modelled: the raw reply is an input. The JSON
 * parser (`json.loads`) is the parameter `parse`, which yields `None` where
 * the parser would raise.
 */
module Generate {
  import opened Wrappers
  import opened JsonValue
  import opened Extract
  import opened Schema
  import opened Evaluate

  /** Why no quiz came back; each stands for an exception the source lets escape. */
  datatype GenerateError =
    | NoJsonBlock(reason: ExtractError)  // ValueError from the extraction
    | NotJson                            // the parser's decode error
    | InvalidQuiz(violation: SchemaError)    // ValueError from the schema check

  /** Extract, parse and validate, stopping at the first step that fails. */
  function QuizFromReply(raw: string, parse: string -> Option<Json>, n: int): (r: Result<Json, GenerateError>)
    ensures r.Success? ==> ValidQuiz(r.value, n)
    ensures r.Success? ==> ExtractJsonBlock(raw).Success? && parse(ExtractJsonBlock(raw).value) == Some(r.value)
    ensures r.Failure? && r.error.InvalidQuiz? ==>
              && ExtractJsonBlock(raw).Success? && parse(ExtractJsonBlock(raw).value).Some?
              && !ValidQuiz(parse(ExtractJsonBlock(raw).value).value, n)
  {
    match ExtractJsonBlock(raw)
    case Failure(e) => Failure(NoJsonBlock(e))
    case Success(block) =>
      match parse(block)
      case None => Failure(NotJson)
      case Some(data) =>
        match ValidateQuizSchema(data, n)
        case Fail(e) => Failure(InvalidQuiz(e))
        case Pass => Success(data)
  }

  /**
   * With `i` the first `{` and `j` the last `}` of the reply, a quiz comes
   * back exactly when `i < j`, the text from `i` through `j` parses, and the
   * parsed value is a valid quiz; that parsed value is what comes back.
   */
  lemma QuizFromReplySucceedsIff(raw: string, parse: string -> Option<Json>, n: int, i: int, j: int)
    requires IsFirstIndex(raw, '{', i) && IsLastIndex(raw, '}', j)
    ensures QuizFromReply(raw, parse, n).Success?
            <==> (i < j && parse(raw[i..j + 1]).Some? && ValidQuiz(parse(raw[i..j + 1]).value, n))
    ensures QuizFromReply(raw, parse, n).Success? ==>
              i < j && QuizFromReply(raw, parse, n).value == parse(raw[i..j + 1]).value
  {
    ExtractSpansFirstOpenToLastClose(raw, i, j);
  }

  /** Without a `{` before a `}` the failure is the extraction's, before any parsing. */
  lemma QuizFromReplyNeedsBraces(raw: string, parse: string -> Option<Json>, n: int)
    ensures QuizFromReply(raw, parse, n) == Failure(NoJsonBlock(NoJsonObject))
            <==> !(exists i, j :: 0 <= i < j < |raw| && raw[i] == '{' && raw[j] == '}')
  {
    ExtractFailsIff(raw);
  }

  /**
   * Once a block is extracted, the two later failures are told apart: the
   * parser's failure gives `NotJson`, a parsed value that is not a valid quiz
   * gives `InvalidQuiz` carrying the schema check's own error, and a valid
   * one comes back.
   */
  lemma QuizFromReplyAfterExtraction(raw: string, parse: string -> Option<Json>, n: int)
    requires ExtractJsonBlock(raw).Success?
    ensures var block, r := ExtractJsonBlock(raw).value, QuizFromReply(raw, parse, n);
            && (r == Failure(NotJson) <==> parse(block).None?)
            && (r.Failure? && r.error.InvalidQuiz?
                <==> parse(block).Some? && !ValidQuiz(parse(block).value, n))
            && (r.Failure? && r.error.InvalidQuiz? ==>
                  r.error.violation == ValidateQuizSchema(parse(block).value, n).error)
            && (r.Success? <==> parse(block).Some? && ValidQuiz(parse(block).value, n))
            && !(r.Failure? && r.error.NoJsonBlock?)
  {
  }

  /** A schema failure reports the quiz's first violation in checking order. */
  lemma InvalidQuizNamesFirstViolation(raw: string, parse: string -> Option<Json>, n: int)
    requires QuizFromReply(raw, parse, n).Failure? && QuizFromReply(raw, parse, n).error.InvalidQuiz?
    ensures var data := parse(ExtractJsonBlock(raw).value).value;
            IsFirstViolation(data, n, QuizFromReply(raw, parse, n).error.violation)
  {
    ValidateReportsFirstViolation(parse(ExtractJsonBlock(raw).value).value, n);
  }

  /**
   * What generation returns can be handed to the scorer: it is scorable and
   * holds `3 * n` questions, so a full run of the scorer gives a score
   * between 0 and `3 * n`.
   */
  lemma GeneratedQuizIsScorable(raw: string, parse: string -> Option<Json>, n: int)
    requires QuizFromReply(raw, parse, n).Success?
    ensures Scorable(QuizFromReply(raw, parse, n).value)
    ensures TotalQuestions(QuizFromReply(raw, parse, n).value) == 3 * n
  {
    ValidQuizIsScorable(QuizFromReply(raw, parse, n).value, n);
  }
}
