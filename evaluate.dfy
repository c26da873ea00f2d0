/**
 * `evaluate_answers`: score the recorded answers against a quiz and build
 * one feedback entry per question, tier by tier (basic, intermediate, hard)
 * and by index within a tier.
 */
module Evaluate {
  import opened JsonValue
  import opened Text
  import opened Schema

  /** The outcome of one question; `Wrong` carries the normalised correct letter. */
  datatype Verdict = Correct | Wrong(correct: string)

  /** One line of the results breakdown. */
  datatype FeedbackEntry = FeedbackEntry(question: Json, result: Verdict, explanation: Json)

  /** The text the source stores under "result": "Correct" or "Wrong (Correct: X)". */
  function ResultText(v: Verdict): (text: string)
    ensures text == "Correct" <==> v.Correct?
  {
    match v
    case Correct => "Correct"
    case Wrong(correct) =>
      var text := "Wrong (Correct: " + correct + ")";
      assert text[0] == 'W';
      text
  }

  /** `s.strip().upper()`: how both the stored and the recorded letter are compared. */
  function Normalize(s: string): string {
    Upper(Strip(s))
  }

  /**
   * The normal form is no longer than the input, has no whitespace at either
   * end and no lower-case ASCII letter.
   */
  lemma NormalizeIsNormalForm(s: string)
    ensures var r := Normalize(s);
            && |r| <= |s|
            && IsStripped(r)
            && forall i :: 0 <= i < |r| ==> !('a' <= r[i] <= 'z')
  {
    var t := Strip(s);
    StripSpec(s);
    UpperSpec(t);
  }

  /** Normalising twice is normalising once: both sides of the comparison are in normal form. */
  lemma NormalizeIsIdempotent(s: string)
    ensures Normalize(Normalize(s)) == Normalize(s)
  {
    var r := Normalize(s);
    NormalizeIsNormalForm(s);
    assert [] + r + [] == r;
    StripUnique([], r, []);
    UpperKeepsUpperCase(r);
  }

  /** The answer-record key of question `i` of tier `level`: `f"{level}_{i}"`. */
  function AnswerKey(level: string, i: nat): (k: string)
    ensures |k| >= |level| + 2
    ensures k[..|level|] == level && k[|level|] == '_'
    ensures forall j :: |level| < j < |k| ==> IsDigit(k[j])
  {
    level + "_" + Decimal(i)
  }

  /** `answers.get(key, default)`. */
  function GetOrDefault(answers: map<string, string>, key: string, default: string): (v: string)
    ensures key in answers ==> v == answers[key]
    ensures key !in answers ==> v == default
  {
    if key in answers then answers[key] else default
  }

  /** What scoring reads from a question: an object with question, explanation and a string `correct`. */
  predicate ScorableQuestion(q: Json) {
    && q.JObject?
    && "question" in q.fields && "explanation" in q.fields
    && "correct" in q.fields && q.fields["correct"].JString?
  }

  /** `quiz[level]` is a list of scorable questions. */
  predicate ScorableTier(quiz: Json, level: string)
    requires quiz.JObject?
  {
    && level in quiz.fields && quiz.fields[level].JArray?
    && forall i :: 0 <= i < |quiz.fields[level].items| ==> ScorableQuestion(quiz.fields[level].items[i])
  }

  /** What `evaluate_answers` demands of its quiz argument (it raises otherwise). */
  predicate Scorable(quiz: Json) {
    && quiz.JObject?
    && ScorableTier(quiz, "basic") && ScorableTier(quiz, "intermediate") && ScorableTier(quiz, "hard")
  }

  /** On a scorable quiz, tier `Tiers[t]` is a list of scorable questions. */
  lemma TierScorable(quiz: Json, t: nat)
    requires Scorable(quiz) && t < |Tiers|
    ensures ScorableTier(quiz, Tiers[t])
  {
    assert Tiers[t] == "basic" || Tiers[t] == "intermediate" || Tiers[t] == "hard";
  }

  /** The questions of tier `Tiers[t]`: `quiz[Tiers[t]]`. */
  function TierQuestions(quiz: Json, t: nat): (qs: seq<Json>)
    requires Scorable(quiz) && t < |Tiers|
    ensures forall i :: 0 <= i < |qs| ==> ScorableQuestion(qs[i])
  {
    TierScorable(quiz, t);
    quiz.fields[Tiers[t]].items
  }

  /** The feedback entry for question `i` of tier `level` (the source's loop body). */
  function Entry(answers: map<string, string>, level: string, i: nat, q: Json): FeedbackEntry
    requires ScorableQuestion(q)
  {
    var correct := Normalize(q.fields["correct"].str);
    var userAnswer := Normalize(GetOrDefault(answers, AnswerKey(level, i), ""));
    var result := if userAnswer == correct then Correct else Wrong(correct);
    FeedbackEntry(q.fields["question"], result, q.fields["explanation"])
  }

  /** The feedback entries for the first `k` questions of tier `level`, in index order. */
  function TierEntries(answers: map<string, string>, level: string, questions: seq<Json>, k: nat): (entries: seq<FeedbackEntry>)
    requires k <= |questions|
    requires forall i :: 0 <= i < |questions| ==> ScorableQuestion(questions[i])
    ensures |entries| == k
  {
    if k == 0 then []
    else TierEntries(answers, level, questions, k - 1) + [Entry(answers, level, k - 1, questions[k - 1])]
  }

  /** Feedback for the tiers `Tiers[..t]`, in tier order. */
  function FeedbackThrough(answers: map<string, string>, quiz: Json, t: nat): (feedback: seq<FeedbackEntry>)
    requires Scorable(quiz) && t <= |Tiers|
    ensures |feedback| == Offset(quiz, t)
  {
    if t == 0 then []
    else
      var qs := TierQuestions(quiz, t - 1);
      FeedbackThrough(answers, quiz, t - 1) + TierEntries(answers, Tiers[t - 1], qs, |qs|)
  }

  /** The whole feedback list `evaluate_answers` returns. */
  function QuizFeedback(answers: map<string, string>, quiz: Json): seq<FeedbackEntry>
    requires Scorable(quiz)
  {
    FeedbackThrough(answers, quiz, |Tiers|)
  }

  /** Number of questions in the tiers before `Tiers[t]`. */
  function Offset(quiz: Json, t: nat): nat
    requires Scorable(quiz) && t <= |Tiers|
  {
    if t == 0 then 0 else Offset(quiz, t - 1) + |TierQuestions(quiz, t - 1)|
  }

  function TotalQuestions(quiz: Json): nat
    requires Scorable(quiz)
  {
    Offset(quiz, |Tiers|)
  }

  /** Number of feedback entries whose result is "Correct". */
  function CountCorrect(feedback: seq<FeedbackEntry>): (c: nat)
    ensures c <= |feedback|
  {
    if feedback == [] then 0
    else
      CountCorrect(feedback[..|feedback| - 1])
      + (if feedback[|feedback| - 1].result.Correct? then 1 else 0)
  }

  lemma CountCorrectSnoc(feedback: seq<FeedbackEntry>, entry: FeedbackEntry)
    ensures CountCorrect(feedback + [entry])
            == CountCorrect(feedback) + (if entry.result.Correct? then 1 else 0)
  {
    assert (feedback + [entry])[..|feedback|] == feedback;
  }

  /**
   * One iteration of the inner loop of `evaluate_answers`: normalises the
   * stored and the submitted letter, compares them and builds the entry;
   * `hit` says whether the score goes up. The statements follow the source's
   * loop body one by one, and the caller adds `hit` to the score. `Entry` is
   * the function that specifies this method; the first ensures proves the
   * two agree.
   */
  method JudgeQuestion(userAnswers: map<string, string>, level: string, i: nat, q: Json)
    returns (entry: FeedbackEntry, hit: bool)
    requires ScorableQuestion(q)
    ensures entry == Entry(userAnswers, level, i, q)
    ensures hit <==> entry.result.Correct?
  {
    var question := q.fields;
    var correct := Normalize(question["correct"].str);
    var userAnswer := Normalize(GetOrDefault(userAnswers, AnswerKey(level, i), ""));
    var result;
    if userAnswer == correct {
      hit := true;
      result := Correct;
    } else {
      hit := false;
      result := Wrong(correct);
    }
    entry := FeedbackEntry(question["question"], result, question["explanation"]);
  }

  /** Appending the entry of question `i` to a list ending in the first `i` entries. */
  lemma EntriesSnoc(answers: map<string, string>, level: string, questions: seq<Json>, i: nat,
                    feedback0: seq<FeedbackEntry>, entry: FeedbackEntry)
    requires i < |questions|
    requires forall k :: 0 <= k < |questions| ==> ScorableQuestion(questions[k])
    requires entry == Entry(answers, level, i, questions[i])
    ensures feedback0 + TierEntries(answers, level, questions, i) + [entry]
            == feedback0 + TierEntries(answers, level, questions, i + 1)
  {
  }

  /**
   * The inner loop of `evaluate_answers` for one tier: judges the tier's
   * questions in index order, extending the running score and feedback.
   */
  method ScoreTier(userAnswers: map<string, string>, level: string, questions: seq<Json>,
                   score0: int, feedback0: seq<FeedbackEntry>)
    returns (score: int, feedback: seq<FeedbackEntry>)
    requires forall i :: 0 <= i < |questions| ==> ScorableQuestion(questions[i])
    requires score0 == CountCorrect(feedback0)
    ensures feedback == feedback0 + TierEntries(userAnswers, level, questions, |questions|)
    ensures score == CountCorrect(feedback)
  {
    score, feedback := score0, feedback0;
    var i := 0;
    while i < |questions|
      invariant 0 <= i <= |questions|
      invariant feedback == feedback0 + TierEntries(userAnswers, level, questions, i)
      invariant score == CountCorrect(feedback)
    {
      var entry, hit := JudgeQuestion(userAnswers, level, i, questions[i]);
      if hit {
        score := score + 1;
      }
      CountCorrectSnoc(feedback, entry);
      EntriesSnoc(userAnswers, level, questions, i, feedback0, entry);
      feedback := feedback + [entry];
      i := i + 1;
    }
  }

  /**
   * `evaluate_answers(user_answers, quiz_data)`: walks the tiers in order and
   * each tier's questions by index, counting matches and appending one
   * feedback entry per question.
   */
  method EvaluateAnswers(userAnswers: map<string, string>, quizData: Json)
    returns (score: int, feedback: seq<FeedbackEntry>)
    requires Scorable(quizData)
    ensures feedback == QuizFeedback(userAnswers, quizData)
    ensures score == CountCorrect(feedback)
    ensures 0 <= score <= |feedback| == TotalQuestions(quizData)
  {
    score := 0;
    feedback := [];
    var t := 0;
    while t < |Tiers|
      invariant 0 <= t <= |Tiers|
      invariant feedback == FeedbackThrough(userAnswers, quizData, t)
      invariant score == CountCorrect(feedback)
    {
      var questions := TierQuestions(quizData, t);
      score, feedback := ScoreTier(userAnswers, Tiers[t], questions, score, feedback);
      t := t + 1;
    }
  }

  /** Entry `i` of a tier's entries is the entry of question `i`. */
  lemma {:induction false} TierEntriesAt(answers: map<string, string>, level: string, questions: seq<Json>, k: nat, i: nat)
    requires i < k <= |questions|
    requires forall j :: 0 <= j < |questions| ==> ScorableQuestion(questions[j])
    ensures TierEntries(answers, level, questions, k)[i] == Entry(answers, level, i, questions[i])
  {
    var prev := TierEntries(answers, level, questions, k - 1);
    var last := Entry(answers, level, k - 1, questions[k - 1]);
    assert TierEntries(answers, level, questions, k) == prev + [last];
    if i < k - 1 {
      TierEntriesAt(answers, level, questions, k - 1, i);
      assert (prev + [last])[i] == prev[i];
    } else {
      assert (prev + [last])[i] == last;
    }
  }

  lemma {:induction false} FeedbackThroughAt(answers: map<string, string>, quiz: Json, u: nat, t: nat, i: nat)
    requires Scorable(quiz) && t < u <= |Tiers| && i < |TierQuestions(quiz, t)|
    ensures Offset(quiz, t) + i < Offset(quiz, u)
    ensures var qs := TierQuestions(quiz, t);
            FeedbackThrough(answers, quiz, u)[Offset(quiz, t) + i] == TierEntries(answers, Tiers[t], qs, |qs|)[i]
  {
    FeedbackThroughStep(answers, quiz, u);
    OffsetGrows(quiz, t, u);
    var prev := FeedbackThrough(answers, quiz, u - 1);
    var qs := TierQuestions(quiz, u - 1);
    var entries := TierEntries(answers, Tiers[u - 1], qs, |qs|);
    var k := Offset(quiz, t) + i;
    if t == u - 1 {
      assert (prev + entries)[|prev| + i] == entries[i];
    } else {
      FeedbackThroughAt(answers, quiz, u - 1, t, i);
      assert (prev + entries)[k] == prev[k];
    }
  }

  /** The tiers before `Tiers[u]` include all of tier `t < u`. */
  lemma {:induction false} OffsetGrows(quiz: Json, t: nat, u: nat)
    requires Scorable(quiz) && t < u <= |Tiers|
    ensures Offset(quiz, t) + |TierQuestions(quiz, t)| <= Offset(quiz, u)
    decreases u
  {
    if t < u - 1 {
      OffsetGrows(quiz, t, u - 1);
    }
  }

  /** One more tier appends that tier's entries. */
  lemma FeedbackThroughStep(answers: map<string, string>, quiz: Json, u: nat)
    requires Scorable(quiz) && 0 < u <= |Tiers|
    ensures var qs := TierQuestions(quiz, u - 1);
            && FeedbackThrough(answers, quiz, u)
               == FeedbackThrough(answers, quiz, u - 1) + TierEntries(answers, Tiers[u - 1], qs, |qs|)
            && Offset(quiz, u) == Offset(quiz, u - 1) + |qs|
  {
  }

  /**
   * The feedback is in tier order, then index order: the entry for question
   * `i` of tier `Tiers[t]` sits at position `Offset(quiz, t) + i`.
   */
  lemma FeedbackOrder(answers: map<string, string>, quiz: Json, t: nat, i: nat)
    requires Scorable(quiz) && t < |Tiers| && i < |TierQuestions(quiz, t)|
    ensures Offset(quiz, t) + i < |QuizFeedback(answers, quiz)|
    ensures QuizFeedback(answers, quiz)[Offset(quiz, t) + i]
            == Entry(answers, Tiers[t], i, TierQuestions(quiz, t)[i])
  {
    FeedbackThroughAt(answers, quiz, |Tiers|, t, i);
    var qs := TierQuestions(quiz, t);
    TierEntriesAt(answers, Tiers[t], qs, |qs|, i);
  }

  /** The positions of the entries marked correct. */
  function CorrectPositions(feedback: seq<FeedbackEntry>): set<nat> {
    set i: nat | i < |feedback| && feedback[i].result.Correct?
  }

  /** The score is the number of entries whose result is "Correct". */
  lemma {:induction false} CountCorrectIsNumberCorrect(feedback: seq<FeedbackEntry>)
    ensures CountCorrect(feedback) == |CorrectPositions(feedback)|
  {
    if feedback != [] {
      var n := |feedback| - 1;
      var init := feedback[..n];
      CountCorrectIsNumberCorrect(init);
      if feedback[n].result.Correct? {
        assert CorrectPositions(feedback) == CorrectPositions(init) + {n};
      } else {
        assert CorrectPositions(feedback) == CorrectPositions(init);
      }
    }
  }

  /**
   * An entry copies the question's text and explanation; its verdict compares
   * normal forms, the recorded answer's when there is one and otherwise the
   * empty default's, and a wrong verdict names the stored letter's normal form.
   */
  lemma EntryVerdict(answers: map<string, string>, level: string, i: nat, q: Json)
    requires ScorableQuestion(q)
    ensures var e := Entry(answers, level, i, q);
            e.question == q.fields["question"] && e.explanation == q.fields["explanation"]
    ensures var key, correct := AnswerKey(level, i), Normalize(q.fields["correct"].str);
            Entry(answers, level, i, q).result.Correct?
            <==> (if key in answers then Normalize(answers[key]) == correct else correct == [])
    ensures Entry(answers, level, i, q).result.Wrong? ==>
              Entry(answers, level, i, q).result.correct == Normalize(q.fields["correct"].str)
  {
    assert Normalize("") == "";
  }

  /** A single non-whitespace character normalises to its upper case. */
  lemma NormalizeChar(c: char)
    requires !IsSpace(c)
    ensures Normalize([c]) == [UpperChar(c)]
  {
    assert Strip([c]) == [c];
  }

  /** A stored letter "A".."D" is its own normal form. */
  lemma NormalizeLetter(v: Json)
    requires IsLetter(v)
    ensures Normalize(v.str) == v.str
  {
    NormalizeChar(v.str[0]);
    assert v.str == [v.str[0]];
  }

  /**
   * Matching ignores surrounding whitespace and case: a recorded answer made
   * of whitespace, one character whose upper case is the stored letter, and
   * whitespace (such as " a " against "A") is judged correct.
   */
  lemma SpacedLowercaseAnswerScores(answers: map<string, string>, level: string, i: nat, q: Json,
                                     u: string, c: char, v: string)
    requires ScorableQuestion(q) && IsLetter(q.fields["correct"])
    requires AnswerKey(level, i) in answers && answers[AnswerKey(level, i)] == u + [c] + v
    requires AllSpace(u) && AllSpace(v) && [UpperChar(c)] == q.fields["correct"].str
    ensures Entry(answers, level, i, q).result == Correct
  {
    NormalizeLetter(q.fields["correct"]);
    StripIgnoresSurroundingSpace(u, [c], v);
    NormalizeChar(c);
  }

  /** A question with no recorded answer is judged wrong, naming the stored letter. */
  lemma UnansweredIsWrong(answers: map<string, string>, level: string, i: nat, q: Json)
    requires ScorableQuestion(q) && IsLetter(q.fields["correct"])
    requires AnswerKey(level, i) !in answers
    ensures Entry(answers, level, i, q).result == Wrong(q.fields["correct"].str)
  {
    NormalizeLetter(q.fields["correct"]);
    assert Normalize("") == "";
  }

  /** Different questions of the quiz are recorded under different keys. */
  lemma AnswerKeyInjective(level1: string, i1: nat, level2: string, i2: nat)
    requires level1 in Tiers && level2 in Tiers
    requires AnswerKey(level1, i1) == AnswerKey(level2, i2)
    ensures level1 == level2 && i1 == i2
  {
    var k := AnswerKey(level1, i1);
    assert k[0] == level1[0] && k[0] == level2[0];
    assert level1 == level2;
    var n := |level1| + 1;
    assert k[n..] == Decimal(i1);
    assert AnswerKey(level2, i2)[n..] == Decimal(i2);
    DecimalInjective(i1, i2);
  }

  /** A quiz that passes schema validation can be scored and holds `3 * n` questions. */
  lemma ValidQuizIsScorable(quiz: Json, n: int)
    requires ValidQuiz(quiz, n)
    ensures Scorable(quiz) && TotalQuestions(quiz) == 3 * n
  {
    forall level | level in Tiers
      ensures ScorableTier(quiz, level)
    {
      assert TierValid(quiz.fields, level, n);
    }
    assert ScorableTier(quiz, "basic") && ScorableTier(quiz, "intermediate") && ScorableTier(quiz, "hard");
    assert Offset(quiz, 1) == n;
    assert Offset(quiz, 2) == 2 * n;
  }
}
