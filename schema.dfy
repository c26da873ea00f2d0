/**
 * `_validate_quiz_schema`: strict, all-or-nothing validation of the parsed
 * quiz. The tiers are checked in the order basic, intermediate, hard; within
 * a tier the questions by index; within a question the guards in the order
 * the source raises them. The first failing guard is the error reported.
 */
module Schema {
  import opened Wrappers
  import opened JsonValue

  /** The three difficulty tiers, in the order they are checked and scored. */
  const Tiers: seq<string> := ["basic", "intermediate", "hard"]

  /** The keys every question object carries, in the order they are checked. */
  const RequiredKeys: seq<string> := ["question", "options", "correct", "explanation"]

  /** The option letters, in the order they are checked. */
  const Letters: seq<string> := ["A", "B", "C", "D"]

  /** What is wrong with one question; each stands for one of the source's `ValueError`s. */
  datatype QuestionFault =
    | NotAnObject                    // the question is not a JSON object
    | MissingKey(key: string)        // a required key is absent
    | OptionsNotObject               // "options" is not a JSON object
    | MissingOption(letter: string)  // an option letter is absent from "options"
    | InvalidCorrect                 // "correct" is not one of the letters

  /** The schema error, naming the offending tier, index and field. */
  datatype SchemaError =
    | TopLevelNotObject                                  // the parsed value is not a JSON object
    | MissingTier(level: string)                         // the tier is absent or not a list
    | WrongCount(level: string, expected: int, got: nat) // the tier's length is not the requested count
    | BadQuestion(level: string, index: nat, fault: QuestionFault)

  /** `v` is one of the strings "A", "B", "C", "D". */
  predicate IsLetter(v: Json) {
    v == JString("A") || v == JString("B") || v == JString("C") || v == JString("D")
  }

  predicate HasRequiredKeys(fields: map<string, Json>) {
    "question" in fields && "options" in fields && "correct" in fields && "explanation" in fields
  }

  predicate HasAllLetters(options: map<string, Json>) {
    "A" in options && "B" in options && "C" in options && "D" in options
  }

  /** Reference definition of an acceptable question. */
  predicate ValidQuestion(q: Json) {
    && q.JObject?
    && HasRequiredKeys(q.fields)
    && q.fields["options"].JObject?
    && HasAllLetters(q.fields["options"].fields)
    && IsLetter(q.fields["correct"])
  }

  /** Reference definition of an acceptable tier: a list of exactly `n` valid questions. */
  predicate TierValid(fields: map<string, Json>, level: string, n: int) {
    && level in fields && fields[level].JArray?
    && |fields[level].items| == n
    && forall i :: 0 <= i < |fields[level].items| ==> ValidQuestion(fields[level].items[i])
  }

  /** Reference definition of an acceptable quiz: all three tiers acceptable. */
  predicate ValidQuiz(data: Json, n: int) {
    && data.JObject?
    && TierValid(data.fields, "basic", n)
    && TierValid(data.fields, "intermediate", n)
    && TierValid(data.fields, "hard", n)
  }

  /** The first of `keys[from..]` missing from `m`, as an index into `keys`. */
  function FirstMissing(keys: seq<string>, m: map<string, Json>, from: nat): (r: Option<nat>)
    requires from <= |keys|
    ensures r.None? ==> forall i :: from <= i < |keys| ==> keys[i] in m
    ensures r.Some? ==> from <= r.value < |keys| && keys[r.value] !in m
                        && forall i :: from <= i < r.value ==> keys[i] in m
    decreases |keys| - from
  {
    if from == |keys| then None
    else if keys[from] !in m then Some(from)
    else FirstMissing(keys, m, from + 1)
  }

  /**
   * The fault `f` is present in `q`, and every guard the source evaluates
   * before the one that reports `f` passed.
   */
  ghost predicate FaultHolds(q: Json, f: QuestionFault) {
    match f
    case NotAnObject => !q.JObject?
    case MissingKey(k) =>
      && q.JObject? && k !in q.fields
      && exists i :: 0 <= i < |RequiredKeys| && RequiredKeys[i] == k
                     && forall j :: 0 <= j < i ==> RequiredKeys[j] in q.fields
    case OptionsNotObject =>
      && q.JObject? && HasRequiredKeys(q.fields)
      && !q.fields["options"].JObject?
    case MissingOption(l) =>
      && q.JObject? && HasRequiredKeys(q.fields)
      && q.fields["options"].JObject? && l !in q.fields["options"].fields
      && exists i :: 0 <= i < |Letters| && Letters[i] == l
                     && forall j :: 0 <= j < i ==> Letters[j] in q.fields["options"].fields
    case InvalidCorrect =>
      && q.JObject? && HasRequiredKeys(q.fields)
      && q.fields["options"].JObject?
      && HasAllLetters(q.fields["options"].fields)
      && !IsLetter(q.fields["correct"])
  }

  /** The checks of one question, in the source's order; `None` when it passes them all. */
  function CheckQuestion(q: Json): (r: Option<QuestionFault>)
    ensures r.None? <==> ValidQuestion(q)
    ensures r.Some? ==> FaultHolds(q, r.value)
  {
    if !q.JObject? then Some(NotAnObject)
    else match FirstMissing(RequiredKeys, q.fields, 0)
      case Some(i) => Some(MissingKey(RequiredKeys[i]))
      case None =>
        var options := q.fields["options"];
        if !options.JObject? then Some(OptionsNotObject)
        else match FirstMissing(Letters, options.fields, 0)
          case Some(i) => Some(MissingOption(Letters[i]))
          case None => if !IsLetter(q.fields["correct"]) then Some(InvalidCorrect) else None
  }

  /** Questions `items[from..]` of tier `level`, by index; the first bad one is reported. */
  function CheckQuestions(level: string, items: seq<Json>, from: nat): (r: Outcome<SchemaError>)
    requires from <= |items|
    ensures r.Pass? <==> forall i :: from <= i < |items| ==> ValidQuestion(items[i])
    ensures r.Fail? ==> && r.error.BadQuestion? && r.error.level == level
                        && from <= r.error.index < |items|
                        && (forall i :: from <= i < r.error.index ==> ValidQuestion(items[i]))
                        && FaultHolds(items[r.error.index], r.error.fault)
    decreases |items| - from
  {
    if from == |items| then Pass
    else match CheckQuestion(items[from])
      case Some(fault) => Fail(BadQuestion(level, from, fault))
      case None => CheckQuestions(level, items, from + 1)
  }

  /** One tier: present, a list, exactly `n` long, and every question acceptable. */
  function CheckTier(fields: map<string, Json>, level: string, n: int): (r: Outcome<SchemaError>)
    ensures r.Pass? <==> TierValid(fields, level, n)
  {
    if level !in fields || !fields[level].JArray? then Fail(MissingTier(level))
    else if |fields[level].items| != n then Fail(WrongCount(level, n, |fields[level].items|))
    else CheckQuestions(level, fields[level].items, 0)
  }

  /** The tiers `Tiers[t..]`, in order; the first failing tier's error is reported. */
  function CheckTiers(fields: map<string, Json>, n: int, t: nat): (r: Outcome<SchemaError>)
    requires t <= |Tiers|
    ensures r.Pass? <==> forall u :: t <= u < |Tiers| ==> TierValid(fields, Tiers[u], n)
    decreases |Tiers| - t
  {
    if t == |Tiers| then Pass
    else match CheckTier(fields, Tiers[t], n)
      case Fail(e) => Fail(e)
      case Pass => CheckTiers(fields, n, t + 1)
  }

  /** `_validate_quiz_schema(data, n_per_level)`: `Pass`, or the first violation. */
  function ValidateQuizSchema(data: Json, n: int): (r: Outcome<SchemaError>)
    ensures r.Pass? <==> ValidQuiz(data, n)
  {
    if !data.JObject? then Fail(TopLevelNotObject) else CheckTiers(data.fields, n, 0)
  }

  /** Every tier before `Tiers[t]` is acceptable. */
  ghost predicate TiersBeforeValid(fields: map<string, Json>, n: int, t: int) {
    forall u :: 0 <= u < t && u < |Tiers| ==> TierValid(fields, Tiers[u], n)
  }

  /**
   * `e` is the first violation of the schema in checking order: the defect it
   * names is present at the tier, index and field it names, and every tier,
   * question and guard checked before it passed.
   */
  ghost predicate IsFirstViolation(data: Json, n: int, e: SchemaError) {
    match e
    case TopLevelNotObject => !data.JObject?
    case MissingTier(level) =>
      && data.JObject?
      && (exists t :: 0 <= t < |Tiers| && Tiers[t] == level && TiersBeforeValid(data.fields, n, t))
      && !(level in data.fields && data.fields[level].JArray?)
    case WrongCount(level, expected, got) =>
      && data.JObject?
      && (exists t :: 0 <= t < |Tiers| && Tiers[t] == level && TiersBeforeValid(data.fields, n, t))
      && level in data.fields && data.fields[level].JArray?
      && expected == n && got == |data.fields[level].items| && got != n
    case BadQuestion(level, index, fault) =>
      && data.JObject?
      && (exists t :: 0 <= t < |Tiers| && Tiers[t] == level && TiersBeforeValid(data.fields, n, t))
      && level in data.fields && data.fields[level].JArray?
      && |data.fields[level].items| == n && index < n
      && (forall i :: 0 <= i < index ==> ValidQuestion(data.fields[level].items[i]))
      && FaultHolds(data.fields[level].items[index], fault)
  }

  lemma {:induction false} CheckTiersReportsFirstViolation(fields: map<string, Json>, n: int, t: nat)
    requires t <= |Tiers| && TiersBeforeValid(fields, n, t)
    requires CheckTiers(fields, n, t).Fail?
    ensures IsFirstViolation(JObject(fields), n, CheckTiers(fields, n, t).error)
    decreases |Tiers| - t
  {
    if t < |Tiers| {
      var level := Tiers[t];
      var r := CheckTier(fields, level, n);
      if r.Fail? {
        assert CheckTiers(fields, n, t) == r;
        assert Tiers[t] == level && TiersBeforeValid(fields, n, t);
      } else {
        assert TiersBeforeValid(fields, n, t + 1);
        CheckTiersReportsFirstViolation(fields, n, t + 1);
      }
    }
  }

  /**
   * A rejected quiz is rejected for its first violation in tier-then-index
   * order, and the error names a defect that is really there.
   */
  lemma ValidateReportsFirstViolation(data: Json, n: int)
    requires ValidateQuizSchema(data, n).Fail?
    ensures IsFirstViolation(data, n, ValidateQuizSchema(data, n).error)
  {
    if data.JObject? {
      CheckTiersReportsFirstViolation(data.fields, n, 0);
    }
  }

  /**
   * No partial acceptance: a tier of the wrong length, or a single defective
   * question anywhere, rejects the whole quiz.
   */
  lemma ValidateIsAllOrNothing(data: Json, n: int, level: string, i: int)
    requires data.JObject? && level in Tiers && level in data.fields
    requires data.fields[level].JArray?
    requires |data.fields[level].items| != n
             || (0 <= i < |data.fields[level].items| && !ValidQuestion(data.fields[level].items[i]))
    ensures ValidateQuizSchema(data, n).Fail?
  {
  }
}
