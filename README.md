# Quiz back end: JSON extraction, schema validation and scoring

This project models the deterministic core of a quiz generator's back end
(`backend.py`). A language model is asked to write a quiz as JSON with three
difficulty tiers: "basic", "intermediate" and "hard". The back end then does
four things:

- it scrapes the `{...}` block out of the model's free-text reply (`_extract_json_block`);
- it validates the parsed quiz strictly, all or nothing (`_validate_quiz_schema`);
- it runs extraction, parsing and validation as one pipeline, `generate_quiz_from_text` after the model call;
- it scores the answers a user recorded and builds a feedback entry per question (`evaluate_answers`).

Modules, one file each:

- `Wrappers` (`wrappers.dfy`): the `Option`, `Result` and `Outcome` types.
- `JsonValue` (`json_value.dfy`): `Json`, the parsed JSON value that stands in for Python's dicts, lists, strings and numbers.
- `Text` (`text.dfy`): the Python string operations the core relies on.
  - `str.strip()` over the full Unicode whitespace set of `str.isspace`.
  - ASCII `str.upper()`.
  - `str.find` and `str.rfind`, returning -1 when the character is absent.
  - The decimal rendering of a non-negative integer.
- `Extract` (`extract.dfy`): `_extract_json_block`, with both its rules.
  - The primary rule is the regex `\{[\s\S]*\}\s*$` on the stripped reply. The model states the regex as a reference predicate. On a stripped reply it is equivalent to "ends with `}` and contains `{`".
  - The fallback slices the raw reply from its first `{` to its last `}`.
- `Schema` (`schema.dfy`): `_validate_quiz_schema`, in two parts.
  - Reference predicates say what an acceptable question, tier and quiz are.
  - A checking function runs the guards in the source's order and reports the first failure as a `SchemaError` variant. The variant names the tier, the index and the fault.
- `Evaluate` (`evaluate.dfy`): `evaluate_answers`, as imperative loops.
  - `EvaluateAnswers` is the outer loop over tiers. `ScoreTier` is the inner loop over questions. `JudgeQuestion` is the body of the inner loop.
  - Each is proved against the specification functions `Entry`, `TierEntries`, `FeedbackThrough`, `QuizFeedback` and `CountCorrect`. Lemmas state what those functions promise.
- `Generate` (`generate.dfy`): `generate_quiz_from_text` from the model's reply onward: extract, then parse, then validate.
  - The JSON parser is a parameter, `parse: string -> Option<Json>`. It yields `None` where `json.loads` would raise.

## Model

| member | source | states |
|---|---|---|
| Text.IsSpace | backend.py:78 | Python's `str.isspace()` set (also what `\s` matches): the ASCII controls tab through carriage return, the separators `\x1c` to `\x1f`, the space and the Unicode spaces; `Text.NewlineIsSpace` and `Text.BracesAreNotSpace` state the facts the extraction proofs use |
| Text.NewlineIsSpace | backend.py:78 | a newline is whitespace, so the pattern's `\s*$` may stop before a final newline |
| Text.BracesAreNotSpace | backend.py:78 | neither brace is whitespace, so stripping never removes a brace |
| Text.Strip | backend.py:78 | `str.strip()`, peeling whitespace off either end; its meaning is stated by `Text.StripSpec`, `Text.StripUnique` and `Text.StripIgnoresSurroundingSpace` |
| Text.StripSpec | backend.py:78 | `Strip(s)` is the slice of `s` left after removing a whitespace prefix and a whitespace suffix, and it neither begins nor ends with whitespace |
| Text.StripBounds | backend.py:78 | everything before the stripped slice and after it is whitespace; the slice's first and last characters are not |
| Text.StripIsSlice | backend.py:78 | the stripped text is `s[StripStart(s)..StripStop(s)]` |
| Text.LeadingSpacesSpec | backend.py:78 | the leading-whitespace count covers only whitespace and stops at the first non-whitespace character |
| Text.TrailingSpacesSpec | backend.py:78 | the trailing-whitespace count covers only whitespace and stops at the last non-whitespace character |
| Text.StripUnique | backend.py:78 | stripping `u + y + v`, with `u` and `v` all whitespace and `y` already stripped, gives exactly `y` |
| Text.StripSplit | backend.py:78 | every string is an all-whitespace prefix, its stripped core and an all-whitespace suffix |
| Text.StripIgnoresSurroundingSpace | backend.py:146-147 | surrounding a string with whitespace does not change its strip |
| Text.UpperChar | backend.py:146-147 | a lower-case ASCII letter maps to the upper-case letter at the same alphabet position; any other character is unchanged |
| Text.Upper | backend.py:146-147 | upper-casing preserves length |
| Text.UpperSpec | backend.py:146-147 | upper-casing maps each character through `UpperChar`, position by position |
| Text.FindFrom | backend.py:81 | the result is -1 exactly when `c` does not occur from `i` on; otherwise it is the first position at or after `i` holding `c` |
| Text.Find | backend.py:81 | `text.find(c)`: -1 when `c` is absent, otherwise the first position holding `c` |
| Text.FindBefore | backend.py:82 | the result is -1 exactly when `c` does not occur below `j`; otherwise it is the last position below `j` holding `c` |
| Text.RFind | backend.py:82 | `text.rfind(c)`: -1 when `c` is absent, otherwise the last position holding `c` |
| Text.Decimal | backend.py:147 | `str(i)` is a non-empty run of digits whose last digit is `i % 10`, with two or more digits exactly when `i >= 10` |
| Text.DecimalInjective | backend.py:147 | different indices have different decimal renderings |
| Extract.PatternMatch | backend.py:78 | a match of `\{[\s\S]*\}\s*$` spans `s[p..e]`, at least two characters long, with `e` at the end or before a final newline; `Extract.PatternIffEndsInBraceBlock` and `Extract.ExtractReturnsLeftmostLongestMatch` tie it to the extraction |
| Extract.PrimaryBlock | backend.py:78 | the primary rule's span begins with `{` and ends with `}` |
| Extract.FallbackBlock | backend.py:81-85 | a successful fallback begins with `{` and ends with `}` |
| Extract.ExtractJsonBlock | backend.py:74-86 | every successful extraction begins with `{` and ends with `}` |
| Extract.FindIsFirstIndex | backend.py:81 | `Find` returns exactly the first position of the character |
| Extract.RFindIsLastIndex | backend.py:82 | `RFind` returns exactly the last position of the character |
| Extract.MatchOfStrippedEndsAtEnd | backend.py:78 | in a stripped reply, every match of the pattern ends at the end of the reply, on a `}` |
| Extract.PatternIffEndsInBraceBlock | backend.py:78-79 | on a stripped reply the pattern has a match if and only if the reply ends with `}` and contains `{` |
| Extract.ExtractReturnsLeftmostLongestMatch | backend.py:78-86 | when the primary rule applies, the result is the stripped reply from its first `{` to its end; this is a match of the pattern, and every match starts no earlier and ends no later |
| Extract.BracedSliceSpansFirstToLast | backend.py:78-86 | a slice that ends in `}`, with no `{` before it and no `}` after it, runs from the reply's first `{` to its last `}` |
| Extract.StrippedBracesAreOuterBraces | backend.py:78 | when the stripped reply ends in a brace block, the whitespace cut off holds no `{` before it and no `}` after it |
| Extract.PrimaryAgreesWithFallback | backend.py:78-86 | whenever the primary rule applies, it returns exactly what the fallback would: `text[first '{' .. last '}']` |
| Extract.ExtractSpansFirstOpenToLastClose | backend.py:74-86 | with `i` the first `{` and `j` the last `}`, extraction returns `text[i..j + 1]` when `i < j`, and otherwise fails with `NoJsonObject` |
| Extract.ExtractFailsIff | backend.py:81-84 | extraction fails if and only if no `{` occurs before a `}` in the reply |
| Extract.ExtractIsSubstring | backend.py:81-86 | a successful extraction is a contiguous substring of the reply |
| Schema.FirstMissing | backend.py:104-111 | returns the first key of the list, in list order, that the map lacks, or `None` when the map has them all |
| Schema.CheckQuestion | backend.py:101-113 | a question passes if and only if it is a valid question; a reported fault is present, and every guard before it passed |
| Schema.CheckQuestions | backend.py:101-113 | a tier's questions pass if and only if all are valid; otherwise the error names the first bad index and a fault present there |
| Schema.CheckTier | backend.py:94-113 | a tier passes if and only if it is present, is a list, has exactly `n` questions and all of them are valid |
| Schema.CheckTiers | backend.py:93-113 | the remaining tiers pass if and only if each of them is valid |
| Schema.ValidateQuizSchema | backend.py:88-113 | validation passes if and only if the data is an object whose three tiers are each a list of exactly `n` valid questions |
| Schema.CheckTiersReportsFirstViolation | backend.py:93-113 | when the tiers from `t` on fail, and the earlier ones are valid, the error is the first violation in tier-then-index order |
| Schema.ValidateReportsFirstViolation | backend.py:93-113 | a rejected quiz is rejected for its first violation in tier, then index, then guard order, and the reported defect is really there |
| Schema.ValidateIsAllOrNothing | backend.py:93-100 | one tier of the wrong length, or one invalid question anywhere, rejects the whole quiz |
| Evaluate.Normalize | backend.py:146-147 | `s.strip().upper()`; `Evaluate.NormalizeIsNormalForm` and `Evaluate.NormalizeIsIdempotent` state what it yields |
| Evaluate.NormalizeIsNormalForm | backend.py:146-147 | the normal form is no longer than the input, has no whitespace at either end and contains no lower-case ASCII letter |
| Evaluate.NormalizeIsIdempotent | backend.py:146-149 | normalising a normal form changes nothing |
| Evaluate.AnswerKey | backend.py:147 | `f"{level}_{i}"`: the key is the tier name, an underscore, then one or more digits; `Evaluate.AnswerKeyInjective` shows distinct questions get distinct keys |
| Evaluate.Entry | backend.py:146-161 | the body of the inner loop: one question's feedback entry; `Evaluate.EntryVerdict` states its contents |
| Evaluate.EntryVerdict | backend.py:146-161 | an entry copies the question and explanation; it is correct if and only if the recorded answer's normal form equals the stored letter's (with no recorded answer, only when that normal form is empty); a wrong entry names the stored letter's normal form |
| Evaluate.ResultText | backend.py:151-153 | the result text is "Correct" exactly for a correct verdict |
| Evaluate.GetOrDefault | backend.py:147 | `answers.get(key, "")`: the recorded value when the key is present, the default otherwise |
| Evaluate.TierQuestions | backend.py:145 | on a scorable quiz, every question of each tier has the fields scoring reads |
| Evaluate.TierEntries | backend.py:145-161 | a tier's first `k` questions yield exactly `k` entries |
| Evaluate.FeedbackThrough | backend.py:144-161 | the first `t` tiers yield one entry per question in those tiers |
| Evaluate.CountCorrect | backend.py:149-150 | the number of correct entries never exceeds the number of entries |
| Evaluate.CountCorrectSnoc | backend.py:149-155 | appending an entry adds one to the count exactly when that entry is correct |
| Evaluate.JudgeQuestion | backend.py:146-161 | builds the entry of question `i` of `level`, and raises the score exactly when that entry is correct |
| Evaluate.EntriesSnoc | backend.py:155-161 | appending question `i`'s entry to the first `i` entries gives the first `i + 1` entries |
| Evaluate.ScoreTier | backend.py:145-161 | appends one tier's entries in index order, and keeps the score equal to the number of correct entries |
| Evaluate.EvaluateAnswers | backend.py:137-162 | the feedback is the whole quiz's entries in tier order, then index order; its length is the total number of questions; the score is the number of correct entries, between 0 and that length |
| Evaluate.TierEntriesAt | backend.py:145-161 | entry `i` of a tier is the entry of that tier's question `i` |
| Evaluate.OffsetGrows | backend.py:144-145 | the questions of earlier tiers all come before those of later tiers |
| Evaluate.FeedbackThroughStep | backend.py:144-161 | one more tier appends exactly that tier's entries |
| Evaluate.FeedbackThroughAt | backend.py:144-161 | entry `i` of tier `t`'s entries is entry number `Offset(t) + i` of the feedback for any longer run of tiers |
| Evaluate.FeedbackOrder | backend.py:144-161 | the feedback holds question `i` of tier `Tiers[t]` at position `Offset(t) + i`: tier order, then index order |
| Evaluate.CountCorrectIsNumberCorrect | backend.py:149-153 | the score equals the number of feedback positions whose result is "Correct" |
| Evaluate.NormalizeChar | backend.py:146-147 | a single non-whitespace character normalises to its upper case |
| Evaluate.NormalizeLetter | backend.py:146 | a stored letter "A" to "D" is its own normal form |
| Evaluate.SpacedLowercaseAnswerScores | backend.py:146-151 | an answer made of whitespace, a letter whose upper case is the stored one, then whitespace (such as " a " against "A") is judged correct |
| Evaluate.UnansweredIsWrong | backend.py:147-153 | a question with no recorded answer is judged wrong, and the entry names the stored letter |
| Evaluate.AnswerKeyInjective | backend.py:147 | two different questions of the quiz are looked up under two different answer keys |
| Evaluate.ValidQuizIsScorable | backend.py:93-162 | a quiz that passes validation can be scored and holds `3 * n` questions |
| Generate.QuizFromReply | backend.py:129-135 | a returned quiz is valid and is the parse of the extracted block; a schema failure comes from a parsed value that is not a valid quiz |
| Generate.QuizFromReplySucceedsIff | backend.py:129-135 | with `i` the first `{` and `j` the last `}`, a quiz comes back if and only if `i < j`, the text from `i` through `j` parses, and the parsed value is valid; that parsed value is the result |
| Generate.QuizFromReplyNeedsBraces | backend.py:130 | the pipeline stops at extraction if and only if no `{` occurs before a `}` |
| Generate.QuizFromReplyAfterExtraction | backend.py:130-135 | once a block is extracted: the result is `NotJson` if and only if the parser fails; `InvalidQuiz` if and only if the parsed value is not a valid quiz, carrying the schema check's own error; success if and only if it is valid; never the extraction error |
| Generate.InvalidQuizNamesFirstViolation | backend.py:134 | a schema rejection reports the parsed quiz's first violation |
| Generate.GeneratedQuizIsScorable | backend.py:129-162 | a generated quiz can be handed to scoring and holds `3 * n` questions |

## Left out

- PDF text extraction (`extract_text_from_pdf`) and chunking (`chunk_text`): they delegate to PyPDF2 and to LangChain's text splitter, whose behaviour is not part of this model.
- Prompt building, the chain set-up and the model call (`_build_quiz_prompt`, `_make_chain`, backend.py:125-127): these are a template string and a network call. The raw reply is an input of `Generate.QuizFromReply`. The `model_name` and `temperature` parameters therefore play no part.
- `json.loads` (backend.py:131): the standard-library parser is the parameter `parse`. `None` stands for its decode error.
- Environment and API-key set-up: I/O.
- app.py, the Streamlit user interface: widget state, per-question locking, percentages and the suggestion banner are not part of this model.
- Exceptions are represented by error variants (`ExtractError`, `SchemaError`, `GenerateError`). A comment beside each variant says which raise it stands for; the message texts are not modelled.
- Schema.ValidateQuizSchema: a top-level value that is not a JSON object becomes one variant, `TopLevelNotObject`. In the source such a value fails in different ways:
  - a `ValueError` for a list without the element "basic", or a string without the substring "basic";
  - a `TypeError` for other lists and strings, and for numbers, booleans and null.
- Evaluate.EvaluateAnswers: recorded answers are strings. The user interface can record `None`, on which `.strip()` raises.
- Evaluate.EvaluateAnswers: requires each tier to be a list of question objects, each with `question`, `explanation` and a string `correct`. The source also runs, scoring nothing, when a tier is an empty object or an empty string.
- Evaluate.EvaluateAnswers: the feedback's "result" text is a `Verdict`. `Evaluate.ResultText` renders it as the source's string.
- Evaluate.EvaluateAnswers: "neither input is modified" holds because Dafny maps and datatypes are values. No separate statement proves it.
- Text.Upper: `str.upper()` is modelled on ASCII letters only. Non-ASCII case mapping, including mappings that change length such as "ß" to "SS", is not modelled. The letters scoring compares are ASCII.
- Evaluate.Normalize: compares under the ASCII case mapping of `Text.Upper`. Python's `s.strip().upper()` maps non-ASCII letters too, and can lengthen the text ("ß" becomes "SS").
- Evaluate.NormalizeIsNormalForm: "no longer than the input" and "no lower-case letter" hold for the ASCII case mapping only; under Python's full mapping the normal form can be longer than the input.
- Text.UpperChar: has the same ASCII-only gap as `Text.Upper`. Only `a` to `z` are mapped; every other character, including non-ASCII lower-case letters, is returned unchanged.
- Text.UpperSpec: has the same ASCII-only gap as `Text.Upper`. It states the character-by-character ASCII mapping, not Python's full Unicode case mapping.
