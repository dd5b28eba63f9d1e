# A verified model of the formulation quiz engine

This project models the core of a chemistry-nomenclature quiz engine in
Dafny and proves properties of the model. The engine serves generated
questions to exams and study sessions and grades the answers. The model
has four parts:

- **`QuestionManager`** (`question_manager.dfy`): the question buffer
  manager.
  - It keeps three FIFO buffers, one each for easy, medium and hard.
  - It keeps a history of the last 200 prompts produced.
  - It runs a single-flight background refill that asks for batches of 5
    for every buffer below 40.
  - Serving a request drains a buffer from the front. Any shortfall is
    asked of the question generator. A `mixed` request is split
    `ceil(count/3)` / `ceil(count/3)` / rest.
  - The generator is an oracle of type
    `GenRequest -> Option<seq<Question>>`. A request records the level, the
    number of questions and the history at the moment of the request.
    `None` stands for a failed request.
  - The manager is a class with sequence fields. Each method is proved
    against pure functions of the old state: `Pop`, `Collect`, `Resume`
    and `Record`.
- **`AnswerCheck`** (`answer_check.dfy`): the answer verifier.
  - The normalisation pipeline: trim, lower-case, strip one leading ion
    word, remove charges, remove whitespace.
  - Accent folding and the two-stage comparison.
  - The results fold that counts correct answers and collects the
    mistakes, as a loop proved against recursive specifications.
  - `AnswerCheckExamples` derives the documented examples from general
    lemmas.
- **`Formula`** (`formula.dfy`): the formula renderer. It splits a text at
  maximal digit runs, `split(/(\d+)/)`, and renders the digit runs as
  subscripts.
- **`ExamSystem`** (`exam_system.dfy`): the exam session.
  - `ExamState` is a record with one pure update per `setState`.
  - A consistency invariant is kept by every update, and by `Submitted`
    when it starts from an active state.
  - An `ExamSession` class runs the hook's awaited sequences against a
    `QuestionManager.Manager`.

`Types` (`types.dfy`) holds the shared records: `Difficulty`, the
buffer-owning subset `Level`, and `Question`.

Three behaviours of the code are easy to misread, and the model keeps
them as written:

- **Charges.** A charge is normally written as an optional caret, a
  number and a sign. The pattern `\^?\d*[+\-]` at
  components/ResultsView.tsx:88 also removes a bare sign, and removes
  every digit written just before a sign, subscripts included. So
  `"so42-"` normalises to `"so"` (`ExampleSulfate`), and the nitrite
  answer `"no2-"` is accepted for the nitrate `"no3-"` (`ExampleNitrite`).
- **Mixed split.** Easy and medium are each asked for `ceil(count/3)`.
  The hard share is `count` minus what easy and medium actually returned
  (services/questionManager.ts:45-48), not `count - 2·ceil(count/3)`.
  - For `count = 1` the two shares of one already exceed the count, so two
    questions come back (`MixedOneGivesTwo`).
  - For every `count` of at least 2, a generator that always delivers
    gives exactly `count` (`MixedExact`).
  - With enough hard questions in stock, any shortfall of easy or medium
    is made up from hard, so the result has `count` questions, or more
    when easy and medium already returned more (`MixedHardIsRest`).
- **Shuffle.** The code sorts with a random comparator
  (services/questionManager.ts:56). That is not a uniform shuffle, and the
  model promises only some permutation.

`Formula.IsTargetFormula` (components/QuestionCard.tsx:26) is a one-line
comparison of the target notation with the formula notation; it only
decides whether the card shows the hint to write plain digits, and there
is nothing further to prove about it.

## Model

| member | source | states |
|---|---|---|
| `AnswerCheck.Trim` | components/ResultsView.tsx:85 | the result is the input with its leading and trailing `\s` characters removed: a slice whose ends are not whitespace; text already trimmed is unchanged |
| `AnswerCheck.Lower` | components/ResultsView.tsx:86 | the result lower-cases every character of the modelled alphabet in place, is itself lower-case, and is the input when that already was |
| `AnswerCheck.StripIonPrefix` | components/ResultsView.tsx:87 | the result is a suffix of the input; the input is unchanged when no ion word followed by whitespace opens it, and in particular when it holds no whitespace |
| `AnswerCheck.StripFirstWordAt` | components/ResultsView.tsx:87 | when the first alternative that matches is followed by a space, the word and its whole run of following spaces are removed |
| `AnswerCheck.StripIonWord` | components/ResultsView.tsx:87 | any of the five ion words followed by one or more spaces is removed together with all of those spaces, leaving exactly the text after them |
| `AnswerCheck.StripCharges` | components/ResultsView.tsx:88 | no `+` or `-` survives charge removal; `PlainSplits` and `ChargeMatchDeleted` state what is removed and what is kept |
| `AnswerCheck.DigitRunStops` | components/ResultsView.tsx:88 | the `\d*` part of a match stops at the first non-digit |
| `AnswerCheck.ChargeAtStops` | components/ResultsView.tsx:88 | a match starting in front of a character that is neither a caret, a digit nor a sign never reaches past it |
| `AnswerCheck.PlainSplits` | components/ResultsView.tsx:88 | a character that is neither a caret, a digit nor a sign is kept, and charges are removed independently on either side of it |
| `AnswerCheck.ChargeMatchDeleted` | components/ResultsView.tsx:88 | a whole match of `\^?\d*[+\-]` (optional caret, any digits, one sign) at the front is removed, and removal carries on after it |
| `AnswerCheck.StripChargesKeeps` | components/ResultsView.tsx:88 | charge removal keeps lower-case text lower-case and leaves a sign-free text unchanged |
| `AnswerCheck.RemoveSpaces` | components/ResultsView.tsx:89 | no whitespace survives |
| `AnswerCheck.RemoveSpacesKeeps` | components/ResultsView.tsx:89 | whitespace removal keeps lower case and sign-freeness, and leaves whitespace-free text unchanged |
| `AnswerCheck.Normalize` | components/ResultsView.tsx:82-90 | a normalised answer has no whitespace, no sign, and is lower-case |
| `AnswerCheck.NormalizeIdempotent` | components/ResultsView.tsx:82-90 | normalising twice is normalising once |
| `AnswerCheck.FoldTable` | components/ResultsView.tsx:78-80 | á é í ó ú ü ñ fold to a e i o u u n, their capitals to the capital base letters, and every other character is kept |
| `AnswerCheck.RemoveAccents` | components/ResultsView.tsx:78-80 | the result is no longer than the input; `FoldTable` and `RemoveAccentsNoMarks` state what it keeps and what it drops |
| `AnswerCheck.RemoveAccentsNoMarks` | components/ResultsView.tsx:78-80 | no combining mark (U+0300 to U+036F) is left after accent removal |
| `AnswerCheck.InNormalizeAll` | components/ResultsView.tsx:97-100 | a text is among the normalised accepted answers exactly when some accepted answer normalises to it |
| `AnswerCheck.InFoldAll` | components/ResultsView.tsx:104-107 | a text is among the accent-free accepted answers exactly when some accepted answer normalises and folds to it |
| `AnswerCheck.ExactIsLoose` | components/ResultsView.tsx:99-107 | an exact match is also a match once accents are removed |
| `AnswerCheck.CheckAnswer` | components/ResultsView.tsx:92-110 | empty answer gives (false, false); an accent error implies correct; an exact match with the correct or an accepted answer gives (true, false); (true, true) exactly when the match appears only after accent removal; correct exactly when the answer is non-empty and matches loosely |
| `AnswerCheck.BlankNormal` | components/ResultsView.tsx:83-89 | a non-empty answer made only of whitespace normalises to the empty string |
| `AnswerCheck.BlankAnswer` | components/ResultsView.tsx:93-107 | such an answer passes the raw emptiness test; with no accepted answers, it is accepted exactly when the correct answer normalises and folds to nothing |
| `AnswerCheck.Check` | components/ResultsView.tsx:127 | a question with no stored answer, or an empty one, is graded (false, false); a correct verdict needs a stored non-empty answer |
| `AnswerCheck.CorrectCount` | components/ResultsView.tsx:128 | the correct count never exceeds the number of questions |
| `AnswerCheck.Mistakes` | components/ResultsView.tsx:124-129 | never more mistakes than questions; `MistakesAreFailures` and `CountsPartition` state which ones |
| `AnswerCheck.UnansweredIsMistake` | components/ResultsView.tsx:127-129 | a question nobody answered is always among the mistakes |
| `AnswerCheck.NothingAnswered` | components/ResultsView.tsx:123-131 | with no answers at all the correct count is 0 and the mistakes are all the questions, in order |
| `AnswerCheck.CountsPartition` | components/ResultsView.tsx:123-131 | correct count plus number of mistakes is the number of questions |
| `AnswerCheck.MistakesAreFailures` | components/ResultsView.tsx:129 | a question is among the mistakes exactly when it is one of the questions and its check is incorrect |
| `AnswerCheck.GradeAll` | components/ResultsView.tsx:126-131 | one graded entry per question; `GradeAllPointwise` states each entry |
| `AnswerCheck.GradeAllPointwise` | components/ResultsView.tsx:126-131 | the graded list has one entry per question, in order, each the question with its own verdict |
| `AnswerCheck.Grade` | components/ResultsView.tsx:123-131 | the loop's counter, mistakes list and mapped results equal the recursive specifications of the fold |
| `AnswerCheckExamples.PhraseHead` | components/ResultsView.tsx:87 | a word that is not an ion word, followed by a space, cannot be read as an ion word followed by a space |
| `AnswerCheckExamples.ChargeSuffixIgnored` | components/ResultsView.tsx:88 | any word of lower-case letters followed by digits and a sign normalises to the bare word |
| `AnswerCheckExamples.ChargesIgnored` | components/ResultsView.tsx:88-99 | two charged forms of one word, with any digits and signs, are accepted for each other without an accent flag |
| `AnswerCheckExamples.WordsRunTogether` | components/ResultsView.tsx:87-89 | three words joined by single spaces normalise to the words run together, whenever the first word is not one of the ion words |
| `AnswerCheckExamples.ExampleAnion` | components/ResultsView.tsx:85-89 | "Anión  Cloruro" normalises to "cloruro": the ion word and both spaces go |
| `AnswerCheckExamples.ExampleFormula` | components/ResultsView.tsx:92-100 | "Fe2O3" against itself gives (true, false) |
| `AnswerCheckExamples.ExampleCharge` | components/ResultsView.tsx:85-100 | "cloruro2+" against "cloruro" gives (true, false) |
| `AnswerCheckExamples.ExampleSulfate` | components/ResultsView.tsx:88 | "so42-" normalises to "so" |
| `AnswerCheckExamples.ExampleNitrite` | components/ResultsView.tsx:88-99 | "no2-" against "no3-" gives (true, false) |
| `AnswerCheckExamples.ExampleAccent` | components/ResultsView.tsx:102-106 | "óxido de hierro" against "oxido de hierro" gives (true, true) |
| `Formula.Split` | components/QuestionCard.tsx:12 | there is always at least one part; `SplitJoin`, `SplitEvenPlain`, `SplitOddDigits`, `SplitInteriorNonEmpty` and `SplitCount` state the rest |
| `Formula.SplitJoin` | components/QuestionCard.tsx:12 | joining the split parts gives back the text |
| `Formula.SplitEvenPlain` | components/QuestionCard.tsx:12 | every even-indexed part contains no digit |
| `Formula.SplitOddDigits` | components/QuestionCard.tsx:12 | every odd-indexed part is a non-empty run of digits |
| `Formula.SplitInteriorNonEmpty` | components/QuestionCard.tsx:12 | only the first and last parts can be empty, so the digit runs are maximal |
| `Formula.SplitCount` | components/QuestionCard.tsx:12 | there are 2 × (number of maximal digit runs) + 1 parts |
| `Formula.SubscriptAtOdd` | components/QuestionCard.tsx:12-16 | a part passes the subscript test `^\d+$` exactly when its index is odd |
| `Formula.Render` | components/QuestionCard.tsx:11-23 | one drawn piece per split part, and the first and last pieces are plain text |
| `Formula.RenderParts` | components/QuestionCard.tsx:15-19 | each part is rendered with its own text, as a subscript exactly when it is all digits |
| `Formula.RenderAlternates` | components/QuestionCard.tsx:11-20 | the rendering alternates plain and subscript pieces, starting and ending plain, with one subscript per digit run |
| `Formula.RenderSpells` | components/QuestionCard.tsx:11-23 | the rendered pieces spell the original text |
| `QuestionManager.Ceil3` | services/questionManager.ts:45 | the result is the least integer at least a third of the count |
| `QuestionManager.LastN` | services/questionManager.ts:122-130 | the newest `n` entries in order, all of them when fewer |
| `QuestionManager.LastNStep` | services/questionManager.ts:124-128 | one push followed by dropping the oldest entry when over the bound keeps the history equal to the newest 200 of everything recorded |
| `QuestionManager.Record` | services/questionManager.ts:122-130 | the recorded history holds at most 200 entries and is the newest part of the old history followed by the batch's prompts; nothing is dropped while the total fits |
| `QuestionManager.Pop` | services/questionManager.ts:67-89 | `popFromBuffer` as a function of the old state; `PopTakesFront`, `PopFromStock`, `PopShortfall`, `PopShortEmpties` and `PopKeepsHistoryBound` state what it returns and leaves |
| `QuestionManager.Collect` | services/questionManager.ts:40-53 | collecting keeps the history within 200 entries; `MixedFromStock`, `MixedOneGivesTwo`, `MixedHardIsRest` and `MixedExact` state the split |
| `QuestionManager.Taken` | services/questionManager.ts:71-73 | the drain loop takes at most what the buffer holds, falls short exactly when the buffer holds fewer than asked, and otherwise takes the count (none for a non-positive count) |
| `QuestionManager.PopTakesFront` | services/questionManager.ts:71-73 | a pop returns the first `min(count, size)` questions of the buffer, in order, first; that buffer keeps exactly the rest; the other buffers are unchanged |
| `QuestionManager.PopFromStock` | services/questionManager.ts:71-76 | with enough in stock no request is made, exactly `count` questions come back, and the history is unchanged |
| `QuestionManager.PopShortfall` | services/questionManager.ts:76-85 | on a shortfall the generator is asked for exactly the missing number with the current history; on failure the result is just the buffer's content, shorter than asked, with the history unchanged; on success it is the buffer's content followed by the new batch, whose prompts are recorded |
| `QuestionManager.PopShortEmpties` | services/questionManager.ts:71-76 | a pop returns fewer questions than asked only when it has emptied its buffer |
| `QuestionManager.PopKeepsHistoryBound` | services/questionManager.ts:80-81 | a pop never takes the history past 200 entries |
| `QuestionManager.MixedFromStock` | services/questionManager.ts:43-49 | with the buffers stocked, `mixed` returns `ceil(count/3)` easy, as many medium and `count - 2·ceil(count/3)` hard questions, from the fronts, without a request |
| `QuestionManager.MixedThirty` | services/questionManager.ts:45-48 | 30 mixed questions are split 10 / 10 / 10 |
| `QuestionManager.MixedThirtyOne` | services/questionManager.ts:45-48 | 31 mixed questions are split 11 / 11 / 9 |
| `QuestionManager.MixedOneGivesTwo` | services/questionManager.ts:45-48 | one mixed question yields two, the first easy and the first medium one, as the hard request is negative |
| `QuestionManager.ExactPop` | services/questionManager.ts:71-82 | with a generator that always delivers, a pop returns exactly the number asked for (none for a non-positive count) |
| `QuestionManager.MixedHardIsRest` | services/questionManager.ts:45-48 | the hard request is for `count` less what easy and medium actually returned: with the hard buffer holding at least `count`, `mixed` returns exactly `count` questions, or what easy and medium returned when that is already more |
| `QuestionManager.MixedExact` | services/questionManager.ts:43-49 | with such a generator, `mixed` returns exactly `count` questions for every count of at least 2 |
| `QuestionManager.NextShort` | services/questionManager.ts:101-102 | the scan stops at the first level, in the order easy, medium, hard, whose buffer is below 40, passing only full ones |
| `QuestionManager.Resume` | services/questionManager.ts:101-116 | a resumed pass either pauses further on with a request, or is done |
| `QuestionManager.PassIsShortBatches` | services/questionManager.ts:99-116 | over unchanging buffers, a pass requests one batch of 5 for exactly the levels below 40, in the order easy, medium, hard |
| `QuestionManager.Manager.constructor` | services/questionManager.ts:12-23 | a new manager has empty buffers, an empty history and no pass running |
| `QuestionManager.Manager.AddToHistory` | services/questionManager.ts:122-130 | the history becomes the newest 200 of the old history followed by the batch's prompts, and stays within 200 |
| `QuestionManager.Manager.PopFromBuffer` | services/questionManager.ts:67-89 | the returned questions and the new buffers and history are those of `Pop` on the old state |
| `QuestionManager.Manager.ContinueRefill` | services/questionManager.ts:101-119 | the resumed pass dispatches the request `Resume` says and pauses, or clears the guard when it is done |
| `QuestionManager.Manager.RefillBuffers` | services/questionManager.ts:94-100 | a call while a pass runs changes nothing and dispatches nothing; otherwise a pass starts from easy and runs to its first pause or end |
| `QuestionManager.Manager.OnBatchArrived` | services/questionManager.ts:107-111 | an arriving batch is appended to the back of its own buffer only and its prompts are recorded |
| `QuestionManager.Manager.CollectQuestions` | services/questionManager.ts:40-53 | the collected questions and the new state are those of `Collect` on the old state |
| `QuestionManager.Manager.GetQuestions` | services/questionManager.ts:40-62 | the result is a permutation of what `Collect` gathers, the state is `Collect`'s, and the refill is triggered: a pass already running is left alone and nothing is dispatched; otherwise the dispatched request and the paused cursor are those of a fresh pass over the new buffers, and the guard stays set exactly when a request was dispatched |
| `QuestionManager.Manager.ClearMemory` | services/questionManager.ts:132-136 | history and all three buffers are empty; unless a pass was already running, the new pass asks at once for an easy batch of 5 with an empty history |
| `ExamSystem.Home` | hooks/useExamSystem.ts:11-17 | exam mode, idle, no questions, no answers, score 0, nothing else set |
| `ExamSystem.BeginExam` | hooks/useExamSystem.ts:40 | exam mode, generating, error cleared; every other field, the score included, is kept |
| `ExamSystem.ExamReady` | hooks/useExamSystem.ts:52 | an active exam with the fetched questions, no answers and score 0 |
| `ExamSystem.ExamFailed` | hooks/useExamSystem.ts:55 | status error with "CONNECTION ERROR", nothing else changed |
| `ExamSystem.BeginStudy` | hooks/useExamSystem.ts:60 | study mode, generating, error and answers cleared; every other field, the score included, is kept |
| `ExamSystem.StudyReady` | hooks/useExamSystem.ts:72-75 | an active study session with the fetched questions, no feedback, and the difficulty remembered |
| `ExamSystem.StudyFailed` | hooks/useExamSystem.ts:77 | status error with "AI NOT RESPONDING", nothing else changed |
| `ExamSystem.AnswerChanged` | hooks/useExamSystem.ts:107-109 | the one answer is set; every other answer and every other field is unchanged |
| `ExamSystem.Submitted` | hooks/useExamSystem.ts:111 | only the status changes, to review |
| `ExamSystem.FeedbackPending` | hooks/useExamSystem.ts:91-97 | the feedback carries the verdict, loading, with the processing message; nothing else changes |
| `ExamSystem.FeedbackDone` | hooks/useExamSystem.ts:101-104 | the feedback gets the message and stops loading, keeping its verdict; nothing else changes |
| `ExamSystem.FeedbackInTwoSteps` | hooks/useExamSystem.ts:91-104 | after both updates the feedback is the verdict with the message, not loading |
| `ExamSystem.StudyVerdict` | hooks/useExamSystem.ts:82-84 | the study verdict is the results view's check of the first question; a missing answer is incorrect without accent error |
| `ExamSystem.NextStudyRemembers` | hooks/useExamSystem.ts:130 | after answering and feedback, the next study question uses the difficulty the session started with |
| `ExamSystem.ExamSession.constructor` | hooks/useExamSystem.ts:8-17 | a new session is at home with a question count of 30 |
| `ExamSystem.ExamSession.SetQuestionCount` | hooks/useExamSystem.ts:8 | the question count becomes the given number |
| `ExamSystem.ExamSession.StartNewExam` | hooks/useExamSystem.ts:39-57 | the session becomes an active exam holding a permutation of what the manager collects for the chosen difficulty and count; the manager's state is what collecting leaves, and the refill it triggers is that of `GetQuestions` |
| `ExamSystem.ExamSession.StartStudyMode` | hooks/useExamSystem.ts:59-79 | the session becomes an active study session holding a permutation of what the manager collects for one question of that difficulty; the manager's state and refill are as for `StartNewExam` |
| `ExamSystem.ExamSession.HandleNextStudyQuestion` | hooks/useExamSystem.ts:130 | study restarts at the remembered difficulty, which the new session remembers again, or at mixed when none was remembered; the questions, the manager's state and the refill are those of `StartStudyMode` at that difficulty |
| `ExamSystem.ExamSession.HandleStudySubmit` | hooks/useExamSystem.ts:81-105 | without a question nothing changes; otherwise only the feedback changes: the first question's verdict, not loading, with the fixed congratulation for a correct answer and the explanation service's text otherwise |
| `ExamSystem.ExamSession.HandleAnswerChange` | hooks/useExamSystem.ts:107-109 | the state is `AnswerChanged` of the old one |
| `ExamSystem.ExamSession.SubmitExam` | hooks/useExamSystem.ts:111 | the state is `Submitted` of the old one and stays consistent |
| `ExamSystem.ExamSession.ResetToHome` | hooks/useExamSystem.ts:113 | the state is the home state |
| `ExamSystem.ExamSession.ClearMemory` | hooks/useExamSystem.ts:115-119 | once confirmed, the manager's history and buffers are empty and a refill is under way, started afresh with an easy request of 5 unless one was already running; without confirmation nothing is dispatched and no field of the manager changes |

## Left out

- The question and feedback services (services/gemini.ts) are not modelled.
  - The network calls, prompt text, response parsing and id generation
    become the generator oracle and the `explain` parameter.
  - Trimming the avoid-list to its last 50 prompts happens inside the
    generator and is not modelled.
- Asynchronous timing is not modelled: the 100 ms pause between refill
  dispatches, the 2-second minimum loading time, and the loading-text
  interval.
  - Refill pauses become the point where `RefillBuffers` or
    `ContinueRefill` returns.
  - A batch's arrival is an explicit `OnBatchArrived` call, and a failed
    batch is no call at all.
- Interleavings inside one `getQuestions` call are not modelled.
  `Collect` treats the three pops of a `mixed` request as one atomic
  step, although a background batch could arrive while an on-demand
  request is awaited.
- Shuffle randomness is not modelled. The result is an arbitrary
  permutation, with no claim about uniformity.
- The score percentage and the pass and approval thresholds are floating
  point and are not modelled (components/ResultsView.tsx:133-136).
- Unicode is covered only over a fixed alphabet.
  - `LowerChar` covers ASCII plus Á É Í Ó Ú Ü Ñ.
  - `FoldChar` maps á é í ó ú ü ñ, and their capitals, to the base letter.
  - Full `toLowerCase` and canonical decomposition (NFD) of other
    characters are not modelled.
- Sounds, rendering, the `confirm` dialog (it becomes the `confirmed`
  parameter) and the other views are UI only and are not modelled.
- The module-level singleton and the refill its constructor starts are not
  modelled. A manager is constructed explicitly, and a session is given
  one.
- The `catch` branches of `startNewExam` and `startStudyMode` are
  modelled as `ExamFailed` and `StudyFailed`, but the methods never take
  them. `getQuestions` cannot fail: a failed on-demand request is
  swallowed in `popFromBuffer` and only shortens the result.
- Each `ExamSession` method runs its awaited sequence as one atomic step.
  In the hook (hooks/useExamSystem.ts:44-52, :99-104) another handler,
  such as `resetToHome` or a new mode, can run while `getQuestions` or the
  explanation request is awaited, and the late `setState` then overwrites
  what it did. The model does not capture that interleaving.
- `FeedbackDone`: when the feedback was cleared between the two updates,
  the code's spread leaves `isCorrect` and `accentError` undefined. The
  model sets both to false, which is how the views read them.
- `AnswerCheck.RemoveAccents`: its own contract states only that the
  result is no longer than the input. The absence of combining marks is
  stated by `RemoveAccentsNoMarks`.
