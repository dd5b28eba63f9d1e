/**
  The exam session (hooks/useExamSystem.ts): the `ExamState` record, one
  pure update per `setState`, and a session object whose methods run the
  awaited sequences of the hook against the question manager.

  Every transition keeps `Consistent` (`Submitted` from an active state):
  an error message is present exactly in the error status, the score stays
  0, and an active study session remembers its difficulty.
 */
module ExamSystem {
  import opened Types
  import opened AnswerCheck
  import opened QuestionManager

  datatype Mode = ExamMode | StudyMode

  datatype Status = Idle | Generating | Active | Review | Error

  datatype StudyFeedback = StudyFeedback(isCorrect: bool, accentError: bool, message: string, loading: bool)

  datatype ExamState = ExamState(
    mode: Mode,
    status: Status,
    questions: seq<Question>,
    userAnswers: map<int, string>,
    score: int,
    error: Option<string>,
    studyFeedback: Option<StudyFeedback>,
    studyDifficulty: Option<Difficulty>)

  const ConnectionError := "CONNECTION ERROR"
  const AiNotResponding := "AI NOT RESPONDING"
  const Processing := "PROCESSING..."
  /** The feedback text for a correct study answer. */
  const CorrectMessage := "¡Correcto! Muy bien."

  /** The session invariant. */
  predicate Consistent(s: ExamState) {
    && (s.error.Some? <==> s.status == Error)
    && s.score == 0
    && (s.mode == StudyMode && s.status == Active ==> s.studyDifficulty.Some?)
  }

  /** The initial state, and the state `resetToHome` returns to. */
  function Home(): (r: ExamState)
    ensures r.mode == ExamMode && r.status == Idle && r.questions == [] && r.userAnswers == map[] && r.score == 0
    ensures r.error == None && r.studyFeedback == None && r.studyDifficulty == None
    ensures Consistent(r)
  {
    ExamState(ExamMode, Idle, [], map[], 0, None, None, None)
  }

  /** The first update of `startNewExam`. */
  function BeginExam(prev: ExamState): (r: ExamState)
    ensures r.mode == ExamMode && r.status == Generating && r.error == None
    ensures r.(mode := prev.mode, status := prev.status, error := prev.error) == prev
    ensures Consistent(prev) ==> Consistent(r)
  {
    prev.(mode := ExamMode, status := Generating, error := None)
  }

  /** `startNewExam` once the questions are in: a fresh active exam. */
  function ExamReady(qs: seq<Question>): (r: ExamState)
    ensures r.mode == ExamMode && r.status == Active && r.questions == qs
    ensures r.userAnswers == map[] && r.score == 0 && r.error == None
    ensures r.studyFeedback == None && r.studyDifficulty == None
    ensures Consistent(r)
  {
    ExamState(ExamMode, Active, qs, map[], 0, None, None, None)
  }

  /** The `catch` of `startNewExam`. */
  function ExamFailed(prev: ExamState): (r: ExamState)
    ensures r.status == Error && r.error == Some(ConnectionError)
    ensures r.(status := prev.status, error := prev.error) == prev
    ensures Consistent(prev) ==> Consistent(r)
  {
    prev.(status := Error, error := Some(ConnectionError))
  }

  /** The first update of `startStudyMode`: answers are cleared at once. */
  function BeginStudy(prev: ExamState): (r: ExamState)
    ensures r.mode == StudyMode && r.status == Generating && r.error == None && r.userAnswers == map[]
    ensures r.(mode := prev.mode, status := prev.status, error := prev.error, userAnswers := prev.userAnswers) == prev
    ensures Consistent(prev) ==> Consistent(r)
  {
    prev.(mode := StudyMode, status := Generating, error := None, userAnswers := map[])
  }

  /** `startStudyMode` once the question is in. */
  function StudyReady(qs: seq<Question>, difficulty: Difficulty): (r: ExamState)
    ensures r.mode == StudyMode && r.status == Active && r.questions == qs
    ensures r.userAnswers == map[] && r.score == 0 && r.error == None
    ensures r.studyFeedback == None && r.studyDifficulty == Some(difficulty)
    ensures Consistent(r)
  {
    ExamState(StudyMode, Active, qs, map[], 0, None, None, Some(difficulty))
  }

  /** The `catch` of `startStudyMode`. */
  function StudyFailed(prev: ExamState): (r: ExamState)
    ensures r.status == Error && r.error == Some(AiNotResponding)
    ensures r.(status := prev.status, error := prev.error) == prev
    ensures Consistent(prev) ==> Consistent(r)
  {
    prev.(status := Error, error := Some(AiNotResponding))
  }

  /** `handleAnswerChange`: one answer is set, every other one and every
      other field is kept. */
  function AnswerChanged(prev: ExamState, id: int, value: string): (r: ExamState)
    ensures id in r.userAnswers && r.userAnswers[id] == value
    ensures forall k :: k != id ==> (k in r.userAnswers <==> k in prev.userAnswers)
    ensures forall k :: k != id && k in prev.userAnswers ==> r.userAnswers[k] == prev.userAnswers[k]
    ensures r.(userAnswers := prev.userAnswers) == prev
    ensures Consistent(prev) ==> Consistent(r)
  {
    prev.(userAnswers := prev.userAnswers[id := value])
  }

  /** `submitExam`: only the status changes. */
  function Submitted(prev: ExamState): (r: ExamState)
    ensures r.status == Review
    ensures r.(status := prev.status) == prev
    ensures Consistent(prev) && prev.status == Active ==> Consistent(r)
  {
    prev.(status := Review)
  }

  /** The first update of `handleStudySubmit`: the verdict, with the
      feedback message still loading. */
  function FeedbackPending(prev: ExamState, v: Verdict): (r: ExamState)
    ensures r.studyFeedback == Some(StudyFeedback(v.isCorrect, v.accentError, Processing, true))
    ensures r.(studyFeedback := prev.studyFeedback) == prev
    ensures Consistent(prev) ==> Consistent(r)
  {
    prev.(studyFeedback := Some(StudyFeedback(v.isCorrect, v.accentError, Processing, true)))
  }

  /** The second update of `handleStudySubmit`: the message arrives and
      loading ends.  When the feedback has been cleared in the meantime the
      spread of an absent record leaves both flags unset, which the views
      read as false. */
  function FeedbackDone(prev: ExamState, message: string): (r: ExamState)
    ensures r.studyFeedback.Some? && r.studyFeedback.value.message == message
    ensures !r.studyFeedback.value.loading
    ensures prev.studyFeedback.Some? ==>
      && r.studyFeedback.value.isCorrect == prev.studyFeedback.value.isCorrect
      && r.studyFeedback.value.accentError == prev.studyFeedback.value.accentError
    ensures r.(studyFeedback := prev.studyFeedback) == prev
    ensures Consistent(prev) ==> Consistent(r)
  {
    match prev.studyFeedback
    case Some(f) => prev.(studyFeedback := Some(f.(message := message, loading := false)))
    case None => prev.(studyFeedback := Some(StudyFeedback(false, false, message, false)))
  }

  /** Both updates of `handleStudySubmit` together: the verdict survives the
      second one. */
  lemma FeedbackInTwoSteps(s: ExamState, v: Verdict, message: string)
    ensures FeedbackDone(FeedbackPending(s, v), message).studyFeedback ==
      Some(StudyFeedback(v.isCorrect, v.accentError, message, false))
    ensures FeedbackDone(FeedbackPending(s, v), message).(studyFeedback := s.studyFeedback) == s
  {
  }

  /** The feedback text: a fixed message for a correct answer, otherwise
      whatever the explanation service answers (its reply or its fallback
      text). */
  function FeedbackMessage(q: Question, answer: string, isCorrect: bool, explain: (Question, string) -> string): string
  {
    if isCorrect then CorrectMessage else explain(q, answer)
  }

  /** The verdict `handleStudySubmit` computes for the first question: the
      same check the results view applies to it. */
  function StudyVerdict(s: ExamState): (v: Verdict)
    requires s.questions != []
    ensures v == Check(s.questions[0], s.userAnswers)
    ensures AnswerFor(s.userAnswers, s.questions[0].id) == "" ==> !v.isCorrect && !v.accentError
  {
    var q := s.questions[0];
    CheckAnswer(AnswerFor(s.userAnswers, q.id), q.correctAnswer, q.acceptedAnswers)
  }

  /** `state.studyDifficulty || 'mixed'`. */
  function NextStudyDifficulty(s: ExamState): Difficulty
  {
    match s.studyDifficulty
    case Some(d) => d
    case None => Mixed
  }

  /** A study session started at some difficulty asks for the same one
      again after answering and receiving feedback. */
  lemma NextStudyRemembers(qs: seq<Question>, difficulty: Difficulty, id: int, value: string, v: Verdict, message: string)
    ensures NextStudyDifficulty(FeedbackDone(FeedbackPending(AnswerChanged(StudyReady(qs, difficulty), id, value), v), message)) == difficulty
  {
  }

  /** The session: the state record, the chosen question count, and the
      question manager every session shares. */
  class ExamSession {
    var state: ExamState
    var questionCount: int
    const manager: Manager

    ghost predicate Valid()
      reads this, manager
    {
      manager.Valid() && Consistent(state)
    }

    constructor (m: Manager)
      requires m.Valid()
      ensures Valid() && manager == m && state == Home() && questionCount == 30
    {
      state := Home();
      questionCount := 30;
      manager := m;
    }

    method SetQuestionCount(n: int)
      modifies this`questionCount
      ensures questionCount == n
    {
      questionCount := n;
    }

    /** `startNewExam`.  The manager never fails (its on-demand requests
        swallow errors), so the `catch` branch is not taken here. */
    method StartNewExam(difficulty: Difficulty, gen: Generator) returns (dispatched: Option<GenRequest>)
      requires Valid()
      modifies this`state, manager
      ensures Valid()
      ensures state == ExamReady(state.questions)
      ensures multiset(state.questions) ==
        multiset(Collect(old(manager.State()), difficulty, questionCount, gen).items)
      ensures manager.State() == Collect(old(manager.State()), difficulty, questionCount, gen).store
      ensures manager.isRefilling == (old(manager.isRefilling) || dispatched.Some?)
      ensures old(manager.isRefilling) ==> dispatched == None && manager.refillNext == old(manager.refillNext)
      ensures !old(manager.isRefilling) ==>
        Resume(manager.buffers, manager.history, 0) ==
          (if dispatched.Some? then Paused(dispatched.value, manager.refillNext) else Done)
    {
      state := BeginExam(state);
      var questions;
      questions, dispatched := manager.GetQuestions(difficulty, questionCount, gen);
      state := ExamReady(questions);
    }

    /** `startStudyMode`: one question at the given difficulty. */
    method StartStudyMode(difficulty: Difficulty, gen: Generator) returns (dispatched: Option<GenRequest>)
      requires Valid()
      modifies this`state, manager
      ensures Valid()
      ensures state == StudyReady(state.questions, difficulty)
      ensures multiset(state.questions) == multiset(Collect(old(manager.State()), difficulty, 1, gen).items)
      ensures manager.State() == Collect(old(manager.State()), difficulty, 1, gen).store
      ensures manager.isRefilling == (old(manager.isRefilling) || dispatched.Some?)
      ensures old(manager.isRefilling) ==> dispatched == None && manager.refillNext == old(manager.refillNext)
      ensures !old(manager.isRefilling) ==>
        Resume(manager.buffers, manager.history, 0) ==
          (if dispatched.Some? then Paused(dispatched.value, manager.refillNext) else Done)
    {
      state := BeginStudy(state);
      var questions;
      questions, dispatched := manager.GetQuestions(difficulty, 1, gen);
      state := StudyReady(questions, difficulty);
    }

    /** `handleNextStudyQuestion`. */
    method HandleNextStudyQuestion(gen: Generator) returns (dispatched: Option<GenRequest>)
      requires Valid()
      modifies this`state, manager
      ensures Valid()
      ensures state == StudyReady(state.questions, NextStudyDifficulty(old(state)))
      ensures old(state).studyDifficulty.Some? ==> state.studyDifficulty == old(state).studyDifficulty
      ensures old(state).studyDifficulty.None? ==> state.studyDifficulty == Some(Mixed)
      ensures multiset(state.questions) ==
        multiset(Collect(old(manager.State()), NextStudyDifficulty(old(state)), 1, gen).items)
      ensures manager.State() == Collect(old(manager.State()), NextStudyDifficulty(old(state)), 1, gen).store
      ensures manager.isRefilling == (old(manager.isRefilling) || dispatched.Some?)
      ensures old(manager.isRefilling) ==> dispatched == None && manager.refillNext == old(manager.refillNext)
      ensures !old(manager.isRefilling) ==>
        Resume(manager.buffers, manager.history, 0) ==
          (if dispatched.Some? then Paused(dispatched.value, manager.refillNext) else Done)
    {
      dispatched := StartStudyMode(NextStudyDifficulty(state), gen);
    }

    /** `handleStudySubmit`.  Without a question the handler stops before
        its first update. */
    method HandleStudySubmit(explain: (Question, string) -> string)
      requires Valid()
      modifies this`state
      ensures Valid()
      ensures old(state).questions == [] ==> state == old(state)
      ensures old(state).questions != [] ==>
        var q := old(state).questions[0];
        var v := StudyVerdict(old(state));
        && state.(studyFeedback := old(state).studyFeedback) == old(state)
        && state.studyFeedback.Some?
        && state.studyFeedback.value.isCorrect == v.isCorrect
        && state.studyFeedback.value.accentError == v.accentError
        && !state.studyFeedback.value.loading
        && (v.isCorrect ==> state.studyFeedback.value.message == CorrectMessage)
        && (!v.isCorrect ==> state.studyFeedback.value.message == explain(q, AnswerFor(old(state).userAnswers, q.id)))
    {
      if state.questions == [] {
        return;
      }
      var q := state.questions[0];
      var answer := AnswerFor(state.userAnswers, q.id);
      var check := CheckAnswer(answer, q.correctAnswer, q.acceptedAnswers);
      state := FeedbackPending(state, check);
      var message := FeedbackMessage(q, answer, check.isCorrect, explain);
      state := FeedbackDone(state, message);
    }

    /** `handleAnswerChange`. */
    method HandleAnswerChange(id: int, value: string)
      requires Valid()
      modifies this`state
      ensures Valid()
      ensures state == AnswerChanged(old(state), id, value)
    {
      state := AnswerChanged(state, id, value);
    }

    /** `submitExam`, offered while an exam is active. */
    method SubmitExam()
      requires Valid() && state.status == Active
      modifies this`state
      ensures Valid()
      ensures state == Submitted(old(state))
    {
      state := Submitted(state);
    }

    /** `resetToHome`. */
    method ResetToHome()
      requires Valid()
      modifies this`state
      ensures Valid()
      ensures state == Home()
    {
      state := Home();
    }

    /** `clearMemory`, after the user's answer to the confirmation. */
    method ClearMemory(confirmed: bool) returns (dispatched: Option<GenRequest>)
      requires Valid()
      modifies manager
      ensures Valid()
      ensures confirmed ==> manager.history == [] && manager.buffers == EmptyBuffers && manager.isRefilling
      ensures confirmed && old(manager.isRefilling) ==>
        dispatched == None && manager.refillNext == old(manager.refillNext)
      ensures confirmed && !old(manager.isRefilling) ==>
        dispatched == Some(GenRequest(Easy, BATCH_SIZE, [])) && manager.refillNext == 1
      ensures !confirmed ==> dispatched == None && unchanged(manager)
    {
      dispatched := None;
      if confirmed {
        dispatched := manager.ClearMemory();
      }
    }
  }
}
