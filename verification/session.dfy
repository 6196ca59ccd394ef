/**
 * The per-exercise attempt machine of
 * src/components/Exercise/ExerciseContainer.tsx. Every `setTimeout` of the
 * component is a separate, explicit step here: `Check` returns the delayed
 * effect it schedules and `Settle` applies it. `Run` drives the machine with
 * learner actions, firing each delayed effect before the next action.
 */
module ExerciseSession {
  import opened Common
  import opened Types
  import Evaluator

  /** The component's state hooks. `startTime` is taken once, when the component mounts. */
  datatype Session = Session(
    exerciseId: string,
    startTime: int,
    answer: Option<Answer>,
    isCorrect: Option<bool>,
    attempts: nat,
    showTip: bool,
    showConfidence: bool,
    caseError: bool,
    wasSkipped: bool)

  /** The state right after mounting on `ex` at time `now`. */
  function Mount(ex: Exercise, now: int): Session {
    Session(ex.id, now, None, None, 0, false, false, false, false)
  }

  /** The reset effect keyed on `exercise.id`: a new id clears every hook but `startTime`. */
  function Enter(s: Session, ex: Exercise): (r: Session)
    ensures r.exerciseId == ex.id && r.startTime == s.startTime
    ensures ex.id == s.exerciseId ==> r == s
    ensures ex.id != s.exerciseId ==>
      && r.attempts == 0 && r.answer == None && r.isCorrect == None
      && !r.showTip && !r.showConfidence && !r.caseError && !r.wasSkipped
  {
    if ex.id == s.exerciseId then s
    else Session(ex.id, s.startTime, None, None, 0, false, false, false, false)
  }

  /** JavaScript truthiness of `string | string[] | null`: only null and "" are falsy. */
  predicate Truthy(a: Option<Answer>) {
    a.Some? && (a.value.One? ==> a.value.text != "")
  }

  /** The kinds that submit as soon as an answer is picked. */
  predicate IsAutoSubmit(k: ExerciseKind) {
    k == MultipleChoice || k == TrueFalse || k == Flashcard
  }

  predicate IsFinished(s: Session) {
    s.isCorrect == Some(true) || (s.isCorrect == Some(false) && s.attempts >= 3)
  }

  /** `shouldBlock` of `handleAnswerChange`, also the `disabled` flag handed to the child component. */
  predicate Blocked(s: Session, k: ExerciseKind) {
    if IsAutoSubmit(k) then IsFinished(s) else s.isCorrect == Some(true) || s.attempts >= 3
  }

  /** The "Check" button is rendered and enabled. */
  predicate CheckEnabled(s: Session, k: ExerciseKind) {
    && !IsFinished(s) && !IsAutoSubmit(k)
    && Truthy(s.answer) && s.answer.value != List([])
  }

  lemma BlockedCharacterization(s: Session, k: ExerciseKind)
    ensures Blocked(s, k) <==>
      (s.isCorrect == Some(true) || (s.attempts >= 3 && (IsAutoSubmit(k) ==> s.isCorrect == Some(false))))
  {
  }

  /** What `checkAnswer` schedules with `setTimeout`. */
  datatype Effect = NoEffect | EmitAfterSettle(result: ExerciseResult) | RevealAfterDelay | ClearAfterDelay

  datatype Step = Step(session: Session, effect: Effect)

  /**
   * `checkAnswer(submitted)` at time `now`: a falsy answer is ignored; otherwise
   * one attempt is counted, the verdict recorded and one delayed effect chosen.
   */
  function Check(s: Session, ex: Exercise, submitted: Option<Answer>, now: int): (st: Step)
    ensures !Truthy(submitted) && !Truthy(s.answer) ==> st == Step(s, NoEffect)
    ensures Truthy(submitted) || Truthy(s.answer) ==>
      var a := if Truthy(submitted) then submitted.value else s.answer.value;
      var ok := Evaluator.Evaluate(ex, a).correct;
      && st.session.attempts == s.attempts + 1
      && st.session.answer == Some(a)
      && st.session.isCorrect == Some(ok)
      && !st.session.caseError
      && st.session.(answer := s.answer, isCorrect := s.isCorrect, attempts := s.attempts, caseError := s.caseError) == s
      && (st.effect.EmitAfterSettle? <==> ok)
      && (st.effect.EmitAfterSettle? ==>
            st.effect.result == ExerciseResult(ex.id, true, now - s.startTime, s.attempts + 1, None))
      && (st.effect == RevealAfterDelay <==> !ok && s.attempts + 1 >= 3 && ex.kind != Flashcard)
      && (st.effect == ClearAfterDelay <==> !ok && (s.attempts + 1 < 3 || ex.kind == Flashcard))
  {
    var toCheck := if Truthy(submitted) then submitted else s.answer;
    if !Truthy(toCheck) then Step(s, NoEffect)
    else
      var newAttempts := s.attempts + 1;
      var v := Evaluator.Evaluate(ex, toCheck.value);
      var s1 := s.(attempts := newAttempts, caseError := v.caseError, isCorrect := Some(v.correct));
      var s2 := if Truthy(submitted) then s1.(answer := submitted) else s1;
      if v.correct then
        Step(s2, EmitAfterSettle(ExerciseResult(ex.id, true, now - s.startTime, newAttempts, None)))
      else if newAttempts >= 3 && ex.kind != Flashcard then
        Step(s2, RevealAfterDelay)
      else
        Step(s2, ClearAfterDelay)
  }

  /** What the component reports to the lesson page. */
  datatype Signal = Silent | Complete(result: ExerciseResult) | Skip

  /** Fires the delayed effect of a check. */
  function Settle(st: Step): (r: (Session, Signal))
    ensures r.0.(answer := st.session.answer, isCorrect := st.session.isCorrect,
                 showConfidence := st.session.showConfidence) == st.session
    ensures r.1 != Silent <==> st.effect.EmitAfterSettle?
    ensures r.1 != Silent ==> r.1 == Complete(st.effect.result)
    ensures r.0.showConfidence <==> st.session.showConfidence || st.effect == RevealAfterDelay
    ensures st.effect == ClearAfterDelay ==> r.0.answer == None && r.0.isCorrect == None
    ensures st.effect != ClearAfterDelay ==> r.0.answer == st.session.answer && r.0.isCorrect == st.session.isCorrect
  {
    match st.effect
    case NoEffect => (st.session, Silent)
    case EmitAfterSettle(result) => (st.session, Complete(result))
    case RevealAfterDelay => (st.session.(showConfidence := true), Silent)
    case ClearAfterDelay => (st.session.(answer := None, isCorrect := None), Silent)
  }

  /** Only the retry delay reopens a blocked exercise; the other effects keep it blocked. */
  lemma SettleReopensOnlyOnClear(st: Step, k: ExerciseKind)
    requires Blocked(st.session, k) && st.effect != ClearAfterDelay
    ensures Blocked(Settle(st).0, k)
  {
  }

  /**
   * `handleAnswerChange(a)`: ignored once blocked; otherwise stores the answer
   * and, for an auto-submit kind and a truthy answer, schedules its check.
   */
  function ChangeAnswer(s: Session, k: ExerciseKind, a: Option<Answer>): (r: (Session, Option<Answer>))
    ensures Blocked(s, k) ==> r == (s, None)
    ensures !Blocked(s, k) ==> r.0 == s.(answer := a)
    ensures r.1.Some? <==> !Blocked(s, k) && IsAutoSubmit(k) && Truthy(a)
    ensures r.1.Some? ==> r.1 == a
  {
    if Blocked(s, k) then (s, None)
    else (s.(answer := a), if IsAutoSubmit(k) && Truthy(a) then a else None)
  }

  /** `handleSRSFeedback(c)`: completes as incorrect, carrying the rating. */
  function RateConfidence(s: Session, ex: Exercise, confidence: int, now: int): (r: ExerciseResult)
    requires 0 <= confidence <= 4
    ensures !r.correct && r.srsConfidence == Some(confidence)
    ensures r.exerciseId == ex.id && r.attempts == s.attempts && r.timeSpent == now - s.startTime
  {
    ExerciseResult(ex.id, false, now - s.startTime, s.attempts, Some(confidence))
  }

  /** `handleSkipWithAnswer`: shows the answer as wrong; `onSkip` follows after a delay. */
  function SkipWithAnswer(s: Session): (r: Session)
    ensures r.wasSkipped && r.isCorrect == Some(false)
    ensures r.(wasSkipped := s.wasSkipped, isCorrect := s.isCorrect) == s
  {
    s.(wasSkipped := true, isCorrect := Some(false))
  }

  /**
   * Skipping does not lock the input: with fewer than three attempts the
   * exercise still accepts answer changes until the lesson page moves on.
   */
  lemma SkipLeavesInputOpen(s: Session, k: ExerciseKind)
    requires s.attempts < 3
    ensures !Blocked(SkipWithAnswer(s), k)
  {
  }

  /** After a correct check, or a third wrong one, the input is blocked and the Check button hidden. */
  lemma FinishedAfterCheck(s: Session, ex: Exercise, submitted: Option<Answer>, now: int)
    requires Truthy(submitted) || Truthy(s.answer)
    requires Check(s, ex, submitted, now).effect != ClearAfterDelay
    ensures var st := Check(s, ex, submitted, now);
      && Blocked(st.session, ex.kind)
      && !CheckEnabled(st.session, ex.kind)
      && Blocked(Settle(st).0, ex.kind)
  {
  }

  /** A wrong check that leaves attempts to spare reopens the exercise once the retry delay fires. */
  lemma RetryReopens(s: Session, ex: Exercise, submitted: Option<Answer>, now: int)
    requires Truthy(submitted) || Truthy(s.answer)
    requires s.attempts + 1 < 3
    requires !Evaluator.Evaluate(ex, if Truthy(submitted) then submitted.value else s.answer.value).correct
    ensures var r := Settle(Check(s, ex, submitted, now)).0;
      && r.answer == None && r.isCorrect == None && r.attempts == s.attempts + 1
      && !Blocked(r, ex.kind)
  {
  }

  /** A learner action, stamped with the time it happens. */
  datatype Action = Change(answer: Option<Answer>) | PressCheck | Rate(confidence: int) | PressSkip | ToggleTip
  datatype Event = Event(action: Action, time: int)

  /**
   * One action, with every delay it starts already elapsed. While the rating
   * screen is up it replaces the exercise, so only a rating reaches the component.
   */
  function Handle(s: Session, ex: Exercise, e: Event): (r: (Session, Signal))
    ensures s.showConfidence ==> r.0 == s && (r.1 != Silent <==> e.action.Rate? && 0 <= e.action.confidence <= 4)
    ensures !s.showConfidence && e.action.Rate? ==> r == (s, Silent)
    ensures r.1 == Skip <==> e.action.PressSkip? && !s.showConfidence
    ensures r.1 == Skip ==> r.0 == SkipWithAnswer(s)
    ensures e.action.ToggleTip? ==>
      && r.1 == Silent && r.0.(showTip := s.showTip) == s
      && (r.0.showTip != s.showTip <==> !s.showConfidence && ex.tips.Some? && |ex.tips.value| > 0)
    ensures e.action.PressCheck? && !CheckEnabled(s, ex.kind) ==> r == (s, Silent)
  {
    match e.action
    case Change(a) =>
      if s.showConfidence then (s, Silent)
      else
        var (s1, submit) := ChangeAnswer(s, ex.kind, a);
        if submit.Some? then Settle(Check(s1, ex, submit, e.time)) else (s1, Silent)
    case PressCheck =>
      if !s.showConfidence && CheckEnabled(s, ex.kind) then Settle(Check(s, ex, None, e.time))
      else (s, Silent)
    case Rate(c) =>
      if s.showConfidence && 0 <= c <= 4 then (s, Complete(RateConfidence(s, ex, c, e.time)))
      else (s, Silent)
    case PressSkip =>
      if s.showConfidence then (s, Silent) else (SkipWithAnswer(s), Skip)
    case ToggleTip =>
      if !s.showConfidence && ex.tips.Some? && |ex.tips.value| > 0 then (s.(showTip := !s.showTip), Silent)
      else (s, Silent)
  }

  /** Processes actions until the first signal, which ends this exercise instance. */
  function Run(s: Session, ex: Exercise, events: seq<Event>): (Session, Signal)
    decreases |events|
  {
    if events == [] then (s, Silent)
    else
      var (s1, sig) := Handle(s, ex, events[0]);
      if sig != Silent then (s1, sig) else Run(s1, ex, events[1..])
  }

  /** The quiet states of a non-flashcard exercise between actions. */
  predicate Quiet(s: Session) {
    && s.attempts <= 3
    && (s.showConfidence <==> s.attempts == 3)
    && (s.showConfidence ==> s.isCorrect == Some(false))
    && (!s.showConfidence ==> s.isCorrect == None)
  }

  /** How a non-flashcard exercise can end. */
  predicate WellEnded(sig: Signal) {
    sig.Complete? ==>
      var r := sig.result;
      || (r.correct && 1 <= r.attempts <= 3 && r.srsConfidence == None)
      || (!r.correct && r.attempts == 3 && r.srsConfidence.Some? && 0 <= r.srsConfidence.value <= 4)
  }

  lemma HandleQuiet(s: Session, ex: Exercise, e: Event)
    requires ex.kind != Flashcard && Quiet(s)
    ensures var (s1, sig) := Handle(s, ex, e);
      (sig == Silent ==> Quiet(s1)) && s1.attempts <= 3 && WellEnded(sig)
  {
    match e.action
    case Change(a) =>
      if !s.showConfidence {
        var (s1, submit) := ChangeAnswer(s, ex.kind, a);
        if submit.Some? {
          SettledCheckQuiet(s1, ex, submit, e.time);
        }
      }
    case PressCheck =>
      if !s.showConfidence {
        SettledCheckQuiet(s, ex, None, e.time);
      }
    case _ =>
  }

  /** A check from a quiet state with the rating screen down, once its delay fires. */
  lemma SettledCheckQuiet(s: Session, ex: Exercise, submitted: Option<Answer>, now: int)
    requires ex.kind != Flashcard && Quiet(s) && !s.showConfidence
    ensures var (s1, sig) := Settle(Check(s, ex, submitted, now));
      (sig == Silent ==> Quiet(s1)) && s1.attempts <= 3 && WellEnded(sig)
  {
  }

  /**
   * A non-flashcard exercise evaluates at most three submissions; it ends
   * correct after one to three attempts, or incorrect after exactly three with
   * a rating in 0..4.
   */
  lemma {:induction false} RunBounded(s: Session, ex: Exercise, events: seq<Event>)
    requires ex.kind != Flashcard && Quiet(s)
    ensures var (s1, sig) := Run(s, ex, events);
      s1.attempts <= 3 && WellEnded(sig)
    decreases |events|
  {
    if events != [] {
      HandleQuiet(s, ex, events[0]);
      var (s1, sig) := Handle(s, ex, events[0]);
      if sig == Silent {
        RunBounded(s1, ex, events[1..]);
      }
    }
  }

  /** A freshly entered exercise is quiet. */
  lemma EnterIsQuiet(s: Session, ex: Exercise)
    requires ex.id != s.exerciseId
    ensures Quiet(Enter(s, ex))
  {
  }

  /** The quiet states of a flashcard: it never reaches the rating screen. */
  predicate CardQuiet(s: Session) {
    !s.showConfidence && s.isCorrect == None
  }

  /** A flashcard never shows the rating screen and can only complete as correct. */
  lemma {:induction false} FlashcardRun(s: Session, ex: Exercise, events: seq<Event>)
    requires ex.kind == Flashcard && CardQuiet(s)
    ensures var (s1, sig) := Run(s, ex, events);
      !s1.showConfidence && (sig.Complete? ==> sig.result.correct && sig.result.srsConfidence == None)
    decreases |events|
  {
    if events != [] {
      var (s1, sig) := Handle(s, ex, events[0]);
      if sig == Silent {
        assert CardQuiet(s1);
        FlashcardRun(s1, ex, events[1..]);
      }
    }
  }
}
