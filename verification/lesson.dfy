/**
 * The lesson flow of src/pages/LessonPage.tsx: recording each exercise
 * result, the scheduler call it triggers, and on the last exercise the score,
 * the XP award and the badges. The page's advance delay is collapsed into the
 * step that starts it.
 */
module LessonFlow {
  import opened Common
  import opened Types
  import Progress

  /** The page's state: the current exercise index, the results so far, and whether the summary shows. */
  datatype Run = Run(index: nat, results: seq<ExerciseResult>, showResults: bool)

  const Start: Run := Run(0, [], false)

  const PerfectLesson: string := "perfect_lesson"
  const FirstLesson: string := "first_lesson"

  /** The scheduler key of an exercise: `${lesson.id}-${exercise.id}`. */
  function ItemId(lessonId: string, exerciseId: string): string {
    lessonId + "-" + exerciseId
  }

  /**
   * The scheduler call made for a completed exercise, if any: a correct
   * flashcard always counts as recalled; otherwise a confidence rating counts
   * as recalled from 2 up.
   */
  function SrsCall(lessonId: string, ex: Exercise, result: ExerciseResult): (r: Option<(string, bool)>)
    ensures r.Some? <==> (ex.kind == Flashcard && result.correct) || result.srsConfidence.Some?
    ensures r.Some? ==> r.value.0 == ItemId(lessonId, ex.id)
  {
    if ex.kind == Flashcard && result.correct then Some((ItemId(lessonId, ex.id), true))
    else if result.srsConfidence.Some? then Some((ItemId(lessonId, ex.id), result.srsConfidence.value >= 2))
    else None
  }

  /** Ratings 0 and 1 demote the item, 2 to 4 promote it; a correct flashcard always promotes. */
  lemma RecallMapping(lessonId: string, ex: Exercise, result: ExerciseResult)
    ensures ex.kind == Flashcard && result.correct ==> SrsCall(lessonId, ex, result) == Some((ItemId(lessonId, ex.id), true))
    ensures !(ex.kind == Flashcard && result.correct) && result.srsConfidence.Some? ==>
      (SrsCall(lessonId, ex, result).value.1 <==> result.srsConfidence.value >= 2)
  {
  }

  function ApplySrs(st: ProgressState, call: Option<(string, bool)>, now: int): ProgressState {
    if call.Some? then Progress.UpdateSrsItem(st, call.value.0, call.value.1, now) else st
  }

  /** A correct flashcard never lowers its item's bucket. */
  lemma FlashcardNeverDemotes(st: ProgressState, lessonId: string, ex: Exercise, result: ExerciseResult, now: int)
    requires ex.kind == Flashcard && result.correct
    ensures var id := ItemId(lessonId, ex.id);
      var r := ApplySrs(st, SrsCall(lessonId, ex, result), now);
      id in r.srs && (id in st.srs ==> r.srs[id].bucket >= st.srs[id].bucket)
  {
  }

  function CountCorrect(results: seq<ExerciseResult>): (n: nat)
    ensures n <= |results|
  {
    if results == [] then 0
    else (if results[0].correct then 1 else 0) + CountCorrect(results[1..])
  }

  /** `Math.round(correct / total * 100)` in integer arithmetic. */
  function Score(correct: nat, total: nat): (s: int)
    requires 0 < total && correct <= total
    ensures 0 <= s <= 100
    ensures (2 * s - 1) * total <= 200 * correct < (2 * s + 1) * total
  {
    RoundedPercent(correct, total);
    (200 * correct + total) / (2 * total)
  }

  /** Rounding half up by integer division: the quotient is within half a point of 100c/n. */
  lemma RoundedPercent(c: nat, n: nat)
    requires 0 < n && c <= n
    ensures var s := (200 * c + n) / (2 * n);
      0 <= s <= 100 && (2 * s - 1) * n <= 200 * c < (2 * s + 1) * n
  {
    var a := 200 * c + n;
    var d := 2 * n;
    var s := a / d;
    var r := a % d;
    assert a == s * d + r && 0 <= r < d;
    assert (2 * s - 1) * n == s * d - n;
    assert (2 * s + 1) * n == s * d + n;
    if s < 0 {
      MulMonotone(s, -1, d);
      assert false;
    }
    if s > 100 {
      MulMonotone(101, s, d);
      assert false;
    }
  }

  /**
   * A lesson scores 100 exactly when the misses are at most a two-hundredth of
   * the results (rounding 99.5 up): so, below 200 results, exactly when every
   * result is correct. No correct answer scores 0.
   */
  lemma ScoreExtremes(correct: nat, total: nat)
    requires 0 < total && correct <= total
    ensures Score(correct, total) == 100 <==> 200 * (total - correct) <= total
    ensures total < 200 ==> (Score(correct, total) == 100 <==> correct == total)
    ensures correct == 0 ==> Score(correct, total) == 0
  {
    var s := Score(correct, total);
    if 200 * (total - correct) <= total && s < 100 {
      MulMonotone(2 * s + 1, 199, total);
      assert false;
    }
    if correct == 0 && s > 0 {
      MulMonotone(1, 2 * s - 1, total);
      assert false;
    }
  }

  lemma MulMonotone(a: int, b: int, n: nat)
    requires a <= b
    ensures a * n <= b * n
  {
  }

  /** The XP award: 10, plus 5 from a score of 80, plus 5 more for 100. */
  function XpEarned(score: int): (xp: int)
    ensures xp == 10 || xp == 15 || xp == 20
    ensures xp >= 15 <==> score >= 80
    ensures xp == 20 <==> score == 100
  {
    var base := 10;
    var good := if score >= 80 then base + 5 else base;
    if score == 100 then good + 5 else good
  }

  /** The "+XP" figure on the summary screen. */
  function DisplayedXp(score: int): int {
    if score >= 80 then (if score == 100 then 20 else 15) else 10
  }

  lemma DisplayAgreesWithAward(score: int)
    requires 0 <= score <= 100
    ensures DisplayedXp(score) == XpEarned(score)
  {
  }

  /**
   * The last-exercise branch: builds the lesson result over the collected
   * results, calls `completeLesson` and then `addXp` with the same award, and
   * unlocks the badges.
   */
  function FinishLesson(st: ProgressState, lesson: Lesson, results: seq<ExerciseResult>, now: int): (r: ProgressState)
    requires |results| > 0
    ensures var score := Score(CountCorrect(results), |results|);
      && r.xp == st.xp + 2 * XpEarned(score)
      && r.level == Progress.Level(r.xp)
      && r.completedLessons == st.completedLessons[lesson.id := Completion(now, score)]
      && r.lastActive == now
      && (PerfectLesson in r.badges <==> PerfectLesson in st.badges || score == 100)
      && (FirstLesson in r.badges <==> FirstLesson in st.badges || (|results| == 1 && results[0].correct))
      && r.srs == st.srs && r.streakDays == st.streakDays && r.settings == st.settings
  {
    var correctAnswers := CountCorrect(results);
    var score := Score(correctAnswers, |results|);
    ScoreExtremes(correctAnswers, |results|);
    var xp := XpEarned(score);
    var result := LessonResult(lesson.id, score, |lesson.exercises|, correctAnswers, xp, now, results);
    var s1 := Progress.CompleteLesson(st, result, now);
    var s2 := Progress.AddXp(s1, xp);
    var s3 := if score == 100 then Progress.UnlockBadge(s2, PerfectLesson) else s2;
    assert |results| == 1 ==> results[1..] == [];
    if correctAnswers == 1 && |results| == 1 then Progress.UnlockBadge(s3, FirstLesson) else s3
  }

  /**
   * `handleExerciseComplete(result)`: records the result, makes the scheduler
   * call, and either finishes the lesson or moves to the next exercise.
   */
  function CompleteExercise(run: Run, lesson: Lesson, result: ExerciseResult, st: ProgressState, now: int): (r: (Run, ProgressState))
    requires run.index < |lesson.exercises| && !run.showResults
    ensures r.0.results == run.results + [result]
    ensures var afterSrs := ApplySrs(st, SrsCall(lesson.id, lesson.exercises[run.index], result), now);
      if run.index == |lesson.exercises| - 1 then
        r.0.showResults && r.0.index == run.index && r.1 == FinishLesson(afterSrs, lesson, r.0.results, now)
      else
        !r.0.showResults && r.0.index == run.index + 1 && r.1 == afterSrs
  {
    var newResults := run.results + [result];
    var ex := lesson.exercises[run.index];
    var st1 := ApplySrs(st, SrsCall(lesson.id, ex, result), now);
    if run.index == |lesson.exercises| - 1 then
      (run.(results := newResults, showResults := true), FinishLesson(st1, lesson, newResults, now))
    else
      (run.(results := newResults, index := run.index + 1), st1)
  }

  /** Where `handleSkipExercise` leads. */
  datatype SkipOutcome = Advance(run: Run) | GoHome

  /** Skipping records nothing: it moves on, or leaves the lesson from the last exercise without completing it. */
  function SkipExercise(run: Run, lesson: Lesson): (r: SkipOutcome)
    requires run.index < |lesson.exercises| && !run.showResults
    ensures r.GoHome? <==> run.index == |lesson.exercises| - 1
    ensures r.Advance? ==> r.run.index == run.index + 1 && r.run.results == run.results && !r.run.showResults
  {
    if run.index == |lesson.exercises| - 1 then GoHome
    else Advance(run.(index := run.index + 1))
  }

  /**
   * The score divides by the results collected, not by the lesson's length:
   * skip the first of two exercises, answer the second correctly, and the
   * lesson scores 100, earns 20 XP twice over and both badges.
   */
  lemma SkippedExercisesLeaveTheScore(st: ProgressState, lesson: Lesson, r: ExerciseResult, now: int)
    requires |lesson.exercises| == 2 && lesson.exercises[1].kind != Flashcard
    requires r.correct && r.srsConfidence == None
    requires st.badges == []
    ensures var s := SkipExercise(Start, lesson);
      && s.Advance?
      && var (run, st1) := CompleteExercise(s.run, lesson, r, st, now);
      && run.showResults
      && st1.completedLessons[lesson.id].score == 100
      && st1.xp == st.xp + 40
      && PerfectLesson in st1.badges && FirstLesson in st1.badges
  {
    var s := SkipExercise(Start, lesson);
    var (run, st1) := CompleteExercise(s.run, lesson, r, st, now);
    assert run.results == [r];
    assert CountCorrect([r]) == 1;
  }
}
