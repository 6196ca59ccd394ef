/**
 * The answer check of `checkAnswer` in
 * src/components/Exercise/ExerciseContainer.tsx: whether a submission is
 * correct, decided by the exercise kind and the shapes of the expected and
 * submitted answers.
 */
module Evaluator {
  import opened Types
  import opened Text

  datatype Verdict = Verdict(correct: bool, caseError: bool)

  /** JavaScript's `String(x)`: an array is joined with commas. */
  function AsString(a: Answer): string {
    match a
    case One(t) => t
    case List(xs) => Join(xs, ",")
  }

  /** The three answers a flashcard accepts. */
  const Confidences: seq<string> := ["hard", "good", "easy"]

  /** Same length and pairwise equal after lower-casing. */
  predicate PairwiseLowerEqual(xs: seq<string>, ys: seq<string>) {
    |xs| == |ys| && forall i :: 0 <= i < |xs| ==> Lower(xs[i]) == Lower(ys[i])
  }

  /** Lower-case then trim, as the single-string comparison does on both sides. */
  function Normalize(s: string): string {
    Trim(Lower(s))
  }

  /**
   * The check as written. Both "case error" branches test `!correct` together
   * with the very predicate that has just decided `correct`, so they never fire.
   */
  function Evaluate(ex: Exercise, a: Answer): (v: Verdict)
    ensures !v.caseError
    ensures ex.kind == Flashcard ==> (v.correct <==> AsString(a) in Confidences)
  {
    if ex.kind == Flashcard then
      Verdict(AsString(a) in Confidences, false)
    else
      match ex.correct
      case List(expected) =>
        (match a
         case List(xs) =>
           var correct := PairwiseLowerEqual(xs, expected);
           if !correct && PairwiseLowerEqual(xs, expected) then Verdict(true, true)
           else Verdict(correct, false)
         case One(t) =>
           Verdict(exists i :: 0 <= i < |expected| && Lower(expected[i]) == Lower(t), false))
      case One(e) =>
        var answerStr := Normalize(AsString(a));
        var correctStr := Normalize(e);
        var correct := answerStr == correctStr;
        if !correct && answerStr == correctStr then
          Verdict(true, Trim(AsString(a)) != Trim(e))
        else Verdict(correct, false)
  }

  function LowerAll(xs: seq<string>): (r: seq<string>)
    ensures |r| == |xs|
    ensures forall i :: 0 <= i < |xs| ==> r[i] == Lower(xs[i])
  {
    if xs == [] then [] else [Lower(xs[0])] + LowerAll(xs[1..])
  }

  /**
   * A list submitted against a list is correct exactly when the two lists,
   * lower-cased element by element, are the same list: order matters and no
   * element is trimmed.
   */
  lemma ListAgainstList(ex: Exercise, xs: seq<string>)
    requires ex.kind != Flashcard && ex.correct.List?
    ensures Evaluate(ex, List(xs)).correct <==> LowerAll(xs) == LowerAll(ex.correct.items)
  {
    var ys := ex.correct.items;
    if LowerAll(xs) == LowerAll(ys) {
      assert forall i :: 0 <= i < |xs| ==> LowerAll(xs)[i] == LowerAll(ys)[i];
    }
  }

  /** A single answer against a list is correct exactly when it is one of the list's entries up to case. */
  lemma OneAgainstList(ex: Exercise, t: string)
    requires ex.kind != Flashcard && ex.correct.List?
    ensures Evaluate(ex, One(t)).correct <==> Lower(t) in LowerAll(ex.correct.items)
  {
    var ys := ex.correct.items;
    if Lower(t) in LowerAll(ys) {
      var i :| 0 <= i < |ys| && LowerAll(ys)[i] == Lower(t);
      assert Lower(ys[i]) == Lower(t);
    }
  }

  /** Against a single expected string, the comparison ignores case and surrounding white space. */
  lemma OneAgainstOne(ex: Exercise, a: Answer)
    requires ex.kind != Flashcard && ex.correct.One?
    ensures Evaluate(ex, a).correct <==> Normalize(AsString(a)) == Normalize(ex.correct.text)
  {
  }

  /**
   * Any re-casing of the expected string, padded with white space, is accepted
   * (and, the case-error branch being dead, without a case-error flag).
   */
  lemma {:induction false} PaddedRecasingAccepted(ex: Exercise, s: string, p: string, q: string)
    requires ex.kind != Flashcard && ex.correct.One?
    requires Lower(s) == Lower(ex.correct.text)
    requires AllSpace(p) && AllSpace(q)
    ensures Evaluate(ex, One(p + s + q)) == Verdict(true, false)
  {
    LowerAppend(p + s, q);
    LowerAppend(p, s);
    assert AllSpace(Lower(p)) && AllSpace(Lower(q));
    TrimPadded(Lower(p), Lower(s), Lower(q));
  }

  /** The exact expected answer is always accepted, whatever its shape. */
  lemma {:induction false} ExpectedAccepted(ex: Exercise)
    requires ex.kind != Flashcard
    ensures Evaluate(ex, ex.correct).correct
  {
    match ex.correct
    case One(e) =>
      PaddedRecasingAccepted(ex, e, [], []);
      assert [] + e + [] == e;
    case List(ys) =>
  }

  /** Letters in the wrong order are rejected even when the same letters are used. */
  lemma OrderMatters()
    ensures var ex := Exercise("e", SelectLetters, "", Bg, Words([]), List(["А", "З"]), Common.None);
            && Evaluate(ex, List(["а", "з"])) == Verdict(true, false)
            && Evaluate(ex, List(["з", "а"])) == Verdict(false, false)
  {
    var ex := Exercise("e", SelectLetters, "", Bg, Words([]), List(["А", "З"]), Common.None);
    assert Lower("З") == "з" && Lower("А") == "а";
    assert Lower("з") == "з" && Lower("а") == "а";
    var wrong: seq<string> := ["з", "а"];
    var expected: seq<string> := ["А", "З"];
    assert Lower(wrong[0]) == "з" && Lower(expected[0]) == "а";
    assert !PairwiseLowerEqual(wrong, expected);
  }

  /** A typed answer differing in case and a trailing space is accepted, without a case-error flag. */
  lemma TypedCaseAndSpace(ex: Exercise, typed: string)
    requires ex.kind == TypeIn && ex.correct == One("котка")
    requires typed == "Котка "
    ensures Evaluate(ex, One(typed)) == Verdict(true, false)
  {
    var word, pad := CapitalizedWordAndPad();
    PaddedRecasingAccepted(ex, word, [], pad);
    assert [] + word + pad == typed;
  }

  /** "Котка " is a re-casing of "котка" followed by white space. */
  lemma CapitalizedWordAndPad() returns (word: string, pad: string)
    ensures Lower(word) == Lower("котка") && AllSpace(pad) && word + pad == "Котка "
  {
    word := "Котка";
    pad := " ";
    var typed: string := "Котка";
    var key: string := "котка";
    assert LowerChar(typed[0]) == key[0] == LowerChar(key[0]);
    assert typed[1..] == key[1..];
    assert Lower(typed) == [LowerChar(typed[0])] + Lower(typed[1..]);
  }
}
