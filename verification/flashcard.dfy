/** The handlers of src/components/Exercise/Flashcard.tsx. */
module FlashcardView {
  import opened Common
  import opened Types
  import opened AnswerBuilding
  import Evaluator

  /** The card's only local state: whether the back is revealed. */
  datatype CardFace = CardFace(showBack: bool)

  const FrontUp: CardFace := CardFace(false)

  /** `handleCardClick`: reveals the back; a revealed card stays as it is. */
  function CardClick(c: CardFace): (r: CardFace)
    ensures r.showBack
    ensures c.showBack ==> r == c
  {
    if !c.showBack then CardFace(true) else c
  }

  /** The card after `n` clicks. */
  function Clicks(c: CardFace, n: nat): CardFace
    decreases n
  {
    if n == 0 then c else Clicks(CardClick(c), n - 1)
  }

  /** The back, once revealed, is never hidden again; one click is enough to reveal it. */
  lemma {:induction false} RevealIsLatched(c: CardFace, n: nat)
    ensures Clicks(c, n).showBack <==> c.showBack || n > 0
    decreases n
  {
    if n > 0 {
      RevealIsLatched(CardClick(c), n - 1);
    }
  }

  datatype Confidence = Hard | Good | Easy

  /** The string each button passes to the answer callback. */
  function Label(c: Confidence): (r: string)
    ensures r in Evaluator.Confidences
  {
    match c
    case Hard => "hard"
    case Good => "good"
    case Easy => "easy"
  }

  /** The three buttons cover exactly the ratings the evaluator accepts. */
  lemma LabelsAreTheConfidences(t: string)
    ensures t in Evaluator.Confidences <==> exists c: Confidence :: Label(c) == t
  {
    if t in Evaluator.Confidences {
      if t == "hard" { assert Label(Hard) == t; }
      else if t == "good" { assert Label(Good) == t; }
      else { assert Label(Easy) == t; }
    }
  }

  /** `handleConfidenceClick`: nothing when disabled, else the rating as a string answer. */
  function ConfidenceClick(disabled: bool, c: Confidence): (r: Emit)
    ensures r.NoCall? <==> disabled
    ensures r.Call? ==> r.answer == Some(One(Label(c)))
  {
    if disabled then NoCall else Call(Some(One(Label(c))))
  }

  /** The confidence buttons are rendered only for a revealed, enabled card. */
  predicate ButtonsShown(c: CardFace, disabled: bool) {
    c.showBack && !disabled
  }

  /** Whatever rating a flashcard button emits, the evaluator counts it correct. */
  lemma EmittedRatingIsCorrect(ex: Exercise, disabled: bool, c: Confidence)
    requires ex.kind == Flashcard
    ensures var e := ConfidenceClick(disabled, c);
      e.Call? ==> Evaluator.Evaluate(ex, e.answer.value).correct
  {
  }

  /** A rating button is reachable from a fresh card exactly when the card is enabled: click once, then rate. */
  lemma RatingReachable(disabled: bool, c: Confidence)
    ensures ButtonsShown(Clicks(FrontUp, 1), disabled) <==> !disabled
  {
    RevealIsLatched(FrontUp, 1);
  }
}
