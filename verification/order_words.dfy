/**
 * src/components/Exercise/OrderWords.tsx: its click, remove and clear
 * handlers are `AnswerBuilding`'s; what is its own is that a placed word's
 * button is disabled.
 */
module OrderWordsView {
  import opened Common
  import opened Types
  import opened AnswerBuilding

  /** `isWordUsed`. */
  predicate IsWordUsed(answer: Option<Answer>, word: string) {
    word in ListOf(answer)
  }

  /** A pool word's button is enabled: not disabled and not yet placed. */
  predicate WordEnabled(disabled: bool, answer: Option<Answer>, word: string) {
    !disabled && !IsWordUsed(answer, word)
  }

  /** Through enabled buttons a word is never placed twice, and removal keeps it so. */
  lemma ClicksKeepWordsDistinct(answer: Option<Answer>, word: string, i: int)
    requires Distinct(ListOf(answer))
    ensures WordEnabled(false, answer, word) ==>
      Distinct(ListOf(AppendItem(false, answer, word).answer))
    ensures Distinct(ListOf(RemoveItem(false, answer, i).answer))
  {
    RemoveAtKeepsDistinct(ListOf(answer), i);
  }
}
