/**
 * src/components/Exercise/SelectLetters.tsx: its click, remove and clear
 * handlers are `AnswerBuilding`'s; what is its own is the gloss shown above
 * the pool and that a letter can be picked again.
 */
module SelectLettersView {
  import opened Common
  import opened Types
  import opened AnswerBuilding
  import Text

  /** Picking the same letter twice puts it in the answer twice. */
  lemma RepeatsAllowed(letter: string)
    ensures var first := AppendItem(false, None, letter);
      AppendItem(false, first.answer, letter) == Call(Some(List([letter, letter])))
  {
    assert AppendItem(false, None, letter).answer == Some(List([letter]));
    assert ListOf(Some(List([letter]))) + [letter] == [letter, letter];
  }

  /** The first `)` from position k, unless a line terminator comes first. */
  function CloseFrom(s: string, k: nat): (r: Option<nat>)
    ensures r.Some? ==>
      && k <= r.value < |s| && s[r.value] == ')'
      && forall m :: k <= m < r.value ==> s[m] != ')' && !Text.IsLineTerminator(s[m])
    ensures r.None? ==> forall m :: k <= m < |s| && s[m] == ')' ==>
      exists n :: k <= n < m && Text.IsLineTerminator(s[n])
    decreases |s| - k
  {
    if k >= |s| then None
    else if s[k] == ')' then Some(k)
    else if Text.IsLineTerminator(s[k]) then None
    else CloseFrom(s, k + 1)
  }

  /** A `(` at i that the lazy group `\((.*?)\)` can close. */
  predicate Opens(s: string, i: int) {
    0 <= i < |s| && s[i] == '(' && CloseFrom(s, i + 1).Some?
  }

  /** p is the first position from i on where the lazy group can open. */
  predicate Leftmost(s: string, i: int, p: int) {
    i <= p && Opens(s, p) && forall q :: i <= q < p ==> !Opens(s, q)
  }

  /** The text captured by the group opened at p: everything up to the first `)`. */
  function Group(s: string, p: int): (g: string)
    requires Opens(s, p)
    ensures ')' !in g && forall c :: c in g ==> !Text.IsLineTerminator(c)
  {
    var j := CloseFrom(s, p + 1).value;
    assert forall c :: c in s[p + 1..j] ==> c != ')' && !Text.IsLineTerminator(c);
    s[p + 1..j]
  }

  /** The leftmost match of `/\((.*?)\)/` from position i on: its group text. */
  function MatchFrom(s: string, i: nat): (r: Option<string>)
    ensures r.None? <==> forall p :: i <= p < |s| ==> !Opens(s, p)
    ensures r.Some? ==> ')' !in r.value && forall c :: c in r.value ==> !Text.IsLineTerminator(c)
    decreases |s| - i
  {
    if i >= |s| then None
    else if Opens(s, i) then
      var j := CloseFrom(s, i + 1).value;
      assert forall c :: c in s[i + 1..j] ==> c != ')' && !Text.IsLineTerminator(c);
      Some(s[i + 1..j])
    else MatchFrom(s, i + 1)
  }

  /** The match found is the group of the leftmost position where one can open. */
  lemma {:induction false} MatchFromLeftmost(s: string, i: nat)
    ensures MatchFrom(s, i).Some? ==> exists p :: Leftmost(s, i, p) && MatchFrom(s, i).value == Group(s, p)
    decreases |s| - i
  {
    if i < |s| && !Opens(s, i) {
      MatchFromLeftmost(s, i + 1);
      if MatchFrom(s, i + 1).Some? {
        var p :| Leftmost(s, i + 1, p) && MatchFrom(s, i + 1).value == Group(s, p);
        assert Leftmost(s, i, p);
      }
    } else if i < |s| {
      assert Leftmost(s, i, i);
    }
  }

  /** `getEnglishTranslation`: the group of the first match in the prompt, else `targetWord`. */
  function EnglishTranslation(prompt: string, targetWord: string): (r: string)
    ensures (forall p :: 0 <= p < |prompt| ==> !Opens(prompt, p)) ==> r == targetWord
    ensures (exists p :: 0 <= p < |prompt| && Opens(prompt, p)) ==>
      exists p :: Leftmost(prompt, 0, p) && r == Group(prompt, p)
  {
    MatchFromLeftmost(prompt, 0);
    var m := MatchFrom(prompt, 0);
    if m.Some? then m.value else targetWord
  }

  /** A parenthesised gloss after a prefix without `(` is exactly what is returned. */
  lemma {:induction false} GlossExtracted(pre: string, gloss: string, post: string, targetWord: string)
    requires '(' !in pre
    requires ')' !in gloss && forall c :: c in gloss ==> !Text.IsLineTerminator(c)
    ensures EnglishTranslation(pre + "(" + gloss + ")" + post, targetWord) == gloss
  {
    var s := pre + "(" + gloss + ")" + post;
    var i := |pre|;
    var j := i + 1 + |gloss|;
    assert s[i] == '(' && s[j] == ')';
    assert s[i + 1..j] == gloss;
    CloseFromReaches(s, i + 1, j);
    assert Opens(s, i);
    MatchFromSkips(s, 0, i);
  }

  lemma {:induction false} CloseFromReaches(s: string, k: nat, j: nat)
    requires k <= j < |s| && s[j] == ')'
    requires forall m :: k <= m < j ==> s[m] != ')' && !Text.IsLineTerminator(s[m])
    ensures CloseFrom(s, k) == Some(j)
    decreases j - k
  {
    if k < j {
      CloseFromReaches(s, k + 1, j);
    }
  }

  lemma {:induction false} MatchFromSkips(s: string, i: nat, p: nat)
    requires i <= p < |s| && Opens(s, p)
    requires forall m :: i <= m < p ==> s[m] != '('
    ensures MatchFrom(s, i) == MatchFrom(s, p)
    decreases p - i
  {
    if i < p {
      assert !Opens(s, i);
      assert MatchFrom(s, i) == MatchFrom(s, i + 1);
      MatchFromSkips(s, i + 1, p);
    }
  }
}
