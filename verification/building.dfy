/**
 * What the answer-building components share: the `onAnswerChange` call a
 * handler makes, the array view of the current answer, and removal by index.
 */
module AnswerBuilding {
  import opened Common
  import opened Types

  /** Whether a handler calls `onAnswerChange`, and with what. */
  datatype Emit = NoCall | Call(answer: Option<Answer>)

  /** `Array.isArray(answer) ? answer : []`. */
  function ListOf(answer: Option<Answer>): seq<string> {
    if answer.Some? && answer.value.List? then answer.value.items else []
  }

  /** `list.length > 0 ? list : null`. */
  function NullIfEmpty(xs: seq<string>): (r: Option<Answer>)
    ensures r.None? <==> xs == []
    ensures r.Some? ==> r.value == List(xs)
  {
    if |xs| > 0 then Some(List(xs)) else None
  }

  /** `list.filter((_, j) => j !== i)`, written as the filter it is. */
  function RemoveAt(xs: seq<string>, i: int): (r: seq<string>)
    ensures |r| <= |xs|
    decreases |xs|
  {
    if xs == [] then []
    else (if i == 0 then [] else [xs[0]]) + RemoveAt(xs[1..], i - 1)
  }

  /** Removing a valid index deletes exactly that position and keeps the order of the rest. */
  lemma {:induction false} RemoveAtDeletesOne(xs: seq<string>, i: int)
    requires 0 <= i < |xs|
    ensures RemoveAt(xs, i) == xs[..i] + xs[i + 1..]
    decreases |xs|
  {
    if i > 0 {
      RemoveAtDeletesOne(xs[1..], i - 1);
      assert xs[..i] == [xs[0]] + xs[1..][..i - 1];
      assert xs[i + 1..] == xs[1..][i..];
    } else {
      RemoveAtOutOfRange(xs[1..], i - 1);
    }
  }

  /** An index outside the list removes nothing. */
  lemma {:induction false} RemoveAtOutOfRange(xs: seq<string>, i: int)
    requires i < 0 || i >= |xs|
    ensures RemoveAt(xs, i) == xs
    decreases |xs|
  {
    if xs != [] {
      RemoveAtOutOfRange(xs[1..], i - 1);
      assert xs == [xs[0]] + xs[1..];
    }
  }

  predicate Distinct(xs: seq<string>) {
    forall i, j :: 0 <= i < j < |xs| ==> xs[i] != xs[j]
  }

  lemma RemoveAtKeepsDistinct(xs: seq<string>, i: int)
    requires Distinct(xs)
    ensures Distinct(RemoveAt(xs, i))
  {
    if 0 <= i < |xs| {
      RemoveAtDeletesOne(xs, i);
      var r := xs[..i] + xs[i + 1..];
      forall a, b | 0 <= a < b < |r|
        ensures r[a] != r[b]
      {
        var a' := if a < i then a else a + 1;
        var b' := if b < i then b else b + 1;
        assert r[a] == xs[a'] && r[b] == xs[b'];
      }
    } else {
      RemoveAtOutOfRange(xs, i);
    }
  }

  /**
   * The three handlers the word-ordering and letter-selection widgets share.
   * `handleWordClick` / `handleLetterClick`: append the item to the list.
   */
  function AppendItem(disabled: bool, answer: Option<Answer>, item: string): (r: Emit)
    ensures disabled ==> r == NoCall
    ensures !disabled ==>
      && r.Call? && r.answer.Some? && r.answer.value.List?
      && |r.answer.value.items| == |ListOf(answer)| + 1
      && r.answer.value.items[..|ListOf(answer)|] == ListOf(answer)
      && r.answer.value.items[|ListOf(answer)|] == item
  {
    if disabled then NoCall else Call(Some(List(ListOf(answer) + [item])))
  }

  /** `handleRemoveWord(i)` / `handleRemoveLetter(i)`: drop position i; an emptied list becomes null. */
  function RemoveItem(disabled: bool, answer: Option<Answer>, i: int): (r: Emit)
    ensures disabled ==> r == NoCall
    ensures !disabled && 0 <= i < |ListOf(answer)| ==>
      var rest := ListOf(answer)[..i] + ListOf(answer)[i + 1..];
      r == Call(if rest == [] then None else Some(List(rest)))
  {
    if disabled then NoCall
    else
      var xs := ListOf(answer);
      if 0 <= i < |xs| then
        RemoveAtDeletesOne(xs, i);
        Call(NullIfEmpty(RemoveAt(xs, i)))
      else Call(NullIfEmpty(RemoveAt(xs, i)))
  }

  /** `clearAll` / `clearSelection`: hand back no answer. */
  function ClearItems(disabled: bool): (r: Emit)
    ensures disabled <==> r == NoCall
    ensures !disabled ==> r.answer == None
  {
    if disabled then NoCall else Call(None)
  }
}
