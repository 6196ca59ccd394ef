/**
 * The handlers of src/components/Exercise/MatchPairs.tsx. A match is the
 * string `left:right`; the answer is the list of matches made so far.
 */
module MatchPairsView {
  import opened Common
  import opened Types
  import opened AnswerBuilding
  import Text
  import Evaluator

  /** The two selection hooks. */
  datatype Board = Board(selectedLeft: Option<string>, selectedRight: Option<string>)

  const Cleared: Board := Board(None, None)

  /** JavaScript truthiness of `string | null`. */
  predicate TruthyStr(o: Option<string>) {
    o.Some? && o.value != ""
  }

  /** `${left}:${right}`. */
  function Encode(left: string, right: string): string {
    left + ":" + right
  }

  /** Splitting an encoded match on ':' gives its two sides back, when neither contains ':'. */
  lemma SplitEncode(left: string, right: string)
    requires ':' !in left && ':' !in right
    ensures Text.Split(Encode(left, right), ':') == [left, right]
  {
    var parts := [left, right];
    assert parts[1..] == [right];
    assert Text.Join(parts, [':']) == Encode(left, right);
    Text.SplitJoin(parts, ':');
  }

  /** One side of `match.split(':')`: the first part, or the second (absent when there is none). */
  function Side(m: string, left: bool): Option<string> {
    var parts := Text.Split(m, ':');
    if left then Some(parts[0]) else if |parts| > 1 then Some(parts[1]) else None
  }

  /** `isItemMatched(item, side)`. */
  predicate IsItemMatched(matches: seq<string>, item: string, left: bool) {
    exists k :: 0 <= k < |matches| && Side(matches[k], left) == Some(item)
  }

  /** `isMatchCorrect`: exact membership in the expected list; never, against a single string. */
  predicate IsMatchCorrect(ex: Exercise, m: string) {
    ex.correct.List? && m in ex.correct.items
  }

  /** `createMatch`: appends the encoded pair and clears both selections. */
  function CreateMatch(matches: seq<string>, left: string, right: string): (r: (Board, Emit))
    ensures r.0 == Cleared
    ensures r.1.Call? && r.1.answer.Some? && r.1.answer.value.List?
    ensures r.1.answer.value.items == matches + [Encode(left, right)]
  {
    (Cleared, Call(Some(List(matches + [Encode(left, right)]))))
  }

  /** `handleLeftClick`: toggles the selection, or completes a pair when a right item is selected. */
  function LeftClick(disabled: bool, b: Board, matches: seq<string>, item: string): (r: (Board, Emit))
    ensures disabled ==> r == (b, NoCall)
    ensures r.1.Call? <==> !disabled && b.selectedLeft != Some(item) && TruthyStr(b.selectedRight)
    ensures r.1.Call? ==> r == CreateMatch(matches, item, b.selectedRight.value)
    ensures !disabled && b.selectedLeft == Some(item) ==> r.0 == b.(selectedLeft := None)
    ensures !disabled && b.selectedLeft != Some(item) && !TruthyStr(b.selectedRight) ==>
      r.0 == b.(selectedLeft := Some(item))
  {
    if disabled then (b, NoCall)
    else if b.selectedLeft == Some(item) then (b.(selectedLeft := None), NoCall)
    else if TruthyStr(b.selectedRight) then CreateMatch(matches, item, b.selectedRight.value)
    else (b.(selectedLeft := Some(item)), NoCall)
  }

  /** `handleRightClick`, the mirror image. */
  function RightClick(disabled: bool, b: Board, matches: seq<string>, item: string): (r: (Board, Emit))
    ensures disabled ==> r == (b, NoCall)
    ensures r.1.Call? <==> !disabled && b.selectedRight != Some(item) && TruthyStr(b.selectedLeft)
    ensures r.1.Call? ==> r == CreateMatch(matches, b.selectedLeft.value, item)
    ensures !disabled && b.selectedRight == Some(item) ==> r.0 == b.(selectedRight := None)
    ensures !disabled && b.selectedRight != Some(item) && !TruthyStr(b.selectedLeft) ==>
      r.0 == b.(selectedRight := Some(item))
  {
    if disabled then (b, NoCall)
    else if b.selectedRight == Some(item) then (b.(selectedRight := None), NoCall)
    else if TruthyStr(b.selectedLeft) then CreateMatch(matches, b.selectedLeft.value, item)
    else (b.(selectedRight := Some(item)), NoCall)
  }

  /** `clearMatches`: an empty answer and no selection. */
  function ClearMatches(): (r: (Board, Emit))
    ensures r.0 == Cleared && r.1 == Call(Some(List([])))
  {
    (Cleared, Call(Some(List([]))))
  }

  /** The matches after a handler: the emitted list if it called back, else the old one. */
  function After(matches: seq<string>, e: Emit): seq<string> {
    if e.Call? then ListOf(e.answer) else matches
  }

  function Lefts(matches: seq<string>): (r: seq<string>)
    ensures |r| == |matches| && forall k :: 0 <= k < |matches| ==> Some(r[k]) == Side(matches[k], true)
  {
    if matches == [] then [] else [Side(matches[0], true).value] + Lefts(matches[1..])
  }

  function Rights(matches: seq<string>): (r: seq<string>)
    requires forall k :: 0 <= k < |matches| ==> Side(matches[k], false).Some?
    ensures |r| == |matches| && forall k :: 0 <= k < |matches| ==> Some(r[k]) == Side(matches[k], false)
  {
    if matches == [] then [] else [Side(matches[0], false).value] + Rights(matches[1..])
  }

  predicate NoColon(o: Option<string>) {
    o.Some? ==> ':' !in o.value
  }

  /**
   * What clicks maintain: every match is a clean pair, no item is matched
   * twice on its side, and a selected item is still unmatched.
   */
  predicate WellFormed(b: Board, matches: seq<string>) {
    && (forall k :: 0 <= k < |matches| ==> |Text.Split(matches[k], ':')| == 2)
    && Distinct(Lefts(matches))
    && Distinct(Rights(matches))
    && NoColon(b.selectedLeft) && NoColon(b.selectedRight)
    && (b.selectedLeft.Some? ==> !IsItemMatched(matches, b.selectedLeft.value, true))
    && (b.selectedRight.Some? ==> !IsItemMatched(matches, b.selectedRight.value, false))
  }

  /** The item button is enabled: not disabled and the item not yet matched on its side. */
  predicate ItemEnabled(disabled: bool, matches: seq<string>, item: string, left: bool) {
    !disabled && !IsItemMatched(matches, item, left)
  }

  lemma DistinctSnoc(xs: seq<string>, x: string)
    requires Distinct(xs) && x !in xs
    ensures Distinct(xs + [x])
  {
  }

  lemma AppendLeft(matches: seq<string>, left: string, right: string)
    requires Distinct(Lefts(matches))
    requires ':' !in left && ':' !in right
    requires !IsItemMatched(matches, left, true)
    ensures Distinct(Lefts(matches + [Encode(left, right)]))
  {
    SplitEncode(left, right);
    var m := matches + [Encode(left, right)];
    var ls := Lefts(matches);
    assert Lefts(m) == ls + [left] by {
      assert forall k :: 0 <= k < |matches| ==> m[k] == matches[k];
    }
    forall k | 0 <= k < |ls|
      ensures ls[k] != left
    {
      assert Side(matches[k], true) == Some(ls[k]);
    }
    DistinctSnoc(ls, left);
  }

  lemma AppendRight(matches: seq<string>, left: string, right: string)
    requires forall k :: 0 <= k < |matches| ==> |Text.Split(matches[k], ':')| == 2
    requires Distinct(Rights(matches))
    requires ':' !in left && ':' !in right
    requires !IsItemMatched(matches, right, false)
    ensures var m := matches + [Encode(left, right)];
      && (forall k :: 0 <= k < |m| ==> |Text.Split(m[k], ':')| == 2)
      && Distinct(Rights(m))
  {
    SplitEncode(left, right);
    var m := matches + [Encode(left, right)];
    assert forall k :: 0 <= k < |matches| ==> m[k] == matches[k];
    var rs := Rights(matches);
    assert Rights(m) == rs + [right];
    forall k | 0 <= k < |rs|
      ensures rs[k] != right
    {
      assert Side(matches[k], false) == Some(rs[k]);
    }
    DistinctSnoc(rs, right);
  }

  lemma AppendPair(matches: seq<string>, left: string, right: string)
    requires forall k :: 0 <= k < |matches| ==> |Text.Split(matches[k], ':')| == 2
    requires Distinct(Lefts(matches)) && Distinct(Rights(matches))
    requires ':' !in left && ':' !in right
    requires !IsItemMatched(matches, left, true) && !IsItemMatched(matches, right, false)
    ensures var m := matches + [Encode(left, right)];
      && (forall k :: 0 <= k < |m| ==> |Text.Split(m[k], ':')| == 2)
      && Distinct(Lefts(m)) && Distinct(Rights(m))
  {
    AppendLeft(matches, left, right);
    AppendRight(matches, left, right);
  }

  /**
   * Clicking enabled items keeps the board well formed: through clicks each
   * item ends up in at most one match.
   */
  lemma LeftClickKeepsWellFormed(b: Board, matches: seq<string>, item: string)
    requires WellFormed(b, matches)
    requires ItemEnabled(false, matches, item, true) && ':' !in item
    ensures var (b1, e) := LeftClick(false, b, matches, item);
      WellFormed(b1, After(matches, e))
  {
    var (b1, e) := LeftClick(false, b, matches, item);
    if e.Call? {
      AppendPair(matches, item, b.selectedRight.value);
    }
  }

  lemma RightClickKeepsWellFormed(b: Board, matches: seq<string>, item: string)
    requires WellFormed(b, matches)
    requires ItemEnabled(false, matches, item, false) && ':' !in item
    ensures var (b1, e) := RightClick(false, b, matches, item);
      WellFormed(b1, After(matches, e))
  {
    var (b1, e) := RightClick(false, b, matches, item);
    if e.Call? {
      AppendPair(matches, b.selectedLeft.value, item);
    }
  }

  /** An item containing ':' is split apart by `match.split(':')`, so on neither side does it ever show as matched. */
  lemma ColonItemNeverMatched(matches: seq<string>, item: string, left: bool)
    requires ':' in item
    ensures !IsItemMatched(matches, item, left)
  {
    forall k | 0 <= k < |matches|
      ensures Side(matches[k], left) != Some(item)
    {
      var parts := Text.Split(matches[k], ':');
      assert ':' !in parts[0];
      assert |parts| > 1 ==> ':' !in parts[1];
    }
  }

  /** A match is marked correct only by exact membership in a list key, never against a single-string key. */
  lemma MatchMarkIsExact(ex: Exercise, m: string)
    ensures ex.correct.One? ==> !IsMatchCorrect(ex, m)
    ensures ex.correct.List? ==> (IsMatchCorrect(ex, m) <==> exists i :: 0 <= i < |ex.correct.items| && ex.correct.items[i] == m)
  {
  }

  /**
   * The mark is case-sensitive, unlike the answer check: a re-cased pair is
   * accepted as an answer but not marked correct.
   */
  lemma RecasedMatchNotMarked(ex: Exercise, m: string)
    requires ex.kind == MatchPairs && ex.correct == List(["a:b"]) && m == "A:b"
    ensures !IsMatchCorrect(ex, m) && Evaluator.Evaluate(ex, One(m)).correct
  {
    assert Text.Lower(m) == "a:b";
    assert Text.Lower("a:b") == "a:b";
    assert Evaluator.LowerAll(ex.correct.items) == ["a:b"];
    Evaluator.OneAgainstList(ex, m);
  }
}
