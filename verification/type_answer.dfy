/** The handlers of src/components/Exercise/TypeAnswer.tsx. */
module TypeAnswerView {
  import opened Common
  import opened Types
  import opened AnswerBuilding

  /** The text box shows the answer when it is a string, and "" otherwise. */
  function InputValue(answer: Option<Answer>): string {
    if answer.Some? && answer.value.One? then answer.value.text else ""
  }

  /** `value || null`: the empty string becomes null. */
  function NullIfBlank(value: string): (r: Option<Answer>)
    ensures r.None? <==> value == ""
    ensures r.Some? ==> r.value == One(value)
  {
    if value == "" then None else Some(One(value))
  }

  /** `handleInputChange`: passes the typed value through, "" as null. */
  function InputChange(disabled: bool, value: string): (r: Emit)
    ensures disabled ==> r == NoCall
    ensures !disabled ==> r.Call? && (r.answer.None? <==> value == "") && InputValue(r.answer) == value
  {
    if disabled then NoCall else Call(NullIfBlank(value))
  }

  /** `handleKeyboardClick`: appends the key to what the box shows. */
  function KeyboardClick(disabled: bool, answer: Option<Answer>, letter: string): (r: Emit)
    ensures disabled ==> r == NoCall
    ensures !disabled ==> r.Call? && r.answer == Some(One(InputValue(answer) + letter))
  {
    if disabled then NoCall else Call(Some(One(InputValue(answer) + letter)))
  }

  /** `handleBackspace`: `slice(0, -1)` drops the last character, if any; "" becomes null. */
  function Backspace(disabled: bool, answer: Option<Answer>): (r: Emit)
    ensures disabled ==> r == NoCall
    ensures !disabled ==> r.Call?
    ensures !disabled && InputValue(answer) != [] ==>
      InputValue(r.answer) + [InputValue(answer)[|InputValue(answer)| - 1]] == InputValue(answer)
    ensures !disabled && |InputValue(answer)| <= 1 ==> r.answer == None
  {
    if disabled then NoCall
    else
      var v := InputValue(answer);
      var shorter := if |v| > 0 then v[..|v| - 1] else v;
      Call(NullIfBlank(shorter))
  }

  /** A key press followed by backspace restores the box, with "" as null. */
  lemma KeyThenBackspace(answer: Option<Answer>, key: char)
    ensures var typed := KeyboardClick(false, answer, [key]).answer;
      Backspace(false, typed).answer == NullIfBlank(InputValue(answer))
  {
    var v := InputValue(answer);
    assert (v + [key])[..|v|] == v;
  }
}
