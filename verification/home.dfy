/** The unit cards of src/pages/HomePage.tsx. */
module Home {
  import opened Common
  import opened Types
  import Content

  /** How many of `ids` have a completion record (a repeated id counts each time, as `filter` does). */
  function CompletedCount(ids: seq<string>, done: map<string, Completion>): (c: nat)
    ensures c <= |ids|
    ensures c == |ids| <==> forall j :: 0 <= j < |ids| ==> ids[j] in done
    ensures c > 0 <==> exists j :: 0 <= j < |ids| && ids[j] in done
    decreases |ids|
  {
    if ids == [] then 0
    else
      var rest := CompletedCount(ids[1..], done);
      assert forall j :: 1 <= j < |ids| ==> ids[j] == ids[1..][j - 1];
      (if ids[0] in done then 1 else 0) + rest
  }

  /** `getUnitProgress`, as an exact percentage: 0 for an unknown or empty unit. */
  function UnitProgress(units: map<string, Unit>, unitId: string, done: map<string, Completion>): (p: real)
    ensures 0.0 <= p <= 100.0
    ensures p == 100.0 <==> (
      && unitId in units && |units[unitId].lessons| > 0
      && forall j :: 0 <= j < |units[unitId].lessons| ==> units[unitId].lessons[j] in done)
    ensures p > 0.0 <==> (
      && unitId in units
      && exists j :: 0 <= j < |units[unitId].lessons| && units[unitId].lessons[j] in done)
  {
    if unitId !in units then 0.0
    else
      var ids := units[unitId].lessons;
      if |ids| > 0 then Percent(CompletedCount(ids, done), |ids|) else 0.0
  }

  /** `(c / n) * 100` in exact arithmetic. */
  function Percent(c: nat, n: nat): (p: real)
    requires 0 < n && c <= n
    ensures 0.0 <= p <= 100.0
    ensures p == 100.0 <==> c == n
    ensures p > 0.0 <==> c > 0
  {
    var p := (100 * c) as real / n as real;
    RatioBounds(100 * c, n);
    p
  }

  /** Multiplying by a positive real keeps a strict order. */
  lemma MulGt(a: real, b: real, k: real)
    requires a > b && k > 0.0
    ensures a * k > b * k
  {
    assert (a - b) * k > 0.0;
  }

  /** Division by a positive real is undone by multiplication. */
  lemma DivMul(x: real, n: real)
    requires n > 0.0
    ensures (x / n) * n == x
  {
  }

  /** Bounds of x / n for 0 <= x <= 100n. */
  lemma RatioBounds(x: nat, n: nat)
    requires 0 < n && x <= 100 * n
    ensures 0.0 <= x as real / n as real <= 100.0
    ensures x as real / n as real == 100.0 <==> x == 100 * n
    ensures x as real / n as real > 0.0 <==> x > 0
  {
    var q := x as real / n as real;
    var m := n as real;
    DivMul(x as real, m);
    assert q * m == x as real;
    if q > 100.0 {
      MulGt(q, 100.0, m);
      assert false;
    }
    if q < 0.0 {
      MulGt(0.0, q, m);
      assert false;
    }
    if x > 0 && q <= 0.0 {
      assert false;
    }
    if x == 100 * n && q != 100.0 {
      if q < 100.0 { MulGt(100.0, q, m); }
      assert false;
    }
  }

  /** The position of the first id without a completion record. */
  function FirstOpen(ids: seq<string>, done: map<string, Completion>): (r: Option<nat>)
    ensures r.None? <==> forall j :: 0 <= j < |ids| ==> ids[j] in done
    ensures r.Some? ==> (
      && r.value < |ids| && ids[r.value] !in done
      && forall j :: 0 <= j < r.value ==> ids[j] in done)
    decreases |ids|
  {
    if ids == [] then None
    else if ids[0] !in done then Some(0)
    else
      match FirstOpen(ids[1..], done)
      case None => None
      case Some(k) => Some(k + 1)
  }

  /**
   * `getFirstIncompleteLesson`: the first uncompleted lesson of a known unit.
   * The trailing `|| null` also turns an empty id into no lesson.
   */
  function FirstIncompleteLesson(units: map<string, Unit>, unitId: string, done: map<string, Completion>): (r: Option<string>)
    ensures r.Some? ==> (
      && r.value != "" && unitId in units && r.value !in done
      && exists k :: (
        && 0 <= k < |units[unitId].lessons| && units[unitId].lessons[k] == r.value
        && forall j :: 0 <= j < k ==> units[unitId].lessons[j] in done))
    ensures r.None? <==> unitId !in units || match FirstOpen(units[unitId].lessons, done)
      case None => true
      case Some(k) => units[unitId].lessons[k] == ""
  {
    if unitId !in units then None
    else
      var ids := units[unitId].lessons;
      match FirstOpen(ids, done)
      case None => None
      case Some(k) => if ids[k] == "" then None else Some(ids[k])
  }

  datatype Status = Completed | InProgress | NotStarted
  datatype Action = Open(lessonId: string, started: bool) | CompleteMark | NoAction

  /** The status label of a card. */
  function StatusOf(p: real): (s: Status)
    ensures s == Completed <==> p == 100.0
    ensures s == NotStarted <==> !(p > 0.0)
  {
    if p == 100.0 then Completed else if p > 0.0 then InProgress else NotStarted
  }

  /** A card's action: a link to the next lesson, else a completion mark for a finished unit. */
  function ActionOf(units: map<string, Unit>, unitId: string, done: map<string, Completion>): (a: Action)
    ensures a.Open? <==> FirstIncompleteLesson(units, unitId, done).Some?
    ensures a.Open? ==> (
      && a.lessonId == FirstIncompleteLesson(units, unitId, done).value
      && (a.started <==> UnitProgress(units, unitId, done) > 0.0))
    ensures a == CompleteMark <==>
      FirstIncompleteLesson(units, unitId, done).None? && UnitProgress(units, unitId, done) == 100.0
  {
    var p := UnitProgress(units, unitId, done);
    match FirstIncompleteLesson(units, unitId, done)
    case Some(id) => Open(id, p > 0.0)
    case None => if p == 100.0 then CompleteMark else NoAction
  }

  /** What a unit card shows: its progress, its status label and its action. */
  datatype UnitCard = UnitCard(unitId: string, progress: real, status: Status, action: Action)

  function CardOf(units: map<string, Unit>, u: Unit, done: map<string, Completion>): UnitCard {
    var p := UnitProgress(units, u.id, done);
    UnitCard(u.id, p, StatusOf(p), ActionOf(units, u.id, done))
  }

  /**
   * The unit cards: `Object.values(units)`, given here as `values` since the
   * key order of a JavaScript object is not modelled, sorted by `order` and
   * rendered one card per unit.
   */
  function Cards(values: seq<Unit>, units: map<string, Unit>, done: map<string, Completion>): (cards: seq<UnitCard>)
    ensures |cards| == |values|
    ensures exists sorted: seq<Unit> ::
      && Content.SortedByOrder(sorted) && multiset(sorted) == multiset(values) && |sorted| == |cards|
      && forall k :: 0 <= k < |cards| ==> cards[k] == CardOf(units, sorted[k], done)
  {
    var sorted := Content.SortByOrder(values);
    var cards := seq(|sorted|, k requires 0 <= k < |sorted| => CardOf(units, sorted[k], done));
    assert forall k :: 0 <= k < |cards| ==> cards[k] == CardOf(units, sorted[k], done);
    cards
  }

  /** A known, non-empty unit shows the completion mark exactly when all of its lessons are done. */
  lemma CompleteMarkIffAllDone(units: map<string, Unit>, unitId: string, done: map<string, Completion>)
    requires unitId in units && |units[unitId].lessons| > 0
    ensures ActionOf(units, unitId, done) == CompleteMark <==>
      forall j :: 0 <= j < |units[unitId].lessons| ==> units[unitId].lessons[j] in done
  {
  }

  /** An unfinished unit whose next lesson has an empty id shows neither a link nor a mark. */
  lemma EmptyIdHidesAction()
    ensures var units := map["u" := Unit("u", "", 1, [""])];
      ActionOf(units, "u", map[]) == NoAction
  {
    var units := map["u" := Unit("u", "", 1, [""])];
    assert FirstOpen(units["u"].lessons, map[]) == Some(0);
  }

  /**
   * The link follows the unit's list and ignores prerequisites: it can point
   * at a lesson the unlocked-lessons query does not return.
   */
  lemma LinkIgnoresPrerequisites()
    ensures var b := Lesson("b", "", "u", Some(["x"]), []);
      var unit := Unit("u", "", 1, ["b"]);
      && ActionOf(map["u" := unit], "u", map[]) == Open("b", false)
      && "b" !in Content.UnlockedLessons([unit], map["b" := b], map[])
  {
    var b := Lesson("b", "", "u", Some(["x"]), []);
    var unit := Unit("u", "", 1, ["b"]);
    assert FirstOpen(unit.lessons, map[]) == Some(0);
    assert !Content.PrerequisitesMet(b, {}) by {
      assert "x" in b.prerequisites.value;
    }
  }
}
