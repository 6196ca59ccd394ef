/**
 * The read side of src/stores/useContentStore.ts: the id-keyed lookup maps
 * built from the loaded arrays, the getters, and prerequisite unlocking.
 */
module Content {
  import opened Common
  import opened Types

  /** The position of the last item whose key is `k`. */
  predicate IsLastWithKey<T>(items: seq<T>, key: T -> string, k: string, i: int) {
    0 <= i < |items| && key(items[i]) == k && forall j :: i < j < |items| ==> key(items[j]) != k
  }

  /**
   * `items.reduce((acc, x) => { acc[x.id] = x; return acc; }, {})`: every id is
   * a key, and a later item with the same id overwrites an earlier one.
   */
  function IndexById<T>(items: seq<T>, key: T -> string): (m: map<string, T>)
    ensures forall i :: 0 <= i < |items| ==> key(items[i]) in m
    ensures forall k :: k in m ==> exists i :: 0 <= i < |items| && key(items[i]) == k
    decreases |items|
  {
    if items == [] then map[]
    else
      var n := |items| - 1;
      assert forall i :: 0 <= i < n ==> items[..n][i] == items[i];
      IndexById(items[..n], key)[key(items[n]) := items[n]]
  }

  /** The value kept for an id is the last item declared with it. */
  lemma {:induction false} IndexByIdLastWins<T>(items: seq<T>, key: T -> string, i: int)
    requires 0 <= i < |items|
    requires IsLastWithKey(items, key, key(items[i]), i)
    ensures IndexById(items, key)[key(items[i])] == items[i]
    decreases |items|
  {
    var n := |items| - 1;
    if i < n {
      assert items[..n][i] == items[i];
      assert IsLastWithKey(items[..n], key, key(items[i]), i);
      IndexByIdLastWins(items[..n], key, i);
    }
  }

  function UnitIndex(units: seq<Unit>): map<string, Unit> {
    IndexById(units, (u: Unit) => u.id)
  }

  function LessonIndex(lessons: seq<Lesson>): map<string, Lesson> {
    IndexById(lessons, (l: Lesson) => l.id)
  }

  /** `getUnit`, `getLesson`, `getVocabItem`, `getLetter`: the record, or null for an unknown id. */
  function Lookup<T>(m: map<string, T>, id: string): (r: Option<T>)
    ensures r.Some? <==> id in m
    ensures r.Some? ==> r.value == m[id]
  {
    if id in m then Some(m[id]) else None
  }

  /** Looking a loaded lesson up by its own id finds the last lesson declared with that id. */
  lemma LookupFindsLastDeclared(lessons: seq<Lesson>, i: int)
    requires 0 <= i < |lessons|
    requires IsLastWithKey(lessons, (l: Lesson) => l.id, lessons[i].id, i)
    ensures Lookup(LessonIndex(lessons), lessons[i].id) == Some(lessons[i])
  {
    IndexByIdLastWins(lessons, (l: Lesson) => l.id, i);
  }

  predicate SortedByOrder(us: seq<Unit>) {
    forall i, j :: 0 <= i < j < |us| ==> us[i].order <= us[j].order
  }

  /** Places `u` before the first unit of a larger or equal order. */
  function Insert(u: Unit, s: seq<Unit>): (r: seq<Unit>)
    requires SortedByOrder(s)
    ensures SortedByOrder(r)
    ensures multiset(r) == multiset(s) + multiset{u}
    ensures |r| == |s| + 1
  {
    if s == [] || u.order <= s[0].order then [u] + s
    else
      var rest := Insert(u, s[1..]);
      assert s == [s[0]] + s[1..];
      BoundedByParts(s[0].order, u, s[1..], rest);
      assert multiset([s[0]] + rest) == multiset{s[0]} + multiset(rest);
      [s[0]] + rest
  }

  /** A rearrangement of `t` plus `u` keeps any lower bound on the orders of both. */
  lemma BoundedByParts(b: int, u: Unit, t: seq<Unit>, r: seq<Unit>)
    requires multiset(r) == multiset(t) + multiset{u}
    requires b <= u.order && forall k :: 0 <= k < |t| ==> b <= t[k].order
    ensures forall k :: 0 <= k < |r| ==> b <= r[k].order
  {
    forall k | 0 <= k < |r|
      ensures b <= r[k].order
    {
      assert r[k] in multiset(r);
      if r[k] != u {
        assert r[k] in multiset(t);
        var m :| 0 <= m < |t| && t[m] == r[k];
      }
    }
  }

  /** `Object.values(units).sort((a, b) => a.order - b.order)`: a stable sort by `order`. */
  function SortByOrder(us: seq<Unit>): (r: seq<Unit>)
    ensures SortedByOrder(r)
    ensures multiset(r) == multiset(us)
    ensures |r| == |us|
  {
    if us == [] then []
    else
      assert us == [us[0]] + us[1..];
      Insert(us[0], SortByOrder(us[1..]))
  }

  /** A missing list of prerequisites, or one whose every id is completed. */
  predicate PrerequisitesMet(l: Lesson, completed: set<string>) {
    l.prerequisites.None? || forall p :: p in l.prerequisites.value ==> p in completed
  }

  /** The ids of a unit that name a loaded lesson, in unit order. */
  function Existing(ids: seq<string>, lessons: map<string, Lesson>): (r: seq<string>)
    ensures forall j :: 0 <= j < |r| ==> r[j] in lessons && r[j] in ids
  {
    if ids == [] then []
    else if ids[0] in lessons then [ids[0]] + Existing(ids[1..], lessons)
    else Existing(ids[1..], lessons)
  }

  /**
   * The inner loop of `getUnlockedLessons` for one unit: missing lessons are
   * skipped; the first lesson with an unmet prerequisite ends the unit. The
   * result is exactly the longest prefix of the unit's loaded lessons whose
   * prerequisites are all met.
   */
  function UnitUnlocked(ids: seq<string>, lessons: map<string, Lesson>, completed: set<string>): (r: seq<string>)
    ensures r <= Existing(ids, lessons)
    ensures forall j :: 0 <= j < |r| ==> PrerequisitesMet(lessons[r[j]], completed)
    ensures |r| < |Existing(ids, lessons)| ==>
      !PrerequisitesMet(lessons[Existing(ids, lessons)[|r|]], completed)
  {
    if ids == [] then []
    else if ids[0] !in lessons then UnitUnlocked(ids[1..], lessons, completed)
    else if PrerequisitesMet(lessons[ids[0]], completed) then
      [ids[0]] + UnitUnlocked(ids[1..], lessons, completed)
    else []
  }

  function UnlockedIn(sorted: seq<Unit>, lessons: map<string, Lesson>, completed: set<string>): (r: seq<string>)
    ensures forall j :: 0 <= j < |r| ==> r[j] in lessons && PrerequisitesMet(lessons[r[j]], completed)
  {
    if sorted == [] then []
    else UnitUnlocked(sorted[0].lessons, lessons, completed) + UnlockedIn(sorted[1..], lessons, completed)
  }

  /** `getUnlockedLessons(completedLessons)`: units in ascending order, each scanned on its own. */
  function UnlockedLessons(units: seq<Unit>, lessons: map<string, Lesson>, completed: map<string, Completion>): (r: seq<string>)
    ensures forall j :: 0 <= j < |r| ==> r[j] in lessons && PrerequisitesMet(lessons[r[j]], completed.Keys)
  {
    UnlockedIn(SortByOrder(units), lessons, completed.Keys)
  }

  /** A blocked lesson stops only its own unit: every unit contributes its unlocked prefix. */
  lemma {:induction false} EveryUnitContributes(sorted: seq<Unit>, lessons: map<string, Lesson>, completed: set<string>, k: int, id: string)
    requires 0 <= k < |sorted|
    requires id in UnitUnlocked(sorted[k].lessons, lessons, completed)
    ensures id in UnlockedIn(sorted, lessons, completed)
    decreases |sorted|
  {
    if k > 0 {
      EveryUnitContributes(sorted[1..], lessons, completed, k - 1, id);
    }
  }

  lemma {:induction false} PrerequisitesMonotone(l: Lesson, c1: set<string>, c2: set<string>)
    requires c1 <= c2 && PrerequisitesMet(l, c1)
    ensures PrerequisitesMet(l, c2)
  {
  }

  /** Completing more lessons only lengthens a unit's unlocked prefix. */
  lemma {:induction false} UnitUnlockedMonotone(ids: seq<string>, lessons: map<string, Lesson>, c1: set<string>, c2: set<string>)
    requires c1 <= c2
    ensures UnitUnlocked(ids, lessons, c1) <= UnitUnlocked(ids, lessons, c2)
    decreases |ids|
  {
    if ids != [] {
      UnitUnlockedMonotone(ids[1..], lessons, c1, c2);
      if ids[0] in lessons && PrerequisitesMet(lessons[ids[0]], c1) {
        PrerequisitesMonotone(lessons[ids[0]], c1, c2);
      }
    }
  }

  lemma {:induction false} UnlockedInMonotone(sorted: seq<Unit>, lessons: map<string, Lesson>, c1: set<string>, c2: set<string>, id: string)
    requires c1 <= c2
    requires id in UnlockedIn(sorted, lessons, c1)
    ensures id in UnlockedIn(sorted, lessons, c2)
    decreases |sorted|
  {
    var head1 := UnitUnlocked(sorted[0].lessons, lessons, c1);
    var head2 := UnitUnlocked(sorted[0].lessons, lessons, c2);
    if id in head1 {
      UnitUnlockedMonotone(sorted[0].lessons, lessons, c1, c2);
      assert head1 == head2[..|head1|];
      var j :| 0 <= j < |head1| && head1[j] == id;
      assert head2[j] == id;
    } else {
      UnlockedInMonotone(sorted[1..], lessons, c1, c2, id);
    }
  }

  /** Completing a lesson never locks one that was unlocked. */
  lemma UnlockedLessonsMonotone(units: seq<Unit>, lessons: map<string, Lesson>,
                                done1: map<string, Completion>, done2: map<string, Completion>, id: string)
    requires done1.Keys <= done2.Keys
    requires id in UnlockedLessons(units, lessons, done1)
    ensures id in UnlockedLessons(units, lessons, done2)
  {
    UnlockedInMonotone(SortByOrder(units), lessons, done1.Keys, done2.Keys, id);
  }

  /** An unmet lesson hides the rest of its unit even when their own prerequisites are met. */
  lemma BlockedLessonHidesRestOfUnit()
    ensures var a := Lesson("a", "", "u", Some(["x"]), []);
            var b := Lesson("b", "", "u", None, []);
            UnitUnlocked(["a", "b"], map["a" := a, "b" := b], {}) == []
  {
    var a := Lesson("a", "", "u", Some(["x"]), []);
    assert "x" in a.prerequisites.value;
  }
}
