/**
 * The progress ledger and spaced-repetition scheduler of
 * src/stores/useProgressStore.ts. Every action is a pure function from the
 * current state to the next one; the clock is the parameter `now`
 * (milliseconds), and a calendar day is `now / DayMs`, the UTC date.
 */
module Progress {
  import opened Common
  import opened Types

  const Version: string := "1.0.0"
  const DayMs: int := 86_400_000

  /** Days until the next review, indexed by bucket. */
  const Intervals: seq<int> := [0, 1, 2, 4, 7]

  /**
   * The initial state. Its `lastActive` is read once, when the store module
   * loads, so a reset restores that instant and not the time of the reset.
   */
  function Initial(loadTime: int): ProgressState {
    ProgressState(Version, 0, 1, 0, loadTime, map[], map[], [], Settings(true, System, true))
  }

  /** `calculateLevel`: one level per hundred XP, starting at 1. */
  function Level(xp: int): (level: int)
    ensures (level - 1) * 100 <= xp < level * 100
  {
    xp / 100 + 1
  }

  lemma LevelMonotone(x: int, y: int)
    requires x <= y
    ensures Level(x) <= Level(y)
  {
  }

  /** `calculateSrsBucket`: one step up on recall, one step down otherwise, within 0..4. */
  function NextBucket(b: Bucket, recalled: bool): (r: Bucket)
    ensures recalled ==> b <= r <= b + 1 && (r == b <==> b == 4)
    ensures !recalled ==> b - 1 <= r <= b && (r == b <==> b == 0)
  {
    if recalled then (if b + 1 < 4 then b + 1 else 4)
    else (if b - 1 > 0 then b - 1 else 0)
  }

  /** The review interval of a bucket, in days. */
  function OffsetDays(b: Bucket): (d: int)
    ensures 0 <= d <= 7
    ensures d == 0 <==> b == 0
  {
    Intervals[b]
  }

  /** Higher buckets are reviewed strictly later. */
  lemma OffsetStrictlyIncreasing(b: Bucket, c: Bucket)
    requires b < c
    ensures OffsetDays(b) < OffsetDays(c)
  {
  }

  /** `calculateSrsDueDate`: now plus the bucket's interval. */
  function DueDate(b: Bucket, now: int): (due: int)
    ensures due >= now && (due == now <==> b == 0)
  {
    now + OffsetDays(b) * DayMs
  }

  /** The bucket after a sequence of review outcomes. */
  function Replay(b: Bucket, outcomes: seq<bool>): Bucket
    decreases |outcomes|
  {
    if outcomes == [] then b else Replay(NextBucket(b, outcomes[0]), outcomes[1..])
  }

  function Min(x: int, y: int): int { if x <= y then x else y }
  function Max(x: int, y: int): int { if x >= y then x else y }

  /** k recalls in a row climb k buckets, stopping at 4. */
  lemma {:induction false} RecallsClimb(b: Bucket, outcomes: seq<bool>)
    requires forall i :: 0 <= i < |outcomes| ==> outcomes[i]
    ensures Replay(b, outcomes) == Min(4, b + |outcomes|)
    decreases |outcomes|
  {
    if outcomes != [] {
      RecallsClimb(NextBucket(b, true), outcomes[1..]);
    }
  }

  /** k lapses in a row drop k buckets, stopping at 0. */
  lemma {:induction false} LapsesDrop(b: Bucket, outcomes: seq<bool>)
    requires forall i :: 0 <= i < |outcomes| ==> !outcomes[i]
    ensures Replay(b, outcomes) == Max(0, b - |outcomes|)
    decreases |outcomes|
  {
    if outcomes != [] {
      LapsesDrop(NextBucket(b, false), outcomes[1..]);
    }
  }

  /** The bucket moves by at most one per outcome, whatever the sequence. */
  lemma {:induction false} ReplayMovesSlowly(b: Bucket, outcomes: seq<bool>)
    ensures b - |outcomes| <= Replay(b, outcomes) <= b + |outcomes|
    decreases |outcomes|
  {
    if outcomes != [] {
      ReplayMovesSlowly(NextBucket(b, outcomes[0]), outcomes[1..]);
    }
  }

  /** `addXp`: adds to XP and re-derives the level; nothing else changes. */
  function AddXp(st: ProgressState, amount: int): (r: ProgressState)
    ensures r.xp == st.xp + amount && r.level == Level(r.xp)
    ensures r.(xp := st.xp, level := st.level) == st
  {
    var xp := st.xp + amount;
    st.(xp := xp, level := Level(xp))
  }

  /** A non-negative award never lowers the level. */
  lemma AddXpNeverLowersLevel(st: ProgressState, amount: int)
    requires amount >= 0 && st.level == Level(st.xp)
    ensures AddXp(st, amount).level >= st.level
  {
    LevelMonotone(st.xp, st.xp + amount);
  }

  /** `completeLesson`: upserts the lesson's record, adds its XP and stamps the time. */
  function CompleteLesson(st: ProgressState, result: LessonResult, now: int): (r: ProgressState)
    ensures r.completedLessons.Keys == st.completedLessons.Keys + {result.lessonId}
    ensures r.completedLessons[result.lessonId] == Completion(result.completedAt, result.score)
    ensures forall id :: id in st.completedLessons && id != result.lessonId ==>
      r.completedLessons[id] == st.completedLessons[id]
    ensures r.xp == st.xp + result.xpEarned && r.level == Level(r.xp) && r.lastActive == now
    ensures r.(completedLessons := st.completedLessons, xp := st.xp, level := st.level, lastActive := st.lastActive) == st
  {
    var xp := st.xp + result.xpEarned;
    st.(completedLessons := st.completedLessons[result.lessonId := Completion(result.completedAt, result.score)],
        xp := xp, level := Level(xp), lastActive := now)
  }

  /** Completing a lesson adds at most one key; replaying it adds none. */
  lemma CompleteLessonGrowsByAtMostOne(st: ProgressState, result: LessonResult, now: int)
    ensures |CompleteLesson(st, result, now).completedLessons.Keys| <= |st.completedLessons.Keys| + 1
    ensures result.lessonId in st.completedLessons ==>
      |CompleteLesson(st, result, now).completedLessons.Keys| == |st.completedLessons.Keys|
  {
    var keys := st.completedLessons.Keys + {result.lessonId};
    if result.lessonId in st.completedLessons {
      assert keys == st.completedLessons.Keys;
    } else {
      assert keys == st.completedLessons.Keys + {result.lessonId};
    }
  }

  function Day(t: int): int {
    t / DayMs
  }

  /** `updateStreak`: same day keeps the streak, the day after extends it, any other gap restarts it. */
  function UpdateStreak(st: ProgressState, now: int): (r: ProgressState)
    ensures Day(st.lastActive) == Day(now) ==> r.streakDays == st.streakDays
    ensures Day(st.lastActive) == Day(now) - 1 ==> r.streakDays == st.streakDays + 1
    ensures Day(st.lastActive) != Day(now) && Day(st.lastActive) != Day(now) - 1 ==> r.streakDays == 1
    ensures r.lastActive == now
    ensures r.(streakDays := st.streakDays, lastActive := st.lastActive) == st
  {
    var today := Day(now);
    var last := Day(st.lastActive);
    var yesterday := Day(now - DayMs);
    var streak := if last == today then st.streakDays
                  else if last == yesterday then st.streakDays + 1
                  else 1;
    st.(streakDays := streak, lastActive := now)
  }

  /** Activity on consecutive days counts every day once; more activity on the same day adds nothing. */
  lemma StreakSameDayTwice(st: ProgressState, t1: int, t2: int)
    requires Day(t1) == Day(t2)
    ensures UpdateStreak(UpdateStreak(st, t1), t2).streakDays == UpdateStreak(st, t1).streakDays
  {
  }

  /** `updateSrsItem`: a missing item counts as bucket 0; only `srs[itemId]` is written. */
  function UpdateSrsItem(st: ProgressState, itemId: string, recalled: bool, now: int): (r: ProgressState)
    ensures r.srs.Keys == st.srs.Keys + {itemId}
    ensures var before := if itemId in st.srs then st.srs[itemId].bucket else 0;
      && r.srs[itemId].bucket == NextBucket(before, recalled)
      && r.srs[itemId].due == now + OffsetDays(r.srs[itemId].bucket) * DayMs
    ensures forall id :: id in st.srs && id != itemId ==> r.srs[id] == st.srs[id]
    ensures r.(srs := st.srs) == st
  {
    var current := if itemId in st.srs then st.srs[itemId] else SrsItem(0, now);
    var bucket := NextBucket(current.bucket, recalled);
    st.(srs := st.srs[itemId := SrsItem(bucket, DueDate(bucket, now))])
  }

  /** `unlockBadge`: appends the id unless it is already there. */
  function UnlockBadge(st: ProgressState, id: string): (r: ProgressState)
    ensures id in r.badges
    ensures id in st.badges ==> r == st
    ensures id !in st.badges ==> r.badges == st.badges + [id]
    ensures r.(badges := st.badges) == st
  {
    if id in st.badges then st else st.(badges := st.badges + [id])
  }

  predicate NoDuplicates(xs: seq<string>) {
    forall i, j :: 0 <= i < j < |xs| ==> xs[i] != xs[j]
  }

  lemma UnlockBadgeIdempotent(st: ProgressState, id: string)
    ensures UnlockBadge(UnlockBadge(st, id), id) == UnlockBadge(st, id)
  {
  }

  lemma UnlockBadgeKeepsUnique(st: ProgressState, id: string)
    requires NoDuplicates(st.badges)
    ensures NoDuplicates(UnlockBadge(st, id).badges)
  {
  }

  function UpdateTheme(st: ProgressState, theme: Theme): (r: ProgressState)
    ensures r.settings.theme == theme
    ensures r.(settings := st.settings) == st
    ensures r.settings.(theme := st.settings.theme) == st.settings
  {
    st.(settings := st.settings.(theme := theme))
  }

  function ToggleSound(st: ProgressState): (r: ProgressState)
    ensures r.settings.soundEnabled != st.settings.soundEnabled
    ensures r.(settings := st.settings) == st
    ensures r.settings.(soundEnabled := st.settings.soundEnabled) == st.settings
  {
    st.(settings := st.settings.(soundEnabled := !st.settings.soundEnabled))
  }

  function ToggleHaptics(st: ProgressState): (r: ProgressState)
    ensures r.settings.haptics != st.settings.haptics
    ensures r.(settings := st.settings) == st
    ensures r.settings.(haptics := st.settings.haptics) == st.settings
  {
    st.(settings := st.settings.(haptics := !st.settings.haptics))
  }

  lemma TogglesAreInvolutions(st: ProgressState)
    ensures ToggleSound(ToggleSound(st)) == st
    ensures ToggleHaptics(ToggleHaptics(st)) == st
  {
  }

  /** `resetProgress`: the state the store started with, whatever came before. */
  function ResetProgress(st: ProgressState, loadTime: int): (r: ProgressState)
    ensures r.xp == 0 && r.level == Level(r.xp) && r.streakDays == 0
    ensures r.completedLessons == map[] && r.srs == map[] && r.badges == []
    ensures r.version == Version && r.lastActive == loadTime
    ensures r.settings == Settings(true, System, true)
  {
    Initial(loadTime)
  }

  /** What `exportData` serialises: the state plus the export time. */
  datatype Snapshot = Snapshot(state: ProgressState, exportedAt: int)

  /**
   * A parsed import file. A field the file lacks is `None`; the store's
   * `set` merges, so such a field keeps its current value.
   */
  datatype Parsed =
    | Unparseable
    | Parsed(
        version: Option<string>,
        xp: Option<int>,
        level: Option<int>,
        streakDays: Option<int>,
        lastActive: Option<int>,
        completedLessons: Option<map<string, Completion>>,
        srs: Option<map<string, SrsItem>>,
        badges: Option<seq<string>>,
        settings: Option<Settings>,
        exportedAt: Option<int>)

  function ExportData(st: ProgressState, now: int): Snapshot {
    Snapshot(st, now)
  }

  /** The JSON text of a snapshot, read back: every field present. */
  function Serialize(s: Snapshot): Parsed {
    var st := s.state;
    Parsed(Some(st.version), Some(st.xp), Some(st.level), Some(st.streakDays), Some(st.lastActive),
           Some(st.completedLessons), Some(st.srs), Some(st.badges), Some(st.settings), Some(s.exportedAt))
  }

  /** A field present in the file wins; a missing one keeps the current value. */
  function Or<T>(o: Option<T>, d: T): (r: T)
    ensures o.Some? ==> r == o.value
    ensures o.None? ==> r == d
  {
    if o.Some? then o.value else d
  }

  const ImportError: string := "Failed to import data. Please check the file format."

  /** The gate of `importData`: a truthy `version` and a defined `xp`. */
  predicate Acceptable(p: Parsed) {
    p.Parsed? && p.version.Some? && p.version.value != "" && p.xp.Some?
  }

  /**
   * `importData`: merges an acceptable file into the state with the version
   * forced to the current one; the level is taken from the file, not derived.
   */
  function ImportData(st: ProgressState, p: Parsed): (r: Outcome<ProgressState>)
    ensures r.Ok? <==> Acceptable(p)
    ensures r.Err? ==> r.message == ImportError
    ensures r.Ok? ==>
      && r.value.version == Version
      && r.value.xp == p.xp.value
      && r.value.level == Or(p.level, st.level)
      && r.value.streakDays == Or(p.streakDays, st.streakDays)
      && r.value.lastActive == Or(p.lastActive, st.lastActive)
      && r.value.completedLessons == Or(p.completedLessons, st.completedLessons)
      && r.value.srs == Or(p.srs, st.srs)
      && r.value.badges == Or(p.badges, st.badges)
      && r.value.settings == Or(p.settings, st.settings)
  {
    if Acceptable(p) then
      Ok(ProgressState(
        Version,
        p.xp.value,
        Or(p.level, st.level),
        Or(p.streakDays, st.streakDays),
        Or(p.lastActive, st.lastActive),
        Or(p.completedLessons, st.completedLessons),
        Or(p.srs, st.srs),
        Or(p.badges, st.badges),
        Or(p.settings, st.settings)))
    else Err(ImportError)
  }

  /** The state after an import attempt: a rejected file leaves it untouched. */
  function AfterImport(st: ProgressState, p: Parsed): (r: ProgressState)
    ensures !Acceptable(p) ==> r == st
  {
    var o := ImportData(st, p);
    if o.Ok? then o.value else st
  }

  /** Importing an export restores every field except the version, into any current state. */
  lemma ExportImportRoundTrip(current: ProgressState, st: ProgressState, now: int)
    requires st.version != ""
    ensures ImportData(current, Serialize(ExportData(st, now))) == Ok(st.(version := Version))
  {
  }

  /** The level of an imported file is trusted even when it disagrees with its XP. */
  lemma ImportKeepsStaleLevel(current: ProgressState)
    ensures var p := Parsed(Some("0.9"), Some(250), Some(1), None, None, None, None, None, None, None);
      ImportData(current, p).Ok? && ImportData(current, p).value.level != Level(250)
  {
  }
}
