/** The review queue of src/pages/PracticePage.tsx. */
module Practice {
  import opened Types
  import Progress

  /** The items whose due time has come: due at or before `now`. */
  function DueItems(srs: map<string, SrsItem>, now: int): (r: map<string, SrsItem>)
    ensures r.Keys <= srs.Keys
    ensures forall id :: id in r ==> r[id] == srs[id] && r[id].due <= now
    ensures forall id :: id in srs && srs[id].due <= now ==> id in r
  {
    map id | id in srs && srs[id].due <= now :: srs[id]
  }

  /** What the page shows. */
  datatype View = View(dueCount: nat, lessonsCompleted: nat, reviewCard: bool, extraPractice: bool)

  function Render(st: ProgressState, now: int): (v: View)
    ensures v.reviewCard <==> exists id :: id in st.srs && st.srs[id].due <= now
    ensures v.extraPractice <==> st.completedLessons != map[]
    ensures v.dueCount == |DueItems(st.srs, now).Keys| && v.dueCount <= |st.srs.Keys|
    ensures v.reviewCard <==> v.dueCount > 0
    ensures v.lessonsCompleted == |st.completedLessons.Keys|
  {
    var due := DueItems(st.srs, now);
    assert |due.Keys| <= |st.srs.Keys| by { SubsetCard(due.Keys, st.srs.Keys); }
    assert due != map[] ==> exists id :: id in due;
    View(|due.Keys|, |st.completedLessons.Keys|, |due.Keys| > 0, |st.completedLessons.Keys| > 0)
  }

  lemma SubsetCard(a: set<string>, b: set<string>)
    requires a <= b
    ensures |a| <= |b|
  {
    assert b == a + (b - a);
  }

  /** An item that is due stays due as time passes. */
  lemma DueStaysDue(srs: map<string, SrsItem>, t1: int, t2: int)
    requires t1 <= t2
    ensures DueItems(srs, t1).Keys <= DueItems(srs, t2).Keys
  {
  }

  /** Right after a review, the item is in the queue exactly when the review left it in bucket 0. */
  lemma JustReviewedIsDueIffBucketZero(st: ProgressState, itemId: string, recalled: bool, now: int)
    ensures var after := Progress.UpdateSrsItem(st, itemId, recalled, now);
      itemId in DueItems(after.srs, now) <==> after.srs[itemId].bucket == 0
  {
    var after := Progress.UpdateSrsItem(st, itemId, recalled, now);
  }

  /** A recalled item leaves the queue for at least a day. */
  lemma RecalledLeavesQueue(st: ProgressState, itemId: string, now: int, later: int)
    requires later < now + Progress.DayMs
    ensures itemId !in DueItems(Progress.UpdateSrsItem(st, itemId, true, now).srs, later)
  {
  }
}
