/**
 * The scheduled expiration passes: find the goals a query returns, apply the entity transition to
 * each, and save the list in one `saveAll`. The scheduled passes skip the save when the query
 * returns nothing; the manual passes always save and report how many goals they processed.
 */
module GoalExpiration {
  import opened Wrappers
  import opened Seqs
  import Tables
  import opened Clock
  import opened GoalEntity
  import opened GoalRepository

  /** The table after applying `f` to exactly the rows that satisfy `p`, in place. */
  function TransformMatches(rows: seq<GoalRecord>, p: GoalRecord -> bool, f: GoalRecord -> GoalRecord): (r: seq<GoalRecord>)
    ensures |r| == |rows|
    ensures forall i :: 0 <= i < |rows| && p(rows[i]) ==> r[i] == f(rows[i])
    ensures forall i :: 0 <= i < |rows| && !p(rows[i]) ==> r[i] == rows[i]
  {
    Map(rows, (g: GoalRecord) => if p(g) then f(g) else g)
  }

  /**
   * When the transition takes every goal out of the query (an expired goal is no longer
   * returned as expiring), a second pass finds nothing and changes nothing.
   */
  lemma {:induction false} SecondPassChangesNothing(rows: seq<GoalRecord>, p: GoalRecord -> bool, f: GoalRecord -> GoalRecord)
    requires forall g :: !p(f(g))
    ensures Filter(TransformMatches(rows, p, f), p) == []
    ensures TransformMatches(TransformMatches(rows, p, f), p, f) == TransformMatches(rows, p, f)
  {
    var once := TransformMatches(rows, p, f);
    assert forall i :: 0 <= i < |once| ==> (p(once[i]) ==> p(rows[i]) && once[i] == f(rows[i]));
    assert forall i :: 0 <= i < |once| ==> !p(once[i]);
    FilterCount(once, p);
  }

  /** The transition applied to each goal of `found`, in order (the `forEach`). */
  method TransformEach(found: seq<GoalRecord>, f: GoalRecord -> GoalRecord) returns (batch: seq<GoalRecord>)
    ensures batch == Map(found, f)
  {
    batch := [];
    var i := 0;
    while i < |found|
      invariant 0 <= i <= |found|
      invariant |batch| == i
      invariant forall j :: 0 <= j < i ==> batch[j] == f(found[j])
    {
      batch := batch + [f(found[i])];
      i := i + 1;
    }
  }

  /**
   * One pass: query the rows satisfying `p`, transform each with `f`, `saveAll` the list, and
   * return its size. The table ends with exactly the matching rows transformed.
   */
  method TransformAndSaveAll(store: GoalStore, p: GoalRecord -> bool, f: GoalRecord -> GoalRecord) returns (count: nat)
    requires store.Valid()
    requires forall g :: f(g).id == g.id
    modifies store
    ensures store.Valid()
    ensures store.rows == TransformMatches(old(store.rows), p, f)
    ensures store.writes == old(store.writes) + [SavedAll(Map(Filter(old(store.rows), p), f))]
    ensures count == Count(old(store.rows), p)
  {
    var found := Filter(store.rows, p);
    var batch := TransformEach(found, f);
    forall j | 0 <= j < |batch| ensures batch[j].id < store.nextId {
      assert found[j] in store.rows;
      var m :| 0 <= m < |store.rows| && store.rows[m] == found[j];
    }
    Tables.SaveAllOfTransformedMatches(store.rows, GoalId, p, f);
    ghost var expected := TransformMatches(store.rows, p, f);
    store.SaveAll(batch);
    assert store.rows == expected;
    FilterCount(old(store.rows), p);
    count := |found|;
  }

  /** Whether a goal is returned by `findExpiredGoals(now)`. */
  function ExpiredAt(q: ExpiryQueries, now: int): GoalRecord -> bool {
    (g: GoalRecord) => q.expired(g, now)
  }

  /** Whether a goal is returned by `findExpiredGoalsForArchiving(threshold)`. */
  function ArchivableAt(q: ExpiryQueries, threshold: int): GoalRecord -> bool {
    (g: GoalRecord) => q.expiredForArchiving(g, threshold)
  }

  /** The archive threshold: 24 hours before `now`. */
  function ArchiveThreshold(now: int): (t: int)
    ensures t + SecondsPerDay == now
  {
    PlusHours(now, -24)
  }

  /**
   * `checkAndExpireGoals`: mark every goal the expired query returns as expired and save them all
   * at once; when the query returns nothing, save nothing.
   */
  method CheckAndExpireGoals(store: GoalStore, q: ExpiryQueries, tr: Transitions, now: int)
    requires store.Valid() && KeepsIds(tr)
    modifies store
    ensures store.Valid()
    ensures store.rows == TransformMatches(old(store.rows), ExpiredAt(q, now), tr.markAsExpired)
    ensures FindExpiredGoals(q, old(store.rows), now) == [] ==> store.writes == old(store.writes)
    ensures FindExpiredGoals(q, old(store.rows), now) != [] ==>
      store.writes == old(store.writes) + [SavedAll(Map(FindExpiredGoals(q, old(store.rows), now), tr.markAsExpired))]
  {
    var expired := FindExpiredGoals(q, store.rows, now);
    if |expired| == 0 {
      assert forall i :: 0 <= i < |store.rows| ==> !q.expired(store.rows[i], now) by {
        forall i | 0 <= i < |store.rows| ensures !q.expired(store.rows[i], now) {
          assert store.rows[i] in store.rows;
        }
      }
      return;
    }
    var _ := TransformAndSaveAll(store, ExpiredAt(q, now), tr.markAsExpired);
  }

  /**
   * `archiveExpiredGoals`: archive every goal the archiving query returns for the threshold
   * `now − 24h`, saved at once; when it returns nothing, save nothing.
   */
  method ArchiveExpiredGoals(store: GoalStore, q: ExpiryQueries, tr: Transitions, now: int)
    requires store.Valid() && KeepsIds(tr)
    modifies store
    ensures store.Valid()
    ensures store.rows == TransformMatches(old(store.rows), ArchivableAt(q, now - SecondsPerDay), tr.archive)
    ensures FindExpiredGoalsForArchiving(q, old(store.rows), now - SecondsPerDay) == [] ==> store.writes == old(store.writes)
    ensures FindExpiredGoalsForArchiving(q, old(store.rows), now - SecondsPerDay) != [] ==>
      store.writes == old(store.writes) +
        [SavedAll(Map(FindExpiredGoalsForArchiving(q, old(store.rows), now - SecondsPerDay), tr.archive))]
  {
    var threshold := ArchiveThreshold(now);
    var toArchive := FindExpiredGoalsForArchiving(q, store.rows, threshold);
    if |toArchive| == 0 {
      assert forall i :: 0 <= i < |store.rows| ==> !q.expiredForArchiving(store.rows[i], threshold) by {
        forall i | 0 <= i < |store.rows| ensures !q.expiredForArchiving(store.rows[i], threshold) {
          assert store.rows[i] in store.rows;
        }
      }
      return;
    }
    var _ := TransformAndSaveAll(store, ArchivableAt(q, threshold), tr.archive);
  }

  /** `getExpiringSoonGoals(hours)`: the goals the store reports for the window `(now, now + hours)`. */
  function GetExpiringSoonGoals(q: ExpiryQueries, rows: seq<GoalRecord>, now: int, hours: int): (r: seq<GoalRecord>)
    ensures forall g :: g in r <==> g in rows && q.expiringSoon(g, now, now + hours * SecondsPerHour)
  {
    FindExpiringSoonGoals(q, rows, now, PlusHours(now, hours))
  }

  /**
   * `manualExpireCheck`: like the scheduled pass but always calls `saveAll`, and returns how many
   * goals the query matched.
   */
  method ManualExpireCheck(store: GoalStore, q: ExpiryQueries, tr: Transitions, now: int) returns (count: nat)
    requires store.Valid() && KeepsIds(tr)
    modifies store
    ensures store.Valid()
    ensures store.rows == TransformMatches(old(store.rows), ExpiredAt(q, now), tr.markAsExpired)
    ensures store.writes == old(store.writes) + [SavedAll(Map(FindExpiredGoals(q, old(store.rows), now), tr.markAsExpired))]
    ensures count == |FindExpiredGoals(q, old(store.rows), now)|
    ensures count == Count(old(store.rows), ExpiredAt(q, now))
  {
    count := TransformAndSaveAll(store, ExpiredAt(q, now), tr.markAsExpired);
  }

  /** `manualArchiveCheck`: the archive pass that always saves and returns the number archived. */
  method ManualArchiveCheck(store: GoalStore, q: ExpiryQueries, tr: Transitions, now: int) returns (count: nat)
    requires store.Valid() && KeepsIds(tr)
    modifies store
    ensures store.Valid()
    ensures store.rows == TransformMatches(old(store.rows), ArchivableAt(q, now - SecondsPerDay), tr.archive)
    ensures store.writes == old(store.writes) +
      [SavedAll(Map(FindExpiredGoalsForArchiving(q, old(store.rows), now - SecondsPerDay), tr.archive))]
    ensures count == |FindExpiredGoalsForArchiving(q, old(store.rows), now - SecondsPerDay)|
    ensures count == Count(old(store.rows), ArchivableAt(q, now - SecondsPerDay))
  {
    count := TransformAndSaveAll(store, ArchivableAt(q, ArchiveThreshold(now)), tr.archive);
  }
}
