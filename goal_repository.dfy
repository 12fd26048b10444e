/**
 * The `goals` table and the queries declared on it. Each JPQL query is a filter over the rows;
 * a comparison with a null column is never true, so a row with that column null is not returned.
 */
module GoalRepository {
  import opened Wrappers
  import opened Seqs
  import Tables
  import opened Clock
  import opened GoalEntity

  /** A write the repository performs, in the order performed. */
  datatype GoalWrite = Saved(goal: GoalRecord) | SavedAll(goals: seq<GoalRecord>) | Deleted(id: int)

  /** The table: its rows, the next identity value, and the log of writes made to it. */
  class GoalStore {
    var rows: seq<GoalRecord>
    var nextId: int
    var writes: seq<GoalWrite>

    /** Ids are unique and below the next identity value. */
    ghost predicate Valid()
      reads this
    {
      Tables.UniqueKeys(rows, GoalId) && forall i :: 0 <= i < |rows| ==> rows[i].id < nextId
    }

    constructor()
      ensures Valid() && rows == [] && writes == []
    {
      rows := [];
      nextId := 1;
      writes := [];
    }

    /** `findById`. */
    function FindById(id: int): (r: Option<GoalRecord>)
      reads this
      ensures r.Some? ==> r.value in rows && r.value.id == id
      ensures r.None? <==> forall i :: 0 <= i < |rows| ==> rows[i].id != id
    {
      Tables.Find(rows, GoalId, id)
    }

    /** `save` of a row that carries an id already handed out. */
    method Save(g: GoalRecord)
      requires Valid() && g.id < nextId
      modifies this
      ensures Valid() && nextId == old(nextId)
      ensures rows == Tables.Save(old(rows), GoalId, g)
      ensures writes == old(writes) + [Saved(g)]
    {
      Tables.SaveKeepsKeysUnique(rows, GoalId, g);
      rows := Tables.Save(rows, GoalId, g);
      writes := writes + [Saved(g)];
    }

    /** `saveAll`: one write of the whole batch. */
    method SaveAll(batch: seq<GoalRecord>)
      requires Valid() && forall j :: 0 <= j < |batch| ==> batch[j].id < nextId
      modifies this
      ensures Valid() && nextId == old(nextId)
      ensures rows == Tables.SaveAll(old(rows), GoalId, batch)
      ensures writes == old(writes) + [SavedAll(batch)]
    {
      Tables.SaveAllKeepsKeysUnique(rows, GoalId, batch);
      Tables.SaveAllKeysFrom(rows, GoalId, batch);
      var saved := Tables.SaveAll(rows, GoalId, batch);
      forall i | 0 <= i < |saved| ensures saved[i].id < nextId {
        var y := saved[i];
        assert y in saved;
        if y in rows {
          var j :| 0 <= j < |rows| && rows[j] == y;
        } else {
          var j :| 0 <= j < |batch| && batch[j] == y;
        }
      }
      rows := saved;
      writes := writes + [SavedAll(batch)];
    }

    /** `save` of a new row: the identity column assigns the next id. */
    method Insert(g: GoalRecord) returns (saved: GoalRecord)
      requires Valid()
      modifies this
      ensures Valid() && nextId == old(nextId) + 1
      ensures saved == g.(id := old(nextId))
      ensures rows == old(rows) + [saved]
      ensures writes == old(writes) + [Saved(saved)]
    {
      saved := g.(id := nextId);
      rows := rows + [saved];
      nextId := nextId + 1;
      writes := writes + [Saved(saved)];
    }

    /** `delete`. */
    method Delete(id: int)
      requires Valid()
      modifies this
      ensures Valid() && nextId == old(nextId)
      ensures rows == Tables.Delete(old(rows), GoalId, id)
      ensures writes == old(writes) + [Deleted(id)]
    {
      Tables.DeleteRemovesKey(rows, GoalId, id);
      rows := Tables.Delete(rows, GoalId, id);
      writes := writes + [Deleted(id)];
    }
  }

  /** `findByParentGoalIsNull`: the root goals. */
  function FindByParentGoalIsNull(rows: seq<GoalRecord>): (r: seq<GoalRecord>)
    ensures forall g :: g in r <==> g in rows && g.parentId.None?
  {
    Filter(rows, (g: GoalRecord) => g.parentId.None?)
  }

  /** `findByType`. */
  function FindByType(rows: seq<GoalRecord>, t: GoalType): (r: seq<GoalRecord>)
    ensures forall g :: g in r <==> g in rows && g.goalType == t
  {
    Filter(rows, (g: GoalRecord) => g.goalType == t)
  }

  /** `findByStatus`. */
  function FindByStatus(rows: seq<GoalRecord>, s: GoalStatus): (r: seq<GoalRecord>)
    ensures forall g :: g in r <==> g in rows && g.status == s
  {
    Filter(rows, (g: GoalRecord) => g.status == s)
  }

  /** `findByParentGoalId`: the children of the goal with id `parentId`. */
  function FindByParentGoalId(rows: seq<GoalRecord>, parentId: int): (r: seq<GoalRecord>)
    ensures forall g :: g in r <==> g in rows && g.parentId == Some(parentId)
  {
    Filter(rows, (g: GoalRecord) => g.parentId == Some(parentId))
  }

  /** `findOverdueGoals`: active goals whose due date is before `t`. */
  function FindOverdueGoals(rows: seq<GoalRecord>, t: int): (r: seq<GoalRecord>)
    ensures forall g :: g in r <==> g in rows && g.dueDate.Some? && g.dueDate.value < t && g.status == Active
  {
    Filter(rows, (g: GoalRecord) => g.dueDate.Some? && g.dueDate.value < t && g.status == Active)
  }

  /** `findGoalsDueToday`: active goals due on the calendar day of `t`. */
  function FindGoalsDueToday(rows: seq<GoalRecord>, t: int): (r: seq<GoalRecord>)
    ensures forall g :: g in r <==> (g in rows && g.status == Active && g.dueDate.Some? &&
      StartOfDay(t) <= g.dueDate.value < StartOfDay(t) + SecondsPerDay)
  {
    assert forall d :: SameDay(d, t) <==> StartOfDay(t) <= d < StartOfDay(t) + SecondsPerDay by {
      forall d ensures SameDay(d, t) <==> StartOfDay(t) <= d < StartOfDay(t) + SecondsPerDay {
        SameDayIsDayWindow(d, t);
      }
    }
    Filter(rows, (g: GoalRecord) => g.dueDate.Some? && SameDay(g.dueDate.value, t) && g.status == Active)
  }

  /** A goal belongs on the "today" list of the window `[s, e)`. */
  predicate InTodayWindow(g: GoalRecord, s: int, e: int) {
    (g.goalType == Daily && g.createdAt.Some? && s <= g.createdAt.value < e)
    || (g.dueDate.Some? && s <= g.dueDate.value < e)
    || (g.status == Completed && g.completedAt.Some? && s <= g.completedAt.value < e)
  }

  /** `findTodayGoals`: daily goals created, goals due, and goals completed in `[s, e)`. */
  function FindTodayGoals(rows: seq<GoalRecord>, s: int, e: int): (r: seq<GoalRecord>)
    ensures forall g :: g in r <==> g in rows && InTodayWindow(g, s, e)
  {
    Filter(rows, (g: GoalRecord) => InTodayWindow(g, s, e))
  }

  /** `findCompletedGoalsBetween`: completed goals with `s <= completedAt <= e` (both ends included). */
  function FindCompletedGoalsBetween(rows: seq<GoalRecord>, s: int, e: int): (r: seq<GoalRecord>)
    ensures forall g :: g in r <==> (g in rows && g.status == Completed && g.completedAt.Some? &&
      s <= g.completedAt.value <= e)
  {
    Filter(rows, (g: GoalRecord) => g.status == Completed && g.completedAt.Some? && s <= g.completedAt.value <= e)
  }

  /**
   * The expiry queries the expiration service calls but the repository does not define:
   * which goals are expired at `now`, which are ready to archive at a threshold, and which
   * expire within a window. Each is taken as a row predicate.
   */
  datatype ExpiryQueries = ExpiryQueries(
    expired: (GoalRecord, int) -> bool,
    expiredForArchiving: (GoalRecord, int) -> bool,
    expiringSoon: (GoalRecord, int, int) -> bool)

  function FindExpiredGoals(q: ExpiryQueries, rows: seq<GoalRecord>, now: int): (r: seq<GoalRecord>)
    ensures forall g :: g in r <==> g in rows && q.expired(g, now)
    ensures |r| == Count(rows, (g: GoalRecord) => q.expired(g, now))
  {
    FilterCount(rows, (g: GoalRecord) => q.expired(g, now));
    Filter(rows, (g: GoalRecord) => q.expired(g, now))
  }

  function FindExpiredGoalsForArchiving(q: ExpiryQueries, rows: seq<GoalRecord>, threshold: int): (r: seq<GoalRecord>)
    ensures forall g :: g in r <==> g in rows && q.expiredForArchiving(g, threshold)
    ensures |r| == Count(rows, (g: GoalRecord) => q.expiredForArchiving(g, threshold))
  {
    FilterCount(rows, (g: GoalRecord) => q.expiredForArchiving(g, threshold));
    Filter(rows, (g: GoalRecord) => q.expiredForArchiving(g, threshold))
  }

  function FindExpiringSoonGoals(q: ExpiryQueries, rows: seq<GoalRecord>, from: int, to: int): (r: seq<GoalRecord>)
    ensures forall g :: g in r <==> g in rows && q.expiringSoon(g, from, to)
  {
    Filter(rows, (g: GoalRecord) => q.expiringSoon(g, from, to))
  }
}
