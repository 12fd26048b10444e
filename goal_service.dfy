/**
 * The goal service: lookup, creation, partial update, deletion and the complete / un-complete
 * transitions over the `goals` table, plus the sub-type list, the progress computation and the
 * "today" window.
 */
module GoalService {
  import opened Wrappers
  import opened Seqs
  import Tables
  import opened Clock
  import opened GoalEntity
  import opened GoalRepository

  /** `getGoalById`: the row, or `GoalNotFoundException`. */
  function GetGoalById(store: GoalStore, id: int): (r: Result<GoalRecord, GoalError>)
    reads store
    ensures r.Success? ==> r.value in store.rows && r.value.id == id
    ensures r.Failure? <==> forall i :: 0 <= i < |store.rows| ==> store.rows[i].id != id
    ensures r.Failure? ==> r.error == GoalNotFound(id)
  {
    match store.FindById(id)
    case Some(g) => Success(g)
    case None => Failure(GoalNotFound(id))
  }

  /** `createGoal`: stamp the creation time, force the status to ACTIVE, insert. */
  method CreateGoal(store: GoalStore, draft: GoalRecord, now: int) returns (saved: GoalRecord)
    requires store.Valid()
    modifies store
    ensures store.Valid()
    ensures saved.status == Active && saved.createdAt == Some(now) && saved.id == old(store.nextId)
    ensures saved == draft.(id := saved.id, status := Active, createdAt := Some(now))
    ensures store.rows == old(store.rows) + [saved]
    ensures store.writes == old(store.writes) + [Saved(saved)]
  {
    saved := store.Insert(draft.(createdAt := Some(now), status := Active));
  }

  /**
   * The fields a client may change: a null (absent) value leaves the field as it is, and so
   * does a priority of 0 (the value an absent priority arrives as).
   */
  datatype GoalUpdate = GoalUpdate(
    title: Option<string>,
    description: Option<string>,
    priority: int,
    dueDate: Option<int>,
    reminderFrequency: Option<string>)

  /** The row after applying `u` at time `now`. */
  function ApplyUpdate(g: GoalRecord, u: GoalUpdate, now: int): (r: GoalRecord)
    ensures r.title == u.title.GetOr(g.title)
    ensures r.description == if u.description.Some? then u.description else g.description
    ensures r.priority == if u.priority != 0 then u.priority else g.priority
    ensures r.dueDate == if u.dueDate.Some? then u.dueDate else g.dueDate
    ensures r.reminderFrequency == if u.reminderFrequency.Some? then u.reminderFrequency else g.reminderFrequency
    ensures r.updatedAt == Some(now)
    ensures r.(title := g.title, description := g.description, priority := g.priority, dueDate := g.dueDate,
               reminderFrequency := g.reminderFrequency, updatedAt := g.updatedAt) == g
  {
    var g := if u.title.Some? then g.(title := u.title.value) else g;
    var g := if u.description.Some? then g.(description := u.description) else g;
    var g := if u.priority != 0 then g.(priority := u.priority) else g;
    var g := if u.dueDate.Some? then g.(dueDate := u.dueDate) else g;
    var g := if u.reminderFrequency.Some? then g.(reminderFrequency := u.reminderFrequency) else g;
    g.(updatedAt := Some(now))
  }

  /** Applying the same update twice is the same as applying it once. */
  lemma ApplyUpdateIdempotent(g: GoalRecord, u: GoalUpdate, now: int)
    ensures ApplyUpdate(ApplyUpdate(g, u, now), u, now) == ApplyUpdate(g, u, now)
  {
    var once := ApplyUpdate(g, u, now);
    var twice := ApplyUpdate(once, u, now);
    assert twice.title == once.title;
  }

  /** An update with every field absent only refreshes the modification time. */
  lemma EmptyUpdateTouchesOnlyUpdatedAt(g: GoalRecord, now: int)
    ensures ApplyUpdate(g, GoalUpdate(None, None, 0, None, None), now) == g.(updatedAt := Some(now))
  {
    var r := ApplyUpdate(g, GoalUpdate(None, None, 0, None, None), now);
    assert r.title == g.title;
  }

  /**
   * Look the goal up, replace its row by `f` of it, and save. A missing id fails with
   * `GoalNotFound` and writes nothing. Every other id keeps its row.
   */
  method UpdateRow(store: GoalStore, id: int, f: GoalRecord -> GoalRecord) returns (r: Result<GoalRecord, GoalError>)
    requires store.Valid()
    requires forall g :: f(g).id == g.id
    modifies store
    ensures store.Valid()
    ensures old(store.FindById(id)).None? ==>
      r == Failure(GoalNotFound(id)) && store.rows == old(store.rows) && store.writes == old(store.writes)
    ensures old(store.FindById(id)).Some? ==>
      var g := f(old(store.FindById(id)).value);
      r == Success(g) && store.rows == Tables.Save(old(store.rows), GoalId, g) &&
      store.writes == old(store.writes) + [Saved(g)] && store.FindById(id) == Some(g)
    ensures forall k :: k != id ==> store.FindById(k) == old(store.FindById(k))
  {
    var found := GetGoalById(store, id);
    if found.Failure? {
      return found;
    }
    var g := f(found.value);
    assert g.id < store.nextId by {
      var i :| 0 <= i < |store.rows| && store.rows[i] == found.value;
    }
    Tables.FindAfterSave(store.rows, GoalId, GoalId, g);
    store.Save(g);
    r := Success(g);
  }

  /** `updateGoal`: a partial update of the goal `id`. */
  method UpdateGoal(store: GoalStore, id: int, u: GoalUpdate, now: int) returns (r: Result<GoalRecord, GoalError>)
    requires store.Valid()
    modifies store
    ensures store.Valid()
    ensures old(store.FindById(id)).None? ==>
      r == Failure(GoalNotFound(id)) && store.rows == old(store.rows) && store.writes == old(store.writes)
    ensures old(store.FindById(id)).Some? ==>
      var g := ApplyUpdate(old(store.FindById(id)).value, u, now);
      r == Success(g) && store.FindById(id) == Some(g) && store.writes == old(store.writes) + [Saved(g)] &&
      g.goalType == old(store.FindById(id)).value.goalType && g.status == old(store.FindById(id)).value.status &&
      g.parentId == old(store.FindById(id)).value.parentId && g.isCompleted == old(store.FindById(id)).value.isCompleted &&
      g.reminderEnabled == old(store.FindById(id)).value.reminderEnabled
    ensures forall k :: k != id ==> store.FindById(k) == old(store.FindById(k))
  {
    r := UpdateRow(store, id, g => ApplyUpdate(g, u, now));
  }

  /** `completeGoal`: mark the goal `id` completed at `now`. */
  method CompleteGoal(store: GoalStore, id: int, now: int) returns (r: Result<GoalRecord, GoalError>)
    requires store.Valid()
    modifies store
    ensures store.Valid()
    ensures old(store.FindById(id)).None? ==>
      r == Failure(GoalNotFound(id)) && store.rows == old(store.rows) && store.writes == old(store.writes)
    ensures old(store.FindById(id)).Some? ==>
      var g := MarkedCompleted(old(store.FindById(id)).value, now);
      r == Success(g) && store.FindById(id) == Some(g) && store.writes == old(store.writes) + [Saved(g)]
    ensures forall k :: k != id ==> store.FindById(k) == old(store.FindById(k))
  {
    r := UpdateRow(store, id, g => MarkedCompleted(g, now));
  }

  /** `uncompleteGoal`: put the goal `id` back to ACTIVE with no completion time. */
  method UncompleteGoal(store: GoalStore, id: int) returns (r: Result<GoalRecord, GoalError>)
    requires store.Valid()
    modifies store
    ensures store.Valid()
    ensures old(store.FindById(id)).None? ==>
      r == Failure(GoalNotFound(id)) && store.rows == old(store.rows) && store.writes == old(store.writes)
    ensures old(store.FindById(id)).Some? ==>
      var g := MarkedIncomplete(old(store.FindById(id)).value);
      r == Success(g) && store.FindById(id) == Some(g) && store.writes == old(store.writes) + [Saved(g)]
    ensures forall k :: k != id ==> store.FindById(k) == old(store.FindById(k))
  {
    r := UpdateRow(store, id, MarkedIncomplete);
  }

  /** `deleteGoal`: remove the row of goal `id`, or fail with `GoalNotFound` and write nothing. */
  method DeleteGoal(store: GoalStore, id: int) returns (o: Outcome<GoalError>)
    requires store.Valid()
    modifies store
    ensures store.Valid()
    ensures old(store.FindById(id)).None? ==>
      o == Fail(GoalNotFound(id)) && store.rows == old(store.rows) && store.writes == old(store.writes)
    ensures old(store.FindById(id)).Some? ==>
      o == Pass && store.FindById(id).None? && |store.rows| == |old(store.rows)| - 1 &&
      store.writes == old(store.writes) + [Deleted(id)]
    ensures forall k :: k != id ==> store.FindById(k) == old(store.FindById(k))
  {
    var found := GetGoalById(store, id);
    if found.Failure? {
      return Fail(found.error);
    }
    Tables.FindAfterDelete(store.rows, GoalId, id);
    store.Delete(id);
    o := Pass;
  }

  /** `getAvailableSubTypes`: the child types a goal of type `p` accepts, widest first. */
  function AvailableSubTypes(p: GoalType): (r: seq<GoalType>)
    ensures forall c :: c in r <==> ValidChildType(p, c)
    ensures forall i, j :: 0 <= i < j < |r| ==> Level(r[i]) < Level(r[j])
  {
    match p
    case Lifetime => [LifetimeSub]
    case LifetimeSub => [Yearly, Monthly, Weekly, Daily]
    case Yearly => [Monthly, Weekly, Daily]
    case Monthly => [Weekly, Daily]
    case Weekly => [Daily]
    case Daily => []
  }

  function IsCompletedStatus(g: GoalRecord): bool {
    g.status == Completed
  }

  /**
   * `calculateProgressPercentage`: 0 for no goal; for a goal with children in the table, the
   * share of children whose status is COMPLETED, times 100; for a leaf, 100 or 0 by its own status.
   */
  function CalculateProgressPercentage(rows: seq<GoalRecord>, goal: Option<GoalRecord>): (r: real)
    ensures 0.0 <= r <= 100.0
    ensures goal.None? ==> r == 0.0
    ensures goal.Some? && FindByParentGoalId(rows, goal.value.id) == [] ==>
      r == if goal.value.status == Completed then 100.0 else 0.0
    ensures goal.Some? && FindByParentGoalId(rows, goal.value.id) != [] ==>
      (r == 100.0 <==> forall c :: c in rows && c.parentId == Some(goal.value.id) ==> c.status == Completed)
    ensures goal.Some? && FindByParentGoalId(rows, goal.value.id) != [] ==>
      (r == 0.0 <==> forall c :: c in rows && c.parentId == Some(goal.value.id) ==> c.status != Completed)
    ensures goal.Some? && FindByParentGoalId(rows, goal.value.id) != [] ==>
      r == Share(Count(Map(FindByParentGoalId(rows, goal.value.id), IsCompletedStatus), Done),
                 |FindByParentGoalId(rows, goal.value.id)|)
  {
    match goal
    case None => 0.0
    case Some(g) =>
      var children := FindByParentGoalId(rows, g.id);
      var done := Map(children, IsCompletedStatus);
      assert forall c :: c in children ==> exists i :: 0 <= i < |children| && children[i] == c && done[i] == (c.status == Completed);
      Progress(g.status == Completed, done)
  }

  /** A goal whose two children in the table are, in order, COMPLETED and not COMPLETED is at 50. */
  lemma HalfCompletedChildrenIsFifty(rows: seq<GoalRecord>, g: GoalRecord)
    requires Map(FindByParentGoalId(rows, g.id), IsCompletedStatus) == [true, false]
    ensures CalculateProgressPercentage(rows, Some(g)) == 50.0
  {
    HalfDoneIsFifty(g.status == Completed);
  }

  /**
   * When every row keeps `isCompleted` in step with its status, the service's progress over the
   * table equals the entity's progress over the same children.
   */
  lemma ProgressAgreesWithEntity(rows: seq<GoalRecord>, g: GoalRecord)
    requires CompletionConsistent(g)
    requires forall i :: 0 <= i < |rows| ==> CompletionConsistent(rows[i])
    ensures CalculateProgressPercentage(rows, Some(g)) ==
      Progress(g.isCompleted, Map(FindByParentGoalId(rows, g.id), (c: GoalRecord) => c.isCompleted))
  {
    var children := FindByParentGoalId(rows, g.id);
    forall i | 0 <= i < |children| ensures CompletionConsistent(children[i]) {
      assert children[i] in rows;
    }
    assert Map(children, IsCompletedStatus) == Map(children, (c: GoalRecord) => c.isCompleted);
  }

  /**
   * `getTodayGoals`: the today query over the day of `now`, `[midnight, midnight + 1 day)`. A goal
   * is returned iff it is a daily goal created today, is due today (whatever its status), or was
   * completed today.
   */
  function TodayGoals(rows: seq<GoalRecord>, now: int): (r: seq<GoalRecord>)
    ensures forall g :: g in FindGoalsDueToday(rows, now) ==> g in r
    ensures forall g :: g in rows && g.status == Completed && g.completedAt.Some? && SameDay(g.completedAt.value, now) ==> g in r
    ensures forall g :: g in r <==> (g in rows &&
      ((g.goalType == Daily && g.createdAt.Some? && SameDay(g.createdAt.value, now))
       || (g.dueDate.Some? && SameDay(g.dueDate.value, now))
       || (g.status == Completed && g.completedAt.Some? && SameDay(g.completedAt.value, now))))
  {
    var s := StartOfDay(now);
    assert forall d :: SameDay(d, now) <==> s <= d < s + SecondsPerDay by {
      forall d ensures SameDay(d, now) <==> s <= d < s + SecondsPerDay {
        SameDayIsDayWindow(d, now);
      }
    }
    FindTodayGoals(rows, s, s + SecondsPerDay)
  }
}
