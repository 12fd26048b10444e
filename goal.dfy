/**
 * The goal entity: the six goal types and the table that says which type may parent which,
 * the status lifecycle, the parent/child links and the progress fold.
 */
module GoalEntity {
  import opened Wrappers
  import opened Seqs

  datatype GoalType = Lifetime | LifetimeSub | Yearly | Monthly | Weekly | Daily

  datatype GoalStatus = Active | Completed | Expired | Archived | Failed | Postponed

  datatype GoalError = InvalidParentChildRelation | GoalNotFound(id: int)

  /** Position of a type in the hierarchy, from the widest span (lifetime) to the narrowest (a day). */
  function Level(t: GoalType): nat {
    match t
    case Lifetime => 0
    case LifetimeSub => 1
    case Yearly => 2
    case Monthly => 3
    case Weekly => 4
    case Daily => 5
  }

  /**
   * `isValidParentChildRelation` on the two types. Equivalently: a lifetime goal takes only
   * lifetime sub-goals, and every other type takes exactly the strictly narrower types below the
   * lifetime levels; so a child is always narrower than its parent and a daily goal takes no child.
   */
  function ValidChildType(parent: GoalType, child: GoalType): (r: bool)
    ensures r <==> (parent == Lifetime && child == LifetimeSub) || (parent != Lifetime && Level(parent) < Level(child))
    ensures r ==> Level(parent) < Level(child)
    ensures parent == Daily ==> !r
  {
    match parent
    case Lifetime => child == LifetimeSub
    case LifetimeSub => child == Yearly || child == Monthly || child == Weekly || child == Daily
    case Yearly => child == Monthly || child == Weekly || child == Daily
    case Monthly => child == Weekly || child == Daily
    case Weekly => child == Daily
    case Daily => false
  }

  /** One row of the `goals` table: the persisted columns, with the parent as its id. */
  datatype GoalRecord = GoalRecord(
    id: int,
    title: string,
    description: Option<string>,
    goalType: GoalType,
    status: GoalStatus,
    parentId: Option<int>,
    createdAt: Option<int>,
    updatedAt: Option<int>,
    dueDate: Option<int>,
    completedAt: Option<int>,
    isCompleted: bool,
    priority: int,
    reminderEnabled: bool,
    reminderFrequency: Option<string>)

  function GoalId(g: GoalRecord): int {
    g.id
  }

  /** The completion flag, the status and the completion time agree. */
  predicate CompletionConsistent(g: GoalRecord) {
    g.isCompleted == (g.status == Completed) && g.completedAt.Some? == g.isCompleted
  }

  /** `b` differs from `a` at most in the completion flag, the status and the completion time. */
  predicate SameExceptCompletion(a: GoalRecord, b: GoalRecord) {
    a.(isCompleted := b.isCompleted, status := b.status, completedAt := b.completedAt) == b
  }

  /** The row after `markAsCompleted` at time `now`. */
  function MarkedCompleted(g: GoalRecord, now: int): (r: GoalRecord)
    ensures CompletionConsistent(r) && SameExceptCompletion(g, r)
    ensures r.status == Completed && r.completedAt == Some(now)
  {
    g.(isCompleted := true, status := Completed, completedAt := Some(now))
  }

  /** The row after `markAsIncomplete`, whatever its status was. */
  function MarkedIncomplete(g: GoalRecord): (r: GoalRecord)
    ensures CompletionConsistent(r) && SameExceptCompletion(g, r)
    ensures r.status == Active && r.completedAt == None
  {
    g.(isCompleted := false, status := Active, completedAt := None)
  }

  /** Completing and then un-completing a consistent active goal gives back the goal. */
  lemma CompleteThenIncomplete(g: GoalRecord, now: int)
    requires CompletionConsistent(g) && g.status == Active
    ensures MarkedIncomplete(MarkedCompleted(g, now)) == g
  {
  }

  /**
   * The progress fold shared by the entity and the service: a leaf is 100 when it is done and 0
   * otherwise; a goal with children is the share of done children, times 100.
   */
  function Progress(selfDone: bool, childDone: seq<bool>): (r: real)
    ensures 0.0 <= r <= 100.0
    ensures childDone == [] ==> (r == 100.0 <==> selfDone) && (r == 0.0 <==> !selfDone)
    ensures childDone != [] ==> (r == 100.0 <==> forall i :: 0 <= i < |childDone| ==> childDone[i])
    ensures childDone != [] ==> (r == 0.0 <==> forall i :: 0 <= i < |childDone| ==> !childDone[i])
    ensures childDone != [] ==> r == Share(Count(childDone, Done), |childDone|)
  {
    if childDone == [] then
      if selfDone then 100.0 else 0.0
    else
      DoneShare(childDone)
  }

  /** The share of set flags in a non-empty list, as a percentage. */
  function DoneShare(childDone: seq<bool>): (r: real)
    requires childDone != []
    ensures 0.0 <= r <= 100.0
    ensures r == 100.0 <==> forall i :: 0 <= i < |childDone| ==> childDone[i]
    ensures r == 0.0 <==> forall i :: 0 <= i < |childDone| ==> !childDone[i]
    ensures r == Share(Count(childDone, Done), |childDone|)
  {
    CountDone(childDone);
    Share(Count(childDone, Done), |childDone|)
  }

  /** The percentage `c / n * 100` of a part `c` of a non-empty whole `n`. */
  function Share(c: int, n: int): (r: real)
    requires 0 <= c <= n && 0 < n
    ensures 0.0 <= r <= 100.0
    ensures r == 100.0 <==> c == n
    ensures r == 0.0 <==> c == 0
    ensures r * (n as real) == (c as real) * 100.0
  {
    var q := (c as real) / (n as real);
    assert q * (n as real) == c as real;
    assert (q * 100.0) * (n as real) == (q * (n as real)) * 100.0;
    assert 0.0 <= q;
    assert q == 1.0 ==> c as real == n as real;
    q * 100.0
  }

  function Done(b: bool): bool {
    b
  }

  /** One done child of two gives exactly 50, whatever the parent's own flag. */
  lemma HalfDoneIsFifty(selfDone: bool)
    ensures Progress(selfDone, [true, false]) == 50.0
  {
    assert Count([true, false], Done) == 1 by {
      assert [true, false] == [true] + [false];
      CountAppend([true], false, Done);
      assert [true] == [] + [true];
      CountAppend([], true, Done);
    }
    assert Share(1, 2) * 2.0 == 100.0;
  }

  /** All flags are set exactly when every one counts, and none is set exactly when none counts. */
  lemma CountDone(flags: seq<bool>)
    ensures Count(flags, Done) == |flags| <==> forall i :: 0 <= i < |flags| ==> flags[i]
    ensures Count(flags, Done) == 0 <==> forall i :: 0 <= i < |flags| ==> !flags[i]
  {
    assert forall i :: 0 <= i < |flags| ==> Done(flags[i]) == flags[i];
  }

  /** The undefined entity transitions `markAsExpired` and `archive`, taken as parameters. */
  datatype Transitions = Transitions(markAsExpired: GoalRecord -> GoalRecord, archive: GoalRecord -> GoalRecord)

  /** A transition changes a goal's columns but never its primary key. */
  ghost predicate KeepsIds(tr: Transitions) {
    forall g :: tr.markAsExpired(g).id == g.id && tr.archive(g).id == g.id
  }

  /** The `isCompleted` flag of each goal of a list. */
  function CompletedFlags(gs: seq<Goal>): (r: seq<bool>)
    reads set g | g in gs
    ensures |r| == |gs|
    ensures forall i :: 0 <= i < |gs| ==> r[i] == gs[i].isCompleted
  {
    seq(|gs|, i reads set g | g in gs requires 0 <= i < |gs| => gs[i].isCompleted)
  }

  /** A goal object, whose methods update its fields and its links in place. */
  class Goal {
    var id: int
    var title: string
    var description: Option<string>
    var goalType: GoalType
    var status: GoalStatus
    var parentGoal: Goal?
    var subGoals: seq<Goal>
    var createdAt: Option<int>
    var updatedAt: Option<int>
    var dueDate: Option<int>
    var completedAt: Option<int>
    var isCompleted: bool
    var priority: int
    var reminderEnabled: bool
    var reminderFrequency: Option<string>

    /** A goal built with the builder defaults. */
    constructor(id: int, title: string, goalType: GoalType)
      ensures this.id == id && this.title == title && this.goalType == goalType
      ensures status == Active && !isCompleted && completedAt.None?
      ensures priority == 1 && !reminderEnabled && reminderFrequency.None?
      ensures subGoals == [] && parentGoal == null
      ensures description.None? && dueDate.None? && createdAt.None? && updatedAt.None?
    {
      this.id := id;
      this.title := title;
      this.goalType := goalType;
      description := None;
      status := Active;
      parentGoal := null;
      subGoals := [];
      createdAt := None;
      updatedAt := None;
      dueDate := None;
      completedAt := None;
      isCompleted := false;
      priority := 1;
      reminderEnabled := false;
      reminderFrequency := None;
    }

    /** The row this object is persisted as. */
    function Record(): GoalRecord
      reads this, parentGoal
    {
      GoalRecord(id, title, description, goalType, status,
        if parentGoal == null then None else Some(parentGoal.id),
        createdAt, updatedAt, dueDate, completedAt, isCompleted, priority, reminderEnabled, reminderFrequency)
    }

    /** Not attached to any parent and of a year-or-narrower type. */
    function IsIndependentGoal(): (r: bool)
      reads this
      ensures r <==> parentGoal == null && Level(goalType) >= Level(Yearly)
      ensures goalType == Lifetime || goalType == LifetimeSub ==> !r
    {
      parentGoal == null && (goalType == Yearly || goalType == Monthly || goalType == Weekly || goalType == Daily)
    }

    /** Attach `child` when the type table allows it; otherwise fail and change nothing. */
    method AddSubGoal(child: Goal) returns (o: Outcome<GoalError>)
      modifies this`subGoals, child`parentGoal
      ensures ValidChildType(goalType, child.goalType) ==>
        o == Pass && subGoals == old(subGoals) + [child] && child.parentGoal == this
      ensures !ValidChildType(goalType, child.goalType) ==>
        o == Fail(InvalidParentChildRelation) && subGoals == old(subGoals) && child.parentGoal == old(child.parentGoal)
    {
      if ValidChildType(goalType, child.goalType) {
        subGoals := subGoals + [child];
        child.parentGoal := this;
        o := Pass;
      } else {
        o := Fail(InvalidParentChildRelation);
      }
    }

    /** Detach `child`: drop its first occurrence from the children and clear its parent. */
    method RemoveSubGoal(child: Goal)
      modifies this`subGoals, child`parentGoal
      ensures subGoals == RemoveFirst(old(subGoals), child)
      ensures child.parentGoal == null
    {
      subGoals := RemoveFirst(subGoals, child);
      child.parentGoal := null;
    }

    method MarkAsCompleted(now: int)
      modifies this`isCompleted, this`status, this`completedAt
      ensures isCompleted && status == Completed && completedAt == Some(now)
      ensures Record() == MarkedCompleted(old(Record()), now)
    {
      isCompleted := true;
      status := Completed;
      completedAt := Some(now);
    }

    method MarkAsIncomplete()
      modifies this`isCompleted, this`status, this`completedAt
      ensures !isCompleted && status == Active && completedAt == None
      ensures Record() == MarkedIncomplete(old(Record()))
    {
      isCompleted := false;
      status := Active;
      completedAt := None;
    }

    /** `getProgressPercentage`, exactly, over the children's `isCompleted` flags. */
    function ProgressPercentage(): (r: real)
      reads this, set g | g in subGoals
      ensures 0.0 <= r <= 100.0
      ensures subGoals == [] ==> r == if isCompleted then 100.0 else 0.0
      ensures subGoals != [] ==> (r == 100.0 <==> forall i :: 0 <= i < |subGoals| ==> subGoals[i].isCompleted)
      ensures subGoals != [] ==> (r == 0.0 <==> forall i :: 0 <= i < |subGoals| ==> !subGoals[i].isCompleted)
      ensures subGoals != [] ==> r == Share(Count(CompletedFlags(subGoals), Done), |subGoals|)
    {
      Progress(isCompleted, CompletedFlags(subGoals))
    }
  }
}
