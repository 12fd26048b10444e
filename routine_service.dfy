/**
 * The routine service over the `routines` and `routine_completions` tables: lookup, validated
 * creation, partial update, the activity toggle, deletion, and the once-a-day completion check
 * with its "today" query.
 */
module RoutineService {
  import opened Wrappers
  import opened Seqs
  import Tables
  import opened Clock
  import opened RoutineEntity

  /** One row of the `routines` table. */
  datatype RoutineRecord = RoutineRecord(
    id: int,
    title: Option<string>,
    description: Option<string>,
    frequency: Option<RoutineFrequency>,
    isActive: bool)

  /** One row of `routine_completions`: the owning routine, the insertion time and the note. */
  datatype CompletionRecord = CompletionRecord(id: int, routineId: int, completedAt: int, note: Option<string>)

  function RoutineId(r: RoutineRecord): int {
    r.id
  }

  function CompletionId(c: CompletionRecord): int {
    c.id
  }

  /** The two tables, each with its next identity value. */
  class RoutineStore {
    var routines: seq<RoutineRecord>
    var completions: seq<CompletionRecord>
    var nextRoutineId: int
    var nextCompletionId: int

    /** In each table the ids are unique and below the next identity value. */
    ghost predicate Valid()
      reads this
    {
      Tables.UniqueKeys(routines, RoutineId) && (forall i :: 0 <= i < |routines| ==> routines[i].id < nextRoutineId) &&
      Tables.UniqueKeys(completions, CompletionId) &&
      (forall i :: 0 <= i < |completions| ==> completions[i].id < nextCompletionId)
    }

    constructor()
      ensures Valid() && routines == [] && completions == []
    {
      routines := [];
      completions := [];
      nextRoutineId := 1;
      nextCompletionId := 1;
    }

    /** `findById` on `routines`. */
    function FindById(id: int): (r: Option<RoutineRecord>)
      reads this
      ensures r.Some? ==> r.value in routines && r.value.id == id
      ensures r.None? <==> forall i :: 0 <= i < |routines| ==> routines[i].id != id
    {
      Tables.Find(routines, RoutineId, id)
    }

    /** `save` of a routine that carries an id already handed out. */
    method SaveRoutine(r: RoutineRecord)
      requires Valid() && r.id < nextRoutineId
      modifies this
      ensures Valid() && nextRoutineId == old(nextRoutineId) && nextCompletionId == old(nextCompletionId)
      ensures routines == Tables.Save(old(routines), RoutineId, r)
      ensures completions == old(completions)
    {
      Tables.SaveKeepsKeysUnique(routines, RoutineId, r);
      var saved := Tables.Save(routines, RoutineId, r);
      forall i | 0 <= i < |saved| ensures saved[i].id < nextRoutineId {
        assert saved[i] in saved;
        if saved[i] != r {
          var j :| 0 <= j < |routines| && routines[j] == saved[i];
        }
      }
      routines := saved;
    }

    /** `save` of a new routine: the identity column assigns the next id. */
    method InsertRoutine(r: RoutineRecord) returns (saved: RoutineRecord)
      requires Valid()
      modifies this
      ensures Valid() && nextRoutineId == old(nextRoutineId) + 1 && nextCompletionId == old(nextCompletionId)
      ensures saved == r.(id := old(nextRoutineId))
      ensures routines == old(routines) + [saved] && completions == old(completions)
    {
      saved := r.(id := nextRoutineId);
      routines := routines + [saved];
      nextRoutineId := nextRoutineId + 1;
    }

    /** `delete` of a routine; the cascade removes its completions with it. */
    method DeleteRoutine(id: int)
      requires Valid()
      modifies this
      ensures Valid() && nextRoutineId == old(nextRoutineId) && nextCompletionId == old(nextCompletionId)
      ensures routines == Tables.Delete(old(routines), RoutineId, id)
      ensures completions == Filter(old(completions), (c: CompletionRecord) => c.routineId != id)
    {
      Tables.DeleteRemovesKey(routines, RoutineId, id);
      Tables.FilterKeepsKeysUnique(completions, CompletionId, (c: CompletionRecord) => c.routineId != id);
      var kept := Filter(completions, (c: CompletionRecord) => c.routineId != id);
      forall i | 0 <= i < |kept| ensures kept[i].id < nextCompletionId {
        assert kept[i] in kept;
        var j :| 0 <= j < |completions| && completions[j] == kept[i];
      }
      var left := Tables.Delete(routines, RoutineId, id);
      forall i | 0 <= i < |left| ensures left[i].id < nextRoutineId {
        assert left[i] in left;
        var j :| 0 <= j < |routines| && routines[j] == left[i];
      }
      routines := left;
      completions := kept;
    }

    /** `save` of a new completion: the next id, and the insertion time as `completedAt`. */
    method InsertCompletion(routineId: int, note: Option<string>, now: int) returns (saved: CompletionRecord)
      requires Valid()
      modifies this
      ensures Valid() && nextCompletionId == old(nextCompletionId) + 1 && nextRoutineId == old(nextRoutineId)
      ensures saved == CompletionRecord(old(nextCompletionId), routineId, now, note)
      ensures completions == old(completions) + [saved] && routines == old(routines)
    {
      saved := CompletionRecord(nextCompletionId, routineId, now, note);
      completions := completions + [saved];
      nextCompletionId := nextCompletionId + 1;
    }

    /** `delete` of a completion. */
    method DeleteCompletion(id: int)
      requires Valid()
      modifies this
      ensures Valid() && nextCompletionId == old(nextCompletionId) && nextRoutineId == old(nextRoutineId)
      ensures completions == Tables.Delete(old(completions), CompletionId, id) && routines == old(routines)
    {
      Tables.DeleteRemovesKey(completions, CompletionId, id);
      var left := Tables.Delete(completions, CompletionId, id);
      forall i | 0 <= i < |left| ensures left[i].id < nextCompletionId {
        assert left[i] in left;
        var j :| 0 <= j < |completions| && completions[j] == left[i];
      }
      completions := left;
    }
  }

  /** `getRoutineById`: the row, or an `IllegalArgumentException` naming the id. */
  function GetRoutineById(store: RoutineStore, id: int): (r: Result<RoutineRecord, RoutineError>)
    reads store
    ensures r.Success? ==> r.value in store.routines && r.value.id == id
    ensures r.Failure? <==> forall i :: 0 <= i < |store.routines| ==> store.routines[i].id != id
    ensures r.Failure? ==> r.error == RoutineNotFound(id)
  {
    match store.FindById(id)
    case Some(r) => Success(r)
    case None => Failure(RoutineNotFound(id))
  }

  /** `getTodayRoutines`, which is `getActiveRoutines`: every active routine. */
  function GetTodayRoutines(routines: seq<RoutineRecord>): (r: seq<RoutineRecord>)
    ensures forall x :: x in r <==> x in routines && x.isActive
  {
    Filter(routines, (x: RoutineRecord) => x.isActive)
  }

  /** `getRoutinesByFrequency`: the active routines of one frequency. */
  function GetRoutinesByFrequency(routines: seq<RoutineRecord>, f: RoutineFrequency): (r: seq<RoutineRecord>)
    ensures forall x :: x in r <==> x in routines && x.isActive && x.frequency == Some(f)
  {
    Filter(routines, (x: RoutineRecord) => x.isActive && x.frequency == Some(f))
  }

  /** `getRoutineCompletions`: every completion of the routine `routineId`. */
  function GetRoutineCompletions(cs: seq<CompletionRecord>, routineId: int): (r: seq<CompletionRecord>)
    ensures forall c :: c in r <==> c in cs && c.routineId == routineId
    ensures |r| <= |cs|
  {
    Filter(cs, (c: CompletionRecord) => c.routineId == routineId)
  }

  /**
   * `getRoutineCompletionsByDateRange`: the completions of `routineId` from midnight of the day of
   * `startDate` to the last instant of the day of `endDate`, both days included.
   */
  function GetRoutineCompletionsByDateRange(cs: seq<CompletionRecord>, routineId: int, startDate: int, endDate: int)
    : (r: seq<CompletionRecord>)
    ensures forall c :: c in r <==>
      c in cs && c.routineId == routineId && StartOfDay(startDate) <= c.completedAt < StartOfDay(endDate) + SecondsPerDay
  {
    Filter(cs, (c: CompletionRecord) =>
      c.routineId == routineId && StartOfDay(startDate) <= c.completedAt < StartOfDay(endDate) + SecondsPerDay)
  }

  /**
   * The range query keeps whole days: a completion of the routine made on the day of `startDate`
   * or on the day of `endDate` is returned, whenever the start day is not after the end day.
   */
  lemma DateRangeKeepsWholeDays(cs: seq<CompletionRecord>, routineId: int, startDate: int, endDate: int, c: CompletionRecord)
    requires c in cs && c.routineId == routineId
    requires StartOfDay(startDate) <= StartOfDay(endDate)
    requires SameDay(c.completedAt, startDate) || SameDay(c.completedAt, endDate)
    ensures c in GetRoutineCompletionsByDateRange(cs, routineId, startDate, endDate)
  {
    SameDayIsDayWindow(c.completedAt, startDate);
    SameDayIsDayWindow(c.completedAt, endDate);
  }

  /** `createRoutine`: validate the fields, then insert; a failed check saves nothing. */
  method CreateRoutine(store: RoutineStore, draft: RoutineRecord) returns (r: Result<RoutineRecord, RoutineError>)
    requires store.Valid()
    modifies store
    ensures store.Valid() && store.completions == old(store.completions)
    ensures CheckFields(draft.title, draft.frequency).Fail? ==>
      r == Failure(CheckFields(draft.title, draft.frequency).error) &&
      store.routines == old(store.routines) && store.nextRoutineId == old(store.nextRoutineId)
    ensures CheckFields(draft.title, draft.frequency).Pass? ==>
      r == Success(draft.(id := old(store.nextRoutineId))) && store.routines == old(store.routines) + [r.value]
  {
    var check := CheckFields(draft.title, draft.frequency);
    if check.Fail? {
      return Failure(check.error);
    }
    var saved := store.InsertRoutine(draft);
    r := Success(saved);
  }

  /** The routine after `updateRoutine`: each non-null new value replaces the old one. */
  function UpdatedRoutine(x: RoutineRecord, title: Option<string>, description: Option<string>,
                          frequency: Option<RoutineFrequency>): (r: RoutineRecord)
    ensures r.id == x.id && r.isActive == x.isActive
    ensures title.Some? ==> r.title == title
    ensures title.None? ==> r.title == x.title
    ensures description.Some? ==> r.description == description
    ensures description.None? ==> r.description == x.description
    ensures frequency.Some? ==> r.frequency == frequency
    ensures frequency.None? ==> r.frequency == x.frequency
  {
    var x := if title.Some? then x.(title := title) else x;
    var x := if description.Some? then x.(description := description) else x;
    if frequency.Some? then x.(frequency := frequency) else x
  }

  /** The same update twice is the update once, and an update with every value null changes nothing. */
  lemma UpdatedRoutineIdempotent(x: RoutineRecord, title: Option<string>, description: Option<string>,
                                 frequency: Option<RoutineFrequency>)
    ensures UpdatedRoutine(UpdatedRoutine(x, title, description, frequency), title, description, frequency) ==
      UpdatedRoutine(x, title, description, frequency)
    ensures UpdatedRoutine(x, None, None, None) == x
  {
  }

  /**
   * `updateRoutine` does not run the field checks: a present title that is blank is stored as
   * it is, so a routine that passed `validate` can fail it after an update.
   */
  lemma UpdateSkipsValidation(x: RoutineRecord)
    requires CheckFields(x.title, x.frequency).Pass?
    ensures CheckFields(UpdatedRoutine(x, Some(" "), None, None).title, x.frequency) == Fail(TitleRequired)
  {
    assert Some(" ").value[0] <= ' ';
  }

  /** The routine after `toggleRoutineActive`. */
  function Toggled(x: RoutineRecord): (r: RoutineRecord)
    ensures r.isActive == !x.isActive
    ensures r.(isActive := x.isActive) == x
  {
    x.(isActive := !x.isActive)
  }

  /** Toggling twice restores the routine. */
  lemma ToggledTwice(x: RoutineRecord)
    ensures Toggled(Toggled(x)) == x
  {
  }

  /**
   * Look the routine up, replace its row by `f` of it, and save. A missing id fails and writes
   * nothing; every other id keeps its row and the completions are untouched.
   */
  method UpdateRoutineRow(store: RoutineStore, id: int, f: RoutineRecord -> RoutineRecord)
    returns (r: Result<RoutineRecord, RoutineError>)
    requires store.Valid()
    requires forall x :: f(x).id == x.id
    modifies store
    ensures store.Valid() && store.completions == old(store.completions)
    ensures old(store.FindById(id)).None? ==> r == Failure(RoutineNotFound(id)) && store.routines == old(store.routines)
    ensures old(store.FindById(id)).Some? ==>
      r == Success(f(old(store.FindById(id)).value)) && store.FindById(id) == Some(r.value) &&
      |store.routines| == |old(store.routines)|
    ensures forall k :: k != id ==> store.FindById(k) == old(store.FindById(k))
  {
    var found := GetRoutineById(store, id);
    if found.Failure? {
      return found;
    }
    var x := f(found.value);
    assert x.id < store.nextRoutineId by {
      var i :| 0 <= i < |store.routines| && store.routines[i] == found.value;
    }
    Tables.FindAfterSave(store.routines, RoutineId, RoutineId, x);
    store.SaveRoutine(x);
    r := Success(x);
  }

  /** `updateRoutine`: overwrite the non-null fields of the routine `id`. */
  method UpdateRoutine(store: RoutineStore, id: int, title: Option<string>, description: Option<string>,
                       frequency: Option<RoutineFrequency>) returns (r: Result<RoutineRecord, RoutineError>)
    requires store.Valid()
    modifies store
    ensures store.Valid() && store.completions == old(store.completions)
    ensures old(store.FindById(id)).None? ==> r == Failure(RoutineNotFound(id)) && store.routines == old(store.routines)
    ensures old(store.FindById(id)).Some? ==>
      r == Success(UpdatedRoutine(old(store.FindById(id)).value, title, description, frequency)) &&
      store.FindById(id) == Some(r.value)
    ensures forall k :: k != id ==> store.FindById(k) == old(store.FindById(k))
  {
    r := UpdateRoutineRow(store, id, x => UpdatedRoutine(x, title, description, frequency));
  }

  /** `toggleRoutineActive`: flip the activity flag of the routine `id`. */
  method ToggleRoutineActive(store: RoutineStore, id: int) returns (r: Result<RoutineRecord, RoutineError>)
    requires store.Valid()
    modifies store
    ensures store.Valid() && store.completions == old(store.completions)
    ensures old(store.FindById(id)).None? ==> r == Failure(RoutineNotFound(id)) && store.routines == old(store.routines)
    ensures old(store.FindById(id)).Some? ==>
      r == Success(Toggled(old(store.FindById(id)).value)) && store.FindById(id) == Some(r.value)
    ensures forall k :: k != id ==> store.FindById(k) == old(store.FindById(k))
  {
    r := UpdateRoutineRow(store, id, Toggled);
  }

  /** `deleteRoutine`: remove the routine `id` and, by the cascade, its completions. */
  method DeleteRoutine(store: RoutineStore, id: int) returns (o: Outcome<RoutineError>)
    requires store.Valid()
    modifies store
    ensures store.Valid()
    ensures old(store.FindById(id)).None? ==>
      o == Fail(RoutineNotFound(id)) && store.routines == old(store.routines) && store.completions == old(store.completions)
    ensures old(store.FindById(id)).Some? ==>
      o == Pass && store.FindById(id).None? &&
      (forall c :: c in store.completions <==> c in old(store.completions) && c.routineId != id)
    ensures forall k :: k != id ==> store.FindById(k) == old(store.FindById(k))
  {
    var found := GetRoutineById(store, id);
    if found.Failure? {
      return Fail(RoutineNotFound(id));
    }
    Tables.FindAfterDelete(store.routines, RoutineId, id);
    store.DeleteRoutine(id);
    o := Pass;
  }

  /** Whether a completion is of the routine `routineId` and at or after `startOfDay`. */
  function TodayOf(routineId: int, startOfDay: int): CompletionRecord -> bool {
    (c: CompletionRecord) => c.routineId == routineId && c.completedAt >= startOfDay
  }

  /**
   * `findTodayCompletion(routineId, startOfDay)`: the query declared to return at most one row.
   * No match gives nothing, one match gives it, and several raise Spring Data's
   * non-unique-result exception.
   */
  function FindTodayCompletion(cs: seq<CompletionRecord>, routineId: int, startOfDay: int)
    : (r: Result<Option<CompletionRecord>, RoutineError>)
    ensures r.Failure? <==> Count(cs, TodayOf(routineId, startOfDay)) > 1
    ensures r.Failure? ==> r.error == NonUniqueResult
    ensures r == Success(None) <==>
      forall i :: 0 <= i < |cs| ==> !(cs[i].routineId == routineId && cs[i].completedAt >= startOfDay)
    ensures r.Success? && r.value.Some? ==>
      r.value.value in cs && r.value.value.routineId == routineId && r.value.value.completedAt >= startOfDay
  {
    var matches := Filter(cs, TodayOf(routineId, startOfDay));
    FilterCount(cs, TodayOf(routineId, startOfDay));
    if |matches| == 0 then Success(None)
    else if |matches| == 1 then Success(Some(matches[0]))
    else Failure(NonUniqueResult)
  }

  /** `isCompletedToday`: whether the routine has a completion since midnight of `now`'s day. */
  function IsCompletedToday(cs: seq<CompletionRecord>, routineId: int, now: int): (r: Result<bool, RoutineError>)
    ensures r.Failure? <==> Count(cs, TodayOf(routineId, StartOfDay(now))) > 1
    ensures r.Success? ==>
      (r.value <==> exists i :: 0 <= i < |cs| && cs[i].routineId == routineId && cs[i].completedAt >= StartOfDay(now))
  {
    match FindTodayCompletion(cs, routineId, StartOfDay(now))
    case Success(found) => Success(found.Some?)
    case Failure(e) => Failure(e)
  }

  /** The completions after `completeRoutine` of an existing routine, with `nextId` the next completion id. */
  function AfterComplete(cs: seq<CompletionRecord>, routineId: int, note: Option<string>, now: int, nextId: int)
    : seq<CompletionRecord>
  {
    match FindTodayCompletion(cs, routineId, StartOfDay(now))
    case Success(None) => cs + [CompletionRecord(nextId, routineId, now, note)]
    case _ => cs
  }

  /** The completions after `uncompleteRoutine`. */
  function AfterUncomplete(cs: seq<CompletionRecord>, routineId: int, now: int): seq<CompletionRecord> {
    match FindTodayCompletion(cs, routineId, StartOfDay(now))
    case Success(Some(c)) => Tables.Delete(cs, CompletionId, c.id)
    case _ => cs
  }

  /**
   * `completeRoutine`. A missing routine fails first. A completion already made today is
   * returned and nothing is saved; otherwise exactly one completion, stamped `now`, is added.
   */
  method CompleteRoutine(store: RoutineStore, routineId: int, note: Option<string>, now: int)
    returns (r: Result<CompletionRecord, RoutineError>)
    requires store.Valid()
    modifies store
    ensures store.Valid() && store.routines == old(store.routines)
    ensures old(store.FindById(routineId)).None? ==>
      r == Failure(RoutineNotFound(routineId)) && store.completions == old(store.completions)
    ensures old(store.FindById(routineId)).Some? ==>
      store.completions == AfterComplete(old(store.completions), routineId, note, now, old(store.nextCompletionId))
    ensures old(store.FindById(routineId)).Some? ==>
      match FindTodayCompletion(old(store.completions), routineId, StartOfDay(now))
      case Failure(e) => r == Failure(e)
      case Success(Some(c)) => r == Success(c)
      case Success(None) => r == Success(CompletionRecord(old(store.nextCompletionId), routineId, now, note))
  {
    var found := GetRoutineById(store, routineId);
    if found.Failure? {
      return Failure(found.error);
    }
    var today := FindTodayCompletion(store.completions, routineId, StartOfDay(now));
    match today
    case Failure(e) =>
      r := Failure(e);
    case Success(Some(c)) =>
      r := Success(c);
    case Success(None) =>
      var saved := store.InsertCompletion(routineId, note, now);
      r := Success(saved);
  }

  /** `uncompleteRoutine`: delete today's completion when there is one; otherwise do nothing. */
  method UncompleteRoutine(store: RoutineStore, routineId: int, now: int) returns (o: Outcome<RoutineError>)
    requires store.Valid()
    modifies store
    ensures store.Valid() && store.routines == old(store.routines)
    ensures store.completions == AfterUncomplete(old(store.completions), routineId, now)
    ensures o.Fail? <==> FindTodayCompletion(old(store.completions), routineId, StartOfDay(now)).Failure?
    ensures o.Fail? ==> o.error == NonUniqueResult
  {
    var today := FindTodayCompletion(store.completions, routineId, StartOfDay(now));
    match today
    case Failure(e) =>
      o := Fail(e);
    case Success(Some(c)) =>
      store.DeleteCompletion(c.id);
      o := Pass;
    case Success(None) =>
      o := Pass;
  }

  /** A completion added for today is the one the "today" query then finds. */
  lemma FindAfterAppend(cs: seq<CompletionRecord>, c: CompletionRecord, startOfDay: int)
    requires FindTodayCompletion(cs, c.routineId, startOfDay) == Success(None)
    requires c.completedAt >= startOfDay
    ensures FindTodayCompletion(cs + [c], c.routineId, startOfDay) == Success(Some(c))
  {
    var p := TodayOf(c.routineId, startOfDay);
    CountAppend(cs, c, p);
    FilterConcat(cs, [c], p);
    FilterCount(cs, p);
    assert Filter(cs + [c], p) == [c];
  }

  /**
   * Completing a routine a second time on the same day adds nothing: the completion the first
   * call added (or found) is found again.
   */
  lemma CompleteTwiceAddsOnce(cs: seq<CompletionRecord>, routineId: int, n1: Option<string>, n2: Option<string>,
                              t1: int, t2: int, f1: int, f2: int)
    requires SameDay(t1, t2)
    ensures AfterComplete(AfterComplete(cs, routineId, n1, t1, f1), routineId, n2, t2, f2) ==
      AfterComplete(cs, routineId, n1, t1, f1)
  {
    SameDayIffSameStart(t1, t2);
    if FindTodayCompletion(cs, routineId, StartOfDay(t1)) == Success(None) {
      FindAfterAppend(cs, CompletionRecord(f1, routineId, t1, n1), StartOfDay(t1));
    }
  }

  /**
   * Un-completing right after a completion that added a row removes exactly that row: the
   * completions are as they were.
   */
  lemma UncompleteAfterCompleteRestores(cs: seq<CompletionRecord>, routineId: int, note: Option<string>, now: int, nextId: int)
    requires forall i :: 0 <= i < |cs| ==> cs[i].id != nextId
    requires FindTodayCompletion(cs, routineId, StartOfDay(now)) == Success(None)
    ensures AfterUncomplete(AfterComplete(cs, routineId, note, now, nextId), routineId, now) == cs
  {
    var c := CompletionRecord(nextId, routineId, now, note);
    FindAfterAppend(cs, c, StartOfDay(now));
    var added := cs + [c];
    assert Tables.IndexOf(added, CompletionId, nextId) == Some(|cs|);
    assert added[..|cs|] == cs;
  }

  /** No two completions of one routine fall on the same day. */
  ghost predicate OnePerDay(cs: seq<CompletionRecord>) {
    forall i, j :: 0 <= i < |cs| && 0 <= j < |cs| && i != j && cs[i].routineId == cs[j].routineId ==>
      !SameDay(cs[i].completedAt, cs[j].completedAt)
  }

  /** No completion lies after `now`. */
  ghost predicate NotAfter(cs: seq<CompletionRecord>, now: int) {
    forall i :: 0 <= i < |cs| ==> cs[i].completedAt <= now
  }

  /** Two elements satisfying `p` at two different positions, when at least two do. */
  lemma {:induction false} TwoMatches<T>(s: seq<T>, p: T -> bool) returns (i: nat, j: nat)
    requires Count(s, p) > 1
    ensures i < j < |s| && p(s[i]) && p(s[j])
  {
    if p(s[0]) {
      assert Count(s[1..], p) > 0;
      var k :| 0 <= k < |s[1..]| && p(s[1..][k]);
      i, j := 0, k + 1;
    } else {
      var a, b := TwoMatches(s[1..], p);
      i, j := a + 1, b + 1;
    }
  }

  /**
   * While completions are at most one per routine and day and none lies in the future, the
   * "today" query never finds two rows, so its non-unique-result exception cannot occur.
   */
  lemma TodayQueryIsUnique(cs: seq<CompletionRecord>, routineId: int, now: int)
    requires OnePerDay(cs) && NotAfter(cs, now)
    ensures FindTodayCompletion(cs, routineId, StartOfDay(now)).Success?
    ensures IsCompletedToday(cs, routineId, now).Success?
  {
    var p := TodayOf(routineId, StartOfDay(now));
    if Count(cs, p) > 1 {
      var i, j := TwoMatches(cs, p);
      SameDayIsDayWindow(cs[i].completedAt, now);
      SameDayIsDayWindow(cs[j].completedAt, now);
      assert false;
    }
  }

  /** `completeRoutine` keeps the completions at most one per routine and day. */
  lemma CompleteKeepsOnePerDay(cs: seq<CompletionRecord>, routineId: int, note: Option<string>, now: int, nextId: int)
    requires OnePerDay(cs) && NotAfter(cs, now)
    ensures OnePerDay(AfterComplete(cs, routineId, note, now, nextId))
    ensures NotAfter(AfterComplete(cs, routineId, note, now, nextId), now)
  {
    if FindTodayCompletion(cs, routineId, StartOfDay(now)) == Success(None) {
      var added := cs + [CompletionRecord(nextId, routineId, now, note)];
      forall i | 0 <= i < |cs| && cs[i].routineId == routineId ensures !SameDay(cs[i].completedAt, now) {
        SameDayIsDayWindow(cs[i].completedAt, now);
      }
      assert forall i :: 0 <= i < |cs| ==> added[i] == cs[i];
    }
  }

  /** `uncompleteRoutine` keeps the completions at most one per routine and day. */
  lemma UncompleteKeepsOnePerDay(cs: seq<CompletionRecord>, routineId: int, now: int)
    requires OnePerDay(cs) && NotAfter(cs, now)
    ensures OnePerDay(AfterUncomplete(cs, routineId, now))
    ensures NotAfter(AfterUncomplete(cs, routineId, now), now)
  {
    var today := FindTodayCompletion(cs, routineId, StartOfDay(now));
    if today.Success? && today.value.Some? && Tables.IndexOf(cs, CompletionId, today.value.value.id).Some? {
      RemovalKeepsOnePerDay(cs, Tables.IndexOf(cs, CompletionId, today.value.value.id).value, now);
    }
  }

  lemma RemovalKeepsOnePerDay(cs: seq<CompletionRecord>, k: nat, now: int)
    requires OnePerDay(cs) && NotAfter(cs, now) && k < |cs|
    ensures OnePerDay(cs[..k] + cs[k + 1..]) && NotAfter(cs[..k] + cs[k + 1..], now)
  {
    var left := cs[..k] + cs[k + 1..];
    forall i | 0 <= i < |left| ensures left[i] == cs[if i < k then i else i + 1] {
    }
    forall i, j | 0 <= i < |left| && 0 <= j < |left| && i != j && left[i].routineId == left[j].routineId
      ensures !SameDay(left[i].completedAt, left[j].completedAt)
    {
      var i', j' := if i < k then i else i + 1, if j < k then j else j + 1;
      assert left[i] == cs[i'] && left[j] == cs[j'];
    }
  }
}
