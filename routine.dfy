/**
 * Routines: a recurring habit with a title, a frequency and an activity flag, and the list of
 * its completions. The entity objects update their fields in place; the field checks that both
 * the entity and the service run before a routine is stored are defined once here.
 */
module RoutineEntity {
  import opened Wrappers
  import opened Seqs

  datatype RoutineFrequency = Daily | Weekly | Monthly

  /**
   * The `IllegalArgumentException`s of the routine code, told apart by their message, and the
   * exception Spring Data raises when a query declared to return one row finds several.
   */
  datatype RoutineError = TitleRequired | FrequencyRequired | RoutineNotFound(id: int) | NonUniqueResult

  /** `String.trim()` drops leading characters up to and including the space character. */
  function TrimStart(s: string): (r: string)
    ensures |r| <= |s| && r == s[|s| - |r|..]
    ensures forall k :: 0 <= k < |s| - |r| ==> s[k] <= ' '
    ensures r != [] ==> r[0] > ' '
    ensures r == [] <==> forall k :: 0 <= k < |s| ==> s[k] <= ' '
  {
    if s == [] || s[0] > ' ' then s
    else
      var rest := TrimStart(s[1..]);
      assert forall k :: 1 <= k < |s| ==> s[k] == s[1..][k - 1];
      rest
  }

  /** `String.trim()` drops trailing characters up to and including the space character. */
  function TrimEnd(s: string): (r: string)
    ensures |r| <= |s| && r == s[..|r|]
    ensures forall k :: |r| <= k < |s| ==> s[k] <= ' '
    ensures r != [] ==> r[|r| - 1] > ' '
    ensures r == [] <==> forall k :: 0 <= k < |s| ==> s[k] <= ' '
  {
    if s == [] || s[|s| - 1] > ' ' then s
    else
      var rest := TrimEnd(s[..|s| - 1]);
      assert forall k :: 0 <= k < |s| - 1 ==> s[k] == s[..|s| - 1][k];
      rest
  }

  /**
   * `String.trim()`: `s` without its leading and trailing characters at or below the space. It is
   * empty exactly when every character of `s` is one.
   */
  function Trim(s: string): (r: string)
    ensures r == [] <==> forall k :: 0 <= k < |s| ==> s[k] <= ' '
    ensures r != [] ==> r[0] > ' ' && r[|r| - 1] > ' '
    ensures |r| <= |s|
  {
    var front := TrimStart(s);
    assert front != [] ==> front[0] > ' ';
    TrimEnd(front)
  }

  /** `title == null || title.trim().isEmpty()`. */
  predicate BlankTitle(title: Option<string>) {
    title.None? || Trim(title.value) == []
  }

  /**
   * `validate` / `validateRoutine`: the title is checked first, then the frequency. A title fails
   * when it is absent or made only of characters at or below the space.
   */
  function CheckFields(title: Option<string>, frequency: Option<RoutineFrequency>): (o: Outcome<RoutineError>)
    ensures o == Fail(TitleRequired) <==> title.None? || forall k :: 0 <= k < |title.value| ==> title.value[k] <= ' '
    ensures o == Fail(FrequencyRequired) <==>
      title.Some? && (exists k :: 0 <= k < |title.value| && title.value[k] > ' ') && frequency.None?
    ensures o == Pass <==>
      title.Some? && (exists k :: 0 <= k < |title.value| && title.value[k] > ' ') && frequency.Some?
  {
    if BlankTitle(title) then Fail(TitleRequired)
    else if frequency.None? then Fail(FrequencyRequired)
    else Pass
  }

  /** One completion of a routine: its id (assigned on insert), owner, time and note. */
  class RoutineCompletion {
    var id: Option<int>
    var routine: Routine?
    var completedAt: Option<int>
    var note: Option<string>

    /** The builder call of `completeRoutine`: owner and note set, id and time left to the store. */
    constructor(routine: Routine?, note: Option<string>)
      ensures this.routine == routine && this.note == note
      ensures id.None? && completedAt.None?
    {
      id := None;
      this.routine := routine;
      completedAt := None;
      this.note := note;
    }
  }

  /** A routine object, whose methods update its fields and its completion list in place. */
  class Routine {
    var id: int
    var title: Option<string>
    var description: Option<string>
    var frequency: Option<RoutineFrequency>
    var isActive: bool
    var createdAt: Option<int>
    var updatedAt: Option<int>
    var completions: seq<RoutineCompletion>

    /** A routine built with the builder defaults: active, with no completions. */
    constructor(id: int, title: Option<string>, description: Option<string>, frequency: Option<RoutineFrequency>)
      ensures this.id == id && this.title == title && this.description == description && this.frequency == frequency
      ensures isActive && completions == []
      ensures createdAt.None? && updatedAt.None?
    {
      this.id := id;
      this.title := title;
      this.description := description;
      this.frequency := frequency;
      isActive := true;
      createdAt := None;
      updatedAt := None;
      completions := [];
    }

    /** `addCompletion`: append `c` and make this routine its owner. */
    method AddCompletion(c: RoutineCompletion)
      modifies this`completions, c`routine
      ensures completions == old(completions) + [c] && c.routine == this
      ensures CompletionCount() == old(CompletionCount()) + 1
    {
      completions := completions + [c];
      c.routine := this;
    }

    /** `removeCompletion`: drop the first occurrence of `c` and clear its owner. */
    method RemoveCompletion(c: RoutineCompletion)
      modifies this`completions, c`routine
      ensures completions == RemoveFirst(old(completions), c) && c.routine == null
      ensures c in old(completions) ==> CompletionCount() == old(CompletionCount()) - 1
      ensures c !in old(completions) ==> completions == old(completions)
      ensures forall d :: d != c ==> multiset(completions)[d] == multiset(old(completions))[d]
    {
      completions := RemoveFirst(completions, c);
      c.routine := null;
    }

    method Activate()
      modifies this`isActive
      ensures isActive
    {
      isActive := true;
    }

    method Deactivate()
      modifies this`isActive
      ensures !isActive
    {
      isActive := false;
    }

    /** `getCompletionCount`: the number of completions the routine holds. */
    function CompletionCount(): (n: nat)
      reads this
      ensures n == |completions|
    {
      |completions|
    }

    /** `validate`: fails when the title is absent or blank, then when the frequency is absent. */
    function Validate(): (o: Outcome<RoutineError>)
      reads this
      ensures o.Pass? <==> title.Some? && (exists k :: 0 <= k < |title.value| && title.value[k] > ' ') && frequency.Some?
      ensures o.Fail? ==> o.error == TitleRequired || o.error == FrequencyRequired
      ensures o == Fail(TitleRequired) <==> BlankTitle(title)
    {
      CheckFields(title, frequency)
    }
  }
}
