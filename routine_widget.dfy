/**
 * The home-screen routine widget: the routine list decoded from `/routines/today`, the summary
 * line and the three slots it writes to the widget preferences, the views it renders from those
 * preferences, and the toggle request a tap on a slot sends. JSON decoding, the HTTP connection
 * and the Android views are outside the model: the decoded items, the response code and the
 * preference maps are its inputs.
 */
module RoutineWidget {
  import opened Wrappers
  import opened Seqs

  /** One element of the JSON array after `optInt("id", 0)`, `optString("title", "")`, `optBoolean("completedToday", false)`. */
  datatype DecodedItem = DecodedItem(id: int, title: string, completedToday: bool)

  /** A routine as the widget keeps it. */
  datatype RoutineSnapshot = RoutineSnapshot(id: int, title: string, completed: bool)

  const NoRoutinesSummary: string := "오늘의 루틴 없음"
  const LoadingSummary: string := "오늘의 루틴을 불러오는 중..."
  const PlaceholderText: string := "루틴이 없습니다"
  const SlotCount: int := 3

  const SummaryKey: string := "routine_summary"
  const UpdatedAtKey: string := "routine_last_updated"
  const WidgetBaseUrlKey: string := "flutter.widget_base_url"
  const ServerUrlKey: string := "flutter.server_url"

  // ---------------------------------------------------------------- decimal text

  function DigitChar(d: nat): (c: char)
    requires d < 10
    ensures '0' <= c <= '9' && c as int - '0' as int == d
  {
    ('0' as int + d) as char
  }

  /** Kotlin's string template of a non-negative `Int`: its decimal digits, no leading zero. */
  function Decimal(n: nat): (s: string)
    ensures |s| >= 1
    ensures forall i :: 0 <= i < |s| ==> '0' <= s[i] <= '9'
    ensures |s| > 1 ==> s[0] != '0'
    decreases n
  {
    if n < 10 then [DigitChar(n)] else Decimal(n / 10) + [DigitChar(n % 10)]
  }

  /** The number a string of decimal digits denotes. */
  function DigitsValue(s: string): nat
    requires forall i :: 0 <= i < |s| ==> '0' <= s[i] <= '9'
  {
    if s == [] then 0 else DigitsValue(s[..|s| - 1]) * 10 + (s[|s| - 1] as int - '0' as int)
  }

  /** The decimal text of a count reads back as that count. */
  lemma {:induction false} DecimalRoundTrip(n: nat)
    ensures DigitsValue(Decimal(n)) == n
    decreases n
  {
    if n >= 10 {
      var s := Decimal(n / 10);
      DecimalRoundTrip(n / 10);
      assert (s + [DigitChar(n % 10)])[..|s|] == s;
    }
  }

  /** Different numbers have different decimal texts. */
  lemma DecimalInjective(a: nat, b: nat)
    ensures Decimal(a) == Decimal(b) ==> a == b
  {
    DecimalRoundTrip(a);
    DecimalRoundTrip(b);
  }

  /** Kotlin's string template of an `Int`, with a minus sign when negative. */
  function IntText(n: int): (s: string)
    ensures n >= 0 ==> s == Decimal(n)
    ensures n < 0 ==> s == "-" + Decimal(-n)
  {
    if n < 0 then "-" + Decimal(-n) else Decimal(n)
  }

  // ---------------------------------------------------------------- parsing

  function Usable(item: DecodedItem): bool {
    item.id != 0 && item.title != ""
  }

  function Snapshot(item: DecodedItem): RoutineSnapshot {
    RoutineSnapshot(item.id, item.title, item.completedToday)
  }

  /** The list `parseRoutineList` builds: the usable items, as snapshots, in input order. */
  function Kept(items: seq<DecodedItem>): (r: seq<RoutineSnapshot>)
    ensures |r| <= |items|
    ensures forall i :: 0 <= i < |r| ==> r[i].id != 0 && r[i].title != ""
    decreases |items|
  {
    if items == [] then []
    else
      var last := items[|items| - 1];
      Kept(items[..|items| - 1]) + (if Usable(last) then [Snapshot(last)] else [])
  }

  /** A snapshot is kept exactly when some item with a non-zero id and a non-empty title produced it. */
  lemma {:induction false} KeptMembership(items: seq<DecodedItem>, s: RoutineSnapshot)
    ensures s in Kept(items) <==> exists i :: 0 <= i < |items| && Usable(items[i]) && Snapshot(items[i]) == s
    decreases |items|
  {
    if items != [] {
      var init, last := items[..|items| - 1], items[|items| - 1];
      KeptMembership(init, s);
      if exists i :: 0 <= i < |items| && Usable(items[i]) && Snapshot(items[i]) == s {
        var i :| 0 <= i < |items| && Usable(items[i]) && Snapshot(items[i]) == s;
        if i < |init| {
          assert init[i] == items[i];
        }
      }
      if exists i :: 0 <= i < |init| && Usable(init[i]) && Snapshot(init[i]) == s {
        var i :| 0 <= i < |init| && Usable(init[i]) && Snapshot(init[i]) == s;
        assert items[i] == init[i];
      }
    }
  }

  /** Parsing two runs of items one after the other keeps each run's routines, in order. */
  lemma {:induction false} KeptConcat(a: seq<DecodedItem>, b: seq<DecodedItem>)
    ensures Kept(a + b) == Kept(a) + Kept(b)
    decreases |b|
  {
    if b == [] {
      assert a + b == a;
    } else {
      var init, last := b[..|b| - 1], b[|b| - 1];
      assert (a + b)[..|a + b| - 1] == a + init;
      assert (a + b)[|a + b| - 1] == last;
      KeptConcat(a, init);
    }
  }

  /** `parseRoutineList`, over the decoded items: keep each item with a non-zero id and a title. */
  method ParseRoutineList(items: seq<DecodedItem>) returns (routines: seq<RoutineSnapshot>)
    ensures routines == Kept(items)
  {
    routines := [];
    var i := 0;
    while i < |items|
      invariant 0 <= i <= |items|
      invariant routines == Kept(items[..i])
    {
      var item := items[i];
      assert items[..i + 1][..i] == items[..i];
      if item.id != 0 && item.title != "" {
        routines := routines + [RoutineSnapshot(item.id, item.title, item.completedToday)];
      }
      i := i + 1;
    }
    assert items[..i] == items;
  }

  // ---------------------------------------------------------------- summary and slots

  function IsCompleted(r: RoutineSnapshot): bool {
    r.completed
  }

  /** The summary line: "no routines today", or "done c / total t". */
  function Summary(routines: seq<RoutineSnapshot>): (s: string)
    ensures routines == [] <==> s == NoRoutinesSummary
    ensures routines != [] ==>
      s == "완료 " + Decimal(Count(routines, IsCompleted)) + " / 전체 " + Decimal(|routines|)
  {
    if |routines| == 0 then NoRoutinesSummary
    else "완료 " + Decimal(Count(routines, IsCompleted)) + " / 전체 " + Decimal(|routines|)
  }

  /** The two numbers of the summary: the completed count never exceeds the total. */
  lemma SummaryCounts(routines: seq<RoutineSnapshot>)
    ensures Count(routines, IsCompleted) <= |routines|
    ensures Count(routines, IsCompleted) == |routines| <==> forall i :: 0 <= i < |routines| ==> routines[i].completed
    ensures routines != [] ==> DigitsValue(Decimal(Count(routines, IsCompleted))) == Count(routines, IsCompleted)
    ensures routines != [] ==> DigitsValue(Decimal(|routines|)) == |routines|
  {
    DecimalRoundTrip(Count(routines, IsCompleted));
    DecimalRoundTrip(|routines|);
  }

  /** Slot `index` (1..3): routine `index - 1` when there is one, otherwise the empty slot. */
  function SlotOf(routines: seq<RoutineSnapshot>, index: int): (r: RoutineSnapshot)
    ensures 1 <= index <= |routines| ==> r == routines[index - 1]
    ensures !(1 <= index <= |routines|) ==> r == RoutineSnapshot(0, "", false)
  {
    if 1 <= index <= |routines| then routines[index - 1] else RoutineSnapshot(0, "", false)
  }

  function TitleKey(index: int): string {
    "routine_title_" + IntText(index)
  }

  function IdKey(index: int): string {
    "routine_id_" + IntText(index)
  }

  function CompletedKey(index: int): string {
    "routine_completed_" + IntText(index)
  }

  /** Slot keys of different slots differ, and no title key is the summary or time key. */
  lemma SlotKeysDistinct(i: int, j: int)
    requires 1 <= i && 1 <= j
    ensures i != j ==> TitleKey(i) != TitleKey(j) && IdKey(i) != IdKey(j) && CompletedKey(i) != CompletedKey(j)
    ensures TitleKey(i) != SummaryKey && TitleKey(i) != UpdatedAtKey
  {
    DecimalInjective(i, j);
    if i != j {
      assert TitleKey(i)[|"routine_title_"|..] == Decimal(i);
      assert TitleKey(j)[|"routine_title_"|..] == Decimal(j);
      assert IdKey(i)[|"routine_id_"|..] == Decimal(i);
      assert IdKey(j)[|"routine_id_"|..] == Decimal(j);
      assert CompletedKey(i)[|"routine_completed_"|..] == Decimal(i);
      assert CompletedKey(j)[|"routine_completed_"|..] == Decimal(j);
    }
    assert TitleKey(i)[8] == 't';
    assert TitleKey(i)[13] == '_';
  }

  /** The entry of `key`, or `default` when there is none. */
  function Lookup<V>(m: map<string, V>, key: string, default: V): (v: V)
    ensures key in m ==> v == m[key]
    ensures key !in m ==> v == default
  {
    if key in m then m[key] else default
  }

  /** The widget's preference file: string, int and boolean entries. */
  class WidgetPrefs {
    var strings: map<string, string>
    var ints: map<string, int>
    var bools: map<string, bool>

    constructor()
      ensures strings == map[] && ints == map[] && bools == map[]
    {
      strings := map[];
      ints := map[];
      bools := map[];
    }

    /** `getString(key, default)`. */
    function GetString(key: string, default: string): (v: string)
      reads this
      ensures key in strings ==> v == strings[key]
      ensures key !in strings ==> v == default
    {
      Lookup(strings, key, default)
    }

    function GetInt(key: string, default: int): (v: int)
      reads this
      ensures key in ints ==> v == ints[key]
      ensures key !in ints ==> v == default
    {
      Lookup(ints, key, default)
    }

    function GetBoolean(key: string, default: bool): (v: bool)
      reads this
      ensures key in bools ==> v == bools[key]
      ensures key !in bools ==> v == default
    {
      Lookup(bools, key, default)
    }

    method PutString(key: string, value: string)
      modifies this`strings
      ensures strings == old(strings)[key := value]
    {
      strings := strings[key := value];
    }

    method PutInt(key: string, value: int)
      modifies this`ints
      ensures ints == old(ints)[key := value]
    {
      ints := ints[key := value];
    }

    method PutBoolean(key: string, value: bool)
      modifies this`bools
      ensures bools == old(bools)[key := value]
    {
      bools := bools[key := value];
    }
  }

  /** Slot `i` of the preference maps holds slot `i` of `routines`. */
  ghost predicate SlotIn(strings: map<string, string>, ints: map<string, int>, bools: map<string, bool>,
                         routines: seq<RoutineSnapshot>, i: int)
  {
    Lookup(strings, TitleKey(i), "") == SlotOf(routines, i).title &&
    Lookup(ints, IdKey(i), 0) == SlotOf(routines, i).id &&
    Lookup(bools, CompletedKey(i), false) == SlotOf(routines, i).completed
  }

  /** Slot `i` of the preferences holds slot `i` of `routines`. */
  ghost predicate SlotHolds(prefs: WidgetPrefs, routines: seq<RoutineSnapshot>, i: int)
    reads prefs
  {
    SlotIn(prefs.strings, prefs.ints, prefs.bools, routines, i)
  }

  /** The string keys `refreshWidgetData` writes. */
  function WrittenStringKeys(): set<string> {
    {SummaryKey, UpdatedAtKey, TitleKey(1), TitleKey(2), TitleKey(3)}
  }

  /** The int keys a refresh writes: the three slot ids. */
  function WrittenIntKeys(): set<string> {
    {IdKey(1), IdKey(2), IdKey(3)}
  }

  /** The boolean keys a refresh writes: the three slot completion flags. */
  function WrittenBoolKeys(): set<string> {
    {CompletedKey(1), CompletedKey(2), CompletedKey(3)}
  }

  /**
   * The preference maps part-way through a refresh: summary and time written, slots below
   * `upto` written, and every string key outside the written ones as it was in `orig`.
   */
  ghost predicate RefreshedUpTo(strings: map<string, string>, ints: map<string, int>, bools: map<string, bool>,
                                orig: map<string, string>, routines: seq<RoutineSnapshot>, clockText: string, upto: int)
  {
    Lookup(strings, SummaryKey, LoadingSummary) == Summary(routines) &&
    Lookup(strings, UpdatedAtKey, "") == "업데이트 " + clockText &&
    (forall i :: 1 <= i < upto ==> SlotIn(strings, ints, bools, routines, i)) &&
    (forall k :: k !in WrittenStringKeys() ==> Lookup(strings, k, "") == Lookup(orig, k, ""))
  }

  /** Every int and boolean entry outside the slot keys is as it was in `origInts` and `origBools`. */
  ghost predicate NumbersKept(ints: map<string, int>, bools: map<string, bool>,
                              origInts: map<string, int>, origBools: map<string, bool>)
  {
    (forall k :: k !in WrittenIntKeys() ==> Lookup(ints, k, 0) == Lookup(origInts, k, 0)) &&
    (forall k :: k !in WrittenBoolKeys() ==> Lookup(bools, k, false) == Lookup(origBools, k, false))
  }

  /** Writing the id and flag of slot `index` touches only written keys. */
  lemma WriteSlotKeepsNumbers(ints: map<string, int>, bools: map<string, bool>,
                              origInts: map<string, int>, origBools: map<string, bool>,
                              index: int, id: int, completed: bool)
    requires 1 <= index <= SlotCount
    requires NumbersKept(ints, bools, origInts, origBools)
    ensures NumbersKept(ints[IdKey(index) := id], bools[CompletedKey(index) := completed], origInts, origBools)
  {
    assert IdKey(index) in WrittenIntKeys();
    assert CompletedKey(index) in WrittenBoolKeys();
  }

  /** Writing slot `index` extends a partial refresh by that slot and disturbs nothing else. */
  lemma WriteSlotExtends(strings: map<string, string>, ints: map<string, int>, bools: map<string, bool>,
                         orig: map<string, string>, routines: seq<RoutineSnapshot>, clockText: string, index: int)
    requires 1 <= index <= SlotCount
    requires RefreshedUpTo(strings, ints, bools, orig, routines, clockText, index)
    ensures RefreshedUpTo(strings[TitleKey(index) := SlotOf(routines, index).title],
                          ints[IdKey(index) := SlotOf(routines, index).id],
                          bools[CompletedKey(index) := SlotOf(routines, index).completed],
                          orig, routines, clockText, index + 1)
  {
    var slot := SlotOf(routines, index);
    var s', n', b' := strings[TitleKey(index) := slot.title], ints[IdKey(index) := slot.id],
      bools[CompletedKey(index) := slot.completed];
    forall i | 1 <= i < index + 1
      ensures SlotIn(s', n', b', routines, i)
    {
      SlotKeysDistinct(i, index);
      if i < index {
        assert SlotIn(strings, ints, bools, routines, i);
      }
    }
    SlotKeysDistinct(index, index);
    assert TitleKey(index) in WrittenStringKeys();
  }

  /**
   * `refreshWidgetData` after the fetch: nothing happens when the fetch failed. Otherwise the
   * decoded list is parsed, and the summary, the update time and the three slots are written;
   * every other string, int and boolean entry is left as it was.
   */
  method RefreshWidgetData(prefs: WidgetPrefs, fetched: Option<seq<DecodedItem>>, clockText: string)
    returns (routines: seq<RoutineSnapshot>)
    modifies prefs
    ensures fetched.None? ==>
      prefs.strings == old(prefs.strings) && prefs.ints == old(prefs.ints) && prefs.bools == old(prefs.bools)
    ensures fetched.Some? ==> routines == Kept(fetched.value)
    ensures fetched.Some? ==>
      prefs.GetString(SummaryKey, LoadingSummary) == Summary(routines) &&
      prefs.GetString(UpdatedAtKey, "") == "업데이트 " + clockText
    ensures fetched.Some? ==> forall i :: 1 <= i <= SlotCount ==> SlotHolds(prefs, routines, i)
    ensures forall k :: k !in WrittenStringKeys() ==> prefs.GetString(k, "") == old(prefs.GetString(k, ""))
    ensures forall k :: k !in WrittenIntKeys() ==> prefs.GetInt(k, 0) == old(prefs.GetInt(k, 0))
    ensures forall k :: k !in WrittenBoolKeys() ==> prefs.GetBoolean(k, false) == old(prefs.GetBoolean(k, false))
  {
    if fetched.None? {
      return [];
    }
    routines := ParseRoutineList(fetched.value);
    prefs.PutString(SummaryKey, Summary(routines));
    prefs.PutString(UpdatedAtKey, "업데이트 " + clockText);
    SlotKeysDistinct(1, 1);
    var index := 1;
    while index <= SlotCount
      invariant 1 <= index <= SlotCount + 1
      invariant RefreshedUpTo(prefs.strings, prefs.ints, prefs.bools, old(prefs.strings), routines, clockText, index)
      invariant NumbersKept(prefs.ints, prefs.bools, old(prefs.ints), old(prefs.bools))
    {
      WriteSlotExtends(prefs.strings, prefs.ints, prefs.bools, old(prefs.strings), routines, clockText, index);
      WriteSlotKeepsNumbers(prefs.ints, prefs.bools, old(prefs.ints), old(prefs.bools),
                            index, SlotOf(routines, index).id, SlotOf(routines, index).completed);
      WriteSlot(prefs, index, SlotOf(routines, index));
      index := index + 1;
    }
  }

  /** The three entries of slot `index`. */
  method WriteSlot(prefs: WidgetPrefs, index: int, slot: RoutineSnapshot)
    modifies prefs
    ensures prefs.strings == old(prefs.strings)[TitleKey(index) := slot.title]
    ensures prefs.ints == old(prefs.ints)[IdKey(index) := slot.id]
    ensures prefs.bools == old(prefs.bools)[CompletedKey(index) := slot.completed]
  {
    prefs.PutString(TitleKey(index), slot.title);
    prefs.PutInt(IdKey(index), slot.id);
    prefs.PutBoolean(CompletedKey(index), slot.completed);
  }

  // ---------------------------------------------------------------- rendering

  /** `isCompact`: the widget is narrower than 200dp or lower than 120dp. */
  function IsCompact(minWidth: int, minHeight: int): (r: bool)
    ensures r <==> minWidth < 200 || minHeight < 120
  {
    minWidth < 200 || minHeight < 120
  }

  /** How many slots the layout shows: one when compact, three otherwise. */
  function MaxItems(compact: bool): (n: int)
    ensures 1 <= n <= SlotCount
    ensures n == 1 <==> compact
  {
    if compact then 1 else 3
  }

  /** The broadcast a tap on a slot sends: the routine and the completion state to move to. */
  datatype ToggleIntent = ToggleIntent(routineId: int, targetComplete: bool)

  /** One slot view: gone, the disabled placeholder, or a routine with its check box and tap target. */
  datatype ItemView = Hidden | Placeholder | Shown(title: string, checked: bool, toggle: ToggleIntent, requestCode: int)

  datatype Layout = CompactLayout | FullLayout

  datatype WidgetViews = WidgetViews(layout: Layout, summary: string, lastUpdated: string, items: seq<ItemView>)

  /**
   * The view of slot `index`: hidden beyond `maxItems`; an empty slot (no title or id 0) is the
   * placeholder in slot 1 and hidden elsewhere; a filled slot is checked as its routine is, and
   * a tap asks for the opposite state.
   */
  function SlotView(title: string, routineId: int, completed: bool, index: int, maxItems: int, appWidgetId: int)
    : (v: ItemView)
    ensures index > maxItems ==> v == Hidden
    ensures index <= maxItems && (title == "" || routineId == 0) ==>
      (if index == 1 then v == Placeholder else v == Hidden)
    ensures index <= maxItems && title != "" && routineId != 0 ==>
      v.Shown? && v.title == title && v.checked == completed &&
      v.toggle == ToggleIntent(routineId, !completed) && v.requestCode == appWidgetId * 10 + index
  {
    if index > maxItems then Hidden
    else if title == "" || routineId == 0 then (if index == 1 then Placeholder else Hidden)
    else Shown(title, completed, ToggleIntent(routineId, !completed), appWidgetId * 10 + index)
  }

  /** `updateAppWidget`: render the summary, the update time and the three slots from the preferences. */
  method UpdateAppWidget(prefs: WidgetPrefs, appWidgetId: int, minWidth: int, minHeight: int)
    returns (views: WidgetViews)
    ensures views.layout == if IsCompact(minWidth, minHeight) then CompactLayout else FullLayout
    ensures views.summary == prefs.GetString(SummaryKey, LoadingSummary)
    ensures views.lastUpdated == prefs.GetString(UpdatedAtKey, "")
    ensures |views.items| == SlotCount
    ensures forall i :: 1 <= i <= SlotCount ==>
      views.items[i - 1] == SlotView(prefs.GetString(TitleKey(i), ""), prefs.GetInt(IdKey(i), 0),
        prefs.GetBoolean(CompletedKey(i), false), i, MaxItems(IsCompact(minWidth, minHeight)), appWidgetId)
  {
    var compact := IsCompact(minWidth, minHeight);
    var layout := if compact then CompactLayout else FullLayout;
    var summary := prefs.GetString(SummaryKey, LoadingSummary);
    var updatedAt := prefs.GetString(UpdatedAtKey, "");
    var maxItems := if compact then 1 else 3;
    var items: seq<ItemView> := [];
    var index := 1;
    while index <= SlotCount
      invariant 1 <= index <= SlotCount + 1
      invariant |items| == index - 1
      invariant forall i :: 1 <= i < index ==>
        items[i - 1] == SlotView(prefs.GetString(TitleKey(i), ""), prefs.GetInt(IdKey(i), 0),
          prefs.GetBoolean(CompletedKey(i), false), i, maxItems, appWidgetId)
    {
      var title := prefs.GetString(TitleKey(index), "");
      var routineId := prefs.GetInt(IdKey(index), 0);
      var completed := prefs.GetBoolean(CompletedKey(index), false);
      var view: ItemView;
      if index > maxItems {
        view := Hidden;
      } else if title == "" || routineId == 0 {
        view := if index == 1 then Placeholder else Hidden;
      } else {
        view := Shown(title, completed, ToggleIntent(routineId, !completed), appWidgetId * 10 + index);
      }
      items := items + [view];
      index := index + 1;
    }
    views := WidgetViews(layout, summary, updatedAt, items);
  }

  /**
   * After a refresh, slot `index` shows the routine at that position of the parsed list when
   * the layout has room for it; the first slot of an empty list is the placeholder; every other
   * slot is hidden. No parsed routine is ever rendered as an empty slot.
   */
  lemma RefreshedSlotView(items: seq<DecodedItem>, index: int, compact: bool, appWidgetId: int)
    requires 1 <= index <= SlotCount
    ensures var routines := Kept(items);
      var slot := SlotOf(routines, index);
      SlotView(slot.title, slot.id, slot.completed, index, MaxItems(compact), appWidgetId) ==
        if index > MaxItems(compact) then Hidden
        else if index <= |routines| then
          Shown(routines[index - 1].title, routines[index - 1].completed,
            ToggleIntent(routines[index - 1].id, !routines[index - 1].completed), appWidgetId * 10 + index)
        else if index == 1 then Placeholder
        else Hidden
  {
  }

  // ---------------------------------------------------------------- toggling

  /** `readBaseUrl`: the widget URL when it is set and non-empty, else the server URL, else "". */
  function ReadBaseUrl(flutterPrefs: map<string, string>): (url: string)
    ensures WidgetBaseUrlKey in flutterPrefs && flutterPrefs[WidgetBaseUrlKey] != "" ==> url == flutterPrefs[WidgetBaseUrlKey]
    ensures !(WidgetBaseUrlKey in flutterPrefs && flutterPrefs[WidgetBaseUrlKey] != "") ==>
      url == if ServerUrlKey in flutterPrefs then flutterPrefs[ServerUrlKey] else ""
  {
    var widgetUrl := if WidgetBaseUrlKey in flutterPrefs then flutterPrefs[WidgetBaseUrlKey] else "";
    if widgetUrl != "" then widgetUrl
    else if ServerUrlKey in flutterPrefs then flutterPrefs[ServerUrlKey] else ""
  }

  datatype HttpMethod = Post | Delete

  datatype HttpRequest = HttpRequest(url: string, verb: HttpMethod)

  /** The toggle request for a routine: `POST` to complete, `DELETE` to un-complete. */
  function ToggleRequest(baseUrl: string, routineId: int, targetComplete: bool): (r: HttpRequest)
    ensures r.verb == Post <==> targetComplete
    ensures r.url == baseUrl + "/routines/" + IntText(routineId) + "/complete"
  {
    HttpRequest(baseUrl + "/routines/" + IntText(routineId) + "/complete", if targetComplete then Post else Delete)
  }

  /** The routine id a toggle URL names can be read back from it. */
  lemma ToggleUrlNamesRoutine(baseUrl: string, routineId: nat, targetComplete: bool)
    ensures var url := ToggleRequest(baseUrl, routineId, targetComplete).url;
      var prefix := |baseUrl + "/routines/"|;
      url[prefix..|url| - |"/complete"|] == Decimal(routineId) &&
      DigitsValue(url[prefix..|url| - |"/complete"|]) == routineId
  {
    var url := ToggleRequest(baseUrl, routineId, targetComplete).url;
    assert url == (baseUrl + "/routines/") + Decimal(routineId) + "/complete";
    DecimalRoundTrip(routineId);
  }

  /** `sendRequest`'s verdict: a response code in 200..299; a request that threw is a failure. */
  function IsSuccessResponse(code: Option<int>): (ok: bool)
    ensures ok <==> code.Some? && 200 <= code.value <= 299
  {
    match code
    case Some(c) => 200 <= c <= 299
    case None => false
  }

  /** What a tap does: nothing, or one request, followed by a refresh when it succeeded. */
  datatype ToggleEffect = Ignored | Sent(request: HttpRequest, refresh: bool)

  /**
   * `onReceive` for the toggle action. Routine id 0 and an empty base URL do nothing. Otherwise
   * one request is sent, and the widget refreshes only when the response code is 2xx.
   */
  function OnToggle(intent: ToggleIntent, flutterPrefs: map<string, string>, response: Option<int>): (e: ToggleEffect)
    ensures intent.routineId == 0 || ReadBaseUrl(flutterPrefs) == "" <==> e == Ignored
    ensures e.Sent? ==> e.request == ToggleRequest(ReadBaseUrl(flutterPrefs), intent.routineId, intent.targetComplete)
    ensures e.Sent? ==> (e.refresh <==> response.Some? && 200 <= response.value <= 299)
  {
    if intent.routineId == 0 then Ignored
    else
      var baseUrl := ReadBaseUrl(flutterPrefs);
      if baseUrl == "" then Ignored
      else Sent(ToggleRequest(baseUrl, intent.routineId, intent.targetComplete), IsSuccessResponse(response))
  }

  /**
   * A tap on any shown slot, whatever its position, the item limit and the widget id, completes a
   * routine shown unchecked and un-completes one shown checked, for the routine the slot shows.
   */
  lemma TapTogglesShownState(title: string, routineId: int, completed: bool, index: int, maxItems: int,
                             appWidgetId: int, flutterPrefs: map<string, string>, response: Option<int>)
    requires SlotView(title, routineId, completed, index, maxItems, appWidgetId).Shown?
    requires ReadBaseUrl(flutterPrefs) != ""
    ensures OnToggle(SlotView(title, routineId, completed, index, maxItems, appWidgetId).toggle, flutterPrefs, response).Sent?
    ensures OnToggle(SlotView(title, routineId, completed, index, maxItems, appWidgetId).toggle, flutterPrefs, response).request
      == ToggleRequest(ReadBaseUrl(flutterPrefs), routineId, !completed)
    ensures (OnToggle(SlotView(title, routineId, completed, index, maxItems, appWidgetId).toggle, flutterPrefs, response).request.verb
             == Post) <==> !SlotView(title, routineId, completed, index, maxItems, appWidgetId).checked
  {
  }
}
