/**
 * The expiration-warning passes: every reminder-enabled goal that expires soon is sent to every
 * active device token, one push per (goal, token) pair, and each token whose push was accepted
 * is marked used and saved. The push transport is the parameter `send`.
 */
module NotificationScheduler {
  import opened Wrappers
  import opened Seqs
  import Tables
  import opened GoalEntity
  import opened GoalRepository
  import opened GoalExpiration
  import opened DeviceTokens

  /** One call of `sendGoalExpiringNotification(token, title, hours)`. */
  datatype Notice = Notice(fcmToken: string, goalTitle: string, hoursLeft: int)

  const DailyWarningHours: int := 24
  const UrgentWarningHours: int := 3

  function ReminderOn(g: GoalRecord): bool {
    g.reminderEnabled
  }

  /** The pushes for one goal: one per token, in token order. */
  function Broadcast(g: GoalRecord, tokens: seq<DeviceTokenRecord>, hours: int): (r: seq<Notice>)
    ensures |r| == |tokens|
    ensures forall j :: 0 <= j < |tokens| ==> r[j] == Notice(tokens[j].fcmToken, g.title, hours)
  {
    Map(tokens, (t: DeviceTokenRecord) => Notice(t.fcmToken, g.title, hours))
  }

  /** The pushes of a whole pass, goal by goal: nothing for a goal whose reminder is off. */
  function Fanout(goals: seq<GoalRecord>, tokens: seq<DeviceTokenRecord>, hours: int): seq<Notice>
    decreases |goals|
  {
    if goals == [] then []
    else
      var last := goals[|goals| - 1];
      Fanout(goals[..|goals| - 1], tokens, hours) + (if last.reminderEnabled then Broadcast(last, tokens, hours) else [])
  }

  lemma BroadcastStep(g: GoalRecord, tokens: seq<DeviceTokenRecord>, j: nat, hours: int)
    requires j < |tokens|
    ensures Broadcast(g, tokens[..j + 1], hours) == Broadcast(g, tokens[..j], hours) + [Notice(tokens[j].fcmToken, g.title, hours)]
  {
    var a, b := Broadcast(g, tokens[..j + 1], hours), Broadcast(g, tokens[..j], hours) + [Notice(tokens[j].fcmToken, g.title, hours)];
    assert |a| == |b|;
    forall k | 0 <= k < |a| ensures a[k] == b[k] {
      assert tokens[..j + 1][k] == tokens[k];
    }
  }

  lemma FanoutStep(goals: seq<GoalRecord>, i: nat, tokens: seq<DeviceTokenRecord>, hours: int)
    requires i < |goals|
    ensures Fanout(goals[..i + 1], tokens, hours) ==
      Fanout(goals[..i], tokens, hours) + (if goals[i].reminderEnabled then Broadcast(goals[i], tokens, hours) else [])
  {
    assert goals[..i + 1][..i] == goals[..i];
  }

  /** A pass makes (reminder-enabled goals) × (tokens) pushes. */
  lemma {:induction false} FanoutLength(goals: seq<GoalRecord>, tokens: seq<DeviceTokenRecord>, hours: int)
    ensures |Fanout(goals, tokens, hours)| == Count(goals, ReminderOn) * |tokens|
    decreases |goals|
  {
    if goals != [] {
      var init, last := goals[..|goals| - 1], goals[|goals| - 1];
      FanoutLength(init, tokens, hours);
      assert goals == init + [last];
      CountAppend(init, last, ReminderOn);
      var c, n := Count(init, ReminderOn), |tokens|;
      if last.reminderEnabled {
        assert Fanout(goals, tokens, hours) == Fanout(init, tokens, hours) + Broadcast(last, tokens, hours);
        assert Count(goals, ReminderOn) == c + 1;
        MulStep(c, n);
      } else {
        assert Fanout(goals, tokens, hours) == Fanout(init, tokens, hours);
        assert Count(goals, ReminderOn) == c;
      }
    }
  }

  lemma MulStep(c: int, n: int)
    ensures (c + 1) * n == c * n + n
  {
  }

  /**
   * A push is made exactly when it goes to an active token about a reminder-enabled goal: no
   * push for a goal whose reminder is off, and every enabled goal reaches every token.
   */
  lemma {:induction false} FanoutMembership(goals: seq<GoalRecord>, tokens: seq<DeviceTokenRecord>, hours: int, n: Notice)
    ensures n in Fanout(goals, tokens, hours) <==>
      exists i, j :: 0 <= i < |goals| && 0 <= j < |tokens| && goals[i].reminderEnabled &&
        n == Notice(tokens[j].fcmToken, goals[i].title, hours)
    decreases |goals|
  {
    if goals != [] {
      var init, last := goals[..|goals| - 1], goals[|goals| - 1];
      FanoutMembership(init, tokens, hours, n);
      var tail := if last.reminderEnabled then Broadcast(last, tokens, hours) else [];
      assert Fanout(goals, tokens, hours) == Fanout(init, tokens, hours) + tail;
      if n in Fanout(goals, tokens, hours) {
        if n in tail {
          var j :| 0 <= j < |tail| && tail[j] == n;
          assert goals[|goals| - 1] == last;
        } else {
          var i, j :| 0 <= i < |init| && 0 <= j < |tokens| && init[i].reminderEnabled &&
            n == Notice(tokens[j].fcmToken, init[i].title, hours);
          assert goals[i] == init[i];
        }
      }
      if exists i, j :: 0 <= i < |goals| && 0 <= j < |tokens| && goals[i].reminderEnabled &&
          n == Notice(tokens[j].fcmToken, goals[i].title, hours) {
        var i, j :| 0 <= i < |goals| && 0 <= j < |tokens| && goals[i].reminderEnabled &&
          n == Notice(tokens[j].fcmToken, goals[i].title, hours);
        if i < |goals| - 1 {
          assert init[i] == goals[i];
        } else {
          assert tail[j] == n;
        }
      }
    }
  }

  /** Some accepted push of `attempts` went to the token `fcm`. */
  ghost predicate Delivered(attempts: seq<Notice>, send: Notice -> bool, fcm: string) {
    exists k :: 0 <= k < |attempts| && attempts[k].fcmToken == fcm && send(attempts[k])
  }

  lemma DeliveredAppend(attempts: seq<Notice>, n: Notice, send: Notice -> bool, fcm: string)
    ensures Delivered(attempts + [n], send, fcm) <==> Delivered(attempts, send, fcm) || (n.fcmToken == fcm && send(n))
  {
    var all := attempts + [n];
    if Delivered(attempts, send, fcm) {
      var k :| 0 <= k < |attempts| && attempts[k].fcmToken == fcm && send(attempts[k]);
      assert all[k] == attempts[k];
    }
    if n.fcmToken == fcm && send(n) {
      assert all[|attempts|] == n;
    }
    if Delivered(all, send, fcm) {
      var k :| 0 <= k < |all| && all[k].fcmToken == fcm && send(all[k]);
      if k < |attempts| {
        assert attempts[k] == all[k];
      }
    }
  }

  /** The token table after the pushes `attempts`: an active token is marked used iff a push to it was accepted. */
  ghost predicate MarkedWhereDelivered(rows: seq<DeviceTokenRecord>, orig: seq<DeviceTokenRecord>,
                                       attempts: seq<Notice>, send: Notice -> bool, now: int) {
    |rows| == |orig| &&
    forall i :: 0 <= i < |orig| ==>
      rows[i] == if orig[i].isActive && Delivered(attempts, send, orig[i].fcmToken) then MarkedUsed(orig[i], now) else orig[i]
  }

  /** Before any push, the table follows the (empty) list of pushes. */
  lemma NothingDelivered(rows: seq<DeviceTokenRecord>, send: Notice -> bool, now: int)
    ensures MarkedWhereDelivered(rows, rows, [], send, now)
  {
    forall i | 0 <= i < |rows| ensures !Delivered([], send, rows[i].fcmToken) {
    }
  }

  /** One push to the token `orig[m]`: the table follows the pushes when the row is marked on success. */
  lemma MarkStep(rows: seq<DeviceTokenRecord>, orig: seq<DeviceTokenRecord>, attempts: seq<Notice>, notice: Notice,
                 send: Notice -> bool, now: int, m: nat)
    requires MarkedWhereDelivered(rows, orig, attempts, send, now)
    requires Tables.UniqueKeys(orig, FcmTokenOf) && m < |orig| && orig[m].isActive
    requires notice.fcmToken == orig[m].fcmToken
    ensures send(notice) ==> MarkedWhereDelivered(rows[m := MarkedUsed(orig[m], now)], orig, attempts + [notice], send, now)
    ensures !send(notice) ==> MarkedWhereDelivered(rows, orig, attempts + [notice], send, now)
  {
    forall i | 0 <= i < |orig|
      ensures Delivered(attempts + [notice], send, orig[i].fcmToken) ==
        (Delivered(attempts, send, orig[i].fcmToken) || (i == m && send(notice)))
    {
      DeliveredAppend(attempts, notice, send, orig[i].fcmToken);
    }
  }

  /** A table that follows the pushes has the ids and token values of the original rows. */
  lemma SaveTarget(rows: seq<DeviceTokenRecord>, orig: seq<DeviceTokenRecord>, attempts: seq<Notice>,
                   send: Notice -> bool, now: int, m: nat)
    requires MarkedWhereDelivered(rows, orig, attempts, send, now)
    requires Tables.UniqueKeys(orig, TokenId) && Tables.UniqueKeys(orig, FcmTokenOf) && m < |orig|
    ensures rows[m].id == orig[m].id
    ensures forall i :: 0 <= i < |rows| ==> (rows[i].id == orig[m].id <==> rows[i].fcmToken == orig[m].fcmToken)
  {
    assert forall i :: 0 <= i < |rows| ==> rows[i].id == orig[i].id && rows[i].fcmToken == orig[i].fcmToken;
  }

  /** One push to the active token `orig[m]`; on success the token is marked used at `now` and saved. */
  method PushOne(store: DeviceTokenStore, token: DeviceTokenRecord, notice: Notice, send: Notice -> bool, now: int,
                 ghost orig: seq<DeviceTokenRecord>, ghost attempts: seq<Notice>, ghost m: nat)
    returns (success: bool)
    requires store.Valid() && Tables.UniqueKeys(orig, TokenId) && Tables.UniqueKeys(orig, FcmTokenOf)
    requires m < |orig| && orig[m] == token && token.isActive && notice.fcmToken == token.fcmToken
    requires MarkedWhereDelivered(store.rows, orig, attempts, send, now)
    modifies store
    ensures success == send(notice)
    ensures store.Valid() && store.nextId == old(store.nextId)
    ensures MarkedWhereDelivered(store.rows, orig, attempts + [notice], send, now)
    ensures |store.saves| == |old(store.saves)| + (if success then 1 else 0)
  {
    success := send(notice);
    MarkStep(store.rows, orig, attempts, notice, send, now, m);
    if success {
      var used := MarkedUsed(token, now);
      SaveTarget(store.rows, orig, attempts, send, now, m);
      Tables.SaveAt(store.rows, TokenId, used, m);
      store.Save(used);
    }
  }

  /** Push `goal` to every token of `active`, marking and saving each token whose push was accepted. */
  method NotifyTokens(store: DeviceTokenStore, goal: GoalRecord, active: seq<DeviceTokenRecord>, send: Notice -> bool,
                      now: int, hours: int, ghost orig: seq<DeviceTokenRecord>, ghost before: seq<Notice>)
    returns (sent: nat, notices: seq<Notice>)
    requires store.Valid() && Tables.UniqueKeys(orig, TokenId) && Tables.UniqueKeys(orig, FcmTokenOf)
    requires forall t :: t in active ==> t in orig && t.isActive
    requires MarkedWhereDelivered(store.rows, orig, before, send, now)
    modifies store
    ensures store.Valid() && store.nextId == old(store.nextId)
    ensures notices == Broadcast(goal, active, hours)
    ensures sent == Count(notices, send)
    ensures MarkedWhereDelivered(store.rows, orig, before + notices, send, now)
    ensures |store.saves| == |old(store.saves)| + sent
  {
    sent := 0;
    notices := [];
    assert before + notices == before;
    var j := 0;
    while j < |active|
      invariant 0 <= j <= |active|
      invariant store.Valid() && store.nextId == old(store.nextId)
      invariant notices == Broadcast(goal, active[..j], hours)
      invariant sent == Count(notices, send)
      invariant MarkedWhereDelivered(store.rows, orig, before + notices, send, now)
      invariant |store.saves| == |old(store.saves)| + sent
    {
      var token := active[j];
      var notice := Notice(token.fcmToken, goal.title, hours);
      assert token in active;
      ghost var m :| 0 <= m < |orig| && orig[m] == token;
      var success := PushOne(store, token, notice, send, now, orig, before + notices, m);
      if success {
        sent := sent + 1;
      }
      CountAppend(notices, notice, send);
      BroadcastStep(goal, active, j, hours);
      assert before + (notices + [notice]) == before + notices + [notice];
      notices := notices + [notice];
      j := j + 1;
    }
    assert active[..j] == active;
  }

  /** Push `goal` to every token of `active` when its reminders are on; otherwise do nothing. */
  method NotifyGoal(store: DeviceTokenStore, goal: GoalRecord, active: seq<DeviceTokenRecord>, send: Notice -> bool,
                    now: int, hours: int, ghost orig: seq<DeviceTokenRecord>, ghost before: seq<Notice>)
    returns (sent: nat, notices: seq<Notice>)
    requires store.Valid() && Tables.UniqueKeys(orig, TokenId) && Tables.UniqueKeys(orig, FcmTokenOf)
    requires forall t :: t in active ==> t in orig && t.isActive
    requires MarkedWhereDelivered(store.rows, orig, before, send, now)
    modifies store
    ensures store.Valid()
    ensures notices == if goal.reminderEnabled then Broadcast(goal, active, hours) else []
    ensures Count(before + notices, send) == Count(before, send) + sent
    ensures MarkedWhereDelivered(store.rows, orig, before + notices, send, now)
    ensures |store.saves| == |old(store.saves)| + sent
  {
    if goal.reminderEnabled {
      sent, notices := NotifyTokens(store, goal, active, send, now, hours, orig, before);
      CountConcat(before, notices, send);
    } else {
      sent, notices := 0, [];
      assert before + notices == before;
    }
  }

  /** Push every goal of `goals` that has reminders on to every token of `active`, in order. */
  method NotifyGoals(store: DeviceTokenStore, goals: seq<GoalRecord>, active: seq<DeviceTokenRecord>,
                     send: Notice -> bool, now: int, hours: int)
    returns (sentCount: nat, attempts: seq<Notice>)
    requires store.Valid()
    requires forall t :: t in active ==> t in store.rows && t.isActive
    modifies store
    ensures store.Valid()
    ensures attempts == Fanout(goals, active, hours)
    ensures sentCount == Count(attempts, send)
    ensures MarkedWhereDelivered(store.rows, old(store.rows), attempts, send, now)
    ensures |store.saves| == |old(store.saves)| + sentCount
  {
    ghost var orig := store.rows;
    NothingDelivered(store.rows, send, now);
    sentCount := 0;
    attempts := [];
    var i := 0;
    while i < |goals|
      invariant 0 <= i <= |goals|
      invariant store.Valid()
      invariant attempts == Fanout(goals[..i], active, hours)
      invariant sentCount == Count(attempts, send)
      invariant MarkedWhereDelivered(store.rows, orig, attempts, send, now)
      invariant |store.saves| == |old(store.saves)| + sentCount
    {
      FanoutStep(goals, i, active, hours);
      var sent, notices := NotifyGoal(store, goals[i], active, send, now, hours, orig, attempts);
      attempts := attempts + notices;
      sentCount := sentCount + sent;
      i := i + 1;
    }
    assert goals[..i] == goals;
  }

  /**
   * One warning pass for goals expiring within `hours`. Nothing is sent when no goal expires soon
   * or no token is active. Otherwise the pushes are exactly the fan-out of the expiring goals over
   * the active tokens, the count is the number of accepted pushes, and an active token is marked
   * used iff one of its pushes was accepted; every other row is unchanged.
   */
  method SendExpirationWarnings(goals: seq<GoalRecord>, q: ExpiryQueries, store: DeviceTokenStore,
                                send: Notice -> bool, now: int, hours: int)
    returns (sentCount: nat, attempts: seq<Notice>)
    requires store.Valid()
    modifies store
    ensures store.Valid()
    ensures GetExpiringSoonGoals(q, goals, now, hours) == [] || old(store.FindByIsActiveTrue()) == [] ==>
      attempts == [] && sentCount == 0 && store.rows == old(store.rows) && store.saves == old(store.saves)
    ensures GetExpiringSoonGoals(q, goals, now, hours) != [] && old(store.FindByIsActiveTrue()) != [] ==>
      attempts == Fanout(GetExpiringSoonGoals(q, goals, now, hours), old(store.FindByIsActiveTrue()), hours)
    ensures sentCount == Count(attempts, send)
    ensures sentCount <= Count(GetExpiringSoonGoals(q, goals, now, hours), ReminderOn) * |old(store.FindByIsActiveTrue())|
    ensures MarkedWhereDelivered(store.rows, old(store.rows), attempts, send, now)
    ensures |store.saves| == |old(store.saves)| + sentCount
  {
    var expiring := GetExpiringSoonGoals(q, goals, now, hours);
    NothingDelivered(store.rows, send, now);
    if |expiring| == 0 {
      return 0, [];
    }
    var active := store.FindByIsActiveTrue();
    if |active| == 0 {
      return 0, [];
    }
    sentCount, attempts := NotifyGoals(store, expiring, active, send, now, hours);
    FanoutLength(expiring, active, hours);
  }

  /** `sendDailyExpirationWarnings`: the pass for goals expiring within 24 hours. */
  method SendDailyExpirationWarnings(goals: seq<GoalRecord>, q: ExpiryQueries, store: DeviceTokenStore,
                                     send: Notice -> bool, now: int)
    returns (sentCount: nat, attempts: seq<Notice>)
    requires store.Valid()
    modifies store
    ensures store.Valid()
    ensures forall n :: n in attempts ==> n.hoursLeft == DailyWarningHours
    ensures GetExpiringSoonGoals(q, goals, now, DailyWarningHours) != [] && old(store.FindByIsActiveTrue()) != [] ==>
      attempts == Fanout(GetExpiringSoonGoals(q, goals, now, DailyWarningHours), old(store.FindByIsActiveTrue()), DailyWarningHours)
    ensures GetExpiringSoonGoals(q, goals, now, DailyWarningHours) == [] || old(store.FindByIsActiveTrue()) == [] ==>
      attempts == [] && sentCount == 0 && store.rows == old(store.rows) && store.saves == old(store.saves)
    ensures sentCount == Count(attempts, send)
    ensures sentCount <= Count(GetExpiringSoonGoals(q, goals, now, DailyWarningHours), ReminderOn) * |old(store.FindByIsActiveTrue())|
    ensures MarkedWhereDelivered(store.rows, old(store.rows), attempts, send, now)
    ensures |store.saves| == |old(store.saves)| + sentCount
  {
    sentCount, attempts := SendExpirationWarnings(goals, q, store, send, now, DailyWarningHours);
    forall n | n in attempts ensures n.hoursLeft == DailyWarningHours {
      FanoutMembership(GetExpiringSoonGoals(q, goals, now, DailyWarningHours), old(store.FindByIsActiveTrue()), DailyWarningHours, n);
    }
  }

  /** `sendUrgentExpirationWarnings`: the pass for goals expiring within 3 hours. */
  method SendUrgentExpirationWarnings(goals: seq<GoalRecord>, q: ExpiryQueries, store: DeviceTokenStore,
                                      send: Notice -> bool, now: int)
    returns (sentCount: nat, attempts: seq<Notice>)
    requires store.Valid()
    modifies store
    ensures store.Valid()
    ensures forall n :: n in attempts ==> n.hoursLeft == UrgentWarningHours
    ensures GetExpiringSoonGoals(q, goals, now, UrgentWarningHours) != [] && old(store.FindByIsActiveTrue()) != [] ==>
      attempts == Fanout(GetExpiringSoonGoals(q, goals, now, UrgentWarningHours), old(store.FindByIsActiveTrue()), UrgentWarningHours)
    ensures GetExpiringSoonGoals(q, goals, now, UrgentWarningHours) == [] || old(store.FindByIsActiveTrue()) == [] ==>
      attempts == [] && sentCount == 0 && store.rows == old(store.rows) && store.saves == old(store.saves)
    ensures sentCount == Count(attempts, send)
    ensures sentCount <= Count(GetExpiringSoonGoals(q, goals, now, UrgentWarningHours), ReminderOn) * |old(store.FindByIsActiveTrue())|
    ensures MarkedWhereDelivered(store.rows, old(store.rows), attempts, send, now)
    ensures |store.saves| == |old(store.saves)| + sentCount
  {
    sentCount, attempts := SendExpirationWarnings(goals, q, store, send, now, UrgentWarningHours);
    forall n | n in attempts ensures n.hoursLeft == UrgentWarningHours {
      FanoutMembership(GetExpiringSoonGoals(q, goals, now, UrgentWarningHours), old(store.FindByIsActiveTrue()), UrgentWarningHours, n);
    }
  }

  /** `sendExpiredGoalNotifications`: sends nothing and changes nothing. */
  method SendExpiredGoalNotifications(store: DeviceTokenStore) returns (attempts: seq<Notice>)
    ensures attempts == []
  {
    attempts := [];
  }
}
