# Goal management app: a Dafny model of the backend core and the routine widget

This project models the server side of a personal goal and routine tracker:
- the goal hierarchy (lifetime, lifetime-sub, yearly, monthly, weekly and daily goals) and its status lifecycle;
- the goal table and its queries;
- the scheduled passes that expire and archive goals;
- the push warnings sent to registered devices before a goal expires;
- the device-token endpoints (register, deactivate, test push);
- routines with their once-a-day completions.

It also models the Android home-screen widget that lists today's routines and lets the user tick them off.

The entities the Java code updates in place are classes:
- `GoalEntity.Goal`;
- `DeviceTokens.DeviceToken`;
- `RoutineEntity.Routine`;
- `RoutineEntity.RoutineCompletion`.

Each of these has field-level `modifies` frames. Where a service applies the same transition to a stored row, the class's methods are tied to a value function on the row record (`Record() == MarkedUsed(old(Record()), now)`).

Each repository is a class that holds its rows as a sequence of records and the next identity value. Its `Valid()` invariant says that ids are unique and were handed out, and for device tokens also that the token value is unique.

Services are methods over those stores. They return `Result`/`Outcome` values where the Java code throws or answers 4xx. The widget's preference file is a class with three maps.

Time is whole seconds of local time, passed in as `now`. The push transport and the widget's HTTP response are parameters.

The main proved properties:
- The goal type table: a child is always strictly narrower than its parent, and a daily goal takes no child. `getAvailableSubTypes` lists exactly the allowed child types, widest first.
- Progress with children is done ÷ total × 100 (`Share`, whose value `r` satisfies `r · total = 100 · done`), so one done child of two gives exactly 50. It lies in [0, 100], and is 100 exactly when every child is done and 0 exactly when none is. The service's progress over the table agrees with the entity's progress over consistent rows.
- The expiration passes transform exactly the rows the query returns, keep every id and report the query's size. Running a second pass changes nothing.
- A warning pass:
  - its pushes are exactly (reminder-enabled expiring goals) × (active tokens), in order;
  - its count is the number of accepted pushes;
  - an active token is marked used exactly when one of its pushes was accepted.
- Device-token registration is an upsert. Afterwards the table holds exactly one row for the token, active, and no other token's row changes.
- Routine completion:
  - completing twice on the same day adds one row;
  - un-completing right after completing restores the table;
  - both operations keep "at most one completion per routine and day";
  - under that invariant, the "today" query can never raise its non-unique-result error.
- Widget:
  - the parsed list keeps exactly the items with a non-zero id and a title, in order;
  - the summary counts read back;
  - slot keys never collide;
  - a refresh writes exactly the summary, the time and the three slots;
  - a rendered slot shows the parsed routine at its position;
  - a tap on a shown routine requests the opposite of its checked state.

Files:
- `wrappers.dfy`: `Option`, `Result`, `Outcome`.
- `seqs.dfy`: filter, map, count and their lemmas.
- `tables.dfy`: save, save-all, delete and find over keyed rows.
- `clock.dfy`: days and hours.
- `goal.dfy`, `goal_repository.dfy`, `goal_service.dfy` and `goal_expiration.dfy`: goals.
- `device_token.dfy` and `device_token_controller.dfy`: device tokens.
- `notification_scheduler.dfy`: the warning passes.
- `routine.dfy` and `routine_service.dfy`: routines.
- `routine_widget.dfy`: the Android widget.

## Model

| member | source | states |
|---|---|---|
| Clock.StartOfDay | backend/src/main/java/com/goalapp/service/RoutineService.java:136 | midnight of the day of `t`: at or before `t`, less than a day before it, and a multiple of a day |
| Clock.PlusHours | backend/src/main/java/com/goalapp/service/GoalExpirationService.java:91 | adding a non-negative number of hours never moves a time back, and a positive number moves it forward |
| Clock.SameDayIsDayWindow | backend/src/main/java/com/goalapp/service/GoalService.java:167-169 | `DATE(a) = DATE(b)` holds exactly when `a` lies in `[midnight of b, midnight of b + 1 day)`, the window `getTodayGoals` queries |
| Clock.SameDayIffSameStart | backend/src/main/java/com/goalapp/repository/GoalRepository.java:60 | two instants share a calendar day exactly when their days start at the same midnight |
| GoalEntity.ValidChildType | backend/src/main/java/com/goalapp/entity/Goal.java:79-102 | the parent/child type table, equivalently "lifetime takes lifetime-sub, every other type takes exactly the strictly narrower non-lifetime types"; a child is always narrower, and a daily goal takes no child |
| GoalEntity.MarkedCompleted | backend/src/main/java/com/goalapp/entity/Goal.java:130-134 | the row after `markAsCompleted`: status COMPLETED, flag set, completion time `now`, flag and status consistent, every other column unchanged |
| GoalEntity.MarkedIncomplete | backend/src/main/java/com/goalapp/entity/Goal.java:137-141 | the row after `markAsIncomplete`: status ACTIVE, flag cleared, no completion time, every other column unchanged |
| GoalEntity.CompleteThenIncomplete | backend/src/main/java/com/goalapp/entity/Goal.java:130-141 | completing and then un-completing a consistent active goal restores it |
| GoalEntity.Progress | backend/src/main/java/com/goalapp/entity/Goal.java:144-154 | progress lies in [0, 100]; a leaf is 100 iff done and 0 iff not; with children it is `Share(done, total)`, i.e. the `r` with `r · total = 100 · done`, 100 iff every child is done and 0 iff none is |
| GoalEntity.HalfDoneIsFifty | backend/src/main/java/com/goalapp/entity/Goal.java:149-153 | one done child of two gives exactly 50 |
| GoalEntity.DoneShare | backend/src/main/java/com/goalapp/entity/Goal.java:149-153 | the share of set flags in a non-empty list: `Share(set, length)`, so times the length it is 100 × the set count; in [0, 100], 100 iff all are set and 0 iff none is |
| GoalEntity.Share | backend/src/main/java/com/goalapp/entity/Goal.java:153 | `c / n * 100` lies in [0, 100], is 100 iff `c == n`, 0 iff `c == 0`, and times `n` gives `100 c` |
| GoalEntity.CountDone | backend/src/main/java/com/goalapp/entity/Goal.java:149-151 | the done count equals the length iff every flag is set, and is 0 iff none is |
| GoalEntity.CompletedFlags | backend/src/main/java/com/goalapp/entity/Goal.java:150 | the children's `isCompleted` flags, one per child, in order |
| GoalEntity.Goal.constructor | backend/src/main/java/com/goalapp/entity/Goal.java:42-76 | the builder defaults: ACTIVE, not completed, priority 1, no reminder, no parent, no children |
| GoalEntity.Goal.IsIndependentGoal | backend/src/main/java/com/goalapp/entity/Goal.java:105-111 | no parent and a type of a year or narrower; lifetime goals are never independent |
| GoalEntity.Goal.AddSubGoal | backend/src/main/java/com/goalapp/entity/Goal.java:114-121 | a valid child is appended and gets this goal as parent; an invalid one fails with the invalid-relationship error and changes nothing |
| GoalEntity.Goal.RemoveSubGoal | backend/src/main/java/com/goalapp/entity/Goal.java:124-127 | the first occurrence of the child is removed and its parent cleared |
| GoalEntity.Goal.MarkAsCompleted | backend/src/main/java/com/goalapp/entity/Goal.java:130-134 | the object's row becomes `MarkedCompleted` of its old row |
| GoalEntity.Goal.MarkAsIncomplete | backend/src/main/java/com/goalapp/entity/Goal.java:137-141 | the object's row becomes `MarkedIncomplete` of its old row |
| GoalEntity.Goal.ProgressPercentage | backend/src/main/java/com/goalapp/entity/Goal.java:144-154 | the entity's progress over its children's flags: leaf 100/0 by its own flag; with children `Share(completed children, children)`, in [0, 100], 100 iff all children done, 0 iff none |
| GoalRepository.GoalStore.constructor | backend/src/main/java/com/goalapp/repository/GoalRepository.java:17 | an empty valid table |
| GoalRepository.GoalStore.FindById | backend/src/main/java/com/goalapp/repository/GoalRepository.java:27 | a found row has the id; nothing is found iff no row has it |
| GoalRepository.GoalStore.Save | backend/src/main/java/com/goalapp/service/GoalService.java:91 | the row with the same id is replaced (or the row appended), the invariant is kept, one write is logged |
| GoalRepository.GoalStore.SaveAll | backend/src/main/java/com/goalapp/service/GoalExpirationService.java:50 | the batch is saved row by row as one logged write, keeping the invariant |
| GoalRepository.GoalStore.Insert | backend/src/main/java/com/goalapp/service/GoalService.java:59 | a new row gets the next identity value and is appended |
| GoalRepository.GoalStore.Delete | backend/src/main/java/com/goalapp/service/GoalService.java:103 | the row with the id is removed, keeping the invariant |
| GoalRepository.FindByParentGoalIsNull | backend/src/main/java/com/goalapp/repository/GoalRepository.java:31 | exactly the rows without a parent |
| GoalRepository.FindByType | backend/src/main/java/com/goalapp/repository/GoalRepository.java:35 | exactly the rows of the type |
| GoalRepository.FindByStatus | backend/src/main/java/com/goalapp/repository/GoalRepository.java:39 | exactly the rows with the status |
| GoalRepository.FindByParentGoalId | backend/src/main/java/com/goalapp/repository/GoalRepository.java:47-48 | exactly the rows whose parent has the id |
| GoalRepository.FindOverdueGoals | backend/src/main/java/com/goalapp/repository/GoalRepository.java:55-56 | exactly the active rows with a due date before `t` |
| GoalRepository.FindGoalsDueToday | backend/src/main/java/com/goalapp/repository/GoalRepository.java:60-61 | exactly the active rows due on the calendar day of `t` |
| GoalRepository.FindTodayGoals | backend/src/main/java/com/goalapp/repository/GoalRepository.java:92-97 | exactly the daily goals created, goals due, and completed goals completed in `[s, e)` |
| GoalRepository.FindCompletedGoalsBetween | backend/src/main/java/com/goalapp/repository/GoalRepository.java:113-115 | exactly the completed rows with `s <= completedAt <= e` |
| GoalRepository.FindExpiredGoals | backend/src/main/java/com/goalapp/service/GoalExpirationService.java:36 | exactly the rows the expired query accepts, and as many as it accepts |
| GoalRepository.FindExpiredGoalsForArchiving | backend/src/main/java/com/goalapp/service/GoalExpirationService.java:66 | exactly the rows the archiving query accepts, and as many as it accepts |
| GoalRepository.FindExpiringSoonGoals | backend/src/main/java/com/goalapp/service/GoalExpirationService.java:93 | exactly the rows the expiring-soon query accepts for the window |
| GoalService.GetGoalById | backend/src/main/java/com/goalapp/service/GoalService.java:35-38 | the row with the id, or the not-found error naming the id exactly when no row has it |
| GoalService.CreateGoal | backend/src/main/java/com/goalapp/service/GoalService.java:55-63 | the draft is stored ACTIVE, stamped `now`, under the next id, as one appended row |
| GoalService.ApplyUpdate | backend/src/main/java/com/goalapp/service/GoalService.java:73-89 | each non-null field (and a non-zero priority) replaces the old value, `updatedAt` becomes `now`, nothing else changes |
| GoalService.ApplyUpdateIdempotent | backend/src/main/java/com/goalapp/service/GoalService.java:69-95 | applying the same update twice equals applying it once |
| GoalService.EmptyUpdateTouchesOnlyUpdatedAt | backend/src/main/java/com/goalapp/service/GoalService.java:73-89 | an update with every field absent only refreshes `updatedAt` |
| GoalService.UpdateRow | backend/src/main/java/com/goalapp/service/GoalService.java:69-70 | a missing id fails and writes nothing; otherwise the row is replaced and saved, and every other id keeps its row |
| GoalService.UpdateGoal | backend/src/main/java/com/goalapp/service/GoalService.java:69-95 | not-found leaves the table as it was; otherwise the row becomes `ApplyUpdate` of itself and no other row changes |
| GoalService.CompleteGoal | backend/src/main/java/com/goalapp/service/GoalService.java:111-119 | not-found leaves the table; otherwise the row becomes `MarkedCompleted` at `now`, other rows unchanged |
| GoalService.UncompleteGoal | backend/src/main/java/com/goalapp/service/GoalService.java:125-133 | not-found leaves the table; otherwise the row becomes `MarkedIncomplete`, other rows unchanged |
| GoalService.DeleteGoal | backend/src/main/java/com/goalapp/service/GoalService.java:101-105 | not-found fails and writes nothing; otherwise the id is gone and every other id keeps its row |
| GoalService.AvailableSubTypes | backend/src/main/java/com/goalapp/service/GoalService.java:196-205 | lists exactly the child types the entity's table accepts, in strictly narrowing order |
| GoalService.CalculateProgressPercentage | backend/src/main/java/com/goalapp/service/GoalService.java:175-191 | 0 for no goal; in [0, 100]; a leaf is 100/0 by its status; with children, `Share(COMPLETED children, children)`, 100 iff all children are COMPLETED and 0 iff none is |
| GoalService.HalfCompletedChildrenIsFifty | backend/src/main/java/com/goalapp/service/GoalService.java:181-186 | a goal whose two children are COMPLETED and not COMPLETED is at exactly 50 |
| GoalService.ProgressAgreesWithEntity | backend/src/main/java/com/goalapp/service/GoalService.java:175-191 | over rows whose flag agrees with their status, the service's progress equals the entity's progress |
| GoalService.TodayGoals | backend/src/main/java/com/goalapp/service/GoalService.java:166-170 | a goal is returned iff it is a daily goal created on the day of `now`, is due that day whatever its status, or was completed that day; every active goal due today is among them |
| GoalExpiration.TransformMatches | backend/src/main/java/com/goalapp/service/GoalExpirationService.java:44-50 | same length; each matching row is transformed in place and every other row kept |
| GoalExpiration.SecondPassChangesNothing | backend/src/main/java/com/goalapp/service/GoalExpirationService.java:32-52 | when a transformed goal no longer matches, a second pass finds nothing and leaves the table unchanged |
| GoalExpiration.TransformEach | backend/src/main/java/com/goalapp/service/GoalExpirationService.java:44-48 | the loop produces the transition of each found goal, in order |
| GoalExpiration.TransformAndSaveAll | backend/src/main/java/com/goalapp/service/GoalExpirationService.java:108-114 | the table ends with exactly the matching rows transformed, one `saveAll` of the transformed list is logged, and the count is the number of matches |
| GoalExpiration.ArchiveThreshold | backend/src/main/java/com/goalapp/service/GoalExpirationService.java:65 | the threshold is 24 hours before `now` |
| GoalExpiration.CheckAndExpireGoals | backend/src/main/java/com/goalapp/service/GoalExpirationService.java:32-52 | expired-query rows are marked expired in place; no write at all when the query is empty |
| GoalExpiration.ArchiveExpiredGoals | backend/src/main/java/com/goalapp/service/GoalExpirationService.java:61-82 | rows the archiving query returns for `now - 24h` are archived in place; no write when it is empty |
| GoalExpiration.GetExpiringSoonGoals | backend/src/main/java/com/goalapp/service/GoalExpirationService.java:89-97 | exactly the rows expiring in the window from `now` to `now + hours` |
| GoalExpiration.ManualExpireCheck | backend/src/main/java/com/goalapp/service/GoalExpirationService.java:104-115 | like the scheduled pass but always saves, and returns the number of expired rows |
| GoalExpiration.ManualArchiveCheck | backend/src/main/java/com/goalapp/service/GoalExpirationService.java:122-133 | like the scheduled archive pass but always saves, and returns the number archived |
| DeviceTokens.Created | backend/src/main/java/com/goalapp/entity/DeviceToken.java:80-84 | `onCreate` sets both timestamps to `now` and nothing else |
| DeviceTokens.MarkedUsed | backend/src/main/java/com/goalapp/entity/DeviceToken.java:94-97 | last-used and updated times become `now`, id, token and activity kept, nothing else changes |
| DeviceTokens.Deactivated | backend/src/main/java/com/goalapp/entity/DeviceToken.java:102-105 | inactive, updated at `now`, nothing else changes |
| DeviceTokens.Activated | backend/src/main/java/com/goalapp/entity/DeviceToken.java:110-113 | active, updated at `now`, nothing else changes |
| DeviceTokens.MarkedUsedIdempotent | backend/src/main/java/com/goalapp/entity/DeviceToken.java:94-97 | marking used twice at one time equals marking once |
| DeviceTokens.DeactivateThenActivate | backend/src/main/java/com/goalapp/entity/DeviceToken.java:102-113 | deactivate-then-activate equals activate, and the last of the two calls decides the flag |
| DeviceTokens.DeviceToken.constructor | backend/src/main/java/com/goalapp/entity/DeviceToken.java:57-59 | the builder default: active, no timestamps |
| DeviceTokens.DeviceToken.OnCreate | backend/src/main/java/com/goalapp/entity/DeviceToken.java:80-84 | the object's row becomes `Created` of its old row |
| DeviceTokens.DeviceToken.MarkAsUsed | backend/src/main/java/com/goalapp/entity/DeviceToken.java:94-97 | the object's row becomes `MarkedUsed` of its old row |
| DeviceTokens.DeviceToken.Deactivate | backend/src/main/java/com/goalapp/entity/DeviceToken.java:102-105 | the object's row becomes `Deactivated` of its old row |
| DeviceTokens.DeviceToken.Activate | backend/src/main/java/com/goalapp/entity/DeviceToken.java:110-113 | the object's row becomes `Activated` of its old row |
| DeviceTokens.DeviceTokenStore.constructor | backend/src/main/java/com/goalapp/repository/DeviceTokenRepository.java:17 | an empty valid table |
| DeviceTokens.DeviceTokenStore.FindById | backend/src/main/java/com/goalapp/controller/DeviceTokenController.java:112 | a found row has the id; nothing is found iff no row has it |
| DeviceTokens.DeviceTokenStore.FindByFcmToken | backend/src/main/java/com/goalapp/repository/DeviceTokenRepository.java:22 | a found row has the token value; nothing is found iff no row has it |
| DeviceTokens.DeviceTokenStore.FindByIsActiveTrue | backend/src/main/java/com/goalapp/repository/DeviceTokenRepository.java:27 | exactly the active rows |
| DeviceTokens.DeviceTokenStore.Save | backend/src/main/java/com/goalapp/controller/DeviceTokenController.java:74 | the row with the id is overwritten and found by id and token; every other token value and id finds what it found before |
| DeviceTokens.DeviceTokenStore.Insert | backend/src/main/java/com/goalapp/controller/DeviceTokenController.java:64-74 | a new token gets the next id and both timestamps and is found by its value; no other token changes |
| DeviceTokenController.RequiredToken | backend/src/main/java/com/goalapp/controller/DeviceTokenController.java:43 | a token passes exactly when it is present and non-empty |
| DeviceTokenController.RegisterToken | backend/src/main/java/com/goalapp/controller/DeviceTokenController.java:35-91 | a missing token fails and writes nothing; a known token is updated and reactivated in its own row; an unknown token gets one new active row under the next id, stamped by `onCreate` (created and updated at `now`, never used); afterwards the token finds exactly the saved row and no other token changes |
| DeviceTokenController.DeleteToken | backend/src/main/java/com/goalapp/controller/DeviceTokenController.java:146-169 | not-found changes nothing; otherwise the row is deactivated in place and no other id changes |
| DeviceTokenController.SendTestNotification | backend/src/main/java/com/goalapp/controller/DeviceTokenController.java:176-205 | a missing token is rejected before sending; otherwise one message with the default title and body is sent, the answer is its success, and only a success marks the token's row used |
| NotificationScheduler.Broadcast | backend/src/main/java/com/goalapp/service/NotificationScheduler.java:59-64 | one push per token, in token order, to that token about the goal |
| NotificationScheduler.BroadcastStep | backend/src/main/java/com/goalapp/service/NotificationScheduler.java:59-71 | the pushes to one more token are the earlier pushes plus the push to that token |
| NotificationScheduler.FanoutStep | backend/src/main/java/com/goalapp/service/NotificationScheduler.java:50-72 | one more goal adds its broadcast when its reminder is on, and nothing otherwise |
| NotificationScheduler.FanoutLength | backend/src/main/java/com/goalapp/service/NotificationScheduler.java:50-72 | a pass makes (reminder-enabled goals) × (active tokens) pushes |
| NotificationScheduler.FanoutMembership | backend/src/main/java/com/goalapp/service/NotificationScheduler.java:50-72 | a push is made exactly when it goes to an active token about a reminder-enabled goal |
| NotificationScheduler.DeliveredAppend | backend/src/main/java/com/goalapp/service/NotificationScheduler.java:66-70 | a token has an accepted push after one more push iff it had one before or this push went to it and was accepted |
| NotificationScheduler.NothingDelivered | backend/src/main/java/com/goalapp/service/NotificationScheduler.java:49 | before any push the token table follows the empty list of pushes |
| NotificationScheduler.MarkStep | backend/src/main/java/com/goalapp/service/NotificationScheduler.java:60-70 | marking the pushed token on success (and nothing on failure) keeps the table following the pushes |
| NotificationScheduler.PushOne | backend/src/main/java/com/goalapp/service/NotificationScheduler.java:60-70 | the result is the transport's verdict; on success exactly that token is marked used and saved |
| NotificationScheduler.NotifyTokens | backend/src/main/java/com/goalapp/service/NotificationScheduler.java:59-71 | the pushes for one goal are its broadcast, the count is the accepted ones, and the table follows the pushes |
| NotificationScheduler.NotifyGoal | backend/src/main/java/com/goalapp/service/NotificationScheduler.java:50-71 | a goal with reminders off sends nothing; otherwise its broadcast, with the accepted ones counted |
| NotificationScheduler.NotifyGoals | backend/src/main/java/com/goalapp/service/NotificationScheduler.java:49-72 | the pushes are the fan-out of the goals over the tokens, the count is the accepted ones, and the table follows the pushes |
| NotificationScheduler.SendExpirationWarnings | backend/src/main/java/com/goalapp/service/NotificationScheduler.java:31-76 | nothing when no goal expires soon or no token is active; otherwise the fan-out, counted by accepted pushes and bounded by goals × tokens; an active token is marked used iff one of its pushes was accepted |
| NotificationScheduler.SendDailyExpirationWarnings | backend/src/main/java/com/goalapp/service/NotificationScheduler.java:30-76 | the 24-hour pass: nothing sent, saved or changed when no goal expires within 24 hours or no token is active; otherwise the fan-out; every push says 24 hours left; the count is the accepted pushes, at most reminder goals × active tokens, one save each; a token is marked used iff one of its pushes was accepted |
| NotificationScheduler.SendUrgentExpirationWarnings | backend/src/main/java/com/goalapp/service/NotificationScheduler.java:82-126 | the 3-hour pass: nothing sent, saved or changed when no goal expires within 3 hours or no token is active; otherwise the fan-out; every push says 3 hours left; the count is the accepted pushes, at most reminder goals × active tokens, one save each; a token is marked used iff one of its pushes was accepted |
| NotificationScheduler.SendExpiredGoalNotifications | backend/src/main/java/com/goalapp/service/NotificationScheduler.java:132-140 | sends nothing |
| RoutineEntity.TrimStart | backend/src/main/java/com/goalapp/entity/Routine.java:95 | a suffix of the input whose dropped characters are all at or below the space; empty iff every character is |
| RoutineEntity.TrimEnd | backend/src/main/java/com/goalapp/entity/Routine.java:95 | a prefix of the input whose dropped characters are all at or below the space; empty iff every character is |
| RoutineEntity.Trim | backend/src/main/java/com/goalapp/entity/Routine.java:95 | `trim()` is empty iff every character is at or below the space; otherwise both ends are above it |
| RoutineEntity.CheckFields | backend/src/main/java/com/goalapp/service/RoutineService.java:77-84 | title-required iff the title is absent or blank; frequency-required iff the title is fine and no frequency; pass iff both are fine |
| RoutineEntity.RoutineCompletion.constructor | backend/src/main/java/com/goalapp/service/RoutineService.java:143-146 | a completion with owner and note, id and time not yet set |
| RoutineEntity.Routine.constructor | backend/src/main/java/com/goalapp/entity/Routine.java:39-52 | the builder defaults: active, no completions |
| RoutineEntity.Routine.AddCompletion | backend/src/main/java/com/goalapp/entity/Routine.java:57-60 | the completion is appended and owned by this routine; the count grows by one |
| RoutineEntity.Routine.RemoveCompletion | backend/src/main/java/com/goalapp/entity/Routine.java:65-68 | the first occurrence is removed and its owner cleared; the count drops by one when present; other completions keep their multiplicity |
| RoutineEntity.Routine.Activate | backend/src/main/java/com/goalapp/entity/Routine.java:73-75 | the routine is active |
| RoutineEntity.Routine.Deactivate | backend/src/main/java/com/goalapp/entity/Routine.java:80-82 | the routine is inactive |
| RoutineEntity.Routine.CompletionCount | backend/src/main/java/com/goalapp/entity/Routine.java:87-89 | the number of completions held |
| RoutineEntity.Routine.Validate | backend/src/main/java/com/goalapp/entity/Routine.java:94-101 | passes iff a non-blank title and a frequency are set; otherwise title-required iff the title is blank, else frequency-required |
| RoutineService.RoutineStore.constructor | backend/src/main/java/com/goalapp/repository/RoutineRepository.java:12 | two empty valid tables |
| RoutineService.RoutineStore.FindById | backend/src/main/java/com/goalapp/service/RoutineService.java:46 | a found routine has the id; nothing is found iff no routine has it |
| RoutineService.RoutineStore.SaveRoutine | backend/src/main/java/com/goalapp/service/RoutineService.java:104 | the routine with the id is overwritten; completions unchanged; invariant kept |
| RoutineService.RoutineStore.InsertRoutine | backend/src/main/java/com/goalapp/service/RoutineService.java:71 | a new routine gets the next id and is appended |
| RoutineService.RoutineStore.DeleteRoutine | backend/src/main/java/com/goalapp/service/RoutineService.java:114 | the routine is removed and, by the cascade, exactly its completions with it |
| RoutineService.RoutineStore.InsertCompletion | backend/src/main/java/com/goalapp/service/RoutineService.java:149 | a new completion gets the next id and the insertion time, and is appended |
| RoutineService.RoutineStore.DeleteCompletion | backend/src/main/java/com/goalapp/service/RoutineService.java:162 | the completion with the id is removed; routines unchanged |
| RoutineService.GetRoutineById | backend/src/main/java/com/goalapp/service/RoutineService.java:45-48 | the routine, or the not-found error naming the id exactly when no routine has it |
| RoutineService.GetTodayRoutines | backend/src/main/java/com/goalapp/service/RoutineService.java:60-62 | exactly the active routines |
| RoutineService.GetRoutinesByFrequency | backend/src/main/java/com/goalapp/service/RoutineService.java:53-55 | exactly the active routines of the frequency |
| RoutineService.GetRoutineCompletions | backend/src/main/java/com/goalapp/service/RoutineService.java:171-173 | exactly the completions of the routine |
| RoutineService.GetRoutineCompletionsByDateRange | backend/src/main/java/com/goalapp/service/RoutineService.java:178-183 | exactly the routine's completions from midnight of the start day through the last instant of the end day |
| RoutineService.DateRangeKeepsWholeDays | backend/src/main/java/com/goalapp/service/RoutineService.java:180-181 | a completion made on the start day or the end day is always returned |
| RoutineService.CreateRoutine | backend/src/main/java/com/goalapp/service/RoutineService.java:68-72 | a failed check returns its error and stores nothing; otherwise the routine is stored under the next id |
| RoutineService.UpdatedRoutine | backend/src/main/java/com/goalapp/service/RoutineService.java:93-101 | each non-null value replaces the old one; id and activity kept |
| RoutineService.UpdatedRoutineIdempotent | backend/src/main/java/com/goalapp/service/RoutineService.java:90-105 | the same update twice is the update once; an all-null update changes nothing |
| RoutineService.UpdateSkipsValidation | backend/src/main/java/com/goalapp/service/RoutineService.java:90-105 | the update accepts a blank title that creation would reject |
| RoutineService.Toggled | backend/src/main/java/com/goalapp/service/RoutineService.java:123 | the activity flag is flipped and nothing else changes |
| RoutineService.ToggledTwice | backend/src/main/java/com/goalapp/service/RoutineService.java:121-126 | toggling twice restores the routine |
| RoutineService.UpdateRoutineRow | backend/src/main/java/com/goalapp/service/RoutineService.java:91 | a missing id fails and writes nothing; otherwise only that routine is replaced |
| RoutineService.UpdateRoutine | backend/src/main/java/com/goalapp/service/RoutineService.java:90-105 | not-found changes nothing; otherwise the routine becomes `UpdatedRoutine` of itself, others unchanged |
| RoutineService.ToggleRoutineActive | backend/src/main/java/com/goalapp/service/RoutineService.java:121-126 | not-found changes nothing; otherwise the routine's flag is flipped, others unchanged |
| RoutineService.DeleteRoutine | backend/src/main/java/com/goalapp/service/RoutineService.java:111-115 | not-found changes nothing; otherwise the routine and its completions are gone and every other id keeps its row |
| RoutineService.FindTodayCompletion | backend/src/main/java/com/goalapp/repository/RoutineCompletionRepository.java:36-42 | no match gives nothing, exactly one gives it, more than one is the non-unique-result error |
| RoutineService.IsCompletedToday | backend/src/main/java/com/goalapp/service/RoutineService.java:188-191 | true iff the routine has a completion since midnight; an error exactly when the query finds several |
| RoutineService.CompleteRoutine | backend/src/main/java/com/goalapp/service/RoutineService.java:132-150 | a missing routine fails first; a completion already made today is returned and nothing is saved; otherwise exactly one completion stamped `now` is added |
| RoutineService.UncompleteRoutine | backend/src/main/java/com/goalapp/service/RoutineService.java:156-166 | today's completion is deleted when there is one; otherwise nothing changes |
| RoutineService.FindAfterAppend | backend/src/main/java/com/goalapp/service/RoutineService.java:137-149 | a completion added today is the one the query then finds |
| RoutineService.CompleteTwiceAddsOnce | backend/src/main/java/com/goalapp/service/RoutineService.java:132-150 | two completions on one day leave the table as one completion does |
| RoutineService.UncompleteAfterCompleteRestores | backend/src/main/java/com/goalapp/service/RoutineService.java:132-166 | un-completing right after a completion restores the completions |
| RoutineService.TwoMatches | backend/src/main/java/com/goalapp/repository/RoutineCompletionRepository.java:39 | when more than one row matches, two distinct matching positions exist |
| RoutineService.TodayQueryIsUnique | backend/src/main/java/com/goalapp/repository/RoutineCompletionRepository.java:36-42 | with at most one completion per routine and day and none in the future, the today query and `isCompletedToday` never fail |
| RoutineService.CompleteKeepsOnePerDay | backend/src/main/java/com/goalapp/service/RoutineService.java:132-150 | completing keeps at most one completion per routine and day, none in the future |
| RoutineService.UncompleteKeepsOnePerDay | backend/src/main/java/com/goalapp/service/RoutineService.java:156-166 | un-completing keeps the same invariant |
| RoutineService.RemovalKeepsOnePerDay | backend/src/main/java/com/goalapp/service/RoutineService.java:162 | removing any completion keeps the invariant |
| RoutineWidget.DigitChar | frontend/android/app/src/main/kotlin/com/example/goal_management_app/RoutineWidgetProvider.kt:183 | a decimal digit character for a digit value |
| RoutineWidget.Decimal | frontend/android/app/src/main/kotlin/com/example/goal_management_app/RoutineWidgetProvider.kt:183 | decimal digits with no leading zero |
| RoutineWidget.DecimalRoundTrip | frontend/android/app/src/main/kotlin/com/example/goal_management_app/RoutineWidgetProvider.kt:183 | the decimal text of a count reads back as the count |
| RoutineWidget.DecimalInjective | frontend/android/app/src/main/kotlin/com/example/goal_management_app/RoutineWidgetProvider.kt:85-87 | different numbers have different decimal texts |
| RoutineWidget.IntText | frontend/android/app/src/main/kotlin/com/example/goal_management_app/RoutineWidgetProvider.kt:51 | the template text of an `Int`, with a minus sign when negative |
| RoutineWidget.Kept | frontend/android/app/src/main/kotlin/com/example/goal_management_app/RoutineWidgetProvider.kt:271-284 | no longer than the input, and every kept routine has a non-zero id and a title |
| RoutineWidget.KeptMembership | frontend/android/app/src/main/kotlin/com/example/goal_management_app/RoutineWidgetProvider.kt:279-281 | a snapshot is kept iff some usable item produced it |
| RoutineWidget.KeptConcat | frontend/android/app/src/main/kotlin/com/example/goal_management_app/RoutineWidgetProvider.kt:274-282 | parsing two runs keeps each run's routines, in order |
| RoutineWidget.ParseRoutineList | frontend/android/app/src/main/kotlin/com/example/goal_management_app/RoutineWidgetProvider.kt:271-284 | the loop builds exactly `Kept` of the items |
| RoutineWidget.Summary | frontend/android/app/src/main/kotlin/com/example/goal_management_app/RoutineWidgetProvider.kt:178-184 | the empty-list text exactly when the list is empty |
| RoutineWidget.SummaryCounts | frontend/android/app/src/main/kotlin/com/example/goal_management_app/RoutineWidgetProvider.kt:178-184 | the completed count is at most the total, equals it iff all are completed, and both numbers read back from the text |
| RoutineWidget.SlotOf | frontend/android/app/src/main/kotlin/com/example/goal_management_app/RoutineWidgetProvider.kt:190-199 | slot `index` holds routine `index - 1` when there is one, otherwise the empty slot |
| RoutineWidget.SlotKeysDistinct | frontend/android/app/src/main/kotlin/com/example/goal_management_app/RoutineWidgetProvider.kt:75-87 | different slots have different title, id and completed keys, and no title key is the summary or time key |
| RoutineWidget.Lookup | frontend/android/app/src/main/kotlin/com/example/goal_management_app/RoutineWidgetProvider.kt:104 | the stored value, or the default when the key is absent |
| RoutineWidget.WidgetPrefs.constructor | frontend/android/app/src/main/kotlin/com/example/goal_management_app/RoutineWidgetProvider.kt:102 | empty preferences |
| RoutineWidget.WidgetPrefs.GetString | frontend/android/app/src/main/kotlin/com/example/goal_management_app/RoutineWidgetProvider.kt:104 | the stored string, or the default |
| RoutineWidget.WidgetPrefs.GetInt | frontend/android/app/src/main/kotlin/com/example/goal_management_app/RoutineWidgetProvider.kt:113 | the stored int, or the default |
| RoutineWidget.WidgetPrefs.GetBoolean | frontend/android/app/src/main/kotlin/com/example/goal_management_app/RoutineWidgetProvider.kt:114 | the stored boolean, or the default |
| RoutineWidget.WidgetPrefs.PutString | frontend/android/app/src/main/kotlin/com/example/goal_management_app/RoutineWidgetProvider.kt:186 | the key now maps to the value; every other entry unchanged |
| RoutineWidget.WidgetPrefs.PutInt | frontend/android/app/src/main/kotlin/com/example/goal_management_app/RoutineWidgetProvider.kt:193 | the key now maps to the value; every other entry unchanged |
| RoutineWidget.WidgetPrefs.PutBoolean | frontend/android/app/src/main/kotlin/com/example/goal_management_app/RoutineWidgetProvider.kt:194 | the key now maps to the value; every other entry unchanged |
| RoutineWidget.WriteSlotExtends | frontend/android/app/src/main/kotlin/com/example/goal_management_app/RoutineWidgetProvider.kt:189-200 | writing slot `index` adds that slot to a partial refresh and disturbs no earlier slot, the summary, the time or any unwritten key |
| RoutineWidget.WriteSlotKeepsNumbers | frontend/android/app/src/main/kotlin/com/example/goal_management_app/RoutineWidgetProvider.kt:193-194 | writing a slot's id and flag leaves every int and boolean entry outside the slot keys as it was |
| RoutineWidget.RefreshWidgetData | frontend/android/app/src/main/kotlin/com/example/goal_management_app/RoutineWidgetProvider.kt:170-202 | a failed fetch changes nothing; otherwise the parsed list is `Kept`, the summary and time are written, every slot holds its routine (or the empty slot), and every other string, int and boolean entry keeps its value |
| RoutineWidget.WriteSlot | frontend/android/app/src/main/kotlin/com/example/goal_management_app/RoutineWidgetProvider.kt:190-199 | the three entries of one slot are written and nothing else |
| RoutineWidget.IsCompact | frontend/android/app/src/main/kotlin/com/example/goal_management_app/RoutineWidgetProvider.kt:228-232 | compact iff narrower than 200 or lower than 120 |
| RoutineWidget.MaxItems | frontend/android/app/src/main/kotlin/com/example/goal_management_app/RoutineWidgetProvider.kt:110 | one slot when compact, otherwise all three |
| RoutineWidget.SlotView | frontend/android/app/src/main/kotlin/com/example/goal_management_app/RoutineWidgetProvider.kt:122-155 | hidden beyond the limit; an empty slot is the placeholder in slot 1 and hidden elsewhere; a filled slot shows its title and state, and a tap asks for the opposite state |
| RoutineWidget.UpdateAppWidget | frontend/android/app/src/main/kotlin/com/example/goal_management_app/RoutineWidgetProvider.kt:89-168 | the layout follows the size, the summary and time come from the preferences with their defaults, and each of the three slots is `SlotView` of its stored entries |
| RoutineWidget.RefreshedSlotView | frontend/android/app/src/main/kotlin/com/example/goal_management_app/RoutineWidgetProvider.kt:110-155 | after a refresh, a slot within the limit shows the parsed routine at its position, the first slot of an empty list is the placeholder, and every other slot is hidden |
| RoutineWidget.ReadBaseUrl | frontend/android/app/src/main/kotlin/com/example/goal_management_app/RoutineWidgetProvider.kt:218-226 | the widget URL when set and non-empty, else the server URL, else empty |
| RoutineWidget.ToggleRequest | frontend/android/app/src/main/kotlin/com/example/goal_management_app/RoutineWidgetProvider.kt:51-52 | `POST` iff completing, to `<base>/routines/<id>/complete` |
| RoutineWidget.ToggleUrlNamesRoutine | frontend/android/app/src/main/kotlin/com/example/goal_management_app/RoutineWidgetProvider.kt:51 | the routine id can be read back from the toggle URL |
| RoutineWidget.IsSuccessResponse | frontend/android/app/src/main/kotlin/com/example/goal_management_app/RoutineWidgetProvider.kt:234-254 | success iff a response code arrived and lies in 200..299 |
| RoutineWidget.OnToggle | frontend/android/app/src/main/kotlin/com/example/goal_management_app/RoutineWidgetProvider.kt:35-61 | ignored iff the routine id is 0 or no base URL is set; otherwise the toggle request, and a refresh iff the response is 2xx |
| RoutineWidget.TapTogglesShownState | frontend/android/app/src/main/kotlin/com/example/goal_management_app/RoutineWidgetProvider.kt:136-155 | a tap on any shown slot, at any position, limit and widget id, sends the toggle request for the routine it shows: `POST` (complete) iff it is shown unchecked |

## Left out

- Logging, HTTP response bodies and status codes: failures are `Result`/`Outcome` values, and their messages are not modelled.
- Spring scheduling (cron triggers), transactions, lazy loading and entity graphs are not modelled. Each pass or request is one sequential call.
- `LocalDateTime.now()` is the parameter `now`; one value serves a whole pass.
- JPA auditing (`@CreatedDate`, `@LastModifiedDate`, `@PreUpdate`) is not modelled, except the explicit stamps. `createdAt` in `createGoal`, `DeviceToken.onCreate` and a completion's insertion time are modelled.
- Result ordering is not modelled: `findAllByOrderByCreatedAtDesc`, `ORDER BY completedAt DESC`, and the priority orderings. Query results keep table order.
- `getAllGoals`, `getGoalByIdWithSubGoals`, `getGoalsByType`, `getGoalsByStatus`, `getChildGoals`, `getRootGoals`, `getAllRoutines` and `getActiveRoutines` return repository queries unchanged. They are the queries above; `getActiveRoutines` is `GetTodayRoutines`.
- Repository queries that no modelled operation calls are not modelled. These are the keyword search, created-between, priority, reminder-flag, device-id, platform, unused-since and created-after queries. They also include `findByTypeAndStatus`, `countByStatus`, `findByDueDateBetween`, `findByIsActiveFalse` and `existsByFcmToken`.
- `Goal.markAsExpired`, `Goal.archive`, `findExpiredGoals`, `findExpiredGoalsForArchiving` and `findExpiringSoonGoals` are called but not defined in the repository. They are parameters; the model only requires that the transitions keep the id.
- GoalService.CreateGoal: the draft's id is replaced by the identity value; a draft carrying an existing id is not modelled as an update.
- The push transport (`FcmService`) is the boolean parameter `send`, assumed deterministic within a pass.
- `NotificationScheduler.sendTestNotification` is one transport call with no logic of its own, and it is not modelled.
- DeviceTokenController.RegisterToken: the catch-all exception path (500) is not modelled, because the only failing calls are to the database.
- The GET endpoints `getAllActiveTokens`, `getTokenById` and `getTokenByFcmToken` are the store queries `FindByIsActiveTrue`, `FindById` and `FindByFcmToken`.
- `request.getOrDefault` for a key present with a null value is not modelled; an absent title or body takes the default.
- GoalService.DeleteGoal: the sub-goal cascade of `deleteGoal` (`subGoals` with cascade and orphan removal) is not modelled; only the goal's own row is removed and every other row, sub-goals included, stays. The completions cascade of `deleteRoutine` is modelled (`RoutineService.RoutineStore.DeleteRoutine`).
- Lombok's `equals` is not modelled: `removeCompletion` and `removeSubGoal` remove by object identity.
- RoutineEntity.Routine.CompletionCount: a null completion list (answered with 0) is not modelled, because the builder and the constructor always create the list.
- RoutineEntity.Trim: `String.trim()` on UTF-16 code units is modelled on Dafny characters.
- Widget: JSON decoding (`JSONArray`/`optInt`/`optString`/`optBoolean`) is not modelled. This includes the exception a malformed body raises. The decoded items are the input.
- Widget: the HTTP connection, timeouts and the Android views, intents and `PendingIntent` flags are not modelled. The response code and the fetched list are inputs, and views are values.
- Widget: `onUpdate`, `onAppWidgetOptionsChanged` and the re-render after a refresh are not modelled. They call `updateAppWidget` per widget id and start `refreshWidgetData` on a background thread, whose ordering is not modelled.
- Widget: `formatUpdatedAt`'s clock and `HH:mm` formatting become the parameter `clockText`.
- Widget: the 32-bit `Int` arithmetic of `appWidgetId * 10 + index` is not modelled, and neither are `SharedPreferences` type clashes between keys.
- Floating point: progress percentages are exact reals, not IEEE doubles.
