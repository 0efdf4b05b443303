# taskman: a verified model of the task store

taskman is a planner with daily, weekly and monthly tasks, personal and team
boards, recurring series and a migration from MongoDB to PostgreSQL. This
project models its calendar, its task store and the code around it in Dafny and
proves what that code keeps, over all inputs and all runs. Where a property fails
the model keeps the code as it is, names a concrete input, and proves exactly when
the property holds.

## How the modules fit together

- **Calendar.** `Calendar` numbers days from 0001-01-01 and gives Go's date
  arithmetic and ISO 8601 weeks. `Digits` and `Period` print and read the three
  period formats; `PeriodLine` treats each format as a line of integers and shows
  that string order is calendar order. `Duration` measures distances as elapsed
  time in a zone whose offset at each local midnight is a parameter. `Recur` holds
  the recurrence rule and `MissingPeriods`. `MonthView` has weeks, dates and month
  buckets; `ClientPeriod` is the browser's mirror.
- **Task store.** `Model` declares rows, tables and constraints, `Forest` parent
  relations, `Listing` list order. `TaskRules` specifies create, patch and
  reschedule, `Materialization` the spawned instances, `CascadeDelete` and
  `Restore` deleting and undoing. `TaskFaults`, `TaskWrites`, `SpawnedRows` and
  `RestoredRows` say of each, in plain terms and field by field, what it accepts and
  what rows it leaves. `TaskStore` holds the class `Store`, whose
  methods follow the source step by step and are proved equal to those
  specifications. `TaskInvariants` and `Runs` show what every run keeps.
- **Concurrency.** `CatchUp` interleaves materialisers of one series, each insert a
  transaction of its own, any of them liable to stop. `NotesLog` interleaves
  patches and note writes on one task statement by statement under a row lock, and
  `PatchRuns` ties its patches to those of the store; `NoteEffects` tells what one
  commit changes.
- **Orders and migration.** `RestoreOrder` peels ready tasks in rounds, `TopoOrder`
  is a depth-first search with colours. `MigrationPlan` is `buildPlan`,
  `MigrationTarget` is `applyPlan` against the constraints of the schema, `Columns`
  what its columns can hold. `MigrationChecks`, `MigrationRows` and `TableConstraints`
  state the checks, the rows carried over and the constraints one by one.
- **Reads.** `TeamScreens` (board, rollover, history), `TeamBoard` (partition and
  sort), `Summary` (prefilter and classification).
- **Text.** `Tags`, `Transitions` and `TransitionLoader`, `SummaryCsv`, `QuickAdd`,
  `QuickAddWords`.

Strings of the source are `string`; optional plain columns use `""` for NULL,
as the source's `NullStr` does. Instants are microsecond counts and one clock
reading is an instant with its local day. New ids, the clock, the zone, the
transition table, `toLowerCase` and `unicode.ToLower` are parameters.

## Where the code departs from what it means to do

- `WeeksBetween` truncates elapsed hours: across a forward clock change it is one
  short (`Duration.WeeksBetweenExact`), and a weekly or weekday series with an interval
  of two or more then misses its instances and fires one week late
  (`Recur.OccursIffCalendarRule`, `Recur.ForwardClockChangeDelaysRule`).
- `ParseISOWeek` accepts signed parts such as `2026-W+1`
  (`Period.ParseISOWeekCanonical`).
- `orig := *t` in a patch is shallow, so a body can overwrite `seriesId`,
  `ownerId` or `completedAt` when they are set, and a member can move a task between
  two of their teams (`Runs.KeptFieldsExactly`, `Runs.TeamChangeSeen`, and the inputs
  named `Runs.Body...`). The derived invariants hold all the same.
- `buildPlan` does not check that a `teamIds` position fits a SMALLINT, that a text is
  free of U+0000, that an instant is a TIMESTAMPTZ, or that a timeline fits one statement
  (`MigrationTarget.ValidPlanGoesIn` and the four inputs after it).
- The summary prefilter overlooks a done task without completion time or log that was
  created outside the range (`Summary.PrefilterLosesNothing`); no session-made run
  produces one.
- The transition loader joins key parts with a bar and so confuses names that contain
  one (`TransitionLoader.AcceptsDuplicateFree`).
- The browser prints years unpadded, reads years 0 to 99 as 1900 to 1999, and has no
  dates beyond September 275760, so it agrees with the server on dates from year 1000 up
  to there (`ClientPeriod`).
- `!constructor` and `!__proto__` count as priorities in quick-add
  (`QuickAdd.SwallowedExactly`).

## Model

| member | source | states |
|---|---|---|
| Calendar.WeekOfMonday | internal/model/period.go:94-109 | Seven days from the Monday of an existing week: ISOWeek of each is that week, so weeks and days are mutually inverse (ISO 8601:2004, section 2.2.10) |
| Calendar.WeekOfExists | internal/model/period.go:106-109 | The week of any day exists, and its Monday is the Monday on or before the day |
| Calendar.RoundTripIffExists | internal/model/period.go:82-89 | The round trip in ParseISOWeek succeeds on exactly the weeks that exist, week 53 of short years excluded |
| Calendar.YearsTileWeeks | internal/model/period.go:94-103 | Week 1 of the next year follows the last week of the year: no gap, no overlap |
| Calendar.WeekOrder | internal/model/period.go:94-109 | (year, week) order is the order of the Mondays |
| Calendar.CivilToDay | internal/model/period.go:53-62 | Date to day number and back is the identity on every valid date, leap rules included |
| Period.ParseDateAccepts | internal/model/period.go:53-62 | ParseDate accepts exactly the canonical texts of the days of years 0000 to 9999, and returns that day |
| Period.ParseMonthAccepts | internal/model/period.go:112-122 | ParseMonth accepts exactly the canonical texts of the months of years 0000 to 9999 |
| Period.ParseISOWeekAccepts | internal/model/period.go:66-91 | ParseISOWeek accepts a four-character year and a two-character week, signs allowed by Atoi, exactly when that week exists |
| Period.ParseISOWeekCanonical | internal/model/period.go:66-91 | An accepted week text is the one the server prints if and only if it is all digits |
| Period.SignedWeekAccepted | internal/model/period.go:71-78 | Concrete input: "2026-W+1" is accepted and is not the text of any week |
| PeriodLine.FormatOrder | internal/model/period.go:149-160 | For years 0 to 9999, string order of daily, weekly and monthly periods is calendar order |
| PeriodLine.NextPeriodIsSuccessor | internal/model/period.go:170-195 | NextPeriod of every accepted text prints the immediate successor, for all three formats |
| PeriodLine.NotBeforeCanonical | internal/model/period.go:66-91 | A readable text that does not sort before a canonical period does not denote an earlier one, signed weeks included |
| PeriodLine.AtMostIsIndex | internal/model/recur.go:229-253 | The loop guard p <= current decides calendar order, years before 0 included |
| PeriodLine.TextWrapsAfterLast | internal/model/period.go:170-195 | The successor of the last period of year 9999 sorts before it |
| Duration.DaysBetweenExact | internal/model/period.go:200-210 | DaysBetween is the number of NextPeriod steps if and only if that number is at most 106751 in size (64-bit nanoseconds) |
| Duration.WeeksBetweenExact | internal/model/period.go:215-227 | WeeksBetween is the number n of steps if and only if n is at most 15250 in size and the offset did not change against the direction of n (n times the change is not positive) |
| Duration.SignsOpposeIsProduct | internal/model/period.go:215-227 | The sign condition above is n * (offset(b) - offset(a)) <= 0 |
| Duration.WeeksBetweenTelescopes | internal/model/period.go:215-227 | In a zone of constant offset the distances add up along any three weeks in range |
| Duration.ForwardClockChangeLosesAWeek | internal/model/period.go:215-227 | Concrete input: one hour of forward change makes ten weeks count as nine |
| Recur.OccursIffCalendarRule | internal/model/recur.go:171-207 | IsOccurrence decides every interval-th day, week, month or listed weekday from the anchor if and only if: the rule counts months or has no anchor; or days within 106751; or weeks within 15250, where the interval is one, the clock did not move along with the direction of travel, or neither n nor its neighbour toward zero is a multiple of the interval; beyond those ranges, if the saturated count is a multiple exactly when n is |
| Recur.AnchoredPeriodOccurs | internal/model/recur.go:153-207 | The stored anchor makes the anchored period an occurrence for any interval and zone, a weekday rule asking also for a listed weekday |
| Recur.ForwardClockChangeDelaysRule | internal/model/recur.go:171-207 | Past a forward clock change a weekly or weekday rule decides each later period as it should decide the one a week earlier: with an interval of two or more it misses what is due and fires one week after every due week |
| Recur.SummerTimeShiftsBiweekly | internal/model/recur.go:171-207 | Concrete input: every second week from 2026-W12 in a zone that moves one hour forward before W14: W14 is due and missed, W15 is not due and fires |
| Recur.MissingPeriods | internal/model/recur.go:229-253 | The loop returns, and terminates with, the specification Missing for every latest text and every canonical current period |
| Recur.MissingIsExact | internal/model/recur.go:229-253 | Missing holds exactly the occurrences after the latest and up to the current period, for every readable latest text |
| Recur.MissingInStringOrder | internal/model/recur.go:221-253 | In strings alone: exactly the canonical occurrences p with latest < p <= current, strictly increasing |
| Recur.MissingFollowsRule | internal/model/recur.go:229-253 | The missing periods are exactly those that the calendar rule asks for between latest and current, if and only if every period in between is decided rightly in the sense above |
| Recur.PlainRuleMissesNothing | internal/model/recur.go:127-132 | A rule without an interval asks for every period after the latest up to the current one, or every listed weekday, in any zone |
| Recur.IntervalRuleMissesNothing | internal/model/recur.go:229-253 | A rule with interval n asks for exactly the periods, of a weekday rule the listed days, whose distance from the anchor in days, weeks or months is a multiple of n, at constant offset and within 64-bit durations |
| Recur.MissingExists | internal/model/recur.go:229-253 | With a readable or empty anchor a catch-up fails only on an unreadable latest period and at the last period of year 9999 |
| Recur.WeekdaysFromMonday | internal/model/recur.go:255-269 | Weekdays are numbered 1 to 7 from the Monday of the week; 12 April 1985 is day 5 of 1985-W15 (ISO 8601:2004, section 4.1.4) |
| Materialization.DateForDayOfMonthIsClamped | internal/model/period.go:313-325 | The due date of a monthly instance is the asked-for day, or the last day of a shorter month |
| Materialization.SpawnDueDate | internal/model/recur.go:273-285 | A monthly instance with an asked-for day is due on that day of its own month, held inside the month |
| Recur.RuleDecides | internal/model/recur.go:171-207 | A rule with an empty or readable anchor is decidable on every printable period of its horizon |
| TaskStore.WalkFinds | internal/service/tasks.go:353-380 | The ancestor walk terminates, finds the task exactly when it is an ancestor, and its visited guard fires only if the table already has a cycle |
| TaskStore.Store.ValidateTaskFields | internal/service/tasks.go:291-424 | The first failing check in source order decides; otherwise the row with normalised tags |
| TaskFaults.FirstFaultIsReported | internal/service/tasks.go:291-424 | Each of the 21 faults stated alone: a task is accepted exactly if it has none, and otherwise told the one that comes first in the source's order; an accepted task has its tags normalised |
| TaskStore.Store.CheckParent | internal/service/tasks.go:331-381 | Parent missing, invisible, finer than the child, or below it |
| TaskStore.Store.CreateTask | internal/service/tasks.go:428-483 | Result and whole new table: one row more on success, nothing on any refusal |
| TaskStore.Store.MergeAndDerive | internal/service/tasks.go:697-761 | Team, owner, week and completion derived step by step from a copy that shares its nullable fields with the patched row |
| TaskStore.Store.PatchTask | internal/service/tasks.go:657-814 | Result and whole new state: the patched row and one status entry exactly on a status change; nothing on any refusal |
| TaskWrites.CreatedIs | internal/service/tasks.go:428-483 | A create is accepted with a row exactly if every field of the row is as stated (default status, stamps, completion, owner, week, series, anchor, tags, the body's own fields), the caller may create for its team, it has no fault, and id, owner and series slot hold |
| TaskWrites.PatchedIs | internal/service/tasks.go:657-814 | A patch is accepted with a row exactly if every field of the row is the body's where the body gives one and the stored one otherwise (null clearing parent, team, assignee, rule and interval; week, owner, completion, series, anchor and tags by their own rules), the caller may see and write it, it has no fault, no child would be coarser, the engine makes the change of status, and owner and series slot hold |
| TaskStore.Store.Reschedule | internal/service/tasks.go:1070-1102 | Row by row without a transaction: count, error and state are those of the specification |
| TaskWrites.RescheduledIs | internal/service/tasks.go:1070-1102 | A complete reschedule gives each listed, visible, non-backlog task today's date, week or month, today as due date if it had one, and a new stamp; every other row and the timelines stay |
| TaskWrites.RescheduleStops | internal/service/tasks.go:1070-1102 | One that stops does so at a listed row that collides with another of its series, as if no further row had been listed |
| TaskStore.Store.LoadDocs | internal/service/tasks.go:225-246 | One pass over the log yields each task with its own timeline in append order |
| TaskStore.Store.DeleteTaskCascade | internal/service/tasks.go:843-893 | Deletes exactly the subtree and its timelines, breadth-first response, children first; in an acyclic forest no delete meets a remaining child; a refusal leaves no trace |
| TaskStore.Store.NormalDocs | internal/service/tasks.go:916-924 | Payload tags normalised, or refused |
| TaskStore.Store.ValidateRestoreRefs | internal/service/tasks.go:1003-1052 | Accepts exactly when every reference resolves in the payload or the tables |
| TaskStore.Store.RestoreTasks | internal/service/tasks.go:908-967 | Count and state are those of the specification; an error leaves no trace |
| TaskStore.Store.ReplayEntries | internal/service/tasks.go:941-961 | Entries in order under their task, missing ids drawn, known ids skipped, unknown authors cleared |
| TaskStore.Store.LatestBySeries | internal/service/task_views.go:43-56 | Whatever order the rows are read in, each series maps to its row with the greatest period |
| TaskStore.Store.SpawnMissing | internal/service/task_views.go:71-101 | One insert a period, conflicts skipped; in a good store no insert violates a constraint |
| TaskStore.Store.Materialize | internal/service/task_views.go:41-103 | Inserts exactly the missing periods of every live series after its latest row; on an error the inserts made so far; in a good store before the last periods of 9999 it does not fail |
| SpawnedRows.RunCatchesUp | internal/service/task_views.go:66-101 | After a complete run every wanted instance is there, every old row is untouched, and every new row is a wanted instance, copied field by field from the newest row of its series, with its own status, stamps, week and due date |
| SpawnedRows.PlainSeriesWants | internal/service/task_views.go:66-101 | A series without an interval wants every period after its newest row up to the current one, or every listed weekday |
| SpawnedRows.IntervalSeriesWants | internal/service/task_views.go:66-101 | One with interval n wants those whose distance from the anchor is a multiple of n, at constant offset and within 64-bit durations |
| Listing.ListedIsTheSet | internal/service/tasks.go:551-555 | A read lists exactly the rows it selects, each once |
| Listing.ListedIsOrdered | internal/service/tasks.go:551-555 | Rows come in strictly increasing order of created_at, then id |
| CascadeDelete.CollectSubtree | internal/service/tasks.go:850-871 | The queue loop terminates and yields root first, no repetition, every row after its parent, no child left out, breadth-first |
| Restore.CollectedIsSubtree | internal/service/tasks.go:850-871 | The collected rows are exactly the rows from which the root is reached |
| Restore.DeletedChildless | internal/service/tasks.go:877-886 | When a row is deleted in reverse order no remaining row points to it |
| Restore.RestoreUndoesDelete | internal/service/tasks.go:908-967 | Restoring the response of a cascade delete gives every task and every timeline back in its old order and reports the size of the subtree |
| RestoredRows.RestoredIs | internal/service/tasks.go:908-967 | Any accepted payload: parents first, tags normalised; each new row and its timeline are those of a document, entry by entry, ids drawn where missing and unknown authors cleared; a document is passed over only if its id or series slot is taken; nothing old changes; the count is that of the new rows; the tables stay consistent |
| RestoredRows.RestoreRefusals | internal/service/tasks.go:913-930 | A payload that can be ordered is refused for its tags exactly if some are malformed, and else for its references exactly if one leads neither to the tables nor, for a parent, to the payload |
| TaskInvariants.CreateKeepsGood | internal/service/tasks.go:428-483 | An accepted create keeps the tables consistent, the forest acyclic with descending ranks, and the derived fields in step |
| TaskInvariants.PatchKeepsGood | internal/service/tasks.go:657-814 | So does an accepted patch, for any transition table |
| TaskInvariants.DerivedRow | internal/service/tasks.go:700-761 | Owner iff no team, week valid iff team, completion iff done hold of the derived row despite the shared fields |
| TaskInvariants.RescheduleKeepsGood | internal/service/tasks.go:1070-1102 | So does a reschedule, also one stopped by an error |
| Materialization.MaterializeKeepsGood | internal/service/task_views.go:71-101 | So does a materialisation, complete or cut short |
| Runs.DeleteKeepsGood | internal/service/tasks.go:843-893 | So does a cascade delete: no row points into the deleted subtree |
| Runs.UndoKeepsGood | internal/service/tasks.go:908-967 | So does a delete followed by its restore |
| Runs.EveryRunIsSafe | internal/service/tasks.go:331-381 | Every state of every serial run from an empty task table: acyclic forest, child rank at most parent rank, derived fields in step, all table constraints |
| Runs.RescheduleMovesExactly | internal/service/tasks.go:1070-1102 | A complete reschedule moves exactly the listed, visible, non-backlog tasks and counts each listing |
| Runs.KeptFieldsExactly | internal/service/tasks.go:665-709 | An accepted patch keeps seriesId, ownerId and completedAt if and only if its body does not overwrite a value already set |
| Runs.BodyMovesSeries | internal/service/tasks.go:665-705 | Concrete input: a body with only seriesId moves a daily recurring task to another series |
| Runs.BodyGivesTaskAway | internal/service/tasks.go:711-725 | Concrete input: a body with only ownerId gives a personal task to another member |
| Runs.BodyRedatesCompletion | internal/service/tasks.go:743-752 | Concrete input: a body with only completedAt dates the completion of a done task anew |
| Runs.TeamChangeSeen | internal/service/tasks.go:707-709 | The team-change refusal comes if and only if a non-admin adds or removes a team; a move between teams is not seen |
| Runs.BodyMovesTeam | internal/service/tasks.go:707-709 | Concrete input: a member of two teams, no admin, moves a task from one to the other |
| RestoreOrder.RestoreOrder | internal/service/tasks.go:972-999 | The rounds terminate and return the specification Ordered |
| RestoreOrder.OrderedIsParentsFirstPermutation | internal/service/tasks.go:972-999 | An accepted payload is a permutation with every payload parent before its child |
| RestoreOrder.OrderedKeepsParentsFirst | internal/service/tasks.go:969-999 | A payload already parents-first is returned unchanged |
| RestoreOrder.RefusedIffCycle | internal/service/tasks.go:972-999 | On distinct ids the payload is refused exactly when its parent relation has a cycle, self-parents included |
| TopoOrder.Orderer.Visit | cmd/migrate-mongo/plan.go:353-377 | The coloured depth-first visit keeps the path, the emitted order and the reported cycles consistent |
| TopoOrder.TopoOrder | cmd/migrate-mongo/plan.go:344-384 | Every task once; off cycles each existing parent first; one finding per distinct cycle naming exactly its members; parents-first input unchanged |
| MigrationPlan.CheckID | cmd/migrate-mongo/plan.go:328-339 | Refuses exactly zero and repeated ids |
| MigrationPlan.PlanTeams | cmd/migrate-mongo/plan.go:107-123 | Fatal-free exactly when ids, names and times are valid; then the rows are the documents |
| MigrationPlan.PlanMembers | cmd/migrate-mongo/plan.go:125-161 | The same for members, roles and folded login emails |
| MigrationPlan.PlanMemberTeams | cmd/migrate-mongo/plan.go:162-181 | Fatal-free exactly when every team exists; each team kept at its first position |
| MigrationPlan.PlanActivity | cmd/migrate-mongo/plan.go:267-293 | Fatal-free exactly when entry ids are nonzero and globally new, kinds allowed and times set; unknown authors become NULL |
| MigrationPlan.CollectTasks | cmd/migrate-mongo/plan.go:182-297 | Fatal-free exactly when fields, references, series slots and timelines are valid; counts are the documents' own |
| MigrationPlan.BuildPlan | cmd/migrate-mongo/plan.go:103-324 | No fatal finding if and only if every constraint holds of the source; then the plan holds exactly its rows, parents first, with true counts |
| MigrationChecks.SourceValidIs | cmd/migrate-mongo/plan.go:103-324 | The checks made document by document hold exactly if, told pair by pair, nothing of the source clashes, dangles, is missing or lies on a parent cycle |
| MigrationRows.PlanCarriesMembers | cmd/migrate-mongo/plan.go:122-160 | Each planned team and member row has every field of its document: three and ten, in order |
| MigrationRows.PlanCarriesTasks | cmd/migrate-mongo/plan.go:182-297 | Each task is planned once with all nineteen fields and its whole timeline in order, each entry with its eleven fields, the author dropped exactly if no member has that id |
| MigrationRows.PlanCarriesMemberTeams | cmd/migrate-mongo/plan.go:162-181 | The membership rows are exactly the teams of each list at the position that names them first |
| MigrationTarget.Target.InsertMemberTeams | cmd/migrate-mongo/target.go:164-183 | Chunks of a thousand insert the same rows as one statement |
| MigrationTarget.Target.InsertTimelines | cmd/migrate-mongo/target.go:139-149 | One statement a task, in plan order |
| MigrationTarget.Target.ApplyPlan | cmd/migrate-mongo/target.go:102-160 | All rows or none, and none into tables that hold rows |
| MigrationRows.TablesHoldPlan | cmd/migrate-mongo/target.go:102-160 | Whatever the plan, a transaction that goes through leaves exactly its rows, each under its id, and its timelines one after the other |
| MigrationRows.MigrationKeepsEverything | cmd/migrate-mongo/target.go:102-160 | End to end: if a migration of a valid source goes through, every field of every team, member and task, every membership with its position, and every timeline entry in order is in the tables, and nothing else |
| TableConstraints.InsertKeepsConstraints | internal/repo/migrations/0001_init.up.sql:12-106 | Whatever plan goes into empty or sound tables leaves them sound: team names and folded login emails unique, roles, statuses, horizons, priorities and kinds allowed, every reference there, positions SMALLINT, series slots and entry ids taken once |
| MigrationTarget.ValidPlanGoesIn | cmd/migrate-mongo/target.go:102-160 | A plan of a valid source goes into an empty schema, breaking no primary-key, foreign-key, unique, allowed-value or column-type constraint, if and only if every kept teamIds position is a SMALLINT, no text holds U+0000, every instant is a TIMESTAMPTZ and every timeline has at most 5957 entries; then task, timeline and per-status counts are the source's |
| MigrationChecks.SoundSourceGoesIn | cmd/migrate-mongo/target.go:102-160 | The same told without any notion of the validation or of the tables: a source in which nothing clashes, dangles or is missing goes in exactly if every text, instant, position and timeline fits its columns |
| MigrationChecks.InstantsAreDates | internal/repo/migrations/0001_init.up.sql:12-106 | Go's zero time is 1 January of year 1; TIMESTAMPTZ runs from 24 November -4713 to the end of 294276 |
| MigrationTarget.TooManyTeams | cmd/migrate-mongo/plan.go:162-181 | Concrete input: a member of 32769 teams, all ids 24 hexadecimal digits, passes validation and does not go in |
| MigrationTarget.NameWithNul | cmd/migrate-mongo/plan.go:107-123 | Concrete input: so does a team whose name holds U+0000 |
| MigrationTarget.CreatedLongAgo | cmd/migrate-mongo/plan.go:107-123 | Concrete input: so does a team created in the year -10000 |
| MigrationTarget.TimelineTooLong | cmd/migrate-mongo/target.go:139-149 | Concrete input: so does a task with 5958 timeline entries, as one statement binds at most 65535 parameters |
| MigrationTarget.TimelineOrderKept | cmd/migrate-mongo/target.go:139-149 | Read by seq, each timeline is the embedded one in its order |
| TransitionLoader.NewFromBytes | internal/fsm/loader/embed_loader.go:51-83 | Accepts exactly the tables of complete rows whose joined key texts differ |
| TransitionLoader.AcceptsDuplicateFree | internal/fsm/loader/embed_loader.go:51-71 | Accepted tables have no duplicate (from, substatus, event); the converse holds while no status or substatus contains a bar |
| TransitionLoader.BarsCollide | internal/fsm/loader/embed_loader.go:64-71 | Concrete input: two different keys with one joined text are refused as duplicates |
| Transitions.FindTransition | internal/fsm/loader/embed_loader.go:145-168 | The exact row first, then the wildcard row |
| Transitions.LookupIsUnique | internal/fsm/loader/embed_loader.go:145-168 | In a duplicate-free table the result does not depend on row order |
| Transitions.RefusalIs | internal/fsm/core/manager.go:176-232 | In a duplicate-free table a change of status goes ahead exactly if the row for its event without substatus leads to the wanted status, and is a mismatch exactly if that row leads elsewhere |
| Transitions.ShippedTableIsPermissive | internal/fsm/transitions/task.yaml:23-122 | The shipped table is duplicate-free and refuses no change between two valid statuses |
| NotesLog.EveryRunIsSerial | internal/service/task_notes.go:77-181 | Every interleaving of patches and note writes on one task equals its committed requests made one at a time in commit order; seq order is that order |
| NotesLog.StatusEntriesReplay | internal/service/fsm.go:140-180 | In every reachable state the status entries by seq form an unbroken chain from the creation status to the current one, every step allowed by the table |
| NotesLog.NoNoteIsLost | internal/service/task_notes.go:87-181 | A committed note not removed since is in the timeline with its own text or that of the last committed edit |
| NoteEffects.CommitHasEffect | internal/service/task_notes.go:87-181 | In any interleaving a commit does exactly what its request asks: an add appends its entry, an edit changes text, date and edit time of its entry only, a delete cuts its entry out and leaves the others in order, each stamping the row; a patch writes its row and, on a change of status, one entry with its eleven fields |
| NoteEffects.RemovedIsGone | internal/service/task_notes.go:167-181 | Once a delete has been committed no later state has an entry of that id |
| NotesLog.RefusedPatchLeavesNoTrace | internal/service/tasks.go:789-807 | A patch refused under the lock never commits: until its worker begins another request, row, timeline and history become exactly what the others make of them |
| NotesLog.UncommittedLeavesNoTrace | internal/service/tasks.go:789-807 | Between any two states in which a worker commits nothing, whatever it has written so far, row and timeline become exactly what the requests committed by the others make of them |
| NotesLog.CompareAndSetHits | internal/service/fsm.go:148-160 | Under the row lock the compare-and-set always finds the status it expects |
| PatchRuns.StoreChangeIsPatch | internal/service/tasks.go:657-814 | With the body that patchTaskTx computes, the interleaved patch is accepted exactly when PatchTask accepts it, and leaves the same row and timeline |
| PatchRuns.CommittedPatchIsStores | internal/service/tasks.go:789-807 | In any interleaving, a store patch that commits is one that PatchTask accepts, and what is then committed is what PatchTask specifies |
| PatchRuns.StorePatchCommits | internal/fsm/core/manager.go:176-232 | From any reachable state with the row unlocked, an idle worker can carry an accepted patch through lock, compare-and-set, fields and audit to that commit |
| CatchUp.CatchUpIsPathIndependent | internal/service/task_views.go:41-103 | For any interleaving and any stops of concurrent materialisers: once a run for the greatest current period has finished, the rows are exactly those one run at that period leaves, each once |
| CatchUp.SecondRunAddsNothing | internal/service/task_views.go:41-103 | After that, a run for any earlier or equal current period plans nothing |
| CatchUp.StoreRunIsOneRun | internal/service/task_views.go:41-103 | A completed Materialize adds to each live series what one worker alone would plan |
| TeamScreens.ExactlyOneScreen | internal/service/task_views.go:299-314 | Each filter by status, due date and week; no task satisfies two of them; one is satisfied if and only if the task is open and dated or its week is not after the current one |
| TeamScreens.NothingFallsOffTheScreens | internal/service/task_views.go:432-471 | On every run with no later clock and no postdating patch, every team task is on exactly one screen at every moment |
| TeamBoard.BuildBoard | internal/service/task_views.go:333-398 | Each column, and the unassigned one, holds exactly the rows shown for that member, each once: open before closed, then by priority, then by due date with undated last, then by creation; it is the stably sorted read for that member alone; the stale count is that of the open undated tasks of earlier weeks |
| TeamBoard.SortedQueryIsColumn | internal/service/task_views.go:477-496 | The stably sorted read for one assignee is that column, the sentinel 9999-99-99 standing after every readable date |
| TeamBoard.BoardSortIsStable | internal/service/task_views.go:477-496 | The board order is sorted, and rows of equal key keep their order |
| TeamBoard.StableSortIsUnique | internal/service/task_views.go:477-496 | Sorted and stable leave one arrangement only |
| Summary.SummaryClosedDate | internal/service/task_summary.go:21-40 | Reverse scan: completion date, last cancellation, or last write for a task without a log |
| Summary.WithinIsInRange | internal/service/task_summary.go:64-65 | Instants between local midnights are dates between from and to |
| Summary.Summarize | internal/service/task_summary.go:130-171 | The loop yields the sections of the candidate rows |
| Summary.PrefilterMisses | internal/service/task_summary.go:103-122 | The candidate filter drops a row of some section if and only if it is done, without completion time and log, last written in and created outside the range |
| Summary.UnstampedIsDropped | internal/service/task_summary.go:103-122 | Concrete input: such a row, created the day before, belongs to that day's completed section and is dropped |
| Summary.PrefilterLosesNothing | internal/service/task_summary.go:103-171 | Sections of the candidates equal sections of the whole scope if and only if no such row is in scope |
| Summary.CompletionKeepsAll | internal/service/task_summary.go:103-171 | With completedAt set exactly on done tasks nothing is lost |
| Summary.ClosedDateIs | internal/service/task_summary.go:21-40 | A done task closes on the local day of its completion, a cancelled one on the date of its last cancellation, for want of either and of any entry on the day of its last write |
| Summary.SectionsAre | internal/service/task_summary.go:158-170 | A row is completed if it closes in the range, else updated if an entry is dated there, else added if it is open, out of the backlog and created on a day of the range; so no row is in two sections |
| MonthView.DatesInWeek | internal/model/period.go:276-287 | The seven consecutive dates from the week's Monday |
| MonthView.DatesAreTheWeeks | internal/model/period.go:245-287 | A date is in DatesInWeek(w) exactly when WeekOfDate is that week |
| MonthView.WeeksInMonth | internal/model/period.go:291-309 | The loop yields the consecutive weeks from that of the first to that of the last day |
| MonthView.FourToSixWeeks | internal/model/period.go:291-309 | They are four to six |
| MonthView.ViewMonth | internal/service/task_views.go:159-200 | The tasks of the month itself, and one bucket a week of the month, each holding exactly the tasks of its specification |
| MonthView.DailyInOneBucket | internal/service/task_views.go:176-197 | A daily task is in the bucket of its own week and month and in no other bucket of any month |
| MonthView.WeeklyShownIffOverlapping | internal/service/task_views.go:186-197 | A weekly task is shown exactly when its week overlaps the month and its text is canonical |
| MonthView.NoBucketWithoutDates | internal/service/task_views.go:180-187 | No bucket's date list is empty |
| MonthView.BucketIs | internal/service/task_views.go:159-200 | A bucket holds the caller's weekly tasks with the week's own text and daily tasks of the month's days in that week, and nothing else |
| ClientPeriod.ToISOWeek | ui/src/period.ts:31-38 | The stepwise computation on a Date |
| ClientPeriod.ToISOWeekAgrees | ui/src/period.ts:31-38 | Equals the server's week of the date if and only if the ISO year is 1000 or later |
| ClientPeriod.IsoWeekMonday | ui/src/period.ts:44-56 | The stepwise computation on a Date |
| ClientPeriod.MondayAgrees | ui/src/period.ts:44-56 | Equals ISOWeekMonday if and only if the year is 100 or later and that Monday lies in the range of a Date, a hundred million days to either side of 1970 |
| ClientPeriod.WeekDates | ui/src/period.ts:58-67 | Seven consecutive dates from that Monday, those out of range printed as NaN |
| ClientPeriod.WeekDatesAgree | ui/src/period.ts:58-67 | From year 0 on, equal the server's DatesInWeek if and only if the ISO year is 100 or later, the Monday in year 1000 or later and the Sunday in the range of a Date |
| ClientPeriod.AddWeeks | ui/src/period.ts:69-73 | Shift, print and read back; an invalid Date gives NaN-WNaN |
| ClientPeriod.AddWeeksAgrees | ui/src/period.ts:69-73 | From year 0 on, moves along the server's weeks if and only if it starts in an ISO year from 100, both Mondays lie in the range of a Date and it arrives in an ISO year from 1000; out of that range it prints NaN-WNaN |
| ClientPeriod.AddWeeksIsAdditive | ui/src/period.ts:69-73 | addWeeks is additive under those conditions, and addWeeks(w, 1) is NextPeriod |
| ClientPeriod.DateRangeIs | ui/src/period.ts:9-16 | The days that a Date reaches (ECMA-262, section 21.4.1.1) are those from 20 April -271821 to 13 September 275760 |
| ClientPeriod.AddDays | ui/src/period.ts:23-27 | Shift and print; an invalid Date gives NaN-NaN-NaN |
| ClientPeriod.AddDaysAgrees | ui/src/period.ts:23-27 | Equals the server's day arithmetic if and only if it starts in year 100 or later and arrives in the range of a Date, in a year of four or more digits of either sign |
| ClientPeriod.AddMonthsAgrees | ui/src/period.ts:79-83 | The same for months, with the first day of the month of arrival in range |
| ClientPeriod.DateTextsMeet | ui/src/period.ts:19-21 | A text the browser prints for day d is the server's text of day e if and only if they are one day, in a year of four or more digits |
| SummaryCsv.ToCSV | ui/src/components/summaryFormat.ts:64-84 | Byte order mark, header, and one line for each intended row |
| SummaryCsv.CsvRoundTrip | ui/src/components/summaryFormat.ts:37-84 | A reader of RFC 4180, section 2, returns exactly the header and the intended rows for any field text; 14 fields each; sum of max(1, notes) data rows |
| SummaryCsv.RowsAreOfNotes | ui/src/components/summaryFormat.ts:71-82 | A task's rows are one for each of its notes in order, or one without a note |
| SummaryCsv.ColumnsMatchHeader | ui/src/components/summaryFormat.ts:20-62 | Each of the fourteen fields is the value that the header names in its column |
| QuickAdd.DueIsServerDate | ui/src/components/quickAddParser.ts:140-168 | For a base date in years 1000 to 9998: ^d is a due date if and only if it names a day: today, tomorrow, a weekday, a date from year 100, or a month and a day that this year has; then the server reads it as a date, not before the base unless written out in full |
| QuickAdd.StaysInTitle | ui/src/components/quickAddParser.ts:107-171 | For a base date in years 1000 to 9998: a word stays in the title if and only if it is none of: an assignee, a documented or inherited priority, a tag or horizon that is not all punctuation, a frequency, a day |
| QuickAdd.TokenFollowsSigil | ui/src/components/quickAddParser.ts:107-171 | The sigil alone decides what kind of property is set; a tag is a nonempty prefix of the word, no horizon and without trailing punctuation; an assignee keeps its case |
| QuickAddWords.WordSays | ui/src/components/quickAddParser.ts:107-139 | A word sets a priority exactly if it is !, then its name, its initial or med, or an inherited name; a horizon or tag, #, then the name and nothing but marks; a frequency, * and its name; an assignee, @ and the name as written |
| QuickAddWords.DueIsTheDay | ui/src/components/quickAddParser.ts:140-168 | For a base date in years 1000 to 9998: ^d is due on day e exactly if d asks for e: today, tomorrow, the first day of that name, a date from year 100, or a month and day of this year, or as many days into that month of the next |
| QuickAddWords.LastWordWins | ui/src/components/quickAddParser.ts:102-183 | Of each kind the last word wins; a recurrence decides the horizon, whatever the line says of it |
| QuickAddWords.HorizonMirrorsServer | ui/src/components/quickAddParser.ts:57-64 | The horizon of a frequency is the one the server asks for |
| QuickAddWords.FirstWord | ui/src/components/quickAddParser.ts:103-103 | A line is split at its runs of white space |
| QuickAddWords.WhiteSpaceAgrees | ui/src/components/quickAddParser.ts:103-103 | The browser splits at what the server trims, but for U+0085, which is white space to Go only, and U+FEFF, which is to JavaScript only |
| QuickAdd.ParseQuickAdd | ui/src/components/quickAddParser.ts:102-183 | The loop sets the recognised properties; the title is the unrecognised words in order |
| QuickAdd.ReparseIsNoOp | ui/src/components/quickAddParser.ts:102-183 | Parsing a parsed title with the same base returns it and sets nothing, whatever toLowerCase does |
| QuickAdd.EarliestWeekday | ui/src/components/quickAddParser.ts:72-78 | ^weekday resolves to the earliest matching date on or after the base |
| QuickAdd.IsoDatesAre | ui/src/components/quickAddParser.ts:94-100 | The literal form takes exactly the server's dates from year 100 |
| QuickAdd.MonthDayResolves | ui/src/components/quickAddParser.ts:81-92 | For a base date in years 1000 to 9998: ^<mon><day> is recognised exactly when this year has the day; the result is that day unless it rolls from February 29 into a common year |
| QuickAdd.TagsOfLine | ui/src/components/quickAddParser.ts:120-132 | The tags of a line are those of its words, each once |
| QuickAdd.SwallowedExactly | ui/src/components/quickAddParser.ts:111-116 | A ! word leaves the title if and only if it is one of the seven documented spellings or one of the two names the lookup object inherits; the latter exactly are set as a priority that is none |
| QuickAdd.InheritedNamesAreSwallowed | ui/src/components/quickAddParser.ts:111-116 | Concrete inputs: !constructor and !__proto__ are taken as priorities |
| Tags.NormalizeTags | internal/model/tags.go:69-100 | The loop returns the specification, for any idempotent folding of characters: distinct cleaned tags in order of first occurrence, or an error |
| Tags.NormalizedIsNormal | internal/model/tags.go:65-100 | The result is well formed, distinct, at most twenty, and holds exactly the non-empty cleaned tags |
| Tags.NormalizedFails | internal/model/tags.go:65-100 | A list is refused exactly if one of its cleaned tags is longer than thirty or holds a comma, a hash or white space, or if it has more than twenty different ones |
| Tags.TrimSpaceIs | internal/model/tags.go:69-80 | Trimming cuts white space off both ends and leaves none there |
| Tags.NormalIsFixed | internal/model/tags.go:65-100 | Normalising twice changes nothing, which the restore round trip needs |

## Left out

- HTTP handlers, cookies, sessions, JSON decoding and the database drivers; a
  request arrives as a typed value, and JSON objects with repeated keys are not modelled.
- A password, its hash and the roles matrix beyond admin or not; roles other than ADMIN
  behave as USER.
- Task progress counts, view wrappers and display names resolved for a summary.
- Concurrent re-parenting, and Reschedule against Patch: serial runs only, as each patch
  locks its own row and a reschedule reads its row without a lock.
- TaskStore.Store.CreateTask: texts with U+0000, which a table refuses, are taken to be
  storable; so are instants, which the server's clock gives.
- TaskStore.Store.PatchTask: the same.
- NotesLog abstracts a patch body to a function from the stored row to the merged,
  validated row or a refusal; the other tables that validation reads do not change
  under it. The right to edit a note (author or admin) and note text limits are not modelled.
- The FSM's outbox, post-commit actions, skipped-state records, guards and the timeline
  section of the YAML file, none of which this application uses.
- CatchUp assumes, as the source's users do, one unchanged rule and horizon for the
  series, a first latest row in years 0 to 9999, and current periods before the last of
  year 9999, where the text order breaks.
- New ids (Materialization.FreshIds) are taken as distinct and unused instead of modelling their generator.
- Period: float rounding in the quotient of elapsed hours; saturation and truncation are
  modelled on integers. Local midnights are assumed to exist and zones to be given by their
  offset at midnight.
- The login index folds ASCII only, as lower() does under collation "C"; buildPlan's own
  folding is a parameter that folds at least as much. Tags.Fold maps one character to one.
- MigrationPlan keeps one text per finding; the sort of findings, their wording in detail
  and the two statistics over mixed rows as numbers are not modelled, nor is the comparison
  of the target with the source after applying.
- MigrationTarget inserts row by row, which is stricter than multi-row statements. The size
  limit of index entries (teams_name_unique, members_email_login_unique and the indexes over
  periods, due dates and weeks, for texts of thousands of characters), texts that are not
  valid Unicode, and the driver's encoding of instants beyond 64-bit microseconds are not
  modelled.
- MigrationPlan.PlannedRow carries the document's fields over one by one; BSON normalisation
  and unknown keys are not part of this model.
- TeamBoard.BoardSort stands for the library's stable sort; TeamRollover and TeamHistory
  contribute their filters, not their paging.
- Summary sorts notes inside a task and sections by title after classification; these
  sorts and the overdue flag are not modelled. Instants whose local year is not 0 to 9999
  are excluded.
- MonthView.ViewMonth takes the caller's scope and tag filter as a set of rows, and leaves
  out the materialisation it starts with; day and week views repeat the same queries.
- ClientPeriod models date and week texts made of digits; other texts give an invalid Date.
  Numbers are integers without rounding, and only the resulting instant decides whether a
  Date is valid. Labels for display are left out.
- SummaryCsv reads any character but quotes inside quoted fields, as RFC 4180's text data is
  limited to ASCII; the Markdown export is left out.
- QuickAdd leaves out the labels of preview chips and the weekday list of *weekdays.
