# Productivity App: a Dafny model of its task, habit and settings core

This project models the server and serverless back ends of a personal productivity app in
Dafny, and proves properties of the model. Tasks are ranked inside buckets. A daily task
belongs to its owner's bucket for its date. Weekly, monthly, quarterly and yearly tasks belong
to the bucket of their period start. Inside a bucket, tasks fall into sections, and the
sections `topPriority` and `secondary` have a capacity of one and three tasks. Habits are
marked done or not done per day. Streaks count consecutive completed periods back from today.
The settings routes import a user's exported data and update their preferences.

The modules follow the program's files:

- `TaskModel` covers the task schema of `server/models/Task.js`. It holds the enums, the validation of a draft into a stored task, the defaults and the two partial unique indexes.
- `Buckets` covers the bucket filter of `server/utils/bucketUtils.js`.
- `TaskController` covers the task controller. Its `TaskStore` class holds the tasks in a `map` keyed by id. Its methods create, update, reorder, delete and roll over tasks, in the controller's own order of steps: capacity check, rank shift, field assignment, version increment, validation, unique-index check. Each method is proved against a function on the store that states the whole outcome, and the promised properties are proved as lemmas about those functions.
- `ServerlessTasks` covers `client/api/tasks/index.js` and `client/api/tasks/rollover.js`, with their own schema, capacity rule and trailing rank.
- `TaskBoard` covers the client task list. It holds the section list and limits, the grouping of tasks by section and rank, and the reorder request a drag-and-drop sends.
- `Habits` covers the habit controller (`markHabit`, `deleteHabit`, the daily, custom, weekly and monthly streak walks and `getStreaks`), with a `HabitStore` class for the occurrences.
- `Dashboard` covers `server/routes/dashboard.js`.
- `ServerlessHabits` and `ServerlessSummary` cover `client/api/habits/streaks.js` and `client/api/dashboard/summary.js`.
- `Preferences` covers JSON values, the one-level merge of the server's preference PUT and the `flattenForUpdate` of the serverless one.
- `Settings` and `ServerlessSettings` cover the two import routes and the preference routes. They use store classes whose import loops are proved against step functions.
- `Quotes` covers the daily quote of `server/routes/quotes.js`.
- `Calendar` and `Sorting` are shared helpers. `Calendar` holds the day numbers, the civil-date conversion and the period starts. `Sorting` sorts by a key, which stands for a database `sort` or `Array.prototype.sort`.

Dates are day numbers counted from 1970-01-01, which was a Thursday. Server instants are milliseconds. The serverless API's `YYYY-MM-DD` strings are modelled by the day they name. Handler replies are `Ok(status, value)` or `Err(status, message)`.

Two behaviours of the code are easy to miss:

- The server counts completed tasks towards a section's capacity. The serverless API counts only open ones.
- The server's daily rollover moves a task to today and also resets its `section` to `should`.

## Model

| member | source | states |
|---|---|---|
| Calendar.DayOf | server/controllers/habitController.js:85-86 | `setUTCHours(0, 0, 0, 0)`: the day of an instant is the one whose 24 hours contain it |
| Calendar.MidnightOf | server/controllers/taskController.js:170 | the UTC midnight of an instant is a multiple of a day, at most the instant and less than a day before it |
| Calendar.JsRem | server/controllers/habitController.js:126 | JavaScript `%`: the remainder keeps the dividend's sign, lies below the divisor's magnitude, and agrees with the mathematical remainder for a non-negative dividend |
| Calendar.Cycle | server/controllers/taskController.js:172-175 | Gregorian calendar: every 400 consecutive years hold 146 097 days |
| Calendar.YearStartMonotone | server/controllers/taskController.js:175 | later years start later, by at least 365 days a year |
| Calendar.YearOf | server/controllers/taskController.js:175 | the year of a day is one whose span contains the day |
| Calendar.YearUnique | server/controllers/taskController.js:175 | and it is the only such year |
| Calendar.DaysInMonth | server/controllers/habitController.js:175 | a month has 28 to 31 days |
| Calendar.DaysBeforeMonth | server/controllers/taskController.js:173 | no day precedes January, and December ends the year |
| Calendar.DaysFromCivil | server/controllers/habitController.js:166 | `new Date(y, m, d)` for a valid date: a day within that year |
| Calendar.CivilFromDays | server/controllers/habitController.js:166 | `getFullYear`, `getMonth`, `getDate`: a valid date that converts back to the same day |
| Calendar.CivilRoundTrip | server/controllers/habitController.js:166 | a valid date converts to a day number and back unchanged |
| Calendar.CivilInjective | server/controllers/habitController.js:166 | two day numbers with the same date are the same day |
| Calendar.Weekday | server/controllers/habitController.js:146 | `getDay`: a number from 0 (Sunday) to 6 |
| Calendar.WeekStart | server/controllers/taskController.js:172 | `startOfWeek(.., { weekStartsOn: 1 })`: a Monday at most six days back |
| Calendar.SameWeek | server/controllers/taskController.js:172 | two days share their week start exactly when the second lies in the first's Monday-to-Sunday week |
| Calendar.WeekStartIdempotent | server/controllers/taskController.js:172 | the start of a week start is itself |
| Calendar.MonthStart | server/controllers/taskController.js:173 | `startOfMonth`: the first of the same year and month, not after the day |
| Calendar.QuarterMonth | server/controllers/taskController.js:174 | the quarter of a month begins in January, April, July or October, at or before it and less than three months back |
| Calendar.QuarterStart | server/controllers/taskController.js:174 | `startOfQuarter`: the first day of the quarter's first month, not after the day |
| Calendar.YearStart | server/controllers/taskController.js:175 | `startOfYear`: the 1 January of the same year, not after the day |
| Calendar.PeriodStartsIdempotent | server/controllers/taskController.js:173-175 | the month, quarter and year start of a period start is itself |
| Calendar.SameMonth | server/controllers/taskController.js:173 | two days share a month start exactly when they share year and month |
| Calendar.PreviousMonth | server/controllers/habitController.js:180 | `setMonth(getMonth() - 1)` on a month's first day: a valid month whose first day is earlier |
| Sorting.SortBy | server/controllers/taskController.js:16 | `sort(...)` on a key: the result is ordered by the key and is a permutation of the input (same multiset, same length) |
| Sorting.SortByKeepsMembers | server/controllers/taskController.js:16 | sorting neither adds nor drops an element |
| Sorting.SortByKeepsDistinct | server/routes/dashboard.js:206 | sorting a list without repeats gives a list without repeats |
| Sorting.DistinctCounts | server/routes/dashboard.js:206 | in a list without repeats each value occurs at most once |
| Sorting.TwiceCounts | server/routes/dashboard.js:206 | a value at two positions of a list occurs at least twice in it |
| Sorting.Ascending | server/routes/dashboard.js:265-270 | the order documents are found in, by id: exactly the elements of the set, strictly increasing |
| Quotes.DateKeyDecodes | server/routes/quotes.js:14-16 | from year 0 on, the key holds year, month and day as its digits YYYYMMDD, so each can be read back |
| Quotes.DateKey | server/routes/quotes.js:14-16 | `year * 10000 + (month + 1) * 100 + date` with the 0-based JavaScript month; DateKeyDecodes, DateKeyInjective and NegativeKey state what it encodes |
| Quotes.DateKeyInjective | server/routes/quotes.js:14-16 | from year 0 on, two dates have the same key exactly when they are equal |
| Quotes.NegativeKey | server/routes/quotes.js:14-16 | the key is negative exactly for the dates before year 0 |
| Quotes.DailyQuoteFor | server/routes/quotes.js:10-28 | 200 with the entry at `dateKey % quotes.length` (JavaScript remainder) and today's date; 500 exactly for an empty list or a negative index |
| Quotes.DailyQuoteIndex | server/routes/quotes.js:18-19 | from year 0 on and for a non-empty list the index is in range and the reply is that entry |
| Quotes.SameDateSameQuote | server/routes/quotes.js:5-9 | the same calendar date always gets the same quote, and different dates have different keys |
| Quotes.NextDayInMonth | server/routes/quotes.js:14-18 | within a month the next day's quote is the next one of the list, so with two or more quotes it changes |
| Quotes.MonthBoundaryCanRepeat | server/routes/quotes.js:14-18 | across a month boundary the key jumps: 31 January and 1 February 2026 get the same quote of seven |
| Buckets.GetBucketQuery | server/utils/bucketUtils.js:1-7 | the filter is the daily kind exactly for scope `daily`, and it always names the user |
| Buckets.Matches | server/utils/bucketUtils.js:1-7 | a stored task satisfies a daily bucket filter when it is the owner's daily task on that date, and a period filter when it is the owner's non-daily task with that period start; DailyBucketMembers and PeriodBucketMembers state both directions |
| Buckets.DailyBucketMembers | server/utils/bucketUtils.js:2-3 | a daily filter matches exactly the user's daily tasks of that date, whatever their section or completion |
| Buckets.PeriodBucketMembers | server/utils/bucketUtils.js:4-5 | a non-daily filter matches exactly the user's non-daily tasks with that `periodStart`, whatever their scope |
| Buckets.StoredDate | server/controllers/taskController.js:104-105 | a stored date read back as an input gives the same field and never an Invalid Date |
| Buckets.BucketOf | server/controllers/taskController.js:114 | a task lies in the bucket built from its own fields whenever that filter can run |
| Buckets.BucketOfValidated | server/controllers/taskController.js:30-46 | a task built from a request lies in the bucket the request's fields name |
| Buckets.ScopeIgnoredOutsideDaily | server/utils/bucketUtils.js:5 | two non-daily tasks of one user with one `periodStart` share a bucket even with different scopes |
| Buckets.BucketIgnoresSectionAndCompletion | server/utils/bucketUtils.js:1-7 | membership depends on neither the section nor the completion flag |
| Buckets.IndexKeyIsGroup | server/models/Task.js:89-99 | two top-priority tasks share a unique-index key exactly when the second is in the first's top-priority group |
| TaskModel.ParseSection | server/models/Task.js:18-29 | the `section` enum validator accepts a string only as the name of the section it returns |
| TaskModel.ParseScope | server/models/Task.js:30-41 | the `scope` enum validator accepts a string only as the name of the scope it returns |
| TaskModel.ParsePriority | server/models/Task.js:42-53 | the `priority` enum validator accepts a string only as the name of the priority it returns |
| TaskModel.Or | server/controllers/taskController.js:103-106 | `f \|\| fallback`: a truthy value is kept, anything else becomes the fallback |
| TaskModel.Default | client/api/tasks/index.js:16 | a destructuring default replaces only a missing value |
| TaskModel.SectionField | server/models/Task.js:18-29 | a raw section is absent, one of the six names, or another string (empty or not), and it is truthy exactly when present and non-empty |
| TaskModel.ScopeField | server/models/Task.js:30-41 | likewise for a raw scope |
| TaskModel.PriorityField | server/models/Task.js:42-53 | likewise for a raw priority |
| TaskModel.EnumRoundTrip | server/models/Task.js:18-53 | every enum value is accepted under its own name |
| TaskModel.NamesInjective | server/models/Task.js:18-41 | distinct sections, and distinct scopes, have distinct names |
| TaskModel.PriorityNamesInjective | server/models/Task.js:42-53 | distinct priorities have distinct names |
| TaskModel.FieldOfName | server/models/Task.js:18-53 | a raw value is seen as an enum value exactly when it is that value's name |
| TaskModel.SkipSpaces | server/models/Task.js:12 | the first non-blank position from i: only blanks before it, and a non-blank at it unless at the end |
| TaskModel.SkipSpacesBack | server/models/Task.js:12 | the mirror image from the end |
| TaskModel.TrimSpec | server/models/Task.js:9-13 | `trim: true`: the trimmed title is a slice of the original with no blank at either end, and it is empty exactly for an all-blank title; blanks are ECMAScript's white space and line terminators, U+3000 and the other space separators included |
| TaskModel.Trim | server/models/Task.js:12 | the `trim: true` setter; TrimSpec states it is the slice without leading or trailing whitespace, TrimIdempotent that trimming twice changes nothing |
| TaskModel.TrimmedIsFixedPoint | server/models/Task.js:12 | a trimmed string is exactly one that trimming leaves alone, and trimming always yields one |
| TaskModel.TrimIdempotent | server/models/Task.js:12 | trimming twice is trimming once |
| TaskModel.DateField | server/models/Task.js:54-61 | a date field is stored exactly when the request gave a valid date |
| TaskModel.Validate | server/models/Task.js:3-87 | a document saves exactly when its trimmed title is non-empty, section and scope are enum names, priority is absent or an enum name, no date is invalid, `date` is there for a daily scope and `periodStart` for any scope but daily and random, and a rank ≥ 0 is given; the saved task is valid and carries the trimmed title, the defaults (priority medium, completed false) and every other field as given |
| TaskModel.RevalidateStored | server/models/Task.js:3-87 | a valid stored task validates back to itself |
| TaskModel.Defaults | server/models/Task.js:52-69 | a new document with neither priority nor completed gets priority `medium` and `completed` false |
| TaskModel.TopPriorityKey | server/models/Task.js:89-99 | a task has a unique-index key exactly when its section is `topPriority` (per date when daily, per `periodStart` otherwise) |
| TaskModel.Collides | server/models/Task.js:89-99 | storing a task under an id breaks the partial unique index exactly when the task is a top-priority one, completed or not, and another id holds a top-priority task with the same index key (owner and date for a daily task, owner and period start otherwise); StorePreservesUnique states that a write that does not collide keeps the index unique |
| TaskModel.StorePreservesUnique | server/models/Task.js:89-99 | writing a task that violates no index keeps at most one top-priority task per key |
| TaskController.GroupIds | server/controllers/taskController.js:30-33 | a task is counted in a bucket-and-section query exactly when it lies in that bucket with that section |
| TaskController.Limit | server/controllers/taskController.js:29-39 | only `topPriority` and `secondary` have a capacity |
| TaskController.CapacityCheck | server/controllers/taskController.js:28-41 | the check refuses exactly a limited section whose bucket is full (or whose date does not cast); `topPriority` is full when any task is in its group, `secondary` at three, each with its own message |
| TaskController.MaxRank | server/controllers/taskController.js:55-56 | `sort({ priorityRank: -1 })` then `findOne`: a rank no task of the list exceeds and some task has |
| TaskController.NextRank | server/controllers/taskController.js:55-57 | the appended rank lies above every rank of the group, is 0 for an empty group, and is otherwise one more than the group's top rank |
| TaskController.MaxRankOfSet | server/controllers/taskController.js:55-57 | the top rank of a group read in id order is the group's maximum |
| TaskController.Shift | server/controllers/taskController.js:50-53 | the rank shift keeps every stored task |
| TaskController.ShiftTouchesOnlyGroup | server/controllers/taskController.js:50-53 | `$inc` on `$gte`: exactly the group's ranks at or above the new rank go up by one, and no other field or task changes |
| TaskController.ShiftFreesRank | server/controllers/taskController.js:50-53 | after the shift no task of the group holds the new rank, the group keeps its relative order, and its members stay the same |
| TaskController.ShiftPreservesStore | server/controllers/taskController.js:50-53 | the shift keeps a valid store valid and changes no unique-index key |
| TaskController.CollisionDependsOnlyOnKeys | server/models/Task.js:89-99 | a unique-index violation depends only on the ids and index keys of the stored tasks |
| TaskController.EmptyGroupAdmitsTopPriority | server/controllers/taskController.js:35-37 | a `topPriority` task whose group counts zero violates no unique index |
| TaskController.InsertAfterShift | server/controllers/taskController.js:49-61 | a task inserted at the freed rank is the only one of its group at that rank, and every shifted task ranks above it |
| TaskController.CreateAppends | server/controllers/taskController.js:54-58 | a create without a rank gets a rank above every task already in its group, 0 in an empty group |
| TaskController.ApplyPatch | server/controllers/taskController.js:84 | `task.set(updates)` with a patch of the schema's editable fields (title, section, scope, priority, date, period start, rank, completed): the owner and the version are not among them and stay as they were |
| TaskController.EmptyPatchKeepsTask | server/controllers/taskController.js:84-86 | an empty update validates a stored task back to itself |
| TaskController.UpdateIgnoresCapacity | server/controllers/taskController.js:69-94 | updateTask has no capacity check: a `must` task patched into `secondary` is saved whatever the group holds |
| TaskController.ReorderTargets | server/controllers/taskController.js:103-142 | a saved reorder takes the target section, scope and rank, the date for a daily target and the period start otherwise, and keeps owner, title and completion |
| TaskController.ReorderNeedsRank | server/controllers/taskController.js:132-144 | a reorder without `priorityRank` fails validation, since the rank becomes undefined |
| TaskController.ScopeMoveCountsItself | server/controllers/taskController.js:108-121 | a `topPriority` weekly task moved to monthly with no new period start counts itself in its target bucket and is refused |
| TaskController.PeriodStartFor | server/controllers/taskController.js:172-175 | every scope but `random` has a current period start, not after today |
| TaskController.RollOne | server/controllers/taskController.js:181-239 | a rolled task is no longer overdue, a task that was not overdue is unchanged, validity is kept, and scope and owner stay |
| TaskController.RollOneMoves | server/controllers/taskController.js:181-239 | an overdue daily task gets today's date and section `should`; any other scope gets its current period start and keeps its section; nothing else changes |
| TaskController.DueIds | server/controllers/taskController.js:182-187 | one batch modifies exactly the user's incomplete tasks of that scope dated before the cut-off |
| TaskController.RollScope | server/controllers/taskController.js:181-189 | one batch rolls every task of its scope and leaves every other task as it was |
| TaskController.RollAll | server/controllers/taskController.js:179-239 | the full rollover keeps every stored task |
| TaskController.RolloverIdempotent | server/controllers/taskController.js:179-250 | a second rollover on the same day modifies nothing and leaves the same store |
| TaskController.RolloverSparesCurrent | server/controllers/taskController.js:182-187 | completed tasks, other users' tasks, `random` tasks and tasks already in their current period are untouched |
| TaskController.DailyRollKeepsUnique | server/controllers/taskController.js:181-189 | the daily batch breaks no unique index, because the tasks it moves leave `topPriority` |
| TaskController.RolloverDay | server/controllers/taskController.js:166-170 | the rollover day is the requested date, or today on the clock when none or an invalid one is sent |
| TaskController.ListOrder | server/controllers/taskController.js:16 | `sort({ priorityRank: -1, createdAt: 1 })`: the sorted listing holds the same ids, each listed before every later one |
| TaskController.Matching | server/controllers/taskController.js:8-14 | the query selects exactly the owner's tasks that match every parameter given |
| TaskController.ListIds | server/controllers/taskController.js:8-16 | the listing holds exactly the matching tasks, higher rank first and then older first |
| TaskController.GetTasks | server/controllers/taskController.js:6-21 | a date parameter that does not parse gives 500; anything else gives 200 with the listing |
| TaskController.StoreWrite | server/models/Task.js:89-99 | writing a valid task that violates no unique index keeps the store valid |
| TaskController.Create | server/controllers/taskController.js:23-67 | createTask's reply and store: the capacity check, the cast of the bucket date, the rank shift, validation and the unique index in that order; CreateRejectsFullGroup, CreateSucceeds, CreateAtRank, CreateFailureAddsNothing and CreatePreservesStore state its outcomes |
| TaskController.CreateRejectsFullGroup | server/controllers/taskController.js:28-65 | a create into a full `topPriority` or `secondary` group gets 400 and writes nothing |
| TaskController.CreateSucceeds | server/controllers/taskController.js:43-62 | a successful create validated its document, passed the index check, and stored it under a fresh id after the rank handling, with 201 |
| TaskController.CreateAtRank | server/controllers/taskController.js:49-62 | a create at an explicit rank stores the task at that rank in its group, shifts exactly the group's ranks at or above it, leaves every other task, and leaves no other task of the group at that rank |
| TaskController.CreateAppendsAtEnd | server/controllers/taskController.js:54-62 | a create without a rank adds one task, ranked above every task in its group, and changes nothing else |
| TaskController.CreateFailureAddsNothing | server/controllers/taskController.js:64-66 | a failed create gets 400 and adds no task; at most the rank shift stays written |
| TaskController.CreateNeverDuplicatesTop | server/controllers/taskController.js:35-37 | the capacity check keeps the `topPriority` index from refusing a create |
| TaskController.CreatePreservesStore | server/controllers/taskController.js:23-67 | a create keeps the store valid, advancing the id counter on success |
| TaskController.Update | server/controllers/taskController.js:69-94 | updateTask's reply and store: 404 for a task the user does not own, 400 for a section change with a rank, 409 for a stale version, otherwise the patched task saved with its version incremented; UpdateGuards, UpdateFailureWritesNothing, UpdateApplies and UpdatePreservesStore state its outcomes |
| TaskController.UpdateGuards | server/controllers/taskController.js:72-82 | a missing or foreign task gives 404, a section move with a rank 400, a stale version 409, in that order, and none writes |
| TaskController.UpdateFailureWritesNothing | server/controllers/taskController.js:69-94 | a failed update writes nothing |
| TaskController.UpdateApplies | server/controllers/taskController.js:84-87 | a successful update stores the patched task, validated and with its version one higher, in place of the old one and nowhere else |
| TaskController.UpdatePreservesStore | server/controllers/taskController.js:69-94 | an update keeps the store valid |
| TaskController.Reorder | server/controllers/taskController.js:96-151 | reorderTask's reply and store: a missing task, a stale version, a full target group or a bad date refuses; otherwise the ranks at and after the target shift and the task moves; ReorderGuards, ReorderCapacity, ReorderSucceeds, ReorderApplies and ReorderPreservesStore state its outcomes |
| TaskController.ReorderGuards | server/controllers/taskController.js:99-149 | a missing or foreign task gives 400 `Task not found` and a stale version 409, writing nothing |
| TaskController.ReorderCapacity | server/controllers/taskController.js:108-121 | a move into a full `topPriority` or `secondary` target fails and writes nothing; a task that stays in its own bucket and section skips the count |
| TaskController.ReorderSucceeds | server/controllers/taskController.js:123-145 | a successful reorder validated its document with the version one higher and stored it after the rank shift, with 200 |
| TaskController.ReorderApplies | server/controllers/taskController.js:123-145 | a successful reorder shifts the target group from the given rank, stores the task at that rank with the target section, scope and date fields, and bumps its version |
| TaskController.ReorderFailureShiftsAtMost | server/controllers/taskController.js:147-149 | a failed reorder gets 400 or 409 and leaves the store as it was, apart from a rank shift already written |
| TaskController.ReorderPreservesStore | server/controllers/taskController.js:96-151 | a reorder keeps the store valid |
| TaskController.Delete | server/controllers/taskController.js:153-161 | the delete succeeds exactly for the owner's task and removes exactly it; otherwise 404 and nothing changes |
| TaskController.Rollover | server/controllers/taskController.js:163-256 | rolloverTasks' reply and store: the daily batch, then the weekly, monthly, quarterly and yearly ones, 500 when the unique index stops a batch; RolloverRollsAll, RolloverIdempotent, RolloverFailureKeepsDaily and RolloverPreservesStore state its outcomes |
| TaskController.RunBatches | server/controllers/taskController.js:198-239 | the batches in turn keep every stored task |
| TaskController.RunBatchesComposes | server/controllers/taskController.js:198-239 | when every batch succeeds, each task of a listed scope is rolled once and every other task is unchanged |
| TaskController.RunBatchesKeepsUnique | server/controllers/taskController.js:198-239 | the later batches break no unique index |
| TaskController.RolloverRollsAll | server/controllers/taskController.js:179-250 | a successful rollover replies with the per-scope counts of overdue tasks and rolls them all |
| TaskController.BatchesAfterDaily | server/controllers/taskController.js:179-239 | the daily batch and then the later batches, all accepted, make up the whole rollover |
| TaskController.BatchesRollEach | server/controllers/taskController.js:179-239 | through the daily batch and then the later batches each task is rolled once |
| TaskController.RolloverFailureKeepsDaily | server/controllers/taskController.js:252-255 | a failed rollover gets 500, with the daily batch already written |
| TaskController.RunBatchesKeepsDaily | server/controllers/taskController.js:198-239 | the later batches leave daily tasks alone |
| TaskController.RolloverPreservesStore | server/controllers/taskController.js:163-256 | a rollover keeps the store valid |
| TaskController.RunBatchesValid | server/models/Task.js:3-87 | the batches keep every stored task valid against the schema |
| TaskController.TaskStore.CreateTask | server/controllers/taskController.js:23-67 | the store method: a count, then the shift or the top-rank lookup, then the validated save; its reply and new store are those of createTask, and the id counter advances only on success |
| TaskController.TaskStore.UpdateTask | server/controllers/taskController.js:69-94 | the store method agrees with updateTask and keeps the store valid |
| TaskController.TaskStore.ReorderTask | server/controllers/taskController.js:96-151 | the store method agrees with reorderTask and keeps the store valid |
| TaskController.TaskStore.ReorderOwnedTask | server/controllers/taskController.js:103-145 | the steps after the ownership and version checks agree with reorderTask |
| TaskController.TaskStore.SaveReorderedTask | server/controllers/taskController.js:131-145 | the save step agrees with reorderTask |
| TaskController.TaskStore.DeleteTask | server/controllers/taskController.js:153-161 | the store method agrees with deleteTask and keeps the store valid |
| TaskController.TaskStore.RolloverTasks | server/controllers/taskController.js:163-256 | the daily batch and then each later scope's batch, in order; reply and new store agree with rolloverTasks |
| TaskBoard.SectionsAndLimits | client/src/components/TaskList.jsx:25-26 | every section is on the board exactly once, and only the first two, `topPriority` and `secondary`, carry a limit |
| TaskBoard.InSection | client/src/components/TaskList.jsx:417 | the filter keeps exactly the loaded tasks of that section |
| TaskBoard.Grouped | client/src/components/TaskList.jsx:414-419 | a section's list is a permutation of its filtered tasks, sorted by ascending rank |
| TaskBoard.GroupedPartition | client/src/components/TaskList.jsx:414-419 | the six sorted lists together hold every loaded task exactly once |
| TaskBoard.FiltersPartition | client/src/components/TaskList.jsx:417 | the six filters together hold every loaded task exactly once |
| TaskBoard.InSectionCount | client/src/components/TaskList.jsx:417 | a filter keeps every copy of a task of its section and none of any other |
| TaskBoard.IndexOf | client/src/components/TaskList.jsx:446-447 | `findIndex`: the first position with that id, or -1 exactly when there is none |
| TaskBoard.Find | client/src/components/TaskList.jsx:431-442 | `find`: the first loaded task with that id, or nothing exactly when there is none |
| TaskBoard.TrailingRank | client/src/components/TaskList.jsx:437-440 | a drop on a section's area ranks the task above every task of the section, one above its highest, or 0 when it is empty |
| TaskBoard.DragEnd | client/src/components/TaskList.jsx:425-460 | no drop target or unknown task gives no move; a drop on a section's area moves to it at the trailing rank, a drop on a task takes that task's section and rank (both branches of the index comparison agree); a move is sent exactly when section or rank changes |
| ServerlessTasks.SectionPosition | client/api/_lib/models/Task.js:10-14 | each of the three sections has one of three positions in a listing |
| ServerlessTasks.SectionPositionIsNameOrder | client/api/tasks/index.js:11 | `sort({ section: 1 })` on the stored strings puts `backlog`, then `secondary`, then `topPriority`: positions follow the names' order and differ for different sections |
| ServerlessTasks.BucketQuery | client/api/tasks/index.js:8-24 | the filter is a daily one exactly for scope `daily` |
| ServerlessTasks.BucketsPartition | client/api/tasks/index.js:8-24 | a task lies in a filter's bucket exactly when it is the user's and the bucket is its own; its own fields always name its bucket |
| ServerlessTasks.ListTasks | client/api/tasks/index.js:6-12 | the listing holds exactly the user's tasks of the bucket (and section, when given), by section name and then ascending rank |
| ServerlessTasks.OpenIds | client/api/tasks/index.js:20-36 | the capacity count covers exactly the owner's incomplete tasks of one section in one bucket |
| ServerlessTasks.RankIds | client/api/tasks/index.js:43-47 | the rank query covers exactly the owner's tasks of the requested section in the bucket, completed or not |
| ServerlessTasks.MaxRank | client/api/tasks/index.js:43-48 | `sort({ rank: -1 })` then `findOne`: a rank no task of the list exceeds and some task has |
| ServerlessTasks.MaxRankOfSet | client/api/tasks/index.js:43-48 | the top rank of a set read in id order is its maximum |
| ServerlessTasks.NextRank | client/api/tasks/index.js:43-48 | the new rank lies above every rank of its section and bucket, is 0 when there is none, and is otherwise one above the top |
| ServerlessTasks.NewTask | client/api/_lib/models/Task.js:3-27 | `Task.create` succeeds exactly for a non-blank title and an enum section and scope; the saved task has the trimmed title, the fields as given, `completed` false and `notes` defaulting to empty |
| ServerlessTasks.CapacityError | client/api/tasks/index.js:18-40 | a create is refused exactly when a daily `topPriority` bucket holds an open top task, or any `secondary` bucket three open ones, each with its own message |
| ServerlessTasks.Create | client/api/tasks/index.js:15-61 | POST /api/tasks: the open-task capacity checks, then the task stored at the trailing rank; CreateOutcome states when it succeeds and that a refusal writes nothing |
| ServerlessTasks.CheckedCreateNeverCollides | client/api/_lib/models/Task.js:34-46 | a document past the capacity checks never breaks the unique daily top-priority index |
| ServerlessTasks.CreateOutcome | client/api/tasks/index.js:15-61 | the create succeeds exactly when the checks pass and the document validates; a failure writes nothing, a success stores the document under a fresh id with 201 |
| ServerlessTasks.CreatedTask | client/api/tasks/index.js:16-59 | the created task is the user's, with the trimmed title, section `backlog` and scope `daily` by default, not completed, ranked above every task of its section and bucket |
| ServerlessTasks.TopPriorityLimitIsDaily | client/api/tasks/index.js:19 | outside the daily scope any number of `topPriority` tasks is accepted |
| ServerlessTasks.CompletedTasksFreeCapacity | client/api/tasks/index.js:23-34 | completed tasks never count against a capacity |
| ServerlessTasks.CreatePreservesStore | client/api/tasks/index.js:15-61 | a create keeps the store valid, advancing the id counter on success |
| ServerlessTasks.TasksEndpoint | client/api/tasks/index.js:5-65 | any method but GET and POST gets 405 and writes nothing; only a successful POST writes, replying 201 with the new id; GET lists exactly the matching tasks |
| ServerlessTasks.DueIds | client/api/tasks/rollover.js:11-17 | the update selects exactly the user's incomplete daily tasks dated before today |
| ServerlessTasks.SaveKeepsUnique | client/api/_lib/models/Task.js:34-46 | storing a document that does not collide keeps the unique index |
| ServerlessTasks.RollEach | client/api/tasks/rollover.js:11-19 | `$set: { date: today }` on each due task in turn, stopping at the first the unique index refuses; RollEachFrame, RollEachComplete and RollEachKeepsUnique state what it moves |
| ServerlessTasks.RollEachFrame | client/api/tasks/rollover.js:11-19 | a run of the update keeps every task, and changes nothing but the date of its ids, set to today |
| ServerlessTasks.RollEachKeepsUnique | client/api/_lib/models/Task.js:34-46 | a run of the update stops before a write the unique index refuses, so the index holds after it |
| ServerlessTasks.RollEachComplete | client/api/tasks/rollover.js:11-19 | a run that is not stopped sets every id's date to today and counts each once |
| ServerlessTasks.Rollover | client/api/tasks/rollover.js:4-22 | the rollover endpoint: 405 for a method other than POST, otherwise the count of moved tasks or 500; RolloverEffect, RollDueComplete and RolloverIdempotent state its outcomes |
| ServerlessTasks.RolloverEffect | client/api/tasks/rollover.js:4-22 | the rollover keeps the store valid and its ids, changes only due tasks' dates, and on success replies with the number of due tasks, each now dated today; a refused write gives 500 |
| ServerlessTasks.RollDueComplete | client/api/tasks/rollover.js:11-21 | an update over the due tasks that is not stopped moves each of them once |
| ServerlessTasks.RollEachValid | client/api/tasks/rollover.js:11-19 | a run of the update over any ids keeps the store valid and changes only those ids' dates |
| ServerlessTasks.RolloverIdempotent | client/api/tasks/rollover.js:11-21 | a second rollover on the same day after a successful one moves nothing |
| ServerlessTasks.RollEachWithoutTopPriority | client/api/_lib/models/Task.js:34-46 | a run over tasks none of which is `topPriority` is never refused |
| ServerlessTasks.RolloverWithoutTopPriority | client/api/tasks/rollover.js:11-21 | with no due `topPriority` task the rollover succeeds |
| ServerlessTasks.ServerlessTaskStore.CreateTask | client/api/tasks/index.js:15-61 | the store method: two counts, the rank query, then the insert; its reply and store agree with the POST handler, and the counter advances only on success |
| ServerlessTasks.ServerlessTaskStore.RolloverTasks | client/api/tasks/rollover.js:4-22 | the store method agrees with the rollover handler and keeps the store valid |
| Habits.Matching | server/controllers/habitController.js:44-49 | the filter `{ habitId, userId, dateUTC }` matches exactly the occurrences of that habit, owner and instant |
| Habits.AtMostOneMatch | server/models/HabitOccurrence.js:30 | under the unique `(habitId, dateUTC)` index at most one occurrence matches |
| Habits.FirstMatch | server/controllers/habitController.js:44-52 | `findOne…`: nothing exactly when no occurrence matches, and otherwise a matching one |
| Habits.Mark | server/controllers/habitController.js:37-57 | markHabit: a date that does not cast is a 400, an unmark deletes the matching occurrence, a mark sets or creates a completed one, and an insert that reuses another user's (habit, instant) pair is refused; MarkPreservesStore, MarkCompleteKeepsOne, MarkIncompleteRemoves and MarkThenUnmark state its outcomes |
| Habits.MarkPreservesStore | server/controllers/habitController.js:37-57 | marking keeps the unique index and the id counter valid |
| Habits.MarkCompleteKeepsOne | server/controllers/habitController.js:48-52 | marking complete leaves exactly one matching occurrence, completed, and every other occurrence as it was |
| Habits.MarkCompleteIdempotent | server/controllers/habitController.js:48-52 | marking complete twice has the effect of marking once |
| Habits.MarkIncompleteRemoves | server/controllers/habitController.js:43-45 | `completed: false` deletes the matching occurrence, replies `Marked incomplete`, and keeps every other occurrence |
| Habits.MarkThenUnmark | server/controllers/habitController.js:43-52 | marking a date done that had no occurrence, then not done, restores the store |
| Habits.DeleteHabit | server/controllers/habitController.js:59-82 | deleteHabit: 404 unless the user owns the habit, otherwise the habit and the user's occurrences of it go; DeleteHabitEffect states exactly what is removed and kept |
| Habits.DeleteHabitEffect | server/controllers/habitController.js:59-78 | 404 with nothing written unless the habit is the user's; otherwise it removes exactly that habit and exactly that habit's occurrences of the user |
| Habits.DayStreak | server/controllers/habitController.js:103-141 | the daily and custom walk back by k days from a check day; DayStreakIsLeadingRun, DayGraceSkipsFirst and DayStreakBound state that it counts the leading run of completed check days |
| Habits.DayStreakIsLeadingRun | server/controllers/habitController.js:106-141 | the walk by k days counts exactly the leading run of completed check days not before the start, and stops at the first check day before the start or missing |
| Habits.DayGraceSkipsFirst | server/controllers/habitController.js:111-137 | with grace a missing first check day is stepped over and the run starts one step back |
| Habits.DayStreakBound | server/controllers/habitController.js:99-119 | the streak is at most the number of completed days between the start and the first check day |
| Habits.MonthOf | server/controllers/habitController.js:166 | the month of a day is a valid year and month |
| Habits.MonthBefore | server/controllers/habitController.js:175-180 | `setMonth(getMonth() - 1)` gives a valid month whose first day is earlier |
| Habits.FirstOfIsMonthStart | server/controllers/habitController.js:166 | `new Date(y, m, 1)` for today's month is the month start of today |
| Habits.MonthsBack | server/controllers/habitController.js:180 | stepping back any number of months stays a valid month |
| Habits.MonthStreak | server/controllers/habitController.js:166-182 | the monthly walk over the first days of the months; MonthStreakIsLeadingRun and MonthGraceSkipsFirst state that it counts the leading run of completed months |
| Habits.MonthStreakIsLeadingRun | server/controllers/habitController.js:168-181 | the monthly walk counts exactly the leading run of months whose first day is completed and not before the start |
| Habits.MonthRunCounted | server/controllers/habitController.js:168-171 | every counted month has its first day completed, not before the start |
| Habits.MonthRunStops | server/controllers/habitController.js:168-178 | the month after the counted ones is before the start or not completed |
| Habits.MonthCountedStep | server/controllers/habitController.js:170-180 | a counted month adds one to the run of the month before it |
| Habits.MonthGraceSkipsFirst | server/controllers/habitController.js:173-177 | with grace a missing first of the current month is stepped over and the run starts a month back |
| Habits.CompletedDays | server/controllers/habitController.js:89-97 | the set holds the UTC day of every occurrence of the habit, and nothing else |
| Habits.Interval | server/controllers/habitController.js:121 | the corrected interval: always at least one, and the stored one whenever it is positive |
| Habits.MondayOffset | server/controllers/habitController.js:146-148 | `dayOfWeek === 0 ? 6 : dayOfWeek - 1` is 0 to 6 days and lands on the week's Monday |
| Habits.CustomFirst | server/controllers/habitController.js:125-127 | the aligned first check day: for a habit already started it is the start plus the largest whole number of intervals not past today, so it is not after today and less than an interval before it |
| Habits.Streak | server/controllers/habitController.js:84-185 | computeStreak, by frequency; DailyStreakMeaning, CustomStreakMeaning, WeeklyStreakMeaning and MonthlyStreakMeaning state what it counts for each |
| Habits.DailyRun | server/controllers/habitController.js:103-119 | the daily walk from a day counts the days up to it all completed, none before the start, and stops at the first gap or the start |
| Habits.DailyWalkRun | server/controllers/habitController.js:103-119 | the same run, ending at today or at yesterday when today is missing |
| Habits.DailyStreakMeaning | server/controllers/habitController.js:89-119 | the daily streak of a habit is the run of consecutive completed days ending today (or yesterday when today is missing), never before its start date |
| Habits.CustomStreakMeaning | server/controllers/habitController.js:120-141 | a custom streak is the leading run of completed, started check days stepping back by the interval from the aligned first check day (the one before it when that is today and not done yet); for a habit already started every check day lies a whole number of intervals after the start |
| Habits.CustomWalkRun | server/controllers/habitController.js:120-141 | the same facts stated on day numbers, for the walk from CustomFirst with the today grace |
| Habits.CheckDaysAligned | server/controllers/habitController.js:125-135 | every check day of a walk from an aligned day stays aligned with the start |
| Habits.WeeklyStreakMeaning | server/controllers/habitController.js:142-163 | the weekly streak counts the leading run of completed Mondays from this week's (or last week's when this one is missing) back, all on Mondays |
| Habits.WeeksBackAreMondays | server/controllers/habitController.js:157-162 | stepping back whole weeks from a Monday lands on Mondays only |
| Habits.MonthWalkRun | server/controllers/habitController.js:164-181 | the monthly walk with grace is the leading run from this month, or from last month when this month's first is missing |
| Habits.MonthlyStreakMeaning | server/controllers/habitController.js:164-181 | the monthly streak of a habit is the leading run of completed firsts of the month from this month or the last back, never before its start date |
| Habits.StreakIgnoresOtherHabits | server/controllers/habitController.js:91 | occurrences of other habits change no streak |
| Habits.NoWalkNoStreak | server/controllers/habitController.js:99-184 | every-other-day and yearly habits have streak 0 |
| Habits.DailyWalk | server/controllers/habitController.js:103-119 | the loop computes the daily walk with today's grace |
| Habits.CustomWalk | server/controllers/habitController.js:120-141 | the loop computes the walk by the interval from the aligned first check day, with grace for check days not before today |
| Habits.WeeklyWalk | server/controllers/habitController.js:142-163 | the loop computes the walk by 7 days from this week's Monday, with grace for the current week |
| Habits.MonthlyWalk | server/controllers/habitController.js:164-181 | the loop computes the walk by months from this month's first, with grace for the current month |
| Habits.ComputeStreak | server/controllers/habitController.js:84-185 | computeStreak dispatches on the frequency and returns the habit's streak |
| Habits.GetStreaks | server/controllers/habitController.js:187-202 | one entry exactly for each active habit of the user, each the streak computed from the user's own occurrences (`HabitOccurrence.find({ userId })`) |
| Habits.AsWrittenInterval | server/controllers/habitController.js:121 | `intervalDays \|\| 1` as written: only a missing or zero interval is replaced, so a negative one stays |
| Habits.NegativeIntervalRunsOn | server/controllers/habitController.js:129-141 | with a negative interval a check day at or after today and the start only moves forward, so the loop as written survives any number of steps on unbounded day numbers |
| Habits.NegativeIntervalNeverEnds | server/controllers/habitController.js:120-141 | a custom habit with a negative interval whose first check day is completed or not before today does not stop within any number of steps; a JavaScript Date ends it only after about 10^8 |
| Habits.HabitStartedTodayHangs | server/controllers/habitController.js:120-141 | concretely: interval -1 and a start date of today keep the walk going for any number of steps |
| Habits.HabitStore.MarkHabit | server/controllers/habitController.js:37-57 | the store method deletes or upserts as markHabit does, and keeps the store valid and the habits unchanged |
| Habits.HabitStore.DeleteHabitAndOccurrences | server/controllers/habitController.js:59-78 | the store method deletes the habit and then its occurrences as deleteHabit does, and keeps the store valid |
| Dashboard.RequestToday | server/routes/dashboard.js:34-46 | today is the UTC midnight of the requested date, or of the clock when none or an invalid one is sent |
| Dashboard.RequestTodayKeepsMidnight | server/routes/dashboard.js:34-46 | a requested midnight is kept as it is, whatever the clock says |
| Dashboard.DueFromStart | server/routes/dashboard.js:13-14 | no habit is due before the day it starts, and every habit is due on that day |
| Dashboard.IsHabitDue | server/routes/dashboard.js:9-25 | whether a habit is due on a day: never before its start, then by frequency; DailyDue, EveryOtherDayAlternates, WeeklyDue, CustomDue, MonthlyDueOncePerMonth and YearlyDueOncePerYear state each case |
| Dashboard.DailyDue | server/routes/dashboard.js:17 | a daily habit is due exactly on the days from its start on |
| Dashboard.EveryOtherDayAlternates | server/routes/dashboard.js:18 | from its start on, an every-other-day habit is due on one of any two consecutive days |
| Dashboard.WeeklyDue | server/routes/dashboard.js:19 | a weekly habit is due exactly on its start's weekday from the start on |
| Dashboard.CustomDue | server/routes/dashboard.js:22 | a custom habit is due exactly every `intervalDays \|\| 1` days from its start (a negative interval acting as its magnitude) |
| Dashboard.NegatedDivisor | server/routes/dashboard.js:22 | a remainder by -n is zero exactly when the one by n is |
| Dashboard.MonthlyDueOncePerMonth | server/routes/dashboard.js:20 | a monthly habit is due at most once in a month |
| Dashboard.MonthlyDueSkipsShortMonths | server/routes/dashboard.js:20 | a monthly habit started on a day a month lacks is never due in that month |
| Dashboard.YearlyDueOncePerYear | server/routes/dashboard.js:21 | a yearly habit is due at most once in a year |
| Dashboard.LastCountMeaning | server/routes/dashboard.js:229-238 | the count a day ends up with is 0 when no group has the day, and otherwise the count of the last group that has it |
| Dashboard.AddDates | server/routes/dashboard.js:228-238 | the Map's key order: the earlier keys, then each new day once, in first-seen order |
| Dashboard.BuildHeatmap | server/routes/dashboard.js:227-239 | the heatmap has one entry per day in insertion order, each with the task count and habit count of that day, 0 for a side without data |
| Dashboard.SetTaskCounts | server/routes/dashboard.js:229-233 | the loop over the task groups leaves one entry per day seen, with its task count and habit count 0 |
| Dashboard.SetHabitCounts | server/routes/dashboard.js:234-238 | the loop over the habit groups adds the new days and sets each day's habit count, keeping the task counts |
| Dashboard.UnaddedDayHasNoCount | server/routes/dashboard.js:229-238 | a day the loop never added has count 0 |
| Dashboard.SetStep | server/routes/dashboard.js:229-238 | one pass of the loop adds the day once and sets its count, leaving the other days |
| Dashboard.HeatmapOnePerDay | server/routes/dashboard.js:228-239 | the heatmap has exactly one entry for each day either aggregation reports |
| Dashboard.PendingRows | server/routes/dashboard.js:197-205 | the query keeps exactly the user's incomplete daily tasks dated today or earlier |
| Dashboard.SortedPending | server/routes/dashboard.js:197-206 | `sort({ date: 1, priorityRank: 1 })`: exactly the pending tasks, by date and then rank |
| Dashboard.PendingRowsDistinct | server/routes/dashboard.js:197-205 | the pending rows of ids without repeats have no repeats |
| Dashboard.PendingEarliest | server/routes/dashboard.js:206-207 | the first n rows of the sorted pending list have distinct ids, stay in (date, rank) order, and none sorts after a pending task left out |
| Dashboard.Pending | server/routes/dashboard.js:196-263 | at most n pending tasks with distinct ids, by date and then rank, each flagged overdue exactly when dated before today; every pending task left out sorts after every listed one; fewer than n only when every pending task is listed |
| Dashboard.PendingFacts | server/routes/dashboard.js:196-209 | the first n sorted rows are pending, by date, and hold every pending task when fewer than n |
| Dashboard.Listed | server/routes/dashboard.js:207-263 | `limit(n)` then the map: the first n rows, each with its overdue flag |
| Dashboard.ListedSorted | server/routes/dashboard.js:206-207 | rows sorted by date and rank are listed by date |
| Dashboard.LabelOf | server/routes/dashboard.js:349 | `critical` and `high` read `High`, `medium` reads `Medium`, any other priority `Low` |
| Dashboard.UpcomingTasks | server/routes/dashboard.js:316-360 | at most ten entries, the pending tasks in order, each with its title, label and overdue flag |
| Dashboard.CompletedToday | server/routes/dashboard.js:215-219 | `distinct('habitId')` of today's completed occurrences of the user |
| Dashboard.ToComplete | server/routes/dashboard.js:267-278 | exactly the user's active habits due today and not completed today |
| Dashboard.TopEntries | server/routes/dashboard.js:270-274 | `.slice(0, 2).map(...)`: min(|due|, 2) entries, the i-th being the title and streak of the i-th id in id order |
| Dashboard.HabitsToComplete | server/routes/dashboard.js:265-279 | the count is the number of habits to complete; the list holds the first two of them in id order (all when there are at most two), each with its title and the streak from the user's own occurrences |
| Dashboard.Entries | server/routes/dashboard.js:271-274 | one entry per listed habit, in order |
| Habits.UserOccurrences | server/controllers/habitController.js:191 | `HabitOccurrence.find({ userId })` keeps exactly the user's occurrences |
| Dashboard.CompletingRemovesFromList | server/routes/dashboard.js:267-279 | completing a habit today removes it, and only it, from the habits to complete |
| Dashboard.SummaryFor | server/routes/dashboard.js:29-312 | the covered parts of the summary: the heatmap, the two pending tasks with their overdue flags, and the habits-to-complete count and list, all on the requested day |
| ServerlessHabits.CompletedDates | client/api/habits/streaks.js:6-10 | `dateSet` holds exactly the days of the habit's completed occurrences |
| ServerlessHabits.RunLength | client/api/habits/streaks.js:16-24 | the count of consecutive days back from d; RunIsLeadingStretch states that the first n days back are present and the next is not, RunBound that it is at most the number of days |
| ServerlessHabits.RunShrinks | client/api/habits/streaks.js:16-24 | stepping back from a present day leaves fewer days to visit, so the walk ends |
| ServerlessHabits.RunIsLeadingStretch | client/api/habits/streaks.js:16-24 | the run from a day counts exactly the present days from it back, and the day before them is missing |
| ServerlessHabits.RunBound | client/api/habits/streaks.js:16-24 | the streak is at most the number of distinct completed days, and 0 exactly when today is missing |
| ServerlessHabits.Streak | client/api/habits/streaks.js:5-27 | computeStreak from today's UTC day; ComputeStreak is proved against it and OtherOccurrencesIgnored states it reads only the habit's occurrences |
| ServerlessHabits.ComputeStreak | client/api/habits/streaks.js:5-27 | the loop counts the consecutive completed days ending today |
| ServerlessHabits.ActiveHabits | client/api/habits/streaks.js:34 | `Habit.find({ userId, active: true })`: exactly the user's active habits, each once, in id order |
| ServerlessHabits.UserOccurrences | client/api/habits/streaks.js:35 | exactly the user's occurrences |
| ServerlessHabits.GetStreaks | client/api/habits/streaks.js:29-44 | any method but GET gets 405; GET gives one entry per active habit, in order, with its id, title and streak |
| ServerlessHabits.OneEntryPerActiveHabit | client/api/habits/streaks.js:37-41 | every active habit of the user has exactly one entry, and no other habit has one |
| ServerlessHabits.OtherOccurrencesIgnored | client/api/habits/streaks.js:8 | an occurrence of another habit, or one not completed, leaves the streak as it was |
| ServerlessSummary.IsHabitDueOnDate | client/api/dashboard/summary.js:24-34 | whether a habit is due on the UTC weekday of an instant, by frequency; WeekdaysAndWeekendsSplitTheWeek, DueRepeatsWeekly and CustomDue state its cases |
| ServerlessSummary.WeekdaysAndWeekendsSplitTheWeek | client/api/dashboard/summary.js:28-29 | of a weekdays habit and a weekends habit exactly one is due on any day |
| ServerlessSummary.DueRepeatsWeekly | client/api/dashboard/summary.js:24-34 | whether a habit is due depends only on the weekday, and a weekly habit is due on its start's weekday, even before its start |
| ServerlessSummary.DayShift | client/api/dashboard/summary.js:54-56 | moving an instant by whole days moves its day by as many |
| ServerlessSummary.CustomDue | client/api/dashboard/summary.js:31 | a custom habit is due exactly on the weekdays its list names |
| ServerlessSummary.DoneTasks | client/api/dashboard/summary.js:47-48 | the completed tasks of a day are exactly its completed daily tasks |
| ServerlessSummary.TrendOn | client/api/dashboard/summary.js:57-65 | one trend day counts that day's daily tasks and its completed ones, never more completed than in total |
| ServerlessSummary.TrendOf | client/api/dashboard/summary.js:52-66 | the trend has exactly seven days, oldest first, ending today; each day's total is the number of the user's daily tasks dated that day and its completed count the number of those completed, so completed is at most total |
| ServerlessSummary.Trend | client/api/dashboard/summary.js:52-66 | the loop builds that trend |
| ServerlessSummary.DoneOccurrences | client/api/dashboard/summary.js:89 | the count of a day's completed occurrences is at most their number, and 0 exactly when there is none |
| ServerlessSummary.DueHabits | client/api/dashboard/summary.js:72 | the habits due today are among the active habits |
| ServerlessSummary.TopStreaks | client/api/dashboard/summary.js:77-80 | at most five rows, as many as there are up to five, in non-increasing streak order, taken from the rows, and no row left out has a longer streak than the last kept |
| ServerlessSummary.TopFacts | client/api/dashboard/summary.js:79-80 | a prefix of rows sorted by descending streak holds the longest streaks |
| ServerlessSummary.StreakRows | client/api/dashboard/summary.js:77-78 | one row per active habit |
| ServerlessSummary.ComputeRows | client/api/dashboard/summary.js:77-78 | the map over the habits, with each streak computed by the walk |
| ServerlessSummary.HeatOn | client/api/dashboard/summary.js:85-90 | one heatmap day counts that day's completed daily tasks plus its completed occurrences |
| ServerlessSummary.HeatmapOf | client/api/dashboard/summary.js:83-91 | the heatmap has exactly ninety days, oldest first, ending today; each day's count is the user's daily tasks completed that day plus the user's completed habit occurrences dated that day |
| ServerlessSummary.Heatmap | client/api/dashboard/summary.js:83-91 | the loop builds that heatmap |
| ServerlessSummary.SummaryOf | client/api/dashboard/summary.js:36-112 | the body the summary returns; Summary is proved against it and SummaryConsistent and HeatBounds state how its counts relate |
| ServerlessSummary.Summary | client/api/dashboard/summary.js:36-112 | any method but GET gets 405; GET replies with the summary body of the day |
| ServerlessSummary.SummaryConsistent | client/api/dashboard/summary.js:46-111 | the last trend day is today's totals, completed at most total, the last heatmap day adds today's completed occurrences, at most five top streaks and no more than the habits, and no more habits due than there are |
| ServerlessSummary.HeatBounds | client/api/dashboard/summary.js:57-90 | a day's heat is at least its completed tasks and at most its tasks plus the user's occurrences |
| Preferences.Lookup | server/routes/settings.js:182 | `obj[key]` finds a value exactly for a key the object has |
| Preferences.Put | server/routes/settings.js:182 | assigning a key adds it, gives it the new value, and leaves every other key's value |
| Preferences.Overlay | server/routes/settings.js:182 | `{ ...a, ...b }` has the keys of both |
| Preferences.OverlayLookup | server/routes/settings.js:182 | in `{ ...a, ...b }` a key of b has b's value and any other key a's |
| Preferences.Spread | server/routes/settings.js:182 | object spread: an object gives its members, an array its elements and a string its characters under the keys `"0"`, `"1"`, …, and anything else (missing, null, a boolean, a number, a Date) gives none |
| Preferences.Chars | server/routes/settings.js:182 | a string's characters as one-character strings, one per position |
| Preferences.IndexKey | server/routes/settings.js:182 | the decimal index key `"0"`, `"1"`, …: never empty, one character exactly below 10 |
| Preferences.IndexKeyInjective | server/routes/settings.js:182 | distinct indexes have distinct keys |
| Preferences.IndexMembers | server/routes/settings.js:182 | the members a spread array or string gives: one per element, keyed by its index |
| Preferences.IndexMembersKeys | server/routes/settings.js:182 | those keys are distinct and none is an index below the first |
| Preferences.SpreadIndexes | server/routes/settings.js:182 | spreading an array or a string gives distinct keys, and the key of index i looks up the i-th element or character |
| Preferences.MergeKey | server/routes/settings.js:180-186 | merging one key keeps every other key; a non-object value replaces the stored one, an object (null and Dates included) is overlaid on what the key held |
| Preferences.MergeAll | server/routes/settings.js:180-186 | each key of the update merged in turn; MergeAllEffect states that only the update's keys change, each as its own merge makes it |
| Preferences.MergeAllEffect | server/routes/settings.js:180-186 | the merge adds the update's keys, keeps every other stored key, and gives each update key its merged value |
| Preferences.MergeIsOneLevel | server/routes/settings.js:181-182 | an object value is merged one level deep: a member it names takes its value, and any other member keeps the stored one |
| Preferences.MergeNullKeeps | server/routes/settings.js:181-182 | merging null or a Date into a key keeps the stored group's members as they were, since `typeof null` is `'object'` |
| Preferences.JoinPath | client/api/settings/preferences.js:27 | the path is the key at the top level and `prefix.key` below |
| Preferences.LeafIsNotObject | client/api/settings/preferences.js:28-31 | a leaf is never a plain object |
| Preferences.Flatten | client/api/settings/preferences.js:25-35 | flattenForUpdate: every leaf written under its dotted path; FlattenMeaning states that the writes are exactly the leaf paths, FlattenWritesLeaves that no nested object is written |
| Preferences.FlattenMeaning | client/api/settings/preferences.js:25-35 | flattening adds exactly the dotted leaf paths, each with its leaf value, and keeps every other entry of the result it was given |
| Preferences.FlattenWritesLeaves | client/api/settings/preferences.js:28-31 | every entry of a flattened update is a leaf at its path, and never a plain object |
| Preferences.EmptyObjectAddsNothing | client/api/settings/preferences.js:28-29 | a nested empty object contributes no entry |
| Preferences.TopLevelLeaf | client/api/settings/preferences.js:30-31 | a leaf member at the top level is written under its own key |
| Preferences.FlattenForUpdate | client/api/settings/preferences.js:25-35 | the loop with its recursive calls, writing into the shared result, computes the flattening |
| Preferences.SetPaths | client/api/settings/preferences.js:14-18 | `$set` of the paths: each path takes its value, every stored field no path covers is kept, and nothing else is there |
| Preferences.SetPathsIdempotent | client/api/settings/preferences.js:14-18 | applying the same `$set` twice changes nothing more |
| Settings.ModeOf | server/routes/settings.js:68 | `mode = 'merge'`: a request without a mode merges, and any given mode is kept |
| Settings.ClearUser | server/routes/settings.js:71-75 | the three `deleteMany({ userId })` remove exactly the user's tasks, habits and occurrences, keep everyone else's records, and keep the store valid |
| Settings.OwnedHabit | server/routes/settings.js:83-95 | the created habit belongs to the calling user and carries the trimmed title |
| Settings.HabitsTitled | server/routes/settings.js:87 | the lookup matches exactly the user's habits with that title |
| Settings.ExistingHabit | server/routes/settings.js:87-88 | `findOne`: nothing exactly when the user has no habit of that title, and otherwise one that has it |
| Settings.HabitStep | server/routes/settings.js:81-97 | one habit of the import: in merge or skip mode a title the user already has maps to the existing habit, otherwise the habit is validated and created; HabitStepFacts states its effect |
| Settings.HabitStepFacts | server/routes/settings.js:81-97 | one pass keeps the store valid and only adds a habit of the user; every mapped id still points at a habit of the user; the exported id is mapped unless the habit fails validation; under merge or skip an existing title is not created again |
| Settings.HabitStepKeepsTitlesDistinct | server/routes/settings.js:86-93 | under merge or skip a pass never gives the user a second habit of a title |
| Settings.HabitsFromFacts | server/routes/settings.js:80-98 | the habits loop keeps the store valid, adds habits of the user only, maps only to habits of the user, and under merge or skip keeps the user's titles distinct |
| Settings.HabitsFromMapsEveryId | server/routes/settings.js:81-97 | when the habits loop ends without error every exported id of the list is mapped |
| Settings.HabitsFromKeepsKeys | server/routes/settings.js:89-96 | the habits loop never unmaps an id |
| Settings.OccurrenceStepFacts | server/routes/settings.js:102-121 | one pass keeps the store valid, skips an occurrence whose habit was not mapped, and otherwise creates it only with the mapped habit id, the calling user, its date and its flag |
| Settings.OccurrenceStepSkipsExisting | server/routes/settings.js:112-118 | under merge or skip an occurrence the user already has for that habit and day is skipped |
| Settings.OccurrencesFromFacts | server/routes/settings.js:101-122 | the occurrences loop keeps the store valid and adds only occurrences of the user linked to habits of the user |
| Settings.LookupBucket | server/routes/settings.js:135 | the lookup uses the date when one is given, and the period start otherwise; it cannot cast exactly when the date is invalid, or absent with no valid period start |
| Settings.TaskStep | server/routes/settings.js:126-141 | one task of the import: in merge or skip mode a date that does not cast fails and an existing task is skipped, otherwise the task is validated and created; TaskStepFacts states its effect |
| Settings.TaskStepFacts | server/routes/settings.js:126-141 | one pass keeps the store valid and only adds the task validated for the user; under merge or skip an uncastable lookup fails the import and an existing task is skipped |
| Settings.TasksFromFacts | server/routes/settings.js:125-142 | the tasks loop keeps the store valid and adds only valid tasks of the user |
| Settings.Import | server/routes/settings.js:66-149 | POST /settings/import: 200 when every loop ran to its end, 400 with the error otherwise, the earlier writes kept; ImportKeepsValid, ImportKeepsOthers, ImportLinksOccurrences and OverwriteReplacesUserRecords state its effects |
| Settings.ImportKeepsValid | server/routes/settings.js:66-149 | the import keeps ids below the counters and both unique indexes |
| Settings.ImportKeepsOthers | server/routes/settings.js:66-149 | the import keeps every record it started from and adds records of the user only; without overwrite nothing of the store is lost |
| Settings.ImportLinksOccurrences | server/routes/settings.js:100-142 | every task the import adds is valid, and every occurrence it adds is the user's and linked to a habit of the user |
| Settings.OverwriteReplacesUserRecords | server/routes/settings.js:71-75 | after an overwrite import every record of the user is a new one |
| Settings.MergeKeepsHabitTitlesDistinct | server/routes/settings.js:86-93 | a merge or skip import keeps the user's habit titles distinct |
| Settings.PeriodlessTaskFailsMerge | server/routes/settings.js:131-147 | under merge or skip a task with neither a date nor a period start makes the lookup's `new Date(undefined)` fail, and the import replies 400 |
| Settings.ClearCompleted | server/routes/settings.js:229-242 | exactly the user's completed tasks go, every other task stays as it was, and `deletedCount` is the number removed |
| Settings.ClearCompletedIdempotent | server/routes/settings.js:233 | clearing twice deletes nothing the second time |
| Settings.SettingsStore.ImportData | server/routes/settings.js:66-149 | the store method: the overwrite deletes, then the three loops; reply and new store agree with the import, the preferences are untouched |
| Settings.SettingsStore.DeleteUserRecords | server/routes/settings.js:71-75 | the three deletes |
| Settings.SettingsStore.ImportHabits | server/routes/settings.js:80-98 | the habits loop, with its id map |
| Settings.SettingsStore.ImportOccurrences | server/routes/settings.js:101-122 | the occurrences loop |
| Settings.SettingsStore.ImportTasks | server/routes/settings.js:125-142 | the tasks loop |
| Settings.SettingsStore.ClearCompletedTasks | server/routes/settings.js:229-242 | the store method removes exactly the user's completed tasks, replies the count, and changes nothing else |
| Settings.SettingsStore.GetPreferences | server/routes/settings.js:152-166 | GET gives the stored document, creating it from the defaults when the user has none |
| Settings.SettingsStore.PutPreferences | server/routes/settings.js:169-194 | PUT merges each key of the update one level deep into the stored document (or the defaults) and stores the result |
| ServerlessSettings.ModeOf | client/api/settings/import.js:11 | `mode = 'merge'`: a request without a mode merges, and any given mode is kept |
| ServerlessSettings.Least | client/api/settings/import.js:27-62 | the document `findOneAndUpdate` picks: none exactly for no match, and otherwise the least matching id |
| ServerlessSettings.OnlyUserChangesTrans | client/api/settings/import.js:24-70 | changing only the user's records, twice, changes only the user's records |
| ServerlessSettings.WriteOnlyUser | client/api/settings/import.js:25-55 | writing a record of the user under a free id or one of the user's changes only the user's records |
| ServerlessSettings.ChangesOnlyUserTrans | client/api/settings/import.js:24-70 | the whole-store form of the same |
| ServerlessSettings.ClearUser | client/api/settings/import.js:15-21 | the three `deleteMany({ userId })` remove exactly the user's records, keep everyone else's unchanged, and keep the store valid and linked |
| ServerlessSettings.TaskMatches | client/api/settings/import.js:28 | the upsert filter `{ userId, title, scope, date }` matches exactly the user's tasks with that trimmed title and scope, and that date when one is given |
| ServerlessSettings.TaskStepFacts | client/api/settings/import.js:24-36 | one pass keeps the store valid, changes only the user's tasks, counts the task unless it throws; `Task.create` of a blank title throws; a merge with a match adds no task |
| ServerlessSettings.TasksFromFacts | client/api/settings/import.js:24-36 | the tasks loop keeps the store valid, changes only the user's tasks, and when nothing throws counts every task |
| ServerlessSettings.HabitMatches | client/api/settings/import.js:43 | the filter `{ userId, title }` matches exactly the user's habits with that trimmed title |
| ServerlessSettings.HabitStepFacts | client/api/settings/import.js:39-51 | one pass keeps the store valid, counts the habit and maps its exported id unless it throws; `Habit.create` of a blank title throws; a merge with a match adds no habit |
| ServerlessSettings.HabitStepFrame | client/api/settings/import.js:39-51 | one pass changes only the user's habits, keeps occurrences linked, and leaves every other mapped id as it was |
| ServerlessSettings.HabitsFromFacts | client/api/settings/import.js:39-51 | the habits loop keeps the store valid and linked, changes only the user's habits, and when nothing throws counts every habit |
| ServerlessSettings.HabitsFromMapsEveryId | client/api/settings/import.js:39-51 | when the habits loop ends without error every exported id of the list is mapped |
| ServerlessSettings.HabitsFromKeepsKeys | client/api/settings/import.js:39-51 | the habits loop never unmaps an id |
| ServerlessSettings.PairMatches | client/api/settings/import.js:59 | the filter `{ habitId, dateUTC }` matches exactly the occurrences of that habit and date, of any user |
| ServerlessSettings.OccurrenceStepFacts | client/api/settings/import.js:54-70 | one pass keeps the store valid, never throws out of the loop, and counts the occurrence at most once; an unmapped occurrence is skipped |
| ServerlessSettings.OccurrenceStepFrame | client/api/settings/import.js:54-70 | with remapping one pass changes only the user's occurrences and keeps them linked |
| ServerlessSettings.OccurrencesFromFacts | client/api/settings/import.js:54-70 | the occurrences loop keeps the store valid, counts at most the occurrences given, and with remapping changes only the user's records and keeps them linked |
| ServerlessSettings.FirstPassesFacts | client/api/settings/import.js:15-51 | the tasks and habits loops keep the store valid, change only the user's records, and when nothing throws count every task and habit |
| ServerlessSettings.ImportPassesFacts | client/api/settings/import.js:15-70 | the three loops keep the store valid and change only the user's tasks and habits; the occurrence count is at most the number given |
| ServerlessSettings.StartKeepsOthers | client/api/settings/import.js:15-21 | where the loops start keeps every record of another user |
| ServerlessSettings.Import | client/api/settings/import.js:6-73 | the import with each occurrence remapped to the habit the import stored; ImportOutcome, ImportChangesOnlyUser and ImportKeepsOthers state its effects |
| ServerlessSettings.ImportAsWritten | client/api/settings/import.js:6-73 | the import as the code writes it, each occurrence keeping its exported habit id; AsWrittenOverwriteOrphans and AsWrittenMergeTakesOver state what goes wrong |
| ServerlessSettings.ImportOutcome | client/api/settings/import.js:6-73 | 405 exactly for any method but POST, which writes nothing; otherwise 200 with every task and habit counted and at most the given occurrences, or 500 when a write throws; the store stays valid |
| ServerlessSettings.OthersKept | client/api/settings/import.js:15-70 | a record of another user that reaches the loops survives them |
| ServerlessSettings.OnlyNewForUser | client/api/settings/import.js:15-21 | after clearing, every record of the user is a new one |
| ServerlessSettings.ImportChangesOnlyUser | client/api/settings/import.js:6-73 | the corrected import keeps occurrences linked and changes only the user's records |
| ServerlessSettings.ImportKeepsOthers | client/api/settings/import.js:6-73 | the corrected import leaves every record of every other user as it was |
| ServerlessSettings.KeptThrough | client/api/settings/import.js:15-70 | a record of another user that the start keeps and the loops leave alone is kept |
| ServerlessSettings.OverwriteReplacesUserRecords | client/api/settings/import.js:15-21 | after an overwrite import every record of the user has a new id |
| ServerlessSettings.AsWrittenOverwriteOrphans | client/api/settings/import.js:15-70 | as written, re-importing a user's own habit and one occurrence of it in overwrite mode stores the habit under a new id but the occurrence under the old one, which no longer exists |
| ServerlessSettings.OverwriteHabitPass | client/api/settings/import.js:15-51 | an overwrite import of one valid habit stores it under the next id and maps its exported id to that |
| ServerlessSettings.AsWrittenMergeTakesOver | client/api/settings/import.js:57-62 | as written, a merge import of another user's occurrence rewrites that occurrence as the caller's, leaving it linked to a habit that is not the caller's |
| ServerlessSettings.PutPreferences | client/api/settings/preferences.js:13-20 | PUT: `$set` of the flattened body on the stored document or the defaults; PutWritesEveryLeaf and PutIdempotent state its effect |
| ServerlessSettings.PutWritesEveryLeaf | client/api/settings/preferences.js:13-35 | a PUT writes every dotted leaf path of the body with its leaf value, never a plain object, and any other key keeps the stored document's value |
| ServerlessSettings.PutIdempotent | client/api/settings/preferences.js:13-20 | sending the same PUT twice leaves the document as the first left it |
| ServerlessSettings.ServerlessSettingsStore.ImportData | client/api/settings/import.js:6-73 | the store method: the overwrite deletes, then the three loops with early returns on a throw; reply and new store agree with the corrected import, preferences untouched |
| ServerlessSettings.ServerlessSettingsStore.DeleteUserRecords | client/api/settings/import.js:15-21 | the three deletes |
| ServerlessSettings.ServerlessSettingsStore.ImportTasks | client/api/settings/import.js:24-36 | the tasks loop with its counter |
| ServerlessSettings.ServerlessSettingsStore.ImportHabits | client/api/settings/import.js:39-51 | the habits loop with its counter and id map |
| ServerlessSettings.ServerlessSettingsStore.ImportOccurrences | client/api/settings/import.js:54-70 | the occurrences loop of the corrected import: each occurrence's `habitId` is remapped through the id map of the imported habits (one whose habit was not imported is skipped), and each write sits in a `try` whose `catch` skips it |
| ServerlessSettings.ServerlessSettingsStore.Preferences | client/api/settings/preferences.js:4-23 | GET replies the stored document, creating it from the defaults when missing; PUT replies and stores the document with the flattened `$set` applied; any other method gets 405 and writes nothing |

## Left out

- Local time. Every day is a UTC day. The source's local-time `getDay`, `setHours` and date-fns calls (the dashboard's weekly and custom rules, the client date helpers) are modelled on UTC day numbers. So are the streak walks of server/controllers/habitController.js, which start from UTC midnights but step with the local `setDate`, `getDay`, `setMonth` and `new Date(y, m, 1)` (lines 113-140, 146-162, 166-180). In a zone with daylight saving the local steps are not whole UTC days: at the autumn change a daily walk can land on the previous day's UTC midnight plus an hour and miss a completed day. The model steps by whole days.
- Date strings. Formatting and parsing are abstracted. A stored string that is not the canonical key of a day is `None`, and a lookup never matches it. Lexicographic comparison of canonical keys is comparison of day numbers.
- Aggregations. The task and habit aggregation pipelines of the dashboard route become inputs of the activity-map merge: per-day counts.
- Floating point. The focus score, completion rates, `toFixed` and `Math.round` are not modelled.
- Display text. Labels, messages and error texts are abstracted. Only the status codes and the data are modelled.
- Identity and preflight. The identity middleware and the serverless handler wrapper are replaced by a `userId` parameter. `OPTIONS` is answered before any endpoint runs.
- Index builds. The model takes the declared unique indexes as built and enforced. MongoDB documents two of them as not buildable as written: server/models/Task.js:96-99 uses `$ne` inside a `partialFilterExpression`, and client/api/_lib/models/Task.js:34-46 combines `sparse` with `partialFilterExpression`. Where such an index is missing, the source lets an update or reorder store a second non-daily `topPriority` task in one period, which `TaskModel.Collides` refuses, and the duplicate-key stop of the serverless rollover does not happen.
- Database tie order. When several documents match a `findOne` or an unsorted `find`, the model takes them in id order. MongoDB does not promise any order.
- Request bodies. Incoming documents are typed records. Mongoose casting of arbitrary JSON beyond the enums, the trimmed required title, the dates and the rank is not modelled.
- Preference schema. Casting and validators of the preference documents are not modelled. Preferences are free JSON values, and the defaults document is a parameter.
- Preferences.Chars: a JavaScript string spreads into UTF-16 code units; the model spreads a `string` into its characters, so a character outside the Basic Multilingual Plane is one member here and two in JavaScript.
- Frequencies outside the enums. Both habit schemas restrict `frequency` to an enum, and the model's frequency datatypes hold only those values. Two places see a value outside the enum differently: `isHabitDue` of server/routes/dashboard.js:24 treats it as never due and `isHabitDueOnDate` of client/api/dashboard/summary.js:33 as always due. Such a value can reach the serverless store, because the merge upsert of client/api/settings/import.js:42-46 writes the imported habit without running validators. The model cannot represent it.
- Settings.LookupBucket: a task with no `date` is looked up by `new Date(t.periodStart)`. The model treats a missing period start as the Invalid Date, which fails the cast. An explicit `null` period start is not distinguished: `new Date(null)` is the epoch, so the lookup runs and matches nothing.
- TaskController.ApplyPatch: the patch holds the schema's editable task fields only. `task.set(req.body)` also copies any other key of the body, so a body with `userId` moves the task to another owner, and one with `_id` or an unknown key is cast or dropped by Mongoose. Those keys are not modelled, and the owner and id are kept.
- Settings.SettingsStore.PutPreferences: a server PUT with no stored document is modelled as a merge over the defaults document. The source creates `{ userId, ...updates }` and lets schema defaults fill the rest.
- Other routes. These are not part of this model: export, export-pdf, stats and clear-all; `getHabits`, `getOccurrences` and `createHabit` of the habit controller; the `/tasks` route wiring.
- Concurrency. `Promise.all` fan-out, the atomicity of check-then-write and of the rank shift, the auto-refresh timers and process supervision are not modelled. Writes happen one after another in the order the source issues them.
- TaskController.TaskStore.RolloverTasks: a batch that fails part-way through is modelled as failing whole. The database keeps the writes before the failure.
- TaskController.TaskStore.ReorderTask: Mongoose dirty tracking is not modelled. An assignment of the value already loaded counts as a write.
- TaskController.ListOrder: states that the sorted listing holds the same ids, each before every later one. It does not state that the listing is a permutation with multiplicities.
- ServerlessTasks.RollEachFrame: states membership facts and per-id facts. It does not state a permutation of the store.
- `client/api/_lib/utils/bucketUtils.js` is not part of this model. The serverless task endpoints are assumed to use the same bucket shape as the server's.
- Random quote. `GET /quotes/random` uses `Math.random` and is not modelled. Only the daily quote is.
- Rendering. All React rendering, drag sensors, animation and charts are not modelled. Only the drag-and-drop decision of the task list is.

## Findings

| source | as written | input that shows it | evidently intended | confidence | as-written member | corrected member |
|---|---|---|---|---|---|---|
| server/controllers/habitController.js:121-141 | `intervalDays \|\| 1` replaces only a missing or zero interval, so a negative `intervalDays` is used as the step. The walk then moves forward in time until the Date leaves its range of ±8.64e15 ms, about 10^8 iterations: a request that stalls | a custom habit with `intervalDays` = -1 whose start date is today: the check day never drops below the start date, so the loop runs on for about 10^8 iterations | an interval of at least one day, so each step moves the check day back and the walk ends | not executed | Habits.NegativeIntervalNeverEnds (with Habits.AsWrittenInterval and Habits.HabitStartedTodayHangs) | Habits.CustomWalk (over Habits.Interval) |
| client/api/settings/import.js:54-66 | occurrences are imported with the exported `habitId` unchanged. Overwrite mode has just deleted that habit and created it again under a new id, and a merge upsert by (`habitId`, `dateUTC`) matches an occurrence of any user | an overwrite import of a user's own habit and one of its occurrences stores the occurrence under the old, deleted habit id; a merge import of another user's occurrence rewrites it as the caller's | occurrences re-linked through the id map of the imported habits, as the server route does, so an import touches only the caller's records | not executed | ServerlessSettings.AsWrittenOverwriteOrphans (and ServerlessSettings.AsWrittenMergeTakesOver) | ServerlessSettings.ImportKeepsOthers (and ServerlessSettings.ImportChangesOnlyUser) |
