/**
 * The task controller of the server: a store of tasks keyed by id, with the
 * handlers that create, update, reorder, delete, list and roll over tasks.
 *
 * Every handler follows the controller's order of steps: capacity check,
 * rank shift in the target group (which stays written even when the later
 * save fails), then field assignment, a version increment, validation and
 * the unique-index check of `save()`.
 */
module TaskController {
  import opened Outcomes
  import opened TaskModel
  import opened Buckets
  import opened Calendar
  import opened Sorting

  const TopCapacityMessage := "Capacity Limit: Max 1 Top Priority task per day/period."
  const SecondaryCapacityMessage := "Capacity Limit: Max 3 Secondary tasks per day/period."
  const TopCapacityReorderMessage := "Capacity Limit: Max 1 Top Priority."
  const SecondaryCapacityReorderMessage := "Capacity Limit: Max 3 Secondary."
  const CastErrorMessage := "Cast to date failed"
  const ValidationMessage := "Task validation failed"
  const DuplicateKeyMessage := "E11000 duplicate key error"
  const NotFoundMessage := "Task not found"
  const RankWithSectionMessage := "Use PATCH /reorder to change rank or section."
  const UpdateConflictMessage := "Version conflict. Please refresh and try again."
  const ReorderConflictMessage := "Version conflict"
  const DeletedMessage := "Task deleted"

  // ---------------------------------------------------------------- groups

  /** The ids of the tasks in a bucket with the given section. */
  function GroupIds(tasks: map<nat, Task>, f: BucketFilter, section: Field<Section>): (ids: set<nat>)
    ensures forall id :: id in ids <==> id in tasks && InGroup(tasks[id], f, section)
  {
    set id | id in tasks && InGroup(tasks[id], f, section)
  }

  /** `countDocuments` of a bucket-and-section query. */
  function CountDocuments(tasks: map<nat, Task>, f: BucketFilter, section: Field<Section>): nat {
    |GroupIds(tasks, f, section)|
  }

  /** The capacity of a section: one `topPriority`, three `secondary`, no limit otherwise. */
  function Limit(section: Field<Section>): (n: Option<nat>)
    ensures n.Some? <==> section == Named(TopPriority) || section == Named(Secondary)
  {
    if section == Named(TopPriority) then Some(1)
    else if section == Named(Secondary) then Some(3)
    else None
  }

  predicate AtCapacity(tasks: map<nat, Task>, f: BucketFilter, section: Field<Section>) {
    Limit(section).Some? && CountDocuments(tasks, f, section) >= Limit(section).value
  }

  /** The capacity check of create and reorder: nothing for an unlimited section; for a limited
      one, a cast error when the bucket's date is invalid, else the section's message when the
      group is full. Completed tasks count. */
  function CapacityCheck(tasks: map<nat, Task>, f: BucketFilter, section: Field<Section>,
                         topMessage: string, secondaryMessage: string): (r: Option<string>)
    ensures r.Some? <==> Limit(section).Some? && (!Castable(f) || AtCapacity(tasks, f, section))
    ensures r.Some? && Castable(f) ==>
      r == Some(if section == Named(TopPriority) then topMessage else secondaryMessage)
    ensures section == Named(TopPriority) && Castable(f) ==>
      (r.Some? <==> exists id :: id in tasks && InGroup(tasks[id], f, section))
    ensures section == Named(Secondary) && Castable(f) ==> (r.Some? <==> CountDocuments(tasks, f, section) >= 3)
  {
    if Limit(section).None? then None
    else if !Castable(f) then Some(CastErrorMessage)
    else if section == Named(TopPriority) && CountDocuments(tasks, f, section) >= 1 then Some(topMessage)
    else if section == Named(Secondary) && CountDocuments(tasks, f, section) >= 3 then Some(secondaryMessage)
    else None
  }

  /** The highest rank among the tasks with the given ids. */
  function MaxRank(tasks: map<nat, Task>, ids: seq<nat>): (r: int)
    requires |ids| > 0 && forall i :: 0 <= i < |ids| ==> ids[i] in tasks
    ensures forall i :: 0 <= i < |ids| ==> tasks[ids[i]].priorityRank <= r
    ensures exists i :: 0 <= i < |ids| && tasks[ids[i]].priorityRank == r
  {
    var here := tasks[ids[0]].priorityRank;
    if |ids| == 1 then here
    else
      var rest := MaxRank(tasks, ids[1..]);
      if here >= rest then here else rest
  }

  /** The rank a task appended to a group receives: one above the highest, or 0 for an
      empty group. It lies above every member, and no lower value does. */
  function NextRank(tasks: map<nat, Task>, f: BucketFilter, section: Field<Section>): (r: int)
    ensures forall id :: id in GroupIds(tasks, f, section) ==> tasks[id].priorityRank < r
    ensures GroupIds(tasks, f, section) == {} ==> r == 0
    ensures GroupIds(tasks, f, section) != {} ==>
      exists id :: id in GroupIds(tasks, f, section) && r == tasks[id].priorityRank + 1
  {
    var ids := GroupIds(tasks, f, section);
    if ids == {} then 0
    else
      MaxRankOfSet(tasks, ids);
      MaxRank(tasks, Ascending(ids)) + 1
  }

  /** The highest rank of a non-empty set of stored ids, taken over the ids in ascending order:
      no member lies above it and some member holds it. */
  lemma MaxRankOfSet(tasks: map<nat, Task>, ids: set<nat>)
    requires ids != {} && forall id :: id in ids ==> id in tasks
    ensures var order := Ascending(ids);
      && |order| > 0 && (forall i :: 0 <= i < |order| ==> order[i] in tasks)
      && (forall id :: id in ids ==> tasks[id].priorityRank <= MaxRank(tasks, order))
      && (exists id :: id in ids && tasks[id].priorityRank == MaxRank(tasks, order))
  {
    var order := Ascending(ids);
    var x :| x in ids;
    assert x in order;
    var top := MaxRank(tasks, order);
    forall id | id in ids
      ensures tasks[id].priorityRank <= top
    {
      var i :| 0 <= i < |order| && order[i] == id;
    }
    var i :| 0 <= i < |order| && tasks[order[i]].priorityRank == top;
    assert order[i] in ids;
  }

  /** `updateMany({...group, priorityRank: {$gte: from}}, {$inc: {priorityRank: 1}})`. */
  function Shift(tasks: map<nat, Task>, f: BucketFilter, section: Field<Section>, from: int): (m: map<nat, Task>)
    ensures m.Keys == tasks.Keys
  {
    map id | id in tasks ::
      if InGroup(tasks[id], f, section) && tasks[id].priorityRank >= from
      then tasks[id].(priorityRank := tasks[id].priorityRank + 1)
      else tasks[id]
  }

  /** The shift touches only ranks, and only ranks at or above `from` in the group, each by one. */
  lemma ShiftTouchesOnlyGroup(tasks: map<nat, Task>, f: BucketFilter, section: Field<Section>, from: int, id: nat)
    requires id in tasks
    ensures Shift(tasks, f, section, from)[id] == tasks[id].(priorityRank := Shift(tasks, f, section, from)[id].priorityRank)
    ensures !InGroup(tasks[id], f, section) || tasks[id].priorityRank < from ==>
      Shift(tasks, f, section, from)[id] == tasks[id]
    ensures InGroup(tasks[id], f, section) && tasks[id].priorityRank >= from ==>
      Shift(tasks, f, section, from)[id].priorityRank == tasks[id].priorityRank + 1
  {
  }

  /** After the shift no group member holds rank `from`, and the relative order of the group's
      ranks is unchanged: the slot is free for the task being placed there. */
  lemma ShiftFreesRank(tasks: map<nat, Task>, f: BucketFilter, section: Field<Section>, from: int)
    ensures var m := Shift(tasks, f, section, from);
      forall id :: id in m && InGroup(m[id], f, section) ==> m[id].priorityRank != from
    ensures var m := Shift(tasks, f, section, from);
      forall i, j :: i in GroupIds(tasks, f, section) && j in GroupIds(tasks, f, section) ==>
        (tasks[i].priorityRank < tasks[j].priorityRank <==> m[i].priorityRank < m[j].priorityRank)
    ensures GroupIds(Shift(tasks, f, section, from), f, section) == GroupIds(tasks, f, section)
  {
    var m := Shift(tasks, f, section, from);
    forall id | id in tasks
      ensures InGroup(m[id], f, section) == InGroup(tasks[id], f, section)
    {
      ShiftTouchesOnlyGroup(tasks, f, section, from, id);
    }
  }

  /** The shift preserves the schema and the unique indexes: it changes neither keys nor
      any field other than a rank that only grows. */
  lemma ShiftPreservesStore(tasks: map<nat, Task>, n: nat, f: BucketFilter, section: Field<Section>, from: int)
    requires ValidStore(tasks, n)
    ensures var m := Shift(tasks, f, section, from);
      ValidStore(m, n) && forall id :: id in m ==> TopPriorityKey(m[id]) == TopPriorityKey(tasks[id])
  {
    var m := Shift(tasks, f, section, from);
    forall id | id in m
      ensures id < n && ValidTask(m[id]) && TopPriorityKey(m[id]) == TopPriorityKey(tasks[id])
    {
      ShiftTouchesOnlyGroup(tasks, f, section, from, id);
    }
    forall i, j | i in m && j in m && i != j && TopPriorityKey(m[i]).Some?
      ensures TopPriorityKey(m[i]) != TopPriorityKey(m[j])
    {
      assert TopPriorityKey(tasks[i]) != TopPriorityKey(tasks[j]);
    }
  }

  /** The same id set with the same index keys collides with a task exactly when the original does. */
  lemma CollisionDependsOnlyOnKeys(a: map<nat, Task>, b: map<nat, Task>, id: nat, t: Task)
    requires a.Keys == b.Keys
    requires forall j :: j in a ==> TopPriorityKey(a[j]) == TopPriorityKey(b[j])
    ensures Collides(a, id, t) <==> Collides(b, id, t)
  {
    if Collides(a, id, t) {
      var j :| j in a && j != id && TopPriorityKey(a[j]) == TopPriorityKey(t);
      assert j in b;
    }
    if Collides(b, id, t) {
      var j :| j in b && j != id && TopPriorityKey(b[j]) == TopPriorityKey(t);
      assert j in a;
    }
  }

  /** A `topPriority` task whose bucket has no `topPriority` task cannot collide: the capacity
      check of create and reorder makes the unique index unreachable. */
  lemma EmptyGroupAdmitsTopPriority(tasks: map<nat, Task>, id: nat, t: Task)
    requires t.section == TopPriority
    requires Castable(BucketOf(t))
    requires CountDocuments(tasks, BucketOf(t), Named(TopPriority)) == 0
    ensures !Collides(tasks, id, t)
  {
    var group := GroupIds(tasks, BucketOf(t), Named(TopPriority));
    assert group == {};
    forall j | j in tasks
      ensures TopPriorityKey(tasks[j]) != TopPriorityKey(t)
    {
      if tasks[j].section == TopPriority {
        IndexKeyIsGroup(t, tasks[j]);
        assert j !in group;
      }
    }
  }

  /** Placing a task at `from` after the shift: it becomes the group's only member at that rank
      and every member that was at or above `from` stays above it. */
  lemma InsertAfterShift(tasks: map<nat, Task>, f: BucketFilter, section: Field<Section>, from: int, id: nat, t: Task)
    requires id !in tasks
    requires InGroup(t, f, section) && t.priorityRank == from
    ensures var m := Shift(tasks, f, section, from)[id := t];
      (forall j :: j in m && InGroup(m[j], f, section) && m[j].priorityRank == from ==> j == id)
      && (forall j :: j in GroupIds(tasks, f, section) && tasks[j].priorityRank >= from ==>
           m[j].priorityRank > t.priorityRank)
  {
    ShiftFreesRank(tasks, f, section, from);
  }

  // ---------------------------------------------------------------- requests

  /** The body of a create request; `None` and `Absent` are absent fields. */
  datatype CreateRequest = CreateRequest(
    title: string,
    section: Field<Section>,
    scope: Field<Scope>,
    date: DateInput,
    periodStart: DateInput,
    priorityRank: Option<int>,
    priority: Field<Priority>,
    completed: Option<bool>)

  function CreateBucket(user: nat, req: CreateRequest): BucketFilter {
    GetBucketQuery(user, req.scope, req.date, req.periodStart)
  }

  /** `new Task({ ...req.body, userId, priorityRank: finalRank })`. */
  function CreateDraft(user: nat, req: CreateRequest, rank: int): Draft {
    Draft(user, req.title, req.section, req.scope, req.priority, req.date, req.periodStart,
      Some(rank), req.completed, 0)
  }

  /** The store after the rank handling of create: shifted for an explicit rank, untouched otherwise. */
  function CreateShifted(tasks: map<nat, Task>, user: nat, req: CreateRequest): map<nat, Task> {
    if req.priorityRank.Some? then Shift(tasks, CreateBucket(user, req), req.section, req.priorityRank.value)
    else tasks
  }

  function CreateRank(tasks: map<nat, Task>, user: nat, req: CreateRequest): int {
    if req.priorityRank.Some? then req.priorityRank.value
    else NextRank(tasks, CreateBucket(user, req), req.section)
  }

  /** A create without a rank ranks the new task above every task already in its group. */
  lemma CreateAppends(tasks: map<nat, Task>, user: nat, req: CreateRequest)
    requires req.priorityRank.None?
    ensures forall id :: id in GroupIds(tasks, CreateBucket(user, req), req.section) ==>
      tasks[id].priorityRank < CreateRank(tasks, user, req)
    ensures GroupIds(tasks, CreateBucket(user, req), req.section) == {} ==> CreateRank(tasks, user, req) == 0
  {
  }

  /** The fields an update may set; `None` and `Absent` leave a field as it is. */
  datatype TaskPatch = TaskPatch(
    title: Option<string>,
    section: Field<Section>,
    scope: Field<Scope>,
    priority: Field<Priority>,
    date: Option<DateInput>,
    periodStart: Option<DateInput>,
    priorityRank: Option<int>,
    completed: Option<bool>)

  /** `task.set(updates)`. */
  function ApplyPatch(d: Draft, p: TaskPatch): (r: Draft)
    ensures r.userId == d.userId && r.version == d.version
  {
    Draft(d.userId,
      if p.title.Some? then p.title.value else d.title,
      if p.section != Absent then p.section else d.section,
      if p.scope != Absent then p.scope else d.scope,
      if p.priority != Absent then p.priority else d.priority,
      if p.date.Some? then p.date.value else d.date,
      if p.periodStart.Some? then p.periodStart.value else d.periodStart,
      if p.priorityRank.Some? then p.priorityRank else d.priorityRank,
      if p.completed.Some? then p.completed else d.completed,
      d.version)
  }

  /** An update that changes nothing leaves a stored task as it is, apart from the version. */
  lemma EmptyPatchKeepsTask(t: Task)
    requires ValidTask(t)
    ensures Validate(ApplyPatch(DraftOf(t), TaskPatch(None, Absent, Absent, Absent, None, None, None, None))) == Some(t)
  {
    RevalidateStored(t);
  }

  /** The guard of updateTask against moving a task to another section with an explicit rank. */
  predicate SectionMoveWithRank(t: Task, p: TaskPatch) {
    Given(p.section) && p.section != Named(t.section) && p.priorityRank.Some?
  }

  /** An update never consults the group count: a task can be patched into a full section. */
  lemma UpdateIgnoresCapacity(t: Task, p: TaskPatch)
    requires ValidTask(t) && t.section == Must
    requires p == TaskPatch(None, Named(Secondary), Absent, Absent, None, None, None, None)
    ensures !SectionMoveWithRank(t, p)
    ensures Validate(ApplyPatch(DraftOf(t), p)) == Some(t.(section := Secondary))
  {
    var moved := t.(section := Secondary);
    assert ApplyPatch(DraftOf(t), p) == DraftOf(moved);
    RevalidateStored(moved);
  }

  /** The body of a reorder request. */
  datatype ReorderRequest = ReorderRequest(
    section: Field<Section>,
    priorityRank: Option<int>,
    date: DateInput,
    periodStart: DateInput,
    scope: Field<Scope>,
    version: Option<int>,
    priority: Field<Priority>)

  /** `scope || task.scope`. */
  function TargetScope(t: Task, req: ReorderRequest): Field<Scope> {
    Or(req.scope, t.scope)
  }

  /** `section || task.section`. */
  function TargetSection(t: Task, req: ReorderRequest): Field<Section> {
    Or(req.section, t.section)
  }

  /** `date ? new Date(date) : task.date`. */
  function TargetDate(t: Task, req: ReorderRequest): DateInput {
    if req.date != NoDate then req.date else StoredDate(t.date)
  }

  function TargetPeriodStart(t: Task, req: ReorderRequest): DateInput {
    if req.periodStart != NoDate then req.periodStart else StoredDate(t.periodStart)
  }

  function TargetBucket(user: nat, t: Task, req: ReorderRequest): BucketFilter {
    GetBucketQuery(user, TargetScope(t, req), TargetDate(t, req), TargetPeriodStart(t, req))
  }

  /** `isSameBucket`: same scope and the same instants (an Invalid Date equals nothing). */
  predicate SameBucket(t: Task, req: ReorderRequest) {
    Named(t.scope) == TargetScope(t, req)
    && StoredDate(t.date) == TargetDate(t, req)
    && StoredDate(t.periodStart) == TargetPeriodStart(t, req)
  }

  /** Reorder counts the target group only for a limited target section whose bucket or
      section differs from the task's current one. */
  predicate NeedsCapacityCheck(t: Task, req: ReorderRequest) {
    Limit(TargetSection(t, req)).Some?
    && (!SameBucket(t, req) || Named(t.section) != TargetSection(t, req))
  }

  /** The document reorder saves: target section, scope and rank, the date field of the target
      scope kept and the other one cleared, and the priority replaced when one is given. */
  function ReorderDraft(t: Task, req: ReorderRequest): Draft {
    var daily := TargetScope(t, req) == Named(Daily);
    Draft(t.userId, t.title, TargetSection(t, req), TargetScope(t, req),
      if Given(req.priority) then req.priority else Named(t.priority),
      if daily then TargetDate(t, req) else NoDate,
      if daily then NoDate else TargetPeriodStart(t, req),
      req.priorityRank, Some(t.completed), t.version)
  }

  /** A reordered task lands in its target section, scope and rank; a daily target keeps the
      target date and no period start, any other target the target period start and no date. */
  lemma ReorderTargets(t: Task, req: ReorderRequest)
    requires Validate(ReorderDraft(t, req)).Some?
    ensures var n := Validate(ReorderDraft(t, req)).value;
      && Named(n.section) == TargetSection(t, req)
      && Named(n.scope) == TargetScope(t, req)
      && Some(n.priorityRank) == req.priorityRank
      && (n.scope == Daily ==> n.date == DateField(TargetDate(t, req)) && n.periodStart.None?)
      && (n.scope != Daily ==> n.date.None? && n.periodStart == DateField(TargetPeriodStart(t, req)))
      && n.userId == t.userId && n.title == Trim(t.title) && n.completed == t.completed
  {
  }

  /** A reorder that sends no rank (as a scope change does) never saves. */
  lemma ReorderNeedsRank(t: Task, req: ReorderRequest)
    requires req.priorityRank.None?
    ensures Validate(ReorderDraft(t, req)).None?
  {
  }

  /** Changing the scope of a `topPriority` weekly task to monthly in the same period counts the
      task itself, since the non-daily bucket ignores scope: the move is always refused. */
  lemma ScopeMoveCountsItself(tasks: map<nat, Task>, id: nat, req: ReorderRequest)
    requires id in tasks
    requires tasks[id].section == TopPriority && tasks[id].scope == Weekly && tasks[id].periodStart.Some?
    requires req.scope == Named(Monthly) && req.section == Absent && req.periodStart == NoDate
    ensures NeedsCapacityCheck(tasks[id], req)
    ensures AtCapacity(tasks, TargetBucket(tasks[id].userId, tasks[id], req), Named(TopPriority))
  {
    var t := tasks[id];
    assert id in GroupIds(tasks, TargetBucket(t.userId, t, req), Named(TopPriority));
  }

  // ---------------------------------------------------------------- rollover

  /** The cut-off and new value of each scope's rollover: today for daily tasks, the start of
      the current week (Monday), month, quarter or year for the others. Random tasks never roll. */
  function PeriodStartFor(scope: Scope, today: int): (s: Option<int>)
    ensures s.Some? <==> scope != Random
    ensures s.Some? ==> s.value <= today
  {
    match scope
    case Daily => Some(today)
    case Weekly => Some(WeekStart(today))
    case Monthly => Some(MonthStart(today))
    case Quarterly => Some(QuarterStart(today))
    case Yearly => Some(YearStart(today))
    case Random => None
  }

  /** The field that places a task of this scope in time. */
  function TimeField(t: Task): Option<int> {
    if t.scope == Daily then t.date else t.periodStart
  }

  /** A task a rollover on `today` moves: the owner's, incomplete, and placed before the cut-off. */
  predicate Overdue(t: Task, user: nat, today: int) {
    var cut := PeriodStartFor(t.scope, today);
    t.userId == user && !t.completed && cut.Some? && TimeField(t).Some? && TimeField(t).value < cut.value
  }

  /** One task after the rollover: a daily task moves to today and into `should`; another
      scope only gets the current period start. */
  function RollOne(t: Task, user: nat, today: int): (r: Task)
    ensures !Overdue(r, user, today)
    ensures !Overdue(t, user, today) ==> r == t
    ensures ValidTask(t) ==> ValidTask(r)
    ensures r.scope == t.scope && r.userId == t.userId
  {
    if !Overdue(t, user, today) then t
    else if t.scope == Daily then t.(date := Some(today), section := Should)
    else t.(periodStart := PeriodStartFor(t.scope, today))
  }

  /** What the rollover does to a moved task, field by field. */
  lemma RollOneMoves(t: Task, user: nat, today: int)
    requires Overdue(t, user, today)
    ensures var r := RollOne(t, user, today);
      && r.scope == t.scope && r.priorityRank == t.priorityRank && r.title == t.title
      && r.completed == t.completed && r.userId == t.userId && r.version == t.version
      && (t.scope == Daily ==> r.date == Some(today) && r.section == Should && r.periodStart == t.periodStart)
      && (t.scope != Daily ==> r.periodStart == PeriodStartFor(t.scope, today)
                                && r.section == t.section && r.date == t.date)
  {
  }

  /** The ids one scope's `updateMany` modifies. */
  function DueIds(tasks: map<nat, Task>, user: nat, scope: Scope, today: int): (ids: set<nat>)
    ensures forall id :: id in ids <==> id in tasks && tasks[id].scope == scope && Overdue(tasks[id], user, today)
  {
    set id | id in tasks && tasks[id].scope == scope && Overdue(tasks[id], user, today)
  }

  /** One scope's `updateMany`. */
  function RollScope(tasks: map<nat, Task>, user: nat, scope: Scope, today: int): (m: map<nat, Task>)
    ensures m.Keys == tasks.Keys
    ensures forall id :: id in m ==> m[id] == if tasks[id].scope == scope then RollOne(tasks[id], user, today) else tasks[id]
  {
    map id | id in tasks :: if tasks[id].scope == scope then RollOne(tasks[id], user, today) else tasks[id]
  }

  /** The whole rollover: every task of every scope rolled. */
  function RollAll(tasks: map<nat, Task>, user: nat, today: int): (m: map<nat, Task>)
    ensures m.Keys == tasks.Keys
  {
    map id | id in tasks :: RollOne(tasks[id], user, today)
  }

  /** The `stats` of the response: the number of tasks modified per scope. It has no `count`. */
  datatype RolloverStats = RolloverStats(daily: nat, weekly: nat, monthly: nat, quarterly: nat, yearly: nat)

  function StatsOf(tasks: map<nat, Task>, user: nat, today: int): RolloverStats {
    RolloverStats(|DueIds(tasks, user, Daily, today)|, |DueIds(tasks, user, Weekly, today)|,
      |DueIds(tasks, user, Monthly, today)|, |DueIds(tasks, user, Quarterly, today)|,
      |DueIds(tasks, user, Yearly, today)|)
  }

  /** After a rollover nothing is overdue, so a second run on the same day reports zero in every
      scope and changes nothing. */
  lemma RolloverIdempotent(tasks: map<nat, Task>, user: nat, today: int)
    ensures StatsOf(RollAll(tasks, user, today), user, today) == RolloverStats(0, 0, 0, 0, 0)
    ensures RollAll(RollAll(tasks, user, today), user, today) == RollAll(tasks, user, today)
  {
    var m := RollAll(tasks, user, today);
    assert forall id :: id in m ==> !Overdue(m[id], user, today);
    forall sc: Scope
      ensures DueIds(m, user, sc, today) == {}
    {
    }
    assert RollAll(m, user, today) == m;
  }

  /** Completed tasks, other users' tasks and tasks already in the current period are untouched. */
  lemma RolloverSparesCurrent(tasks: map<nat, Task>, user: nat, today: int, id: nat)
    requires id in tasks
    requires tasks[id].completed || tasks[id].userId != user || tasks[id].scope == Random
      || (TimeField(tasks[id]).Some? && TimeField(tasks[id]).value >= PeriodStartFor(tasks[id].scope, today).value)
    ensures RollAll(tasks, user, today)[id] == tasks[id]
  {
  }

  /** The daily batch cannot break a unique index: the tasks it moves leave `topPriority`. */
  lemma DailyRollKeepsUnique(tasks: map<nat, Task>, user: nat, today: int)
    requires UniqueTopPriority(tasks)
    ensures UniqueTopPriority(RollScope(tasks, user, Daily, today))
  {
    var m := RollScope(tasks, user, Daily, today);
    forall i, j | i in m && j in m && i != j && TopPriorityKey(m[i]).Some?
      ensures TopPriorityKey(m[i]) != TopPriorityKey(m[j])
    {
      assert m[i] == tasks[i];
      if TopPriorityKey(m[j]).Some? {
        assert m[j] == tasks[j];
      }
    }
  }

  /** `today` of the rollover: the requested day, or the current UTC day when the request has
      none or an unparsable one. */
  function RolloverDay(requested: DateInput, nowMs: int): (d: int)
    ensures requested.OnDay? ==> d == requested.day
    ensures !requested.OnDay? ==> d == DayOf(nowMs)
  {
    if requested.OnDay? then requested.day else DayOf(nowMs)
  }

  // ---------------------------------------------------------------- listing

  /** The query of getTasks; each absent (falsy) parameter imposes no condition. */
  datatype TaskQuery = TaskQuery(scope: Field<Scope>, date: DateInput, periodStart: DateInput, section: Field<Section>)

  predicate QueryMatches(t: Task, user: nat, q: TaskQuery) {
    t.userId == user
    && (Given(q.scope) ==> q.scope == Named(t.scope))
    && (q.date.OnDay? ==> t.date == Some(q.date.day))
    && (q.periodStart.OnDay? ==> t.periodStart == Some(q.periodStart.day))
    && (Given(q.section) ==> q.section == Named(t.section))
  }

  /** Sort order of getTasks: rank descending, then creation order. Ids are allocated in
      creation order, so the id stands for `createdAt`. */
  function ListKey(tasks: map<nat, Task>): nat -> Key {
    id => if id in tasks then Key(-tasks[id].priorityRank, id) else Key(0, id)
  }

  /** Whether stored task a is listed before stored task b: higher rank first, then older first. */
  predicate ListedBefore(tasks: map<nat, Task>, a: nat, b: nat) {
    a in tasks && b in tasks &&
    (tasks[a].priorityRank > tasks[b].priorityRank
     || (tasks[a].priorityRank == tasks[b].priorityRank && a <= b))
  }

  /** Sorting stored ids by the list key lists each before every later one. */
  lemma ListOrder(tasks: map<nat, Task>, ids: seq<nat>)
    requires forall id :: id in ids ==> id in tasks
    ensures var s := SortBy(ids, ListKey(tasks));
      && (forall id :: id in s <==> id in ids)
      && (forall i, j :: 0 <= i < j < |s| ==> ListedBefore(tasks, s[i], s[j]))
  {
    var s := SortBy(ids, ListKey(tasks));
    SortByKeepsMembers(ids, ListKey(tasks));
    forall i, j | 0 <= i < j < |s|
      ensures ListedBefore(tasks, s[i], s[j])
    {
      assert s[i] in ids && s[j] in ids;
      assert KeyLe(ListKey(tasks)(s[i]), ListKey(tasks)(s[j]));
    }
  }

  /** The ids of the owner's tasks that match the query. */
  function Matching(tasks: map<nat, Task>, user: nat, q: TaskQuery): (ids: set<nat>)
    ensures forall id :: id in ids <==> id in tasks && QueryMatches(tasks[id], user, q)
  {
    set id | id in tasks && QueryMatches(tasks[id], user, q)
  }

  /** The list getTasks returns: exactly the matching tasks, highest rank first and oldest first
      among equal ranks. */
  function ListIds(tasks: map<nat, Task>, user: nat, q: TaskQuery): (r: seq<nat>)
    ensures forall id :: id in r <==> id in tasks && QueryMatches(tasks[id], user, q)
    ensures forall i, j :: 0 <= i < j < |r| ==> ListedBefore(tasks, r[i], r[j])
  {
    var ids := Ascending(Matching(tasks, user, q));
    ListOrder(tasks, ids);
    SortBy(ids, ListKey(tasks))
  }

  /** getTasks: the listing, or a cast error (status 500) when a date parameter does not parse. */
  function GetTasks(tasks: map<nat, Task>, user: nat, q: TaskQuery): (r: Reply<seq<nat>>)
    ensures r.Err? <==> q.date == BadDate || q.periodStart == BadDate
    ensures r.Err? ==> r == Err(500, CastErrorMessage)
    ensures r.Ok? ==> r == Ok(200, ListIds(tasks, user, q))
  {
    if q.date == BadDate || q.periodStart == BadDate then Err(500, CastErrorMessage)
    else Ok(200, ListIds(tasks, user, q))
  }

  // ---------------------------------------------------------------- the handlers

  /** The store invariant: ids below the next id, every task passes the schema, and the unique
      indexes hold. */
  predicate ValidStore(tasks: map<nat, Task>, nextId: nat) {
    SchemaHolds(tasks, nextId) && UniqueTopPriority(tasks)
  }

  predicate SchemaHolds(tasks: map<nat, Task>, nextId: nat) {
    forall id :: id in tasks ==> id < nextId && ValidTask(tasks[id])
  }

  predicate Owned(tasks: map<nat, Task>, user: nat, id: nat) {
    id in tasks && tasks[id].userId == user
  }

  /** Writing a schema-valid task that breaks no unique index, under an id below the bound,
      keeps the store invariant. */
  lemma StoreWrite(tasks: map<nat, Task>, n: nat, id: nat, t: Task)
    requires ValidStore(tasks, n) && id < n && ValidTask(t) && !Collides(tasks, id, t)
    ensures ValidStore(tasks[id := t], n)
  {
    StorePreservesUnique(tasks, id, t);
  }

  /** createTask: the reply and the store afterwards. The new task takes id `nextId`. */
  function Create(tasks: map<nat, Task>, nextId: nat, user: nat, req: CreateRequest): (Reply<nat>, map<nat, Task>) {
    var f := CreateBucket(user, req);
    var check := CapacityCheck(tasks, f, req.section, TopCapacityMessage, SecondaryCapacityMessage);
    if check.Some? then (Err(400, check.value), tasks)
    else if !Castable(f) then (Err(400, CastErrorMessage), tasks)
    else
      var shifted := CreateShifted(tasks, user, req);
      var doc := Validate(CreateDraft(user, req, CreateRank(tasks, user, req)));
      if doc.None? then (Err(400, ValidationMessage), shifted)
      else if Collides(shifted, nextId, doc.value) then (Err(400, DuplicateKeyMessage), shifted)
      else (Ok(201, nextId), shifted[nextId := doc.value])
  }

  /** A full group, counting completed tasks, or an invalid bucket date rejects the create and
      writes nothing. */
  lemma CreateRejectsFullGroup(tasks: map<nat, Task>, nextId: nat, user: nat, req: CreateRequest)
    requires Limit(req.section).Some?
    requires var f := CreateBucket(user, req); !Castable(f) || AtCapacity(tasks, f, req.section)
    ensures Create(tasks, nextId, user, req).0.Err? && Create(tasks, nextId, user, req).0.status == 400
    ensures Create(tasks, nextId, user, req).1 == tasks
  {
  }

  /** A successful create stores the validated draft under `nextId` in the store after the
      rank handling. */
  lemma CreateSucceeds(tasks: map<nat, Task>, nextId: nat, user: nat, req: CreateRequest)
    requires Create(tasks, nextId, user, req).0.Ok?
    ensures var doc := Validate(CreateDraft(user, req, CreateRank(tasks, user, req)));
      && doc.Some? && Castable(CreateBucket(user, req))
      && !Collides(CreateShifted(tasks, user, req), nextId, doc.value)
      && Create(tasks, nextId, user, req) == (Ok(201, nextId), CreateShifted(tasks, user, req)[nextId := doc.value])
  {
  }

  /** With an explicit rank r, a successful create moves every group task at r or above up by
      one, leaves every other task as it was, and stores the new task at r as the group's only
      task of that rank. */
  lemma CreateAtRank(tasks: map<nat, Task>, nextId: nat, user: nat, req: CreateRequest)
    requires ValidStore(tasks, nextId)
    requires req.priorityRank.Some?
    requires Create(tasks, nextId, user, req).0.Ok?
    ensures var (reply, after) := Create(tasks, nextId, user, req);
      var f := CreateBucket(user, req);
      var r := req.priorityRank.value;
      && reply == Ok(201, nextId) && after.Keys == tasks.Keys + {nextId}
      && after[nextId].priorityRank == r && InGroup(after[nextId], f, req.section)
      && (forall id :: id in tasks && InGroup(tasks[id], f, req.section) && tasks[id].priorityRank >= r ==>
            after[id] == tasks[id].(priorityRank := tasks[id].priorityRank + 1))
      && (forall id :: id in tasks && !(InGroup(tasks[id], f, req.section) && tasks[id].priorityRank >= r) ==>
            after[id] == tasks[id])
      && (forall id :: id in after && InGroup(after[id], f, req.section) && after[id].priorityRank == r ==> id == nextId)
  {
    var f := CreateBucket(user, req);
    var r := req.priorityRank.value;
    var draft := CreateDraft(user, req, r);
    CreateSucceeds(tasks, nextId, user, req);
    var t := Validate(draft).value;
    BucketOfValidated(draft);
    assert InGroup(t, f, req.section);
    InsertAfterShift(tasks, f, req.section, r, nextId, t);
  }

  /** Without a rank, a successful create adds only the new task, ranked one above the highest
      task of its group, or 0 in an empty group. */
  lemma CreateAppendsAtEnd(tasks: map<nat, Task>, nextId: nat, user: nat, req: CreateRequest)
    requires req.priorityRank.None?
    requires Create(tasks, nextId, user, req).0.Ok?
    ensures var (reply, after) := Create(tasks, nextId, user, req);
      var f := CreateBucket(user, req);
      && reply == Ok(201, nextId) && after == tasks[nextId := after[nextId]]
      && (forall id :: id in GroupIds(tasks, f, req.section) ==> tasks[id].priorityRank < after[nextId].priorityRank)
      && (GroupIds(tasks, f, req.section) == {} ==> after[nextId].priorityRank == 0)
  {
    var f := CreateBucket(user, req);
    var rank := NextRank(tasks, f, req.section);
    var doc := Validate(CreateDraft(user, req, rank));
    assert CreateRank(tasks, user, req) == rank && CreateShifted(tasks, user, req) == tasks;
    assert doc.Some? && doc.value.priorityRank == rank;
    assert Create(tasks, nextId, user, req) == (Ok(201, nextId), tasks[nextId := doc.value]);
  }

  /** A failed create never adds a task; at most the rank shift of an explicit rank stays written. */
  lemma CreateFailureAddsNothing(tasks: map<nat, Task>, nextId: nat, user: nat, req: CreateRequest)
    requires Create(tasks, nextId, user, req).0.Err?
    ensures var (reply, after) := Create(tasks, nextId, user, req);
      reply.status == 400 && (after == tasks || after == CreateShifted(tasks, user, req))
  {
  }

  /** The capacity check keeps the `topPriority` index from ever refusing a create. */
  lemma CreateNeverDuplicatesTop(tasks: map<nat, Task>, nextId: nat, user: nat, req: CreateRequest)
    requires ValidStore(tasks, nextId)
    requires req.section == Named(TopPriority)
    ensures Create(tasks, nextId, user, req).0 != Err(400, DuplicateKeyMessage)
  {
    var f := CreateBucket(user, req);
    if CapacityCheck(tasks, f, req.section, TopCapacityMessage, SecondaryCapacityMessage).None? && Castable(f) {
      var draft := CreateDraft(user, req, CreateRank(tasks, user, req));
      var shifted := CreateShifted(tasks, user, req);
      if Validate(draft).Some? {
        var t := Validate(draft).value;
        BucketOfValidated(draft);
        if req.priorityRank.Some? {
          ShiftPreservesStore(tasks, nextId, f, req.section, req.priorityRank.value);
        }
        CollisionDependsOnlyOnKeys(tasks, shifted, nextId, t);
        EmptyGroupAdmitsTopPriority(tasks, nextId, t);
      }
    }
  }

  lemma CreatePreservesStore(tasks: map<nat, Task>, nextId: nat, user: nat, req: CreateRequest)
    requires ValidStore(tasks, nextId)
    ensures var (reply, after) := Create(tasks, nextId, user, req);
      ValidStore(after, if reply.Ok? then nextId + 1 else nextId)
  {
    var f := CreateBucket(user, req);
    var shifted := CreateShifted(tasks, user, req);
    if req.priorityRank.Some? {
      ShiftPreservesStore(tasks, nextId, f, req.section, req.priorityRank.value);
    }
    assert ValidStore(shifted, nextId);
    if Create(tasks, nextId, user, req).0.Ok? {
      CreateSucceeds(tasks, nextId, user, req);
      var doc := Validate(CreateDraft(user, req, CreateRank(tasks, user, req))).value;
      StorePreservesUnique(shifted, nextId, doc);
    } else {
      CreateFailureAddsNothing(tasks, nextId, user, req);
    }
  }

  /** updateTask: the reply and the store afterwards. */
  function Update(tasks: map<nat, Task>, user: nat, id: nat, version: Option<int>, patch: TaskPatch): (Reply<Task>, map<nat, Task>) {
    if !Owned(tasks, user, id) then (Err(404, NotFoundMessage), tasks)
    else
      var task := tasks[id];
      if SectionMoveWithRank(task, patch) then (Err(400, RankWithSectionMessage), tasks)
      else if version.Some? && task.version != version.value then (Err(409, UpdateConflictMessage), tasks)
      else
        var doc := Validate(ApplyPatch(DraftOf(task), patch));
        if doc.None? then (Err(400, ValidationMessage), tasks)
        else
          var saved := doc.value.(version := task.version + 1);
          if Collides(tasks, id, saved) then (Err(400, DuplicateKeyMessage), tasks)
          else (Ok(200, saved), tasks[id := saved])
  }

  /** An update of a missing or foreign task is a 404, a section change with a rank a 400, a
      stale version a 409; none of them writes. */
  lemma UpdateGuards(tasks: map<nat, Task>, user: nat, id: nat, version: Option<int>, patch: TaskPatch)
    ensures !Owned(tasks, user, id) ==> Update(tasks, user, id, version, patch) == (Err(404, NotFoundMessage), tasks)
    ensures Owned(tasks, user, id) && SectionMoveWithRank(tasks[id], patch) ==>
      Update(tasks, user, id, version, patch) == (Err(400, RankWithSectionMessage), tasks)
    ensures (Owned(tasks, user, id) && !SectionMoveWithRank(tasks[id], patch)
             && version.Some? && version.value != tasks[id].version) ==>
      Update(tasks, user, id, version, patch) == (Err(409, UpdateConflictMessage), tasks)
  {
  }

  /** A failed update writes nothing. */
  lemma UpdateFailureWritesNothing(tasks: map<nat, Task>, user: nat, id: nat, version: Option<int>, patch: TaskPatch)
    requires Update(tasks, user, id, version, patch).0.Err?
    ensures Update(tasks, user, id, version, patch).1 == tasks
  {
  }

  /** A successful update writes the patched task, with the version up by exactly one, and
      nothing else. */
  lemma UpdateApplies(tasks: map<nat, Task>, user: nat, id: nat, version: Option<int>, patch: TaskPatch)
    requires Update(tasks, user, id, version, patch).0.Ok?
    ensures var (reply, after) := Update(tasks, user, id, version, patch);
      && Owned(tasks, user, id)
      && reply.value.version == tasks[id].version + 1
      && Validate(ApplyPatch(DraftOf(tasks[id]), patch)) == Some(reply.value.(version := tasks[id].version))
      && ValidTask(reply.value) && !Collides(tasks, id, reply.value)
      && after == tasks[id := reply.value]
  {
  }

  lemma UpdatePreservesStore(tasks: map<nat, Task>, nextId: nat, user: nat, id: nat, version: Option<int>, patch: TaskPatch)
    requires ValidStore(tasks, nextId)
    ensures ValidStore(Update(tasks, user, id, version, patch).1, nextId)
  {
    if Update(tasks, user, id, version, patch).0.Ok? {
      UpdateApplies(tasks, user, id, version, patch);
      StoreWrite(tasks, nextId, id, Update(tasks, user, id, version, patch).0.value);
    } else {
      UpdateFailureWritesNothing(tasks, user, id, version, patch);
    }
  }

  /** The store after the rank handling of reorder: the target group shifted at the requested
      rank, or untouched when no rank is given. */
  function ReorderShifted(tasks: map<nat, Task>, user: nat, t: Task, req: ReorderRequest): map<nat, Task> {
    if req.priorityRank.Some?
    then Shift(tasks, TargetBucket(user, t, req), TargetSection(t, req), req.priorityRank.value)
    else tasks
  }

  /** reorderTask: the reply and the store afterwards. */
  function Reorder(tasks: map<nat, Task>, user: nat, id: nat, req: ReorderRequest): (Reply<Task>, map<nat, Task>) {
    if !Owned(tasks, user, id) then (Err(400, NotFoundMessage), tasks)
    else if req.version.Some? && tasks[id].version != req.version.value then (Err(409, ReorderConflictMessage), tasks)
    else ReorderOwned(tasks, user, id, req)
  }

  /** reorderTask from the capacity check on, for an owned task of the expected version. */
  function ReorderOwned(tasks: map<nat, Task>, user: nat, id: nat, req: ReorderRequest): (Reply<Task>, map<nat, Task>)
    requires id in tasks
  {
    var task := tasks[id];
    var f := TargetBucket(user, task, req);
    var check := if NeedsCapacityCheck(task, req)
      then CapacityCheck(tasks, f, TargetSection(task, req), TopCapacityReorderMessage, SecondaryCapacityReorderMessage)
      else None;
    if check.Some? then (Err(400, check.value), tasks)
    else if !Castable(f) then (Err(400, CastErrorMessage), tasks)
    else SaveReordered(ReorderShifted(tasks, user, task, req), id, task, req)
  }

  /** The save step of reorderTask, in the store after the rank handling. */
  function SaveReordered(shifted: map<nat, Task>, id: nat, task: Task, req: ReorderRequest): (Reply<Task>, map<nat, Task>) {
    var doc := Validate(ReorderDraft(task, req));
    if doc.None? then (Err(400, ValidationMessage), shifted)
    else
      var saved := doc.value.(version := task.version + 1);
      if Collides(shifted, id, saved) then (Err(400, DuplicateKeyMessage), shifted)
      else (Ok(200, saved), shifted[id := saved])
  }

  /** A missing task is a 400 here (it is raised as an error), a stale version a 409, and
      neither writes. */
  lemma ReorderGuards(tasks: map<nat, Task>, user: nat, id: nat, req: ReorderRequest)
    ensures !Owned(tasks, user, id) ==> Reorder(tasks, user, id, req) == (Err(400, NotFoundMessage), tasks)
    ensures Owned(tasks, user, id) && req.version.Some? && req.version.value != tasks[id].version ==>
      Reorder(tasks, user, id, req) == (Err(409, ReorderConflictMessage), tasks)
  {
  }

  /** The target group is counted only when the target section is limited and the bucket or the
      section changes; a full target group then rejects the move without writing. */
  lemma ReorderCapacity(tasks: map<nat, Task>, user: nat, id: nat, req: ReorderRequest)
    requires Owned(tasks, user, id)
    requires req.version.None? || req.version.value == tasks[id].version
    ensures var t := tasks[id];
      var f := TargetBucket(user, t, req);
      NeedsCapacityCheck(t, req) && AtCapacity(tasks, f, TargetSection(t, req)) ==>
        Reorder(tasks, user, id, req).0.Err? && Reorder(tasks, user, id, req).1 == tasks
    ensures var reply := Reorder(tasks, user, id, req).0;
      !NeedsCapacityCheck(tasks[id], req) ==>
        reply != Err(400, TopCapacityReorderMessage) && reply != Err(400, SecondaryCapacityReorderMessage)
  {
  }

  /** A successful reorder stores the validated draft, with the version up by one, in the store
      after the rank handling. */
  lemma ReorderSucceeds(tasks: map<nat, Task>, user: nat, id: nat, req: ReorderRequest)
    requires Reorder(tasks, user, id, req).0.Ok?
    ensures Owned(tasks, user, id)
    ensures var t := tasks[id];
      var doc := Validate(ReorderDraft(t, req));
      && doc.Some?
      && var n := doc.value.(version := t.version + 1);
      && !Collides(ReorderShifted(tasks, user, t, req), id, n)
      && Reorder(tasks, user, id, req) == (Ok(200, n), ReorderShifted(tasks, user, t, req)[id := n])
  {
  }

  /** A successful reorder shifts the target group at the requested rank and above, then stores
      the task with its target fields and the version up by one. */
  lemma ReorderApplies(tasks: map<nat, Task>, user: nat, id: nat, req: ReorderRequest)
    requires Reorder(tasks, user, id, req).0.Ok?
    ensures var (reply, after) := Reorder(tasks, user, id, req);
      var t := tasks[id];
      var n := reply.value;
      && Owned(tasks, user, id) && req.priorityRank.Some?
      && after == Shift(tasks, TargetBucket(user, t, req), TargetSection(t, req), req.priorityRank.value)[id := n]
      && ValidTask(n) && !Collides(ReorderShifted(tasks, user, t, req), id, n)
      && n.version == t.version + 1
      && Named(n.section) == TargetSection(t, req) && Named(n.scope) == TargetScope(t, req)
      && n.priorityRank == req.priorityRank.value
      && (n.scope == Daily ==> n.date == DateField(TargetDate(t, req)) && n.periodStart.None?)
      && (n.scope != Daily ==> n.date.None? && n.periodStart == DateField(TargetPeriodStart(t, req)))
  {
    ReorderSucceeds(tasks, user, id, req);
    ReorderTargets(tasks[id], req);
  }

  /** A failed reorder leaves the store as it was, apart from a rank shift already written. */
  lemma ReorderFailureShiftsAtMost(tasks: map<nat, Task>, user: nat, id: nat, req: ReorderRequest)
    requires Reorder(tasks, user, id, req).0.Err?
    ensures var (reply, after) := Reorder(tasks, user, id, req);
      (reply.status == 400 || reply.status == 409)
      && (after == tasks || (id in tasks && after == ReorderShifted(tasks, user, tasks[id], req)))
  {
    if Owned(tasks, user, id) && !(req.version.Some? && tasks[id].version != req.version.value) {
      var t := tasks[id];
      var f := TargetBucket(user, t, req);
      var check := if NeedsCapacityCheck(t, req)
        then CapacityCheck(tasks, f, TargetSection(t, req), TopCapacityReorderMessage, SecondaryCapacityReorderMessage)
        else None;
      if check.None? && Castable(f) {
        var shifted := ReorderShifted(tasks, user, t, req);
        var doc := Validate(ReorderDraft(t, req));
        if doc.None? {
          assert Reorder(tasks, user, id, req) == (Err(400, ValidationMessage), shifted);
        } else {
          var saved := doc.value.(version := t.version + 1);
          assert Collides(shifted, id, saved);
          assert Reorder(tasks, user, id, req) == (Err(400, DuplicateKeyMessage), shifted);
        }
      } else if check.Some? {
        assert Reorder(tasks, user, id, req) == (Err(400, check.value), tasks);
      } else {
        assert Reorder(tasks, user, id, req) == (Err(400, CastErrorMessage), tasks);
      }
    }
  }

  lemma ReorderPreservesStore(tasks: map<nat, Task>, nextId: nat, user: nat, id: nat, req: ReorderRequest)
    requires ValidStore(tasks, nextId)
    ensures ValidStore(Reorder(tasks, user, id, req).1, nextId)
  {
    if id in tasks {
      var t := tasks[id];
      if req.priorityRank.Some? {
        ShiftPreservesStore(tasks, nextId, TargetBucket(user, t, req), TargetSection(t, req), req.priorityRank.value);
      }
      var shifted := ReorderShifted(tasks, user, t, req);
      assert ValidStore(shifted, nextId);
      if Reorder(tasks, user, id, req).0.Ok? {
        ReorderApplies(tasks, user, id, req);
        StoreWrite(shifted, nextId, id, Reorder(tasks, user, id, req).0.value);
      } else {
        ReorderFailureShiftsAtMost(tasks, user, id, req);
      }
    }
  }

  /** deleteTask: the reply and the store afterwards. */
  function Delete(tasks: map<nat, Task>, user: nat, id: nat): (r: (Reply<string>, map<nat, Task>))
    ensures r.0.Ok? <==> Owned(tasks, user, id)
    ensures r.0.Ok? ==> r == (Ok(200, DeletedMessage), tasks - {id})
    ensures r.0.Err? ==> r == (Err(404, NotFoundMessage), tasks)
  {
    if !Owned(tasks, user, id) then (Err(404, NotFoundMessage), tasks)
    else (Ok(200, DeletedMessage), tasks - {id})
  }

  /** Scope batches after the daily one, in order, stopping at the first that a unique index
      refuses. The flag says whether every batch went through. */
  function RunBatches(tasks: map<nat, Task>, user: nat, today: int, scopes: seq<Scope>): (r: (bool, map<nat, Task>))
    ensures r.1.Keys == tasks.Keys
    decreases |scopes|
  {
    if |scopes| == 0 then (true, tasks)
    else
      var next := RollScope(tasks, user, scopes[0], today);
      if !UniqueTopPriority(next) then (false, tasks)
      else RunBatches(next, user, today, scopes[1..])
  }

  const LaterScopes: seq<Scope> := [Weekly, Monthly, Quarterly, Yearly]

  /** rolloverTasks: the reply and the store afterwards. */
  function Rollover(tasks: map<nat, Task>, user: nat, requested: DateInput, nowMs: int): (Reply<RolloverStats>, map<nat, Task>) {
    var today := RolloverDay(requested, nowMs);
    var (ok, after) := RunBatches(RollScope(tasks, user, Daily, today), user, today, LaterScopes);
    if ok then (Ok(200, StatsOf(tasks, user, today)), after) else (Err(500, DuplicateKeyMessage), after)
  }

  lemma {:induction false} RunBatchesComposes(tasks: map<nat, Task>, user: nat, today: int, scopes: seq<Scope>)
    requires RunBatches(tasks, user, today, scopes).0
    ensures forall id :: id in tasks ==>
      RunBatches(tasks, user, today, scopes).1[id] ==
        (if tasks[id].scope in scopes then RollOne(tasks[id], user, today) else tasks[id])
    decreases |scopes|
  {
    if |scopes| > 0 {
      var next := RollScope(tasks, user, scopes[0], today);
      RunBatchesComposes(next, user, today, scopes[1..]);
      forall id | id in tasks
        ensures RunBatches(tasks, user, today, scopes).1[id] ==
          (if tasks[id].scope in scopes then RollOne(tasks[id], user, today) else tasks[id])
      {
        if tasks[id].scope == scopes[0] {
          assert next[id] == RollOne(tasks[id], user, today);
          if next[id].scope in scopes[1..] {
            assert RollOne(next[id], user, today) == next[id];
          }
        } else {
          assert next[id] == tasks[id];
        }
      }
    }
  }

  lemma {:induction false} RunBatchesKeepsUnique(tasks: map<nat, Task>, user: nat, today: int, scopes: seq<Scope>)
    requires UniqueTopPriority(tasks)
    ensures UniqueTopPriority(RunBatches(tasks, user, today, scopes).1)
    decreases |scopes|
  {
    if |scopes| > 0 {
      var next := RollScope(tasks, user, scopes[0], today);
      if UniqueTopPriority(next) {
        RunBatchesKeepsUnique(next, user, today, scopes[1..]);
      }
    }
  }

  /** A successful rollover moves every overdue task of every scope and reports the counts of
      the store before it. */
  lemma RolloverRollsAll(tasks: map<nat, Task>, user: nat, requested: DateInput, nowMs: int)
    requires Rollover(tasks, user, requested, nowMs).0.Ok?
    ensures var today := RolloverDay(requested, nowMs);
      Rollover(tasks, user, requested, nowMs) == (Ok(200, StatsOf(tasks, user, today)), RollAll(tasks, user, today))
  {
    var today := RolloverDay(requested, nowMs);
    BatchesAfterDaily(tasks, user, today);
  }

  /** The later batches, all accepted, after the daily one amount to the whole rollover. */
  lemma BatchesAfterDaily(tasks: map<nat, Task>, user: nat, today: int)
    requires RunBatches(RollScope(tasks, user, Daily, today), user, today, LaterScopes).0
    ensures RunBatches(RollScope(tasks, user, Daily, today), user, today, LaterScopes).1 == RollAll(tasks, user, today)
  {
    var after := RunBatches(RollScope(tasks, user, Daily, today), user, today, LaterScopes).1;
    var all := RollAll(tasks, user, today);
    forall id | id in tasks
      ensures after[id] == all[id]
    {
      BatchesRollEach(tasks, user, today, id);
    }
  }

  /** One task through the daily batch and then the later batches ends up rolled once. */
  lemma BatchesRollEach(tasks: map<nat, Task>, user: nat, today: int, id: nat)
    requires RunBatches(RollScope(tasks, user, Daily, today), user, today, LaterScopes).0
    requires id in tasks
    ensures RunBatches(RollScope(tasks, user, Daily, today), user, today, LaterScopes).1[id]
      == RollOne(tasks[id], user, today)
  {
    var daily := RollScope(tasks, user, Daily, today);
    RunBatchesComposes(daily, user, today, LaterScopes);
    var t := tasks[id];
    if t.scope == Random {
      assert !Overdue(t, user, today);
    } else if t.scope != Daily {
      assert t.scope in LaterScopes;
    }
  }

  /** A failed rollover is a server error after the daily batch, which a unique index never
      refuses, has been written. */
  lemma RolloverFailureKeepsDaily(tasks: map<nat, Task>, user: nat, requested: DateInput, nowMs: int)
    requires Rollover(tasks, user, requested, nowMs).0.Err?
    ensures Rollover(tasks, user, requested, nowMs).0.status == 500
    ensures var today := RolloverDay(requested, nowMs);
      var after := Rollover(tasks, user, requested, nowMs).1;
      forall id :: id in tasks && tasks[id].scope == Daily ==> after[id] == RollOne(tasks[id], user, today)
  {
    var today := RolloverDay(requested, nowMs);
    var daily := RollScope(tasks, user, Daily, today);
    RunBatchesKeepsDaily(daily, user, today, LaterScopes);
  }

  lemma {:induction false} RunBatchesKeepsDaily(tasks: map<nat, Task>, user: nat, today: int, scopes: seq<Scope>)
    requires Daily !in scopes
    ensures forall id :: id in tasks && tasks[id].scope == Daily ==> RunBatches(tasks, user, today, scopes).1[id] == tasks[id]
    decreases |scopes|
  {
    if |scopes| > 0 {
      var next := RollScope(tasks, user, scopes[0], today);
      if UniqueTopPriority(next) {
        RunBatchesKeepsDaily(next, user, today, scopes[1..]);
        assert forall id :: id in tasks && tasks[id].scope == Daily ==> next[id] == tasks[id];
      }
    }
  }

  lemma RolloverPreservesStore(tasks: map<nat, Task>, nextId: nat, user: nat, requested: DateInput, nowMs: int)
    requires ValidStore(tasks, nextId)
    ensures ValidStore(Rollover(tasks, user, requested, nowMs).1, nextId)
  {
    var today := RolloverDay(requested, nowMs);
    var daily := RollScope(tasks, user, Daily, today);
    DailyRollKeepsUnique(tasks, user, today);
    RunBatchesKeepsUnique(daily, user, today, LaterScopes);
    RunBatchesValid(daily, nextId, user, today, LaterScopes);
  }

  lemma {:induction false} RunBatchesValid(tasks: map<nat, Task>, nextId: nat, user: nat, today: int, scopes: seq<Scope>)
    requires SchemaHolds(tasks, nextId)
    ensures SchemaHolds(RunBatches(tasks, user, today, scopes).1, nextId)
    decreases |scopes|
  {
    if |scopes| > 0 {
      var next := RollScope(tasks, user, scopes[0], today);
      assert SchemaHolds(next, nextId) by {
        forall id | id in next
          ensures id < nextId && ValidTask(next[id])
        {
          assert id in tasks;
        }
      }
      if UniqueTopPriority(next) {
        RunBatchesValid(next, nextId, user, today, scopes[1..]);
      }
    }
  }

  // ---------------------------------------------------------------- the store

  class TaskStore {
    var tasks: map<nat, Task>
    var nextId: nat

    predicate Valid()
      reads this
    {
      ValidStore(tasks, nextId)
    }

    constructor ()
      ensures Valid() && tasks == map[] && nextId == 0
    {
      tasks := map[];
      nextId := 0;
    }

    /** createTask: capacity check, rank handling, then save. */
    method CreateTask(user: nat, req: CreateRequest) returns (reply: Reply<nat>)
      requires Valid()
      modifies this
      ensures Valid()
      ensures (reply, tasks) == Create(old(tasks), old(nextId), user, req)
      ensures nextId == if reply.Ok? then old(nextId) + 1 else old(nextId)
    {
      CreatePreservesStore(tasks, nextId, user, req);
      var f := CreateBucket(user, req);
      // 1. capacity
      var check := CapacityCheck(tasks, f, req.section, TopCapacityMessage, SecondaryCapacityMessage);
      if check.Some? {
        return Err(400, check.value);
      }
      // 2. rank
      if !Castable(f) {
        return Err(400, CastErrorMessage);
      }
      var finalRank: int;
      if req.priorityRank.Some? {
        finalRank := req.priorityRank.value;
        tasks := Shift(tasks, f, req.section, finalRank);
      } else {
        finalRank := NextRank(tasks, f, req.section);
      }
      // 3. save
      var doc := Validate(CreateDraft(user, req, finalRank));
      if doc.None? {
        return Err(400, ValidationMessage);
      }
      if Collides(tasks, nextId, doc.value) {
        return Err(400, DuplicateKeyMessage);
      }
      tasks := tasks[nextId := doc.value];
      reply := Ok(201, nextId);
      nextId := nextId + 1;
    }

    /** updateTask: ownership, the section-and-rank guard, the version check, then `set`,
        `increment` and save. */
    method UpdateTask(user: nat, id: nat, version: Option<int>, patch: TaskPatch) returns (reply: Reply<Task>)
      requires Valid()
      modifies this
      ensures Valid() && nextId == old(nextId)
      ensures (reply, tasks) == Update(old(tasks), user, id, version, patch)
    {
      UpdatePreservesStore(tasks, nextId, user, id, version, patch);
      if !(id in tasks && tasks[id].userId == user) {
        return Err(404, NotFoundMessage);
      }
      var task := tasks[id];
      if SectionMoveWithRank(task, patch) {
        return Err(400, RankWithSectionMessage);
      }
      if version.Some? && task.version != version.value {
        return Err(409, UpdateConflictMessage);
      }
      var doc := Validate(ApplyPatch(DraftOf(task), patch));
      if doc.None? {
        return Err(400, ValidationMessage);
      }
      var saved := doc.value.(version := task.version + 1);
      if Collides(tasks, id, saved) {
        return Err(400, DuplicateKeyMessage);
      }
      tasks := tasks[id := saved];
      reply := Ok(200, saved);
    }

    /** reorderTask: ownership and version, the capacity check when bucket or section change,
        the shift in the target group, then the target fields, `increment` and save. */
    method ReorderTask(user: nat, id: nat, req: ReorderRequest) returns (reply: Reply<Task>)
      requires Valid()
      modifies this
      ensures (reply, tasks) == Reorder(old(tasks), user, id, req)
      ensures Valid() && nextId == old(nextId)
    {
      ReorderPreservesStore(tasks, nextId, user, id, req);
      if !(id in tasks && tasks[id].userId == user) {
        return Err(400, NotFoundMessage);
      }
      if req.version.Some? && tasks[id].version != req.version.value {
        return Err(409, ReorderConflictMessage);
      }
      reply := ReorderOwnedTask(user, id, req);
    }

    /** The steps of reorderTask after the ownership and version checks. */
    method ReorderOwnedTask(user: nat, id: nat, req: ReorderRequest) returns (reply: Reply<Task>)
      requires id in tasks
      modifies this
      ensures (reply, tasks) == ReorderOwned(old(tasks), user, id, req)
      ensures nextId == old(nextId)
    {
      var task := tasks[id];
      var f := TargetBucket(user, task, req);
      var check := None;
      if NeedsCapacityCheck(task, req) {
        check := CapacityCheck(tasks, f, TargetSection(task, req), TopCapacityReorderMessage, SecondaryCapacityReorderMessage);
      }
      if check.Some? {
        return Err(400, check.value);
      }
      if !Castable(f) {
        return Err(400, CastErrorMessage);
      }
      if req.priorityRank.Some? {
        tasks := Shift(tasks, f, TargetSection(task, req), req.priorityRank.value);
      }
      reply := SaveReorderedTask(id, task, req);
    }

    /** The save step of reorderTask: the target fields, `increment`, validation and the
        unique index. */
    method SaveReorderedTask(id: nat, task: Task, req: ReorderRequest) returns (reply: Reply<Task>)
      modifies this
      ensures (reply, tasks) == SaveReordered(old(tasks), id, task, req)
      ensures nextId == old(nextId)
    {
      var doc := Validate(ReorderDraft(task, req));
      if doc.None? {
        return Err(400, ValidationMessage);
      }
      var saved := doc.value.(version := task.version + 1);
      if Collides(tasks, id, saved) {
        return Err(400, DuplicateKeyMessage);
      }
      tasks := tasks[id := saved];
      reply := Ok(200, saved);
    }

    /** deleteTask: removes exactly the owner's task with that id. */
    method DeleteTask(user: nat, id: nat) returns (reply: Reply<string>)
      requires Valid()
      modifies this
      ensures Valid() && nextId == old(nextId)
      ensures (reply, tasks) == Delete(old(tasks), user, id)
    {
      if !(id in tasks && tasks[id].userId == user) {
        return Err(404, NotFoundMessage);
      }
      tasks := tasks - {id};
      reply := Ok(200, DeletedMessage);
    }

    /** rolloverTasks: the daily batch, then each later scope's batch in order. */
    method RolloverTasks(user: nat, requested: DateInput, nowMs: int) returns (reply: Reply<RolloverStats>)
      requires Valid()
      modifies this
      ensures Valid() && nextId == old(nextId)
      ensures (reply, tasks) == Rollover(old(tasks), user, requested, nowMs)
    {
      RolloverPreservesStore(tasks, nextId, user, requested, nowMs);
      var today := RolloverDay(requested, nowMs);
      var stats := StatsOf(tasks, user, today);
      tasks := RollScope(tasks, user, Daily, today);
      ghost var daily := tasks;
      var k := 0;
      while k < |LaterScopes|
        invariant 0 <= k <= |LaterScopes|
        invariant nextId == old(nextId)
        invariant RunBatches(tasks, user, today, LaterScopes[k..]) == RunBatches(daily, user, today, LaterScopes)
      {
        var next := RollScope(tasks, user, LaterScopes[k], today);
        if !UniqueTopPriority(next) {
          return Err(500, DuplicateKeyMessage);
        }
        tasks := next;
        k := k + 1;
      }
      reply := Ok(200, stats);
    }
  }
}
