/**
 * The serverless task endpoints: GET and POST /api/tasks and POST /api/tasks/rollover.
 * They keep their own task schema, with three sections, a `rank`, and dates stored as
 * calendar-date strings (modelled by the day number they name).
 */
module ServerlessTasks {
  import opened Outcomes
  import opened Sorting
  import T = TaskModel

  datatype Section = TopPriority | Secondary | Backlog

  function SectionName(s: Section): string {
    match s
    case TopPriority => "topPriority"
    case Secondary => "secondary"
    case Backlog => "backlog"
  }

  /** Code-unit lexicographic order of strings, the order a database sort gives string values. */
  predicate NameBefore(a: string, b: string)
    decreases |a|
  {
    if |a| == 0 then |b| > 0
    else |b| > 0 && (a[0] < b[0] || (a[0] == b[0] && NameBefore(a[1..], b[1..])))
  }

  /** Where a section's tasks come in a listing sorted by section. */
  function SectionPosition(s: Section): (r: nat)
    ensures r < 3
  {
    match s
    case Backlog => 0
    case Secondary => 1
    case TopPriority => 2
  }

  /** Sorting on the stored section string puts backlog, then secondary, then topPriority. */
  lemma SectionPositionIsNameOrder(a: Section, b: Section)
    ensures SectionPosition(a) < SectionPosition(b) <==> NameBefore(SectionName(a), SectionName(b))
    ensures SectionPosition(a) == SectionPosition(b) <==> a == b
  {
    assert SectionName(Backlog)[0] == 'b';
    assert SectionName(Secondary)[0] == 's';
    assert SectionName(TopPriority)[0] == 't';
  }

  /** A stored task of this schema. `title` is stored trimmed. */
  datatype Task = Task(userId: nat, title: string, section: Section, scope: T.Scope,
                       date: Option<int>, periodStart: Option<int>, rank: int,
                       completed: bool, notes: string)

  /** The bucket part of a filter: a daily bucket is one date, any other scope one period. */
  datatype Bucket = DailyBucket(date: Option<int>) | PeriodBucket(periodStart: Option<int>)

  /** `getBucketQuery(scope, date, periodStart)`: the daily scope by its date, every other
      scope value (including one that is not a scope name) by its period start. A missing
      date or period start matches the tasks that have none. */
  function BucketQuery(scope: T.Field<T.Scope>, date: Option<int>, periodStart: Option<int>): (b: Bucket)
    ensures b.DailyBucket? <==> scope == T.Named(T.Daily)
  {
    if scope == T.Named(T.Daily) then DailyBucket(date) else PeriodBucket(periodStart)
  }

  predicate InBucket(t: Task, user: nat, b: Bucket) {
    t.userId == user &&
    match b
    case DailyBucket(d) => t.scope == T.Daily && t.date == d
    case PeriodBucket(p) => t.scope != T.Daily && t.periodStart == p
  }

  /** The one bucket a task lies in. */
  function BucketOf(t: Task): Bucket {
    if t.scope == T.Daily then DailyBucket(t.date) else PeriodBucket(t.periodStart)
  }

  /** Buckets partition each user's tasks: a task lies in its owner's bucket for its own
      scope and dates, and in no other. */
  lemma BucketsPartition(t: Task, user: nat, b: Bucket)
    ensures InBucket(t, user, b) <==> t.userId == user && b == BucketOf(t)
    ensures InBucket(t, t.userId, BucketQuery(T.Named(t.scope), t.date, t.periodStart))
  {
  }

  // GET /api/tasks

  datatype ListQuery = ListQuery(scope: T.Field<T.Scope>, date: Option<int>, periodStart: Option<int>,
                                 section: T.Field<Section>)

  /** The filter of the listing: the owner, the bucket (scope defaults to daily), and the
      section when one is given. */
  predicate Listed(t: Task, user: nat, q: ListQuery) {
    InBucket(t, user, BucketQuery(T.Default(q.scope, T.Daily), q.date, q.periodStart))
    && (T.Given(q.section) ==> q.section == T.Named(t.section))
  }

  /** `sort({ section: 1, rank: 1 })`; ties keep ascending id order. */
  function ListKey(tasks: map<nat, Task>): nat -> Key {
    id => if id in tasks then Key(SectionPosition(tasks[id].section), tasks[id].rank) else Key(0, 0)
  }

  predicate ListedBefore(tasks: map<nat, Task>, a: nat, b: nat) {
    a in tasks && b in tasks &&
    (NameBefore(SectionName(tasks[a].section), SectionName(tasks[b].section))
     || (tasks[a].section == tasks[b].section && tasks[a].rank <= tasks[b].rank))
  }

  /** The listing: exactly the matching tasks, by section name and then by ascending rank. */
  function ListTasks(tasks: map<nat, Task>, user: nat, q: ListQuery): (r: seq<nat>)
    ensures forall id :: id in r <==> id in tasks && Listed(tasks[id], user, q)
    ensures forall i, j :: 0 <= i < j < |r| ==> ListedBefore(tasks, r[i], r[j])
  {
    var ids := Ascending(set id | id in tasks && Listed(tasks[id], user, q));
    var s := SortBy(ids, ListKey(tasks));
    SortByKeepsMembers(ids, ListKey(tasks));
    forall i, j | 0 <= i < j < |s|
      ensures ListedBefore(tasks, s[i], s[j])
    {
      assert s[i] in ids && s[j] in ids;
      assert KeyLe(ListKey(tasks)(s[i]), ListKey(tasks)(s[j]));
      SectionPositionIsNameOrder(tasks[s[i]].section, tasks[s[j]].section);
    }
    s
  }

  // POST /api/tasks

  datatype CreateRequest = CreateRequest(title: Option<string>, section: T.Field<Section>,
                                         scope: T.Field<T.Scope>, date: Option<int>,
                                         periodStart: Option<int>, notes: Option<string>)

  const TopCapacityMessage := "Only 1 Top Priority task allowed per day"
  const SecondaryCapacityMessage := "Maximum 3 Secondary tasks allowed per period"
  const ValidationMessage := "Task validation failed"
  const DuplicateKeyMessage := "E11000 duplicate key error"

  /** The capacity count: the owner's incomplete tasks of one section in one bucket. */
  function OpenIds(tasks: map<nat, Task>, user: nat, b: Bucket, s: Section): (ids: set<nat>)
    ensures forall id :: id in ids <==>
      id in tasks && InBucket(tasks[id], user, b) && tasks[id].section == s && !tasks[id].completed
  {
    set id | id in tasks && InBucket(tasks[id], user, b) && tasks[id].section == s && !tasks[id].completed
  }

  /** The rank query: the owner's tasks of the requested section in the bucket, completed or not. */
  function RankIds(tasks: map<nat, Task>, user: nat, b: Bucket, s: T.Field<Section>): (ids: set<nat>)
    ensures forall id :: id in ids <==> id in tasks && InBucket(tasks[id], user, b) && s == T.Named(tasks[id].section)
  {
    set id | id in tasks && InBucket(tasks[id], user, b) && s == T.Named(tasks[id].section)
  }

  /** The highest rank among the tasks with the given ids. */
  function MaxRank(tasks: map<nat, Task>, ids: seq<nat>): (r: int)
    requires |ids| > 0 && forall i :: 0 <= i < |ids| ==> ids[i] in tasks
    ensures forall i :: 0 <= i < |ids| ==> tasks[ids[i]].rank <= r
    ensures exists i :: 0 <= i < |ids| && tasks[ids[i]].rank == r
  {
    var here := tasks[ids[0]].rank;
    if |ids| == 1 then here
    else
      var rest := MaxRank(tasks, ids[1..]);
      if here >= rest then here else rest
  }

  /** The highest rank of a non-empty set of stored ids, taken over the ids in ascending order:
      no member lies above it and some member holds it. */
  lemma MaxRankOfSet(tasks: map<nat, Task>, ids: set<nat>)
    requires ids != {} && forall id :: id in ids ==> id in tasks
    ensures var order := Ascending(ids);
      && |order| > 0 && (forall i :: 0 <= i < |order| ==> order[i] in tasks)
      && (forall id :: id in ids ==> tasks[id].rank <= MaxRank(tasks, order))
      && (exists id :: id in ids && tasks[id].rank == MaxRank(tasks, order))
  {
    var order := Ascending(ids);
    var x :| x in ids;
    assert x in order;
    var top := MaxRank(tasks, order);
    forall id | id in ids
      ensures tasks[id].rank <= top
    {
      var i :| 0 <= i < |order| && order[i] == id;
    }
    var i :| 0 <= i < |order| && tasks[order[i]].rank == top;
    assert order[i] in ids;
  }

  /** `maxRankDoc ? maxRankDoc.rank + 1 : 0`: one above every rank in the group, reached
      from its highest member, or 0 for an empty group. */
  function NextRank(tasks: map<nat, Task>, user: nat, b: Bucket, s: T.Field<Section>): (r: int)
    ensures forall id :: id in RankIds(tasks, user, b, s) ==> tasks[id].rank < r
    ensures RankIds(tasks, user, b, s) == {} ==> r == 0
    ensures RankIds(tasks, user, b, s) != {} ==>
      exists id :: id in RankIds(tasks, user, b, s) && r == tasks[id].rank + 1
  {
    var ids := RankIds(tasks, user, b, s);
    if ids == {} then 0
    else
      MaxRankOfSet(tasks, ids);
      MaxRank(tasks, Ascending(ids)) + 1
  }

  /** `Task.create`: the schema requires a title that is non-empty once trimmed and enum values
      for section and scope; completed starts false and notes default to "". */
  function NewTask(user: nat, req: CreateRequest, section: T.Field<Section>, scope: T.Field<T.Scope>,
                   rank: int): (r: Option<Task>)
    ensures r.Some? <==> req.title.Some? && T.Trim(req.title.value) != [] && section.Named? && scope.Named?
    ensures r.Some? ==> r.value == Task(user, T.Trim(req.title.value), section.value, scope.value,
      req.date, req.periodStart, rank, false, if req.notes.Some? then req.notes.value else "")
    ensures r.Some? ==> r.value.title != [] && T.Trimmed(r.value.title)
  {
    if req.title.None? || T.Trim(req.title.value) == [] || !section.Named? || !scope.Named? then None
    else
      T.TrimmedIsFixedPoint(req.title.value);
      Some(Task(user, T.Trim(req.title.value), section.value, scope.value, req.date, req.periodStart,
        rank, false, if req.notes.Some? then req.notes.value else ""))
  }

  /** The unique partial index `unique_daily_top_priority` covers the incomplete daily
      top-priority tasks, keyed by owner and date. */
  predicate Indexed(t: Task) {
    t.section == TopPriority && !t.completed && t.scope == T.Daily
  }

  /** Saving t under id would break the unique index. */
  predicate Collides(tasks: map<nat, Task>, id: nat, t: Task) {
    Indexed(t) &&
    exists j :: j in tasks && j != id && Indexed(tasks[j]) && tasks[j].userId == t.userId && tasks[j].date == t.date
  }

  predicate UniqueTop(tasks: map<nat, Task>) {
    forall i, j :: i in tasks && j in tasks && i != j && Indexed(tasks[i]) && Indexed(tasks[j]) ==>
      (tasks[i].userId, tasks[i].date) != (tasks[j].userId, tasks[j].date)
  }

  /** What the store holds between requests: ids below the next fresh one, trimmed non-empty
      titles, and the unique index respected. */
  predicate ValidStore(tasks: map<nat, Task>, nextId: nat) {
    (forall id :: id in tasks ==> id < nextId && tasks[id].title != [] && T.Trimmed(tasks[id].title))
    && UniqueTop(tasks)
  }

  /** The section and scope of a create request once the defaults are applied. */
  function CreateSection(req: CreateRequest): T.Field<Section> {
    T.Default(req.section, Backlog)
  }

  function CreateScope(req: CreateRequest): T.Field<T.Scope> {
    T.Default(req.scope, T.Daily)
  }

  function CreateBucket(req: CreateRequest): Bucket {
    BucketQuery(CreateScope(req), req.date, req.periodStart)
  }

  /** The capacity checks of a create: one incomplete top-priority task per day for the daily
      scope, three incomplete secondary tasks per bucket for every scope. */
  function CapacityError(tasks: map<nat, Task>, user: nat, req: CreateRequest): (r: Option<string>)
    ensures r.Some? <==>
      (CreateSection(req) == T.Named(TopPriority) && CreateScope(req) == T.Named(T.Daily)
        && OpenIds(tasks, user, CreateBucket(req), TopPriority) != {})
      || (CreateSection(req) == T.Named(Secondary) && |OpenIds(tasks, user, CreateBucket(req), Secondary)| >= 3)
    ensures r.Some? ==> r.value == if CreateSection(req) == T.Named(TopPriority) then TopCapacityMessage else SecondaryCapacityMessage
  {
    var b := CreateBucket(req);
    if CreateSection(req) == T.Named(TopPriority) && CreateScope(req) == T.Named(T.Daily)
      && |OpenIds(tasks, user, b, TopPriority)| >= 1 then Some(TopCapacityMessage)
    else if CreateSection(req) == T.Named(Secondary) && |OpenIds(tasks, user, b, Secondary)| >= 3 then
      Some(SecondaryCapacityMessage)
    else None
  }

  /** The document a create builds: the trailing rank in the request's section and bucket. */
  function CreateDoc(tasks: map<nat, Task>, user: nat, req: CreateRequest): Option<Task> {
    NewTask(user, req, CreateSection(req), CreateScope(req),
      NextRank(tasks, user, CreateBucket(req), CreateSection(req)))
  }

  /** `Task.create` of a built document: a validation failure or a unique-index violation is
      thrown and surfaces as status 500. */
  function SaveNew(tasks: map<nat, Task>, nextId: nat, doc: Option<Task>): (Reply<nat>, map<nat, Task>) {
    if doc.None? then (Err(500, ValidationMessage), tasks)
    else if Collides(tasks, nextId, doc.value) then (Err(500, DuplicateKeyMessage), tasks)
    else (Ok(201, nextId), tasks[nextId := doc.value])
  }

  /** POST /api/tasks: the capacity checks, the trailing rank, then `Task.create`. */
  function Create(tasks: map<nat, Task>, nextId: nat, user: nat, req: CreateRequest): (Reply<nat>, map<nat, Task>) {
    var check := CapacityError(tasks, user, req);
    if check.Some? then (Err(400, check.value), tasks)
    else SaveNew(tasks, nextId, CreateDoc(tasks, user, req))
  }

  /** The unique index never refuses a create that passed the capacity checks: the
      top-priority check counts exactly the tasks the index compares with. */
  lemma CheckedCreateNeverCollides(tasks: map<nat, Task>, nextId: nat, user: nat, req: CreateRequest)
    requires CapacityError(tasks, user, req).None? && CreateDoc(tasks, user, req).Some?
    ensures !Collides(tasks, nextId, CreateDoc(tasks, user, req).value)
  {
  }

  /** What a create does: it is refused exactly when a capacity limit is reached or the new
      document is invalid, a refusal writes nothing, and a success stores the new document
      under the fresh id and changes nothing else. */
  lemma CreateOutcome(tasks: map<nat, Task>, nextId: nat, user: nat, req: CreateRequest)
    ensures Create(tasks, nextId, user, req).0.Ok? <==>
      CapacityError(tasks, user, req).None? && CreateDoc(tasks, user, req).Some?
    ensures Create(tasks, nextId, user, req).0.Err? ==> Create(tasks, nextId, user, req).1 == tasks
    ensures Create(tasks, nextId, user, req).0.Ok? ==>
      Create(tasks, nextId, user, req) == (Ok(201, nextId), tasks[nextId := CreateDoc(tasks, user, req).value])
  {
    if CapacityError(tasks, user, req).None? && CreateDoc(tasks, user, req).Some? {
      CheckedCreateNeverCollides(tasks, nextId, user, req);
    }
  }

  /** The stored document of a successful create: the owner, the trimmed title, the section
      and scope with their defaults (backlog, daily), incomplete, and ranked after its group. */
  lemma CreatedTask(tasks: map<nat, Task>, nextId: nat, user: nat, req: CreateRequest)
    requires Create(tasks, nextId, user, req).0.Ok?
    ensures var t := Create(tasks, nextId, user, req).1[nextId];
      && t.userId == user && req.title.Some? && t.title == T.Trim(req.title.value)
      && (req.section.Absent? ==> t.section == Backlog) && (req.section.Named? ==> t.section == req.section.value)
      && (req.scope.Absent? ==> t.scope == T.Daily) && (req.scope.Named? ==> t.scope == req.scope.value)
      && !t.completed
      && (forall id :: id in RankIds(tasks, user, CreateBucket(req), T.Named(t.section)) ==> tasks[id].rank < t.rank)
  {
    CreateOutcome(tasks, nextId, user, req);
  }

  /** The top-priority limit applies to the daily scope only: outside it any number of
      incomplete top-priority tasks may share a period. */
  lemma TopPriorityLimitIsDaily(tasks: map<nat, Task>, nextId: nat, user: nat, req: CreateRequest)
    requires req.section == T.Named(TopPriority)
    requires req.scope.Named? && req.scope.value != T.Daily
    ensures Create(tasks, nextId, user, req).0 != Err(400, TopCapacityMessage)
  {
  }

  /** Completed tasks do not use up capacity: with every task of the store completed, no
      create hits a limit. */
  lemma CompletedTasksFreeCapacity(tasks: map<nat, Task>, nextId: nat, user: nat, req: CreateRequest)
    requires forall id :: id in tasks ==> tasks[id].completed
    ensures CapacityError(tasks, user, req).None?
  {
    assert OpenIds(tasks, user, CreateBucket(req), Secondary) == {};
    assert OpenIds(tasks, user, CreateBucket(req), TopPriority) == {};
  }

  /** A create keeps the store valid. */
  lemma CreatePreservesStore(tasks: map<nat, Task>, nextId: nat, user: nat, req: CreateRequest)
    requires ValidStore(tasks, nextId)
    ensures ValidStore(Create(tasks, nextId, user, req).1,
      if Create(tasks, nextId, user, req).0.Ok? then nextId + 1 else nextId)
  {
    CreateOutcome(tasks, nextId, user, req);
    if Create(tasks, nextId, user, req).0.Ok? {
      var t := CreateDoc(tasks, user, req).value;
      assert !Collides(tasks, nextId, t);
      SaveKeepsUnique(tasks, nextId, t);
    }
  }

  // The endpoint as a whole

  datatype TasksBody = Listing(ids: seq<nat>) | Created(id: nat)

  /** /api/tasks: GET lists, POST creates, any other method is refused with status 405. */
  function TasksEndpoint(verb: Verb, tasks: map<nat, Task>, nextId: nat, user: nat,
                         q: ListQuery, req: CreateRequest): (r: (Reply<TasksBody>, map<nat, Task>))
    ensures verb != HttpGet && verb != HttpPost ==> r == (Err(405, MethodNotAllowedMessage), tasks)
    ensures r.1 != tasks ==> verb == HttpPost && r.0 == Ok(201, Created(nextId))
    ensures verb == HttpGet ==> r.0.Ok? && r.0.value.Listing? && (forall id :: id in r.0.value.ids <==> id in tasks && Listed(tasks[id], user, q))
  {
    if verb == HttpGet then (Ok(200, Listing(ListTasks(tasks, user, q))), tasks)
    else if verb == HttpPost then
      CreateOutcome(tasks, nextId, user, req);
      var (reply, after) := Create(tasks, nextId, user, req);
      (if reply.Ok? then Ok(reply.status, Created(reply.value)) else Err(reply.status, reply.message), after)
    else (Err(405, MethodNotAllowedMessage), tasks)
  }

  // POST /api/tasks/rollover

  /** The rollover filter: the owner's incomplete daily tasks dated before today. A task
      without a date is not matched by `$lt`. */
  predicate Due(t: Task, user: nat, today: int) {
    t.userId == user && t.scope == T.Daily && !t.completed && t.date.Some? && t.date.value < today
  }

  function DueIds(tasks: map<nat, Task>, user: nat, today: int): (ids: set<nat>)
    ensures forall id :: id in ids <==> id in tasks && Due(tasks[id], user, today)
  {
    set id | id in tasks && Due(tasks[id], user, today)
  }

  /** The state of an `updateMany` after some documents: the store, how many were modified,
      and whether a unique-index violation stopped it. */
  datatype Progress = Progress(tasks: map<nat, Task>, moved: nat, failed: bool)

  /** `$set: { date: today }` on each id in turn, stopping at the first document whose new date
      breaks the unique index; the documents before it stay modified. */
  function RollEach(tasks: map<nat, Task>, ids: seq<nat>, today: int, moved: nat): Progress
    decreases |ids|
  {
    if |ids| == 0 then Progress(tasks, moved, false)
    else if ids[0] !in tasks then RollEach(tasks, ids[1..], today, moved)
    else
      var t := tasks[ids[0]].(date := Some(today));
      if Collides(tasks, ids[0], t) then Progress(tasks, moved, true)
      else RollEach(tasks[ids[0] := t], ids[1..], today, moved + 1)
  }

  /** The rollover endpoint on the day `today`: 405 for any method but POST; otherwise the
      number of tasks moved, or status 500 when the unique index stopped the update. */
  function Rollover(verb: Verb, tasks: map<nat, Task>, user: nat, today: int): (Reply<nat>, map<nat, Task>) {
    if verb != HttpPost then (Err(405, MethodNotAllowedMessage), tasks)
    else
      var p := RollEach(tasks, Ascending(DueIds(tasks, user, today)), today, 0);
      if p.failed then (Err(500, DuplicateKeyMessage), p.tasks) else (Ok(200, p.moved), p.tasks)
  }

  /** Whether `after` holds task id as `before` did, or, for one of the ids, with its date
      set to today. */
  predicate Rolled(before: map<nat, Task>, after: map<nat, Task>, id: nat, ids: seq<nat>, today: int) {
    id in before && id in after &&
    (after[id] == before[id] || (id in ids && after[id] == before[id].(date := Some(today))))
  }

  /** Storing a document that does not collide keeps the unique index. */
  lemma SaveKeepsUnique(tasks: map<nat, Task>, id: nat, t: Task)
    requires UniqueTop(tasks) && !Collides(tasks, id, t)
    ensures UniqueTop(tasks[id := t])
  {
    var after := tasks[id := t];
    forall i, j | i in after && j in after && i != j && Indexed(after[i]) && Indexed(after[j])
      ensures (after[i].userId, after[i].date) != (after[j].userId, after[j].date)
    {
      if i != id && j != id {
        assert after[i] == tasks[i] && after[j] == tasks[j];
      }
    }
  }

  /** A run of the update adds and removes no task and changes a task only by setting the
      date of one of the ids to today. */
  lemma {:induction false} RollEachFrame(tasks: map<nat, Task>, ids: seq<nat>, today: int, moved: nat)
    ensures var p := RollEach(tasks, ids, today, moved);
      p.tasks.Keys == tasks.Keys && forall id :: id in tasks ==> Rolled(tasks, p.tasks, id, ids, today)
    decreases |ids|
  {
    if |ids| > 0 {
      RollEachFrame(tasks, ids[1..], today, moved);
      if ids[0] in tasks {
        var t := tasks[ids[0]].(date := Some(today));
        if !Collides(tasks, ids[0], t) {
          var next := tasks[ids[0] := t];
          RollEachFrame(next, ids[1..], today, moved + 1);
          var p := RollEach(next, ids[1..], today, moved + 1);
          forall id | id in tasks
            ensures Rolled(tasks, p.tasks, id, ids, today)
          {
            assert Rolled(next, p.tasks, id, ids[1..], today);
          }
        }
      }
    }
  }

  /** A run of the update keeps the unique index: it stops before a violating write. */
  lemma {:induction false} RollEachKeepsUnique(tasks: map<nat, Task>, ids: seq<nat>, today: int, moved: nat)
    requires UniqueTop(tasks)
    ensures UniqueTop(RollEach(tasks, ids, today, moved).tasks)
    decreases |ids|
  {
    if |ids| > 0 {
      RollEachKeepsUnique(tasks, ids[1..], today, moved);
      if ids[0] in tasks {
        var t := tasks[ids[0]].(date := Some(today));
        if !Collides(tasks, ids[0], t) {
          SaveKeepsUnique(tasks, ids[0], t);
          RollEachKeepsUnique(tasks[ids[0] := t], ids[1..], today, moved + 1);
        }
      }
    }
  }

  /** A run that is not stopped sets the date of every id to today and counts each once. */
  lemma {:induction false} RollEachComplete(tasks: map<nat, Task>, ids: seq<nat>, today: int, moved: nat)
    requires forall i, j :: 0 <= i < j < |ids| ==> ids[i] < ids[j]
    requires forall i :: 0 <= i < |ids| ==> ids[i] in tasks
    requires !RollEach(tasks, ids, today, moved).failed
    ensures var p := RollEach(tasks, ids, today, moved);
      p.moved == moved + |ids| && forall id :: id in ids ==> id in p.tasks && p.tasks[id] == tasks[id].(date := Some(today))
    decreases |ids|
  {
    if |ids| > 0 {
      var id := ids[0];
      var next := tasks[id := tasks[id].(date := Some(today))];
      var rest := ids[1..];
      assert forall i, j :: 0 <= i < j < |rest| ==> rest[i] < rest[j];
      assert forall i :: 0 <= i < |rest| ==> rest[i] in next;
      RollEachComplete(next, rest, today, moved + 1);
      RollEachFrame(next, rest, today, moved + 1);
      assert id !in rest;
      assert Rolled(next, RollEach(next, rest, today, moved + 1).tasks, id, rest, today);
      assert forall x :: x in ids ==> x == id || x in rest;
    }
  }

  /** POST /api/tasks/rollover moves only the owner's overdue incomplete daily tasks, and only
      their date, to today. When it succeeds it has moved every one of them and reports their
      number; when it fails (status 500) the unique index stopped it part way. Either way the
      store stays valid. */
  lemma RolloverEffect(tasks: map<nat, Task>, nextId: nat, user: nat, today: int)
    requires ValidStore(tasks, nextId)
    ensures var r := Rollover(HttpPost, tasks, user, today);
      && ValidStore(r.1, nextId) && r.1.Keys == tasks.Keys
      && (forall id :: id in tasks ==> Rolled(tasks, r.1, id, Ascending(DueIds(tasks, user, today)), today))
      && (r.0.Ok? ==> r.0 == Ok(200, |DueIds(tasks, user, today)|))
      && (r.0.Ok? ==> forall id :: id in DueIds(tasks, user, today) ==> r.1[id] == tasks[id].(date := Some(today)))
      && (r.0.Err? ==> r.0 == Err(500, DuplicateKeyMessage))
  {
    var order := Ascending(DueIds(tasks, user, today));
    RollEachValid(tasks, nextId, order, today);
    var p := RollEach(tasks, order, today, 0);
    assert Rollover(HttpPost, tasks, user, today)
        == if p.failed then (Err(500, DuplicateKeyMessage), p.tasks) else (Ok(200, p.moved), p.tasks);
    if !p.failed {
      RollDueComplete(tasks, user, today);
    }
  }

  /** An update over the due tasks that is not stopped moves each of them once. */
  lemma RollDueComplete(tasks: map<nat, Task>, user: nat, today: int)
    requires !RollEach(tasks, Ascending(DueIds(tasks, user, today)), today, 0).failed
    ensures var due := DueIds(tasks, user, today);
      var p := RollEach(tasks, Ascending(due), today, 0);
      p.moved == |due| && forall id :: id in due ==> id in p.tasks && p.tasks[id] == tasks[id].(date := Some(today))
  {
    var due := DueIds(tasks, user, today);
    var order := Ascending(due);
    var p := RollEach(tasks, order, today, 0);
    RollEachComplete(tasks, order, today, 0);
    AscendingLength(due);
    forall id | id in due
      ensures id in p.tasks && p.tasks[id] == tasks[id].(date := Some(today))
    {
      assert id in order;
    }
  }

  /** A run of the update over any ids keeps the store valid and changes only those ids' dates. */
  lemma RollEachValid(tasks: map<nat, Task>, nextId: nat, ids: seq<nat>, today: int)
    requires ValidStore(tasks, nextId)
    ensures var p := RollEach(tasks, ids, today, 0);
      && ValidStore(p.tasks, nextId) && p.tasks.Keys == tasks.Keys
      && forall id :: id in tasks ==> Rolled(tasks, p.tasks, id, ids, today)
  {
    var p := RollEach(tasks, ids, today, 0);
    RollEachFrame(tasks, ids, today, 0);
    RollEachKeepsUnique(tasks, ids, today, 0);
    forall id | id in p.tasks
      ensures id < nextId && p.tasks[id].title != [] && T.Trimmed(p.tasks[id].title)
    {
      assert Rolled(tasks, p.tasks, id, ids, today);
    }
  }

  /** A second rollover on the same day after a successful one moves nothing. */
  lemma RolloverIdempotent(tasks: map<nat, Task>, nextId: nat, user: nat, today: int)
    requires ValidStore(tasks, nextId)
    requires Rollover(HttpPost, tasks, user, today).0.Ok?
    ensures var after := Rollover(HttpPost, tasks, user, today).1;
      Rollover(HttpPost, after, user, today) == (Ok(200, 0), after)
  {
    RolloverEffect(tasks, nextId, user, today);
    var after := Rollover(HttpPost, tasks, user, today).1;
    var order := Ascending(DueIds(tasks, user, today));
    forall id | id in after
      ensures !Due(after[id], user, today)
    {
      assert Rolled(tasks, after, id, order, today);
    }
    assert DueIds(after, user, today) == {};
  }

  /** The unique index can stop a rollover only through a top-priority task: when none of the
      due tasks is one, the rollover succeeds. */
  lemma {:induction false} RollEachWithoutTopPriority(tasks: map<nat, Task>, ids: seq<nat>, today: int, moved: nat)
    requires forall i :: 0 <= i < |ids| ==> ids[i] in tasks && tasks[ids[i]].section != TopPriority
    ensures !RollEach(tasks, ids, today, moved).failed
    decreases |ids|
  {
    if |ids| > 0 {
      var next := tasks[ids[0] := tasks[ids[0]].(date := Some(today))];
      assert forall i :: 0 <= i < |ids[1..]| ==> ids[1..][i] in next && next[ids[1..][i]].section != TopPriority;
      RollEachWithoutTopPriority(next, ids[1..], today, moved + 1);
    }
  }

  lemma RolloverWithoutTopPriority(tasks: map<nat, Task>, user: nat, today: int)
    requires forall id :: id in DueIds(tasks, user, today) ==> tasks[id].section != TopPriority
    ensures Rollover(HttpPost, tasks, user, today).0.Ok?
  {
    var order := Ascending(DueIds(tasks, user, today));
    assert forall i :: 0 <= i < |order| ==> order[i] in DueIds(tasks, user, today);
    RollEachWithoutTopPriority(tasks, order, today, 0);
  }

  /** The task collection of the serverless deployment. */
  class ServerlessTaskStore {
    var tasks: map<nat, Task>
    var nextId: nat

    predicate Valid()
      reads this
    {
      ValidStore(tasks, nextId)
    }

    constructor ()
      ensures Valid() && tasks == map[] && nextId == 0
    {
      tasks := map[];
      nextId := 0;
    }

    /** POST /api/tasks: the two capacity counts, the rank query, then the insert. */
    method CreateTask(user: nat, req: CreateRequest) returns (reply: Reply<nat>)
      requires Valid()
      modifies this
      ensures (reply, tasks) == Create(old(tasks), old(nextId), user, req)
      ensures Valid() && nextId == if reply.Ok? then old(nextId) + 1 else old(nextId)
    {
      CreatePreservesStore(tasks, nextId, user, req);
      var check := CapacityError(tasks, user, req);
      if check.Some? {
        return Err(400, check.value);
      }
      var doc := CreateDoc(tasks, user, req);
      if doc.None? {
        return Err(500, ValidationMessage);
      }
      if Collides(tasks, nextId, doc.value) {
        return Err(500, DuplicateKeyMessage);
      }
      tasks := tasks[nextId := doc.value];
      reply := Ok(201, nextId);
      nextId := nextId + 1;
    }

    /** POST /api/tasks/rollover: `updateMany` writes the matching documents one by one and
        stops at the first that breaks the unique index. */
    method RolloverTasks(verb: Verb, user: nat, today: int) returns (reply: Reply<nat>)
      requires Valid()
      modifies this
      ensures (reply, tasks) == Rollover(verb, old(tasks), user, today)
      ensures Valid() && nextId == old(nextId)
    {
      if verb != HttpPost {
        return Err(405, MethodNotAllowedMessage);
      }
      RolloverEffect(tasks, nextId, user, today);
      var order := Ascending(DueIds(tasks, user, today));
      var modified := 0;
      var k := 0;
      while k < |order|
        invariant 0 <= k <= |order|
        invariant nextId == old(nextId)
        invariant RollEach(tasks, order[k..], today, modified) == RollEach(old(tasks), order, today, 0)
      {
        var id := order[k];
        assert order[k..][0] == id && order[k..][1..] == order[k + 1..];
        if id in tasks {
          var t := tasks[id].(date := Some(today));
          if Collides(tasks, id, t) {
            return Err(500, DuplicateKeyMessage);
          }
          tasks := tasks[id := t];
          modified := modified + 1;
        }
        k := k + 1;
      }
      assert order[k..] == [];
      reply := Ok(200, modified);
    }
  }
}
