/**
 * The server's settings routes: POST /settings/import (overwrite, merge or skip, with the
 * habit-id remapping of the occurrences), GET and PUT /settings/preferences, and
 * DELETE /settings/clear-completed.
 */
module Settings {
  import opened Outcomes
  import opened Sorting
  import T = TaskModel
  import H = Habits
  import P = Preferences

  const ImportedMessage := "Import successful"
  const CastErrorMessage := "Cast to date failed"
  const HabitValidationMessage := "Habit validation failed"
  const OccurrenceValidationMessage := "HabitOccurrence validation failed"
  const TaskValidationMessage := "Task validation failed"
  const DuplicateKeyMessage := "E11000 duplicate key error"

  /** The `mode` of an import; `OtherMode` stands for any other string. */
  datatype Mode = Overwrite | Merge | Skip | OtherMode

  /** `mode = 'merge'`: a request without a mode merges. */
  function ModeOf(raw: Option<Mode>): (m: Mode)
    ensures raw.None? ==> m == Merge
    ensures raw.Some? ==> m == raw.value
  {
    if raw.Some? then raw.value else Merge
  }

  /** The modes that look for an existing record before creating one. */
  predicate Dedups(mode: Mode) {
    mode == Merge || mode == Skip
  }

  /** The three collections, with the next id each `create` hands out. */
  datatype Store = Store(
    tasks: map<nat, T.Task>,
    habits: map<nat, H.Habit>,
    occurrences: map<nat, H.Occurrence>,
    nextTask: nat,
    nextHabit: nat,
    nextOccurrence: nat)

  /** Ids below the counters, and the unique indexes of tasks and occurrences. */
  predicate ValidStore(s: Store) {
    && (forall id :: id in s.tasks ==> id < s.nextTask)
    && (forall id :: id in s.habits ==> id < s.nextHabit)
    && H.ValidOccurrences(s.occurrences, s.nextOccurrence)
    && T.UniqueTopPriority(s.tasks)
  }

  /** b keeps every record of a unchanged, and its counters have not gone back. */
  predicate Extends(a: Store, b: Store) {
    && (forall id :: id in a.tasks ==> id in b.tasks && b.tasks[id] == a.tasks[id])
    && (forall id :: id in a.habits ==> id in b.habits && b.habits[id] == a.habits[id])
    && (forall id :: id in a.occurrences ==> id in b.occurrences && b.occurrences[id] == a.occurrences[id])
    && a.nextTask <= b.nextTask && a.nextHabit <= b.nextHabit && a.nextOccurrence <= b.nextOccurrence
  }

  /** Every record of b that a does not hold belongs to the user. */
  predicate AddsOnlyFor(a: Store, b: Store, user: nat) {
    && (forall id :: id in b.tasks && id !in a.tasks ==> b.tasks[id].userId == user)
    && (forall id :: id in b.habits && id !in a.habits ==> b.habits[id].userId == user)
    && (forall id :: id in b.occurrences && id !in a.occurrences ==> b.occurrences[id].userId == user)
  }

  // Overwrite

  /** The three `deleteMany({ userId })` of an overwrite import. */
  function ClearUser(s: Store, user: nat): (r: Store)
    ensures forall id :: id in r.tasks <==> id in s.tasks && s.tasks[id].userId != user
    ensures forall id :: id in r.habits <==> id in s.habits && s.habits[id].userId != user
    ensures forall id :: id in r.occurrences <==> id in s.occurrences && s.occurrences[id].userId != user
    ensures Extends(r, s)
    ensures ValidStore(s) ==> ValidStore(r)
  {
    Store(
      map id | id in s.tasks && s.tasks[id].userId != user :: s.tasks[id],
      map id | id in s.habits && s.habits[id].userId != user :: s.habits[id],
      map id | id in s.occurrences && s.occurrences[id].userId != user :: s.occurrences[id],
      s.nextTask, s.nextHabit, s.nextOccurrence)
  }

  /** Where an import has got to: the store, the map from exported habit ids to stored ones,
      and the error that ended it, if one did. */
  datatype Progress = Progress(store: Store, idMap: map<nat, nat>, error: Option<string>)

  /** Every id the map hands out is a habit of the user. */
  predicate MapsToUserHabits(p: Progress, user: nat) {
    forall k :: k in p.idMap ==> p.idMap[k] in p.store.habits && p.store.habits[p.idMap[k]].userId == user
  }

  // 1. Habits

  /** An incoming habit: the `_id` it had when it was exported, and its fields. */
  datatype HabitIn = HabitIn(oldId: nat, habit: H.Habit)

  /** The schema's checks at `Habit.create`: a title not blank once trimmed, and an
      interval for a custom habit. */
  predicate HabitValidates(h: H.Habit) {
    T.Trim(h.title) != "" && (h.frequency == H.Custom ==> h.intervalDays.Some?)
  }

  /** The document `Habit.create` stores: owned by the user, its title trimmed. */
  function OwnedHabit(h: H.Habit, user: nat): (r: H.Habit)
    ensures r.userId == user && r.title == T.Trim(h.title)
  {
    h.(userId := user, title := T.Trim(h.title))
  }

  /** The ids of the user's habits with that title. */
  function HabitsTitled(habits: map<nat, H.Habit>, user: nat, title: string): (ids: set<nat>)
    ensures forall id :: id in ids <==> id in habits && habits[id].userId == user && habits[id].title == title
  {
    set id | id in habits && habits[id].userId == user && habits[id].title == title
  }

  /** `Habit.findOne({ userId, title })`, the title cast through the schema's trim: the
      first such habit in id order. */
  function ExistingHabit(habits: map<nat, H.Habit>, user: nat, title: string): (r: Option<nat>)
    ensures r.None? <==> HabitsTitled(habits, user, title) == {}
    ensures r.Some? ==> r.value in HabitsTitled(habits, user, title)
  {
    var ids := Ascending(HabitsTitled(habits, user, title));
    if |ids| == 0 then None
    else
      assert ids[0] in ids;
      Some(ids[0])
  }

  /** One pass of the habits loop. In merge or skip mode a habit whose title the user
      already has is not created: its exported id maps to the existing one. Otherwise the
      habit is created for the user and its exported id maps to the new one. */
  function HabitStep(p: Progress, user: nat, mode: Mode, h: HabitIn): (r: Progress)
    requires p.error.None?
  {
    var existing := if Dedups(mode) then ExistingHabit(p.store.habits, user, T.Trim(h.habit.title)) else None;
    if existing.Some? then p.(idMap := p.idMap[h.oldId := existing.value])
    else if !HabitValidates(h.habit) then p.(error := Some(HabitValidationMessage))
    else
      var id := p.store.nextHabit;
      p.(store := p.store.(habits := p.store.habits[id := OwnedHabit(h.habit, user)], nextHabit := id + 1),
         idMap := p.idMap[h.oldId := id])
  }

  /** The habits loop from the current progress; an error ends it. */
  function HabitsFrom(p: Progress, user: nat, mode: Mode, hs: seq<HabitIn>): Progress
    decreases |hs|
  {
    if |hs| == 0 || p.error.Some? then p
    else HabitsFrom(HabitStep(p, user, mode, hs[0]), user, mode, hs[1..])
  }

  /** One unfolding of the habits loop on a non-empty remainder. */
  lemma HabitsFromStep(p: Progress, user: nat, mode: Mode, hs: seq<HabitIn>, i: nat)
    requires i < |hs| && p.error.None?
    ensures HabitsFrom(p, user, mode, hs[i..]) == HabitsFrom(HabitStep(p, user, mode, hs[i]), user, mode, hs[i + 1..])
  {
    assert hs[i..][0] == hs[i] && hs[i..][1..] == hs[i + 1..];
  }

  /** The habits loop stops at the first error. */
  lemma HabitsFromStopped(p: Progress, user: nat, mode: Mode, hs: seq<HabitIn>)
    requires p.error.Some?
    ensures HabitsFrom(p, user, mode, hs) == p
  {
  }

  /** A habit step keeps the store valid, extends it with habits of the user only, and keeps
      every mapped id pointing at a habit of the user; its exported id is mapped unless the
      habit fails validation. Under merge or skip, a title the user has is never created. */
  lemma HabitStepFacts(p: Progress, user: nat, mode: Mode, h: HabitIn)
    requires p.error.None? && ValidStore(p.store) && MapsToUserHabits(p, user)
    ensures var r := HabitStep(p, user, mode, h);
      && ValidStore(r.store) && Extends(p.store, r.store) && AddsOnlyFor(p.store, r.store, user)
      && r.store.tasks == p.store.tasks && r.store.occurrences == p.store.occurrences
      && MapsToUserHabits(r, user)
      && (r.error.None? ==> h.oldId in r.idMap)
      && (forall k :: k in p.idMap && k != h.oldId ==> k in r.idMap && r.idMap[k] == p.idMap[k])
      && (r.error.None? ==> r.idMap.Keys == p.idMap.Keys + {h.oldId})
      && (Dedups(mode) && HabitsTitled(p.store.habits, user, T.Trim(h.habit.title)) != {} ==>
            r.store == p.store)
  {
    var r := HabitStep(p, user, mode, h);
    var existing := if Dedups(mode) then ExistingHabit(p.store.habits, user, T.Trim(h.habit.title)) else None;
    if existing.Some? {
      assert r == p.(idMap := p.idMap[h.oldId := existing.value]);
    } else if !HabitValidates(h.habit) {
      assert r == p.(error := Some(HabitValidationMessage));
    } else {
      var id := p.store.nextHabit;
      var habits := p.store.habits[id := OwnedHabit(h.habit, user)];
      assert r.store == p.store.(habits := habits, nextHabit := id + 1);
      assert r.idMap == p.idMap[h.oldId := id];
      assert id !in p.store.habits;
    }
  }

  /** The user's habits have distinct titles. */
  predicate TitlesDistinct(habits: map<nat, H.Habit>, user: nat) {
    forall i, j :: i in habits && j in habits && i != j && habits[i].userId == user && habits[j].userId == user ==>
      habits[i].title != habits[j].title
  }

  /** Under merge or skip, a habit step never gives the user a second habit of a title. */
  lemma HabitStepKeepsTitlesDistinct(p: Progress, user: nat, mode: Mode, h: HabitIn)
    requires p.error.None? && Dedups(mode) && ValidStore(p.store)
    requires TitlesDistinct(p.store.habits, user)
    ensures TitlesDistinct(HabitStep(p, user, mode, h).store.habits, user)
  {
    var title := T.Trim(h.habit.title);
    if HabitsTitled(p.store.habits, user, title) == {} {
      forall id | id in p.store.habits && p.store.habits[id].userId == user
        ensures p.store.habits[id].title != title
      {
        assert id !in HabitsTitled(p.store.habits, user, title);
      }
    } else {
      var x :| x in HabitsTitled(p.store.habits, user, title);
    }
  }

  /** The habits loop keeps the store valid and every mapped id pointing at a habit of the
      user; it only adds habits of the user; when it ends without error every exported id
      of the list is mapped; and under merge or skip the user's titles stay distinct. */
  lemma {:induction false} HabitsFromFacts(p: Progress, user: nat, mode: Mode, hs: seq<HabitIn>)
    requires ValidStore(p.store) && MapsToUserHabits(p, user)
    ensures var r := HabitsFrom(p, user, mode, hs);
      && ValidStore(r.store) && Extends(p.store, r.store) && AddsOnlyFor(p.store, r.store, user)
      && r.store.tasks == p.store.tasks && r.store.occurrences == p.store.occurrences
      && MapsToUserHabits(r, user)
      && (p.error.Some? ==> r == p)
      && (Dedups(mode) && TitlesDistinct(p.store.habits, user) ==> TitlesDistinct(r.store.habits, user))
    decreases |hs|
  {
    if |hs| > 0 && p.error.None? {
      var q := HabitStep(p, user, mode, hs[0]);
      HabitStepFacts(p, user, mode, hs[0]);
      if Dedups(mode) && TitlesDistinct(p.store.habits, user) {
        HabitStepKeepsTitlesDistinct(p, user, mode, hs[0]);
      }
      HabitsFromFacts(q, user, mode, hs[1..]);
    }
  }

  /** When the habits loop ends without error, every exported id of the list is mapped. */
  lemma {:induction false} HabitsFromMapsEveryId(p: Progress, user: nat, mode: Mode, hs: seq<HabitIn>)
    requires ValidStore(p.store) && MapsToUserHabits(p, user)
    ensures var r := HabitsFrom(p, user, mode, hs);
      r.error.None? ==> forall i :: 0 <= i < |hs| ==> hs[i].oldId in r.idMap
    decreases |hs|
  {
    if |hs| > 0 && p.error.None? {
      var q := HabitStep(p, user, mode, hs[0]);
      HabitStepFacts(p, user, mode, hs[0]);
      HabitsFromMapsEveryId(q, user, mode, hs[1..]);
      var r := HabitsFrom(q, user, mode, hs[1..]);
      if r.error.None? {
        HabitsFromKeepsKeys(q, user, mode, hs[1..]);
        forall i | 0 <= i < |hs|
          ensures hs[i].oldId in r.idMap
        {
          if i > 0 {
            assert hs[i] == hs[1..][i - 1];
          }
        }
      }
    }
  }

  /** The habits loop never unmaps an id. */
  lemma {:induction false} HabitsFromKeepsKeys(p: Progress, user: nat, mode: Mode, hs: seq<HabitIn>)
    ensures p.idMap.Keys <= HabitsFrom(p, user, mode, hs).idMap.Keys
    decreases |hs|
  {
    if |hs| > 0 && p.error.None? {
      HabitsFromKeepsKeys(HabitStep(p, user, mode, hs[0]), user, mode, hs[1..]);
    }
  }

  // 2. Occurrences

  /** An incoming occurrence: the exported habit id, its date (`None` when `new Date(dateUTC)`
      is the Invalid Date) and its flag. */
  datatype OccurrenceIn = OccurrenceIn(habitId: nat, dateMs: Option<int>, completed: bool)

  /** Whether some occurrence already holds the (habitId, dateUTC) pair of the unique index. */
  predicate PairTaken(occ: map<nat, H.Occurrence>, habitId: nat, dateMs: int) {
    exists id :: id in occ && occ[id].habitId == habitId && occ[id].dateMs == dateMs
  }

  /** One pass of the occurrences loop: skipped when its habit was not mapped; otherwise
      remapped to the stored habit, owned by the user, and created unless merge or skip mode
      finds the user's occurrence of that habit and day. */
  function OccurrenceStep(p: Progress, user: nat, mode: Mode, o: OccurrenceIn): (r: Progress)
    requires p.error.None?
  {
    if o.habitId !in p.idMap then p
    else
      var habitId := p.idMap[o.habitId];
      if o.dateMs.None? then p.(error := Some(if Dedups(mode) then CastErrorMessage else OccurrenceValidationMessage))
      else if Dedups(mode) && H.Matching(p.store.occurrences, habitId, user, o.dateMs.value) != {} then p
      else if PairTaken(p.store.occurrences, habitId, o.dateMs.value) then p.(error := Some(DuplicateKeyMessage))
      else
        var id := p.store.nextOccurrence;
        p.(store := p.store.(occurrences := p.store.occurrences[id := H.Occurrence(habitId, user, o.dateMs.value, o.completed)],
                             nextOccurrence := id + 1))
  }

  /** The occurrences loop; an error ends it. */
  function OccurrencesFrom(p: Progress, user: nat, mode: Mode, os: seq<OccurrenceIn>): Progress
    decreases |os|
  {
    if |os| == 0 || p.error.Some? then p
    else OccurrencesFrom(OccurrenceStep(p, user, mode, os[0]), user, mode, os[1..])
  }

  /** Every occurrence of b that a does not hold is the user's, of a habit of the user. */
  predicate NewOccurrencesLinked(a: Store, b: Store, user: nat) {
    forall id :: id in b.occurrences && id !in a.occurrences ==>
      b.occurrences[id].userId == user && b.occurrences[id].habitId in b.habits &&
      b.habits[b.occurrences[id].habitId].userId == user
  }

  /** An occurrence step changes only the occurrences; an occurrence of an unmapped habit is
      skipped; one it creates carries the mapped habit id and the user and breaks no index. */
  lemma OccurrenceStepFacts(p: Progress, user: nat, mode: Mode, o: OccurrenceIn)
    requires p.error.None? && ValidStore(p.store) && MapsToUserHabits(p, user)
    ensures var r := OccurrenceStep(p, user, mode, o);
      && ValidStore(r.store) && Extends(p.store, r.store) && AddsOnlyFor(p.store, r.store, user)
      && r.idMap == p.idMap && r.store.tasks == p.store.tasks && r.store.habits == p.store.habits
      && NewOccurrencesLinked(p.store, r.store, user)
      && (o.habitId !in p.idMap ==> r == p)
      && (forall id :: id in r.store.occurrences && id !in p.store.occurrences ==>
            r.store.occurrences[id] == H.Occurrence(p.idMap[o.habitId], user, o.dateMs.value, o.completed))
  {
    if o.habitId in p.idMap && o.dateMs.Some? {
      var habitId := p.idMap[o.habitId];
      var occ := p.store.occurrences;
      var id := p.store.nextOccurrence;
      if !(Dedups(mode) && H.Matching(occ, habitId, user, o.dateMs.value) != {}) && !PairTaken(occ, habitId, o.dateMs.value) {
        var m := occ[id := H.Occurrence(habitId, user, o.dateMs.value, o.completed)];
        assert H.UniqueOccurrences(m) by {
          forall i, j | i in m && j in m && i != j
            ensures (m[i].habitId, m[i].dateMs) != (m[j].habitId, m[j].dateMs)
          {
            if i == id {
              assert j in occ;
            } else if j == id {
              assert i in occ;
            }
          }
        }
      }
    }
  }

  /** Under merge or skip, an occurrence step never creates a second occurrence of the user's
      habit on a day the user already has one. */
  lemma OccurrenceStepSkipsExisting(p: Progress, user: nat, mode: Mode, o: OccurrenceIn)
    requires p.error.None? && Dedups(mode) && o.habitId in p.idMap && o.dateMs.Some?
    requires H.Matching(p.store.occurrences, p.idMap[o.habitId], user, o.dateMs.value) != {}
    ensures OccurrenceStep(p, user, mode, o) == p
  {
  }

  /** The occurrences loop keeps the store valid, changes only the occurrences, and every
      occurrence it adds is the user's and belongs to a habit of the user. */
  lemma {:induction false} OccurrencesFromFacts(p: Progress, user: nat, mode: Mode, os: seq<OccurrenceIn>)
    requires ValidStore(p.store) && MapsToUserHabits(p, user)
    ensures var r := OccurrencesFrom(p, user, mode, os);
      && ValidStore(r.store) && Extends(p.store, r.store) && AddsOnlyFor(p.store, r.store, user)
      && r.idMap == p.idMap && r.store.tasks == p.store.tasks && r.store.habits == p.store.habits
      && NewOccurrencesLinked(p.store, r.store, user)
      && (p.error.Some? ==> r == p)
    decreases |os|
  {
    if |os| > 0 && p.error.None? {
      var q := OccurrenceStep(p, user, mode, os[0]);
      OccurrenceStepFacts(p, user, mode, os[0]);
      OccurrencesFromFacts(q, user, mode, os[1..]);
    }
  }

  // 3. Tasks

  /** The date part of the lookup of a merge or skip import. */
  datatype TaskBucket = OnDate(day: int) | InPeriod(start: int)

  /** `t.date ? { date: new Date(t.date) } : { periodStart: new Date(t.periodStart) }`: a truthy
      date decides; `None` when the Date it builds is the Invalid Date, which the query
      cannot cast. A task with neither date, such as a random goal, is one. */
  function LookupBucket(d: T.Draft): (b: Option<TaskBucket>)
    ensures d.date.OnDay? ==> b == Some(OnDate(d.date.day))
    ensures d.date == T.NoDate && d.periodStart.OnDay? ==> b == Some(InPeriod(d.periodStart.day))
    ensures b.None? <==> d.date == T.BadDate || (d.date == T.NoDate && !d.periodStart.OnDay?)
  {
    if d.date != T.NoDate then (if d.date.OnDay? then Some(OnDate(d.date.day)) else None)
    else if d.periodStart.OnDay? then Some(InPeriod(d.periodStart.day))
    else None
  }

  /** Whether stored task t answers `{ userId, title, section, date | periodStart }`. The title
      is cast through the schema's trim; a section the request leaves out is dropped from
      the filter and matches any section. */
  predicate MatchesLookup(t: T.Task, user: nat, d: T.Draft, b: TaskBucket) {
    && t.userId == user
    && t.title == T.Trim(d.title)
    && (d.section.Absent? || d.section == T.Named(t.section))
    && match b
       case OnDate(day) => t.date == Some(day)
       case InPeriod(start) => t.periodStart == Some(start)
  }

  predicate TaskExists(tasks: map<nat, T.Task>, user: nat, d: T.Draft, b: TaskBucket) {
    exists id :: id in tasks && MatchesLookup(tasks[id], user, d, b)
  }

  /** One pass of the tasks loop: under merge or skip, a lookup that cannot cast its date
      fails the import and a task that already exists is skipped; otherwise `Task.create`
      validates the task for the user and checks the unique indexes. */
  function TaskStep(p: Progress, user: nat, mode: Mode, d: T.Draft): (r: Progress)
    requires p.error.None?
  {
    var b := LookupBucket(d);
    if Dedups(mode) && b.None? then p.(error := Some(CastErrorMessage))
    else if Dedups(mode) && TaskExists(p.store.tasks, user, d, b.value) then p
    else
      var t := T.Validate(d.(userId := user));
      if t.None? then p.(error := Some(TaskValidationMessage))
      else if T.Collides(p.store.tasks, p.store.nextTask, t.value) then p.(error := Some(DuplicateKeyMessage))
      else
        var id := p.store.nextTask;
        p.(store := p.store.(tasks := p.store.tasks[id := t.value], nextTask := id + 1))
  }

  /** The tasks loop; an error ends it. */
  function TasksFrom(p: Progress, user: nat, mode: Mode, ts: seq<T.Draft>): Progress
    decreases |ts|
  {
    if |ts| == 0 || p.error.Some? then p
    else TasksFrom(TaskStep(p, user, mode, ts[0]), user, mode, ts[1..])
  }

  /** One unfolding of the tasks loop on a non-empty remainder. */
  lemma TasksFromStep(p: Progress, user: nat, mode: Mode, ts: seq<T.Draft>, i: nat)
    requires i < |ts| && p.error.None?
    ensures TasksFrom(p, user, mode, ts[i..]) == TasksFrom(TaskStep(p, user, mode, ts[i]), user, mode, ts[i + 1..])
  {
    assert ts[i..][0] == ts[i] && ts[i..][1..] == ts[i + 1..];
  }

  /** The tasks loop stops at the first error. */
  lemma TasksFromStopped(p: Progress, user: nat, mode: Mode, ts: seq<T.Draft>)
    requires p.error.Some?
    ensures TasksFrom(p, user, mode, ts) == p
  {
  }

  /** A task step changes only the tasks; under merge or skip, a task with neither a truthy
      date nor a valid period start fails the import and an existing task is skipped; a task
      it creates is valid, the user's, and breaks no unique index. */
  lemma TaskStepFacts(p: Progress, user: nat, mode: Mode, d: T.Draft)
    requires p.error.None? && ValidStore(p.store)
    ensures var r := TaskStep(p, user, mode, d);
      && ValidStore(r.store) && Extends(p.store, r.store) && AddsOnlyFor(p.store, r.store, user)
      && r.idMap == p.idMap && r.store.habits == p.store.habits && r.store.occurrences == p.store.occurrences
      && (forall id :: id in r.store.tasks && id !in p.store.tasks ==>
            T.ValidTask(r.store.tasks[id]) && r.store.tasks[id] == T.Validate(d.(userId := user)).value)
      && (Dedups(mode) && LookupBucket(d).None? ==> r.error == Some(CastErrorMessage) && r.store == p.store)
      && (Dedups(mode) && LookupBucket(d).Some? && TaskExists(p.store.tasks, user, d, LookupBucket(d).value) ==> r == p)
  {
    var r := TaskStep(p, user, mode, d);
    var b := LookupBucket(d);
    var t := T.Validate(d.(userId := user));
    if Dedups(mode) && b.None? {
      assert r == p.(error := Some(CastErrorMessage));
    } else if Dedups(mode) && TaskExists(p.store.tasks, user, d, b.value) {
      assert r == p;
    } else if t.None? || T.Collides(p.store.tasks, p.store.nextTask, t.value) {
      assert r.store == p.store;
    } else {
      var id := p.store.nextTask;
      T.StorePreservesUnique(p.store.tasks, id, t.value);
      assert r.store == p.store.(tasks := p.store.tasks[id := t.value], nextTask := id + 1);
      assert id !in p.store.tasks;
    }
  }

  /** The tasks loop keeps the store valid, changes only the tasks, and every task it adds
      is valid and the user's. */
  lemma {:induction false} TasksFromFacts(p: Progress, user: nat, mode: Mode, ts: seq<T.Draft>)
    requires ValidStore(p.store)
    ensures var r := TasksFrom(p, user, mode, ts);
      && ValidStore(r.store) && Extends(p.store, r.store) && AddsOnlyFor(p.store, r.store, user)
      && r.idMap == p.idMap && r.store.habits == p.store.habits && r.store.occurrences == p.store.occurrences
      && (forall id :: id in r.store.tasks && id !in p.store.tasks ==> T.ValidTask(r.store.tasks[id]))
      && (p.error.Some? ==> r == p)
    decreases |ts|
  {
    if |ts| > 0 && p.error.None? {
      var q := TaskStep(p, user, mode, ts[0]);
      TaskStepFacts(p, user, mode, ts[0]);
      TasksFromFacts(q, user, mode, ts[1..]);
    }
  }

  // The whole import

  /** The store each pass starts from: an overwrite first deletes the user's records. */
  function ImportStart(s: Store, user: nat, mode: Mode): Store {
    if mode == Overwrite then ClearUser(s, user) else s
  }

  /** The three loops in order, from an empty habit map. */
  function ImportPasses(s: Store, user: nat, mode: Mode, habits: seq<HabitIn>,
                        occurrences: seq<OccurrenceIn>, tasks: seq<T.Draft>): Progress
  {
    var afterHabits := HabitsFrom(Progress(ImportStart(s, user, mode), map[], None), user, mode, habits);
    TasksFrom(OccurrencesFrom(afterHabits, user, mode, occurrences), user, mode, tasks)
  }

  /** POST /settings/import: 200 when every loop ran to its end, otherwise 400 with the
      error; the writes made before an error stay. */
  function Import(s: Store, user: nat, mode: Mode, habits: seq<HabitIn>,
                  occurrences: seq<OccurrenceIn>, tasks: seq<T.Draft>): (Reply<string>, Store)
  {
    var p := ImportPasses(s, user, mode, habits, occurrences, tasks);
    (if p.error.Some? then Err(400, p.error.value) else Ok(200, ImportedMessage), p.store)
  }

  /** The import keeps the store valid: ids below the counters and both unique indexes. */
  lemma ImportKeepsValid(s: Store, user: nat, mode: Mode, habits: seq<HabitIn>,
                         occurrences: seq<OccurrenceIn>, tasks: seq<T.Draft>)
    requires ValidStore(s)
    ensures ValidStore(Import(s, user, mode, habits, occurrences, tasks).1)
  {
    var p0 := Progress(ImportStart(s, user, mode), map[], None);
    HabitsFromFacts(p0, user, mode, habits);
    var p1 := HabitsFrom(p0, user, mode, habits);
    OccurrencesFromFacts(p1, user, mode, occurrences);
    TasksFromFacts(OccurrencesFrom(p1, user, mode, occurrences), user, mode, tasks);
  }

  /** Every record the import starts from is left as it was, so every record of another
      user, and under any mode but overwrite every record of the user too; everything it
      adds is the user's. */
  lemma ImportKeepsOthers(s: Store, user: nat, mode: Mode, habits: seq<HabitIn>,
                          occurrences: seq<OccurrenceIn>, tasks: seq<T.Draft>)
    requires ValidStore(s)
    ensures var r := Import(s, user, mode, habits, occurrences, tasks).1;
      && Extends(ImportStart(s, user, mode), r)
      && AddsOnlyFor(ImportStart(s, user, mode), r, user)
      && (mode != Overwrite ==> Extends(s, r))
  {
    var p0 := Progress(ImportStart(s, user, mode), map[], None);
    HabitsFromFacts(p0, user, mode, habits);
    var p1 := HabitsFrom(p0, user, mode, habits);
    OccurrencesFromFacts(p1, user, mode, occurrences);
    TasksFromFacts(OccurrencesFrom(p1, user, mode, occurrences), user, mode, tasks);
  }

  /** Every task the import adds is valid, and every occurrence it adds is the user's and
      belongs to a habit of the user: remapping never leaves an occurrence pointing at an
      exported id. */
  lemma ImportLinksOccurrences(s: Store, user: nat, mode: Mode, habits: seq<HabitIn>,
                               occurrences: seq<OccurrenceIn>, tasks: seq<T.Draft>)
    requires ValidStore(s)
    ensures var start := ImportStart(s, user, mode);
      var r := Import(s, user, mode, habits, occurrences, tasks).1;
      && (forall id :: id in r.tasks && id !in start.tasks ==> T.ValidTask(r.tasks[id]))
      && NewOccurrencesLinked(start, r, user)
  {
    var p0 := Progress(ImportStart(s, user, mode), map[], None);
    HabitsFromFacts(p0, user, mode, habits);
    var p1 := HabitsFrom(p0, user, mode, habits);
    OccurrencesFromFacts(p1, user, mode, occurrences);
    TasksFromFacts(OccurrencesFrom(p1, user, mode, occurrences), user, mode, tasks);
  }

  /** Under overwrite, no record of the user survives from before the import: each one
      the user has afterwards is one the import created. */
  lemma OverwriteReplacesUserRecords(s: Store, user: nat, habits: seq<HabitIn>,
                                     occurrences: seq<OccurrenceIn>, tasks: seq<T.Draft>)
    requires ValidStore(s)
    ensures var r := Import(s, user, Overwrite, habits, occurrences, tasks).1;
      && (forall id :: id in r.tasks && r.tasks[id].userId == user ==> id !in ClearUser(s, user).tasks)
      && (forall id :: id in r.habits && r.habits[id].userId == user ==> id !in ClearUser(s, user).habits)
      && (forall id :: id in r.occurrences && r.occurrences[id].userId == user ==> id !in ClearUser(s, user).occurrences)
  {
    ImportKeepsOthers(s, user, Overwrite, habits, occurrences, tasks);
  }

  /** Under merge or skip, an import of habits whose titles the user has never duplicated
      leaves the user's titles distinct. */
  lemma MergeKeepsHabitTitlesDistinct(s: Store, user: nat, mode: Mode, habits: seq<HabitIn>,
                                      occurrences: seq<OccurrenceIn>, tasks: seq<T.Draft>)
    requires ValidStore(s) && Dedups(mode) && TitlesDistinct(s.habits, user)
    ensures TitlesDistinct(Import(s, user, mode, habits, occurrences, tasks).1.habits, user)
  {
    var p0 := Progress(s, map[], None);
    HabitsFromFacts(p0, user, mode, habits);
    var p1 := HabitsFrom(p0, user, mode, habits);
    OccurrencesFromFacts(p1, user, mode, occurrences);
    TasksFromFacts(OccurrencesFrom(p1, user, mode, occurrences), user, mode, tasks);
  }

  /** Under merge or skip, a task that has neither date fails the import with a cast error
      once the habits and occurrences are in. */
  lemma PeriodlessTaskFailsMerge(s: Store, user: nat, mode: Mode, habits: seq<HabitIn>,
                                 occurrences: seq<OccurrenceIn>, d: T.Draft)
    requires Dedups(mode) && d.date == T.NoDate && !d.periodStart.OnDay?
    requires OccurrencesFrom(HabitsFrom(Progress(s, map[], None), user, mode, habits), user, mode, occurrences).error.None?
    ensures Import(s, user, mode, habits, occurrences, [d]).0 == Err(400, CastErrorMessage)
  {
    assert ImportStart(s, user, mode) == s;
    var p := OccurrencesFrom(HabitsFrom(Progress(s, map[], None), user, mode, habits), user, mode, occurrences);
    assert TaskStep(p, user, mode, d).error == Some(CastErrorMessage);
    assert TasksFrom(p, user, mode, [d]) == TasksFrom(TaskStep(p, user, mode, d), user, mode, []);
  }

  // DELETE /settings/clear-completed

  /** The ids `deleteMany({ userId, completed: true })` removes. */
  function CompletedIds(tasks: map<nat, T.Task>, user: nat): set<nat> {
    set id | id in tasks && tasks[id].userId == user && tasks[id].completed
  }

  /** The tasks left and `deletedCount`: exactly the user's completed tasks go. */
  function ClearCompleted(tasks: map<nat, T.Task>, user: nat): (r: (map<nat, T.Task>, nat))
    ensures forall id :: id in r.0 <==> id in tasks && !(tasks[id].userId == user && tasks[id].completed)
    ensures forall id :: id in r.0 ==> r.0[id] == tasks[id]
    ensures r.1 + |r.0| == |tasks|
  {
    var left := map id | id in tasks && !(tasks[id].userId == user && tasks[id].completed) :: tasks[id];
    assert tasks.Keys == left.Keys + CompletedIds(tasks, user);
    assert left.Keys !! CompletedIds(tasks, user);
    (left, |CompletedIds(tasks, user)|)
  }

  /** Clearing twice deletes nothing the second time. */
  lemma ClearCompletedIdempotent(tasks: map<nat, T.Task>, user: nat)
    ensures var once := ClearCompleted(tasks, user).0;
      ClearCompleted(once, user) == (once, 0)
  {
    var once := ClearCompleted(tasks, user).0;
    assert CompletedIds(once, user) == {};
    assert ClearCompleted(once, user).0 == once;
  }

  // Preferences

  /** The preference document GET reads: the stored one, or a new one of the schema's
      defaults. */
  function PreferencesOf(prefs: map<nat, map<string, P.Json>>, defaults: map<string, P.Json>, user: nat): map<string, P.Json> {
    if user in prefs then prefs[user] else defaults
  }

  /** The server's store. */
  class SettingsStore {
    var tasks: map<nat, T.Task>
    var habits: map<nat, H.Habit>
    var occurrences: map<nat, H.Occurrence>
    var nextTask: nat
    var nextHabit: nat
    var nextOccurrence: nat
    var prefs: map<nat, map<string, P.Json>>
    /** The document `UserPreferences.create({ userId })` makes: the schema's defaults. */
    const defaults: map<string, P.Json>

    function State(): Store
      reads this
    {
      Store(tasks, habits, occurrences, nextTask, nextHabit, nextOccurrence)
    }

    predicate Valid()
      reads this
    {
      ValidStore(State())
    }

    constructor (defaults: map<string, P.Json>)
      ensures Valid() && State() == Store(map[], map[], map[], 0, 0, 0)
      ensures prefs == map[] && this.defaults == defaults
    {
      tasks := map[];
      habits := map[];
      occurrences := map[];
      nextTask := 0;
      nextHabit := 0;
      nextOccurrence := 0;
      prefs := map[];
      this.defaults := defaults;
    }

    /** POST /settings/import. */
    method ImportData(user: nat, mode: Mode, habitsIn: seq<HabitIn>, occurrencesIn: seq<OccurrenceIn>,
                      tasksIn: seq<T.Draft>) returns (reply: Reply<string>)
      requires Valid()
      modifies this
      ensures (reply, State()) == Import(old(State()), user, mode, habitsIn, occurrencesIn, tasksIn)
      ensures Valid() && prefs == old(prefs)
    {
      ImportKeepsValid(State(), user, mode, habitsIn, occurrencesIn, tasksIn);
      if mode == Overwrite {
        DeleteUserRecords(user);
      }
      var idMap, error := ImportHabits(user, mode, habitsIn);
      if error.Some? {
        return Err(400, error.value);
      }
      error := ImportOccurrences(user, mode, idMap, occurrencesIn);
      if error.Some? {
        return Err(400, error.value);
      }
      error := ImportTasks(user, mode, idMap, tasksIn);
      if error.Some? {
        return Err(400, error.value);
      }
      reply := Ok(200, ImportedMessage);
    }

    /** The three `deleteMany({ userId })`. */
    method DeleteUserRecords(user: nat)
      modifies this
      ensures State() == ClearUser(old(State()), user)
      ensures prefs == old(prefs)
    {
      tasks := map id | id in tasks && tasks[id].userId != user :: tasks[id];
      habits := map id | id in habits && habits[id].userId != user :: habits[id];
      occurrences := map id | id in occurrences && occurrences[id].userId != user :: occurrences[id];
    }

    /** The habits loop. */
    method ImportHabits(user: nat, mode: Mode, hs: seq<HabitIn>) returns (idMap: map<nat, nat>, error: Option<string>)
      modifies this
      ensures Progress(State(), idMap, error) == HabitsFrom(Progress(old(State()), map[], None), user, mode, hs)
      ensures prefs == old(prefs)
    {
      idMap := map[];
      error := None;
      var i := 0;
      while i < |hs|
        invariant 0 <= i <= |hs|
        invariant prefs == old(prefs) && error.None?
        invariant HabitsFrom(Progress(State(), idMap, None), user, mode, hs[i..])
               == HabitsFrom(Progress(old(State()), map[], None), user, mode, hs)
      {
        HabitsFromStep(Progress(State(), idMap, None), user, mode, hs, i);
        idMap, error := ImportHabit(user, mode, idMap, hs[i]);
        if error.Some? {
          HabitsFromStopped(Progress(State(), idMap, error), user, mode, hs[i + 1..]);
          return;
        }
        i := i + 1;
      }
      assert hs[i..] == [];
    }

    /** One pass of the habits loop: HabitStep on the current store. */
    method ImportHabit(user: nat, mode: Mode, idMap0: map<nat, nat>, h: HabitIn) returns (idMap: map<nat, nat>, error: Option<string>)
      modifies this
      ensures Progress(State(), idMap, error) == HabitStep(Progress(old(State()), idMap0, None), user, mode, h)
      ensures prefs == old(prefs)
    {
      ghost var before := Progress(State(), idMap0, None);
      idMap, error := idMap0, None;
      var title := T.Trim(h.habit.title);
      if Dedups(mode) {
        var existing := ExistingHabit(habits, user, title);
        if existing.Some? {
          idMap := idMap[h.oldId := existing.value];
          return;
        }
      }
      if !HabitValidates(h.habit) {
        error := Some(HabitValidationMessage);
        return;
      }
      ghost var created := before.store.(habits := habits[nextHabit := OwnedHabit(h.habit, user)], nextHabit := nextHabit + 1);
      assert HabitStep(before, user, mode, h) == Progress(created, idMap[h.oldId := nextHabit], None);
      habits := habits[nextHabit := OwnedHabit(h.habit, user)];
      idMap := idMap[h.oldId := nextHabit];
      nextHabit := nextHabit + 1;
      assert State() == created;
    }

    /** The occurrences loop. */
    method ImportOccurrences(user: nat, mode: Mode, idMap: map<nat, nat>, os: seq<OccurrenceIn>) returns (error: Option<string>)
      modifies this
      ensures Progress(State(), idMap, error) == OccurrencesFrom(Progress(old(State()), idMap, None), user, mode, os)
      ensures prefs == old(prefs)
    {
      error := None;
      var i := 0;
      while i < |os|
        invariant 0 <= i <= |os|
        invariant prefs == old(prefs)
        invariant OccurrencesFrom(Progress(State(), idMap, None), user, mode, os[i..])
               == OccurrencesFrom(Progress(old(State()), idMap, None), user, mode, os)
      {
        var o := os[i];
        assert os[i..][0] == o && os[i..][1..] == os[i + 1..];
        i := i + 1;
        if o.habitId !in idMap {
          continue;
        }
        var habitId := idMap[o.habitId];
        if o.dateMs.None? {
          error := Some(if Dedups(mode) then CastErrorMessage else OccurrenceValidationMessage);
          return;
        }
        if Dedups(mode) && H.Matching(occurrences, habitId, user, o.dateMs.value) != {} {
          continue;
        }
        if PairTaken(occurrences, habitId, o.dateMs.value) {
          error := Some(DuplicateKeyMessage);
          return;
        }
        occurrences := occurrences[nextOccurrence := H.Occurrence(habitId, user, o.dateMs.value, o.completed)];
        nextOccurrence := nextOccurrence + 1;
      }
      assert os[i..] == [];
    }

    /** The tasks loop. */
    method ImportTasks(user: nat, mode: Mode, idMap: map<nat, nat>, ts: seq<T.Draft>) returns (error: Option<string>)
      modifies this
      ensures Progress(State(), idMap, error) == TasksFrom(Progress(old(State()), idMap, None), user, mode, ts)
      ensures prefs == old(prefs)
    {
      error := None;
      var i := 0;
      while i < |ts|
        invariant 0 <= i <= |ts|
        invariant prefs == old(prefs) && error.None?
        invariant TasksFrom(Progress(State(), idMap, None), user, mode, ts[i..])
               == TasksFrom(Progress(old(State()), idMap, None), user, mode, ts)
      {
        TasksFromStep(Progress(State(), idMap, None), user, mode, ts, i);
        error := ImportTask(user, mode, idMap, ts[i]);
        if error.Some? {
          TasksFromStopped(Progress(State(), idMap, error), user, mode, ts[i + 1..]);
          return;
        }
        i := i + 1;
      }
      assert ts[i..] == [];
    }

    /** One pass of the tasks loop: TaskStep on the current store. */
    method ImportTask(user: nat, mode: Mode, idMap: map<nat, nat>, d: T.Draft) returns (error: Option<string>)
      modifies this
      ensures Progress(State(), idMap, error) == TaskStep(Progress(old(State()), idMap, None), user, mode, d)
      ensures prefs == old(prefs)
    {
      error := None;
      if Dedups(mode) {
        var b := LookupBucket(d);
        if b.None? {
          error := Some(CastErrorMessage);
          return;
        }
        if TaskExists(tasks, user, d, b.value) {
          return;
        }
      }
      var t := T.Validate(d.(userId := user));
      if t.None? {
        error := Some(TaskValidationMessage);
        return;
      }
      if T.Collides(tasks, nextTask, t.value) {
        error := Some(DuplicateKeyMessage);
        return;
      }
      tasks := tasks[nextTask := t.value];
      nextTask := nextTask + 1;
    }

    /** DELETE /settings/clear-completed: replies `deletedCount`. */
    method ClearCompletedTasks(user: nat) returns (deletedCount: nat)
      requires Valid()
      modifies this
      ensures (tasks, deletedCount) == ClearCompleted(old(tasks), user)
      ensures Valid()
      ensures habits == old(habits) && occurrences == old(occurrences) && prefs == old(prefs)
      ensures nextTask == old(nextTask) && nextHabit == old(nextHabit) && nextOccurrence == old(nextOccurrence)
    {
      var r := ClearCompleted(tasks, user);
      assert T.UniqueTopPriority(r.0) by {
        forall i, j | i in r.0 && j in r.0 && i != j && T.TopPriorityKey(r.0[i]).Some?
          ensures T.TopPriorityKey(r.0[i]) != T.TopPriorityKey(r.0[j])
        {
          assert i in tasks && j in tasks;
        }
      }
      deletedCount := |CompletedIds(tasks, user)|;
      tasks := map id | id in tasks && !(tasks[id].userId == user && tasks[id].completed) :: tasks[id];
    }

    /** GET /settings/preferences: the stored document, created from the defaults when the
        user has none. */
    method GetPreferences(user: nat) returns (doc: map<string, P.Json>)
      modifies this
      ensures doc == PreferencesOf(old(prefs), defaults, user)
      ensures prefs == old(prefs)[user := doc]
      ensures State() == old(State())
    {
      if user !in prefs {
        prefs := prefs[user := defaults];
      }
      doc := prefs[user];
    }

    /** PUT /settings/preferences: each key of the update is merged one level deep into the
        stored document, or into the defaults when the user has none yet. A parsed body holds
        each key once, so Preferences.MergeAllEffect describes the result. */
    method PutPreferences(user: nat, updates: seq<P.Member>) returns (doc: map<string, P.Json>)
      modifies this
      ensures doc == P.MergeAll(PreferencesOf(old(prefs), defaults, user), updates)
      ensures prefs == old(prefs)[user := doc]
      ensures State() == old(State())
    {
      doc := PreferencesOf(prefs, defaults, user);
      var i := 0;
      while i < |updates|
        invariant 0 <= i <= |updates|
        invariant P.MergeAll(doc, updates[i..]) == P.MergeAll(PreferencesOf(old(prefs), defaults, user), updates)
        invariant prefs == old(prefs) && State() == old(State())
      {
        var m := updates[i];
        assert updates[i..][0] == m && updates[i..][1..] == updates[i + 1..];
        if P.IsObjectType(m.value) {
          doc := doc[m.key := P.JObj(P.Overlay(P.Spread(P.Get(doc, m.key)), P.Spread(Some(m.value))))];
        } else {
          doc := doc[m.key := m.value];
        }
        i := i + 1;
      }
      assert updates[i..] == [];
      prefs := prefs[user := doc];
    }
  }
}
