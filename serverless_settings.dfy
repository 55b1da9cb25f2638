/**
 * The settings endpoints of the serverless API: POST /api/settings/import (overwrite or
 * merge) and GET and PUT /api/settings/preferences.
 */
module ServerlessSettings {
  import opened Outcomes
  import opened Sorting
  import T = TaskModel
  import ST = ServerlessTasks
  import SH = ServerlessHabits
  import P = Preferences

  const HabitValidationMessage := "Habit validation failed"

  /** The `mode` of an import; `OtherMode` stands for any string but the two named ones. */
  datatype Mode = Overwrite | Merge | OtherMode

  /** `mode = 'merge'`: a request without a mode merges. */
  function ModeOf(raw: Option<Mode>): (m: Mode)
    ensures raw.None? ==> m == Merge
    ensures raw.Some? ==> m == raw.value
  {
    if raw.Some? then raw.value else Merge
  }

  /** The document `findOne` and `findOneAndUpdate` pick among several matches: the least id. */
  function Least(ids: set<nat>): (r: Option<nat>)
    ensures r.None? <==> ids == {}
    ensures r.Some? ==> r.value in ids && forall x :: x in ids ==> r.value <= x
  {
    var order := Ascending(ids);
    if |order| == 0 then None
    else
      assert order[0] in ids;
      assert forall x :: x in ids ==> order[0] <= x by {
        forall x | x in ids
          ensures order[0] <= x
        {
          var k :| 0 <= k < |order| && order[k] == x;
        }
      }
      Some(order[0])
  }

  /** The three collections, with the next id each insert hands out. */
  datatype Store = Store(
    tasks: map<nat, ST.Task>,
    habits: map<nat, SH.Habit>,
    occurrences: map<nat, SH.Occurrence>,
    nextTask: nat,
    nextHabit: nat,
    nextOccurrence: nat)

  /** The unique index `{ habitId, dateUTC }` of the occurrences, over the canonical dates. */
  predicate UniquePairs(occ: map<nat, SH.Occurrence>) {
    forall i, j :: i in occ && j in occ && i != j && occ[i].dateUTC.Some? ==>
      (occ[i].habitId, occ[i].dateUTC) != (occ[j].habitId, occ[j].dateUTC)
  }

  /** Ids below the counters, and both unique indexes respected. */
  predicate ValidStore(s: Store) {
    && (forall id :: id in s.tasks ==> id < s.nextTask)
    && (forall id :: id in s.habits ==> id < s.nextHabit)
    && (forall id :: id in s.occurrences ==> id < s.nextOccurrence)
    && ST.UniqueTop(s.tasks)
    && UniquePairs(s.occurrences)
  }

  /** Every occurrence belongs to a stored habit of its own user. */
  predicate Linked(s: Store) {
    forall id :: id in s.occurrences ==>
      s.occurrences[id].habitId in s.habits && s.habits[s.occurrences[id].habitId].userId == s.occurrences[id].userId
  }

  function TaskOwner(t: ST.Task): nat { t.userId }
  function HabitOwner(h: SH.Habit): nat { h.userId }
  function OccurrenceOwner(o: SH.Occurrence): nat { o.userId }

  /** b differs from a only in records of the user: no record is removed, a record that
      changed was the user's and still is, and a record that is new is the user's. */
  predicate OnlyUserChanges<V(==)>(a: map<nat, V>, b: map<nat, V>, owner: V -> nat, user: nat) {
    && (forall id :: id in a ==> id in b && (b[id] == a[id] || (owner(a[id]) == user && owner(b[id]) == user)))
    && (forall id :: id in b && id !in a ==> owner(b[id]) == user)
  }

  lemma OnlyUserChangesTrans<V>(a: map<nat, V>, b: map<nat, V>, c: map<nat, V>, owner: V -> nat, user: nat)
    requires OnlyUserChanges(a, b, owner, user) && OnlyUserChanges(b, c, owner, user)
    ensures OnlyUserChanges(a, c, owner, user)
  {
  }

  /** Writing a record of the user under an id that is free or the user's. */
  lemma WriteOnlyUser<V>(m: map<nat, V>, id: nat, v: V, owner: V -> nat, user: nat)
    requires owner(v) == user && (id in m ==> owner(m[id]) == user)
    ensures OnlyUserChanges(m, m[id := v], owner, user)
  {
  }

  /** Every id of b that a does not hold is at least `next`. */
  predicate NewAbove<V>(a: map<nat, V>, b: map<nat, V>, next: nat) {
    forall id :: id in b && id !in a ==> id >= next
  }

  /** b changes the store of a only in the user's records, no counter goes back, and every
      record b adds has an id a had not handed out. */
  predicate ChangesOnlyUser(a: Store, b: Store, user: nat) {
    && OnlyUserChanges(a.tasks, b.tasks, TaskOwner, user)
    && OnlyUserChanges(a.habits, b.habits, HabitOwner, user)
    && OnlyUserChanges(a.occurrences, b.occurrences, OccurrenceOwner, user)
    && a.nextTask <= b.nextTask && a.nextHabit <= b.nextHabit && a.nextOccurrence <= b.nextOccurrence
    && NewAbove(a.tasks, b.tasks, a.nextTask) && NewAbove(a.habits, b.habits, a.nextHabit)
    && NewAbove(a.occurrences, b.occurrences, a.nextOccurrence)
  }

  lemma ChangesOnlyUserTrans(a: Store, b: Store, c: Store, user: nat)
    requires ChangesOnlyUser(a, b, user) && ChangesOnlyUser(b, c, user)
    ensures ChangesOnlyUser(a, c, user)
  {
    OnlyUserChangesTrans(a.tasks, b.tasks, c.tasks, TaskOwner, user);
    OnlyUserChangesTrans(a.habits, b.habits, c.habits, HabitOwner, user);
    OnlyUserChangesTrans(a.occurrences, b.occurrences, c.occurrences, OccurrenceOwner, user);
  }

  // Overwrite

  /** The three `deleteMany({ userId })` of an overwrite import. */
  function ClearUser(s: Store, user: nat): (r: Store)
    ensures forall id :: id in r.tasks <==> id in s.tasks && s.tasks[id].userId != user
    ensures forall id :: id in r.habits <==> id in s.habits && s.habits[id].userId != user
    ensures forall id :: id in r.occurrences <==> id in s.occurrences && s.occurrences[id].userId != user
    ensures forall id :: id in r.tasks ==> r.tasks[id] == s.tasks[id]
    ensures forall id :: id in r.habits ==> r.habits[id] == s.habits[id]
    ensures forall id :: id in r.occurrences ==> r.occurrences[id] == s.occurrences[id]
    ensures ValidStore(s) ==> ValidStore(r)
    ensures Linked(s) ==> Linked(r)
  {
    Store(
      map id | id in s.tasks && s.tasks[id].userId != user :: s.tasks[id],
      map id | id in s.habits && s.habits[id].userId != user :: s.habits[id],
      map id | id in s.occurrences && s.occurrences[id].userId != user :: s.occurrences[id],
      s.nextTask, s.nextHabit, s.nextOccurrence)
  }

  /** What the reply counts. */
  datatype Results = Results(tasks: nat, habits: nat, occurrences: nat)

  /** Where an import has got to: the store, the stored id of each exported habit id, the
      counts, and the error thrown, if one was. */
  datatype Progress = Progress(store: Store, idMap: map<nat, nat>, results: Results, error: Option<string>)

  /** Every id the map hands out is a habit of the user. */
  predicate MapsToUserHabits(p: Progress, user: nat) {
    forall k :: k in p.idMap ==> p.idMap[k] in p.store.habits && p.store.habits[p.idMap[k]].userId == user
  }

  // 1. Tasks

  /** The ids `{ userId, title, scope, date }` finds. The title is cast through the schema's
      trim; an absent date is dropped from the filter and matches any date. */
  function TaskMatches(tasks: map<nat, ST.Task>, user: nat, t: ST.Task): (ids: set<nat>)
    ensures forall id :: id in ids <==>
      (id in tasks && tasks[id].userId == user && tasks[id].title == T.Trim(t.title) &&
       tasks[id].scope == t.scope && (t.date.None? || tasks[id].date == t.date))
  {
    set id | id in tasks && tasks[id].userId == user && tasks[id].title == T.Trim(t.title) &&
      tasks[id].scope == t.scope && (t.date.None? || tasks[id].date == t.date)
  }

  /** `{ ...t, userId }` as the schema stores it. */
  function OwnedTask(t: ST.Task, user: nat): ST.Task {
    t.(userId := user, title := T.Trim(t.title))
  }

  /** The update of a matched task: every imported field, except that an absent date or
      period start leaves the stored one. */
  function UpdatedTask(stored: ST.Task, t: ST.Task, user: nat): ST.Task {
    OwnedTask(t, user).(date := if t.date.Some? then t.date else stored.date,
                        periodStart := if t.periodStart.Some? then t.periodStart else stored.periodStart)
  }

  /** One pass of the tasks loop. Merge mode updates the first match, or inserts without
      validation; any other mode runs `Task.create`, whose validation wants a title. Either
      write throws when it breaks the unique index. */
  function TaskStep(p: Progress, user: nat, mode: Mode, t: ST.Task): (r: Progress)
    requires p.error.None?
  {
    var tasks := p.store.tasks;
    var found := if mode == Merge then Least(TaskMatches(tasks, user, t)) else None;
    var counted := p.results.(tasks := p.results.tasks + 1);
    if mode != Merge && T.Trim(t.title) == "" then p.(error := Some(ST.ValidationMessage))
    else if found.Some? then
      var doc := UpdatedTask(tasks[found.value], t, user);
      if ST.Collides(tasks, found.value, doc) then p.(error := Some(ST.DuplicateKeyMessage))
      else p.(store := p.store.(tasks := tasks[found.value := doc]), results := counted)
    else
      var id := p.store.nextTask;
      var doc := OwnedTask(t, user);
      if ST.Collides(tasks, id, doc) then p.(error := Some(ST.DuplicateKeyMessage))
      else p.(store := p.store.(tasks := tasks[id := doc], nextTask := id + 1), results := counted)
  }

  /** The tasks loop from the current progress; a thrown error ends it. */
  function TasksFrom(p: Progress, user: nat, mode: Mode, ts: seq<ST.Task>): Progress
    decreases |ts|
  {
    if |ts| == 0 || p.error.Some? then p
    else TasksFrom(TaskStep(p, user, mode, ts[0]), user, mode, ts[1..])
  }

  /** A task step keeps the store valid, changes only the user's tasks, and counts the task
      exactly when it throws nothing. Outside merge mode a blank title throws; in merge mode
      a task the user has already is updated in place, never added. */
  lemma TaskStepFacts(p: Progress, user: nat, mode: Mode, t: ST.Task)
    requires p.error.None? && ValidStore(p.store)
    ensures var r := TaskStep(p, user, mode, t);
      && ValidStore(r.store) && ChangesOnlyUser(p.store, r.store, user)
      && r.store.habits == p.store.habits && r.store.occurrences == p.store.occurrences && r.idMap == p.idMap
      && r.results.habits == p.results.habits && r.results.occurrences == p.results.occurrences
      && r.results.tasks == (if r.error.None? then p.results.tasks + 1 else p.results.tasks)
      && (mode != Merge && T.Trim(t.title) == "" ==> r.error == Some(ST.ValidationMessage))
      && (mode == Merge && TaskMatches(p.store.tasks, user, t) != {} ==> r.store.tasks.Keys == p.store.tasks.Keys)
  {
    var r := TaskStep(p, user, mode, t);
    var tasks := p.store.tasks;
    var found := if mode == Merge then Least(TaskMatches(tasks, user, t)) else None;
    if mode != Merge && T.Trim(t.title) == "" {
      assert r == p.(error := Some(ST.ValidationMessage));
    } else if found.Some? {
      var doc := UpdatedTask(tasks[found.value], t, user);
      if !ST.Collides(tasks, found.value, doc) {
        assert r.store == p.store.(tasks := tasks[found.value := doc]);
        ST.SaveKeepsUnique(tasks, found.value, doc);
      }
    } else {
      var id := p.store.nextTask;
      var doc := OwnedTask(t, user);
      if !ST.Collides(tasks, id, doc) {
        assert r.store == p.store.(tasks := tasks[id := doc], nextTask := id + 1);
        assert id !in tasks;
        ST.SaveKeepsUnique(tasks, id, doc);
      }
    }
  }

  /** The tasks loop keeps the store valid and changes only the user's tasks; when it
      throws nothing it has counted every task of the list. */
  lemma {:induction false} TasksFromFacts(p: Progress, user: nat, mode: Mode, ts: seq<ST.Task>)
    requires ValidStore(p.store)
    ensures var r := TasksFrom(p, user, mode, ts);
      && ValidStore(r.store) && ChangesOnlyUser(p.store, r.store, user)
      && r.store.habits == p.store.habits && r.store.occurrences == p.store.occurrences && r.idMap == p.idMap
      && r.results.habits == p.results.habits && r.results.occurrences == p.results.occurrences
      && (p.error.Some? ==> r == p)
      && (r.error.None? ==> r.results.tasks == p.results.tasks + |ts|)
    decreases |ts|
  {
    if |ts| > 0 && p.error.None? {
      var q := TaskStep(p, user, mode, ts[0]);
      TaskStepFacts(p, user, mode, ts[0]);
      TasksFromFacts(q, user, mode, ts[1..]);
      ChangesOnlyUserTrans(p.store, q.store, TasksFrom(q, user, mode, ts[1..]).store, user);
    }
  }

  // 2. Habits

  /** An incoming habit: the `_id` it had when it was exported, and its fields. */
  datatype HabitIn = HabitIn(oldId: nat, habit: SH.Habit)

  /** The ids `{ userId, title }` finds, the title cast through the schema's trim. */
  function HabitMatches(habits: map<nat, SH.Habit>, user: nat, title: string): (ids: set<nat>)
    ensures forall id :: id in ids <==> id in habits && habits[id].userId == user && habits[id].title == T.Trim(title)
  {
    set id | id in habits && habits[id].userId == user && habits[id].title == T.Trim(title)
  }

  /** `{ ...h, userId }` as the schema stores it. */
  function OwnedHabit(h: SH.Habit, user: nat): SH.Habit {
    h.(userId := user, title := T.Trim(h.title))
  }

  /** One pass of the habits loop. Merge mode updates the first habit of the user with the
      title, or inserts without validation; any other mode runs `Habit.create`, whose
      validation wants a title. The map records where the exported id went. */
  function HabitStep(p: Progress, user: nat, mode: Mode, h: HabitIn): (r: Progress)
    requires p.error.None?
  {
    var habits := p.store.habits;
    var found := if mode == Merge then Least(HabitMatches(habits, user, h.habit.title)) else None;
    var counted := p.results.(habits := p.results.habits + 1);
    if found.Some? then
      p.(store := p.store.(habits := habits[found.value := OwnedHabit(h.habit, user)]),
         idMap := p.idMap[h.oldId := found.value], results := counted)
    else if mode != Merge && T.Trim(h.habit.title) == "" then p.(error := Some(HabitValidationMessage))
    else
      var id := p.store.nextHabit;
      p.(store := p.store.(habits := habits[id := OwnedHabit(h.habit, user)], nextHabit := id + 1),
         idMap := p.idMap[h.oldId := id], results := counted)
  }

  /** The habits loop from the current progress; a thrown error ends it. */
  function HabitsFrom(p: Progress, user: nat, mode: Mode, hs: seq<HabitIn>): Progress
    decreases |hs|
  {
    if |hs| == 0 || p.error.Some? then p
    else HabitsFrom(HabitStep(p, user, mode, hs[0]), user, mode, hs[1..])
  }

  /** One unfolding of the habits loop on a non-empty remainder. */
  lemma HabitsFromStep(p: Progress, user: nat, mode: Mode, hs: seq<HabitIn>, i: nat)
    requires i < |hs| && p.error.None?
    ensures HabitsFrom(p, user, mode, hs[i..]) == HabitsFrom(HabitStep(p, user, mode, hs[i]), user, mode, hs[i + 1..])
  {
    assert hs[i..][0] == hs[i] && hs[i..][1..] == hs[i + 1..];
  }

  /** The habits loop stops at the first error. */
  lemma HabitsFromStopped(p: Progress, user: nat, mode: Mode, hs: seq<HabitIn>)
    requires p.error.Some?
    ensures HabitsFrom(p, user, mode, hs) == p
  {
  }

  /** A habit step keeps the store valid; it maps the exported id and counts the habit
      exactly when it throws nothing. Outside merge mode a blank title throws; in merge mode
      a title the user has already is updated in place, never added. */
  lemma HabitStepFacts(p: Progress, user: nat, mode: Mode, h: HabitIn)
    requires p.error.None? && ValidStore(p.store)
    ensures var r := HabitStep(p, user, mode, h);
      && ValidStore(r.store)
      && r.store.tasks == p.store.tasks && r.store.occurrences == p.store.occurrences
      && r.store.nextTask == p.store.nextTask && r.store.nextOccurrence == p.store.nextOccurrence
      && r.results.tasks == p.results.tasks && r.results.occurrences == p.results.occurrences
      && r.results.habits == (if r.error.None? then p.results.habits + 1 else p.results.habits)
      && (r.error.None? ==> r.idMap.Keys == p.idMap.Keys + {h.oldId})
      && (r.error.Some? ==> r.idMap == p.idMap)
      && (mode != Merge && T.Trim(h.habit.title) == "" ==> r.error == Some(HabitValidationMessage))
      && (mode == Merge && HabitMatches(p.store.habits, user, h.habit.title) != {} ==>
            r.store.habits.Keys == p.store.habits.Keys)
  {
    var r := HabitStep(p, user, mode, h);
    var habits := p.store.habits;
    var found := if mode == Merge then Least(HabitMatches(habits, user, h.habit.title)) else None;
    if found.Some? {
      assert r.store == p.store.(habits := habits[found.value := OwnedHabit(h.habit, user)]);
    } else if mode != Merge && T.Trim(h.habit.title) == "" {
      assert r == p.(error := Some(HabitValidationMessage));
    } else {
      var id := p.store.nextHabit;
      assert r.store == p.store.(habits := habits[id := OwnedHabit(h.habit, user)], nextHabit := id + 1);
      assert id !in habits;
    }
  }

  /** A habit step changes only the user's habits, keeps the store linked, and keeps every
      mapped id pointing at a habit of the user, the ids it does not write unchanged. */
  lemma HabitStepFrame(p: Progress, user: nat, mode: Mode, h: HabitIn)
    requires p.error.None? && ValidStore(p.store) && MapsToUserHabits(p, user)
    ensures var r := HabitStep(p, user, mode, h);
      && ChangesOnlyUser(p.store, r.store, user)
      && (Linked(p.store) ==> Linked(r.store))
      && MapsToUserHabits(r, user)
      && (forall k :: k in p.idMap && k != h.oldId ==> k in r.idMap && r.idMap[k] == p.idMap[k])
  {
    var r := HabitStep(p, user, mode, h);
    var habits := p.store.habits;
    var found := if mode == Merge then Least(HabitMatches(habits, user, h.habit.title)) else None;
    var doc := OwnedHabit(h.habit, user);
    if found.Some? {
      assert r.store == p.store.(habits := habits[found.value := doc]);
      assert r.idMap == p.idMap[h.oldId := found.value];
      WriteOnlyUser(habits, found.value, doc, HabitOwner, user);
    } else if !(mode != Merge && T.Trim(h.habit.title) == "") {
      var id := p.store.nextHabit;
      assert r.store == p.store.(habits := habits[id := doc], nextHabit := id + 1);
      assert r.idMap == p.idMap[h.oldId := id];
      assert id !in habits;
      WriteOnlyUser(habits, id, doc, HabitOwner, user);
    }
  }

  /** The habits loop keeps the store valid and linked, changes only the user's habits,
      and keeps every mapped id pointing at a habit of the user; when it throws nothing it
      has counted and mapped every habit of the list. */
  lemma {:induction false} HabitsFromFacts(p: Progress, user: nat, mode: Mode, hs: seq<HabitIn>)
    requires ValidStore(p.store) && MapsToUserHabits(p, user)
    ensures var r := HabitsFrom(p, user, mode, hs);
      && ValidStore(r.store) && ChangesOnlyUser(p.store, r.store, user)
      && (Linked(p.store) ==> Linked(r.store))
      && r.store.tasks == p.store.tasks && r.store.occurrences == p.store.occurrences
      && MapsToUserHabits(r, user)
      && r.results.tasks == p.results.tasks && r.results.occurrences == p.results.occurrences
      && (p.error.Some? ==> r == p)
      && (r.error.None? ==> r.results.habits == p.results.habits + |hs|)
    decreases |hs|
  {
    if |hs| > 0 && p.error.None? {
      var q := HabitStep(p, user, mode, hs[0]);
      HabitStepFacts(p, user, mode, hs[0]);
      HabitStepFrame(p, user, mode, hs[0]);
      HabitsFromFacts(q, user, mode, hs[1..]);
      var r := HabitsFrom(q, user, mode, hs[1..]);
      ChangesOnlyUserTrans(p.store, q.store, r.store, user);
    }
  }

  /** When the habits loop ends without error, every exported id of the list is mapped. */
  lemma {:induction false} HabitsFromMapsEveryId(p: Progress, user: nat, mode: Mode, hs: seq<HabitIn>)
    requires ValidStore(p.store)
    ensures var r := HabitsFrom(p, user, mode, hs);
      r.error.None? ==> forall i :: 0 <= i < |hs| ==> hs[i].oldId in r.idMap
    decreases |hs|
  {
    if |hs| > 0 && p.error.None? {
      var q := HabitStep(p, user, mode, hs[0]);
      HabitStepFacts(p, user, mode, hs[0]);
      HabitsFromMapsEveryId(q, user, mode, hs[1..]);
      var r := HabitsFrom(q, user, mode, hs[1..]);
      if r.error.None? {
        HabitsFromKeepsKeys(q, user, mode, hs[1..]);
        forall i | 0 <= i < |hs|
          ensures hs[i].oldId in r.idMap
        {
          if i > 0 {
            assert hs[i] == hs[1..][i - 1];
          }
        }
      }
    }
  }

  /** The habits loop never unmaps an id. */
  lemma {:induction false} HabitsFromKeepsKeys(p: Progress, user: nat, mode: Mode, hs: seq<HabitIn>)
    ensures p.idMap.Keys <= HabitsFrom(p, user, mode, hs).idMap.Keys
    decreases |hs|
  {
    if |hs| > 0 && p.error.None? {
      HabitsFromKeepsKeys(HabitStep(p, user, mode, hs[0]), user, mode, hs[1..]);
    }
  }

  // 3. Occurrences

  /** The ids `{ habitId, dateUTC }` finds, of any user. A date string that is the key of no
      day is taken to match nothing. */
  function PairMatches(occ: map<nat, SH.Occurrence>, habitId: nat, date: Option<int>): (ids: set<nat>)
    ensures forall id :: id in ids <==> id in occ && date.Some? && occ[id].habitId == habitId && occ[id].dateUTC == date
  {
    set id | id in occ && date.Some? && occ[id].habitId == habitId && occ[id].dateUTC == date
  }

  /** The habit id an incoming occurrence is written with: its exported id as it is, or,
      when `remap` holds, the stored id the habits pass mapped it to; None when there is
      none, and then the occurrence is skipped. */
  function TargetHabit(p: Progress, o: SH.Occurrence, remap: bool): Option<nat> {
    if !remap then Some(o.habitId)
    else if o.habitId in p.idMap then Some(p.idMap[o.habitId])
    else None
  }

  /** One pass of the occurrences loop. Merge mode updates the first occurrence of the
      habit and day, of whichever user, or inserts; any other mode inserts. An insert that
      breaks the unique index throws, and the loop catches it: the occurrence is skipped and
      not counted. */
  function OccurrenceStep(p: Progress, user: nat, mode: Mode, o: SH.Occurrence, remap: bool): (r: Progress)
  {
    var target := TargetHabit(p, o, remap);
    if target.None? then p
    else
      var occ := p.store.occurrences;
      var doc := o.(habitId := target.value, userId := user);
      var found := if mode == Merge then Least(PairMatches(occ, doc.habitId, doc.dateUTC)) else None;
      var counted := p.results.(occurrences := p.results.occurrences + 1);
      if found.Some? then
        p.(store := p.store.(occurrences := occ[found.value := doc]), results := counted)
      else if PairMatches(occ, doc.habitId, doc.dateUTC) != {} then p
      else
        var id := p.store.nextOccurrence;
        p.(store := p.store.(occurrences := occ[id := doc], nextOccurrence := id + 1), results := counted)
  }

  /** The occurrences loop; nothing it does throws out of it. */
  function OccurrencesFrom(p: Progress, user: nat, mode: Mode, os: seq<SH.Occurrence>, remap: bool): Progress
    decreases |os|
  {
    if |os| == 0 then p
    else OccurrencesFrom(OccurrenceStep(p, user, mode, os[0], remap), user, mode, os[1..], remap)
  }

  /** An occurrence step keeps the store valid, changes only the occurrences, throws
      nothing and counts at most the one occurrence; remapped, an occurrence of an unmapped
      habit is skipped. */
  lemma OccurrenceStepFacts(p: Progress, user: nat, mode: Mode, o: SH.Occurrence, remap: bool)
    requires ValidStore(p.store)
    ensures var r := OccurrenceStep(p, user, mode, o, remap);
      && ValidStore(r.store) && r.error == p.error && r.idMap == p.idMap
      && r.store.tasks == p.store.tasks && r.store.habits == p.store.habits
      && r.store.nextTask == p.store.nextTask && r.store.nextHabit == p.store.nextHabit
      && p.store.nextOccurrence <= r.store.nextOccurrence
      && r.results.tasks == p.results.tasks && r.results.habits == p.results.habits
      && p.results.occurrences <= r.results.occurrences <= p.results.occurrences + 1
      && (remap && o.habitId !in p.idMap ==> r == p)
  {
    var target := TargetHabit(p, o, remap);
    if target.Some? {
      var occ := p.store.occurrences;
      var doc := o.(habitId := target.value, userId := user);
      var matches := PairMatches(occ, doc.habitId, doc.dateUTC);
      var found := if mode == Merge then Least(matches) else None;
      var r := OccurrenceStep(p, user, mode, o, remap);
      if found.Some? {
        var m := occ[found.value := doc];
        assert r.store == p.store.(occurrences := m);
        assert UniquePairs(m) by {
          forall i, j | i in m && j in m && i != j && m[i].dateUTC.Some?
            ensures (m[i].habitId, m[i].dateUTC) != (m[j].habitId, m[j].dateUTC)
          {
            if i != found.value && j != found.value {
              assert m[i] == occ[i] && m[j] == occ[j];
            }
          }
        }
      } else if matches == {} {
        var id := p.store.nextOccurrence;
        var m := occ[id := doc];
        assert r.store == p.store.(occurrences := m, nextOccurrence := id + 1);
        assert id !in occ;
        assert UniquePairs(m) by {
          forall i, j | i in m && j in m && i != j && m[i].dateUTC.Some?
            ensures (m[i].habitId, m[i].dateUTC) != (m[j].habitId, m[j].dateUTC)
          {
            if i == id {
              assert j !in matches;
            } else if j == id {
              assert i !in matches;
            } else {
              assert m[i] == occ[i] && m[j] == occ[j];
            }
          }
        }
      }
    }
  }

  /** Remapped, an occurrence step on a linked store writes only occurrences of the user's
      habits: it keeps the store linked and leaves every other user's occurrences as they
      were. */
  lemma OccurrenceStepFrame(p: Progress, user: nat, mode: Mode, o: SH.Occurrence)
    requires ValidStore(p.store) && MapsToUserHabits(p, user) && Linked(p.store)
    ensures var r := OccurrenceStep(p, user, mode, o, true);
      ChangesOnlyUser(p.store, r.store, user) && Linked(r.store) && MapsToUserHabits(r, user)
  {
    var target := TargetHabit(p, o, true);
    if target.Some? {
      var occ := p.store.occurrences;
      var doc := o.(habitId := target.value, userId := user);
      var matches := PairMatches(occ, doc.habitId, doc.dateUTC);
      var found := if mode == Merge then Least(matches) else None;
      var r := OccurrenceStep(p, user, mode, o, true);
      if found.Some? {
        assert r.store == p.store.(occurrences := occ[found.value := doc]);
        assert occ[found.value].habitId == target.value;
        WriteOnlyUser(occ, found.value, doc, OccurrenceOwner, user);
      } else if matches == {} {
        var id := p.store.nextOccurrence;
        assert r.store == p.store.(occurrences := occ[id := doc], nextOccurrence := id + 1);
        assert id !in occ;
        WriteOnlyUser(occ, id, doc, OccurrenceOwner, user);
      }
    }
  }

  /** The occurrences loop keeps the store valid, throws nothing and counts at most the
      occurrences of the list. Remapped, it keeps the store linked and changes only the
      user's occurrences. */
  lemma {:induction false} OccurrencesFromFacts(p: Progress, user: nat, mode: Mode, os: seq<SH.Occurrence>, remap: bool)
    requires ValidStore(p.store)
    ensures var r := OccurrencesFrom(p, user, mode, os, remap);
      && ValidStore(r.store) && r.error == p.error && r.idMap == p.idMap
      && r.store.tasks == p.store.tasks && r.store.habits == p.store.habits
      && r.store.nextTask == p.store.nextTask && r.store.nextHabit == p.store.nextHabit
      && p.store.nextOccurrence <= r.store.nextOccurrence
      && r.results.tasks == p.results.tasks && r.results.habits == p.results.habits
      && p.results.occurrences <= r.results.occurrences <= p.results.occurrences + |os|
      && (remap && MapsToUserHabits(p, user) && Linked(p.store) ==>
            ChangesOnlyUser(p.store, r.store, user) && Linked(r.store))
    decreases |os|
  {
    if |os| > 0 {
      var q := OccurrenceStep(p, user, mode, os[0], remap);
      OccurrenceStepFacts(p, user, mode, os[0], remap);
      OccurrencesFromFacts(q, user, mode, os[1..], remap);
      if remap && MapsToUserHabits(p, user) && Linked(p.store) {
        OccurrenceStepFrame(p, user, mode, os[0]);
        ChangesOnlyUserTrans(p.store, q.store, OccurrencesFrom(q, user, mode, os[1..], remap).store, user);
      }
    }
  }

  // The import

  /** The store the loops start from: an overwrite first deletes the user's records. */
  function ImportStart(s: Store, user: nat, mode: Mode): Store {
    if mode == Overwrite then ClearUser(s, user) else s
  }

  /** The three loops in order: tasks, habits, then occurrences, their habit ids remapped
      through the habits pass when `remap` holds. An error thrown by the first two ends the
      import. */
  function ImportPasses(s: Store, user: nat, mode: Mode, tasks: seq<ST.Task>, habits: seq<HabitIn>,
                        occurrences: seq<SH.Occurrence>, remap: bool): Progress
  {
    var p2 := FirstPasses(s, user, mode, tasks, habits);
    if p2.error.Some? then p2 else OccurrencesFrom(p2, user, mode, occurrences, remap)
  }

  /** The tasks loop, then the habits loop. */
  function FirstPasses(s: Store, user: nat, mode: Mode, tasks: seq<ST.Task>, habits: seq<HabitIn>): Progress {
    var p0 := Progress(ImportStart(s, user, mode), map[], Results(0, 0, 0), None);
    HabitsFrom(TasksFrom(p0, user, mode, tasks), user, mode, habits)
  }

  /** POST /api/settings/import: the counts with status 200, or status 500 with the error
      thrown, the writes made before it kept; any other method gets 405. */
  function ImportWith(remap: bool, verb: Verb, s: Store, user: nat, mode: Mode, tasks: seq<ST.Task>,
                      habits: seq<HabitIn>, occurrences: seq<SH.Occurrence>): (Reply<Results>, Store)
  {
    if verb != HttpPost then (Err(405, MethodNotAllowedMessage), s)
    else
      var p := ImportPasses(s, user, mode, tasks, habits, occurrences, remap);
      (if p.error.Some? then Err(500, p.error.value) else Ok(200, p.results), p.store)
  }

  /** The import as written: every occurrence keeps the habit id it was exported with. */
  function ImportAsWritten(verb: Verb, s: Store, user: nat, mode: Mode, tasks: seq<ST.Task>,
                           habits: seq<HabitIn>, occurrences: seq<SH.Occurrence>): (Reply<Results>, Store)
  {
    ImportWith(false, verb, s, user, mode, tasks, habits, occurrences)
  }

  /** The import with the occurrences remapped to the habits the import stored, and those of
      a habit it did not import skipped. */
  function Import(verb: Verb, s: Store, user: nat, mode: Mode, tasks: seq<ST.Task>,
                  habits: seq<HabitIn>, occurrences: seq<SH.Occurrence>): (Reply<Results>, Store)
  {
    ImportWith(true, verb, s, user, mode, tasks, habits, occurrences)
  }

  /** The tasks and habits loops keep the store valid and linked, change only the user's
      records and map exported ids to the user's habits only; when nothing is thrown every
      task and habit is counted. */
  lemma FirstPassesFacts(s: Store, user: nat, mode: Mode, tasks: seq<ST.Task>, habits: seq<HabitIn>)
    requires ValidStore(s)
    ensures var start := ImportStart(s, user, mode);
      var r := FirstPasses(s, user, mode, tasks, habits);
      && ValidStore(r.store) && ChangesOnlyUser(start, r.store, user) && MapsToUserHabits(r, user)
      && (Linked(s) ==> Linked(r.store))
      && r.results.occurrences == 0
      && (r.error.None? ==> r.results.tasks == |tasks| && r.results.habits == |habits|)
  {
    var start := ImportStart(s, user, mode);
    var p0 := Progress(start, map[], Results(0, 0, 0), None);
    TasksFromFacts(p0, user, mode, tasks);
    var p1 := TasksFrom(p0, user, mode, tasks);
    assert Linked(start) ==> Linked(p1.store);
    HabitsFromFacts(p1, user, mode, habits);
    ChangesOnlyUserTrans(start, p1.store, HabitsFrom(p1, user, mode, habits).store, user);
  }

  /** The loops keep the store valid and change only the user's tasks and habits; when
      nothing is thrown every task and habit is counted, and at most every occurrence.
      Remapped, on a linked store, they keep it linked and change only the user's records. */
  lemma ImportPassesFacts(s: Store, user: nat, mode: Mode, tasks: seq<ST.Task>, habits: seq<HabitIn>,
                          occurrences: seq<SH.Occurrence>, remap: bool)
    requires ValidStore(s)
    ensures var start := ImportStart(s, user, mode);
      var r := ImportPasses(s, user, mode, tasks, habits, occurrences, remap);
      && ValidStore(r.store)
      && OnlyUserChanges(start.tasks, r.store.tasks, TaskOwner, user)
      && OnlyUserChanges(start.habits, r.store.habits, HabitOwner, user)
      && (r.error.None? ==> r.results.tasks == |tasks| && r.results.habits == |habits|)
      && r.results.occurrences <= |occurrences|
      && (remap && Linked(s) ==> Linked(r.store) && ChangesOnlyUser(start, r.store, user))
  {
    var start := ImportStart(s, user, mode);
    FirstPassesFacts(s, user, mode, tasks, habits);
    var p2 := FirstPasses(s, user, mode, tasks, habits);
    if p2.error.None? {
      OccurrencesFromFacts(p2, user, mode, occurrences, remap);
      if remap && Linked(s) {
        ChangesOnlyUserTrans(start, p2.store, OccurrencesFrom(p2, user, mode, occurrences, remap).store, user);
      }
    }
  }

  /** Where the loops start keeps every record of another user. */
  lemma StartKeepsOthers(s: Store, user: nat, mode: Mode)
    ensures var start := ImportStart(s, user, mode);
      && (forall id :: id in s.tasks && TaskOwner(s.tasks[id]) != user ==> id in start.tasks && start.tasks[id] == s.tasks[id])
      && (forall id :: id in s.habits && HabitOwner(s.habits[id]) != user ==> id in start.habits && start.habits[id] == s.habits[id])
      && (forall id :: id in s.occurrences && OccurrenceOwner(s.occurrences[id]) != user ==>
            id in start.occurrences && start.occurrences[id] == s.occurrences[id])
  {
  }

  /** The reply: 405 exactly for a method other than POST, which changes nothing; otherwise
      500 for a thrown error, or 200 with a count of every task and habit and of at most
      every occurrence. Either way the store stays valid. */
  lemma ImportOutcome(remap: bool, verb: Verb, s: Store, user: nat, mode: Mode, tasks: seq<ST.Task>,
                      habits: seq<HabitIn>, occurrences: seq<SH.Occurrence>)
    requires ValidStore(s)
    ensures var res := ImportWith(remap, verb, s, user, mode, tasks, habits, occurrences);
      var reply := res.0;
      && ValidStore(res.1)
      && (reply.Err? && reply.status == 405 <==> verb != HttpPost)
      && (verb != HttpPost ==> res.1 == s)
      && (reply.Err? ==> reply.status == 405 || reply.status == 500)
      && (reply.Ok? ==> reply.status == 200 && reply.value.tasks == |tasks| && reply.value.habits == |habits|
                        && reply.value.occurrences <= |occurrences|)
  {
    ImportPassesFacts(s, user, mode, tasks, habits, occurrences, remap);
  }

  /** The records of other users that survive to the start of the loops survive to their end. */
  lemma OthersKept<V>(a: map<nat, V>, start: map<nat, V>, r: map<nat, V>, owner: V -> nat, user: nat)
    requires forall id :: id in a && owner(a[id]) != user ==> id in start && start[id] == a[id]
    requires OnlyUserChanges(start, r, owner, user)
    ensures forall id :: id in a && owner(a[id]) != user ==> id in r && r[id] == a[id]
  {
  }

  /** When the loops start with no record of the user, every record of the user at their
      end is new. */
  lemma OnlyNewForUser<V>(start: map<nat, V>, r: map<nat, V>, owner: V -> nat, user: nat, next: nat)
    requires forall id :: id in start ==> owner(start[id]) != user
    requires OnlyUserChanges(start, r, owner, user) && NewAbove(start, r, next)
    ensures forall id :: id in r && owner(r[id]) == user ==> id >= next
  {
  }

  /** The remapped import on a linked store keeps it linked and changes only the user's
      records from where the loops start; under merge, no record of the user is removed. */
  lemma ImportChangesOnlyUser(s: Store, user: nat, mode: Mode, tasks: seq<ST.Task>,
                              habits: seq<HabitIn>, occurrences: seq<SH.Occurrence>)
    requires ValidStore(s) && Linked(s)
    ensures var r := Import(HttpPost, s, user, mode, tasks, habits, occurrences).1;
      && Linked(r)
      && ChangesOnlyUser(ImportStart(s, user, mode), r, user)
      && (mode != Overwrite ==> ChangesOnlyUser(s, r, user))
  {
    ImportPassesFacts(s, user, mode, tasks, habits, occurrences, true);
  }

  /** The remapped import leaves every record of every other user as it was. */
  lemma ImportKeepsOthers(s: Store, user: nat, mode: Mode, tasks: seq<ST.Task>,
                          habits: seq<HabitIn>, occurrences: seq<SH.Occurrence>)
    requires ValidStore(s) && Linked(s)
    ensures var r := Import(HttpPost, s, user, mode, tasks, habits, occurrences).1;
      && (forall id :: id in s.tasks && s.tasks[id].userId != user ==> id in r.tasks && r.tasks[id] == s.tasks[id])
      && (forall id :: id in s.habits && s.habits[id].userId != user ==> id in r.habits && r.habits[id] == s.habits[id])
      && (forall id :: id in s.occurrences && s.occurrences[id].userId != user ==>
            id in r.occurrences && r.occurrences[id] == s.occurrences[id])
  {
    var start := ImportStart(s, user, mode);
    var r := Import(HttpPost, s, user, mode, tasks, habits, occurrences).1;
    ImportChangesOnlyUser(s, user, mode, tasks, habits, occurrences);
    StartKeepsOthers(s, user, mode);
    KeptThrough(s, start, r, user);
  }

  /** A record of another user that the start keeps and the loops leave alone is kept. */
  lemma KeptThrough(s: Store, start: Store, r: Store, user: nat)
    requires forall id :: id in s.tasks && TaskOwner(s.tasks[id]) != user ==> id in start.tasks && start.tasks[id] == s.tasks[id]
    requires forall id :: id in s.habits && HabitOwner(s.habits[id]) != user ==> id in start.habits && start.habits[id] == s.habits[id]
    requires forall id :: id in s.occurrences && OccurrenceOwner(s.occurrences[id]) != user ==>
      id in start.occurrences && start.occurrences[id] == s.occurrences[id]
    requires ChangesOnlyUser(start, r, user)
    ensures forall id :: id in s.tasks && s.tasks[id].userId != user ==> id in r.tasks && r.tasks[id] == s.tasks[id]
    ensures forall id :: id in s.habits && s.habits[id].userId != user ==> id in r.habits && r.habits[id] == s.habits[id]
    ensures forall id :: id in s.occurrences && s.occurrences[id].userId != user ==>
      id in r.occurrences && r.occurrences[id] == s.occurrences[id]
  {
    OthersKept(s.tasks, start.tasks, r.tasks, TaskOwner, user);
    OthersKept(s.habits, start.habits, r.habits, HabitOwner, user);
    OthersKept(s.occurrences, start.occurrences, r.occurrences, OccurrenceOwner, user);
  }

  /** After a remapped overwrite every record of the user is one the import inserted: its id
      is at least the counter the import started from. */
  lemma OverwriteReplacesUserRecords(s: Store, user: nat, tasks: seq<ST.Task>, habits: seq<HabitIn>,
                                     occurrences: seq<SH.Occurrence>)
    requires ValidStore(s) && Linked(s)
    ensures var r := Import(HttpPost, s, user, Overwrite, tasks, habits, occurrences).1;
      && (forall id :: id in r.tasks && r.tasks[id].userId == user ==> id >= s.nextTask)
      && (forall id :: id in r.habits && r.habits[id].userId == user ==> id >= s.nextHabit)
      && (forall id :: id in r.occurrences && r.occurrences[id].userId == user ==> id >= s.nextOccurrence)
  {
    var start := ClearUser(s, user);
    var r := Import(HttpPost, s, user, Overwrite, tasks, habits, occurrences).1;
    ImportChangesOnlyUser(s, user, Overwrite, tasks, habits, occurrences);
    OnlyNewForUser(start.tasks, r.tasks, TaskOwner, user, s.nextTask);
    OnlyNewForUser(start.habits, r.habits, HabitOwner, user, s.nextHabit);
    OnlyNewForUser(start.occurrences, r.occurrences, OccurrenceOwner, user, s.nextOccurrence);
  }

  /** As written, a user who overwrites with their own export gets their habits back under
      new ids while each occurrence keeps the exported id of a habit the overwrite deleted:
      the reply counts it, and the store is no longer linked. */
  lemma AsWrittenOverwriteOrphans(s: Store, user: nat, h: nat, day: int, completed: bool)
    requires ValidStore(s) && Linked(s)
    requires h in s.habits && s.habits[h].userId == user && T.Trim(s.habits[h].title) != ""
    ensures var o := SH.Occurrence(h, user, Some(day), completed);
      var res := ImportAsWritten(HttpPost, s, user, Overwrite, [], [HabitIn(h, s.habits[h])], [o]);
      && res.0 == Ok(200, Results(0, 1, 1))
      && s.nextOccurrence in res.1.occurrences && res.1.occurrences[s.nextOccurrence] == o
      && h !in res.1.habits && !Linked(res.1)
  {
    var o := SH.Occurrence(h, user, Some(day), completed);
    var start := ClearUser(s, user);
    OverwriteHabitPass(s, user, h);
    var p1 := FirstPasses(s, user, Overwrite, [], [HabitIn(h, s.habits[h])]);
    assert PairMatches(p1.store.occurrences, h, Some(day)) == {};
    var p2 := OccurrenceStep(p1, user, Overwrite, o, false);
    assert p2 == p1.(store := p1.store.(occurrences := start.occurrences[s.nextOccurrence := o],
                                        nextOccurrence := s.nextOccurrence + 1),
                     results := Results(0, 1, 1));
    assert OccurrencesFrom(p1, user, Overwrite, [o], false) == OccurrencesFrom(p2, user, Overwrite, [], false);
  }

  /** Overwriting with one habit of the user's export and no task re-creates that habit under
      the next id and maps its exported id there. */
  lemma OverwriteHabitPass(s: Store, user: nat, h: nat)
    requires h in s.habits && T.Trim(s.habits[h].title) != ""
    ensures var start := ClearUser(s, user);
      FirstPasses(s, user, Overwrite, [], [HabitIn(h, s.habits[h])])
        == Progress(start.(habits := start.habits[s.nextHabit := OwnedHabit(s.habits[h], user)],
                           nextHabit := s.nextHabit + 1),
                    map[h := s.nextHabit], Results(0, 1, 0), None)
  {
    var start := ClearUser(s, user);
    var p0 := Progress(start, map[], Results(0, 0, 0), None);
    assert TasksFrom(p0, user, Overwrite, []) == p0;
    var hs := [HabitIn(h, s.habits[h])];
    var p1 := HabitStep(p0, user, Overwrite, hs[0]);
    assert p1 == p0.(store := start.(habits := start.habits[s.nextHabit := OwnedHabit(s.habits[h], user)],
                                     nextHabit := s.nextHabit + 1),
                     idMap := map[h := s.nextHabit], results := Results(0, 1, 0));
    assert HabitsFrom(p0, user, Overwrite, hs) == HabitsFrom(p1, user, Overwrite, hs[1..]) == p1;
  }

  /** As written, a user who imports in merge mode an occurrence exported by another user
      takes that user's occurrence over: the filter names no user, and the update re-owns the
      record, which is then no longer linked to a habit of its owner. */
  lemma AsWrittenMergeTakesOver(s: Store, user: nat, id: nat)
    requires ValidStore(s) && Linked(s)
    requires id in s.occurrences && s.occurrences[id].userId != user && s.occurrences[id].dateUTC.Some?
    ensures var o := s.occurrences[id];
      var res := ImportAsWritten(HttpPost, s, user, Merge, [], [], [o]);
      && res.0 == Ok(200, Results(0, 0, 1))
      && id in res.1.occurrences && res.1.occurrences[id] == o.(userId := user)
      && !Linked(res.1)
  {
    var o := s.occurrences[id];
    var p0 := Progress(s, map[], Results(0, 0, 0), None);
    assert TasksFrom(p0, user, Merge, []) == p0;
    assert HabitsFrom(p0, user, Merge, []) == p0;
    var matches := PairMatches(s.occurrences, o.habitId, o.dateUTC);
    assert matches == {id} by {
      forall j | j in matches
        ensures j == id
      {
      }
    }
    var p2 := OccurrenceStep(p0, user, Merge, o, false);
    assert p2 == p0.(store := s.(occurrences := s.occurrences[id := o.(userId := user)]),
                     results := Results(0, 0, 1));
    assert OccurrencesFrom(p0, user, Merge, [o], false) == OccurrencesFrom(p2, user, Merge, [], false);
    assert s.habits[o.habitId].userId != user;
  }

  // GET and PUT /api/settings/preferences

  /** The user's stored document, or the schema's defaults a create or an upsert starts from. */
  function PreferencesOf(prefs: map<nat, map<string, P.Json>>, defaults: map<string, P.Json>, user: nat): map<string, P.Json> {
    if user in prefs then prefs[user] else defaults
  }

  /** PUT: `{ $set: flattenForUpdate(body) }` on that document. */
  function PutPreferences(prefs: map<nat, map<string, P.Json>>, defaults: map<string, P.Json>, user: nat,
                          body: seq<P.Member>): map<string, P.Json>
  {
    P.SetPaths(PreferencesOf(prefs, defaults, user), P.Flatten(body, "", map[]))
  }

  /** A PUT writes every leaf of the body under its dotted path, never a nested object,
      and keeps every other path of the document as it was. */
  lemma PutWritesEveryLeaf(prefs: map<nat, map<string, P.Json>>, defaults: map<string, P.Json>, user: nat,
                           body: seq<P.Member>)
    ensures var doc := PreferencesOf(prefs, defaults, user);
      var r := PutPreferences(prefs, defaults, user, body);
      && (forall k :: k in P.LeafPaths(body, "") ==> k in r && P.HasLeaf(body, "", k, r[k]) && !P.IsPlainObject(r[k]))
      && (forall k :: k in r && k !in P.LeafPaths(body, "") ==> k in doc && r[k] == doc[k])
  {
    P.FlattenMeaning(body, "", map[]);
    var flat := P.Flatten(body, "", map[]);
    forall k | k in P.LeafPaths(body, "")
      ensures !P.IsPlainObject(flat[k])
    {
      P.FlattenWritesLeaves(body, k);
    }
  }

  /** Sending the same PUT twice leaves the document as the first left it. */
  lemma PutIdempotent(prefs: map<nat, map<string, P.Json>>, defaults: map<string, P.Json>, user: nat,
                      body: seq<P.Member>)
    ensures var once := PutPreferences(prefs, defaults, user, body);
      PutPreferences(prefs[user := once], defaults, user, body) == once
  {
    P.SetPathsIdempotent(PreferencesOf(prefs, defaults, user), P.Flatten(body, "", map[]));
  }

  /** The collections and the preferences of the serverless deployment. */
  class ServerlessSettingsStore {
    var tasks: map<nat, ST.Task>
    var habits: map<nat, SH.Habit>
    var occurrences: map<nat, SH.Occurrence>
    var nextTask: nat
    var nextHabit: nat
    var nextOccurrence: nat
    var prefs: map<nat, map<string, P.Json>>
    /** The document `UserPreferences.create({ userId })` makes: the schema's defaults. */
    const defaults: map<string, P.Json>

    function State(): Store
      reads this
    {
      Store(tasks, habits, occurrences, nextTask, nextHabit, nextOccurrence)
    }

    predicate Valid()
      reads this
    {
      ValidStore(State()) && Linked(State())
    }

    constructor (defaults: map<string, P.Json>)
      ensures Valid() && State() == Store(map[], map[], map[], 0, 0, 0)
      ensures prefs == map[] && this.defaults == defaults
    {
      tasks := map[];
      habits := map[];
      occurrences := map[];
      nextTask := 0;
      nextHabit := 0;
      nextOccurrence := 0;
      prefs := map[];
      this.defaults := defaults;
    }

    /** POST /api/settings/import, with the occurrences remapped. */
    method ImportData(verb: Verb, user: nat, mode: Mode, tasksIn: seq<ST.Task>, habitsIn: seq<HabitIn>,
                      occurrencesIn: seq<SH.Occurrence>) returns (reply: Reply<Results>)
      requires Valid()
      modifies this
      ensures (reply, State()) == Import(verb, old(State()), user, mode, tasksIn, habitsIn, occurrencesIn)
      ensures Valid() && prefs == old(prefs)
    {
      if verb != HttpPost {
        return Err(405, MethodNotAllowedMessage);
      }
      ImportOutcome(true, verb, State(), user, mode, tasksIn, habitsIn, occurrencesIn);
      ImportChangesOnlyUser(State(), user, mode, tasksIn, habitsIn, occurrencesIn);
      if mode == Overwrite {
        DeleteUserRecords(user);
      }
      var results, error := ImportTasks(user, mode, tasksIn);
      if error.Some? {
        return Err(500, error.value);
      }
      var idMap;
      idMap, results, error := ImportHabits(user, mode, results, habitsIn);
      if error.Some? {
        return Err(500, error.value);
      }
      results := ImportOccurrences(user, mode, idMap, results, occurrencesIn);
      reply := Ok(200, results);
    }

    /** The three `deleteMany({ userId })`. */
    method DeleteUserRecords(user: nat)
      modifies this
      ensures State() == ClearUser(old(State()), user)
      ensures prefs == old(prefs)
    {
      tasks := map id | id in tasks && tasks[id].userId != user :: tasks[id];
      habits := map id | id in habits && habits[id].userId != user :: habits[id];
      occurrences := map id | id in occurrences && occurrences[id].userId != user :: occurrences[id];
    }

    /** The tasks loop. */
    method ImportTasks(user: nat, mode: Mode, ts: seq<ST.Task>) returns (results: Results, error: Option<string>)
      modifies this
      ensures Progress(State(), map[], results, error)
           == TasksFrom(Progress(old(State()), map[], Results(0, 0, 0), None), user, mode, ts)
      ensures prefs == old(prefs)
    {
      results := Results(0, 0, 0);
      error := None;
      var i := 0;
      while i < |ts|
        invariant 0 <= i <= |ts|
        invariant prefs == old(prefs)
        invariant TasksFrom(Progress(State(), map[], results, None), user, mode, ts[i..])
               == TasksFrom(Progress(old(State()), map[], Results(0, 0, 0), None), user, mode, ts)
      {
        var t := ts[i];
        assert ts[i..][0] == t && ts[i..][1..] == ts[i + 1..];
        ghost var before := Progress(State(), map[], results, None);
        var found := if mode == Merge then Least(TaskMatches(tasks, user, t)) else None;
        if mode != Merge && T.Trim(t.title) == "" {
          error := Some(ST.ValidationMessage);
          assert TaskStep(before, user, mode, t) == before.(error := error);
          return;
        }
        if found.Some? {
          var doc := UpdatedTask(tasks[found.value], t, user);
          if ST.Collides(tasks, found.value, doc) {
            error := Some(ST.DuplicateKeyMessage);
            assert TaskStep(before, user, mode, t) == before.(error := error);
            return;
          }
          tasks := tasks[found.value := doc];
        } else {
          var doc := OwnedTask(t, user);
          if ST.Collides(tasks, nextTask, doc) {
            error := Some(ST.DuplicateKeyMessage);
            assert TaskStep(before, user, mode, t) == before.(error := error);
            return;
          }
          tasks := tasks[nextTask := doc];
          nextTask := nextTask + 1;
        }
        results := results.(tasks := results.tasks + 1);
        assert TaskStep(before, user, mode, t) == Progress(State(), map[], results, None);
        i := i + 1;
      }
      assert ts[i..] == [];
    }

    /** The habits loop. */
    method ImportHabits(user: nat, mode: Mode, counted: Results, hs: seq<HabitIn>)
      returns (idMap: map<nat, nat>, results: Results, error: Option<string>)
      modifies this
      ensures Progress(State(), idMap, results, error)
           == HabitsFrom(Progress(old(State()), map[], counted, None), user, mode, hs)
      ensures prefs == old(prefs)
    {
      idMap := map[];
      results := counted;
      error := None;
      var i := 0;
      while i < |hs|
        invariant 0 <= i <= |hs|
        invariant prefs == old(prefs) && error.None?
        invariant HabitsFrom(Progress(State(), idMap, results, None), user, mode, hs[i..])
               == HabitsFrom(Progress(old(State()), map[], counted, None), user, mode, hs)
      {
        HabitsFromStep(Progress(State(), idMap, results, None), user, mode, hs, i);
        idMap, results, error := ImportHabit(user, mode, idMap, results, hs[i]);
        if error.Some? {
          HabitsFromStopped(Progress(State(), idMap, results, error), user, mode, hs[i + 1..]);
          return;
        }
        i := i + 1;
      }
      assert hs[i..] == [];
    }

    /** One pass of the habits loop: HabitStep on the current store. */
    method ImportHabit(user: nat, mode: Mode, idMap0: map<nat, nat>, counted: Results, h: HabitIn)
      returns (idMap: map<nat, nat>, results: Results, error: Option<string>)
      modifies this
      ensures Progress(State(), idMap, results, error)
           == HabitStep(Progress(old(State()), idMap0, counted, None), user, mode, h)
      ensures prefs == old(prefs)
    {
      ghost var before := Progress(State(), idMap0, counted, None);
      idMap, results, error := idMap0, counted, None;
      var found := if mode == Merge then Least(HabitMatches(habits, user, h.habit.title)) else None;
      if found.Some? {
        habits := habits[found.value := OwnedHabit(h.habit, user)];
        idMap := idMap[h.oldId := found.value];
      } else if mode != Merge && T.Trim(h.habit.title) == "" {
        error := Some(HabitValidationMessage);
        assert HabitStep(before, user, mode, h) == before.(error := error);
        return;
      } else {
        habits := habits[nextHabit := OwnedHabit(h.habit, user)];
        idMap := idMap[h.oldId := nextHabit];
        nextHabit := nextHabit + 1;
      }
      results := results.(habits := results.habits + 1);
      assert HabitStep(before, user, mode, h) == Progress(State(), idMap, results, None);
    }

    /** The occurrences loop, each write in a `try` whose `catch` skips the occurrence. */
    method ImportOccurrences(user: nat, mode: Mode, idMap: map<nat, nat>, counted: Results, os: seq<SH.Occurrence>)
      returns (results: Results)
      modifies this
      ensures Progress(State(), idMap, results, None)
           == OccurrencesFrom(Progress(old(State()), idMap, counted, None), user, mode, os, true)
      ensures prefs == old(prefs)
    {
      results := counted;
      var i := 0;
      while i < |os|
        invariant 0 <= i <= |os|
        invariant prefs == old(prefs)
        invariant OccurrencesFrom(Progress(State(), idMap, results, None), user, mode, os[i..], true)
               == OccurrencesFrom(Progress(old(State()), idMap, counted, None), user, mode, os, true)
      {
        var o := os[i];
        assert os[i..][0] == o && os[i..][1..] == os[i + 1..];
        ghost var before := Progress(State(), idMap, results, None);
        i := i + 1;
        if o.habitId !in idMap {
          continue;
        }
        var doc := o.(habitId := idMap[o.habitId], userId := user);
        var matches := PairMatches(occurrences, doc.habitId, doc.dateUTC);
        var found := if mode == Merge then Least(matches) else None;
        if found.Some? {
          occurrences := occurrences[found.value := doc];
        } else if matches != {} {
          continue;
        } else {
          occurrences := occurrences[nextOccurrence := doc];
          nextOccurrence := nextOccurrence + 1;
        }
        results := results.(occurrences := results.occurrences + 1);
        assert OccurrenceStep(before, user, mode, o, true) == Progress(State(), idMap, results, None);
      }
      assert os[i..] == [];
    }

    /** /api/settings/preferences: GET finds the user's document or creates it from the
        defaults, PUT writes the body's leaves into it (creating it if need be) and returns
        the new document; any other method gets 405. */
    method Preferences(verb: Verb, user: nat, body: seq<P.Member>) returns (reply: Reply<map<string, P.Json>>)
      modifies this
      ensures State() == old(State())
      ensures verb == HttpGet ==>
        && reply == Ok(200, PreferencesOf(old(prefs), defaults, user))
        && prefs == old(prefs)[user := PreferencesOf(old(prefs), defaults, user)]
      ensures verb == HttpPut ==>
        && reply == Ok(200, PutPreferences(old(prefs), defaults, user, body))
        && prefs == old(prefs)[user := PutPreferences(old(prefs), defaults, user, body)]
      ensures verb != HttpGet && verb != HttpPut ==> reply == Err(405, MethodNotAllowedMessage) && prefs == old(prefs)
    {
      if verb == HttpGet {
        if user !in prefs {
          prefs := prefs[user := defaults];
        }
        return Ok(200, prefs[user]);
      }
      if verb == HttpPut {
        var flat := P.FlattenForUpdate(body, "", map[]);
        var doc := P.SetPaths(PreferencesOf(prefs, defaults, user), flat);
        prefs := prefs[user := doc];
        return Ok(200, doc);
      }
      reply := Err(405, MethodNotAllowedMessage);
    }
  }
}
