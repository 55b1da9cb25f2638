/**
 * The dashboard summary route: which habits are due on a day, the activity heatmap merged
 * from the per-day task and habit counts, the pending daily tasks with their overdue flag,
 * and the habits still to complete today.
 */
module Dashboard {
  import opened Outcomes
  import opened Sorting
  import opened Calendar
  import H = Habits
  import T = TaskModel

  // Today

  /** "Today" of a request: the queried date when it parses, otherwise the current instant,
      truncated to UTC midnight. `query` is the instant `new Date(req.query.date)` gives, or
      None when the parameter is absent or no date. */
  function RequestToday(query: Option<int>, nowMs: int): (r: int)
    ensures r % MsPerDay == 0
    ensures query.Some? ==> r <= query.value < r + MsPerDay
    ensures query.None? ==> r <= nowMs < r + MsPerDay
  {
    MidnightOf(if query.Some? then query.value else nowMs)
  }

  /** A query that already names a midnight is kept as it is, whatever the clock says. */
  lemma RequestTodayKeepsMidnight(ms: int, now1: int, now2: int)
    requires ms % MsPerDay == 0
    ensures RequestToday(Some(ms), now1) == ms
    ensures RequestToday(Some(ms), now1) == RequestToday(Some(ms), now2)
  {
    var d := ms / MsPerDay;
    assert ms == d * MsPerDay;
    assert DayOf(ms) == d;
  }

  // isHabitDue

  /** isHabitDue(habit, date) on the day `day`, in UTC: never before the start day; daily
      always; every other day and weekly on multiples of 2 and 7 days from the start; custom on
      multiples of `intervalDays || 1` (JavaScript's `%`, so a negative interval acts as its
      magnitude); monthly on the start's day of the month; yearly on its day and month. */
  predicate IsHabitDue(habit: H.Habit, day: int) {
    var start := DayOf(habit.startMs);
    var diff := day - start;
    if diff < 0 then false
    else match habit.frequency
      case Daily => true
      case EveryOtherDay => diff % 2 == 0
      case Weekly => diff % 7 == 0
      case Custom => JsRem(diff, H.AsWrittenInterval(habit.intervalDays)) == 0
      case Monthly => SameDayOfMonth(day, start)
      case Yearly => SameDayOfMonth(day, start) && CivilFromDays(day).month == CivilFromDays(start).month
  }

  /** `current.getDate() === start.getDate()`. */
  predicate SameDayOfMonth(d1: int, d2: int) {
    CivilFromDays(d1).day == CivilFromDays(d2).day
  }

  /** No habit is due before the day it starts, and every habit is due on that day. */
  lemma DueFromStart(habit: H.Habit, day: int)
    ensures day < DayOf(habit.startMs) ==> !IsHabitDue(habit, day)
    ensures IsHabitDue(habit, DayOf(habit.startMs))
  {
  }

  /** A daily habit is due exactly on the days from its start on. */
  lemma DailyDue(habit: H.Habit, day: int)
    requires habit.frequency == H.Daily
    ensures IsHabitDue(habit, day) <==> DayOf(habit.startMs) <= day
  {
  }

  /** An every-other-day habit alternates: of two consecutive days from its start on, exactly
      one is due. */
  lemma EveryOtherDayAlternates(habit: H.Habit, day: int)
    requires habit.frequency == H.EveryOtherDay && DayOf(habit.startMs) <= day
    ensures IsHabitDue(habit, day) != IsHabitDue(habit, day + 1)
  {
    var diff := day - DayOf(habit.startMs);
    assert diff % 2 == 0 <==> (diff + 1) % 2 == 1;
  }

  /** A weekly habit is due exactly on the days from its start on that fall on the start's
      weekday. */
  lemma WeeklyDue(habit: H.Habit, day: int)
    requires habit.frequency == H.Weekly
    ensures IsHabitDue(habit, day) <==>
      DayOf(habit.startMs) <= day && Weekday(day) == Weekday(DayOf(habit.startMs))
  {
    var start := DayOf(habit.startMs);
    if start <= day {
      var q, r := (start + 4) / 7, (start + 4) % 7;
      assert day + 4 == (q + (day - start) / 7) * 7 + r + (day - start) % 7;
      if r + (day - start) % 7 >= 7 {
        assert day + 4 == (q + (day - start) / 7 + 1) * 7 + (r + (day - start) % 7 - 7);
      }
    }
  }

  /** A custom habit is due on the days from its start on whose distance from the start is a
      multiple of the interval's magnitude, a missing or zero interval counting as 1. */
  lemma CustomDue(habit: H.Habit, day: int)
    requires habit.frequency == H.Custom
    ensures var k := H.AsWrittenInterval(habit.intervalDays);
      IsHabitDue(habit, day) <==> DayOf(habit.startMs) <= day && (day - DayOf(habit.startMs)) % Abs(k) == 0
  {
    var k := H.AsWrittenInterval(habit.intervalDays);
    var diff := day - DayOf(habit.startMs);
    if diff >= 0 && k < 0 {
      NegatedDivisor(diff, -k);
    }
  }

  /** Dividing by -n leaves the same Euclidean remainder as dividing by n. */
  lemma NegatedDivisor(a: int, n: int)
    requires n > 0
    ensures a % (-n) == a % n
  {
    var q := a / n;
    assert a == (-q) * (-n) + a % n;
  }

  /** Two days of the same month on which a monthly habit is due are the same day. */
  lemma MonthlyDueOncePerMonth(habit: H.Habit, d1: int, d2: int)
    requires habit.frequency == H.Monthly
    requires IsHabitDue(habit, d1) && IsHabitDue(habit, d2)
    requires CivilFromDays(d1).year == CivilFromDays(d2).year && CivilFromDays(d1).month == CivilFromDays(d2).month
    ensures d1 == d2
  {
    CivilInjective(d1, d2);
  }

  /** A monthly habit whose start day of the month is past the length of a month is not due
      on any day of that month: a habit started on the 31st skips every shorter month. */
  lemma MonthlyDueSkipsShortMonths(habit: H.Habit, day: int)
    requires habit.frequency == H.Monthly
    requires CivilFromDays(DayOf(habit.startMs)).day > DaysInMonth(CivilFromDays(day).year, CivilFromDays(day).month)
    ensures !IsHabitDue(habit, day)
  {
  }

  /** Two days of the same year on which a yearly habit is due are the same day. */
  lemma YearlyDueOncePerYear(habit: H.Habit, d1: int, d2: int)
    requires habit.frequency == H.Yearly
    requires IsHabitDue(habit, d1) && IsHabitDue(habit, d2)
    requires CivilFromDays(d1).year == CivilFromDays(d2).year
    ensures d1 == d2
  {
    CivilInjective(d1, d2);
  }

  // Activity heatmap

  /** One group of an aggregation by day: the day and its count. */
  datatype DayCount = DayCount(date: int, count: nat)

  /** One entry of the heatmap. */
  datatype Activity = Activity(date: int, taskCount: nat, habitCount: nat)

  /** What `existing.xCount = item.count` leaves for a day after a pass over the items: the
      count of the last item of that day, or the initial 0 when there is none. */
  function LastCount(items: seq<DayCount>, d: int): nat {
    if |items| == 0 then 0
    else if items[|items| - 1].date == d then items[|items| - 1].count
    else LastCount(items[..|items| - 1], d)
  }

  /** The count is 0 for a day no item has, and otherwise the count of the last item of
      that day. */
  lemma {:induction false} LastCountMeaning(items: seq<DayCount>, d: int)
    ensures (forall i :: 0 <= i < |items| ==> items[i].date != d) ==> LastCount(items, d) == 0
    ensures (exists i :: 0 <= i < |items| && items[i].date == d) ==>
      exists i :: 0 <= i < |items| && items[i].date == d && LastCount(items, d) == items[i].count
        && forall j :: i < j < |items| ==> items[j].date != d
  {
    if |items| > 0 && items[|items| - 1].date != d {
      var rest := items[..|items| - 1];
      LastCountMeaning(rest, d);
      assert forall i :: 0 <= i < |rest| ==> rest[i] == items[i];
    }
  }

  /** The keys of a `Map` after setting each item's day in turn, in insertion order: a day is
      appended the first time it is set. */
  function AddDates(order: seq<int>, items: seq<DayCount>): (r: seq<int>)
    ensures forall d :: d in r <==> d in order || exists i :: 0 <= i < |items| && items[i].date == d
    ensures Distinct(order) ==> Distinct(r)
    ensures |r| >= |order| && r[..|order|] == order
  {
    if |items| == 0 then order
    else
      var rest := items[..|items| - 1];
      var o := AddDates(order, rest);
      var d := items[|items| - 1].date;
      assert forall i :: 0 <= i < |rest| ==> rest[i] == items[i];
      if d in o then o
      else
        assert (o + [d])[..|order|] == o[..|order|];
        o + [d]
  }

  /** The days of the heatmap: the days of the task groups, then the new days of the habit
      groups, each once, in the order `Map` keeps them. */
  function HeatmapDates(taskActivity: seq<DayCount>, habitActivity: seq<DayCount>): seq<int> {
    AddDates(AddDates([], taskActivity), habitActivity)
  }

  /** The activity map: one pass over the task groups setting `taskCount`, one over the habit
      groups setting `habitCount`, each starting from zero counts for a day not yet in the map;
      then the values in insertion order. Each day of either side appears once, with the other
      side's count 0 when that side has no group for it. */
  method BuildHeatmap(taskActivity: seq<DayCount>, habitActivity: seq<DayCount>) returns (heatmap: seq<Activity>)
    ensures |heatmap| == |HeatmapDates(taskActivity, habitActivity)|
    ensures forall i :: 0 <= i < |heatmap| ==>
      var d := HeatmapDates(taskActivity, habitActivity)[i];
      heatmap[i] == Activity(d, LastCount(taskActivity, d), LastCount(habitActivity, d))
  {
    var entries, order := SetTaskCounts(taskActivity);
    entries, order := SetHabitCounts(taskActivity, habitActivity, entries, order);
    heatmap := seq(|order|, k requires 0 <= k < |order| => entries[order[k]]);
  }

  /** The pass over the task groups, from an empty map. */
  method SetTaskCounts(taskActivity: seq<DayCount>) returns (entries: map<int, Activity>, order: seq<int>)
    ensures order == AddDates([], taskActivity)
    ensures forall d :: d in entries <==> d in order
    ensures forall d :: d in entries ==> entries[d] == Activity(d, LastCount(taskActivity, d), 0)
  {
    entries, order := map[], [];
    var i := 0;
    while i < |taskActivity|
      invariant 0 <= i <= |taskActivity|
      invariant order == AddDates([], taskActivity[..i])
      invariant forall d :: d in entries <==> d in order
      invariant forall d :: d in entries ==> entries[d] == Activity(d, LastCount(taskActivity[..i], d), 0)
    {
      var item := taskActivity[i];
      var existing := if item.date in entries then entries[item.date] else Activity(item.date, 0, 0);
      if item.date !in entries {
        order := order + [item.date];
      }
      entries := entries[item.date := existing.(taskCount := item.count)];
      SetStep([], taskActivity, i);
      i := i + 1;
    }
    assert taskActivity[..i] == taskActivity;
  }

  /** The pass over the habit groups, on the map the task pass left. */
  method SetHabitCounts(taskActivity: seq<DayCount>, habitActivity: seq<DayCount>,
                        entries0: map<int, Activity>, order0: seq<int>) returns (entries: map<int, Activity>, order: seq<int>)
    requires order0 == AddDates([], taskActivity)
    requires forall d :: d in entries0 <==> d in order0
    requires forall d :: d in entries0 ==> entries0[d] == Activity(d, LastCount(taskActivity, d), 0)
    ensures order == HeatmapDates(taskActivity, habitActivity)
    ensures forall d :: d in entries <==> d in order
    ensures forall d :: d in entries ==> entries[d] == Activity(d, LastCount(taskActivity, d), LastCount(habitActivity, d))
  {
    entries, order := entries0, order0;
    var j := 0;
    while j < |habitActivity|
      invariant 0 <= j <= |habitActivity|
      invariant order == AddDates(order0, habitActivity[..j])
      invariant forall d :: d in entries <==> d in order
      invariant forall d :: d in entries ==>
        entries[d] == Activity(d, LastCount(taskActivity, d), LastCount(habitActivity[..j], d))
    {
      var item := habitActivity[j];
      var existing := if item.date in entries then entries[item.date] else Activity(item.date, 0, 0);
      if item.date !in entries {
        UnaddedDayHasNoCount(taskActivity, item.date);
        order := order + [item.date];
      }
      entries := entries[item.date := existing.(habitCount := item.count)];
      SetStep(order0, habitActivity, j);
      j := j + 1;
    }
    assert habitActivity[..j] == habitActivity;
  }

  /** A day the pass over the items never added has count 0. */
  lemma UnaddedDayHasNoCount(items: seq<DayCount>, d: int)
    requires d !in AddDates([], items)
    ensures LastCount(items, d) == 0
  {
    LastCountMeaning(items, d);
  }

  /** One more item: its day is appended unless already present, and its count becomes the
      last count of its day. */
  lemma SetStep(order: seq<int>, items: seq<DayCount>, i: nat)
    requires i < |items|
    ensures var o := AddDates(order, items[..i]);
      AddDates(order, items[..i + 1]) == if items[i].date in o then o else o + [items[i].date]
    ensures forall d :: LastCount(items[..i + 1], d) == if d == items[i].date then items[i].count else LastCount(items[..i], d)
  {
    var p := items[..i + 1];
    assert p[..|p| - 1] == items[..i] && p[|p| - 1] == items[i];
    forall d
      ensures LastCount(p, d) == if d == items[i].date then items[i].count else LastCount(items[..i], d)
    {
    }
  }

  /** The heatmap has one entry per day: its days are distinct, and they are exactly the days
      of the task and habit groups. */
  lemma HeatmapOnePerDay(taskActivity: seq<DayCount>, habitActivity: seq<DayCount>)
    ensures Distinct(HeatmapDates(taskActivity, habitActivity))
    ensures forall d :: d in HeatmapDates(taskActivity, habitActivity) <==>
      (exists i :: 0 <= i < |taskActivity| && taskActivity[i].date == d)
      || (exists i :: 0 <= i < |habitActivity| && habitActivity[i].date == d)
  {
  }

  // Pending tasks

  /** A pending task as the summary lists it: the selected fields and the overdue flag. */
  datatype PendingTask = PendingTask(id: nat, title: string, priority: T.Priority, section: T.Section,
                                     date: int, isOverdue: bool)

  /** The query for pending tasks: the user's incomplete daily tasks dated today or earlier. */
  predicate IsPending(t: T.Task, user: nat, today: int) {
    t.userId == user && t.scope == T.Daily && !t.completed && t.date.Some? && t.date.value <= today
  }

  datatype Row = Row(id: nat, task: T.Task)

  /** The pending tasks among `ids`, in the order of `ids`. */
  function PendingRows(tasks: map<nat, T.Task>, ids: seq<nat>, user: nat, today: int): (r: seq<Row>)
    ensures forall x :: x in r <==> x.id in ids && x.id in tasks && x.task == tasks[x.id] && IsPending(x.task, user, today)
  {
    if |ids| == 0 then []
    else
      var rest := PendingRows(tasks, ids[1..], user, today);
      if ids[0] in tasks && IsPending(tasks[ids[0]], user, today) then [Row(ids[0], tasks[ids[0]])] + rest
      else rest
  }

  /** `sort({ date: 1, priorityRank: 1 })`. */
  function PendingKey(t: T.Task): Key {
    Key(if t.date.Some? then t.date.value else 0, t.priorityRank)
  }

  function DateRankKey(): Row -> Key {
    (x: Row) => PendingKey(x.task)
  }

  /** Rows taken from distinct ids are distinct. */
  lemma {:induction false} PendingRowsDistinct(tasks: map<nat, T.Task>, ids: seq<nat>, user: nat, today: int)
    requires Distinct(ids)
    ensures Distinct(PendingRows(tasks, ids, user, today))
  {
    if |ids| > 0 {
      assert Distinct(ids[1..]) by {
        forall i, j | 0 <= i < j < |ids[1..]|
          ensures ids[1..][i] != ids[1..][j]
        {
          assert ids[1..][i] == ids[i + 1] && ids[1..][j] == ids[j + 1];
        }
      }
      PendingRowsDistinct(tasks, ids[1..], user, today);
      var rest := PendingRows(tasks, ids[1..], user, today);
      assert forall x :: x in rest ==> x.id != ids[0] by {
        forall x | x in rest
          ensures x.id != ids[0]
        {
          var k :| 0 <= k < |ids[1..]| && ids[1..][k] == x.id;
          assert ids[k + 1] == x.id;
        }
      }
      if ids[0] in tasks && IsPending(tasks[ids[0]], user, today) {
        var r := [Row(ids[0], tasks[ids[0]])] + rest;
        forall i, j | 0 <= i < j < |r|
          ensures r[i] != r[j]
        {
          if i == 0 {
            assert r[j] in rest;
          } else {
            assert r[i] == rest[i - 1] && r[j] == rest[j - 1];
          }
        }
      }
    }
  }

  function PendingOf(x: Row, today: int): PendingTask
    requires x.task.date.Some?
  {
    PendingTask(x.id, x.task.title, x.task.priority, x.task.section, x.task.date.value, x.task.date.value < today)
  }

  /** The pending tasks of the user, sorted by date and then rank, ties in the store's order. */
  function SortedPending(tasks: map<nat, T.Task>, user: nat, today: int): (r: seq<Row>)
    ensures forall x :: x in r <==> x.id in tasks && x.task == tasks[x.id] && IsPending(x.task, user, today)
    ensures forall x :: x in r ==> x.task.date.Some?
    ensures SortedBy(r, DateRankKey())
    ensures Distinct(r)
  {
    var rows := PendingRows(tasks, Ascending(tasks.Keys), user, today);
    PendingRowsDistinct(tasks, Ascending(tasks.Keys), user, today);
    SortByKeepsMembers(rows, DateRankKey());
    SortByKeepsDistinct(rows, DateRankKey());
    SortBy(rows, DateRankKey())
  }

  /** The pending-task query with `limit(n)`, each result flagged overdue when dated before
      today. The list holds at most n distinct pending tasks of the user, by date and then by
      rank, no pending task left out sorts before a listed one, and when it holds fewer than n
      it holds every one. */
  function Pending(tasks: map<nat, T.Task>, user: nat, today: int, n: nat): (r: seq<PendingTask>)
    ensures |r| <= n
    ensures forall i :: 0 <= i < |r| ==>
      r[i].id in tasks && IsPending(tasks[r[i].id], user, today) && r[i] == PendingOf(Row(r[i].id, tasks[r[i].id]), today)
    ensures forall i :: 0 <= i < |r| ==> (r[i].isOverdue <==> r[i].date < today)
    ensures forall i, j :: 0 <= i < j < |r| ==> r[i].date <= r[j].date
    ensures |r| < n ==> forall id :: id in tasks && IsPending(tasks[id], user, today) ==> exists i :: 0 <= i < |r| && r[i].id == id
    ensures forall i, j :: 0 <= i < j < |r| ==> r[i].id != r[j].id
    ensures forall i, j :: 0 <= i < j < |r| ==> KeyLe(PendingKey(tasks[r[i].id]), PendingKey(tasks[r[j].id]))
    ensures forall i, id ::
      (0 <= i < |r| && id in tasks && IsPending(tasks[id], user, today) && (forall j :: 0 <= j < |r| ==> r[j].id != id))
      ==> KeyLe(PendingKey(tasks[r[i].id]), PendingKey(tasks[id]))
  {
    PendingFacts(SortedPending(tasks, user, today), tasks, user, today, n);
    PendingEarliest(SortedPending(tasks, user, today), tasks, user, today, n);
    Listed(SortedPending(tasks, user, today), n, today)
  }

  /** The listed prefix of the distinct sorted rows repeats no task, keeps the order by date
      and rank, and every pending task after it sorts at or after each listed one. */
  lemma PendingEarliest(sorted: seq<Row>, tasks: map<nat, T.Task>, user: nat, today: int, n: nat)
    requires forall x :: x in sorted <==> x.id in tasks && x.task == tasks[x.id] && IsPending(x.task, user, today)
    requires forall x :: x in sorted ==> x.task.date.Some?
    requires SortedBy(sorted, DateRankKey())
    requires Distinct(sorted)
    ensures var r := Listed(sorted, n, today);
      && (forall i, j :: 0 <= i < j < |r| ==> r[i].id != r[j].id)
      && (forall i, j :: 0 <= i < j < |r| ==> KeyLe(PendingKey(tasks[r[i].id]), PendingKey(tasks[r[j].id])))
      && (forall i, id ::
            (0 <= i < |r| && id in tasks && IsPending(tasks[id], user, today) && (forall j :: 0 <= j < |r| ==> r[j].id != id))
            ==> KeyLe(PendingKey(tasks[r[i].id]), PendingKey(tasks[id])))
  {
    var r := Listed(sorted, n, today);
    forall i, j | 0 <= i < j < |r|
      ensures r[i].id != r[j].id
    {
      assert sorted[i] in sorted && sorted[j] in sorted;
    }
    forall i, j | 0 <= i < j < |r|
      ensures KeyLe(PendingKey(tasks[r[i].id]), PendingKey(tasks[r[j].id]))
    {
      assert sorted[i] in sorted && sorted[j] in sorted;
      assert KeyLe(DateRankKey()(sorted[i]), DateRankKey()(sorted[j]));
    }
    forall i, id | 0 <= i < |r| && id in tasks && IsPending(tasks[id], user, today)
        && (forall j :: 0 <= j < |r| ==> r[j].id != id)
      ensures KeyLe(PendingKey(tasks[r[i].id]), PendingKey(tasks[id]))
    {
      assert Row(id, tasks[id]) in sorted;
      var m :| 0 <= m < |sorted| && sorted[m] == Row(id, tasks[id]);
      forall k | 0 <= k < |r|
        ensures sorted[k].id != id
      {
        assert r[k].id == sorted[k].id;
      }
      assert |r| <= m;
      assert sorted[i] in sorted;
      assert KeyLe(DateRankKey()(sorted[i]), DateRankKey()(sorted[m]));
    }
  }

  lemma PendingFacts(sorted: seq<Row>, tasks: map<nat, T.Task>, user: nat, today: int, n: nat)
    requires forall x :: x in sorted <==> x.id in tasks && x.task == tasks[x.id] && IsPending(x.task, user, today)
    requires forall x :: x in sorted ==> x.task.date.Some?
    requires SortedBy(sorted, DateRankKey())
    ensures var r := Listed(sorted, n, today);
      && (forall i :: 0 <= i < |r| ==> r[i].id in tasks && IsPending(tasks[r[i].id], user, today) && r[i] == PendingOf(Row(r[i].id, tasks[r[i].id]), today))
      && (forall i, j :: 0 <= i < j < |r| ==> r[i].date <= r[j].date)
      && (|r| < n ==> forall id :: id in tasks && IsPending(tasks[id], user, today) ==> exists i :: 0 <= i < |r| && r[i].id == id)
  {
    var r := Listed(sorted, n, today);
    ListedSorted(sorted, n, today);
    forall i | 0 <= i < |r|
      ensures r[i].id in tasks && IsPending(tasks[r[i].id], user, today) && r[i] == PendingOf(Row(r[i].id, tasks[r[i].id]), today)
    {
      assert sorted[i] in sorted;
    }
    if |r| < n {
      forall id | id in tasks && IsPending(tasks[id], user, today)
        ensures exists i :: 0 <= i < |r| && r[i].id == id
      {
        assert Row(id, tasks[id]) in sorted;
        var i :| 0 <= i < |sorted| && sorted[i] == Row(id, tasks[id]);
        assert r[i].id == id;
      }
    }
  }

  /** The first n rows, as the summary lists them. */
  function Listed(rows: seq<Row>, n: nat, today: int): (r: seq<PendingTask>)
    requires forall x :: x in rows ==> x.task.date.Some?
    ensures |r| == if |rows| <= n then |rows| else n
    ensures forall i :: 0 <= i < |r| ==> r[i] == PendingOf(rows[i], today)
  {
    if n == 0 || |rows| == 0 then []
    else [PendingOf(rows[0], today)] + Listed(rows[1..], n - 1, today)
  }

  /** Rows sorted by date and rank are listed by date. */
  lemma ListedSorted(rows: seq<Row>, n: nat, today: int)
    requires forall x :: x in rows ==> x.task.date.Some?
    requires SortedBy(rows, DateRankKey())
    ensures var r := Listed(rows, n, today);
      forall i, j :: 0 <= i < j < |r| ==> r[i].date <= r[j].date
  {
    var r := Listed(rows, n, today);
    forall i, j | 0 <= i < j < |r|
      ensures r[i].date <= r[j].date
    {
      assert KeyLe(DateRankKey()(rows[i]), DateRankKey()(rows[j]));
    }
  }

  /** The summary lists two pending tasks. */
  const PendingLimit: nat := 2

  /** The upcoming-tasks route lists ten. */
  const UpcomingLimit: nat := 10

  /** The priority label of the upcoming-tasks route. */
  datatype Label = HighLabel | MediumLabel | LowLabel

  function LabelOf(p: T.Priority): (l: Label)
    ensures l == HighLabel <==> p == T.Critical || p == T.High
    ensures l == MediumLabel <==> p == T.Medium
  {
    if p == T.Critical || p == T.High then HighLabel
    else if p == T.Medium then MediumLabel
    else LowLabel
  }

  datatype Upcoming = Upcoming(title: string, priority: Label, isOverdue: bool)

  /** GET /dashboard/upcoming-tasks: the first ten pending tasks, labelled. */
  function UpcomingTasks(tasks: map<nat, T.Task>, user: nat, today: int): (r: seq<Upcoming>)
    ensures |r| <= UpcomingLimit
    ensures |r| == |Pending(tasks, user, today, UpcomingLimit)|
    ensures forall i :: 0 <= i < |r| ==>
      var p := Pending(tasks, user, today, UpcomingLimit)[i];
      r[i] == Upcoming(p.title, LabelOf(p.priority), p.date < today)
  {
    var p := Pending(tasks, user, today, UpcomingLimit);
    seq(|p|, i requires 0 <= i < |p| => Upcoming(p[i].title, LabelOf(p[i].priority), p[i].isOverdue))
  }

  // Habits to complete

  /** `completedHabitIds`: the habits with a completed occurrence of the user dated exactly at
      today's midnight. */
  function CompletedToday(occurrences: seq<H.Occurrence>, user: nat, todayMs: int): (ids: set<nat>)
    ensures forall id :: id in ids <==>
      exists o :: o in occurrences && o.habitId == id && o.userId == user && o.dateMs == todayMs && o.completed
  {
    set o | o in occurrences && o.userId == user && o.dateMs == todayMs && o.completed :: o.habitId
  }

  /** The active habits of the user that are due today and not completed today. */
  function ToComplete(habits: map<nat, H.Habit>, user: nat, occurrences: seq<H.Occurrence>, todayMs: int): (ids: set<nat>)
    ensures forall id :: id in ids <==>
      && id in habits && habits[id].userId == user && habits[id].active
      && IsHabitDue(habits[id], DayOf(todayMs)) && id !in CompletedToday(occurrences, user, todayMs)
  {
    set id | id in habits && habits[id].userId == user && habits[id].active
      && IsHabitDue(habits[id], DayOf(todayMs)) && id !in CompletedToday(occurrences, user, todayMs)
  }

  datatype HabitToComplete = HabitToComplete(title: string, streak: nat)

  /** The summary lists two habits to complete. */
  const HabitListLimit: nat := 2

  /** The part of the summary about habits: how many are left today, and the first two of
      them in the order they are found (id order here) with their streaks. The streaks are
      computed over the user's occurrences at the current instant `nowMs`, as `computeStreak`
      reads the clock itself, not at the queried day. */
  function HabitsToComplete(habits: map<nat, H.Habit>, user: nat, occurrences: seq<H.Occurrence>,
                            todayMs: int, nowMs: int): (r: (nat, seq<HabitToComplete>))
    ensures r.0 == |ToComplete(habits, user, occurrences, todayMs)|
    ensures |r.1| <= HabitListLimit && |r.1| <= r.0
    ensures r.0 <= HabitListLimit ==> |r.1| == r.0
    ensures r.0 >= HabitListLimit ==> |r.1| == HabitListLimit
    ensures forall i :: 0 <= i < |r.1| ==>
      exists id :: id in ToComplete(habits, user, occurrences, todayMs) && r.1[i] == Entry(habits, id, H.UserOccurrences(occurrences, user), nowMs)
    ensures var order := Ascending(ToComplete(habits, user, occurrences, todayMs));
      forall i :: 0 <= i < |r.1| ==>
        i < |order| && order[i] in habits && r.1[i] == Entry(habits, order[i], H.UserOccurrences(occurrences, user), nowMs)
  {
    var due := ToComplete(habits, user, occurrences, todayMs);
    var list := TopEntries(habits, due, H.UserOccurrences(occurrences, user), nowMs);
    assert forall i :: 0 <= i < |list| ==> Ascending(due)[i] in due;
    (|due|, list)
  }

  /** `slice(0, 2)` of the habits in id order, each mapped to its entry. */
  function TopEntries(habits: map<nat, H.Habit>, due: set<nat>, occurrences: seq<H.Occurrence>, nowMs: int): (r: seq<HabitToComplete>)
    requires forall id :: id in due ==> id in habits
    ensures |r| == if |due| <= HabitListLimit then |due| else HabitListLimit
    ensures var order := Ascending(due);
      forall i :: 0 <= i < |r| ==> i < |order| && order[i] in due && r[i] == Entry(habits, order[i], occurrences, nowMs)
  {
    var order := Ascending(due);
    AscendingLength(due);
    var top := if |order| <= HabitListLimit then order else order[..HabitListLimit];
    assert forall i :: 0 <= i < |top| ==> top[i] == order[i] && order[i] in due;
    Entries(habits, top, occurrences, nowMs)
  }

  /** The entry of a listed habit: its title and its streak. */
  function Entry(habits: map<nat, H.Habit>, id: nat, occurrences: seq<H.Occurrence>, nowMs: int): HabitToComplete
    requires id in habits
  {
    HabitToComplete(habits[id].title, H.Streak(habits[id], id, occurrences, nowMs))
  }

  function Entries(habits: map<nat, H.Habit>, ids: seq<nat>, occurrences: seq<H.Occurrence>, nowMs: int): (r: seq<HabitToComplete>)
    requires forall k :: 0 <= k < |ids| ==> ids[k] in habits
    ensures |r| == |ids|
    ensures forall k :: 0 <= k < |ids| ==> r[k] == Entry(habits, ids[k], occurrences, nowMs)
  {
    if |ids| == 0 then [] else [Entry(habits, ids[0], occurrences, nowMs)] + Entries(habits, ids[1..], occurrences, nowMs)
  }

  /** Marking a due habit done today (an occurrence dated exactly at today's midnight) takes it
      off the list, and leaves every other habit's place on it as it was. */
  lemma CompletingRemovesFromList(habits: map<nat, H.Habit>, user: nat, occurrences: seq<H.Occurrence>,
                                  todayMs: int, habitId: nat)
    ensures var after := occurrences + [H.Occurrence(habitId, user, todayMs, true)];
      ToComplete(habits, user, after, todayMs) == ToComplete(habits, user, occurrences, todayMs) - {habitId}
  {
    var after := occurrences + [H.Occurrence(habitId, user, todayMs, true)];
    assert H.Occurrence(habitId, user, todayMs, true) in after;
    assert CompletedToday(after, user, todayMs) == CompletedToday(occurrences, user, todayMs) + {habitId};
  }

  // The summary

  /** The parts of GET /dashboard/summary that the model covers. */
  datatype Summary = Summary(activityHeatmap: seq<Activity>, pendingTasks: seq<PendingTask>,
                             habitsToCompleteCount: nat, habitsToCompleteList: seq<HabitToComplete>)

  /** GET /dashboard/summary on the day of `query` (or of the clock): the heatmap from the
      two aggregations, the two first pending tasks and the habits left to complete. */
  method SummaryFor(tasks: map<nat, T.Task>, habits: map<nat, H.Habit>, occurrences: seq<H.Occurrence>,
                    user: nat, query: Option<int>, nowMs: int,
                    taskActivity: seq<DayCount>, habitActivity: seq<DayCount>) returns (s: Summary)
    ensures var todayMs := RequestToday(query, nowMs);
      var habitPart := HabitsToComplete(habits, user, occurrences, todayMs, nowMs);
      && |s.activityHeatmap| == |HeatmapDates(taskActivity, habitActivity)|
      && (forall i :: 0 <= i < |s.activityHeatmap| ==>
           var d := HeatmapDates(taskActivity, habitActivity)[i];
           s.activityHeatmap[i] == Activity(d, LastCount(taskActivity, d), LastCount(habitActivity, d)))
      && s.pendingTasks == Pending(tasks, user, DayOf(todayMs), PendingLimit)
      && s.habitsToCompleteCount == habitPart.0
      && s.habitsToCompleteList == habitPart.1
  {
    var todayMs := RequestToday(query, nowMs);
    var heatmap := BuildHeatmap(taskActivity, habitActivity);
    var habitPart := HabitsToComplete(habits, user, occurrences, todayMs, nowMs);
    s := Summary(heatmap, Pending(tasks, user, DayOf(todayMs), PendingLimit), habitPart.0, habitPart.1);
  }
}
