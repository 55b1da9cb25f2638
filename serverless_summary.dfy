/**
 * GET /api/dashboard/summary in the serverless API: today's task counts, the seven-day
 * completion trend, the habits due and completed today, the five longest streaks and the
 * ninety-day activity heatmap, all on the UTC day of the clock.
 */
module ServerlessSummary {
  import opened Outcomes
  import opened Sorting
  import opened Calendar
  import T = TaskModel
  import ST = ServerlessTasks
  import SH = ServerlessHabits

  // isHabitDueOnDate

  /** isHabitDueOnDate(habit, now), on the weekday of the UTC day of `nowMs`: daily always;
      weekdays Monday to Friday; weekends Saturday and Sunday; weekly on the weekday of the
      start date; custom on the weekdays its list names. */
  predicate IsHabitDueOnDate(habit: SH.Habit, nowMs: int) {
    var day := Weekday(DayOf(nowMs));
    match habit.frequency
    case Daily => true
    case Weekdays => 1 <= day <= 5
    case Weekends => day == 0 || day == 6
    case Weekly => day == Weekday(DayOf(habit.startMs))
    case Custom => day in habit.customDays
  }

  /** Of a weekdays habit and a weekends habit, exactly one is due on any day. */
  lemma WeekdaysAndWeekendsSplitTheWeek(a: SH.Habit, b: SH.Habit, nowMs: int)
    requires a.frequency == SH.Weekdays && b.frequency == SH.Weekends
    ensures IsHabitDueOnDate(a, nowMs) != IsHabitDueOnDate(b, nowMs)
  {
  }

  /** Due-ness depends only on the weekday: a week later every habit is due exactly when it is
      due now, so, unlike the server rule, a weekly habit is also due on the weeks before its
      start date. */
  lemma DueRepeatsWeekly(habit: SH.Habit, nowMs: int)
    ensures IsHabitDueOnDate(habit, nowMs + 7 * MsPerDay) == IsHabitDueOnDate(habit, nowMs)
    ensures habit.frequency == SH.Weekly ==> IsHabitDueOnDate(habit, habit.startMs - 7 * MsPerDay)
  {
    DayShift(nowMs, 7);
    DayShift(habit.startMs, -7);
    assert (DayOf(nowMs) + 7 + 4) % 7 == (DayOf(nowMs) + 4) % 7;
    assert (DayOf(habit.startMs) - 7 + 4) % 7 == (DayOf(habit.startMs) + 4) % 7;
  }

  /** Moving an instant by whole days moves its day by as many. */
  lemma DayShift(ms: int, k: int)
    ensures DayOf(ms + k * MsPerDay) == DayOf(ms) + k
  {
    var d := DayOf(ms);
    assert (d + k) * MsPerDay <= ms + k * MsPerDay < (d + k) * MsPerDay + MsPerDay;
  }

  /** A custom habit is due exactly on the weekdays its list names; numbers outside 0..6 in the
      list name no day. */
  lemma CustomDue(habit: SH.Habit, nowMs: int)
    requires habit.frequency == SH.Custom
    ensures IsHabitDueOnDate(habit, nowMs) <==>
      exists i :: 0 <= i < |habit.customDays| && 0 <= habit.customDays[i] < 7 && habit.customDays[i] == Weekday(DayOf(nowMs))
  {
  }

  // Task counts

  /** The user's daily tasks dated `day`. */
  function DayTasks(tasks: map<nat, ST.Task>, user: nat, day: int): set<nat> {
    set id | id in tasks && tasks[id].userId == user && tasks[id].scope == T.Daily && tasks[id].date == Some(day)
  }

  /** Those of them that are completed. */
  function DoneTasks(tasks: map<nat, ST.Task>, user: nat, day: int): (ids: set<nat>)
    ensures ids <= DayTasks(tasks, user, day)
    ensures forall id :: id in ids <==> id in DayTasks(tasks, user, day) && tasks[id].completed
  {
    set id | id in DayTasks(tasks, user, day) && tasks[id].completed
  }

  /** One day of the trend. */
  datatype TrendDay = TrendDay(date: int, completed: nat, total: nat)

  /** The trend entry of a day: its completed and total daily tasks, the first at most the
      second. */
  function TrendOn(tasks: map<nat, ST.Task>, user: nat, day: int): (t: TrendDay)
    ensures t.date == day && t.completed <= t.total
    ensures t.total == |DayTasks(tasks, user, day)| && t.completed == |DoneTasks(tasks, user, day)|
  {
    SubsetSize(DoneTasks(tasks, user, day), DayTasks(tasks, user, day));
    TrendDay(day, |DoneTasks(tasks, user, day)|, |DayTasks(tasks, user, day)|)
  }

  /** The trend: seven days, oldest first, ending today; each day holds the user's daily tasks
      dated that day and how many of them are completed. */
  function TrendOf(tasks: map<nat, ST.Task>, user: nat, today: int): (trend: seq<TrendDay>)
    ensures |trend| == 7
    ensures forall k :: 0 <= k < 7 ==> trend[k].date == today - 6 + k && trend[k].completed <= trend[k].total
    ensures forall k :: 0 <= k < 7 ==>
      trend[k].total == |DayTasks(tasks, user, today - 6 + k)| && trend[k].completed == |DoneTasks(tasks, user, today - 6 + k)|
  {
    var trend := seq(7, k => TrendOn(tasks, user, today - 6 + k));
    assert forall k :: 0 <= k < 7 ==> trend[k] == TrendOn(tasks, user, today - 6 + k);
    trend
  }

  /** `last7`: for i from 6 down to 0, the day i days before today. */
  method Trend(tasks: map<nat, ST.Task>, user: nat, today: int) returns (trend: seq<TrendDay>)
    ensures trend == TrendOf(tasks, user, today)
  {
    trend := [];
    var i := 6;
    while i >= 0
      invariant -1 <= i <= 6
      invariant |trend| == 6 - i
      invariant forall k :: 0 <= k < |trend| ==> trend[k] == TrendOn(tasks, user, today - 6 + k)
    {
      trend := trend + [TrendOn(tasks, user, today - i)];
      i := i - 1;
    }
    assert forall k :: 0 <= k < 7 ==> trend[k] == TrendOf(tasks, user, today)[k];
  }

  // Habit counts

  /** `occurrences.filter(o => o.dateUTC === key && o.completed).length`. */
  function DoneOccurrences(occurrences: seq<SH.Occurrence>, day: int): (n: nat)
    ensures n <= |occurrences|
    ensures n == 0 <==> forall i :: 0 <= i < |occurrences| ==> !(occurrences[i].dateUTC == Some(day) && occurrences[i].completed)
  {
    if |occurrences| == 0 then 0
    else
      var rest := DoneOccurrences(occurrences[1..], day);
      assert forall i :: 1 <= i < |occurrences| ==> occurrences[i] == occurrences[1..][i - 1];
      if occurrences[0].dateUTC == Some(day) && occurrences[0].completed then 1 + rest else rest
  }

  /** The active habits of the user due on the day of `nowMs`. */
  function DueHabits(habits: map<nat, SH.Habit>, user: nat, nowMs: int): (ids: set<nat>)
    ensures ids <= SH.ActiveIds(habits, user)
  {
    set id | id in SH.ActiveIds(habits, user) && IsHabitDueOnDate(habits[id], nowMs)
  }

  // Top streaks

  datatype StreakRow = StreakRow(title: string, icon: string, streak: nat)

  /** `(a, b) => b.streak - a.streak`: descending streaks, ties in their given order. */
  function DescendingStreak(): StreakRow -> Key {
    (r: StreakRow) => Key(0 - r.streak as int, 0)
  }

  /** `.sort(...).slice(0, 5)`: the five longest streaks, longest first. Every row left out has
      a streak no longer than the shortest listed one. */
  function TopStreaks(rows: seq<StreakRow>): (top: seq<StreakRow>)
    ensures |top| == if |rows| <= 5 then |rows| else 5
    ensures forall i, j :: 0 <= i < j < |top| ==> top[i].streak >= top[j].streak
    ensures multiset(top) <= multiset(rows)
    ensures |top| > 0 ==> forall x :: x in rows && x !in top ==> x.streak <= top[|top| - 1].streak
  {
    var sorted := SortBy(rows, DescendingStreak());
    SortByKeepsMembers(rows, DescendingStreak());
    TopFacts(sorted, if |sorted| <= 5 then |sorted| else 5);
    sorted[..if |sorted| <= 5 then |sorted| else 5]
  }

  /** A prefix of rows sorted by descending streak holds the longest streaks. */
  lemma TopFacts(sorted: seq<StreakRow>, n: nat)
    requires n <= |sorted|
    requires SortedBy(sorted, DescendingStreak())
    ensures var top := sorted[..n];
      && (forall i, j :: 0 <= i < j < |top| ==> top[i].streak >= top[j].streak)
      && multiset(top) <= multiset(sorted)
      && (|top| > 0 ==> forall x :: x in sorted && x !in top ==> x.streak <= top[|top| - 1].streak)
  {
    var top := sorted[..n];
    forall i, j | 0 <= i < j < |top|
      ensures top[i].streak >= top[j].streak
    {
      assert KeyLe(DescendingStreak()(sorted[i]), DescendingStreak()(sorted[j]));
    }
    if |top| > 0 {
      assert forall j :: 0 <= j < n ==> top[j] == sorted[j];
      forall x | x in sorted && x !in top
        ensures x.streak <= top[|top| - 1].streak
      {
        var k :| 0 <= k < |sorted| && sorted[k] == x;
        assert KeyLe(DescendingStreak()(sorted[n - 1]), DescendingStreak()(sorted[k]));
      }
    }
    assert sorted == top + sorted[n..];
  }

  /** The streak row of every active habit, in the order the habits are found, over the user's
      occurrences on the clock `nowMs`. */
  function StreakRows(habits: map<nat, SH.Habit>, user: nat, occurrences: seq<SH.Occurrence>, nowMs: int): (rows: seq<StreakRow>)
    ensures |rows| == |SH.ActiveHabits(habits, user)|
  {
    var ids := SH.ActiveHabits(habits, user);
    var mine := SH.UserOccurrences(occurrences, user);
    seq(|ids|, k requires 0 <= k < |ids| =>
      assert ids[k] in ids;
      StreakRow(habits[ids[k]].title, habits[ids[k]].icon, SH.Streak(ids[k], mine, nowMs)))
  }

  /** The `.map` over the habits, each streak computed by the walk. */
  method ComputeRows(habits: map<nat, SH.Habit>, user: nat, occurrences: seq<SH.Occurrence>, nowMs: int)
    returns (rows: seq<StreakRow>)
    ensures rows == StreakRows(habits, user, occurrences, nowMs)
  {
    var ids := SH.ActiveHabits(habits, user);
    var mine := SH.UserOccurrences(occurrences, user);
    rows := [];
    var i := 0;
    while i < |ids|
      invariant 0 <= i <= |ids|
      invariant |rows| == i
      invariant forall k :: 0 <= k < i ==>
        ids[k] in habits && rows[k] == StreakRow(habits[ids[k]].title, habits[ids[k]].icon, SH.Streak(ids[k], mine, nowMs))
    {
      assert ids[i] in ids;
      var s := SH.ComputeStreak(ids[i], mine, nowMs);
      rows := rows + [StreakRow(habits[ids[i]].title, habits[ids[i]].icon, s)];
      i := i + 1;
    }
  }

  // Heatmap

  datatype HeatDay = HeatDay(date: int, count: nat)

  /** The heatmap entry of a day: daily tasks completed that day plus completed occurrences
      dated that day. */
  function HeatOn(tasks: map<nat, ST.Task>, user: nat, occurrences: seq<SH.Occurrence>, day: int): (h: HeatDay)
    ensures h.date == day
    ensures h.count == |DoneTasks(tasks, user, day)| + DoneOccurrences(SH.UserOccurrences(occurrences, user), day)
  {
    HeatDay(day, |DoneTasks(tasks, user, day)| + DoneOccurrences(SH.UserOccurrences(occurrences, user), day))
  }

  /** The heatmap: ninety days, oldest first, ending today; each day counts the user's daily
      tasks completed that day plus the completed occurrences dated that day. */
  function HeatmapOf(tasks: map<nat, ST.Task>, user: nat, occurrences: seq<SH.Occurrence>, today: int): (heatmap: seq<HeatDay>)
    ensures |heatmap| == 90
    ensures forall k :: 0 <= k < 90 ==> heatmap[k].date == today - 89 + k
    ensures forall k :: 0 <= k < 90 ==>
      heatmap[k].count == |DoneTasks(tasks, user, today - 89 + k)|
        + DoneOccurrences(SH.UserOccurrences(occurrences, user), today - 89 + k)
  {
    var heatmap := seq(90, k => HeatOn(tasks, user, occurrences, today - 89 + k));
    assert forall k :: 0 <= k < 90 ==> heatmap[k] == HeatOn(tasks, user, occurrences, today - 89 + k);
    heatmap
  }

  /** The loop over the last 90 days, oldest first. */
  method Heatmap(tasks: map<nat, ST.Task>, user: nat, occurrences: seq<SH.Occurrence>, today: int)
    returns (heatmap: seq<HeatDay>)
    ensures heatmap == HeatmapOf(tasks, user, occurrences, today)
  {
    heatmap := [];
    var i := 89;
    while i >= 0
      invariant -1 <= i <= 89
      invariant |heatmap| == 89 - i
      invariant forall k :: 0 <= k < |heatmap| ==> heatmap[k] == HeatOn(tasks, user, occurrences, today - 89 + k)
    {
      heatmap := heatmap + [HeatOn(tasks, user, occurrences, today - i)];
      i := i - 1;
    }
    assert forall k :: 0 <= k < 90 ==> heatmap[k] == HeatmapOf(tasks, user, occurrences, today)[k];
  }

  // The summary

  datatype SummaryBody = SummaryBody(
    completedToday: nat, totalToday: nat, trend: seq<TrendDay>,
    dueToday: nat, habitsCompletedToday: nat, topStreaks: seq<StreakRow>,
    heatmap: seq<HeatDay>, totalTasks: nat, totalHabits: nat)

  /** The user's tasks. */
  function UserTasks(tasks: map<nat, ST.Task>, user: nat): set<nat> {
    set id | id in tasks && tasks[id].userId == user
  }

  /** The body of the summary on the UTC day of `nowMs`. */
  function SummaryOf(tasks: map<nat, ST.Task>, habits: map<nat, SH.Habit>,
                     occurrences: seq<SH.Occurrence>, user: nat, nowMs: int): SummaryBody
  {
    var today := DayOf(nowMs);
    SummaryBody(
      |DoneTasks(tasks, user, today)|, |DayTasks(tasks, user, today)|, TrendOf(tasks, user, today),
      |DueHabits(habits, user, nowMs)|, DoneOccurrences(SH.UserOccurrences(occurrences, user), today),
      TopStreaks(StreakRows(habits, user, occurrences, nowMs)), HeatmapOf(tasks, user, occurrences, today),
      |UserTasks(tasks, user)|, |SH.ActiveIds(habits, user)|)
  }

  /** GET /api/dashboard/summary; any other method gets 405. */
  method Summary(verb: Verb, tasks: map<nat, ST.Task>, habits: map<nat, SH.Habit>,
                 occurrences: seq<SH.Occurrence>, user: nat, nowMs: int) returns (reply: Reply<SummaryBody>)
    ensures verb != HttpGet ==> reply == Err(405, MethodNotAllowedMessage)
    ensures verb == HttpGet ==> reply == Ok(200, SummaryOf(tasks, habits, occurrences, user, nowMs))
  {
    if verb != HttpGet {
      return Err(405, MethodNotAllowedMessage);
    }
    var today := DayOf(nowMs);
    var trend := Trend(tasks, user, today);
    var rows := ComputeRows(habits, user, occurrences, nowMs);
    var heatmap := Heatmap(tasks, user, occurrences, today);
    SH.OneEntryPerActiveHabit(habits, user);
    reply := Ok(200, SummaryBody(
      |DoneTasks(tasks, user, today)|, |DayTasks(tasks, user, today)|, trend,
      |DueHabits(habits, user, nowMs)|, DoneOccurrences(SH.UserOccurrences(occurrences, user), today),
      TopStreaks(rows), heatmap, |UserTasks(tasks, user)|, |SH.ActiveHabits(habits, user)|));
  }

  /** The parts of the summary agree: the last trend entry is today's completed and total
      tasks, the last heatmap entry counts today's completed tasks and habits, at most five
      streaks are listed and at most as many habits are due as there are active ones. */
  lemma SummaryConsistent(tasks: map<nat, ST.Task>, habits: map<nat, SH.Habit>,
                          occurrences: seq<SH.Occurrence>, user: nat, nowMs: int)
    ensures var b := SummaryOf(tasks, habits, occurrences, user, nowMs);
      && b.trend[6] == TrendDay(DayOf(nowMs), b.completedToday, b.totalToday)
      && b.completedToday <= b.totalToday
      && b.heatmap[89] == HeatDay(DayOf(nowMs), b.completedToday + b.habitsCompletedToday)
      && |b.topStreaks| <= 5 && |b.topStreaks| <= b.totalHabits
      && b.dueToday <= b.totalHabits
  {
    SH.OneEntryPerActiveHabit(habits, user);
    SubsetSize(DueHabits(habits, user, nowMs), SH.ActiveIds(habits, user));
    var today := DayOf(nowMs);
    assert TrendOf(tasks, user, today)[6] == TrendOn(tasks, user, today);
    assert HeatmapOf(tasks, user, occurrences, today)[89] == HeatOn(tasks, user, occurrences, today);
  }

  /** A heatmap count is at least that day's completed tasks, and the habit part is at most the
      number of the user's occurrences. */
  lemma HeatBounds(tasks: map<nat, ST.Task>, user: nat, occurrences: seq<SH.Occurrence>, day: int)
    ensures TrendOn(tasks, user, day).completed <= HeatOn(tasks, user, occurrences, day).count
      <= TrendOn(tasks, user, day).total + |SH.UserOccurrences(occurrences, user)|
  {
  }
}
