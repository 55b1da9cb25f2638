/**
 * Habits and their occurrences: marking a habit done or not done on a date, deleting a
 * habit with its occurrences, and the streak of consecutive completed periods that the habit
 * controller computes by walking back from today.
 */
module Habits {
  import opened Outcomes
  import opened Sorting
  import opened Calendar

  datatype Frequency = Daily | EveryOtherDay | Weekly | Monthly | Yearly | Custom

  /** A stored habit. `startMs` is the instant of its start date. */
  datatype Habit = Habit(userId: nat, title: string, frequency: Frequency,
                         intervalDays: Option<int>, startMs: int, active: bool)

  /** A stored occurrence: the habit, its owner, the instant it is dated, and the flag. */
  datatype Occurrence = Occurrence(habitId: nat, userId: nat, dateMs: int, completed: bool)

  /** The unique index on (habitId, dateUTC): no two occurrences share habit and instant. */
  predicate UniqueOccurrences(occ: map<nat, Occurrence>) {
    forall i, j :: i in occ && j in occ && i != j ==>
      (occ[i].habitId, occ[i].dateMs) != (occ[j].habitId, occ[j].dateMs)
  }

  predicate ValidOccurrences(occ: map<nat, Occurrence>, nextId: nat) {
    (forall id :: id in occ ==> id < nextId) && UniqueOccurrences(occ)
  }

  /** The ids of the occurrences `{ habitId, userId, dateUTC }` matches. */
  function Matching(occ: map<nat, Occurrence>, habitId: nat, user: nat, dateMs: int): (ids: set<nat>)
    ensures forall id :: id in ids <==>
      id in occ && occ[id].habitId == habitId && occ[id].userId == user && occ[id].dateMs == dateMs
  {
    set id | id in occ && occ[id].habitId == habitId && occ[id].userId == user && occ[id].dateMs == dateMs
  }

  /** Under the unique index at most one occurrence matches. */
  lemma AtMostOneMatch(occ: map<nat, Occurrence>, habitId: nat, user: nat, dateMs: int, i: nat, j: nat)
    requires UniqueOccurrences(occ)
    requires i in Matching(occ, habitId, user, dateMs) && j in Matching(occ, habitId, user, dateMs)
    ensures i == j
  {
  }

  /** The document `findOne` returns for the filter: the first match in id order, if any. */
  function FirstMatch(occ: map<nat, Occurrence>, habitId: nat, user: nat, dateMs: int): (r: Option<nat>)
    ensures r.None? <==> Matching(occ, habitId, user, dateMs) == {}
    ensures r.Some? ==> r.value in Matching(occ, habitId, user, dateMs)
  {
    var ids := Ascending(Matching(occ, habitId, user, dateMs));
    if |ids| == 0 then None
    else
      assert ids[0] in ids;
      Some(ids[0])
  }

  datatype Marked = MarkedIncomplete | MarkedComplete(occurrence: Occurrence)

  const InvalidDateMessage := "Cast to date failed"
  const DuplicateOccurrenceMessage := "E11000 duplicate key error"

  /** markHabit. `date` is the instant `new Date(date)` yields, None for an invalid date, which
      fails the cast with status 400. `completed === false` deletes the matching occurrence (if
      any); any other value upserts a completed one. An upsert whose insert would reuse another
      user's (habit, instant) pair breaks the unique index and fails with status 400. */
  function Mark(occ: map<nat, Occurrence>, nextId: nat, user: nat, habitId: nat,
                date: Option<int>, completed: Option<bool>): (Reply<Marked>, map<nat, Occurrence>, nat)
  {
    if date.None? then (Err(400, InvalidDateMessage), occ, nextId)
    else
      var found := FirstMatch(occ, habitId, user, date.value);
      if completed == Some(false) then
        (Ok(200, MarkedIncomplete), if found.Some? then occ - {found.value} else occ, nextId)
      else if found.Some? then
        var updated := occ[found.value].(completed := true);
        (Ok(200, MarkedComplete(updated)), occ[found.value := updated], nextId)
      else
        var created := Occurrence(habitId, user, date.value, true);
        if exists id :: id in occ && occ[id].habitId == habitId && occ[id].dateMs == date.value then
          (Err(400, DuplicateOccurrenceMessage), occ, nextId)
        else (Ok(200, MarkedComplete(created)), occ[nextId := created], nextId + 1)
  }

  /** Marking keeps the store valid. */
  lemma MarkPreservesStore(occ: map<nat, Occurrence>, nextId: nat, user: nat, habitId: nat,
                           date: Option<int>, completed: Option<bool>)
    requires ValidOccurrences(occ, nextId)
    ensures var (_, after, next) := Mark(occ, nextId, user, habitId, date, completed);
      ValidOccurrences(after, next) && next >= nextId
  {
  }

  /** Marking complete leaves exactly one occurrence for the habit, owner and instant, completed,
      and changes no other occurrence. */
  lemma MarkCompleteKeepsOne(occ: map<nat, Occurrence>, nextId: nat, user: nat, habitId: nat, dateMs: int,
                             completed: Option<bool>)
    requires ValidOccurrences(occ, nextId)
    requires completed != Some(false)
    requires Mark(occ, nextId, user, habitId, Some(dateMs), completed).0.Ok?
    ensures var after := Mark(occ, nextId, user, habitId, Some(dateMs), completed).1;
      && (exists id :: Matching(after, habitId, user, dateMs) == {id} && after[id].completed)
      && (forall id :: id in occ && id !in Matching(occ, habitId, user, dateMs) ==> id in after && after[id] == occ[id])
  {
    var (_, after, next) := Mark(occ, nextId, user, habitId, Some(dateMs), completed);
    var found := FirstMatch(occ, habitId, user, dateMs);
    var id := if found.Some? then found.value else nextId;
    forall j | j in Matching(after, habitId, user, dateMs)
      ensures j == id
    {
      if found.Some? {
        AtMostOneMatch(occ, habitId, user, dateMs, j, id);
      }
    }
    assert Matching(after, habitId, user, dateMs) == {id};
  }

  /** Marking complete twice has the effect of marking once. */
  lemma MarkCompleteIdempotent(occ: map<nat, Occurrence>, nextId: nat, user: nat, habitId: nat, dateMs: int)
    requires ValidOccurrences(occ, nextId)
    ensures var (_, once, n1) := Mark(occ, nextId, user, habitId, Some(dateMs), Some(true));
      var (_, twice, n2) := Mark(once, n1, user, habitId, Some(dateMs), Some(true));
      twice == once && n2 == n1
  {
    var (r, once, n1) := Mark(occ, nextId, user, habitId, Some(dateMs), Some(true));
    if r.Ok? {
      MarkCompleteKeepsOne(occ, nextId, user, habitId, dateMs, Some(true));
      var id :| Matching(once, habitId, user, dateMs) == {id} && once[id].completed;
      assert FirstMatch(once, habitId, user, dateMs) == Some(id);
      assert once[id := once[id].(completed := true)] == once;
    }
  }

  /** Marking not done removes every occurrence for the habit, owner and instant, and nothing else. */
  lemma MarkIncompleteRemoves(occ: map<nat, Occurrence>, nextId: nat, user: nat, habitId: nat, dateMs: int)
    requires ValidOccurrences(occ, nextId)
    ensures var (r, after, next) := Mark(occ, nextId, user, habitId, Some(dateMs), Some(false));
      && r == Ok(200, MarkedIncomplete) && next == nextId
      && Matching(after, habitId, user, dateMs) == {}
      && (forall id :: id in occ && id !in Matching(occ, habitId, user, dateMs) ==> id in after && after[id] == occ[id])
      && (forall id :: id in after ==> id in occ)
  {
    var found := FirstMatch(occ, habitId, user, dateMs);
    if found.Some? {
      forall j | j in Matching(occ, habitId, user, dateMs)
        ensures j == found.value
      {
        AtMostOneMatch(occ, habitId, user, dateMs, j, found.value);
      }
    }
  }

  /** Marking a date done that had no occurrence, then not done, restores the store. */
  lemma MarkThenUnmark(occ: map<nat, Occurrence>, nextId: nat, user: nat, habitId: nat, dateMs: int)
    requires ValidOccurrences(occ, nextId)
    requires Matching(occ, habitId, user, dateMs) == {}
    requires Mark(occ, nextId, user, habitId, Some(dateMs), Some(true)).0.Ok?
    ensures var (_, once, n1) := Mark(occ, nextId, user, habitId, Some(dateMs), Some(true));
      Mark(once, n1, user, habitId, Some(dateMs), Some(false)).1 == occ
  {
    var (_, once, n1) := Mark(occ, nextId, user, habitId, Some(dateMs), Some(true));
    assert Matching(once, habitId, user, dateMs) == {nextId};
    assert FirstMatch(once, habitId, user, dateMs) == Some(nextId);
    assert once - {nextId} == occ;
  }

  const HabitNotFoundMessage := "Habit not found"
  const HabitDeletedMessage := "Habit deleted successfully"

  /** deleteHabit: 404 unless the user owns the habit; otherwise the habit and all of the
      user's occurrences of it are removed. */
  function DeleteHabit(habits: map<nat, Habit>, occ: map<nat, Occurrence>, user: nat, habitId: nat)
    : (Reply<string>, map<nat, Habit>, map<nat, Occurrence>)
  {
    if !(habitId in habits && habits[habitId].userId == user) then (Err(404, HabitNotFoundMessage), habits, occ)
    else
      (Ok(200, HabitDeletedMessage), habits - {habitId},
       map id | id in occ && !(occ[id].habitId == habitId && occ[id].userId == user) :: occ[id])
  }

  /** A refused delete changes nothing; a successful one removes the habit and exactly the
      user's occurrences of it, keeping every other habit and occurrence. */
  lemma DeleteHabitEffect(habits: map<nat, Habit>, occ: map<nat, Occurrence>, user: nat, habitId: nat)
    ensures var (r, hs, os) := DeleteHabit(habits, occ, user, habitId);
      && (r.Err? <==> !(habitId in habits && habits[habitId].userId == user))
      && (r.Err? ==> r.status == 404 && hs == habits && os == occ)
      && (r.Ok? ==> hs.Keys == habits.Keys - {habitId} && forall h :: h in hs ==> hs[h] == habits[h])
      && (r.Ok? ==> forall id :: id in os <==> id in occ && !(occ[id].habitId == habitId && occ[id].userId == user))
      && (forall id :: id in os ==> os[id] == occ[id])
  {
  }

  // Streaks

  /** The streak of a walk back by k days from check day c: completed check days are counted
      until the first missing one or until the walk passes the start day; with `grace` a
      missing first check day is stepped over instead of ending the walk. */
  function DayStreak(done: set<int>, c: int, start: int, k: int, grace: bool): nat
    requires k >= 1
    decreases if c < start then 0 else c - start + 1
  {
    if c < start then 0
    else if c in done then 1 + DayStreak(done, c - k, start, k, false)
    else if grace then DayStreak(done, c - k, start, k, false)
    else 0
  }

  /** The i-th check day of a walk back by k days from c. */
  function CheckDay(c: int, k: int, i: nat): int {
    c - i * k
  }

  /** A walk without grace counts exactly the leading run of check days that are completed and
      not before the start day: the first n are, the next is not. */
  lemma {:induction false} DayStreakIsLeadingRun(done: set<int>, c: int, start: int, k: int)
    requires k >= 1
    ensures var n := DayStreak(done, c, start, k, false);
      && (forall i :: 0 <= i < n ==> CheckDay(c, k, i) in done && start <= CheckDay(c, k, i))
      && (CheckDay(c, k, n) < start || CheckDay(c, k, n) !in done)
    decreases if c < start then 0 else c - start + 1
  {
    if c >= start && c in done {
      DayStreakIsLeadingRun(done, c - k, start, k);
      var n := DayStreak(done, c, start, k, false);
      assert n == 1 + DayStreak(done, c - k, start, k, false);
      forall i | 0 <= i <= n
        ensures i > 0 ==> CheckDay(c, k, i) == CheckDay(c - k, k, i - 1)
      {
        if i > 0 {
          assert i * k == (i - 1) * k + k;
        }
      }
      forall i | 0 <= i < n
        ensures CheckDay(c, k, i) in done && start <= CheckDay(c, k, i)
      {
        if i == 0 {
          assert CheckDay(c, k, 0) == c;
        } else {
          assert CheckDay(c, k, i) == CheckDay(c - k, k, i - 1);
        }
      }
    }
  }

  /** With grace, a missing first check day is skipped and the run starts one step back. */
  lemma DayGraceSkipsFirst(done: set<int>, c: int, start: int, k: int)
    requires k >= 1
    ensures DayStreak(done, c, start, k, true) ==
      if c >= start && c !in done then DayStreak(done, c - k, start, k, false)
      else DayStreak(done, c, start, k, false)
  {
  }

  /** A walk never counts more check days than there are completed days between the start
      day and its first check day. */
  lemma {:induction false} DayStreakBound(done: set<int>, c: int, start: int, k: int, grace: bool)
    requires k >= 1
    ensures DayStreak(done, c, start, k, grace) <= |set d | d in done && start <= d <= c|
    decreases if c < start then 0 else c - start + 1
  {
    var upTo := set d | d in done && start <= d <= c;
    if c >= start {
      var below := set d | d in done && start <= d <= c - k;
      DayStreakBound(done, c - k, start, k, false);
      assert below <= upTo;
      if c in done {
        assert c !in below;
        SubsetSize(below + {c}, upTo);
      } else {
        SubsetSize(below, upTo);
      }
    }
  }

  /** A month as its year and 1-based month. */
  datatype Month = Month(year: int, month: int)

  predicate ValidMonth(m: Month) {
    1 <= m.month <= 12
  }

  /** The month today lies in. */
  function MonthOf(d: int): (m: Month)
    ensures ValidMonth(m)
  {
    var c := CivilFromDays(d);
    Month(c.year, c.month)
  }

  /** `new Date(year, month, 1)`: the first day of a month. */
  function FirstOf(m: Month): int
    requires ValidMonth(m)
  {
    DaysFromCivil(Civil(m.year, m.month, 1))
  }

  /** `setMonth(getMonth() - 1)` on the first of a month: the month before, which begins
      earlier. */
  function MonthBefore(m: Month): (p: Month)
    requires ValidMonth(m)
    ensures ValidMonth(p) && FirstOf(p) < FirstOf(m)
  {
    var pm := PreviousMonth(m.year, m.month);
    Month(pm.0, pm.1)
  }

  /** The first of the month of d is the month start of d. */
  lemma FirstOfIsMonthStart(d: int)
    ensures FirstOf(MonthOf(d)) == MonthStart(d)
  {
  }

  /** The streak of the monthly walk from month m: the first days of the months are checked,
      from m back one month at a time, as in DayStreak. */
  function MonthStreak(done: set<int>, m: Month, start: int, grace: bool): nat
    requires ValidMonth(m)
    decreases if FirstOf(m) < start then 0 else FirstOf(m) - start + 1
  {
    if FirstOf(m) < start then 0
    else if FirstOf(m) in done then 1 + MonthStreak(done, MonthBefore(m), start, false)
    else if grace then MonthStreak(done, MonthBefore(m), start, false)
    else 0
  }

  /** The i-th month of the monthly walk from m. */
  function MonthsBack(m: Month, i: nat): (r: Month)
    requires ValidMonth(m)
    ensures ValidMonth(r)
    decreases i
  {
    if i == 0 then m else MonthsBack(MonthBefore(m), i - 1)
  }

  /** Without grace the monthly walk counts the leading run of months whose first day is
      completed and not before the start day. */
  lemma MonthStreakIsLeadingRun(done: set<int>, m: Month, start: int)
    requires ValidMonth(m)
    ensures var n := MonthStreak(done, m, start, false);
      && (forall i :: 0 <= i < n ==> FirstOf(MonthsBack(m, i)) in done && start <= FirstOf(MonthsBack(m, i)))
      && (FirstOf(MonthsBack(m, n)) < start || FirstOf(MonthsBack(m, n)) !in done)
  {
    MonthRunCounted(done, m, start);
    MonthRunStops(done, m, start);
  }

  /** Every month the walk counts has its first day completed and not before the start day. */
  lemma {:induction false} MonthRunCounted(done: set<int>, m: Month, start: int)
    requires ValidMonth(m)
    ensures forall i :: 0 <= i < MonthStreak(done, m, start, false) ==>
      FirstOf(MonthsBack(m, i)) in done && start <= FirstOf(MonthsBack(m, i))
    decreases if FirstOf(m) < start then 0 else FirstOf(m) - start + 1
  {
    if FirstOf(m) >= start && FirstOf(m) in done {
      var p := MonthBefore(m);
      var k := MonthStreak(done, p, start, false);
      MonthRunCounted(done, p, start);
      MonthCountedStep(done, m, start);
      forall i | 0 < i < 1 + k
        ensures FirstOf(MonthsBack(m, i)) in done && start <= FirstOf(MonthsBack(m, i))
      {
        assert MonthsBack(m, i) == MonthsBack(p, i - 1);
      }
    }
  }

  /** The month after the counted ones is before the start day or not completed. */
  lemma {:induction false} MonthRunStops(done: set<int>, m: Month, start: int)
    requires ValidMonth(m)
    ensures var n := MonthStreak(done, m, start, false);
      FirstOf(MonthsBack(m, n)) < start || FirstOf(MonthsBack(m, n)) !in done
    decreases if FirstOf(m) < start then 0 else FirstOf(m) - start + 1
  {
    if FirstOf(m) >= start && FirstOf(m) in done {
      MonthRunStops(done, MonthBefore(m), start);
      MonthCountedStep(done, m, start);
    }
  }

  /** A counted month adds one to the run of the month before it, and the walk from it is the
      walk from the month before, one step later. */
  lemma MonthCountedStep(done: set<int>, m: Month, start: int)
    requires ValidMonth(m) && FirstOf(m) >= start && FirstOf(m) in done
    ensures var k := MonthStreak(done, MonthBefore(m), start, false);
      MonthStreak(done, m, start, false) == 1 + k && MonthsBack(m, 1 + k) == MonthsBack(MonthBefore(m), k)
  {
  }

  /** With grace, a missing first of the month is skipped and the run starts a month back. */
  lemma MonthGraceSkipsFirst(done: set<int>, m: Month, start: int)
    requires ValidMonth(m)
    ensures MonthStreak(done, m, start, true) ==
      if FirstOf(m) >= start && FirstOf(m) !in done then MonthStreak(done, MonthBefore(m), start, false)
      else MonthStreak(done, m, start, false)
  {
  }

  /** The days with an occurrence of the habit, each instant cut down to its UTC day. */
  function CompletedDays(occurrences: seq<Occurrence>, habitId: nat): (days: set<int>)
    ensures forall o :: o in occurrences && o.habitId == habitId ==> DayOf(o.dateMs) in days
    ensures forall d :: d in days ==> exists o :: o in occurrences && o.habitId == habitId && DayOf(o.dateMs) == d
  {
    set o | o in occurrences && o.habitId == habitId :: DayOf(o.dateMs)
  }

  /** `habit.intervalDays || 1`, read so that the walk moves back: an interval below 1 is
      taken as 1 (the code as written takes a negative value as it is; see
      AsWrittenCustomRun). */
  function Interval(raw: Option<int>): (k: int)
    ensures k >= 1
    ensures raw.Some? && raw.value >= 1 ==> k == raw.value
  {
    if raw.Some? && raw.value >= 1 then raw.value else 1
  }

  /** `dayOfWeek === 0 ? 6 : dayOfWeek - 1`: days since the Monday of the current week. */
  function MondayOffset(today: int): (off: int)
    ensures 0 <= off < 7
    ensures today - off == WeekStart(today)
  {
    var dow := Weekday(today);
    if dow == 0 then 6 else dow - 1
  }

  /** The first check day of the custom walk: today moved back to the habit's interval cycle.
      For a habit already started it is the last day of the cycle not after today, a whole
      number of intervals after the start day. */
  function CustomFirst(today: int, start: int, k: int): (c: int)
    requires k >= 1
    ensures c <= today || start > today
    ensures c - k < today
    ensures start <= today ==> c == start + (today - start) / k * k
  {
    today - JsRem(today - start, k)
  }

  /** The streak computeStreak returns for a habit at the instant `nowMs`. */
  function Streak(habit: Habit, habitId: nat, occurrences: seq<Occurrence>, nowMs: int): nat {
    var today := DayOf(nowMs);
    var start := DayOf(habit.startMs);
    var done := CompletedDays(occurrences, habitId);
    match habit.frequency
    case Daily => DayStreak(done, today, start, 1, true)
    case Custom =>
      var k := Interval(habit.intervalDays);
      var first := CustomFirst(today, start, k);
      DayStreak(done, first, start, k, first >= today)
    case Weekly => DayStreak(done, WeekStart(today), start, 7, true)
    case Monthly => MonthStreak(done, MonthOf(today), start, true)
    case _ => 0
  }

  /** Walking back a day at a time without grace counts the run of completed days ending at
      `last` that does not reach before the start day. */
  lemma {:induction false} DailyRun(done: set<int>, last: int, start: int)
    ensures var n := DayStreak(done, last, start, 1, false);
      && (forall d :: last - n < d <= last ==> d in done)
      && (n > 0 ==> start <= last - n + 1)
      && (last - n < start || last - n !in done)
    decreases if last < start then 0 else last - start + 1
  {
    if last >= start && last in done {
      DailyRun(done, last - 1, start);
    }
  }

  /** The daily walk from today counts the run of completed days ending today, or ending
      yesterday when today is not completed, and never reaching before the start day. */
  lemma DailyWalkRun(done: set<int>, today: int, start: int)
    ensures var last := if today >= start && today !in done then today - 1 else today;
      var n := DayStreak(done, today, start, 1, true);
      && (forall d :: last - n < d <= last ==> d in done)
      && (n > 0 ==> start <= last - n + 1)
      && (last - n < start || last - n !in done)
  {
    var last := if today >= start && today !in done then today - 1 else today;
    DayGraceSkipsFirst(done, today, start, 1);
    DailyRun(done, last, start);
    assert DayStreak(done, today, start, 1, true) == DayStreak(done, last, start, 1, false);
  }

  /** The daily streak of a habit is that run over the days of its occurrences. */
  lemma DailyStreakMeaning(habit: Habit, habitId: nat, occurrences: seq<Occurrence>, nowMs: int)
    requires habit.frequency == Daily
    ensures var today, start := DayOf(nowMs), DayOf(habit.startMs);
      var done := CompletedDays(occurrences, habitId);
      var last := if today >= start && today !in done then today - 1 else today;
      var n := Streak(habit, habitId, occurrences, nowMs);
      && (forall d :: last - n < d <= last ==> d in done)
      && (n > 0 ==> start <= last - n + 1)
      && (last - n < start || last - n !in done)
  {
    DailyWalkRun(CompletedDays(occurrences, habitId), DayOf(nowMs), DayOf(habit.startMs));
  }

  /** The weekly streak counts the weeks, from this week back, whose Monday is a completed day
      not before the start day; a missing Monday of this week is skipped. */
  lemma WeeklyStreakMeaning(habit: Habit, habitId: nat, occurrences: seq<Occurrence>, nowMs: int)
    requires habit.frequency == Weekly
    ensures var today, start := DayOf(nowMs), DayOf(habit.startMs);
      var done := CompletedDays(occurrences, habitId);
      var w := WeekStart(today);
      var first := if w >= start && w !in done then w - 7 else w;
      var n := Streak(habit, habitId, occurrences, nowMs);
      && (forall i :: 0 <= i < n ==> CheckDay(first, 7, i) in done && start <= CheckDay(first, 7, i))
      && (CheckDay(first, 7, n) < start || CheckDay(first, 7, n) !in done)
      && (forall i :: 0 <= i <= n ==> Weekday(CheckDay(first, 7, i)) == 1)
  {
    var today, start := DayOf(nowMs), DayOf(habit.startMs);
    var done := CompletedDays(occurrences, habitId);
    var w := WeekStart(today);
    var first := if w >= start && w !in done then w - 7 else w;
    DayGraceSkipsFirst(done, w, start, 7);
    DayStreakIsLeadingRun(done, first, start, 7);
    var n := DayStreak(done, first, start, 7, false);
    assert Streak(habit, habitId, occurrences, nowMs) == n;
    WeeksBackAreMondays(first, n);
  }

  /** Stepping back whole weeks from a Monday lands on Mondays only. */
  lemma WeeksBackAreMondays(first: int, n: nat)
    requires Weekday(first) == 1
    ensures forall i :: 0 <= i <= n ==> Weekday(CheckDay(first, 7, i)) == 1
  {
    forall i | 0 <= i <= n
      ensures Weekday(CheckDay(first, 7, i)) == 1
    {
      assert CheckDay(first, 7, i) + 4 == (first + 4) - i * 7;
    }
  }

  /** The monthly walk with grace from month m counts the leading run of months from m, or
      from the month before when the first of m is missing, whose first day is completed and
      not before the start day. */
  lemma MonthWalkRun(done: set<int>, m: Month, start: int)
    requires ValidMonth(m)
    ensures var first := if FirstOf(m) >= start && FirstOf(m) !in done then MonthBefore(m) else m;
      var n := MonthStreak(done, m, start, true);
      && (forall i :: 0 <= i < n ==> FirstOf(MonthsBack(first, i)) in done && start <= FirstOf(MonthsBack(first, i)))
      && (FirstOf(MonthsBack(first, n)) < start || FirstOf(MonthsBack(first, n)) !in done)
  {
    var first := if FirstOf(m) >= start && FirstOf(m) !in done then MonthBefore(m) else m;
    MonthGraceSkipsFirst(done, m, start);
    MonthStreakIsLeadingRun(done, first, start);
  }

  /** The monthly streak of a habit is that run, from the month of today, over the days of
      its occurrences; the first checked day is the month start of today. */
  lemma MonthlyStreakMeaning(habit: Habit, habitId: nat, occurrences: seq<Occurrence>, nowMs: int)
    requires habit.frequency == Monthly
    ensures FirstOf(MonthOf(DayOf(nowMs))) == MonthStart(DayOf(nowMs))
    ensures var m, start := MonthOf(DayOf(nowMs)), DayOf(habit.startMs);
      var done := CompletedDays(occurrences, habitId);
      var first := if FirstOf(m) >= start && FirstOf(m) !in done then MonthBefore(m) else m;
      var n := Streak(habit, habitId, occurrences, nowMs);
      && (forall i :: 0 <= i < n ==> FirstOf(MonthsBack(first, i)) in done && start <= FirstOf(MonthsBack(first, i)))
      && (FirstOf(MonthsBack(first, n)) < start || FirstOf(MonthsBack(first, n)) !in done)
  {
    FirstOfIsMonthStart(DayOf(nowMs));
    MonthWalkRun(CompletedDays(occurrences, habitId), MonthOf(DayOf(nowMs)), DayOf(habit.startMs));
  }

  /** The custom streak counts the check days, from the aligned first one back by the
      interval, that are completed days not before the start day; a missing first check day
      not before today is skipped. For a habit already started every check day is a whole
      number of intervals after the start day. */
  lemma CustomStreakMeaning(habit: Habit, habitId: nat, occurrences: seq<Occurrence>, nowMs: int)
    requires habit.frequency == Custom
    ensures var today, start := DayOf(nowMs), DayOf(habit.startMs);
      var done := CompletedDays(occurrences, habitId);
      var k := Interval(habit.intervalDays);
      var c := CustomFirst(today, start, k);
      var first := if c >= today && c >= start && c !in done then c - k else c;
      var n := Streak(habit, habitId, occurrences, nowMs);
      && (forall i :: 0 <= i < n ==> CheckDay(first, k, i) in done && start <= CheckDay(first, k, i))
      && (CheckDay(first, k, n) < start || CheckDay(first, k, n) !in done)
      && (start <= today ==> forall i :: 0 <= i <= n ==> (CheckDay(first, k, i) - start) % k == 0)
  {
    CustomWalkRun(CompletedDays(occurrences, habitId), DayOf(nowMs), DayOf(habit.startMs),
                  Interval(habit.intervalDays));
  }

  /** The custom walk from the aligned first check day, stated on day numbers. */
  lemma CustomWalkRun(done: set<int>, today: int, start: int, k: int)
    requires k >= 1
    ensures var c := CustomFirst(today, start, k);
      var first := if c >= today && c >= start && c !in done then c - k else c;
      var n := DayStreak(done, c, start, k, c >= today);
      && (forall i :: 0 <= i < n ==> CheckDay(first, k, i) in done && start <= CheckDay(first, k, i))
      && (CheckDay(first, k, n) < start || CheckDay(first, k, n) !in done)
      && (start <= today ==> forall i :: 0 <= i <= n ==> (CheckDay(first, k, i) - start) % k == 0)
  {
    var c := CustomFirst(today, start, k);
    var first := if c >= today && c >= start && c !in done then c - k else c;
    DayGraceSkipsFirst(done, c, start, k);
    DayStreakIsLeadingRun(done, first, start, k);
    var n := DayStreak(done, first, start, k, false);
    if start <= today {
      var q := (today - start) / k;
      if first == c {
        CheckDaysAligned(start, first, q, k, n);
      } else {
        assert first == start + (q - 1) * k by {
          assert (q - 1) * k == q * k - k;
        }
        CheckDaysAligned(start, first, q - 1, k, n);
      }
    }
  }

  /** Stepping back whole intervals from a day a whole number of intervals after the start
      lands only on such days. */
  lemma CheckDaysAligned(start: int, c: int, q: int, k: int, n: nat)
    requires k >= 1 && c == start + q * k
    ensures forall i :: 0 <= i <= n ==> (CheckDay(c, k, i) - start) % k == 0
  {
    forall i | 0 <= i <= n
      ensures (CheckDay(c, k, i) - start) % k == 0
    {
      assert CheckDay(c, k, i) - start == (q - i) * k;
      ModUnique((q - i) * k, k, q - i, 0);
    }
  }

  /** A streak counts only the habit's own occurrences: the other habits' occurrences can be
      dropped without changing it. */
  lemma StreakIgnoresOtherHabits(habit: Habit, habitId: nat, occurrences: seq<Occurrence>, nowMs: int, others: seq<Occurrence>)
    requires forall o :: o in others ==> o.habitId != habitId
    ensures Streak(habit, habitId, occurrences + others, nowMs) == Streak(habit, habitId, occurrences, nowMs)
  {
    assert CompletedDays(occurrences + others, habitId) == CompletedDays(occurrences, habitId);
  }

  /** Frequencies without a walk (every other day, yearly) have streak 0. */
  lemma NoWalkNoStreak(habit: Habit, habitId: nat, occurrences: seq<Occurrence>, nowMs: int)
    requires habit.frequency == EveryOtherDay || habit.frequency == Yearly
    ensures Streak(habit, habitId, occurrences, nowMs) == 0
  {
  }

  /** The daily walk: back one day at a time, stepping over a missing today. */
  method DailyWalk(done: set<int>, today: int, start: int) returns (streak: nat)
    ensures streak == DayStreak(done, today, start, 1, true)
  {
    streak := 0;
    var check := today;
    while check >= start
      invariant check <= today
      invariant streak + DayStreak(done, check, start, 1, check == today)
        == DayStreak(done, today, start, 1, true)
      decreases check - start
    {
      if check in done {
        streak := streak + 1;
      } else {
        if check == today {
          check := check - 1;
          continue;
        }
        break;
      }
      check := check - 1;
    }
  }

  /** The custom walk: from the aligned day back by the interval, stepping over missing days
      that are not before today. */
  method CustomWalk(done: set<int>, today: int, start: int, interval: int) returns (streak: nat)
    requires interval >= 1
    ensures var first := CustomFirst(today, start, interval);
      streak == DayStreak(done, first, start, interval, first >= today)
  {
    streak := 0;
    var diffFromStart := today - start;
    var daysOffset := JsRem(diffFromStart, interval);
    var check := today - daysOffset;
    ghost var first := check;
    while check >= start
      invariant check >= today ==> check == first
      invariant check <= first
      invariant streak + DayStreak(done, check, start, interval, check >= today)
        == DayStreak(done, first, start, interval, first >= today)
      decreases check - start
    {
      if check in done {
        streak := streak + 1;
      } else {
        if check >= today {
          check := check - interval;
          continue;
        }
        break;
      }
      check := check - interval;
    }
  }

  /** The weekly walk: from this week's Monday back seven days at a time, stepping over a
      missing current week. */
  method WeeklyWalk(done: set<int>, today: int, start: int) returns (streak: nat)
    ensures streak == DayStreak(done, WeekStart(today), start, 7, true)
  {
    streak := 0;
    var mondayOffset := MondayOffset(today);
    var check := today - mondayOffset;
    while check >= start
      invariant check <= WeekStart(today)
      invariant streak + DayStreak(done, check, start, 7, check + mondayOffset >= today)
        == DayStreak(done, WeekStart(today), start, 7, true)
      decreases check - start
    {
      if check in done {
        streak := streak + 1;
      } else {
        if check + mondayOffset >= today {
          check := check - 7;
          continue;
        }
        break;
      }
      check := check - 7;
    }
  }

  /** The monthly walk: from the first of this month back a month at a time, stepping over a
      missing current month. */
  method MonthlyWalk(done: set<int>, today: int, start: int) returns (streak: nat)
    ensures streak == MonthStreak(done, MonthOf(today), start, true)
  {
    streak := 0;
    var t := CivilFromDays(today);
    var check := Month(t.year, t.month);
    ghost var first := check;
    while FirstOf(check) >= start
      invariant ValidMonth(check)
      invariant check == first || FirstOf(check) < FirstOf(first)
      invariant streak + MonthStreak(done, check, start, check.month == t.month && check.year == t.year)
        == MonthStreak(done, first, start, true)
      decreases FirstOf(check) - start
    {
      if FirstOf(check) in done {
        streak := streak + 1;
      } else {
        if check.month == t.month && check.year == t.year {
          check := MonthBefore(check);
          continue;
        }
        break;
      }
      check := MonthBefore(check);
    }
  }

  /** computeStreak: the walk for the habit's frequency over the days of its occurrences. */
  method ComputeStreak(habit: Habit, habitId: nat, occurrences: seq<Occurrence>, nowMs: int) returns (streak: nat)
    ensures streak == Streak(habit, habitId, occurrences, nowMs)
  {
    var today := DayOf(nowMs);
    var completedDates := CompletedDays(occurrences, habitId);
    var start := DayOf(habit.startMs);
    streak := 0;
    if habit.frequency == Daily {
      streak := DailyWalk(completedDates, today, start);
    } else if habit.frequency == Custom {
      streak := CustomWalk(completedDates, today, start, Interval(habit.intervalDays));
    } else if habit.frequency == Weekly {
      streak := WeeklyWalk(completedDates, today, start);
    } else if habit.frequency == Monthly {
      streak := MonthlyWalk(completedDates, today, start);
    }
  }

  /** `HabitOccurrence.find({ userId })`. */
  function UserOccurrences(occurrences: seq<Occurrence>, user: nat): (r: seq<Occurrence>)
    ensures forall o :: o in r <==> o in occurrences && o.userId == user
  {
    if |occurrences| == 0 then []
    else if occurrences[0].userId == user then [occurrences[0]] + UserOccurrences(occurrences[1..], user)
    else UserOccurrences(occurrences[1..], user)
  }

  /** getStreaks: one entry per active habit of the user, each its streak over the user's own
      occurrences. */
  method GetStreaks(habits: map<nat, Habit>, user: nat, occurrences: seq<Occurrence>, nowMs: int)
    returns (streaks: map<nat, nat>)
    ensures forall id :: id in streaks <==> id in habits && habits[id].userId == user && habits[id].active
    ensures forall id :: id in streaks ==>
      streaks[id] == Streak(habits[id], id, UserOccurrences(occurrences, user), nowMs)
  {
    var remaining := set id | id in habits && habits[id].userId == user && habits[id].active;
    ghost var all := remaining;
    var mine := UserOccurrences(occurrences, user);
    streaks := map[];
    while remaining != {}
      invariant remaining <= all
      invariant forall id :: id in streaks <==> id in all && id !in remaining
      invariant forall id :: id in streaks ==> id in habits && streaks[id] == Streak(habits[id], id, mine, nowMs)
      decreases |remaining|
    {
      var id :| id in remaining;
      var s := ComputeStreak(habits[id], id, mine, nowMs);
      streaks := streaks[id := s];
      remaining := remaining - {id};
    }
  }

  // The custom walk as written, for a negative interval

  /** `intervalDays || 1` as written: only a missing or zero interval is replaced. */
  function AsWrittenInterval(raw: Option<int>): (k: int)
    ensures k != 0
    ensures raw.Some? && raw.value != 0 ==> k == raw.value
  {
    if raw.None? || raw.value == 0 then 1 else raw.value
  }

  /** One pass of the custom loop as written: the next check day, or None when the loop ends. */
  function AsWrittenCustomStep(done: set<int>, today: int, start: int, interval: int, check: int): Option<int> {
    if check < start then None
    else if check in done then Some(check - interval)
    else if check >= today then Some(check - interval)
    else None
  }

  /** The check day after n passes of the loop as written, or None once it has ended. */
  function AsWrittenCustomRun(done: set<int>, today: int, start: int, interval: int, check: int, n: nat): Option<int>
    decreases n
  {
    if n == 0 then Some(check)
    else
      var next := AsWrittenCustomStep(done, today, start, interval, check);
      if next.None? then None else AsWrittenCustomRun(done, today, start, interval, next.value, n - 1)
  }

  /** From a check day not before today or the start, a negative interval moves the check day
      forward at every step, so the loop survives any number of steps on unbounded day numbers
      (a JavaScript Date leaves its range after about 10^8 of them). */
  lemma {:induction false} NegativeIntervalRunsOn(done: set<int>, today: int, start: int, interval: int, check: int, n: nat)
    requires interval < 0 && check >= today && check >= start
    ensures AsWrittenCustomRun(done, today, start, interval, check, n).Some?
    decreases n
  {
    if n > 0 {
      NegativeIntervalRunsOn(done, today, start, interval, check - interval, n - 1);
    }
  }

  /** A custom habit with a negative interval that started by today: when the aligned first
      check day is completed or is today, the streak loop as written does not stop within any
      number of steps. */
  lemma NegativeIntervalNeverEnds(done: set<int>, today: int, start: int, raw: int, n: nat)
    requires raw < 0 && start <= today
    requires var first := today - JsRem(today - start, AsWrittenInterval(Some(raw)));
      first in done || first >= today
    ensures AsWrittenCustomRun(done, today, start, AsWrittenInterval(Some(raw)),
      today - JsRem(today - start, AsWrittenInterval(Some(raw))), n).Some?
  {
    var k := AsWrittenInterval(Some(raw));
    var first := today - JsRem(today - start, k);
    assert first >= start;
    if first >= today {
      NegativeIntervalRunsOn(done, today, start, k, first, n);
    } else if n > 0 {
      assert first - k >= today;
      NegativeIntervalRunsOn(done, today, start, k, first - k, n - 1);
    }
  }

  /** The concrete case: a custom habit with interval -1 started today; its streak loop runs
      on for any number of steps. */
  lemma HabitStartedTodayHangs(done: set<int>, today: int, n: nat)
    ensures AsWrittenCustomRun(done, today, today, AsWrittenInterval(Some(-1)), today, n).Some?
  {
    NegativeIntervalNeverEnds(done, today, today, -1, n);
  }

  /** The habit store: habits and occurrences, with the next created occurrence id. */
  class HabitStore {
    var habits: map<nat, Habit>
    var occurrences: map<nat, Occurrence>
    var nextOccurrence: nat

    predicate Valid()
      reads this
    {
      ValidOccurrences(occurrences, nextOccurrence)
    }

    constructor ()
      ensures Valid() && habits == map[] && occurrences == map[] && nextOccurrence == 0
    {
      habits := map[];
      occurrences := map[];
      nextOccurrence := 0;
    }

    /** markHabit: `findOneAndDelete`, or `findOneAndUpdate` with `upsert`. */
    method MarkHabit(user: nat, habitId: nat, date: Option<int>, completed: Option<bool>) returns (reply: Reply<Marked>)
      requires Valid()
      modifies this
      ensures (reply, occurrences, nextOccurrence) == Mark(old(occurrences), old(nextOccurrence), user, habitId, date, completed)
      ensures Valid() && habits == old(habits)
    {
      MarkPreservesStore(occurrences, nextOccurrence, user, habitId, date, completed);
      if date.None? {
        return Err(400, InvalidDateMessage);
      }
      var found := FirstMatch(occurrences, habitId, user, date.value);
      if completed == Some(false) {
        if found.Some? {
          occurrences := occurrences - {found.value};
        }
        return Ok(200, MarkedIncomplete);
      }
      if found.Some? {
        var updated := occurrences[found.value].(completed := true);
        occurrences := occurrences[found.value := updated];
        return Ok(200, MarkedComplete(updated));
      }
      if exists id :: id in occurrences && occurrences[id].habitId == habitId && occurrences[id].dateMs == date.value {
        return Err(400, DuplicateOccurrenceMessage);
      }
      var created := Occurrence(habitId, user, date.value, true);
      occurrences := occurrences[nextOccurrence := created];
      nextOccurrence := nextOccurrence + 1;
      reply := Ok(200, MarkedComplete(created));
    }

    /** deleteHabit: `findOneAndDelete` on the habit, then `deleteMany` on its occurrences. */
    method DeleteHabitAndOccurrences(user: nat, habitId: nat) returns (reply: Reply<string>)
      requires Valid()
      modifies this
      ensures (reply, habits, occurrences) == DeleteHabit(old(habits), old(occurrences), user, habitId)
      ensures Valid() && nextOccurrence == old(nextOccurrence)
    {
      if !(habitId in habits && habits[habitId].userId == user) {
        return Err(404, HabitNotFoundMessage);
      }
      habits := habits - {habitId};
      occurrences := map id | id in occurrences && !(occurrences[id].habitId == habitId && occurrences[id].userId == user)
        :: occurrences[id];
      reply := Ok(200, HabitDeletedMessage);
    }
  }
}
