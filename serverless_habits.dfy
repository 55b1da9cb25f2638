/**
 * Habits in the serverless API: the streak of consecutive completed days ending today, and
 * the GET /api/habits/streaks handler that lists it for every active habit.
 */
module ServerlessHabits {
  import opened Outcomes
  import opened Sorting
  import opened Calendar

  /** The frequencies of this schema's enum. */
  datatype Frequency = Daily | Weekdays | Weekends | Weekly | Custom

  /** A stored habit; `customDays` holds weekday numbers (0 is Sunday). */
  datatype Habit = Habit(userId: nat, title: string, icon: string, frequency: Frequency,
                         customDays: seq<int>, startMs: int, active: bool)

  /** A stored occurrence. `dateUTC` is a string; `Some(d)` is the canonical `YYYY-MM-DD` key of
      day d, and None a string that is the key of no day, which no lookup matches. */
  datatype Occurrence = Occurrence(habitId: nat, userId: nat, dateUTC: Option<int>, completed: bool)

  /** `dateSet`: the days of the completed occurrences of the habit. */
  function CompletedDates(occurrences: seq<Occurrence>, habitId: nat): (days: set<int>)
    ensures forall d :: d in days <==>
      exists o :: o in occurrences && o.habitId == habitId && o.completed && o.dateUTC == Some(d)
  {
    set o | o in occurrences && o.habitId == habitId && o.completed && o.dateUTC.Some? :: o.dateUTC.value
  }

  /** The days of `days` up to d. */
  function UpTo(days: set<int>, d: int): set<int> {
    set x | x in days && x <= d
  }

  /** The number of consecutive days of `days` ending at d: d, d - 1, and so on down to the
      first day missing. */
  function RunLength(days: set<int>, d: int): nat
    decreases |UpTo(days, d)|
  {
    if d in days then
      RunShrinks(days, d);
      1 + RunLength(days, d - 1)
    else 0
  }

  /** Stepping back from a present day leaves fewer days to visit. */
  lemma RunShrinks(days: set<int>, d: int)
    requires d in days
    ensures |UpTo(days, d - 1)| < |UpTo(days, d)|
  {
    assert UpTo(days, d) == UpTo(days, d - 1) + {d};
  }

  /** The day i days before d. */
  function DaysBack(d: int, i: nat): int {
    d - i
  }

  /** The run from d is its leading stretch of present days: the n days from d back are all
      in `days`, and the day before them is not. */
  lemma {:induction false} RunIsLeadingStretch(days: set<int>, d: int)
    ensures var n := RunLength(days, d);
      (forall i :: 0 <= i < n ==> DaysBack(d, i) in days) && DaysBack(d, n) !in days
    decreases |UpTo(days, d)|
  {
    if d in days {
      RunShrinks(days, d);
      RunIsLeadingStretch(days, d - 1);
      var n := RunLength(days, d);
      forall i | 0 <= i < n
        ensures DaysBack(d, i) in days
      {
        if i > 0 {
          assert DaysBack(d, i) == DaysBack(d - 1, i - 1);
        }
      }
      assert DaysBack(d, n) == DaysBack(d - 1, n - 1);
    }
  }

  /** The run is at most the number of distinct completed days up to d, so at most the number
      of distinct completed days; it is 0 exactly when d is missing. */
  lemma {:induction false} RunBound(days: set<int>, d: int)
    ensures RunLength(days, d) <= |UpTo(days, d)| <= |days|
    ensures RunLength(days, d) == 0 <==> d !in days
    decreases |UpTo(days, d)|
  {
    SubsetSize(UpTo(days, d), days);
    if d in days {
      RunShrinks(days, d);
      RunBound(days, d - 1);
    }
  }

  /** The streak the loop computes on the clock `nowMs`. */
  function Streak(habit: nat, occurrences: seq<Occurrence>, nowMs: int): nat {
    RunLength(CompletedDates(occurrences, habit), DayOf(nowMs))
  }

  /** computeStreak: from today's key, count and step back a day while the key is present. */
  method ComputeStreak(habitId: nat, occurrences: seq<Occurrence>, nowMs: int) returns (streak: nat)
    ensures streak == Streak(habitId, occurrences, nowMs)
  {
    var dateSet := CompletedDates(occurrences, habitId);
    streak := 0;
    var d := DayOf(nowMs);
    while d in dateSet
      invariant streak + RunLength(dateSet, d) == RunLength(dateSet, DayOf(nowMs))
      decreases |UpTo(dateSet, d)|
    {
      RunShrinks(dateSet, d);
      streak := streak + 1;
      d := d - 1;
    }
  }

  /** One entry of the reply. */
  datatype StreakEntry = StreakEntry(habitId: nat, title: string, streak: nat)

  /** The active habits of the user. */
  function ActiveIds(habits: map<nat, Habit>, user: nat): set<nat> {
    set id | id in habits && habits[id].userId == user && habits[id].active
  }

  /** `Habit.find({ userId, active: true })`, in id order. */
  function ActiveHabits(habits: map<nat, Habit>, user: nat): (ids: seq<nat>)
    ensures forall id :: id in ids <==> id in habits && habits[id].userId == user && habits[id].active
    ensures forall i, j :: 0 <= i < j < |ids| ==> ids[i] < ids[j]
  {
    Ascending(ActiveIds(habits, user))
  }

  /** `HabitOccurrence.find({ userId })`. */
  function UserOccurrences(occurrences: seq<Occurrence>, user: nat): (r: seq<Occurrence>)
    ensures forall o :: o in r <==> o in occurrences && o.userId == user
  {
    if |occurrences| == 0 then []
    else if occurrences[0].userId == user then [occurrences[0]] + UserOccurrences(occurrences[1..], user)
    else UserOccurrences(occurrences[1..], user)
  }

  /** GET /api/habits/streaks: one entry per active habit of the user, in the order they are
      found, with the streak over the user's occurrences; any other method gets 405. */
  method GetStreaks(verb: Verb, habits: map<nat, Habit>, user: nat, occurrences: seq<Occurrence>, nowMs: int)
    returns (reply: Reply<seq<StreakEntry>>)
    ensures verb != HttpGet <==> reply.Err?
    ensures reply.Err? ==> reply.status == 405
    ensures reply.Ok? ==> reply.status == 200 && |reply.value| == |ActiveHabits(habits, user)|
    ensures reply.Ok? ==> forall i :: 0 <= i < |reply.value| ==>
      var id := ActiveHabits(habits, user)[i];
      id in habits && reply.value[i] == StreakEntry(id, habits[id].title, Streak(id, UserOccurrences(occurrences, user), nowMs))
  {
    if verb != HttpGet {
      return Err(405, MethodNotAllowedMessage);
    }
    var ids := ActiveHabits(habits, user);
    var mine := UserOccurrences(occurrences, user);
    var streaks: seq<StreakEntry> := [];
    var i := 0;
    while i < |ids|
      invariant 0 <= i <= |ids|
      invariant |streaks| == i
      invariant forall k :: 0 <= k < i ==>
        ids[k] in habits && streaks[k] == StreakEntry(ids[k], habits[ids[k]].title, Streak(ids[k], mine, nowMs))
    {
      assert ids[i] in ids;
      var s := ComputeStreak(ids[i], mine, nowMs);
      streaks := streaks + [StreakEntry(ids[i], habits[ids[i]].title, s)];
      i := i + 1;
    }
    reply := Ok(200, streaks);
  }

  /** Every active habit of the user has exactly one entry, and no other habit has one. */
  lemma OneEntryPerActiveHabit(habits: map<nat, Habit>, user: nat)
    ensures |ActiveHabits(habits, user)| == |ActiveIds(habits, user)|
    ensures var ids := ActiveHabits(habits, user);
      forall i, j :: 0 <= i < j < |ids| ==> ids[i] != ids[j]
  {
    AscendingLength(ActiveIds(habits, user));
  }

  /** Only completed occurrences of the habit itself count: adding an occurrence of another
      habit, or one not completed, leaves the streak as it was. */
  lemma OtherOccurrencesIgnored(habitId: nat, occurrences: seq<Occurrence>, o: Occurrence, nowMs: int)
    requires o.habitId != habitId || !o.completed
    ensures Streak(habitId, occurrences + [o], nowMs) == Streak(habitId, occurrences, nowMs)
  {
    assert CompletedDates(occurrences + [o], habitId) == CompletedDates(occurrences, habitId);
  }
}
