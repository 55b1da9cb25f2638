/**
 * The bucket filter of the task controller: a daily task belongs to the
 * bucket of its owner and date, every other task to the bucket of its owner
 * and period start, whatever its scope. Callers add the section to obtain a
 * ranking group.
 */
module Buckets {
  import opened Outcomes
  import opened TaskModel

  /** The filter object getBucketQuery builds. */
  datatype BucketFilter =
    | DailyBucket(userId: nat, date: Option<int>)
    | PeriodBucket(userId: nat, periodStart: Option<int>)

  function GetBucketQuery(userId: nat, scope: Field<Scope>, date: DateInput, periodStart: DateInput): (f: BucketFilter)
    ensures f.DailyBucket? <==> scope == Named(Daily)
    ensures f.userId == userId
  {
    if scope == Named(Daily) then DailyBucket(userId, DateField(date))
    else PeriodBucket(userId, DateField(periodStart))
  }

  /** A query can only run when its date casts; an Invalid Date raises a cast error. */
  predicate Castable(f: BucketFilter) {
    match f
    case DailyBucket(_, d) => d.Some?
    case PeriodBucket(_, p) => p.Some?
  }

  /** Whether a stored task satisfies the filter, as the database evaluates it. */
  predicate Matches(t: Task, f: BucketFilter) {
    match f
    case DailyBucket(u, d) => t.userId == u && t.scope == Daily && d.Some? && t.date == d
    case PeriodBucket(u, p) => t.userId == u && t.scope != Daily && p.Some? && t.periodStart == p
  }

  /** The bucket filter with `section` added. A missing section matches no stored task. */
  predicate InGroup(t: Task, f: BucketFilter, section: Field<Section>) {
    Matches(t, f) && section == Named(t.section)
  }

  /** A daily bucket holds exactly the owner's daily tasks on that date, of every section and
      completion state. */
  lemma DailyBucketMembers(userId: nat, date: int, periodStart: DateInput, t: Task)
    ensures Matches(t, GetBucketQuery(userId, Named(Daily), OnDay(date), periodStart)) <==>
      t.userId == userId && t.scope == Daily && t.date == Some(date)
  {
  }

  /** A non-daily bucket holds exactly the owner's non-daily tasks with that period start,
      of every section and completion state. */
  lemma PeriodBucketMembers(userId: nat, scope: Field<Scope>, date: DateInput, periodStart: int, t: Task)
    requires scope != Named(Daily)
    ensures Matches(t, GetBucketQuery(userId, scope, date, OnDay(periodStart))) <==>
      t.userId == userId && t.scope != Daily && t.periodStart == Some(periodStart)
  {
  }

  /** A stored date field read back as an input: a Date or undefined. */
  function StoredDate(o: Option<int>): (d: DateInput)
    ensures DateField(d) == o && d != BadDate
  {
    if o.Some? then OnDay(o.value) else NoDate
  }

  /** The bucket of a stored task, as the controller derives it from the task's own fields. */
  function BucketOf(t: Task): (f: BucketFilter)
    ensures Castable(f) ==> Matches(t, f)
  {
    GetBucketQuery(t.userId, Named(t.scope), StoredDate(t.date), StoredDate(t.periodStart))
  }

  /** A task validated from a draft lies in the bucket the draft's fields name. */
  lemma BucketOfValidated(d: Draft)
    requires Validate(d).Some?
    ensures BucketOf(Validate(d).value) == GetBucketQuery(d.userId, d.scope, d.date, d.periodStart)
  {
  }

  /** Non-daily tasks of one owner with one period start share a bucket even when their scopes
      differ (a weekly and a monthly task, say). */
  lemma ScopeIgnoredOutsideDaily(t1: Task, t2: Task)
    requires t1.scope != Daily && t2.scope != Daily
    requires t1.userId == t2.userId && t1.periodStart == t2.periodStart
    ensures BucketOf(t1) == BucketOf(t2)
  {
  }

  /** Neither the section nor the completion flag of a task affects bucket membership. */
  lemma BucketIgnoresSectionAndCompletion(t: Task, f: BucketFilter, s: Section, c: bool)
    ensures Matches(t, f) <==> Matches(t.(section := s, completed := c), f)
  {
  }

  /** Two `topPriority` tasks share an index key exactly when one lies in the `topPriority`
      group of the other's bucket, so a group-count check guards the unique index. */
  lemma IndexKeyIsGroup(t1: Task, t2: Task)
    requires t1.section == TopPriority && t2.section == TopPriority
    requires Castable(BucketOf(t1))
    ensures TopPriorityKey(t1) == TopPriorityKey(t2) <==> InGroup(t2, BucketOf(t1), Named(TopPriority))
  {
  }
}
