/**
 * The server's task document and its schema constraints: the three enums,
 * the trimmed required title, the date fields required by scope, the
 * non-negative required rank, the defaults, and the two partial unique
 * indexes that allow one `topPriority` task per bucket.
 */
module TaskModel {
  import opened Outcomes

  datatype Section = TopPriority | Secondary | Must | Should | Could | Wont
  datatype Scope = Daily | Weekly | Monthly | Quarterly | Yearly | Random
  datatype Priority = Critical | High | Medium | Low | Minimal

  function SectionName(s: Section): string {
    match s
    case TopPriority => "topPriority"
    case Secondary => "secondary"
    case Must => "must"
    case Should => "should"
    case Could => "could"
    case Wont => "wont"
  }

  function ScopeName(s: Scope): string {
    match s
    case Daily => "daily"
    case Weekly => "weekly"
    case Monthly => "monthly"
    case Quarterly => "quarterly"
    case Yearly => "yearly"
    case Random => "random"
  }

  function PriorityName(p: Priority): string {
    match p
    case Critical => "critical"
    case High => "high"
    case Medium => "medium"
    case Low => "low"
    case Minimal => "minimal"
  }

  /** The enum validator of `section`: only the six names are accepted. */
  function ParseSection(name: string): (r: Option<Section>)
    ensures r.Some? ==> SectionName(r.value) == name
  {
    if name == "topPriority" then Some(TopPriority)
    else if name == "secondary" then Some(Secondary)
    else if name == "must" then Some(Must)
    else if name == "should" then Some(Should)
    else if name == "could" then Some(Could)
    else if name == "wont" then Some(Wont)
    else None
  }

  function ParseScope(name: string): (r: Option<Scope>)
    ensures r.Some? ==> ScopeName(r.value) == name
  {
    if name == "daily" then Some(Daily)
    else if name == "weekly" then Some(Weekly)
    else if name == "monthly" then Some(Monthly)
    else if name == "quarterly" then Some(Quarterly)
    else if name == "yearly" then Some(Yearly)
    else if name == "random" then Some(Random)
    else None
  }

  function ParsePriority(name: string): (r: Option<Priority>)
    ensures r.Some? ==> PriorityName(r.value) == name
  {
    if name == "critical" then Some(Critical)
    else if name == "high" then Some(High)
    else if name == "medium" then Some(Medium)
    else if name == "low" then Some(Low)
    else if name == "minimal" then Some(Minimal)
    else None
  }

  /** A request's value for an enum field, as the handlers observe it: absent, one of the
      enum's names, or any other string (which may be empty). The handlers only compare such a
      value with enum names and test its truthiness, so this is all they can see of it. */
  datatype Field<T> = Absent | Named(value: T) | Other(empty: bool)

  /** JavaScript truthiness of the raw value: absent and "" are falsy. */
  predicate Given<T>(f: Field<T>) {
    f.Named? || (f.Other? && !f.empty)
  }

  /** `f || fallback`. */
  function Or<T>(f: Field<T>, fallback: T): (r: Field<T>)
    ensures Given(f) ==> r == f
    ensures !Given(f) ==> r == Named(fallback)
  {
    if Given(f) then f else Named(fallback)
  }

  /** A destructuring default `{ x = fallback } = obj`: only a missing value takes it. */
  function Default<T>(f: Field<T>, fallback: T): (r: Field<T>)
    ensures f == Absent ==> r == Named(fallback)
    ensures f != Absent ==> r == f
  {
    if f == Absent then Named(fallback) else f
  }

  /** How a raw `section` string is seen; likewise for scope and priority below. */
  function SectionField(raw: Option<string>): (r: Field<Section>)
    ensures r == Absent <==> raw.None?
    ensures r.Named? ==> raw == Some(SectionName(r.value))
    ensures r.Other? ==> raw.Some? && ParseSection(raw.value).None? && (r.empty <==> raw.value == "")
    ensures Given(r) <==> raw.Some? && raw.value != ""
  {
    if raw.None? then Absent
    else if ParseSection(raw.value).Some? then Named(ParseSection(raw.value).value)
    else Other(raw.value == "")
  }

  function ScopeField(raw: Option<string>): (r: Field<Scope>)
    ensures r == Absent <==> raw.None?
    ensures r.Named? ==> raw == Some(ScopeName(r.value))
    ensures r.Other? ==> raw.Some? && ParseScope(raw.value).None? && (r.empty <==> raw.value == "")
    ensures Given(r) <==> raw.Some? && raw.value != ""
  {
    if raw.None? then Absent
    else if ParseScope(raw.value).Some? then Named(ParseScope(raw.value).value)
    else Other(raw.value == "")
  }

  function PriorityField(raw: Option<string>): (r: Field<Priority>)
    ensures r == Absent <==> raw.None?
    ensures r.Named? ==> raw == Some(PriorityName(r.value))
    ensures r.Other? ==> raw.Some? && ParsePriority(raw.value).None? && (r.empty <==> raw.value == "")
    ensures Given(r) <==> raw.Some? && raw.value != ""
  {
    if raw.None? then Absent
    else if ParsePriority(raw.value).Some? then Named(ParsePriority(raw.value).value)
    else Other(raw.value == "")
  }

  /** Each enum value is accepted under its own name, so parsing is the inverse of naming. */
  lemma EnumRoundTrip(s: Section, c: Scope, p: Priority)
    ensures ParseSection(SectionName(s)) == Some(s)
    ensures ParseScope(ScopeName(c)) == Some(c)
    ensures ParsePriority(PriorityName(p)) == Some(p)
  {
  }

  /** Distinct enum values have distinct names. */
  lemma NamesInjective(s1: Section, s2: Section, c1: Scope, c2: Scope)
    ensures SectionName(s1) == SectionName(s2) ==> s1 == s2
    ensures ScopeName(c1) == ScopeName(c2) ==> c1 == c2
  {
    EnumRoundTrip(s1, c1, Medium);
    EnumRoundTrip(s2, c2, Medium);
  }

  /** A raw value names an enum value exactly when it is that value's name, so comparing the
      classified value with `Named(v)` is comparing the string with v's name. */
  lemma FieldOfName(raw: Option<string>, s: Section, c: Scope, p: Priority)
    ensures SectionField(raw) == Named(s) <==> raw == Some(SectionName(s))
    ensures ScopeField(raw) == Named(c) <==> raw == Some(ScopeName(c))
    ensures PriorityField(raw) == Named(p) <==> raw == Some(PriorityName(p))
  {
    EnumRoundTrip(s, c, p);
    if SectionField(raw).Named? {
      NamesInjective(SectionField(raw).value, s, Daily, Daily);
    }
    if ScopeField(raw).Named? {
      NamesInjective(Must, Must, ScopeField(raw).value, c);
    }
    if PriorityField(raw).Named? {
      PriorityNamesInjective(PriorityField(raw).value, p);
    }
  }

  lemma PriorityNamesInjective(p1: Priority, p2: Priority)
    ensures PriorityName(p1) == PriorityName(p2) ==> p1 == p2
  {
    EnumRoundTrip(Must, Daily, p1);
    EnumRoundTrip(Must, Daily, p2);
  }

  /** The characters `String.prototype.trim` removes: the white space and line terminators of
      ECMAScript, that is tab, vertical tab, form feed, space, no-break space, the byte order
      mark, every other space separator (U+1680, U+2000 to U+200A, U+202F, U+205F, U+3000),
      line feed, carriage return and the line and paragraph separators. */
  predicate IsSpace(c: char) {
    c == ' ' || c == '\t' || c == '\n' || c == '\r' || c == '\U{000B}' || c == '\U{000C}'
    || c == '\U{00A0}' || c == '\U{FEFF}' || c == '\U{1680}' || ('\U{2000}' <= c <= '\U{200A}')
    || c == '\U{2028}' || c == '\U{2029}' || c == '\U{202F}' || c == '\U{205F}' || c == '\U{3000}'
  }

  /** The index of the first non-whitespace character at or after i, or |s|. */
  function SkipSpaces(s: string, i: nat): (k: nat)
    requires i <= |s|
    ensures i <= k <= |s|
    ensures forall j :: i <= j < k ==> IsSpace(s[j])
    ensures k == |s| || !IsSpace(s[k])
    decreases |s| - i
  {
    if i < |s| && IsSpace(s[i]) then SkipSpaces(s, i + 1) else i
  }

  /** The index just past the last non-whitespace character in s[lo..j], or lo. */
  function SkipSpacesBack(s: string, lo: nat, j: nat): (k: nat)
    requires lo <= j <= |s|
    ensures lo <= k <= j
    ensures forall i :: k <= i < j ==> IsSpace(s[i])
    ensures k == lo || !IsSpace(s[k - 1])
  {
    if j > lo && IsSpace(s[j - 1]) then SkipSpacesBack(s, lo, j - 1) else j
  }

  /** The `trim: true` setter of `title`: whitespace removed at both ends. */
  function Trim(s: string): string {
    var i := SkipSpaces(s, 0);
    s[i..SkipSpacesBack(s, i, |s|)]
  }

  /** A trimmed string is a slice of the input that neither starts nor ends with whitespace,
      and it is empty exactly when the input is all whitespace. */
  lemma TrimSpec(s: string)
    ensures exists i, j :: 0 <= i <= j <= |s| && Trim(s) == s[i..j]
    ensures Trim(s) != [] ==> !IsSpace(Trim(s)[0]) && !IsSpace(Trim(s)[|Trim(s)| - 1])
    ensures Trim(s) == [] <==> forall i :: 0 <= i < |s| ==> IsSpace(s[i])
  {
    var i := SkipSpaces(s, 0);
    var j := SkipSpacesBack(s, i, |s|);
    assert Trim(s) == s[i..j];
    if Trim(s) != [] {
      assert Trim(s)[0] == s[i] && Trim(s)[|Trim(s)| - 1] == s[j - 1];
    } else {
      assert i == |s|;
    }
  }

  /** A string that trimming leaves as it is. */
  predicate Trimmed(s: string) {
    s == [] || (!IsSpace(s[0]) && !IsSpace(s[|s| - 1]))
  }

  /** Trimmed is exactly the strings Trim does not change, and Trim always yields one. */
  lemma TrimmedIsFixedPoint(s: string)
    ensures Trimmed(s) <==> Trim(s) == s
    ensures Trimmed(Trim(s))
  {
    TrimSpec(s);
    if Trimmed(s) && s != [] {
      assert SkipSpaces(s, 0) == 0;
      assert SkipSpacesBack(s, 0, |s|) == |s|;
      assert s[0..|s|] == s;
    }
  }

  /** Trimming twice is trimming once. */
  lemma TrimIdempotent(s: string)
    ensures Trim(Trim(s)) == Trim(s)
  {
    TrimmedIsFixedPoint(s);
    TrimmedIsFixedPoint(Trim(s));
  }

  /** A stored task. Dates are day numbers (see the Calendar module); `None` is an absent field. */
  datatype Task = Task(
    userId: nat,
    title: string,
    section: Section,
    scope: Scope,
    priority: Priority,
    date: Option<int>,
    periodStart: Option<int>,
    priorityRank: int,
    completed: bool,
    version: nat)

  predicate DateRequired(scope: Scope) {
    scope == Daily
  }

  predicate PeriodStartRequired(scope: Scope) {
    scope != Daily && scope != Random
  }

  /** The schema validators that a saved task satisfies. */
  predicate ValidTask(t: Task) {
    t.title != "" && Trimmed(t.title)
    && (DateRequired(t.scope) ==> t.date.Some?)
    && (PeriodStartRequired(t.scope) ==> t.periodStart.Some?)
    && t.priorityRank >= 0
  }

  /** A date field as a request supplies it: absent, a valid day, or a string that is no date. */
  datatype DateInput = NoDate | OnDay(day: int) | BadDate

  /** A document before validation: every enum field is still the client's raw value. */
  datatype Draft = Draft(
    userId: nat,
    title: string,
    section: Field<Section>,
    scope: Field<Scope>,
    priority: Field<Priority>,
    date: DateInput,
    periodStart: DateInput,
    priorityRank: Option<int>,
    completed: Option<bool>,
    version: nat)


  /** `new Date(x)` for a date input: `None` is the Invalid Date that `new Date(undefined)`
      and unparsable strings produce, and also the stored value of an absent field. */
  function DateField(d: DateInput): (r: Option<int>)
    ensures r.Some? <==> d.OnDay?
  {
    if d.OnDay? then Some(d.day) else None
  }

  /** Mongoose casting, defaults and validation of a draft at `save()`: the enums must hold one
      of their names (priority may be absent and defaults to medium), the dates must cast, the
      date required by the scope must be present, and the rank must be present and at least 0. */
  function Validate(d: Draft): (r: Option<Task>)
    ensures r.Some? <==> (
      && Trim(d.title) != ""
      && d.section.Named? && d.scope.Named? && !d.priority.Other?
      && d.date != BadDate && d.periodStart != BadDate
      && (DateRequired(d.scope.value) ==> d.date.OnDay?)
      && (PeriodStartRequired(d.scope.value) ==> d.periodStart.OnDay?)
      && d.priorityRank.Some? && d.priorityRank.value >= 0)
    ensures r.Some? ==> ValidTask(r.value)
    ensures r.Some? ==> (
      && r.value.userId == d.userId && r.value.title == Trim(d.title)
      && r.value.section == d.section.value && r.value.scope == d.scope.value
      && r.value.priority == (if d.priority.Named? then d.priority.value else Medium)
      && r.value.date == DateField(d.date) && r.value.periodStart == DateField(d.periodStart)
      && r.value.priorityRank == d.priorityRank.value
      && r.value.completed == (d.completed == Some(true))
      && r.value.version == d.version)
  {
    var title := Trim(d.title);
    TrimmedIsFixedPoint(d.title);
    if title == "" || !d.section.Named? || !d.scope.Named? || d.priority.Other? then None
    else if d.date == BadDate || d.periodStart == BadDate then None
    else if DateRequired(d.scope.value) && !d.date.OnDay? then None
    else if PeriodStartRequired(d.scope.value) && !d.periodStart.OnDay? then None
    else if d.priorityRank.None? || d.priorityRank.value < 0 then None
    else
      Some(Task(d.userId, title, d.section.value, d.scope.value,
        if d.priority.Named? then d.priority.value else Medium,
        DateField(d.date), DateField(d.periodStart), d.priorityRank.value,
        d.completed == Some(true), d.version))
  }

  /** The draft of a stored task, as `task.set(...)` starts from it. */
  function DraftOf(t: Task): Draft {
    Draft(t.userId, t.title, Named(t.section), Named(t.scope), Named(t.priority),
      if t.date.Some? then OnDay(t.date.value) else NoDate,
      if t.periodStart.Some? then OnDay(t.periodStart.value) else NoDate,
      Some(t.priorityRank), Some(t.completed), t.version)
  }

  /** A valid stored task validates back to itself. */
  lemma RevalidateStored(t: Task)
    requires ValidTask(t)
    ensures Validate(DraftOf(t)) == Some(t)
  {
    TrimmedIsFixedPoint(t.title);
  }

  /** A new document with neither priority nor completed given gets priority medium and completed false. */
  lemma Defaults(d: Draft)
    requires d.priority == Absent && d.completed.None?
    requires Validate(d).Some?
    ensures Validate(d).value.priority == Medium && !Validate(d).value.completed
  {
  }

  /** The key of a task under the partial unique indexes: only `topPriority` tasks are indexed;
      daily ones by (userId, date), all others by (userId, periodStart). */
  datatype IndexKey = DailyKey(user: nat, date: Option<int>) | PeriodKey(user: nat, periodStart: Option<int>)

  function TopPriorityKey(t: Task): (k: Option<IndexKey>)
    ensures k.Some? <==> t.section == TopPriority
  {
    if t.section != TopPriority then None
    else if t.scope == Daily then Some(DailyKey(t.userId, t.date))
    else Some(PeriodKey(t.userId, t.periodStart))
  }

  /** At most one `topPriority` task per index key, completed or not. */
  predicate UniqueTopPriority(tasks: map<nat, Task>) {
    forall i, j :: i in tasks && j in tasks && i != j && TopPriorityKey(tasks[i]).Some? ==>
      TopPriorityKey(tasks[i]) != TopPriorityKey(tasks[j])
  }

  /** Whether storing t under id would break a unique index. */
  predicate Collides(tasks: map<nat, Task>, id: nat, t: Task) {
    TopPriorityKey(t).Some? &&
    exists j :: j in tasks && j != id && TopPriorityKey(tasks[j]) == TopPriorityKey(t)
  }

  /** Writing a task that does not collide keeps the indexes unique. */
  lemma StorePreservesUnique(tasks: map<nat, Task>, id: nat, t: Task)
    requires UniqueTopPriority(tasks)
    requires !Collides(tasks, id, t)
    ensures UniqueTopPriority(tasks[id := t])
  {
    var m := tasks[id := t];
    forall i, j | i in m && j in m && i != j && TopPriorityKey(m[i]).Some?
      ensures TopPriorityKey(m[i]) != TopPriorityKey(m[j])
    {
      if i == id {
        assert m[j] == tasks[j];
      } else if j == id {
        if TopPriorityKey(m[i]) == TopPriorityKey(t) {
          assert Collides(tasks, id, t);
        }
      }
    }
  }
}
