/**
 * The task board of the client: the fixed list of sections with their limits, the grouping
 * of the loaded tasks into one ranked list per section, and the decision a drag-and-drop
 * makes about which reorder request to send.
 */
module TaskBoard {
  import opened Outcomes
  import opened Sorting
  import T = TaskModel

  /** `SECTIONS`: the board shows the sections in this fixed order. */
  const Sections: seq<T.Section> := [T.TopPriority, T.Secondary, T.Must, T.Should, T.Could, T.Wont]

  /** `LIMITS`: only the top-priority and secondary sections have a capacity. */
  function BoardLimit(s: T.Section): Option<nat> {
    match s
    case TopPriority => Some(1)
    case Secondary => Some(3)
    case _ => None
  }

  /** Every section is listed exactly once, and only the first two carry a limit. */
  lemma SectionsAndLimits()
    ensures forall s: T.Section :: s in Sections
    ensures forall i, j :: 0 <= i < j < |Sections| ==> Sections[i] != Sections[j]
    ensures forall i :: 0 <= i < |Sections| ==> (BoardLimit(Sections[i]).Some? <==> i < 2)
  {
    forall s: T.Section
      ensures s in Sections
    {
      var k := match s
        case TopPriority => 0 case Secondary => 1 case Must => 2
        case Should => 3 case Could => 4 case Wont => 5;
      assert Sections[k] == s;
    }
  }

  /** What the board uses of a loaded task: its id, section and rank. */
  datatype Card = Card(id: nat, section: T.Section, rank: int)

  /** `tasks.filter(t => t.section === s)`. */
  function InSection(tasks: seq<Card>, s: T.Section): (r: seq<Card>)
    ensures forall c :: c in r <==> c in tasks && c.section == s
    ensures forall i :: 0 <= i < |r| ==> r[i].section == s
  {
    if |tasks| == 0 then []
    else if tasks[0].section == s then [tasks[0]] + InSection(tasks[1..], s)
    else InSection(tasks[1..], s)
  }

  function RankKey(): Card -> Key {
    (c: Card) => Key(c.rank, 0)
  }

  /** `grouped[s]`: the tasks of section s, sorted by ascending rank (a stable sort, so equal
      ranks keep the loaded order). */
  function Grouped(tasks: seq<Card>, s: T.Section): (r: seq<Card>)
    ensures multiset(r) == multiset(InSection(tasks, s))
    ensures forall i, j :: 0 <= i < j < |r| ==> r[i].rank <= r[j].rank
    ensures forall c :: c in r <==> c in tasks && c.section == s
  {
    var r := SortBy(InSection(tasks, s), RankKey());
    SortByKeepsMembers(InSection(tasks, s), RankKey());
    assert forall i, j :: 0 <= i < j < |r| ==> KeyLe(RankKey()(r[i]), RankKey()(r[j]));
    r
  }

  /** The six lists together hold each loaded task exactly as often as the list of tasks does:
      every task is in its own section's list and in no other. */
  lemma {:induction false} GroupedPartition(tasks: seq<Card>)
    ensures multiset(Grouped(tasks, T.TopPriority)) + multiset(Grouped(tasks, T.Secondary))
      + multiset(Grouped(tasks, T.Must)) + multiset(Grouped(tasks, T.Should))
      + multiset(Grouped(tasks, T.Could)) + multiset(Grouped(tasks, T.Wont)) == multiset(tasks)
  {
    FiltersPartition(tasks);
  }

  lemma FiltersPartition(tasks: seq<Card>)
    ensures multiset(InSection(tasks, T.TopPriority)) + multiset(InSection(tasks, T.Secondary))
      + multiset(InSection(tasks, T.Must)) + multiset(InSection(tasks, T.Should))
      + multiset(InSection(tasks, T.Could)) + multiset(InSection(tasks, T.Wont)) == multiset(tasks)
  {
    var m1, m2, m3 := multiset(InSection(tasks, T.TopPriority)), multiset(InSection(tasks, T.Secondary)),
      multiset(InSection(tasks, T.Must));
    var m4, m5, m6 := multiset(InSection(tasks, T.Should)), multiset(InSection(tasks, T.Could)),
      multiset(InSection(tasks, T.Wont));
    forall c: Card
      ensures (m1 + m2 + m3 + m4 + m5 + m6)[c] == multiset(tasks)[c]
    {
      InSectionCount(tasks, T.TopPriority, c);
      InSectionCount(tasks, T.Secondary, c);
      InSectionCount(tasks, T.Must, c);
      InSectionCount(tasks, T.Should, c);
      InSectionCount(tasks, T.Could, c);
      InSectionCount(tasks, T.Wont, c);
    }
    assert m1 + m2 + m3 + m4 + m5 + m6 == multiset(tasks);
  }

  /** A card occurs in a section's filter as often as in the tasks when it belongs to that
      section, and not at all otherwise. */
  lemma {:induction false} InSectionCount(tasks: seq<Card>, s: T.Section, c: Card)
    ensures multiset(InSection(tasks, s))[c] == if c.section == s then multiset(tasks)[c] else 0
  {
    if |tasks| > 0 {
      InSectionCount(tasks[1..], s, c);
      assert tasks == [tasks[0]] + tasks[1..];
    }
  }

  /** `findIndex(t => t._id === id)`: the position of the first card with that id, or -1. */
  function IndexOf(cards: seq<Card>, id: nat): (r: int)
    ensures -1 <= r < |cards|
    ensures r >= 0 ==> cards[r].id == id && forall j :: 0 <= j < r ==> cards[j].id != id
    ensures r < 0 <==> forall j :: 0 <= j < |cards| ==> cards[j].id != id
  {
    if |cards| == 0 then -1
    else if cards[0].id == id then 0
    else
      var rest := IndexOf(cards[1..], id);
      if rest < 0 then -1 else rest + 1
  }

  /** `tasks.find(t => t._id === id)`: the first loaded task with that id. */
  function Find(tasks: seq<Card>, id: nat): (r: Option<Card>)
    ensures r.None? <==> forall i :: 0 <= i < |tasks| ==> tasks[i].id != id
    ensures r.Some? ==> r.value.id == id
    ensures r.Some? ==> exists i :: 0 <= i < |tasks| && tasks[i] == r.value && forall j :: 0 <= j < i ==> tasks[j].id != id
  {
    var i := IndexOf(tasks, id);
    if i < 0 then None else Some(tasks[i])
  }

  /** The rank a task dropped onto a section's empty area receives: one above the last of the
      section's sorted list, or 0 when the section is empty. Because the list is sorted, this
      lies above every task of the section and is reached from its highest one. */
  function TrailingRank(tasks: seq<Card>, s: T.Section): (r: int)
    ensures forall c :: c in tasks && c.section == s ==> c.rank < r
    ensures (forall c :: c in tasks ==> c.section != s) ==> r == 0
    ensures (exists c :: c in tasks && c.section == s) ==>
      exists c :: c in tasks && c.section == s && r == c.rank + 1
  {
    var g := Grouped(tasks, s);
    if |g| > 0 then
      assert g[|g| - 1] in g;
      assert forall c :: c in tasks && c.section == s ==> c.rank <= g[|g| - 1].rank by {
        forall c | c in tasks && c.section == s
          ensures c.rank <= g[|g| - 1].rank
        {
          var i :| 0 <= i < |g| && g[i] == c;
        }
      }
      g[|g| - 1].rank + 1
    else
      assert forall c :: c in tasks ==> c.section != s;
      0
  }

  /** Where a drag ended: the empty area of a section, or another task. */
  datatype DropTarget = SectionArea(section: T.Section) | OnTask(id: nat)

  /** `onReorder(activeTask, targetSection, newRank)`. */
  datatype Move = Move(task: Card, section: T.Section, rank: int)

  /** handleDragEnd: no request without a drop target or when the dragged task is not loaded;
      a drop on a section targets its trailing rank, a drop on a task targets that task's
      section and rank (whichever side it is dragged from), and a drop on an id that is neither
      keeps the task where it is. A request is sent only when the target differs from where the
      task already is. */
  method DragEnd(tasks: seq<Card>, active: nat, over: Option<DropTarget>) returns (move: Option<Move>)
    ensures over.None? || Find(tasks, active).None? ==> move.None?
    ensures move.Some? ==> Find(tasks, active) == Some(move.value.task)
    ensures move.Some? ==> move.value.section != move.value.task.section || move.value.rank != move.value.task.rank
    ensures over.Some? && over.value.SectionArea? && Find(tasks, active).Some? ==>
      var a := Find(tasks, active).value;
      var s := over.value.section;
      (move.Some? <==> s != a.section || TrailingRank(tasks, s) != a.rank)
      && (move.Some? ==> move.value.section == s && move.value.rank == TrailingRank(tasks, s))
    ensures over.Some? && over.value.OnTask? && Find(tasks, active).Some? && Find(tasks, over.value.id).Some? ==>
      var a := Find(tasks, active).value;
      var o := Find(tasks, over.value.id).value;
      (move.Some? <==> o.section != a.section || o.rank != a.rank)
      && (move.Some? ==> move.value.section == o.section && move.value.rank == o.rank)
    ensures over.Some? && over.value.OnTask? && Find(tasks, over.value.id).None? ==> move.None?
  {
    if over.None? {
      return None;
    }
    var found := Find(tasks, active);
    if found.None? {
      return None;
    }
    var activeTask := found.value;
    var targetSection := activeTask.section;
    var newRank := activeTask.rank;
    match over.value {
      case SectionArea(s) =>
        targetSection := s;
        var targetTasks := Grouped(tasks, targetSection);
        newRank := if |targetTasks| > 0 then targetTasks[|targetTasks| - 1].rank + 1 else 0;
      case OnTask(id) =>
        var overTask := Find(tasks, id);
        if overTask.Some? {
          targetSection := overTask.value.section;
          var sectionTasks := Grouped(tasks, targetSection);
          var overIndex := IndexOf(sectionTasks, id);
          var activeIndex := IndexOf(sectionTasks, active);
          if targetSection == activeTask.section && activeIndex < overIndex {
            newRank := overTask.value.rank;
          } else {
            newRank := overTask.value.rank;
          }
        }
    }
    if activeTask.section != targetSection || activeTask.rank != newRank {
      move := Some(Move(activeTask, targetSection, newRank));
    } else {
      move := None;
    }
  }
}
