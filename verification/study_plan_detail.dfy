/** The plan page: the schedule grouped by day and listed in day order, and
    which study modes can be started for the plan. */
module StudyPlanDetail {
  import opened Common

  /** A scheduled task as the page receives it; `dayNumber` may be null. */
  datatype PageTask = PageTask(id: int, dayNumber: Option<int>, mode: string, completed: bool)

  /** `task.day_number || 0`: a missing day and day 0 both land on 0. */
  function DayKey(t: PageTask): (d: int)
    ensures t.dayNumber.Some? && t.dayNumber.value != 0 ==> d == t.dayNumber.value
    ensures t.dayNumber.None? || t.dayNumber.value == 0 ==> d == 0
  {
    match t.dayNumber
    case None => 0
    case Some(n) => if n == 0 then 0 else n
  }

  function Days(tasks: seq<PageTask>): set<int>
  {
    set t | t in tasks :: DayKey(t)
  }

  /** The tasks of one day, in schedule order. */
  function TasksOn(tasks: seq<PageTask>, d: int): (r: seq<PageTask>)
    ensures forall t :: t in r <==> t in tasks && DayKey(t) == d
  {
    if tasks == [] then []
    else
      var t := tasks[|tasks| - 1];
      TasksOn(tasks[..|tasks| - 1], d) + (if DayKey(t) == d then [t] else [])
  }

  /** `tasksByDay`: the reduce that pushes every task onto its day's list. */
  function GroupByDay(tasks: seq<PageTask>): (m: map<int, seq<PageTask>>)
    ensures Grouped(tasks, m)
  {
    if tasks == [] then map[]
    else
      var m := GroupByDay(tasks[..|tasks| - 1]);
      GroupStep(tasks, m);
      Push(m, tasks[|tasks| - 1])
  }

  /** One day group per day of the schedule, holding that day's tasks in
      schedule order. */
  predicate Grouped(tasks: seq<PageTask>, m: map<int, seq<PageTask>>)
  {
    && m.Keys == Days(tasks)
    && forall d :: d in m ==> m[d] == TasksOn(tasks, d)
  }

  /** `(acc[day] ||= []).push(task)` */
  function Push(m: map<int, seq<PageTask>>, t: PageTask): map<int, seq<PageTask>>
  {
    m[DayKey(t) := (if DayKey(t) in m then m[DayKey(t)] else []) + [t]]
  }

  lemma {:induction false} GroupStep(tasks: seq<PageTask>, m: map<int, seq<PageTask>>)
    requires tasks != [] && Grouped(tasks[..|tasks| - 1], m)
    ensures Grouped(tasks, Push(m, tasks[|tasks| - 1]))
  {
    var r := Push(m, tasks[|tasks| - 1]);
    DaysStep(tasks);
    forall d | d in r ensures r[d] == TasksOn(tasks, d) {
      GroupStepAt(tasks, m, d);
    }
  }

  lemma {:induction false} GroupStepAt(tasks: seq<PageTask>, m: map<int, seq<PageTask>>, d: int)
    requires tasks != []
    requires m.Keys == Days(tasks[..|tasks| - 1])
    requires d in m ==> m[d] == TasksOn(tasks[..|tasks| - 1], d)
    ensures var r := Push(m, tasks[|tasks| - 1]); d in r ==> r[d] == TasksOn(tasks, d)
  {
    var init := tasks[..|tasks| - 1];
    var t := tasks[|tasks| - 1];
    TasksOnStep(tasks, d);
    if d == DayKey(t) && d !in m {
      NoTasksOn(init, d);
    }
  }

  lemma TasksOnStep(tasks: seq<PageTask>, d: int)
    requires tasks != []
    ensures TasksOn(tasks, d) == TasksOn(tasks[..|tasks| - 1], d) + (if DayKey(tasks[|tasks| - 1]) == d then [tasks[|tasks| - 1]] else [])
  {
  }

  lemma {:induction false} DaysStep(tasks: seq<PageTask>)
    requires tasks != []
    ensures Days(tasks) == Days(tasks[..|tasks| - 1]) + {DayKey(tasks[|tasks| - 1])}
  {
    var init := tasks[..|tasks| - 1];
    var t := tasks[|tasks| - 1];
    assert tasks == init + [t];
    forall d ensures d in Days(tasks) <==> d in Days(init) || d == DayKey(t) {
      if d in Days(tasks) {
        var x :| x in tasks && DayKey(x) == d;
        assert x in init || x == t;
      }
      if d in Days(init) {
        var x :| x in init && DayKey(x) == d;
        assert x in tasks;
      }
    }
  }

  lemma NoTasksOn(tasks: seq<PageTask>, d: int)
    requires d !in Days(tasks)
    ensures TasksOn(tasks, d) == []
  {
  }

  /** Every task sits in the group of its own day and in no other. */
  lemma ExactlyOneGroup(tasks: seq<PageTask>, t: PageTask)
    requires t in tasks
    ensures var m := GroupByDay(tasks);
      && DayKey(t) in m && t in m[DayKey(t)]
      && forall d :: d in m && d != DayKey(t) ==> t !in m[d]
  {
  }

  /** Every task of a group belongs to the schedule. */
  lemma GroupsComeFromTasks(tasks: seq<PageTask>, d: int, t: PageTask)
    ensures d in GroupByDay(tasks) && t in GroupByDay(tasks)[d] ==> t in tasks && DayKey(t) == d
  {
  }

  ghost predicate Increasing(s: seq<int>)
  {
    forall i, j :: 0 <= i < j < |s| ==> s[i] < s[j]
  }

  /** One day put in its place in an increasing list, unless it is there. */
  function InsertDay(x: int, s: seq<int>): (r: seq<int>)
    requires Increasing(s)
    ensures Increasing(r)
    ensures forall y :: y in r <==> y in s || y == x
  {
    if s == [] then [x]
    else if x < s[0] then [x] + s
    else if x == s[0] then s
    else
      var rest := InsertDay(x, s[1..]);
      assert forall k :: 0 <= k < |rest| ==> rest[k] in rest;
      [s[0]] + rest
  }

  /** The day headings: `Object.entries(tasksByDay)` sorted by the numeric
      day, each day once. */
  function DayOrder(tasks: seq<PageTask>): (r: seq<int>)
    ensures Increasing(r)
    ensures forall d :: d in r <==> d in Days(tasks)
  {
    if tasks == [] then []
    else
      var init := tasks[..|tasks| - 1];
      assert tasks == init + [tasks[|tasks| - 1]];
      InsertDay(DayKey(tasks[|tasks| - 1]), DayOrder(init))
  }

  /** The page lists each group once, in ascending day order. */
  lemma DayOrderMatchesGroups(tasks: seq<PageTask>)
    ensures forall d :: d in DayOrder(tasks) <==> d in GroupByDay(tasks)
    ensures forall i :: 0 <= i < |DayOrder(tasks)| - 1 ==> DayOrder(tasks)[i] < DayOrder(tasks)[i + 1]
  {
  }

  /** The mode buttons of the plan page. */
  const StudyModes: seq<string> := ["learn", "quiz", "match", "write", "fill_gaps", "short_test", "long_test"]

  /** `isAvailable`: fill-the-gaps needs a vocabulary plan; every other
      mode can always be started. */
  function ModeAvailable(category: Option<string>, mode: string): (ok: bool)
    ensures mode != "fill_gaps" ==> ok
    ensures mode == "fill_gaps" ==> (ok <==> category == Some("vocabulary"))
  {
    category == Some("vocabulary") || mode != "fill_gaps"
  }

  /** On a plan that is not about vocabulary exactly one button is
      disabled; on a vocabulary plan none is. */
  lemma AvailableButtons(category: Option<string>)
    ensures category == Some("vocabulary") ==> forall k :: 0 <= k < |StudyModes| ==> ModeAvailable(category, StudyModes[k])
    ensures category != Some("vocabulary") ==>
      forall k :: 0 <= k < |StudyModes| ==> (ModeAvailable(category, StudyModes[k]) <==> k != 4)
  {
  }
}
