/**
 * The daily plan (`planejamento-diario.ts`): one plan per day stored under a
 * dated key, its task list with status and most-important-task (MIT) flags, the
 * progress ring's percentage, the list shown with or without completed tasks,
 * and the MIT summary. New ids and the answer to the delete confirmation are
 * parameters.
 */
module PlanejamentoDiario {
  import opened Text
  import opened Seqs
  import opened Wrappers

  datatype DailyTask = DailyTask(id: string, description: string, intention: string, completed: bool, mit: bool)

  datatype DailyPlan = DailyPlan(tasks: seq<DailyTask>, reflection: string)

  const EmptyPlan: DailyPlan := DailyPlan([], "")

  const StoragePrefix: string := "daily-plan-"

  /** `getStorageKey`. Different days never share a key. */
  function StorageKey(date: string): (k: string)
    ensures StartsWith(k, StoragePrefix) && k[|StoragePrefix|..] == date
  {
    StoragePrefix + date
  }

  lemma StorageKeyInjective(a: string, b: string)
    requires StorageKey(a) == StorageKey(b)
    ensures a == b
  {
    assert a == StorageKey(a)[|StoragePrefix|..];
  }

  function IsDone(): DailyTask -> bool {
    (t: DailyTask) => t.completed
  }

  function IsOpen(): DailyTask -> bool {
    (t: DailyTask) => !t.completed
  }

  function IsMit(): DailyTask -> bool {
    (t: DailyTask) => t.mit
  }

  function HasId(id: string): DailyTask -> bool {
    (t: DailyTask) => t.id == id
  }

  function LacksId(id: string): DailyTask -> bool {
    (t: DailyTask) => t.id != id
  }

  /**
   * `Math.round(done / total * 100)` on exact numbers: the percentage within half
   * a point of `100 * done / total`, a half rounding up.
   */
  function RoundPercent(done: nat, total: nat): (p: nat)
    requires 0 < total && done <= total
    ensures p <= 100
    ensures 2 * total * p <= 200 * done + total < 2 * total * (p + 1)
  {
    QuotientAtMostHundred(done, total);
    (200 * done + total) / (2 * total)
  }

  lemma QuotientAtMostHundred(done: nat, total: nat)
    requires 0 < total && done <= total
    ensures var q := (200 * done + total) / (2 * total);
      q <= 100 && 2 * total * q <= 200 * done + total < 2 * total * (q + 1)
  {
    var a := 200 * done + total;
    var b := 2 * total;
    DivBounds(a, b);
    var q := a / b;
    if q > 100 {
      MulMono(b, 101, q);
    }
  }

  lemma DivBounds(a: nat, b: nat)
    requires b > 0
    ensures b * (a / b) <= a < b * (a / b + 1)
  {
  }

  lemma MulMono(b: nat, x: nat, y: nat)
    requires x <= y
    ensures b * x <= b * y
  {
  }

  /**
   * `updateProgress`: 0 without tasks, otherwise the rounded share of completed
   * tasks in percent.
   */
  function Progress(tasks: seq<DailyTask>): (p: int)
    ensures 0 <= p <= 100
    ensures tasks == [] ==> p == 0
    ensures tasks != [] ==> p == RoundPercent(Count(tasks, IsDone()), |tasks|)
  {
    var totalTasks := |tasks|;
    if totalTasks == 0 then 0
    else
      var completedTasks := |Filter(tasks, IsDone())|;
      FilterCount(tasks, IsDone());
      RoundPercent(completedTasks, totalTasks)
  }

  /** Every task done reads as 100%, none done as 0%. */
  lemma ProgressExtremes(done: nat, total: nat)
    requires 0 < total && done <= total
    ensures done == total ==> RoundPercent(done, total) == 100
    ensures done == 0 ==> RoundPercent(done, total) == 0
  {
    var p := RoundPercent(done, total);
    if done == total && p < 100 {
      MulMono(2 * total, p + 1, 100);
      assert false;
    }
  }

  /** `renderTasks`: everything, or only the tasks still open. */
  function Visible(tasks: seq<DailyTask>, showCompleted: bool): (r: seq<DailyTask>)
    ensures showCompleted ==> r == tasks
    ensures !showCompleted ==>
      && (forall k :: 0 <= k < |r| ==> !r[k].completed && r[k] in tasks)
      && (forall k :: 0 <= k < |tasks| && !tasks[k].completed ==> tasks[k] in r)
  {
    if showCompleted then tasks else Filter(tasks, IsOpen())
  }

  /** Whether the "all tasks done" line replaces the list. */
  function AllDoneShown(tasks: seq<DailyTask>, showCompleted: bool): bool {
    |Visible(tasks, showCompleted)| == 0 && |tasks| > 0
  }

  /** The line appears exactly when completed tasks are hidden, there are tasks, and every one is done. */
  lemma {:induction false} AllDoneIff(tasks: seq<DailyTask>, showCompleted: bool)
    ensures AllDoneShown(tasks, showCompleted) <==>
      !showCompleted && tasks != [] && forall k :: 0 <= k < |tasks| ==> tasks[k].completed
  {
    FilterCount(tasks, IsOpen());
    CountZero(tasks, IsOpen());
  }

  /** The MIT summary: the invitation to pick MITs, or the count with its plural. */
  datatype MitSummary = DefineMits | MitsToday(count: nat, plural: bool)

  function MitSummaryOf(tasks: seq<DailyTask>): (s: MitSummary)
    ensures s.DefineMits? <==> Count(tasks, IsMit()) == 0
    ensures s.MitsToday? ==> s.count == Count(tasks, IsMit()) && (s.plural <==> s.count > 1)
  {
    var mitCount := |Filter(tasks, IsMit())|;
    FilterCount(tasks, IsMit());
    if mitCount > 0 then MitsToday(mitCount, mitCount > 1) else DefineMits
  }

  /** A click inside the list of tasks. */
  datatype PlanClick = StatusToggle | MitToggle | DeleteButton | TextArea | Elsewhere

  /** `dailyPlan.tasks.find(t => t.id === taskId)`, as an index. */
  function Found(tasks: seq<DailyTask>, taskId: Option<string>): (i: int)
    ensures -1 <= i < |tasks|
    ensures i >= 0 ==> taskId.Some? && tasks[i].id == taskId.value && forall k :: 0 <= k < i ==> tasks[k].id != taskId.value
    ensures i == -1 <==> taskId.None? || forall k :: 0 <= k < |tasks| ==> tasks[k].id != taskId.value
  {
    if taskId.None? then -1 else FindIndex(tasks, HasId(taskId.value))
  }

  /**
   * The tasks after `handleTaskListActions`: the toggles flip one flag of the
   * first task with the id and nothing else; a confirmed delete drops every task
   * with the id and keeps the others in order.
   */
  function AfterAction(tasks: seq<DailyTask>, taskId: Option<string>, click: PlanClick, confirmed: bool): (r: seq<DailyTask>)
    ensures var i := Found(tasks, taskId);
      && (i == -1 || click == TextArea || click == Elsewhere ==> r == tasks)
      && (i >= 0 && click == StatusToggle ==>
            |r| == |tasks| && r[i] == tasks[i].(completed := !tasks[i].completed)
            && forall k :: 0 <= k < |r| && k != i ==> r[k] == tasks[k])
      && (i >= 0 && click == MitToggle ==>
            |r| == |tasks| && r[i] == tasks[i].(mit := !tasks[i].mit)
            && forall k :: 0 <= k < |r| && k != i ==> r[k] == tasks[k])
      && (i >= 0 && click == DeleteButton && !confirmed ==> r == tasks)
      && (i >= 0 && click == DeleteButton && confirmed ==>
            r == Filter(tasks, LacksId(taskId.value))
            && (forall k :: 0 <= k < |r| ==> r[k].id != taskId.value)
            && (forall k :: 0 <= k < |tasks| && tasks[k].id != taskId.value ==> tasks[k] in r))
  {
    var i := Found(tasks, taskId);
    if i == -1 then tasks
    else match click
      case StatusToggle => tasks[i := tasks[i].(completed := !tasks[i].completed)]
      case MitToggle => tasks[i := tasks[i].(mit := !tasks[i].mit)]
      case DeleteButton => if confirmed then Filter(tasks, LacksId(taskId.value)) else tasks
      case TextArea => tasks
      case Elsewhere => tasks
  }

  /** Whether the handler reaches `savePlan`. */
  predicate ActionSaves(tasks: seq<DailyTask>, taskId: Option<string>, click: PlanClick) {
    Found(tasks, taskId) >= 0 && (click == StatusToggle || click == MitToggle || click == DeleteButton)
  }

  /** Toggling the MIT flag of a task moves the MIT count by exactly one. */
  lemma {:induction false} MitToggleMovesCount(tasks: seq<DailyTask>, id: string)
    requires Found(tasks, Some(id)) >= 0
    ensures var i := Found(tasks, Some(id));
      var after := Count(AfterAction(tasks, Some(id), MitToggle, false), IsMit());
      if tasks[i].mit then after == Count(tasks, IsMit()) - 1 else after == Count(tasks, IsMit()) + 1
  {
    var i := Found(tasks, Some(id));
    var r := AfterAction(tasks, Some(id), MitToggle, false);
    assert tasks == tasks[..i] + [tasks[i]] + tasks[i + 1..];
    assert r == tasks[..i] + [r[i]] + tasks[i + 1..];
    CountAppend(tasks[..i] + [tasks[i]], tasks[i + 1..], IsMit());
    CountAppend(tasks[..i], [tasks[i]], IsMit());
    CountAppend(tasks[..i] + [r[i]], tasks[i + 1..], IsMit());
    CountAppend(tasks[..i], [r[i]], IsMit());
    assert [tasks[i]][1..] == [] && [r[i]][1..] == [];
  }

  /** Toggling the status of the same task twice restores the list. */
  lemma {:induction false} StatusToggleTwice(tasks: seq<DailyTask>, id: string)
    ensures AfterAction(AfterAction(tasks, Some(id), StatusToggle, false), Some(id), StatusToggle, false) == tasks
  {
    var i := Found(tasks, Some(id));
    if i >= 0 {
      var once := AfterAction(tasks, Some(id), StatusToggle, false);
      assert once[i].id == id;
      assert forall k :: 0 <= k < i ==> once[k].id != id;
      assert Found(once, Some(id)) == i;
    }
  }

  /** Which text area an input event comes from. */
  datatype TextField = DescriptionField | IntentionField | OtherField

  /**
   * The tasks after `handleTaskTextChange`: the description or the intention of
   * the first task with the id takes the typed value; nothing else changes.
   */
  function AfterTextChange(tasks: seq<DailyTask>, taskId: Option<string>, field: TextField, value: string): (r: seq<DailyTask>)
    ensures |r| == |tasks|
    ensures var i := Found(tasks, taskId);
      && (i == -1 || field == OtherField ==> r == tasks)
      && (i >= 0 && field == DescriptionField ==> r[i] == tasks[i].(description := value))
      && (i >= 0 && field == IntentionField ==> r[i] == tasks[i].(intention := value))
      && forall k :: 0 <= k < |r| && k != i ==> r[k] == tasks[k]
  {
    var i := Found(tasks, taskId);
    if i == -1 then tasks
    else match field
      case DescriptionField => tasks[i := tasks[i].(description := value)]
      case IntentionField => tasks[i := tasks[i].(intention := value)]
      case OtherField => tasks
  }

  /** The page: the chosen day, its plan, and the stored plans by key. */
  /**
   * The day `showPlanejamentoDiarioPage` opens on: the stored last day unless it
   * is missing or empty, otherwise today (a parameter).
   */
  function OpeningDate(lastDate: Option<string>, today: string): (d: string)
    ensures lastDate.Some? && lastDate.value != [] ==> d == lastDate.value
    ensures lastDate.None? || lastDate.value == [] ==> d == today
  {
    if lastDate.Some? && Truthy(lastDate.value) then lastDate.value else today
  }

  class DailyPlanner {
    var currentDate: string
    var dailyPlan: DailyPlan
    var saved: map<string, DailyPlan>
    /** The stored `daily-plan-last-date` entry. */
    var lastDate: Option<string>

    /** `loadPlan` for a day: the stored plan, or an empty one. */
    function Stored(date: string): (p: DailyPlan)
      reads this
      ensures StorageKey(date) in saved ==> p == saved[StorageKey(date)]
      ensures StorageKey(date) !in saved ==> p == EmptyPlan && p.tasks == [] && p.reflection == ""
    {
      var key := StorageKey(date);
      if key in saved then saved[key] else EmptyPlan
    }

    /** Opening the page: the last day chosen, or today, with its plan loaded. */
    constructor (lastDate: Option<string>, today: string, saved: map<string, DailyPlan>)
      ensures currentDate == OpeningDate(lastDate, today) && this.saved == saved && this.lastDate == lastDate
      ensures dailyPlan == Stored(currentDate)
    {
      var date := if lastDate.Some? && Truthy(lastDate.value) then lastDate.value else today;
      currentDate := date;
      this.saved := saved;
      this.lastDate := lastDate;
      var key := StorageKey(date);
      dailyPlan := if key in saved then saved[key] else EmptyPlan;
    }

    /** `savePlan`. */
    method SavePlan()
      modifies this`saved
      ensures saved == old(saved)[StorageKey(currentDate) := dailyPlan]
      ensures Stored(currentDate) == dailyPlan
    {
      saved := saved[StorageKey(currentDate) := dailyPlan];
    }

    /**
     * `handleDateChange`: switch to the day, remember it as the last day and load
     * its plan; a later opening of the page resumes on that day unless it is empty.
     */
    method ChangeDate(date: string)
      modifies this
      ensures currentDate == date && saved == old(saved) && lastDate == Some(date)
      ensures dailyPlan == Stored(date)
      ensures date != [] ==> forall today :: OpeningDate(lastDate, today) == date
    {
      currentDate := date;
      lastDate := Some(date);
      var key := StorageKey(date);
      dailyPlan := if key in saved then saved[key] else EmptyPlan;
    }

    /**
     * `handleAddTask`: an empty trimmed description is ignored; otherwise one
     * open, non-MIT task without intention is appended and the plan is saved.
     */
    method AddTask(input: string, newId: string)
      modifies this`dailyPlan, this`saved
      ensures currentDate == old(currentDate) && dailyPlan.reflection == old(dailyPlan.reflection)
      ensures Trim(input) == [] ==> dailyPlan == old(dailyPlan) && saved == old(saved)
      ensures Trim(input) != [] ==>
        && dailyPlan.tasks == old(dailyPlan.tasks) + [DailyTask(newId, Trim(input), "", false, false)]
        && saved == old(saved)[StorageKey(currentDate) := dailyPlan]
    {
      var description := Trim(input);
      if !Truthy(description) {
        return;
      }
      var newTask := DailyTask(newId, description, "", false, false);
      var plan := DailyPlan(dailyPlan.tasks + [newTask], dailyPlan.reflection);
      dailyPlan := plan;
      // `savePlan()`
      saved := saved[StorageKey(currentDate) := plan];
    }

    /** `handleTaskListActions`. */
    method TaskListAction(taskId: Option<string>, click: PlanClick, confirmed: bool)
      modifies this`dailyPlan, this`saved
      ensures currentDate == old(currentDate) && dailyPlan.reflection == old(dailyPlan.reflection)
      ensures dailyPlan.tasks == AfterAction(old(dailyPlan.tasks), taskId, click, confirmed)
      ensures ActionSaves(old(dailyPlan.tasks), taskId, click) ==> saved == old(saved)[StorageKey(currentDate) := dailyPlan]
      ensures !ActionSaves(old(dailyPlan.tasks), taskId, click) ==> saved == old(saved)
    {
      var i := Found(dailyPlan.tasks, taskId);
      if i == -1 {
        return;
      }
      var task := dailyPlan.tasks[i];
      if click == StatusToggle {
        dailyPlan := dailyPlan.(tasks := dailyPlan.tasks[i := task.(completed := !task.completed)]);
      } else if click == MitToggle {
        dailyPlan := dailyPlan.(tasks := dailyPlan.tasks[i := task.(mit := !task.mit)]);
      } else if click == DeleteButton {
        if confirmed {
          dailyPlan := dailyPlan.(tasks := Filter(dailyPlan.tasks, LacksId(taskId.value)));
        }
      } else {
        return;
      }
      SavePlan();
    }

    /** `handleTaskTextChange`: the typed text goes into that id's task, and the plan is saved whenever such a task exists. */
    method TaskTextChange(taskId: Option<string>, field: TextField, value: string)
      modifies this`dailyPlan, this`saved
      ensures currentDate == old(currentDate) && dailyPlan.reflection == old(dailyPlan.reflection)
      ensures dailyPlan.tasks == AfterTextChange(old(dailyPlan.tasks), taskId, field, value)
      ensures Found(old(dailyPlan.tasks), taskId) >= 0 ==> saved == old(saved)[StorageKey(currentDate) := dailyPlan]
      ensures Found(old(dailyPlan.tasks), taskId) == -1 ==> saved == old(saved)
    {
      var i := Found(dailyPlan.tasks, taskId);
      if i == -1 {
        return;
      }
      var task := dailyPlan.tasks[i];
      if field == DescriptionField {
        dailyPlan := dailyPlan.(tasks := dailyPlan.tasks[i := task.(description := value)]);
      } else if field == IntentionField {
        dailyPlan := dailyPlan.(tasks := dailyPlan.tasks[i := task.(intention := value)]);
      }
      SavePlan();
    }

    /** The reflection text area autosaves what is typed. */
    method ReflectionChange(value: string)
      modifies this`dailyPlan, this`saved
      ensures currentDate == old(currentDate)
      ensures dailyPlan == old(dailyPlan).(reflection := value)
      ensures saved == old(saved)[StorageKey(currentDate) := dailyPlan]
    {
      dailyPlan := dailyPlan.(reflection := value);
      SavePlan();
    }
  }
}
