/**
 * The older task manager inside `index.tsx` (`initTarefasPage`). It shares the
 * filter chain of `tarefas.ts` but compares due dates as `Date` values, does not
 * sort, counts zero pages for an empty list, replaces an edited task wholesale,
 * trims new category names and makes a new category the active one.
 */
module IndexTasks {
  import opened Text
  import opened Seqs
  import opened Wrappers
  import opened Tarefas

  const DefaultTaskCategories: seq<string> := ["Pessoal", "Trabalho", "Estudos"]

  /**
   * `getFilteredTasks`: the selected tasks in their stored order. `before(d)`
   * stands for `new Date(d + 'T00:00:00') < today`.
   */
  function FilteredTasks(tasks: seq<Task>, category: string, search: string, f: StatusFilter, before: string -> bool): (r: seq<Task>)
    ensures forall k :: 0 <= k < |r| ==> r[k] in tasks && Selected(r[k], category, search, f, before)
    ensures forall k :: 0 <= k < |tasks| && Selected(tasks[k], category, search, f, before) ==> tasks[k] in r
    ensures r == Filter(tasks, SelectedBy(category, search, f, before))
  {
    Narrow(tasks, category, search, f, before)
  }

  /** The selection keeps relative order: narrowing a concatenation narrows each part. */
  lemma FilteredTasksKeepOrder(a: seq<Task>, b: seq<Task>, category: string, search: string, f: StatusFilter, before: string -> bool)
    ensures FilteredTasks(a + b, category, search, f, before)
         == FilteredTasks(a, category, search, f, before) + FilteredTasks(b, category, search, f, before)
  {
    FilterAppend(a, b, SelectedBy(category, search, f, before));
  }

  /** `Math.ceil(count / 10)`, which is zero for an empty list. */
  function PageCount(n: nat): (r: nat)
    ensures r == 0 <==> n == 0
    ensures n <= r * TasksPerPage
    ensures r > 0 ==> (r - 1) * TasksPerPage < n
  {
    (n + TasksPerPage - 1) / TasksPerPage
  }

  /** Apart from the empty list, the page count is the one `tarefas.ts` shows. */
  lemma PageCountMatches(n: nat)
    ensures PageCount(n) == if n == 0 then 0 else TotalPages(n)
  {
  }

  /** What `updatePaginationControls` writes. */
  datatype ControlsView = ControlsView(startItem: int, endItem: int, count: nat, shownTotal: nat, prevDisabled: bool, nextDisabled: bool)

  function PaginationControls(count: nat, totalPages: nat, page: int): (v: ControlsView)
    requires page >= 1
    ensures v.startItem == 0 <==> count == 0
    ensures count > 0 ==> v.startItem == (page - 1) * TasksPerPage + 1
    ensures v.endItem == Min(page * TasksPerPage, count) && v.count == count
    ensures v.shownTotal >= 1 && (totalPages > 0 ==> v.shownTotal == totalPages)
    ensures v.prevDisabled <==> page == 1
    ensures v.nextDisabled <==> page == totalPages || totalPages == 0
  {
    ControlsView(
      if count > 0 then (page - 1) * TasksPerPage + 1 else 0,
      Min(page * TasksPerPage, count),
      count,
      if totalPages > 0 then totalPages else 1,
      page == 1,
      page == totalPages || totalPages == 0)
  }

  /**
   * On a page that exists, the two copies show the same range, page total and
   * buttons; on an empty list this copy keeps the next button disabled on every page.
   */
  lemma ControlsAgreeWithTarefas(n: nat, page: int)
    requires page >= 1
    ensures var v := PaginationControls(n, PageCount(n), page);
      var w := Pagination(page, n);
      && (n > 0 && page <= TotalPages(n) ==> v.startItem == w.first && v.endItem == w.last)
      && v.shownTotal == w.totalPages && v.prevDisabled == w.prevDisabled
      && (n > 0 ==> v.nextDisabled == w.nextDisabled)
      && (n == 0 ==> v.nextDisabled && v.startItem == 0 && v.endItem == 0)
  {
    PageCountMatches(n);
  }

  /** The edited task, taken whole from the form. */
  function FormTask(id: string, form: TaskForm, completed: bool): Task {
    Task(id, form.title, form.description, form.dueDate, form.priority, form.category, completed)
  }

  /** `tasks.find(t => t.id === id)?.completed ?? false`. */
  function CompletedOf(tasks: seq<Task>, id: string): (b: bool)
    ensures b <==> (exists k :: 0 <= k < |tasks| && tasks[k].id == id && tasks[k].completed
                               && forall j :: 0 <= j < k ==> tasks[j].id != id)
  {
    var i := FindIndex(tasks, HasId(id));
    if i == -1 then false else tasks[i].completed
  }

  class IndexTaskBoard {
    var tasks: seq<Task>
    var categories: seq<string>
    var editingTaskId: Option<string>
    var activeCategory: string
    var currentSearch: string
    var currentFilter: string
    var currentPage: int

    predicate Valid()
      reads this
    {
      currentPage >= 1
    }

    constructor ()
      ensures Valid()
      ensures tasks == [] && categories == [] && editingTaskId == None
      ensures activeCategory == AllCategories && currentSearch == "" && currentFilter == "all" && currentPage == 1
    {
      tasks := [];
      categories := [];
      editingTaskId := None;
      activeCategory := AllCategories;
      currentSearch := "";
      currentFilter := "all";
      currentPage := 1;
    }

    /** `loadTasks`: what storage holds, or the defaults. */
    method Load(storedTasks: Option<seq<Task>>, storedCategories: Option<seq<string>>)
      modifies this`tasks, this`categories
      ensures tasks == (if storedTasks.Some? then storedTasks.value else [])
      ensures categories == (if storedCategories.Some? then storedCategories.value else DefaultTaskCategories)
    {
      tasks := if storedTasks.Some? then storedTasks.value else [];
      categories := if storedCategories.Some? then storedCategories.value else DefaultTaskCategories;
    }

    function Filtered(before: string -> bool): seq<Task>
      reads this
    {
      FilteredTasks(tasks, activeCategory, currentSearch, ParseFilter(currentFilter), before)
    }

    /**
     * The tasks `renderTasks` shows: the slice of the current page, that is the
     * selected tasks from position `(currentPage - 1) * 10` on, at most ten, and
     * none on a page past the end.
     */
    function Shown(before: string -> bool): (r: seq<Task>)
      requires Valid()
      reads this
      ensures var f := Filtered(before); var start := (currentPage - 1) * TasksPerPage;
        && |r| == (if start >= |f| then 0 else Min(TasksPerPage, |f| - start))
        && forall k :: 0 <= k < |r| ==> r[k] == f[start + k]
      ensures forall k :: 0 <= k < |r| ==> r[k] in tasks
    {
      var f := Filtered(before);
      var r := PageOf(f, currentPage);
      assert forall k :: 0 <= k < |r| ==> r[k] in f;
      r
    }

    method OpenTaskModal(task: Option<Task>)
      modifies this`editingTaskId
      ensures editingTaskId == if task.Some? then Some(task.value.id) else None
    {
      editingTaskId := if task.Some? then Some(task.value.id) else None;
    }

    /**
     * `handleFormSubmit`: an edit replaces every task carrying the edited id by
     * the form's task, with the completion of the first such task (false when
     * there is none); otherwise the new task goes to the front, incomplete.
     */
    method SubmitForm(form: TaskForm, newId: string)
      modifies this`tasks
      ensures !Editing(editingTaskId) ==> tasks == [FormTask(newId, form, false)] + old(tasks)
      ensures Editing(editingTaskId) ==>
        var id := editingTaskId.value;
        |tasks| == |old(tasks)|
        && forall k :: 0 <= k < |tasks| ==>
             tasks[k] == if old(tasks)[k].id == id then FormTask(id, form, CompletedOf(old(tasks), id)) else old(tasks)[k]
    {
      var id := if Editing(editingTaskId) then editingTaskId.value else newId;
      var completed := if Editing(editingTaskId) then CompletedOf(tasks, id) else false;
      var taskData := FormTask(id, form, completed);
      if Editing(editingTaskId) {
        var prior := tasks;
        tasks := seq(|prior|, k requires 0 <= k < |prior| => if prior[k].id == id then taskData else prior[k]);
      } else {
        tasks := [taskData] + tasks;
      }
    }

    /** `toggleTaskCompletion`: flips the first task with the id, or nothing. */
    method ToggleTaskCompletion(taskId: string)
      modifies this`tasks
      ensures var i := FindIndex(old(tasks), HasId(taskId));
        tasks == if i == -1 then old(tasks) else old(tasks)[i := old(tasks)[i].(completed := !old(tasks)[i].completed)]
    {
      var i := FindIndex(tasks, HasId(taskId));
      if i != -1 {
        tasks := tasks[i := tasks[i].(completed := !tasks[i].completed)];
      }
    }

    /** `deleteTask`: on confirmation, every task with the id goes. */
    method DeleteTask(taskId: string, confirmed: bool)
      modifies this`tasks
      ensures tasks == if confirmed then Filter(old(tasks), LacksId(taskId)) else old(tasks)
    {
      if confirmed {
        tasks := Filter(tasks, LacksId(taskId));
      }
    }

    /** `handleQuickTaskAdd`: a blank title only warns. */
    method QuickTaskAdd(input: string, newId: string) returns (warned: bool)
      modifies this`tasks
      ensures warned <==> Trim(input) == []
      ensures warned ==> tasks == old(tasks)
      ensures !warned ==>
        tasks == [Task(newId, Trim(input), "", "", Medium,
                       if activeCategory != AllCategories then activeCategory else "", false)] + old(tasks)
    {
      var title := Trim(input);
      if !Truthy(title) {
        return true;
      }
      var category := if activeCategory != AllCategories then activeCategory else "";
      tasks := [Task(newId, title, "", "", Medium, category, false)] + tasks;
      return false;
    }

    /**
     * `handleAddCategory`: the trimmed name is appended when absent and becomes
     * the active category; the page is left as it was.
     */
    method AddCategory(answer: PromptAnswer) returns (result: CategoryResult)
      modifies this`categories, this`activeCategory
      ensures result == CategoryAdded <==> answer.Some? && Trim(answer.value) != [] && Trim(answer.value) !in old(categories)
      ensures result == CategoryExists <==> answer.Some? && Trim(answer.value) != [] && Trim(answer.value) in old(categories)
      ensures result == CategoryAdded ==> categories == old(categories) + [Trim(answer.value)] && activeCategory == Trim(answer.value)
      ensures result != CategoryAdded ==> categories == old(categories) && activeCategory == old(activeCategory)
      ensures NoDuplicates(old(categories)) ==> NoDuplicates(categories)
    {
      if answer.Some? && Truthy(answer.value) && Truthy(Trim(answer.value)) {
        var trimmed := Trim(answer.value);
        if trimmed !in categories {
          categories := categories + [trimmed];
          activeCategory := trimmed;
          return CategoryAdded;
        }
        return CategoryExists;
      }
      return CategoryIgnored;
    }

    /** A category tag (or the `Todas` tag, which carries `all`). */
    method SelectCategory(category: string)
      modifies this`activeCategory, this`currentPage
      ensures activeCategory == category && currentPage == 1 && Valid()
    {
      activeCategory := category;
      currentPage := 1;
    }

    method SetSearch(value: string)
      modifies this`currentSearch, this`currentPage
      ensures currentSearch == value && currentPage == 1 && Valid()
    {
      currentSearch := value;
      currentPage := 1;
    }

    method SetFilter(value: string)
      modifies this`currentFilter, this`currentPage
      ensures currentFilter == value && currentPage == 1 && Valid()
    {
      currentFilter := value;
      currentPage := 1;
    }

    method PrevPage()
      requires Valid()
      modifies this`currentPage
      ensures Valid()
      ensures currentPage == if old(currentPage) > 1 then old(currentPage) - 1 else old(currentPage)
    {
      if currentPage > 1 {
        currentPage := currentPage - 1;
      }
    }

    /** The next button moves on only while a later page exists. */
    method NextPage(before: string -> bool)
      requires Valid()
      modifies this`currentPage
      ensures Valid()
      ensures currentPage == if old(currentPage) < PageCount(|Filtered(before)|) then old(currentPage) + 1 else old(currentPage)
    {
      var totalPages := PageCount(|FilteredTasks(tasks, activeCategory, currentSearch, ParseFilter(currentFilter), before)|);
      if currentPage < totalPages {
        currentPage := currentPage + 1;
      }
    }
  }
}
