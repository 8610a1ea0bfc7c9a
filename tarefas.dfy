/**
 * The to-do manager page (`tarefas.ts`): a list of tasks narrowed by category,
 * search text and a status or priority filter, sorted by due date, shown ten per
 * page, and the handlers that add, edit, toggle and delete tasks and add
 * categories. `Date.now()` ids, today's ISO date and the answers of `confirm()`
 * and `prompt()` are parameters; storage is the initial contents passed to `Load`.
 */
module Tarefas {
  import opened Text
  import opened Seqs
  import opened Wrappers

  datatype Priority = Low | Medium | High

  datatype Task = Task(
    id: string,
    title: string,
    description: string,
    dueDate: string,
    priority: Priority,
    category: string,
    completed: bool)

  /** The five fields of the form for a task. */
  datatype TaskForm = TaskForm(title: string, description: string, dueDate: string, priority: Priority, category: string)

  /** The value of the status select, after the `switch`; an unknown value filters nothing. */
  datatype StatusFilter = AnyStatus | Pending | Completed | Overdue | PriorityIs(priority: Priority)

  const TasksPerPage: nat := 10
  const AllCategories: string := "all"
  const DefaultCategories: seq<string> :=
    ["Física", "Mental", "Financeira", "Familiar", "Profissional", "Social", "Espiritual", "Preventiva"]

  function ParseFilter(value: string): (f: StatusFilter)
    ensures value == "pending" <==> f == Pending
    ensures value == "completed" <==> f == Completed
    ensures value == "overdue" <==> f == Overdue
    ensures value == "high" <==> f == PriorityIs(High)
    ensures value == "medium" <==> f == PriorityIs(Medium)
    ensures value == "low" <==> f == PriorityIs(Low)
  {
    if value == "pending" then Pending
    else if value == "completed" then Completed
    else if value == "overdue" then Overdue
    else if value == "high" then PriorityIs(High)
    else if value == "medium" then PriorityIs(Medium)
    else if value == "low" then PriorityIs(Low)
    else AnyStatus
  }

  // ---- Filtering ----

  function CategoryIs(category: string): Task -> bool {
    (t: Task) => t.category == category
  }

  function SearchHit(search: string): Task -> bool {
    (t: Task) => Contains(ToLower(t.title), ToLower(search)) || Contains(ToLower(t.description), ToLower(search))
  }

  /**
   * The status test. `before(d)` says whether the due date `d` lies before
   * today: a string comparison with today's ISO date here, a `Date` comparison
   * in the copy inside `index.tsx`.
   */
  predicate HasStatus(t: Task, f: StatusFilter, before: string -> bool) {
    match f
    case AnyStatus => true
    case Pending => !t.completed
    case Completed => t.completed
    case Overdue => !t.completed && Truthy(t.dueDate) && before(t.dueDate)
    case PriorityIs(p) => t.priority == p
  }

  function StatusHit(f: StatusFilter, before: string -> bool): Task -> bool {
    (t: Task) => HasStatus(t, f, before)
  }

  /** A task survives the three filters: the reference the filter chain is proved against. */
  predicate Selected(t: Task, category: string, search: string, f: StatusFilter, before: string -> bool) {
    && (category != AllCategories ==> t.category == category)
    && (Truthy(search) ==> SearchHit(search)(t))
    && HasStatus(t, f, before)
  }

  function SelectedBy(category: string, search: string, f: StatusFilter, before: string -> bool): Task -> bool {
    (t: Task) => Selected(t, category, search, f, before)
  }

  /**
   * The chain of `filter` calls shared by both copies of `getFilteredTasks`:
   * it equals one filter by `Selected`, so it keeps exactly the selected tasks,
   * each as often as it occurs, in their original order.
   */
  function Narrow(tasks: seq<Task>, category: string, search: string, f: StatusFilter, before: string -> bool): (r: seq<Task>)
    ensures r == Filter(tasks, SelectedBy(category, search, f, before))
  {
    var byCategory := if category != AllCategories then Filter(tasks, CategoryIs(category)) else tasks;
    var bySearch := if Truthy(search) then Filter(byCategory, SearchHit(search)) else byCategory;
    var byStatus := if f == AnyStatus then bySearch else Filter(bySearch, StatusHit(f, before));
    NarrowIsOneFilter(tasks, category, search, f, before);
    byStatus
  }

  lemma NarrowIsOneFilter(tasks: seq<Task>, category: string, search: string, f: StatusFilter, before: string -> bool)
    ensures var byCategory := if category != AllCategories then Filter(tasks, CategoryIs(category)) else tasks;
      var bySearch := if Truthy(search) then Filter(byCategory, SearchHit(search)) else byCategory;
      var byStatus := if f == AnyStatus then bySearch else Filter(bySearch, StatusHit(f, before));
      byStatus == Filter(tasks, SelectedBy(category, search, f, before))
  {
    var byCategory := if category != AllCategories then Filter(tasks, CategoryIs(category)) else tasks;
    CategoryStep(tasks, category);
    var bySearch := if Truthy(search) then Filter(byCategory, SearchHit(search)) else byCategory;
    SearchStep(tasks, byCategory, category, search);
    StatusStep(tasks, bySearch, category, search, f, before);
  }

  function CategoryTest(category: string): Task -> bool {
    (t: Task) => category != AllCategories ==> t.category == category
  }

  function SearchTest(search: string): Task -> bool {
    (t: Task) => Truthy(search) ==> SearchHit(search)(t)
  }

  function CategorySearchTest(category: string, search: string): Task -> bool {
    (t: Task) => CategoryTest(category)(t) && SearchTest(search)(t)
  }

  lemma CategoryStep(tasks: seq<Task>, category: string)
    ensures (if category != AllCategories then Filter(tasks, CategoryIs(category)) else tasks) == Filter(tasks, CategoryTest(category))
  {
    if category != AllCategories {
      FilterSame(tasks, CategoryIs(category), CategoryTest(category));
    } else {
      FilterKeepsAll(tasks, CategoryTest(category));
    }
  }

  lemma SearchStep(tasks: seq<Task>, byCategory: seq<Task>, category: string, search: string)
    requires byCategory == Filter(tasks, CategoryTest(category))
    ensures (if Truthy(search) then Filter(byCategory, SearchHit(search)) else byCategory) == Filter(tasks, CategorySearchTest(category, search))
  {
    if Truthy(search) {
      FilterSame(byCategory, SearchHit(search), SearchTest(search));
    } else {
      FilterKeepsAll(byCategory, SearchTest(search));
    }
    FilterFilter(tasks, CategoryTest(category), SearchTest(search), CategorySearchTest(category, search));
  }

  lemma StatusStep(tasks: seq<Task>, bySearch: seq<Task>, category: string, search: string, f: StatusFilter, before: string -> bool)
    requires bySearch == Filter(tasks, CategorySearchTest(category, search))
    ensures (if f == AnyStatus then bySearch else Filter(bySearch, StatusHit(f, before))) == Filter(tasks, SelectedBy(category, search, f, before))
  {
    forall t: Task ensures SelectedBy(category, search, f, before)(t) == (CategorySearchTest(category, search)(t) && StatusHit(f, before)(t)) {
      assert CategorySearchTest(category, search)(t) == (CategoryTest(category)(t) && SearchTest(search)(t));
    }
    if f == AnyStatus {
      FilterSame(tasks, CategorySearchTest(category, search), SelectedBy(category, search, f, before));
    } else {
      FilterFilter(tasks, CategorySearchTest(category, search), StatusHit(f, before), SelectedBy(category, search, f, before));
    }
  }

  /** Filters by two tests that agree everywhere give the same result. */
  lemma {:induction false} FilterSame(s: seq<Task>, p: Task -> bool, q: Task -> bool)
    requires forall t :: p(t) == q(t)
    ensures Filter(s, p) == Filter(s, q)
  {
    if s != [] { FilterSame(s[1..], p, q); }
  }

  /** The sort key: the due date, with an empty date read as `'9999'`. */
  function DueKey(t: Task): string {
    if Truthy(t.dueDate) then t.dueDate else "9999"
  }

  function Before(today: string): string -> bool {
    d => StrLt(d, today)
  }

  /**
   * `getFilteredTasks`: a copy of `tasks` narrowed by the three filters and
   * sorted by `DueKey`.
   */
  function GetFilteredTasks(tasks: seq<Task>, category: string, search: string, f: StatusFilter, today: string): (r: seq<Task>)
    ensures forall k :: 0 <= k < |r| ==> r[k] in tasks && Selected(r[k], category, search, f, Before(today))
    ensures forall k :: 0 <= k < |tasks| && Selected(tasks[k], category, search, f, Before(today)) ==> tasks[k] in r
    ensures forall t :: multiset(r)[t] == if Selected(t, category, search, f, Before(today)) then multiset(tasks)[t] else 0
    ensures SortedBy(r, DueKey, false)
  {
    var narrowed := Narrow(tasks, category, search, f, Before(today));
    var r := SortBy(narrowed, DueKey, false);
    assert forall t :: multiset(r)[t] == multiset(narrowed)[t];
    forall t ensures multiset(r)[t] == if Selected(t, category, search, f, Before(today)) then multiset(tasks)[t] else 0 {
      FilterMultiset(tasks, SelectedBy(category, search, f, Before(today)), t);
    }
    forall k | 0 <= k < |r| ensures r[k] in tasks {
      assert r[k] in multiset(r);
    }
    forall k | 0 <= k < |tasks| && Selected(tasks[k], category, search, f, Before(today)) ensures tasks[k] in r {
      assert tasks[k] in multiset(tasks);
      assert multiset(r)[tasks[k]] > 0;
    }
    r
  }

  // ---- Pagination ----

  /** `slice((page - 1) * 10, (page - 1) * 10 + 10)`: the tasks of one page. */
  function PageOf<T>(s: seq<T>, page: int): (r: seq<T>)
    requires page >= 1
    ensures |r| <= TasksPerPage
    ensures r != [] ==> (page - 1) * TasksPerPage + |r| <= |s|
    ensures |r| == if (page - 1) * TasksPerPage >= |s| then 0 else Min(TasksPerPage, |s| - (page - 1) * TasksPerPage)
    ensures forall k :: 0 <= k < |r| ==> r[k] == s[(page - 1) * TasksPerPage + k]
  {
    var start := (page - 1) * TasksPerPage;
    if start >= |s| then [] else s[start..Min(start + TasksPerPage, |s|)]
  }

  function Min(a: int, b: int): int {
    if a <= b then a else b
  }

  /** `getPaginatedTasks`. */
  function GetPaginatedTasks(filtered: seq<Task>, page: int): (r: seq<Task>)
    requires page >= 1
    ensures |r| <= TasksPerPage
    ensures r != [] ==> (page - 1) * TasksPerPage + |r| <= |filtered|
    ensures forall k :: 0 <= k < |r| ==> r[k] == filtered[(page - 1) * TasksPerPage + k]
    ensures 1 <= page <= TotalPages(|filtered|) && |filtered| > 0 ==> |r| > 0
  {
    PageOf(filtered, page)
  }

  /** `Math.ceil(n / 10) || 1`: the number of pages, at least one. */
  function TotalPages(n: nat): (r: nat)
    ensures r >= 1
    ensures n == 0 ==> r == 1
    ensures n > 0 ==> (r - 1) * TasksPerPage < n <= r * TasksPerPage
  {
    if n == 0 then 1 else (n + TasksPerPage - 1) / TasksPerPage
  }

  /** What `updatePagination` writes: the shown range, the page numbers and the two buttons. */
  datatype PaginationView = PaginationView(
    first: int, last: int, count: nat, current: int, totalPages: nat,
    prevDisabled: bool, nextDisabled: bool)

  function Pagination(page: int, n: nat): (v: PaginationView)
    requires page >= 1
    ensures v.count == n && v.current == page && v.totalPages == TotalPages(n)
    ensures v.prevDisabled <==> page == 1
    ensures v.nextDisabled <==> page == TotalPages(n)
    ensures n == 0 ==> v.first == 0 && v.last == 0
    ensures n > 0 && page <= TotalPages(n) ==>
      v.first == (page - 1) * TasksPerPage + 1 && v.last - v.first + 1 == Min(TasksPerPage, n - (page - 1) * TasksPerPage)
    ensures n > 0 && page > TotalPages(n) ==> v.first == n && v.last == n
  {
    var total := TotalPages(n);
    PaginationView(
      Min((page - 1) * TasksPerPage + 1, n), Min(page * TasksPerPage, n), n, page, total,
      page == 1, page == total)
  }

  /** The range shown is the range of the page slice. */
  lemma PaginationMatchesSlice(filtered: seq<Task>, page: int)
    requires 1 <= page <= TotalPages(|filtered|) && |filtered| > 0
    ensures var v := Pagination(page, |filtered|);
      v.last - v.first + 1 == |GetPaginatedTasks(filtered, page)|
      && forall k :: 0 <= k < |GetPaginatedTasks(filtered, page)| ==> GetPaginatedTasks(filtered, page)[k] == filtered[v.first - 1 + k]
  {
  }

  // ---- Counts ----

  datatype TaskCounts = TaskCounts(total: nat, completed: nat, pending: int)

  function IsCompleted(): Task -> bool {
    (t: Task) => t.completed
  }

  function IsPending(): Task -> bool {
    (t: Task) => !t.completed
  }

  /** `updateCounts`: the pending figure, written as total minus completed, is the number of incomplete tasks. */
  function Counts(tasks: seq<Task>): (c: TaskCounts)
    ensures c.total == |tasks|
    ensures c.completed == Count(tasks, IsCompleted())
    ensures c.pending == Count(tasks, IsPending())
  {
    var completed := Count(tasks, IsCompleted());
    CountSplit(tasks, IsCompleted(), IsPending());
    TaskCounts(|tasks|, completed, |tasks| - completed)
  }

  // ---- Handlers ----

  function HasId(id: string): Task -> bool {
    (t: Task) => t.id == id
  }

  function LacksId(id: string): Task -> bool {
    (t: Task) => t.id != id
  }

  /** Where a click in the list of tasks lands. */
  datatype TaskClick = OutsideTask | DetailsToggle | DeleteButton | EditButton | Checkbox | Elsewhere

  /** The answer to `prompt()`: `None` when it was cancelled. */
  type PromptAnswer = Option<string>

  datatype CategoryResult = CategoryAdded | CategoryExists | CategoryIgnored

  predicate NoDuplicates(s: seq<string>) {
    forall i, j :: 0 <= i < j < |s| ==> s[i] != s[j]
  }

  /** `editingTaskId` read as a JavaScript condition. */
  predicate Editing(e: Option<string>) {
    e.Some? && Truthy(e.value)
  }

  class TaskBoard {
    var tasks: seq<Task>
    var categories: seq<string>
    var editingTaskId: Option<string>
    var currentFilter: string
    var currentSearch: string
    var currentCategoryFilter: string
    var currentPage: int

    predicate Valid()
      reads this
    {
      currentPage >= 1
    }

    /** The module's initial state. */
    constructor ()
      ensures Valid()
      ensures tasks == [] && categories == [] && editingTaskId == None
      ensures currentFilter == "all" && currentSearch == "" && currentCategoryFilter == AllCategories && currentPage == 1
    {
      tasks := [];
      categories := [];
      editingTaskId := None;
      currentFilter := "all";
      currentSearch := "";
      currentCategoryFilter := AllCategories;
      currentPage := 1;
    }

    /** `loadData`: what storage holds, or the defaults when it holds nothing. */
    method Load(storedTasks: Option<seq<Task>>, storedCategories: Option<seq<string>>)
      modifies this
      ensures tasks == (if storedTasks.Some? then storedTasks.value else [])
      ensures categories == (if storedCategories.Some? then storedCategories.value else DefaultCategories)
      ensures editingTaskId == old(editingTaskId) && currentFilter == old(currentFilter)
      ensures currentSearch == old(currentSearch) && currentCategoryFilter == old(currentCategoryFilter)
      ensures currentPage == old(currentPage)
    {
      tasks := if storedTasks.Some? then storedTasks.value else [];
      categories := if storedCategories.Some? then storedCategories.value else DefaultCategories;
    }

    /** The tasks the page shows before pagination. */
    function Filtered(today: string): seq<Task>
      reads this
    {
      GetFilteredTasks(tasks, currentCategoryFilter, currentSearch, ParseFilter(currentFilter), today)
    }

    /** `openTaskModal`: remembers which task the form edits, or that it adds one. */
    method OpenTaskModal(task: Option<Task>)
      modifies this`editingTaskId
      ensures editingTaskId == if task.Some? then Some(task.value.id) else None
    {
      if task.Some? {
        editingTaskId := Some(task.value.id);
      } else {
        editingTaskId := None;
      }
    }

    /**
     * `handleTaskFormSubmit`: a blank title changes nothing; an edit overwrites
     * the five form fields of the first task with the edited id and keeps its id
     * and completion; otherwise a new incomplete task goes to the front.
     */
    method SubmitTaskForm(form: TaskForm, newId: string)
      requires Valid()
      modifies this`tasks
      ensures Trim(form.title) == [] ==> tasks == old(tasks)
      ensures Trim(form.title) != [] && !Editing(editingTaskId) ==>
        tasks == [Task(newId, form.title, form.description, form.dueDate, form.priority, form.category, false)] + old(tasks)
      ensures Trim(form.title) != [] && Editing(editingTaskId) ==>
        var i := FindIndex(old(tasks), HasId(editingTaskId.value));
        |tasks| == |old(tasks)|
        && (i == -1 ==> tasks == old(tasks))
        && (i >= 0 ==>
              && tasks[i].id == old(tasks)[i].id && tasks[i].completed == old(tasks)[i].completed
              && tasks[i].title == form.title && tasks[i].description == form.description
              && tasks[i].dueDate == form.dueDate && tasks[i].priority == form.priority
              && tasks[i].category == form.category
              && forall k :: 0 <= k < |tasks| && k != i ==> tasks[k] == old(tasks)[k])
    {
      if Trim(form.title) == [] {
        return;
      }
      if Editing(editingTaskId) {
        var i := FindIndex(tasks, HasId(editingTaskId.value));
        if i > -1 {
          tasks := tasks[i := tasks[i].(title := form.title, description := form.description,
            dueDate := form.dueDate, priority := form.priority, category := form.category)];
        }
      } else {
        var t := Task(newId, form.title, form.description, form.dueDate, form.priority, form.category, false);
        tasks := [t] + tasks;
      }
    }

    /**
     * `handleActionClick`: a confirmed delete removes every task with the id,
     * the edit button opens the form on it, the checkbox flips the completion of
     * the first task with the id; an unknown id, the details toggle and any
     * other spot change nothing.
     */
    method ActionClick(click: TaskClick, taskId: string, confirmed: bool)
      modifies this`tasks, this`editingTaskId
      ensures var i := FindIndex(old(tasks), HasId(taskId));
        if click == OutsideTask || click == DetailsToggle || i == -1 then
          tasks == old(tasks) && editingTaskId == old(editingTaskId)
        else match click
          case DeleteButton =>
            tasks == (if confirmed then Filter(old(tasks), LacksId(taskId)) else old(tasks))
            && editingTaskId == old(editingTaskId)
          case EditButton => tasks == old(tasks) && editingTaskId == Some(taskId)
          case Checkbox =>
            tasks == old(tasks)[i := old(tasks)[i].(completed := !old(tasks)[i].completed)]
            && editingTaskId == old(editingTaskId)
          case _ => tasks == old(tasks) && editingTaskId == old(editingTaskId)
    {
      if click == OutsideTask || click == DetailsToggle {
        return;
      }
      var i := FindIndex(tasks, HasId(taskId));
      if i == -1 {
        return;
      }
      match click {
        case DeleteButton =>
          if confirmed {
            tasks := Filter(tasks, LacksId(taskId));
          }
        case EditButton =>
          OpenTaskModal(Some(tasks[i]));
        case Checkbox =>
          tasks := tasks[i := tasks[i].(completed := !tasks[i].completed)];
        case _ =>
      }
    }

    /** `handleQuickAdd`: a non-blank trimmed title becomes a new task at the front. */
    method QuickAdd(input: string, newId: string)
      modifies this`tasks
      ensures Trim(input) == [] ==> tasks == old(tasks)
      ensures Trim(input) != [] ==>
        tasks == [Task(newId, Trim(input), "", "", Medium,
                       if currentCategoryFilter != AllCategories then currentCategoryFilter else "", false)] + old(tasks)
    {
      var title := Trim(input);
      if Truthy(title) {
        var category := if currentCategoryFilter != AllCategories then currentCategoryFilter else "";
        tasks := [Task(newId, title, "", "", Medium, category, false)] + tasks;
      }
    }

    /**
     * The add-category button: the answer, untrimmed, is appended when it is not
     * blank and not already present, so a list without duplicates keeps none.
     */
    method AddCategory(answer: PromptAnswer) returns (result: CategoryResult)
      modifies this`categories
      ensures result == CategoryAdded <==> answer.Some? && Trim(answer.value) != [] && answer.value !in old(categories)
      ensures result == CategoryExists <==> answer.Some? && Trim(answer.value) != [] && answer.value in old(categories)
      ensures categories == if result == CategoryAdded then old(categories) + [answer.value] else old(categories)
      ensures NoDuplicates(old(categories)) ==> NoDuplicates(categories)
    {
      if answer.Some? && Truthy(answer.value) && Trim(answer.value) != [] {
        if answer.value !in categories {
          categories := categories + [answer.value];
          return CategoryAdded;
        }
        return CategoryExists;
      }
      return CategoryIgnored;
    }

    /** A category tag: its name becomes the filter (an empty name means all) and the first page is shown. */
    method SelectCategory(tagCategory: string)
      modifies this`currentCategoryFilter, this`currentPage
      ensures currentCategoryFilter == if Truthy(tagCategory) then tagCategory else AllCategories
      ensures currentPage == 1 && Valid()
    {
      currentCategoryFilter := if Truthy(tagCategory) then tagCategory else AllCategories;
      currentPage := 1;
    }

    method SetSearch(value: string)
      modifies this`currentSearch, this`currentPage
      ensures currentSearch == value && currentPage == 1 && Valid()
    {
      currentSearch := value;
      currentPage := 1;
    }

    method SetFilter(value: string)
      modifies this`currentFilter, this`currentPage
      ensures currentFilter == value && currentPage == 1 && Valid()
    {
      currentFilter := value;
      currentPage := 1;
    }

    method PrevPage()
      requires Valid()
      modifies this`currentPage
      ensures Valid()
      ensures currentPage == if old(currentPage) > 1 then old(currentPage) - 1 else old(currentPage)
    {
      if currentPage > 1 {
        currentPage := currentPage - 1;
      }
    }

    /** The next button: moves on only while a later page exists, so it never leaves the last page. */
    method NextPage(today: string)
      requires Valid()
      modifies this`currentPage
      ensures Valid()
      ensures currentPage == if old(currentPage) < TotalPages(|Filtered(today)|) then old(currentPage) + 1 else old(currentPage)
      ensures old(currentPage) <= TotalPages(|Filtered(today)|) ==> currentPage <= TotalPages(|Filtered(today)|)
    {
      var totalPages := TotalPages(|GetFilteredTasks(tasks, currentCategoryFilter, currentSearch, ParseFilter(currentFilter), today)|);
      if currentPage < totalPages {
        currentPage := currentPage + 1;
      }
    }
  }
}
