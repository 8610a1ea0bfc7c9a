# Pequenos Passos — a verified model of the wellness app's logic

Pequenos Passos is a single-page wellness app that runs in the browser. Its
pages cover physical, mental, spiritual, preventive-health, financial,
family and social well-being, a task manager and a daily planner. All state
lives in `localStorage`. This project models the logic behind those pages
in Dafny and proves what the code promises:

- the list operations (filter, sort, paginate, toggle, delete, add);
- the zone lookups that turn a number into a status;
- the history logs and the upserts that keep one entry per date;
- the storage keys.

It also models the small Python script that pulls a base-64 image out of an
HTML page, repairs its padding and decodes it.

The model follows the source file by file. One Dafny module stands for each
source file (`tarefas.ts` is `Tarefas`). `index.tsx` is split by concern
into `IndexTasks`, `IndexIndicators`, `IndexLists`, `IndexFisica`,
`IndexVaccines` and `IndexNavigation`. Four modules are shared:

- `Text`: JavaScript's `trim`, `toLowerCase`, `includes` and `startsWith`, and string order.
- `Seqs`: `filter`, `findIndex`, counting, and an insertion sort on one string key.
- `Base64`: the decoder of Python's `base64.b64decode(…, validate=True)`, and its encoder.
- `Goals`: the goal list that six pages repeat almost verbatim.

Where the source updates module state or object fields, the model is a
`class` whose methods change fields. Each method's `ensures` ties the new
state to a pure function, and lemmas prove facts about that function. Pure
computations are functions with contracts.

The outside world is passed in as parameters:

- What storage holds (`Option`, where `None` means nothing stored).
- Today's date, `Date.now()` ids, and the answers to `confirm` and `prompt`.
- Values parsed with `parseFloat` or `parseInt`, as `Option<real>` or `Option<int>`, where `None` stands for `NaN`.
- Whether a date string parses.

Date comparisons on ISO strings are code-unit string order.

## Model

| member | source | states |
|---|---|---|
| Text.Trim | tarefas.ts:447 | `trim()`: the result is a slice of the input with no leading or trailing white space, and it is empty exactly when the input is all white space |
| Text.TrimIdempotent | tarefas.ts:447-448 | trimming twice is trimming once |
| Text.ToLower | tarefas.ts:266 | `toLowerCase()` maps every character and keeps the length |
| Text.StrLtTransitive | tarefas.ts:277 | string order, the comparator of the due-date sort, is transitive |
| Text.StrLtTrichotomy | tarefas.ts:277 | string order is total: two strings are equal or one precedes the other |
| Seqs.Filter | tarefas.ts:261 | `filter`: only passing elements, every passing element kept, nothing added |
| Seqs.FilterAppend | tarefas.ts:259-275 | filtering distributes over concatenation, so relative order is kept |
| Seqs.FilterFilter | tarefas.ts:259-275 | a chain of filters equals one filter by the conjunction of the tests |
| Seqs.FilterMultiset | tarefas.ts:259-275 | an element occurs after filtering as often as before if it passes, else never |
| Seqs.FilterCount | planejamento-diario.ts:75 | `filter(p).length` equals the number of elements satisfying `p` |
| Seqs.CountSplit | tarefas.ts:287-290 | every element passes exactly one of two complementary tests, so the counts add up to the length |
| Seqs.CountMultiset | fisica.ts:177 | sorting never changes how many elements pass a test |
| Seqs.FindIndex | tarefas.ts:146 | `findIndex`: the first passing index, or -1 exactly when none passes |
| Seqs.InsertSorted | tarefas.ts:277 | inserting into a sorted list keeps it sorted |
| Seqs.SortBy | tarefas.ts:277 | the sort returns its input's elements, each as often as before, ordered by the key |
| Seqs.Take | preventiva.ts:212 | `slice(0, n)`: a prefix, of length `n` when the list is that long |
| Seqs.PrefixOfSorted | preventiva.ts:204-212 | the first `n` elements of a sorted list are a sub-multiset of it, and no element left out sorts ahead of one kept |
| Tarefas.Narrow | tarefas.ts:258-276 | the category, search and status filters in sequence keep exactly the tasks that satisfy all three |
| Tarefas.NarrowIsOneFilter | tarefas.ts:258-276 | the three-step filter chain as written equals one filter by the `Selected` predicate |
| Tarefas.ParseFilter | tarefas.ts:271-276 | each value of the status select names its filter, in both directions; any other value filters nothing |
| Tarefas.GetFilteredTasks | tarefas.ts:258-278 | exactly the selected tasks, with their multiplicities, sorted by due date, an empty date last |
| Tarefas.PageOf | tarefas.ts:281-282 | a page holds at most ten tasks, and the k-th one is task `(page-1)*10+k` |
| Tarefas.GetPaginatedTasks | tarefas.ts:280-283 | the page slice of the filtered tasks, never empty for an existing page of a non-empty list |
| Tarefas.TotalPages | tarefas.ts:317 | `Math.ceil(n/10) \|\| 1`: at least one page, and the smallest page count that holds `n` tasks |
| Tarefas.Pagination | tarefas.ts:314-325 | the shown range, the page numbers, and which buttons are disabled; on a page past the last one, both ends of the range are the task count |
| Tarefas.PaginationMatchesSlice | tarefas.ts:314-325 | the range the footer shows is the range of the page slice |
| Tarefas.Counts | tarefas.ts:285-292 | total, completed, and pending (written as total minus completed), which equals the number of incomplete tasks |
| Tarefas.TaskBoard.constructor | tarefas.ts:26-33 | the module's initial state: no tasks, filter `all`, page 1 |
| Tarefas.TaskBoard.Load | tarefas.ts:89-92 | `loadData`: the stored tasks, or none, and the stored categories, or the eight defaults |
| Tarefas.TaskBoard.OpenTaskModal | tarefas.ts:94-121 | remembers the edited task's id, or that a task is being added |
| Tarefas.TaskBoard.SubmitTaskForm | tarefas.ts:129-162 | a blank title changes nothing; otherwise a new task is added at the front or the edited task is replaced in place |
| Tarefas.TaskBoard.ActionClick | tarefas.ts:411-444 | the checkbox toggles the first task with the id, a confirmed delete removes every task with the id, edit opens the form, other clicks change nothing |
| Tarefas.TaskBoard.QuickAdd | tarefas.ts:446-464 | a non-blank trimmed title becomes a new pending task at the front |
| Tarefas.TaskBoard.AddCategory | tarefas.ts:466-485 | a new non-blank name is appended, an existing one only reported; the list stays free of duplicates |
| Tarefas.TaskBoard.SelectCategory | tarefas.ts:466-485 | a tag selects its category (an empty one means all) and returns to page 1 |
| Tarefas.TaskBoard.SetSearch | tarefas.ts:553-557 | typing a search returns to page 1 |
| Tarefas.TaskBoard.SetFilter | tarefas.ts:559-563 | changing the status filter returns to page 1 |
| Tarefas.TaskBoard.PrevPage | tarefas.ts:567-572 | moves back only from a page after the first |
| Tarefas.TaskBoard.NextPage | tarefas.ts:574-580 | moves on only while a later page exists, never past the last |
| IndexTasks.FilteredTasks | index.tsx:1968-2003 | the `index.tsx` copy of the to-do filter keeps exactly the selected tasks |
| IndexTasks.FilteredTasksKeepOrder | index.tsx:1968-2003 | filtering two lists joined is joining their filtered lists |
| IndexTasks.PageCount | index.tsx:2312 | `Math.ceil(n/10)` without the `\|\| 1`, which is zero exactly when there are no tasks |
| IndexTasks.PageCountMatches | index.tsx:2312 | the page count agrees with the count of `tarefas.ts` except on an empty list |
| IndexTasks.PaginationControls | index.tsx:2122-2133 | the start and end item, the total shown, and the disabled buttons |
| IndexTasks.ControlsAgreeWithTarefas | index.tsx:2122-2133 | the footer agrees with the footer of `tarefas.ts` whenever there are tasks |
| IndexTasks.CompletedOf | index.tsx:2144-2151 | whether some task with the id is completed |
| IndexTasks.IndexTaskBoard.constructor | index.tsx:1756-1763 | the initial state of the to-do page in `index.tsx` |
| IndexTasks.IndexTaskBoard.Load | index.tsx:1795-1799 | the stored tasks, or none, and the stored categories, or the three defaults |
| IndexTasks.IndexTaskBoard.Shown | index.tsx:2007-2022 | the page slice of the selected tasks: the ones from position `(currentPage-1)*10` on, ten or as many as remain, none past the end, in stored order |
| IndexTasks.IndexTaskBoard.OpenTaskModal | index.tsx:2162-2201 | remembers the edited task's id or that a task is being added |
| IndexTasks.IndexTaskBoard.SubmitForm | index.tsx:2209-2235 | a new task goes to the front; an edit replaces every task carrying the id with the form's fields, keeping its completion |
| IndexTasks.IndexTaskBoard.ToggleTaskCompletion | index.tsx:2144-2151 | flips the first task with the id and nothing else |
| IndexTasks.IndexTaskBoard.DeleteTask | index.tsx:2153-2160 | a confirmed delete removes every task with the id |
| IndexTasks.IndexTaskBoard.QuickTaskAdd | index.tsx:2237-2258 | a blank title only warns; otherwise a new task goes to the front |
| IndexTasks.IndexTaskBoard.AddCategory | index.tsx:2260-2273 | a new trimmed name is appended and becomes the active category; a duplicate is only reported |
| IndexTasks.IndexTaskBoard.SelectCategory | index.tsx:1936-1966 | a tag selects its category and returns to page 1 |
| IndexTasks.IndexTaskBoard.SetSearch | index.tsx:2288-2293 | typing a search returns to page 1 |
| IndexTasks.IndexTaskBoard.SetFilter | index.tsx:2295-2300 | changing the filter returns to page 1 |
| IndexTasks.IndexTaskBoard.PrevPage | index.tsx:2304-2309 | moves back only from a page after the first |
| IndexTasks.IndexTaskBoard.NextPage | index.tsx:2311-2317 | moves on only while a later page exists |
| IndexIndicators.FindZone | index.tsx:939 | `zones.find`: the first zone holding the value, or none exactly when no zone holds it |
| IndexIndicators.StatusText | index.tsx:939-945 | the label of the first holding zone, or `Indefinido` |
| IndexIndicators.StatusClass | index.tsx:939-944 | the colour class of the first zone holding the value, or `status-check` when no zone does |
| IndexIndicators.OverlapResolvesToEarlier | index.tsx:939 | when two zones hold the value, the earlier one names the status |
| IndexIndicators.AdviceFor | index.tsx:950-956 | the advice line in terms of the status class, both directions |
| IndexIndicators.UndefinedGetsProfessional | index.tsx:940-956 | a value in no zone gets the advice to see a professional |
| IndexIndicators.Logged | index.tsx:909-912 | the new entry first, the old ones after it, the oldest dropped past 50 |
| IndexIndicators.LoggedTwice | index.tsx:909-912 | two logs in a row keep both new entries first and stay within 50 |
| IndexIndicators.IndicatorStore.constructor | index.tsx:863-865 | the store starts with no readings and an empty history |
| IndexIndicators.IndicatorStore.LoadAll | index.tsx:883-888 | each stored value replaces the one in memory and a missing one leaves it; a stored history within 50 entries keeps the store within its bound |
| IndexIndicators.IndicatorStore.LogIndicatorEntry | index.tsx:901-915 | the history becomes the logged history, and a history within 50 entries stays within 50 |
| IndexIndicators.IndicatorStore.Update | index.tsx:2543-2556 | a number and a date store the reading and log it with its zone's label; anything else changes nothing |
| IndexLists.NewItem | index.tsx:1366-1390 | a goal's trimmed text, or an activity's trimmed name and trimmed duration (empty without a duration field), starting incomplete; created exactly when that text or name is not blank |
| IndexLists.Flip | index.tsx:1342-1346 | toggling flips `completed` and keeps every other field |
| IndexLists.FlipTwice | index.tsx:1342-1346 | toggling twice restores the item |
| IndexLists.ListManager.constructor | index.tsx:1295-1310 | the stored items, or an empty list |
| IndexLists.ListManager.Toggle | index.tsx:1342-1346 | flips only the item at the index |
| IndexLists.ListManager.Delete | index.tsx:1354-1357 | removes exactly the item at the index, keeping the others in order |
| IndexLists.ListManager.Submit | index.tsx:1364-1394 | appends the new item when there is one |
| IndexFisica.RemoveId | index.tsx:1615-1621 | removing an id from a list without duplicates keeps it free of duplicates and removes only that id |
| IndexFisica.KeepLast | index.tsx:1675-1677 | the last 90 entries, in order |
| IndexFisica.KeepLastAfterPush | index.tsx:1673-1677 | after a push the log ends with the new entry and holds at most 90 |
| IndexFisica.FisicaPage.constructor | index.tsx:1577-1578 | the stored protocol and completions, and the sleep log loaded at line 1653, or empty ones |
| IndexFisica.FisicaPage.ProtocolClickAt | index.tsx:1605-1626 | the checkbox adds or removes the id in the completed list; delete removes the exercise and its completion; a completed list without duplicate ids keeps none |
| IndexFisica.FisicaPage.AddExercise | index.tsx:1628-1644 | the new exercise is appended as typed, without checks |
| IndexFisica.FisicaPage.AddSleepEntry | index.tsx:1665-1682 | the entry is pushed and the log truncated to its last 90 |
| IndexVaccines.SchemeText | index.tsx:651 | the vaccine's dose text, or `Consultar esquema` when it has none, so never empty |
| IndexVaccines.CalculateNextDose | index.tsx:561-579 | a dash without a date, `Data inválida` for a bad date, else a shift by one year, by the interval in years, or by the interval in months, in that precedence |
| IndexVaccines.VaccineRow | index.tsx:581-660 | each status exactly when its conditions hold: check, scheme in progress, overdue, up to date, pending |
| IndexVaccines.UnscheduledStaysPending | index.tsx:626-640 | a dated vaccine with no schedule and no scheme stays pending with the no-interval text |
| IndexVaccines.VaccineTracker.constructor | index.tsx:546-555 | the stored vaccination dates, or an empty map |
| IndexVaccines.VaccineTracker.UpdateVaccineStatus | index.tsx:581-660 | an unknown id changes nothing; a known one records the date and yields its row |
| IndexNavigation.InitialPageId | index.tsx:2728-2731 | the fragment's page when it names a known page, otherwise `inicio` |
| IndexNavigation.EmptyFragmentOpensHome | index.tsx:2728-2731 | an empty or bare fragment opens the home page, and a known one opens its page |
| Goals.Target | espiritual.ts:162-169 | the index acted on: none for an item without id or an unknown id, else the first goal with the id |
| Goals.AfterAction | espiritual.ts:162-179 | toggle flips only the found goal; delete removes exactly it and keeps the rest in order; other clicks change nothing |
| Goals.Saves | mental.ts:58-77 | in the text-toggle copies the list is saved exactly when something changed |
| Goals.IdleSaveOnlyButtonOnly | preventiva.ts:282-299 | saving an unchanged list happens only in the button-only copies |
| Goals.ToggleTwice | familiar.ts:67-68 | toggling a goal twice restores the list |
| Goals.AfterAdd | social.ts:125-134 | a blank entry changes nothing; otherwise one incomplete goal with the trimmed text goes to the front and the length grows by one |
| Goals.Loaded | familiar.ts:110 | with nothing stored the page starts from an empty list |
| Goals.GoalList.constructor | social.ts:160 | showing the page loads the stored list or starts empty |
| Goals.GoalList.HandleGoalAction | financeira.ts:136-155 | the list becomes `AfterAction` of the old list, and it is saved exactly when `Saves` holds |
| Goals.GoalList.HandleAddGoal | financeira.ts:157-166 | the list becomes `AfterAdd` of the old list |
| Mental.TextClickToggles | mental.ts:67-68 | on this page a click on the text toggles like the complete button |
| Mental.OtherClickIgnored | mental.ts:71-73 | any other click changes nothing and saves nothing |
| Familiar.TextClickToggles | familiar.ts:67-68 | a click on the text toggles like the complete button |
| Familiar.OtherClickIgnored | familiar.ts:71-73 | any other click changes nothing and saves nothing |
| Social.TextClickToggles | social.ts:113-114 | a click on the text toggles like the complete button |
| Social.OtherClickIgnored | social.ts:117-119 | any other click changes nothing and saves nothing |
| Financeira.TextClickToggles | financeira.ts:145-146 | a click on the text toggles like the complete button |
| Financeira.OtherClickIgnored | financeira.ts:149-151 | any other click changes nothing and saves nothing |
| Financeira.BudgetFor | financeira.ts:187-194 | no budget exactly when the income is not a number or not positive; otherwise the three shares add up to the income, needs equal wants plus savings, and needs exceed wants, which exceed savings |
| Financeira.Lines | financeira.ts:197-213 | nine items in page order, four under needs, three under wants and two under savings, each group adding up to its heading's amount and none negative for a non-negative budget |
| Financeira.LinesAddUpToIncome | financeira.ts:199-213 | the nine suggested items add up to the income |
| Espiritual.TextClickSavesUnchanged | espiritual.ts:171-177 | a click on the text does not toggle, but the unchanged list is still saved |
| Espiritual.ChecklistKey | espiritual.ts:50 | the checklist key is the prefix followed by the date |
| Espiritual.IsPracticeCompleted | espiritual.ts:55 | a practice shows as done exactly when its map entry exists and is true |
| Espiritual.PracticesShown | espiritual.ts:54-64 | every practice in order, with its checked state |
| Espiritual.JournalKey | espiritual.ts:86 | the journal key is `gratitudeJournal-` followed by the date |
| Espiritual.ReplaceFirst | espiritual.ts:107 | `replace` on a string that starts with the pattern swaps that prefix |
| Espiritual.ReplaceAbsent | espiritual.ts:107 | a string without the pattern is left alone |
| Espiritual.DateOfJournalKey | espiritual.ts:86-107 | a date put into a key comes back out unchanged |
| Espiritual.JournalKeyOfDate | espiritual.ts:105-107 | a prefixed key is rebuilt from the date it yields |
| Espiritual.PastEntries | espiritual.ts:102-110 | one entry per prefixed key, each from such a key with its date and content, every such key listed, sorted newest first |
| Espiritual.SpiritualStore.constructor | espiritual.ts:51-90 | the stored checklists and journal |
| Espiritual.SpiritualStore.Checklist | espiritual.ts:74 | the day's stored map of practices, or an empty map |
| Espiritual.SpiritualStore.EntryFor | espiritual.ts:88-92 | the day's stored journal entry, or the empty text |
| Espiritual.SpiritualStore.PracticeChange | espiritual.ts:67-84 | sets only the practice's entry in today's map to the checked state |
| Espiritual.SpiritualStore.SaveEntry | espiritual.ts:94-100 | today's entry becomes the trimmed text and reads back as such |
| Preventiva.TextClickSavesUnchanged | preventiva.ts:291-297 | a click on the text does not toggle, but the unchanged list is still saved |
| Preventiva.ScanOrder | preventiva.ts:53 | the zones, reversed for a reversed indicator |
| Preventiva.ForwardHit | preventiva.ts:54-56 | a forward scan stops at the first zone whose bound the value does not exceed |
| Preventiva.ReversedHit | preventiva.ts:53-56 | a reversed scan stops at the last zone whose bound the value reaches |
| Preventiva.ChosenZone | preventiva.ts:50-61 | the zone chosen, with the fallback to the last scanned zone |
| Preventiva.Interpret | preventiva.ts:50-61 | `N/A` without a value, otherwise the chosen zone's status, tip and colour |
| Preventiva.GetInterpretation | preventiva.ts:50-61 | the loop that returns from inside the `for` computes `Interpret` |
| Preventiva.ReversedPicksZoneBelow | preventiva.ts:53-56 | for ascending zones, the reversed scan reports the zone below the bar segment that holds the reading |
| Preventiva.IntendedInterpretation | preventiva.ts:50-61 | the zone whose bar segment holds the reading, and the last zone above all bounds |
| Preventiva.SegmentIsFirstHit | preventiva.ts:54-56 | in ascending zones the segment's zone is the first whose bound the value does not exceed |
| Preventiva.HdlFortyFiveMisread | preventiva.ts:25 | an HDL of 45 lies in the `Normal` segment but is reported as `Alerta`/`Baixo` |
| Preventiva.LeanMassSixtyMisread | preventiva.ts:37 | a lean mass of 60 kg lies in the `Normal` segment but is reported as `Alerta` |
| Preventiva.HistoryOf | preventiva.ts:122 | an indicator's stored history, or an empty one |
| Preventiva.IndicatorStore.constructor | preventiva.ts:119-124 | the stored readings and histories |
| Preventiva.IndicatorStore.UpdateIndicator | preventiva.ts:104-128 | a number and a date replace the latest reading and are pushed onto that indicator's history only |
| Preventiva.RowsOf | preventiva.ts:199-201 | each reading tagged with its indicator |
| Preventiva.Merged | preventiva.ts:196-202 | the merged history holds as many rows as there are readings in all histories |
| Preventiva.MergedAt | preventiva.ts:196-202 | reading `k` of indicator `c` is the row at position `Start(c)+k`, tagged with that indicator's id and name |
| Preventiva.StartStep | preventiva.ts:196-202 | each indicator's block begins where the previous one ends and the last one ends the list, so indicators follow table order and every reading appears once, with nothing else |
| Preventiva.MergedHoldsReading | preventiva.ts:196-202 | every reading of every indicator appears in the merged history |
| Preventiva.NewestFirst | preventiva.ts:204-212 | at most fifty rows, sorted newest first, a sub-multiset of the rows, all of them when they fit, and no row left out is newer than one kept |
| Preventiva.HistoryPage | preventiva.ts:190-212 | at most fifty rows, sorted newest first, a sub-multiset of the merged history, all of it when it fits, and no row left out is newer than one shown |
| PlanejamentoDiario.StorageKey | planejamento-diario.ts:51 | the key is `daily-plan-` followed by the date |
| PlanejamentoDiario.StorageKeyInjective | planejamento-diario.ts:51 | different days never share a key |
| PlanejamentoDiario.RoundPercent | planejamento-diario.ts:76 | `Math.round` of the share in percent: within half a point, a half rounding up, never above 100 |
| PlanejamentoDiario.Progress | planejamento-diario.ts:67-80 | 0 without tasks, otherwise the rounded share of completed tasks, always within 0..100 |
| PlanejamentoDiario.ProgressExtremes | planejamento-diario.ts:67-80 | all tasks done reads as 100%, none done as 0% |
| PlanejamentoDiario.Visible | planejamento-diario.ts:87-89 | with completed tasks hidden, exactly the open tasks are listed |
| PlanejamentoDiario.AllDoneIff | planejamento-diario.ts:97-101 | the "all done" line appears exactly when completed tasks are hidden, there are tasks, and all are done |
| PlanejamentoDiario.MitSummaryOf | planejamento-diario.ts:128-134 | the MIT count equals the number of MIT tasks, plural exactly above one |
| PlanejamentoDiario.Found | planejamento-diario.ts:179-181 | `find`: the first task with the id, or none |
| PlanejamentoDiario.AfterAction | planejamento-diario.ts:174-199 | the toggles flip one flag of the found task only; a confirmed delete drops every task with the id and keeps the others in order |
| PlanejamentoDiario.MitToggleMovesCount | planejamento-diario.ts:185-186 | toggling MIT moves the MIT count by exactly one |
| PlanejamentoDiario.StatusToggleTwice | planejamento-diario.ts:183-184 | toggling a task's status twice restores the list |
| PlanejamentoDiario.AfterTextChange | planejamento-diario.ts:201-219 | only the description or only the intention of the found task changes |
| PlanejamentoDiario.OpeningDate | planejamento-diario.ts:267 | the stored last day, unless it is missing or empty, and otherwise today |
| PlanejamentoDiario.DailyPlanner.Stored | planejamento-diario.ts:53-55 | the plan stored under the day's key, or an empty plan with no tasks and no reflection |
| PlanejamentoDiario.DailyPlanner.constructor | planejamento-diario.ts:263-272 | opening the page resumes on `OpeningDate` of the stored last day and loads that day's plan |
| PlanejamentoDiario.DailyPlanner.SavePlan | planejamento-diario.ts:57-59 | the plan is stored under the day's key |
| PlanejamentoDiario.DailyPlanner.ChangeDate | planejamento-diario.ts:146-151 | switches to the day, stores it as the last day so that the next opening resumes on it, and loads its plan |
| PlanejamentoDiario.DailyPlanner.AddTask | planejamento-diario.ts:153-172 | a blank description changes nothing; otherwise one open, non-MIT task without intention is appended and saved |
| PlanejamentoDiario.DailyPlanner.TaskListAction | planejamento-diario.ts:174-199 | the tasks become `AfterAction` of the old tasks, saved exactly when `ActionSaves` holds: a status toggle, MIT toggle or delete on a task that exists |
| PlanejamentoDiario.DailyPlanner.TaskTextChange | planejamento-diario.ts:201-219 | the tasks become `AfterTextChange` of the old ones, saved whenever a task with the id exists |
| PlanejamentoDiario.DailyPlanner.ReflectionChange | planejamento-diario.ts:246-251 | the reflection takes the typed text and is saved |
| Fisica.StatusKey | fisica.ts:158 | the status key is the prefix followed by the date |
| Fisica.IsExerciseDone | fisica.ts:81 | an exercise shows as done exactly when its map entry exists and is true |
| Fisica.RealOrAbsent | fisica.ts:187-188 | zero and non-numbers are stored as absent, other values as read |
| Fisica.IntOrAbsent | fisica.ts:189 | zero and non-numbers are stored as absent |
| Fisica.Upsert | fisica.ts:175-177 | the old entries of other dates plus the new one, sorted ascending by date |
| Fisica.UpsertSingleEntry | fisica.ts:175-177 | after an update the new entry is the only one of its date, and every other date keeps its count |
| Fisica.FisicaPage.constructor | fisica.ts:240-244 | each list is loaded, or starts empty |
| Fisica.FisicaPage.AddExercise | fisica.ts:125-144 | appended only when the trimmed name and duration are both non-empty |
| Fisica.FisicaPage.DeleteExercise | fisica.ts:146-155 | removes every exercise with the row's id and keeps the others |
| Fisica.FisicaPage.SetExerciseStatus | fisica.ts:156-163 | sets only that id in today's map to the checked state |
| Fisica.FisicaPage.AddSleepLog | fisica.ts:166-183 | saved exactly with a date and numeric hours and quality, as the upsert of the new log |
| Fisica.FisicaPage.SaveBiomarkers | fisica.ts:185-203 | without a date nothing changes; otherwise the upsert of the day's record, zeros and non-numbers absent |
| Base64.Encode | extract_image.py:43 | the standard encoding: four characters per three bytes, well formed, with the matching padding |
| Base64.Decode | extract_image.py:43 | a successful decode has a length that is a multiple of four, and yields three bytes per group minus the padding |
| Base64.EncodeCanonical | extract_image.py:43 | every encoding has zero unused bits |
| Base64.ReEncodeCanonical | extract_image.py:43 | a canonical string decodes and re-encodes to itself |
| Base64.DecodeEncode | extract_image.py:43 | decoding undoes encoding |
| Base64.DecodeIffWellFormed | extract_image.py:43 | `b64decode(validate=True)` succeeds exactly on alphabet characters followed by correct padding, in groups of four |
| Base64.ReEncodeIffCanonical | extract_image.py:43 | re-encoding a decoded string gives it back exactly when its unused bits are zero |
| ExtractImage.Find | extract_image.py:9 | `str.find`: the first occurrence at or after the start, or -1 exactly when there is none |
| ExtractImage.FindQuote | extract_image.py:15 | the search for the closing quote finds the first quote from its start on, or reports none when there is none |
| ExtractImage.Locate | extract_image.py:8-19 | the marker's first position and the first quote after it, or which of the two is missing |
| ExtractImage.Payload | extract_image.py:22 | the characters between the marker's end and the quote |
| ExtractImage.PayloadHasNoQuote | extract_image.py:16-22 | the payload holds no quote |
| ExtractImage.RepairPadding | extract_image.py:30-38 | the payload followed by the `=` that bring it to a multiple of four |
| ExtractImage.ExitCode | extract_image.py:13-49 | exit status 0 exactly when the image was written |
| ExtractImage.Run | extract_image.py:1-49 | the script's outcome: each error exit in order, or the decoded bytes written |
| ExtractImage.RepairedPayloadDecodes | extract_image.py:30-43 | an alphabet payload whose length is not one more than a multiple of four decodes after repair, to the expected number of bytes |
| ExtractImage.RemainderOneNeverDecodes | extract_image.py:30-32 | the `===` repair never decodes |
| ExtractImage.RepairedPayloadReEncodes | extract_image.py:33-43 | a repaired short tail re-encodes to itself exactly when its unused bits are zero |
| ExtractImage.NonCanonicalPayload | extract_image.py:33-43 | `QR` is repaired, decodes to `A`, and re-encodes differently |

## Left out

- All DOM work: rendering, `innerHTML` templates, `classList`, modals, charts, the sidebar, and routing through `fetch` in `showPage`. Event wiring appears only as the method each listener calls.
- `localStorage` and JSON: the stored values are parameters and fields. `saveItems` is a field update, and a failed write is not modelled.
- Clocks, `Date.now()` ids and `confirm`/`prompt` answers are parameters. Calendar arithmetic is not modelled: `calculateNextDose` yields the shift it would apply, and whether that date lies before today is a parameter.
- Floating point: amounts are exact reals. The hydration formula, `toFixed`, and the bar and marker percentages are not modelled.
- Locale-aware `localeCompare` and `new Date(...).getTime()` in the sorts are modelled as code-unit order. The two agree on ISO dates, and invalid dates, which sort as `NaN`, are not modelled.
- The network and AI suggestions (`getAISuggestionForInput`), the simulated delay in `social.ts`, and the pages `mapa-mental.ts`, `inicio.ts` and `alongamento.ts`.
- The repeated goal handlers of six pages are one module, `Goals`, parameterised by the one point where the copies differ. Each page module fixes that parameter and states its own click behaviour.
- IndexLists.ListManager.Toggle: requires a valid index, because the handler closes over the index of an item it has just rendered.
- IndexLists.ListManager.Delete: requires a valid index, for the same reason.
- The HTML `required` attribute of the to-do form in `index.tsx`, which would keep a blank title out, is not modelled. Without it, the model's `SubmitForm` accepts any title.
- ExtractImage.RepairedPayloadReEncodes: states the round trip only for canonical tails. A tail with non-zero unused bits decodes but re-encodes to a different string, as `NonCanonicalPayload` shows.
- The file read and write of `extract_image.py`, and its debugging prints, are left out. A failed write is the `writeSucceeds` parameter.
- PlanejamentoDiario.RoundPercent: rounds the exact share. In double arithmetic `Math.round(23 / 40 * 100)` is 57, because the product falls just below 57.5, where the model gives 58. The same happens for 46 of 80, 57 of 200 and 115 of 200.
- Seqs.SortBy: proved sorted and a permutation of its input. That equal keys keep their original order, as the built-in sort does, is not proved.
- Text: white space is the ASCII and common Unicode space set, and `toLowerCase` covers ASCII and Latin-1 letters only.

## Findings

| source | as written | input that shows it | evidently intended | confidence | as-written member | corrected member |
|---|---|---|---|---|---|---|
| preventiva.ts:53-57 | for an indicator marked `reversed`, the scan tests the zones from the highest bound down with `value >= to` and returns the first such zone, so a reading strictly inside a segment gets the zone below it | HDL 45 mg/dL, zones up to 39 / 59 / 100: reported `Alerta`/`Baixo`, although 45 lies in the bar segment 40–59 (`Atenção`/`Normal`); lean mass 60 kg is likewise reported `Alerta` | the reading shows the zone whose bar segment holds it, the same zone a forward scan finds on ascending bounds | not executed | Preventiva.HdlFortyFiveMisread | Preventiva.IntendedInterpretation |
