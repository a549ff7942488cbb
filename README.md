# Retro notepad to-do list: the task-list logic in Dafny

The application is a single-page to-do list. The page keeps one flat list of tasks,
each belonging to a category. A sidebar selects the category, and the task list shows
that category's tasks. The list offers four operations:

- drag a task to a new place within the category;
- tick a task done or undone;
- type a title and add a task;
- read how many tasks of the category remain.

An operation that changes the list builds a new flat list and hands it to the page,
which replaces its own. Toggling an unknown id and adding a blank title return before
that, and leave the list as it is.

The project models that logic and the sample dataset the page starts from:

- `data.dfy` (module `Data`) holds the `Task` and `Category` records and the five
  categories and sixteen sample tasks. It proves the dataset's facts: sizes, distinct
  ids, and that every task's category exists.
- `tasklist.dfy` (module `TaskList`) holds the list operations as functions over the
  flat list:
  - the category filter (`Filter`) and the remaining count (`Remaining`);
  - `findIndex` and `find`;
  - the two `splice` calls of the drag and the id-based rebuild of the flat list
    (`Moved`);
  - the toggle (`Toggled`, with the completion signal `Celebrates`);
  - JavaScript's `trim` and the append of the add-task operation (`Added`).

  Lemmas relate each operation to the views it changes and to the invariants it
  keeps.
- `store.dfy` (module `TaskStore`) holds the page state as a class `Store`: the flat
  list, the selected category and the add-task input. Its methods follow the source
  statement by statement, except that the task list's local copy of the view
  (`setFilteredTasks` in `moveTask`) is treated as derived state: it is always the
  category view of the flat list, and `MovedContents` proves that the spliced view
  `moveTask` stores there is the new list's view. Each method's `ensures` ties the new state to the functions
  above and keeps the invariant `Valid()`: unique ids, a selected category that exists,
  and tasks that refer to existing categories.
- `scenarios.dfy` (module `Scenarios`) proves what the filter and the count give on
  the sample dataset: the "work", "shopping" and "health" views,
  as a user sees them by selecting each category before changing anything.

## Model

| member | source | states |
|---|---|---|
| Data.Categories | src/lib/data.ts:19-45 | the five categories with their ids, names and icons, in sidebar order |
| Data.SeedTasks | src/lib/data.ts:47-148 | the sixteen sample tasks, field by field, in list order |
| Data.SeedSizes | src/lib/data.ts:19-148 | the sample has five categories and sixteen tasks |
| Data.SeedIds | src/lib/data.ts:47-148 | the sample task ids are task-1 to task-16, in list order |
| Data.NumberedIdsUnique | src/lib/data.ts:47-148 | sixteen tasks carrying the ids task-1 to task-16 have pairwise distinct ids |
| Data.SeedTaskIdsUnique | src/lib/data.ts:47-148 | the sixteen sample task ids are pairwise distinct |
| Data.CategoryIdsUnique | src/lib/data.ts:19-45 | the five category ids are pairwise distinct |
| Data.SeedCategoriesExist | src/lib/data.ts:19-148 | every sample task's `categoryId` is the id of one of the categories |
| TaskList.FilterBy | src/components/TaskList.tsx:27 | `Array.prototype.filter`: the result is no longer than the input and holds exactly the input's elements that pass the test |
| TaskList.Filter | src/components/TaskList.tsx:27 | the category view, `tasks.filter(task => task.categoryId === category.id)`, also `categoryTasks` at line 42; its properties are stated by FilterExactly (exactly the category's tasks, with multiplicities) and FilterAppend (order kept) |
| TaskList.Others | src/components/TaskList.tsx:43 | `otherTasks`, the tasks of every other category; FilterExactly states its members and FilterOthersPartition that it completes the view to the flat list |
| TaskList.FilterByAppend | src/components/TaskList.tsx:27 | filtering a concatenation filters each part and keeps the parts in order, so the filter keeps the input's relative order |
| TaskList.FilterByCounts | src/components/TaskList.tsx:27 | each element that passes keeps all its copies; each element that fails keeps none |
| TaskList.FilterByPermutation | src/components/TaskList.tsx:110 | permuted lists have permuted filters of the same length, so a count does not depend on order |
| TaskList.FilterByComplement | src/components/TaskList.tsx:42-43 | filtering by a test and by its negation splits the list: the multisets add up and so do the lengths |
| TaskList.FilterByAll | src/components/TaskList.tsx:27 | a list whose every element passes is its own filter |
| TaskList.FilterByNone | src/components/TaskList.tsx:27 | a list with no element that passes filters to the empty list |
| TaskList.FilterByNested | src/components/TaskList.tsx:42-43 | filtering first by a weaker test changes nothing when filtering by a stronger test |
| TaskList.FilterByUniqueIds | src/components/TaskList.tsx:42 | a filter of a list with unique ids has unique ids |
| TaskList.UniqueIdsPermutation | src/components/TaskList.tsx:51 | a permutation of a list with unique ids has unique ids |
| TaskList.FilterExactly | src/components/TaskList.tsx:27 | the category view holds exactly the tasks whose `categoryId` is the selected id, with their multiplicities; the other-tasks list holds exactly the rest |
| TaskList.FilterOthersPartition | src/components/TaskList.tsx:42-43 | `categoryTasks` and `otherTasks` together are the flat list: the multisets add up and so do the lengths |
| TaskList.FilterAppend | src/components/TaskList.tsx:27 | the view of a concatenation is the concatenation of the views; a single task is in its own category's view and in no other |
| TaskList.FilterEmpty | src/components/TaskList.tsx:27 | a list without tasks of the category has an empty view |
| TaskList.FilterWhole | src/components/TaskList.tsx:27 | a list of the category's tasks only is its own view |
| TaskList.Remaining | src/components/TaskList.tsx:110 | the "remaining" number is at most the size of the category view |
| TaskList.RemainingExtremes | src/components/TaskList.tsx:110 | the count equals the view's size exactly when no task in the view is done, and is zero exactly when every task in it is done |
| TaskList.RemainingSplit | src/components/TaskList.tsx:110 | the count over `a + [x] + b` is the count over `a`, plus one if `x` is an incomplete task of the category, plus the count over `b` |
| TaskList.FindIndex | src/components/TaskList.tsx:58-59 | `findIndex`: nothing is found exactly when no task has the id; otherwise the result is in range, has the id, and is the first such position |
| TaskList.FindById | src/components/TaskList.tsx:47 | `find`: nothing is found exactly when no task has the id; otherwise the result is the first task in the list carrying that id |
| TaskList.FindByIdMember | src/components/TaskList.tsx:47-48 | in a list with unique ids, looking up a member's id returns that member |
| TaskList.RemoveAt | src/components/TaskList.tsx:35 | `splice(i, 1)`: one shorter; positions before `i` stay, later ones shift down by one; the removed element is the only one missing |
| TaskList.InsertAt | src/components/TaskList.tsx:36 | `splice(i, 0, x)`: one longer; `x` is at `i`; earlier positions stay, later ones shift up by one; the multiset gains exactly `x` |
| TaskList.RemoveInserted | src/components/TaskList.tsx:35-36 | removing the element just inserted at a position gives back the list |
| TaskList.Reorder | src/components/TaskList.tsx:33-36 | the dragged task ends at `hoverIndex`; removing it from both the old and the new view leaves the same list; the view is a permutation of the old one |
| TaskList.ReorderKeepsCount | src/components/TaskList.tsx:33-36 | reordering the view keeps the number of tasks that pass any test |
| TaskList.Resolve | src/components/TaskList.tsx:46-49 | the `map`/`find` rebuild keeps the length and each position's id; each result comes from the originals or is the reordered task itself; ResolveFirstMatch states which original `find` picks |
| TaskList.ResolveAt | src/components/TaskList.tsx:46-48 | each position of the rebuild is what `find` returns for that position's id, or the reordered task itself when `find` finds nothing |
| TaskList.ResolveFirstMatch | src/components/TaskList.tsx:46-48 | where some original carries the position's id, the rebuilt task is the first original carrying it; where none does, the reordered task stays |
| TaskList.ResolveIdentity | src/components/TaskList.tsx:46-49 | with unique ids in the category, the rebuild returns the reordered view unchanged |
| TaskList.Moved | src/components/TaskList.tsx:41-51 | the flat list `moveTask` hands to `updateTasks`: the rebuilt category tasks followed by `otherTasks`; MovedLayout and MovedContents state its shape and contents |
| TaskList.MovedLayout | src/components/TaskList.tsx:41-51 | for any ids, `moveTask` keeps the list's length, puts the category's tasks in one block at the front, and leaves every other task behind that block in its old order |
| TaskList.MovedContents | src/components/TaskList.tsx:31-54 | with unique ids in the category, the new view is the spliced view: the same list `moveTask` sets locally at line 38. The dragged task is at `hoverIndex`, the other tasks keep their relative order, and the flat list is a permutation of the old one |
| TaskList.MovedOtherViews | src/components/TaskList.tsx:41-51 | a move in one category leaves every other category's view exactly as it was |
| TaskList.MovedInvariants | src/components/TaskList.tsx:31-54 | a move keeps ids unique and leaves the remaining count unchanged |
| TaskList.MovedPreserves | src/components/TaskList.tsx:31-54 | a move keeps unique ids and known categories, permutes the flat list, and places the spliced view in front of the untouched rest |
| TaskList.Toggled | src/components/TaskList.tsx:57-77 | the toggle keeps the length and the id and category of every position |
| TaskList.Celebrates | src/components/TaskList.tsx:66-74 | whether the confetti and the toast fire; ToggleFirstMatch states that this is exactly a not-done-to-done change of the first task with the id, ToggleUnknown that an unknown id never fires |
| TaskList.FindIndexSameIds | src/components/TaskList.tsx:58 | the lookup depends only on the ids, so it finds the same position before and after a toggle |
| TaskList.ToggleUnknown | src/components/TaskList.tsx:58-59 | an id that no task carries leaves the list as it is and gives no signal |
| TaskList.ToggleFirstMatch | src/components/TaskList.tsx:61-74 | at the first task with the id, only `completed` flips; every other position stays; the signal fires exactly when the task goes from not done to done |
| TaskList.ToggleInvolution | src/components/TaskList.tsx:57-77 | toggling the same id twice restores the list |
| TaskList.ToggleSignalAlternates | src/components/TaskList.tsx:66-74 | for a present id, exactly one of two consecutive toggles raises the signal |
| TaskList.RemainingAfterToggle | src/components/TaskList.tsx:57-77 | a toggle inside the category lowers the count by one when it signals and raises it by one otherwise; a toggle elsewhere leaves the count unchanged |
| TaskList.ToggleKeepsUniqueIds | src/components/TaskList.tsx:61-63 | the toggle keeps ids unique |
| TaskList.TrimStart | src/components/TaskList.tsx:81 | removes exactly the leading JavaScript white space |
| TaskList.IsJsSpace | src/components/TaskList.tsx:81 | the characters `trim` removes: the white-space and line-terminator code points of ECMAScript; TrimEmptyIffBlank states the add guard in its terms |
| TaskList.TrimEnd | src/components/TaskList.tsx:81 | removes exactly the trailing JavaScript white space |
| TaskList.Trim | src/components/TaskList.tsx:81 | `trim`: the result is a slice of the input with only white space around it, and it neither starts nor ends with white space |
| TaskList.TrimEmptyIffBlank | src/components/TaskList.tsx:81 | the trimmed title is empty exactly when every character is white space |
| TaskList.NewTask | src/components/TaskList.tsx:83-88 | the new task has the given id, the untrimmed title and the selected category; it is not completed and has no due date |
| TaskList.Added | src/components/TaskList.tsx:80-97 | adding either leaves the list alone or appends one new task |
| TaskList.AddedRejectsBlank | src/components/TaskList.tsx:81 | the list stays as it is exactly when the title is empty or all white space |
| TaskList.AddedAppends | src/components/TaskList.tsx:83-90 | otherwise the list grows by one at the end; the old list is its prefix; the new task ends the category's view |
| TaskList.AddedOtherViews | src/components/TaskList.tsx:87-90 | adding leaves every other category's view unchanged |
| TaskList.AddedInvariants | src/components/TaskList.tsx:80-97 | adding raises the category's count by one exactly when a task is added; a fresh id keeps ids unique |
| TaskStore.Store.constructor | src/pages/Index.tsx:11-12 | the page starts with the sample tasks, the first category and an empty input, and the invariant holds |
| TaskStore.Store.SelectCategory | src/pages/Index.tsx:36-41 | selecting a category changes only the selection and keeps the invariant |
| TaskStore.Store.SetDraft | src/components/TaskList.tsx:118 | typing changes only the input and keeps the invariant |
| TaskStore.Store.MoveTask | src/components/TaskList.tsx:31-54 | the new list is `Moved` of the old one, and its view of the selected category is the spliced view. Selection and input are unchanged, and the invariant holds. The permutation and the untouched rest are `MovedContents` and `MovedLayout` |
| TaskStore.Store.ToggleTaskComplete | src/components/TaskList.tsx:57-77 | the new list is `Toggled` of the old one; the result is the completion signal; the invariant holds |
| TaskStore.Store.AddNewTask | src/components/TaskList.tsx:80-97 | a task is added exactly when the trimmed input is non-empty; the list becomes `Added` of the old one; the input is cleared only when a task was added; the invariant holds |
| Scenarios.FilterMiddle | src/components/TaskList.tsx:27 | when only the middle block of `a + b + d` belongs to the category, the view is that block |
| Scenarios.FilterJoin | src/components/TaskList.tsx:27 | three blocks whose views are empty, whole and empty have the middle block as their joint view |
| Scenarios.FilterRange | src/components/TaskList.tsx:27 | when the category's tasks occupy exactly positions `i` to `j - 1`, the view is that slice |
| Scenarios.SeedLayout | src/lib/data.ts:47-148 | the sample lists the work tasks first, then personal tasks with one health task among them, then shopping, health and ideas |
| Scenarios.WorkOf | src/lib/data.ts:48-73 | in that layout the "work" view is the first four tasks |
| Scenarios.ShoppingOf | src/lib/data.ts:99-122 | in that layout the "shopping" view is positions 8 to 11 |
| Scenarios.HealthOf | src/lib/data.ts:87-135 | in that layout the "health" view is position 6 followed by positions 12 and 13 |
| Scenarios.ThreeOfFourOpen | src/components/TaskList.tsx:110 | a four-task view whose first task is done and whose other three are not counts three remaining |
| Scenarios.ShoppingRemainingOf | src/lib/data.ts:99-122 | in that layout, with the first shopping task done and the others open, three shopping tasks remain |
| Scenarios.WorkView | src/lib/data.ts:48-73 | filtering the sample by "work" gives task-1, task-2, task-3, task-4, in that order |
| Scenarios.ShoppingView | src/lib/data.ts:99-122 | filtering the sample by "shopping" gives task-9 to task-12, and three of them remain |
| Scenarios.HealthView | src/lib/data.ts:87-135 | filtering the sample by "health" gives task-7, task-13, task-14, in that order, although other categories' tasks lie between them |

## Left out

- Rendering is not modelled. This covers the JSX, the styling, the `Input` and `Button` widgets, the drag-and-drop library wiring, and the hover geometry that decides when `moveTask` is called (src/components/TaskItem.tsx). These are presentation and foreign library code. `moveTask` is modelled from the call onward.
- The confetti, its two-second timer and the toasts are not modelled; they are timers and UI. Whether the confetti and the "Task completed!" toast fire is modelled as the boolean `Celebrates`, returned by `ToggleTaskComplete`.
- TaskStore.Store.AddNewTask: the id is the parameter `freshId` in place of `` `task-${Date.now()}` ``. The method requires the id not to occur in the list, because `Valid()` keeps ids unique. The source relies on the clock for this; two adds in the same millisecond would repeat an id. The format `task-<milliseconds>` is not modelled.
- TaskStore.Store.MoveTask: the source reads the component's `filteredTasks` state. The model takes that state to be the view of the current list, i.e. the effect at src/components/TaskList.tsx:26-28 has run. The indices are required to lie inside the view, as they do when they come from the rendered items. The source does not require `dragIndex != hoverIndex`, and neither does the model.
- TaskList.MovedContents: requires unique ids in the category. With repeated ids, the `find` at src/components/TaskList.tsx:47 returns the first task carrying the id for every copy (`ResolveFirstMatch`), and the flat list then need not be a permutation. `MovedLayout` states what holds without that assumption. The store's invariant supplies it.
- The Enter-key handler (src/components/TaskList.tsx:100-104) is not modelled separately. It only calls `addNewTask`, which is `AddNewTask`.
- Deleting a task is not modelled. `TaskItem` declares a `deleteTask` callback and calls it from its button, but `TaskList` never supplies one, so no delete logic exists to model.
- The write to `item.index` in the drag hover handler (src/components/TaskItem.tsx) is not modelled. It is library-side drag state.
- The sidebar, the dark-mode toggle and the mobile layout (src/components/Sidebar.tsx, src/pages/Index.tsx) are not modelled, except for the category selection (`SelectCategory`).
- Due-date display through `toLocaleDateString` is not modelled; it is locale-dependent library code. `dueDate` is kept as an optional string.
- Strings are sequences of Unicode scalar values rather than UTF-16 code units. `trim` removes the ECMAScript white-space and line-terminator characters, all of which lie in the Basic Multilingual Plane, so the difference does not arise.
