/** The task state of the page (src/pages/Index.tsx) together with the operations
    that src/components/TaskList.tsx performs on it. Every operation computes a new
    flat list and hands it to `updateTasks`, which replaces the page's list; here that
    is an assignment to the `tasks` field. */
module TaskStore {
  import opened Data
  import opened TaskList

  class Store {
    /** The categories the sidebar offers; they never change. */
    const categories: seq<Category>
    /** The flat task list: every category's tasks, interleaved. */
    var tasks: seq<Task>
    /** The category the task list shows. */
    var category: Category
    /** The text in the add-task input (`newTaskTitle`). */
    var draft: string

    /** Ids stay unique, the selection is one of the categories, and every task
        refers to one of the categories. */
    ghost predicate Valid()
      reads this
    {
      && UniqueIds(tasks)
      && category in categories
      && forall t :: t in tasks ==> t.categoryId in CategoryIds(categories)
    }

    /** The initial page state: the sample tasks, the first category, an empty input. */
    constructor ()
      ensures Valid()
      ensures categories == Categories()
      ensures tasks == SeedTasks() && category == Categories()[0] && draft == ""
    {
      categories := Categories();
      tasks := SeedTasks();
      category := Categories()[0];
      draft := "";
      SeedTaskIdsUnique(SeedTasks());
      SeedCategoriesExist(SeedTasks(), Categories());
    }

    /** The sidebar selects another category; the list itself is untouched. */
    method SelectCategory(c: Category)
      requires Valid() && c in categories
      modifies this
      ensures Valid()
      ensures category == c && tasks == old(tasks) && draft == old(draft)
    {
      category := c;
    }

    /** The add-task input changes. */
    method SetDraft(text: string)
      requires Valid()
      modifies this
      ensures Valid()
      ensures draft == text && tasks == old(tasks) && category == old(category)
    {
      draft := text;
    }

    /** Drag-to-reorder within the selected category, with category-local indices. */
    method MoveTask(dragIndex: nat, hoverIndex: nat)
      requires Valid()
      requires dragIndex < |Filter(tasks, category.id)| && hoverIndex < |Filter(tasks, category.id)|
      modifies this
      ensures category == old(category) && draft == old(draft)
      ensures Valid()
      ensures tasks == Moved(old(tasks), category.id, dragIndex, hoverIndex)
      ensures Filter(tasks, category.id) == Reorder(Filter(old(tasks), category.id), dragIndex, hoverIndex)
    {
      var filteredTasks := Filter(tasks, category.id);
      var draggedTask := filteredTasks[dragIndex];
      var newTasks := RemoveAt(filteredTasks, dragIndex);
      newTasks := InsertAt(newTasks, hoverIndex, draggedTask);
      var categoryTasks := Filter(tasks, category.id);
      var otherTasks := Others(tasks, category.id);
      var reorderedCategoryTasks := Resolve(newTasks, categoryTasks);
      MovedPreserves(tasks, category.id, dragIndex, hoverIndex, CategoryIds(categories));
      tasks := reorderedCategoryTasks + otherTasks;
    }

    /** Flips `completed` on the first task with id `taskId`; `celebrate` is the
        completion signal (confetti and toast). */
    method ToggleTaskComplete(taskId: string) returns (celebrate: bool)
      requires Valid()
      modifies this
      ensures Valid()
      ensures tasks == Toggled(old(tasks), taskId)
      ensures celebrate == Celebrates(old(tasks), taskId)
      ensures category == old(category) && draft == old(draft)
    {
      var taskIndex := FindIndex(tasks, taskId);
      if taskIndex.None? {
        return false;
      }
      var k := taskIndex.value;
      var updatedTask := tasks[k].(completed := !tasks[k].completed);
      var newTasks := tasks[k := updatedTask];
      celebrate := updatedTask.completed;
      ToggleKeepsUniqueIds(tasks, taskId);
      forall t | t in newTasks ensures t.categoryId in CategoryIds(categories) {
        var j :| 0 <= j < |newTasks| && newTasks[j] == t;
        assert tasks[j] in tasks;
      }
      tasks := newTasks;
    }

    /** Adds the draft as a new task of the selected category, unless it is blank.
        `freshId` stands for the clock-derived id of the source. */
    method AddNewTask(freshId: string) returns (added: bool)
      requires Valid()
      requires forall t :: t in tasks ==> t.id != freshId
      modifies this
      ensures Valid()
      ensures added <==> Trim(old(draft)) != []
      ensures tasks == Added(old(tasks), old(draft), category.id, freshId)
      ensures draft == if added then "" else old(draft)
      ensures category == old(category)
    {
      if Trim(draft) == [] {
        return false;
      }
      var newTask := NewTask(freshId, draft, category.id);
      AddedInvariants(tasks, draft, category.id, freshId);
      var k :| 0 <= k < |categories| && categories[k] == category;
      assert category.id == CategoryIds(categories)[k];
      tasks := tasks + [newTask];
      draft := "";
      added := true;
    }
  }
}
