/** The records of the to-do application and its hard-coded sample dataset
    (src/lib/data.ts). */
module Data {

  /** An optional value, used for the optional `dueDate` of a task and for lookups. */
  datatype Option<+T> = None | Some(value: T)

  /** A to-do item. `dueDate` is the optional ISO date string of the source. */
  datatype Task = Task(id: string, title: string, completed: bool, dueDate: Option<string>, categoryId: string)

  /** A named, iconed grouping of tasks. */
  datatype Category = Category(id: string, name: string, icon: string)

  /** The ids of a list of tasks, position by position. */
  function Ids(ts: seq<Task>): (r: seq<string>)
    ensures |r| == |ts|
    ensures forall k :: 0 <= k < |ts| ==> r[k] == ts[k].id
  {
    if ts == [] then [] else [ts[0].id] + Ids(ts[1..])
  }

  /** No two positions of the list carry the same id. */
  predicate UniqueIds(ts: seq<Task>) {
    forall i, j :: 0 <= i < j < |ts| ==> ts[i].id != ts[j].id
  }

  /** No two categories carry the same id. */
  predicate UniqueCategoryIds(cs: seq<Category>) {
    forall i, j :: 0 <= i < j < |cs| ==> cs[i].id != cs[j].id
  }

  /** The ids of a list of categories, position by position. */
  function CategoryIds(cs: seq<Category>): (r: seq<string>)
    ensures |r| == |cs|
    ensures forall k :: 0 <= k < |cs| ==> r[k] == cs[k].id
  {
    if cs == [] then [] else [cs[0].id] + CategoryIds(cs[1..])
  }

  /** The five sample categories, in sidebar order. */
  function Categories(): seq<Category> {
    [ Category("work", "Work", "\U{1F4BC}"),
      Category("personal", "Personal", "\U{1F464}"),
      Category("shopping", "Shopping", "\U{1F6D2}"),
      Category("health", "Health", "\U{1F4AA}"),
      Category("ideas", "Ideas", "\U{1F4A1}") ]
  }

  /** The sixteen sample tasks, in their initial flat order. */
  function SeedTasks(): seq<Task> {
    [ Task("task-1", "Complete quarterly report", false, Some("2025-04-15"), "work"),
      Task("task-2", "Review team presentations", true, None, "work"),
      Task("task-3", "Schedule client meeting", false, Some("2025-04-20"), "work"),
      Task("task-4", "Prepare for conference", false, None, "work"),
      Task("task-5", "Buy birthday gift for mom", false, Some("2025-04-25"), "personal"),
      Task("task-6", "Call insurance company", true, None, "personal"),
      Task("task-7", "Schedule dentist appointment", false, None, "health"),
      Task("task-8", "Plan weekend getaway", false, None, "personal"),
      Task("task-9", "Milk", true, None, "shopping"),
      Task("task-10", "Eggs", false, None, "shopping"),
      Task("task-11", "Bread", false, None, "shopping"),
      Task("task-12", "Coffee beans", false, None, "shopping"),
      Task("task-13", "Morning jog", false, Some("2025-04-14"), "health"),
      Task("task-14", "Take vitamins", true, None, "health"),
      Task("task-15", "App for vintage photo filters", false, None, "ideas"),
      Task("task-16", "Recipe book for comfort food", false, None, "ideas") ]
  }

  /** The seed has five categories and sixteen tasks. */
  lemma SeedSizes()
    ensures |Categories()| == 5 && |SeedTasks()| == 16
  {
  }

  /** The sample task ids are task-1 to task-16, in order. */
  lemma SeedIds(s: seq<Task>)
    requires s == SeedTasks()
    ensures |s| == 16
    ensures s[0].id == "task-1" && s[1].id == "task-2" && s[2].id == "task-3" && s[3].id == "task-4"
    ensures s[4].id == "task-5" && s[5].id == "task-6" && s[6].id == "task-7" && s[7].id == "task-8"
    ensures s[8].id == "task-9" && s[9].id == "task-10" && s[10].id == "task-11" && s[11].id == "task-12"
    ensures s[12].id == "task-13" && s[13].id == "task-14" && s[14].id == "task-15" && s[15].id == "task-16"
  {
  }

  /** Sixteen tasks numbered task-1 to task-16 have unique ids. */
  lemma NumberedIdsUnique(s: seq<Task>)
    requires |s| == 16
    requires s[0].id == "task-1" && s[1].id == "task-2" && s[2].id == "task-3" && s[3].id == "task-4"
    requires s[4].id == "task-5" && s[5].id == "task-6" && s[6].id == "task-7" && s[7].id == "task-8"
    requires s[8].id == "task-9" && s[9].id == "task-10" && s[10].id == "task-11" && s[11].id == "task-12"
    requires s[12].id == "task-13" && s[13].id == "task-14" && s[14].id == "task-15" && s[15].id == "task-16"
    ensures UniqueIds(s)
  {
  }

  /** The sample task ids are pairwise distinct. */
  lemma SeedTaskIdsUnique(s: seq<Task>)
    requires s == SeedTasks()
    ensures UniqueIds(s)
  {
    SeedIds(s);
    NumberedIdsUnique(s);
  }

  /** The category ids are pairwise distinct. */
  lemma CategoryIdsUnique()
    ensures UniqueCategoryIds(Categories())
  {
  }

  /** Every sample task refers to one of the sample categories. */
  lemma SeedCategoriesExist(s: seq<Task>, cs: seq<Category>)
    requires s == SeedTasks() && cs == Categories()
    ensures forall t :: t in s ==> t.categoryId in CategoryIds(cs)
  {
    var ids := CategoryIds(cs);
    assert ids == ["work", "personal", "shopping", "health", "ideas"];
  }
}
