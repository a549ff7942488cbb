/** The sample dataset of src/lib/data.ts seen through the category filter and the
    remaining count: what the task list shows on first load. Each fact about the
    literal dataset is kept in a lemma of its own over at most four tasks, and the
    views are assembled from those facts by lemmas that hold for every list. */
module Scenarios {
  import opened Data
  import opened TaskList

  /** The view of `a + b + d` when only the middle block `b` belongs to category `c`. */
  lemma FilterMiddle(a: seq<Task>, b: seq<Task>, d: seq<Task>, c: string)
    requires forall t :: t in a ==> t.categoryId != c
    requires forall t :: t in b ==> t.categoryId == c
    requires forall t :: t in d ==> t.categoryId != c
    ensures Filter(a + b + d, c) == b
  {
    FilterEmpty(a, c);
    FilterWhole(b, c);
    FilterEmpty(d, c);
    FilterJoin(a, b, d, c);
  }

  /** The view of three blocks whose views are empty, whole and empty. */
  lemma FilterJoin(a: seq<Task>, b: seq<Task>, d: seq<Task>, c: string)
    requires Filter(a, c) == [] && Filter(b, c) == b && Filter(d, c) == []
    ensures Filter(a + b + d, c) == b
  {
    assert Filter(a + b, c) == Filter(a, c) + Filter(b, c) by {
      FilterAppend(a, b, c);
    }
    assert Filter(a + b + d, c) == Filter(a + b, c) + Filter(d, c) by {
      FilterAppend(a + b, d, c);
    }
  }

  /** A list whose category-`c` tasks are exactly the positions `i` up to `j` has that
      slice as its view. */
  lemma FilterRange(s: seq<Task>, i: nat, j: nat, c: string)
    requires i <= j <= |s|
    requires forall t :: t in s[..i] ==> t.categoryId != c
    requires forall t :: t in s[i..j] ==> t.categoryId == c
    requires forall t :: t in s[j..] ==> t.categoryId != c
    ensures Filter(s, c) == s[i..j]
  {
    assert s == s[..i] + s[i..j] + s[j..];
    FilterMiddle(s[..i], s[i..j], s[j..], c);
  }

  // Category facts about the sample list, four tasks at a time.

  lemma Tasks1To4(s: seq<Task>)
    requires s == SeedTasks()
    ensures forall t :: t in s[..4] ==> t.categoryId == "work"
  {
  }

  lemma Tasks5To6(s: seq<Task>)
    requires s == SeedTasks()
    ensures forall t :: t in s[4..6] ==> t.categoryId == "personal"
  {
  }

  lemma Tasks7To8(s: seq<Task>)
    requires s == SeedTasks()
    ensures s[6].categoryId == "health" && s[7].categoryId == "personal"
  {
  }

  lemma Tasks9To12(s: seq<Task>)
    requires s == SeedTasks()
    ensures forall t :: t in s[8..12] ==> t.categoryId == "shopping"
  {
  }

  lemma Tasks13To16(s: seq<Task>)
    requires s == SeedTasks()
    ensures forall t :: t in s[12..14] ==> t.categoryId == "health"
    ensures forall t :: t in s[14..] ==> t.categoryId == "ideas"
  {
  }

  /** Where each category's tasks sit in the sample list. */
  predicate Layout(s: seq<Task>) {
    && |s| == 16
    && (forall t :: t in s[..4] ==> t.categoryId == "work")
    && (forall t :: t in s[4..6] ==> t.categoryId == "personal")
    && s[6].categoryId == "health" && s[7].categoryId == "personal"
    && (forall t :: t in s[8..12] ==> t.categoryId == "shopping")
    && (forall t :: t in s[12..14] ==> t.categoryId == "health")
    && (forall t :: t in s[14..] ==> t.categoryId == "ideas")
  }

  lemma SeedLayout(s: seq<Task>)
    requires s == SeedTasks()
    ensures Layout(s)
  {
    Tasks1To4(s);
    Tasks5To6(s);
    Tasks7To8(s);
    Tasks9To12(s);
    Tasks13To16(s);
  }

  /** In a list laid out like the sample, the "work" view is its first four tasks. */
  lemma WorkOf(s: seq<Task>)
    requires Layout(s)
    ensures Filter(s, "work") == s[..4]
  {
    assert s[4..] == s[4..6] + [s[6]] + [s[7]] + s[8..12] + s[12..14] + s[14..];
    FilterRange(s, 0, 4, "work");
  }

  lemma WorkIds(s: seq<Task>)
    requires s == SeedTasks()
    ensures Ids(s[..4]) == ["task-1", "task-2", "task-3", "task-4"]
  {
  }

  /** The "work" view is task-1 to task-4, in order. */
  lemma WorkView(s: seq<Task>)
    requires s == SeedTasks()
    ensures Filter(s, "work") == s[..4]
    ensures Ids(Filter(s, "work")) == ["task-1", "task-2", "task-3", "task-4"]
  {
    SeedLayout(s);
    WorkOf(s);
    WorkIds(s);
  }

  /** In a list laid out like the sample, the "shopping" view is positions 8 to 11. */
  lemma ShoppingOf(s: seq<Task>)
    requires Layout(s)
    ensures Filter(s, "shopping") == s[8..12]
  {
    assert s[..8] == s[..4] + s[4..6] + [s[6]] + [s[7]];
    assert s[12..] == s[12..14] + s[14..];
    FilterRange(s, 8, 12, "shopping");
  }

  /** In a list laid out like the sample, the "health" view is position 6 followed by
      positions 12 and 13: the filter skips the tasks of other categories in between. */
  lemma HealthOf(s: seq<Task>)
    requires Layout(s)
    ensures Filter(s, "health") == [s[6]] + s[12..14]
  {
    var front, back := s[..12], s[12..];
    assert front[..6] == s[..4] + s[4..6];
    assert front[6..7] == [s[6]];
    assert front[7..] == [s[7]] + s[8..12];
    FilterRange(front, 6, 7, "health");
    assert back[..0] == [] && back[0..2] == s[12..14] && back[2..] == s[14..];
    FilterRange(back, 0, 2, "health");
    assert s == front + back;
    FilterAppend(front, back, "health");
  }

  /** A four-task view whose first task is done and whose other three are not
      counts three remaining. */
  lemma ThreeOfFourOpen(v: seq<Task>)
    requires |v| == 4 && v[0].completed
    requires forall t :: t in v[1..] ==> !t.completed
    ensures |FilterBy(v, Incomplete)| == 3
  {
    assert v == [v[0]] + v[1..];
    FilterByAppend([v[0]], v[1..], Incomplete);
    FilterByNone([v[0]], Incomplete);
    FilterByAll(v[1..], Incomplete);
  }

  /** In a list laid out like the sample whose first shopping task is done and whose
      other three are not, three shopping tasks remain. */
  lemma ShoppingRemainingOf(s: seq<Task>)
    requires Layout(s)
    requires s[8].completed && forall t :: t in s[9..12] ==> !t.completed
    ensures Remaining(s, "shopping") == 3
  {
    ShoppingOf(s);
    assert s[8..12][1..] == s[9..12];
    ThreeOfFourOpen(s[8..12]);
  }

  lemma Tasks9To12Progress(s: seq<Task>)
    requires s == SeedTasks()
    ensures s[8].completed
    ensures forall t :: t in s[9..12] ==> !t.completed
  {
  }

  lemma ShoppingRemaining(s: seq<Task>)
    requires s == SeedTasks()
    ensures Remaining(s, "shopping") == 3
  {
    SeedLayout(s);
    Tasks9To12Progress(s);
    ShoppingRemainingOf(s);
  }

  lemma ShoppingIds(s: seq<Task>)
    requires s == SeedTasks()
    ensures Ids(s[8..12]) == ["task-9", "task-10", "task-11", "task-12"]
  {
  }

  /** The "shopping" view is task-9 to task-12, of which three are still to do. */
  lemma ShoppingView(s: seq<Task>)
    requires s == SeedTasks()
    ensures Filter(s, "shopping") == s[8..12]
    ensures Ids(Filter(s, "shopping")) == ["task-9", "task-10", "task-11", "task-12"]
    ensures Remaining(s, "shopping") == 3
  {
    SeedLayout(s);
    ShoppingOf(s);
    ShoppingIds(s);
    ShoppingRemaining(s);
  }

  lemma HealthIds(s: seq<Task>)
    requires s == SeedTasks()
    ensures Ids([s[6]] + s[12..14]) == ["task-7", "task-13", "task-14"]
  {
  }

  /** The "health" view is task-7, task-13 and task-14, in that order, although the
      three are separated by tasks of other categories. */
  lemma HealthView(s: seq<Task>)
    requires s == SeedTasks()
    ensures Filter(s, "health") == [s[6]] + s[12..14]
    ensures Ids(Filter(s, "health")) == ["task-7", "task-13", "task-14"]
  {
    SeedLayout(s);
    HealthOf(s);
    HealthIds(s);
  }
}
