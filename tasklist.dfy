/** The task-list logic of src/components/TaskList.tsx as pure functions over the flat
    task list: the category view, the drag-to-reorder rebuild, the completion toggle,
    the add-task append and the remaining count, with the lemmas that relate them. */
module TaskList {
  import opened Data

  // ---------------------------------------------------------------------------
  // Array.prototype.filter on task lists

  /** The tasks of `ts` that satisfy `p`, in their order in `ts`. */
  function FilterBy(ts: seq<Task>, p: Task -> bool): (r: seq<Task>)
    ensures |r| <= |ts|
    ensures forall t :: t in r <==> t in ts && p(t)
  {
    if ts == [] then []
    else
      assert ts == [ts[0]] + ts[1..];
      (if p(ts[0]) then [ts[0]] else []) + FilterBy(ts[1..], p)
  }

  /** Filtering distributes over concatenation: relative order is kept. */
  lemma {:induction false} FilterByAppend(a: seq<Task>, b: seq<Task>, p: Task -> bool)
    ensures FilterBy(a + b, p) == FilterBy(a, p) + FilterBy(b, p)
  {
    if a == [] {
      assert a + b == b;
    } else {
      assert (a + b)[0] == a[0];
      assert (a + b)[1..] == a[1..] + b;
      FilterByAppend(a[1..], b, p);
    }
  }

  /** Filtering keeps exactly the copies of the elements that satisfy `p`. */
  lemma {:induction false} FilterByCounts(ts: seq<Task>, p: Task -> bool)
    ensures forall t :: multiset(FilterBy(ts, p))[t] == if p(t) then multiset(ts)[t] else 0
  {
    if ts != [] {
      FilterByCounts(ts[1..], p);
      assert ts == [ts[0]] + ts[1..];
    }
  }

  /** A task list and a permutation of it filter to permutations of each other. */
  lemma FilterByPermutation(a: seq<Task>, b: seq<Task>, p: Task -> bool)
    requires multiset(a) == multiset(b)
    ensures multiset(FilterBy(a, p)) == multiset(FilterBy(b, p))
    ensures |FilterBy(a, p)| == |FilterBy(b, p)|
  {
    FilterByCounts(a, p);
    FilterByCounts(b, p);
    assert multiset(FilterBy(a, p)) == multiset(FilterBy(b, p));
    assert |multiset(FilterBy(a, p))| == |FilterBy(a, p)|;
  }

  /** A filter and the filter of the opposite condition split the list between them. */
  lemma FilterByComplement(ts: seq<Task>, p: Task -> bool, q: Task -> bool)
    requires forall t :: q(t) == !p(t)
    ensures multiset(FilterBy(ts, p)) + multiset(FilterBy(ts, q)) == multiset(ts)
    ensures |FilterBy(ts, p)| + |FilterBy(ts, q)| == |ts|
  {
    FilterByCounts(ts, p);
    FilterByCounts(ts, q);
    assert multiset(FilterBy(ts, p)) + multiset(FilterBy(ts, q)) == multiset(ts);
    assert |multiset(ts)| == |ts|;
  }

  /** A list all of whose tasks satisfy `p` is its own filter. */
  lemma {:induction false} FilterByAll(ts: seq<Task>, p: Task -> bool)
    requires forall t :: t in ts ==> p(t)
    ensures FilterBy(ts, p) == ts
  {
    if ts != [] {
      assert ts[0] in ts;
      FilterByAll(ts[1..], p);
      assert ts == [ts[0]] + ts[1..];
    }
  }

  /** A list none of whose tasks satisfies `p` filters to nothing. */
  lemma {:induction false} FilterByNone(ts: seq<Task>, p: Task -> bool)
    requires forall t :: t in ts ==> !p(t)
    ensures FilterBy(ts, p) == []
  {
    if ts != [] {
      assert ts[0] in ts;
      FilterByNone(ts[1..], p);
    }
  }

  /** Filtering a filtered list by a stronger condition is filtering by that condition. */
  lemma {:induction false} FilterByNested(ts: seq<Task>, p: Task -> bool, q: Task -> bool)
    requires forall t :: q(t) ==> p(t)
    ensures FilterBy(FilterBy(ts, p), q) == FilterBy(ts, q)
  {
    if ts != [] {
      FilterByNested(ts[1..], p, q);
      var head := if p(ts[0]) then [ts[0]] else [];
      FilterByAppend(head, FilterBy(ts[1..], p), q);
    }
  }

  /** Filtering keeps ids unique. */
  lemma {:induction false} FilterByUniqueIds(ts: seq<Task>, p: Task -> bool)
    requires UniqueIds(ts)
    ensures UniqueIds(FilterBy(ts, p))
  {
    if ts != [] {
      assert UniqueIds(ts[1..]) by {
        forall i, j | 0 <= i < j < |ts[1..]| ensures ts[1..][i].id != ts[1..][j].id {
          assert ts[1..][i] == ts[i + 1] && ts[1..][j] == ts[j + 1];
        }
      }
      FilterByUniqueIds(ts[1..], p);
      var rest := FilterBy(ts[1..], p);
      if p(ts[0]) {
        forall j | 0 <= j < |rest| ensures ts[0].id != rest[j].id {
          assert rest[j] in ts[1..];
          var m :| 0 <= m < |ts[1..]| && ts[1..][m] == rest[j];
          assert ts[m + 1] == rest[j];
        }
        var r := [ts[0]] + rest;
        forall i, j | 0 <= i < j < |r| ensures r[i].id != r[j].id {
          if i == 0 {
            assert r[j] == rest[j - 1];
          } else {
            assert r[i] == rest[i - 1] && r[j] == rest[j - 1];
          }
        }
      }
    }
  }

  /** A permutation of a list with unique ids has unique ids. */
  lemma UniqueIdsPermutation(a: seq<Task>, b: seq<Task>)
    requires UniqueIds(a)
    requires multiset(a) == multiset(b)
    ensures UniqueIds(b)
  {
    UniqueIdsSingleCopies(a);
    forall i, j | 0 <= i < j < |b| ensures b[i].id != b[j].id {
      TwoPositions(b, i, j);
      assert b[i] != b[j];
      assert b[i] in multiset(a) && b[j] in multiset(a);
      var p :| 0 <= p < |a| && a[p] == b[i];
      var q :| 0 <= q < |a| && a[q] == b[j];
      assert p != q;
    }
  }

  /** Two positions holding the same task make two copies of it. */
  lemma TwoPositions(s: seq<Task>, i: nat, j: nat)
    requires i < j < |s|
    ensures s[i] == s[j] ==> multiset(s)[s[i]] >= 2
  {
    assert s == s[..i] + [s[i]] + s[i + 1..j] + [s[j]] + s[j + 1..];
  }

  /** A permutation has the same members. */
  lemma PermutationMembers(a: seq<Task>, b: seq<Task>)
    requires multiset(a) == multiset(b)
    ensures forall t :: t in a <==> t in b
  {
    forall t ensures t in a <==> t in b {
      assert t in a <==> t in multiset(a);
      assert t in b <==> t in multiset(b);
    }
  }

  /** A list with unique ids holds each task at most once. */
  lemma {:induction false} UniqueIdsSingleCopies(ts: seq<Task>)
    requires UniqueIds(ts)
    ensures forall t :: multiset(ts)[t] <= 1
  {
    if ts != [] {
      assert UniqueIds(ts[1..]) by {
        forall i, j | 0 <= i < j < |ts[1..]| ensures ts[1..][i].id != ts[1..][j].id {
          assert ts[1..][i] == ts[i + 1] && ts[1..][j] == ts[j + 1];
        }
      }
      UniqueIdsSingleCopies(ts[1..]);
      assert ts == [ts[0]] + ts[1..];
      assert forall m :: 0 <= m < |ts[1..]| ==> ts[1..][m] != ts[0] by {
        forall m | 0 <= m < |ts[1..]| ensures ts[1..][m] != ts[0] {
          assert ts[1..][m] == ts[m + 1];
        }
      }
    }
  }

  // ---------------------------------------------------------------------------
  // The category view (TaskList.tsx line 27) and the remaining count (line 110)

  /** The filter condition of the category view. */
  function InCategory(c: string): Task -> bool {
    (t: Task) => t.categoryId == c
  }

  /** Its opposite, the condition of the rest of the list. */
  function OutsideCategory(c: string): Task -> bool {
    (t: Task) => t.categoryId != c
  }

  /** The filter condition of the remaining count. */
  function Incomplete(t: Task): bool {
    !t.completed
  }

  /** Its opposite. */
  function Done(t: Task): bool {
    t.completed
  }

  /** The tasks of category `c`, in their flat-list order. */
  function Filter(ts: seq<Task>, c: string): seq<Task> {
    FilterBy(ts, InCategory(c))
  }

  /** The tasks of every other category, in their flat-list order. */
  function Others(ts: seq<Task>, c: string): seq<Task> {
    FilterBy(ts, OutsideCategory(c))
  }

  /** The view holds exactly the tasks of category `c`, each as often as the flat list
      does, and the rest holds exactly the others. */
  lemma FilterExactly(ts: seq<Task>, c: string)
    ensures forall t :: t in Filter(ts, c) <==> t in ts && t.categoryId == c
    ensures forall t :: multiset(Filter(ts, c))[t] == if t.categoryId == c then multiset(ts)[t] else 0
    ensures forall t :: t in Others(ts, c) <==> t in ts && t.categoryId != c
  {
    FilterByCounts(ts, InCategory(c));
  }

  /** The category view and the rest split the flat list between them. */
  lemma FilterOthersPartition(ts: seq<Task>, c: string)
    ensures multiset(Filter(ts, c)) + multiset(Others(ts, c)) == multiset(ts)
    ensures |Filter(ts, c)| + |Others(ts, c)| == |ts|
  {
    FilterByComplement(ts, InCategory(c), OutsideCategory(c));
  }

  /** The view of the concatenation is the concatenation of the views, and a single
      task is in its category's view only: together these fix the view and its order. */
  lemma FilterAppend(a: seq<Task>, b: seq<Task>, c: string)
    ensures Filter(a + b, c) == Filter(a, c) + Filter(b, c)
    ensures Others(a + b, c) == Others(a, c) + Others(b, c)
    ensures forall t :: Filter([t], c) == if t.categoryId == c then [t] else []
  {
    forall t ensures Filter([t], c) == if t.categoryId == c then [t] else [] {
      assert [t][1..] == [];
    }
    FilterByAppend(a, b, InCategory(c));
    FilterByAppend(a, b, OutsideCategory(c));
  }

  /** A list without tasks of category `c` has an empty view. */
  lemma FilterEmpty(ts: seq<Task>, c: string)
    requires forall t :: t in ts ==> t.categoryId != c
    ensures Filter(ts, c) == []
  {
    FilterByNone(ts, InCategory(c));
  }

  /** A list of category-`c` tasks only is its own view. */
  lemma FilterWhole(ts: seq<Task>, c: string)
    requires forall t :: t in ts ==> t.categoryId == c
    ensures Filter(ts, c) == ts
  {
    FilterByAll(ts, InCategory(c));
  }

  /** The number of incomplete tasks in the view of category `c`. */
  function Remaining(ts: seq<Task>, c: string): (r: nat)
    ensures r <= |Filter(ts, c)|
  {
    |FilterBy(Filter(ts, c), Incomplete)|
  }

  /** The count is the view's length exactly when nothing in the view is done,
      and zero exactly when everything in it is. */
  lemma RemainingExtremes(ts: seq<Task>, c: string)
    ensures Remaining(ts, c) == |Filter(ts, c)| <==> forall t :: t in Filter(ts, c) ==> !t.completed
    ensures Remaining(ts, c) == 0 <==> forall t :: t in Filter(ts, c) ==> t.completed
  {
    var view := Filter(ts, c);
    FilterByComplement(view, Incomplete, Done);
    var done := FilterBy(view, Done);
    if Remaining(ts, c) == |view| {
      assert done == [];
    }
    if forall t :: t in view ==> !t.completed {
      FilterByAll(view, Incomplete);
    }
    if forall t :: t in view ==> t.completed {
      FilterByNone(view, Incomplete);
    }
  }

  /** The count of a list split around one task is the sum of the parts' counts. */
  lemma RemainingSplit(a: seq<Task>, x: Task, b: seq<Task>, c: string)
    ensures Remaining(a + [x] + b, c) == Remaining(a, c) + (if x.categoryId == c && !x.completed then 1 else 0) + Remaining(b, c)
  {
    FilterAppend(a + [x], b, c);
    FilterAppend(a, [x], c);
    FilterByAppend(Filter(a, c) + Filter([x], c), Filter(b, c), Incomplete);
    FilterByAppend(Filter(a, c), Filter([x], c), Incomplete);
    assert [x][1..] == [];
  }

  // ---------------------------------------------------------------------------
  // Lookup by id: Array.prototype.findIndex and find

  /** The position of the first task with id `id`, if there is one. */
  function FindIndex(ts: seq<Task>, id: string): (r: Option<nat>)
    ensures r.None? <==> forall k :: 0 <= k < |ts| ==> ts[k].id != id
    ensures r.Some? ==> r.value < |ts| && ts[r.value].id == id
    ensures r.Some? ==> forall k :: 0 <= k < r.value ==> ts[k].id != id
  {
    if ts == [] then None
    else if ts[0].id == id then Some(0)
    else
      match FindIndex(ts[1..], id)
      case None => None
      case Some(k) => Some(k + 1)
  }

  /** The first task with id `id`, if there is one. */
  function FindById(ts: seq<Task>, id: string): (r: Option<Task>)
    ensures r.None? <==> forall t :: t in ts ==> t.id != id
    ensures r.Some? ==> r.value in ts && r.value.id == id
    ensures r.Some? ==> exists k :: 0 <= k < |ts| && ts[k] == r.value && forall j :: 0 <= j < k ==> ts[j].id != id
  {
    match FindIndex(ts, id)
    case None => None
    case Some(k) => Some(ts[k])
  }

  /** In a list with unique ids, looking up a member's id finds that member. */
  lemma FindByIdMember(ts: seq<Task>, t: Task)
    requires UniqueIds(ts)
    requires t in ts
    ensures FindById(ts, t.id) == Some(t)
  {
    var k := FindIndex(ts, t.id).value;
    var m :| 0 <= m < |ts| && ts[m] == t;
    assert ts[k].id == ts[m].id;
  }

  // ---------------------------------------------------------------------------
  // Drag-to-reorder: moveTask (TaskList.tsx lines 31-54)

  /** `s` without its element at `i`: `splice(i, 1)`. */
  function RemoveAt(s: seq<Task>, i: nat): (r: seq<Task>)
    requires i < |s|
    ensures |r| == |s| - 1
    ensures forall k :: 0 <= k < |r| ==> r[k] == if k < i then s[k] else s[k + 1]
    ensures multiset(r) + multiset{s[i]} == multiset(s)
  {
    assert s == s[..i] + [s[i]] + s[i + 1..];
    s[..i] + s[i + 1..]
  }

  /** `s` with `x` inserted before position `i`: `splice(i, 0, x)`. */
  function InsertAt(s: seq<Task>, i: nat, x: Task): (r: seq<Task>)
    requires i <= |s|
    ensures |r| == |s| + 1 && r[i] == x
    ensures forall k :: 0 <= k < |r| && k != i ==> r[k] == if k < i then s[k] else s[k - 1]
    ensures multiset(r) == multiset(s) + multiset{x}
  {
    assert s == s[..i] + s[i..];
    s[..i] + [x] + s[i..]
  }

  /** The category-local splice of moveTask: the task at `from` is taken out and put
      back so that it ends at `to`; everything else keeps its relative order. */
  function Reorder(s: seq<Task>, from: nat, to: nat): (r: seq<Task>)
    requires from < |s| && to < |s|
    ensures |r| == |s| && r[to] == s[from]
    ensures RemoveAt(r, to) == RemoveAt(s, from)
    ensures multiset(r) == multiset(s)
  {
    var rest := RemoveAt(s, from);
    RemoveInserted(rest, to, s[from]);
    InsertAt(rest, to, s[from])
  }

  /** Removing what was just inserted gives back the list. */
  lemma RemoveInserted(s: seq<Task>, i: nat, x: Task)
    requires i <= |s|
    ensures RemoveAt(InsertAt(s, i, x), i) == s
  {
    var r := InsertAt(s, i, x);
    assert r[..i] == s[..i] && r[i + 1..] == s[i..];
    assert s == s[..i] + s[i..];
  }

  /** Reordering does not change how many tasks satisfy a condition. */
  lemma ReorderKeepsCount(s: seq<Task>, from: nat, to: nat, p: Task -> bool)
    requires from < |s| && to < |s|
    ensures |FilterBy(Reorder(s, from, to), p)| == |FilterBy(s, p)|
  {
    FilterByPermutation(Reorder(s, from, to), s, p);
  }

  /** `ordered.map(task => originals.find(t => t.id === task.id) || task)`. */
  function Resolve(ordered: seq<Task>, originals: seq<Task>): (r: seq<Task>)
    ensures |r| == |ordered|
    ensures forall k :: 0 <= k < |r| ==> r[k].id == ordered[k].id
    ensures forall k :: 0 <= k < |r| ==> r[k] in originals || r[k] == ordered[k]
    ensures forall t :: t in r ==> t in originals || t in ordered
  {
    if ordered == [] then []
    else
      var head := match FindById(originals, ordered[0].id) case Some(o) => o case None => ordered[0];
      [head] + Resolve(ordered[1..], originals)
  }

  /** Position `k` of the rebuild is what `find` returns for that position's id,
      or the reordered task itself when `find` comes back empty. */
  lemma {:induction false} ResolveAt(ordered: seq<Task>, originals: seq<Task>, k: nat)
    requires k < |ordered|
    ensures Resolve(ordered, originals)[k] ==
      match FindById(originals, ordered[k].id) case Some(o) => o case None => ordered[k]
  {
    if k > 0 {
      ResolveAt(ordered[1..], originals, k - 1);
    }
  }

  /** The `find` of the rebuild: where some original carries the position's id, the
      result is the first original carrying it; where none does, the task stays. */
  lemma ResolveFirstMatch(ordered: seq<Task>, originals: seq<Task>)
    ensures var r := Resolve(ordered, originals);
      forall k :: 0 <= k < |r| ==>
        if exists t :: t in originals && t.id == ordered[k].id then
          exists j :: 0 <= j < |originals| && originals[j] == r[k]
            && forall i :: 0 <= i < j ==> originals[i].id != ordered[k].id
        else r[k] == ordered[k]
  {
    var r := Resolve(ordered, originals);
    forall k | 0 <= k < |r|
      ensures if exists t :: t in originals && t.id == ordered[k].id then
          exists j :: 0 <= j < |originals| && originals[j] == r[k]
            && forall i :: 0 <= i < j ==> originals[i].id != ordered[k].id
        else r[k] == ordered[k]
    {
      ResolveAt(ordered, originals, k);
    }
  }

  /** When ids are unique, resolving tasks that come from `originals` changes nothing. */
  lemma {:induction false} ResolveIdentity(ordered: seq<Task>, originals: seq<Task>)
    requires UniqueIds(originals)
    requires forall t :: t in ordered ==> t in originals
    ensures Resolve(ordered, originals) == ordered
  {
    if ordered != [] {
      assert ordered[0] in ordered;
      FindByIdMember(originals, ordered[0]);
      ResolveIdentity(ordered[1..], originals);
      assert ordered == [ordered[0]] + ordered[1..];
    }
  }

  /** The flat list after moveTask: the category's tasks in their new order, then
      every other task in its old order. */
  function Moved(ts: seq<Task>, c: string, dragIndex: nat, hoverIndex: nat): (r: seq<Task>)
    requires dragIndex < |Filter(ts, c)| && hoverIndex < |Filter(ts, c)|
  {
    var filtered := Filter(ts, c);
    Resolve(Reorder(filtered, dragIndex, hoverIndex), filtered) + Others(ts, c)
  }

  /** Whatever the ids: moveTask keeps the length, puts the category's tasks in one
      block at the front, and leaves every other task behind it in its old order. */
  lemma MovedLayout(ts: seq<Task>, c: string, dragIndex: nat, hoverIndex: nat)
    requires dragIndex < |Filter(ts, c)| && hoverIndex < |Filter(ts, c)|
    ensures var r := Moved(ts, c, dragIndex, hoverIndex);
      && |r| == |ts|
      && (forall k :: 0 <= k < |Filter(ts, c)| ==> r[k].categoryId == c)
      && r[|Filter(ts, c)|..] == Others(ts, c)
      && Others(r, c) == Others(ts, c)
  {
    var filtered := Filter(ts, c);
    var reordered := Reorder(filtered, dragIndex, hoverIndex);
    var front := Resolve(reordered, filtered);
    var r := front + Others(ts, c);
    FilterOthersPartition(ts, c);
    MovedFrontInCategory(ts, c, dragIndex, hoverIndex);
    forall k | 0 <= k < |front| ensures r[k].categoryId == c {
      assert r[k] == front[k] && front[k] in front;
    }
    assert r[|front|..] == Others(ts, c);
    FilterAppend(front, Others(ts, c), c);
    FilterByNone(front, OutsideCategory(c));
    FilterByAll(Others(ts, c), OutsideCategory(c));
  }

  /** The block moveTask puts in front holds tasks of the category only. */
  lemma MovedFrontInCategory(ts: seq<Task>, c: string, dragIndex: nat, hoverIndex: nat)
    requires dragIndex < |Filter(ts, c)| && hoverIndex < |Filter(ts, c)|
    ensures var filtered := Filter(ts, c);
      forall t :: t in Resolve(Reorder(filtered, dragIndex, hoverIndex), filtered) ==> t.categoryId == c
  {
    var filtered := Filter(ts, c);
    var reordered := Reorder(filtered, dragIndex, hoverIndex);
    forall t | t in reordered ensures t in filtered {
      assert t in multiset(reordered);
    }
  }

  /** With unique ids in the category: the category's view after moveTask is the
      spliced view (so the local state set at line 38 agrees with line 27), the dragged
      task sits at `hoverIndex`, the other category tasks keep their relative order,
      and the flat list is a permutation of the old one. */
  lemma MovedContents(ts: seq<Task>, c: string, dragIndex: nat, hoverIndex: nat)
    requires dragIndex < |Filter(ts, c)| && hoverIndex < |Filter(ts, c)|
    requires UniqueIds(Filter(ts, c))
    ensures var r := Moved(ts, c, dragIndex, hoverIndex);
      && Filter(r, c) == Reorder(Filter(ts, c), dragIndex, hoverIndex)
      && Filter(r, c)[hoverIndex] == Filter(ts, c)[dragIndex]
      && RemoveAt(Filter(r, c), hoverIndex) == RemoveAt(Filter(ts, c), dragIndex)
      && multiset(r) == multiset(ts)
  {
    var filtered := Filter(ts, c);
    var reordered := Reorder(filtered, dragIndex, hoverIndex);
    forall t | t in reordered ensures t in filtered {
      assert t in multiset(reordered);
    }
    ResolveIdentity(reordered, filtered);
    var r := reordered + Others(ts, c);
    FilterAppend(reordered, Others(ts, c), c);
    FilterByAll(reordered, InCategory(c));
    FilterByNone(Others(ts, c), InCategory(c));
    FilterOthersPartition(ts, c);
  }

  /** moveTask in one category leaves the view of every other category unchanged. */
  lemma MovedOtherViews(ts: seq<Task>, c: string, d: string, dragIndex: nat, hoverIndex: nat)
    requires dragIndex < |Filter(ts, c)| && hoverIndex < |Filter(ts, c)|
    requires d != c
    ensures Filter(Moved(ts, c, dragIndex, hoverIndex), d) == Filter(ts, d)
  {
    var filtered := Filter(ts, c);
    var front := Resolve(Reorder(filtered, dragIndex, hoverIndex), filtered);
    MovedFrontInCategory(ts, c, dragIndex, hoverIndex);
    FilterAppend(front, Others(ts, c), d);
    FilterByNone(front, InCategory(d));
    FilterByNested(ts, OutsideCategory(c), InCategory(d));
  }

  /** moveTask keeps ids unique and does not change the remaining count. */
  lemma MovedInvariants(ts: seq<Task>, c: string, dragIndex: nat, hoverIndex: nat)
    requires dragIndex < |Filter(ts, c)| && hoverIndex < |Filter(ts, c)|
    requires UniqueIds(ts)
    ensures UniqueIds(Moved(ts, c, dragIndex, hoverIndex))
    ensures Remaining(Moved(ts, c, dragIndex, hoverIndex), c) == Remaining(ts, c)
  {
    FilterByUniqueIds(ts, InCategory(c));
    MovedContents(ts, c, dragIndex, hoverIndex);
    UniqueIdsPermutation(ts, Moved(ts, c, dragIndex, hoverIndex));
    ReorderKeepsCount(Filter(ts, c), dragIndex, hoverIndex, Incomplete);
  }

  /** The facts of the three lemmas above that a holder of the list relies on: unique
      ids and known categories survive, and the list is a permutation of the old one
      with the spliced view in front of the untouched rest. */
  lemma MovedPreserves(ts: seq<Task>, c: string, dragIndex: nat, hoverIndex: nat, categoryIds: seq<string>)
    requires dragIndex < |Filter(ts, c)| && hoverIndex < |Filter(ts, c)|
    requires UniqueIds(ts)
    requires forall t :: t in ts ==> t.categoryId in categoryIds
    ensures var r := Moved(ts, c, dragIndex, hoverIndex);
      && UniqueIds(r)
      && (forall t :: t in r ==> t.categoryId in categoryIds)
      && multiset(r) == multiset(ts)
      && Filter(r, c) == Reorder(Filter(ts, c), dragIndex, hoverIndex)
      && r[|Filter(r, c)|..] == Others(ts, c)
  {
    var r := Moved(ts, c, dragIndex, hoverIndex);
    MovedLayout(ts, c, dragIndex, hoverIndex);
    FilterByUniqueIds(ts, InCategory(c));
    MovedContents(ts, c, dragIndex, hoverIndex);
    MovedInvariants(ts, c, dragIndex, hoverIndex);
    PermutationMembers(ts, r);
  }

  // ---------------------------------------------------------------------------
  // Completion toggle: toggleTaskComplete (TaskList.tsx lines 57-77)

  /** The flat list after toggleTaskComplete(id). */
  function Toggled(ts: seq<Task>, id: string): (r: seq<Task>)
    ensures |r| == |ts|
    ensures forall k :: 0 <= k < |ts| ==> r[k].id == ts[k].id && r[k].categoryId == ts[k].categoryId
  {
    match FindIndex(ts, id)
    case None => ts
    case Some(k) => ts[k := ts[k].(completed := !ts[k].completed)]
  }

  /** Whether toggleTaskComplete(id) raises the completion signal (confetti and toast). */
  function Celebrates(ts: seq<Task>, id: string): bool {
    match FindIndex(ts, id)
    case None => false
    case Some(k) => !ts[k].completed
  }

  /** The lookup depends on the ids alone, position by position. */
  lemma FindIndexSameIds(a: seq<Task>, b: seq<Task>, id: string)
    requires |a| == |b|
    requires forall k :: 0 <= k < |a| ==> a[k].id == b[k].id
    ensures FindIndex(a, id) == FindIndex(b, id)
  {
  }

  /** An unknown id changes nothing and raises no signal. */
  lemma ToggleUnknown(ts: seq<Task>, id: string)
    requires forall t :: t in ts ==> t.id != id
    ensures Toggled(ts, id) == ts && !Celebrates(ts, id)
  {
    assert forall k :: 0 <= k < |ts| ==> ts[k] in ts;
  }

  /** For the first task with id `id`: only its `completed` flips, every other
      position is untouched, and the signal fires exactly on a false-to-true change. */
  lemma ToggleFirstMatch(ts: seq<Task>, id: string, k: nat)
    requires k < |ts| && ts[k].id == id
    requires forall j :: 0 <= j < k ==> ts[j].id != id
    ensures Toggled(ts, id)[k].completed == !ts[k].completed
    ensures Toggled(ts, id)[k].(completed := ts[k].completed) == ts[k]
    ensures forall j :: 0 <= j < |ts| && j != k ==> Toggled(ts, id)[j] == ts[j]
    ensures Celebrates(ts, id) <==> !ts[k].completed && Toggled(ts, id)[k].completed
  {
    assert FindIndex(ts, id) == Some(k);
  }

  /** Toggling is its own inverse. */
  lemma ToggleInvolution(ts: seq<Task>, id: string)
    ensures Toggled(Toggled(ts, id), id) == ts
  {
    FindIndexSameIds(Toggled(ts, id), ts, id);
  }

  /** Toggling a present task twice raises the signal exactly once. */
  lemma ToggleSignalAlternates(ts: seq<Task>, id: string)
    requires exists t :: t in ts && t.id == id
    ensures Celebrates(Toggled(ts, id), id) == !Celebrates(ts, id)
  {
    FindIndexSameIds(Toggled(ts, id), ts, id);
  }

  /** Toggling a task of category `c` moves its remaining count by one, down when the
      signal fires and up otherwise; toggles elsewhere leave it alone. */
  lemma RemainingAfterToggle(ts: seq<Task>, id: string, c: string)
    ensures var f := FindIndex(ts, id);
      Remaining(Toggled(ts, id), c) ==
        if f.Some? && ts[f.value].categoryId == c then
          (if Celebrates(ts, id) then Remaining(ts, c) - 1 else Remaining(ts, c) + 1)
        else Remaining(ts, c)
  {
    match FindIndex(ts, id)
    case None =>
    case Some(k) =>
      var r := Toggled(ts, id);
      assert ts == ts[..k] + [ts[k]] + ts[k + 1..];
      assert r == ts[..k] + [r[k]] + ts[k + 1..];
      RemainingSplit(ts[..k], ts[k], ts[k + 1..], c);
      RemainingSplit(ts[..k], r[k], ts[k + 1..], c);
  }

  /** Toggling keeps ids unique. */
  lemma ToggleKeepsUniqueIds(ts: seq<Task>, id: string)
    requires UniqueIds(ts)
    ensures UniqueIds(Toggled(ts, id))
  {
  }

  // ---------------------------------------------------------------------------
  // Adding a task: addNewTask (TaskList.tsx lines 80-97)

  /** The characters String.prototype.trim removes: the WhiteSpace and
      LineTerminator code points of ECMA-262. */
  predicate IsJsSpace(ch: char) {
    ch == '\t' || ch == '\n' || ch == '\U{B}' || ch == '\U{C}' || ch == '\r' || ch == ' '
    || ch == '\U{A0}' || ch == '\U{1680}' || ('\U{2000}' <= ch <= '\U{200A}')
    || ch == '\U{2028}' || ch == '\U{2029}' || ch == '\U{202F}' || ch == '\U{205F}'
    || ch == '\U{3000}' || ch == '\U{FEFF}'
  }

  /** `s` without its leading white space. */
  function TrimStart(s: string): (r: string)
    ensures |r| <= |s| && r == s[|s| - |r|..]
    ensures forall i :: 0 <= i < |s| - |r| ==> IsJsSpace(s[i])
    ensures r == [] || !IsJsSpace(r[0])
  {
    if s != [] && IsJsSpace(s[0]) then TrimStart(s[1..]) else s
  }

  /** `s` without its trailing white space. */
  function TrimEnd(s: string): (r: string)
    ensures |r| <= |s| && r == s[..|r|]
    ensures forall i :: |r| <= i < |s| ==> IsJsSpace(s[i])
    ensures r == [] || !IsJsSpace(r[|r| - 1])
  {
    if s != [] && IsJsSpace(s[|s| - 1]) then TrimEnd(s[..|s| - 1]) else s
  }

  /** `r` is the slice of `s` starting at `i`, and only white space lies around it. */
  predicate TrimmedAt(s: string, r: string, i: nat) {
    && i + |r| <= |s| && r == s[i..i + |r|]
    && (forall k :: 0 <= k < i ==> IsJsSpace(s[k]))
    && (forall k :: i + |r| <= k < |s| ==> IsJsSpace(s[k]))
  }

  /** String.prototype.trim. */
  function Trim(s: string): (r: string)
    ensures r == [] || (!IsJsSpace(r[0]) && !IsJsSpace(r[|r| - 1]))
    ensures exists i :: TrimmedAt(s, r, i)
  {
    var front := TrimStart(s);
    var r := TrimEnd(front);
    TrimmedAtBoth(s, front, r);
    r
  }

  /** Trimming the front and then the back leaves a slice with only white space around it. */
  lemma TrimmedAtBoth(s: string, front: string, r: string)
    requires |front| <= |s| && front == s[|s| - |front|..]
    requires forall k :: 0 <= k < |s| - |front| ==> IsJsSpace(s[k])
    requires |r| <= |front| && r == front[..|r|]
    requires forall k :: |r| <= k < |front| ==> IsJsSpace(front[k])
    ensures TrimmedAt(s, r, |s| - |front|)
  {
    var i := |s| - |front|;
    assert r == s[i..i + |r|] by {
      forall k | 0 <= k < |r| ensures r[k] == s[i + k] {
        assert r[k] == front[k];
      }
    }
    forall k | i + |r| <= k < |s| ensures IsJsSpace(s[k]) {
      assert s[k] == front[k - i];
    }
  }

  /** A title is rejected exactly when it is empty or only white space. */
  lemma TrimEmptyIffBlank(s: string)
    ensures Trim(s) == [] <==> forall k :: 0 <= k < |s| ==> IsJsSpace(s[k])
  {
    var r := Trim(s);
    var i: nat :| TrimmedAt(s, r, i);
    assert forall k :: 0 <= k < |r| ==> r[k] == s[i + k];
  }

  /** The new task addNewTask builds: incomplete, no due date, untrimmed title. */
  function NewTask(freshId: string, title: string, c: string): (t: Task)
    ensures t.id == freshId && t.title == title && t.categoryId == c
    ensures !t.completed && t.dueDate.None?
  {
    Task(freshId, title, false, None, c)
  }

  /** The flat list after addNewTask with draft `title` in category `c`. */
  function Added(ts: seq<Task>, title: string, c: string, freshId: string): (r: seq<Task>)
    ensures r == ts || r == ts + [NewTask(freshId, title, c)]
  {
    if Trim(title) == [] then ts else ts + [NewTask(freshId, title, c)]
  }

  /** The list is left alone exactly when the title is empty or only white space. */
  lemma AddedRejectsBlank(ts: seq<Task>, title: string, c: string, freshId: string)
    ensures Added(ts, title, c, freshId) == ts <==> forall k :: 0 <= k < |title| ==> IsJsSpace(title[k])
  {
    TrimEmptyIffBlank(title);
    if Trim(title) != [] {
      assert |Added(ts, title, c, freshId)| == |ts| + 1;
    }
  }

  /** Otherwise it grows by one task at the end, and that task closes the view of
      category `c`. */
  lemma AddedAppends(ts: seq<Task>, title: string, c: string, freshId: string)
    requires exists k :: 0 <= k < |title| && !IsJsSpace(title[k])
    ensures |Added(ts, title, c, freshId)| == |ts| + 1
    ensures Added(ts, title, c, freshId)[..|ts|] == ts
    ensures Added(ts, title, c, freshId)[|ts|] == NewTask(freshId, title, c)
    ensures Filter(Added(ts, title, c, freshId), c) == Filter(ts, c) + [NewTask(freshId, title, c)]
  {
    TrimEmptyIffBlank(title);
    var t := NewTask(freshId, title, c);
    FilterAppend(ts, [t], c);
    assert [t][1..] == [];
    assert Filter([t], c) == [t];
  }

  /** Adding leaves the views of the other categories alone. */
  lemma AddedOtherViews(ts: seq<Task>, title: string, c: string, d: string, freshId: string)
    requires d != c
    ensures Filter(Added(ts, title, c, freshId), d) == Filter(ts, d)
  {
    var t := NewTask(freshId, title, c);
    FilterAppend(ts, [t], d);
    assert [t][1..] == [];
  }

  /** Adding raises the remaining count of `c` by one when it adds, and keeps ids
      unique when the new id is fresh. */
  lemma AddedInvariants(ts: seq<Task>, title: string, c: string, freshId: string)
    ensures Remaining(Added(ts, title, c, freshId), c) == Remaining(ts, c) + (if Trim(title) == [] then 0 else 1)
    ensures UniqueIds(ts) && (forall t :: t in ts ==> t.id != freshId) ==> UniqueIds(Added(ts, title, c, freshId))
  {
    var t := NewTask(freshId, title, c);
    RemainingSplit(ts, t, [], c);
    assert ts + [t] + [] == ts + [t];
    if UniqueIds(ts) && (forall u :: u in ts ==> u.id != freshId) {
      var r := ts + [t];
      forall i, j | 0 <= i < j < |r| ensures r[i].id != r[j].id {
        if j == |ts| {
          assert r[i] in ts;
        }
      }
    }
  }
}
