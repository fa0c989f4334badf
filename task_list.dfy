/**
 * The task list widget: a copy of the tasks sorted so that incomplete tasks come
 * before completed ones, shown as one row per task, behind a loading skeleton and
 * with an empty-state message.
 */
module TaskList {
  import opened Types
  import opened View

  // ---------------------------------------------------------------------------
  // Ordering
  // ---------------------------------------------------------------------------

  /**
   * The comparator handed to `sort`: 0 for tasks of equal completion, otherwise
   * positive exactly when `a` is completed and `b` is not (so `a` goes after `b`).
   */
  function Compare(a: Task, b: Task): (r: int)
    ensures -1 <= r <= 1
    ensures r == 0 <==> a.completed == b.completed
    ensures r > 0 <==> a.completed && !b.completed
  {
    if a.completed == b.completed then 0 else if a.completed then 1 else -1
  }

  /**
   * Compare is a consistent comparator in the sense the sort algorithm needs:
   * reflexive zero, antisymmetric sign, transitive order and transitive ties.
   * Without this the resulting order would be left to the implementation.
   */
  lemma CompareIsConsistent(a: Task, b: Task, c: Task)
    ensures Compare(a, a) == 0
    ensures Compare(a, b) < 0 <==> Compare(b, a) > 0
    ensures Compare(a, b) < 0 && Compare(b, c) < 0 ==> Compare(a, c) < 0
    ensures Compare(a, b) == 0 && Compare(b, c) == 0 ==> Compare(a, c) == 0
  {
  }

  /** The tasks of `s` whose completion flag is `done`, in their order in `s`. */
  function Bucket(s: seq<Task>, done: bool): (r: seq<Task>)
    ensures |r| <= |s|
    ensures forall k :: 0 <= k < |r| ==> r[k].completed == done
  {
    if s == [] then []
    else Bucket(s[..|s| - 1], done) + (if s[|s| - 1].completed == done then [s[|s| - 1]] else [])
  }

  /** Incomplete tasks first, then completed tasks, each group in input order. */
  predicate CompletedLast(r: seq<Task>) {
    forall i, j :: 0 <= i < j < |r| ==> !r[i].completed || r[j].completed
  }

  /**
   * The order the widget displays: the incomplete bucket followed by the completed
   * bucket. Position k holds an incomplete task exactly when k is below the number
   * of incomplete input tasks.
   */
  function SortedTasks(s: seq<Task>): (r: seq<Task>)
    ensures forall k :: 0 <= k < |r| ==> (!r[k].completed <==> k < |Bucket(s, false)|)
  {
    Bucket(s, false) + Bucket(s, true)
  }

  lemma {:induction false} BucketAppend(a: seq<Task>, b: seq<Task>, done: bool)
    ensures Bucket(a + b, done) == Bucket(a, done) + Bucket(b, done)
  {
    if b == [] {
      assert a + b == a;
    } else {
      var b' := b[..|b| - 1];
      assert (a + b)[..|a + b| - 1] == a + b';
      BucketAppend(a, b', done);
    }
  }

  lemma {:induction false} BucketOfUniform(s: seq<Task>, done: bool)
    requires forall k :: 0 <= k < |s| ==> s[k].completed == done
    ensures Bucket(s, done) == s
    ensures Bucket(s, !done) == []
  {
    if s != [] {
      BucketOfUniform(s[..|s| - 1], done);
    }
  }

  /** Appending one task to the input: it joins the end of its own bucket. */
  lemma SortedTasksSnoc(p: seq<Task>, x: Task)
    ensures SortedTasks(p + [x]) ==
      if x.completed then Bucket(p, false) + Bucket(p, true) + [x]
      else Bucket(p, false) + [x] + Bucket(p, true)
  {
  }

  /** The sorted tasks are a permutation of the input: nothing added, dropped or duplicated. */
  lemma {:induction false} SortedTasksIsPermutation(s: seq<Task>)
    ensures multiset(SortedTasks(s)) == multiset(s)
    ensures |SortedTasks(s)| == |s|
  {
    if s != [] {
      var p, x := s[..|s| - 1], s[|s| - 1];
      assert s == p + [x];
      SortedTasksIsPermutation(p);
      SortedTasksSnoc(p, x);
    }
  }

  /** Every incomplete task comes before every completed task. */
  lemma SortedTasksCompletedLast(s: seq<Task>)
    ensures CompletedLast(SortedTasks(s))
  {
  }

  /** Tasks of equal completion keep their relative input order. */
  lemma SortedTasksStable(s: seq<Task>)
    ensures Bucket(SortedTasks(s), false) == Bucket(s, false)
    ensures Bucket(SortedTasks(s), true) == Bucket(s, true)
  {
    BucketAppend(Bucket(s, false), Bucket(s, true), false);
    BucketAppend(Bucket(s, false), Bucket(s, true), true);
    BucketOfUniform(Bucket(s, false), false);
    BucketOfUniform(Bucket(s, true), true);
  }

  /** A sequence whose incomplete tasks all precede its completed ones is its two buckets joined. */
  lemma {:induction false} CompletedLastIsBuckets(r: seq<Task>)
    requires CompletedLast(r)
    ensures r == Bucket(r, false) + Bucket(r, true)
  {
    if r != [] {
      var p, x := r[..|r| - 1], r[|r| - 1];
      assert r == p + [x];
      assert CompletedLast(p);
      CompletedLastIsBuckets(p);
      SortedTasksSnoc(p, x);
      if !x.completed {
        assert forall k :: 0 <= k < |p| ==> !p[k].completed by {
          forall k | 0 <= k < |p| ensures !p[k].completed {
            assert r[k] == p[k];
          }
        }
        BucketOfUniform(p, false);
      }
    }
  }

  /**
   * Being ordered by Compare is the same as CompletedLast: no pair of positions has
   * the comparator putting the earlier task after the later one.
   */
  lemma CompareSortedIsCompletedLast(r: seq<Task>)
    ensures CompletedLast(r) <==> forall i, j :: 0 <= i < j < |r| ==> Compare(r[i], r[j]) <= 0
  {
  }

  /**
   * Any result of a stable sort with Compare is SortedTasks: an order that puts
   * incomplete tasks first and keeps each bucket in input order is unique. So the
   * choice of stable sort algorithm cannot change what is displayed.
   */
  lemma SortedTasksUnique(s: seq<Task>, r: seq<Task>)
    requires CompletedLast(r)
    requires Bucket(r, false) == Bucket(s, false) && Bucket(r, true) == Bucket(s, true)
    ensures r == SortedTasks(s)
  {
    CompletedLastIsBuckets(r);
  }

  /**
   * One step of insertion: moves `a[i]` left past the tasks the comparator puts
   * after it. The prefix `a[..i]` is already ordered, its first `split` tasks
   * incomplete and the rest completed, so a completed task stays where it is and
   * an incomplete one lands just after the last incomplete task.
   */
  method Insert(a: array<Task>, i: nat, ghost split: nat)
    requires split <= i < a.Length
    requires forall k :: 0 <= k < split ==> !a[k].completed
    requires forall k :: split <= k < i ==> a[k].completed
    modifies a
    ensures old(a[i]).completed ==> a[..] == old(a[..])
    ensures !old(a[i]).completed ==>
      a[..] == old(a[..split]) + [old(a[i])] + old(a[split..i]) + old(a[i + 1..])
  {
    ghost var was := a[..];
    ghost var x := a[i];
    var j := i;
    while 0 < j && Compare(a[j - 1], a[j]) > 0
      invariant split <= j <= i
      invariant a[j] == x
      invariant x.completed ==> j == i
      invariant forall k :: 0 <= k < j ==> a[k] == was[k]
      invariant forall k :: j < k <= i ==> a[k] == was[k - 1]
      invariant forall k :: i < k < a.Length ==> a[k] == was[k]
    {
      a[j - 1], a[j] := a[j], a[j - 1];
      j := j - 1;
    }
    if x.completed {
      assert a[..] == was;
    } else {
      assert j == split;
      var moved := was[..split] + [x] + was[split..i] + was[i + 1..];
      assert |moved| == a.Length;
      forall k | 0 <= k < a.Length ensures a[k] == moved[k] {
        if k < split {
        } else if k == split {
        } else if k <= i {
          assert moved[k] == was[k - 1];
        } else {
          assert moved[k] == was[k];
        }
      }
      assert a[..] == moved;
    }
  }

  /** The sorted prefix splits at the size of its incomplete bucket. */
  lemma SortedTasksSplit(s: seq<Task>)
    ensures |SortedTasks(s)| == |s|
    ensures forall k :: 0 <= k < |Bucket(s, false)| ==> !SortedTasks(s)[k].completed
    ensures forall k :: |Bucket(s, false)| <= k < |s| ==> SortedTasks(s)[k].completed
  {
    SortedTasksIsPermutation(s);
  }

  /** One insertion extends the sorted prefix by the next input task. */
  lemma InsertExtends(input: seq<Task>, before: seq<Task>, after: seq<Task>, i: nat)
    requires i < |input| == |before| == |after|
    requires before[..i] == SortedTasks(input[..i]) && before[i..] == input[i..]
    requires input[i].completed ==> after == before
    requires !input[i].completed ==>
      var split := |Bucket(input[..i], false)|;
      split <= i && after == before[..split] + [before[i]] + before[split..i] + before[i + 1..]
    ensures after[..i + 1] == SortedTasks(input[..i + 1])
    ensures after[i + 1..] == input[i + 1..]
  {
    var p, x := input[..i], input[i];
    var b0, b1 := Bucket(p, false), Bucket(p, true);
    assert input[..i + 1] == p + [x];
    assert before[i] == input[i..][0] == x;
    assert before[i + 1..] == input[i..][1..] == input[i + 1..];
    SortedTasksSnoc(p, x);
    SortedTasksIsPermutation(p);
    assert before[..i] == b0 + b1;
    if x.completed {
      assert after[..i + 1] == before[..i] + [x];
    } else {
      var split := |b0|;
      assert before[..split] == before[..i][..split] == b0;
      assert before[split..i] == before[..i][split..] == b1;
      var rest := before[..split] + [x] + before[split..i];
      assert after == rest + before[i + 1..];
      assert |rest| == i + 1;
      assert after[..i + 1] == rest;
      assert after[i + 1..] == before[i + 1..];
    }
  }

  /** Stable insertion sort driven by Compare, in place on `a`. */
  method SortInPlace(a: array<Task>)
    modifies a
    ensures a[..] == SortedTasks(old(a[..]))
  {
    ghost var input := a[..];
    var i := 0;
    while i < a.Length
      invariant 0 <= i <= a.Length
      invariant a[..i] == SortedTasks(input[..i])
      invariant a[i..] == input[i..]
    {
      ghost var before := a[..];
      ghost var split := |Bucket(input[..i], false)|;
      SortedTasksSplit(input[..i]);
      assert forall k :: 0 <= k < i ==> a[k] == SortedTasks(input[..i])[k];
      Insert(a, i, split);
      InsertExtends(input, before, a[..], i);
      i := i + 1;
    }
    assert input[..a.Length] == input;
  }

  /**
   * `[...tasks].sort(Compare)`: sorts a fresh copy of the tasks. The method has no
   * modifies clause, so the caller's array is left exactly as it was.
   */
  method SortTasks(tasks: array<Task>) returns (sorted: seq<Task>)
    ensures sorted == SortedTasks(tasks[..])
  {
    var copy := new Task[tasks.Length](i reads tasks requires 0 <= i < tasks.Length => tasks[i]);
    assert copy[..] == tasks[..];
    SortInPlace(copy);
    sorted := copy[..];
  }

  // ---------------------------------------------------------------------------
  // Rows and the view
  // ---------------------------------------------------------------------------

  /**
   * One rendered task: its text, the checkbox state, whether the text is struck
   * through, the priority that picks both the badge's label and its colour, and
   * the id the checkbox reports to `onToggleTask`.
   */
  datatype Row = Row(text: string, checked: bool, struck: bool, badge: Priority, toggles: string)

  /** The badge priority: the task's own, or Medium when it has none. */
  function BadgePriority(t: Task): (p: Priority)
    ensures t.priority.None? ==> p == Medium
    ensures t.priority.Some? ==> p == t.priority.value
  {
    match t.priority
    case Some(q) => q
    case None => Medium
  }

  /** The badge text `t.priorities[task.priority || 'medium']`, as a translation key. */
  function BadgeLabel(t: Task): (l: Label)
    ensures t.priority.None? ==> l == PriorityName(Medium)
    ensures t.priority.Some? ==> l == PriorityName(t.priority.value)
  {
    PriorityName(BadgePriority(t))
  }

  function RowOf(t: Task): (r: Row)
    ensures r.text == t.text
    ensures r.checked == t.completed && r.struck == t.completed
    ensures r.toggles == t.id
    ensures r.badge == BadgePriority(t)
  {
    Row(t.text, t.completed, t.completed, BadgePriority(t), t.id)
  }

  /** The widget's body: skeleton while loading, else a row per sorted task, else the empty message. */
  function ListView(tasks: seq<Task>, isLoading: bool): (v: Section<seq<Row>>)
    ensures v.Skeleton? <==> isLoading
    ensures v.Skeleton? ==> v.placeholders == SKELETON_ROWS
    ensures v.Message? <==> !isLoading && tasks == []
    ensures v.Message? ==> v.key == NoTasks
  {
    var sorted := SortedTasks(tasks);
    SortedTasksIsPermutation(tasks);
    if isLoading then Skeleton(SKELETON_ROWS)
    else if |sorted| > 0 then Content(seq(|sorted|, i requires 0 <= i < |sorted| => RowOf(sorted[i])))
    else Message(NoTasks)
  }

  /** The component: sorts a copy of its tasks, then chooses what to show. */
  method Render(tasks: array<Task>, isLoading: bool) returns (v: Section<seq<Row>>)
    ensures v == ListView(tasks[..], isLoading)
  {
    var sorted := SortTasks(tasks);
    if isLoading {
      v := Skeleton(SKELETON_ROWS);
    } else if |sorted| > 0 {
      v := Content(seq(|sorted|, i requires 0 <= i < |sorted| => RowOf(sorted[i])));
    } else {
      v := Message(NoTasks);
    }
  }

  // ---------------------------------------------------------------------------
  // Properties of the view
  // ---------------------------------------------------------------------------

  /** While loading, the widget shows three placeholders, whatever the tasks are. */
  lemma LoadingIgnoresTasks(tasks: seq<Task>, others: seq<Task>)
    ensures ListView(tasks, true) == ListView(others, true) == Skeleton(3)
  {
  }

  /** Once loaded, a non-empty list shows exactly one row per sorted task, in sorted order. */
  lemma RowsFollowSortedTasks(tasks: seq<Task>)
    requires tasks != []
    ensures ListView(tasks, false).Content?
    ensures |ListView(tasks, false).body| == |tasks|
    ensures forall i :: 0 <= i < |tasks| ==> ListView(tasks, false).body[i] == RowOf(SortedTasks(tasks)[i])
  {
    SortedTasksIsPermutation(tasks);
  }

  /** Once loaded, an empty list shows the "no tasks" message. */
  lemma EmptyListShowsNoTasks()
    ensures ListView([], false) == Message(NoTasks)
  {
  }

  /** Unchecked rows are all shown above checked rows. */
  lemma UncheckedRowsFirst(tasks: seq<Task>)
    requires tasks != []
    ensures forall i, j :: 0 <= i < j < |ListView(tasks, false).body| ==>
      !ListView(tasks, false).body[i].checked || ListView(tasks, false).body[j].checked
  {
    RowsFollowSortedTasks(tasks);
    SortedTasksCompletedLast(tasks);
  }

  /**
   * Every task of the input is shown by exactly as many rows as it occurs, and
   * each row's checkbox reports the id of the task it shows. The id conjunct
   * follows from RowOf's contract; it is spelled out here for the reader.
   */
  lemma EveryTaskShownOnce(tasks: seq<Task>)
    requires tasks != []
    ensures exists shown: seq<Task> ::
      multiset(shown) == multiset(tasks) &&
      |shown| == |ListView(tasks, false).body| &&
      forall i :: 0 <= i < |shown| ==>
        ListView(tasks, false).body[i] == RowOf(shown[i]) &&
        ListView(tasks, false).body[i].toggles == shown[i].id
  {
    RowsFollowSortedTasks(tasks);
    SortedTasksIsPermutation(tasks);
    var shown := SortedTasks(tasks);
    assert multiset(shown) == multiset(tasks);
  }

  /**
   * An example: tasks 1 (open, high), 2 (done, low) and 3 (open, no
   * priority) are shown in the order 1, 3, 2, and task 3 carries the medium badge.
   */
  lemma ExampleOrder(t1: Task, t2: Task, t3: Task)
    requires t1 == Task("1", "Water field", false, Some(High))
    requires t2 == Task("2", "Order seed", true, Some(Low))
    requires t3 == Task("3", "Check soil", false, None)
    ensures SortedTasks([t1, t2, t3]) == [t1, t3, t2]
    ensures ListView([t1, t2, t3], false) == Content([RowOf(t1), RowOf(t3), RowOf(t2)])
    ensures RowOf(t3).badge == Medium && BadgeLabel(t3) == PriorityName(Medium)
  {
    assert [t1, t2, t3][..2] == [t1, t2];
    assert [t1, t2][..1] == [t1];
    assert [t1][..0] == [];
    assert Bucket([t1], false) == [t1] && Bucket([t1], true) == [];
    assert Bucket([t1, t2], false) == [t1] && Bucket([t1, t2], true) == [t2];
    assert Bucket([t1, t2, t3], false) == [t1, t3] && Bucket([t1, t2, t3], true) == [t2];
    var v := ListView([t1, t2, t3], false);
    assert |v.body| == 3 && v.body[0] == RowOf(t1) && v.body[1] == RowOf(t3) && v.body[2] == RowOf(t2);
    assert v.body == [RowOf(t1), RowOf(t3), RowOf(t2)];
  }
}
