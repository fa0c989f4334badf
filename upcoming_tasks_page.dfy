/**
 * The upcoming-tasks page: a card with today's tasks, shown in the order given,
 * and a card with the week-ahead preview, one section per day entry with a
 * header numbered from 2.
 */
module UpcomingTasksPage {
  import opened Types
  import opened View

  /** The marker in front of an item: a checkbox (filled when completed) or a plain dot. */
  datatype Marker = Checkbox(filled: bool) | Dot

  /** One rendered item: its text, its marker and whether the text is struck through. */
  datatype Item = Item(text: string, marker: Marker, struck: bool)

  /**
   * An item with an optional completion flag: without one it gets a dot and is
   * never struck through; with one it gets a checkbox, filled and struck through
   * exactly when the flag is true.
   */
  function TaskItem(text: string, completed: Option<bool>): (r: Item)
    ensures r.text == text
    ensures completed.None? ==> r.marker == Dot && !r.struck
    ensures completed.Some? ==> r.marker == Checkbox(completed.value) && r.struck == completed.value
  {
    match completed
    case None => Item(text, Dot, false)
    case Some(c) => Item(text, Checkbox(c), c)
  }

  /** Strike-through only ever appears together with a filled checkbox. */
  lemma StruckOnlyWhenFilled(text: string, completed: Option<bool>)
    ensures TaskItem(text, completed).struck <==> TaskItem(text, completed).marker == Checkbox(true)
  {
  }

  // ---------------------------------------------------------------------------
  // Today's tasks
  // ---------------------------------------------------------------------------

  /** Today's card: skeleton while loading, else one checkbox item per task in input order, else "no tasks". */
  function Today(todaysTasks: seq<Task>, isLoading: bool): (v: Section<seq<Item>>)
    ensures v.Skeleton? <==> isLoading
    ensures v.Skeleton? ==> v.placeholders == SKELETON_ROWS
    ensures v.Message? <==> !isLoading && todaysTasks == []
    ensures v.Message? ==> v.key == NoTasks
  {
    if isLoading then Skeleton(SKELETON_ROWS)
    else if |todaysTasks| > 0 then
      Content(seq(|todaysTasks|, i requires 0 <= i < |todaysTasks| =>
        TaskItem(todaysTasks[i].text, Some(todaysTasks[i].completed))))
    else Message(NoTasks)
  }

  /** While loading, today's card is the skeleton, whatever the tasks are. */
  lemma TodayLoadingIgnoresTasks(tasks: seq<Task>, others: seq<Task>)
    ensures Today(tasks, true) == Today(others, true) == Skeleton(3)
  {
  }

  /**
   * Once loaded, a non-empty list gives one item per task at the same position:
   * nothing is reordered, and each checkbox is filled exactly for a completed task.
   */
  lemma TodayKeepsInputOrder(tasks: seq<Task>)
    requires tasks != []
    ensures Today(tasks, false).Content?
    ensures |Today(tasks, false).body| == |tasks|
    ensures forall i :: 0 <= i < |tasks| ==>
      Today(tasks, false).body[i].text == tasks[i].text &&
      Today(tasks, false).body[i].marker == Checkbox(tasks[i].completed) &&
      Today(tasks, false).body[i].struck == tasks[i].completed
  {
  }

  /** Once loaded, an empty list shows the "no tasks" message. */
  lemma TodayEmptyShowsNoTasks()
    ensures Today([], false) == Message(NoTasks)
  {
  }

  // ---------------------------------------------------------------------------
  // The week ahead
  // ---------------------------------------------------------------------------

  /** The body of one day: its task strings as dot items, or "no tasks" when it has none. */
  datatype DayBody = Items(items: seq<Item>) | NoItems(key: Label)

  /** One day's section: the header and the body. */
  datatype Day = Day(header: Label, body: DayBody)

  function DayItems(tasks: seq<string>): (b: DayBody)
    ensures b.NoItems? <==> tasks == []
    ensures b.NoItems? ==> b.key == NoTasks
    ensures b.Items? ==>
      |b.items| == |tasks| && forall k :: 0 <= k < |tasks| ==> b.items[k] == Item(tasks[k], Dot, false)
  {
    if |tasks| > 0 then Items(seq(|tasks|, k requires 0 <= k < |tasks| => TaskItem(tasks[k], None)))
    else NoItems(NoTasks)
  }

  /** The entry at position `index` of the mapping: header `day(index + 2)`; the day key itself is not shown. */
  function DayAt(entry: (string, seq<string>), index: int): (d: Day)
    ensures d.header == DayName(index + 2)
    ensures d.body.NoItems? <==> entry.1 == []
    ensures d.body.NoItems? ==> d.body.key == NoTasks
    ensures d.body.Items? ==>
      |d.body.items| == |entry.1| && forall k :: 0 <= k < |entry.1| ==> d.body.items[k] == Item(entry.1[k], Dot, false)
  {
    Day(DayName(index + 2), DayItems(entry.1))
  }

  /**
   * The week-ahead card: skeleton while loading, else one section per entry in
   * entry order, else (no mapping at all) "no upcoming tasks". A present but
   * empty mapping gives no sections and no message.
   */
  function Weekly(weeklyTasks: Option<WeeklyTasks>, isLoading: bool): (v: Section<seq<Day>>)
    ensures v.Skeleton? <==> isLoading
    ensures v.Skeleton? ==> v.placeholders == SKELETON_ROWS
    ensures v.Message? <==> !isLoading && weeklyTasks.None?
    ensures v.Message? ==> v.key == NoUpcomingTasks
  {
    if isLoading then Skeleton(SKELETON_ROWS)
    else match weeklyTasks
      case Some(entries) =>
        Content(seq(|entries|, i requires 0 <= i < |entries| => DayAt(entries[i], i)))
      case None => Message(NoUpcomingTasks)
  }

  /** While loading, the week-ahead card is the skeleton, whatever the mapping is. */
  lemma WeeklyLoadingIgnoresTasks(weeklyTasks: Option<WeeklyTasks>, others: Option<WeeklyTasks>)
    ensures Weekly(weeklyTasks, true) == Weekly(others, true) == Skeleton(3)
  {
  }

  /** No mapping and an empty mapping render differently: a message, versus nothing at all. */
  lemma AbsentIsNotEmpty()
    ensures Weekly(None, false) == Message(NoUpcomingTasks)
    ensures Weekly(Some([]), false) == Content([])
    ensures Weekly(None, false) != Weekly(Some([]), false)
  {
    assert Weekly(Some([]), false).body == [];
  }

  /** Sections follow the entries one to one; the i-th header is `day(i + 2)`. */
  lemma WeeklyHeaders(entries: WeeklyTasks)
    ensures Weekly(Some(entries), false).Content?
    ensures |Weekly(Some(entries), false).body| == |entries|
    ensures forall i :: 0 <= i < |entries| ==>
      Weekly(Some(entries), false).body[i].header == DayName(i + 2)
  {
  }

  /**
   * A day's section lists its task strings in order as dot items, or shows
   * "no tasks" when its list is empty.
   */
  lemma WeeklyDayBodies(entries: WeeklyTasks, i: nat)
    requires i < |entries|
    ensures var body := Weekly(Some(entries), false).body[i].body;
      (entries[i].1 == [] ==> body == NoItems(NoTasks)) &&
      (entries[i].1 != [] ==>
        && body.Items?
        && |body.items| == |entries[i].1|
        && forall k :: 0 <= k < |body.items| ==> body.items[k] == Item(entries[i].1[k], Dot, false))
  {
  }

  /** Nothing in the week-ahead card has a checkbox or is struck through. */
  lemma WeeklyItemsArePlain(entries: WeeklyTasks, i: nat, k: nat)
    requires i < |entries|
    requires Weekly(Some(entries), false).body[i].body.Items?
    requires k < |Weekly(Some(entries), false).body[i].body.items|
    ensures Weekly(Some(entries), false).body[i].body.items[k].marker == Dot
    ensures !Weekly(Some(entries), false).body[i].body.items[k].struck
  {
  }

  /**
   * The day keys are never shown: two mappings with the same task lists in the
   * same order render the same, whatever their keys.
   */
  lemma DayKeysNotShown(entries: WeeklyTasks, renamed: WeeklyTasks)
    requires |entries| == |renamed|
    requires forall i :: 0 <= i < |entries| ==> entries[i].1 == renamed[i].1
    ensures Weekly(Some(entries), false) == Weekly(Some(renamed), false)
  {
    var v, w := Weekly(Some(entries), false), Weekly(Some(renamed), false);
    assert v.body == w.body by {
      forall i | 0 <= i < |entries| ensures v.body[i] == w.body[i] {
        assert v.body[i] == DayAt(entries[i], i) && w.body[i] == DayAt(renamed[i], i);
      }
    }
  }

  /** Three entries d0, d1, d2 get the headers day(2), day(3) and day(4). */
  lemma ThreeDayHeaders(d0: (string, seq<string>), d1: (string, seq<string>), d2: (string, seq<string>))
    ensures Weekly(Some([d0, d1, d2]), false) == Content([
      Day(DayName(2), DayItems(d0.1)), Day(DayName(3), DayItems(d1.1)), Day(DayName(4), DayItems(d2.1))])
  {
    var v := Weekly(Some([d0, d1, d2]), false);
    assert v.body == [DayAt(d0, 0), DayAt(d1, 1), DayAt(d2, 2)];
  }

  // ---------------------------------------------------------------------------
  // The page
  // ---------------------------------------------------------------------------

  /** The page's two cards, each computed from its own inputs only. */
  datatype Page = Page(today: Section<seq<Item>>, week: Section<seq<Day>>)

  function UpcomingTasks(todaysTasks: seq<Task>, isTodaysTasksLoading: bool,
                         weeklyTasks: Option<WeeklyTasks>, isWeeklyTasksLoading: bool): (p: Page)
    ensures p.today.Skeleton? <==> isTodaysTasksLoading
    ensures p.week.Skeleton? <==> isWeeklyTasksLoading
    ensures p.today.Message? <==> !isTodaysTasksLoading && todaysTasks == []
    ensures p.week.Message? <==> !isWeeklyTasksLoading && weeklyTasks.None?
    ensures p.week.Content? ==> |p.week.body| == |weeklyTasks.value|
  {
    Page(Today(todaysTasks, isTodaysTasksLoading), Weekly(weeklyTasks, isWeeklyTasksLoading))
  }

  /** The two cards are independent: changing one card's inputs leaves the other card as it was. */
  lemma CardsIndependent(todaysTasks: seq<Task>, todayLoading: bool, weeklyTasks: Option<WeeklyTasks>, weekLoading: bool,
                         otherTasks: seq<Task>, otherTodayLoading: bool, otherWeekly: Option<WeeklyTasks>, otherWeekLoading: bool)
    ensures UpcomingTasks(todaysTasks, todayLoading, weeklyTasks, weekLoading).today ==
            UpcomingTasks(todaysTasks, todayLoading, otherWeekly, otherWeekLoading).today
    ensures UpcomingTasks(todaysTasks, todayLoading, weeklyTasks, weekLoading).week ==
            UpcomingTasks(otherTasks, otherTodayLoading, weeklyTasks, weekLoading).week
  {
  }
}
