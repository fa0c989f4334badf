/** What the widgets render, independent of markup and styling. */
module View {
  import opened Types

  /**
   * A key into the host's translation table for the selected language.
   * The table is not modelled: a key stands for whatever text it yields.
   */
  datatype Label =
    | NoTasks                    // tasks.noTasks
    | NoUpcomingTasks            // upcomingTasks.noUpcomingTasks
    | PriorityName(p: Priority)  // tasks.priorities[p]
    | DayName(n: int)            // upcomingTasks.day(n)

  /** A card body: a loading skeleton of placeholder rows, the data itself, or a message. */
  datatype Section<T> = Skeleton(placeholders: nat) | Content(body: T) | Message(key: Label)

  /** Every skeleton in these widgets has three placeholder rows. */
  const SKELETON_ROWS: nat := 3
}
