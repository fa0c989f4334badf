/** The shapes the two task widgets consume: a task record and the weekly preview. */
module Types {

  /** An optional value; stands for a property that may be absent (`priority?`, `completed?`) or a `null` prop. */
  datatype Option<+T> = None | Some(value: T)

  /** The closed set of priorities a task may carry. */
  datatype Priority = High | Medium | Low

  /** An interactive to-do item: identity, display text, completion flag and an optional priority. */
  datatype Task = Task(id: string, text: string, completed: bool, priority: Option<Priority>)

  /**
   * The week-ahead preview: each entry is a day key with its plain task strings.
   * The sequence fixes the order in which the entries are enumerated.
   */
  type WeeklyTasks = seq<(string, seq<string>)>
}
