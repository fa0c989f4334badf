# Task widgets of the farming assistant, modelled in Dafny

This project models the display logic of two widgets in a farming-assistant web UI:

- **TaskList** copies the task array and sorts the copy with a comparator that puts completed tasks after incomplete ones. It then shows one of three things: a three-row loading skeleton, one row per sorted task, or a "no tasks" message. Each row has a checkbox bound to `completed` that reports the task's id to `onToggleTask`. The text is struck through when the task is completed. A priority badge falls back to `medium` when the task has no priority.
- **UpcomingTasksPage** shows two independent cards:
  - Today's card uses the same loading / rows / message choice. Its rows keep the input order and use `TaskItem` checkboxes.
  - The week-ahead card shows one section per entry of the weekly mapping. The entry at position `i` is headed `day(i + 2)` and lists its strings as dot items, or "no tasks" when the list is empty. A missing (`null`) mapping shows "no upcoming tasks" instead.

Files and modules:

- `types.dfy` (module `Types`): `Task`, `Priority`, `Option`, and `WeeklyTasks` as an ordered sequence of `(day key, task strings)` pairs.
- `view.dfy` (module `View`): what gets rendered.
  - `Label` holds keys into the translation table.
  - `Section<T>` is a card body: skeleton, content or message.
- `task_list.dfy` (module `TaskList`):
  - the comparator;
  - the reference order `SortedTasks`, built from two buckets;
  - a stable in-place insertion sort on a fresh array copy, proved equal to `SortedTasks`;
  - rows and the view.
- `upcoming_tasks_page.dfy` (module `UpcomingTasksPage`): `TaskItem`, the two cards and the page.

How the sort is modelled: the comparator returns 0 for tasks of equal completion, so the displayed order depends on `Array.prototype.sort` being stable. ECMA-262 has required a stable sort since ES2019 (section 23.1.3.30 of the 2023 edition), but it does not fix the algorithm. The model sorts with an insertion sort driven by the same comparator, which is stable. `SortedTasksUnique` proves that every order which puts incomplete tasks first and keeps each bucket in input order equals `SortedTasks`. So any stable sort shows the same list.

A comparator that returns 0 for ties is still consistent: `CompareIsConsistent` proves that it is zero on equal arguments, antisymmetric in sign, and transitive both in `<` and in ties. So the displayed order depends only on the sort being stable.

## Model

| member | source | states |
|---|---|---|
| `TaskList.Compare` | components/TaskList.tsx:22-25 | The comparator is -1, 0 or 1. It is 0 exactly when the two tasks have equal completion, and positive exactly when the first task is completed and the second is not. |
| `TaskList.CompareIsConsistent` | components/TaskList.tsx:23-24 | The comparator is consistent: zero on equal arguments, antisymmetric in sign, transitive in order and in ties. |
| `TaskList.SortedTasks` | components/TaskList.tsx:22-25 | The displayed order is the incomplete tasks followed by the completed tasks, each group in input order. Position k holds an incomplete task exactly when k is below the number of incomplete input tasks. |
| `TaskList.SortedTasksIsPermutation` | components/TaskList.tsx:22-25 | The sorted tasks are a permutation of the input: the same multiset and the same length. |
| `TaskList.SortedTasksCompletedLast` | components/TaskList.tsx:23-24 | In the sorted tasks, every incomplete task comes before every completed task. |
| `TaskList.SortedTasksStable` | components/TaskList.tsx:23 | Tasks of equal completion keep their relative input order: each bucket of the output equals the same bucket of the input. |
| `TaskList.CompareSortedIsCompletedLast` | components/TaskList.tsx:23-24 | A list is ordered by the comparator, with no earlier task comparing greater than a later one, exactly when every incomplete task comes before every completed task. |
| `TaskList.SortedTasksUnique` | components/TaskList.tsx:22-25 | Any order that puts incomplete tasks first and keeps both buckets in input order is exactly the sorted tasks. So every stable sort with this comparator gives the same result. |
| `TaskList.Insert` | components/TaskList.tsx:22-25 | One insertion step. A completed task stays in place. An incomplete task moves to just after the last incomplete task of the sorted prefix, and nothing else changes. |
| `TaskList.SortInPlace` | components/TaskList.tsx:22-25 | Sorting the array in place with the comparator leaves it equal to `SortedTasks` of its old contents. |
| `TaskList.SortTasks` | components/TaskList.tsx:22 | Sorting a fresh copy returns `SortedTasks` of the input array. The input array is not modified, because the method has no modifies clause. |
| `TaskList.BadgePriority` | components/TaskList.tsx:56-57 | The badge uses the task's priority when present and `medium` when absent. |
| `TaskList.BadgeLabel` | components/TaskList.tsx:57 | The badge text is the translation of the task's priority, and of `medium` when the task has none. |
| `TaskList.RowOf` | components/TaskList.tsx:42-58 | A row shows the task's text. Its checkbox is checked, and its text struck through, exactly when the task is completed. It reports the task's own id on toggle, and its badge uses the defaulted priority. |
| `TaskList.ListView` | components/TaskList.tsx:35-63 | The view is the three-row skeleton exactly when loading. It is the "no tasks" message exactly when not loading and the list is empty. |
| `TaskList.Render` | components/TaskList.tsx:20-63 | The component, which sorts a copy and then chooses the view, yields exactly the specified view of its input. |
| `TaskList.LoadingIgnoresTasks` | components/TaskList.tsx:35-40 | While loading, the view is three placeholders, whatever the tasks are. |
| `TaskList.RowsFollowSortedTasks` | components/TaskList.tsx:41-42 | Once loaded, a non-empty list shows exactly one row per sorted task, in sorted order. |
| `TaskList.EmptyListShowsNoTasks` | components/TaskList.tsx:61-62 | Once loaded, an empty list shows the "no tasks" message. |
| `TaskList.UncheckedRowsFirst` | components/TaskList.tsx:41-53 | Every unchecked row is shown above every checked row. |
| `TaskList.EveryTaskShownOnce` | components/TaskList.tsx:42-50 | The rows show a permutation of the input tasks, and each row's checkbox reports the id of the task it shows. |
| `TaskList.ExampleOrder` | components/TaskList.tsx:22-57 | Tasks 1 (open, high), 2 (done, low) and 3 (open, no priority) are shown in the order 1, 3, 2. Task 3's badge reads "medium". |
| `UpcomingTasksPage.TaskItem` | components/UpcomingTasksPage.tsx:14-25 | Without a completion flag, an item has a dot and is never struck through. With a flag, it has a checkbox that is filled, and text that is struck through, exactly when the flag is true. |
| `UpcomingTasksPage.StruckOnlyWhenFilled` | components/UpcomingTasksPage.tsx:16-23 | An item is struck through if and only if its marker is a filled checkbox. |
| `UpcomingTasksPage.Today` | components/UpcomingTasksPage.tsx:54-64 | Today's card is the three-row skeleton exactly when loading. It is the "no tasks" message exactly when not loading and there are no tasks. |
| `UpcomingTasksPage.TodayLoadingIgnoresTasks` | components/UpcomingTasksPage.tsx:54-55 | While loading, today's card is the skeleton, whatever the tasks are. |
| `UpcomingTasksPage.TodayKeepsInputOrder` | components/UpcomingTasksPage.tsx:56-61 | Once loaded, a non-empty list gives one checkbox item per task at the same position, with no reordering. The checkbox is filled, and the text struck through, exactly for completed tasks. |
| `UpcomingTasksPage.TodayEmptyShowsNoTasks` | components/UpcomingTasksPage.tsx:62-63 | Once loaded, an empty list shows the "no tasks" message. |
| `UpcomingTasksPage.DayItems` | components/UpcomingTasksPage.tsx:77-85 | A day's body is the "no tasks" message exactly when its list is empty. Otherwise it has one plain dot item per string, in order. |
| `UpcomingTasksPage.DayAt` | components/UpcomingTasksPage.tsx:74-86 | The entry at position `index` is headed `day(index + 2)`. Its body is the "no tasks" message exactly when its list is empty, and otherwise has one plain dot item per string, in order. The day key is not part of the section. |
| `UpcomingTasksPage.Weekly` | components/UpcomingTasksPage.tsx:70-91 | The week-ahead card is the three-row skeleton exactly when loading. It is the "no upcoming tasks" message exactly when not loading and the mapping is absent. |
| `UpcomingTasksPage.WeeklyLoadingIgnoresTasks` | components/UpcomingTasksPage.tsx:70-71 | While loading, the week-ahead card is the skeleton, whatever the mapping is. |
| `UpcomingTasksPage.AbsentIsNotEmpty` | components/UpcomingTasksPage.tsx:72-90 | A missing mapping shows "no upcoming tasks". An empty mapping shows zero day sections and no message. The two views differ. |
| `UpcomingTasksPage.WeeklyHeaders` | components/UpcomingTasksPage.tsx:74-76 | There is one section per mapping entry, in entry order, and the section at position i is headed `day(i + 2)`. |
| `UpcomingTasksPage.WeeklyDayBodies` | components/UpcomingTasksPage.tsx:77-85 | A day with tasks lists them in order as dot items. A day with an empty list shows "no tasks". |
| `UpcomingTasksPage.WeeklyItemsArePlain` | components/UpcomingTasksPage.tsx:79-81 | No item in the week-ahead card has a checkbox or is struck through. |
| `UpcomingTasksPage.DayKeysNotShown` | components/UpcomingTasksPage.tsx:74-76 | The day keys are never displayed. Two mappings with the same task lists in the same order render identically. |
| `UpcomingTasksPage.ThreeDayHeaders` | components/UpcomingTasksPage.tsx:74-76 | Three entries d0, d1, d2 get the headers day(2), day(3) and day(4). |
| `UpcomingTasksPage.UpcomingTasks` | components/UpcomingTasksPage.tsx:35-95 | The page has two cards. Each card shows its skeleton exactly when its own loading flag is set. Today's card shows its message exactly when loaded with no tasks. The week-ahead card shows its message exactly when loaded with no mapping, and otherwise has one section per entry. |
| `UpcomingTasksPage.CardsIndependent` | components/UpcomingTasksPage.tsx:54-91 | Today's card depends only on today's inputs, and the week-ahead card only on the weekly inputs. |

## Left out

- JSX markup, Tailwind class strings, opacity dimming, animation delays, icons and the `href="#"` "view all" link: these are presentation only. The widget titles, subtitle and "view all" text are constant translation keys and are not part of the view model.
- The translation table and the `language` prop: labels are modelled as keys (`View.Label`). The text each key yields in each language is supplied by the host application and is not modelled. `translations` is not part of this model.
- React `key` props, reconciliation and the timing of callback invocation. A toggle is modelled only as the id a row reports (`Row.toggles`).
- The enumeration order of `Object.entries`, in which integer-like keys come first. The model assumes that the weekly mapping's entries arrive in the order of the `WeeklyTasks` sequence. It also assumes the day keys are distinct, as an object's keys are; the sequence type itself does not rule out a repeated key.
- The sort algorithm: the model uses a stable insertion sort. `SortedTasksUnique` shows that any stable sort gives the same order.
- The rest of `types.ts` (`Profile`, `Message`, `SoilData`, `CropRecommendation`, `AnalysisRecord`, `DashboardAdvice`, `MarketPrice`, `Page`, `Language`): shape declarations with no logic.
- Out-of-enum priority values are not modelled: `Priority` is a closed datatype, as the source's type declares.
