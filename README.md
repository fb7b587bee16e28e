# Task Manager: a Dafny model of the task store and the theme controller

This project models the two state machines of a small browser to-do list:

- **The task store** (`TaskManager`, scripts/app.js). It holds an ordered list of tasks
  `{id, text, completed, createdAt}` and a current filter string. It adds a task from the
  typed text after trimming it, and ignores blank text. It deletes every task with a given
  id, flips `completed` on the first task with a given id, and sets the filter. It derives
  the filtered view and the counters from this state, and saves the list to local storage
  after every change to the list.
- **The theme controller** (`ThemeManager`, scripts/theme.js). The theme shown is the saved
  value when it is set (not `null`, not `""`), and otherwise the system colour-scheme
  preference. Toggling saves and shows the opposite theme. A change of system preference
  only matters while nothing is saved.

Files:

- `wrappers.dfy`: `Option`.
- `persistence.dfy`: `Persistence.Storage`, local storage as a key-value map. Serialisation
  is taken as the identity.
- `text.dfy`: `String.prototype.trim` over ECMAScript white space and line terminators.
- `lists.dfy`: `Array.prototype.filter`, with `Selected`, an independent description of the
  positions a filter keeps.
- `tasks.dfy`: the task list operations as functions, their properties as lemmas, and the
  `TaskManager` class whose handler methods are proved against those functions.
- `theme.dfy`: the theme rules as functions, and the `ThemeManager` class. Its invariant
  `Valid()` says the document root and the toggle button always show the current theme.

The wall clock is a parameter. `Date.now()` is the `now` argument of `HandleAddTask`, and
`toLocaleString()` is its opaque `createdAt` argument. The system preference
(`matchMedia`) is a field that the change handler updates.

Points where the code's behaviour is easy to misread:

- Delete removes every task with the id, not just one (scripts/app.js:91). Toggle reaches
  only the first (scripts/app.js:101). `SameInstantAddsShareId` shows the two disagree once
  two tasks are added in the same millisecond.
- The filter is any string. A value other than "active" or "completed" shows every task.
- The saved theme is any string. Only "dark" counts as dark. Toggling from any other
  value saves "dark".
- Loading does not fail open on corrupt data: `JSON.parse` throws (scripts/app.js:218).

## Model

| member | source | states |
|---|---|---|
| Text.Trim | scripts/app.js:62 | the trimmed text has no white space at either end, and it is empty exactly when the input is blank (all white space) |
| Text.TrimIsInnerSlice | scripts/app.js:62 | the trimmed text is the slice of the input that starts after the leading white space, and everything cut off on either side is white space |
| Text.TrimFixesTrimmed | scripts/app.js:62 | trimming leaves a string unchanged if and only if neither end is white space |
| Text.TrimIdempotent | scripts/app.js:62 | trimming twice gives the same as trimming once |
| Lists.Filter | scripts/app.js:91 | every element `filter` returns passes the test, and the result is never longer than the input |
| Lists.FilterKeeps | scripts/app.js:91 | `filter` keeps exactly the elements that occur in the input and pass the test |
| Lists.FilterDropsOne | scripts/app.js:91 | when exactly one element fails the test, `filter` returns the sequence with that element cut out |
| Lists.FilterPicksSelected | scripts/app.js:132-134 | `filter` lists the elements at exactly the passing positions, in increasing position order |
| Tasks.Added | scripts/app.js:62-76 | blank input leaves the list unchanged; otherwise the old list is followed by one new task with the supplied id, the trimmed text, `completed = false` and the supplied timestamp |
| Tasks.Deleted | scripts/app.js:91 | a task survives delete if and only if it was in the list and its id differs from the argument |
| Tasks.IndexOfId | scripts/app.js:101 | `find` gives the first position holding the id, or nothing exactly when no task has that id |
| Tasks.Toggled | scripts/app.js:101-104 | toggle keeps the length and every task's id, text and timestamp |
| Tasks.FilteredTasks | scripts/app.js:129-137 | "active" shows exactly the tasks that are not completed; "completed" shows exactly the completed ones; any other filter shows the whole list |
| Tasks.StatsOf | scripts/app.js:196-199 | total is the full list's length; completed is at most total; completed plus remaining is total; completed and remaining equal the sizes of the "completed" and "active" views |
| Tasks.Loaded | scripts/app.js:217-218 | with no "tasks" entry the loaded list is empty; otherwise it is the stored list |
| Tasks.DeleteAbsentIsNoop | scripts/app.js:91 | deleting an id no task has leaves the list equal to what it was |
| Tasks.DeleteKeepsOrder | scripts/app.js:91 | delete keeps, in their original order, the tasks at exactly the positions whose id differs |
| Tasks.DeleteRemovesOne | scripts/app.js:91 | with unique ids, deleting the id at position i removes that task and nothing else |
| Tasks.DeletePreservesUniqueIds | scripts/app.js:91 | delete keeps ids unique |
| Tasks.ToggleFlipsFirstMatch | scripts/app.js:101-104 | toggle flips `completed` on the first task with the id and leaves every other task as it was |
| Tasks.ToggleAbsentIsNoop | scripts/app.js:101-103 | toggling an id no task has changes nothing |
| Tasks.IndexOfIdByIds | scripts/app.js:101 | `find` by id depends only on the ids: two lists with the same ids position by position give the same first match |
| Tasks.IndexOfIdAfterToggle | scripts/app.js:101-104 | a toggle does not move the first position of any id |
| Tasks.ToggleTwice | scripts/app.js:104 | toggling the same id twice restores the original list |
| Tasks.AddPreservesUniqueIds | scripts/app.js:69-76 | adding keeps ids unique when the supplied id is not already in use |
| Tasks.AddUniqueIdsIff | scripts/app.js:69-76 | for non-blank input, the ids after the add are unique exactly when they were unique before and the clock-derived id was not already in use |
| Tasks.AddKeepsTexts | scripts/app.js:62-76 | adding keeps every task text non-empty and trimmed |
| Tasks.DeleteAndToggleKeepTexts | scripts/app.js:91-104 | delete and toggle keep every task text non-empty and trimmed |
| Tasks.SameInstantAddsShareId | scripts/app.js:70 | two adds in the same millisecond give two tasks one id; deleting that id removes both; toggling it flips only the first |
| Tasks.FilteredKeepsOrder | scripts/app.js:129-137 | the "active" and "completed" views list the matching tasks in their original order, and no others |
| Tasks.AddCountsAsRemaining | scripts/app.js:196-199 | adding a task adds one to total and remaining and leaves completed unchanged |
| Tasks.AddThenComplete | scripts/app.js:69-104 | adding one task to an empty list gives counters (1, 0, 1); completing it gives (1, 1, 0), an empty "active" view and a "completed" view holding that task |
| Tasks.TaskManager.constructor | scripts/app.js:7-19 | a new manager starts with the saved list (empty when none is saved) and the filter "all", so the saved copy matches the list in memory |
| Tasks.TaskManager.SaveTasks | scripts/app.js:211-213 | the list is written under "tasks" and no other key changes; loading right after gives back the same list |
| Tasks.TaskManager.LoadTasks | scripts/app.js:216-219 | the list becomes the saved one, or the empty list when "tasks" is absent |
| Tasks.TaskManager.HandleAddTask | scripts/app.js:60-84 | the list becomes `Added` of the old one; blank input saves nothing; otherwise the new list is saved; either way a saved copy that matched the list still matches it |
| Tasks.TaskManager.HandleDeleteTask | scripts/app.js:87-96 | the list becomes `Deleted` of the old one and is saved, so the saved copy matches the list |
| Tasks.TaskManager.HandleCompleteTask | scripts/app.js:99-111 | the list becomes `Toggled` of the old one; it is saved only when some task had the id; either way a saved copy that matched the list still matches it |
| Tasks.TaskManager.HandleFilter | scripts/app.js:114-126 | only the filter changes, to the given value; nothing is saved, and a saved copy that matched the list still matches it |
| Tasks.ReloadRestoresTasks | scripts/app.js:211-218 | after an add and a filter change, a new manager over the same storage starts from exactly the list the first one saved (the old list for blank input) and from the filter "all" |
| Theme.IsSet | scripts/theme.js:42 | a saved value counts as set exactly when it is neither `null` nor the empty string |
| Theme.SystemTheme | scripts/theme.js:60-62 | the system theme is "dark" exactly when the system prefers dark, and "light" otherwise |
| Theme.CurrentTheme | scripts/theme.js:68-71 | a set saved value is the current theme whatever the system says; with none set, the current theme is the system's |
| Theme.Opposite | scripts/theme.js:118-119 | toggling goes to "light" exactly from "dark", and to "dark" from any other value |
| Theme.OppositeTwice | scripts/theme.js:119 | switching twice returns to the start exactly when the start is "dark" or "light" |
| Theme.StyleFor | scripts/theme.js:86-94 | the document root gets the dark style for exactly "dark" and the light style for every other value |
| Theme.FaceFor | scripts/theme.js:99-112 | the button's label names the theme a toggle would switch to: "Switch to light mode" on a dark page, "Switch to dark mode" otherwise |
| Theme.ToggleTwice | scripts/theme.js:117-125 | one toggle saves "dark" or "light"; a second toggle restores the first theme exactly when that theme was "dark" or "light" |
| Theme.ThemeManager.SavedTheme | scripts/theme.js:52-54 | the saved theme is present exactly when storage has an "app-theme" entry, and is that entry |
| Theme.ThemeManager.Current | scripts/theme.js:68-71 | the current theme is never empty; it is the stored "app-theme" value when that is non-empty, and otherwise the system theme: "dark" when the system prefers dark, "light" otherwise |
| Theme.ThemeManager.constructor | scripts/theme.js:7-22 | at load the page shows the current theme (`Valid`); without a button element the button stays untouched |
| Theme.ThemeManager.UpdateToggleButton | scripts/theme.js:99-112 | when the button exists it shows the face for the current theme; otherwise it is untouched |
| Theme.ThemeManager.ApplyTheme | scripts/theme.js:76-80 | afterwards the root and the button show the current theme |
| Theme.ThemeManager.ToggleTheme | scripts/theme.js:117-127 | the opposite of the old current theme is saved under "app-theme" and becomes the current theme; the page shows it |
| Theme.ExplicitChoiceWins | scripts/theme.js:41-45 | starting with nothing saved, the current theme is the system theme; a toggle chooses its opposite; after a later system change that choice is still current and the root style and button face are those of the choice |
| Theme.ThemeManager.OnSystemPreferenceChange | scripts/theme.js:41-45 | with a set saved value the current theme, root and button stay as they were; with none the root follows the new system theme; either way the page shows the current theme |

## Left out

- DOM work is not modelled: element lookup, event binding and delegation, and building the
  list rows (`cacheElements`, `bindEvents`, `renderTasks`, `createTaskElement`). It is view
  plumbing. `FilteredTasks` and `StatsOf` are what a render reads.
- Clearing and refocusing the input field, the active filter button's classes and
  `aria-pressed`, and the "task"/"tasks" plural suffix are not modelled. They are view text
  and attributes.
- `announceToScreenReader` and its one-second removal timer are not modelled. They are a
  UI side effect on a timer.
- `Date.now()` and `toLocaleString()` are parameters, because they read the wall clock.
- `JSON.stringify`/`JSON.parse` are taken as the identity. A saved list is therefore never
  the empty string, so the "stored but falsy" branch of `loadTasks` cannot arise. Corrupt
  stored JSON is not modelled: `JSON.parse` throws there and there is no recovery behaviour to model.
- `parseInt(taskId, 10)` on the row's data attribute is not modelled. The handlers take the
  numeric id directly, because the attribute is written from that id when the row is built.
- Local storage is not one shared store. The model gives each controller its own
  `Storage`, one holding task lists and one holding strings. The two use different keys,
  so they never interact. Write failures (quota errors) and writes from other tabs are not
  modelled.
- Tasks are values, not shared mutable objects. `handleCompleteTask` mutates the found
  object in place, and `getFilteredTasks` returns the list itself for the default filter.
  No other holder of those references exists, so replacing the element changes nothing
  observable.
- `window.matchMedia` is an input: the `prefersDark` field, updated by
  `OnSystemPreferenceChange`.
- The `DOMContentLoaded` bootstrap code (scripts/app.js:238-240, scripts/theme.js:131-137)
  is not modelled. Construction is the classes' constructors.
