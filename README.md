# To-do list state, modelled in Dafny

The to-do app keeps its whole state in three cells of its `App` component:
the task list, the title being typed in the new-task box (the draft) and the
search text. Four handlers update the list: `createTask`, `toggleTaskDone`,
`toggleTaskPaused` and `deleteTask`. The list on screen is `filteredTasks`,
the tasks whose lower-cased title includes the lower-cased search text.

This project models that state and proves what each handler does to it.

- `Text.dfy` (module `Text`): the string operations the handlers use.
  `Trim` is the ECMAScript `trim`. `ToLower` is `toLowerCase` for ASCII.
  `Includes` is `includes`. Each has a proved independent meaning: blankness,
  a per-character map, and "occurs at some index".
- `Seqs.dfy` (module `Seqs`): `Filter`, which is `Array.prototype.filter`, and
  the subsequence relation. It proves that `Filter`'s contract determines its
  result. It also proves idempotence, that filters commute, and that a filter
  distributes over concatenation.
- `Tasks.dfy` (module `Tasks`): the `Task` record and the new lists the
  handlers compute. These are `Created`, `ToggleDone`, `TogglePaused`, `Remove`
  and `Visible`, with lemmas: involution, unknown id, idempotence, uniqueness,
  and how the view follows each handler.
- `App.dfy` (module `App`): class `TaskList` with fields `tasks`, `draft` and
  `query`. Its methods are the handlers. Each is one atomic update, specified
  by the function in `Tasks` that computes the new state. The class keeps
  one invariant, `Valid()`: no stored title is blank.

Ids come from the clock (`Date.now()`), which the model takes as the
parameter `now` of `CreateTask`. Nothing in the code makes ids unique. The
model does not assume it either, so toggling and deleting act on every task
with the given id. `SameTickSharesId` shows two creations in one clock tick
giving two tasks with one id, and one toggle then flipping both.
`AppendFreshKeepsDistinct` and `SubseqKeepsDistinct` show that ids stay
distinct when each clock reading is new.

The title is stored as typed, not trimmed. Only the blank test trims it.

## Model

| member | source | states |
|---|---|---|
| Text.TrimStart | App.js:19 | the result is a suffix of the input, everything dropped is white space, and the result does not start with white space |
| Text.TrimEnd | App.js:19 | the result is a prefix of the input, everything dropped is white space, and the result does not end with white space |
| Text.Trim | App.js:19 | the trimmed string is the middle slice of the input left once a blank prefix and a blank suffix are dropped, and neither its first nor its last character is white space |
| Text.BlankEnds | App.js:19 | a slice surrounded only by white space is the string with blank padding removed (the step that proves `Trim`'s slice property) |
| Text.TrimEmptyIffBlank | App.js:19 | `trim()` yields "" exactly when every character is white space |
| Text.ToLower | App.js:46 | lower-casing keeps the length, maps each character by its lower-case form, and leaves no ASCII capital |
| Text.ToLowerIdempotent | App.js:46 | lower-casing a lower-cased string changes nothing |
| Text.Includes | App.js:46 | the empty string is included in every string; a string that includes another is at least as long |
| Text.OccursImpliesIncludes | App.js:46 | an occurrence at any index makes `includes` true |
| Text.IncludesImpliesOccurs | App.js:46 | when `includes` is true the query occurs at some index |
| Text.IncludesIffOccurs | App.js:46 | `includes` is exactly the substring relation |
| Seqs.Filter | App.js:41 | `filter` returns a subsequence holding every occurrence of each element that passes, no element that fails, and only passing elements |
| Seqs.SubseqMultiset | App.js:41 | a subsequence holds no more copies of any element than the original |
| Seqs.FilterUnique | App.js:41 | any subsequence that keeps exactly the passing occurrences is the filter's result |
| Seqs.SubseqEmpty | App.js:41 | the empty list is a subsequence of any list |
| Seqs.FilterAll | App.js:41 | filtering with a predicate every element passes returns the list unchanged |
| Seqs.FilterIdempotent | App.js:41 | filtering twice with one predicate equals filtering once |
| Seqs.FilterLength | App.js:41 | a filter never lengthens the list, and keeps its length exactly when every element passes |
| Seqs.FilterAppend | App.js:45-47 | filtering a list with an element appended filters the two parts separately |
| Seqs.FilterCommute | App.js:41-47 | two filters give the same result in either order |
| Tasks.NewTask | App.js:21 | a new task has the clock reading as id, the draft as title, and both flags off |
| Tasks.Created | App.js:18-24 | a blank draft leaves list and draft unchanged; otherwise the old list is a prefix of the new one, the new task is last, the list is one longer, and the draft is "" |
| Tasks.CreatedKeepsTitles | App.js:19-22 | after `createTask` no stored title is blank, provided none was before |
| Tasks.UpdateWhere | App.js:27-29 | the conditional `map` keeps every position and rewrites exactly the tasks whose id matches |
| Tasks.ToggleDone | App.js:26-31 | same length and order, `done` flipped exactly where the id matches, ids, titles and `paused` unchanged |
| Tasks.TogglePaused | App.js:33-38 | same length and order, `paused` flipped exactly where the id matches, ids, titles and `done` unchanged |
| Tasks.ToggleDoneTwice | App.js:27-29 | toggling `done` twice with one id restores the list |
| Tasks.TogglePausedTwice | App.js:34-36 | toggling `paused` twice with one id restores the list |
| Tasks.ToggleDoneUnknownId | App.js:27-29 | toggling `done` with an id no task has changes nothing |
| Tasks.TogglePausedUnknownId | App.js:34-36 | toggling `paused` with an id no task has changes nothing |
| Tasks.TogglesCommute | App.js:26-38 | the two flags are independent: the two toggles commute |
| Tasks.Remove | App.js:40-43 | after deletion no task has the id, the rest keep their order, and every task with another id keeps all its occurrences |
| Tasks.RemoveUnique | App.js:41 | deletion's result is the only list with those three properties |
| Tasks.RemoveShortens | App.js:41 | deletion shortens the list exactly when some task has the id |
| Tasks.RemoveUnknownId | App.js:41 | deleting an id no task has changes nothing |
| Tasks.RemoveTwice | App.js:41 | deleting the same id twice equals deleting it once |
| Tasks.Visible | App.js:45-47 | the view is a subsequence of the list; it holds every occurrence of each matching task and no task that does not match |
| Tasks.VisibleEmptyQuery | App.js:45-47 | an empty search text shows the whole list in order |
| Tasks.MatchIgnoresQueryCase | App.js:46 | a query found in the lower-cased title matches in any case |
| Tasks.VisibleIgnoresQueryCase | App.js:46 | a query and its lower-case form show the same tasks |
| Tasks.FilterUpdateWhere | App.js:27-47 | an update the search cannot see commutes with the search filter |
| Tasks.VisibleAfterAppend | App.js:22-47 | a created task appears at the end of the view iff it matches; with an empty query the view grows by one |
| Tasks.VisibleAfterRemove | App.js:41-47 | the view after a deletion is the old view with the deleted tasks left out |
| Tasks.VisibleAfterToggleDone | App.js:26-47 | the view after toggling `done` is the toggled old view |
| Tasks.VisibleAfterTogglePaused | App.js:33-47 | the view after toggling `paused` is the toggled old view |
| Seqs.SubseqMembers | App.js:41 | every element of a subsequence is in the original |
| Tasks.SubseqKeepsDistinct | App.js:41 | deletion cannot make ids clash: a subsequence of a list with distinct ids has distinct ids |
| Tasks.AppendFreshKeepsDistinct | App.js:21-22 | appending a task with an unused id keeps ids distinct |
| Tasks.SameTickSharesId | App.js:18-29 | two `createTask` calls with non-blank drafts at the same clock reading give the two new tasks the same id, and one `toggleTaskDone` of that id flips both |
| App.TaskList.constructor | App.js:14-16 | the three state cells start empty |
| App.TaskList.SetDraft | App.js:90 | the new-task box stores the text as typed |
| App.TaskList.SetQuery | App.js:83 | the search box stores the text as typed |
| App.TaskList.CreateTask | App.js:18-24 | the new list and draft are `Created` of the old ones; no blank title is ever stored |
| App.TaskList.ToggleTaskDone | App.js:26-31 | the new list is `ToggleDone` of the old one |
| App.TaskList.ToggleTaskPaused | App.js:33-38 | the new list is `TogglePaused` of the old one |
| App.TaskList.DeleteTask | App.js:40-43 | the new list is `Remove` of the old one |
| App.TaskList.FilteredTasks | App.js:45-47 | the view is a subsequence of `tasks`; a task is in it iff it is in `tasks` and its title matches; an empty search shows all of `tasks`; each matching task keeps all its copies (exact counts) |

## Left out

- Text.ToLower: only the ASCII letters A-Z are lowered. JavaScript's `toLowerCase` also lowers non-ASCII letters using Unicode case mappings, some of which change the string's length.
- Text.IsWhiteSpace: the "Zs" code points are those of current Unicode versions. The JavaScript runtime's own table may differ in another version.
- `Date.now()` (App.js:21) reads the clock. It is the parameter `now`, and nothing about its values is assumed.
- React's `useState` machinery (App.js:14-16, 22-23, 30, 37, 42) is left out. Each handler is one atomic update of the current state. Stale closures and batched re-renders are not modelled.
- Rendering (App.js:49-106) is not modelled. This covers `renderItem`, the JSX tree, `FlatList`, `keyExtractor`'s `id.toString()` and the button labels. Only the two `onChangeText` handlers are kept, as `SetQuery` and `SetDraft`.
- The `StyleSheet` (App.js:109-176) is styling data only.
- Ids are not unique. App.js:21 takes them from the clock (`Date.now()`), and toggle and delete (App.js:27-29, 34-36, 41) act on every task with a matching id. The model follows the code.
