# To-do list state model

A Dafny model of the state logic of a single-page to-do list written as one
React component (`src/App.jsx`). The component keeps four pieces of state:

- the task list, where each task is `{id, text, isCompleted}`;
- the text in the entry box;
- the search query;
- the filter mode.

Three handlers replace the task list:

- **Add** appends the typed text as a new task, unless the text is blank after `trim`.
- **Delete** filters out the tasks with a given id.
- **Toggle** maps over the list and flips `isCompleted` on the tasks with a given id.

On every render the component derives the visible list. It applies a completion
filter first (`All`, `Active`, `Completed`; any other mode acts as `All`). Then it
applies a case-insensitive substring search. At start-up it reads the stored list
back and installs it only if it parsed to an array.

Every handler builds a new array (`filter`, `map`, spread) and each `useState`
setter replaces a whole value. So the model is pure: one function from old state
to new state per handler, plus lemmas.

- `seqs.dfy` (module `Seqs`): `Filter` and `Map`, the models of
  `Array.prototype.filter` and `Array.prototype.map`. It also holds the
  subsequence relation `IsSubseq` and the facts about them.
- `js_string.dfy` (module `JsString`): `trim` with ECMAScript's exact set of
  whitespace and line-terminator code points, `toLowerCase` on ASCII letters, and
  `includes`.
- `todo_app.dfy` (module `TodoApp`): `Task`, `State`, the handlers, the derived
  view, the start-up hydration decision and the end-to-end scenario.

Where the code and the usual description of this application differ, the model
follows the code:

- The stored task text is the entry text as typed, not trimmed. Trimming is used
  only to decide whether the entry is blank.
- Ids are caller-supplied timestamps and nothing makes them unique. Delete
  removes every task with the id, not one. Toggle flips every task with the id.
- A stored value that is an array replaces the list without any check on its
  elements. So "no task has a blank text" is kept by the three handlers, but a
  hydrated list need not satisfy it.

## Model

| member | source | states |
|---|---|---|
| `TodoApp.Initial` | src/App.jsx:6-9 | The first render has an empty list, an empty entry box and query, and a filter mode that hides no task. The empty list satisfies the non-blank-text invariant. |
| `TodoApp.HandleTask` | src/App.jsx:26-36 | A blank entry (every character whitespace) leaves the whole state unchanged. Otherwise the old list is kept as a prefix and exactly one task is appended at the end: the given id, the untrimmed entry text, not completed. The entry box is cleared and the query and filter are kept. |
| `TodoApp.AddEachAppends` | src/App.jsx:26-36 | After a run of non-blank entries, each followed by Add, the list is the old list followed by one new task per entry, in order, each with its own press's id. |
| `TodoApp.DeleteTask` | src/App.jsx:38-41 | The new list is a subsequence of the old one (order kept) with no task of the deleted id. Every task with another id is kept. The list shrinks by exactly the number of tasks that had the id. Entry, query and filter are unchanged. |
| `TodoApp.DeleteUnique` | src/App.jsx:38-41 | The contract of `DeleteTask` determines its result. Any subsequence of the list that has no task with the id, and is shorter by the number of tasks that had it, is the list Delete leaves. |
| `TodoApp.DeleteAbsent` | src/App.jsx:39 | Deleting an id that no task has leaves the state unchanged. |
| `TodoApp.DeleteIdempotent` | src/App.jsx:39 | Deleting the same id twice equals deleting it once. |
| `TodoApp.DeleteUndoesAdd` | src/App.jsx:26-41 | Adding under an id no task has yet, then deleting that id, gives back the old list (a blank entry included). |
| `TodoApp.ToggleTaskCompletion` | src/App.jsx:43-49 | Length, order, every id and every text are preserved. A task with the id has its completion flag negated. Every other task is identical. Entry, query and filter are unchanged. |
| `TodoApp.ToggleInvolution` | src/App.jsx:45-47 | Toggling the same id twice restores the original state. |
| `TodoApp.ToggleAbsent` | src/App.jsx:45-47 | Toggling an id that no task has leaves the state unchanged. |
| `TodoApp.ToggleCommutes` | src/App.jsx:45-47 | Toggles of two ids can be applied in either order. |
| `TodoApp.DeleteAfterToggle` | src/App.jsx:38-49 | Toggling an id and then deleting it equals only deleting it. |
| `TodoApp.HandlersKeepTextNonBlank` | src/App.jsx:26-49 | If no task has a blank text, that still holds after an add, a delete or a toggle. |
| `TodoApp.PassesFilter` | src/App.jsx:52-57 | A task fails the mode test if and only if the mode is `Active` and the task is done, or the mode is `Completed` and the task is not. Every other mode keeps every task. |
| `TodoApp.MatchesSearch` | src/App.jsx:58-59 | A task matches if and only if the lowercased query occurs at some position of its lowercased text. The empty query matches every task. |
| `TodoApp.FilteredTasks` | src/App.jsx:51-60 | The view is an order-preserving subsequence of the list, never longer than it. Every shown task passes the mode test and the search. Every task of the list that passes both is shown. |
| `TodoApp.VisibleIff` | src/App.jsx:51-60 | A task is shown if and only if it is in the list, passes the mode test, and the lowercased query occurs at some position of its lowercased text. |
| `TodoApp.ViewIsOneFilter` | src/App.jsx:51-60 | The two chained filters equal one filter on the conjunction of both tests. |
| `TodoApp.ViewEmptyQuery` | src/App.jsx:58-60 | With an empty query the search keeps everything, so the view depends only on the mode. |
| `TodoApp.ViewActive` | src/App.jsx:54 | Empty query and `Active`: exactly the tasks with `isCompleted` false, in order. |
| `TodoApp.ViewCompleted` | src/App.jsx:55 | Empty query and `Completed`: exactly the tasks with `isCompleted` true, in order. |
| `TodoApp.ViewAll` | src/App.jsx:52-57 | Empty query and `All`, or any mode other than `Active`/`Completed`: the whole list in its order. |
| `TodoApp.ViewCaseInsensitive` | src/App.jsx:59 | Two queries with the same lowercase form show the same tasks. |
| `TodoApp.ViewLowercasedQuery` | src/App.jsx:59 | Lowercasing the query before searching shows the same tasks. |
| `TodoApp.Hydrate` | src/App.jsx:11-20 | An array replaces the task list. A non-array value or a parse failure leaves the state unchanged. Entry, query and filter are never touched. |
| `TodoApp.HydrateAtStartup` | src/App.jsx:7-20 | Starting from the initial empty list, the list is non-empty after hydration if and only if the stored value is a non-empty array, and then it is that array. |
| `TodoApp.Scenario` | src/App.jsx:26-60 | Starting empty: add "Write report", add "Call dentist", toggle the second. `Completed` then shows only "Call dentist" (done), `Active` only "Write report", and the search "REPORT" only "Write report". |
| `TodoApp.ScenarioSearchMatches` | src/App.jsx:59 | The query "REPORT" matches the text "Write report" and does not match "Call dentist". |
| `JsString.IsWhitespace` | src/App.jsx:27 | The characters `trim` removes are all in the Basic Multilingual Plane, so each is one UTF-16 code unit. No ASCII letter or digit is whitespace. |
| `JsString.Trim` | src/App.jsx:27 | The result is a contiguous slice of the input, and everything before and after the slice is whitespace. A non-empty result neither starts nor ends with whitespace. The result is empty exactly when every character is ECMAScript whitespace. |
| `JsString.TrimStart` | src/App.jsx:27 | The result is a suffix of the input that does not start with whitespace, and every character removed is whitespace. |
| `JsString.TrimEnd` | src/App.jsx:27 | The result is a prefix of the input that does not end with whitespace, and every character removed is whitespace. |
| `JsString.ToLower` | src/App.jsx:59 | Length is preserved and each character is lowercased in place. |
| `JsString.LowerChar` | src/App.jsx:59 | The result is never an ASCII capital. A capital moves to its lowercase letter (+32) and every other character is kept. |
| `JsString.Includes` | src/App.jsx:59 | Every string includes the empty string, and no string includes a longer one. |
| `JsString.IncludesIff` | src/App.jsx:59 | `includes` holds if and only if the query occurs at some position of the text, for every text and query, the empty query included. |
| `Seqs.Filter` | src/App.jsx:39 | `filter`: the result is a subsequence of the input. Its length is the number of elements passing the test. Every element passes the test, and every passing element of the input is kept. |
| `Seqs.FilterUnique` | src/App.jsx:39 | Those three facts determine the result: a subsequence with that many elements, all passing the test, is the filter's result. |
| `Seqs.Map` | src/App.jsx:45-47 | `map`: same length, and the element at each position is the function applied to the input's element there. |
| `Seqs.FilterFilter` | src/App.jsx:51-60 | Filtering by one test and then by another equals filtering once by both. |
| `Seqs.FilterIdempotent` | src/App.jsx:39 | Filtering twice with the same test equals filtering once. |
| `Seqs.FilterAppend` | src/App.jsx:33 | Filtering distributes over concatenation. |
| `Seqs.IsSubseqTrans` | src/App.jsx:51-60 | A subsequence of a subsequence is a subsequence. |

## Left out

- Rendering (src/App.jsx:62-147): the JSX, Bootstrap classes and the "No tasks found" row are presentation only.
- The `onChange` and button wiring that sets the entry text, the query and the filter (src/App.jsx:71, 82, 88, 94, 107). The model writes these as record updates of `State`.
- Browser storage (src/App.jsx:13, 22-24): `localStorage.getItem`/`setItem` and the write-through effect. This is I/O. Hydration is modelled on the already-parsed value.
- `JSON.parse` and `JSON.stringify` (src/App.jsx:13, 23): foreign library calls. The JSON grammar and the serialise/parse round trip are not modelled. A parsed array is taken to hold task records; arrays of other values are not represented.
- Hydrate: does not model React's effect scheduling (the write effect also runs on mount) or the `console.error` call in the catch branch.
- HandleTask: the id is a parameter in place of `Date.now()`, a clock. No uniqueness of ids is claimed, because the code does not enforce it.
- Task ids are `int`. Non-integer numbers or other values that a stored array might hold are not represented.
- Strings are sequences of Unicode scalar values, while JavaScript strings are sequences of UTF-16 code units. A lone surrogate cannot be represented, and a character outside the Basic Multilingual Plane counts as one element here but two code units in JavaScript. No length or index in the model depends on this; `trim`'s character set lies inside the Basic Multilingual Plane.
- LowerChar: lowercases only ASCII `A`-`Z`. JavaScript's `toLowerCase` uses full Unicode case mapping, including characters whose lowercase form is longer.
