# Task-list client: the `App` component's state and handlers

The application is a single-page task-list client. It fetches a user's tasks
from a remote API, shows them with status toggles, a filter and a delete
button, and displays an error banner when a request fails. The logic this
model covers is in the `App` component (`src/App.tsx`); the filter function
and the child components hold the rest and are left out. The component holds three pieces of
state: `todos` (the task records), `error` (the banner text) and
`currentFilter`. Four transitions change that state:

- **load**, the effect run once on mount;
- **add** (`handleNewTodo`);
- **delete** (`handleDeleteTodo`);
- **toggle** (`toggleTodoStatus`).

The model has two modules:

- `TodoList` (`todo_list.dfy`) holds the task record and the pure list
  operations that the handlers build new lists with. `Appended` is the spread
  `[...todos, todoFromServer]`. `WithoutId` is `todos.filter(todo => todo.id
  !== todoId)`. `ReplacedFirst` gives the result of the toggle loop.
  `FirstIndexOf` finds the first record with a given identifier. Lemmas prove
  what these operations promise: order is kept, uniqueness of identifiers is
  preserved, a delete undoes an add, and so on.
- `TodoApp` (`app.dfy`) holds the component as a class `App`, with the fields
  `todos`, `error` and `currentFilter`. Its methods are the four handlers.
  Each network request is a parameter of type `Outcome<T>`: either
  `Resolved(value)` or `Rejected`. The model never performs the request.
  The toggle handler is `App.ToggleTodoStatus`. The updater it passes to
  `setTodos` is the method `ToggledCopy`. That method copies the list into a
  fresh array, walks it by index, overwrites the first record whose
  identifier matches and then breaks, just as the source's loop does. It is
  proved equal to `ReplacedFirst`.

A task record is `Todo(id: int, details: Details)`. The record type's own
file is not part of this model, so the fields of `Details` (title,
completion flag, owning user) are assumed from the application's
description of a task. No operation here reads them; they only travel with
the record. The banner is an
`ErrorBanner`: either a plain string (`""` when cleared, `"Unable to load
todos"` after a failed load) or a member of the `ErrorMessage` enumeration
(`Add`, `Delete`). The text of those two members is defined in a file that is
not part of this model.

## Model

| member | source | states |
|---|---|---|
| `TodoList.Appended` | src/App.tsx:36 | a successful add yields one more record: the old list is an unchanged prefix and the server's record is last |
| `TodoList.AppendedUniqueIds` | src/App.tsx:36 | on a list with unique identifiers, the list after an add has unique identifiers if and only if the server's record carries an identifier not already present |
| `TodoList.WithoutId` | src/App.tsx:43 | after a successful delete, no record carries `todoId`; a record is kept if and only if it was in the list with another identifier; the length drops by the number of records that carried `todoId` |
| `TodoList.CountIdZero` | src/App.tsx:43 | no record is dropped by a delete exactly when no record carries the identifier |
| `TodoList.WithoutIdConcat` | src/App.tsx:43 | the delete filter distributes over concatenation, so the kept records stay in their original relative order |
| `TodoList.WithoutIdAbsent` | src/App.tsx:43 | a delete of an identifier no record carries leaves the list unchanged |
| `TodoList.WithoutIdIdempotent` | src/App.tsx:43 | after a delete the identifier is gone, and deleting it again changes nothing |
| `TodoList.WithoutIdUniqueIds` | src/App.tsx:43 | a delete keeps identifiers unique |
| `TodoList.WithoutIdUndoesAppended` | src/App.tsx:33-45 | adding a record with a fresh identifier and then deleting that identifier gives back the original list |
| `TodoList.FirstIndexOf` | src/App.tsx:51-55 | returns the first index whose record carries the identifier, or none exactly when no record does |
| `TodoList.ReplacedFirstIds` | src/App.tsx:49-58 | a toggle keeps the length and the sequence of identifiers, so it keeps identifiers unique |
| `TodoList.ReplacedFirstIdempotent` | src/App.tsx:47-60 | toggling with the same record twice gives the same list as toggling once |
| `TodoList.ReplacedFirstUnique` | src/App.tsx:51-55 | when identifiers are unique, a toggle replaces the one record with the updated record's identifier and keeps every other record |
| `TodoApp.ToggledCopy` | src/App.tsx:48-59 | the loop over the copied array keeps the length; with no matching record it returns the input unchanged; otherwise it replaces exactly the first matching index, and every other index keeps its old record, including later records with the same identifier |
| `TodoApp.App.constructor` | src/App.tsx:14-16 | the initial state is an empty list, an empty error string and the `All` filter |
| `TodoApp.App.LoadTodos` | src/App.tsx:18-26 | the error is cleared first; on success the list becomes the fetched list and the error stays empty; on failure the list is kept and the error becomes "Unable to load todos" |
| `TodoApp.App.HandleNewTodo` | src/App.tsx:33-39 | on success the server's record is appended and the error is kept; on failure the list is kept and the error becomes `ErrorMessage.Add`; the filter never changes |
| `TodoApp.App.HandleDeleteTodo` | src/App.tsx:41-45 | on success every record carrying `todoId` is removed and the error is kept; on failure the list is kept and the error becomes `ErrorMessage.Delete`; unique identifiers stay unique |
| `TodoApp.App.ToggleTodoStatus` | src/App.tsx:47-60 | the list becomes the toggled copy with the same identifiers; error and filter are kept |
| `TodoApp.Mount` | src/App.tsx:14-26 | after mounting and the load effect, a failed load leaves the initial empty list with the "Unable to load todos" error; a successful one shows the fetched list with no error |

## Left out

- Rendering, the `USER_ID` guard and the child components `Header`, `TodoItem`, `Footer`, `Errors` and `UserWarning` (src/App.tsx:62-96) are UI. Their source is not part of this model. So the setters they receive (`setError` from `Header` and `Errors`, `setCurrentFilter` and `setTodos` from `Footer`) are not modelled as transitions.
- `getTodos`, `addTodos` and `deleteTodos` are network calls in a file that is not part of this model. Their outcome is a parameter of each handler. The record sent to `addTodos` does not reach the state, so `HandleNewTodo` takes only the server's reply.
- `filterTodos` and the `filtered` memo (src/App.tsx:28-31) are not modelled. The filter's source is not part of this model, and the members of `FilterBy` other than `All` are unknown; `FilterBy.Other` only stands for them.
- The text of `ErrorMessage.Add` and `ErrorMessage.Delete` is not part of this model. They are distinct enumeration members here.
- React hook mechanics are not modelled. Neither are overlapping requests. In the source, add and delete build their new list from the `todos` captured when the handler was created, not through a functional update. So two requests that overlap can lose an update. The model treats every transition as atomic and sequential, and it reads the current list.
- Identifiers are modelled as integers. In the source they are JavaScript numbers compared with `===` and `!==` (src/App.tsx:43, 52). Non-integer numbers such as NaN are not modelled; a NaN identifier would never match, so the delete filter would keep such a record and the toggle would skip it.
- Aliasing of the state array: the toggle updater takes the previous list as a value and writes into a fresh array, so it cannot alias the caller's list; JavaScript's in-place aliasing of the state array is not modelled.
