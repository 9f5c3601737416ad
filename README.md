# Todo store model

A Dafny model of the client-side todo store of a React Native contact/todo
application (`context/TodoContext.tsx`). The store keeps two ordered lists of
`Todo` records (`{_id, title, description}`): `todos`, the main list, and
`exploreTodos`, a second list that `fetchTodos` seeds and `addToExplore`
appends to. Four operations overwrite them:

- `fetchTodos` replaces both lists with the server collection, or changes nothing when the request fails;
- `updateTodo` replaces, in `todos` only, every entry whose `_id` matches the given record;
- `addToExplore` appends a record to `exploreTodos` with no duplicate check;
- `deleteTodo` removes every entry with the given `_id` from both lists, but only once the server has confirmed the delete.

The module `TodoContext` (file `TodoContext.dfy`) holds:

- the `Todo` datatype;
- the outcomes of the two server calls (`FetchOutcome`, `DeleteOutcome`), which the caller passes in;
- the pure transforms the setters apply (`ReplaceById` for the map, `RemoveById` for the filter) and lemmas about them;
- a class `TodoStore` with the two lists as `seq<Todo>` fields, whose methods state each operation's new state;
- `EditAfterFetch`, which drives the store the way the detail screen's save does (`updateTodo` then `addToExplore`).

`updateTodo` never touches `exploreTodos` (context/TodoContext.tsx:37-41).
The detail screen's save calls `updateTodo` and then `addToExplore`
(app/todo/[id].tsx:68-69), so an older copy with the same id stays in
`exploreTodos` and the id appears twice. The model keeps this: `UpdateTodo`
promises `exploreTodos` unchanged and `EditAfterFetch` proves the duplicate.

## Model

| member | source | states |
|---|---|---|
| TodoContext.TodoStore.constructor | context/TodoContext.tsx:23-24 | both lists start empty |
| TodoContext.TodoStore.FetchTodos | context/TodoContext.tsx:26-35 | on success both `todos` and `exploreTodos` equal the server collection, in server order; on failure both are exactly as before |
| TodoContext.TodoStore.UpdateTodo | context/TodoContext.tsx:37-41 | `todos` keeps its length; each position whose id matches becomes the new record and every other position is unchanged; an absent id leaves `todos` unchanged; `exploreTodos` is untouched |
| TodoContext.TodoStore.AddToExplore | context/TodoContext.tsx:43-45 | `exploreTodos` is the old list plus the record at the end (one longer, no duplicate check); `todos` is untouched |
| TodoContext.TodoStore.DeleteTodo | context/TodoContext.tsx:47-57 | on a confirmed delete, no entry with the id remains in either list, and each list is a subsequence of its old value; a list without the id is unchanged; a failed delete changes nothing |
| TodoContext.ReplaceById | context/TodoContext.tsx:39 | the mapped list has the same length as the input |
| TodoContext.ReplaceByIdAt | context/TodoContext.tsx:39 | pointwise: position k of the result is the updated record if the id at k matches, else the old entry; this covers every match, not just the first |
| TodoContext.ReplaceByIdIdempotent | context/TodoContext.tsx:37-41 | applying the same update twice gives the same list as applying it once |
| TodoContext.ReplaceByIdAbsent | context/TodoContext.tsx:39 | an update whose id is in no entry leaves the list unchanged |
| TodoContext.RemoveById | context/TodoContext.tsx:52-53 | the filtered list is no longer than the input |
| TodoContext.RemoveByIdNoMatch | context/TodoContext.tsx:52-53 | no entry carrying the deleted id survives |
| TodoContext.RemoveByIdSubsequence | context/TodoContext.tsx:52-53 | the survivors keep their relative order: the result is a subsequence of the input |
| TodoContext.RemoveByIdCounts | context/TodoContext.tsx:52-53 | every copy of an entry with the id is dropped, and every copy of every other entry is kept |
| TodoContext.RemoveByIdAbsent | context/TodoContext.tsx:52-53 | deleting an id that is in no entry leaves the list unchanged |
| TodoContext.EditAfterFetch | context/TodoContext.tsx:37-45 | after fetching one record and saving an edit of it (update, then append to explore), `todos` holds only the edited record, while `exploreTodos` holds the stale record followed by the edited one: a duplicate id |

## Left out

- The HTTP requests (`GET /api/todos`, `DELETE /api/todos/:id`) are replaced by a `FetchOutcome` / `DeleteOutcome` argument. URLs and response parsing are not modelled.
- The `console.error` logging on failure is a diagnostic side channel only.
- React wiring is not modelled: the context object, the `TodoProvider` component and the `useTodos` hook with its "must be used within a TodoProvider" error.
- Asynchronous interleavings (a stale request resolving after a later one) are not modelled. Each operation is treated as atomic, and operations run one after another.
- The screens (login, register, profile, explore, todo detail) and the token storage are UI and I/O, and are not part of this model. The one exception is the update-then-append sequence of the detail screen's save, which `EditAfterFetch` models.
