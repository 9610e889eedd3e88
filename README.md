# To-do list with persisted state — Dafny model

The application is a single React component (`src/App.jsx`): a to-do list
whose items can be added, checked and deleted, plus a counter of clicks on
the Add button. Both pieces of state survive a page reload because the
`useStickyState` hook mirrors them into the browser's `localStorage`.

This project models the two pieces of logic in that component:

- **The sticky state hook** (`useStickyState` with
  `getDefaultLocalStorageValue`). The first render reads the slot at the
  hook's key. An absent slot, an empty text or a text that `JSON.parse`
  rejects gives `null`; otherwise the decoded value is used. The caller's
  default then replaces only `null` (`??`, so a stored `0` or `false`
  stays). The save effect writes `JSON.stringify(state)` back after the
  first render and after every change. Modules: `LocalStorage` (class
  `Storage`, a `map<string, string>` of slots) and `StickyState` (class
  `Sticky`, the hook's state plus its key, codec and shared storage).
- **The list operations** (module `Todos`): append at the end with
  `checked = false`, delete by id (`filter`), patch by id (`map` with an
  object spread), and the checkbox toggle built on the patch. They are pure
  functions over `seq<TodoItem>`; class `TodoApp.App` runs them as the
  component's event handlers: each one sets the new state and performs the save
  effect.

JSON is abstract: a `Codec<T>` is a pair of total functions, `encode`
for `JSON.stringify` and `decode` for `JSON.parse`. `decode` returns
`None` where `JSON.parse` throws, `Some(Null)` for the text `null`, and
`Some(Value(v))` otherwise. The round trip is not assumed anywhere. It is
the predicate `RoundTrips`, which the reload lemmas take as a precondition:
every value encodes to non-empty text that decodes back to it. The text
must be non-empty because the loader treats an empty slot as absent. The
clock (`Date.now()`) becomes the `now` parameter of the form action.

## Model

| member | source | states |
|---|---|---|
| `LocalStorage.Storage.SetItem` | src/App.jsx:21 | after the write, reading the key gives the written text, and reading any other key gives what it gave before |
| `StickyState.InitialStateCases` | src/App.jsx:3-17 | about `LoadStored` (the loader) and `InitialState` (its result `?? default`): the first render uses the default when the slot is absent, empty, undecodable or `null`, and the decoded value in every other case, so a decoded `0` or `false` is kept |
| `StickyState.ReloadRestores` | src/App.jsx:3-22 | about `InitialState`: under the round-trip assumption, a slot holding the encoding of a value loads as that value whatever the default |
| `StickyState.Sticky.constructor` | src/App.jsx:16-22 | the state starts as the loaded value or the default, and the first save effect leaves the encoded state in the key's slot, with other slots unchanged |
| `StickyState.Sticky.SetState` | src/App.jsx:19-22 | about `Next`: a value given to the setter becomes the state, an updater is applied to the current state; the key's slot then holds the new state's encoding, with other slots unchanged |
| `StickyState.Sticky.ReloadGivesState` | src/App.jsx:17-21 | while the slot is in sync, loading it again gives back the current state |
| `Todos.Append` | src/App.jsx:39-45 | the list grows by one; the earlier items keep their values and order; the last item is the given id and text, unchecked |
| `Todos.AppendTwiceKeepsBoth` | src/App.jsx:39-45 | two submissions in a row keep both new items, in order, after the earlier ones |
| `Todos.AppendPreservesUnique` | src/App.jsx:39-45 | appending keeps ids unique exactly when the new id is not already in the list |
| `Todos.Delete` | src/App.jsx:49 | the result is no longer than the list, and none of its items has the deleted id |
| `Todos.DeleteMembership` | src/App.jsx:49 | an item is in the result exactly when it was in the list and has another id |
| `Todos.DeleteAbsent` | src/App.jsx:49 | deleting an id that no item carries leaves the list unchanged |
| `Todos.DeleteDistributes` | src/App.jsx:49 | deleting from a concatenation deletes from each part, so the kept items stay in their relative order |
| `Todos.DeleteIsSubsequence` | src/App.jsx:49 | the result is the list with some items dropped and the rest in their original order |
| `Todos.DeleteIdempotent` | src/App.jsx:49 | deleting the same id again changes nothing |
| `Todos.DeletePreservesUnique` | src/App.jsx:49 | deleting keeps the ids unique |
| `Todos.DeleteUndoesAppend` | src/App.jsx:39-49 | deleting an item just added under a fresh id gives back the earlier list |
| `Todos.MergeCombine` | src/App.jsx:55-58 | about `Merge` (the spread) and `Combine`: spreading one patch and then another equals spreading their combination, where the later patch wins |
| `Todos.PatchById` | src/App.jsx:53-61 | patching keeps the length of the list |
| `Todos.PatchAt` | src/App.jsx:53-61 | about `PatchById` and `Merge`: an item with the patched id takes every field the patch sets and keeps the rest; any other item is unchanged |
| `Todos.PatchAbsent` | src/App.jsx:53-61 | patching an id that no item carries leaves the list unchanged |
| `Todos.PatchKeepsIds` | src/App.jsx:53-61 | a patch that does not set `id` leaves the list's ids unchanged, position by position |
| `Todos.PatchPreservesUnique` | src/App.jsx:53-61 | a patch that does not set `id` keeps the ids unique |
| `Todos.PatchTwice` | src/App.jsx:53-61 | two patches of one id (the first not moving the id) act as one combined patch |
| `Todos.ToggleTwice` | src/App.jsx:80-84 | about `Toggle` (the checkbox's list change): with unique ids, one click flips that row's item, and a second click on the redrawn row restores the list |
| `Todos.ToggleTwiceNeedsUniqueIds` | src/App.jsx:80-84 | with two items sharing an id, two clicks on one row do not restore the list |
| `Todos.SeedSession` | src/App.jsx:30-33 | from the seed list, adding under any clock reading other than 1 or 2, unchecking item 2 and deleting item 1 leaves item 2 and the new item, in that order |
| `TodoApp.App.constructor` | src/App.jsx:30-35 | both states start from their slots or the defaults (the two seed items, and 0), and both slots then hold the encoded states |
| `TodoApp.App.OnFormAction` | src/App.jsx:37-46 | the list becomes the appended list, the counter is unchanged, the list's slot holds the new encoding, and ids stay unique when the new id is unused |
| `TodoApp.App.DeleteTodo` | src/App.jsx:48-50 | the list loses the items with that id, ids stay unique, the counter is unchanged, and the list's slot is rewritten |
| `TodoApp.App.UpdateTodoChecked` | src/App.jsx:52-62 | the list becomes the patched list, ids stay unique when the patch does not set `id`, the counter is unchanged, and the list's slot is rewritten |
| `TodoApp.App.OnCheckboxChange` | src/App.jsx:80-84 | a checkbox click patches that row's id with the negated `checked`, keeping ids unique |
| `TodoApp.App.OnAddClick` | src/App.jsx:72 | the counter rises by exactly one, the list is unchanged, and the counter's slot is rewritten |
| `TodoApp.App.Submit` | src/App.jsx:67-76 | one submit raises the counter by one and appends one item, and both slots are rewritten |
| `TodoApp.App.Reload` | src/App.jsx:16-35 | under the round-trip assumption, a new component over the same storage starts with the same list and counter, and the storage ends as it was |
| `TodoApp.SeedScenario` | src/App.jsx:30-84 | from empty storage, a submit, unchecking item 2 and deleting item 1 through the handlers leave the counter at 1 and the list as item 2 unchecked followed by the new item |

## Left out

- Rendering, CSS classes and the wiring of DOM and form events (src/App.jsx:64-91) are UI. Of the wiring, the model keeps only which handler each control calls.
- React's scheduling, batching and re-render timing are not modelled. Each handler runs to completion and saves at once. So the model cannot show the stale snapshot that `setTodos([...todos, …])` and `setTodos(todos.map(…))` could read when two events arrive before a re-render. Value arguments and updater arguments are kept apart (`Replace` and `Update`), and in this model both act on the current state.
- `JSON.parse`, `JSON.stringify` and the browser's `localStorage` are foreign code. The model uses an abstract codec and an in-memory map. If stored text parses to a value of the wrong shape (say a number in the list's slot), the source keeps it and would fail later when it renders. The model's typed `decode` has no such value.
- React also skips the re-render and the save when a new state equals the old one. The model always saves. The slot's content is the same either way.
- `Date.now()` is the `now` parameter. No claim is made that ids increase or are unique, because nothing in the code ensures it. Uniqueness appears only as a hypothesis of the lemmas that need it.
- JavaScript numbers are doubles. Ids and the counter are unbounded integers here, so precision loss past 2^53 is not modelled.
- `console.log` (src/App.jsx:20) is diagnostic output.
- `formData.get("todo")` is taken to be the input's text, which may be empty. The source appends an empty item too, and so does the model.
