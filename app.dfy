/**
 * The App component's state and event handlers: a sticky to-do list and a
 * sticky click counter sharing one storage. Each handler is one user event
 * run to completion: the state change and the save effect it triggers.
 */
module TodoApp {
  import opened Wrappers
  import opened LocalStorage
  import opened StickyState
  import opened Todos

  const TodosKey: string := "ma-super-to-do-list"
  const CountKey: string := "count-save"

  class App {
    const storage: Storage
    const todos: Sticky<seq<TodoItem>>
    const count: Sticky<int>

    /** Both hooks save into the same storage, each under its own key. */
    ghost predicate Valid()
      reads this, storage, todos, count
    {
      && todos.storage == storage && count.storage == storage
      && todos.key == TodosKey && count.key == CountKey
      && todos.Valid() && count.Valid()
    }

    /** The first render of the component and its first save effects. */
    constructor (storage: Storage, todosCodec: Codec<seq<TodoItem>>, countCodec: Codec<int>)
      modifies storage
      ensures Valid() && this.storage == storage && fresh(todos) && fresh(count)
      ensures todos.codec == todosCodec && count.codec == countCodec
      ensures todos.state == InitialState(old(storage.GetItem(TodosKey)), todosCodec, DefaultTodos)
      ensures count.state == InitialState(old(storage.GetItem(CountKey)), countCodec, 0)
      ensures storage.items == old(storage.items)[TodosKey := todosCodec.encode(todos.state)]
                                                 [CountKey := countCodec.encode(count.state)]
    {
      this.storage := storage;
      var t := new Sticky(storage, TodosKey, DefaultTodos, todosCodec);
      var c := new Sticky(storage, CountKey, 0, countCodec);
      todos := t;
      count := c;
    }

    /** The form action: append the submitted text under the clock reading `now`. */
    method OnFormAction(text: string, now: int)
      requires Valid()
      modifies todos, storage
      ensures Valid()
      ensures todos.state == Append(old(todos.state), now, text)
      ensures count.state == old(count.state)
      ensures UniqueIds(old(todos.state)) && !HasId(old(todos.state), now) ==> UniqueIds(todos.state)
      ensures storage.items == old(storage.items)[TodosKey := todos.codec.encode(todos.state)]
    {
      if UniqueIds(todos.state) && !HasId(todos.state, now) {
        AppendPreservesUnique(todos.state, now, text);
      }
      todos.SetState(Replace(Append(todos.state, now, text)));
    }

    /** The delete button of a row, passing an updater. */
    method DeleteTodo(id: int)
      requires Valid()
      modifies todos, storage
      ensures Valid()
      ensures todos.state == Delete(old(todos.state), id)
      ensures UniqueIds(old(todos.state)) ==> UniqueIds(todos.state)
      ensures count.state == old(count.state)
      ensures storage.items == old(storage.items)[TodosKey := todos.codec.encode(todos.state)]
    {
      if UniqueIds(todos.state) {
        DeletePreservesUnique(todos.state, id);
      }
      todos.SetState(Update(prev => Delete(prev, id)));
    }

    /** `updateTodoChecked(id, newTodo)`: merge the patch into the items with that id. */
    method UpdateTodoChecked(id: int, patch: TodoPatch)
      requires Valid()
      modifies todos, storage
      ensures Valid()
      ensures todos.state == PatchById(old(todos.state), id, patch)
      ensures UniqueIds(old(todos.state)) && patch.id.None? ==> UniqueIds(todos.state)
      ensures count.state == old(count.state)
      ensures storage.items == old(storage.items)[TodosKey := todos.codec.encode(todos.state)]
    {
      if UniqueIds(todos.state) && patch.id.None? {
        PatchPreservesUnique(todos.state, id, patch);
      }
      todos.SetState(Replace(PatchById(todos.state, id, patch)));
    }

    /** The checkbox of the row showing `todo`. */
    method OnCheckboxChange(todo: TodoItem)
      requires Valid()
      modifies todos, storage
      ensures Valid()
      ensures todos.state == Toggle(old(todos.state), todo)
      ensures UniqueIds(old(todos.state)) ==> UniqueIds(todos.state)
      ensures count.state == old(count.state)
      ensures storage.items == old(storage.items)[TodosKey := todos.codec.encode(todos.state)]
    {
      UpdateTodoChecked(todo.id, CheckedPatch(!todo.checked));
    }

    /** The click handler of the Add button: `setCount(count + 1)`. */
    method OnAddClick()
      requires Valid()
      modifies count, storage
      ensures Valid()
      ensures count.state == old(count.state) + 1
      ensures todos.state == old(todos.state)
      ensures storage.items == old(storage.items)[CountKey := count.codec.encode(count.state)]
    {
      count.SetState(Replace(count.state + 1));
    }

    /** A submit click: the button's click handler, then the form action. */
    method Submit(text: string, now: int)
      requires Valid()
      modifies todos, count, storage
      ensures Valid()
      ensures count.state == old(count.state) + 1
      ensures todos.state == Append(old(todos.state), now, text)
      ensures storage.items == old(storage.items)[CountKey := count.codec.encode(count.state)]
                                                 [TodosKey := todos.codec.encode(todos.state)]
    {
      OnAddClick();
      OnFormAction(text, now);
    }

    /**
     * A page reload: a new component over the same storage starts from the
     * states saved by this one and writes back the same text.
     */
    method Reload() returns (next: App)
      requires Valid() && RoundTrips(todos.codec) && RoundTrips(count.codec)
      modifies storage
      ensures next.Valid() && next.storage == storage
      ensures next.todos.state == old(todos.state) && next.count.state == old(count.state)
      ensures storage.items == old(storage.items)
    {
      todos.ReloadGivesState(DefaultTodos);
      count.ReloadGivesState(0);
      next := new App(storage, todos.codec, count.codec);
    }
  }

  /**
   * A first visit with empty storage: the seed list and a count of 0; then
   * a submit of "Buy milk" at clock reading `now`, unchecking item 2 and
   * deleting item 1.
   */
  method SeedScenario(todosCodec: Codec<seq<TodoItem>>, countCodec: Codec<int>, now: int)
    returns (app: App)
    requires now != 1 && now != 2
    ensures app.Valid()
    ensures app.count.state == 1
    ensures app.todos.state == [TodoItem(2, "Learn Tailwind", false), TodoItem(now, "Buy milk", false)]
  {
    var storage := new Storage(map[]);
    app := new App(storage, todosCodec, countCodec);
    assert app.todos.state == DefaultTodos && app.count.state == 0;
    app.Submit("Buy milk", now);
    app.UpdateTodoChecked(2, CheckedPatch(false));
    app.DeleteTodo(1);
    SeedSession(now);
  }
}
