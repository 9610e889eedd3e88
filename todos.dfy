/**
 * The to-do list operations of the App component, as values: a list is a
 * sequence of items in display order, and every operation returns the next
 * list. Appending models the form action, deleting models `filter`, and
 * patching models `map` with an object spread `{...todo, ...patch}`.
 */
module Todos {
  import opened Wrappers

  datatype TodoItem = TodoItem(id: int, text: string, checked: bool)

  /** A partial item: the fields an object spread would overwrite. */
  datatype TodoPatch = TodoPatch(id: Option<int>, text: Option<string>, checked: Option<bool>)

  /** The list shown on a first visit, when nothing usable is stored. */
  const DefaultTodos: seq<TodoItem> :=
    [TodoItem(1, "Learn React", false), TodoItem(2, "Learn Tailwind", true)]

  /** The patch the checkbox of a row sends: only `checked` is set. */
  function CheckedPatch(checked: bool): (p: TodoPatch) {
    TodoPatch(None, None, Some(checked))
  }

  // ---------------------------------------------------------------------
  // Identifiers

  /** The ids of the list, in list order. */
  function Ids(todos: seq<TodoItem>): (r: seq<int>)
    ensures |r| == |todos|
    ensures forall i :: 0 <= i < |todos| ==> r[i] == todos[i].id
  {
    if todos == [] then [] else [todos[0].id] + Ids(todos[1..])
  }

  predicate HasId(todos: seq<TodoItem>, id: int) {
    exists t :: t in todos && t.id == id
  }

  /** No two items of the list share an id. */
  predicate UniqueIds(todos: seq<TodoItem>) {
    forall i, j :: 0 <= i < j < |todos| ==> todos[i].id != todos[j].id
  }

  /** `sub` is `s` with some elements dropped and the rest in their original order. */
  predicate IsSubsequence(sub: seq<TodoItem>, s: seq<TodoItem>)
    decreases |s|
  {
    if sub == [] then true
    else if s == [] then false
    else if sub[0] == s[0] then IsSubsequence(sub[1..], s[1..])
    else IsSubsequence(sub, s[1..])
  }

  // ---------------------------------------------------------------------
  // Append: `[...todos, {id: Date.now(), text: todo, checked: false}]`

  /** The list after submitting `text`; `id` stands for the clock reading. */
  function Append(todos: seq<TodoItem>, id: int, text: string): (r: seq<TodoItem>)
    ensures |r| == |todos| + 1
    ensures r[..|todos|] == todos
    ensures r[|todos|] == TodoItem(id, text, false)
  {
    todos + [TodoItem(id, text, false)]
  }

  /** Two submissions in a row keep both new items, in submission order. */
  lemma AppendTwiceKeepsBoth(todos: seq<TodoItem>, id1: int, text1: string, id2: int, text2: string)
    ensures Append(Append(todos, id1, text1), id2, text2)
         == todos + [TodoItem(id1, text1, false), TodoItem(id2, text2, false)]
  {
  }

  /** Appending an item whose id is not yet used keeps the ids unique. */
  lemma AppendPreservesUnique(todos: seq<TodoItem>, id: int, text: string)
    requires UniqueIds(todos)
    ensures UniqueIds(Append(todos, id, text)) <==> !HasId(todos, id)
  {
    var r := Append(todos, id, text);
    if !HasId(todos, id) {
      forall i, j | 0 <= i < j < |r| ensures r[i].id != r[j].id {
        if j == |todos| {
          assert r[i] == todos[i];
        } else {
          assert r[i] == todos[i] && r[j] == todos[j];
        }
      }
    } else {
      var t :| t in todos && t.id == id;
      var k :| 0 <= k < |todos| && todos[k] == t;
      assert r[k] == t && r[|todos|].id == id;
    }
  }

  // ---------------------------------------------------------------------
  // Delete: `prevTodos.filter((todo) => todo.id !== id)`

  /** The list without the items whose id is `id`. */
  function Delete(todos: seq<TodoItem>, id: int): (r: seq<TodoItem>)
    ensures |r| <= |todos|
    ensures forall i :: 0 <= i < |r| ==> r[i].id != id
  {
    if todos == [] then []
    else (if todos[0].id == id then [] else [todos[0]]) + Delete(todos[1..], id)
  }

  /** An item survives deletion exactly when it was there and has another id. */
  lemma {:induction false} DeleteMembership(todos: seq<TodoItem>, id: int, t: TodoItem)
    ensures t in Delete(todos, id) <==> t in todos && t.id != id
  {
    if todos != [] {
      DeleteMembership(todos[1..], id, t);
      assert todos == [todos[0]] + todos[1..];
    }
  }

  /** Deleting an id that no item carries leaves the list unchanged. */
  lemma {:induction false} DeleteAbsent(todos: seq<TodoItem>, id: int)
    requires !HasId(todos, id)
    ensures Delete(todos, id) == todos
  {
    if todos != [] {
      assert todos[0] in todos;
      assert !HasId(todos[1..], id) by {
        forall t | t in todos[1..] ensures t.id != id { assert t in todos; }
      }
      DeleteAbsent(todos[1..], id);
      assert todos == [todos[0]] + todos[1..];
    }
  }

  /** Deletion acts on each part of a list separately, so relative order is kept. */
  lemma {:induction false} DeleteDistributes(a: seq<TodoItem>, b: seq<TodoItem>, id: int)
    ensures Delete(a + b, id) == Delete(a, id) + Delete(b, id)
  {
    if a == [] {
      assert a + b == b;
    } else {
      assert (a + b)[0] == a[0];
      assert (a + b)[1..] == a[1..] + b;
      DeleteDistributes(a[1..], b, id);
    }
  }

  /** The surviving items are the original ones, in their original relative order. */
  lemma {:induction false} DeleteIsSubsequence(todos: seq<TodoItem>, id: int)
    ensures IsSubsequence(Delete(todos, id), todos)
  {
    if todos != [] {
      DeleteIsSubsequence(todos[1..], id);
      if todos[0].id != id {
        var r := Delete(todos, id);
        assert r == [todos[0]] + Delete(todos[1..], id);
        assert r[0] == todos[0] && r[1..] == Delete(todos[1..], id);
      } else {
        var r := Delete(todos, id);
        assert r == Delete(todos[1..], id);
        if r != [] {
          SubsequenceDropHead(r, todos);
        }
      }
    }
  }

  /** Dropping the head of `s` when `sub` already fits its tail. */
  lemma SubsequenceDropHead(sub: seq<TodoItem>, s: seq<TodoItem>)
    requires s != [] && IsSubsequence(sub, s[1..])
    ensures IsSubsequence(sub, s)
    decreases |s|, 1
  {
    if sub != [] && sub[0] == s[0] {
      SubsequenceTail(sub, s[1..]);
    }
  }

  /** A subsequence minus its head is still a subsequence. */
  lemma SubsequenceTail(sub: seq<TodoItem>, s: seq<TodoItem>)
    requires sub != [] && IsSubsequence(sub, s)
    ensures IsSubsequence(sub[1..], s)
    decreases |s| + 1, 0
  {
    assert s != [];
    if sub[0] == s[0] {
      if sub[1..] != [] {
        SubsequenceTail(sub[1..], s[1..]);
        SubsequenceDropHead(sub[1..], s);
      }
    } else {
      SubsequenceTail(sub, s[1..]);
      if sub[1..] != [] {
        SubsequenceDropHead(sub[1..], s);
      }
    }
  }

  /** Deleting twice is deleting once. */
  lemma DeleteIdempotent(todos: seq<TodoItem>, id: int)
    ensures Delete(Delete(todos, id), id) == Delete(todos, id)
  {
    assert !HasId(Delete(todos, id), id);
    DeleteAbsent(Delete(todos, id), id);
  }

  /** Deletion keeps the ids unique. */
  lemma {:induction false} DeletePreservesUnique(todos: seq<TodoItem>, id: int)
    requires UniqueIds(todos)
    ensures UniqueIds(Delete(todos, id))
  {
    if todos != [] {
      var tail := todos[1..];
      assert UniqueIds(tail) by {
        forall i, j | 0 <= i < j < |tail| ensures tail[i].id != tail[j].id {
          assert tail[i] == todos[i + 1] && tail[j] == todos[j + 1];
        }
      }
      DeletePreservesUnique(tail, id);
      if todos[0].id != id {
        var r := Delete(todos, id);
        var rest := Delete(tail, id);
        assert r == [todos[0]] + rest;
        forall i, j | 0 <= i < j < |r| ensures r[i].id != r[j].id {
          if i == 0 {
            assert r[j] == rest[j - 1] && r[j] in rest;
            DeleteMembership(tail, id, r[j]);
            var k :| 0 <= k < |tail| && tail[k] == r[j];
            assert todos[k + 1] == r[j];
          } else {
            assert r[i] == rest[i - 1] && r[j] == rest[j - 1];
          }
        }
      }
    }
  }

  /** Deleting an item just added under a fresh id gives back the earlier list. */
  lemma DeleteUndoesAppend(todos: seq<TodoItem>, id: int, text: string)
    requires !HasId(todos, id)
    ensures Delete(Append(todos, id, text), id) == todos
  {
    DeleteDistributes(todos, [TodoItem(id, text, false)], id);
    DeleteAbsent(todos, id);
    assert Delete([TodoItem(id, text, false)], id) == [];
  }

  // ---------------------------------------------------------------------
  // Patch: `todos.map((todo) => todo.id === id ? {...todo, ...newTodo} : todo)`

  /** `{...item, ...patch}`: the fields the patch sets, the item's fields otherwise. */
  function Merge(item: TodoItem, patch: TodoPatch): (r: TodoItem) {
    TodoItem(patch.id.GetOr(item.id), patch.text.GetOr(item.text), patch.checked.GetOr(item.checked))
  }

  /** `{...p, ...q}` on two patches: a field of `q` wins over the same field of `p`. */
  function Combine(p: TodoPatch, q: TodoPatch): (r: TodoPatch) {
    TodoPatch(if q.id.Some? then q.id else p.id,
              if q.text.Some? then q.text else p.text,
              if q.checked.Some? then q.checked else p.checked)
  }

  /** Spreading two patches one after the other is spreading their combination. */
  lemma MergeCombine(item: TodoItem, p: TodoPatch, q: TodoPatch)
    ensures Merge(Merge(item, p), q) == Merge(item, Combine(p, q))
  {
  }

  /** The list with every item whose id is `id` merged with `patch`. */
  function PatchById(todos: seq<TodoItem>, id: int, patch: TodoPatch): (r: seq<TodoItem>)
    ensures |r| == |todos|
  {
    if todos == [] then []
    else [if todos[0].id == id then Merge(todos[0], patch) else todos[0]]
         + PatchById(todos[1..], id, patch)
  }

  /**
   * Position by position: an item with id `id` takes every field the patch
   * sets and keeps the others; any other item is left as it was.
   */
  lemma {:induction false} PatchAt(todos: seq<TodoItem>, id: int, patch: TodoPatch, i: int)
    requires 0 <= i < |todos|
    ensures var r := PatchById(todos, id, patch)[i];
      if todos[i].id == id then
        && r.id == (if patch.id.Some? then patch.id.value else todos[i].id)
        && r.text == (if patch.text.Some? then patch.text.value else todos[i].text)
        && r.checked == (if patch.checked.Some? then patch.checked.value else todos[i].checked)
      else r == todos[i]
  {
    if i > 0 {
      PatchAt(todos[1..], id, patch, i - 1);
    }
  }

  /** Patching an id that no item carries leaves the list unchanged. */
  lemma PatchAbsent(todos: seq<TodoItem>, id: int, patch: TodoPatch)
    requires !HasId(todos, id)
    ensures PatchById(todos, id, patch) == todos
  {
    forall i | 0 <= i < |todos| ensures PatchById(todos, id, patch)[i] == todos[i] {
      assert todos[i] in todos;
      PatchAt(todos, id, patch, i);
    }
  }

  /** A patch that does not set `id` leaves every id where it was. */
  lemma PatchKeepsIds(todos: seq<TodoItem>, id: int, patch: TodoPatch)
    requires patch.id.None?
    ensures Ids(PatchById(todos, id, patch)) == Ids(todos)
  {
    forall i | 0 <= i < |todos| ensures PatchById(todos, id, patch)[i].id == todos[i].id {
      PatchAt(todos, id, patch, i);
    }
  }

  /** A patch that does not set `id` keeps the ids unique. */
  lemma PatchPreservesUnique(todos: seq<TodoItem>, id: int, patch: TodoPatch)
    requires patch.id.None? && UniqueIds(todos)
    ensures UniqueIds(PatchById(todos, id, patch))
  {
    PatchKeepsIds(todos, id, patch);
    var r := PatchById(todos, id, patch);
    forall i, j | 0 <= i < j < |r| ensures r[i].id != r[j].id {
      assert Ids(r)[i] == Ids(todos)[i] && Ids(r)[j] == Ids(todos)[j];
    }
  }

  /** Two patches of the same id in a row act as their combination, when the first keeps the id. */
  lemma PatchTwice(todos: seq<TodoItem>, id: int, p: TodoPatch, q: TodoPatch)
    requires p.id.None? || p.id == Some(id)
    ensures PatchById(PatchById(todos, id, p), id, q) == PatchById(todos, id, Combine(p, q))
  {
    var once := PatchById(todos, id, p);
    forall i | 0 <= i < |todos|
      ensures PatchById(once, id, q)[i] == PatchById(todos, id, Combine(p, q))[i]
    {
      PatchAt(todos, id, p, i);
      PatchAt(once, id, q, i);
      PatchAt(todos, id, Combine(p, q), i);
    }
  }

  // ---------------------------------------------------------------------
  // Checkbox: `updateTodoChecked(todo.id, {checked: !todo.checked})`

  /** The list after the checkbox of the row showing `todo` is clicked. */
  function Toggle(todos: seq<TodoItem>, todo: TodoItem): (r: seq<TodoItem>) {
    PatchById(todos, todo.id, CheckedPatch(!todo.checked))
  }

  /** The row's item as shown after its checkbox is clicked. */
  function Flipped(todo: TodoItem): (r: TodoItem) {
    todo.(checked := !todo.checked)
  }

  /**
   * Clicking a row's checkbox twice (the second time on the row as redrawn)
   * restores the list, provided ids are unique.
   */
  lemma ToggleTwice(todos: seq<TodoItem>, k: int)
    requires UniqueIds(todos) && 0 <= k < |todos|
    ensures Toggle(todos, todos[k])[k] == Flipped(todos[k])
    ensures Toggle(Toggle(todos, todos[k]), Flipped(todos[k])) == todos
  {
    var t := todos[k];
    var once := Toggle(todos, t);
    PatchAt(todos, t.id, CheckedPatch(!t.checked), k);
    forall i | 0 <= i < |todos| ensures Toggle(once, Flipped(t))[i] == todos[i] {
      PatchAt(todos, t.id, CheckedPatch(!t.checked), i);
      PatchAt(once, t.id, CheckedPatch(t.checked), i);
      if todos[i].id == t.id {
        assert i == k;
      }
    }
  }

  /** Without unique ids a double click need not restore the list. */
  lemma ToggleTwiceNeedsUniqueIds()
    ensures var todos := [TodoItem(7, "a", false), TodoItem(7, "b", true)];
      Toggle(Toggle(todos, todos[0]), Flipped(todos[0])) != todos
  {
    var todos := [TodoItem(7, "a", false), TodoItem(7, "b", true)];
    var once := Toggle(todos, todos[0]);
    PatchAt(todos, 7, CheckedPatch(true), 1);
    PatchAt(once, 7, CheckedPatch(false), 1);
    assert Toggle(once, Flipped(todos[0]))[1].checked == false;
  }

  // ---------------------------------------------------------------------
  // A session from the seed list

  /**
   * From the seed list: add "Buy milk" under the clock reading `now`, uncheck
   * item 2, delete item 1. Items 2 and the new one remain, in that order,
   * item 2 unchecked.
   */
  lemma SeedSession(now: int)
    requires now != 1 && now != 2
    ensures var added := Append(DefaultTodos, now, "Buy milk");
      && |added| == 3 && added[2] == TodoItem(now, "Buy milk", false)
      && PatchById(added, 2, CheckedPatch(false))
         == [TodoItem(1, "Learn React", false), TodoItem(2, "Learn Tailwind", false), TodoItem(now, "Buy milk", false)]
      && Delete(PatchById(added, 2, CheckedPatch(false)), 1)
         == [TodoItem(2, "Learn Tailwind", false), TodoItem(now, "Buy milk", false)]
  {
    var added := Append(DefaultTodos, now, "Buy milk");
    var patched := PatchById(added, 2, CheckedPatch(false));
    PatchAt(added, 2, CheckedPatch(false), 0);
    PatchAt(added, 2, CheckedPatch(false), 1);
    PatchAt(added, 2, CheckedPatch(false), 2);
    assert patched == [TodoItem(1, "Learn React", false), TodoItem(2, "Learn Tailwind", false), TodoItem(now, "Buy milk", false)];
    assert patched == [patched[0]] + [patched[1], patched[2]];
    DeleteDistributes([patched[0]], [patched[1], patched[2]], 1);
    assert !HasId([patched[1], patched[2]], 1);
    DeleteAbsent([patched[1], patched[2]], 1);
  }
}
