/**
  The task list held by the application, and the pure list operations its
  handlers build new lists with: appending the record the server returned,
  removing every record with a given identifier, and replacing the first
  record whose identifier matches an updated record.
 */
module TodoList {

  /** The fields of a task other than its identifier. The record type's
      own file is not part of this model, so these fields are assumed from
      the application's description of a task. No list operation reads
      them; they travel with the record unchanged. */
  datatype Details = Details(title: string, completed: bool, userId: int)

  /** A task record: an integer identifier and its payload. */
  datatype Todo = Todo(id: int, details: Details)

  datatype Option<T> = None | Some(value: T)

  /** The identifiers of the records, in list order. */
  function Ids(todos: seq<Todo>): seq<int>
  {
    seq(|todos|, i requires 0 <= i < |todos| => todos[i].id)
  }

  /** No two records share an identifier. */
  predicate UniqueIds(todos: seq<Todo>)
  {
    forall i, j :: 0 <= i < j < |todos| ==> todos[i].id != todos[j].id
  }

  /** How many records carry `id`. */
  function CountId(todos: seq<Todo>, id: int): nat
  {
    if todos == [] then 0
    else (if todos[0].id == id then 1 else 0) + CountId(todos[1..], id)
  }

  lemma {:induction false} CountIdZero(todos: seq<Todo>, id: int)
    ensures CountId(todos, id) == 0 <==> id !in Ids(todos)
  {
    if todos != [] {
      CountIdZero(todos[1..], id);
      assert Ids(todos) == [todos[0].id] + Ids(todos[1..]);
    }
  }

  // ---------------------------------------------------------------------
  // Add: `[...todos, todoFromServer]`
  // ---------------------------------------------------------------------

  /** The list after a successful add: the old list followed by the
      record the server returned. */
  function Appended(todos: seq<Todo>, todoFromServer: Todo): (r: seq<Todo>)
    ensures |r| == |todos| + 1
    ensures r[..|todos|] == todos && r[|todos|] == todoFromServer
  {
    todos + [todoFromServer]
  }

  /** An add keeps the identifiers unique exactly when the server's record
      carries an identifier not already in the list. */
  lemma AppendedUniqueIds(todos: seq<Todo>, todoFromServer: Todo)
    requires UniqueIds(todos)
    ensures UniqueIds(Appended(todos, todoFromServer)) <==> todoFromServer.id !in Ids(todos)
  {
    var r := Appended(todos, todoFromServer);
    if todoFromServer.id in Ids(todos) {
      var k :| 0 <= k < |todos| && Ids(todos)[k] == todoFromServer.id;
      assert r[k].id == r[|todos|].id;
    } else {
      assert forall i :: 0 <= i < |todos| ==> Ids(todos)[i] == todos[i].id;
    }
  }

  // ---------------------------------------------------------------------
  // Delete: `todos.filter(todo => todo.id !== todoId)`
  // ---------------------------------------------------------------------

  /** The list after a successful delete: the records whose identifier is
      not `todoId`, in their original order. */
  function WithoutId(todos: seq<Todo>, todoId: int): (r: seq<Todo>)
    ensures |r| == |todos| - CountId(todos, todoId)
    ensures forall t :: t in r <==> t in todos && t.id != todoId
  {
    if todos == [] then []
    else if todos[0].id == todoId then WithoutId(todos[1..], todoId)
    else [todos[0]] + WithoutId(todos[1..], todoId)
  }

  /** Filtering a concatenation filters each part and keeps them in order:
      the kept records stay in their original relative order. */
  lemma {:induction false} WithoutIdConcat(a: seq<Todo>, b: seq<Todo>, todoId: int)
    ensures WithoutId(a + b, todoId) == WithoutId(a, todoId) + WithoutId(b, todoId)
  {
    if a == [] {
      assert a + b == b;
    } else {
      var ab := a + b;
      assert ab[0] == a[0] && ab[1..] == a[1..] + b;
      WithoutIdConcat(a[1..], b, todoId);
      var tail := WithoutId(a[1..], todoId) + WithoutId(b, todoId);
      if a[0].id == todoId {
        assert WithoutId(ab, todoId) == tail;
      } else {
        assert WithoutId(ab, todoId) == [a[0]] + tail;
        assert WithoutId(a, todoId) == [a[0]] + WithoutId(a[1..], todoId);
      }
    }
  }

  /** Deleting an identifier no record carries changes nothing. */
  lemma {:induction false} WithoutIdAbsent(todos: seq<Todo>, todoId: int)
    requires todoId !in Ids(todos)
    ensures WithoutId(todos, todoId) == todos
  {
    if todos != [] {
      assert Ids(todos)[0] == todos[0].id;
      assert Ids(todos[1..]) == Ids(todos)[1..];
      WithoutIdAbsent(todos[1..], todoId);
    }
  }

  /** After a delete no record carries the deleted identifier, so a second
      delete of the same identifier changes nothing. */
  lemma WithoutIdIdempotent(todos: seq<Todo>, todoId: int)
    ensures todoId !in Ids(WithoutId(todos, todoId))
    ensures WithoutId(WithoutId(todos, todoId), todoId) == WithoutId(todos, todoId)
  {
  }

  /** A delete keeps the identifiers unique. */
  lemma {:induction false} WithoutIdUniqueIds(todos: seq<Todo>, todoId: int)
    requires UniqueIds(todos)
    ensures UniqueIds(WithoutId(todos, todoId))
  {
    if todos != [] {
      var rest := WithoutId(todos[1..], todoId);
      WithoutIdUniqueIds(todos[1..], todoId);
      if todos[0].id != todoId {
        var r := [todos[0]] + rest;
        forall i, j | 0 <= i < j < |r| ensures r[i].id != r[j].id {
          if i == 0 {
            assert r[j] in rest;
            var k :| 0 <= k < |todos[1..]| && todos[1..][k] == r[j];
            assert todos[k + 1] == r[j];
          } else {
            assert r[i] == rest[i - 1] && r[j] == rest[j - 1];
          }
        }
      }
    }
  }

  /** Adding a record with a fresh identifier and then deleting that
      identifier gives back the list as it was. */
  lemma WithoutIdUndoesAppended(todos: seq<Todo>, todoFromServer: Todo)
    requires todoFromServer.id !in Ids(todos)
    ensures WithoutId(Appended(todos, todoFromServer), todoFromServer.id) == todos
  {
    WithoutIdConcat(todos, [todoFromServer], todoFromServer.id);
    WithoutIdAbsent(todos, todoFromServer.id);
    assert WithoutId([todoFromServer], todoFromServer.id) == [];
  }

  // ---------------------------------------------------------------------
  // Toggle: replace the first record whose identifier matches
  // ---------------------------------------------------------------------

  /** The index of the first record carrying `id`, or None if none does. */
  function FirstIndexOf(todos: seq<Todo>, id: int): (r: Option<nat>)
    ensures r.None? ==> forall i :: 0 <= i < |todos| ==> todos[i].id != id
    ensures r.Some? ==> r.value < |todos| && todos[r.value].id == id
    ensures r.Some? ==> forall j :: 0 <= j < r.value ==> todos[j].id != id
  {
    if todos == [] then None
    else if todos[0].id == id then Some(0)
    else match FirstIndexOf(todos[1..], id)
      case None => None
      case Some(i) => Some(i + 1)
  }

  /** The list after a toggle: the first record whose identifier is that of
      `updatedTodo` is replaced by it; everything else stays. */
  function ReplacedFirst(todos: seq<Todo>, updatedTodo: Todo): seq<Todo>
  {
    match FirstIndexOf(todos, updatedTodo.id)
    case None => todos
    case Some(i) => todos[i := updatedTodo]
  }

  /** A toggle keeps the length and the sequence of identifiers, hence
      uniqueness of identifiers. */
  lemma ReplacedFirstIds(todos: seq<Todo>, updatedTodo: Todo)
    ensures |ReplacedFirst(todos, updatedTodo)| == |todos|
    ensures Ids(ReplacedFirst(todos, updatedTodo)) == Ids(todos)
    ensures UniqueIds(todos) ==> UniqueIds(ReplacedFirst(todos, updatedTodo))
  {
  }

  /** Toggling with the same record twice is the same as toggling once. */
  lemma ReplacedFirstIdempotent(todos: seq<Todo>, updatedTodo: Todo)
    ensures ReplacedFirst(ReplacedFirst(todos, updatedTodo), updatedTodo)
         == ReplacedFirst(todos, updatedTodo)
  {
    match FirstIndexOf(todos, updatedTodo.id)
    case None =>
    case Some(i) =>
      var r := todos[i := updatedTodo];
      var k := FirstIndexOf(r, updatedTodo.id);
      assert k == Some(i) by {
        assert r[i].id == updatedTodo.id;
        assert forall j :: 0 <= j < i ==> r[j] == todos[j];
      }
  }

  /** When identifiers are unique, a toggle replaces the one record with
      the updated record's identifier, if there is one. */
  lemma ReplacedFirstUnique(todos: seq<Todo>, updatedTodo: Todo)
    requires UniqueIds(todos)
    ensures |ReplacedFirst(todos, updatedTodo)| == |todos|
    ensures forall i :: 0 <= i < |todos| ==>
      ReplacedFirst(todos, updatedTodo)[i]
        == (if todos[i].id == updatedTodo.id then updatedTodo else todos[i])
  {
  }
}
