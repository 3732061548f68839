/**
  The state of the `App` component and its four handlers. The outcome of
  each network request is a parameter of the transition that consumes it;
  every transition runs to completion before the next one starts.
 */
module TodoApp {
  import opened TodoList

  /** How a request to the task server ended: with a value, or rejected. */
  datatype Outcome<T> = Resolved(value: T) | Rejected

  /** The two members of the `ErrorMessage` enumeration the component
      uses. Their text is defined in a file that is not part of this model. */
  datatype ErrorMessage = Add | Delete

  /** What the error state holds: a plain string, or an `ErrorMessage` member. */
  datatype ErrorBanner = Text(text: string) | Message(message: ErrorMessage)

  const NoError: ErrorBanner := Text("")
  const UnableToLoad: ErrorBanner := Text("Unable to load todos")

  /** The current filter. Only `All` appears in this component; the other
      members are defined in a file that is not part of this model. */
  datatype FilterBy = All | Other(name: string)

  /** The updater that a toggle passes to `setTodos`: copy the list into a
      fresh array, walk it by index, overwrite the first record whose
      identifier matches `updatedTodo` and stop there. The input list is a
      value and the writes go to the copy, so the input is left as it was. */
  method ToggledCopy(prevTodos: seq<Todo>, updatedTodo: Todo) returns (copyTodos: seq<Todo>)
    ensures |copyTodos| == |prevTodos|
    ensures (forall i :: 0 <= i < |prevTodos| ==> prevTodos[i].id != updatedTodo.id)
              ==> copyTodos == prevTodos
    ensures forall k :: 0 <= k < |prevTodos| && prevTodos[k].id == updatedTodo.id &&
              (forall j :: 0 <= j < k ==> prevTodos[j].id != updatedTodo.id)
              ==> copyTodos == prevTodos[k := updatedTodo]
    ensures copyTodos == ReplacedFirst(prevTodos, updatedTodo)
  {
    var copy := new Todo[|prevTodos|](i requires 0 <= i < |prevTodos| => prevTodos[i]);
    var i := 0;
    while i < copy.Length
      invariant 0 <= i <= copy.Length
      invariant copy[..] == prevTodos
      invariant forall j :: 0 <= j < i ==> prevTodos[j].id != updatedTodo.id
    {
      if copy[i].id == updatedTodo.id {
        copy[i] := updatedTodo;
        break;
      }
      i := i + 1;
    }
    copyTodos := copy[..];
  }

  class App {
    var todos: seq<Todo>
    var error: ErrorBanner
    var currentFilter: FilterBy

    /** The initial state: no records, no error, every record shown. */
    constructor ()
      ensures todos == [] && error == NoError && currentFilter == All
    {
      todos := [];
      error := NoError;
      currentFilter := All;
    }

    /** The effect run once on mount: clear the error, then either take
        the fetched list or report that loading failed. */
    method LoadTodos(fetched: Outcome<seq<Todo>>)
      modifies this
      ensures todos == (if fetched.Resolved? then fetched.value else old(todos))
      ensures error == (if fetched.Resolved? then NoError else UnableToLoad)
      ensures currentFilter == old(currentFilter)
    {
      error := NoError;
      match fetched
      case Resolved(list) =>
        todos := list;
      case Rejected =>
        error := UnableToLoad;
    }

    /** `handleNewTodo`, once the add request has ended: append the record
        the server returned, or report that adding failed. */
    method HandleNewTodo(added: Outcome<Todo>)
      modifies this
      ensures added.Resolved? ==> todos == Appended(old(todos), added.value) && error == old(error)
      ensures added.Rejected? ==> todos == old(todos) && error == Message(Add)
      ensures currentFilter == old(currentFilter)
      ensures UniqueIds(old(todos)) && added.Resolved? ==>
                (UniqueIds(todos) <==> added.value.id !in Ids(old(todos)))
    {
      match added
      case Resolved(todoFromServer) =>
        if UniqueIds(todos) {
          AppendedUniqueIds(todos, todoFromServer);
        }
        todos := Appended(todos, todoFromServer);
      case Rejected =>
        error := Message(Add);
    }

    /** `handleDeleteTodo`, once the delete request has ended: drop every
        record carrying `todoId`, or report that deleting failed. */
    method HandleDeleteTodo(todoId: int, deleted: Outcome<()>)
      modifies this
      ensures deleted.Resolved? ==> todos == WithoutId(old(todos), todoId) && error == old(error)
      ensures deleted.Rejected? ==> todos == old(todos) && error == Message(Delete)
      ensures currentFilter == old(currentFilter)
      ensures todoId !in Ids(todos) || todos == old(todos)
      ensures UniqueIds(old(todos)) ==> UniqueIds(todos)
    {
      match deleted
      case Resolved(_) =>
        WithoutIdIdempotent(todos, todoId);
        if UniqueIds(todos) {
          WithoutIdUniqueIds(todos, todoId);
        }
        todos := WithoutId(todos, todoId);
      case Rejected =>
        error := Message(Delete);
    }

    /** `toggleTodoStatus`: put `updatedTodo` in place of the first record
        with its identifier. No request is made and the error is kept. */
    method ToggleTodoStatus(updatedTodo: Todo)
      modifies this
      ensures todos == ReplacedFirst(old(todos), updatedTodo)
      ensures Ids(todos) == Ids(old(todos))
      ensures UniqueIds(old(todos)) ==> UniqueIds(todos)
      ensures error == old(error) && currentFilter == old(currentFilter)
    {
      ReplacedFirstIds(todos, updatedTodo);
      todos := ToggledCopy(todos, updatedTodo);
    }
  }

  /** Mounting the component: the initial state followed by the load
      effect. A failed load leaves the list empty. */
  method Mount(fetched: Outcome<seq<Todo>>) returns (app: App)
    ensures fresh(app)
    ensures app.todos == (if fetched.Resolved? then fetched.value else [])
    ensures app.error == (if fetched.Resolved? then NoError else UnableToLoad)
    ensures app.currentFilter == All
  {
    app := new App();
    app.LoadTodos(fetched);
  }
}
