/** The to-do page: a list of tasks, an input for a new one, and per-row
    toggle and delete buttons. Every write goes to the store first; only
    after it succeeds is the local list brought up to date. */
module Todos {

  import opened Options
  import opened Text
  import Store
  import Rows

  /** A row of the to-do table. */
  datatype TodoItem = TodoItem(id: int, createdAt: string, task: string, isCompleted: bool)

  /** The row `handleAddTask` inserts. */
  datatype NewTodo = NewTodo(task: string, isCompleted: bool)

  function TodoId(t: TodoItem): int {
    t.id
  }

  /** The list after a successful toggle: `isCompleted` becomes `status`
      on the rows with the id. */
  function WithCompleted(ts: seq<TodoItem>, id: int, status: bool): (r: seq<TodoItem>)
    ensures |r| == |ts|
    ensures forall i :: 0 <= i < |ts| && ts[i].id == id ==> r[i] == ts[i].(isCompleted := status)
    ensures forall i :: 0 <= i < |ts| && ts[i].id != id ==> r[i] == ts[i]
  {
    Rows.Update(ts, TodoId, id, (t: TodoItem) => t.(isCompleted := status))
  }

  /** The list after a successful delete of `id`. */
  function WithoutTodo(ts: seq<TodoItem>, id: int): (r: seq<TodoItem>)
    ensures forall t :: t in r ==> t in ts && t.id != id
    ensures forall t :: t in ts && t.id != id ==> t in r
  {
    Rows.WithoutMembers(ts, TodoId, id);
    Rows.Without(ts, TodoId, id)
  }

  /** Toggling a row twice, from its current status and back, restores the
      list. */
  lemma ToggleTwiceRestores(ts: seq<TodoItem>, id: int, current: bool)
    requires forall i :: 0 <= i < |ts| && ts[i].id == id ==> ts[i].isCompleted == current
    ensures WithCompleted(WithCompleted(ts, id, !current), id, current) == ts
  {
    var once := WithCompleted(ts, id, !current);
    assert forall i :: 0 <= i < |ts| ==> once[i].id == ts[i].id;
    var twice := WithCompleted(once, id, current);
    assert forall i :: 0 <= i < |ts| ==> twice[i] == ts[i];
  }

  /** A toggle changes no id, no task and no creation time, and only the
      status of the rows with the id. */
  lemma ToggleTouchesOnlyStatus(ts: seq<TodoItem>, id: int, status: bool)
    ensures var r := WithCompleted(ts, id, status);
      forall i :: 0 <= i < |ts| ==>
        && r[i].id == ts[i].id && r[i].task == ts[i].task && r[i].createdAt == ts[i].createdAt
        && r[i].isCompleted == (if ts[i].id == id then status else ts[i].isCompleted)
  {
  }

  /** Deleting keeps the order of the rest. */
  lemma DeleteKeepsOrder(xs: seq<TodoItem>, ys: seq<TodoItem>, id: int)
    ensures WithoutTodo(xs + ys, id) == WithoutTodo(xs, id) + WithoutTodo(ys, id)
  {
    Rows.WithoutAppend(xs, ys, TodoId, id);
  }

  /** Deleting an id that no row has changes nothing. */
  lemma DeleteAbsent(ts: seq<TodoItem>, id: int)
    requires forall i :: 0 <= i < |ts| ==> ts[i].id != id
    ensures WithoutTodo(ts, id) == ts
  {
    Rows.WithoutAbsent(ts, TodoId, id);
  }

  /** The message under the input. */
  datatype AddError = TaskEmpty | AddFailed(message: string)   // "Task cannot be empty." / "Failed to add task: …"

  /** The call a handler makes to the store. */
  datatype TodoCall = NoCall | InsertTodo(row: NewTodo) | UpdateCompleted(id: int, isCompleted: bool) | DeleteTodo(id: int)

  class TodoListPage {
    var newTaskText: string
    var isAdding: bool
    var addError: Option<AddError>
    var todos: seq<TodoItem>
    var isLoadingTodos: bool
    var fetchTodosError: Option<string>
    var updatingTodoId: Option<int>
    var deletingTodoId: Option<int>

    /** The page before its first fetch. */
    constructor ()
      ensures newTaskText == "" && !isAdding && addError == None && todos == []
      ensures isLoadingTodos && fetchTodosError == None
      ensures updatingTodoId == None && deletingTodoId == None
    {
      newTaskText, isAdding, addError, todos := "", false, None, [];
      isLoadingTodos, fetchTodosError := true, None;
      updatingTodoId, deletingTodoId := None, None;
    }

    /** `fetchTodos`: an error is reported and keeps the list; rows replace
        the list. */
    method FetchTodos(answer: Store.Fetch<TodoItem>)
      modifies this`isLoadingTodos, this`fetchTodosError, this`todos
      ensures !isLoadingTodos
      ensures fetchTodosError == (if answer.FetchFailed? then Some(answer.message) else None)
      ensures todos == (if answer.Rows? then answer.rows else old(todos))
    {
      isLoadingTodos := true;
      fetchTodosError := None;
      match answer {
        case FetchFailed(message) =>
          fetchTodosError := Some(message);
        case Rows(rows) =>
          todos := rows;
        case NoData =>
      }
      isLoadingTodos := false;
    }

    method HandleInputChange(text: string)
      modifies this`newTaskText
      ensures newTaskText == text
    {
      newTaskText := text;
    }

    /** `handleAddTask`: `insert` answers the insert, `refetch` the reload
        that follows a successful one. A task that reaches the store is
        trimmed, so it neither starts nor ends with white space. */
    method HandleAddTask(insert: Store.Outcome, refetch: Store.Fetch<TodoItem>) returns (call: TodoCall)
      modifies this`isAdding, this`addError, this`newTaskText, this`isLoadingTodos, this`fetchTodosError, this`todos
      ensures IsBlank(old(newTaskText)) ==>
        call == NoCall && addError == Some(TaskEmpty) && isAdding == old(isAdding)
        && newTaskText == old(newTaskText) && todos == old(todos)
        && isLoadingTodos == old(isLoadingTodos) && fetchTodosError == old(fetchTodosError)
      ensures !IsBlank(old(newTaskText)) ==>
        call == InsertTodo(NewTodo(Trim(old(newTaskText)), false)) && !isAdding
      ensures !IsBlank(old(newTaskText)) && insert.Failed? ==>
        addError == Some(AddFailed(insert.message)) && newTaskText == old(newTaskText) && todos == old(todos)
        && isLoadingTodos == old(isLoadingTodos) && fetchTodosError == old(fetchTodosError)
      ensures !IsBlank(old(newTaskText)) && insert.Succeeded? ==>
        addError == None && newTaskText == "" && !isLoadingTodos
        && fetchTodosError == (if refetch.FetchFailed? then Some(refetch.message) else None)
        && todos == (if refetch.Rows? then refetch.rows else old(todos))
    {
      var task := Trim(newTaskText);
      if task == [] {
        addError := Some(TaskEmpty);
        return NoCall;
      }
      isAdding := true;
      addError := None;
      call := InsertTodo(NewTodo(task, false));
      isAdding := false;
      match insert {
        case Failed(message) =>
          addError := Some(AddFailed(message));
        case Succeeded =>
          newTaskText := "";
          FetchTodos(refetch);
      }
    }

    /** `handleToggleComplete`: ignored while the row is being updated or
        deleted. The new status is the negation of the one the row showed
        when it was clicked; `alert` is the message of a failed update. */
    method HandleToggleComplete(id: int, currentStatus: bool, answer: Store.Outcome)
      returns (call: TodoCall, alert: Option<string>)
      modifies this`updatingTodoId, this`todos
      ensures old(updatingTodoId) == Some(id) || old(deletingTodoId) == Some(id) ==>
        call == NoCall && alert == None && unchanged(this)
      ensures old(updatingTodoId) != Some(id) && old(deletingTodoId) != Some(id) ==>
        && call == UpdateCompleted(id, !currentStatus) && updatingTodoId == None
        && alert == (if answer.Failed? then Some(answer.message) else None)
        && todos == (if answer.Succeeded? then WithCompleted(old(todos), id, !currentStatus) else old(todos))
    {
      alert := None;
      if updatingTodoId == Some(id) || deletingTodoId == Some(id) {
        return NoCall, None;
      }
      updatingTodoId := Some(id);
      call := UpdateCompleted(id, !currentStatus);
      updatingTodoId := None;
      match answer {
        case Failed(message) =>
          alert := Some(message);
        case Succeeded =>
          todos := WithCompleted(todos, id, !currentStatus);
      }
    }

    /** `handleDeleteTodo`: ignored while the row is being deleted or
        updated; `confirmed` is the answer to the prompt and `alert` the
        message of a failed delete. */
    method HandleDeleteTodo(id: int, confirmed: bool, answer: Store.Outcome)
      returns (call: TodoCall, alert: Option<string>)
      modifies this`deletingTodoId, this`todos
      ensures old(deletingTodoId) == Some(id) || old(updatingTodoId) == Some(id) || !confirmed ==>
        call == NoCall && alert == None && unchanged(this)
      ensures old(deletingTodoId) != Some(id) && old(updatingTodoId) != Some(id) && confirmed ==>
        && call == DeleteTodo(id) && deletingTodoId == None
        && alert == (if answer.Failed? then Some(answer.message) else None)
        && todos == (if answer.Succeeded? then WithoutTodo(old(todos), id) else old(todos))
    {
      if deletingTodoId == Some(id) || updatingTodoId == Some(id) || !confirmed {
        return NoCall, None;
      }
      deletingTodoId := Some(id);
      call := DeleteTodo(id);
      deletingTodoId := None;
      alert := None;
      match answer {
        case Failed(message) =>
          alert := Some(message);
        case Succeeded =>
          todos := WithoutTodo(todos, id);
      }
    }
  }

}
