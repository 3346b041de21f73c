/**
 * Model of the reducers of examples/ch06/todos/todos.js. Each reducer maps the
 * application state and a payload to a new state; none mutates its input.
 */
module Todos {
  import opened Arrays

  /** The `edit` record: the todo being edited, its text as typed so far, and its index. */
  datatype Edit = Edit(original: Nullable<string>, edited: Nullable<string>, index: Nullable<int>)

  datatype TodoState = TodoState(todos: seq<string>, currentTodo: string, edit: Edit)

  /** `{ index: null, original: null, edited: null }`. */
  const NoEdit: Edit := Edit(Null, Null, Null)

  /** The initial state of the application. */
  const InitialState: TodoState := TodoState(["Walk the dog", "Water the plants"], "", NoEdit)

  /** `todos[index]`: `undefined` outside the list. */
  function TodoAt(todos: seq<string>, index: int): (r: Nullable<string>)
    ensures r.Defined? <==> 0 <= index < |todos|
    ensures r.Defined? ==> r.value == todos[index]
  {
    if 0 <= index < |todos| then Defined(todos[index]) else Undefined
  }

  /** `update-current-todo`: only `currentTodo` changes, to the typed text. */
  function UpdateCurrentTodo(state: TodoState, currentTodo: string): (r: TodoState)
    ensures r.currentTodo == currentTodo
    ensures r.todos == state.todos && r.edit == state.edit
  {
    state.(currentTodo := currentTodo)
  }

  /** `add-todo`: the current text is appended as the last todo and the input is cleared. */
  function AddTodo(state: TodoState): (r: TodoState)
    ensures |r.todos| == |state.todos| + 1
    ensures r.todos[..|state.todos|] == state.todos && r.todos[|state.todos|] == state.currentTodo
    ensures r.currentTodo == "" && r.edit == state.edit
  {
    var r := state.(todos := state.todos + [state.currentTodo], currentTodo := "");
    assert r.todos[..|state.todos|] == state.todos;
    r
  }

  /** `start-editing-todo`: the edit record names the index and holds that todo twice. */
  function StartEditingTodo(state: TodoState, index: int): (r: TodoState)
    ensures r.edit.index == Defined(index)
    ensures r.edit.original == r.edit.edited == TodoAt(state.todos, index)
    ensures r.todos == state.todos && r.currentTodo == state.currentTodo
  {
    state.(edit := Edit(TodoAt(state.todos, index), TodoAt(state.todos, index), Defined(index)))
  }

  /** `edit-todo`: only the edited text changes. */
  function EditTodo(state: TodoState, edited: string): (r: TodoState)
    ensures r.edit.edited == Defined(edited)
    ensures r.edit.original == state.edit.original && r.edit.index == state.edit.index
    ensures r.todos == state.todos && r.currentTodo == state.currentTodo
  {
    state.(edit := state.edit.(edited := Defined(edited)))
  }

  /**
   * The saves the model covers: without an index (`null` or `undefined`), or
   * with a negative one, the assignment `todos[index] = edited` sets a
   * property that is not a list element; an index inside the list or just
   * past its end needs a text to write.
   */
  predicate SaveCovered(edit: Edit, length: nat)
  {
    match edit.index
    case Defined(i) => i < 0 || (i <= length && edit.edited.Defined?)
    case _ => true
  }

  /** `const todos = [...state.todos]; todos[state.edit.index] = state.edit.edited` on the copy. */
  function SavedTodos(todos: seq<string>, edit: Edit): seq<string>
    requires SaveCovered(edit, |todos|)
  {
    match edit.index
    case Defined(i) =>
      if i < 0 then todos
      else if i < |todos| then todos[i := edit.edited.value]
      else todos + [edit.edited.value]
    case _ => todos
  }

  /**
   * `save-edited-todo`: the edited text replaces the todo at the edit index,
   * every other todo stays where it was, and the edit record is reset.
   */
  function SaveEditedTodo(state: TodoState): (r: TodoState)
    requires SaveCovered(state.edit, |state.todos|)
    ensures r.edit == NoEdit && r.currentTodo == state.currentTodo
    ensures state.edit.index.Defined? && 0 <= state.edit.index.value < |state.todos| ==>
      && |r.todos| == |state.todos|
      && r.todos[state.edit.index.value] == state.edit.edited.value
      && forall k | 0 <= k < |state.todos| && k != state.edit.index.value :: r.todos[k] == state.todos[k]
    ensures state.edit.index.Defined? && state.edit.index.value == |state.todos| ==>
      r.todos == state.todos + [state.edit.edited.value]
    ensures !state.edit.index.Defined? || state.edit.index.value < 0 ==> r.todos == state.todos
  {
    TodoState(SavedTodos(state.todos, state.edit), state.currentTodo, NoEdit)
  }

  /** `cancel-editing-todo`: the edit record is reset and the todos are as they were. */
  function CancelEditingTodo(state: TodoState): (r: TodoState)
    ensures r.edit == NoEdit
    ensures r.todos == state.todos && r.currentTodo == state.currentTodo
  {
    state.(edit := NoEdit)
  }

  /** `todos.filter((_todo, idx) => idx !== index)`, with `offset` the index of `todos[0]`. */
  function FilterIndex(todos: seq<string>, index: int, offset: int): seq<string>
  {
    if todos == [] then []
    else (if offset == index then [] else [todos[0]]) + FilterIndex(todos[1..], index, offset + 1)
  }

  /** `remove-todo`. */
  function RemoveTodo(state: TodoState, index: int): (r: TodoState)
    ensures r.currentTodo == state.currentTodo && r.edit == state.edit
  {
    state.(todos := FilterIndex(state.todos, index, 0))
  }

  /** Filtering by an index that no element has keeps every element. */
  lemma {:induction false} FilterIndexOutside(todos: seq<string>, index: int, offset: int)
    requires index < offset || index >= offset + |todos|
    ensures FilterIndex(todos, index, offset) == todos
  {
    if todos != [] {
      FilterIndexOutside(todos[1..], index, offset + 1);
    }
  }

  /** Filtering by the index of element `i` drops that element and nothing else. */
  lemma {:induction false} FilterIndexDrops(todos: seq<string>, i: nat, offset: int)
    requires i < |todos|
    ensures FilterIndex(todos, offset + i, offset) == todos[..i] + todos[i + 1..]
  {
    if i == 0 {
      FilterIndexOutside(todos[1..], offset, offset + 1);
    } else {
      FilterIndexDrops(todos[1..], i - 1, offset + 1);
      assert todos[..i] + todos[i + 1..] == [todos[0]] + (todos[1..][..i - 1] + todos[1..][i..]);
    }
  }

  /**
   * `remove-todo` drops exactly the todo at the index and keeps the others in
   * order; an index outside the list leaves the list as it was.
   */
  lemma RemoveTodoEffect(state: TodoState, index: int)
    ensures 0 <= index < |state.todos| ==>
      RemoveTodo(state, index).todos == state.todos[..index] + state.todos[index + 1..]
    ensures !(0 <= index < |state.todos|) ==> RemoveTodo(state, index).todos == state.todos
  {
    if 0 <= index < |state.todos| {
      FilterIndexDrops(state.todos, index, 0);
    } else {
      FilterIndexOutside(state.todos, index, 0);
    }
  }

  /** Adding a todo and then removing the last one restores the list. */
  lemma AddThenRemove(state: TodoState)
    ensures RemoveTodo(AddTodo(state), |state.todos|).todos == state.todos
  {
    RemoveTodoEffect(AddTodo(state), |state.todos|);
    assert (state.todos + [state.currentTodo])[..|state.todos|] == state.todos;
  }

  /** Starting to edit, typing a text and saving replaces exactly that todo with the text. */
  lemma EditRoundTrip(state: TodoState, index: nat, text: string)
    requires index < |state.todos|
    ensures SaveEditedTodo(EditTodo(StartEditingTodo(state, index), text))
         == TodoState(state.todos[index := text], state.currentTodo, NoEdit)
  {
  }

  /** Starting to edit and saving without typing leaves the list as it was. */
  lemma StartThenSave(state: TodoState, index: nat)
    requires index < |state.todos|
    ensures SaveEditedTodo(StartEditingTodo(state, index)) == state.(edit := NoEdit)
  {
    assert state.todos[index := state.todos[index]] == state.todos;
  }

  /** Starting to edit and cancelling only resets the edit record. */
  lemma StartThenCancel(state: TodoState, index: int)
    ensures CancelEditingTodo(StartEditingTodo(state, index)) == state.(edit := NoEdit)
  {
  }
}
