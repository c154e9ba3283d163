/** The task-list controller of src/TodoApp.tsx.

    Each `useState` cell is a field. Each asynchronous handler is split into
    an issue step (the guard, the optimistic list change, and the request it
    would send, returned as a `Request`) and a completion step that receives
    the request's `Outcome`. A completion callback sees the `todos` of the
    render that created it, so completion steps that write the list take that
    snapshot as a parameter rather than reading the current field. */
module TodoApp {
  import opened Results
  import opened Text
  import opened Tasks
  import opened CardInputBox

  class Controller {
    var todos: seq<Todo>
    var newTodo: string
    /** `""` means no task is being edited. */
    var editingTodoId: string
    var editingTodoTitle: string
    var filter: string

    /** The initial render, before the mount effect runs. */
    constructor ()
      ensures todos == [] && newTodo == "" && filter == "all"
      ensures editingTodoId == "" && editingTodoTitle == ""
    {
      todos := [];
      newTodo := "";
      editingTodoId := "";
      editingTodoTitle := "";
      filter := "all";
    }

    /** Issue step of the mount effect: it asks for the whole list once and
        touches no state until the answer arrives. */
    method Mount() returns (req: Request)
      ensures req.FetchAll?
    {
      req := FetchAll;
    }

    /** The mount effect's completion: a response replaces the whole list; a
        failure is only logged. */
    method CompleteLoad(outcome: Outcome<seq<Todo>>)
      modifies this`todos
      ensures todos == if outcome.Success? then outcome.value else old(todos)
    {
      if outcome.Success? {
        todos := outcome.value;
      }
    }

    /** Issue step of `addTodo`: nothing for a blank title, otherwise a create
        request for a fresh incomplete task without an id. The list is not
        touched before the server answers. */
    method AddTodo(title: string) returns (req: Option<Request>)
      ensures req.None? <==> IsBlank(title)
      ensures req.Some? ==> req.value == Create(Todo("", title, false))
    {
      if IsBlank(title) {
        return None;
      }
      req := Some(Create(Todo("", title, false)));
    }

    /** Completion of `addTodo`: on success the server's record is appended
        to the captured list and the (unused) `newTodo` cell is cleared; on
        failure nothing changes. */
    method CompleteAddTodo(snapshot: seq<Todo>, outcome: Outcome<Todo>)
      modifies this`todos, this`newTodo
      ensures outcome.Success? ==> todos == snapshot + [outcome.value] && newTodo == ""
      ensures outcome.Failure? ==> todos == old(todos) && newTodo == old(newTodo)
    {
      if outcome.Success? {
        todos := snapshot + [outcome.value];
        newTodo := "";
      }
    }

    /** `toggleTodo`: flips `completed` on every task with this id at once,
        then sends the first such task's id and title with its negated
        `completed`, if there is one. */
    method ToggleTodo(id: string) returns (req: Option<Request>)
      modifies this`todos
      ensures todos == ToggleWhere(old(todos), id)
      ensures req.Some? <==> HasId(old(todos), id)
      ensures req.Some? ==>
        var t := Find(old(todos), id).value;
        req.value == Update(id, FullPatch(Todo(id, t.title, !t.completed)))
    {
      var before := todos;
      todos := ToggleWhere(todos, id);
      var found := Find(before, id);
      if found.Some? {
        req := Some(Update(id, FullPatch(Todo(id, found.value.title, !found.value.completed))));
      } else {
        req := None;
      }
    }

    /** Completion of `toggleTodo`: neither outcome touches any state, so a
        failed update leaves the optimistic flip in place. */
    method CompleteToggleTodo(outcome: Outcome<Todo>)
      ensures unchanged(this)
    {
    }

    /** Issue step of `deleteTodoItem`: the delete request is sent at once and
        the list is left alone until the server answers. */
    method DeleteTodoItem(id: string) returns (req: Request)
      ensures req.Delete? && req.id == id
    {
      req := Delete(id);
    }

    /** Completion of `deleteTodoItem`: on success the captured list without
        the tasks that carry this id; on failure nothing changes. */
    method CompleteDeleteTodoItem(snapshot: seq<Todo>, id: string, outcome: Outcome<()>)
      modifies this`todos
      ensures todos == if outcome.Success? then RemoveId(snapshot, id) else old(todos)
    {
      if outcome.Success? {
        todos := RemoveId(snapshot, id);
      }
    }

    /** `startEditing`: the cursor points at this task and holds its title. */
    method StartEditing(id: string, title: string)
      modifies this`editingTodoId, this`editingTodoTitle
      ensures editingTodoId == id && editingTodoTitle == title
    {
      editingTodoId := id;
      editingTodoTitle := title;
    }

    /** `cancelEditing`: back to "not editing", no request. */
    method CancelEditing()
      modifies this`editingTodoId, this`editingTodoTitle
      ensures editingTodoId == "" && editingTodoTitle == ""
    {
      editingTodoId := "";
      editingTodoTitle := "";
    }

    /** The edit box's change handler: the buffer takes the input's value. */
    method HandleEditChange(value: string)
      modifies this`editingTodoTitle
      ensures editingTodoTitle == value
    {
      editingTodoTitle := value;
    }

    /** `saveEditing`: nothing for a blank buffer. Otherwise every task with
        the editing id gets the buffer as title at once, and if such a task
        existed an update with the buffer and that task's `completed` is sent.
        The cursor is left alone until the request succeeds. */
    method SaveEditing() returns (req: Option<Request>)
      modifies this`todos
      ensures IsBlank(editingTodoTitle) ==> todos == old(todos) && req.None?
      ensures !IsBlank(editingTodoTitle) ==>
        todos == RetitleWhere(old(todos), editingTodoId, editingTodoTitle)
      ensures req.Some? <==> !IsBlank(editingTodoTitle) && HasId(old(todos), editingTodoId)
      ensures req.Some? ==>
        var t := Find(old(todos), editingTodoId).value;
        req.value == Update(editingTodoId, FullPatch(Todo(editingTodoId, editingTodoTitle, t.completed)))
    {
      if IsBlank(editingTodoTitle) {
        return None;
      }
      var before := todos;
      todos := RetitleWhere(todos, editingTodoId, editingTodoTitle);
      var found := Find(before, editingTodoId);
      if found.Some? {
        req := Some(Update(editingTodoId, FullPatch(Todo(editingTodoId, editingTodoTitle, found.value.completed))));
      } else {
        req := None;
      }
    }

    /** Completion of `saveEditing`: success ends editing; failure leaves the
        cursor, the buffer and the optimistic title as they are. */
    method CompleteSaveEditing(outcome: Outcome<Todo>)
      modifies this`editingTodoId, this`editingTodoTitle
      ensures outcome.Success? ==> editingTodoId == "" && editingTodoTitle == ""
      ensures outcome.Failure? ==>
        editingTodoId == old(editingTodoId) && editingTodoTitle == old(editingTodoTitle)
    {
      if outcome.Success? {
        editingTodoId := "";
        editingTodoTitle := "";
      }
    }

    /** A key press in the add box wired to `addTodo` (`onTitleAdded`):
        whatever the box hands over is never blank, so it always becomes a
        create request for exactly the trimmed buffer. */
    method KeyPressInAddBox(box: CardInputBox, key: string) returns (req: Option<Request>)
      modifies box
      ensures key == "Enter" && !IsBlank(old(box.title)) ==>
        req == Some(Create(Todo("", Trim(old(box.title)), false))) && box.title == ""
      ensures key != "Enter" || IsBlank(old(box.title)) ==>
        req.None? && box.title == old(box.title)
    {
      var emitted := box.HandleKeyPress(key);
      if emitted.Some? {
        SubmissionPassesAddGuard(old(box.title));
        req := AddTodo(emitted.value);
      } else {
        req := None;
      }
    }

    /** `handleFilterChange`: any string is stored as is. */
    method HandleFilterChange(selected: string)
      modifies this`filter
      ensures filter == selected
    {
      filter := selected;
    }
  }
}
