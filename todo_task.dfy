/** The refactored task-list controller of src/components/TodoTask.tsx.

    It differs from src/TodoApp.tsx in three ways kept here: toggle and save
    both go through `handleTodoUpdate`, which merges a patch into every task
    with the id and, on success, ends editing only if the updated id is the
    one the cursor held when the handler was created; there is no cancel
    operation and no `newTodo` cell; and its filter menu offers "done" and
    "undone", which the filter does not recognise. */
module TodoTask {
  import opened Results
  import opened Text
  import opened Tasks
  import opened CardInputBox
  import opened CardInput

  /** The fields `toggleTodo` sends: spread over any task, they make it the
      given task with `completed` negated. */
  function ToggleFields(t: Todo): (p: Patch)
    ensures forall u :: Merge(u, p) == Todo(t.id, t.title, !t.completed)
  {
    FullPatch(t.(completed := !t.completed))
  }

  /** The fields `saveEditing` sends: spread over any task, they make it the
      edited id with the new title and the given task's `completed`. */
  function RetitleFields(id: string, title: string, t: Todo): (p: Patch)
    ensures forall u :: Merge(u, p) == Todo(id, title, t.completed)
  {
    FullPatch(Todo(id, title, t.completed))
  }

  class Controller {
    var todos: seq<Todo>
    /** `""` means no task is being edited. */
    var editingTodoId: string
    var editingTodoTitle: string
    var filter: string

    /** The initial render, before the mount effect runs. */
    constructor ()
      ensures todos == [] && filter == "all"
      ensures editingTodoId == "" && editingTodoTitle == ""
    {
      todos := [];
      editingTodoId := "";
      editingTodoTitle := "";
      filter := "all";
    }

    /** Issue step of the mount effect: it asks for the whole list once and
        touches no state until the answer arrives. */
    method Mount() returns (req: Request)
      ensures req.FetchAll?
    {
      req := FetchAll;
    }

    /** The mount effect's completion: a response replaces the whole list; a
        failure is only logged. */
    method CompleteLoad(outcome: Outcome<seq<Todo>>)
      modifies this`todos
      ensures todos == if outcome.Success? then outcome.value else old(todos)
    {
      if outcome.Success? {
        todos := outcome.value;
      }
    }

    /** Issue step of `addTodo`: nothing for a blank title, otherwise a create
        request for a fresh incomplete task without an id. */
    method AddTodo(title: string) returns (req: Option<Request>)
      ensures req.None? <==> IsBlank(title)
      ensures req.Some? ==> req.value == Create(Todo("", title, false))
    {
      if IsBlank(title) {
        return None;
      }
      req := Some(Create(Todo("", title, false)));
    }

    /** Completion of `addTodo`: success appends the server's record to the
        captured list; failure changes nothing. */
    method CompleteAddTodo(snapshot: seq<Todo>, outcome: Outcome<Todo>)
      modifies this`todos
      ensures outcome.Success? ==> |todos| == |snapshot| + 1 && todos[..|snapshot|] == snapshot
      ensures outcome.Success? ==> todos[|snapshot|] == outcome.value
      ensures outcome.Failure? ==> todos == old(todos)
    {
      if outcome.Success? {
        todos := snapshot + [outcome.value];
      }
    }

    /** Issue step of `deleteTodoItem`: the request goes out at once, the
        list waits for the answer. */
    method DeleteTodoItem(id: string) returns (req: Request)
      ensures req.Delete? && req.id == id
    {
      req := Delete(id);
    }

    /** Completion of `deleteTodoItem`: on success the captured list without
        the tasks that carry this id; on failure nothing changes. */
    method CompleteDeleteTodoItem(snapshot: seq<Todo>, id: string, outcome: Outcome<()>)
      modifies this`todos
      ensures todos == if outcome.Success? then RemoveId(snapshot, id) else old(todos)
    {
      if outcome.Success? {
        todos := RemoveId(snapshot, id);
      }
    }

    /** Issue step of `handleTodoUpdate`: merge the fields into every task
        with this id at once and send them. */
    method HandleTodoUpdate(id: string, fields: Patch) returns (req: Request)
      modifies this`todos
      ensures todos == MergeWhere(old(todos), id, fields)
      ensures req == Update(id, fields)
    {
      todos := MergeWhere(todos, id, fields);
      req := Update(id, fields);
    }

    /** Completion of `handleTodoUpdate`. `editingAtIssue` is the cursor the
        callback captured. Success ends editing only when the updated id is
        that one; failure rolls nothing back. */
    method CompleteTodoUpdate(id: string, editingAtIssue: string, outcome: Outcome<Todo>)
      modifies this`editingTodoId, this`editingTodoTitle
      ensures outcome.Success? && id == editingAtIssue ==>
        editingTodoId == "" && editingTodoTitle == ""
      ensures outcome.Failure? || id != editingAtIssue ==>
        editingTodoId == old(editingTodoId) && editingTodoTitle == old(editingTodoTitle)
    {
      if outcome.Success? && id == editingAtIssue {
        editingTodoId := "";
        editingTodoTitle := "";
      }
    }

    /** `toggleTodo`: nothing if no task has the id; otherwise an update with
        the first such task's fields and `completed` negated. */
    method ToggleTodo(id: string) returns (req: Option<Request>)
      modifies this`todos
      ensures !HasId(old(todos), id) ==> todos == old(todos) && req.None?
      ensures HasId(old(todos), id) ==>
        var t := Find(old(todos), id).value;
        && todos == MergeWhere(old(todos), id, ToggleFields(t))
        && req == Some(Update(id, ToggleFields(t)))
    {
      var found := Find(todos, id);
      if found.Some? {
        var r := HandleTodoUpdate(id, ToggleFields(found.value));
        req := Some(r);
      } else {
        req := None;
      }
    }

    /** `saveEditing`: nothing for a blank buffer or when no task has the
        editing id; otherwise an update with the buffer as title and that
        task's `completed`. */
    method SaveEditing() returns (req: Option<Request>)
      modifies this`todos
      ensures IsBlank(editingTodoTitle) || !HasId(old(todos), editingTodoId) ==>
        todos == old(todos) && req.None?
      ensures !IsBlank(editingTodoTitle) && HasId(old(todos), editingTodoId) ==>
        var fields := RetitleFields(editingTodoId, editingTodoTitle, Find(old(todos), editingTodoId).value);
        && todos == MergeWhere(old(todos), editingTodoId, fields)
        && req == Some(Update(editingTodoId, fields))
    {
      if IsBlank(editingTodoTitle) {
        return None;
      }
      var found := Find(todos, editingTodoId);
      if found.Some? {
        var r := HandleTodoUpdate(editingTodoId, RetitleFields(editingTodoId, editingTodoTitle, found.value));
        req := Some(r);
      } else {
        req := None;
      }
    }

    /** `startEditing`: the cursor points at this task and holds its title. */
    method StartEditing(id: string, title: string)
      modifies this`editingTodoId, this`editingTodoTitle
      ensures editingTodoId == id && editingTodoTitle == title
    {
      editingTodoId := id;
      editingTodoTitle := title;
    }

    /** The edit box's change handler: the buffer takes the input's value. */
    method HandleEditChange(value: string)
      modifies this`editingTodoTitle
      ensures editingTodoTitle == value
    {
      editingTodoTitle := value;
    }

    /** A key press in the add box wired to `addTodo` (`onTitleAdded`):
        whatever the box hands over is never blank, so it always becomes a
        create request for exactly the trimmed buffer. */
    method KeyPressInAddBox(box: CardInput, key: string) returns (req: Option<Request>)
      modifies box
      ensures key == "Enter" && !IsBlank(old(box.title)) ==>
        req == Some(Create(Todo("", Trim(old(box.title)), false))) && box.title == ""
      ensures key != "Enter" || IsBlank(old(box.title)) ==>
        req.None? && box.title == old(box.title)
    {
      var emitted := box.HandleKeyPress(key);
      if emitted.Some? {
        SubmissionPassesAddGuard(old(box.title));
        req := AddTodo(emitted.value);
      } else {
        req := None;
      }
    }

    /** `handleFilterChange`: any string is stored as is. */
    method HandleFilterChange(selected: string)
      modifies this`filter
      ensures filter == selected
    {
      filter := selected;
    }
  }

  /** Toggle through `handleTodoUpdate` keeps the title of the found task and
      flips its `completed`; every task with the id becomes that record. */
  lemma ToggleFieldsFlip(todos: seq<Todo>, id: string, i: int)
    requires HasId(todos, id) && 0 <= i < |todos| && todos[i].id == id
    ensures
      var t := Find(todos, id).value;
      var r := MergeWhere(todos, id, ToggleFields(t));
      r[i].id == id && r[i].title == t.title && r[i].completed == !t.completed
  {
  }

  /** Save through `handleTodoUpdate` gives every task with the editing id the
      new title and the found task's `completed`, and touches no other task. */
  lemma RetitleFieldsSet(todos: seq<Todo>, id: string, title: string, i: int)
    requires HasId(todos, id) && 0 <= i < |todos|
    ensures
      var t := Find(todos, id).value;
      var r := MergeWhere(todos, id, RetitleFields(id, title, t));
      && |r| == |todos|
      && (todos[i].id == id ==> r[i] == Todo(id, title, t.completed))
      && (todos[i].id != id ==> r[i] == todos[i])
  {
  }

  predicate UniqueIds(todos: seq<Todo>) {
    forall i, j :: 0 <= i < j < |todos| ==> todos[i].id != todos[j].id
  }

  /** With unique ids the first task carrying an id is the only one. */
  lemma OnlyFirstMatch(todos: seq<Todo>, id: string, i: int)
    requires UniqueIds(todos) && 0 <= i < |todos| && todos[i].id == id
    ensures IndexOf(todos, id) == i
  {
  }

  /** With unique ids the two controllers toggle alike: merging the toggled
      record of the found task is flipping it where it stands. */
  lemma {:induction false} TwinTogglesAgree(todos: seq<Todo>, id: string)
    requires UniqueIds(todos) && HasId(todos, id)
    ensures MergeWhere(todos, id, ToggleFields(Find(todos, id).value)) == ToggleWhere(todos, id)
  {
    var k := IndexOf(todos, id);
    var merged, flipped := MergeWhere(todos, id, ToggleFields(todos[k])), ToggleWhere(todos, id);
    forall i | 0 <= i < |todos| ensures merged[i] == flipped[i] {
      if todos[i].id == id {
        OnlyFirstMatch(todos, id, i);
        assert merged[i] == Todo(id, todos[i].title, !todos[i].completed);
      }
    }
  }

  /** With unique ids the two controllers save alike. */
  lemma {:induction false} TwinSavesAgree(todos: seq<Todo>, id: string, title: string)
    requires UniqueIds(todos) && HasId(todos, id)
    ensures MergeWhere(todos, id, RetitleFields(id, title, Find(todos, id).value))
            == RetitleWhere(todos, id, title)
  {
    var k := IndexOf(todos, id);
    var merged, retitled := MergeWhere(todos, id, RetitleFields(id, title, todos[k])), RetitleWhere(todos, id, title);
    forall i | 0 <= i < |todos| ensures merged[i] == retitled[i] {
      if todos[i].id == id {
        OnlyFirstMatch(todos, id, i);
      }
    }
  }

  /** Without unique ids they part ways: this controller copies the first
      match over every match, src/TodoApp.tsx flips each match on its own. */
  lemma TwinTogglesDifferOnDuplicateIds()
    ensures
      var todos := [Todo("1", "A", false), Todo("1", "B", true)];
      MergeWhere(todos, "1", ToggleFields(Find(todos, "1").value))
        == [Todo("1", "A", true), Todo("1", "A", true)]
      && ToggleWhere(todos, "1") == [Todo("1", "A", true), Todo("1", "B", false)]
  {
    var todos := [Todo("1", "A", false), Todo("1", "B", true)];
    assert IndexOf(todos, "1") == 0;
    assert MergeWhere(todos, "1", ToggleFields(todos[0]))[1] == Todo("1", "A", true);
    assert ToggleWhere(todos, "1")[1] == Todo("1", "B", false);
  }

  /** The filter menu of this controller offers "all", "done" and "undone";
      the filter knows none of them, so every choice shows the whole list. */
  lemma MenuChoicesShowEverything(todos: seq<Todo>)
    ensures FilterTodos(todos, "all") == todos
    ensures FilterTodos(todos, "done") == todos
    ensures FilterTodos(todos, "undone") == todos
  {
  }
}
