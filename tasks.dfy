/** The task record, the list transforms both controllers apply to their
    task list (`filter`, and `map` over matching ids), the filtered view and
    the completed count. The controllers append a new task inline. */
module Tasks {
  import opened Results

  /** A to-do item. The server assigns `id`; nothing in the client keeps ids
      unique, so every operation below acts on every task whose id matches. */
  datatype Todo = Todo(id: string, title: string, completed: bool)

  /** A partial task record sent with an update. Fields it carries overwrite
      the task's own when it is spread over a task. */
  datatype Patch = Patch(id: Option<string>, title: Option<string>, completed: Option<bool>)

  /** The requests the controllers hand to the task store client. */
  datatype Request =
    | FetchAll
    | Create(todo: Todo)
    | Update(id: string, fields: Patch)
    | Delete(id: string)

  /** The patch carrying every field of `t`. */
  function FullPatch(t: Todo): Patch {
    Patch(Some(t.id), Some(t.title), Some(t.completed))
  }

  /** Spreading a patch over a task: every field the patch carries wins,
      every field it leaves out is the task's own. */
  function Merge(t: Todo, p: Patch): (r: Todo)
    ensures r.id == (if p.id.Some? then p.id.value else t.id)
    ensures r.title == (if p.title.Some? then p.title.value else t.title)
    ensures r.completed == (if p.completed.Some? then p.completed.value else t.completed)
  {
    Todo(
      if p.id.Some? then p.id.value else t.id,
      if p.title.Some? then p.title.value else t.title,
      if p.completed.Some? then p.completed.value else t.completed)
  }

  /** Spreading the same patch again changes nothing more. */
  lemma MergeIdempotent(t: Todo, p: Patch)
    ensures Merge(Merge(t, p), p) == Merge(t, p)
  {
  }

  /** A patch that names every field replaces the task outright. */
  lemma MergeFull(t: Todo, u: Todo)
    ensures Merge(t, FullPatch(u)) == u
  {
  }

  // ---------------------------------------------------------------------
  // Looking a task up by id: the first task that carries it

  predicate HasId(todos: seq<Todo>, id: string) {
    exists i :: 0 <= i < |todos| && todos[i].id == id
  }

  /** Position of the first task with this id, or `|todos|` if there is none. */
  function IndexOf(todos: seq<Todo>, id: string): (k: nat)
    ensures k <= |todos|
    ensures forall j :: 0 <= j < k ==> todos[j].id != id
    ensures k < |todos| ==> todos[k].id == id
  {
    if todos == [] then 0
    else if todos[0].id == id then 0
    else 1 + IndexOf(todos[1..], id)
  }

  /** The first task with this id, if any. */
  function Find(todos: seq<Todo>, id: string): (r: Option<Todo>)
    ensures r.Some? <==> HasId(todos, id)
    ensures r.Some? ==> r.value.id == id && r.value in todos
    ensures r.Some? ==> r.value == todos[IndexOf(todos, id)]
  {
    var k := IndexOf(todos, id);
    if k < |todos| then Some(todos[k]) else None
  }

  // ---------------------------------------------------------------------
  // Order-preserving selection: `Array.prototype.filter`

  /** `a` is `b` with some elements left out, the rest in the same order. */
  ghost predicate SubseqOf<T>(a: seq<T>, b: seq<T>)
    decreases |b|
  {
    a == [] || (b != [] && ((a[0] == b[0] && SubseqOf(a[1..], b[1..])) || SubseqOf(a, b[1..])))
  }

  lemma {:induction false} SubseqRefl<T>(a: seq<T>)
    ensures SubseqOf(a, a)
    decreases |a|
  {
    if a != [] {
      SubseqRefl(a[1..]);
    }
  }

  lemma {:induction false} SubseqShorter<T>(a: seq<T>, b: seq<T>)
    requires SubseqOf(a, b)
    ensures |a| <= |b|
    decreases |b|
  {
    if a != [] {
      if a[0] == b[0] && SubseqOf(a[1..], b[1..]) {
        SubseqShorter(a[1..], b[1..]);
      } else {
        SubseqShorter(a, b[1..]);
      }
    }
  }

  /** A subsequence as long as the sequence is the sequence itself. */
  lemma {:induction false} SubseqSameLength<T>(a: seq<T>, b: seq<T>)
    requires SubseqOf(a, b) && |a| == |b|
    ensures a == b
    decreases |b|
  {
    if a != [] {
      if a[0] == b[0] && SubseqOf(a[1..], b[1..]) {
        SubseqSameLength(a[1..], b[1..]);
        assert a == [a[0]] + a[1..];
        assert b == [b[0]] + b[1..];
      } else {
        SubseqShorter(a, b[1..]);
      }
    }
  }

  /** The elements of `s` that satisfy `keep`, in their original order. */
  function Filter<T(==,!new)>(s: seq<T>, keep: T -> bool): (r: seq<T>)
    ensures |r| <= |s|
    ensures SubseqOf(r, s)
    ensures forall x :: multiset(r)[x] == if keep(x) then multiset(s)[x] else 0
  {
    if s == [] then []
    else
      assert s == [s[0]] + s[1..];
      assert multiset(s) == multiset{s[0]} + multiset(s[1..]);
      var rest := Filter(s[1..], keep);
      if keep(s[0]) then
        assert ([s[0]] + rest)[1..] == rest;
        assert multiset([s[0]] + rest) == multiset{s[0]} + multiset(rest);
        [s[0]] + rest
      else
        rest
  }

  /** `filter` drops nothing exactly when every element passes. */
  lemma {:induction false} FilterKeepsAll<T(!new)>(s: seq<T>, keep: T -> bool)
    ensures |Filter(s, keep)| == |s| <==> forall i :: 0 <= i < |s| ==> keep(s[i])
  {
    if s != [] {
      var rest := Filter(s[1..], keep);
      FilterKeepsAll(s[1..], keep);
      assert |Filter(s, keep)| == if keep(s[0]) then 1 + |rest| else |rest|;
      assert forall i :: 1 <= i < |s| ==> s[i] == s[1..][i - 1];
    }
  }

  /** Membership in a filtered list, read off its element counts. */
  lemma FilterMember<T(!new)>(s: seq<T>, keep: T -> bool, x: T)
    ensures x in Filter(s, keep) <==> x in s && keep(x)
  {
    assert x in Filter(s, keep) <==> multiset(Filter(s, keep))[x] > 0;
    assert x in s <==> multiset(s)[x] > 0;
  }

  predicate IsDone(t: Todo) { t.completed }
  predicate IsPending(t: Todo) { !t.completed }

  /** The filtered view (src/TodoApp.tsx, src/components/TodoTask.tsx):
      "completed" and "incomplete" select, in order; every other string,
      including "all", shows the whole list. */
  function FilterTodos(todos: seq<Todo>, filter: string): (r: seq<Todo>)
    ensures SubseqOf(r, todos)
    ensures filter == "completed" ==>
      forall t :: multiset(r)[t] == if t.completed then multiset(todos)[t] else 0
    ensures filter == "incomplete" ==>
      forall t :: multiset(r)[t] == if t.completed then 0 else multiset(todos)[t]
    ensures filter != "completed" && filter != "incomplete" ==> r == todos
  {
    if filter == "completed" then Filter(todos, IsDone)
    else if filter == "incomplete" then Filter(todos, IsPending)
    else
      SubseqRefl(todos);
      todos
  }

  /** The two selections together are exactly the list: they partition it. */
  lemma FilterPartition(todos: seq<Todo>)
    ensures multiset(FilterTodos(todos, "completed")) + multiset(FilterTodos(todos, "incomplete"))
            == multiset(todos)
    ensures |FilterTodos(todos, "completed")| + |FilterTodos(todos, "incomplete")| == |todos|
  {
    var done, pending := FilterTodos(todos, "completed"), FilterTodos(todos, "incomplete");
    assert multiset(done) + multiset(pending) == multiset(todos) by {
      forall t ensures (multiset(done) + multiset(pending))[t] == multiset(todos)[t] {
      }
    }
    assert |multiset(done) + multiset(pending)| == |multiset(todos)|;
  }

  /** Membership in the selections. */
  lemma FilterTodosMember(todos: seq<Todo>, t: Todo)
    ensures t in FilterTodos(todos, "completed") <==> t in todos && t.completed
    ensures t in FilterTodos(todos, "incomplete") <==> t in todos && !t.completed
  {
    FilterMember(todos, IsDone, t);
    FilterMember(todos, IsPending, t);
  }

  // ---------------------------------------------------------------------
  // Counting completed tasks

  /** The number of completed tasks: the length of the "completed" view. */
  function CountCompleted(todos: seq<Todo>): (n: nat)
    ensures n == |FilterTodos(todos, "completed")|
    ensures n <= |todos|
    ensures n == |todos| <==> forall i :: 0 <= i < |todos| ==> todos[i].completed
    ensures n == 0 <==> forall i :: 0 <= i < |todos| ==> !todos[i].completed
  {
    var done := Filter(todos, IsDone);
    FilterKeepsAll(todos, IsDone);
    assert done == [] <==> forall i :: 0 <= i < |todos| ==> !todos[i].completed by {
      if done != [] {
        FilterMember(todos, IsDone, done[0]);
      }
      forall i | 0 <= i < |todos| && todos[i].completed ensures done != [] {
        FilterMember(todos, IsDone, todos[i]);
      }
    }
    |done|
  }

  /** Counting task by task: an empty list has none completed, and a list
      has one more than its tail exactly when its head is completed. */
  lemma {:induction false} CountCompletedCons(todos: seq<Todo>)
    ensures todos == [] ==> CountCompleted(todos) == 0
    ensures todos != [] ==>
      CountCompleted(todos) == (if todos[0].completed then 1 else 0) + CountCompleted(todos[1..])
  {
    if todos != [] {
      assert Filter(todos, IsDone) == (if IsDone(todos[0]) then [todos[0]] else []) + Filter(todos[1..], IsDone);
    }
  }

  // ---------------------------------------------------------------------
  // Changing every task with a given id in place in the list

  /** Toggle's optimistic step in src/TodoApp.tsx: flip `completed` on every
      task with this id. */
  function ToggleWhere(todos: seq<Todo>, id: string): (r: seq<Todo>)
    ensures |r| == |todos|
    ensures forall i :: 0 <= i < |todos| ==> r[i].id == todos[i].id && r[i].title == todos[i].title
    ensures forall i :: 0 <= i < |todos| ==>
      r[i].completed == (todos[i].completed != (todos[i].id == id))
  {
    if todos == [] then []
    else
      var t := todos[0];
      [if t.id == id then t.(completed := !t.completed) else t] + ToggleWhere(todos[1..], id)
  }

  /** Toggling the same id twice gives back the list. */
  lemma ToggleTwice(todos: seq<Todo>, id: string)
    ensures ToggleWhere(ToggleWhere(todos, id), id) == todos
  {
    var twice := ToggleWhere(ToggleWhere(todos, id), id);
    assert forall i :: 0 <= i < |todos| ==> twice[i] == todos[i];
  }

  /** Toggling an id no task has leaves the list as it is. */
  lemma ToggleAbsent(todos: seq<Todo>, id: string)
    requires !HasId(todos, id)
    ensures ToggleWhere(todos, id) == todos
  {
    assert forall i :: 0 <= i < |todos| ==> ToggleWhere(todos, id)[i] == todos[i];
  }

  /** Save-edit's optimistic step in src/TodoApp.tsx: give every task with
      this id the new title. */
  function RetitleWhere(todos: seq<Todo>, id: string, title: string): (r: seq<Todo>)
    ensures |r| == |todos|
    ensures forall i :: 0 <= i < |todos| ==> r[i].id == todos[i].id && r[i].completed == todos[i].completed
    ensures forall i :: 0 <= i < |todos| ==>
      r[i].title == if todos[i].id == id then title else todos[i].title
  {
    if todos == [] then []
    else
      var t := todos[0];
      [if t.id == id then t.(title := title) else t] + RetitleWhere(todos[1..], id, title)
  }

  /** The optimistic step of `handleTodoUpdate` in
      src/components/TodoTask.tsx: merge the fields into every task with
      this id. */
  function MergeWhere(todos: seq<Todo>, id: string, fields: Patch): (r: seq<Todo>)
    ensures |r| == |todos|
    ensures forall i :: 0 <= i < |todos| && todos[i].id != id ==> r[i] == todos[i]
    ensures forall i :: 0 <= i < |todos| && todos[i].id == id ==> r[i] == Merge(todos[i], fields)
  {
    if todos == [] then []
    else
      var t := todos[0];
      [if t.id == id then Merge(t, fields) else t] + MergeWhere(todos[1..], id, fields)
  }

  // ---------------------------------------------------------------------
  // Deleting by id

  /** Delete's list change: drop every task with this id, keep the rest in order. */
  function RemoveId(todos: seq<Todo>, id: string): (r: seq<Todo>)
    ensures SubseqOf(r, todos)
    ensures forall t :: multiset(r)[t] == if t.id == id then 0 else multiset(todos)[t]
    ensures |r| == |todos| <==> !HasId(todos, id)
  {
    var keep := (t: Todo) => t.id != id;
    FilterKeepsAll(todos, keep);
    Filter(todos, keep)
  }

  /** After a delete no task carries the id. */
  lemma RemoveIdGone(todos: seq<Todo>, id: string)
    ensures !HasId(RemoveId(todos, id), id)
  {
    var r := RemoveId(todos, id);
    forall i | 0 <= i < |r| ensures r[i].id != id {
      assert multiset(r)[r[i]] > 0;
    }
  }

  /** Deleting an id no task has leaves the list as it is. */
  lemma RemoveIdAbsent(todos: seq<Todo>, id: string)
    requires !HasId(todos, id)
    ensures RemoveId(todos, id) == todos
  {
    SubseqSameLength(RemoveId(todos, id), todos);
  }

  /** Deleting twice is deleting once. */
  lemma RemoveIdIdempotent(todos: seq<Todo>, id: string)
    ensures RemoveId(RemoveId(todos, id), id) == RemoveId(todos, id)
  {
    RemoveIdGone(todos, id);
    RemoveIdAbsent(RemoveId(todos, id), id);
  }
}
