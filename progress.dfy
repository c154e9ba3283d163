/** The completion percentage both controllers show above the list: the
    completed share of the tasks times a hundred, or 0 for an empty list
    (src/TodoApp.tsx:125-127, src/components/TodoTask.tsx:128-130). */
module Completion {
  import opened Tasks
  import opened Percentage

  /** The completion percentage of a task list, unrounded. */
  function Progress(todos: seq<Todo>): (p: real)
    ensures 0.0 <= p <= 100.0
    ensures todos == [] ==> p == 0.0
    ensures todos != [] ==> p == (CountCompleted(todos) as real) / (|todos| as real) * 100.0
    ensures p == 0.0 <==> forall i :: 0 <= i < |todos| ==> !todos[i].completed
    ensures p == 100.0 <==> todos != [] && forall i :: 0 <= i < |todos| ==> todos[i].completed
  {
    Percent(CountCompleted(todos), |todos|)
  }

  /** 1 for a completed task, 0 for a pending one. */
  function Done(t: Todo): nat {
    if t.completed then 1 else 0
  }

  /** A worked case: two tasks, one of them done (in either order), is fifty
      percent. */
  lemma ProgressHalf(a: Todo, b: Todo)
    requires a.completed != b.completed
    ensures Progress([a, b]) == 50.0
  {
    var todos := [a, b];
    CountCompletedCons(todos);
    CountCompletedCons(todos[1..]);
    CountCompletedCons(todos[2..]);
  }

  /** A second worked case, counted task by task: any two done out of three,
      in any order, is two thirds of a hundred. */
  lemma ProgressTwoThirds(a: Todo, b: Todo, c: Todo)
    requires Done(a) + Done(b) + Done(c) == 2
    ensures Progress([a, b, c]) == 200.0 / 3.0
  {
    var todos := [a, b, c];
    CountCompletedCons(todos);
    CountCompletedCons(todos[1..]);
    CountCompletedCons(todos[2..]);
    CountCompletedCons(todos[3..]);
  }
}
