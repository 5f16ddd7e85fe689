/** The desktop task list (tasker/src/main.rs): the application state that
    iced's `update` mutates one message at a time, and the filter its view
    applies to the list. */
module Tasker {

  import opened Optional
  import Seqs

  /** A calendar date as a day number. No message of the program sets one. */
  type Date = int

  datatype Task = Task(id: nat, description: string, dueDate: Option<Date>, completed: bool)

  datatype Filter = All | Active | Completed

  datatype Message =
    | NewTaskDescriptionChanged(description: string)
    | Add
    | ToggleCompleted(id: nat, completed: bool)
    | Delete(id: nat)
    | FilterChanged(filter: Filter)
    | Edit(id: nat)
    | TaskDescriptionChanged(id: nat, description: string)
    | Save(id: nat)

  /** The id discipline of the list: ids strictly increase in list order
      (so they are distinct) and every id is below the next one to hand out. */
  ghost predicate IdsFresh(tasks: seq<Task>, next: nat)
  {
    && (forall i, j :: 0 <= i < j < |tasks| ==> tasks[i].id < tasks[j].id)
    && (forall i :: 0 <= i < |tasks| ==> tasks[i].id < next)
  }

  /** `tasks.iter().find(|task| task.id == id)`, as the position it stops at. */
  function FindIndex(tasks: seq<Task>, id: nat): (r: Option<nat>)
    ensures r.Some? ==> r.value < |tasks| && tasks[r.value].id == id
    ensures r.Some? ==> forall i :: 0 <= i < r.value ==> tasks[i].id != id
    ensures r.None? ==> forall i :: 0 <= i < |tasks| ==> tasks[i].id != id
  {
    if tasks == [] then None
    else if tasks[0].id == id then Some(0)
    else match FindIndex(tasks[1..], id)
      case None => None
      case Some(k) => Some(k + 1)
  }

  /** The list after `retain(|task| task.id != id)`. */
  function Without(tasks: seq<Task>, id: nat): seq<Task>
  {
    Seqs.Filter(tasks, (t: Task) => t.id != id)
  }

  /** Whether a task shows under a filter (the closure in `view`). */
  predicate Shows(filter: Filter, t: Task)
  {
    match filter
    case All => true
    case Active => !t.completed
    case Completed => t.completed
  }

  /** The tasks the view lists under a filter. */
  function Visible(tasks: seq<Task>, filter: Filter): seq<Task>
  {
    Seqs.Filter(tasks, (t: Task) => Shows(filter, t))
  }

  /** The view keeps everything for `All`, exactly the incomplete tasks for
      `Active` and exactly the completed ones for `Completed`, and keeps the
      list order: filtering a split list is filtering each part. */
  lemma ViewFilter(tasks: seq<Task>, filter: Filter)
    ensures filter == All ==> Visible(tasks, filter) == tasks
    ensures forall t :: t in Visible(tasks, filter) <==>
      t in tasks && (filter == Active ==> !t.completed) && (filter == Completed ==> t.completed)
    ensures forall k :: 0 <= k <= |tasks| ==>
      Visible(tasks, filter) == Visible(tasks[..k], filter) + Visible(tasks[k..], filter)
  {
    Seqs.FilterKeepsAll(tasks, (t: Task) => Shows(filter, t));
    forall k | 0 <= k <= |tasks|
      ensures Visible(tasks, filter) == Visible(tasks[..k], filter) + Visible(tasks[k..], filter)
    {
      assert tasks == tasks[..k] + tasks[k..];
      Seqs.FilterConcat(tasks[..k], tasks[k..], (t: Task) => Shows(filter, t));
    }
  }

  /** `Delete(id)` leaves no task with that id, keeps every other task, and
      keeps them in their relative order. */
  lemma DeleteKeepsOthersInOrder(tasks: seq<Task>, id: nat)
    ensures forall t :: t in Without(tasks, id) <==> t in tasks && t.id != id
    ensures forall k :: 0 <= k <= |tasks| ==>
      Without(tasks, id) == Without(tasks[..k], id) + Without(tasks[k..], id)
  {
    forall k | 0 <= k <= |tasks|
      ensures Without(tasks, id) == Without(tasks[..k], id) + Without(tasks[k..], id)
    {
      assert tasks == tasks[..k] + tasks[k..];
      Seqs.FilterConcat(tasks[..k], tasks[k..], (t: Task) => t.id != id);
    }
  }

  /** Removing tasks keeps the id discipline. */
  lemma {:induction false} WithoutKeepsIdsFresh(tasks: seq<Task>, id: nat, next: nat)
    requires IdsFresh(tasks, next)
    ensures IdsFresh(Without(tasks, id), next)
  {
    if tasks != [] {
      WithoutKeepsIdsFresh(tasks[1..], id, next);
      var rest := Without(tasks[1..], id);
      assert forall t :: t in rest ==> t in tasks[1..];
      assert forall t :: t in tasks[1..] ==> tasks[0].id < t.id;
      assert Without(tasks, id) == (if tasks[0].id != id then [tasks[0]] else []) + rest;
    }
  }

  class Tasker {
    var tasks: seq<Task>
    var newTaskDescription: string
    var filter: Filter
    var nextTaskId: nat
    var editing: Option<nat>

    ghost predicate Valid()
      reads this
    {
      IdsFresh(tasks, nextTaskId)
    }

    /** `Tasker::new`: no tasks, an empty input, the `All` filter, ids from 0,
        nothing being edited. */
    constructor ()
      ensures Valid()
      ensures tasks == [] && newTaskDescription == [] && filter == All
      ensures nextTaskId == 0 && editing == None
    {
      tasks := [];
      newTaskDescription := [];
      filter := All;
      nextTaskId := 0;
      editing := None;
    }

    method OnNewTaskDescriptionChanged(description: string)
      requires Valid()
      modifies this`newTaskDescription
      ensures Valid()
      ensures newTaskDescription == description
    {
      newTaskDescription := description;
    }

    /** An empty input changes nothing; otherwise exactly one incomplete,
        undated task with the next id and the input's text is appended, the
        input is cleared and the next id goes up by one. */
    method OnAdd()
      requires Valid()
      modifies this`tasks, this`newTaskDescription, this`nextTaskId
      ensures Valid()
      ensures old(newTaskDescription) == [] ==>
        tasks == old(tasks) && newTaskDescription == [] && nextTaskId == old(nextTaskId)
      ensures old(newTaskDescription) != [] ==>
        && tasks == old(tasks) + [Task(old(nextTaskId), old(newTaskDescription), None, false)]
        && newTaskDescription == []
        && nextTaskId == old(nextTaskId) + 1
    {
      if newTaskDescription != [] {
        tasks := tasks + [Task(nextTaskId, newTaskDescription, None, false)];
        newTaskDescription := [];
        nextTaskId := nextTaskId + 1;
      }
    }

    /** Sets `completed` on the task with that id; no other task and no other
        field changes, and an unknown id changes nothing. */
    method OnToggleCompleted(id: nat, completed: bool)
      requires Valid()
      modifies this`tasks
      ensures Valid()
      ensures |tasks| == |old(tasks)|
      ensures forall i :: 0 <= i < |tasks| ==>
        tasks[i] == if old(tasks)[i].id == id then old(tasks)[i].(completed := completed) else old(tasks)[i]
    {
      var found := FindIndex(tasks, id);
      if found.Some? {
        var k := found.value;
        tasks := tasks[k := tasks[k].(completed := completed)];
      }
    }

    /** Removes every task with that id and keeps the others in order. */
    method OnDelete(id: nat)
      requires Valid()
      modifies this`tasks
      ensures Valid()
      ensures tasks == Without(old(tasks), id)
      ensures forall t :: t in tasks <==> t in old(tasks) && t.id != id
    {
      WithoutKeepsIdsFresh(tasks, id, nextTaskId);
      tasks := Without(tasks, id);
    }

    method OnFilterChanged(filter: Filter)
      requires Valid()
      modifies this`filter
      ensures Valid()
      ensures this.filter == filter
    {
      this.filter := filter;
    }

    /** Starts editing that id, whatever was being edited before. */
    method OnEdit(id: nat)
      requires Valid()
      modifies this`editing
      ensures Valid()
      ensures editing == Some(id)
    {
      editing := Some(id);
    }

    /** Changes the description of the task with that id and nothing else;
        an unknown id changes nothing. */
    method OnTaskDescriptionChanged(id: nat, description: string)
      requires Valid()
      modifies this`tasks
      ensures Valid()
      ensures |tasks| == |old(tasks)|
      ensures forall i :: 0 <= i < |tasks| ==>
        tasks[i] == if old(tasks)[i].id == id then old(tasks)[i].(description := description) else old(tasks)[i]
    {
      var found := FindIndex(tasks, id);
      if found.Some? {
        var k := found.value;
        tasks := tasks[k := tasks[k].(description := description)];
      }
    }

    /** Stops editing only when that id is the one being edited. */
    method OnSave(id: nat)
      requires Valid()
      modifies this`editing
      ensures Valid()
      ensures editing == if old(editing) == Some(id) then None else old(editing)
    {
      if editing == Some(id) {
        editing := None;
      }
    }

    /** `update`: one message, dispatched to its arm. Every message keeps the
        id discipline and has exactly the effect of its arm; a field that arm
        does not touch keeps its value. */
    method Update(m: Message)
      requires Valid()
      modifies this
      ensures Valid()
      ensures !m.Add? ==> nextTaskId == old(nextTaskId)
      ensures m.NewTaskDescriptionChanged? ==> newTaskDescription == m.description
      ensures !m.NewTaskDescriptionChanged? && !m.Add? ==> newTaskDescription == old(newTaskDescription)
      ensures (m.NewTaskDescriptionChanged? || m.FilterChanged? || m.Edit? || m.Save?) ==>
        tasks == old(tasks)
      ensures m.Add? && old(newTaskDescription) != [] ==>
        && tasks == old(tasks) + [Task(old(nextTaskId), old(newTaskDescription), None, false)]
        && newTaskDescription == []
        && nextTaskId == old(nextTaskId) + 1
      ensures m.Add? && old(newTaskDescription) == [] ==>
        tasks == old(tasks) && newTaskDescription == [] && nextTaskId == old(nextTaskId)
      ensures m.ToggleCompleted? ==>
        && |tasks| == |old(tasks)|
        && forall i :: 0 <= i < |tasks| ==>
             tasks[i] == if old(tasks)[i].id == m.id then old(tasks)[i].(completed := m.completed) else old(tasks)[i]
      ensures m.Delete? ==> tasks == Without(old(tasks), m.id)
      ensures m.TaskDescriptionChanged? ==>
        && |tasks| == |old(tasks)|
        && forall i :: 0 <= i < |tasks| ==>
             tasks[i] == if old(tasks)[i].id == m.id then old(tasks)[i].(description := m.description) else old(tasks)[i]
      ensures m.FilterChanged? ==> filter == m.filter
      ensures !m.FilterChanged? ==> filter == old(filter)
      ensures m.Edit? ==> editing == Some(m.id)
      ensures m.Save? ==> editing == if old(editing) == Some(m.id) then None else old(editing)
      ensures !m.Edit? && !m.Save? ==> editing == old(editing)
    {
      match m
      case NewTaskDescriptionChanged(d) => OnNewTaskDescriptionChanged(d);
      case Add => OnAdd();
      case ToggleCompleted(id, c) => OnToggleCompleted(id, c);
      case Delete(id) => OnDelete(id);
      case FilterChanged(f) => OnFilterChanged(f);
      case Edit(id) => OnEdit(id);
      case TaskDescriptionChanged(id, d) => OnTaskDescriptionChanged(id, d);
      case Save(id) => OnSave(id);
    }
  }

}
