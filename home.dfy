/** The web client's task page (src/app/page.tsx): a local mirror of the
    signed-in user's tasks, replaced wholesale by every snapshot of the live
    query, and the handlers that write to the hosted document store. The
    store is a map from document id to document; a handler's write is applied
    to it at once. */
module Home {

  import opened Optional
  import opened Types

  /** A stored document of the collection `tasks`: a task's fields without
      its id, which names the document. */
  datatype Doc = Doc(
    title: string,
    dueDate: Option<int>,
    completed: bool,
    subtasks: seq<Subtask>,
    userId: string)

  type Store = map<string, Doc>

  /** The fields an `updateDoc` call names; a `None` field is not written. */
  datatype Patch = Patch(
    title: Option<string>,
    dueDate: Option<Option<int>>,
    completed: Option<bool>,
    subtasks: Option<seq<Subtask>>,
    userId: Option<string>)

  /** `{ id, ...taskData }`: the task's fields as a document, its id dropped. */
  function ToDoc(t: Task): Doc
  {
    Doc(t.title, t.dueDate, t.completed, t.subtasks, t.userId)
  }

  /** `{ id: doc.id, ...doc.data() }`: a document read back as a task. */
  function FromDoc(id: string, d: Doc): (t: Task)
    ensures t.id == id && ToDoc(t) == d
  {
    Task(id, d.title, d.dueDate, d.completed, d.subtasks, d.userId)
  }

  /** The patch that writes every field of a task except its id. */
  function FieldsOf(t: Task): Patch
  {
    Patch(Some(t.title), Some(t.dueDate), Some(t.completed), Some(t.subtasks), Some(t.userId))
  }

  function CompletedOnly(completed: bool): Patch
  {
    Patch(None, None, Some(completed), None, None)
  }

  function SubtasksOnly(subtasks: seq<Subtask>): Patch
  {
    Patch(None, None, None, Some(subtasks), None)
  }

  function Merge(d: Doc, p: Patch): Doc
  {
    Doc(
      if p.title.Some? then p.title.value else d.title,
      if p.dueDate.Some? then p.dueDate.value else d.dueDate,
      if p.completed.Some? then p.completed.value else d.completed,
      if p.subtasks.Some? then p.subtasks.value else d.subtasks,
      if p.userId.Some? then p.userId.value else d.userId)
  }

  /** `updateDoc`: the named document, when it exists, gets the patch's
      fields and keeps the others; an update of a missing document is
      rejected and changes nothing. */
  function UpdateDoc(store: Store, id: string, p: Patch): Store
  {
    if id in store then store[id := Merge(store[id], p)] else store
  }

  /** Writing all of a task's fields replaces the document by the task, and
      writing back a task exactly as it was read changes nothing. */
  lemma UpdateWritesTask(store: Store, t: Task)
    ensures t.id in store ==> UpdateDoc(store, t.id, FieldsOf(t)) == store[t.id := ToDoc(t)]
    ensures t.id !in store ==> UpdateDoc(store, t.id, FieldsOf(t)) == store
    ensures t.id in store && t == FromDoc(t.id, store[t.id]) ==> UpdateDoc(store, t.id, FieldsOf(t)) == store
  {
  }

  /** `tasks.find(t => t.id === taskId)`: the first task with that id. */
  function FindTask(tasks: seq<Task>, id: string): (r: Option<Task>)
    ensures r.Some? ==> r.value in tasks && r.value.id == id
    ensures r.Some? ==> exists k :: 0 <= k < |tasks| && tasks[k] == r.value &&
                                   (forall i :: 0 <= i < k ==> tasks[i].id != id)
    ensures r.None? ==> forall t :: t in tasks ==> t.id != id
  {
    if tasks == [] then None
    else if tasks[0].id == id then Some(tasks[0])
    else
      var r := FindTask(tasks[1..], id);
      if r.Some? then
        ghost var k :| 0 <= k < |tasks[1..]| && tasks[1..][k] == r.value &&
                       (forall i :: 0 <= i < k ==> tasks[1..][i].id != id);
        assert tasks[k + 1] == r.value;
        r
      else r
  }

  /** `subtasks.map(st => st.id === subtaskId ? { ...st, completed } : st)`:
      the same list in the same order, with `completed` set on the entries
      that carry that id. */
  function MarkSubtask(subtasks: seq<Subtask>, subtaskId: string, completed: bool): (r: seq<Subtask>)
    ensures |r| == |subtasks|
    ensures forall i :: 0 <= i < |r| ==>
      r[i] == if subtasks[i].id == subtaskId then subtasks[i].(completed := completed) else subtasks[i]
  {
    if subtasks == [] then []
    else
      [if subtasks[0].id == subtaskId then subtasks[0].(completed := completed) else subtasks[0]]
      + MarkSubtask(subtasks[1..], subtaskId, completed)
  }

  /** The store after `handleToggleSubtask`: the new subtask list is computed
      from the mirror's copy of the task and overwrites the stored field
      whole; a task missing from the mirror causes no write. */
  function ToggleSubtaskWrite(store: Store, mirror: seq<Task>, taskId: string, subtaskId: string, completed: bool): Store
  {
    match FindTask(mirror, taskId)
    case None => store
    case Some(t) => UpdateDoc(store, taskId, SubtasksOnly(MarkSubtask(t.subtasks, subtaskId, completed)))
  }

  /** Two toggles computed from the same mirror: the stored list ends up as
      the second toggle alone made it, and every entry the second toggle did
      not address is as the mirror had it, so the first toggle is lost. */
  lemma ToggleSubtaskLostUpdate(
    store: Store, mirror: seq<Task>, taskId: string, first: string, second: string, c1: bool, c2: bool)
    requires taskId in store && FindTask(mirror, taskId).Some?
    ensures
      var seen := FindTask(mirror, taskId).value.subtasks;
      var after := ToggleSubtaskWrite(ToggleSubtaskWrite(store, mirror, taskId, first, c1),
                                      mirror, taskId, second, c2);
      && taskId in after
      && after[taskId].subtasks == MarkSubtask(seen, second, c2)
      && (forall i :: 0 <= i < |seen| && seen[i].id != second ==> after[taskId].subtasks[i] == seen[i])
  {
  }

  /** Had the second toggle been computed from a mirror that already held the
      first write, both toggles would survive. */
  lemma ToggleSubtaskFromRefreshedMirror(
    store: Store, mirror: seq<Task>, refreshed: seq<Task>, taskId: string,
    first: string, second: string, c1: bool, c2: bool)
    requires taskId in store && FindTask(mirror, taskId).Some?
    requires FindTask(refreshed, taskId) ==
      Some(FromDoc(taskId, ToggleSubtaskWrite(store, mirror, taskId, first, c1)[taskId]))
    ensures
      var seen := FindTask(mirror, taskId).value.subtasks;
      var after := ToggleSubtaskWrite(ToggleSubtaskWrite(store, mirror, taskId, first, c1),
                                      refreshed, taskId, second, c2);
      && taskId in after
      && after[taskId].subtasks == MarkSubtask(MarkSubtask(seen, first, c1), second, c2)
      && (forall i :: 0 <= i < |seen| && seen[i].id == second ==> after[taskId].subtasks[i].completed == c2)
      && (forall i :: 0 <= i < |seen| && seen[i].id == first && seen[i].id != second ==>
            after[taskId].subtasks[i].completed == c1)
  {
  }

  /** What the live query promises of a snapshot: the ids of exactly the
      documents whose owner is `uid`, each once. */
  ghost predicate IsQueryResult(store: Store, uid: string, snapshot: seq<string>)
  {
    && (forall i, j :: 0 <= i < j < |snapshot| ==> snapshot[i] != snapshot[j])
    && (forall id :: id in snapshot <==> id in store && store[id].userId == uid)
  }

  /** `mirror` holds one task per snapshot entry, in snapshot order, each the
      stored document carrying its id. */
  ghost predicate Mirrors(store: Store, snapshot: seq<string>, mirror: seq<Task>)
  {
    && (forall id :: id in snapshot ==> id in store)
    && |mirror| == |snapshot|
    && (forall i :: 0 <= i < |mirror| ==> mirror[i] == FromDoc(snapshot[i], store[snapshot[i]]))
  }

  /** The snapshot callback's `push` loop: one task per document, in order. */
  method CollectUserTasks(store: Store, snapshot: seq<string>) returns (userTasks: seq<Task>)
    requires forall id :: id in snapshot ==> id in store
    ensures Mirrors(store, snapshot, userTasks)
  {
    userTasks := [];
    var i := 0;
    while i < |snapshot|
      invariant 0 <= i <= |snapshot|
      invariant |userTasks| == i
      invariant forall j :: 0 <= j < i ==> userTasks[j] == FromDoc(snapshot[j], store[snapshot[j]])
    {
      var id := snapshot[i];
      userTasks := userTasks + [FromDoc(id, store[id])];
      i := i + 1;
    }
  }

  /** A mirror built from a snapshot holds exactly the user's documents: a
      task with id `id` is in it iff the store has a document `id` owned by
      the user, each task is its document with the document id, and no id
      appears twice. */
  lemma SnapshotMirrorsUserDocs(store: Store, uid: string, snapshot: seq<string>, mirror: seq<Task>)
    requires IsQueryResult(store, uid, snapshot)
    requires Mirrors(store, snapshot, mirror)
    ensures forall id :: (exists i :: 0 <= i < |mirror| && mirror[i].id == id) <==>
      id in store && store[id].userId == uid
    ensures forall i :: 0 <= i < |mirror| ==>
      mirror[i].userId == uid && mirror[i].id in store && ToDoc(mirror[i]) == store[mirror[i].id]
    ensures forall i, j :: 0 <= i < j < |mirror| ==> mirror[i].id != mirror[j].id
  {
  }

  class Home {
    /** The hosted collection `tasks`. */
    var store: Store
    /** The signed-in user's uid, if any. */
    const user: Option<string>
    /** The local mirror (`tasks` state). */
    var tasks: seq<Task>
    /** The task the dialog edits, if any. */
    var editingTask: Option<Task>

    /** The mirror only ever holds the signed-in user's tasks. */
    ghost predicate Valid()
      reads this`tasks
    {
      forall i :: 0 <= i < |tasks| ==> user.Some? && tasks[i].userId == user.value
    }

    constructor (store: Store, user: Option<string>)
      ensures Valid()
      ensures this.store == store && this.user == user
      ensures tasks == [] && editingTask == None
    {
      this.store := store;
      this.user := user;
      tasks := [];
      editingTask := None;
    }

    /** A snapshot of the user's query replaces the whole mirror. */
    method OnSnapshot(snapshot: seq<string>)
      requires Valid()
      requires user.Some? && IsQueryResult(store, user.value, snapshot)
      modifies this`tasks
      ensures Valid()
      ensures Mirrors(store, snapshot, tasks)
    {
      var userTasks := CollectUserTasks(store, snapshot);
      SnapshotMirrorsUserDocs(store, user.value, snapshot, userTasks);
      tasks := userTasks;
    }

    /** `handleAddTask`: nothing without a user; otherwise one new, incomplete
        document with no subtasks, owned by the user, under the id the store
        picks. */
    method AddTask(title: string, dueDate: Option<int>, newId: string)
      requires Valid()
      requires newId !in store
      modifies this`store
      ensures Valid()
      ensures user.None? ==> store == old(store)
      ensures user.Some? ==> store == old(store)[newId := Doc(title, dueDate, false, [], user.value)]
    {
      if user.Some? {
        store := store[newId := Doc(title, dueDate, false, [], user.value)];
      }
    }

    /** `handleUpdateTask`: every field but the id is written to the document
        the id names; a missing document is not recreated. A task taken from
        the mirror writes its owner back unchanged. */
    method UpdateTask(t: Task)
      requires Valid()
      modifies this`store
      ensures Valid()
      ensures t.id in old(store) ==> store == old(store)[t.id := ToDoc(t)]
      ensures t.id !in old(store) ==> store == old(store)
      ensures t in tasks && t.id in store ==> store[t.id].userId == user.value
    {
      UpdateWritesTask(store, t);
      store := UpdateDoc(store, t.id, FieldsOf(t));
    }

    /** `handleDeleteTask`: the document is gone; deleting a missing one is a
        no-op. */
    method DeleteTask(taskId: string)
      requires Valid()
      modifies this`store
      ensures Valid()
      ensures store == old(store) - {taskId}
    {
      store := store - {taskId};
    }

    /** `handleEditTask`: the dialog opens on a copy of the task. */
    method EditTask(t: Task)
      requires Valid()
      modifies this`editingTask
      ensures Valid()
      ensures editingTask == Some(t)
    {
      editingTask := Some(t);
    }

    /** The "New Task" button: the dialog opens with no task to edit. */
    method NewTask()
      requires Valid()
      modifies this`editingTask
      ensures Valid()
      ensures editingTask == None
    {
      editingTask := None;
    }

    /** `handleToggleComplete`: only the `completed` field is written. */
    method ToggleComplete(taskId: string, completed: bool)
      requires Valid()
      modifies this`store
      ensures Valid()
      ensures taskId in old(store) ==> store == old(store)[taskId := old(store)[taskId].(completed := completed)]
      ensures taskId !in old(store) ==> store == old(store)
    {
      store := UpdateDoc(store, taskId, CompletedOnly(completed));
    }

    /** `handleToggleSubtask`: no write when the mirror lacks the task;
        otherwise the subtask list is recomputed from the mirror and written
        whole, and nothing else of the document changes. */
    method ToggleSubtask(taskId: string, subtaskId: string, completed: bool)
      requires Valid()
      modifies this`store
      ensures Valid()
      ensures store == ToggleSubtaskWrite(old(store), tasks, taskId, subtaskId, completed)
      ensures FindTask(tasks, taskId).None? ==> store == old(store)
      ensures FindTask(tasks, taskId).Some? && taskId in old(store) ==>
        store == old(store)[taskId := old(store)[taskId].(subtasks :=
          MarkSubtask(FindTask(tasks, taskId).value.subtasks, subtaskId, completed))]
    {
      var task := FindTask(tasks, taskId);
      if task.Some? {
        var updatedSubtasks := MarkSubtask(task.value.subtasks, subtaskId, completed);
        store := UpdateDoc(store, taskId, SubtasksOnly(updatedSubtasks));
      }
    }

    /** `handleSaveTask`: with a task being edited, its title and due date are
        replaced and every other field is written back as captured when the
        dialog opened; without one, a task is added. The dialog only submits
        a non-empty title. */
    method SaveTask(title: string, dueDate: Option<int>, newId: string)
      requires Valid()
      requires |title| > 0
      requires editingTask.None? ==> newId !in store
      modifies this`store
      ensures Valid()
      ensures editingTask.Some? && editingTask.value.id in old(store) ==>
        var e := editingTask.value;
        store == old(store)[e.id := Doc(title, dueDate, e.completed, e.subtasks, e.userId)]
      ensures editingTask.Some? && editingTask.value.id !in old(store) ==> store == old(store)
      ensures editingTask.None? && user.None? ==> store == old(store)
      ensures editingTask.None? && user.Some? ==>
        store == old(store)[newId := Doc(title, dueDate, false, [], user.value)]
    {
      if editingTask.Some? {
        UpdateTask(editingTask.value.(title := title, dueDate := dueDate));
      } else {
        AddTask(title, dueDate, newId);
      }
    }
  }

}
