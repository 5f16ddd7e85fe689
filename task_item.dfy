/** One task card of the web client (src/components/task-item.tsx): the
    subtasks generated from suggestions, the due-date badge and the subtask
    counter. The suggestion service, the id generator and the clock are
    parameters. */
module TaskItem {

  import opened Optional
  import opened Types
  import Seqs
  import Home

  /** What the suggestion call returned: the suggested texts in order, or a
      failure. */
  datatype Suggestion = Suggested(texts: seq<string>) | Failed

  /** One fresh, incomplete subtask per suggested text, in suggestion order,
      the i-th taking the i-th id of the supply. */
  function NewSubtasks(texts: seq<string>, ids: seq<string>): (r: seq<Subtask>)
    requires |ids| == |texts|
    ensures |r| == |texts|
    ensures forall i :: 0 <= i < |r| ==> r[i] == Subtask(ids[i], texts[i], false)
  {
    if texts == [] then []
    else [Subtask(ids[0], texts[0], false)] + NewSubtasks(texts[1..], ids[1..])
  }

  /** The success path of `handleGenerateSubtasks`: the task handed to
      `onUpdateTask`, or `None` when the call failed and no update is issued.
      The old subtasks stay in front, unchanged, the new ones follow in
      suggestion order, and no other field changes. */
  function GenerateSubtasks(task: Task, outcome: Suggestion, ids: seq<string>): (r: Option<Task>)
    requires outcome.Suggested? ==> |ids| == |outcome.texts|
    ensures r.None? <==> outcome.Failed?
    ensures r.Some? ==> r.value == task.(subtasks := r.value.subtasks)
    ensures r.Some? ==>
      && |r.value.subtasks| == |task.subtasks| + |outcome.texts|
      && r.value.subtasks[..|task.subtasks|] == task.subtasks
      && forall i :: 0 <= i < |outcome.texts| ==>
           r.value.subtasks[|task.subtasks| + i] == Subtask(ids[i], outcome.texts[i], false)
  {
    match outcome
    case Failed => None
    case Suggested(texts) => Some(task.(subtasks := task.subtasks + NewSubtasks(texts, ids)))
  }

  /** No two subtasks of a task share an id. */
  ghost predicate DistinctIds(subtasks: seq<Subtask>)
  {
    forall i, j :: 0 <= i < j < |subtasks| ==> subtasks[i].id != subtasks[j].id
  }

  /** With a supply of distinct ids that no existing subtask uses, the
      subtasks of the task stay uniquely identified. */
  lemma GeneratedIdsStayDistinct(task: Task, texts: seq<string>, ids: seq<string>)
    requires |ids| == |texts|
    requires DistinctIds(task.subtasks)
    requires forall i, j :: 0 <= i < j < |ids| ==> ids[i] != ids[j]
    requires forall i, j :: 0 <= i < |ids| && 0 <= j < |task.subtasks| ==> ids[i] != task.subtasks[j].id
    ensures DistinctIds(GenerateSubtasks(task, Suggested(texts), ids).value.subtasks)
  {
  }

  /** Passing the generated task to `handleUpdateTask` while the card shows
      the stored document as it is changes only that document's subtasks:
      the old ones followed by the new ones. */
  lemma GenerateThenUpdateWritesOnlySubtasks(
    store: Home.Store, task: Task, texts: seq<string>, ids: seq<string>)
    requires |ids| == |texts|
    requires task.id in store && Home.ToDoc(task) == store[task.id]
    ensures
      var generated := GenerateSubtasks(task, Suggested(texts), ids).value;
      Home.UpdateDoc(store, task.id, Home.FieldsOf(generated)) ==
        store[task.id := store[task.id].(subtasks := task.subtasks + NewSubtasks(texts, ids))]
  {
  }

  /** Milliseconds per day; an instant's day is its floor quotient by this,
      instants being taken in local time. */
  const MillisPerDay: int := 86400000

  function Day(t: int): int
  {
    t / MillisPerDay
  }

  /** date-fns `isPast`: the instant lies before now. */
  predicate IsPast(t: int, now: int)
  {
    t < now
  }

  /** date-fns `isToday`: the instant falls on the same day as now. */
  predicate IsToday(t: int, now: int)
  {
    Day(t) == Day(now)
  }

  /** "In the past and not today" is "on an earlier day". */
  lemma PastNotTodayIsEarlierDay(t: int, now: int)
    ensures IsPast(t, now) && !IsToday(t, now) <==> Day(t) < Day(now)
  {
  }

  datatype Variant = Default | Destructive | Secondary | Outline

  /** `getDueDateBadgeVariant`: `destructive` for a due day before today,
      `secondary` for today and `default` for a later day. */
  function DueDateBadgeVariant(dueDate: int, now: int): (v: Variant)
    ensures v == Destructive <==> Day(dueDate) < Day(now)
    ensures v == Secondary <==> Day(dueDate) == Day(now)
    ensures v == Default <==> Day(dueDate) > Day(now)
  {
    PastNotTodayIsEarlierDay(dueDate, now);
    if IsPast(dueDate, now) && !IsToday(dueDate, now) then Destructive
    else if IsToday(dueDate, now) then Secondary
    else Default
  }

  /** The badge a card shows: none without a due date, `outline` for a
      completed task whatever its date, and otherwise the variant of the due
      day against today. */
  function Badge(task: Task, now: int): (b: Option<Variant>)
    ensures b.None? <==> task.dueDate.None?
    ensures task.dueDate.Some? && task.completed ==> b == Some(Outline)
    ensures task.dueDate.Some? && !task.completed ==>
      && (b == Some(Destructive) <==> Day(task.dueDate.value) < Day(now))
      && (b == Some(Secondary) <==> Day(task.dueDate.value) == Day(now))
      && (b == Some(Default) <==> Day(task.dueDate.value) > Day(now))
  {
    match task.dueDate
    case None => None
    case Some(due) => Some(if task.completed then Outline else DueDateBadgeVariant(due, now))
  }

  /** The "Subtasks (done/total)" counter, shown only when there are
      subtasks: the completed count never exceeds the total, equals it
      exactly when every subtask is completed, and is zero exactly when none
      is. */
  function SubtaskCounter(subtasks: seq<Subtask>): (c: Option<(nat, nat)>)
    ensures c.None? <==> subtasks == []
    ensures c.Some? ==> c.value.1 == |subtasks| && c.value.0 <= c.value.1
    ensures c.Some? ==> (c.value.0 == c.value.1 <==> forall st :: st in subtasks ==> st.completed)
    ensures c.Some? ==> (c.value.0 == 0 <==> forall st :: st in subtasks ==> !st.completed)
  {
    if subtasks == [] then None
    else
      var done := Seqs.Filter(subtasks, (st: Subtask) => st.completed);
      Seqs.FilterKeepsAll(subtasks, (st: Subtask) => st.completed);
      Seqs.FilterDropsAll(subtasks, (st: Subtask) => st.completed);
      Some((|done|, |subtasks|))
  }

}
