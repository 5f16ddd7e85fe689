/** The records of the web client (src/lib/types.ts). */
module Types {

  import opened Optional

  /** A subtask embedded in its parent task. */
  datatype Subtask = Subtask(id: string, text: string, completed: bool)

  /** A task as the client holds it: the document id together with the
      document's fields. `dueDate` is a timestamp in milliseconds (the store
      holds it as an ISO-8601 string or null). */
  datatype Task = Task(
    id: string,
    title: string,
    dueDate: Option<int>,
    completed: bool,
    subtasks: seq<Subtask>,
    userId: string)

}
