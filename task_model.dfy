/** The task record shared by the task list view and the task routes. */
module TaskModel {

  import opened Wrappers

  datatype Status = Todo | InProgress | Done | Blocked

  /** The status as stored and sent: "todo", "in_progress", "done", "blocked". */
  function StatusText(s: Status): string {
    match s
    case Todo => "todo"
    case InProgress => "in_progress"
    case Done => "done"
    case Blocked => "blocked"
  }

  /** A task as the list endpoint returns it; the due date is still text. */
  datatype Task = Task(
    id: int,
    title: string,
    description: Option<string>,
    dueDate: Option<string>,
    status: Status,
    picLapangan: Option<string>,
    picMaintenance: Option<string>)

  /**
   * A row of the tasks table as the routes read it. Every column but the id
   * may be NULL (None); `due` is the DATETIME as its `YYYY-MM-DD HH:MM:SS`
   * text, whose character order is its chronological order.
   */
  datatype TaskRow = TaskRow(
    id: int,
    title: Option<string>,
    description: Option<string>,
    due: Option<string>,
    status: Option<string>,
    picLapangan: Option<string>,
    picMaintenance: Option<string>)

  /** Milliseconds in a day; `addDays` is taken as a shift by whole days (no daylight saving). */
  const DayMs: int := 86_400_000
}
