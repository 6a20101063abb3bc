/** The records of the Kanban core (users, boards, tasks, notifications), the
    abstract keyed store holding them, and the outcome types of the service and
    controller layers. Records are immutable values; a Java setter becomes a
    datatype update `t.(field := v)`. */
module Model {

  /** Java's nullable reference: `None` stands for `null`. */
  datatype Option<+T> = None | Some(value: T) {
    /** `value` when present, `default` when null. */
    function GetOr(default: T): T {
      match this
      case Some(v) => v
      case None => default
    }
  }

  /** The caller as handed over by authentication; the core trusts it. */
  datatype User = User(name: string, role: string)

  /** The privileged role string; USER-triggered notices are also addressed to it. */
  const Admin: string := "ADMIN"

  /** The role string the board notices test for. */
  const Restricted: string := "USER"

  /** Whether the caller holds the privileged role. */
  predicate IsAdmin(u: User) {
    u.role == Admin
  }

  /** A board; `columns` is null after an update request that carried none. */
  datatype Board = Board(
    id: Option<string>,
    name: string,
    description: string,
    createdBy: string,
    columns: Option<seq<string>>)

  /** A task; `archived` is the soft-delete flag. */
  datatype Task = Task(
    id: Option<string>,
    title: string,
    description: string,
    status: string,
    priority: string,
    assignedTo: Option<string>,
    createdBy: string,
    boardId: string,
    archived: bool)

  /** The eight kinds the notification engine emits (it never emits TASK_DELETED). */
  datatype NotificationType =
    | BoardCreated | BoardUpdated | BoardDeleted
    | TaskCreated | TaskUpdated | TaskAssigned | TaskArchived | TaskRestored

  /** A notification record; its id is its position in the notification store. */
  datatype Notification = Notification(
    message: string,
    kind: NotificationType,
    taskId: Option<string>,
    taskTitle: Option<string>,
    boardId: Option<string>,
    boardName: string,
    targetUser: string,
    triggeredBy: string,
    read: bool)

  /** The Board constructor: no id until the store saves it. */
  function NewBoard(name: string, description: string, createdBy: string, columns: Option<seq<string>>): (b: Board)
    ensures b.id == None
    ensures b.name == name && b.description == description
    ensures b.createdBy == createdBy && b.columns == columns
  {
    Board(None, name, description, createdBy, columns)
  }

  /** The seven-argument Task constructor: no id, and not archived. */
  function NewTask(title: string, description: string, status: string, priority: string,
                   assignedTo: Option<string>, createdBy: string, boardId: string): (t: Task)
    ensures t.id == None && !t.archived
    ensures t.title == title && t.description == description
    ensures t.status == status && t.priority == priority
    ensures t.assignedTo == assignedTo && t.createdBy == createdBy && t.boardId == boardId
  {
    Task(None, title, description, status, priority, assignedTo, createdBy, boardId, false)
  }

  /** The eight-argument Notification constructor: a new notification is unread. */
  function NewNotification(message: string, kind: NotificationType, taskId: Option<string>,
                           taskTitle: Option<string>, boardId: Option<string>, boardName: string,
                           targetUser: string, triggeredBy: string): (n: Notification)
    ensures !n.read
    ensures n.message == message && n.kind == kind && n.taskId == taskId
    ensures n.taskTitle == taskTitle && n.boardId == boardId && n.boardName == boardName
    ensures n.targetUser == targetUser && n.triggeredBy == triggeredBy
  {
    Notification(message, kind, taskId, taskTitle, boardId, boardName, targetUser, triggeredBy, false)
  }

  /** The abstract store: boards and tasks keyed by id, notifications append-only. */
  datatype Store = Store(
    boards: map<string, Board>,
    tasks: map<string, Task>,
    notes: seq<Notification>)

  /** Every stored record carries the key it is stored under. */
  ghost predicate WellKeyed(st: Store) {
    && (forall k | k in st.boards :: st.boards[k].id == Some(k))
    && (forall k | k in st.tasks :: st.tasks[k].id == Some(k))
  }

  /** The key a `save` stores a record under: its own id, or a fresh one the store
      generates when the id is still unset. */
  function SaveKey(id: Option<string>, freshId: string): (k: string)
    ensures id.Some? ==> k == id.value
    ensures id.None? ==> k == freshId
  {
    id.GetOr(freshId)
  }

  /** Why a service call threw its RuntimeException. */
  datatype Fault = Denied | MissingTask | MissingBoard | MissingOrDenied

  /** A service call's return value, or the exception it threw. */
  datatype Result<+T> = Success(value: T) | Failure(fault: Fault)

  /** A service call: the store afterwards and what the call returned. */
  datatype Step<+T> = Step(st: Store, out: Result<T>)

  /** A controller's answer, without the HTTP wrapping (200/404/403/400). */
  datatype Response<+T> = Ok(body: T) | NotFound | Forbidden | BadRequest

  /** An endpoint call: the store afterwards and the response. */
  datatype Reply<+T> = Reply(st: Store, resp: Response<T>)
}
