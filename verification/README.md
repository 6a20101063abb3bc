# Kanban authorisation and notification core, in Dafny

This project models the core of a small Kanban backend (Spring services and
controllers over a document store): who may read or change a board or a task,
how a task moves through its lifecycle (create, full update, status-only
update, archive, restore), how boards are created, updated and deleted, and the
notification engine that routes each change to the right audience and drops
duplicate alerts.

Everything is a pure function over immutable records. The store is
`Store(boards, tasks, notes)`: boards and tasks are maps keyed by id, and the
notification store is an append-only sequence, so a notification's id is its
position. A service call returns `Step(store, Result)`, where a `Failure` stands
for the RuntimeException the Java method throws. An endpoint returns
`Reply(store, Response)` with `Ok`, `NotFound`, `Forbidden` or `BadRequest` in
place of the HTTP status.

Modules, one per component of the source:

- `Model` (model.dfy): the records of `model/Task.java`, `model/Board.java` and
  `model/Notification.java`, plus `User(name, role)`, the store and the outcome
  types. Nullable fields that the core branches on, such as ids, the assignee and board columns, are `Option`, and a Java `null` there is `Option.None`.
- `Access` (access.dfy): the access predicates of `BoardService` and `TaskService`.
- `Queries` (queries.dfy): the role-split listings. Each returns the sub-map of
  the store that the caller gets back.
- `Notify` (notify.dfy): routing, message templates, the `"Unknown Board"`
  fallback and `safeSaveNotification`'s duplicate check.
- `ReadState` (readstate.dfy): `getNotifications`, `getUnreadCount`,
  `markAsRead` and `markAllAsRead`.
- `Tasks` (tasks.dfy) and `Boards` (boards.dfy): the lifecycle methods of
  `TaskService` and `BoardService`.
- `TaskApi` (task_api.dfy) and `BoardApi` (board_api.dfy): the decision logic
  of `TaskController` and `BoardController`. This includes the extra
  notifications the controllers fire on top of the ones the services fire.

Inputs the core does not compute are parameters:
- the caller `User` comes from authentication;
- `freshId` is the id the store assigns when it saves a record whose id is
  still unset.

Roles are strings, as in the source. Most checks are `"ADMIN".equals(role)`,
but the board notices test `"USER".equals(role)`. So a caller with any other
role is treated as restricted by the access checks, and the board notices
ignore that caller.

Notices from restricted callers go to the literal target `"ADMIN"`. The model
reads that target as one shared administrative inbox:
- `getNotifications` shows it to every ADMIN, since for an ADMIN it returns
  the whole store;
- `getUnreadCount` counts by username for every role, so it does not count
  that inbox for an administrator whose username is not `"ADMIN"`
  (`ReadState.AdminTargetNotCounted`).

Behaviours worth noting:
- A task created by an ADMIN produces a `TASK_ASSIGNED` notice for the
  assignee, never a `TASK_CREATED` one.
- `getUnreadCount` counts by username for ADMIN too; it is not a system-wide count.
- `getAllTasks` has no archived filter, so archiving does not remove a task
  from it.
- A restricted caller named `"ADMIN"` is notified of their own action: the
  own-action check exists only on the ADMIN path.
- The non-admin board listing of `BoardController.getAllBoards` returns the
  boards that hold a task assigned to the caller. It does not return the boards
  the caller created (`BoardApi.OwnedBoardNotListed`), although comments in the
  controller and in `BoardService.getAllBoards` describe "owned + assigned".

## Model

| member | source | states |
|---|---|---|
| Model.NewTask | src/main/java/com/kanban/model/Task.java:28-41 | A newly constructed task has no id and is not archived, and it holds the seven constructor arguments verbatim. |
| Model.NewBoard | src/main/java/com/kanban/model/Board.java:15-34 | A newly constructed board has no id until the store saves it, and it holds name, description, owner and columns verbatim. |
| Model.NewNotification | src/main/java/com/kanban/model/Notification.java:28-39 | A newly constructed notification is unread, and it holds its eight arguments verbatim. |
| Model.SaveKey | src/main/java/com/kanban/model/Board.java:37-38 | A save stores the record under its own id when that id is set, and under the store-generated id otherwise. |
| Access.CanAccessBoard | src/main/java/com/kanban/service/BoardService.java:68-83 | Board read access holds exactly for ADMIN or the board's creator; an assigned task on the board grants nothing. |
| Access.CanAccessBoardById | src/main/java/com/kanban/service/BoardService.java:86-89 | Access by id holds exactly when the board exists and canAccessBoard admits the caller. |
| Access.CanModifyBoard | src/main/java/com/kanban/service/BoardService.java:92-98 | Modify holds exactly for ADMIN, even on a missing id, or for the owner of an existing board. For an existing board it coincides with canAccessBoard. |
| Access.BoardRuleCanCreateTask | src/main/java/com/kanban/service/BoardService.java:101-115 | BoardService's creation rule holds exactly when the board exists and its access rule admits the caller. |
| Access.CreateRulesDiffer | src/main/java/com/kanban/service/TaskService.java:228-231 | TaskService's creation rule admits only ADMIN, whatever the board. On an existing board it implies BoardService's rule, and the two rules differ exactly for a non-admin owner of that board. |
| Access.CanAccessTask | src/main/java/com/kanban/service/TaskService.java:189-211 | Task read access holds exactly for ADMIN, the creator, the assignee, or the owner of the task's board when that board still exists. |
| Access.CanModifyTask | src/main/java/com/kanban/service/TaskService.java:213-225 | Modify holds exactly for ADMIN, or for the non-null assignee of an existing task. |
| Access.CanUpdateTaskStatus | src/main/java/com/kanban/service/TaskService.java:253-265 | The status check is written out separately but coincides with canModifyTask on every input. |
| Access.ModifyImpliesAccess | src/main/java/com/kanban/service/TaskService.java:189-225 | Whoever may modify an existing task may also read it. |
| Access.AccessWithoutModify | src/main/java/com/kanban/service/TaskService.java:189-225 | A non-admin creator who is not the assignee may read the task but not modify it. |
| Queries.GetAllBoards | src/main/java/com/kanban/service/BoardService.java:20-26 | ADMIN gets every board; anyone else gets exactly the boards they created, with the stored records. |
| Queries.AllBoardsAreTheAccessibleOnes | src/main/java/com/kanban/service/BoardService.java:20-26 | getAllBoards lists exactly the boards canAccessBoard admits. |
| Queries.GetBoardById | src/main/java/com/kanban/service/BoardService.java:29-35 | Returns the stored board exactly when it exists and canAccessBoard holds, and empty otherwise. |
| Queries.AssignedBoardIds | src/main/java/com/kanban/service/TaskService.java:240-244 | The deduplicated board ids are exactly those of the tasks assigned to the user. |
| Queries.GetAccessibleBoards | src/main/java/com/kanban/service/TaskService.java:234-248 | ADMIN gets every board. Anyone else gets exactly the existing boards that hold a task assigned to them, whoever owns those boards. |
| Queries.GetAllTasks | src/main/java/com/kanban/service/TaskService.java:54-61 | ADMIN gets every task; anyone else gets exactly the tasks assigned to them, archived ones included. |
| Queries.GetArchivedTasks | src/main/java/com/kanban/service/TaskService.java:163-169 | Returns exactly the archived tasks: all of them for ADMIN, and those assigned to the caller otherwise. |
| Queries.GetTasksByBoard | src/main/java/com/kanban/service/TaskService.java:32-52 | Fails exactly when the board is missing. ADMIN and the board owner get every task with that board id; anyone else gets only the ones assigned to them. |
| Queries.GetTaskById | src/main/java/com/kanban/service/TaskService.java:63-69 | Returns the stored task exactly when it exists and canAccessTask holds. |
| Queries.ListingsAreAccessible | src/main/java/com/kanban/service/TaskService.java:32-61 | Every task that getAllTasks, getArchivedTasks or getTasksByBoard hands out passes canAccessTask. |
| Queries.ReadableButUnlisted | src/main/java/com/kanban/service/TaskService.java:54-61 | A non-admin board owner who is not the assignee may read a task that getAllTasks does not list for them. |
| Queries.ListedButNotReadable | src/main/java/com/kanban/service/TaskService.java:234-248 | A board reached through an assigned task is listed by getAccessibleBoards, yet getBoardById hides it when someone else owns it. |
| Notify.TaskNotice | src/main/java/com/kanban/service/NotificationService.java:91-262 | For an ADMIN actor, a notice exists exactly when the assignee is set, differs from the actor and is not "ADMIN", and it targets that assignee. Any other actor's notice targets "ADMIN" and names the actor in its message. The type follows the event, and ADMIN creation gives TASK_ASSIGNED. A board id that does not resolve gives the board name "Unknown Board". The message contains the task title and the board name, and an update or assignment message ends with the new status. Every notice is unread and carries the actor and the task's ids. |
| Notify.BoardNameOf | src/main/java/com/kanban/service/NotificationService.java:92-93 | A resolving board id gives that board's name. The result is "Unknown Board" exactly when the id does not resolve or the board really has that name. |
| Notify.TaskKind | src/main/java/com/kanban/service/NotificationService.java:91-262 | Task events never give a board type. TASK_CREATED comes exactly from a non-admin creation, and TASK_ASSIGNED exactly from an assignment or an ADMIN creation. Updates, archives and restores keep their own types. |
| Notify.AssigneeMessage | src/main/java/com/kanban/service/NotificationService.java:91-262 | The message to an assignee contains the task title and the board name. An update or assignment message ends with `' to '<status>'`. |
| Notify.AdminMessage | src/main/java/com/kanban/service/NotificationService.java:91-262 | The message to "ADMIN" contains the task title, the board name and the actor. An update or assignment message ends with `' to '<status>'`. |
| Notify.AssigneeStem | src/main/java/com/kanban/service/NotificationService.java:91-262 | The part of an assignee message before the status contains the task title and the board name. |
| Notify.AdminStem | src/main/java/com/kanban/service/NotificationService.java:91-262 | The part of a message to "ADMIN" before the status contains the task title, the board name and the actor. |
| Notify.UpdateNoticesDiffer | src/main/java/com/kanban/service/NotificationService.java:120-146 | Whenever an update of the task produces a notice (any non-admin actor, or an ADMIN with an assignee other than the actor and "ADMIN"), update notices that differ in status exist and have different messages. |
| Notify.BoardNotice | src/main/java/com/kanban/service/NotificationService.java:77-233 | A board notice exists exactly when the actor's role is "USER". It targets "ADMIN", has no task id, carries the board's id and name, and has the type of the event. Its message contains the board name and the actor. |
| Notify.BoardNoticesCollideOnName | src/main/java/com/kanban/service/NotificationService.java:77-233 | Two board notices of one kind from one USER have the same message exactly when the boards have the same name. The board id is not part of the message. |
| Notify.SameNameBoardNoticeAbsorbed | src/main/java/com/kanban/service/NotificationService.java:264-280 | A USER who creates two boards with the same name gets one creation notice stored, because the second is a duplicate of the first while the first is unread. |
| Notify.SameTaskId | src/main/java/com/kanban/service/NotificationService.java:269-270 | The null-aware task-id clause of the duplicate test is exactly equality of the two optional ids. |
| Notify.DuplicateExists | src/main/java/com/kanban/service/NotificationService.java:265-273 | The scan holds exactly when some stored notification is unread and has the same target, type, task id and message. |
| Notify.Matches | src/main/java/com/kanban/service/NotificationService.java:267-273 | An existing notification blocks a new one exactly when it is unread and equals the new one in message, type, target and task id. Title, board id, board name and triggering user are ignored. |
| Notify.SafeSave | src/main/java/com/kanban/service/NotificationService.java:264-280 | The store is unchanged exactly when an unread duplicate exists. Otherwise the new notice is appended and nothing else changes. |
| Notify.Emit | src/main/java/com/kanban/service/NotificationService.java:264-280 | Firing a notice keeps every stored notification in place and adds at most one. An unread fired notice always leaves an unread duplicate of itself in the store. |
| Notify.SafeSaveExtends | src/main/java/com/kanban/service/NotificationService.java:264-280 | A save never alters stored notifications: the old store is a prefix of the new one, which has at most one more entry. |
| Notify.DuplicateSurvivesSave | src/main/java/com/kanban/service/NotificationService.java:264-280 | An unread duplicate already stored stays a duplicate after any later save. |
| Notify.SavedIsDuplicate | src/main/java/com/kanban/service/NotificationService.java:264-280 | After saving an unread notice, the store holds an unread duplicate of it. |
| Notify.SafeSaveIdempotent | src/main/java/com/kanban/service/NotificationService.java:264-280 | Saving the same fresh notice twice in a row stores it once. |
| Notify.EmitIdempotent | src/main/java/com/kanban/service/NotificationService.java:264-280 | Firing the same candidate notice twice in a row has the effect of firing it once. |
| Notify.EmitRepeatAbsorbed | src/main/java/com/kanban/service/NotificationService.java:264-280 | Firing a notice, then another, then the first again leaves the store as after the first two. |
| Notify.TaskNoticeIgnoresArchived | src/main/java/com/kanban/service/NotificationService.java:179-205 | The notice built for a task does not depend on its archived flag. |
| Notify.StatusChangeNotAbsorbed | src/main/java/com/kanban/service/NotificationService.java:264-280 | Two unread notices with different messages are both stored, in firing order, when neither has an unread duplicate stored already. |
| Notify.StatusMovesBothStored | src/main/java/com/kanban/service/NotificationService.java:120-146 | Moving a task to one status and then another stores both update notices, when neither has an unread duplicate stored already. A repeat of the same move is absorbed instead (Notify.EmitIdempotent). |
| ReadState.ForTarget | src/main/java/com/kanban/repository/NotificationRepository.java:11 | The filtered list holds the stored notifications addressed to the user, each as many times as it is stored, and nothing else. |
| ReadState.GetNotifications | src/main/java/com/kanban/service/NotificationService.java:25-30 | ADMIN sees the whole store. Anyone else sees exactly the notifications addressed to them, each as many times as it is stored. |
| ReadState.UnreadCount | src/main/java/com/kanban/service/NotificationService.java:33-35 | The count is the number of stored notifications that are addressed to the username and unread. |
| ReadState.MarkAsRead | src/main/java/com/kanban/service/NotificationService.java:38-48 | The read flag is set only when the id exists and the caller is ADMIN or its target. Every other entry, and the whole store in every other case, is unchanged. |
| ReadState.MarkableIffListed | src/main/java/com/kanban/service/NotificationService.java:43 | A caller may mark a notification read exactly when getNotifications lists it for them. |
| ReadState.MarkAllAsRead | src/main/java/com/kanban/service/NotificationService.java:51-68 | ADMIN marks every notification read. Anyone else marks only their own and leaves other users' untouched. Only the read flag changes. Afterwards the caller's unread count is 0 and every entry getNotifications lists for them is read. |
| ReadState.MarkAsReadOthersUnaffected | src/main/java/com/kanban/service/NotificationService.java:38-48 | Marking a notification read leaves the unread count of every other user unchanged. |
| ReadState.UnreadCountPointwise | src/main/java/com/kanban/service/NotificationService.java:33-35 | Stores that agree entry by entry on what is unread for a user give that user the same count. |
| ReadState.AdminTargetNotCounted | src/main/java/com/kanban/service/NotificationService.java:33-35 | Two stores that differ only in notices addressed to "ADMIN" give the same unread count for every other username. So those notices never count for an administrator with another name. |
| ReadState.MarkOwnDecrements | src/main/java/com/kanban/service/NotificationService.java:38-48 | Marking one's own unread notification lowers one's unread count by exactly one. |
| ReadState.UnreadCountForTarget | src/main/java/com/kanban/service/NotificationService.java:33-35 | Counting the unread entries of the user's filtered list gives the same number as counting over the whole store. |
| ReadState.UnreadCountMatchesList | src/main/java/com/kanban/service/NotificationService.java:25-35 | For a non-admin, and for an administrator whose username is "ADMIN", the unread count equals the number of unread entries in their getNotifications list. |
| Tasks.CreateTask | src/main/java/com/kanban/service/TaskService.java:71-89 | Fails unless the caller is ADMIN and the board exists, with the store unchanged. On success the stored task is the given one with the caller as creator, other tasks and boards are unchanged, and the creation notice is fired. |
| Tasks.CopyEditable | src/main/java/com/kanban/service/TaskService.java:98-102 | Exactly title, description, status, priority and assignee are copied; id, board id, creator and archived flag stay. |
| Tasks.UpdateTask | src/main/java/com/kanban/service/TaskService.java:92-115 | Succeeds exactly for an existing task under canModifyTask, and a failure leaves the store unchanged. It copies only the five editable fields, then fires UPDATED, then ASSIGNED when the assignee changed. |
| Tasks.UpdateTaskStatusOnly | src/main/java/com/kanban/service/TaskService.java:118-138 | Fails on a missing task, or unless the caller is the assignee, ADMIN included. On success only the status changes and one UPDATED notice is fired. |
| Tasks.DeleteTask | src/main/java/com/kanban/service/TaskService.java:141-160 | ADMIN only, and fails on a missing task. On success only the archived flag becomes true, the record is kept, and the archive notice is fired. |
| Tasks.RestoreTask | src/main/java/com/kanban/service/TaskService.java:173-186 | There is no role check; it fails only on a missing task. Only the archived flag becomes false, and the restore notice is fired. |
| Tasks.ArchiveRestoreRoundTrip | src/main/java/com/kanban/service/TaskService.java:141-186 | Archiving and then restoring an active task gives back the original task map. |
| Tasks.ArchivedIsListed | src/main/java/com/kanban/service/TaskService.java:54-61 | An archived task appears in the archived listing of ADMIN and of its assignee, and it stays in getAllTasks. |
| Tasks.RestoredIsNotArchived | src/main/java/com/kanban/service/TaskService.java:163-186 | After restore the task is in nobody's archived listing. |
| Boards.CreateBoard | src/main/java/com/kanban/service/BoardService.java:38-41 | Always succeeds. The stored board is the given one with the caller as owner, and nothing else changes. |
| Boards.UpdateBoard | src/main/java/com/kanban/service/BoardService.java:45-55 | Succeeds exactly for an existing, modifiable board, and a failure leaves the store unchanged. Only name, description and columns change, so id and owner are kept. |
| Boards.DeleteBoard | src/main/java/com/kanban/service/BoardService.java:59-65 | Removes the board exactly when canModifyBoard holds, and fails with the store unchanged otherwise. For ADMIN a missing id is a successful no-op. Tasks stay behind. |
| Boards.DeletedBoardIsUnknown | src/main/java/com/kanban/service/NotificationService.java:179-181 | After its board is deleted, a task remains, and any notice about it names the board "Unknown Board". |
| TaskApi.AssignmentChanged | src/main/java/com/kanban/controller/TaskController.java:97 | The null-aware comparison holds exactly when the old and requested assignees differ. |
| TaskApi.CreateTaskEndpoint | src/main/java/com/kanban/controller/TaskController.java:54-81 | A non-admin gets Forbidden with the store untouched, and a missing board gives BadRequest. On success, status defaults to "To Do" and priority to "Medium", and the creator is the caller. |
| TaskApi.CreateNotifiesOnce | src/main/java/com/kanban/controller/TaskController.java:72-75 | The creation notice is fired by the service and again by the controller, yet the store ends as after one firing. |
| TaskApi.AdminCreateNotifiesAssignee | src/main/java/com/kanban/service/NotificationService.java:95-107 | ADMIN creating a task for someone else produces one TASK_ASSIGNED notice for that assignee. It is appended exactly once when no unread duplicate exists. |
| TaskApi.ChangesMoreThanStatus | src/main/java/com/kanban/controller/TaskController.java:127-131 | The check fails exactly when applying the request's title, description, priority, assignee and board id to the task changes nothing. |
| TaskApi.UpdateTaskEndpoint | src/main/java/com/kanban/controller/TaskController.java:84-155 | A task the caller cannot read gives NotFound before any other check. The update succeeds exactly for ADMIN, or for the assignee when only the status changes; every other reader gets Forbidden. ADMIN's edit keeps the stored creator and board id. A restricted edit changes only the status. Every failure leaves the store unchanged. |
| TaskApi.AdminReassignNotifiesTwice | src/main/java/com/kanban/controller/TaskController.java:110-117 | An ADMIN reassignment fires UPDATED, ASSIGNED, then ASSIGNED again, and only the repeat is absorbed. A new assignee who is neither the actor nor "ADMIN" holds both an unread UPDATED and an unread ASSIGNED notice. |
| TaskApi.AdminPlainUpdateNotifiesOnce | src/main/java/com/kanban/controller/TaskController.java:110-117 | An ADMIN update that keeps the assignee fires UPDATED twice, and it is stored as once. |
| TaskApi.AdminUnassignIsSilent | src/main/java/com/kanban/controller/TaskController.java:110-117 | An ADMIN update that clears the assignee adds no notification. |
| TaskApi.RestrictedUpdateNotifiesOnce | src/main/java/com/kanban/controller/TaskController.java:145-148 | An accepted restricted edit notifies the "ADMIN" target with one TASK_UPDATED notice, though it is fired twice. |
| TaskApi.DeleteTaskEndpoint | src/main/java/com/kanban/controller/TaskController.java:158-184 | A non-admin gets Forbidden with the store untouched, and a missing task gives NotFound. Otherwise the task is archived, kept, and nothing else in it changes. |
| TaskApi.DeleteNotifiesOnce | src/main/java/com/kanban/controller/TaskController.java:168-175 | The archive notice is fired by the service and again by the controller with the pre-archive copy, and it is stored as once. |
| TaskApi.UpdateTaskStatusEndpoint | src/main/java/com/kanban/controller/TaskController.java:198-213 | Forbidden when canUpdateTaskStatus fails. It succeeds exactly for the assignee. An ADMIN who is not the assignee passes the check but gets NotFound with the store unchanged. |
| TaskApi.RestoreTaskEndpoint | src/main/java/com/kanban/controller/TaskController.java:224-232 | Any caller restores an existing task, and a missing task gives NotFound with the store unchanged. On success only the archived flag changes, the boards stay, and the restore notice is fired. |
| BoardApi.ListBoards | src/main/java/com/kanban/controller/BoardController.java:31-45 | ADMIN gets every board; anyone else gets exactly the boards holding a task assigned to them. |
| BoardApi.OwnedBoardNotListed | src/main/java/com/kanban/controller/BoardController.java:31-45 | A non-admin's own board with no task assigned to them is missing from their listing, although getAllBoards and getBoardById both give it. |
| BoardApi.CreateBoardEndpoint | src/main/java/com/kanban/controller/BoardController.java:54-69 | Missing columns become ["To Do","In Progress","Done"] and given ones are kept. The owner is the caller. Only a "USER" caller adds a notice. |
| BoardApi.UpdateBoardEndpoint | src/main/java/com/kanban/controller/BoardController.java:71-86 | A missing or unmodifiable board gives NotFound with the store unchanged. The stored owner and id survive, and absent columns are stored as absent. |
| BoardApi.DeleteBoardEndpoint | src/main/java/com/kanban/controller/BoardController.java:88-109 | Deletes exactly when canModifyBoard holds, and gives NotFound with the store unchanged otherwise. A notice goes out only for an existing board getBoardById found, and only from a "USER" caller. |

## Left out

- Token handling (`JwtTokenProvider`, `JwtAuthenticationFilter`) is not part of this model: the caller `User(name, role)` is an input.
- `TaskController.isAdmin` reads Spring authorities, and `User.getAuthorities` is not part of this model. It is modelled as `role == "ADMIN"`.
- `NotificationController` is a pass-through with logging, so it is left out.
- The repository interfaces are left out. Their derived queries are modelled as map and sequence filters.
- The `OrderByCreatedAtDesc` ordering is left out; listings keep store order. The duplicate check is order-independent.
- `createdAt` and `updatedAt` timestamps are left out, and so is console logging.
- `@PreAuthorize` annotations are left out. They repeat the explicit in-body checks, which are modelled.
- The check-then-insert race in `safeSaveNotification` is left out: each operation is modelled as atomic.
- Java setters are not separate members. Each is a datatype update `t.(field := v)`, which changes only that field by construction.
- Null fields in an update request are not modelled, because `TaskApi.TaskEdit` holds plain strings. In the Java code an ADMIN request stores a null title, description, status or priority, and its board id is ignored. A restricted request with a null title, description, priority or board id gets Forbidden. A restricted request with a null status stores it.
- A null board id in a create request is not modelled. The store would reject the lookup.
- Other request fields that Java allows to be null are plain strings here, so their null case is not modelled. These are the title and description of a task create request, which the Java code stores as null so that the notice reads "Task 'null' …". They are the name and description of a board request, stored as null so that the notice reads "New board 'null' created by …". And they are the status of `PUT /tasks/{id}/status`, which is stored as null.
- Thin read-only endpoints are left out: `GET /tasks` (`getAllTasks`), `getTaskById`, `getTasksByBoard`, `getArchivedTasks`, `getBoardById` and `/boards/accessible`. Each returns the service result, or NotFound on an exception, and the service functions are modelled.
- `BoardController.updateBoard` builds its board with a null owner. That null is not representable here: `Boards.UpdateBoard` takes only the name, description and columns, which are the fields `BoardService.updateBoard` reads.
- Notification ids are positions in the append-only notification store, not generated strings.
