/** The role-split listing queries of BoardService and TaskService. A listing is
    the sub-map of the store holding the records the caller gets back. */
module Queries {
  import opened Model
  import opened Access

  /** BoardService.getAllBoards: ADMIN gets every board, anyone else the boards
      they created. */
  function GetAllBoards(boards: map<string, Board>, u: User): (r: map<string, Board>)
    ensures forall k :: k in r <==> k in boards && (IsAdmin(u) || boards[k].createdBy == u.name)
    ensures forall k :: k in r ==> r[k] == boards[k]
  {
    if IsAdmin(u) then boards
    else map k | k in boards && boards[k].createdBy == u.name :: boards[k]
  }

  /** getAllBoards lists exactly the boards canAccessBoard admits. */
  lemma AllBoardsAreTheAccessibleOnes(boards: map<string, Board>, u: User, k: string)
    requires k in boards
    ensures k in GetAllBoards(boards, u) <==> CanAccessBoard(boards[k], u)
  {
  }

  /** BoardService.getBoardById: the board when it exists and canAccessBoard holds. */
  function GetBoardById(boards: map<string, Board>, id: string, u: User): (r: Option<Board>)
    ensures r.Some? <==> id in boards && CanAccessBoard(boards[id], u)
    ensures r.Some? ==> r.value == boards[id]
  {
    if id in boards && CanAccessBoard(boards[id], u) then Some(boards[id]) else None
  }

  /** The distinct board ids of the tasks assigned to `name`. */
  function AssignedBoardIds(tasks: map<string, Task>, name: string): (ids: set<string>)
    ensures forall b :: b in ids <==> exists j :: j in tasks && tasks[j].assignedTo == Some(name) && tasks[j].boardId == b
  {
    set j | j in tasks && tasks[j].assignedTo == Some(name) :: tasks[j].boardId
  }

  /** TaskService.getAccessibleBoards: ADMIN gets every board; anyone else the
      existing boards holding a task assigned to them, whoever owns them. */
  function GetAccessibleBoards(boards: map<string, Board>, tasks: map<string, Task>, u: User): (r: map<string, Board>)
    ensures forall k :: k in r <==>
              k in boards && (IsAdmin(u) || exists j :: j in tasks && tasks[j].assignedTo == Some(u.name) && tasks[j].boardId == k)
    ensures forall k :: k in r ==> r[k] == boards[k]
  {
    if IsAdmin(u) then boards
    else
      var ids := AssignedBoardIds(tasks, u.name);
      map k | k in boards && k in ids :: boards[k]
  }

  /** TaskService.getAllTasks: ADMIN gets every task, anyone else the tasks
      assigned to them; archived tasks are not filtered out. */
  function GetAllTasks(tasks: map<string, Task>, u: User): (r: map<string, Task>)
    ensures forall k :: k in r <==> k in tasks && (IsAdmin(u) || tasks[k].assignedTo == Some(u.name))
    ensures forall k :: k in r ==> r[k] == tasks[k]
  {
    if IsAdmin(u) then tasks
    else map k | k in tasks && tasks[k].assignedTo == Some(u.name) :: tasks[k]
  }

  /** TaskService.getArchivedTasks: the archived tasks, all of them for ADMIN,
      those assigned to the caller otherwise. */
  function GetArchivedTasks(tasks: map<string, Task>, u: User): (r: map<string, Task>)
    ensures forall k :: k in r <==> k in tasks && tasks[k].archived && (IsAdmin(u) || tasks[k].assignedTo == Some(u.name))
    ensures forall k :: k in r ==> r[k] == tasks[k]
  {
    if IsAdmin(u) then map k | k in tasks && tasks[k].archived :: tasks[k]
    else map k | k in tasks && tasks[k].assignedTo == Some(u.name) && tasks[k].archived :: tasks[k]
  }

  /** TaskService.getTasksByBoard: fails on a missing board; ADMIN and the board's
      owner get all its tasks, anyone else only the ones assigned to them. */
  function GetTasksByBoard(boards: map<string, Board>, tasks: map<string, Task>, boardId: string, u: User)
    : (r: Result<map<string, Task>>)
    ensures r.Failure? <==> boardId !in boards
    ensures r.Success? ==> forall k :: k in r.value <==>
              && k in tasks && tasks[k].boardId == boardId
              && (IsAdmin(u) || boards[boardId].createdBy == u.name || tasks[k].assignedTo == Some(u.name))
    ensures r.Success? ==> forall k :: k in r.value ==> r.value[k] == tasks[k]
  {
    if boardId !in boards then Failure(MissingOrDenied)
    else if IsAdmin(u) || boards[boardId].createdBy == u.name then
      Success(map k | k in tasks && tasks[k].boardId == boardId :: tasks[k])
    else
      Success(map k | k in tasks && tasks[k].boardId == boardId && tasks[k].assignedTo == Some(u.name) :: tasks[k])
  }

  /** TaskService.getTaskById: the task when it exists and canAccessTask holds. */
  function GetTaskById(boards: map<string, Board>, tasks: map<string, Task>, id: string, u: User): (r: Option<Task>)
    ensures r.Some? <==> id in tasks && CanAccessTask(boards, tasks[id], u)
    ensures r.Some? ==> r.value == tasks[id]
  {
    if id in tasks && CanAccessTask(boards, tasks[id], u) then Some(tasks[id]) else None
  }

  /** Every task a listing hands out is one the caller may read. */
  lemma ListingsAreAccessible(boards: map<string, Board>, tasks: map<string, Task>, boardId: string, u: User, k: string)
    ensures k in GetAllTasks(tasks, u) ==> CanAccessTask(boards, tasks[k], u)
    ensures k in GetArchivedTasks(tasks, u) ==> CanAccessTask(boards, tasks[k], u)
    ensures GetTasksByBoard(boards, tasks, boardId, u).Success? && k in GetTasksByBoard(boards, tasks, boardId, u).value
            ==> CanAccessTask(boards, tasks[k], u)
  {
  }

  /** getAllTasks misses tasks a non-admin may read: the creator or board owner who
      is not the assignee reads the task but does not get it listed. */
  lemma ReadableButUnlisted(boards: map<string, Board>, tasks: map<string, Task>, k: string, u: User)
    requires k in tasks && !IsAdmin(u)
    requires tasks[k].boardId in boards && boards[tasks[k].boardId].createdBy == u.name
    requires tasks[k].assignedTo != Some(u.name)
    ensures CanAccessTask(boards, tasks[k], u) && k !in GetAllTasks(tasks, u)
  {
  }

  /** A board a non-admin reaches through an assigned task is listed by
      getAccessibleBoards yet hidden by getBoardById when someone else owns it. */
  lemma ListedButNotReadable(boards: map<string, Board>, tasks: map<string, Task>, j: string, u: User)
    requires j in tasks && !IsAdmin(u) && tasks[j].assignedTo == Some(u.name)
    requires tasks[j].boardId in boards && boards[tasks[j].boardId].createdBy != u.name
    ensures tasks[j].boardId in GetAccessibleBoards(boards, tasks, u)
    ensures GetBoardById(boards, tasks[j].boardId, u) == None
  {
  }
}
