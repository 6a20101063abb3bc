/** The decision logic of BoardController: default columns, the role-split
    board listing, and the notice sent after each successful board change. */
module BoardApi {
  import opened Model
  import opened Access
  import opened Notify
  import opened Queries
  import opened Boards

  /** The columns a board gets when the create request carries none. */
  const DefaultColumns: seq<string> := ["To Do", "In Progress", "Done"]

  /** The body of a create or update request; columns may be absent. */
  datatype BoardRequest = BoardRequest(name: string, description: string, columns: Option<seq<string>>)

  /** GET /boards: ADMIN gets every board; anyone else the boards holding a task
      assigned to them (getAccessibleBoards), not the boards they created. */
  function ListBoards(st: Store, u: User): (r: map<string, Board>)
    ensures forall k :: k in r <==>
              k in st.boards && (IsAdmin(u) || k in AssignedBoardIds(st.tasks, u.name))
    ensures forall k :: k in r ==> r[k] == st.boards[k]
  {
    if IsAdmin(u) then GetAllBoards(st.boards, u) else GetAccessibleBoards(st.boards, st.tasks, u)
  }

  /** A non-admin's own board with no task assigned to them on it is missing from
      their board listing, though getAllBoards and getBoardById both give it. */
  lemma OwnedBoardNotListed(st: Store, k: string, u: User)
    requires !IsAdmin(u) && k in st.boards && st.boards[k].createdBy == u.name
    requires forall j :: j in st.tasks && st.tasks[j].assignedTo == Some(u.name) ==> st.tasks[j].boardId != k
    ensures k !in ListBoards(st, u)
    ensures k in GetAllBoards(st.boards, u) && GetBoardById(st.boards, k, u).Some?
  {
  }

  /** POST /boards: anyone may create; missing columns default to To Do, In
      Progress, Done; the owner is the caller; a USER caller notifies ADMIN. */
  function CreateBoardEndpoint(st: Store, req: BoardRequest, u: User, freshId: string): (r: Reply<Board>)
    ensures r.resp.Ok?
    ensures var b := r.resp.body;
            && b.id == Some(freshId) && b.name == req.name && b.description == req.description
            && b.createdBy == u.name
            && (req.columns.None? ==> b.columns == Some(["To Do", "In Progress", "Done"]))
            && (req.columns.Some? ==> b.columns == req.columns)
            && r.st.boards == st.boards[freshId := b]
            && r.st.tasks == st.tasks
            && r.st.notes == Emit(st.notes, BoardNotice(BoardMade, b, u))
    ensures r.st.notes != st.notes ==> u.role == "USER"
  {
    var columns := if req.columns.Some? then req.columns.value else DefaultColumns;
    var step := CreateBoard(st, NewBoard(req.name, req.description, u.name, Some(columns)), u, freshId);
    var created := step.out.value;
    Reply(step.st.(notes := Emit(step.st.notes, BoardNotice(BoardMade, created, u))), Ok(created))
  }

  /** PUT /boards/{id}: a missing or unmodifiable board is NotFound; the stored
      owner and id survive, and absent columns are stored as absent. */
  function UpdateBoardEndpoint(st: Store, id: string, req: BoardRequest, u: User): (r: Reply<Board>)
    ensures r.resp.Ok? <==> id in st.boards && CanModifyBoard(st.boards, id, u)
    ensures !r.resp.Ok? ==> r == Reply(st, NotFound)
    ensures r.resp.Ok? ==>
              var b := r.resp.body;
              && b.createdBy == st.boards[id].createdBy && b.id == st.boards[id].id
              && b.name == req.name && b.description == req.description && b.columns == req.columns
              && r.st.boards == st.boards[id := b]
              && r.st.tasks == st.tasks
              && r.st.notes == Emit(st.notes, BoardNotice(BoardEdited, b, u))
  {
    var step := UpdateBoard(st, id, req.name, req.description, req.columns, u);
    match step.out
    case Failure(_) => Reply(step.st, NotFound)
    case Success(b) => Reply(step.st.(notes := Emit(step.st.notes, BoardNotice(BoardEdited, b, u))), Ok(b))
  }

  /** DELETE /boards/{id}: deletes when canModifyBoard holds, NotFound otherwise;
      the notice goes out only for a board getBoardById found before deletion. */
  function DeleteBoardEndpoint(st: Store, id: string, u: User): (r: Reply<()>)
    ensures r.resp.Ok? <==> CanModifyBoard(st.boards, id, u)
    ensures !r.resp.Ok? ==> r == Reply(st, NotFound)
    ensures r.resp.Ok? ==> r.st.boards == st.boards - {id} && r.st.tasks == st.tasks
    ensures r.st.notes != st.notes ==> id in st.boards && CanAccessBoard(st.boards[id], u) && u.role == "USER"
    ensures r.resp.Ok? && id in st.boards ==> r.st.notes == Emit(st.notes, BoardNotice(BoardRemoved, st.boards[id], u))
  {
    match GetBoardById(st.boards, id, u)
    case Some(found) =>
      var step := DeleteBoard(st, id, u);
      (match step.out
       case Failure(_) => Reply(step.st, NotFound)
       case Success(_) => Reply(step.st.(notes := Emit(step.st.notes, BoardNotice(BoardRemoved, found, u))), Ok(())))
    case None =>
      var step := DeleteBoard(st, id, u);
      match step.out
      case Failure(_) => Reply(step.st, NotFound)
      case Success(_) => Reply(step.st, Ok(()))
  }
}
