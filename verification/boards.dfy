/** The board lifecycle of BoardService: create, update and delete. None of
    these notify; BoardController does that after a successful call. */
module Boards {
  import opened Model
  import opened Access
  import opened Notify

  /** BoardService.createBoard: anyone may create; the owner is forced to the
      caller. `freshId` is the id the store assigns on save. */
  function CreateBoard(st: Store, b: Board, u: User, freshId: string): (r: Step<Board>)
    ensures r.out.Success?
    ensures var s := r.out.value;
            var key := SaveKey(b.id, freshId);
            && s == b.(id := Some(key), createdBy := u.name)
            && r.st.boards.Keys == st.boards.Keys + {key}
            && r.st.boards[key] == s
            && (forall k :: k in st.boards && k != key ==> r.st.boards[k] == st.boards[k])
            && r.st.tasks == st.tasks && r.st.notes == st.notes
    ensures WellKeyed(st) ==> WellKeyed(r.st)
  {
    var key := SaveKey(b.id, freshId);
    var saved := b.(id := Some(key), createdBy := u.name);
    Step(st.(boards := st.boards[key := saved]), Success(saved))
  }

  /** BoardService.updateBoard: an existing board the caller may modify gets the
      new name, description and columns; its id and owner are kept. */
  function UpdateBoard(st: Store, id: string, name: string, description: string,
                       columns: Option<seq<string>>, u: User): (r: Step<Board>)
    ensures r.out.Success? <==> id in st.boards && CanModifyBoard(st.boards, id, u)
    ensures r.out.Failure? ==> r == Step(st, Failure(MissingOrDenied))
    ensures r.out.Success? ==>
              var s := r.out.value;
              && s.name == name && s.description == description && s.columns == columns
              && s.id == st.boards[id].id && s.createdBy == st.boards[id].createdBy
              && r.st.boards.Keys == st.boards.Keys
              && r.st.boards[id] == s
              && (forall k :: k in st.boards && k != id ==> r.st.boards[k] == st.boards[k])
              && r.st.tasks == st.tasks && r.st.notes == st.notes
    ensures WellKeyed(st) ==> WellKeyed(r.st)
  {
    if id in st.boards && CanModifyBoard(st.boards, id, u) then
      var saved := st.boards[id].(name := name, description := description, columns := columns);
      Step(st.(boards := st.boards[id := saved]), Success(saved))
    else
      Step(st, Failure(MissingOrDenied))
  }

  /** BoardService.deleteBoard: removes the board when canModifyBoard holds (for
      ADMIN a missing id is a silent no-op); the board's tasks stay behind. */
  function DeleteBoard(st: Store, id: string, u: User): (r: Step<()>)
    ensures r.out.Success? <==> CanModifyBoard(st.boards, id, u)
    ensures r.out.Failure? ==> r == Step(st, Failure(Denied))
    ensures r.out.Success? ==>
              && r.st.boards.Keys == st.boards.Keys - {id}
              && (forall k :: k in r.st.boards ==> r.st.boards[k] == st.boards[k])
              && r.st.tasks == st.tasks && r.st.notes == st.notes
    ensures IsAdmin(u) && id !in st.boards ==> r == Step(st, Success(()))
    ensures WellKeyed(st) ==> WellKeyed(r.st)
  {
    if CanModifyBoard(st.boards, id, u) then
      Step(st.(boards := st.boards - {id}), Success(()))
    else
      Step(st, Failure(Denied))
  }

  /** Deleting a board orphans its tasks: they remain, and every later notice about
      one of them names the board "Unknown Board". */
  lemma DeletedBoardIsUnknown(st: Store, id: string, u: User, k: string, ev: TaskEvent, actor: User)
    requires CanModifyBoard(st.boards, id, u)
    requires k in st.tasks && st.tasks[k].boardId == id
    ensures var after := DeleteBoard(st, id, u).st;
            && k in after.tasks
            && (TaskNotice(after.boards, ev, after.tasks[k], actor).Some? ==>
                  TaskNotice(after.boards, ev, after.tasks[k], actor).value.boardName == UnknownBoard)
  {
  }
}
