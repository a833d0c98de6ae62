/** TodoListService, internal/service/todo-list.go: validation in front of UpdateList,
    plain delegation for the other calls. Its only field is the repository. */
module ServiceTodoList {
  import opened Errors
  import opened Domain
  import opened Store
  import opened PsqlTodoList

  class TodoListService {
    const repo: TodoListRepo

    constructor (repo: TodoListRepo)
      ensures this.repo == repo
    {
      this.repo := repo;
    }

    method CreateList(userId: int, list: TodoList, tx: TxFaults) returns (listId: int, err: Option<Error>)
      requires repo.db.Valid()
      modifies repo.db`todoLists, repo.db`nextListId, repo.db`usersLists, repo.db`nextUsersListId
      ensures repo.db.Valid()
      ensures err == tx.FirstError()
      ensures tx.AllOk() ==>
                listId == old(repo.db.nextListId)
                && repo.db.todoLists == old(repo.db.todoLists) + [TodoList(listId, list.title, list.description)]
                && repo.db.usersLists == old(repo.db.usersLists) + [UsersList(old(repo.db.nextUsersListId), userId, listId)]
                && forall l :: l in old(repo.db.todoLists) ==> l.id != listId
      ensures !tx.AllOk() ==> repo.db.todoLists == old(repo.db.todoLists) && repo.db.usersLists == old(repo.db.usersLists)
      ensures !tx.AllOk() ==> listId == if tx.FailsAtCommit() then old(repo.db.nextListId) else 0
    {
      listId, err := repo.CreateList(userId, list, tx);
    }

    method GetAllLists(userId: int, query: Fault, next: Option<nat>, scan: Option<ScanFailure>)
      returns (lists: seq<TodoList>, err: Option<Error>)
      ensures query.Some? ==> lists == [] && err == query
      ensures query.None? ==>
                var rows := SelectLists(repo.db.todoLists, repo.db.usersLists, userId);
                var end := RowsRead(|rows|, next);
                if scan.Some? && scan.value.row < end
                then lists == rows[..scan.value.row] && err == Some(scan.value.error)
                else lists == rows[..end] && err.None?
      ensures forall l :: l in lists ==> l in repo.db.todoLists && Owns(repo.db.usersLists, userId, l.id)
      ensures err.None? && next.None? ==>
                forall l :: l in lists <==> l in repo.db.todoLists && Owns(repo.db.usersLists, userId, l.id)
    {
      lists, err := repo.GetAllLists(userId, query, next, scan);
    }

    method GetListById(userId: int, listId: int, query: Fault) returns (list: TodoList, err: Option<Error>)
      ensures query.Some? ==> err == query
      ensures query.None? ==>
                (err.None? <==> SelectListById(repo.db.todoLists, repo.db.usersLists, userId, listId).Some?)
      ensures query.None? && err.Some? ==> err == Some(NoRows)
      ensures err.None? ==> list in repo.db.todoLists && list.id == listId && Owns(repo.db.usersLists, userId, listId)
      ensures err.Some? ==> list == TodoList(0, "", "")
    {
      list, err := repo.GetListById(userId, listId, query);
    }

    method DeleteList(userId: int, listId: int, exec: Fault) returns (err: Option<Error>)
      requires repo.db.Valid()
      modifies repo.db`todoLists
      ensures repo.db.Valid()
      ensures err == exec
      ensures repo.db.todoLists == if exec.Some? then old(repo.db.todoLists)
                                   else DeleteOwnedList(old(repo.db.todoLists), repo.db.usersLists, userId, listId)
    {
      err := repo.DeleteList(userId, listId, exec);
    }

    /** Rejects an input with no field before the repository is reached, so the
        malformed `SET  FROM` statement is never sent. */
    method UpdateList(userId: int, listId: int, input: UpdateListInput, exec: Fault) returns (err: Option<Error>)
      requires repo.db.Valid()
      modifies repo.db`todoLists
      ensures repo.db.Valid()
      ensures input.FieldCount() == 0 ==> err == Some(Msg(NoValues)) && repo.db.todoLists == old(repo.db.todoLists)
      ensures input.FieldCount() > 0 && exec.Some? ==> err == exec && repo.db.todoLists == old(repo.db.todoLists)
      ensures input.FieldCount() > 0 && exec.None? ==>
                err.None?
                && repo.db.todoLists == UpdateOwnedList(old(repo.db.todoLists), repo.db.usersLists, userId, listId, ListChange(input))
      ensures exec.None? ==> err != Some(SyntaxError)
    {
      var invalid := input.Validate();
      if invalid.Some? {
        return invalid;
      }
      err := repo.UpdateList(userId, listId, input, exec);
    }
  }
}
