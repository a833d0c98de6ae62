/** TodoItemService, internal/service/todo-item.go: an ownership check on the list before
    CreateItem, plain delegation for the other calls. UpdateItem is not validated here. */
module ServiceTodoItem {
  import opened Errors
  import opened Domain
  import opened Store
  import opened SetClause
  import opened PsqlTodoList
  import opened PsqlTodoItem

  class TodoItemService {
    const repo: TodoItemRepo
    const listRepo: TodoListRepo

    constructor (repo: TodoItemRepo, listRepo: TodoListRepo)
      ensures this.repo == repo && this.listRepo == listRepo
    {
      this.repo := repo;
      this.listRepo := listRepo;
    }

    /** Looks the list up as `userId` first (`lookup` is that query's fault); only when the
        lookup succeeds is the item created. Over one shared store the new item is then
        reachable from `userId`. */
    method CreateItem(userId: int, listId: int, item: TodoItem, lookup: Fault, tx: TxFaults)
      returns (itemId: int, err: Option<Error>)
      requires repo.db.Valid()
      modifies repo.db`todoItems, repo.db`nextItemId, repo.db`listsItems, repo.db`nextListsItemId
      ensures repo.db.Valid()
      ensures var check := if lookup.Some? then lookup
                           else if SelectListById(listRepo.db.todoLists, listRepo.db.usersLists, userId, listId).None?
                           then Some(NoRows) else None;
              if check.Some?
              then itemId == 0 && err == check
                   && repo.db.todoItems == old(repo.db.todoItems) && repo.db.listsItems == old(repo.db.listsItems)
              else err == tx.FirstError()
                   && (tx.AllOk() ==>
                         itemId == old(repo.db.nextItemId)
                         && repo.db.todoItems == old(repo.db.todoItems) + [TodoItem(itemId, item.title, item.description, false)]
                         && repo.db.listsItems == old(repo.db.listsItems) + [ListsItem(old(repo.db.nextListsItemId), listId, itemId)]
                         && forall i :: i in old(repo.db.todoItems) ==> i.id != itemId)
                   && (!tx.AllOk() ==> repo.db.todoItems == old(repo.db.todoItems) && repo.db.listsItems == old(repo.db.listsItems)
                                       && itemId == if tx.FailsAtCommit() then old(repo.db.nextItemId) else 0)
      ensures err.None? && repo.db == listRepo.db ==> Reaches(repo.db.listsItems, repo.db.usersLists, userId, itemId)
    {
      var _, lookupErr := listRepo.GetListById(userId, listId, lookup);
      if lookupErr.Some? {
        return 0, lookupErr;
      }
      itemId, err := repo.CreateItem(listId, item, tx);
      if err.None? && repo.db == listRepo.db {
        var k := |repo.db.listsItems| - 1;
        assert repo.db.listsItems[k].itemId == itemId && repo.db.listsItems[k].listId == listId;
      }
    }

    method GetAllItems(userId: int, listId: int, query: Fault, next: Option<nat>, scan: Option<ScanFailure>)
      returns (items: seq<TodoItem>, err: Option<Error>)
      ensures query.Some? ==> items == [] && err == query
      ensures query.None? ==>
                var rows := SelectItems(repo.db.todoItems, repo.db.listsItems, repo.db.usersLists, userId, listId);
                var end := RowsRead(|rows|, next);
                if scan.Some? && scan.value.row < end
                then items == rows[..scan.value.row] && err == Some(scan.value.error)
                else items == rows[..end] && err.None?
      ensures !Owns(repo.db.usersLists, userId, listId) ==> items == []
      ensures forall i :: i in items ==> i in repo.db.todoItems && InList(repo.db.listsItems, i.id, listId)
      ensures err.None? && next.None? ==>
                forall i :: i in items <==> i in repo.db.todoItems && InList(repo.db.listsItems, i.id, listId)
                                            && Owns(repo.db.usersLists, userId, listId)
    {
      items, err := repo.GetAllItems(userId, listId, query, next, scan);
    }

    method GetItemById(userId: int, itemId: int, query: Fault) returns (item: TodoItem, err: Option<Error>)
      ensures query.Some? ==> err == query
      ensures query.None? ==>
                (err.None? <==> SelectItemById(repo.db.todoItems, repo.db.listsItems, repo.db.usersLists, userId, itemId).Some?)
      ensures query.None? && err.Some? ==> err == Some(NoRows)
      ensures err.None? ==>
                item in repo.db.todoItems && item.id == itemId && Reaches(repo.db.listsItems, repo.db.usersLists, userId, itemId)
      ensures err.Some? ==> item == TodoItem(0, "", "", false)
    {
      item, err := repo.GetItemById(userId, itemId, query);
    }

    method DeleteItem(userId: int, itemId: int, exec: Fault) returns (err: Option<Error>)
      requires repo.db.Valid()
      modifies repo.db`todoItems
      ensures repo.db.Valid()
      ensures err == exec
      ensures repo.db.todoItems == if exec.Some? then old(repo.db.todoItems)
                                   else DeleteReachableItem(old(repo.db.todoItems), repo.db.listsItems, repo.db.usersLists, userId, itemId)
    {
      err := repo.DeleteItem(userId, itemId, exec);
    }

    /** No validation: an input with no field reaches the repository and fails as a
        malformed statement. */
    method UpdateItem(userId: int, itemId: int, input: UpdateItemInput, exec: Fault) returns (err: Option<Error>)
      requires repo.db.Valid()
      modifies repo.db`todoItems
      ensures repo.db.Valid()
      ensures exec.Some? ==> err == exec && repo.db.todoItems == old(repo.db.todoItems)
      ensures exec.None? && input.FieldCount() == 0 ==> err == Some(SyntaxError) && repo.db.todoItems == old(repo.db.todoItems)
      ensures exec.None? && input.FieldCount() > 0 ==>
                err.None?
                && repo.db.todoItems == UpdateReachableItem(old(repo.db.todoItems), repo.db.listsItems, repo.db.usersLists,
                                                            userId, itemId, ItemChange(input))
    {
      err := repo.UpdateItem(userId, itemId, input, exec);
    }
  }
}
