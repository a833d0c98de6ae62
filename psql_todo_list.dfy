/** The list repository, internal/repository/psql/todo-list.go, over the in-memory
    `todo_lists` and `users_lists` tables. */
module PsqlTodoList {
  import opened Errors
  import opened Domain
  import opened Store
  import opened SetClause
  import Seqs

  function ApplyToList(l: TodoList, c: Change): TodoList
  {
    l.(title := if c.title.Some? then c.title.value else l.title,
       description := if c.description.Some? then c.description.value else l.description)
  }

  /** `UPDATE todo_lists tl SET ... FROM users_lists ul WHERE tl.id = ul.list_id AND
      ul.user_id = owner AND ul.list_id = id`. */
  function UpdateOwnedList(lists: seq<TodoList>, links: seq<UsersList>, owner: int, id: int, c: Change): seq<TodoList>
  {
    seq(|lists|, k requires 0 <= k < |lists| =>
      if lists[k].id == id && Owns(links, owner, id) then ApplyToList(lists[k], c) else lists[k])
  }

  /** What executing a list UPDATE statement with `args` does to `todo_lists`. */
  function ExecListUpdate(lists: seq<TodoList>, links: seq<UsersList>, stmt: UpdateStmt, args: seq<Arg>): Result<seq<TodoList>>
  {
    if stmt.setValues == [] then Err(SyntaxError)
    else
      match Bind(stmt, args)
      case None => Err(BindMismatch)
      case Some(b) => Ok(UpdateOwnedList(lists, links, b.owner, b.id, b.change))
  }

  /** The list columns an input writes. */
  function ListChange(input: UpdateListInput): Change
  {
    Change(input.title, input.description, None)
  }

  /** The columns a list input writes, in the builder's fixed order. */
  function ListColumns(input: UpdateListInput): (cols: seq<Column>)
    ensures |cols| == input.FieldCount()
    ensures (Title in cols <==> input.title.Some?) && (Description in cols <==> input.description.Some?)
    ensures Done !in cols
  {
    (if input.title.Some? then [Title] else []) + (if input.description.Some? then [Description] else [])
  }

  /** The values of the present fields, in the same order. */
  function ListValues(input: UpdateListInput): (vals: seq<Arg>)
    ensures |vals| == input.FieldCount()
  {
    (if input.title.Some? then [Text(input.title.value)] else [])
    + (if input.description.Some? then [Text(input.description.value)] else [])
  }

  /** The SET-clause builder of UpdateList: title then description, skipping nil fields, each
      numbered by the running `argId`, then userId and listId numbered `argId` and `argId + 1`.
      ListUpdateBinds says what the statement does once bound, FullListQuery what its text is
      when both fields are present. */
  method BuildUpdate(userId: int, listId: int, input: UpdateListInput)
    returns (setValues: seq<Assignment>, args: seq<Arg>, argId: int)
    ensures setValues == Numbering(ListColumns(input)) && argId == input.FieldCount() + 1
    ensures args == ListValues(input) + [Int(userId), Int(listId)]
    ensures args[argId - 1] == Int(userId) && args[argId] == Int(listId)
    ensures SetQuery(setValues) == "" <==> input.FieldCount() == 0
  {
    setValues, args, argId := [], [], 1;
    ghost var cols: seq<Column> := [];
    if input.title.Some? {
      NumberingAppend(cols, Title);
      setValues := setValues + [Assignment(Title, argId)];
      args := args + [Text(input.title.value)];
      argId := argId + 1;
      cols := cols + [Title];
    }
    assert setValues == Numbering(cols) && argId == |cols| + 1;
    if input.description.Some? {
      NumberingAppend(cols, Description);
      setValues := setValues + [Assignment(Description, argId)];
      args := args + [Text(input.description.value)];
      argId := argId + 1;
      cols := cols + [Description];
    }
    assert cols == ListColumns(input) && args == ListValues(input);
    args := args + [Int(userId), Int(listId)];
  }

  /** Placeholders line up: the statement the builder produces binds the input's values to
      their own columns and the owner and list ids to the WHERE clause. */
  lemma ListUpdateBinds(input: UpdateListInput, userId: int, listId: int)
    requires input.FieldCount() > 0
    ensures Bind(UpdateStmt(Numbering(ListColumns(input)), input.FieldCount() + 1, input.FieldCount() + 2),
                 ListValues(input) + [Int(userId), Int(listId)])
            == Some(Bound(ListChange(input), userId, listId))
  {
    var args := ListValues(input) + [Int(userId), Int(listId)];
    var sv := Numbering(ListColumns(input));
    match (input.title, input.description)
    case (Some(t), None) =>
      assert sv == [Assignment(Title, 1)];
      assert sv[0].column == Title;
      BindBuilt(sv, args, ListChange(input), userId, listId);
    case (None, Some(d)) =>
      assert sv == [Assignment(Description, 1)];
      assert sv[0].column == Description;
      BindBuilt(sv, args, ListChange(input), userId, listId);
    case (Some(t), Some(d)) =>
      assert sv == [Assignment(Title, 1), Assignment(Description, 2)];
      assert sv[0].column == Title && sv[1].column == Description;
      BindBuilt(sv, args, ListChange(input), userId, listId);
  }

  /** The SET clause of a full list update. */
  lemma FullQuery()
    ensures SetQuery([Assignment(Title, 1), Assignment(Description, 2)]) == "title=$1, description=$2"
  {
    SetQueryOfTwo(Assignment(Title, 1), Assignment(Description, 2));
    RenderedAssignments();
  }

  /** The SET clause the builder produces when both fields are present. */
  lemma FullListQuery(input: UpdateListInput)
    requires input.title.Some? && input.description.Some?
    ensures SetQuery(Numbering(ListColumns(input))) == "title=$1, description=$2"
  {
    assert ListColumns(input) == [Title, Description];
    assert Numbering([Title, Description]) == [Assignment(Title, 1), Assignment(Description, 2)];
    FullQuery();
  }

  class TodoListRepo {
    const db: Db

    constructor (db: Db)
      ensures this.db == db
    {
      this.db := db;
    }

    /** Inserts the list and the `users_lists(userId, listId)` link in one transaction:
        both rows or neither. The returned id is nonzero only once the list row was inserted;
        a failed Commit returns it together with the error. */
    method CreateList(userId: int, list: TodoList, tx: TxFaults) returns (listId: int, err: Option<Error>)
      requires db.Valid()
      modifies db`todoLists, db`nextListId, db`usersLists, db`nextUsersListId
      ensures db.Valid()
      ensures err == tx.FirstError()
      ensures tx.AllOk() ==>
                listId == old(db.nextListId)
                && db.todoLists == old(db.todoLists) + [TodoList(listId, list.title, list.description)]
                && db.usersLists == old(db.usersLists) + [UsersList(old(db.nextUsersListId), userId, listId)]
                && forall l :: l in old(db.todoLists) ==> l.id != listId
      ensures !tx.AllOk() ==> db.todoLists == old(db.todoLists) && db.usersLists == old(db.usersLists)
      ensures !tx.AllOk() ==> listId == if tx.FailsAtCommit() then old(db.nextListId) else 0
    {
      ListCreated(db.todoLists, db.nextListId, db.usersLists, db.nextUsersListId, list.title, list.description, userId);
      if tx.begin.Some? {
        return 0, tx.begin;
      }
      var savedLists, savedLinks := db.todoLists, db.usersLists;
      if tx.insertEntity.Some? {
        return 0, tx.insertEntity;
      }
      listId := db.nextListId;
      db.todoLists := db.todoLists + [TodoList(listId, list.title, list.description)];
      db.nextListId := db.nextListId + 1;
      if tx.insertLink.Some? {
        db.todoLists, db.usersLists := savedLists, savedLinks;
        return 0, tx.insertLink;
      }
      db.usersLists := db.usersLists + [UsersList(db.nextUsersListId, userId, listId)];
      db.nextUsersListId := db.nextUsersListId + 1;
      if tx.commit.Some? {
        db.todoLists, db.usersLists := savedLists, savedLinks;
        return listId, tx.commit;
      }
      err := None;
    }

    /** The `rows.Next()` loop over the lists `userId` owns. A Scan failure returns the lists
        scanned so far with that error; a failing `rows.Next()` returns them with no error. */
    method GetAllLists(userId: int, query: Fault, next: Option<nat>, scan: Option<ScanFailure>)
      returns (lists: seq<TodoList>, err: Option<Error>)
      ensures query.Some? ==> lists == [] && err == query
      ensures query.None? ==>
                var rows := SelectLists(db.todoLists, db.usersLists, userId);
                var end := RowsRead(|rows|, next);
                if scan.Some? && scan.value.row < end
                then lists == rows[..scan.value.row] && err == Some(scan.value.error)
                else lists == rows[..end] && err.None?
      ensures forall l :: l in lists ==> l in db.todoLists && Owns(db.usersLists, userId, l.id)
      ensures err.None? && next.None? ==>
                forall l :: l in lists <==> l in db.todoLists && Owns(db.usersLists, userId, l.id)
    {
      lists := [];
      if query.Some? {
        return [], query;
      }
      var rows := SelectLists(db.todoLists, db.usersLists, userId);
      var i := 0;
      while i < |rows| && !(next.Some? && next.value == i)
        invariant 0 <= i <= RowsRead(|rows|, next)
        invariant lists == rows[..i]
        invariant forall l :: l in lists ==> l in rows
        invariant scan.Some? ==> i <= scan.value.row
      {
        if scan.Some? && scan.value.row == i {
          return lists, Some(scan.value.error);
        }
        lists := lists + [rows[i]];
        i := i + 1;
      }
      assert next.None? ==> lists == rows;
      err := None;
    }

    /** A list owned by another user fails exactly like a missing id, with sql.ErrNoRows. */
    method GetListById(userId: int, listId: int, query: Fault) returns (list: TodoList, err: Option<Error>)
      ensures query.Some? ==> err == query
      ensures query.None? ==> (err.None? <==> SelectListById(db.todoLists, db.usersLists, userId, listId).Some?)
      ensures query.None? && err.Some? ==> err == Some(NoRows)
      ensures err.None? ==> list in db.todoLists && list.id == listId && Owns(db.usersLists, userId, listId)
      ensures err.Some? ==> list == TodoList(0, "", "")
    {
      if query.Some? {
        return TodoList(0, "", ""), query;
      }
      var row := SelectListById(db.todoLists, db.usersLists, userId, listId);
      if row.None? {
        return TodoList(0, "", ""), Some(NoRows);
      }
      return row.value, None;
    }

    /** Builds the UPDATE and executes it: only the present fields change, only on list
        `listId`, only if `userId` owns it; with no field present the statement is malformed. */
    method UpdateList(userId: int, listId: int, input: UpdateListInput, exec: Fault) returns (err: Option<Error>)
      requires db.Valid()
      modifies db`todoLists
      ensures db.Valid()
      ensures exec.Some? ==> err == exec && db.todoLists == old(db.todoLists)
      ensures exec.None? && input.FieldCount() == 0 ==> err == Some(SyntaxError) && db.todoLists == old(db.todoLists)
      ensures exec.None? && input.FieldCount() > 0 ==>
                err.None? && db.todoLists == UpdateOwnedList(old(db.todoLists), db.usersLists, userId, listId, ListChange(input))
    {
      var setValues, args, argId := BuildUpdate(userId, listId, input);
      if exec.Some? {
        return exec;
      }
      if input.FieldCount() > 0 {
        ListUpdateBinds(input, userId, listId);
      }
      var result := ExecListUpdate(db.todoLists, db.usersLists, UpdateStmt(setValues, argId, argId + 1), args);
      if result.Err? {
        return Some(result.error);
      }
      UpdateKeepsIds(db.todoLists, db.usersLists, userId, listId, ListChange(input));
      db.todoLists := result.value;
      err := None;
    }

    /** Deletes list `listId` only when `userId` owns it; otherwise nothing happens and no
        error is raised. The `users_lists` row stays. */
    method DeleteList(userId: int, listId: int, exec: Fault) returns (err: Option<Error>)
      requires db.Valid()
      modifies db`todoLists
      ensures db.Valid()
      ensures err == exec
      ensures db.todoLists == if exec.Some? then old(db.todoLists)
                              else DeleteOwnedList(old(db.todoLists), db.usersLists, userId, listId)
    {
      if exec.Some? {
        return exec;
      }
      db.todoLists := DeleteOwnedList(db.todoLists, db.usersLists, userId, listId);
      err := None;
    }
  }

  lemma UpdateKeepsIds(lists: seq<TodoList>, links: seq<UsersList>, owner: int, id: int, c: Change)
    ensures forall l :: l in UpdateOwnedList(lists, links, owner, id, c) ==> exists m :: m in lists && m.id == l.id
  {
    var r := UpdateOwnedList(lists, links, owner, id, c);
    forall l | l in r ensures exists m :: m in lists && m.id == l.id {
      var k :| 0 <= k < |r| && r[k] == l;
      assert lists[k] in lists && lists[k].id == l.id;
    }
  }

  /** Ownership isolation: an update by a user who does not own the list changes no list. */
  lemma UpdateByNonOwnerChangesNothing(lists: seq<TodoList>, links: seq<UsersList>, owner: int, id: int, c: Change)
    requires !Owns(links, owner, id)
    ensures UpdateOwnedList(lists, links, owner, id, c) == lists
  {
  }

  /** Partial update: on the owned list only the present fields take the new values, and
      every other list is unchanged. */
  lemma UpdateChangesOnlyPresentFields(lists: seq<TodoList>, links: seq<UsersList>, owner: int, id: int, c: Change, k: nat)
    requires k < |lists|
    ensures var r := UpdateOwnedList(lists, links, owner, id, c);
            && |r| == |lists| && r[k].id == lists[k].id
            && (lists[k].id != id || !Owns(links, owner, id) ==> r[k] == lists[k])
            && (c.title.None? ==> r[k].title == lists[k].title)
            && (c.description.None? ==> r[k].description == lists[k].description)
            && (lists[k].id == id && Owns(links, owner, id) && c.title.Some? ==> r[k].title == c.title.value)
            && (lists[k].id == id && Owns(links, owner, id) && c.description.Some? ==> r[k].description == c.description.value)
  {
  }

  /** Deleting a list the user does not own leaves the table as it was. */
  lemma {:induction false} DeleteByNonOwnerChangesNothing(lists: seq<TodoList>, links: seq<UsersList>, owner: int, id: int)
    requires !Owns(links, owner, id)
    ensures DeleteOwnedList(lists, links, owner, id) == lists
  {
    Seqs.FilterAll(lists, (x: TodoList) => !(x.id == id && Owns(links, owner, x.id)));
  }
}
