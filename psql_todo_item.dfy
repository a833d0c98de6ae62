/** The item repository, internal/repository/psql/todo-item.go, over the in-memory
    `todo_items` and `lists_items` tables, filtered through `users_lists`. */
module PsqlTodoItem {
  import opened Errors
  import opened Domain
  import opened Store
  import opened SetClause
  import Seqs

  function ApplyToItem(i: TodoItem, c: Change): TodoItem
  {
    i.(title := if c.title.Some? then c.title.value else i.title,
       description := if c.description.Some? then c.description.value else i.description,
       done := if c.done.Some? then c.done.value else i.done)
  }

  /** `UPDATE todo_items ti SET ... FROM lists_items li, users_lists ul WHERE ti.id = li.item_id
      AND li.list_id = ul.list_id AND ul.user_id = owner AND ti.id = id`. */
  function UpdateReachableItem(items: seq<TodoItem>, itemLinks: seq<ListsItem>, listLinks: seq<UsersList>,
                               owner: int, id: int, c: Change): seq<TodoItem>
  {
    seq(|items|, k requires 0 <= k < |items| =>
      if items[k].id == id && Reaches(itemLinks, listLinks, owner, id) then ApplyToItem(items[k], c) else items[k])
  }

  /** What executing an item UPDATE statement with `args` does to `todo_items`. */
  function ExecItemUpdate(items: seq<TodoItem>, itemLinks: seq<ListsItem>, listLinks: seq<UsersList>,
                          stmt: UpdateStmt, args: seq<Arg>): Result<seq<TodoItem>>
  {
    if stmt.setValues == [] then Err(SyntaxError)
    else
      match Bind(stmt, args)
      case None => Err(BindMismatch)
      case Some(b) => Ok(UpdateReachableItem(items, itemLinks, listLinks, b.owner, b.id, b.change))
  }

  function ItemChange(input: UpdateItemInput): Change
  {
    Change(input.title, input.description, input.done)
  }

  /** The columns an item input writes, in the builder's fixed order. */
  function ItemColumns(input: UpdateItemInput): (cols: seq<Column>)
    ensures |cols| == input.FieldCount()
    ensures (Title in cols <==> input.title.Some?) && (Description in cols <==> input.description.Some?)
            && (Done in cols <==> input.done.Some?)
  {
    (if input.title.Some? then [Title] else [])
    + (if input.description.Some? then [Description] else [])
    + (if input.done.Some? then [Done] else [])
  }

  /** The values of the present fields, in the same order. */
  function ItemValues(input: UpdateItemInput): (vals: seq<Arg>)
    ensures |vals| == input.FieldCount()
  {
    (if input.title.Some? then [Text(input.title.value)] else [])
    + (if input.description.Some? then [Text(input.description.value)] else [])
    + (if input.done.Some? then [Flag(input.done.value)] else [])
  }

  /** The SET-clause builder of UpdateItem: title, description, done in that order, skipping
      nil fields, each numbered by the running `argId`, then userId and itemId at `argId` and
      `argId + 1`. ItemUpdateBinds says what the statement does once bound, FullItemQuery what
      its text is when every field is present. */
  method BuildUpdate(userId: int, itemId: int, input: UpdateItemInput)
    returns (setValues: seq<Assignment>, args: seq<Arg>, argId: int)
    ensures setValues == Numbering(ItemColumns(input)) && argId == input.FieldCount() + 1
    ensures args == ItemValues(input) + [Int(userId), Int(itemId)]
    ensures args[argId - 1] == Int(userId) && args[argId] == Int(itemId)
    ensures SetQuery(setValues) == "" <==> input.FieldCount() == 0
  {
    setValues, args, argId := [], [], 1;
    ghost var cols: seq<Column> := [];
    if input.title.Some? {
      NumberingAppend(cols, Title);
      setValues := setValues + [Assignment(Title, argId)];
      args := args + [Text(input.title.value)];
      argId := argId + 1;
      cols := cols + [Title];
    }
    assert setValues == Numbering(cols) && argId == |cols| + 1;
    if input.description.Some? {
      NumberingAppend(cols, Description);
      setValues := setValues + [Assignment(Description, argId)];
      args := args + [Text(input.description.value)];
      argId := argId + 1;
      cols := cols + [Description];
    }
    assert setValues == Numbering(cols) && argId == |cols| + 1;
    if input.done.Some? {
      NumberingAppend(cols, Done);
      setValues := setValues + [Assignment(Done, argId)];
      args := args + [Flag(input.done.value)];
      argId := argId + 1;
      cols := cols + [Done];
    }
    assert cols == ItemColumns(input) && args == ItemValues(input);
    args := args + [Int(userId), Int(itemId)];
  }

  /** Placeholders line up: the statement the builder produces binds the input's values to
      their own columns and the owner and item ids to the WHERE clause. */
  lemma ItemUpdateBinds(input: UpdateItemInput, userId: int, itemId: int)
    requires input.FieldCount() > 0
    ensures Bind(UpdateStmt(Numbering(ItemColumns(input)), input.FieldCount() + 1, input.FieldCount() + 2),
                 ItemValues(input) + [Int(userId), Int(itemId)])
            == Some(Bound(ItemChange(input), userId, itemId))
  {
    if input.title.Some? && input.description.Some? {
      TitleAndDescriptionBinds(input, userId, itemId);
    } else if input.title.Some? {
      TitleWithoutDescriptionBinds(input, userId, itemId);
    } else if input.description.Some? {
      DescriptionWithoutTitleBinds(input, userId, itemId);
    } else {
      OnlyDoneBinds(input, userId, itemId);
    }
  }

  /** ItemUpdateBinds when title and description are both present. */
  lemma TitleAndDescriptionBinds(input: UpdateItemInput, userId: int, itemId: int)
    requires input.title.Some? && input.description.Some?
    ensures Bind(UpdateStmt(Numbering(ItemColumns(input)), input.FieldCount() + 1, input.FieldCount() + 2),
                 ItemValues(input) + [Int(userId), Int(itemId)])
            == Some(Bound(ItemChange(input), userId, itemId))
  {
    var args := ItemValues(input) + [Int(userId), Int(itemId)];
    var sv := Numbering(ItemColumns(input));
    match (input.title, input.description, input.done)
    case (Some(t), Some(d), None) =>
      assert sv == [Assignment(Title, 1), Assignment(Description, 2)];
      assert sv[0].column == Title && sv[1].column == Description;
      BindBuilt(sv, args, ItemChange(input), userId, itemId);
    case (Some(t), Some(d), Some(b)) =>
      assert sv == [Assignment(Title, 1), Assignment(Description, 2), Assignment(Done, 3)];
      assert sv[0].column == Title && sv[1].column == Description && sv[2].column == Done;
      BindBuilt(sv, args, ItemChange(input), userId, itemId);
  }

  /** ItemUpdateBinds when the title is present and the description is not. */
  lemma TitleWithoutDescriptionBinds(input: UpdateItemInput, userId: int, itemId: int)
    requires input.title.Some? && input.description.None?
    ensures Bind(UpdateStmt(Numbering(ItemColumns(input)), input.FieldCount() + 1, input.FieldCount() + 2),
                 ItemValues(input) + [Int(userId), Int(itemId)])
            == Some(Bound(ItemChange(input), userId, itemId))
  {
    var args := ItemValues(input) + [Int(userId), Int(itemId)];
    var sv := Numbering(ItemColumns(input));
    match (input.title, input.description, input.done)
    case (Some(t), None, None) =>
      assert sv == [Assignment(Title, 1)];
      assert sv[0].column == Title;
      BindBuilt(sv, args, ItemChange(input), userId, itemId);
    case (Some(t), None, Some(b)) =>
      assert sv == [Assignment(Title, 1), Assignment(Done, 2)];
      assert sv[0].column == Title && sv[1].column == Done;
      BindBuilt(sv, args, ItemChange(input), userId, itemId);
  }

  /** ItemUpdateBinds when the description is present and the title is not. */
  lemma DescriptionWithoutTitleBinds(input: UpdateItemInput, userId: int, itemId: int)
    requires input.title.None? && input.description.Some?
    ensures Bind(UpdateStmt(Numbering(ItemColumns(input)), input.FieldCount() + 1, input.FieldCount() + 2),
                 ItemValues(input) + [Int(userId), Int(itemId)])
            == Some(Bound(ItemChange(input), userId, itemId))
  {
    var args := ItemValues(input) + [Int(userId), Int(itemId)];
    var sv := Numbering(ItemColumns(input));
    match (input.title, input.description, input.done)
    case (None, Some(d), None) =>
      assert sv == [Assignment(Description, 1)];
      assert sv[0].column == Description;
      BindBuilt(sv, args, ItemChange(input), userId, itemId);
    case (None, Some(d), Some(b)) =>
      assert sv == [Assignment(Description, 1), Assignment(Done, 2)];
      assert sv[0].column == Description && sv[1].column == Done;
      BindBuilt(sv, args, ItemChange(input), userId, itemId);
  }

  /** ItemUpdateBinds when only `done` is present. */
  lemma OnlyDoneBinds(input: UpdateItemInput, userId: int, itemId: int)
    requires input.title.None? && input.description.None? && input.done.Some?
    ensures Bind(UpdateStmt(Numbering(ItemColumns(input)), input.FieldCount() + 1, input.FieldCount() + 2),
                 ItemValues(input) + [Int(userId), Int(itemId)])
            == Some(Bound(ItemChange(input), userId, itemId))
  {
    var args := ItemValues(input) + [Int(userId), Int(itemId)];
    var sv := Numbering(ItemColumns(input));
    match (input.title, input.description, input.done)
    case (None, None, Some(b)) =>
      assert sv == [Assignment(Done, 1)];
      assert sv[0].column == Done;
      BindBuilt(sv, args, ItemChange(input), userId, itemId);
  }

  /** The SET clause of a full item update. */
  lemma FullQuery()
    ensures SetQuery([Assignment(Title, 1), Assignment(Description, 2), Assignment(Done, 3)])
            == "title=$1, description=$2, done=$3"
  {
    SetQueryOfThree(Assignment(Title, 1), Assignment(Description, 2), Assignment(Done, 3));
    RenderedAssignments();
  }

  /** The SET clause the builder produces when all three fields are present. */
  lemma FullItemQuery(input: UpdateItemInput)
    requires input.title.Some? && input.description.Some? && input.done.Some?
    ensures SetQuery(Numbering(ItemColumns(input))) == "title=$1, description=$2, done=$3"
  {
    assert ItemColumns(input) == [Title, Description, Done];
    assert Numbering([Title, Description, Done]) == [Assignment(Title, 1), Assignment(Description, 2), Assignment(Done, 3)];
    FullQuery();
  }

  class TodoItemRepo {
    const db: Db

    constructor (db: Db)
      ensures this.db == db
    {
      this.db := db;
    }

    /** Inserts the item (title and description; `done` takes the column default, false) and the
        `lists_items(itemId, listId)` link in one transaction: both rows or neither. The list is
        not checked here. */
    method CreateItem(listId: int, item: TodoItem, tx: TxFaults) returns (itemId: int, err: Option<Error>)
      requires db.Valid()
      modifies db`todoItems, db`nextItemId, db`listsItems, db`nextListsItemId
      ensures db.Valid()
      ensures err == tx.FirstError()
      ensures tx.AllOk() ==>
                itemId == old(db.nextItemId)
                && db.todoItems == old(db.todoItems) + [TodoItem(itemId, item.title, item.description, false)]
                && db.listsItems == old(db.listsItems) + [ListsItem(old(db.nextListsItemId), listId, itemId)]
                && forall i :: i in old(db.todoItems) ==> i.id != itemId
      ensures !tx.AllOk() ==> db.todoItems == old(db.todoItems) && db.listsItems == old(db.listsItems)
      ensures !tx.AllOk() ==> itemId == if tx.FailsAtCommit() then old(db.nextItemId) else 0
    {
      ItemCreated(db.todoItems, db.nextItemId, db.listsItems, db.nextListsItemId, item.title, item.description, listId);
      if tx.begin.Some? {
        return 0, tx.begin;
      }
      var savedItems, savedLinks := db.todoItems, db.listsItems;
      if tx.insertEntity.Some? {
        return 0, tx.insertEntity;
      }
      itemId := db.nextItemId;
      db.todoItems := db.todoItems + [TodoItem(itemId, item.title, item.description, false)];
      db.nextItemId := db.nextItemId + 1;
      if tx.insertLink.Some? {
        db.todoItems, db.listsItems := savedItems, savedLinks;
        return 0, tx.insertLink;
      }
      db.listsItems := db.listsItems + [ListsItem(db.nextListsItemId, listId, itemId)];
      db.nextListsItemId := db.nextListsItemId + 1;
      if tx.commit.Some? {
        db.todoItems, db.listsItems := savedItems, savedLinks;
        return itemId, tx.commit;
      }
      err := None;
    }

    /** The `rows.Next()` loop over the items of list `listId`, empty unless `userId` owns it.
        A Scan failure returns the items scanned so far with that error; a failing
        `rows.Next()` returns them with no error. */
    method GetAllItems(userId: int, listId: int, query: Fault, next: Option<nat>, scan: Option<ScanFailure>)
      returns (items: seq<TodoItem>, err: Option<Error>)
      ensures query.Some? ==> items == [] && err == query
      ensures query.None? ==>
                var rows := SelectItems(db.todoItems, db.listsItems, db.usersLists, userId, listId);
                var end := RowsRead(|rows|, next);
                if scan.Some? && scan.value.row < end
                then items == rows[..scan.value.row] && err == Some(scan.value.error)
                else items == rows[..end] && err.None?
      ensures !Owns(db.usersLists, userId, listId) ==> items == []
      ensures forall i :: i in items ==> i in db.todoItems && InList(db.listsItems, i.id, listId)
      ensures err.None? && next.None? ==>
                forall i :: i in items <==> i in db.todoItems && InList(db.listsItems, i.id, listId)
                                            && Owns(db.usersLists, userId, listId)
    {
      items := [];
      if query.Some? {
        return [], query;
      }
      var rows := SelectItems(db.todoItems, db.listsItems, db.usersLists, userId, listId);
      assert !Owns(db.usersLists, userId, listId) ==> rows == [] by {
        if |rows| > 0 { assert rows[0] in rows; }
      }
      var i := 0;
      while i < |rows| && !(next.Some? && next.value == i)
        invariant 0 <= i <= RowsRead(|rows|, next)
        invariant items == rows[..i]
        invariant forall x :: x in items ==> x in rows
        invariant scan.Some? ==> i <= scan.value.row
      {
        if scan.Some? && scan.value.row == i {
          return items, Some(scan.value.error);
        }
        items := items + [rows[i]];
        i := i + 1;
      }
      assert next.None? ==> items == rows;
      err := None;
    }

    /** Succeeds only along the chain item -> list -> `userId`; otherwise sql.ErrNoRows,
        whether the item is missing or another user's. */
    method GetItemById(userId: int, itemId: int, query: Fault) returns (item: TodoItem, err: Option<Error>)
      ensures query.Some? ==> err == query
      ensures query.None? ==>
                (err.None? <==> SelectItemById(db.todoItems, db.listsItems, db.usersLists, userId, itemId).Some?)
      ensures query.None? && err.Some? ==> err == Some(NoRows)
      ensures err.None? ==> item in db.todoItems && item.id == itemId && Reaches(db.listsItems, db.usersLists, userId, itemId)
      ensures err.Some? ==> item == TodoItem(0, "", "", false)
    {
      if query.Some? {
        return TodoItem(0, "", "", false), query;
      }
      var row := SelectItemById(db.todoItems, db.listsItems, db.usersLists, userId, itemId);
      if row.None? {
        return TodoItem(0, "", "", false), Some(NoRows);
      }
      return row.value, None;
    }

    /** Builds the UPDATE and executes it: only the present fields change, only on an item
        reachable from `userId`; with no field present the statement is malformed. */
    method UpdateItem(userId: int, itemId: int, input: UpdateItemInput, exec: Fault) returns (err: Option<Error>)
      requires db.Valid()
      modifies db`todoItems
      ensures db.Valid()
      ensures exec.Some? ==> err == exec && db.todoItems == old(db.todoItems)
      ensures exec.None? && input.FieldCount() == 0 ==> err == Some(SyntaxError) && db.todoItems == old(db.todoItems)
      ensures exec.None? && input.FieldCount() > 0 ==>
                err.None?
                && db.todoItems == UpdateReachableItem(old(db.todoItems), db.listsItems, db.usersLists, userId, itemId, ItemChange(input))
    {
      var setValues, args, argId := BuildUpdate(userId, itemId, input);
      if exec.Some? {
        return exec;
      }
      if input.FieldCount() > 0 {
        ItemUpdateBinds(input, userId, itemId);
      }
      var result := ExecItemUpdate(db.todoItems, db.listsItems, db.usersLists, UpdateStmt(setValues, argId, argId + 1), args);
      if result.Err? {
        return Some(result.error);
      }
      UpdateKeepsItemIds(db.todoItems, db.listsItems, db.usersLists, userId, itemId, ItemChange(input));
      db.todoItems := result.value;
      err := None;
    }

    /** Deletes item `itemId` only when it is reachable from `userId`; otherwise nothing happens
        and no error is raised. The `lists_items` row stays. */
    method DeleteItem(userId: int, itemId: int, exec: Fault) returns (err: Option<Error>)
      requires db.Valid()
      modifies db`todoItems
      ensures db.Valid()
      ensures err == exec
      ensures db.todoItems == if exec.Some? then old(db.todoItems)
                              else DeleteReachableItem(old(db.todoItems), db.listsItems, db.usersLists, userId, itemId)
    {
      if exec.Some? {
        return exec;
      }
      db.todoItems := DeleteReachableItem(db.todoItems, db.listsItems, db.usersLists, userId, itemId);
      err := None;
    }
  }

  lemma UpdateKeepsItemIds(items: seq<TodoItem>, itemLinks: seq<ListsItem>, listLinks: seq<UsersList>,
                           owner: int, id: int, c: Change)
    ensures forall i :: i in UpdateReachableItem(items, itemLinks, listLinks, owner, id, c) ==>
                          exists m :: m in items && m.id == i.id
  {
    var r := UpdateReachableItem(items, itemLinks, listLinks, owner, id, c);
    forall i | i in r ensures exists m :: m in items && m.id == i.id {
      var k :| 0 <= k < |r| && r[k] == i;
      assert items[k] in items && items[k].id == i.id;
    }
  }

  /** Ownership isolation: an update by a user the item is not reachable from changes no item. */
  lemma UpdateByStrangerChangesNothing(items: seq<TodoItem>, itemLinks: seq<ListsItem>, listLinks: seq<UsersList>,
                                       owner: int, id: int, c: Change)
    requires !Reaches(itemLinks, listLinks, owner, id)
    ensures UpdateReachableItem(items, itemLinks, listLinks, owner, id, c) == items
  {
  }

  /** Partial update: on the reachable item only the present fields take the new values, and
      every other item is unchanged. */
  lemma UpdateChangesOnlyPresentItemFields(items: seq<TodoItem>, itemLinks: seq<ListsItem>, listLinks: seq<UsersList>,
                                           owner: int, id: int, c: Change, k: nat)
    requires k < |items|
    ensures var r := UpdateReachableItem(items, itemLinks, listLinks, owner, id, c);
            var hit := items[k].id == id && Reaches(itemLinks, listLinks, owner, id);
            && |r| == |items| && r[k].id == items[k].id
            && (!hit ==> r[k] == items[k])
            && (c.title.None? ==> r[k].title == items[k].title)
            && (c.description.None? ==> r[k].description == items[k].description)
            && (c.done.None? ==> r[k].done == items[k].done)
            && (hit && c.title.Some? ==> r[k].title == c.title.value)
            && (hit && c.description.Some? ==> r[k].description == c.description.value)
            && (hit && c.done.Some? ==> r[k].done == c.done.value)
  {
  }

  /** Deleting an item the user cannot reach leaves the table as it was. */
  lemma {:induction false} DeleteByStrangerChangesNothing(items: seq<TodoItem>, itemLinks: seq<ListsItem>,
                                                          listLinks: seq<UsersList>, owner: int, id: int)
    requires !Reaches(itemLinks, listLinks, owner, id)
    ensures DeleteReachableItem(items, itemLinks, listLinks, owner, id) == items
  {
    Seqs.FilterAll(items, (x: TodoItem) => !(x.id == id && Reaches(itemLinks, listLinks, owner, x.id)));
  }
}
