/** The PostgreSQL database the repositories share, as in-memory tables, and the
    row-level meaning of the WHERE clauses and joins their SQL texts state. */
module Store {
  import opened Errors
  import opened Domain
  import opened Seqs

  /** All six tables, each a sequence of rows in scan order, with the next value of each
      `serial` id column. */
  class Db {
    var users: seq<User>
    var nextUserId: int
    var refreshTokens: seq<RefreshSession>
    var nextSessionId: int
    var todoLists: seq<TodoList>
    var nextListId: int
    var usersLists: seq<UsersList>
    var nextUsersListId: int
    var todoItems: seq<TodoItem>
    var nextItemId: int
    var listsItems: seq<ListsItem>
    var nextListsItemId: int

    /** Every id was handed out by its serial counter, and a list (an item) has at most
        one ownership link, because each link is created with a fresh list (item) id. */
    ghost predicate Valid()
      reads this
    {
      ValidUsers() && ValidSessions() && ValidLists() && ValidItems()
    }

    ghost predicate ValidUsers()
      reads this`users, this`nextUserId
    {
      0 < nextUserId && forall r :: r in users ==> 0 < r.id < nextUserId
    }

    ghost predicate ValidSessions()
      reads this`refreshTokens, this`nextSessionId
    {
      0 < nextSessionId && forall r :: r in refreshTokens ==> 0 < r.id < nextSessionId
    }

    ghost predicate ValidLists()
      reads this`todoLists, this`nextListId, this`usersLists, this`nextUsersListId
    {
      ListTablesValid(todoLists, nextListId, usersLists, nextUsersListId)
    }

    ghost predicate ValidItems()
      reads this`todoItems, this`nextItemId, this`listsItems, this`nextListsItemId
    {
      ItemTablesValid(todoItems, nextItemId, listsItems, nextListsItemId)
    }

    /** A freshly migrated, empty database. */
    constructor ()
      ensures Valid()
      ensures users == [] && refreshTokens == [] && todoLists == []
      ensures usersLists == [] && todoItems == [] && listsItems == []
    {
      users, nextUserId := [], 1;
      refreshTokens, nextSessionId := [], 1;
      todoLists, nextListId := [], 1;
      usersLists, nextUsersListId := [], 1;
      todoItems, nextItemId := [], 1;
      listsItems, nextListsItemId := [], 1;
    }
  }

  /** `todo_lists` and `users_lists` against their counters: ids below the counters, links
      to handed-out lists only, at most one link per list. */
  ghost predicate ListTablesValid(lists: seq<TodoList>, nextListId: int, links: seq<UsersList>, nextLinkId: int)
  {
    && 0 < nextListId && 0 < nextLinkId
    && (forall r :: r in lists ==> 0 < r.id < nextListId)
    && (forall r :: r in links ==> 0 < r.id < nextLinkId && r.listId < nextListId)
    && (forall i, j :: 0 <= i < j < |links| ==> links[i].listId != links[j].listId)
  }

  /** The same for `todo_items` and `lists_items`. */
  ghost predicate ItemTablesValid(items: seq<TodoItem>, nextItemId: int, links: seq<ListsItem>, nextLinkId: int)
  {
    && 0 < nextItemId && 0 < nextLinkId
    && (forall r :: r in items ==> 0 < r.id < nextItemId)
    && (forall r :: r in links ==> 0 < r.id < nextLinkId && r.itemId < nextItemId)
    && (forall i, j :: 0 <= i < j < |links| ==> links[i].itemId != links[j].itemId)
  }

  /** Creating a list (with its link) under the current counters keeps the tables valid, and
      so does rolling it back once the list id has been drawn. */
  lemma ListCreated(lists: seq<TodoList>, n: int, links: seq<UsersList>, m: int, title: string, description: string, userId: int)
    requires ListTablesValid(lists, n, links, m)
    ensures ListTablesValid(lists + [TodoList(n, title, description)], n + 1, links + [UsersList(m, userId, n)], m + 1)
    ensures ListTablesValid(lists, n + 1, links, m)
  {
    var links' := links + [UsersList(m, userId, n)];
    forall i, j | 0 <= i < j < |links'| ensures links'[i].listId != links'[j].listId {
      if j == |links| {
        assert links[i] in links;
      } else {
        assert links'[i] == links[i] && links'[j] == links[j];
      }
    }
  }

  /** The same for an item and its link. */
  lemma ItemCreated(items: seq<TodoItem>, n: int, links: seq<ListsItem>, m: int, title: string, description: string, listId: int)
    requires ItemTablesValid(items, n, links, m)
    ensures ItemTablesValid(items + [TodoItem(n, title, description, false)], n + 1, links + [ListsItem(m, listId, n)], m + 1)
    ensures ItemTablesValid(items, n + 1, links, m)
  {
    var links' := links + [ListsItem(m, listId, n)];
    forall i, j | 0 <= i < j < |links'| ensures links'[i].itemId != links'[j].itemId {
      if j == |links| {
        assert links[i] in links;
      } else {
        assert links'[i] == links[i] && links'[j] == links[j];
      }
    }
  }

  /** The driver outcomes of the transaction `CreateList` and `CreateItem` run:
      Begin, the entity INSERT ... RETURNING id, the link INSERT, and Commit. */
  datatype TxFaults = TxFaults(begin: Fault, insertEntity: Fault, insertLink: Fault, commit: Fault)
  {
    predicate AllOk() { begin.None? && insertEntity.None? && insertLink.None? && commit.None? }

    /** Both rows were inserted and only Commit failed. */
    predicate FailsAtCommit() { begin.None? && insertEntity.None? && insertLink.None? && commit.Some? }

    /** The error the transaction reports: the first step that failed. */
    function FirstError(): Fault
    {
      if begin.Some? then begin
      else if insertEntity.Some? then insertEntity
      else if insertLink.Some? then insertLink
      else commit
    }
  }

  /** A rows.Scan that fails on the `row`-th row (counting from 0) with `error`. */
  datatype ScanFailure = ScanFailure(row: nat, error: Error)

  /** Where a `for rows.Next()` loop over `n` rows stops. `next` is the row (counting from 0)
      at which `rows.Next()` returns false because the driver failed; the source never reads
      `rows.Err()`, so that ends the loop just as running out of rows does. */
  function RowsRead(n: nat, next: Option<nat>): (end: nat)
    ensures end <= n
  {
    if next.Some? && next.value < n then next.value else n
  }

  /** Some `users_lists` row says `userId` owns `listId`. */
  predicate Owns(links: seq<UsersList>, userId: int, listId: int)
  {
    exists k :: 0 <= k < |links| && links[k].userId == userId && links[k].listId == listId
  }

  /** Some `lists_items` row puts `itemId` in list `listId`. */
  predicate InList(links: seq<ListsItem>, itemId: int, listId: int)
  {
    exists k :: 0 <= k < |links| && links[k].itemId == itemId && links[k].listId == listId
  }

  /** The ownership chain item -> list -> user: `itemId` is in some list that `userId` owns. */
  predicate Reaches(itemLinks: seq<ListsItem>, listLinks: seq<UsersList>, userId: int, itemId: int)
  {
    exists k :: 0 <= k < |itemLinks| && itemLinks[k].itemId == itemId
                                     && Owns(listLinks, userId, itemLinks[k].listId)
  }

  /** `todo_lists tl JOIN users_lists ul ON tl.id = ul.list_id WHERE ul.user_id = userId`. */
  function SelectLists(lists: seq<TodoList>, links: seq<UsersList>, userId: int): (r: seq<TodoList>)
    ensures forall x :: x in r <==> x in lists && Owns(links, userId, x.id)
  {
    Filter(lists, (x: TodoList) => Owns(links, userId, x.id))
  }

  /** The same join, further restricted to `ul.list_id = listId`, as QueryRow scans it. */
  function SelectListById(lists: seq<TodoList>, links: seq<UsersList>, userId: int, listId: int): (r: Option<TodoList>)
    ensures r.Some? ==> r.value in lists && r.value.id == listId && Owns(links, userId, listId)
    ensures r.None? <==> !Owns(links, userId, listId) || forall x :: x in lists ==> x.id != listId
  {
    FindFirst(lists, (x: TodoList) => x.id == listId && Owns(links, userId, x.id))
  }

  /** `todo_items ti JOIN lists_items li ... JOIN users_lists ul ... WHERE ul.user_id = userId
      AND li.list_id = listId`. */
  function SelectItems(items: seq<TodoItem>, itemLinks: seq<ListsItem>, listLinks: seq<UsersList>,
                       userId: int, listId: int): (r: seq<TodoItem>)
    ensures forall x :: x in r <==> x in items && InList(itemLinks, x.id, listId) && Owns(listLinks, userId, listId)
  {
    Filter(items, (x: TodoItem) => InList(itemLinks, x.id, listId) && Owns(listLinks, userId, listId))
  }

  /** The item join restricted to `ti.id = itemId`, as QueryRow scans it. */
  function SelectItemById(items: seq<TodoItem>, itemLinks: seq<ListsItem>, listLinks: seq<UsersList>,
                          userId: int, itemId: int): (r: Option<TodoItem>)
    ensures r.Some? ==> r.value in items && r.value.id == itemId && Reaches(itemLinks, listLinks, userId, itemId)
    ensures r.None? <==> !Reaches(itemLinks, listLinks, userId, itemId) || forall x :: x in items ==> x.id != itemId
  {
    FindFirst(items, (x: TodoItem) => x.id == itemId && Reaches(itemLinks, listLinks, userId, x.id))
  }

  /** `DELETE FROM todo_lists tl USING users_lists ul WHERE tl.id = ul.list_id AND ul.user_id = userId
      AND ul.list_id = listId`. */
  function DeleteOwnedList(lists: seq<TodoList>, links: seq<UsersList>, userId: int, listId: int): (r: seq<TodoList>)
    ensures forall x :: x in r <==> x in lists && !(x.id == listId && Owns(links, userId, listId))
  {
    Filter(lists, (x: TodoList) => !(x.id == listId && Owns(links, userId, x.id)))
  }

  /** `DELETE FROM todo_items ti USING lists_items li, users_lists ul WHERE <chain> AND ul.user_id = userId
      AND ti.id = itemId`. */
  function DeleteReachableItem(items: seq<TodoItem>, itemLinks: seq<ListsItem>, listLinks: seq<UsersList>,
                               userId: int, itemId: int): (r: seq<TodoItem>)
    ensures forall x :: x in r <==> x in items && !(x.id == itemId && Reaches(itemLinks, listLinks, userId, itemId))
  {
    Filter(items, (x: TodoItem) => !(x.id == itemId && Reaches(itemLinks, listLinks, userId, x.id)))
  }

  /** `SELECT id FROM users WHERE email = email AND password_hash = hash`, as QueryRow scans it. */
  function FindUser(users: seq<User>, email: string, hash: string): (r: Option<User>)
    ensures r.Some? ==> r.value in users && r.value.email == email && r.value.passwordHash == hash
    ensures r.Some? ==> exists k :: 0 <= k < |users| && users[k] == r.value
                                     && forall j :: 0 <= j < k ==> !(users[j].email == email && users[j].passwordHash == hash)
    ensures r.None? <==> forall u :: u in users ==> !(u.email == email && u.passwordHash == hash)
  {
    FindFirst(users, (u: User) => u.email == email && u.passwordHash == hash)
  }

  /** `SELECT * FROM refresh_tokens WHERE token = token`, as QueryRow scans it. */
  function FindSession(rows: seq<RefreshSession>, token: string): (r: Option<RefreshSession>)
    ensures r.Some? ==> r.value in rows && r.value.token == token
    ensures r.Some? ==> exists k :: 0 <= k < |rows| && rows[k] == r.value
                                     && forall j :: 0 <= j < k ==> rows[j].token != token
    ensures r.None? <==> forall s :: s in rows ==> s.token != token
  {
    FindFirst(rows, (s: RefreshSession) => s.token == token)
  }

  /** `DELETE FROM refresh_tokens WHERE user_id = userId`. */
  function DeleteUserSessions(rows: seq<RefreshSession>, userId: int): (r: seq<RefreshSession>)
    ensures forall s :: s in r <==> s in rows && s.userId != userId
  {
    Filter(rows, (s: RefreshSession) => s.userId != userId)
  }
}
