/** The records of internal/domain and the two update-input validators. */
module Domain {
  import opened Errors

  /** A row of `users`; `passwordHash` carries the plaintext on the way in from sign-up. */
  datatype User = User(id: int, name: string, email: string, passwordHash: string, registered: int)

  datatype SignInInput = SignInInput(email: string, password: string)

  /** A row of `refresh_tokens`; `expiresAt` is in Unix seconds. */
  datatype RefreshSession = RefreshSession(id: int, userId: int, token: string, expiresAt: int)

  /** `time.Time{}.Unix()`: the zero Go time, 0001-01-01 UTC, in Unix seconds. */
  const ZeroTimeUnix: int := -62135596800

  /** The zero `domain.RefreshSession` a failed Scan leaves behind. */
  const ZeroSession: RefreshSession := RefreshSession(0, 0, "", ZeroTimeUnix)

  datatype TodoList = TodoList(id: int, title: string, description: string)

  /** A row of `users_lists`: user `userId` owns list `listId`. */
  datatype UsersList = UsersList(id: int, userId: int, listId: int)

  datatype TodoItem = TodoItem(id: int, title: string, description: string, done: bool)

  /** A row of `lists_items`: item `itemId` belongs to list `listId`. */
  datatype ListsItem = ListsItem(id: int, listId: int, itemId: int)

  const NoValues: string := "update structure has no values"

  function Present<T>(o: Option<T>): nat { if o.Some? then 1 else 0 }

  /** A partial update of a list: nil fields are left alone. */
  datatype UpdateListInput = UpdateListInput(title: Option<string>, description: Option<string>)
  {
    /** How many columns the update writes. */
    function FieldCount(): nat { Present(title) + Present(description) }

    /** Rejects exactly the input that would write no column. */
    function Validate(): (err: Option<Error>)
      ensures err.None? <==> FieldCount() > 0
      ensures err.Some? ==> err.value == Msg(NoValues)
    {
      if title.None? && description.None? then Some(Msg(NoValues)) else None
    }
  }

  /** A partial update of an item: nil fields are left alone. */
  datatype UpdateItemInput = UpdateItemInput(title: Option<string>, description: Option<string>, done: Option<bool>)
  {
    function FieldCount(): nat { Present(title) + Present(description) + Present(done) }

    function Validate(): (err: Option<Error>)
      ensures err.None? <==> FieldCount() > 0
      ensures err.Some? ==> err.value == Msg(NoValues)
    {
      if title.None? && description.None? && done.None? then Some(Msg(NoValues)) else None
    }
  }
}
