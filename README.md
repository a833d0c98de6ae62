# crud-app core in Dafny

This project models the core of the crud-app task tracker, a Go backend. The model covers:

- **Accounts and sessions.** `AuthService` signs users up and in. It issues an HS256 access
  token together with a random refresh token, parses access tokens, and redeems refresh tokens.
  It drives two stores: the `users` table (`AuthRepo`) and the `refresh_tokens` table (`TokensRepo`).
- **Lists and items scoped to their owner.** `TodoListRepo` and `TodoItemRepo` work over four
  tables: `todo_lists`, `users_lists`, `todo_items` and `lists_items`. Every read, update and
  delete goes through the user → list → item link chain that the SQL text states. Creation runs a
  two-insert transaction that rolls back. The partial UPDATE is assembled by a SET-clause builder
  with a running placeholder number. `TodoListService` validates the input before an update.
  `TodoItemService` checks that the list is owned before creating an item.
- **Small validators and parsers.** `Update*Input.Validate` and the Bearer-header parser of the
  authentication middleware, together with the middleware step that stores the caller's id in the
  request context.

Each Go package maps to one Dafny module:

| Go file | Dafny module |
|---|---|
| `internal/service/auth.go` | `ServiceAuth` |
| `internal/repository/psql/auth.go` | `PsqlAuth` |
| `internal/repository/psql/tokens.go` | `PsqlTokens` |
| `internal/repository/psql/todo-list.go` | `PsqlTodoList` |
| `internal/repository/psql/todo-item.go` | `PsqlTodoItem` |
| `internal/service/todo-list.go` | `ServiceTodoList` |
| `internal/service/todo-item.go` | `ServiceTodoItem` |
| `internal/domain/*.go` | `Domain` |
| `internal/transport/rest/middleware.go` | `RestMiddleware` |

Supporting modules:

- `Errors`: the error values, `Option`, `Result` and `Fault`.
- `Seqs`: the filter and find-first primitives.
- `Decimal`: `strconv.Itoa` and `strconv.Atoi`.
- `Hex`: `%x` over bytes.
- `Jwt`: the abstract token.
- `Store`: the tables, with the queries as functions and the transaction outcomes.
- `SetClause`: the structure of an UPDATE statement and how PostgreSQL binds its placeholders.

How the model is built:

- **Tables.** All tables live in one `Store.Db` object, because the Go repositories share one
  `*sql.DB`. A table is a sequence of rows plus the next value of its `serial` id. The invariant
  `Db.Valid` is kept by every operation: counters are positive, every id is below its counter, and
  every link points to an id already handed out.
- **Database faults.** Every SQL statement and transaction step can fail. Its outcome is an input
  of type `Fault` (`None` for success, `Some(e)` for the driver error), so each error path of the
  source is a branch of the model.
- **A `rows.Next()` loop that fails part-way.** The position and error of a failing `Scan` are an
  input, `ScanFailure`. So is the row at which `rows.Next()` itself fails (`next`). The source
  never reads `rows.Err()`, so such a failure ends the loop with a prefix of the rows and a nil
  error (`Store.RowsRead`).
- **The clock.** `now` is a parameter, in Unix seconds.
- **Randomness.** The 32 random bytes are an input, `Bytes32`, or a read failure.
- **The password hasher.** It is a function `string -> Result<string>` held by the service.
- **JWT serialisation.** The service also holds two functions: `signer` (`SignedString`) and
  `parser` (the decoding half of `jwt.ParseWithClaims`). The round-trip lemmas take "the parser
  decodes what the signer produced" as a hypothesis.
- **Tokens.** A token records its method, its claims and the key it was signed with. The
  signature is valid exactly when that key is the server's key.
- **Dynamic UPDATE.** Each `BuildUpdate` method is tied to two functions of the input: its
  present columns (`ListColumns`, `ItemColumns`), numbered `$1, $2, …` by `SetClause.Numbering`,
  and their values. `ListUpdateBinds` and `ItemUpdateBinds` state what the statement means once
  PostgreSQL binds those arguments: exactly the input's change, filtered by exactly the caller
  and the row id.
- **Claim checks.** They follow `jwt.StandardClaims.Valid`. `exp` accepts `now <= exp`, `iat`
  accepts `now >= iat`, and the value 0 means the claim is absent.

Behaviour of the source that the model keeps as written:

- `ParseToken` tests `ok` instead of `err` after `strconv.Atoi`
  (`internal/service/auth.go:111-113`). A correctly signed token whose subject is not a number
  is therefore accepted with no error, and the user id is whatever `strconv.Atoi` returned with
  its error. Atoi reads the digits left to right, as `strconv.ParseUint` does. If the leading run
  of digits already exceeds 2^64-1, Atoi stops with a range error and the 64-bit bound of the
  sign (`OverflowingSubjectIsBound`). Otherwise any non-digit is a syntax error with value 0
  (`NonNumericSubjectIsUserZero`). A well-formed number outside int64 that fits in uint64, such as
  `9223372036854775808`, is clamped by `strconv.ParseInt` to that same bound with a range error,
  so it too is accepted as the bound (`OutOfRangeSubjectIsBound`).
- `GetSession` deletes every session of the redeemed token's user and never looks at
  `expires_at`. `RefreshToken` compares the expiry only after that delete, so redeeming an expired
  token still consumes all of its user's sessions.
- `CreateSession` is a plain `INSERT` (`internal/repository/psql/tokens.go:18`): a user who signs
  in twice holds two sessions.
- Refresh tokens are not unique in the code: `math/rand` is seeded with the Unix second. When
  two users hold the same token text, redeeming it twice succeeds (`SharedTokenRedeemsTwice`).
  When the token belongs to a single user it is single-use (`SingleUse`).
- `UpdateItem` is not validated by the service. An input with no field therefore produces the
  statement `SET  FROM`, which PostgreSQL refuses with SQLSTATE 42601 (`Errors.SyntaxError`).
  `TodoListService.UpdateList` validates first, so this error never reaches it.
- `httputil.NewError` only writes a JSON body; it does not abort the gin chain. `UserIdentity`
  records the 401 response and leaves the identity unset.

## Model

| member | source | states |
|---|---|---|
| Domain.UpdateListInput.Validate | internal/domain/todo-list.go:22-28 | fails iff both title and description are nil, with exactly "update structure has no values"; any present field passes, whatever its value |
| Domain.UpdateItemInput.Validate | internal/domain/todo-item.go:24-30 | fails iff title, description and done are all nil, with that message; any single field, including done = false, passes |
| Decimal.Digits | internal/service/auth.go:69 | the decimal digits of a natural number: non-empty, digits only, no leading zero |
| Decimal.ValueOfDigits | internal/service/auth.go:69 | reading back the digits of n gives n |
| Decimal.LeadingDigits | internal/service/auth.go:111 | the longest prefix made only of digits: it is a prefix, all digits, and stops at a non-digit or at the end |
| Decimal.ValueCons | internal/service/auth.go:111 | the decimal value of c followed by s is c's digit times 10 to the length of s, plus the value of s |
| Decimal.ScanUintValue | internal/service/auth.go:111 | ParseUint's left-to-right scan from an accumulator ends in a range error iff the accumulator extended by the leading digits passes 2^64-1; otherwise in a syntax error iff a non-digit follows, and in the accumulated value when all are digits |
| Decimal.ParseUintValue | internal/service/auth.go:111 | ParseUint of a text: a range error iff its leading digits exceed 2^64-1, otherwise a syntax error iff it is empty or has a non-digit, otherwise the decimal value |
| Decimal.AtoiValue | internal/service/auth.go:111 | the value strconv.Atoi returns even with its error: always a 64-bit integer; the number itself when it parses and fits in int64; the bound of its sign (MaxInt64, or MinInt64 after `-`) when the text is well formed but outside int64, and also when the leading digits overflow uint64, whatever follows them; 0 on any other syntax error |
| Decimal.AtoiItoa | internal/service/auth.go:69 | for every 64-bit integer, Atoi accepts Itoa's text without error and returns the same integer |
| Decimal.ItoaInjective | internal/service/auth.go:69 | distinct user ids give distinct subjects |
| Hex.Nibble | internal/service/auth.go:142 | each nibble is written as a lower-case hex digit |
| Hex.NibbleRoundTrip | internal/service/auth.go:142 | a nibble's digit reads back as that nibble |
| Hex.Encode | internal/service/auth.go:142 | `%x` of n bytes is 2n lower-case hex digits |
| Hex.ByteRoundTrip | internal/service/auth.go:142 | the two digits `%x` writes for a byte read back as that byte |
| Hex.DecodeEncode | internal/service/auth.go:142 | the `%x` rendering loses nothing: decoding it gives back the bytes |
| Hex.EncodeInjective | internal/service/auth.go:142 | different bytes give different renderings |
| Jwt.Sign | internal/service/auth.go:68-73 | the signed token carries the chosen method and claims, and its signature is flagged invalid at verification exactly under a key other than the signing key |
| Jwt.Verify | internal/service/auth.go:95-104 | claim validation plus signature check: no error iff not expired, not used before issue, and signed with the server key; otherwise one validation error whose three flags are exactly expired, used before issue, and signed under another key |
| Jwt.AcceptedWindow | internal/service/auth.go:68-71 | a token issued at iat with lifetime ttl is accepted over exactly [iat, iat + ttl] |
| Seqs.Filter | internal/repository/psql/todo-list.go:46-48 | a WHERE filter keeps exactly the rows that satisfy it and never adds rows |
| Seqs.FindFirst | internal/repository/psql/tokens.go:27-28 | QueryRow returns the first matching row, and none iff no row matches |
| Store.SelectLists | internal/repository/psql/todo-list.go:46-48 | the join returns exactly the lists linked to the user |
| Store.SelectListById | internal/repository/psql/todo-list.go:69-71 | a row only when the user owns the list; a foreign list and a missing id both give none |
| Store.SelectItems | internal/repository/psql/todo-item.go:46-49 | exactly the items linked to the list, and only if the user owns the list |
| Store.SelectItemById | internal/repository/psql/todo-item.go:69-72 | a row only along the chain item → list → user; none otherwise |
| Store.DeleteOwnedList | internal/repository/psql/todo-list.go:109-110 | removes exactly the list with that id when the user owns it |
| Store.DeleteReachableItem | internal/repository/psql/todo-item.go:117-120 | removes exactly the item with that id when it is reachable from the user |
| Store.FindUser | internal/repository/psql/auth.go:32-33 | the first row matching both email and password hash, none iff no row matches both |
| Store.FindSession | internal/repository/psql/tokens.go:27-28 | the first session with the token (every earlier row carries another token), none iff no row carries it |
| Store.DeleteUserSessions | internal/repository/psql/tokens.go:32 | keeps exactly the rows of other users |
| Store.RowsRead | internal/repository/psql/todo-list.go:53-63 | a `rows.Next()` loop over n rows that fails at row k stops after k rows, and otherwise after all n; never past n |
| Store.ListCreated | internal/repository/psql/todo-list.go:19-40 | adding a list row under the next id with its link under the next link id keeps the list tables consistent (ids below their counters, one link per list), and so does a rollback that only advances the counters |
| Store.ItemCreated | internal/repository/psql/todo-item.go:19-40 | the same for an item row and its `lists_items` link |
| SetClause.SetQuery | internal/repository/psql/todo-list.go:96 | the joined SET text is empty iff no column is assigned |
| SetClause.Bind | internal/repository/psql/todo-list.go:98-103 | binding succeeds only when the argument count equals the statement's highest placeholder |
| SetClause.BindSetDenoted | internal/repository/psql/todo-list.go:98-103 | if every assignment's placeholder holds the value for its column, each column once, the SET clause binds to exactly that change |
| SetClause.MaxOfNumbered | internal/repository/psql/todo-list.go:82-94 | when the placeholders are numbered 1..n in order, the highest is n |
| SetClause.BindBuilt | internal/repository/psql/todo-list.go:98-103 | a SET clause numbered 1..n with owner and id at n+1 and n+2 binds to that change filtered by exactly that owner and id |
| PsqlAuth.AuthRepo.constructor | internal/repository/psql/auth.go:13-15 | the repository works on the store it is given |
| PsqlAuth.AuthRepo.CreateUser | internal/repository/psql/auth.go:17-27 | on success, exactly one row (name, email, hash, registered) is appended under a fresh id, which is returned; on a failed insert, (0, err) and no change |
| PsqlAuth.AuthRepo.GetUserId | internal/repository/psql/auth.go:29-39 | read-only; returns the id of a row matching both email and hash; a wrong email and a wrong hash fail alike with sql.ErrNoRows; a query error passes through |
| PsqlAuth.FindCreatedUser | internal/repository/psql/auth.go:20-33 | after appending a user whose email is unique, looking up its email and hash finds that user |
| PsqlTokens.TokensRepo.constructor | internal/repository/psql/tokens.go:13-15 | the repository works on the store it is given |
| PsqlTokens.TokensRepo.CreateSession | internal/repository/psql/tokens.go:17-22 | a plain insert: one row is appended and every existing session stays; on error nothing changes |
| PsqlTokens.TokensRepo.GetSession | internal/repository/psql/tokens.go:24-35 | a miss returns sql.ErrNoRows and deletes nothing; a hit returns the stored row unchanged and, whatever its expiry, deletes every session of its user and no other user's |
| PsqlTokens.SingleUse | internal/repository/psql/tokens.go:27-32 | once redeemed, a token held by one user finds no row again |
| PsqlTokens.SharedTokenRedeemsTwice | internal/repository/psql/tokens.go:27-32 | when two users hold the same token text, the second redemption finds the other user's session |
| PsqlTokens.RedeemingOneSignInEndsBoth | internal/repository/psql/tokens.go:17-32 | two sign-ins of one user leave two redeemable sessions; redeeming either ends both |
| PsqlTodoList.ListColumns | internal/repository/psql/todo-list.go:84-94 | one column per present field: title listed iff present, description iff present, never done |
| PsqlTodoList.ListValues | internal/repository/psql/todo-list.go:84-94 | one argument per present field |
| PsqlTodoList.BuildUpdate | internal/repository/psql/todo-list.go:80-101 | the SET clause is the present columns numbered $1, $2 in the order title, description; args are the present values, then userId and listId at argId and argId+1 with argId = 1 + the number of present fields; the SET text is empty iff no field is present |
| PsqlTodoList.ListUpdateBinds | internal/repository/psql/todo-list.go:80-103 | for every input with a present field, the built statement binds each present value to its own column and userId and listId to the WHERE clause |
| PsqlTodoList.FullListQuery | internal/repository/psql/todo-list.go:84-96 | with both fields present the SET text is `title=$1, description=$2` |
| PsqlTodoList.TodoListRepo.constructor | internal/repository/psql/todo-list.go:15-17 | the repository works on the store it is given |
| PsqlTodoList.TodoListRepo.CreateList | internal/repository/psql/todo-list.go:19-40 | on success, exactly one list row and one `users_lists(userId, listId)` link are added; if any step fails neither stays; the first failing step's error is returned |
| PsqlTodoList.TodoListRepo.GetAllLists | internal/repository/psql/todo-list.go:43-64 | a query error returns it with no lists; otherwise the lists linked to the user in table order, cut at the row where `rows.Next()` fails with a nil error, or at a failing scan with its error; every returned list is owned by the user; with no error and no `Next` failure, exactly the owned lists |
| PsqlTodoList.TodoListRepo.GetListById | internal/repository/psql/todo-list.go:66-77 | succeeds iff the user owns the list; otherwise sql.ErrNoRows, the same for a missing id |
| PsqlTodoList.TodoListRepo.UpdateList | internal/repository/psql/todo-list.go:79-106 | the table becomes the owned-list update of the input's fields; with no field present the statement is malformed and fails; an Exec error changes nothing |
| PsqlTodoList.TodoListRepo.DeleteList | internal/repository/psql/todo-list.go:108-113 | removes the list only when the user owns it; otherwise a silent no-op; returns the Exec error |
| PsqlTodoList.UpdateKeepsIds | internal/repository/psql/todo-list.go:98-99 | an update never invents a row id |
| PsqlTodoList.UpdateByNonOwnerChangesNothing | internal/repository/psql/todo-list.go:98-99 | a user who does not own the list changes no list |
| PsqlTodoList.UpdateChangesOnlyPresentFields | internal/repository/psql/todo-list.go:84-99 | only the owned list with that id changes, and only in the present fields, which take the new values |
| PsqlTodoList.DeleteByNonOwnerChangesNothing | internal/repository/psql/todo-list.go:109-110 | deleting a list the user does not own leaves the table as it was |
| PsqlTodoItem.ItemColumns | internal/repository/psql/todo-item.go:85-101 | one column per present field: each column is listed iff its field is present |
| PsqlTodoItem.ItemValues | internal/repository/psql/todo-item.go:85-101 | one argument per present field |
| PsqlTodoItem.BuildUpdate | internal/repository/psql/todo-item.go:81-103 | the SET clause is the present columns numbered $1, $2, … in the order title, description, done; args are the present values, then userId and itemId at argId and argId+1 with argId = 1 + the number of present fields; the SET text is empty iff no field is present |
| PsqlTodoItem.ItemUpdateBinds | internal/repository/psql/todo-item.go:81-109 | for every input with a present field, the built statement binds each present value to its own column and userId and itemId to the WHERE clause |
| PsqlTodoItem.TitleAndDescriptionBinds | internal/repository/psql/todo-item.go:85-109 | the same, for the inputs that set both title and description |
| PsqlTodoItem.TitleWithoutDescriptionBinds | internal/repository/psql/todo-item.go:85-109 | the same, for the inputs that set the title but not the description |
| PsqlTodoItem.DescriptionWithoutTitleBinds | internal/repository/psql/todo-item.go:91-109 | the same, for the inputs that set the description but not the title |
| PsqlTodoItem.OnlyDoneBinds | internal/repository/psql/todo-item.go:97-109 | the same, for the inputs that set only done |
| PsqlTodoItem.FullItemQuery | internal/repository/psql/todo-item.go:85-105 | with all three fields present the SET text is `title=$1, description=$2, done=$3` |
| PsqlTodoItem.TodoItemRepo.constructor | internal/repository/psql/todo-item.go:15-17 | the repository works on the store it is given |
| PsqlTodoItem.TodoItemRepo.CreateItem | internal/repository/psql/todo-item.go:19-40 | on success, one item row (title and description, done at its default) and one `lists_items(itemId, listId)` link are added; if any step fails both roll back |
| PsqlTodoItem.TodoItemRepo.GetAllItems | internal/repository/psql/todo-item.go:43-64 | the items linked to the list, and nothing unless the user owns the list, cut at the row where `rows.Next()` fails with a nil error, or at a failing scan with its error; every returned item is in the list; with no error and no `Next` failure, exactly the list's items |
| PsqlTodoItem.TodoItemRepo.GetItemById | internal/repository/psql/todo-item.go:66-78 | succeeds only along the chain item → list → user; fails like a missing id otherwise |
| PsqlTodoItem.TodoItemRepo.UpdateItem | internal/repository/psql/todo-item.go:80-114 | only the present fields change, only on an item reachable from the user; with no field present the statement fails |
| PsqlTodoItem.TodoItemRepo.DeleteItem | internal/repository/psql/todo-item.go:116-123 | removes the item only when it is reachable from the user; otherwise no change and no not-found error |
| PsqlTodoItem.UpdateKeepsItemIds | internal/repository/psql/todo-item.go:107-109 | an update never invents a row id |
| PsqlTodoItem.UpdateByStrangerChangesNothing | internal/repository/psql/todo-item.go:107-109 | an update by a user the item is not reachable from changes no item |
| PsqlTodoItem.UpdateChangesOnlyPresentItemFields | internal/repository/psql/todo-item.go:85-109 | only the reachable item with that id changes, and only in the present fields, which take the new values |
| PsqlTodoItem.DeleteByStrangerChangesNothing | internal/repository/psql/todo-item.go:117-120 | deleting an unreachable item leaves the table as it was |
| ServiceTodoList.TodoListService.constructor | internal/service/todo-list.go:19-21 | the service's only state is its repository |
| ServiceTodoList.TodoListService.CreateList | internal/service/todo-list.go:23-25 | the repository's CreateList with the same arguments and its whole contract: both rows or neither, a fresh id on success, the first failing step's error, and the consumed id on a commit failure |
| ServiceTodoList.TodoListService.GetAllLists | internal/service/todo-list.go:27-29 | the repository's GetAllLists contract unchanged: a prefix cut by `Next` or a failing scan, owned lists only, and all of them when nothing fails |
| ServiceTodoList.TodoListService.GetListById | internal/service/todo-list.go:31-33 | the repository's GetListById unchanged: the list iff the user owns it; a foreign and a missing id both give sql.ErrNoRows and the zero list |
| ServiceTodoList.TodoListService.DeleteList | internal/service/todo-list.go:35-37 | the repository's DeleteList, unchanged |
| ServiceTodoList.TodoListService.UpdateList | internal/service/todo-list.go:39-44 | an input with no field returns the validation error and leaves the table alone; otherwise exactly the repository's result; the malformed-statement error can never occur |
| ServiceTodoItem.TodoItemService.constructor | internal/service/todo-item.go:20-22 | the service holds the item and list repositories |
| ServiceTodoItem.TodoItemService.CreateItem | internal/service/todo-item.go:24-31 | the list is looked up as the user first; on failure (0, err) and no item; otherwise the repository's CreateItem with the same list id and input, after which, over one store, the new item is reachable from the user |
| ServiceTodoItem.TodoItemService.GetAllItems | internal/service/todo-item.go:33-35 | the repository's GetAllItems contract unchanged: a prefix cut by `Next` or a failing scan, the list's items only and only for its owner, and all of them when nothing fails |
| ServiceTodoItem.TodoItemService.GetItemById | internal/service/todo-item.go:37-39 | the repository's GetItemById unchanged: the item only along item → list → user; an unreachable and a missing id both give sql.ErrNoRows and the zero item |
| ServiceTodoItem.TodoItemService.DeleteItem | internal/service/todo-item.go:41-43 | the repository's DeleteItem, unchanged |
| ServiceTodoItem.TodoItemService.UpdateItem | internal/service/todo-item.go:45-47 | no validation: an all-nil input reaches the repository and fails as a malformed statement |
| ServiceAuth.NewRefreshToken | internal/service/auth.go:133-143 | a refresh token is 64 lower-case hex digits that decode to the 32 random bytes; a read error is returned instead |
| ServiceAuth.AuthService.constructor | internal/service/auth.go:36-40 | the service holds exactly the collaborators, TTL and key it is built with |
| ServiceAuth.AuthService.AccessClaims | internal/service/auth.go:68-71 | the subject is the user id in decimal and Atoi reads it back as that id; iat is now and exp is now + tokenTTL, so with both claims present the claims pass validation exactly from now to now + tokenTTL |
| ServiceAuth.AuthService.TokenPair | internal/service/auth.go:67-92 | any failure of signing, refresh-token generation or the session insert gives ("", "", err); no partial pair; on success the access token is the signed claims and the refresh token is the hex of the random bytes |
| ServiceAuth.AuthService.GenerateTokens | internal/service/auth.go:67-92 | returns TokenPair; a session with the same user id, the returned refresh token and expiry now + 30 days is stored exactly when the pair is returned |
| ServiceAuth.AuthService.SignUp | internal/service/auth.go:42-51 | the stored row carries the hasher's output instead of the supplied password, and registered = now; a hashing failure returns its error and touches no store |
| ServiceAuth.AuthService.SignIn | internal/service/auth.go:53-65 | looks up (email, Hash(password)); a hashing or lookup failure gives empty tokens and no session; otherwise the pair of the found user's id |
| ServiceAuth.AuthService.ParseToken | internal/service/auth.go:94-117 | malformed text and a non-HMAC method ("invalid signing method") are rejected before any claim check; no error iff HMAC, valid claims and the server key; the user id is Atoi's value of the subject, even when Atoi fails |
| ServiceAuth.AuthService.RefreshToken | internal/service/auth.go:119-131 | a GetSession error passes through unchanged; an expiry strictly before now is refused after the user's sessions are deleted; otherwise a new pair for the session's user |
| ServiceAuth.AuthService.IssuedTokenParses | internal/service/auth.go:94-116 | an access token issued for a user parses back to that user at every second up to its expiry |
| ServiceAuth.AuthService.IssuedTokenExpires | internal/service/auth.go:95-104 | after its expiry the same token is rejected as expired and for no other reason |
| ServiceAuth.AuthService.ForeignKeyRejected | internal/service/auth.go:95-104 | a token signed under another key is rejected with the signature flag set |
| ServiceAuth.AuthService.NonNumericSubjectIsUserZero | internal/service/auth.go:111-116 | a valid, correctly signed token whose subject is not a number, and whose leading digits fit in uint64, yields (0, nil) |
| ServiceAuth.AuthService.OverflowingSubjectIsBound | internal/service/auth.go:111-116 | a valid, correctly signed token whose subject's leading digits overflow uint64 yields (MaxInt64, nil), or (MinInt64, nil) for a `-` sign, whatever follows the digits |
| ServiceAuth.AuthService.OutOfRangeSubjectIsBound | internal/service/auth.go:111-116 | a valid, correctly signed token whose subject is a well-formed number outside int64 yields (MaxInt64, nil), or (MinInt64, nil) below it |
| RestMiddleware.Split | internal/transport/rest/middleware.go:47 | strings.Split on " ": at least one part, no part contains a space, and joining the parts gives the header back |
| RestMiddleware.SplitAfterWord | internal/transport/rest/middleware.go:47 | a space-free word followed by a space splits off as the first part |
| RestMiddleware.SplitWord | internal/transport/rest/middleware.go:47 | a space-free string is a single part |
| RestMiddleware.SplitJoin | internal/transport/rest/middleware.go:47 | splitting undoes joining space-free parts |
| RestMiddleware.GetTokenFromRequest | internal/transport/rest/middleware.go:41-58 | empty header, then shape (two parts, the first exactly "Bearer"), then empty token, each with its message; a returned token is non-empty, space-free and the header is "Bearer " + token |
| RestMiddleware.BearerRoundTrip | internal/transport/rest/middleware.go:47-57 | "Bearer " + t yields t iff t is non-empty and contains no space |
| RestMiddleware.BearerWithoutToken | internal/transport/rest/middleware.go:53-55 | "Bearer " yields "token is empty" |
| RestMiddleware.DoubleSpaceRefused | internal/transport/rest/middleware.go:47-51 | "Bearer  t" with two spaces yields "invalid auth header" |
| RestMiddleware.Context.constructor | internal/transport/rest/middleware.go:42 | a request context starts with its header, no keys and no response |
| RestMiddleware.Handler.constructor | internal/transport/rest/middleware.go:25 | the handler holds the auth service |
| RestMiddleware.Handler.UserIdentity | internal/transport/rest/middleware.go:25-39 | the id is stored under "userId" only when both the header and ParseToken succeed, and it is exactly ParseToken's result; otherwise one 401 response with the error and no identity |
| RestMiddleware.IssuedBearerIdentifies | internal/transport/rest/middleware.go:25-38 | a request bearing a freshly issued access token is identified as that token's user until expiry |

## Left out

- HTTP handlers, routing and JSON binding (`internal/transport/rest/*.go` other than the middleware): they are forwarding plus gin plumbing.
- `getUserId` and `loggingMiddleware` in the middleware: a gin-context type assertion and logging.
- Process bootstrap, configuration, database connection, the HTTP server and error rendering (`cmd/app/main.go`, `internal/config`, `pkg/*`): these are I/O only. The error body is kept as (status, error).
- The password hasher (`pkg/hash` is not part of this model): an uninterpreted function with an error result.
- The internals of HMAC-SHA256 and of JWT encoding: a token is a record of method, claims and key. The serialisation is a pair of functions whose round trip is a hypothesis of the lemmas that need it.
- The exact `jwt.ValidationError` wrapping: the key-function rejection is modelled as the bare "invalid signing method" error, and the validation flags as three booleans.
- `math/rand` and the clock: the 32 bytes and `now` are inputs. `generateTokens` reads the clock three times and the model uses one instant for all three. Sub-second durations are not modelled: lifetimes are whole seconds.
- ServiceAuth.NewRefreshToken: keeps a read-failure path, although `(*rand.Rand).Read` always returns a nil error.
- `rows.Close()`: the source never calls it, and the model has no connection pool to leak.
- SQL engine semantics the code does not show: unique constraints (for example on `users.email`), cascading deletes, and concurrent redemption races. The model is single-threaded over in-memory tables.
- PsqlTodoItem.TodoItemRepo.CreateItem: the insert leaves `done` unwritten, so it takes the column default. The schema is not part of this model; the model assumes that default is false.
- Store.Db: a `serial` counter advances when its row is inserted, even if the transaction later rolls back, as in PostgreSQL. In `CreateList` and `CreateItem` that is a failed link insert or a failed commit. A failed first insert, and a failed `CreateUser` or `CreateSession`, leave the counter alone. Ids are therefore fresh but not dense.
- The joins are modelled as filters over the id chain. A list row linked several times would appear once, not once per link.
- `todo_lists.title binding:"required"` and the other gin binding tags: request validation happens in the handlers, outside this model.
