/** The users repository, internal/repository/psql/auth.go, over the in-memory `users` table. */
module PsqlAuth {
  import opened Errors
  import opened Domain
  import opened Seqs
  import opened Store

  class AuthRepo {
    const db: Db

    constructor (db: Db)
      ensures this.db == db
    {
      this.db := db;
    }

    /** `INSERT INTO users (name, email, password_hash, registered) ... RETURNING id`: the row gets
        the next serial id; the `Id` of the argument is ignored. `insert` is the driver's outcome. */
    method CreateUser(user: User, insert: Fault) returns (id: int, err: Option<Error>)
      requires db.Valid()
      modifies db`users, db`nextUserId
      ensures db.Valid()
      ensures err == insert
      ensures insert.Some? ==> id == 0 && db.users == old(db.users) && db.nextUserId == old(db.nextUserId)
      ensures insert.None? ==> id == old(db.nextUserId) && db.nextUserId == id + 1
      ensures insert.None? ==> db.users == old(db.users) + [User(id, user.name, user.email, user.passwordHash, user.registered)]
      ensures insert.None? ==> forall u :: u in old(db.users) ==> u.id != id
    {
      if insert.Some? {
        return 0, insert;
      }
      id := db.nextUserId;
      db.users := db.users + [User(id, user.name, user.email, user.passwordHash, user.registered)];
      db.nextUserId := db.nextUserId + 1;
      err := None;
    }

    /** `SELECT id FROM users WHERE email=$1 AND password_hash=$2`. A wrong email and a wrong
        hash fail alike, with sql.ErrNoRows; the table is only read. */
    method GetUserId(email: string, hash: string, query: Fault) returns (userId: int, err: Option<Error>)
      ensures query.Some? ==> userId == 0 && err == query
      ensures query.None? && err.None? ==>
                exists u :: u in db.users && u.id == userId && u.email == email && u.passwordHash == hash
      ensures query.None? && err.Some? ==>
                userId == 0 && err == Some(NoRows)
                && forall u :: u in db.users ==> !(u.email == email && u.passwordHash == hash)
      ensures query.None? ==> (err.None? <==> FindUser(db.users, email, hash).Some?)
      ensures query.None? && err.None? ==> userId == FindUser(db.users, email, hash).value.id
    {
      if query.Some? {
        return 0, query;
      }
      var row := FindUser(db.users, email, hash);
      if row.None? {
        return 0, Some(NoRows);
      }
      return row.value.id, None;
    }
  }

  /** Sign-up then sign-in: once a row is appended, looking up its own email and hash finds
      exactly that row, provided no earlier row has the same email. */
  lemma {:induction false} FindCreatedUser(users: seq<User>, u: User)
    requires forall v :: v in users ==> v.email != u.email
    ensures FindUser(users + [u], u.email, u.passwordHash) == Some(u)
  {
    var p := (v: User) => v.email == u.email && v.passwordHash == u.passwordHash;
    assert forall k :: 0 <= k < |users| ==> !p(users[k]) by {
      forall k | 0 <= k < |users| ensures !p(users[k]) {
        assert users[k] in users;
      }
    }
    FindFirstAppended(users, u, p);
  }
}
