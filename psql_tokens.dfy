/** The refresh-session repository, internal/repository/psql/tokens.go, over the in-memory
    `refresh_tokens` table. */
module PsqlTokens {
  import opened Errors
  import opened Domain
  import opened Seqs
  import opened Store

  class TokensRepo {
    const db: Db

    constructor (db: Db)
      ensures this.db == db
    {
      this.db := db;
    }

    /** `INSERT INTO refresh_tokens (user_id, token, expires_at)`: a plain insert; every existing
        session, of this user or any other, stays. */
    method CreateSession(session: RefreshSession, insert: Fault) returns (err: Option<Error>)
      requires db.Valid()
      modifies db`refreshTokens, db`nextSessionId
      ensures db.Valid()
      ensures err == insert
      ensures insert.Some? ==> db.refreshTokens == old(db.refreshTokens) && db.nextSessionId == old(db.nextSessionId)
      ensures insert.None? ==> db.nextSessionId == old(db.nextSessionId) + 1
      ensures insert.None? ==>
                db.refreshTokens == old(db.refreshTokens)
                                    + [RefreshSession(old(db.nextSessionId), session.userId, session.token, session.expiresAt)]
    {
      if insert.Some? {
        return insert;
      }
      db.refreshTokens := db.refreshTokens
        + [RefreshSession(db.nextSessionId, session.userId, session.token, session.expiresAt)];
      db.nextSessionId := db.nextSessionId + 1;
      err := None;
    }

    /** `SELECT * FROM refresh_tokens WHERE token=$1`, then `DELETE FROM refresh_tokens WHERE
        user_id=$1` for the owner of the row found. `expires_at` is never looked at. */
    method GetSession(token: string, query: Fault, delete: Fault) returns (session: RefreshSession, err: Option<Error>)
      requires db.Valid()
      modifies db`refreshTokens
      ensures db.Valid()
      ensures query.Some? ==> session == ZeroSession && err == query && db.refreshTokens == old(db.refreshTokens)
      ensures query.None? && FindSession(old(db.refreshTokens), token).None? ==>
                session == ZeroSession && err == Some(NoRows) && db.refreshTokens == old(db.refreshTokens)
      ensures query.None? && FindSession(old(db.refreshTokens), token).Some? ==>
                session == FindSession(old(db.refreshTokens), token).value && err == delete
                && db.refreshTokens == if delete.Some? then old(db.refreshTokens)
                                       else DeleteUserSessions(old(db.refreshTokens), session.userId)
    {
      if query.Some? {
        return ZeroSession, query;
      }
      var row := FindSession(db.refreshTokens, token);
      if row.None? {
        return ZeroSession, Some(NoRows);
      }
      session := row.value;
      if delete.Some? {
        return session, delete;
      }
      db.refreshTokens := DeleteUserSessions(db.refreshTokens, session.userId);
      err := None;
    }
  }

  /** Single use: once the redeemed token's owner has lost every session, the token no
      longer finds a row, provided no other user's session carries the same token. */
  lemma SingleUse(rows: seq<RefreshSession>, token: string)
    requires FindSession(rows, token).Some?
    requires forall s :: s in rows && s.token == token ==> s.userId == FindSession(rows, token).value.userId
    ensures FindSession(DeleteUserSessions(rows, FindSession(rows, token).value.userId), token).None?
  {
  }

  /** Without that proviso the token is not single-use: when two users hold sessions with the
      same token text, the first redemption deletes only the first owner's sessions and the
      second redemption succeeds with the other user's session. */
  lemma SharedTokenRedeemsTwice()
    ensures var rows := [RefreshSession(1, 1, "t", 0), RefreshSession(2, 2, "t", 0)];
            && FindSession(rows, "t") == Some(rows[0])
            && FindSession(DeleteUserSessions(rows, 1), "t") == Some(rows[1])
  {
    var rows := [RefreshSession(1, 1, "t", 0), RefreshSession(2, 2, "t", 0)];
    assert DeleteUserSessions(rows, 1) == [rows[1]];
  }

  /** Two sign-ins of one user leave two live sessions; redeeming the first one's token
      deletes both, so neither token can be redeemed afterwards. */
  lemma {:induction false} RedeemingOneSignInEndsBoth(rows: seq<RefreshSession>, a: RefreshSession, b: RefreshSession)
    requires a.userId == b.userId && a.token != b.token
    requires forall s :: s in rows ==> s.token != a.token && s.token != b.token
    ensures FindSession(rows + [a, b], a.token) == Some(a)
    ensures FindSession(rows + [a, b], b.token) == Some(b)
    ensures FindSession(DeleteUserSessions(rows + [a, b], a.userId), a.token).None?
    ensures FindSession(DeleteUserSessions(rows + [a, b], a.userId), b.token).None?
  {
    var all := rows + [a, b];
    var pa := (s: RefreshSession) => s.token == a.token;
    var pb := (s: RefreshSession) => s.token == b.token;
    assert all == (rows + [a]) + [b];
    assert forall k :: 0 <= k < |rows| ==> !pa(rows[k]) && !pb(rows[k]) by {
      forall k | 0 <= k < |rows| ensures !pa(rows[k]) && !pb(rows[k]) {
        assert rows[k] in rows;
      }
    }
    FindFirstAppended(rows, a, pa);
    assert FindFirst(all, pa) == Some(a) by {
      var r := FindFirst(all, pa);
      assert all[|rows|] == a;
      assert r.Some?;
      var k :| 0 <= k < |all| && all[k] == r.value && pa(all[k]) && forall j :: 0 <= j < k ==> !pa(all[j]);
      assert k <= |rows|;
      assert k == |rows|;
    }
    assert forall k :: 0 <= k < |rows + [a]| ==> !pb((rows + [a])[k]);
    FindFirstAppended(rows + [a], b, pb);
  }
}
