/** The authentication middleware, internal/transport/rest/middleware.go: Bearer-header
    parsing and the `userIdentity` step that stores the caller's id in the request context. */
module RestMiddleware {
  import opened Errors
  import opened ServiceAuth
  import Decimal
  import Jwt

  const EmptyHeader: string := "empty auth header"
  const InvalidHeader: string := "invalid auth header"
  const EmptyToken: string := "token is empty"

  /** The context key `userIdentity` stores the id under. */
  const UserCtx: string := "userId"

  /** http.StatusUnauthorized. */
  const Unauthorized: int := 401

  /** `strings.Join(parts, " ")`. */
  function Join(parts: seq<string>): string
    requires |parts| > 0
  {
    if |parts| == 1 then parts[0] else parts[0] + " " + Join(parts[1..])
  }

  /** `strings.Split(s, " ")`: the maximal space-free pieces between single spaces; two
      adjacent spaces give an empty piece. */
  function Split(s: string): (parts: seq<string>)
    ensures |parts| > 0
    ensures forall k :: 0 <= k < |parts| ==> ' ' !in parts[k]
    ensures Join(parts) == s
  {
    if s == [] then [""]
    else
      var rest := Split(s[1..]);
      if s[0] == ' ' then
        assert ([""] + rest)[1..] == rest;
        [""] + rest
      else
        var first := [s[0]] + rest[0];
        assert ([first] + rest[1..])[1..] == rest[1..];
        assert |rest| > 1 ==> Join(rest) == rest[0] + " " + Join(rest[1..]);
        [first] + rest[1..]
  }

  /** A space-free piece followed by a space splits off as the first part. */
  lemma {:induction false} SplitAfterWord(w: string, tail: string)
    requires ' ' !in w
    ensures Split(w + " " + tail) == [w] + Split(tail)
  {
    if w == [] {
      assert w + " " + tail == [' '] + tail;
      assert (w + " " + tail)[1..] == tail;
    } else {
      assert (w + " " + tail)[1..] == w[1..] + " " + tail;
      SplitAfterWord(w[1..], tail);
      assert [w[0]] + w[1..] == w;
    }
  }

  /** A space-free string is its own single part. */
  lemma {:induction false} SplitWord(w: string)
    requires ' ' !in w
    ensures Split(w) == [w]
  {
    if w != [] {
      assert ' ' !in w[1..];
      SplitWord(w[1..]);
      assert [w[0]] + w[1..] == w;
    }
  }

  /** Split undoes Join on space-free parts. */
  lemma {:induction false} SplitJoin(parts: seq<string>)
    requires |parts| > 0
    requires forall k :: 0 <= k < |parts| ==> ' ' !in parts[k]
    ensures Split(Join(parts)) == parts
  {
    if |parts| == 1 {
      SplitWord(parts[0]);
    } else {
      SplitJoin(parts[1..]);
      SplitAfterWord(parts[0], Join(parts[1..]));
      assert [parts[0]] + parts[1..] == parts;
    }
  }

  /** `getTokenFromRequest` on the value of the Authorization header: emptiness, then
      shape, then an empty token, in that order. */
  function GetTokenFromRequest(header: string): (r: Result<string>)
    ensures header == "" ==> r == Err(Msg(EmptyHeader))
    ensures header != "" && (|Split(header)| != 2 || Split(header)[0] != "Bearer") ==> r == Err(Msg(InvalidHeader))
    ensures r.Ok? ==> |r.value| > 0 && ' ' !in r.value && header == "Bearer " + r.value
    ensures r.Err? ==> r.error.Msg? && r.error.text in {EmptyHeader, InvalidHeader, EmptyToken}
  {
    if header == "" then Err(Msg(EmptyHeader))
    else
      var parts := Split(header);
      if |parts| != 2 || parts[0] != "Bearer" then Err(Msg(InvalidHeader))
      else if |parts[1]| == 0 then Err(Msg(EmptyToken))
      else
        assert Join(parts) == parts[0] + " " + Join(parts[1..]);
        Ok(parts[1])
  }

  /** Round trip: the header `Bearer <t>` yields `t` exactly when `t` is non-empty and free of
      spaces; every other header is refused. */
  lemma BearerRoundTrip(t: string)
    ensures GetTokenFromRequest("Bearer " + t) == Ok(t) <==> |t| > 0 && ' ' !in t
  {
    if |t| > 0 && ' ' !in t {
      SplitWord(t);
      SplitAfterWord("Bearer", t);
      assert "Bearer" + " " + t == "Bearer " + t;
    }
  }

  /** `"Bearer "` passes the shape check and fails as an empty token. */
  lemma BearerWithoutToken()
    ensures GetTokenFromRequest("Bearer ") == Err(Msg(EmptyToken))
  {
    SplitAfterWord("Bearer", "");
    assert "Bearer" + " " + "" == "Bearer ";
  }

  /** Two spaces after the scheme give three parts, so the header is refused as invalid. */
  lemma DoubleSpaceRefused()
    ensures GetTokenFromRequest("Bearer  t") == Err(Msg(InvalidHeader))
  {
    SplitAfterWord("Bearer", " t");
    SplitAfterWord("", "t");
    assert "Bearer" + " " + " t" == "Bearer  t";
    assert "" + " " + "t" == " t";
  }

  /** The slice of a gin.Context the middleware touches: the Authorization header, the
      values set with `c.Set`, and the error bodies written with `c.JSON`. */
  class Context {
    const authorization: string
    var keys: map<string, int>
    var responses: seq<(int, Error)>

    constructor (authorization: string)
      ensures this.authorization == authorization && keys == map[] && responses == []
    {
      this.authorization := authorization;
      keys := map[];
      responses := [];
    }
  }

  class Handler {
    const authService: AuthService

    constructor (authService: AuthService)
      ensures this.authService == authService
    {
      this.authService := authService;
    }

    /** `userIdentity`: the id is stored only when both the header and the token are
        accepted, and it is exactly what ParseToken returned; otherwise a 401 body is
        written and the chain is not aborted. */
    method UserIdentity(c: Context, now: int)
      modifies c
      ensures var tok := GetTokenFromRequest(c.authorization);
              if tok.Err? then
                c.keys == old(c.keys) && c.responses == old(c.responses) + [(Unauthorized, tok.error)]
              else
                var parsed := authService.ParseToken(tok.value, now);
                if parsed.1.Some? then
                  c.keys == old(c.keys) && c.responses == old(c.responses) + [(Unauthorized, parsed.1.value)]
                else
                  c.keys == old(c.keys)[UserCtx := parsed.0] && c.responses == old(c.responses)
    {
      var token := GetTokenFromRequest(c.authorization);
      if token.Err? {
        c.responses := c.responses + [(Unauthorized, token.error)];
        return;
      }
      var parsed := authService.ParseToken(token.value, now);
      if parsed.1.Some? {
        c.responses := c.responses + [(Unauthorized, parsed.1.value)];
        return;
      }
      c.keys := c.keys[UserCtx := parsed.0];
    }
  }

  /** End to end: a request bearing an access token issued for `userId` identifies `userId`
      until the token expires, when the serialisation is space-free and decodes back. */
  lemma IssuedBearerIdentifies(s: AuthService, userId: int, now: int, issue: Issue, later: int)
    requires Decimal.IsInt64(userId)
    requires now != 0 && now + s.tokenTTL != 0 && now <= later <= now + s.tokenTTL
    requires s.TokenPair(userId, now, issue).2.None?
    requires s.parser(s.TokenPair(userId, now, issue).0) == Some(Jwt.Sign(Jwt.HS256, s.AccessClaims(userId, now), s.signingKey))
    requires |s.TokenPair(userId, now, issue).0| > 0 && ' ' !in s.TokenPair(userId, now, issue).0
    ensures GetTokenFromRequest("Bearer " + s.TokenPair(userId, now, issue).0) == Ok(s.TokenPair(userId, now, issue).0)
    ensures s.ParseToken(s.TokenPair(userId, now, issue).0, later) == (userId, None)
  {
    BearerRoundTrip(s.TokenPair(userId, now, issue).0);
    s.IssuedTokenParses(userId, now, issue, later);
  }
}
