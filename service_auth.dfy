/** AuthService, internal/service/auth.go: sign-up, sign-in, issuing an access/refresh pair,
    parsing an access token and redeeming a refresh token. The clock is the `now` parameter
    (Unix seconds), the random source is its 32 output bytes, and the password hasher, JWT
    signer and JWT parser are functions the service is built with. */
module ServiceAuth {
  import opened Errors
  import opened Domain
  import opened Store
  import opened Jwt
  import Decimal
  import Hex
  import opened PsqlAuth
  import opened PsqlTokens

  /** `24 * time.Hour * 30`, the lifetime of a refresh session, in seconds. */
  const SessionTTL: int := 30 * 24 * 60 * 60

  const InvalidSigningMethod: string := "invalid signing method"
  const RefreshExpired: string := "refresh token expired"

  type Bytes32 = b: seq<bv8> | |b| == 32 witness seq(32, _ => 0 as bv8)

  /** What `r.Read(b)` on a 32-byte buffer produces. */
  datatype RandomRead = Read(bytes: Bytes32) | ReadFails(error: Error)

  /** The outcomes of the two fallible steps of issuing a pair after signing:
      reading the random bytes and inserting the session row. */
  datatype Issue = Issue(random: RandomRead, insert: Fault)

  /** `newRefreshToken`: the `%x` rendering of the random bytes, 64 lower-case hex digits. */
  function NewRefreshToken(r: RandomRead): (res: Result<string>)
    ensures res.Err? <==> r.ReadFails?
    ensures res.Err? ==> res.error == r.error
    ensures res.Ok? ==> |res.value| == 64 && forall k :: 0 <= k < |res.value| ==> Hex.IsLowerHex(res.value[k])
    ensures res.Ok? ==> Hex.Decode(res.value) == r.bytes
  {
    match r
    case ReadFails(e) => Err(e)
    case Read(b) =>
      Hex.DecodeEncode(b);
      Ok(Hex.Encode(b))
  }

  class AuthService {
    const repo: AuthRepo
    const tokensRepo: TokensRepo
    const hasher: string -> Result<string>
    /** The access-token lifetime, in whole seconds. */
    const tokenTTL: int
    const signingKey: seq<bv8>
    /** `SignedString`: the compact serialisation of a signed token, or the error it fails with. */
    const signer: Token -> Result<string>
    /** The decoding half of `jwt.ParseWithClaims`: `None` when the text is not a JWT. */
    const parser: string -> Option<Token>

    constructor (repo: AuthRepo, tokensRepo: TokensRepo, hasher: string -> Result<string>, tokenTTL: int,
                 signingKey: seq<bv8>, signer: Token -> Result<string>, parser: string -> Option<Token>)
      ensures this.repo == repo && this.tokensRepo == tokensRepo && this.hasher == hasher
      ensures this.tokenTTL == tokenTTL && this.signingKey == signingKey
      ensures this.signer == signer && this.parser == parser
    {
      this.repo := repo;
      this.tokensRepo := tokensRepo;
      this.hasher := hasher;
      this.tokenTTL := tokenTTL;
      this.signingKey := signingKey;
      this.signer := signer;
      this.parser := parser;
    }

    /** The claims of an access token for `userId` issued at `now`. */
    function AccessClaims(userId: int, now: int): (c: Claims)
      ensures c.subject == Decimal.Itoa(userId)
      ensures Decimal.IsInt64(userId) ==> Decimal.AtoiOk(c.subject) && Decimal.AtoiValue(c.subject) == userId
      ensures c.expiresAt - c.issuedAt == tokenTTL && c.issuedAt == now
      ensures now != 0 && now + tokenTTL != 0 ==>
                forall later :: !Expired(c, later) && !UsedBeforeIssued(c, later) <==> now <= later <= now + tokenTTL
    {
      var c := Claims(Decimal.Itoa(userId), now + tokenTTL, now);
      if Decimal.IsInt64(userId) then Decimal.AtoiItoa(userId); c else c
    }

    /** The result of `generateTokens`: signing, then the refresh token, then the session
        insert; the first failure wins and leaves both strings empty. */
    function TokenPair(userId: int, now: int, issue: Issue): (p: (string, string, Option<Error>))
      ensures p.2.Some? ==> p.0 == "" && p.1 == ""
      ensures p.2.None? <==> signer(Sign(HS256, AccessClaims(userId, now), signingKey)).Ok?
                             && issue.random.Read? && issue.insert.None?
      ensures p.2.None? ==> signer(Sign(HS256, AccessClaims(userId, now), signingKey)) == Ok(p.0)
                            && NewRefreshToken(issue.random) == Ok(p.1)
    {
      match signer(Sign(HS256, AccessClaims(userId, now), signingKey))
      case Err(e) => ("", "", Some(e))
      case Ok(access) =>
        match NewRefreshToken(issue.random)
        case Err(e) => ("", "", Some(e))
        case Ok(refresh) =>
          if issue.insert.Some? then ("", "", issue.insert) else (access, refresh, None)
    }

    /** `generateTokens`: a session row for `userId` carrying the returned refresh token and
        expiring `SessionTTL` seconds from now is stored exactly when the pair is returned. */
    method GenerateTokens(userId: int, now: int, issue: Issue) returns (access: string, refresh: string, err: Option<Error>)
      requires tokensRepo.db.Valid()
      modifies tokensRepo.db`refreshTokens, tokensRepo.db`nextSessionId
      ensures tokensRepo.db.Valid()
      ensures (access, refresh, err) == TokenPair(userId, now, issue)
      ensures err.None? ==>
                tokensRepo.db.refreshTokens
                == old(tokensRepo.db.refreshTokens) + [RefreshSession(old(tokensRepo.db.nextSessionId), userId, refresh, now + SessionTTL)]
      ensures err.Some? ==> tokensRepo.db.refreshTokens == old(tokensRepo.db.refreshTokens)
    {
      var signed := signer(Sign(HS256, AccessClaims(userId, now), signingKey));
      if signed.Err? {
        return "", "", Some(signed.error);
      }
      var token := NewRefreshToken(issue.random);
      if token.Err? {
        return "", "", Some(token.error);
      }
      var insertErr := tokensRepo.CreateSession(RefreshSession(0, userId, token.value, now + SessionTTL), issue.insert);
      if insertErr.Some? {
        return "", "", insertErr;
      }
      return signed.value, token.value, None;
    }

    /** `SignUp`: the stored row carries the hasher's output, never the supplied password, and
        `registered` is now; a hashing failure reaches no store. */
    method SignUp(user: User, now: int, insert: Fault) returns (id: int, err: Option<Error>)
      requires repo.db.Valid()
      modifies repo.db`users, repo.db`nextUserId
      ensures repo.db.Valid()
      ensures hasher(user.passwordHash).Err? ==>
                id == 0 && err == Some(hasher(user.passwordHash).error) && repo.db.users == old(repo.db.users)
      ensures hasher(user.passwordHash).Ok? ==> err == insert
      ensures hasher(user.passwordHash).Ok? && insert.None? ==>
                id == old(repo.db.nextUserId)
                && repo.db.users == old(repo.db.users)
                                    + [User(id, user.name, user.email, hasher(user.passwordHash).value, now)]
      ensures insert.Some? ==> id == 0 && repo.db.users == old(repo.db.users)
    {
      var hashed := hasher(user.passwordHash);
      if hashed.Err? {
        return 0, Some(hashed.error);
      }
      var u := user;
      u := u.(passwordHash := hashed.value);
      u := u.(registered := now);
      id, err := repo.CreateUser(u, insert);
    }

    /** `SignIn`: looks the user up by email and the hash of the password, then issues a
        pair for that user's id; a hashing or lookup failure gives empty strings and no session. */
    method SignIn(input: SignInInput, query: Fault, now: int, issue: Issue)
      returns (access: string, refresh: string, err: Option<Error>)
      requires tokensRepo.db.Valid()
      modifies tokensRepo.db`refreshTokens, tokensRepo.db`nextSessionId
      ensures tokensRepo.db.Valid()
      ensures hasher(input.password).Err? ==>
                (access, refresh, err) == ("", "", Some(hasher(input.password).error))
                && tokensRepo.db.refreshTokens == old(tokensRepo.db.refreshTokens)
      ensures hasher(input.password).Ok? && query.Some? ==>
                (access, refresh, err) == ("", "", query) && tokensRepo.db.refreshTokens == old(tokensRepo.db.refreshTokens)
      ensures hasher(input.password).Ok? && query.None? && FindUser(repo.db.users, input.email, hasher(input.password).value).None? ==>
                (access, refresh, err) == ("", "", Some(NoRows))
                && tokensRepo.db.refreshTokens == old(tokensRepo.db.refreshTokens)
      ensures hasher(input.password).Ok? && query.None? && FindUser(repo.db.users, input.email, hasher(input.password).value).Some? ==>
                var userId := FindUser(repo.db.users, input.email, hasher(input.password).value).value.id;
                (access, refresh, err) == TokenPair(userId, now, issue)
                && tokensRepo.db.refreshTokens
                   == old(tokensRepo.db.refreshTokens)
                      + (if err.None? then [RefreshSession(old(tokensRepo.db.nextSessionId), userId, refresh, now + SessionTTL)]
                         else [])
    {
      var hashed := hasher(input.password);
      if hashed.Err? {
        return "", "", Some(hashed.error);
      }
      var userId, lookupErr := repo.GetUserId(input.email, hashed.value, query);
      if lookupErr.Some? {
        return "", "", lookupErr;
      }
      access, refresh, err := GenerateTokens(userId, now, issue);
    }

    /** `ParseToken`: decode, reject a non-HMAC method before any check, validate the claims
        and the signature against the server key, then convert the subject. As written, the
        conversion error is never returned: the test on line 112 is on `ok`, which is true
        here, so the value `strconv.Atoi` produced is returned with a nil error. */
    function ParseToken(accessToken: string, now: int): (r: (int, Option<Error>))
      ensures r.1.Some? ==> r.0 == 0
      ensures parser(accessToken).None? ==> r == (0, Some(TokenMalformed))
      ensures parser(accessToken).Some? && !IsHmac(parser(accessToken).value.alg) ==>
                r == (0, Some(Msg(InvalidSigningMethod)))
      ensures r.1.None? <==> parser(accessToken).Some? && IsHmac(parser(accessToken).value.alg)
                             && Verify(parser(accessToken).value, signingKey, now).None?
      ensures r.1.None? ==> r.0 == Decimal.AtoiValue(parser(accessToken).value.claims.subject)
    {
      match parser(accessToken)
      case None => (0, Some(TokenMalformed))
      case Some(t) =>
        if !IsHmac(t.alg) then (0, Some(Msg(InvalidSigningMethod)))
        else
          match Verify(t, signingKey, now)
          case Some(e) => (0, Some(e))
          case None => (Decimal.AtoiValue(t.claims.subject), None)
    }

    /** `RefreshToken`: redeems the session (which deletes every session of its user), and
        only then compares `expires_at` with now, so an expired session is consumed too. A
        session expiring in the current second is still accepted. */
    method RefreshToken(token: string, query: Fault, delete: Fault, now: int, issue: Issue)
      returns (access: string, refresh: string, err: Option<Error>)
      requires tokensRepo.db.Valid()
      modifies tokensRepo.db`refreshTokens, tokensRepo.db`nextSessionId
      ensures tokensRepo.db.Valid()
      ensures var found := FindSession(old(tokensRepo.db.refreshTokens), token);
              if query.Some? || found.None? then
                access == "" && refresh == ""
                && err == (if query.Some? then query else Some(NoRows))
                && tokensRepo.db.refreshTokens == old(tokensRepo.db.refreshTokens)
              else if delete.Some? then
                (access, refresh, err) == ("", "", delete)
                && tokensRepo.db.refreshTokens == old(tokensRepo.db.refreshTokens)
              else
                var s := found.value;
                var remaining := DeleteUserSessions(old(tokensRepo.db.refreshTokens), s.userId);
                if s.expiresAt < now then
                  (access, refresh, err) == ("", "", Some(Msg(RefreshExpired)))
                  && tokensRepo.db.refreshTokens == remaining
                else
                  (access, refresh, err) == TokenPair(s.userId, now, issue)
                  && tokensRepo.db.refreshTokens
                     == remaining + (if err.None? then [RefreshSession(old(tokensRepo.db.nextSessionId), s.userId, refresh, now + SessionTTL)]
                                     else [])
    {
      var session, getErr := tokensRepo.GetSession(token, query, delete);
      if getErr.Some? {
        return "", "", getErr;
      }
      if session.expiresAt < now {
        return "", "", Some(Msg(RefreshExpired));
      }
      access, refresh, err := GenerateTokens(session.userId, now, issue);
    }

    /** Round trip: an access token issued for `userId` at `now`, when the serialisation
        decodes back to the signed token, parses to `userId` at every second from `now`
        to its expiry. */
    lemma IssuedTokenParses(userId: int, now: int, issue: Issue, later: int)
      requires Decimal.IsInt64(userId)
      requires now != 0 && now + tokenTTL != 0
      requires TokenPair(userId, now, issue).2.None?
      requires parser(TokenPair(userId, now, issue).0) == Some(Sign(HS256, AccessClaims(userId, now), signingKey))
      requires now <= later <= now + tokenTTL
      ensures ParseToken(TokenPair(userId, now, issue).0, later) == (userId, None)
    {
      Decimal.AtoiItoa(userId);
      AcceptedWindow(HS256, Decimal.Itoa(userId), now, tokenTTL, signingKey, later);
    }

    /** After its expiry the same token is rejected as expired, and only as expired. */
    lemma IssuedTokenExpires(userId: int, now: int, issue: Issue, later: int)
      requires now != 0 && now + tokenTTL != 0
      requires TokenPair(userId, now, issue).2.None?
      requires parser(TokenPair(userId, now, issue).0) == Some(Sign(HS256, AccessClaims(userId, now), signingKey))
      requires later > now + tokenTTL && later >= now
      ensures ParseToken(TokenPair(userId, now, issue).0, later) == (0, Some(TokenInvalid(true, false, false)))
    {
    }

    /** A token signed under another key is rejected with the signature flag set. */
    lemma ForeignKeyRejected(accessToken: string, now: int)
      requires parser(accessToken).Some? && IsHmac(parser(accessToken).value.alg)
      requires parser(accessToken).value.key != signingKey
      ensures ParseToken(accessToken, now).1.Some?
      ensures ParseToken(accessToken, now).1.value.TokenInvalid? && ParseToken(accessToken, now).1.value.signatureInvalid
    {
    }

    /** The line-112 quirk: a valid, correctly signed token whose subject is not a decimal
        integer, and whose leading digits do not overflow, is accepted as user 0 with no error. */
    lemma NonNumericSubjectIsUserZero(accessToken: string, now: int)
      requires parser(accessToken).Some? && IsHmac(parser(accessToken).value.alg)
      requires Verify(parser(accessToken).value, signingKey, now).None?
      requires !Decimal.AtoiSyntax(parser(accessToken).value.claims.subject)
      requires !Decimal.Overflows(parser(accessToken).value.claims.subject)
      ensures ParseToken(accessToken, now) == (0, None)
    {
    }

    /** The same quirk on a well-formed subject outside int64: strconv.ParseInt clamps it to the
        bound of its sign with a range error, and that bound is accepted as the user id. */
    lemma OutOfRangeSubjectIsBound(accessToken: string, now: int)
      requires parser(accessToken).Some? && IsHmac(parser(accessToken).value.alg)
      requires Verify(parser(accessToken).value, signingKey, now).None?
      requires Decimal.AtoiSyntax(parser(accessToken).value.claims.subject)
      requires !Decimal.IsInt64(Decimal.SignedValue(parser(accessToken).value.claims.subject))
      ensures ParseToken(accessToken, now)
              == (if Decimal.Negative(parser(accessToken).value.claims.subject) then Decimal.MinInt64 else Decimal.MaxInt64, None)
    {
    }

    /** The same quirk on an overflowing subject: strconv.Atoi stops at the range error before
        it sees a non-digit, and the clamped bound is accepted as the user id with no error. */
    lemma OverflowingSubjectIsBound(accessToken: string, now: int)
      requires parser(accessToken).Some? && IsHmac(parser(accessToken).value.alg)
      requires Verify(parser(accessToken).value, signingKey, now).None?
      requires Decimal.Overflows(parser(accessToken).value.claims.subject)
      ensures ParseToken(accessToken, now)
              == (if Decimal.Negative(parser(accessToken).value.claims.subject) then Decimal.MinInt64 else Decimal.MaxInt64, None)
    {
    }
  }
}
