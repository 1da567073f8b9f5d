/**
 The token table: one row per user, an opaque token and an expiry
 (repository/auth.py, migrations/0002_token_and_roles.sql, middleware/auth.py).
 */
module TokenStore {
  import opened Wrappers

  type User = int

  /** A UUID value; the text forms a client may send are parsed before they get here. */
  type Token = nat

  datatype TokenRow = TokenRow(token: Token, validUntil: int)

  type Rows = map<User, TokenRow>

  const WEEK := 7 * 24 * 60 * 60

  predicate Expired(row: TokenRow, now: int) {
    row.validUntil <= now
  }

  /** The WHERE clause of get_user_by_token. */
  predicate Resolves(rows: Rows, token: Token, now: int, user: User) {
    user in rows && rows[user].token == token && now < rows[user].validUntil
  }

  ghost predicate Authenticates(rows: Rows, token: Token, now: int) {
    exists user :: Resolves(rows, token, now, user)
  }

  ghost predicate Held(rows: Rows, token: Token) {
    exists user :: user in rows && rows[user].token == token
  }

  /** A row issued at `start` authenticates its user at exactly the times before the week is over. */
  ghost predicate LivesAWeek(rows: Rows, user: User, token: Token, start: int) {
    && user in rows && rows[user].token == token && rows[user].validUntil == start + 604800
    && forall t :: Resolves(rows, token, t, user) <==> t < start + 604800
  }

  function GetOrCreate(rows: Rows, user: User, uuid: Token, now: int): (Rows, Token) {
    if user in rows then (rows, rows[user].token) else (rows[user := TokenRow(uuid, now + WEEK)], uuid)
  }

  class Tokens {
    var rows: Rows

    constructor ()
      ensures rows == map[]
    {
      rows := map[];
    }

    /** get_or_create_user_token: an existing token is returned as it is, expired or not. */
    method GetAccessToken(user: User, uuid: Token, now: int) returns (token: Token)
      modifies this
      ensures (rows, token) == GetOrCreate(old(rows), user, uuid, now)
      ensures user in old(rows) ==> rows == old(rows) && token == old(rows)[user].token
      ensures user !in old(rows) ==>
                token == uuid && rows - {user} == old(rows) - {user} && LivesAWeek(rows, user, uuid, now)
      ensures Resolves(rows, token, now, user) <==> user !in old(rows) || now < old(rows)[user].validUntil
    {
      if user in rows {
        token := rows[user].token;
      } else {
        token := uuid;
        rows := rows[user := TokenRow(token, now + WEEK)];
      }
    }

    method DeleteToken(user: User) returns (deleted: Option<User>)
      modifies this
      ensures rows == old(rows) - {user}
      ensures deleted == if user in old(rows) then Some(user) else None
    {
      deleted := None;
      if user in rows {
        rows := rows - {user};
        deleted := Some(user);
      }
    }

    method RefreshUserToken(user: User, uuid: Token, now: int) returns (token: Option<Token>)
      modifies this
      ensures user in old(rows) ==>
                token == Some(uuid) && rows - {user} == old(rows) - {user} && LivesAWeek(rows, user, uuid, now)
      ensures user !in old(rows) ==> rows == old(rows) && token == None
    {
      token := None;
      if user in rows {
        rows := rows[user := TokenRow(uuid, now + WEEK)];
        token := Some(uuid);
      }
    }

    /** The query of get_user_by_token: some row with this token that has not expired. */
    method GetUserByToken(token: Token, now: int) returns (user: Option<User>)
      ensures user.Some? ==>
                user.value in rows && rows[user.value].token == token && now < rows[user.value].validUntil
      ensures user.Some? <==> exists u :: u in rows && rows[u].token == token && now < rows[u].validUntil
      ensures user.Some? <==> Authenticates(rows, token, now)
    {
      if u :| u in rows && rows[u].token == token && now < rows[u].validUntil {
        assert Resolves(rows, token, now, u);
        user := Some(u);
      } else {
        user := None;
      }
    }
  }

  /** `Broken` is the unhandled exception of comparing a missing privilege: an internal server error. */
  datatype AuthError = Unauthorized | Forbidden | Broken

  datatype AuthResult = Authorized(user: User) | Rejected(error: AuthError)

  /**
   The guard of the endpoints: `parsed` is the UUID the header holds, if it holds one. A user
   without a role, which the left join lets through, is missing from `privileges`.
   */
  method Authorize(tokens: Tokens, parsed: Option<Token>, now: int, required: int, privileges: map<User, int>)
    returns (result: AuthResult)
    ensures result.Authorized? ==>
              && parsed.Some? && result.user in tokens.rows && tokens.rows[result.user].token == parsed.value
              && now < tokens.rows[result.user].validUntil
              && result.user in privileges && privileges[result.user] >= required
    ensures result == Rejected(Unauthorized) <==>
              parsed.None? || !Authenticates(tokens.rows, parsed.value, now)
    ensures result == Rejected(Forbidden) ==>
              parsed.Some? &&
              exists u :: Resolves(tokens.rows, parsed.value, now, u) && u in privileges && privileges[u] < required
    ensures result == Rejected(Broken) ==>
              parsed.Some? && exists u :: Resolves(tokens.rows, parsed.value, now, u) && u !in privileges
  {
    if parsed.None? {
      return Rejected(Unauthorized);
    }
    var user := tokens.GetUserByToken(parsed.value, now);
    if user.None? {
      return Rejected(Unauthorized);
    }
    assert Resolves(tokens.rows, parsed.value, now, user.value);
    if user.value !in privileges {
      return Rejected(Broken);
    }
    if privileges[user.value] < required {
      return Rejected(Forbidden);
    }
    result := Authorized(user.value);
  }
}
