/**
 Token requests over time and interleaved. The guard and the change it protects run in separate
 transactions, so an authorized request may act after others have changed the row; so does the
 INSERT of a login whose SELECT found nothing. Tokens are always new UUIDs.
 */
module TokenProtocol {
  import opened TokenStore
  import Runs

  /** A request between its two transactions; `since` is when its first one ran. */
  datatype Pending =
    | LoggingIn(user: User, since: int)
    | LoggingOut(user: User)
    | Refreshing(user: User, since: int)

  /** `issued` is every token ever generated; it is bookkeeping, not service state. */
  datatype State = State(now: int, rows: Rows, issued: set<Token>, pending: multiset<Pending>)

  const INIT := State(0, map[], {}, multiset{})

  datatype Event =
    | Tick(seconds: nat)
    /** A login whose password was right and whose SELECT finds a row: it answers that token. */
    | LoginFound(user: User)
    | LoginMissing(user: User)
    /** now() is the start of the transaction that began with the SELECT. */
    | LoginInsert(user: User, since: int, uuid: Token)
    | AuthorizeLogout(token: Token, user: User)
    | AuthorizeRefresh(token: Token, user: User)
    | Logout(user: User)
    /** The UPDATE's transaction started at `started`, some time after the guard. */
    | Refresh(user: User, since: int, started: int, uuid: Token)
    /** A request dies between its transactions. */
    | Crash(request: Pending)

  predicate Enabled(s: State, ev: Event) {
    match ev
    case Tick(_) => true
    case LoginFound(user) => user in s.rows
    case LoginMissing(user) => user !in s.rows
    case LoginInsert(user, since, uuid) => LoggingIn(user, since) in s.pending && uuid !in s.issued
    case AuthorizeLogout(token, user) => Resolves(s.rows, token, s.now, user)
    case AuthorizeRefresh(token, user) => Resolves(s.rows, token, s.now, user)
    case Logout(user) => LoggingOut(user) in s.pending
    case Refresh(user, since, started, uuid) =>
      Refreshing(user, since) in s.pending && since <= started <= s.now && uuid !in s.issued
    case Crash(request) => request in s.pending
  }

  function Step(s: State, ev: Event): State
    requires Enabled(s, ev)
  {
    match ev
    case Tick(seconds) => s.(now := s.now + seconds)
    case LoginFound(user) => s
    case LoginMissing(user) => s.(pending := s.pending + multiset{LoggingIn(user, s.now)})
    case LoginInsert(user, since, uuid) =>
      // the primary key refuses a second row for the user
      var s1 := s.(pending := s.pending - multiset{LoggingIn(user, since)}, issued := s.issued + {uuid});
      if user in s.rows then s1 else s1.(rows := s.rows[user := TokenRow(uuid, since + WEEK)])
    case AuthorizeLogout(_, user) => s.(pending := s.pending + multiset{LoggingOut(user)})
    case AuthorizeRefresh(_, user) => s.(pending := s.pending + multiset{Refreshing(user, s.now)})
    case Logout(user) => s.(rows := s.rows - {user}, pending := s.pending - multiset{LoggingOut(user)})
    case Refresh(user, since, started, uuid) =>
      var s1 := s.(pending := s.pending - multiset{Refreshing(user, since)}, issued := s.issued + {uuid});
      if user in s.rows then s1.(rows := s.rows[user := TokenRow(uuid, started + WEEK)]) else s1
    case Crash(request) => s.(pending := s.pending - multiset{request})
  }

  ghost predicate Run(s: State, evs: seq<Event>) {
    Runs.Run(Step, s, evs)
  }

  ghost function After(s: State, evs: seq<Event>): State
    requires Run(s, evs)
  {
    Runs.After(Step, s, evs)
  }

  lemma Last(s: State, evs: seq<Event>)
    requires Run(s, evs) && evs != []
    ensures var n := |evs| - 1;
            && Run(s, evs[..n]) && Enabled(After(s, evs[..n]), evs[n])
            && After(s, evs) == Step(After(s, evs[..n]), evs[n])
  {
    Runs.LastStep(Step, s, evs);
  }

  lemma One(s: State, ev: Event)
    requires Enabled(s, ev)
    ensures Run(s, [ev]) && After(s, [ev]) == Step(s, ev)
  {
    assert Step.requires(s, ev);
    Runs.Single(Step, s, ev);
  }

  lemma Extend(s: State, evs: seq<Event>, ev: Event)
    requires Run(s, evs) && Enabled(After(s, evs), ev)
    ensures Run(s, evs + [ev]) && After(s, evs + [ev]) == Step(After(s, evs), ev)
  {
    assert Step.requires(After(s, evs), ev);
    Runs.OneMore(Step, s, evs, ev);
  }

  ghost predicate Reachable(s: State) {
    exists evs :: Run(INIT, evs) && After(INIT, evs) == s
  }

  // ---- the invariant ----

  ghost predicate RowsOk(rows: Rows, issued: set<Token>, now: int) {
    && (forall u :: u in rows ==> rows[u].token in issued && rows[u].validUntil <= now + WEEK)
    && (forall u, v :: u in rows && v in rows && rows[u].token == rows[v].token ==> u == v)
  }

  ghost predicate Inv(s: State) {
    && RowsOk(s.rows, s.issued, s.now)
    && (forall p :: p in s.pending && (p.LoggingIn? || p.Refreshing?) ==> p.since <= s.now)
  }

  lemma NewTokenRow(rows: Rows, issued: set<Token>, now: int, user: User, uuid: Token, start: int)
    requires RowsOk(rows, issued, now) && uuid !in issued && start <= now
    ensures RowsOk(rows[user := TokenRow(uuid, start + WEEK)], issued + {uuid}, now)
  {
  }

  lemma StepKeepsInv(s: State, ev: Event)
    requires Inv(s) && Enabled(s, ev)
    ensures Inv(Step(s, ev))
  {
    PendingStep(s, ev);
    match ev
    case LoginInsert(user, since, uuid) => NewTokenRow(s.rows, s.issued, s.now, user, uuid, since);
    case Refresh(user, since, started, uuid) => NewTokenRow(s.rows, s.issued, s.now, user, uuid, started);
    case _ =>
  }

  lemma PendingStep(s: State, ev: Event)
    requires Enabled(s, ev)
    requires forall p :: p in s.pending && (p.LoggingIn? || p.Refreshing?) ==> p.since <= s.now
    ensures forall p :: p in Step(s, ev).pending && (p.LoggingIn? || p.Refreshing?) ==> p.since <= Step(s, ev).now
  {
  }

  lemma {:induction false} RunKeepsInv(s: State, evs: seq<Event>)
    requires Inv(s) && Run(s, evs)
    ensures Inv(After(s, evs))
    decreases |evs|
  {
    if evs == [] {
    } else {
      var n := |evs| - 1;
      Last(s, evs);
      RunKeepsInv(s, evs[..n]);
      StepKeepsInv(After(s, evs[..n]), evs[n]);
    }
  }

  lemma ReachableInv(s: State)
    requires Reachable(s)
    ensures Inv(s)
  {
    var evs :| Run(INIT, evs) && After(INIT, evs) == s;
    RunKeepsInv(INIT, evs);
  }

  /** A live token resolves to exactly one user, its owner, and lives at most a week from now. */
  lemma TokenHasOneOwner(s: State, token: Token, u: User, v: User)
    requires Reachable(s) && Resolves(s.rows, token, s.now, u) && Resolves(s.rows, token, s.now, v)
    ensures u == v && s.now < s.rows[u].validUntil <= s.now + 604800
  {
    ReachableInv(s);
  }

  /** A login that creates the row and a refresh issue a token for a week from the start of their transaction. */
  lemma IssuedForAWeek(s: State, ev: Event)
    requires Enabled(s, ev) && (ev.LoginInsert? || ev.Refresh?)
    ensures ev.LoginInsert? && ev.user !in s.rows ==> LivesAWeek(Step(s, ev).rows, ev.user, ev.uuid, ev.since)
    ensures ev.Refresh? && ev.user in s.rows ==> LivesAWeek(Step(s, ev).rows, ev.user, ev.uuid, ev.started)
    ensures Step(s, ev).rows - {ev.user} == s.rows - {ev.user}
  {
  }

  // ---- revocation ----

  lemma {:induction false} DroppedStaysDropped(s: State, evs: seq<Event>, token: Token)
    requires Run(s, evs) && token in s.issued && !Held(s.rows, token)
    ensures token in After(s, evs).issued && !Held(After(s, evs).rows, token)
    decreases |evs|
  {
    if evs == [] {
    } else {
      var n := |evs| - 1;
      Last(s, evs);
      DroppedStaysDropped(s, evs[..n], token);
      DroppedStep(After(s, evs[..n]), evs[n], token);
    }
  }

  lemma DroppedStep(s: State, ev: Event, token: Token)
    requires Enabled(s, ev) && token in s.issued && !Held(s.rows, token)
    ensures token in Step(s, ev).issued && !Held(Step(s, ev).rows, token)
  {
    forall u | u in Step(s, ev).rows ensures Step(s, ev).rows[u].token != token {
      if u in s.rows { assert s.rows[u].token != token; }
    }
  }

  /** Once a logout or refresh has removed or replaced a token, it authenticates no one in any continuation. */
  lemma RevocationIsPermanent(s: State, ev: Event, evs: seq<Event>)
    requires Reachable(s) && Enabled(s, ev) && (ev.Logout? || ev.Refresh?) && ev.user in s.rows
    requires Run(Step(s, ev), evs)
    ensures !Authenticates(After(Step(s, ev), evs).rows, s.rows[ev.user].token, After(Step(s, ev), evs).now)
  {
    ReachableInv(s);
    var token := s.rows[ev.user].token;
    var s1 := Step(s, ev);
    forall u | u in s1.rows ensures s1.rows[u].token != token {
      if u != ev.user { assert s1.rows[u] == s.rows[u]; }
    }
    DroppedStaysDropped(s1, evs, token);
    assert !Held(After(s1, evs).rows, token);
  }

  // ---- expiry ----

  /** The user's row stays exactly as it is in every continuation. */
  ghost predicate LockedIn(s: State, user: User)
    requires user in s.rows
  {
    forall evs :: Run(s, evs) ==> user in After(s, evs).rows && After(s, evs).rows[user] == s.rows[user]
  }

  /** Some authorized request can still act on the user's row. */
  ghost predicate ActionPending(s: State, user: User) {
    exists p :: p in s.pending && (p.LoggingOut? || p.Refreshing?) && p.user == user
  }

  lemma ExpiredStep(s: State, ev: Event, user: User)
    requires Enabled(s, ev) && user in s.rows && Expired(s.rows[user], s.now) && !ActionPending(s, user)
    ensures var s' := Step(s, ev);
            user in s'.rows && s'.rows[user] == s.rows[user] && Expired(s'.rows[user], s'.now) && !ActionPending(s', user)
  {
    ExpiredNotActed(s, ev, user);
    if ev.Logout? { assert LoggingOut(ev.user) in s.pending; }
    if ev.Refresh? { assert Refreshing(ev.user, ev.since) in s.pending; }
  }

  /** No new action on the row is authorized. */
  lemma ExpiredNotActed(s: State, ev: Event, user: User)
    requires Enabled(s, ev) && user in s.rows && Expired(s.rows[user], s.now) && !ActionPending(s, user)
    ensures !ActionPending(Step(s, ev), user)
  {
    forall p | p in Step(s, ev).pending && (p.LoggingOut? || p.Refreshing?) ensures p.user != user {
      if p in s.pending { assert p.user != user; }
    }
  }

  lemma {:induction false} ExpiredRowStays(s: State, evs: seq<Event>, user: User)
    requires Run(s, evs) && user in s.rows && Expired(s.rows[user], s.now) && !ActionPending(s, user)
    ensures var s' := After(s, evs);
            user in s'.rows && s'.rows[user] == s.rows[user] && Expired(s'.rows[user], s'.now) && !ActionPending(s', user)
    decreases |evs|
  {
    if evs == [] {
    } else {
      var n := |evs| - 1;
      Last(s, evs);
      ExpiredRowStays(s, evs[..n], user);
      ExpiredStep(After(s, evs[..n]), evs[n], user);
    }
  }

  /** The requests the service still holds act some time or crash; each can act now. */
  lemma PendingActs(s: State, user: User) returns (ev: Event)
    requires Inv(s) && user in s.rows && ActionPending(s, user)
    ensures Enabled(s, ev)
    ensures user in Step(s, ev).rows ==> Step(s, ev).rows[user] != s.rows[user]
  {
    var p :| p in s.pending && (p.LoggingOut? || p.Refreshing?) && p.user == user;
    if p.LoggingOut? {
      ev := Logout(user);
    } else {
      var uuid := NewToken(s.issued);
      ev := Refresh(user, p.since, s.now, uuid);
    }
  }

  /** UUIDs never run out. */
  lemma NewToken(issued: set<Token>) returns (uuid: Token)
    ensures uuid !in issued
  {
    uuid := Bound(issued);
  }

  lemma Bound(issued: set<Token>) returns (bound: Token)
    ensures forall t :: t in issued ==> t < bound
    decreases issued
  {
    bound := 0;
    if t :| t in issued {
      var rest := Bound(issued - {t});
      bound := if t < rest then rest else t + 1;
      assert forall u :: u in issued ==> u == t || u in issued - {t};
    }
  }

  /**
   An expired row is locked in - no login, refresh or logout will ever change it again - exactly
   when no request authorized before the expiry is still under way.
   */
  lemma ExpiredLockedInIff(s: State, user: User)
    requires Reachable(s) && user in s.rows && s.rows[user].validUntil <= s.now
    ensures LockedIn(s, user) <==> !ActionPending(s, user)
  {
    ReachableInv(s);
    if ActionPending(s, user) {
      var ev := PendingActs(s, user);
      One(s, ev);
      assert !(user in After(s, [ev]).rows && After(s, [ev]).rows[user] == s.rows[user]);
    } else {
      forall evs | Run(s, evs) ensures user in After(s, evs).rows && After(s, evs).rows[user] == s.rows[user] {
        ExpiredRowStays(s, evs, user);
      }
    }
  }

  /** Such a user is locked out: every later login answers a token that authenticates no one, and no guard lets them in. */
  lemma ExpiredUserLockedOut(s: State, evs: seq<Event>, user: User)
    requires Reachable(s) && user in s.rows && s.rows[user].validUntil <= s.now && !ActionPending(s, user)
    requires Run(s, evs)
    ensures var s' := After(s, evs);
            && user in s'.rows
            && GetOrCreate(s'.rows, user, 0, s'.now) == (s'.rows, s.rows[user].token)
            && !Authenticates(s'.rows, s.rows[user].token, s'.now)
            && forall token :: !Resolves(s'.rows, token, s'.now, user)
  {
    ReachableInv(s);
    ExpiredRowStays(s, evs, user);
    RunKeepsInv(s, evs);
    var s' := After(s, evs);
    forall u ensures !Resolves(s'.rows, s.rows[user].token, s'.now, u) {
      if u in s'.rows && u != user { assert s'.rows[u].token != s'.rows[user].token; }
    }
  }

  /** Two logins that both found no row: the second INSERT is refused and the first token stands. */
  lemma RacingLogins(s: State, user: User, first: Token, second: Token)
    requires user !in s.rows && first !in s.issued && second !in s.issued && first != second
    ensures var a, b := LoginMissing(user), LoginInsert(user, s.now, first);
            var c := LoginInsert(user, s.now, second);
            && Run(s, [a] + [a] + [b] + [c])
            && After(s, [a] + [a] + [b] + [c]).rows == s.rows[user := TokenRow(first, s.now + 604800)]
  {
    var a, b := LoginMissing(user), LoginInsert(user, s.now, first);
    var c := LoginInsert(user, s.now, second);
    var login := LoggingIn(user, s.now);
    One(s, a);
    Extend(s, [a], a);
    var both := After(s, [a] + [a]);
    assert both == s.(pending := s.pending + multiset{login} + multiset{login});
    FirstLoginWins(both, user, s.now, first, second);
    Extend(s, [a] + [a], b);
    Extend(s, [a] + [a] + [b], c);
  }

  lemma FirstLoginWins(s: State, user: User, since: int, first: Token, second: Token)
    requires user !in s.rows && first !in s.issued && second !in s.issued && first != second
    requires multiset{LoggingIn(user, since), LoggingIn(user, since)} <= s.pending
    ensures Enabled(s, LoginInsert(user, since, first))
    ensures var s' := Step(s, LoginInsert(user, since, first));
            && Enabled(s', LoginInsert(user, since, second))
            && s'.rows == s.rows[user := TokenRow(first, since + 604800)]
            && Step(s', LoginInsert(user, since, second)).rows == s'.rows
  {
    assert s.pending[LoggingIn(user, since)] >= 2;
  }
}
