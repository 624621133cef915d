/**
 Deleting what has expired cannot be observed: a server that runs
 CleanupExpiredTokens and the delayed deletions whenever it likes answers every
 request as one that never deletes an expired entry.
 */
module OAuthCleanup {
  import opened Wrappers
  import opened OAuthState
  import opened OAuthRuns

  // ----- The server that keeps everything -----

  /** The handlers that delete an expired entry as they refuse it. */
  predicate HitsExpired(s: Server, req: Request, now: Time) {
    || (req.CodeGrant? && req.code in s.codes && now > s.codes[req.code].expiresAt)
    || (req.RefreshGrant? && req.token in s.refresh && now > s.refresh[req.token].expiresAt)
  }

  function KeepingHandle(env: Env, s: Server, req: Request, now: Time, draws: Draws): (Server, Response) {
    var (s', r) := Handle(env, s, req, now, draws);
    (if HitsExpired(s, req, now) then s else s', r)
  }

  function KeeperNext(env: Env, s: Server, e: Event): Server {
    if e.Serve? then KeepingHandle(env, s, e.req, e.now, e.draws).0 else s
  }

  /** The responses to the requests among `events`. */
  function Responses(env: Env, w: World, events: seq<Event>): seq<Response>
    decreases |events|
  {
    if |events| == 0 then []
    else
      var e := events[0];
      (if e.Serve? then [Handle(env, w.server, e.req, e.now, e.draws).1] else []) +
        Responses(env, Next(env, w, e), events[1..])
  }

  function KeeperResponses(env: Env, s: Server, events: seq<Event>): seq<Response>
    decreases |events|
  {
    if |events| == 0 then []
    else
      var e := events[0];
      (if e.Serve? then [KeepingHandle(env, s, e.req, e.now, e.draws).1] else []) +
        KeeperResponses(env, KeeperNext(env, s, e), events[1..])
  }

  // ----- How the two servers differ -----

  ghost predicate Same(t: Token, u: Token) {
    t.(revoked := u.revoked) == u
  }

  /** Only an access token without an expiry counts as expired at once. */
  ghost predicate Dead(t: Token, now: Time, access: bool) {
    now > t.expiresAt || (access && t.expiresAt == 0)
  }

  ghost predicate TokensLag(m: map<string, Token>, all: map<string, Token>, now: Time, access: bool) {
    && (forall t :: t in m ==> t in all && Same(m[t], all[t]))
    && (forall t :: t in all ==> t in m || Dead(all[t], now, access))
  }

  ghost predicate CodesLag(m: map<string, AuthCode>, all: map<string, AuthCode>, now: Time) {
    && (forall c :: c in m ==> c in all && m[c] == all[c])
    && (forall c :: c in all ==> c in m || now > all[c].expiresAt)
  }

  /** The server lacks nothing but dead entries; deletions under way are of dead entries. */
  ghost predicate Lags(s: Server, all: Server, now: Time) {
    && s.clients == all.clients && CodesLag(s.codes, all.codes, now)
    && TokensLag(s.access, all.access, now, true) && TokensLag(s.refresh, all.refresh, now, false)
  }

  ghost predicate PendingDead(w: World) {
    && (forall t :: t in w.server.access ==> t in w.issued)
    && (forall t :: t in w.pending ==>
      t in w.issued && (t in w.server.access ==> Dead(w.server.access[t], w.now, true)))
  }

  lemma LagsLater(s: Server, all: Server, now: Time, later: Time)
    requires Lags(s, all, now) && now <= later
    ensures Lags(s, all, later)
  {
  }

  // ----- Each change leaves the one server lagging behind the other -----

  lemma Lookup(m: map<string, Token>, all: map<string, Token>, now: Time, access: bool, k: string)
    requires TokensLag(m, all, now, access)
    ensures k in m ==> k in all && Same(m[k], all[k])
    ensures k in all && k !in m ==> Dead(all[k], now, access)
  {
  }

  lemma BothStore(m: map<string, Token>, all: map<string, Token>, now: Time, access: bool, t: Token)
    requires TokensLag(m, all, now, access)
    ensures TokensLag(m[t.token := t], all[t.token := t], now, access)
  {
  }

  lemma BothForget(m: map<string, Token>, all: map<string, Token>, now: Time, access: bool, k: string)
    requires TokensLag(m, all, now, access)
    ensures TokensLag(m - {k}, all - {k}, now, access)
    ensures k in all && Dead(all[k], now, access) ==> TokensLag(m - {k}, all, now, access)
  {
  }

  lemma CodesLagAfter(m: map<string, AuthCode>, all: map<string, AuthCode>, now: Time, c: AuthCode, k: string)
    requires CodesLag(m, all, now)
    ensures CodesLag(m[c.code := c], all[c.code := c], now) && CodesLag(m - {k}, all - {k}, now)
    ensures k in m ==> k in all && m[k] == all[k]
    ensures k in all && now > all[k].expiresAt ==> CodesLag(m - {k}, all, now)
    ensures k in all && k !in m ==> now > all[k].expiresAt
  {
  }

  lemma AuthorizeAlike(env: Env, s: Server, all: Server, p: AuthorizeParams, now: Time, draws: Draws)
    requires Lags(s, all, now)
    ensures var (s', r) := AuthorizeStep(env, s, p, now, draws);
      var (all', r') := AuthorizeStep(env, all, p, now, draws);
      r == r' && Lags(s', all', now)
  {
    hide CodesLag, TokensLag, ScopeSupported, RedirectAllowed;
    var (s', r) := AuthorizeStep(env, s, p, now, draws);
    if r.Code? {
      CodesLagAfter(s.codes, all.codes, now, s'.codes[r.code], "");
    }
  }

  lemma CodeGrantAlike(env: Env, s: Server, all: Server, creds: Credentials, code: string, uri: string,
                       verifier: string, now: Time, draws: Draws)
    requires Lags(s, all, now)
    ensures var (s', r) := CodeGrantStep(env, s, creds, code, uri, verifier, now, draws);
      var (all', r') := CodeGrantStep(env, all, creds, code, uri, verifier, now, draws);
      r == r' && Lags(s', if HitsExpired(all, CodeGrant(creds, code, uri, verifier), now) then all else all', now)
  {
    hide CodesLag, TokensLag, ValidClient, Verified;
    var (s', r) := CodeGrantStep(env, s, creds, code, uri, verifier, now, draws);
    CodesLagAfter(s.codes, all.codes, now, AuthCode("", "", "", "", "", 0, 0, "", ""), code);
    if draws.first.Some? && draws.first.value in s'.access {
      BothStore(s.access, all.access, now, true, s'.access[draws.first.value]);
    }
    if draws.second.Some? && draws.second.value in s'.refresh {
      BothStore(s.refresh, all.refresh, now, false, s'.refresh[draws.second.value]);
    }
  }

  lemma ClientGrantAlike(env: Env, s: Server, all: Server, creds: Credentials, scope: string, now: Time, draws: Draws)
    requires Lags(s, all, now)
    ensures var (s', r) := ClientGrantStep(env, s, creds, scope, now, draws);
      var (all', r') := ClientGrantStep(env, all, creds, scope, now, draws);
      r == r' && Lags(s', all', now)
  {
    hide CodesLag, ScopeSupported;
  }

  lemma RefreshGrantAlike(env: Env, s: Server, all: Server, creds: Credentials, token: string, scope: string,
                          now: Time, draws: Draws)
    requires Lags(s, all, now)
    ensures var (s', r) := RefreshGrantStep(s, creds, token, scope, now, draws);
      var (all', r') := RefreshGrantStep(all, creds, token, scope, now, draws);
      r == r' && Lags(s', if HitsExpired(all, RefreshGrant(creds, token, scope), now) then all else all', now)
  {
    hide CodesLag, TokensLag, ValidClient, ScopeSet;
    var (s', r) := RefreshGrantStep(s, creds, token, scope, now, draws);
    Lookup(s.refresh, all.refresh, now, false, token);
    BothForget(s.refresh, all.refresh, now, false, token);
    if draws.first.Some? && draws.first.value in s'.access {
      BothStore(s.access, all.access, now, true, s'.access[draws.first.value]);
    }
    if draws.second.Some? && draws.second.value in s'.refresh {
      BothStore(s.refresh - {token}, all.refresh - {token}, now, false, s'.refresh[draws.second.value]);
    }
  }

  lemma RevokeAlike(s: Server, all: Server, creds: Credentials, token: string, hint: string, now: Time)
    requires Lags(s, all, now)
    ensures var (s', r) := RevokeStep(s, creds, token, hint, now);
      var (all', r') := RevokeStep(all, creds, token, hint, now);
      r == r' && Lags(s', all', now)
  {
    RevokeOnlyMarks(s, creds, token, hint, now);
    RevokeOnlyMarks(all, creds, token, hint, now);
    MarksLag(s.access, all.access, RevokeStep(s, creds, token, hint, now).0.access,
      RevokeStep(all, creds, token, hint, now).0.access, now, true);
    MarksLag(s.refresh, all.refresh, RevokeStep(s, creds, token, hint, now).0.refresh,
      RevokeStep(all, creds, token, hint, now).0.refresh, now, false);
    hide TokensLag, CodesLag, SameButRevoked, MarkRevoked;
  }

  /** Marking tokens revoked, whichever they are, makes no entry more or less alive. */
  lemma MarksLag(m: map<string, Token>, all: map<string, Token>, m': map<string, Token>, all': map<string, Token>,
                 now: Time, access: bool)
    requires TokensLag(m, all, now, access) && SameButRevoked(m, m') && SameButRevoked(all, all')
    ensures TokensLag(m', all', now, access)
  {
    forall t | t in m' ensures t in all' && Same(m'[t], all'[t]) {
      assert t in m && t in all;
    }
    forall t | t in all' ensures t in m' || Dead(all'[t], now, access) {
      assert t in all;
    }
  }

  lemma RequestAlike(env: Env, s: Server, all: Server, req: Request, now: Time, draws: Draws)
    requires Lags(s, all, now)
    ensures var (s', r) := Handle(env, s, req, now, draws); var (all', r') := KeepingHandle(env, all, req, now, draws);
      r == r' && Lags(s', all', now)
  {
    hide CodeGrantStep, RefreshGrantStep, AuthorizeStep, ClientGrantStep, RevokeStep;
    match req {
      case Register(config) => hide CodesLag, TokensLag;
      case Authorize(p) => AuthorizeAlike(env, s, all, p, now, draws);
      case CodeGrant(creds, code, uri, verifier) => CodeGrantAlike(env, s, all, creds, code, uri, verifier, now, draws);
      case ClientGrant(creds, scope) => ClientGrantAlike(env, s, all, creds, scope, now, draws);
      case RefreshGrant(creds, token, scope) => RefreshGrantAlike(env, s, all, creds, token, scope, now, draws);
      case Validate(token) => Lookup(s.access, all.access, now, true, token);
      case Revoke(creds, token, hint) => RevokeAlike(s, all, creds, token, hint, now);
    }
  }

  // ----- Whole runs -----

  /** A token whose delayed deletion is under way is never stored again. */
  lemma PendingStaysDead(env: Env, w: World, e: Event)
    requires PendingDead(w) && Enabled(w, e)
    ensures PendingDead(Next(env, w, e))
  {
    if e.Serve? {
      var s' := Handle(env, w.server, e.req, e.now, e.draws).0;
      OnlyDrawsAreStored(env, w.server, e.req, e.now, e.draws);
      hide Handle;
      var w' := Next(env, w, e);
      forall t | t in w'.pending && t in s'.access ensures t in w'.issued && Dead(s'.access[t], e.now, true) {
        if t in w.pending { assert t in w.issued; }
        assert t in w.server.access && s'.access[t].expiresAt == w.server.access[t].expiresAt;
      }
    }
  }

  /** An access token is stored under a fresh draw, or was there with the same expiry. */
  lemma OnlyDrawsAreStored(env: Env, s: Server, req: Request, now: Time, draws: Draws)
    ensures var s' := Handle(env, s, req, now, draws).0;
      forall t :: t in s'.access ==>
        draws.first == Some(t) || (t in s.access && s'.access[t].expiresAt == s.access[t].expiresAt)
    ensures req.Validate? ==> Handle(env, s, req, now, draws).0 == s
  {
    if req.Revoke? {
      RevokeOnlyMarks(s, req.creds, req.token, req.hint, now);
      hide RevokeStep;
    }
    hide ValidClient, ScopeSet, Verified, ScopeSupported;
  }

  lemma MaintenanceLags(env: Env, w: World, all: Server, e: Event)
    requires Lags(w.server, all, w.now) && PendingDead(w) && Enabled(w, e) && !e.Serve?
    ensures var w' := Next(env, w, e); Lags(w'.server, all, w'.now)
  {
    if e.DelayedDelete? {
      hide CodesLag;
      var t := e.token;
      Lookup(w.server.access, all.access, w.now, true, t);
      BothForget(w.server.access, all.access, w.now, true, t);
    }
  }

  /** Every request of the run gets the response it would get if nothing expired were ever deleted. */
  lemma {:induction false} CleanupIsUnobservable(env: Env, w: World, all: Server, events: seq<Event>)
    requires Lags(w.server, all, w.now) && PendingDead(w) && Legal(env, w, events)
    ensures Responses(env, w, events) == KeeperResponses(env, all, events)
    decreases |events|
  {
    if |events| > 0 {
      var e := events[0];
      PendingStaysDead(env, w, e);
      if e.Serve? {
        LagsLater(w.server, all, w.now, e.now);
        RequestAlike(env, w.server, all, e.req, e.now, e.draws);
        assert Lags(Next(env, w, e).server, KeeperNext(env, all, e), e.now) by { hide Lags, Handle, PendingDead; }
      } else {
        MaintenanceLags(env, w, all, e);
      }
      hide Lags, PendingDead, Next, KeeperNext, Handle;
      CleanupIsUnobservable(env, Next(env, w, e), KeeperNext(env, all, e), events[1..]);
    }
  }

  lemma CleanupIsUnobservableFromStart(env: Env, start: Time, events: seq<Event>)
    requires Legal(env, Start(start), events)
    ensures Responses(env, Start(start), events) == KeeperResponses(env, EmptyServer, events)
  {
    CleanupIsUnobservable(env, Start(start), EmptyServer, events);
  }
}
