/**
 Marking a token revoked changes no response: neither validation nor the refresh
 grant reads the mark, so a revoked token is accepted exactly when it would be
 without it.
 */
module OAuthRevocation {
  import opened Wrappers
  import opened OAuthState
  import opened OAuthRuns
  import OAuthCleanup

  /** The servers differ only in which tokens are marked revoked. */
  ghost predicate MarksApart(s: Server, t: Server) {
    && s.clients == t.clients && s.codes == t.codes
    && SameButRevoked(s.access, t.access) && SameButRevoked(s.refresh, t.refresh)
  }

  function After(env: Env, s: Server, e: Event): Server {
    match e
    case Serve(req, now, draws) => Handle(env, s, req, now, draws).0
    case Cleanup(now) => CleanupStep(s, now)
    case DelayedDelete(token) => s.(access := s.access - {token})
  }

  /** The responses of the server to the requests among `events`. */
  function Answers(env: Env, s: Server, events: seq<Event>): seq<Response>
    decreases |events|
  {
    if |events| == 0 then []
    else
      var e := events[0];
      (if e.Serve? then [Handle(env, s, e.req, e.now, e.draws).1] else []) + Answers(env, After(env, s, e), events[1..])
  }

  // ----- Each change keeps the servers alike -----

  lemma Lookup(m: map<string, Token>, m': map<string, Token>, k: string)
    requires SameButRevoked(m, m')
    ensures k in m <==> k in m'
    ensures k in m ==> m'[k].(revoked := m[k].revoked) == m[k]
  {
    assert k in m.Keys <==> k in m'.Keys;
  }

  lemma BothStore(m: map<string, Token>, m': map<string, Token>, t: Token)
    requires SameButRevoked(m, m')
    ensures SameButRevoked(m[t.token := t], m'[t.token := t])
  {
  }

  lemma BothForget(m: map<string, Token>, m': map<string, Token>, k: string)
    requires SameButRevoked(m, m')
    ensures SameButRevoked(m - {k}, m' - {k})
  {
  }

  lemma MarksChain(a: map<string, Token>, b: map<string, Token>, a': map<string, Token>, b': map<string, Token>)
    requires SameButRevoked(a, b) && SameButRevoked(a, a') && SameButRevoked(b, b')
    ensures SameButRevoked(a', b')
  {
    forall k | k in a' ensures b'[k].(revoked := a'[k].revoked) == a'[k] {
      Lookup(a, a', k);
      Lookup(a, b, k);
      Lookup(b, b', k);
    }
    assert a'.Keys == b'.Keys;
  }

  lemma CodeGrantAlike(env: Env, s: Server, t: Server, creds: Credentials, code: string, uri: string, verifier: string,
                       now: Time, draws: Draws)
    requires MarksApart(s, t)
    ensures var (s', r) := CodeGrantStep(env, s, creds, code, uri, verifier, now, draws);
      var (t', r') := CodeGrantStep(env, t, creds, code, uri, verifier, now, draws);
      r == r' && MarksApart(s', t')
  {
    hide SameButRevoked, ValidClient, Verified;
    var s' := CodeGrantStep(env, s, creds, code, uri, verifier, now, draws).0;
    if draws.first.Some? && draws.first.value in s'.access {
      BothStore(s.access, t.access, s'.access[draws.first.value]);
    }
    if draws.second.Some? && draws.second.value in s'.refresh {
      BothStore(s.refresh, t.refresh, s'.refresh[draws.second.value]);
    }
  }

  lemma ClientGrantAlike(env: Env, s: Server, t: Server, creds: Credentials, scope: string, now: Time, draws: Draws)
    requires MarksApart(s, t)
    ensures var (s', r) := ClientGrantStep(env, s, creds, scope, now, draws);
      var (t', r') := ClientGrantStep(env, t, creds, scope, now, draws);
      r == r' && MarksApart(s', t')
  {
    hide SameButRevoked, ValidClient, ScopeSupported;
    var s' := ClientGrantStep(env, s, creds, scope, now, draws).0;
    if draws.first.Some? && draws.first.value in s'.access {
      BothStore(s.access, t.access, s'.access[draws.first.value]);
    }
  }

  lemma RefreshGrantAlike(s: Server, t: Server, creds: Credentials, token: string, scope: string, now: Time,
                          draws: Draws)
    requires MarksApart(s, t)
    ensures var (s', r) := RefreshGrantStep(s, creds, token, scope, now, draws);
      var (t', r') := RefreshGrantStep(t, creds, token, scope, now, draws);
      r == r' && MarksApart(s', t')
  {
    hide SameButRevoked, ValidClient, ScopeSet;
    var s' := RefreshGrantStep(s, creds, token, scope, now, draws).0;
    Lookup(s.refresh, t.refresh, token);
    BothForget(s.refresh, t.refresh, token);
    if draws.first.Some? && draws.first.value in s'.access {
      BothStore(s.access, t.access, s'.access[draws.first.value]);
    }
    if draws.second.Some? && draws.second.value in s'.refresh {
      BothStore(s.refresh - {token}, t.refresh - {token}, s'.refresh[draws.second.value]);
    }
  }

  lemma RevokeAlike(s: Server, t: Server, creds: Credentials, token: string, hint: string, now: Time)
    requires MarksApart(s, t)
    ensures var (s', r) := RevokeStep(s, creds, token, hint, now);
      var (t', r') := RevokeStep(t, creds, token, hint, now);
      r == r' && MarksApart(s', t')
  {
    RevokeOnlyMarks(s, creds, token, hint, now);
    RevokeOnlyMarks(t, creds, token, hint, now);
    var s', t' := RevokeStep(s, creds, token, hint, now).0, RevokeStep(t, creds, token, hint, now).0;
    MarksChain(s.access, t.access, s'.access, t'.access);
    MarksChain(s.refresh, t.refresh, s'.refresh, t'.refresh);
    hide SameButRevoked, MarkRevoked;
  }

  /** A request gets the same response, and the servers differ only in marks again. */
  lemma RequestAlike(env: Env, s: Server, t: Server, req: Request, now: Time, draws: Draws)
    requires MarksApart(s, t)
    ensures Handle(env, s, req, now, draws).1 == Handle(env, t, req, now, draws).1
    ensures MarksApart(Handle(env, s, req, now, draws).0, Handle(env, t, req, now, draws).0)
  {
    hide CodeGrantStep, RefreshGrantStep, ClientGrantStep, RevokeStep, SameButRevoked;
    match req {
      case Register(_) =>
      case Authorize(_) =>
      case CodeGrant(creds, code, uri, verifier) => CodeGrantAlike(env, s, t, creds, code, uri, verifier, now, draws);
      case ClientGrant(creds, scope) => ClientGrantAlike(env, s, t, creds, scope, now, draws);
      case RefreshGrant(creds, token, scope) => RefreshGrantAlike(s, t, creds, token, scope, now, draws);
      case Validate(token) => Lookup(s.access, t.access, token);
      case Revoke(creds, token, hint) => RevokeAlike(s, t, creds, token, hint, now);
    }
  }

  // ----- Whole runs -----

  lemma EventAlike(env: Env, s: Server, t: Server, e: Event)
    requires MarksApart(s, t)
    ensures MarksApart(After(env, s, e), After(env, t, e))
    ensures e.Serve? ==> Handle(env, s, e.req, e.now, e.draws).1 == Handle(env, t, e.req, e.now, e.draws).1
  {
    hide Handle;
    if e.Serve? {
      RequestAlike(env, s, t, e.req, e.now, e.draws);
    } else if e.DelayedDelete? {
      BothForget(s.access, t.access, e.token);
    }
  }

  lemma {:induction false} MarksAreUnobservable(env: Env, s: Server, t: Server, events: seq<Event>)
    requires MarksApart(s, t)
    ensures Answers(env, s, events) == Answers(env, t, events)
    decreases |events|
  {
    if |events| > 0 {
      var e := events[0];
      EventAlike(env, s, t, e);
      hide MarksApart, Handle, After;
      MarksAreUnobservable(env, After(env, s, e), After(env, t, e), events[1..]);
    }
  }

  /** After a revocation every later request gets the response it would have got without it. */
  lemma RevocationIsUnobservable(env: Env, s: Server, creds: Credentials, token: string, hint: string, now: Time,
                                 events: seq<Event>)
    ensures Answers(env, RevokeStep(s, creds, token, hint, now).0, events) == Answers(env, s, events)
  {
    RevokeOnlyMarks(s, creds, token, hint, now);
    MarksAreUnobservable(env, s, RevokeStep(s, creds, token, hint, now).0, events);
  }

  /** The responses of a run are those of its server. */
  lemma {:induction false} RunAnswers(env: Env, w: World, events: seq<Event>)
    ensures OAuthCleanup.Responses(env, w, events) == Answers(env, w.server, events)
    decreases |events|
  {
    if |events| > 0 {
      assert Next(env, w, events[0]).server == After(env, w.server, events[0]);
      hide Next, After, Handle;
      RunAnswers(env, Next(env, w, events[0]), events[1..]);
    }
  }

  /** A refresh token that anyone has revoked is exchanged for new tokens all the same. */
  lemma RevokedTokenIsExchanged(s: Server, anyone: Credentials, creds: Credentials, token: string, now: Time,
                                later: Time, draws: Draws)
    requires token != "" && token in s.refresh && later <= s.refresh[token].expiresAt && anyone.clientID == ""
    requires s.refresh[token].clientID == Effective(creds).0
    requires ValidClient(s.clients, Effective(creds).0, Effective(creds).1, later).Some?
    requires draws.first.Some? && draws.second.Some?
    ensures var s' := RevokeStep(s, anyone, token, "refresh_token", now).0;
      s'.refresh[token].revoked && RefreshGrantStep(s', creds, token, "", later, draws).1.Tokens?
  {
    RevokeOnlyMarks(s, anyone, token, "refresh_token", now);
    RefreshGrantAlike(s, RevokeStep(s, anyone, token, "refresh_token", now).0, creds, token, "", later, draws);
    hide MarkRevoked, ValidClient, SameButRevoked, ScopeSet;
  }
}
