/**
 Whole runs of the authorization server: requests, cleanup and delayed deletions
 in any order, under time that never runs backwards and a token generator that
 never repeats itself but may fail. The run remembers which code each token
 descends from.
 */
module OAuthRuns {
  import opened Wrappers
  import opened OAuthState

  datatype Event =
    | Serve(req: Request, now: Time, draws: Draws)
    | Cleanup(now: Time)
    | DelayedDelete(token: string)

  /** A code or refresh token exchanged for tokens, with the verifier presented. */
  datatype Redemption = Redemption(credential: string, verifier: string)

  datatype World = World(
    server: Server, now: Time,
    issued: set<string>,            // everything the generator has yielded
    pending: set<string>,           // access tokens whose delayed deletion was started
    grants: map<string, AuthCode>,  // every code ever handed out
    origin: map<string, string>,    // the code that a stored token descends from
    redeemed: seq<Redemption>)

  function Start(now: Time): World {
    World(EmptyServer, now, {}, {}, map[], map[], [])
  }

  function Drawn(d: Draws): set<string> {
    (if d.first.Some? then {d.first.value} else {}) + (if d.second.Some? then {d.second.value} else {})
  }

  /** The generator repeats nothing it has yielded before. */
  ghost predicate FreshDraws(w: World, d: Draws) {
    && (d.first.Some? ==> d.first.value !in w.issued)
    && (d.second.Some? ==> d.second.value !in w.issued && d.first != d.second)
  }

  ghost predicate Enabled(w: World, e: Event) {
    match e
    case Serve(_, now, d) =>
      w.now <= now && FreshDraws(w, d)
    case Cleanup(now) => w.now <= now
    case DelayedDelete(token) => token in w.pending
  }

  /** The code that tokens made by `req` descend from. */
  function Parent(w: World, req: Request): Option<string> {
    if req.CodeGrant? then Some(req.code)
    else if req.RefreshGrant? && req.token in w.origin then Some(w.origin[req.token])
    else None
  }

  /** A drawn string under which a token is now stored descends from `parent`. */
  function Adopt(origin: map<string, string>, draw: Option<string>, s: Server, parent: Option<string>)
    : map<string, string>
  {
    if draw.Some? && parent.Some? && (draw.value in s.access || draw.value in s.refresh) then
      origin[draw.value := parent.value]
    else origin
  }

  function Served(env: Env, w: World, req: Request, now: Time, draws: Draws): World {
    var (s, r) := Handle(env, w.server, req, now, draws);
    var expired := req.Validate? && req.token in w.server.access && AccessExpired(w.server.access[req.token], now);
    var parent := Parent(w, req);
    World(
      s, now, w.issued + Drawn(draws),
      if expired then w.pending + {req.token} else w.pending,
      if r.Code? && r.code in s.codes then w.grants[r.code := s.codes[r.code]] else w.grants,
      Adopt(Adopt(w.origin, draws.first, s, parent), draws.second, s, parent),
      if r.Tokens? && req.CodeGrant? then w.redeemed + [Redemption(req.code, req.verifier)]
      else if r.Tokens? && req.RefreshGrant? then w.redeemed + [Redemption(req.token, "")]
      else w.redeemed)
  }

  function Next(env: Env, w: World, e: Event): World {
    match e
    case Serve(req, now, draws) => Served(env, w, req, now, draws)
    case Cleanup(now) => w.(server := CleanupStep(w.server, now), now := now)
    case DelayedDelete(token) => w.(server := w.server.(access := w.server.access - {token}))
  }

  function Run(env: Env, w: World, events: seq<Event>): World
    decreases |events|
  {
    if |events| == 0 then w else Run(env, Next(env, w, events[0]), events[1..])
  }

  ghost predicate Legal(env: Env, w: World, events: seq<Event>)
    decreases |events|
  {
    |events| == 0 || (Enabled(w, events[0]) && Legal(env, Next(env, w, events[0]), events[1..]))
  }

  // ----- What every run keeps -----

  ghost predicate Recorded(w: World) {
    && (forall c :: c in w.server.codes ==> c in w.grants && w.grants[c] == w.server.codes[c])
    && (forall c :: c in w.grants ==> c in w.issued)
    && (forall t :: t in w.server.access ==> t in w.issued)
    && (forall t :: t in w.server.refresh ==> t in w.origin)
    && (forall t :: t in w.origin ==> t in w.issued && t !in w.grants && w.origin[t] in w.grants)
  }

  /** A grant lives on in its code or in one refresh token, not in both nor in two. */
  ghost predicate OneHolder(codes: map<string, AuthCode>, refresh: map<string, Token>, origin: map<string, string>) {
    && (forall r :: r in refresh && r in origin ==> origin[r] !in codes)
    && (forall r, q :: r in refresh && q in refresh && r in origin && q in origin && origin[r] == origin[q] ==> r == q)
  }

  ghost predicate Within(t: Token, code: AuthCode) {
    t.clientID == code.clientID && t.userID == code.userID && ScopeSet(t.scope) <= ScopeSet(code.scope)
  }

  /** Tokens carry no more than the code they descend from. */
  ghost predicate Authority(tokens: map<string, Token>, origin: map<string, string>, grants: map<string, AuthCode>) {
    forall t :: t in tokens && t in origin && origin[t] in grants ==> Within(tokens[t], grants[origin[t]])
  }

  /** Access tokens that descend from no code carry no user. */
  ghost predicate OrphansHaveNoUser(access: map<string, Token>, origin: map<string, string>) {
    forall t :: t in access && t !in origin ==> access[t].userID == ""
  }

  ghost predicate HoldersKnown(tokens: map<string, Token>, clients: map<string, Client>) {
    forall t :: t in tokens ==> tokens[t].clientID in clients
  }

  ghost predicate ClientsKnown(clients: map<string, Client>, grants: map<string, AuthCode>) {
    && (forall c :: c in clients ==> clients[c].id == c)
    && (forall c :: c in grants ==> grants[c].clientID in clients)
  }

  /** What was redeemed is gone for good, and was redeemed only once. */
  ghost predicate SingleUse(w: World) {
    && (forall i :: 0 <= i < |w.redeemed| ==> Gone(w, w.redeemed[i].credential))
    && (forall i, j :: 0 <= i < j < |w.redeemed| ==> w.redeemed[i].credential != w.redeemed[j].credential)
  }

  ghost predicate Gone(w: World, credential: string) {
    credential in w.issued && credential !in w.server.codes && credential !in w.server.refresh
  }

  /** A code with a challenge was redeemed with a verifier that hashes to it. */
  ghost predicate Proven(env: Env, grants: map<string, AuthCode>, redeemed: seq<Redemption>) {
    forall i :: 0 <= i < |redeemed| && redeemed[i].credential in grants ==>
      Answers(env, grants[redeemed[i].credential].challenge, redeemed[i].verifier)
  }

  ghost predicate Answers(env: Env, challenge: string, verifier: string) {
    challenge != "" ==> verifier != "" && env.challengeOf(verifier) == challenge
  }

  ghost predicate Inv(env: Env, w: World) {
    && Recorded(w) && OneHolder(w.server.codes, w.server.refresh, w.origin)
    && Authority(w.server.refresh, w.origin, w.grants) && Authority(w.server.access, w.origin, w.grants)
    && OrphansHaveNoUser(w.server.access, w.origin)
    && HoldersKnown(w.server.access, w.server.clients) && HoldersKnown(w.server.refresh, w.server.clients)
    && ClientsKnown(w.server.clients, w.grants)
    && SingleUse(w) && Proven(env, w.grants, w.redeemed)
  }

  // ----- The primitive changes that steps are made of -----

  /** Issued, and not yet put to any use. */
  ghost predicate Unused(w: World, k: string) {
    && k in w.issued && k !in w.grants && k !in w.origin && k !in w.server.access && k !in w.server.refresh
    && forall i :: 0 <= i < |w.redeemed| ==> w.redeemed[i].credential != k
  }

  function WithDraws(w: World, now: Time, d: Draws): World {
    w.(now := now, issued := w.issued + Drawn(d))
  }

  function WithCode(w: World, c: AuthCode): World {
    w.(server := w.server.(codes := w.server.codes[c.code := c]), grants := w.grants[c.code := c])
  }

  function WithoutCode(w: World, c: string): World {
    w.(server := w.server.(codes := w.server.codes - {c}))
  }

  function WithAccess(w: World, t: Token, parent: string): World {
    w.(server := w.server.(access := w.server.access[t.token := t]), origin := w.origin[t.token := parent])
  }

  /** An access token for the client itself descends from no code. */
  function WithClientAccess(w: World, t: Token): World {
    w.(server := w.server.(access := w.server.access[t.token := t]))
  }

  function WithRefresh(w: World, t: Token, parent: string): World {
    w.(server := w.server.(refresh := w.server.refresh[t.token := t]), origin := w.origin[t.token := parent])
  }

  function WithoutRefresh(w: World, r: string): World {
    w.(server := w.server.(refresh := w.server.refresh - {r}))
  }

  function WithRedeemed(w: World, r: Redemption): World {
    w.(redeemed := w.redeemed + [r])
  }

  lemma DrawsKeep(env: Env, w: World, now: Time, d: Draws)
    requires Inv(env, w) && FreshDraws(w, d)
    ensures Inv(env, WithDraws(w, now, d))
    ensures d.first.Some? ==> Unused(WithDraws(w, now, d), d.first.value)
    ensures d.second.Some? ==> Unused(WithDraws(w, now, d), d.second.value)
  {
  }

  lemma CodeKeeps(env: Env, w: World, c: AuthCode)
    requires Inv(env, w) && Unused(w, c.code) && c.clientID in w.server.clients
    ensures Inv(env, WithCode(w, c))
  {
    hide Within, HoldersKnown, OrphansHaveNoUser, SingleUse, OneHolder;
    CodeKeepsHolders(env, w, c);
  }

  lemma CodeKeepsHolders(env: Env, w: World, c: AuthCode)
    requires Inv(env, w) && Unused(w, c.code)
    ensures var w' := WithCode(w, c); SingleUse(w') && OneHolder(w'.server.codes, w'.server.refresh, w'.origin)
    ensures Proven(env, w.grants[c.code := c], w.redeemed)
  {
    hide Within, HoldersKnown, OrphansHaveNoUser, Authority, ClientsKnown, Answers;
  }

  ghost predicate Part<V>(m: map<string, V>, whole: map<string, V>) {
    forall k :: k in m ==> k in whole && m[k] == whole[k]
  }

  /** Forgetting codes and tokens breaks nothing. */
  lemma SmallerKeeps(env: Env, w: World, s: Server, now: Time)
    requires Inv(env, w) && s.clients == w.server.clients
    requires Part(s.codes, w.server.codes) && Part(s.access, w.server.access) && Part(s.refresh, w.server.refresh)
    ensures Inv(env, w.(server := s, now := now))
  {
    hide Within, ClientsKnown, Proven;
  }

  lemma AccessKeeps(env: Env, w: World, t: Token, parent: string)
    requires Inv(env, w) && Unused(w, t.token) && t.clientID in w.server.clients
    requires parent in w.grants && Within(t, w.grants[parent])
    ensures Inv(env, WithAccess(w, t, parent))
  {
    hide Within, Proven, ClientsKnown;
  }

  lemma ClientAccessKeeps(env: Env, w: World, t: Token)
    requires Inv(env, w) && Unused(w, t.token) && t.clientID in w.server.clients && t.userID == ""
    ensures Inv(env, WithClientAccess(w, t))
  {
    hide Within, Proven, ClientsKnown, OneHolder;
  }

  ghost predicate NoHolder(w: World, parent: string) {
    parent !in w.server.codes && forall r :: r in w.server.refresh && r in w.origin ==> w.origin[r] != parent
  }

  lemma RefreshKeeps(env: Env, w: World, t: Token, parent: string)
    requires Inv(env, w) && Unused(w, t.token) && t.clientID in w.server.clients
    requires parent in w.grants && Within(t, w.grants[parent]) && NoHolder(w, parent)
    ensures Inv(env, WithRefresh(w, t, parent))
  {
    hide Within, Proven, ClientsKnown, OneHolder;
    RefreshIsOnlyHolder(w, t, parent);
  }

  lemma RefreshIsOnlyHolder(w: World, t: Token, parent: string)
    requires OneHolder(w.server.codes, w.server.refresh, w.origin) && Recorded(w) && Unused(w, t.token) &&
      NoHolder(w, parent)
    ensures var w' := WithRefresh(w, t, parent); OneHolder(w'.server.codes, w'.server.refresh, w'.origin)
  {
  }

  lemma RedeemedKeeps(env: Env, w: World, r: Redemption)
    requires Inv(env, w) && Gone(w, r.credential)
    requires r.credential in w.grants ==> Answers(env, w.grants[r.credential].challenge, r.verifier)
    requires forall i :: 0 <= i < |w.redeemed| ==> w.redeemed[i].credential != r.credential
    ensures Inv(env, WithRedeemed(w, r))
  {
    hide Authority, HoldersKnown, ClientsKnown, OrphansHaveNoUser, OneHolder;
  }

  // ----- Every step keeps the invariant -----

  lemma ClientKeeps(env: Env, w: World, c: Client)
    requires Inv(env, w) && c.id !in w.server.clients
    ensures Inv(env, w.(server := w.server.(clients := w.server.clients[c.id := c])))
  {
    hide Authority, OrphansHaveNoUser, Proven, OneHolder;
  }

  ghost predicate SameButRevoked(m: map<string, Token>, m': map<string, Token>) {
    m.Keys == m'.Keys && forall k :: k in m ==> m'[k].(revoked := m[k].revoked) == m[k]
  }

  lemma RevokingKeeps(env: Env, w: World, s: Server)
    requires Inv(env, w) && s.clients == w.server.clients && s.codes == w.server.codes
    requires SameButRevoked(w.server.access, s.access) && SameButRevoked(w.server.refresh, s.refresh)
    ensures Inv(env, w.(server := s))
  {
    hide ClientsKnown, Proven, Authority, HoldersKnown, OrphansHaveNoUser;
    RevokingKeepsTokens(w.server.access, s.access, w);
    RevokingKeepsTokens(w.server.refresh, s.refresh, w);
  }

  lemma RevokingKeepsTokens(m: map<string, Token>, m': map<string, Token>, w: World)
    requires SameButRevoked(m, m')
    ensures Authority(m, w.origin, w.grants) ==> Authority(m', w.origin, w.grants)
    ensures HoldersKnown(m, w.server.clients) ==> HoldersKnown(m', w.server.clients)
    ensures OrphansHaveNoUser(m, w.origin) ==> OrphansHaveNoUser(m', w.origin)
  {
    hide ScopeSet;
  }

  lemma RegisterKeeps(env: Env, w: World, config: Registration, now: Time, draws: Draws)
    requires Inv(env, w) && Enabled(w, Serve(Register(config), now, draws))
    ensures Inv(env, Served(env, w, Register(config), now, draws))
  {
    hide AuthorizeStep, CodeGrantStep, ClientGrantStep, RefreshGrantStep, RevokeStep, ValidateStep;
    var v, w' := WithDraws(w, now, draws), Served(env, w, Register(config), now, draws);
    DrawsKeep(env, w, now, draws);
    hide Inv;
    var s := RegisterStep(env, w.server, config, now, draws).0;
    if s != w.server {
      var id := if config.clientID != "" then config.clientID else draws.first.value;
      ClientKeeps(env, v, s.clients[id]);
      assert w' == v.(server := v.server.(clients := v.server.clients[id := s.clients[id]]));
    } else {
      assert w' == v;
    }
  }

  lemma AuthorizeKeeps(env: Env, w: World, p: AuthorizeParams, now: Time, draws: Draws)
    requires Inv(env, w) && Enabled(w, Serve(Authorize(p), now, draws))
    ensures Inv(env, Served(env, w, Authorize(p), now, draws))
  {
    hide RegisterStep, CodeGrantStep, ClientGrantStep, RefreshGrantStep, RevokeStep, ValidateStep;
    var v, w' := WithDraws(w, now, draws), Served(env, w, Authorize(p), now, draws);
    DrawsKeep(env, w, now, draws);
    hide Inv;
    var (s, r) := AuthorizeStep(env, w.server, p, now, draws);
    if r.Code? {
      CodeKeeps(env, v, s.codes[r.code]);
      assert w' == WithCode(v, s.codes[r.code]);
    } else {
      assert w' == v;
    }
  }

  /** A credential whose grant has no holder left is exchanged for a new pair of tokens. */
  function Exchanged(w: World, parent: string, spent: Redemption, t: Token, r: Option<Token>): World {
    var v := WithAccess(w, t, parent);
    WithRedeemed(if r.Some? then WithRefresh(v, r.value, parent) else v, spent)
  }

  ghost predicate CanHold(w: World, parent: string, t: Token) {
    && Unused(w, t.token) && t.clientID in w.server.clients
    && parent in w.grants && Within(t, w.grants[parent])
  }

  ghost predicate CanRedeem(env: Env, w: World, spent: Redemption) {
    && Gone(w, spent.credential) && (forall i :: 0 <= i < |w.redeemed| ==> w.redeemed[i].credential != spent.credential)
    && (spent.credential in w.grants ==> Answers(env, w.grants[spent.credential].challenge, spent.verifier))
  }

  lemma ExchangeKeeps(env: Env, w: World, parent: string, spent: Redemption, t: Token, r: Option<Token>)
    requires Inv(env, w) && CanHold(w, parent, t) && NoHolder(w, parent) && CanRedeem(env, w, spent)
    requires r.Some? ==> CanHold(w, parent, r.value) && r.value.token != t.token
    requires spent.credential != t.token && (r.Some? ==> spent.credential != r.value.token)
    ensures Inv(env, Exchanged(w, parent, spent, t, r))
  {
    hide Inv, Within, Answers;
    AccessKeeps(env, w, t, parent);
    var v := WithAccess(w, t, parent);
    if r.Some? {
      assert CanHold(v, parent, r.value) && NoHolder(v, parent);
      RefreshKeeps(env, v, r.value, parent);
      v := WithRefresh(v, r.value, parent);
    }
    assert CanRedeem(env, v, spent);
    RedeemedKeeps(env, v, spent);
  }

  /** The tokens that a code grant makes. */
  lemma CodeGrantTokens(env: Env, w: World, creds: Credentials, code: string, uri: string, verifier: string,
                        now: Time, draws: Draws)
    returns (c: AuthCode, t: Token, r: Option<Token>)
    requires Inv(env, w) && Enabled(w, Serve(CodeGrant(creds, code, uri, verifier), now, draws))
    requires CodeGrantStep(env, w.server, creds, code, uri, verifier, now, draws).0.access != w.server.access
    ensures code in w.server.codes && c == w.server.codes[code] && Verified(env, c, verifier)
    ensures c.clientID in w.server.clients && Within(t, c) && draws.first == Some(t.token)
    ensures r.Some? ==> Within(r.value, c) && draws.second == Some(r.value.token)
    ensures var (s, resp) := CodeGrantStep(env, w.server, creds, code, uri, verifier, now, draws);
      var s1 := w.server.(access := w.server.access[t.token := t]);
      || (resp.Error? && s == s1)
      || (resp.Tokens? && r.None? && s == s1.(codes := w.server.codes - {code})
          && (draws.second.Some? ==> draws.second.value !in s.refresh && draws.second.value !in s.access))
      || (resp.Tokens? && r.Some? &&
        s == s1.(codes := w.server.codes - {code}, refresh := w.server.refresh[r.value.token := r.value]))
  {
    c := w.server.codes[code];
    var id := Effective(creds).0;
    assert c.clientID in w.server.clients && w.server.clients[id].id == id == c.clientID;
    t := NewToken(draws.first.value, c.clientID, c.userID, c.scope, now, TOKEN_LIFETIME);
    r := if "refresh_token" !in w.server.clients[id].grantTypes || draws.second.None? then None
         else Some(NewToken(draws.second.value, c.clientID, c.userID, c.scope, now, REFRESH_LIFETIME));
    hide ScopeSet;
  }

  /** Once its code is gone, the grant is free to be handed to the new tokens. */
  lemma CodeIsExchangeable(env: Env, v: World, code: string, verifier: string, t: Token, r: Option<Token>)
    requires Inv(env, v) && code in v.server.codes && Verified(env, v.server.codes[code], verifier)
    requires CanHold(v, code, t) && (r.Some? ==> CanHold(v, code, r.value) && r.value.token != t.token)
    ensures Inv(env, Exchanged(WithoutCode(v, code), code, Redemption(code, verifier), t, r))
  {
    var u, spent := WithoutCode(v, code), Redemption(code, verifier);
    SmallerKeeps(env, v, u.server, v.now);
    assert NoHolder(u, code) && CanRedeem(env, u, spent) && CanHold(u, code, t);
    hide Inv;
    ExchangeKeeps(env, u, code, spent, t, r);
  }

  lemma CodeGrantWithoutTokens(env: Env, s: Server, creds: Credentials, code: string, uri: string, verifier: string,
                               now: Time, draws: Draws)
    requires draws.first.Some? ==> draws.first.value !in s.access
    ensures var (s', resp) := CodeGrantStep(env, s, creds, code, uri, verifier, now, draws);
      s'.access == s.access ==> resp.Error? && (s' == s || s' == s.(codes := s.codes - {code}))
  {
  }

  lemma CodeGrantKeeps(env: Env, w: World, creds: Credentials, code: string, uri: string, verifier: string, now: Time,
                       draws: Draws)
    requires Inv(env, w) && Enabled(w, Serve(CodeGrant(creds, code, uri, verifier), now, draws))
    ensures Inv(env, Served(env, w, CodeGrant(creds, code, uri, verifier), now, draws))
  {
    hide RegisterStep, AuthorizeStep, ClientGrantStep, RefreshGrantStep, RevokeStep, ValidateStep;
    var v, w' := WithDraws(w, now, draws), Served(env, w, CodeGrant(creds, code, uri, verifier), now, draws);
    var s := CodeGrantStep(env, w.server, creds, code, uri, verifier, now, draws).0;
    DrawsKeep(env, w, now, draws);
    if s.access == w.server.access {
      CodeGrantRefusalKeeps(env, w, creds, code, uri, verifier, now, draws);
    } else {
      var c, t, r := CodeGrantTokens(env, w, creds, code, uri, verifier, now, draws);
      assert CanHold(v, code, t) && (r.Some? ==> CanHold(v, code, r.value));
      hide Inv, Within, CodeGrantStep;
      AccessKeeps(env, v, t, code);
      CodeIsExchangeable(env, v, code, verifier, t, r);
      assert w' == WithAccess(v, t, code) ||
        w' == Exchanged(WithoutCode(v, code), code, Redemption(code, verifier), t, r);
    }
  }

  lemma CodeGrantRefusalKeeps(env: Env, w: World, creds: Credentials, code: string, uri: string, verifier: string,
                              now: Time, draws: Draws)
    requires Inv(env, w) && Enabled(w, Serve(CodeGrant(creds, code, uri, verifier), now, draws))
    requires CodeGrantStep(env, w.server, creds, code, uri, verifier, now, draws).0.access == w.server.access
    ensures Inv(env, Served(env, w, CodeGrant(creds, code, uri, verifier), now, draws))
  {
    hide RegisterStep, AuthorizeStep, ClientGrantStep, RefreshGrantStep, RevokeStep, ValidateStep;
    hide Authority, OneHolder, HoldersKnown, OrphansHaveNoUser, ClientsKnown, SingleUse, Proven;
    var v, s := WithDraws(w, now, draws), CodeGrantStep(env, w.server, creds, code, uri, verifier, now, draws).0;
    DrawsKeep(env, w, now, draws);
    CodeGrantWithoutTokens(env, w.server, creds, code, uri, verifier, now, draws);
    hide Inv, CodeGrantStep;
    SmallerKeeps(env, v, s, now);
    assert Served(env, w, CodeGrant(creds, code, uri, verifier), now, draws) == v.(server := s, now := now);
  }

  ghost predicate Narrows(t: Token, o: Token) {
    t.clientID == o.clientID && t.userID == o.userID && ScopeSet(t.scope) <= ScopeSet(o.scope)
  }

  /** What a refresh grant leaves behind, as far as it gets. */
  ghost predicate RefreshOutcome(s: Server, token: string, draws: Draws, s': Server, resp: Response, t: Token,
                                 r: Token)
  {
    var s1 := s.(refresh := s.refresh - {token});
    var s2 := s1.(access := s.access[t.token := t]);
    || (resp.Error? && s' == s1)
    || (resp.Error? && draws.first == Some(t.token) && draws.second.None? && s' == s2)
    || (resp.Tokens? && draws.first == Some(t.token) && draws.second == Some(r.token)
        && s' == s2.(refresh := s1.refresh[r.token := r]))
  }

  lemma RefreshGrantTokens(s: Server, creds: Credentials, token: string, scope: string, now: Time, draws: Draws)
    returns (t: Token, r: Token)
    requires forall c :: c in s.clients ==> s.clients[c].id == c
    requires draws.second.Some? ==> draws.second.value !in s.refresh
    ensures var (s', resp) := RefreshGrantStep(s, creds, token, scope, now, draws);
      if token in s.refresh && s' != s then
        s.refresh[token].clientID in s.clients && Narrows(t, s.refresh[token]) && Narrows(r, s.refresh[token])
        && RefreshOutcome(s, token, draws, s', resp, t, r)
      else s' == s && resp.Error?
  {
    var o := if token in s.refresh then s.refresh[token] else Token("", "", "", "", 0, 0, false);
    var granted := if scope == "" then o.scope else scope;
    var narrowed := if ScopeSet(granted) <= ScopeSet(o.scope) then granted else o.scope;
    t := NewToken(draws.first.GetOr(""), o.clientID, o.userID, narrowed, now, TOKEN_LIFETIME);
    r := NewToken(draws.second.GetOr(""), o.clientID, o.userID, narrowed, now, REFRESH_LIFETIME);
    hide ScopeSet;
  }

  /** Once presented, the old refresh token leaves its grant free for the new ones. */
  lemma RefreshIsExchangeable(env: Env, v: World, token: string, t: Token, r: Token)
    requires Inv(env, v) && token in v.server.refresh && Narrows(t, v.server.refresh[token]) &&
      Narrows(r, v.server.refresh[token])
    requires v.server.refresh[token].clientID in v.server.clients && Unused(v, t.token)
    ensures var u, parent := WithoutRefresh(v, token), v.origin[token];
      && Inv(env, u) && Inv(env, WithAccess(u, t, parent))
      && (Unused(v, r.token) && r.token != t.token ==>
        Inv(env, Exchanged(u, parent, Redemption(token, ""), t, Some(r))))
  {
    var u, parent, spent := WithoutRefresh(v, token), v.origin[token], Redemption(token, "");
    SmallerKeeps(env, v, u.server, v.now);
    hide ScopeSet;
    assert Within(v.server.refresh[token], v.grants[parent]);
    assert NoHolder(u, parent) && CanRedeem(env, u, spent) && CanHold(u, parent, t);
    assert Unused(v, r.token) ==> CanHold(u, parent, r);
    hide Inv;
    AccessKeeps(env, u, t, parent);
    if Unused(v, r.token) && r.token != t.token {
      ExchangeKeeps(env, u, parent, spent, t, Some(r));
    }
  }

  /** What a refresh grant needs to know of the world. */
  lemma BeforeRefreshGrant(env: Env, w: World, draws: Draws)
    requires Inv(env, w) && FreshDraws(w, draws)
    ensures forall c :: c in w.server.clients ==> w.server.clients[c].id == c
    ensures forall k :: k in w.server.refresh ==> k in w.origin
    ensures DrawsUnstored(w.server, draws)
  {
    hide Authority, OneHolder, HoldersKnown, OrphansHaveNoUser, SingleUse, Proven;
  }

  ghost predicate DrawsUnstored(s: Server, draws: Draws) {
    && (draws.first.Some? ==> draws.first.value !in s.access && draws.first.value !in s.refresh)
    && (draws.second.Some? ==> draws.second.value !in s.access && draws.second.value !in s.refresh)
    && (draws.first.Some? ==> draws.first != draws.second)
  }

  lemma RefreshGrantKeeps(env: Env, w: World, creds: Credentials, token: string, scope: string, now: Time, draws: Draws)
    requires Inv(env, w) && Enabled(w, Serve(RefreshGrant(creds, token, scope), now, draws))
    ensures Inv(env, Served(env, w, RefreshGrant(creds, token, scope), now, draws))
  {
    hide RegisterStep, AuthorizeStep, CodeGrantStep, ClientGrantStep, RefreshGrantStep, RevokeStep, ValidateStep;
    hide Served, Inv, Narrows;
    var v := WithDraws(w, now, draws);
    DrawsKeep(env, w, now, draws);
    BeforeRefreshGrant(env, w, draws);
    var t, r := RefreshGrantTokens(w.server, creds, token, scope, now, draws);
    var s := RefreshGrantStep(w.server, creds, token, scope, now, draws).0;
    RefreshGrantServed(env, w, creds, token, scope, now, draws, t, r);
    if s.access == w.server.access {
      SmallerKeeps(env, v, s, now);
    } else {
      RefreshIsExchangeable(env, v, token, t, r);
    }
  }

  /** A refresh grant, put together from the primitive changes. */
  lemma RefreshGrantServed(env: Env, w: World, creds: Credentials, token: string, scope: string, now: Time,
                           draws: Draws, t: Token, r: Token)
    requires DrawsUnstored(w.server, draws) && forall k :: k in w.server.refresh ==> k in w.origin
    requires var (s, resp) := RefreshGrantStep(w.server, creds, token, scope, now, draws);
      if token in w.server.refresh && s != w.server then RefreshOutcome(w.server, token, draws, s, resp, t, r)
      else s == w.server && resp.Error?
    ensures var v, s := WithDraws(w, now, draws), RefreshGrantStep(w.server, creds, token, scope, now, draws).0;
      var w' := Served(env, w, RefreshGrant(creds, token, scope), now, draws);
      if s.access == w.server.access then
        w' == v.(server := s, now := now) && s.clients == w.server.clients && s.codes == w.server.codes
        && Part(s.refresh, w.server.refresh)
      else
        var u, parent := WithoutRefresh(v, token), v.origin[token];
        w' == WithAccess(u, t, parent)
        || (draws.second == Some(r.token) && r.token != t.token
            && w' == Exchanged(u, parent, Redemption(token, ""), t, Some(r)))
  {
    hide RegisterStep, AuthorizeStep, CodeGrantStep, ClientGrantStep, RevokeStep, ValidateStep, RefreshGrantStep;
  }

  lemma ClientGrantKeeps(env: Env, w: World, creds: Credentials, scope: string, now: Time, draws: Draws)
    requires Inv(env, w) && Enabled(w, Serve(ClientGrant(creds, scope), now, draws))
    ensures Inv(env, Served(env, w, ClientGrant(creds, scope), now, draws))
  {
    hide RegisterStep, AuthorizeStep, CodeGrantStep, RefreshGrantStep, RevokeStep, ValidateStep;
    hide Authority, OneHolder, HoldersKnown, OrphansHaveNoUser, SingleUse, Proven;
    var v, w' := WithDraws(w, now, draws), Served(env, w, ClientGrant(creds, scope), now, draws);
    DrawsKeep(env, w, now, draws);
    var (s, r) := ClientGrantStep(env, w.server, creds, scope, now, draws);
    var id := Effective(creds).0;
    assert id in w.server.clients ==> w.server.clients[id].id == id;
    hide Inv, Recorded, ClientsKnown, ScopeSupported;
    if r.Tokens? {
      ClientAccessKeeps(env, v, s.access[r.access]);
      assert w' == WithClientAccess(v, s.access[r.access]);
    } else {
      assert w' == v;
    }
  }

  lemma RevokeOnlyMarks(s: Server, creds: Credentials, token: string, hint: string, now: Time)
    ensures var (s', r) := RevokeStep(s, creds, token, hint, now);
      && s'.clients == s.clients && s'.codes == s.codes && !r.Code? && !r.Tokens?
      && SameButRevoked(s.access, s'.access) && SameButRevoked(s.refresh, s'.refresh)
  {
    hide ValidClient;
  }

  lemma RevokeKeeps(env: Env, w: World, creds: Credentials, token: string, hint: string, now: Time, draws: Draws)
    requires Inv(env, w) && Enabled(w, Serve(Revoke(creds, token, hint), now, draws))
    ensures Inv(env, Served(env, w, Revoke(creds, token, hint), now, draws))
  {
    hide RegisterStep, AuthorizeStep, CodeGrantStep, ClientGrantStep, RefreshGrantStep, ValidateStep;
    var v, w' := WithDraws(w, now, draws), Served(env, w, Revoke(creds, token, hint), now, draws);
    DrawsKeep(env, w, now, draws);
    RevokeOnlyMarks(w.server, creds, token, hint, now);
    hide Inv, RevokeStep;
    var s := RevokeStep(w.server, creds, token, hint, now).0;
    RevokingKeeps(env, v, s);
    assert w' == v.(server := s);
  }

  lemma NextKeeps(env: Env, w: World, e: Event)
    requires Inv(env, w) && Enabled(w, e)
    ensures Inv(env, Next(env, w, e))
  {
    hide Inv, Served;
    match e {
      case Serve(Register(config), now, d) => RegisterKeeps(env, w, config, now, d);
      case Serve(Authorize(p), now, d) => AuthorizeKeeps(env, w, p, now, d);
      case Serve(CodeGrant(creds, code, uri, verifier), now, d) =>
        CodeGrantKeeps(env, w, creds, code, uri, verifier, now, d);
      case Serve(ClientGrant(creds, scope), now, d) => ClientGrantKeeps(env, w, creds, scope, now, d);
      case Serve(RefreshGrant(creds, token, scope), now, d) => RefreshGrantKeeps(env, w, creds, token, scope, now, d);
      case Serve(Revoke(creds, token, hint), now, d) => RevokeKeeps(env, w, creds, token, hint, now, d);
      case Serve(Validate(token), now, d) => ValidateKeeps(env, w, token, now, d);
      case Cleanup(now) => SmallerKeeps(env, w, CleanupStep(w.server, now), now);
      case DelayedDelete(token) => SmallerKeeps(env, w, w.server.(access := w.server.access - {token}), w.now);
    }
  }

  /** Which delayed deletions are under way does not matter to the invariant. */
  lemma PendingKeeps(env: Env, w: World, pending: set<string>)
    requires Inv(env, w)
    ensures Inv(env, w.(pending := pending))
  {
    hide Authority, OneHolder, HoldersKnown, OrphansHaveNoUser, ClientsKnown, Proven;
  }

  lemma ValidateKeeps(env: Env, w: World, token: string, now: Time, draws: Draws)
    requires Inv(env, w) && Enabled(w, Serve(Validate(token), now, draws))
    ensures Inv(env, Served(env, w, Validate(token), now, draws))
  {
    hide RegisterStep, AuthorizeStep, CodeGrantStep, ClientGrantStep, RefreshGrantStep, RevokeStep;
    var v, w' := WithDraws(w, now, draws), Served(env, w, Validate(token), now, draws);
    DrawsKeep(env, w, now, draws);
    hide Inv;
    PendingKeeps(env, v, w'.pending);
    assert w' == v.(pending := w'.pending);
  }

  lemma {:induction false} RunKeeps(env: Env, w: World, events: seq<Event>)
    requires Inv(env, w) && Legal(env, w, events)
    ensures Inv(env, Run(env, w, events))
    decreases |events|
  {
    if |events| > 0 {
      NextKeeps(env, w, events[0]);
      RunKeeps(env, Next(env, w, events[0]), events[1..]);
    }
  }
}
