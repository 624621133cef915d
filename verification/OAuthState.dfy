/**
 The OAuth 2.1 authorization server as a state machine: what each request does to
 the stored clients, codes and tokens (internal/auth/handlers.go, oauth.go).
 */
module OAuthState {
  import opened Wrappers

  // ----- Stored entities -----

  /** Seconds. Zero stands for Go's zero time. */
  type Time = int

  const CODE_LIFETIME: Time := 10 * 60
  const TOKEN_LIFETIME: Time := 60 * 60
  const REFRESH_LIFETIME: Time := 7 * 24 * 60 * 60
  const SECRET_LIFETIME: Time := 365 * 24 * 60 * 60
  const DEMO_USER := "demo-user"

  datatype Client = Client(
    id: string, secret: string, redirectURIs: seq<string>, grantTypes: seq<string>,
    responseTypes: seq<string>, expiresAt: Time, isPublic: bool)

  datatype AuthCode = AuthCode(
    code: string, clientID: string, userID: string, redirectURI: string, scope: string,
    expiresAt: Time, createdAt: Time, challenge: string, challengeMethod: string)

  /** An access token or a refresh token. */
  datatype Token = Token(
    token: string, clientID: string, userID: string, scope: string,
    expiresAt: Time, createdAt: Time, revoked: bool)

  datatype Server = Server(
    clients: map<string, Client>, codes: map<string, AuthCode>,
    access: map<string, Token>, refresh: map<string, Token>)

  const EmptyServer := Server(map[], map[], map[], map[])

  /** A parsed URI; the host includes the port, the hostname does not. */
  datatype Address = Address(scheme: string, host: string, hostname: string, path: string, query: string)

  /** What the server is configured with, and the library calls it makes on strings. */
  datatype Env = Env(
    supportedScopes: seq<string>,
    challengeOf: string -> string,           // unpadded base64url of SHA-256
    parse: string -> Option<Address>)        // url.Parse; None when it fails

  // ----- Requests and responses -----

  /** client_id and client_secret from the form, and the Basic credentials if any. */
  datatype Credentials = Credentials(clientID: string, clientSecret: string, basic: Option<(string, string)>)

  datatype AuthorizeParams = AuthorizeParams(
    post: bool, responseType: string, clientID: string, redirectURI: string, scope: string,
    challenge: string, challengeMethod: string, action: string)

  datatype Registration = Registration(
    clientID: string, clientSecret: string, redirectURIs: seq<string>, grantTypes: seq<string>,
    responseTypes: seq<string>, tokenEndpointAuth: string)

  datatype Request =
    | Register(config: Registration)
    | Authorize(params: AuthorizeParams)
    | CodeGrant(creds: Credentials, code: string, redirectURI: string, verifier: string)
    | ClientGrant(creds: Credentials, scope: string)
    | RefreshGrant(creds: Credentials, token: string, scope: string)
    | Validate(token: string)
    | Revoke(creds: Credentials, token: string, hint: string)

  /** The error code of a refusal; the human-readable description is left out. */
  datatype Response =
    | Registered(clientID: string, clientSecret: string)
    | ApprovalPage
    | Code(code: string)
    | Tokens(access: string, refresh: Option<string>, scope: string)
    | Active(clientID: string, userID: string, scope: string, expiresAt: Time, createdAt: Time)
    | Done
    | Error(error: string)

  /** What the token generator yields on its first and second call; None when it fails. */
  datatype Draws = Draws(first: Option<string>, second: Option<string>)

  // ----- Scopes -----

  /** unicode.IsSpace */
  predicate IsSpace(c: char) {
    var n := c as int;
    || 9 <= n <= 13 || n == 0x20 || n == 0x85 || n == 0xA0 || n == 0x1680 || 0x2000 <= n <= 0x200a
    || n == 0x2028 || n == 0x2029 || n == 0x202f || n == 0x205f || n == 0x3000
  }

  /** strings.Fields, where `word` is the field being read. */
  function Fields(s: string, word: string := ""): seq<string>
    decreases |s|
  {
    var done := if word == "" then [] else [word];
    if s == "" then done
    else if IsSpace(s[0]) then done + Fields(s[1..], "")
    else Fields(s[1..], word + [s[0]])
  }

  function ScopeSet(scope: string): set<string> {
    set f | f in Fields(scope)
  }

  predicate ScopeSupported(env: Env, scope: string) {
    "mcp:*" in env.supportedScopes || forall f :: f in ScopeSet(scope) ==> f in env.supportedScopes
  }

  // ----- Clients -----

  function Effective(creds: Credentials): (string, string) {
    if (creds.clientID == "" || creds.clientSecret == "") && creds.basic.Some? then creds.basic.value
    else (creds.clientID, creds.clientSecret)
  }

  function ValidClient(clients: map<string, Client>, id: string, secret: string, now: Time): Option<Client> {
    if id !in clients then None
    else
      var client := clients[id];
      if client.isPublic then Some(client)
      else if client.secret != secret then None
      else if client.expiresAt != 0 && now > client.expiresAt then None
      else Some(client)
  }

  predicate RegistrableURI(env: Env, uri: string) {
    uri != "" && env.parse(uri).Some? && env.parse(uri).value.scheme != "" && env.parse(uri).value.host != ""
  }

  function RegisterStep(env: Env, s: Server, config: Registration, now: Time, draws: Draws): (Server, Response) {
    var id := if config.clientID != "" then Some(config.clientID) else draws.first;
    if id.None? || id.value in s.clients then (s, Error("invalid_client_metadata"))
    else if !forall i :: 0 <= i < |config.redirectURIs| ==> RegistrableURI(env, config.redirectURIs[i]) then
      (s, Error("invalid_client_metadata"))
    else
      var isPublic := config.clientSecret == "" && config.tokenEndpointAuth in ["none", ""];
      var secret :=
        if isPublic then Some("") else if config.clientSecret != "" then Some(config.clientSecret) else draws.second;
      if secret.None? then (s, Error("invalid_client_metadata"))
      else
        var grants :=
          if config.grantTypes != [] then config.grantTypes
          else if isPublic then ["authorization_code", "refresh_token"]
          else ["authorization_code", "client_credentials", "refresh_token"];
        var responses := if config.responseTypes != [] then config.responseTypes else ["code"];
        var client := Client(id.value, secret.value, config.redirectURIs, grants, responses,
                             if isPublic then 0 else now + SECRET_LIFETIME, isPublic);
        (s.(clients := s.clients[id.value := client]), Registered(id.value, secret.value))
  }

  // ----- Authorization -----

  /** The challenge method after defaulting, or None when it is refused. */
  function ChallengeMethod(p: AuthorizeParams): Option<string> {
    var m := if p.challenge != "" && p.challengeMethod == "" then "S256" else p.challengeMethod;
    if m != "" && m != "S256" then None else Some(m)
  }

  predicate IsLoopback(hostname: string) {
    hostname == "localhost" || hostname == "127.0.0.1"
  }

  /** isLoopbackURIMatch: both plain HTTP on the loopback interface, alike but for host and port. */
  predicate LoopbackMatch(env: Env, registered: string, requested: string) {
    var a, b := env.parse(registered), env.parse(requested);
    && a.Some? && b.Some?
    && a.value.scheme == "http" && b.value.scheme == "http"
    && IsLoopback(a.value.hostname) && IsLoopback(b.value.hostname)
    && a.value.path == b.value.path && a.value.query == b.value.query
  }

  predicate RedirectAllowed(env: Env, client: Client, uri: string) {
    exists i :: 0 <= i < |client.redirectURIs| &&
      (client.redirectURIs[i] == uri || LoopbackMatch(env, client.redirectURIs[i], uri))
  }

  function AuthorizeStep(env: Env, s: Server, p: AuthorizeParams, now: Time, draws: Draws): (Server, Response) {
    if p.responseType == "" || p.clientID == "" || ChallengeMethod(p).None? then (s, Error("invalid_request"))
    else if p.clientID !in s.clients then (s, Error("invalid_client"))
    else if !RedirectAllowed(env, s.clients[p.clientID], p.redirectURI) then (s, Error("invalid_redirect_uri"))
    else if p.responseType !in s.clients[p.clientID].responseTypes then (s, Error("unsupported_response_type"))
    else if p.scope != "" && !ScopeSupported(env, p.scope) then (s, Error("invalid_scope"))
    else if !p.post then (s, ApprovalPage)
    else if p.action != "approve" then (s, Error("access_denied"))
    else if draws.first.None? then (s, Error("server_error"))
    else
      var code := AuthCode(draws.first.value, p.clientID, DEMO_USER, p.redirectURI, p.scope,
                           now + CODE_LIFETIME, now, p.challenge, ChallengeMethod(p).value);
      (s.(codes := s.codes[code.code := code]), Code(code.code))
  }

  // ----- Tokens -----

  function NewToken(token: string, clientID: string, userID: string, scope: string, now: Time, lifetime: Time): Token {
    Token(token, clientID, userID, scope, now + lifetime, now, false)
  }

  predicate Verified(env: Env, code: AuthCode, verifier: string) {
    code.challenge == "" ||
    (verifier != "" && code.challengeMethod == "S256" && env.challengeOf(verifier) == code.challenge)
  }

  /** Access token, then refresh token: what is stored even when the second draw fails. */
  function CodeGrantStep(env: Env, s: Server, creds: Credentials, code: string, redirectURI: string,
                         verifier: string, now: Time, draws: Draws): (Server, Response)
  {
    var (id, secret) := Effective(creds);
    var client := ValidClient(s.clients, id, secret, now);
    if client.None? then (s, Error("invalid_client"))
    else if code !in s.codes then (s, Error("invalid_grant"))
    else
      var c := s.codes[code];
      if now > c.expiresAt then (s.(codes := s.codes - {code}), Error("invalid_grant"))
      else if c.clientID != id || c.redirectURI != redirectURI || !Verified(env, c, verifier) then
        (s, Error("invalid_grant"))
      else if draws.first.None? then (s, Error("server_error"))
      else
        var t := NewToken(draws.first.value, client.value.id, c.userID, c.scope, now, TOKEN_LIFETIME);
        var s1 := s.(access := s.access[t.token := t]);
        if "refresh_token" !in client.value.grantTypes then
          (s1.(codes := s.codes - {code}), Tokens(t.token, None, c.scope))
        else if draws.second.None? then (s1, Error("server_error"))
        else
          var r := NewToken(draws.second.value, client.value.id, c.userID, c.scope, now, REFRESH_LIFETIME);
          (s1.(refresh := s.refresh[r.token := r], codes := s.codes - {code}), Tokens(t.token, Some(r.token), c.scope))
  }

  function ClientGrantStep(env: Env, s: Server, creds: Credentials, scope: string, now: Time, draws: Draws)
    : (Server, Response)
  {
    var (id, secret) := Effective(creds);
    var client := ValidClient(s.clients, id, secret, now);
    if client.None? then (s, Error("invalid_client"))
    else if "client_credentials" !in client.value.grantTypes then (s, Error("unauthorized_client"))
    else if scope != "" && !ScopeSupported(env, scope) then (s, Error("invalid_scope"))
    else if draws.first.None? then (s, Error("server_error"))
    else
      var t := NewToken(draws.first.value, client.value.id, "", scope, now, TOKEN_LIFETIME);
      (s.(access := s.access[t.token := t]), Tokens(t.token, None, scope))
  }

  /** The old refresh token is gone before the new pair is drawn, whatever the draws. */
  function RefreshGrantStep(s: Server, creds: Credentials, token: string, scope: string, now: Time,
                            draws: Draws): (Server, Response)
  {
    var (id, secret) := Effective(creds);
    var client := ValidClient(s.clients, id, secret, now);
    if token == "" then (s, Error("invalid_request"))
    else if client.None? then (s, Error("invalid_client"))
    else if token !in s.refresh || s.refresh[token].clientID != id then (s, Error("invalid_grant"))
    else
      var previous := s.refresh[token];
      if now > previous.expiresAt then (s.(refresh := s.refresh - {token}), Error("invalid_grant"))
      else if scope != "" && !(ScopeSet(scope) <= ScopeSet(previous.scope)) then (s, Error("invalid_scope"))
      else
        var granted := if scope == "" then previous.scope else scope;
        var s1 := s.(refresh := s.refresh - {token});
        if draws.first.None? then (s1, Error("server_error"))
        else
          var t := NewToken(draws.first.value, client.value.id, previous.userID, granted, now, TOKEN_LIFETIME);
          var s2 := s1.(access := s.access[t.token := t]);
          if draws.second.None? then (s2, Error("server_error"))
          else
            var r := NewToken(draws.second.value, client.value.id, previous.userID, granted, now, REFRESH_LIFETIME);
            (s2.(refresh := s1.refresh[r.token := r]), Tokens(t.token, Some(r.token), granted))
  }

  /** Past its expiry, or without one. */
  predicate AccessExpired(t: Token, now: Time) {
    t.expiresAt == 0 || now > t.expiresAt
  }

  function ValidateStep(s: Server, token: string, now: Time): Response {
    if token !in s.access || AccessExpired(s.access[token], now) then Error("invalid_token")
    else
      var t := s.access[token];
      Active(t.clientID, t.userID, t.scope, t.expiresAt, t.createdAt)
  }

  // ----- Revocation and expiry -----

  function MarkRevoked(m: map<string, Token>, clientID: string, userID: string): map<string, Token> {
    map k | k in m :: if m[k].clientID == clientID && m[k].userID == userID then m[k].(revoked := true) else m[k]
  }

  function RevokeStep(s: Server, creds: Credentials, token: string, hint: string, now: Time): (Server, Response) {
    var (id, secret) :=
      if creds.clientID != "" && creds.clientSecret == "" && creds.basic.Some? then creds.basic.value
      else (creds.clientID, creds.clientSecret);
    if token == "" then (s, Error("invalid_request"))
    else if creds.clientID != "" && ValidClient(s.clients, id, secret, now).None? then (s, Error("invalid_client"))
    else
      var owner := if creds.clientID != "" then Some(ValidClient(s.clients, id, secret, now).value.id) else None;
      if hint in ["", "access_token"] && token in s.access && MayRevoke(owner, s.access[token]) then
        var t := s.access[token];
        (s.(access := s.access[token := t.(revoked := true)], refresh :=
          MarkRevoked(s.refresh, t.clientID, t.userID)), Done)
      else if hint in ["", "refresh_token"] && token in s.refresh && MayRevoke(owner, s.refresh[token]) then
        var t := s.refresh[token];
        (s.(refresh := s.refresh[token := t.(revoked := true)], access :=
          MarkRevoked(s.access, t.clientID, t.userID)), Done)
      else (s, Done)
  }

  predicate MayRevoke(owner: Option<string>, t: Token) {
    owner.None? || t.clientID == owner.value
  }

  function CleanupStep(s: Server, now: Time): Server {
    s.(access := map k | k in s.access && now <= s.access[k].expiresAt :: s.access[k],
       refresh := map k | k in s.refresh && now <= s.refresh[k].expiresAt :: s.refresh[k],
       codes := map k | k in s.codes && now <= s.codes[k].expiresAt :: s.codes[k])
  }

  // ----- One request -----

  function Handle(env: Env, s: Server, req: Request, now: Time, draws: Draws): (Server, Response) {
    match req
    case Register(config) => RegisterStep(env, s, config, now, draws)
    case Authorize(params) => AuthorizeStep(env, s, params, now, draws)
    case CodeGrant(creds, code, uri, verifier) => CodeGrantStep(env, s, creds, code, uri, verifier, now, draws)
    case ClientGrant(creds, scope) => ClientGrantStep(env, s, creds, scope, now, draws)
    case RefreshGrant(creds, token, scope) => RefreshGrantStep(s, creds, token, scope, now, draws)
    case Validate(token) => (s, ValidateStep(s, token, now))
    case Revoke(creds, token, hint) => RevokeStep(s, creds, token, hint, now)
  }
}
