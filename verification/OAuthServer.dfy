/**
 The authorization server as the program has it: an object whose handlers read and
 write its maps step by step, each held to the step function of OAuthState.
 */
module OAuthServer {
  import opened Wrappers
  import opened OAuthState

  class AuthorizationServer {
    const env: Env
    var clients: map<string, Client>
    var codes: map<string, AuthCode>
    var access: map<string, Token>
    var refresh: map<string, Token>

    constructor (env: Env)
      ensures State() == EmptyServer && Valid() && this.env == env
    {
      this.env := env;
      clients, codes, access, refresh := map[], map[], map[], map[];
    }

    function State(): Server
      reads this
    {
      Server(clients, codes, access, refresh)
    }

    /** Refresh tokens are stored under their own string. */
    ghost predicate Valid()
      reads this
    {
      forall k :: k in refresh ==> refresh[k].token == k
    }

    method ValidateScope(scope: string) returns (ok: bool)
      ensures ok <==> ScopeSupported(env, scope)
    {
      var fields := Fields(scope);
      for i := 0 to |fields|
        invariant forall f :: f in fields[..i] ==> "mcp:*" in env.supportedScopes || f in env.supportedScopes
      {
        assert fields[..i + 1] == fields[..i] + [fields[i]];
        var valid := false;
        for j := 0 to |env.supportedScopes|
          invariant valid <==> exists k :: 0 <= k < j && env.supportedScopes[k] in [fields[i], "mcp:*"]
        {
          if env.supportedScopes[j] == fields[i] || env.supportedScopes[j] == "mcp:*" {
            valid := true;
            break;
          }
        }
        if !valid {
          assert fields[i] in ScopeSet(scope);
          return false;
        }
      }
      assert fields[..|fields|] == fields;
      return true;
    }

    method IsScopeSubset(requested: string, original: string) returns (ok: bool)
      ensures ok <==> ScopeSet(requested) <= ScopeSet(original)
    {
      var fields, allowed := Fields(requested), Fields(original);
      for i := 0 to |fields|
        invariant forall f :: f in fields[..i] ==> f in ScopeSet(original)
      {
        assert fields[..i + 1] == fields[..i] + [fields[i]];
        if fields[i] !in allowed {
          assert fields[i] in ScopeSet(requested);
          return false;
        }
      }
      assert fields[..|fields|] == fields;
      return true;
    }

    method IsLoopbackURIMatch(registered: string, requested: string) returns (ok: bool)
      ensures ok <==> LoopbackMatch(env, registered, requested)
    {
      var regURL, reqURL := env.parse(registered), env.parse(requested);
      if regURL.None? || reqURL.None? { return false; }
      var reg, req := regURL.value, reqURL.value;
      if reg.scheme != "http" || req.scheme != "http" { return false; }
      var regIsLoopback := reg.hostname == "localhost" || reg.hostname == "127.0.0.1";
      var reqIsLoopback := req.hostname == "localhost" || req.hostname == "127.0.0.1";
      if !regIsLoopback || !reqIsLoopback { return false; }
      if reg.path != req.path { return false; }
      if reg.query != req.query { return false; }
      return true;
    }

    method ValidateRedirectURI(client: Client, uri: string) returns (ok: bool)
      ensures ok <==> RedirectAllowed(env, client, uri)
    {
      hide LoopbackMatch;
      for i := 0 to |client.redirectURIs|
        invariant forall j :: 0 <= j < i ==>
          client.redirectURIs[j] != uri && !LoopbackMatch(env, client.redirectURIs[j], uri)
      {
        if client.redirectURIs[i] == uri { return true; }
        var matches := IsLoopbackURIMatch(client.redirectURIs[i], uri);
        if matches { return true; }
      }
      return false;
    }

    method RegisterClient(config: Registration, now: Time, draws: Draws) returns (r: Response)
      requires Valid()
      modifies this
      ensures (State(), r) == RegisterStep(env, old(State()), config, now, draws) && Valid()
    {
      var clientID := config.clientID;
      if clientID == "" {
        if draws.first.None? { return Error("invalid_client_metadata"); }
        clientID := draws.first.value;
      }
      if clientID in clients { return Error("invalid_client_metadata"); }
      for i := 0 to |config.redirectURIs|
        invariant State() == old(State())
        invariant forall j :: 0 <= j < i ==> RegistrableURI(env, config.redirectURIs[j])
      {
        if config.redirectURIs[i] == "" {
          assert !RegistrableURI(env, config.redirectURIs[i]);
          return Error("invalid_client_metadata");
        }
        var parsed := env.parse(config.redirectURIs[i]);
        if parsed.None? || parsed.value.scheme == "" || parsed.value.host == "" {
          assert !RegistrableURI(env, config.redirectURIs[i]);
          return Error("invalid_client_metadata");
        }
      }
      var isPublic := config.clientSecret == "" &&
        (config.tokenEndpointAuth == "none" || config.tokenEndpointAuth == "");
      var clientSecret := "";
      if !isPublic {
        if config.clientSecret != "" {
          clientSecret := config.clientSecret;
        } else {
          if draws.second.None? { return Error("invalid_client_metadata"); }
          clientSecret := draws.second.value;
        }
      }
      var grantTypes := config.grantTypes;
      if |grantTypes| == 0 {
        if isPublic {
          grantTypes := ["authorization_code", "refresh_token"];
        } else {
          grantTypes := ["authorization_code", "client_credentials", "refresh_token"];
        }
      }
      var responseTypes := config.responseTypes;
      if |responseTypes| == 0 {
        responseTypes := ["code"];
      }
      var expiresAt := 0;
      if !isPublic {
        expiresAt := now + SECRET_LIFETIME;
      }
      var client := Client(clientID, clientSecret, config.redirectURIs, grantTypes, responseTypes, expiresAt, isPublic);
      clients := clients[clientID := client];
      return Registered(clientID, clientSecret);
    }

    method ValidateClient(id: string, secret: string, now: Time) returns (client: Option<Client>)
      ensures client == ValidClient(clients, id, secret, now)
    {
      if id !in clients { return None; }
      var c := clients[id];
      if c.isPublic { return Some(c); }
      if c.secret != secret { return None; }
      if c.expiresAt != 0 && now > c.expiresAt { return None; }
      return Some(c);
    }

    /** HandleAuthorize with parseAuthorizationRequest and processAuthorization. */
    method HandleAuthorize(p: AuthorizeParams, now: Time, draws: Draws) returns (r: Response)
      requires Valid()
      modifies this
      ensures (State(), r) == AuthorizeStep(env, old(State()), p, now, draws) && Valid()
    {
      if p.responseType == "" || p.clientID == "" { return Error("invalid_request"); }
      var challengeMethod := p.challengeMethod;
      if p.challenge != "" && challengeMethod == "" {
        challengeMethod := "S256";
      }
      if challengeMethod != "" && challengeMethod != "S256" { return Error("invalid_request"); }
      if p.clientID !in clients { return Error("invalid_client"); }
      var client := clients[p.clientID];
      var allowed := ValidateRedirectURI(client, p.redirectURI);
      if !allowed { return Error("invalid_redirect_uri"); }
      if p.responseType !in client.responseTypes { return Error("unsupported_response_type"); }
      if p.scope != "" {
        var ok := ValidateScope(p.scope);
        if !ok { return Error("invalid_scope"); }
      }
      if !p.post { return ApprovalPage; }
      if p.action != "approve" { return Error("access_denied"); }
      if draws.first.None? { return Error("server_error"); }
      var code := draws.first.value;
      codes := codes[code := AuthCode(code, p.clientID, DEMO_USER, p.redirectURI, p.scope,
                                      now + CODE_LIFETIME, now, p.challenge, challengeMethod)];
      return Code(code);
    }

    method GenerateAccessToken(clientID: string, userID: string, scope: string, now: Time, draw: Option<string>)
      returns (token: Option<string>)
      modifies `access
      ensures token == draw
      ensures access ==
        if draw.None? then old(access)
        else old(access)[draw.value := NewToken(draw.value, clientID, userID, scope, now, TOKEN_LIFETIME)]
    {
      if draw.Some? {
        access := access[draw.value := Token(draw.value, clientID, userID, scope, now + TOKEN_LIFETIME, now, false)];
      }
      return draw;
    }

    method GenerateRefreshToken(clientID: string, userID: string, scope: string, now: Time, draw: Option<string>)
      returns (token: Option<string>)
      requires Valid()
      modifies `refresh
      ensures token == draw && Valid()
      ensures refresh ==
        if draw.None? then old(refresh)
        else old(refresh)[draw.value := NewToken(draw.value, clientID, userID, scope, now, REFRESH_LIFETIME)]
    {
      if draw.Some? {
        refresh := refresh[draw.value :=
          Token(draw.value, clientID, userID, scope, now + REFRESH_LIFETIME, now, false)];
      }
      return draw;
    }

    method HandleAuthorizationCodeGrant(creds: Credentials, code: string, redirectURI: string, verifier: string,
                                        now: Time, draws: Draws) returns (r: Response)
      requires Valid()
      modifies this
      ensures (State(), r) == CodeGrantStep(env, old(State()), creds, code, redirectURI, verifier, now, draws) &&
        Valid()
    {
      var (id, secret) := Effective(creds);
      var client := ValidateClient(id, secret, now);
      if client.None? { return Error("invalid_client"); }
      if code !in codes { return Error("invalid_grant"); }
      var authCode := codes[code];
      if now > authCode.expiresAt {
        codes := codes - {code};
        return Error("invalid_grant");
      }
      if authCode.clientID != id { return Error("invalid_grant"); }
      if authCode.redirectURI != redirectURI { return Error("invalid_grant"); }
      if authCode.challenge != "" {
        if verifier == "" { return Error("invalid_grant"); }
        if authCode.challengeMethod != "S256" || env.challengeOf(verifier) != authCode.challenge {
          return Error("invalid_grant");
        }
      }
      var token := GenerateAccessToken(client.value.id, authCode.userID, authCode.scope, now, draws.first);
      if token.None? { return Error("server_error"); }
      var refreshToken := None;
      if "refresh_token" in client.value.grantTypes {
        refreshToken := GenerateRefreshToken(client.value.id, authCode.userID, authCode.scope, now, draws.second);
        if refreshToken.None? { return Error("server_error"); }
      }
      codes := codes - {code};
      return Tokens(token.value, refreshToken, authCode.scope);
    }

    method HandleClientCredentialsGrant(creds: Credentials, scope: string, now: Time, draws: Draws)
      returns (r: Response)
      requires Valid()
      modifies this
      ensures (State(), r) == ClientGrantStep(env, old(State()), creds, scope, now, draws) && Valid()
    {
      var (id, secret) := Effective(creds);
      var client := ValidateClient(id, secret, now);
      if client.None? { return Error("invalid_client"); }
      if "client_credentials" !in client.value.grantTypes { return Error("unauthorized_client"); }
      if scope != "" {
        var ok := ValidateScope(scope);
        if !ok { return Error("invalid_scope"); }
      }
      var token := GenerateAccessToken(client.value.id, "", scope, now, draws.first);
      if token.None? { return Error("server_error"); }
      return Tokens(token.value, None, scope);
    }

    /** The scan over the stored refresh tokens, in whatever order the map yields them. */
    method FindRefreshToken(token: string, clientID: string) returns (found: Option<Token>)
      requires Valid()
      ensures found ==
        if token in refresh && refresh[token].clientID == clientID then Some(refresh[token]) else None
    {
      var rest := refresh.Keys;
      while rest != {}
        invariant rest <= refresh.Keys
        invariant forall k :: k in refresh && k !in rest ==>
          !(refresh[k].token == token && refresh[k].clientID == clientID)
      {
        var k :| k in rest;
        if refresh[k].token == token && refresh[k].clientID == clientID {
          return Some(refresh[k]);
        }
        rest := rest - {k};
      }
      return None;
    }

    method HandleRefreshTokenGrant(creds: Credentials, value: string, scope: string, now: Time, draws: Draws)
      returns (r: Response)
      requires Valid()
      modifies this
      ensures (State(), r) == RefreshGrantStep(old(State()), creds, value, scope, now, draws) && Valid()
    {
      if value == "" { return Error("invalid_request"); }
      var (id, secret) := Effective(creds);
      var client := ValidateClient(id, secret, now);
      if client.None? { return Error("invalid_client"); }
      var found := FindRefreshToken(value, id);
      if found.None? { return Error("invalid_grant"); }
      var refreshToken := found.value;
      if now > refreshToken.expiresAt {
        refresh := refresh - {refreshToken.token};
        return Error("invalid_grant");
      }
      var granted := scope;
      if scope != "" {
        var ok := IsScopeSubset(scope, refreshToken.scope);
        if !ok { return Error("invalid_scope"); }
      }
      if scope == "" {
        granted := refreshToken.scope;
      }
      refresh := refresh - {refreshToken.token};
      var accessToken := GenerateAccessToken(client.value.id, refreshToken.userID, granted, now, draws.first);
      if accessToken.None? { return Error("server_error"); }
      var newRefreshToken := GenerateRefreshToken(client.value.id, refreshToken.userID, granted, now, draws.second);
      if newRefreshToken.None? { return Error("server_error"); }
      return Tokens(accessToken.value, newRefreshToken, granted);
    }

    /** `expired` tells whether the delayed deletion of `token` was started. */
    method ValidateAccessToken(token: string, now: Time) returns (r: Response, expired: bool)
      ensures r == ValidateStep(State(), token, now)
      ensures expired <==> token in access && AccessExpired(access[token], now)
    {
      if token !in access { return Error("invalid_token"), false; }
      var t := access[token];
      if t.expiresAt == 0 || now > t.expiresAt { return Error("invalid_token"), true; }
      return Active(t.clientID, t.userID, t.scope, t.expiresAt, t.createdAt), false;
    }

    /** The delayed deletion that ValidateAccessToken starts. */
    method DeleteAccessToken(token: string)
      modifies `access
      ensures access == old(access) - {token}
    {
      access := access - {token};
    }

    method CleanupExpiredTokens(now: Time)
      requires Valid()
      modifies this
      ensures State() == CleanupStep(old(State()), now) && Valid()
    {
      access := DropExpiredTokens(access, now);
      refresh := DropExpiredTokens(refresh, now);
      var rest := codes.Keys;
      while rest != {}
        invariant rest <= codes.Keys && codes.Keys <= old(codes).Keys && Valid()
        invariant access == CleanupStep(old(State()), now).access && refresh == CleanupStep(old(State()), now).refresh
        invariant clients == old(clients)
        invariant forall k :: k in codes ==> codes[k] == old(codes)[k] && (k in rest || now <= codes[k].expiresAt)
        invariant forall k :: k in old(codes) && k !in codes ==> now > old(codes)[k].expiresAt
      {
        var k :| k in rest;
        if now > codes[k].expiresAt {
          codes := codes - {k};
        }
        rest := rest - {k};
      }
    }

    static method DropExpiredTokens(m: map<string, Token>, now: Time) returns (r: map<string, Token>)
      ensures r == map k | k in m && now <= m[k].expiresAt :: m[k]
    {
      r := m;
      var rest := m.Keys;
      while rest != {}
        invariant rest <= r.Keys <= m.Keys
        invariant forall k :: k in r ==> r[k] == m[k] && (k in rest || now <= m[k].expiresAt)
        invariant forall k :: k in m && k !in r ==> now > m[k].expiresAt
      {
        var k :| k in rest;
        if now > r[k].expiresAt {
          r := r - {k};
        }
        rest := rest - {k};
      }
    }

    /** Marks every token of one client and user, in whatever order the map yields them. */
    static method RevokeAssociated(m: map<string, Token>, clientID: string, userID: string)
      returns (r: map<string, Token>)
      ensures r == MarkRevoked(m, clientID, userID)
    {
      r := m;
      var rest := m.Keys;
      while rest != {}
        invariant rest <= m.Keys == r.Keys
        invariant forall k :: k in m ==> r[k] == if k in rest then m[k] else MarkRevoked(m, clientID, userID)[k]
      {
        var k :| k in rest;
        if r[k].clientID == clientID && r[k].userID == userID {
          r := r[k := r[k].(revoked := true)];
        }
        rest := rest - {k};
      }
    }

    method RevokeAccess(token: string, owner: Option<string>) returns (revoked: bool)
      requires Valid()
      modifies `access, `refresh
      ensures Valid() && (revoked <==> token in old(access) && MayRevoke(owner, old(access)[token]))
      ensures !revoked ==> access == old(access) && refresh == old(refresh)
      ensures revoked ==>
        var t := old(access)[token];
        access == old(access)[token := t.(revoked := true)] &&
          refresh == MarkRevoked(old(refresh), t.clientID, t.userID)
    {
      if token in access && (owner.None? || access[token].clientID == owner.value) {
        access := access[token := access[token].(revoked := true)];
        refresh := RevokeAssociated(refresh, access[token].clientID, access[token].userID);
        return true;
      }
      return false;
    }

    method RevokeRefresh(token: string, owner: Option<string>) returns (revoked: bool)
      requires Valid()
      modifies `access, `refresh
      ensures Valid() && (revoked <==> token in old(refresh) && MayRevoke(owner, old(refresh)[token]))
      ensures !revoked ==> access == old(access) && refresh == old(refresh)
      ensures revoked ==>
        var t := old(refresh)[token];
        refresh == old(refresh)[token := t.(revoked := true)] &&
          access == MarkRevoked(old(access), t.clientID, t.userID)
    {
      if token in refresh && (owner.None? || refresh[token].clientID == owner.value) {
        refresh := refresh[token := refresh[token].(revoked := true)];
        access := RevokeAssociated(access, refresh[token].clientID, refresh[token].userID);
        return true;
      }
      return false;
    }

    method HandleRevoke(creds: Credentials, token: string, hint: string, now: Time) returns (r: Response)
      requires Valid()
      modifies this
      ensures (State(), r) == RevokeStep(old(State()), creds, token, hint, now) && Valid()
    {
      if token == "" { return Error("invalid_request"); }
      var owner: Option<string> := None;
      if creds.clientID != "" {
        var id, secret := creds.clientID, creds.clientSecret;
        if secret == "" && creds.basic.Some? {
          id, secret := creds.basic.value.0, creds.basic.value.1;
        }
        var client := ValidateClient(id, secret, now);
        if client.None? { return Error("invalid_client"); }
        owner := Some(client.value.id);
      }
      hide MarkRevoked, Valid;
      var revoked := false;
      if hint == "" || hint == "access_token" {
        revoked := RevokeAccess(token, owner);
      }
      if !revoked && (hint == "" || hint == "refresh_token") {
        revoked := RevokeRefresh(token, owner);
      }
      return Done;
    }
  }
}
