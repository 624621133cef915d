/**
 What the authorization server grants and refuses, request by request, in terms of
 the stored clients, codes and tokens alone.
 */
module OAuthDecisions {
  import opened Wrappers
  import opened OAuthState

  // ----- Scopes -----

  /** Blanks, tabs and line ends separate words; no other printable ASCII character does. */
  lemma SpacesExactly()
    ensures IsSpace(' ') && IsSpace('\t') && IsSpace('\n') && IsSpace('\r')
    ensures forall c :: '!' <= c <= '~' ==> !IsSpace(c)
  {
  }

  ghost predicate NoSpace(s: string) {
    forall i :: 0 <= i < |s| ==> !IsSpace(s[i])
  }

  /** `word` stands in `s` from `i` to `j`, between spaces or the ends of `s`. */
  ghost predicate WordAt(s: string, word: string, i: nat, j: nat) {
    && i < j <= |s| && word == s[i..j] && NoSpace(word)
    && (i == 0 || IsSpace(s[i - 1])) && (j == |s| || IsSpace(s[j]))
  }

  ghost predicate IsWordOf(s: string, word: string) {
    exists i: nat, j: nat :: WordAt(s, word, i, j)
  }

  lemma WholeWord(s: string, word: string)
    requires NoSpace(s)
    ensures IsWordOf(s, word) <==> s != "" && word == s
  {
    if IsWordOf(s, word) {
      var i: nat, j: nat :| WordAt(s, word, i, j);
      assert i == 0 && j == |s|;
    }
    if s != "" { assert WordAt(s, s, 0, |s|); }
  }

  lemma InsideWord(s: string, word: string, i: nat, j: nat, k: nat)
    requires WordAt(s, word, i, j) && i <= k < j
    ensures !IsSpace(s[k])
  {
    assert s[k] == word[k - i];
  }

  lemma WordsAroundSpace(first: string, space: char, rest: string, word: string)
    requires NoSpace(first) && IsSpace(space)
    ensures IsWordOf(first + [space] + rest, word) <==> (first != "" && word == first) || IsWordOf(rest, word)
  {
    hide IsSpace;
    var s := first + [space] + rest;
    var k := |first| + 1;
    assert s[|first|] == space && s[..|first|] == first && forall n :: 0 <= n < |first| ==> s[n] == first[n];
    if IsWordOf(s, word) {
      var i: nat, j: nat :| WordAt(s, word, i, j);
      if i <= |first| < j {
        InsideWord(s, word, i, j, |first|);
      } else if i > |first| {
        WordMoves(rest, first + [space], word, i - k, j - k);
      }
    }
    if first != "" && word == first {
      assert WordAt(s, first, 0, |first|);
    }
    if IsWordOf(rest, word) {
      var i: nat, j: nat :| WordAt(rest, word, i, j);
      WordMoves(rest, first + [space], word, i, j);
    }
  }

  lemma WordMoves(rest: string, front: string, word: string, i: nat, j: nat)
    requires front != "" && IsSpace(front[|front| - 1])
    ensures WordAt(rest, word, i, j) <==> WordAt(front + rest, word, |front| + i, |front| + j)
  {
    hide IsSpace;
    var s, k := front + rest, |front|;
    if i < j <= |rest| {
      assert s[k + i..k + j] == rest[i..j];
      assert if i == 0 then s[k + i - 1] == front[k - 1] else s[k + i - 1] == rest[i - 1];
    }
  }

  /** The fields of a string are its words: the runs without space, each as long as possible. */
  lemma {:induction false} FieldsExactly(s: string, first: string, word: string)
    requires NoSpace(first)
    ensures word in Fields(s, first) <==> IsWordOf(first + s, word)
    decreases |s|
  {
    hide IsSpace, IsWordOf;
    if s == "" {
      assert first + s == first;
      WholeWord(first, word);
    } else if IsSpace(s[0]) {
      assert first + s == first + [s[0]] + s[1..];
      assert "" + s[1..] == s[1..];
      WordsAroundSpace(first, s[0], s[1..], word);
      FieldsExactly(s[1..], "", word);
    } else {
      assert first + s == (first + [s[0]]) + s[1..];
      FieldsExactly(s[1..], first + [s[0]], word);
    }
  }

  /** Every word is supported, or "mcp:*" is. */
  ghost predicate Supported(env: Env, scope: string) {
    "mcp:*" in env.supportedScopes || forall word :: IsWordOf(scope, word) ==> word in env.supportedScopes
  }

  lemma WordsOf(scope: string, word: string)
    ensures word in ScopeSet(scope) <==> IsWordOf(scope, word)
  {
    hide IsWordOf, Fields;
    assert "" + scope == scope;
    FieldsExactly(scope, "", word);
  }

  lemma SupportedExactly(env: Env, scope: string)
    ensures ScopeSupported(env, scope) <==> Supported(env, scope)
    ensures scope == "" ==> Supported(env, scope)
  {
    hide IsWordOf, ScopeSet;
    forall word ensures word in ScopeSet(scope) <==> IsWordOf(scope, word) { WordsOf(scope, word); }
    if scope == "" {
      forall word ensures !IsWordOf("", word) { WholeWord("", word); }
    }
  }

  lemma SubsetExactly(requested: string, original: string)
    ensures ScopeSet(requested) <= ScopeSet(original) <==>
      forall word :: IsWordOf(requested, word) ==> IsWordOf(original, word)
  {
    hide IsWordOf, ScopeSet;
    forall word
      ensures word in ScopeSet(requested) <==> IsWordOf(requested, word)
      ensures word in ScopeSet(original) <==> IsWordOf(original, word)
    {
      WordsOf(requested, word);
      WordsOf(original, word);
    }
  }

  // ----- Clients -----

  /** The form's credentials count when both are there or there are no others, and the Basic ones otherwise. */
  lemma CredentialsExactly(creds: Credentials)
    ensures creds.basic.None? || (creds.clientID != "" && creds.clientSecret != "") ==>
      Effective(creds) == (creds.clientID, creds.clientSecret)
    ensures creds.basic.Some? && (creds.clientID == "" || creds.clientSecret == "") ==>
      Effective(creds) == creds.basic.value
  {
  }

  /** Public, or with its own secret before that expires. */
  ghost predicate Authenticated(clients: map<string, Client>, id: string, secret: string, now: Time) {
    id in clients && (clients[id].isPublic ||
      (clients[id].secret == secret && (clients[id].expiresAt == 0 || now <= clients[id].expiresAt)))
  }

  lemma AuthenticatedExactly(clients: map<string, Client>, id: string, secret: string, now: Time)
    ensures ValidClient(clients, id, secret, now) ==
      if Authenticated(clients, id, secret, now) then Some(clients[id]) else None
  {
  }

  /**
   A client is registered exactly when its name is given or drawn and not in use, all
   its addresses are absolute, and, unless it is public, a secret is given or drawn.
   A secret lasts a year; a public client has none and never expires.
   */
  lemma RegisteredExactly(env: Env, s: Server, config: Registration, now: Time, draws: Draws)
    ensures var (s', r) := RegisterStep(env, s, config, now, draws);
      var id := if config.clientID != "" then Some(config.clientID) else draws.first;
      var isPublic := config.clientSecret == "" && config.tokenEndpointAuth in {"", "none"};
      && (r.Registered? <==>
            && id.Some? && id.value !in s.clients
            && (forall uri :: uri in config.redirectURIs ==>
                  uri != "" && exists a :: env.parse(uri) == Some(a) && a.scheme != "" && a.host != "")
            && (isPublic || config.clientSecret != "" || draws.second.Some?))
      && (!r.Registered? ==> r == Error("invalid_client_metadata") && s' == s)
      && (r.Registered? ==>
            var c := Client(
              r.clientID, r.clientSecret, config.redirectURIs,
              if config.grantTypes != [] then config.grantTypes
              else if isPublic then ["authorization_code", "refresh_token"]
              else ["authorization_code", "client_credentials", "refresh_token"],
              if config.responseTypes != [] then config.responseTypes else ["code"],
              if isPublic then 0 else now + 31_536_000, isPublic);
            && r.clientID == id.value
            && r.clientSecret ==
                 (if config.clientSecret != "" || isPublic then config.clientSecret else draws.second.value)
            && s' == s.(clients := s.clients[r.clientID := c]))
  {
    forall i | 0 <= i < |config.redirectURIs| ensures config.redirectURIs[i] in config.redirectURIs {
    }
  }

  // ----- Authorization -----

  /** Two addresses match by loopback exactly when both are plain HTTP to this host, by the same path and query. */
  lemma LoopbackExactly(env: Env, registered: string, requested: string)
    ensures LoopbackMatch(env, registered, requested) <==>
      exists a, b :: env.parse(registered) == Some(a) && env.parse(requested) == Some(b)
        && a.scheme == b.scheme == "http" && a.path == b.path && a.query == b.query
        && a.hostname in {"localhost", "127.0.0.1"} && b.hostname in {"localhost", "127.0.0.1"}
    ensures LoopbackMatch(env, registered, requested) <==> LoopbackMatch(env, requested, registered)
  {
    if LoopbackMatch(env, registered, requested) {
      assert env.parse(registered) == Some(env.parse(registered).value);
      assert env.parse(requested) == Some(env.parse(requested).value);
    }
  }

  /** Equal to an address registered for the client, or the loopback form of one. */
  ghost predicate RegisteredAddress(env: Env, client: Client, uri: string) {
    uri in client.redirectURIs || exists r :: r in client.redirectURIs && LoopbackMatch(env, r, uri)
  }

  lemma RegisteredAddressExactly(env: Env, client: Client, uri: string)
    ensures RedirectAllowed(env, client, uri) <==> RegisteredAddress(env, client, uri)
  {
    if RegisteredAddress(env, client, uri) {
      var i :| 0 <= i < |client.redirectURIs| &&
        (client.redirectURIs[i] == uri || LoopbackMatch(env, client.redirectURIs[i], uri));
    }
  }

  ghost predicate WellFormed(p: AuthorizeParams) {
    p.responseType != "" && p.clientID != "" && (p.challengeMethod == "" || p.challengeMethod == "S256")
  }

  /** The refusals of an authorization request: each check is made after those before it. */
  lemma AuthorizeRefusesExactly(env: Env, s: Server, p: AuthorizeParams, now: Time, draws: Draws)
    ensures var r := AuthorizeStep(env, s, p, now, draws).1;
      var known := WellFormed(p) && p.clientID in s.clients;
      var addressed := known && RegisteredAddress(env, s.clients[p.clientID], p.redirectURI);
      var typed := addressed && p.responseType in s.clients[p.clientID].responseTypes;
      var scoped := typed && Supported(env, p.scope);
      && (r == Error("invalid_request") <==> !WellFormed(p))
      && (r == Error("invalid_client") <==> WellFormed(p) && !known)
      && (r == Error("invalid_redirect_uri") <==> known && !addressed)
      && (r == Error("unsupported_response_type") <==> addressed && !typed)
      && (r == Error("invalid_scope") <==> typed && !scoped)
      && (r == ApprovalPage <==> scoped && !p.post)
      && (r == Error("access_denied") <==> scoped && p.post && p.action != "approve")
      && (r == Error("server_error") <==> scoped && p.post && p.action == "approve" && draws.first.None?)
  {
    hide ScopeSupported, Supported, RedirectAllowed, RegisteredAddress;
    SupportedExactly(env, p.scope);
    if p.clientID in s.clients {
      RegisteredAddressExactly(env, s.clients[p.clientID], p.redirectURI);
    }
  }

  /**
   A code is handed out exactly when the client is registered, the address is
   registered for it, it may ask for this type of response, the scope is supported,
   the challenge method is S256 or missing, the user approves and a code is drawn.
   It holds for ten minutes and carries what was asked for; without it nothing changes.
   */
  lemma CodeIsHandedOutExactly(env: Env, s: Server, p: AuthorizeParams, now: Time, draws: Draws)
    ensures var (s', r) := AuthorizeStep(env, s, p, now, draws);
      && (r.Code? <==>
            && p.clientID != "" && p.clientID in s.clients
            && (exists uri :: uri in s.clients[p.clientID].redirectURIs &&
                  (uri == p.redirectURI || LoopbackMatch(env, uri, p.redirectURI)))
            && p.responseType != "" && p.responseType in s.clients[p.clientID].responseTypes
            && (("mcp:*" in env.supportedScopes) || forall w :: IsWordOf(p.scope, w) ==> w in env.supportedScopes)
            && (p.challengeMethod == "" || p.challengeMethod == "S256")
            && p.post && p.action == "approve" && draws.first.Some?)
      && (!r.Code? ==> s' == s)
      && (r.Code? ==>
            && r.code == draws.first.value
            && s' == s.(codes := s.codes[r.code := AuthCode(
                 r.code, p.clientID, "demo-user", p.redirectURI, p.scope, now + 600, now, p.challenge,
                 if p.challenge != "" then "S256" else p.challengeMethod)]))
  {
    hide ScopeSupported, RedirectAllowed, IsWordOf;
    SupportedExactly(env, p.scope);
    if p.clientID in s.clients {
      RegisteredAddressExactly(env, s.clients[p.clientID], p.redirectURI);
      AddressAsOne(env, s.clients[p.clientID], p.redirectURI);
    }
  }

  lemma AddressAsOne(env: Env, client: Client, uri: string)
    ensures RegisteredAddress(env, client, uri) <==>
      exists r :: r in client.redirectURIs && (r == uri || LoopbackMatch(env, r, uri))
  {
    if uri in client.redirectURIs {
      var r := uri;
      assert r in client.redirectURIs && (r == uri || LoopbackMatch(env, r, uri));
    }
  }

  // ----- Grants -----

  /**
   A code is exchanged exactly when its client authenticates, before it expires, for
   the address it was asked for, with a verifier that hashes to the challenge if there
   is one, and the tokens it takes are drawn.
   */
  ghost predicate CodeIsGood(env: Env, s: Server, id: string, secret: string, code: string, redirectURI: string,
                             verifier: string, now: Time)
  {
    && Authenticated(s.clients, id, secret, now) && code in s.codes
    && var c := s.codes[code];
       && now <= c.expiresAt && c.clientID == id && c.redirectURI == redirectURI
       && (c.challenge == "" ||
           (verifier != "" && c.challengeMethod == "S256" && env.challengeOf(verifier) == c.challenge))
  }

  lemma CodeIsExchangedExactly(env: Env, s: Server, creds: Credentials, code: string, redirectURI: string,
                               verifier: string, now: Time, draws: Draws)
    ensures var (s', r) := CodeGrantStep(env, s, creds, code, redirectURI, verifier, now, draws);
      var (id, secret) := Effective(creds);
      && (r.Tokens? <==>
            && CodeIsGood(env, s, id, secret, code, redirectURI, verifier, now) && draws.first.Some?
            && ("refresh_token" in s.clients[id].grantTypes ==> draws.second.Some?))
      && (r.Tokens? ==>
            var c, client := s.codes[code], s.clients[id];
            var t := Token(draws.first.value, client.id, c.userID, c.scope, now + 3600, now, false);
            && r.access == t.token && r.scope == c.scope
            && s'.clients == s.clients && s'.codes == s.codes - {code} && s'.access == s.access[t.token := t]
            && if "refresh_token" in client.grantTypes then
                 var k := draws.second.value;
                 r.refresh == Some(k) &&
                   s'.refresh == s.refresh[k := Token(k, client.id, c.userID, c.scope, now + 604_800, now, false)]
               else r.refresh == None && s'.refresh == s.refresh)
  {
    hide Authenticated;
    var (id, secret) := Effective(creds);
    AuthenticatedExactly(s.clients, id, secret, now);
    hide ValidClient;
  }

  /** What a refused exchange leaves: without an expired code, or with an access token when the second draw fails. */
  lemma RefusedExchangeLeaves(env: Env, s: Server, creds: Credentials, code: string, redirectURI: string,
                              verifier: string, now: Time, draws: Draws)
    requires !CodeGrantStep(env, s, creds, code, redirectURI, verifier, now, draws).1.Tokens?
    ensures var (s', r) := CodeGrantStep(env, s, creds, code, redirectURI, verifier, now, draws);
      var (id, secret) := Effective(creds); var known := Authenticated(s.clients, id, secret, now);
      var good := CodeIsGood(env, s, id, secret, code, redirectURI, verifier, now);
      && r == Error(if !known then "invalid_client" else if !good then "invalid_grant" else "server_error")
      && s'.clients == s.clients && s'.refresh == s.refresh
      && s'.codes == (if known && code in s.codes && now > s.codes[code].expiresAt then s.codes - {code} else s.codes)
      && s'.access == if good && draws.first.Some? then
          var c, k := s.codes[code], draws.first.value;
          s.access[k := Token(k, s.clients[id].id, c.userID, c.scope, now + 3600, now, false)]
        else s.access
  {
    hide Authenticated;
    var (id, secret) := Effective(creds);
    AuthenticatedExactly(s.clients, id, secret, now);
    hide ValidClient;
  }

  /** An access token for the client itself, for an hour, with no user and no refresh token. */
  lemma ClientIsGrantedExactly(env: Env, s: Server, creds: Credentials, scope: string, now: Time, draws: Draws)
    ensures var (s', r) := ClientGrantStep(env, s, creds, scope, now, draws); var (id, secret) := Effective(creds);
      var known := Authenticated(s.clients, id, secret, now);
      var allowed := known && "client_credentials" in s.clients[id].grantTypes;
      && (r == Error("invalid_client") <==> !known)
      && (r == Error("unauthorized_client") <==> known && !allowed)
      && (r == Error("invalid_scope") <==> allowed && !Supported(env, scope))
      && (r == Error("server_error") <==> allowed && Supported(env, scope) && draws.first.None?)
      && (r.Tokens? <==> allowed && Supported(env, scope) && draws.first.Some?)
      && (!r.Tokens? ==> s' == s)
      && (r.Tokens? ==>
            var k := draws.first.value;
            && r == Tokens(k, None, scope)
            && s' == s.(access := s.access[k := Token(k, s.clients[id].id, "", scope, now + 3600, now, false)]))
  {
    hide ScopeSupported, Supported, Authenticated;
    var (id, secret) := Effective(creds);
    AuthenticatedExactly(s.clients, id, secret, now);
    SupportedExactly(env, scope);
    hide ValidClient;
  }

  /** The token is the client's, has not expired, and covers what is asked for. */
  ghost predicate RefreshIsGood(s: Server, id: string, secret: string, token: string, scope: string, now: Time) {
    && token != "" && Authenticated(s.clients, id, secret, now)
    && token in s.refresh && s.refresh[token].clientID == id && now <= s.refresh[token].expiresAt
    && (scope == "" || forall word :: IsWordOf(scope, word) ==> IsWordOf(s.refresh[token].scope, word))
  }

  /**
   A refresh token is exchanged exactly when it is good and both draws succeed. Good or
   expired, it is gone afterwards; the new pair carries the user and the scope asked for.
   */
  lemma RefreshIsExchangedExactly(s: Server, creds: Credentials, token: string, scope: string, now: Time, draws: Draws)
    ensures var (s', r) := RefreshGrantStep(s, creds, token, scope, now, draws); var (id, secret) := Effective(creds);
      var good := RefreshIsGood(s, id, secret, token, scope, now);
      && (r.Tokens? <==> good && draws.first.Some? && draws.second.Some?)
      && (good ==> token !in s'.refresh || (r.Tokens? && token == draws.second.value))
      && (r.Tokens? ==>
            var t, client, a, k := s.refresh[token], s.clients[id], draws.first.value, draws.second.value;
            var granted := if scope == "" then t.scope else scope;
            && r == Tokens(a, Some(k), granted)
            && s' == s.(
                 access := s.access[a := Token(a, client.id, t.userID, granted, now + 3600, now, false)],
                 refresh := (s.refresh - {token})[k :=
                   Token(k, client.id, t.userID, granted, now + 604_800, now, false)]))
  {
    hide Authenticated, ScopeSet, IsWordOf;
    var (id, secret) := Effective(creds);
    AuthenticatedExactly(s.clients, id, secret, now);
    if token in s.refresh {
      SubsetExactly(scope, s.refresh[token].scope);
    }
    hide ValidClient;
  }

  lemma RefusedRefreshLeaves(s: Server, creds: Credentials, token: string, scope: string, now: Time, draws: Draws)
    requires !RefreshGrantStep(s, creds, token, scope, now, draws).1.Tokens?
    ensures var (s', r) := RefreshGrantStep(s, creds, token, scope, now, draws); var (id, secret) := Effective(creds);
      var known := token != "" && Authenticated(s.clients, id, secret, now);
      var held := known && token in s.refresh && s.refresh[token].clientID == id;
      var good := RefreshIsGood(s, id, secret, token, scope, now);
      && r == (if token == "" then Error("invalid_request") else if !known then Error("invalid_client")
               else if !held || now > s.refresh[token].expiresAt then Error("invalid_grant")
               else if !good then Error("invalid_scope") else Error("server_error"))
      && s'.clients == s.clients && s'.codes == s.codes
      && s'.refresh == (if good || (held && now > s.refresh[token].expiresAt) then s.refresh - {token} else s.refresh)
      && s'.access == if good && draws.first.Some? then
          var k, t := draws.first.value, s.refresh[token];
          s.access[k := Token(k, s.clients[id].id, t.userID, if scope == "" then t.scope else scope,
                              now + 3600, now, false)]
        else s.access
  {
    hide Authenticated, ScopeSet, IsWordOf;
    var (id, secret) := Effective(creds);
    AuthenticatedExactly(s.clients, id, secret, now);
    if token in s.refresh {
      SubsetExactly(scope, s.refresh[token].scope);
    }
    hide ValidClient;
  }

  /** A token is active exactly when it is stored with an expiry that is not past; a revocation mark does not count. */
  lemma ActiveExactly(s: Server, token: string, now: Time)
    ensures var r := ValidateStep(s, token, now);
      && (r.Active? <==> token in s.access && s.access[token].expiresAt != 0 && now <= s.access[token].expiresAt)
      && (!r.Active? ==> r == Error("invalid_token"))
      && (r.Active? ==>
            var t := s.access[token];
            r.clientID == t.clientID && r.userID == t.userID && r.scope == t.scope
            && r.expiresAt == t.expiresAt && r.createdAt == t.createdAt)
  {
  }

  // ----- Revocation and expiry -----

  /** `m'` is `m` with `token` marked. */
  ghost predicate MarksOne(m: map<string, Token>, m': map<string, Token>, token: string) {
    && token in m && m'.Keys == m.Keys && m'[token] == m[token].(revoked := true)
    && forall k :: k in m && k != token ==> m'[k] == m[k]
  }

  /** `m'` is `m` with every token of this client and user marked. */
  ghost predicate MarksAll(m: map<string, Token>, m': map<string, Token>, clientID: string, userID: string) {
    m'.Keys == m.Keys && forall k :: k in m ==>
      m'[k] == if m[k].clientID == clientID && m[k].userID == userID then m[k].(revoked := true) else m[k]
  }

  /** The Basic credentials count when the form has no secret. */
  function RevokesAs(creds: Credentials): (string, string) {
    if creds.clientSecret == "" && creds.basic.Some? then creds.basic.value else (creds.clientID, creds.clientSecret)
  }

  /** A revocation is refused only without a token, or when a client is named and does not authenticate. */
  lemma RevocationIsRefusedExactly(s: Server, creds: Credentials, token: string, hint: string, now: Time)
    ensures var (s', r) := RevokeStep(s, creds, token, hint, now); var (id, secret) := RevokesAs(creds);
      && (r == Error("invalid_request") <==> token == "")
      && (r == Error("invalid_client") <==>
            token != "" && creds.clientID != "" && !Authenticated(s.clients, id, secret, now))
      && (r.Error? ==> s' == s) && (!r.Error? ==> r == Done)
      && s'.clients == s.clients && s'.codes == s.codes
  {
    hide Authenticated, MarkRevoked;
    var (id, secret) := RevokesAs(creds);
    AuthenticatedExactly(s.clients, id, secret, now);
    hide ValidClient;
  }

  /** The client named in the request owns the token, or none is named. */
  ghost predicate MayMark(s: Server, creds: Credentials, m: map<string, Token>, token: string) {
    token in m && (creds.clientID == "" ||
      (RevokesAs(creds).0 in s.clients && m[token].clientID == s.clients[RevokesAs(creds).0].id))
  }

  /**
   Unless refused, a revocation marks an access token together with the refresh tokens
   of its client and user, or else a refresh token together with their access tokens,
   as the hint allows; and nothing when there is no such token.
   */
  lemma RevocationMarksExactly(s: Server, creds: Credentials, token: string, hint: string, now: Time)
    requires RevokeStep(s, creds, token, hint, now).1 == Done
    ensures var s' := RevokeStep(s, creds, token, hint, now).0;
      if (hint == "" || hint == "access_token") && MayMark(s, creds, s.access, token) then
        var t := s.access[token];
        MarksOne(s.access, s'.access, token) && MarksAll(s.refresh, s'.refresh, t.clientID, t.userID)
      else if (hint == "" || hint == "refresh_token") && MayMark(s, creds, s.refresh, token) then
        var t := s.refresh[token];
        MarksOne(s.refresh, s'.refresh, token) && MarksAll(s.access, s'.access, t.clientID, t.userID)
      else s' == s
  {
    hide Authenticated, MarkRevoked, MarksOne, MarksAll;
    var (id, secret) := RevokesAs(creds);
    AuthenticatedExactly(s.clients, id, secret, now);
    hide ValidClient;
    if token in s.access {
      MarkedTogether(s.access, s.refresh, token);
    }
    if token in s.refresh {
      MarkedTogether(s.refresh, s.access, token);
    }
    assert creds.clientID != "" ==> Authenticated(s.clients, id, secret, now);
    AuthenticatedIsRegistered(s.clients, id, secret, now);
  }

  lemma AuthenticatedIsRegistered(clients: map<string, Client>, id: string, secret: string, now: Time)
    ensures Authenticated(clients, id, secret, now) ==> id in clients
  {
  }

  lemma MarkedTogether(m: map<string, Token>, others: map<string, Token>, token: string)
    requires token in m
    ensures var t := m[token];
      && MarksOne(m, m[token := t.(revoked := true)], token)
      && MarksAll(others, MarkRevoked(others, t.clientID, t.userID), t.clientID, t.userID)
  {
  }

  /** A cleanup keeps exactly what has not expired, unchanged. */
  lemma ExpiredGoExactly(s: Server, now: Time)
    ensures var s' := CleanupStep(s, now);
      && s'.clients == s.clients
      && (forall k :: k in s'.codes <==> k in s.codes && now <= s.codes[k].expiresAt)
      && (forall k :: k in s'.access <==> k in s.access && now <= s.access[k].expiresAt)
      && (forall k :: k in s'.refresh <==> k in s.refresh && now <= s.refresh[k].expiresAt)
      && (forall k :: k in s'.codes ==> s'.codes[k] == s.codes[k])
      && (forall k :: k in s'.access ==> s'.access[k] == s.access[k])
      && (forall k :: k in s'.refresh ==> s'.refresh[k] == s.refresh[k])
  {
  }

  // ----- An address that nobody registered -----

  /** A code asked for an address that its client did not register is refused, and nothing is stored. */
  lemma ForeignAddressIsRefused(env: Env, s: Server, p: AuthorizeParams, now: Time, draws: Draws)
    requires p.clientID in s.clients && p.redirectURI !in s.clients[p.clientID].redirectURIs
    requires forall uri :: uri in s.clients[p.clientID].redirectURIs ==> !LoopbackMatch(env, uri, p.redirectURI)
    ensures var (s', r) := AuthorizeStep(env, s, p, now, draws); s' == s && r.Error?
    ensures WellFormed(p) ==> AuthorizeStep(env, s, p, now, draws).1 == Error("invalid_redirect_uri")
  {
    AuthorizeRefusesExactly(env, s, p, now, draws);
    RegisteredAddressExactly(env, s.clients[p.clientID], p.redirectURI);
    CodeIsHandedOutExactly(env, s, p, now, draws);
  }
}
