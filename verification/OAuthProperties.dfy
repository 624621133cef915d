/** What every run of the authorization server guarantees, from an empty server on. */
module OAuthProperties {
  import opened Wrappers
  import opened OAuthState
  import opened OAuthRuns
  import opened OAuthDecisions

  // ----- Runs and their prefixes -----

  /** The world after the first `i` events. */
  function At(env: Env, start: Time, events: seq<Event>, i: nat): World
    requires i <= |events|
  {
    Run(env, Start(start), events[..i])
  }

  lemma {:induction false} RunPrefix(env: Env, w: World, events: seq<Event>, i: nat)
    requires i < |events| && Legal(env, w, events)
    ensures Legal(env, w, events[..i]) && Enabled(Run(env, w, events[..i]), events[i])
    ensures Run(env, w, events[..i + 1]) == Next(env, Run(env, w, events[..i]), events[i])
    decreases i
  {
    if i > 0 {
      RunPrefix(env, Next(env, w, events[0]), events[1..], i - 1);
      assert events[..i][1..] == events[1..][..i - 1] && events[..i + 1][1..] == events[1..][..i];
    }
  }

  lemma AtKeeps(env: Env, start: Time, events: seq<Event>, i: nat)
    requires i <= |events| && Legal(env, Start(start), events)
    ensures Inv(env, At(env, start, events, i))
    ensures i < |events| ==> Enabled(At(env, start, events, i), events[i])
    ensures i < |events| ==> At(env, start, events, i + 1) == Next(env, At(env, start, events, i), events[i])
  {
    if i < |events| {
      RunPrefix(env, Start(start), events, i);
    } else {
      assert events[..i] == events;
    }
    RunKeeps(env, Start(start), events[..i]);
  }

  /** The code handed out by `e`, when it is one. */
  ghost predicate Authorizes(env: Env, w: World, e: Event, code: string) {
    e.Serve? && e.req.Authorize? && AuthorizeStep(env, w.server, e.req.params, e.now, e.draws).1 == Code(code)
  }

  /** `e` answers with tokens in exchange for the code or refresh token `credential`. */
  ghost predicate Exchanges(env: Env, w: World, e: Event, credential: string) {
    && e.Serve? && Handle(env, w.server, e.req, e.now, e.draws).1.Tokens?
    && ((e.req.CodeGrant? && e.req.code == credential) || (e.req.RefreshGrant? && e.req.token == credential))
  }

  /** Grants, once recorded, and redemptions are never changed. */
  lemma {:induction false} HistoryGrows(env: Env, start: Time, events: seq<Event>, i: nat, j: nat)
    requires i <= j <= |events| && Legal(env, Start(start), events)
    ensures var w, w' := At(env, start, events, i), At(env, start, events, j);
      Part(w.grants, w'.grants) && w.redeemed <= w'.redeemed
    decreases j - i
  {
    if i < j {
      HistoryGrows(env, start, events, i + 1, j);
      AtKeeps(env, start, events, i);
      var w, e := At(env, start, events, i), events[i];
      hide At, Run, Legal, CodeGrantStep, RefreshGrantStep, RegisterStep, RevokeStep, ClientGrantStep;
      assert Part(w.grants, Next(env, w, e).grants) by { DrawsKeepGrants(env, w, e); }
    }
  }

  lemma DrawsKeepGrants(env: Env, w: World, e: Event)
    requires Inv(env, w) && Enabled(w, e)
    ensures Part(w.grants, Next(env, w, e).grants)
  {
    hide CodeGrantStep, RefreshGrantStep, RegisterStep, RevokeStep, ClientGrantStep, ValidateStep;
    if e.Serve? && e.req.Authorize? {
      var r := AuthorizeStep(env, w.server, e.req.params, e.now, e.draws).1;
      assert r.Code? ==> r.code !in w.grants;
    } else if e.Serve? {
      OnlyAuthorizeYieldsCodes(env, w.server, e.req, e.now, e.draws);
    }
  }

  lemma OnlyAuthorizeYieldsCodes(env: Env, s: Server, req: Request, now: Time, draws: Draws)
    ensures Handle(env, s, req, now, draws).1.Code? ==> req.Authorize?
  {
  }

  // ----- Main results -----

  ghost function Holders(w: World, code: string): set<string> {
    set r | r in w.server.refresh && r in w.origin && w.origin[r] == code
  }

  /** A grant is held by its code or by one refresh token, whatever failed on the way. */
  lemma GrantConservation(env: Env, start: Time, events: seq<Event>, code: string)
    requires Legal(env, Start(start), events)
    ensures var w := Run(env, Start(start), events);
      (if code in w.server.codes then 1 else 0) + |Holders(w, code)| <= 1
  {
    RunKeeps(env, Start(start), events);
    var w := Run(env, Start(start), events);
    var holders := Holders(w, code);
    if r :| r in holders {
      assert holders == {r};
    } else {
      assert holders == {};
    }
  }

  /** Every exchange is entered in the run's record of redemptions. */
  lemma ExchangeIsRecorded(env: Env, w: World, e: Event, credential: string)
    requires Exchanges(env, w, e, credential)
    ensures Next(env, w, e).redeemed ==
      w.redeemed + [Redemption(credential, if e.req.CodeGrant? then e.req.verifier else "")]
  {
    hide Handle;
  }

  /** A code or refresh token is exchanged for tokens at most once in a run. */
  lemma ExchangedAtMostOnce(env: Env, start: Time, events: seq<Event>, i: nat, j: nat, credential: string)
    requires Legal(env, Start(start), events) && i < j < |events|
    requires Exchanges(env, At(env, start, events, i), events[i], credential)
    ensures !Exchanges(env, At(env, start, events, j), events[j], credential)
  {
    hide At, Run, Legal, Next, Exchanges, Inv, Part;
    var w1, w2, w3 := At(env, start, events, i), At(env, start, events, j), At(env, start, events, j + 1);
    AtKeeps(env, start, events, i);
    AtKeeps(env, start, events, j);
    AtKeeps(env, start, events, j + 1);
    HistoryGrows(env, start, events, i + 1, j);
    ExchangeIsRecorded(env, w1, events[i], credential);
    assert w2.redeemed[|w1.redeemed|].credential == credential;
    if Exchanges(env, w2, events[j], credential) {
      ExchangeIsRecorded(env, w2, events[j], credential);
      RedeemedOnce(env, w3, |w1.redeemed|, |w2.redeemed|);
    }
  }

  lemma RedeemedOnce(env: Env, w: World, i: nat, j: nat)
    requires Inv(env, w) && i < j < |w.redeemed|
    ensures w.redeemed[i].credential != w.redeemed[j].credential
  {
  }

  ghost predicate IsStored(s: Server, token: string, t: Token) {
    (token in s.access && t == s.access[token]) || (token in s.refresh && t == s.refresh[token])
  }

  /** A token descends with the client, the user and no more than the scopes of what was approved. */
  lemma TokensStayWithinTheirCode(env: Env, start: Time, events: seq<Event>, i: nat, code: string, token: string)
    requires Legal(env, Start(start), events) && i < |events|
    requires Authorizes(env, At(env, start, events, i), events[i], code)
    requires var w := Run(env, Start(start), events); token in w.origin && w.origin[token] == code
    ensures var w, p := Run(env, Start(start), events), events[i].req.params;
      forall t :: IsStored(w.server, token, t) ==>
        t.clientID == p.clientID && t.userID == DEMO_USER && ScopeSet(t.scope) <= ScopeSet(p.scope)
        && t.clientID in w.server.clients
  {
    GrantIsWhatWasApproved(env, start, events, i, |events|, code);
    assert events[..|events|] == events;
    RunKeeps(env, Start(start), events);
    hide Run, Legal, Handle, ScopeSet;
  }

  // ----- Looking a client up before the rest of a request -----

  /** Registered clients are never removed or changed. */
  lemma {:induction false} ClientsStay(env: Env, start: Time, events: seq<Event>, i: nat, j: nat)
    requires i <= j <= |events| && Legal(env, Start(start), events)
    ensures Part(At(env, start, events, i).server.clients, At(env, start, events, j).server.clients)
    decreases j - i
  {
    if i < j {
      ClientsStay(env, start, events, i + 1, j);
      AtKeeps(env, start, events, i);
      EventKeepsClients(env, At(env, start, events, i), events[i]);
      hide At, Run, Legal, Next, Inv;
    }
  }

  lemma EventKeepsClients(env: Env, w: World, e: Event)
    ensures Part(w.server.clients, Next(env, w, e).server.clients)
  {
    hide Handle;
    if e.Serve? {
      RequestKeepsClients(env, w.server, e.req, e.now, e.draws);
    }
  }

  lemma RequestKeepsClients(env: Env, s: Server, req: Request, now: Time, draws: Draws)
    ensures Part(s.clients, Handle(env, s, req, now, draws).0.clients)
  {
    hide ValidClient, ScopeSet, ScopeSupported, RedirectAllowed, Verified, NewToken, RevokeStep, Effective;
    if req.Revoke? {
      RevokeOnlyMarks(s, req.creds, req.token, req.hint, now);
    }
  }

  /**
   A request that looks its client up in an earlier critical section than the rest
   is answered as one atomic step: of the later state when the client is found, for
   it is found there too, and of the earlier one when it is refused.
   */
  lemma EarlierLookup(env: Env, earlier: Server, later: Server, creds: Credentials, now: Time)
    requires Part(earlier.clients, later.clients)
    ensures var (id, secret) := Effective(creds); var client := ValidClient(earlier.clients, id, secret, now);
      if client.Some? then ValidClient(later.clients, id, secret, now) == client
      else
        && (forall code, uri, verifier, draws ::
          CodeGrantStep(env, earlier, creds, code, uri, verifier, now, draws) == (earlier, Error("invalid_client")))
        && (forall scope, draws ::
          ClientGrantStep(env, earlier, creds, scope, now, draws) == (earlier, Error("invalid_client")))
        && (forall token, scope, draws :: token != "" ==>
          RefreshGrantStep(earlier, creds, token, scope, now, draws) == (earlier, Error("invalid_client")))
  {
    hide ValidClient, Effective;
    ValidLater(earlier.clients, later.clients, Effective(creds).0, Effective(creds).1, now);
  }

  lemma ValidLater(earlier: map<string, Client>, later: map<string, Client>, id: string, secret: string, now: Time)
    requires Part(earlier, later)
    ensures ValidClient(earlier, id, secret, now).Some? ==>
      ValidClient(later, id, secret, now) == ValidClient(earlier, id, secret, now)
  {
  }

  /** The same for a revocation: refused it changes nothing, and a client accepted earlier is accepted later. */
  lemma EarlierLookupToRevoke(earlier: Server, later: Server, creds: Credentials, token: string, hint: string,
                              now: Time)
    requires Part(earlier.clients, later.clients)
    ensures var (s, r) := RevokeStep(earlier, creds, token, hint, now);
      if r.Error? then s == earlier else RevokeStep(later, creds, token, hint, now).1 == r
    ensures forall id, secret :: ValidClient(earlier.clients, id, secret, now).Some? ==>
      ValidClient(later.clients, id, secret, now) == ValidClient(earlier.clients, id, secret, now)
  {
    hide ValidClient, MarkRevoked;
    var basic := creds.clientID != "" && creds.clientSecret == "" && creds.basic.Some?;
    var (id, secret) := if basic then creds.basic.value else (creds.clientID, creds.clientSecret);
    ValidLater(earlier.clients, later.clients, id, secret, now);
    forall id, secret | ValidClient(earlier.clients, id, secret, now).Some?
      ensures ValidClient(later.clients, id, secret, now) == ValidClient(earlier.clients, id, secret, now)
    {
      ValidLater(earlier.clients, later.clients, id, secret, now);
    }
  }

  /** The same for an authorization request, which asks only whether the client is registered. */
  lemma EarlierLookupToAuthorize(env: Env, earlier: Server, later: Server, p: AuthorizeParams, now: Time, draws: Draws)
    requires Part(earlier.clients, later.clients)
    ensures if p.clientID in earlier.clients then
        p.clientID in later.clients && later.clients[p.clientID] == earlier.clients[p.clientID]
      else
        var (s, r) := AuthorizeStep(env, earlier, p, now, draws); s == earlier && r.Error?
  {
    hide ScopeSupported, RedirectAllowed;
  }

  /** Whatever is stored belongs to a registered client. */
  lemma StoredClientsAreRegistered(env: Env, start: Time, events: seq<Event>)
    requires Legal(env, Start(start), events)
    ensures var s := Run(env, Start(start), events).server;
      && (forall c :: c in s.codes ==> s.codes[c].clientID in s.clients)
      && (forall t :: t in s.access ==> s.access[t].clientID in s.clients)
      && (forall t :: t in s.refresh ==> s.refresh[t].clientID in s.clients)
  {
    RunKeeps(env, Start(start), events);
    hide Run, Legal, OneHolder, Authority, OrphansHaveNoUser, SingleUse, Proven;
  }

  lemma GrantIsWhatWasApproved(env: Env, start: Time, events: seq<Event>, i: nat, j: nat, code: string)
    requires Legal(env, Start(start), events) && i < j <= |events|
    requires Authorizes(env, At(env, start, events, i), events[i], code)
    ensures var w, p := At(env, start, events, j), events[i].req.params;
      code in w.grants && w.grants[code].clientID == p.clientID && w.grants[code].userID == DEMO_USER
      && w.grants[code].scope == p.scope && w.grants[code].challenge == p.challenge
      && w.grants[code].redirectURI == p.redirectURI && w.grants[code].expiresAt == events[i].now + 600
  {
    AtKeeps(env, start, events, i);
    HistoryGrows(env, start, events, i + 1, j);
    hide At, Run, Legal, CodeGrantStep, RefreshGrantStep, RegisterStep, RevokeStep, ClientGrantStep;
  }

  /** A code approved with a challenge is redeemed only with a verifier that hashes to it. */
  lemma ChallengeIsAnswered(env: Env, start: Time, events: seq<Event>, i: nat, j: nat, code: string)
    requires Legal(env, Start(start), events) && i < j < |events|
    requires Authorizes(env, At(env, start, events, i), events[i], code) && events[i].req.params.challenge != ""
    requires Exchanges(env, At(env, start, events, j), events[j], code)
    ensures events[j].req.CodeGrant? && env.challengeOf(events[j].req.verifier) == events[i].req.params.challenge
  {
    hide At, Run, Legal, Next, Handle, Inv, AuthorizeStep;
    GrantIsWhatWasApproved(env, start, events, i, j + 1, code);
    GrantIsWhatWasApproved(env, start, events, i, j, code);
    AtKeeps(env, start, events, j);
    AtKeeps(env, start, events, j + 1);
    var w, w', e := At(env, start, events, j), At(env, start, events, j + 1), events[j];
    ExchangeIsRecorded(env, w, e, code);
    RedemptionAnswers(env, w', |w.redeemed|);
  }

  lemma RedemptionAnswers(env: Env, w: World, i: nat)
    requires Inv(env, w) && i < |w.redeemed| && w.redeemed[i].credential in w.grants
    ensures Answers(env, w.grants[w.redeemed[i].credential].challenge, w.redeemed[i].verifier)
  {
  }

  /** An approved code, presented in time by its client with the right verifier, yields tokens of the approved scope. */
  lemma ApprovedCodeIsRedeemable(env: Env, s: Server, p: AuthorizeParams, now: Time, draws: Draws, creds: Credentials,
                                 verifier: string, later: Time, draws': Draws)
    requires AuthorizeStep(env, s, p, now, draws).1.Code?
    requires later <= now + CODE_LIFETIME && Effective(creds).0 == p.clientID
    requires ValidClient(s.clients, p.clientID, Effective(creds).1, later).Some?
    requires p.challenge != "" ==> verifier != "" && env.challengeOf(verifier) == p.challenge
    requires draws'.first.Some? && draws'.second.Some?
    ensures var (s', r) := AuthorizeStep(env, s, p, now, draws);
      var (s'', r') := CodeGrantStep(env, s', creds, r.code, p.redirectURI, verifier, later, draws');
      r'.Tokens? && r'.scope == p.scope && r.code !in s''.codes
      && s''.access[r'.access].scope == p.scope
  {
    hide ScopeSupported, RedirectAllowed;
  }

  // ----- Addresses -----

  /** The address of every grant was registered by its client, or is the loopback form of one that was. */
  ghost predicate AddressesRegistered(env: Env, clients: map<string, Client>, grants: map<string, AuthCode>) {
    forall c :: c in grants ==>
      && grants[c].clientID in clients
      && exists uri :: uri in clients[grants[c].clientID].redirectURIs &&
           (uri == grants[c].redirectURI || LoopbackMatch(env, uri, grants[c].redirectURI))
  }

  lemma MoreClientsKeepAddresses(env: Env, clients: map<string, Client>, clients': map<string, Client>,
                                 grants: map<string, AuthCode>)
    requires AddressesRegistered(env, clients, grants) && Part(clients, clients')
    ensures AddressesRegistered(env, clients', grants)
  {
  }

  lemma HandedOutCodeIsAddressed(env: Env, w: World, e: Event)
    requires AddressesRegistered(env, w.server.clients, w.grants)
    ensures AddressesRegistered(env, w.server.clients, Next(env, w, e).grants)
  {
    hide Handle, CodeGrantStep, RefreshGrantStep, RegisterStep, RevokeStep, ClientGrantStep, ValidateStep;
    if e.Serve? && Handle(env, w.server, e.req, e.now, e.draws).1.Code? {
      OnlyAuthorizeYieldsCodes(env, w.server, e.req, e.now, e.draws);
      GrantedAddress(env, w, e);
    }
  }

  lemma GrantedAddress(env: Env, w: World, e: Event)
    requires AddressesRegistered(env, w.server.clients, w.grants) && e.Serve? && e.req.Authorize?
    ensures AddressesRegistered(env, w.server.clients, Next(env, w, e).grants)
  {
    hide AuthorizeStep;
    var p := e.req.params;
    CodeIsHandedOutExactly(env, w.server, p, e.now, e.draws);
  }

  lemma {:induction false} AddressesStayRegistered(env: Env, start: Time, events: seq<Event>, i: nat)
    requires i <= |events| && Legal(env, Start(start), events)
    ensures var w := At(env, start, events, i); AddressesRegistered(env, w.server.clients, w.grants)
  {
    if i > 0 {
      AddressesStayRegistered(env, start, events, i - 1);
      AtKeeps(env, start, events, i - 1);
      var w, e := At(env, start, events, i - 1), events[i - 1];
      hide At, Run, Legal, Next, Inv, AddressesRegistered;
      HandedOutCodeIsAddressed(env, w, e);
      EventKeepsClients(env, w, e);
      MoreClientsKeepAddresses(env, w.server.clients, Next(env, w, e).server.clients, Next(env, w, e).grants);
    }
  }

  /** In every run, whatever code was handed out, its client registered the address it was handed out for. */
  lemma GrantedAddressIsRegistered(env: Env, start: Time, events: seq<Event>, code: string)
    requires Legal(env, Start(start), events) && code in Run(env, Start(start), events).grants
    ensures var w := Run(env, Start(start), events); var g := w.grants[code];
      && g.clientID in w.server.clients
      && exists uri :: uri in w.server.clients[g.clientID].redirectURIs &&
           (uri == g.redirectURI || LoopbackMatch(env, uri, g.redirectURI))
  {
    hide Run, Legal;
    AddressesStayRegistered(env, start, events, |events|);
    assert events[..|events|] == events;
  }

  /**
   A code is exchanged only by a request of the client it was approved for, which
   authenticates, that names the same address as the request that was approved, no
   later than ten minutes after it.
   */
  lemma ExchangeNamesItsAddress(env: Env, start: Time, events: seq<Event>, i: nat, j: nat, code: string)
    requires Legal(env, Start(start), events) && i < j < |events|
    requires Authorizes(env, At(env, start, events, i), events[i], code)
    requires Exchanges(env, At(env, start, events, j), events[j], code)
    ensures var p, e := events[i].req.params, events[j];
      && e.req.CodeGrant? && e.req.redirectURI == p.redirectURI && e.now <= events[i].now + 600
      && Effective(e.req.creds).0 == p.clientID
      && Authenticated(At(env, start, events, j).server.clients, p.clientID, Effective(e.req.creds).1, e.now)
  {
    hide At, Run, Legal, Next, Inv, AuthorizeStep;
    GrantIsWhatWasApproved(env, start, events, i, j, code);
    AtKeeps(env, start, events, j);
    ExchangeOfCode(env, At(env, start, events, j), events[j], code);
  }

  lemma ExchangeOfCode(env: Env, w: World, e: Event, code: string)
    requires Inv(env, w) && Exchanges(env, w, e, code) && code in w.grants
    ensures var g := w.grants[code];
      && e.req.CodeGrant? && e.req.redirectURI == g.redirectURI && e.now <= g.expiresAt
      && Effective(e.req.creds).0 == g.clientID
      && Authenticated(w.server.clients, g.clientID, Effective(e.req.creds).1, e.now)
  {
    hide CodeGrantStep, RefreshGrantStep, RegisterStep, RevokeStep, ClientGrantStep, ValidateStep, AuthorizeStep;
    hide Authenticated, Effective, RefreshIsGood;
    hide OneHolder, Authority, OrphansHaveNoUser, HoldersKnown, ClientsKnown, SingleUse, Proven;
    match e.req {
      case CodeGrant(creds, c, uri, verifier) =>
        CodeIsExchangedExactly(env, w.server, creds, c, uri, verifier, e.now, e.draws);
      case RefreshGrant(creds, token, scope) =>
        RefreshTokenIsHeld(w.server, creds, token, scope, e.now, e.draws);
      case _ =>
    }
  }

  lemma RefreshTokenIsHeld(s: Server, creds: Credentials, token: string, scope: string, now: Time, draws: Draws)
    ensures RefreshGrantStep(s, creds, token, scope, now, draws).1.Tokens? ==> token in s.refresh
  {
    hide ValidClient, ScopeSet;
  }
}
