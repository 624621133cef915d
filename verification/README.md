# Matey: verified models of its stateful core

Matey orchestrates MCP servers. This project models the parts of it that hold
state or search it, and proves what they guarantee over every input and every run:

- the configuration validator: the depth-first search for circular `depends_on`
  chains, the order it takes and how many of a graph's cycles it reports, the index
  from configuration paths to lines, and the two validators (`Dependencies`,
  `DependencyCycles`, `DependencyOrder`, `LineIndex`, `Validation`);
- the OAuth 2.1 authorization server as a state machine (`OAuthState` holds the
  step functions, `OAuthServer` the handlers proved against them, `OAuthDecisions`
  what each request is granted and refused, `OAuthRuns` the invariant of whole runs,
  `OAuthProperties`, `OAuthCleanup` and `OAuthRevocation` the theorems);
- audit storage in memory, in rotating files and in a database with a retry
  buffer (`AuditEntries`, `AuditMemory`, `AuditFile`, `AuditRotation`, `AuditQuery`,
  `AuditDatabase`, `AuditBackends`);
- the context manager's token window (`GreedySelection`, `ContextWindow`,
  `ContextOrder`);
- the task scheduler's feedback controller (`AutoScaler`) and its per-workflow
  history (`History`);
- the JSON Schema generated from configuration types (`ConfigSchema`).

Objects that the program updates in place are classes here; their methods are
proved against functions or relations on plain values, and the theorems are about
those. Where such a function decides something, a lemma says what it decides in terms
of the stored fields and the request alone, constants written out.
`dafny verify dfyconfig.toml` checks everything.

## How the outside world appears

- Time is a parameter of each operation and never decreases along a run of the
  authorization server. Each operation reads the clock once.
- Token generation is a parameter (`Draws`): each draw fails or yields a string
  not drawn before. The SHA-256 challenge is an uninterpreted function.
- A region under a lock is one atomic step. The audit flusher is the only flusher,
  and its inserts interleave freely with stores, each in two steps, and cleanups.
- An authorization request is one atomic step, although the program looks the client
  up in a critical section before that of the rest: clients are never removed or
  changed (`ClientsStay`), so such a request is answered as one step
  (`EarlierLookup`, `EarlierLookupToAuthorize`, `EarlierLookupToRevoke`). The
  client-credentials grant stores its token without the lock
  (`internal/auth/handlers.go:586`); that this is atomic is an assumption.
- `sort.Slice` returns some permutation in comparator order. Map iteration picks
  any order.
- Files are sequences of entries, the audit table is a map by identifier, and an
  insert succeeds, fails, or fails after the row was written all the same.
- Parsing of redirect addresses is a parameter; the comparison of two parsed ones is not.
- A configuration check is a verdict: it passes or gives a message.

## Where the code does less than is said or expected

Each entry names the lemma that says exactly when it happens and, where one is not
plain from that, a lemma at an input.

- `internal/config/validate.go:324` says that every dependency cycle is returned.
  The search meets one cycle for each edge back onto its stack and drops one whose
  comma-joined key it has seen. `EveryCycleExactly`: every cycle is returned if and
  only if none that is met is dropped and different cycles go up the finishing order
  by different edges. `ThreeServersHideACycle`: never among three servers that depend
  on each other. `ArcSetExactly`: the closing edges of the returned cycles meet every
  closed walk if and only if none that is met is dropped for a different one with its
  key; names without commas guarantee that, and `CommaHidesACycle` is a graph in which
  a comma makes the search miss a closed walk.
- A line is looked up by dotted path. `LookupExactly`: every place in a document is
  answered with its own line if and only if places with the same path share a line.
  `DottedKeyIsAnsweredWrongly` is a document in which a key with a dot breaks that.
- Greedy selection keeps the lexicographically greatest choice within the limit if
  and only if it leaves out nothing that later negative counts would make room for
  (`GreedyIsBestExactly`); at every limit, if and only if no negative count comes
  after the running total first becomes positive (`GreedyIsBestAtEveryLimit`).
  `LateRefundRun` is a run of the context manager in which it is not.
- `internal/audit/backend.go:21` says that a cleanup removes entries older than the
  cutoff. The memory backend also removes those exactly at the cutoff;
  `CleanupsAgreeUnlessAtCutoff` says that memory and database agree if and only if
  there are none. (The file backend keeps its active file and every backup that holds
  a recent entry.)
- A rotation under a stamp that does not sort last puts the newest entries too early or
  overwrites a backup. `RotationKeepsSuffixExactly`: in any directory, full or not, whose
  files hold something and whose entries differ, what remains is a suffix of the log if
  and only if the stamp is in order (`InOrder`: it sorts after those of all backups, or
  none are kept, or it is the latest backup's and no other stays beside it).
  `RotationKeepsAllExactly`: with room for another backup nothing is lost or moved if and
  only if the stamp sorts after those of all backups.
- Neither token validation nor the refresh grant reads the mark that revocation sets.
  `RevocationIsUnobservable`: after a revocation every later request is answered as it
  would have been without it. `RevokedTokenIsExchanged` exchanges a revoked token.

## Model

| member | source | states |
|---|---|---|
| Dependencies.FindDependencyCycles | internal/config/validate.go:327-385 | every returned slice is a cycle along `depends_on` edges that meets no server twice; no two have the same key or the same closing edge; nothing is returned exactly when a start order exists, and exactly when there is no closed walk; the closing edges meet every closed walk if and only if no cycle found is dropped for a different one with its key, as when names are free of commas; and the slices are the one answer of the search of the graph |
| Dependencies.Search | internal/config/validate.go:327-385 | the finishing order, the cycles found and those returned are those of the search of the graph, roots by name and dependencies as listed; each configured server is finished exactly once; every edge leads to a server finished earlier or closes a cycle found; each cycle found descends the finishing order but for its closing edge, one for each such edge; of the cycles found, the first with each key is returned |
| Dependencies.CycleFinder.Dfs | internal/config/validate.go:339-371 | a white server is entered next and ends up finished last, the stack is what it was, what was entered, finished and found is what exploring the server from the stack gives, and the invariants on colours, path, cycles found and report hold again |
| Dependencies.CycleFinder.VisitAll | internal/config/validate.go:342-368 | after the loop over a server's dependencies, first to last, each defined one is finished or its edge closes a cycle found, and what was entered, finished and found is what exploring them in that order gives |
| Dependencies.CycleFinder.ReportBackEdge | internal/config/validate.go:350-366 | an edge to a gray server closes a simple cycle cut from the stack at that server, the only one found for that edge; it is reported unless its key was seen |
| Dependencies.CycleFinder.Pop | internal/config/validate.go:369-370 | turning a server black keeps every invariant, since all its dependencies are settled |
| Dependencies.BackEdgeCloses | internal/config/validate.go:350-361 | a path without repetition and an edge from its end back onto it make a cycle closed by that edge |
| Dependencies.CutIsUnique | internal/config/validate.go:350-361 | while a server is on top of the stack an edge from it closes one cycle only |
| Dependencies.ClosingEdgeAscends | internal/config/validate.go:339-371 | the closing edge of a cycle found leads to no server finished earlier |
| Dependencies.UncoveredWalkDescends | internal/config/validate.go:339-371 | a walk along edges that close no cycle found moves strictly down the finishing order |
| Dependencies.FoundIsFeedbackArcSet | internal/config/validate.go:339-385 | the closing edges of the cycles found, dropped ones included, meet every closed walk |
| Dependencies.ArcSetExactly | internal/config/validate.go:324-385 | the closing edges of the returned cycles meet every closed walk if and only if no cycle found is dropped for a different one with its key |
| Dependencies.DroppedCycleIsMissed | internal/config/validate.go:362-366 | a cycle dropped for a different one is itself a closed walk that no returned cycle meets |
| Dependencies.NothingDropped | internal/config/validate.go:362-366 | keys tell the cycles found apart if and only if all of them are returned |
| DependencyCycles.EveryCycleExactly | internal/config/validate.go:324-385 | every cycle of the graph is returned if and only if no cycle found is dropped and different cycles go up the finishing order by different edges |
| DependencyCycles.CommaHidesACycle | internal/config/validate.go:362-366 | a concrete graph with a comma in a name: whatever the search returns, it misses a cycle, and its closing edges miss a closed walk |
| DependencyCycles.ThreeServersHideACycle | internal/config/validate.go:324-385 | among three servers that all depend on each other the closing edges meet every closed walk, yet the search misses a cycle |
| DependencyOrder.SearchTakesInOrder | internal/config/validate.go:339-382 | the servers are entered in one order: each as the first dependency, in listed order, not yet entered of the last server entered that has one, and when none has, as the least name left; a server finished before a later one was entered had all its dependencies entered by then |
| DependencyOrder.AnswerIsDetermined | internal/config/validate.go:327-385 | a graph has one finishing order, one sequence of cycles found and one answer |
| DependencyOrder.ReportedOnFirstSight | internal/config/validate.go:362-366 | a cycle found is returned if and only if no cycle found before it has its key, and the returned ones keep their order |
| DependencyOrder.ListedOrderCounts | internal/config/validate.go:342-368 | for a depending on b and c, b on c, and c on a, the answer is the one cycle a, b, c, a |
| DependencyOrder.CompleteGraphAnswer | internal/config/validate.go:342-368 | for three servers that all depend on each other the answer is a, b, a, then a, b, c, a, then b, c, b |
| Sorting.SortedNamesAreUnique | internal/config/validate.go:373-377 | a set of names has one sorted sequence |
| Sorting.LessIsLexicographic | internal/config/validate.go:377 | names compare at their first difference, and a proper prefix comes first |
| Dependencies.NothingReportedMeansStartOrder | internal/config/validate.go:324-385 | nothing is returned exactly when the servers can be put in dependency order, and exactly when the graph is acyclic |
| Dependencies.StartOrderMeansAcyclic | internal/config/validate.go:324-385 | a start order and a closed walk exclude each other |
| Strings.JoinIsInjective | internal/config/validate.go:362 | comma-joined keys of names without commas determine the names |
| Dependencies.CommaFreeKeysIdentifyCycles | internal/config/validate.go:362 | if no configured name has a comma, different cycles have different keys |
| LineIndex.Index.Lookup | internal/config/validate.go:63-86 | terminates with the line of the longest indexed prefix of the path that ends before a dot (or the path itself, or the empty path), and 0 when none is indexed |
| LineIndex.Index.IndexNode | internal/config/validate.go:105-126 | the recursive traversal adds to the index exactly what the recursive function on trees says |
| LineIndex.Index.Build | internal/config/validate.go:90-103 | indexes the content below the document node, or nothing without a root |
| LineIndex.LookupExactly | internal/config/validate.go:63-126 | for every document: looking up the path of any address gives that address's own line if and only if addresses with the same path share a line |
| LineIndex.LookupRoundTrip | internal/config/validate.go:63-126 | in particular for trees with unique keys that are not empty and free of dots and brackets, whose distinct addresses have distinct paths |
| LineIndex.DottedKeyIsAnsweredWrongly | internal/config/validate.go:63-126 | a concrete document in which a key with a dot makes lookup answer one address with another's line |
| LineIndex.IndexedPathsAreAddresses | internal/config/validate.go:90-126 | for every document the indexed paths are the paths of its addresses, no more and no fewer |
| LineIndex.AddressIsIndexed | internal/config/validate.go:105-126 | the path of every address is indexed, whatever was indexed before |
| LineIndex.HeldLineIsAddressed | internal/config/validate.go:105-126 | indexing changes a path, if at all, to the line of an address that has this path |
| LineIndex.OneLineForEachAddress | internal/config/validate.go:105-126 | with unique keys an address leads to one line |
| LineIndex.RenderIsInjective | internal/config/validate.go:105-126 | addresses made of plain keys and positions render as different dotted paths |
| LineIndex.DecimalIsInjective | internal/config/validate.go:120-124 | different positions in a sequence print differently |
| LineIndex.BestLineIsUnique | internal/config/validate.go:63-86 | the line that lookup must return is determined by the index and the path |
| LineIndex.AncestorsExactly | internal/config/validate.go:63-86 | lookup tries the path, the empty path, and what comes before each dot of the path |
| LineIndex.KeyLeadsExactly | internal/config/validate.go:108-118 | a key leads to the value of each pair with that key, on the line of the key, and a longer address goes on from there |
| LineIndex.PositionLeadsExactly | internal/config/validate.go:119-124 | a position leads to the element there, on its line, and a longer address goes on from there |
| LineIndex.RenderedPaths | internal/config/validate.go:112-121 | in a dotted path keys are joined by dots and positions stand in brackets |
| LineIndex.DecimalReadsBack | internal/config/validate.go:121 | a position is printed as the digits that stand for it, without leading zeros |
| Validation.CollectValidationErrors | internal/config/validate.go:224-284 | the list is empty exactly when every check passes, every dependency is defined and the graph is acyclic; it contains each problem at which validation of any server stops; its circular dependencies are cycles of the graph, exactly those of a search, and with names free of commas their closing edges meet every closed walk; each error carries the line that lookup gives its path |
| Validation.CollectReport | internal/config/validate.go:224-284 | the problems come in order: version, servers by sorted name with all their problems, the cycles that a search of the graph returned, global checks; each names the file, its path and its line |
| Validation.CyclesOfReport | internal/config/validate.go:272-277 | a circular dependency is reported if and only if it is one of the cycles returned |
| Validation.ReportIsComplete | internal/config/validate.go:224-284 | for any cycles that are empty exactly on acyclic graphs, the report is empty exactly when the configuration passes and is acyclic, and it holds the first problem of every server |
| Validation.ValidateConfig | internal/config/config.go:782-834 | succeeds exactly when every check passes, whatever the order of the servers; otherwise returns the version problem, the first problem of some server, or, when no server has one, the global one |
| Validation.FirstServerProblem | internal/config/config.go:794-826 | the checks of one server pass exactly when every one of its verdicts does and its dependencies are defined, and otherwise stop at the first problem the full report lists for it |
| Validation.NoServerProblems | internal/config/validate.go:236-268 | the servers contribute nothing exactly when each of them has no problem, and no problem of any is lost |
| Validation.ServerProblemsExactly | internal/config/validate.go:241-268 | the problems of a server are exactly its failed checks, each with its message, and the dependencies that are not configured |
| Validation.ServerProblemsInOrder | internal/config/validate.go:245-267 | they come in the order of the checks, undefined dependencies second |
| Validation.UndefinedInOrder | internal/config/validate.go:248-252 | undefined dependencies are reported in listed order |
| Validation.ServersInOrder | internal/config/validate.go:241-268 | the problems of the servers follow each other as the names do |
| Validation.ServerPathsExactly | internal/config/validate.go:243-276 | each problem of a server is located at the part of its configuration that it is about |
| Validation.GlobalPathsExactly | internal/config/validate.go:304-320 | a global problem is located by the first of four words that its message holds |
| Validation.ContainsExactly | internal/config/validate.go:304-320 | a message holds a word exactly when it is something, the word and something again |
| OAuthServer.AuthorizationServer.RegisterClient | internal/auth/oauth.go:368-472 | response and new state are those of the registration step |
| OAuthServer.AuthorizationServer.ValidateClient | internal/auth/oauth.go:565-592 | a client is accepted exactly when it is registered and public, or registered with that secret and not expired |
| OAuthServer.AuthorizationServer.IsLoopbackURIMatch | internal/auth/handlers.go:824-860 | two addresses match if and only if both parse as plain HTTP on localhost or 127.0.0.1 with the same path and query, whatever the ports |
| OAuthServer.AuthorizationServer.ValidateRedirectURI | internal/auth/handlers.go:808-822 | accepts an address if and only if it is registered for the client or is the loopback equivalent of one that is |
| OAuthServer.AuthorizationServer.ValidateScope | internal/auth/handlers.go:862-880 | accepts exactly the scopes whose every word is supported, or any when `mcp:*` is supported |
| OAuthServer.AuthorizationServer.IsScopeSubset | internal/auth/handlers.go:882-894 | decides inclusion of the two sets of scopes |
| OAuthServer.AuthorizationServer.HandleAuthorize | internal/auth/handlers.go:13-218 | response and new state are those of the authorization step, whose grants and refusals CodeIsHandedOutExactly and AuthorizeRefusesExactly spell out; only an approved request stores a code |
| OAuthServer.AuthorizationServer.HandleAuthorizationCodeGrant | internal/auth/handlers.go:426-548 | response and new state are those of the code-grant step: which refusals leave the code, which delete it, and what a failing generator leaves behind |
| OAuthServer.AuthorizationServer.HandleClientCredentialsGrant | internal/auth/handlers.go:550-610 | response and new state are those of the client-credentials step |
| OAuthServer.AuthorizationServer.HandleRefreshTokenGrant | internal/auth/handlers.go:612-739 | response and new state are those of the refresh step: the old token is gone before the new pair is drawn, whatever the draws |
| OAuthServer.AuthorizationServer.FindRefreshToken | internal/auth/handlers.go:641-655 | the scan finds the stored token of that value exactly when it belongs to the client |
| OAuthServer.AuthorizationServer.GenerateAccessToken | internal/auth/handlers.go:765-785 | a draw stores one token that lives an hour; a failed draw stores nothing |
| OAuthServer.AuthorizationServer.GenerateRefreshToken | internal/auth/handlers.go:787-806 | a draw stores one token that lives seven days; a failed draw stores nothing |
| OAuthServer.AuthorizationServer.ValidateAccessToken | internal/auth/oauth.go:484-507 | active exactly when stored and unexpired; reports when a delayed deletion starts |
| OAuthServer.AuthorizationServer.DeleteAccessToken | internal/auth/oauth.go:495-501 | the delayed deletion removes one access token and nothing else |
| OAuthServer.AuthorizationServer.CleanupExpiredTokens | internal/auth/oauth.go:528-554 | removes exactly the expired codes and tokens, in whatever order the maps yield them |
| OAuthServer.AuthorizationServer.HandleRevoke | internal/auth/handlers.go:1033-1130 | marks the token of the hinted kind when the caller may, with every token of the other kind of the same client and user |
| OAuthDecisions.CodeIsHandedOutExactly | internal/auth/handlers.go:13-218 | a response is a code if and only if the client is registered, an address registered for it equals the requested one or matches it by loopback, it may ask for this response type, every word of the scope is supported or `mcp:*` is, the challenge method is S256 or missing, and a POST approves and a code is drawn; the code lasts ten minutes and carries what was asked for, and without it nothing changes |
| OAuthDecisions.AuthorizeRefusesExactly | internal/auth/handlers.go:13-218 | each refusal of an authorization request, and the approval page, is given if and only if its check fails and all checks before it pass |
| OAuthDecisions.ForeignAddressIsRefused | internal/auth/handlers.go:52-59 | a request for an address that its client did not register is refused as such and stores nothing |
| OAuthDecisions.LoopbackExactly | internal/auth/handlers.go:824-860 | that match is symmetric and never leads off this host |
| OAuthDecisions.RegisteredAddressExactly | internal/auth/handlers.go:808-822 | an address is allowed if and only if it is registered for the client or the loopback form of one that is |
| OAuthDecisions.RegisteredExactly | internal/auth/oauth.go:368-472 | a client is registered if and only if its name is given or drawn and not in use, its addresses are absolute, and, unless public, its secret is given or drawn; with the default grants, response types and a secret of one year |
| OAuthDecisions.AuthenticatedExactly | internal/auth/oauth.go:565-592 | a client authenticates if and only if it is registered and public, or presents its own secret before that expires |
| OAuthDecisions.CredentialsExactly | internal/auth/handlers.go:433-441 | the Basic credentials count when the form lacks a name or a secret |
| OAuthDecisions.CodeIsExchangedExactly | internal/auth/handlers.go:426-548 | a code is exchanged if and only if its client authenticates, before it expires, for the address it was asked for, with a verifier that hashes to the challenge if there is one, and the tokens are drawn; it is then gone, and the tokens carry its user and scope for an hour and seven days (sections 4.1.3 of RFC 6749 and 4.6 of RFC 7636) |
| OAuthDecisions.RefusedExchangeLeaves | internal/auth/handlers.go:426-548 | a refused exchange gives the error of the first check that fails, deletes only an expired code, and leaves an access token behind only when the refresh token is not drawn |
| OAuthDecisions.ClientIsGrantedExactly | internal/auth/handlers.go:550-610 | a client is granted a token of its own, without user, if and only if it authenticates, may use the grant and asks for a supported scope; otherwise the first failing check is named and nothing changes |
| OAuthDecisions.RefreshIsExchangedExactly | internal/auth/handlers.go:612-739 | a refresh token is exchanged if and only if its client authenticates, holds it unexpired, asks for words of its scope only, and both draws succeed; a good token is gone in any case |
| OAuthDecisions.RefusedRefreshLeaves | internal/auth/handlers.go:612-715 | a refused refresh gives the error of the first check that fails; what it deletes and leaves behind |
| OAuthDecisions.ActiveExactly | internal/auth/oauth.go:484-507 | a token is active if and only if it is stored with an expiry that is not past |
| OAuthDecisions.RevocationIsRefusedExactly | internal/auth/handlers.go:1033-1078 | a revocation is refused if and only if it names no token, or a client that does not authenticate |
| OAuthDecisions.RevocationMarksExactly | internal/auth/handlers.go:1080-1122 | which tokens a revocation marks, for every hint; nothing else changes |
| OAuthDecisions.ExpiredGoExactly | internal/auth/oauth.go:528-554 | a cleanup keeps exactly what has not expired, unchanged |
| OAuthDecisions.FieldsExactly | internal/auth/handlers.go:862-863 | the words of a scope are its longest runs without space |
| OAuthDecisions.SupportedExactly | internal/auth/handlers.go:862-880 | a scope is supported if and only if each of its words is, or `mcp:*` is |
| OAuthDecisions.SubsetExactly | internal/auth/handlers.go:882-894 | a scope is within another if and only if each of its words is a word of the other |
| OAuthRuns.RunKeeps | internal/auth/handlers.go:13-894 | every reachable state satisfies the run invariant: grants recorded, one holder per grant, authority within the grant, holders registered, redeemed credentials gone for good, challenges answered |
| OAuthRuns.NextKeeps | internal/auth/handlers.go:13-894 | each request, cleanup or delayed deletion keeps the run invariant |
| OAuthRuns.CodeGrantKeeps | internal/auth/handlers.go:426-548 | the code grant keeps the invariant on every path, failing generators included |
| OAuthRuns.RefreshGrantKeeps | internal/auth/handlers.go:612-739 | the refresh grant keeps the invariant on every path, failing generators included |
| OAuthRuns.DrawsKeep | internal/auth/oauth.go:227-245 | a fresh draw is nowhere in use |
| OAuthProperties.GrantConservation | internal/auth/handlers.go:451-524 | at the end of any run, the code if still stored plus the stored refresh tokens descended from it number at most one (section 4.1.2 of RFC 6749) |
| OAuthProperties.ExchangedAtMostOnce | internal/auth/handlers.go:451-739 | in any run a code or refresh token is exchanged for tokens at most once (section 4.1.2 of RFC 6749) |
| OAuthProperties.TokensStayWithinTheirCode | internal/auth/handlers.go:412-739 | however many refreshes, a stored token descended from a code has the client, the user and no more than the scopes that were approved, and its client is registered (section 6 of RFC 6749) |
| OAuthProperties.StoredClientsAreRegistered | internal/auth/handlers.go:451-806 | at the end of any run every stored code and token belongs to a registered client |
| OAuthProperties.GrantIsWhatWasApproved | internal/auth/handlers.go:154-218 | what a run records for a code never departs from the approved request: client, user, scope, challenge, address, and an expiry ten minutes later |
| OAuthProperties.GrantedAddressIsRegistered | internal/auth/handlers.go:52-59 | in every run, whatever code was handed out, its client registered the address it was handed out for, or one that it is the loopback form of |
| OAuthProperties.ExchangeNamesItsAddress | internal/auth/handlers.go:463-498 | in every run a code is exchanged only by a code grant of the client it was approved for, authenticated, that names the address of the approved request, at most ten minutes after it (section 4.1.3 of RFC 6749) |
| OAuthProperties.ChallengeIsAnswered | internal/auth/handlers.go:486-498 | a code approved with a challenge is exchanged only by a code grant whose verifier hashes to it (section 4.6 of RFC 7636) |
| OAuthProperties.ApprovedCodeIsRedeemable | internal/auth/handlers.go:426-548 | authorize then exchange: an approved code presented in time by its client, with the right address and verifier, yields tokens of the approved scope and uses the code up |
| OAuthProperties.HistoryGrows | internal/auth/handlers.go:13-739 | along a run recorded grants and redemptions are never changed |
| OAuthProperties.ClientsStay | internal/auth/oauth.go:368-482 | along a run registered clients are never removed or changed |
| OAuthProperties.EarlierLookup | internal/auth/handlers.go:443-633 | a grant that looks its client up earlier than the rest is answered as one atomic step: of the later state if the client is accepted, since the same client is accepted there, and of the earlier one, unchanged, if it is refused |
| OAuthProperties.EarlierLookupToRevoke | internal/auth/handlers.go:1060-1078 | the same for a revocation: refused it changes nothing, and a client accepted earlier is accepted later |
| OAuthProperties.EarlierLookupToAuthorize | internal/auth/handlers.go:43-50 | the same for an authorization request |
| OAuthCleanup.CleanupIsUnobservableFromStart | internal/auth/oauth.go:484-554 | over any run of the modelled requests, revocations included, a server that cleans up and deletes whenever it likes answers with the same tokens and error codes as one that never deletes an expired entry; error descriptions, the listing of tokens and their counts are not compared |
| OAuthCleanup.CleanupIsUnobservable | internal/auth/oauth.go:484-554 | the same from any two states that differ only in expired entries and in revoked marks |
| OAuthCleanup.RequestAlike | internal/auth/oauth.go:484-592 | one request gets the same tokens or error code from both servers, and leaves them differing only in expired entries and in revoked marks |
| OAuthCleanup.PendingStaysDead | internal/auth/oauth.go:484-507 | a token whose delayed deletion is under way is never alive again, so deleting it late does no harm |
| OAuthRevocation.MarksAreUnobservable | internal/auth/handlers.go:612-739 | servers that differ only in revoked marks answer every sequence of requests, cleanups and delayed deletions alike, so a revoked token is accepted exactly when the unmarked one would be |
| OAuthRevocation.RevocationIsUnobservable | internal/auth/handlers.go:1033-1130 | after a revocation every later request gets the tokens or error code it would have got without it |
| OAuthRevocation.RevokedTokenIsExchanged | internal/auth/handlers.go:641-715 | a refresh token that anyone has revoked is exchanged for new tokens by its client |
| OAuthRevocation.RequestAlike | internal/auth/handlers.go:426-739 | one request is answered alike by servers that differ only in revoked marks, and leaves them so |
| OAuthRevocation.RunAnswers | internal/auth/oauth.go:484-554 | the responses of a run are determined by the server it starts from |
| AuditEntries.Paginate | internal/audit/helpers.go:35-54 | the page is the entries from the offset on, as many as limit allows and there are, with the full count; a negative limit is no limit and a negative offset none |
| AuditEntries.PagesCoverEverything | internal/audit/helpers.go:35-54 | consecutive pages join to everything from the offset on |
| AuditEntries.SelectMembers | internal/audit/helpers.go:5-29 | selection keeps exactly the entries that match the filter |
| AuditEntries.MatchesExactly | internal/audit/helpers.go:5-29 | an entry matches if and only if it meets every field of the filter that constrains |
| AuditEntries.ScanNewestFirst | internal/audit/memory_backend.go:40-53 | the reverse scan gives the matching entries, newest first |
| AuditEntries.ComputeStats | internal/audit/helpers.go:57-76 | the events counted are exactly those that occur, each with its number of occurrences, and the rate is the percentage of successes |
| AuditMemory.MemoryBackend.Store | internal/audit/memory_backend.go:28-38 | the slice holds the last maxEntries of what it held and the new entry |
| AuditMemory.MemoryBackend.Query | internal/audit/memory_backend.go:40-53 | answers as the simple log does |
| AuditMemory.MemoryBackend.Cleanup | internal/audit/memory_backend.go:62-75 | filtering in place over its own backing array keeps exactly the entries after the cutoff, in order |
| AuditMemory.HoldsTheNewest | internal/audit/memory_backend.go:28-38 | after any run of stores the backend holds exactly the newest maxEntries, in order |
| Seqs.LastNIsTheEnd | internal/audit/memory_backend.go:33-35 | trimming leaves an end of the sequence, as long as the limit allows |
| AuditMemory.CleanupKeepsTheNewer | internal/audit/memory_backend.go:62-75 | an entry survives exactly when its time is after the cutoff |
| AuditMemory.CleanupLeavesTheEnd | internal/audit/memory_backend.go:62-75 | if entries were stored in time order, what is left is the end of the log |
| AuditFile.FileBackend.Store | internal/audit/file_backend.go:89-122 | a line that fits, or that comes to an empty file, is appended and leaves the backups as they were; otherwise the active file becomes a backup, the backups are pruned and the line opens a new file |
| AuditFile.FileBackend.Rotate | internal/audit/file_backend.go:124-143 | the active file becomes a backup under the new stamp, the backups are pruned and the new active file is empty |
| AuditFile.FileBackend.PruneBackups | internal/audit/file_backend.go:145-163 | the oldest backups beyond maxBackups are removed, and only those |
| AuditFile.FileBackend.SortedBackups | internal/audit/file_backend.go:145-155 | the sorted file names are the one ascending listing of the backups |
| AuditFile.FileBackend.ReadAll | internal/audit/file_backend.go:202-223 | backups oldest first, then the active file |
| AuditFile.FileBackend.Query | internal/audit/file_backend.go:168-185 | answers as the simple log does on what all files hold |
| AuditFile.FileBackend.Cleanup | internal/audit/file_backend.go:264-292 | removes exactly the backups whose newest entry predates the cutoff |
| AuditFile.FileLogIsSuffix | internal/audit/file_backend.go:89-292 | every run of stores, rotations, prunings and cleanups, each rotation under a stamp in order, keeps a suffix of the stored sequence, at most maxBackups backups, a size that is the active file's, and files within the limit or of one line |
| AuditFile.StartIsSound | internal/audit/file_backend.go:35-61 | an empty log satisfies that invariant |
| AuditFile.StoreKeeps | internal/audit/file_backend.go:89-163 | a store, with or without rotation and pruning, keeps the file invariant |
| AuditFile.CleanupKeeps | internal/audit/file_backend.go:264-292 | a cleanup keeps the file invariant: the outdated backups are the first ones |
| AuditFile.RotationKeepsSuffix | internal/audit/file_backend.go:124-163 | a rotation under a stamp in order keeps a suffix of the history |
| AuditFile.RotationKeepsSuffixExactly | internal/audit/file_backend.go:124-163 | in any directory whose files hold something and whose entries differ, a rotation leaves a suffix of the log if and only if its stamp is in order: after those of all backups, or no backup is kept, or it is the latest backup's and no other stays beside it |
| AuditFile.RotationKeepsAllExactly | internal/audit/file_backend.go:124-163 | with room for another backup, files that hold something and entries that differ, a rotation keeps the whole log in order if and only if its stamp sorts after those of all backups |
| AuditFile.CleanupSparesTheRecent | internal/audit/file_backend.go:264-292 | a cleanup leaves every backup that holds an entry at or after the cutoff as it was, and the active file with its size |
| AuditFile.CleanupRemovesExactly | internal/audit/file_backend.go:264-292 | a backup goes if and only if it holds a dated entry and nothing at or after the cutoff; the others are unchanged |
| AuditFile.RemovalDropsFront | internal/audit/file_backend.go:145-163 | removing the first backups of the listing drops exactly what they hold from the front of the log |
| AuditFile.ListingIsUnique | internal/audit/file_backend.go:145-155 | a set of names has one ascending listing |
| AuditRotation.BackupsAreFull | internal/audit/file_backend.go:97-103 | in every run, cleanups and reused stamps included, each backup together with the first line of the file after it exceeds the size limit |
| AuditRotation.SmallLogIsKept | internal/audit/file_backend.go:89-163 | a run whose entries one file can hold keeps them all in the active file, whatever the stamps and cutoffs |
| AuditRotation.LosesOnlyWhenFull | internal/audit/file_backend.go:89-163 | stores under ascending stamps lose an entry only when the backups are as many as allowed and what is kept exceeds half of what they may hold; a history of at most half that size is kept whole |
| AuditRotation.PruningKeepsTheLatest | internal/audit/file_backend.go:145-163 | after pruning the latest backups are left, as many as allowed, unchanged |
| AuditRotation.StorePacks | internal/audit/file_backend.go:97-122 | a store keeps every closed file full |
| AuditRotation.CleanupPacks | internal/audit/file_backend.go:264-292 | so does a cleanup |
| AuditQuery.BuildWhereClause | internal/audit/database_backend.go:281-322 | for every filter and entry the compiled clause with its arguments holds exactly when matchesFilter does; placeholders are $1 to $n in argument order |
| AuditQuery.BuildStatement | internal/audit/database_backend.go:239-262 | the LIMIT and OFFSET placeholders name the limit and the offset, each present exactly when the query has one, and the clause keeps its meaning |
| AuditQuery.OneMoreCondition | internal/audit/database_backend.go:288-291 | one more condition and argument means the old clause and that comparison |
| AuditQuery.DatabaseAnswersAsLog | internal/audit/database_backend.go:239-276 | whatever rows a database may return for the statement, over a table that holds a log they are the page of the log that the query names, and the count is the total |
| AuditQuery.CountIsLength | internal/audit/database_backend.go:242-246 | the counted rows are as many as the matching rows |
| AuditQuery.DescendingIsUnique | internal/audit/database_backend.go:248-251 | strictly descending times leave the database one order |
| AuditDatabase.DatabaseBackend.Store | internal/audit/database_backend.go:153-164 | a store tries an insert and, if it fails, buffers the entry: two steps, between which others may come in the interleavings below |
| AuditDatabase.DatabaseBackend.InsertOne | internal/audit/database_backend.go:118-151 | an insert leaves an existing row as it is, and may fail after the row was written |
| AuditDatabase.InsertAdds | internal/audit/database_backend.go:118-151 | a failed insert that wrote nothing changes nothing; any other leaves a row under the identifier, the one that was there or the entry |
| AuditDatabase.DatabaseBackend.BufferEntry | internal/audit/database_backend.go:166-178 | the buffer is the last 1024 of what it held and the entry |
| AuditDatabase.DatabaseBackend.TakePending | internal/audit/database_backend.go:199-208 | the flusher takes the whole buffer and leaves it empty |
| AuditDatabase.DatabaseBackend.PutBack | internal/audit/database_backend.go:217-226 | the failed rest goes back in front of what arrived meanwhile, trimmed to the last 1024 |
| AuditDatabase.DatabaseBackend.FlushBuffer | internal/audit/database_backend.go:199-237 | an undisturbed flush inserts a prefix of the buffer, stops at the first failure, keeps the rest in order and changes no existing row |
| AuditDatabase.StepRefinesQueue | internal/audit/database_backend.go:153-237 | every step of the two-part buffer is a step of one queue: buffered entries join at the back, inserts leave at the front, trimming keeps the newest 1024 |
| AuditDatabase.FlushInterleaved | internal/audit/database_backend.go:199-237 | during one flush, under any interleaving of inserts, bufferings and cleanups, what arrived is the buffered entries in order and what remains is the batch without its inserted prefix |
| AuditDatabase.PutBackKeepsTheNewest | internal/audit/database_backend.go:166-237 | after a failed flush under any interleaving the buffer is the last 1024 of the entries not inserted followed by everything buffered since the batch was taken, in arrival order, even if it overflowed meanwhile |
| AuditDatabase.StoresAreConserved | internal/audit/database_backend.go:118-237 | at every point of every interleaving each store begun has finished or is between its two steps; each finished one is a row, buffered, in the flusher's batch, dropped, or its row was cleaned up; at most 2048 entries wait |
| AuditDatabase.StepConserves | internal/audit/database_backend.go:153-237 | a step loses no entry, and drops one only when it leaves the buffer full |
| AuditDatabase.RowIsTheStoredEntry | internal/audit/database_backend.go:118-123 | with unique identifiers the row of a stored entry is that entry, however often it was inserted |
| AuditBackends.BackendsAgree | internal/audit/backend.go:12-29 | with distinct identifiers, increasing times and nothing evicted, memory, files and database return the same entries and total for every filter, limit and offset; the database after any run, failed inserts and flushes included, that has drained its retry buffer without dropping or cleaning up anything |
| AuditBackends.DrainedHoldsLog | internal/audit/database_backend.go:153-237 | after any such run the table holds exactly the stored entries |
| AuditBackends.StoresAreDrained | internal/audit/database_backend.go:153-164 | stores that all succeed are such a run |
| AuditBackends.StoresFillTheTable | internal/audit/database_backend.go:153-164 | successful stores of entries with distinct identifiers leave a table that holds exactly the log |
| AuditBackends.PagesJoin | internal/audit/helpers.go:35-54 | for a positive limit the pages concatenate to the whole filtered log, newest first |
| AuditBackends.CleanupsAgreeUnlessAtCutoff | internal/audit/memory_backend.go:62-75 | after a cleanup the memory backend and the table still hold the same entries if and only if no entry was exactly at the cutoff |
| GreedySelection.SelectItemsWithinTokenLimit | internal/context/manager.go:420-432 | selects exactly the items that the greedy choice keeps, within the limit |
| GreedySelection.GreedyIsBestExactly | internal/context/manager.go:420-432 | for any counts and limit, the greedy choice is lexicographically greatest within the limit if and only if every item it leaves out would exceed the limit even with all later negative counts |
| GreedySelection.GreedyIsBestAtEveryLimit | internal/context/manager.go:420-432 | it is so at every non-negative limit if and only if no negative count comes after the running total of the listed counts first becomes positive |
| GreedySelection.NoRefundsNoRegret | internal/context/manager.go:420-432 | with non-negative counts it always is |
| GreedySelection.NothingOmittedFits | internal/context/manager.go:420-432 | with non-negative counts no item left out would still fit |
| GreedySelection.GreedyFits | internal/context/manager.go:420-432 | the greedy choice is within the limit whatever the sign of the counts |
| ContextWindow.LateRefundRun | internal/context/manager.go:81-145 | a manager with a limit of 4 and an estimator with a negative count, after two additions: its window misses the newer item, though a choice with it is within the limit |
| ContextWindow.LateRefundBreaksGreed | internal/context/manager.go:107-145 | whatever windows the two additions leave, the last misses the newer item |
| ContextWindow.TakeGroupsFits | internal/context/manager.go:345-387 | truncation by type stays within the limit |
| ContextWindow.TakeGroupsMembers | internal/context/manager.go:345-387 | truncation by type takes items of its groups, none twice |
| ContextWindow.TypesByPriority | internal/context/manager.go:492-503 | each type with a priority once, from the highest down |
| ContextWindow.ContextManager.TruncateByType | internal/context/manager.go:345-387 | the window by type is the prefixes that fit of the sorted groups, from the highest type down, and part of what is stored |
| ContextWindow.ContextManager.ApplyTruncationStrategy | internal/context/manager.go:310-418 | for each strategy the selection is the greedy choice in that strategy's order, or the choice by type |
| ContextWindow.ContextManager.UpdateWindow | internal/context/manager.go:285-308 | the rebuilt window is a duplicate-free copy of part of the stored items within the limit, its total is their sum, and it is marked truncated exactly when something was left out |
| ContextWindow.ContextManager.AddContext | internal/context/manager.go:107-145 | adds or updates the item and leaves a fresh window |
| ContextWindow.ContextManager.GetContext | internal/context/manager.go:148-162 | counts the access in the stored item and leaves the window's copies alone |
| ContextWindow.ContextManager.RemoveContext | internal/context/manager.go:219-226 | removes the item and leaves a fresh window |
| ContextWindow.ContextManager.RemoveContextByFile | internal/context/manager.go:228-240 | removes exactly the items of the file, in whatever order the map yields them, and leaves a fresh window |
| ContextWindow.ContextManager.CleanupExpired | internal/context/manager.go:242-256 | removes exactly the items neither created nor used since the cutoff and leaves a fresh window |
| ContextWindow.ContextManager.UpdateMaxTokens | internal/context/manager.go:537-551 | a limit below the window's total rebuilds the window; any other leaves its items as they are |
| ContextWindow.RunKeepsWindow | internal/context/manager.go:107-308 | at every point of every run of operations the window's total is the sum over its items and at most a non-negative limit, and after every operation but a read, or a limit that the window meets, the window is a fresh choice from what is stored |
| ContextWindow.StepKeepsSound | internal/context/manager.go:107-308 | each operation keeps identifiers, totals and the limit in agreement |
| ContextWindow.FreshWindowIsGreatest | internal/context/manager.go:310-432 | for every strategy but by_type a fresh window is the greedy choice from all stored items, newest first for "oldest", last used first for "lru", highest priority first for "intelligent" and "by_priority", for the latter last used first among equals; so it is lexicographically greatest exactly under the condition above; with non-negative counts it always is, and nothing omitted fits |
| ContextWindow.ShorterMeansTruncated | internal/context/manager.go:303-304 | comparing lengths decides whether a stored item is missing from the window |
| ContextOrder.LeftOutForEarlier | internal/context/manager.go:326-432 | with non-negative counts an item is left out of a fresh window only if it does not fit beside the items of the window that come no later in the strategy's order |
| ContextOrder.FirstStays | internal/context/manager.go:326-432 | with non-negative counts the item that comes strictly first, the most recently used under "lru", is in every fresh window that it fits alone |
| ContextOrder.FreshWindowByType | internal/context/manager.go:345-387 | under "by_type" a fresh window goes through the types that have a priority, from the highest down, and of each takes the stored items, highest priority first and last used among equals, up to the first that does not fit, until the budget is met |
| ContextOrder.TakenParts | internal/context/manager.go:355-384 | how much of each group is taken, and where the budget ends the search |
| ContextOrder.SkippedDidNotFit | internal/context/manager.go:420-432 | an item that the scan skips does not fit beside what was kept before it, whatever the sign of the counts |
| ContextOrder.AddExactly | internal/context/manager.go:107-145 | adding stores one item; known content counts a use and keeps its time, type and path |
| ContextOrder.OtherOperationsExactly | internal/context/manager.go:148-256 | what reading, removing and expiring do to each stored item |
| ContextOrder.StepExactly | internal/context/manager.go:107-308 | which operations rebuild the window, and that only a rebuild under "intelligent" changes priorities |
| AutoScaler.TaskScheduler.CalculateDesiredConcurrency | internal/controllers/mcptaskscheduler_controller.go:1116-1148 | the desired limit is the clamped step function, whose size StepIsAQuarter spells out |
| AutoScaler.TaskScheduler.HandleAutoScaling | internal/controllers/mcptaskscheduler_controller.go:1064-1113 | the new limit is that of the running tasks, capped to 2147483647, fed back |
| AutoScaler.ConvergesWithoutOscillating | internal/controllers/mcptaskscheduler_controller.go:1104-1148 | under a constant load of at least 1 and bounds from 1 up, the fed-back limit moves one way only and rests after at most max - min steps following the first, in the band, or at a bound the load pushes against, or below 4 and overloaded; for any target |
| AutoScaler.FixedPoints | internal/controllers/mcptaskscheduler_controller.go:1116-1148 | the controller leaves a limit alone if and only if it is one of those |
| AutoScaler.UpIsNotFollowedByDown | internal/controllers/mcptaskscheduler_controller.go:1116-1148 | a step up is not followed by a step down |
| AutoScaler.DownIsNotFollowedByUp | internal/controllers/mcptaskscheduler_controller.go:1116-1148 | a step down is not followed by a step up |
| AutoScaler.NeverTurnsRound | internal/controllers/mcptaskscheduler_controller.go:1104-1148 | over any number of steps the limit stays in bounds and keeps its direction |
| AutoScaler.MovesOrRests | internal/controllers/mcptaskscheduler_controller.go:1104-1148 | until it rests, the limit moves by at least one each step |
| AutoScaler.Thresholds | internal/controllers/mcptaskscheduler_controller.go:1125-1136 | the utilization tests compare 100 and 200 times the load with target times limit |
| AutoScaler.StepIsAQuarter | internal/controllers/mcptaskscheduler_controller.go:1116-1148 | from a positive limit, unless a bound stops it, the limit grows by a quarter rounded down when 100 loads exceed target limits, shrinks by a quarter rounded up when 200 loads fall short of them, and stays otherwise; the bounds and their order |
| AutoScaler.StepFromZero | internal/controllers/mcptaskscheduler_controller.go:1125-1146 | from a limit of zero any load gives zero, brought within the bounds |
| AutoScaler.RisesGeometrically | internal/controllers/mcptaskscheduler_controller.go:1104-1148 | while the load stays over the target, the limit less three grows by at least five quarters a step |
| AutoScaler.FallsGeometrically | internal/controllers/mcptaskscheduler_controller.go:1104-1148 | while it stays under half the target, the limit falls to at most three quarters a step |
| AutoScaler.RestsGeometrically | internal/controllers/mcptaskscheduler_controller.go:1104-1148 | so the limit rests after a number of steps logarithmic in the ratio of the bounds |
| AutoScaler.IdleGoesToMinimum | internal/controllers/mcptaskscheduler_controller.go:1120-1123 | without load the limit is the minimum from the first step on |
| History.SchedulerStatus.UpdateWorkflowExecutionStatus | internal/cmd/scheduler_execute_workflow.go:214-240 | for every workflow name and any map order, the new list restricted to that name is the last 10 of the old restriction with the execution appended, in order |
| History.SchedulerStatus.GroupByWorkflow | internal/cmd/scheduler_execute_workflow.go:222-226 | each group is the restriction of the list to its workflow |
| History.SchedulerStatus.JoinTrimmed | internal/cmd/scheduler_execute_workflow.go:228-240 | joining the trimmed groups in any order leaves each workflow its newest executions |
| History.RunKeepsTheNewest | internal/cmd/scheduler_execute_workflow.go:214-240 | after any run of updates each workflow has exactly the newest 10 of all its executions, in order |
| History.TrimmedIsBounded | internal/cmd/scheduler_execute_workflow.go:228-240 | the history holds only executions that were there, no more often; no workflow exceeds 10, and one within 10 loses nothing |
| ConfigSchema.SchemaForType | internal/config/schema.go:45-81 | unwrapping pointers in a loop gives the schema of the type by recursion on its kind |
| ConfigSchema.SchemaForStruct | internal/config/schema.go:83-111 | the loop fills the properties and required names of the exported fields on the wire |
| ConfigSchema.YamlFieldName | internal/config/schema.go:115-132 | the wire name is the tag's first part, or the lower-case field name, and the options are the tag's other parts |
| ConfigSchema.TagExactly | internal/config/schema.go:95-132 | a tag is a name and options with commas between; an empty name stands for the field's in lower case; a field is on the wire unless unexported, nameless or "-" |
| ConfigSchema.SchemaKinds | internal/config/schema.go:51-88 | each kind of type has its JSON Schema type; a struct admits no other keys |
| Strings.SplitExactly | internal/config/schema.go:122 | the parts of a string are the one sequence of strings without commas that joins to it |
| Strings.ToLower | internal/config/schema.go:120-128 | every ASCII capital letter, and no other character, is replaced by its small one |
| ConfigSchema.SchemaIsExact | internal/config/schema.go:45-111 | for every type with distinct field names, a document validates if and only if it is one of the type: scalars fit, objects of structs have only their fields' keys with fitting values and miss no required one (section 6.5.3 of JSON Schema Validation 2020-12, section 10.3.2.3 of JSON Schema Core 2020-12) |
| ConfigSchema.SchemaAcceptsWhatIsWritten | internal/config/schema.go:45-132 | whatever a value of the type is written as, empty omitempty fields dropped, validates |
| ConfigSchema.UnknownKeyIsRejected | internal/config/schema.go:83-111 | a document with an unknown key in a struct at any depth does not validate |
| ConfigSchema.WrittenConforms | internal/config/schema.go:83-132 | what a value is written as is a document of its type |
| ConfigSchema.FieldsConform | internal/config/schema.go:91-107 | each key written for a struct goes to one of its fields with a fitting value, and none that may not be left out is missing |
| ConfigSchema.PropertiesByField | internal/config/schema.go:91-102 | the properties are those of the fields on the wire, each with its field's schema |
| ConfigSchema.RequiredByField | internal/config/schema.go:103-107 | the required names are those of the fields on the wire without omitempty |

## Left out

- HTTP parsing, HTML pages, redirects, JSON encoding, logging, metrics and the command line.
- Kubernetes calls, reconciliation and the AI clients.
- Human-readable OAuth error descriptions: the model has error codes only, so it does not tell an expired code or token from an unknown one where the descriptions do. A redirect address that fails to parse after a code was generated cannot occur once it was validated and is not modelled.
- The listing of access tokens (`internal/auth/oauth.go:657`), which shows expired tokens and revoked marks, and the counts of codes and tokens (`internal/auth/oauth.go:557`), which include expired ones: a cleanup shows in both.
- HandleRegister's parsing of a registration request, user info, discovery metadata and device codes.
- Pointers shared between tokens or context items and the maps that store them: the maps hold values. Item metadata is not modelled.
- The individual configuration checks, their message rewriting (`stripServerPrefix`) and errors from the YAML parser; YAML anchors and merge keys.
- AutoScaler.StepIsAQuarter: limits from 1 up, and StepFromZero for zero; a negative limit can only be configured and is gone after one step.
- AutoScaler.ConvergesWithoutOscillating: exact arithmetic; rounding of 32-bit floats and 32-bit overflow are not modelled.
- ContextWindow.ContextManager.TruncateByType: no claim that the choice is greatest, since the code stops at the first misfit in each group and passes over types without a priority.
- Priority formulas, token estimates, identifiers and hashes of context items are parameters. UpdateFilePath, GetContextByFile and GetStats of the context manager are easy members.
- AuditRotation.LosesOnlyWhenFull: stores alone; what a cleanup removes is CleanupRemovesExactly's subject.
- AuditFile.FileLogIsSuffix: assumes entries after the zero time that arrive in time order, and for each rotation a stamp in order; RotationKeepsSuffixExactly says, for entries that differ, what other stamps do.
- File system errors, synchronization to disk, permissions and corrupt lines; SQL text, the driver, and the database's own precision of time.
- Sums of limit and offset are unbounded integers.
- ConfigSchema.SchemaAcceptsWhatIsWritten: values without nil pointers; `time.Time` and inlined fields are outside the modelled types. Lower-casing treats ASCII only.
- Token stores, the older audit logger, connection statistics, approval modes and the port and memory parsers would only add easy members.
