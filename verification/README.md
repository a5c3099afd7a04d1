# Brinecrypt: a verified model

Brinecrypt is a secret store: named resources live in namespaces, every PUT adds a version,
encrypted versions are sealed under their own data key, and access is decided by permissions
made of a verb, a two-segment glob and an expiry. Users log in for sessions, refresh them, issue
personal and capability tokens; administrators grant and revoke; service accounts are
synchronised from a configuration; an anonymous permission set is open to everybody.

The project models that behaviour and proves what holds over every input and every run.

| file | contents |
|---|---|
| `Strings.dfy`, `Rows.dfy` | the string functions and table queries the code relies on |
| `Glob.dfy` | the pattern language, its meaning, and inclusion of patterns |
| `Authz.dfy` | `Check`, the anonymous check, the namespace index and listing |
| `Normalize.dfy`, `Principals.dfy` | canonical resources, subjects and principals |
| `Crypto.dfy` | envelope encryption over any lawful cipher |
| `Vault.dfy`, `VaultIntegrity.dfy`, `VaultHistory.dfy`, `VaultReading.dfy`, `VaultOutcomes.dfy`, `VaultDb.dfy` | the versioned resource store: what requests do, the invariants, the theorems over runs, what readers are shown, what each request stores, answers and takes, the handlers on the rows |
| `Access.dfy`, `AccessInvariants.dfy`, `AccessDb.dfy` | accounts, credentials and permissions: what requests do, the invariants, the handlers on the rows |
| `Sync.dfy` | service-account synchronisation |
| `Locality.dfy` | which tables each group of requests can reach |
| `Credentials.dfy`, `Lineage.dfy`, `Provenance.dfy` | tokens over whole runs: death, kinds, lifetime, origin |
| `Delegation.dfy`, `Revocation.dfy`, `Admin.dfy` | delegated and anonymous tokens, revocation, the administrative gate |
| `Outcomes.dfy` | what each request about accounts and tokens answers and leaves, exactly |
| `Shortcut.dfy` | which patterns are ever stored, and exactly when an issued token stays within its issuer's rights |
| `Instances.dfy` | two concrete runs: one delegates the `*/*` shortcut, one leaves a refresh half done |

The database is a record of tables, each a map from row id to row. A request is a function on
that record, written as the code branches; the classes in `VaultDb.dfy` and `AccessDb.dfy` run the
handlers statement by statement on the fields and are proved to do what the functions say. Runs
are sequences of requests (and synchronisations), of any length, in any order.

What is assumed, everywhere and nowhere else:

- Steps are serial; each `db.Transaction` and each single store call is atomic. Reads succeed. Any
  write may fail: a PUT carries the step that fails, every other request the number of writes that
  succeed before one fails, and a failed write ends the request where the code ends it.
- Row ids and version uuids are never reused. The clock does not go back. A request
  reads it for its tests (authentication, expiry, permission checks) and again, later, for the times
  it stores; each of the two is one reading.
- `GenerateToken` never returns a string twice. `HashToken` is injective and never blank.
- Opening undoes sealing under the same key and nonce (sections 7.1 and 7.2 of NIST SP 800-38D),
  base64 decoding undoes encoding (section 4 of RFC 4648), and the KEK does not change during a run.
  The cipher is otherwise arbitrary; no strength is claimed.
- A password is compared with what was stored, standing for bcrypt.
- Patterns are read in the documented language: literals and `*` within a segment.

User names are not assumed to be unique: looking a user up by name takes the row with the least
id, as the query does.

Where the code and its documentation differ, the model follows the code: `POST /auth/refresh` is
listed as needing no authentication but is not on the middleware's public list, so the model
demands a bearer token for it; deleting a namespace that does not exist reports success; and a
uuid given as `version` is looked up by uuid alone.

Four properties one would expect turn out to hold only under a condition; each has its instance of
failure and its exact condition:

- A query for a resource can show a row of another one, when the version is given as a uuid
  (`VaultReading.UuidReachesAcross`); reads stay within what the reader may read exactly for a
  reader of nothing or of everything (`VaultReading.ConfinedExactly`).
- A refresh whose second write fails while the old session is still good leaves two accepted
  sessions of one login (`Instances.HalfRefreshIsReachable`); a run keeps each login to one session
  exactly when it has no such refresh (`Lineage.OneSessionExactly`).
- A token for `*/*` passes checks its issuer fails on names with a slash
  (`Instances.GapIsReachable`); in every reachable state a token just issued is allowed only what its
  issuer is exactly when it does not delegate `*/*` (`Shortcut.AttenuatesExactly`).
- A token can outlive its issuer's permission (`Delegation.TokenOutlivesIssuer`); it never does
  exactly when each of its rows is outlasted by one of the issuer's (`Delegation.LastsExactly`).

## Model

| member | source | states |
|---|---|---|
| `Glob.MatchDecidesLanguage` | internal/authz/permissions.go:171-178 | the segment matcher accepts a string exactly when some filling of the stars with slash-free text gives it |
| `Glob.SegmentInclusion` | internal/authz/permissions.go:165-180 | if a segment matches the text of another, it matches everything the other matches |
| `Glob.GenericIsEnough` | internal/authz/permissions.go:165-180 | a segment that accepts the generic instance of another, in a character it does not use, matches the other's text |
| `Glob.ShortcutAgrees` | internal/authz/permissions.go:165-169 | the `*/*` shortcut agrees with segment-wise matching exactly on names without a slash |
| `Glob.PatternInclusion` | internal/authz/permissions.go:165-189 | if a held pattern matches the text of another, then on each resource the other matches it matches too if and only if the resource is outside the shortcut gap |
| `Glob.ShortcutGapExists` | internal/authz/permissions.go:165-169 | a concrete resource in that gap |
| `Glob.TextMatchDecidesInclusion` | internal/authz/permissions.go:165-189 | matching pattern text decides inclusion of languages, both ways, outside the gap |
| `Glob.PatternDecidesLanguage` | internal/authz/permissions.go:165-189 | a resource matches a pattern exactly when the pattern is `*/*` or both parts of the resource are in the languages of its parts |
| `Authz.Check` | internal/authz/permissions.go:14-38 | the early-return loop is true exactly when some permission has the verb, has not expired, and has the resource in the language of its pattern |
| `Authz.AllowsExactly` | internal/authz/permissions.go:14-38 | the same as a law of every set of permissions |
| `Authz.AnonAllowsExactly` | internal/authz/permissions.go:105-124 | the same for the anonymous set, whose rows are over at the instant of their expiry |
| `Authz.CheckAnon` | internal/authz/permissions.go:105-124 | the same for the anonymous rows that have not expired |
| `Authz.LiveAnon` | internal/store/anon.go:11-15 | exactly the rows whose expiry is absent or strictly ahead |
| `Authz.AllowsIsOrderless` | internal/authz/permissions.go:20-36 | row order and duplicates do not matter to a check |
| `Authz.AllowsGrows` | internal/authz/permissions.go:20-36 | more permissions never allow less |
| `Authz.AllowsShrinks` | internal/authz/permissions.go:21-24 | what is allowed later was allowed earlier with the same permissions |
| `Authz.CoverageTransfers` | internal/api/tokens.go:113-124 | whoever passes a check on a pattern's text passes it on everything the pattern matches, or the resource is in the shortcut gap |
| `Authz.AddVerb` | internal/authz/permissions.go:78-88 | the verb is added once and nothing else changes |
| `Authz.NamespacesForPrincipal` | internal/authz/permissions.go:63-91 | the index lists a verb under a namespace exactly when a live pattern has that plain namespace and verb; lists have no duplicates, `_` is no key |
| `Authz.NamespacesForPrincipalWithAnon` | internal/authz/permissions.go:128-163 | the same for own and anonymous patterns together |
| `Authz.IndexIsSound` | internal/authz/permissions.go:63-163 | everything listed has a name in the namespace that the check accepts, a non-empty one unless every pattern listing it has no name part |
| `Authz.IndexIsComplete` | internal/authz/permissions.go:63-163 | everything accepted outside `_` is listed, unless a pattern with a starred namespace accepts it |
| `Authz.CollectMetaVerbs` | internal/api/resource.go:108-116 | exactly the verbs granted on `_/ns`, without duplicates |
| `Authz.MetaVerbsExactly` | internal/api/resource.go:100-106 | the right to a verb on all namespaces is that verb granted on `_/ns` |
| `Authz.UnionVerbs` | internal/api/resource.go:118-128 | the duplicate-free union, the first list's order first |
| `Authz.EntriesOfIndex` | internal/api/resource.go:152-157 | one entry per key in any key order, with exactly the union of verbs |
| `Authz.ListNamespaces` | internal/api/resource.go:135-181 | each namespace once and `_` never, with exactly the own, anonymous and meta verbs |
| `Normalize.SplitPathParts` | internal/authz/normalize.go:47-58 | the loop yields the trimmed non-empty segments in order |
| `Normalize.NormalizeByParts` | internal/authz/normalize.go:29-45 | the result depends on the tidied segments alone: `a/b` other than `api/v1`, or `api/v1/a/b` |
| `Normalize.PaddingInvisible` | internal/authz/normalize.go:29-58 | slashes and spaces around and between the segments never matter |
| `Normalize.NormalizeIsCanonical` | internal/authz/normalize.go:41-45 | every result is two trimmed non-empty slash-free segments with one slash |
| `Normalize.CanonicalIsFixed` | internal/authz/normalize.go:36-45 | every canonical resource normalises to itself, except `api/v1`, which is rejected |
| `Normalize.NormalizeIdempotent` | internal/authz/normalize.go:36-45 | normalising twice is normalising once exactly when the result is not `api/v1` |
| `Normalize.ApiPathNormalizes` | internal/authz/normalize.go:36-39 | the API path of a resource normalises to the resource, `api/v1` included |
| `Normalize.ValidPatternShape` | internal/orm/permissions.go:86-98 | a canonical pattern is valid exactly when its namespace is neither `*` nor `_` |
| `Normalize.SubjectRoundTrip` | internal/k8s/tokenreview.go:63-72 | printing a service account, normalising and splitting gives it back exactly for namespaces without colon or slash and names without trailing space, both non-empty |
| `Normalize.ReadSubject` | internal/authz/normalize.go:14-20 | a subject with the service-account prefix is read from what follows it, trimmed |
| `Principals.ValidPatternsExactly` | internal/authz/principal.go:55-84 | of the patterns with a slash, exactly which an administrator may add and which one may name in a revoke |
| `Principals.SlashlessIsInvalid` | internal/authz/principal.go:55-84 | those without one are neither |
| `Principals.ParseInvertsShow` | internal/authz/principal.go:37-53 | parsing accepts exactly the printed nameable principals and inverts printing |
| `Crypto.OpenUndoesSeal` | internal/crypto/crypto.go:53-90 | opening a sealed text under the same key gives it back; the nonce travels in front |
| `Crypto.EnvelopeRoundTrip` | internal/crypto/crypto.go:36-51 | decrypting the data key and then the data undoes encrypting both |
| `Rows.First` | internal/store/user.go:10-14 | the matching row with the least id, or none if none matches |
| `Vault.MaxVersion` | internal/store/resource_value.go:49-55 | an upper bound of the resource's version numbers that one of them attains, or zero |
| `VaultIntegrity.StepKeeps` | internal/api/resource.go:509-675 | every request, failing at any step, keeps integrity, and the rows keep mirroring the history of answered requests |
| `VaultIntegrity.PutKeeps` | internal/api/resource.go:509-634 | the same for PUT at each of its failure points |
| `VaultIntegrity.AddVersionKeeps` | internal/store/resource_value.go:47-59 | inserting the maximum plus one extends the resource's history by exactly one entry |
| `VaultIntegrity.RemoveResourceKeeps` | internal/store/resource.go:46-59 | deleting a resource forgets its history and no other |
| `VaultIntegrity.NamespaceOpsKeep` | internal/api/resource.go:234-302 | creating or deleting a namespace changes no history and strands no resource |
| `VaultIntegrity.RunsAreFaithful` | internal/api/resource.go:509-675 | every reachable state has integrity and mirrors its history |
| `VaultIntegrity.MaxIsHistoryLength` | internal/store/resource_value.go:49-56 | the stored maximum is the number of successful PUTs since the resource was last deleted |
| `VaultHistory.NumberedReadsBack` | internal/api/resource.go:396-465 | after any run, version n reads back the value of the n-th successful PUT since the last deletion, and is not found outside 1..n |
| `VaultHistory.LatestReadsBack` | internal/api/resource.go:422-434 | `latest` reads back the last such value, no value before the first, and not found without a resource |
| `VaultHistory.UuidReadsBack` | internal/api/resource.go:358-394 | a uuid alone reads back the value of the PUT that minted it |
| `VaultHistory.UnknownUuid` | internal/api/resource.go:358-367 | any other uuid is not found |
| `VaultReading.UuidThroughResource` | internal/api/resource.go:436-465 | a recorded uuid given as the version of any stored resource reads back the value of the PUT that minted it, and is not found through a missing resource |
| `VaultReading.UnknownUuidThroughResource` | internal/api/resource.go:436-465 | any other uuid is not found that way |
| `VaultReading.ShowsOwnRow` | internal/api/resource.go:396-465 | the row shown is one of the resource named exactly when the selector is not a uuid or is one of that resource's own history |
| `VaultReading.OwnerIsRecorded` | internal/api/resource.go:369-373 | the resource a version belongs to is the one in whose history its uuid is |
| `VaultReading.AnswersDisclosed` | internal/api/resource.go:396-465 | with the access decision included, a value is answered exactly when a row is disclosed, and it is that row's plaintext |
| `VaultReading.ConfinedExactly` | internal/api/resource.go:396-465 | after any run, a reader is shown only what the reader may read exactly when that is no stored resource or every one with a value |
| `VaultReading.NumbersAreConfined` | internal/api/resource.go:422-450 | `latest` and numbers only show rows of the resource named, which the reader may read |
| `VaultReading.ByUuidIsConfined` | internal/api/resource.go:358-394 | the uuid route answers exactly the readers of the resource the version belongs to |
| `VaultReading.UuidReachesAcross` | internal/api/resource.go:436-438 | two PUTs after which a reader of the first resource is refused the second and its uuid, and is shown its value as a version of the first |
| `VaultHistory.VersionsHaveNoGaps` | internal/store/resource_value.go:24-59 | in every reachable state the versions of a resource are exactly 1..n, each once |
| `VaultHistory.ReachableIntegrity` | internal/api/resource.go:536-630 | references resolve, names are unique, and a version has a key exactly when it is encrypted, whatever failed midway |
| `VaultHistory.VersionsAreAppendOnly` | internal/store/resource.go:38-59 | no request alters a version or what it decrypts to; only deleting its own resource removes it |
| `VaultHistory.DeletedVersionsStayGone` | internal/store/resource.go:46-59 | after a deletion the history starts over and no old version is ever found again |
| `VaultHistory.GoneStaysGone` | internal/store/resource_value.go:47-59 | a uuid once gone is never given to another version |
| `VaultReading.ReadAnswers` | internal/api/resource.go:396-465 | the answer to every read by resource, refusals included, from the caller's permissions and the history of answered requests |
| `VaultReading.DisclosureNeedsRead` | internal/api/resource.go:402-410 | nothing is disclosed to a caller not granted Read on the resource named |
| `VaultOutcomes.PutAnswers` | internal/api/resource.go:509-634 | what a PUT answers, exactly; an encrypted one without a KEK fails |
| `VaultOutcomes.PutStores` | internal/api/resource.go:577-630 | a stored PUT adds one row of its resource, which then has the type asked for: sealed under a new data key that is itself sealed under the KEK if encrypted, the value itself without a key if not |
| `VaultOutcomes.DeleteAnswers` | internal/api/resource.go:636-675 | what a DELETE answers, exactly, and that it removes the resource and its versions and nothing else |
| `VaultOutcomes.CreateNamespaceAnswers` | internal/api/resource.go:234-259 | what creating a namespace answers, exactly, and leaves |
| `VaultOutcomes.DeleteNamespaceAnswers` | internal/api/resource.go:261-298 | what deleting one answers, exactly: a conflict just while a resource is in it |
| `VaultOutcomes.OnlyAuthorisedChange` | internal/api/resource.go:245-668 | a request without its verb (Write or Delete on the resource, own or anonymous; Write or Delete on `_/ns`, own) changes nothing, and one with it is never forbidden |
| `VaultOutcomes.ChangesNeedVerbs` | internal/api/resource.go:529-658 | whoever adds a version was granted Write on its resource, whoever removes one Delete |
| `VaultDb.Database.PutResource` | internal/api/resource.go:509-634 | the handler, step by step, leaves the rows and answers as the PUT function says, for every failing step |
| `VaultDb.Database.StorePayload` | internal/api/resource.go:581-618 | the same for the encryption half |
| `VaultDb.Database.InsertVersion` | internal/store/resource_value.go:47-59 | the new row has the maximum plus one |
| `VaultDb.Database.DeleteResource` | internal/api/resource.go:636-675 | the same for DELETE |
| `VaultDb.Database.AddNamespace` | internal/api/resource.go:234-259 | the same for creating a namespace |
| `VaultDb.Database.RemoveNamespace` | internal/api/resource.go:261-302 | the same for deleting one |
| `VaultDb.Database.DecryptValue` | internal/api/resource.go:72-93 | the row with its data replaced by the plaintext its own algorithm and key give |
| `VaultDb.Database.GetResource` | internal/api/resource.go:396-465 | the handler answers as the read function says |
| `VaultDb.Database.NamespaceNames` | internal/store/namespace.go:21-25 | every stored name once |
| `VaultDb.Database.ListNamespaces` | internal/api/resource.go:135-181 | in a sound state, a caller with `_/ns` list gets every stored namespace exactly once, with exactly the verbs owed |
| `AccessInvariants.ServeKeeps` | internal/auth/middleware.go:41-131 | every request keeps references, hash uniqueness, account uniqueness and distinct permission ids, and existing credentials change only by invalidation or removal |
| `Credentials.RunKeeps` | internal/auth/middleware.go:41-131 | the same over every run with synchronisations |
| `Credentials.KindsAreSeparate` | internal/auth/middleware.go:26-31 | in every reachable state a token minted as one kind is stored and accepted as that kind only, and only if it was drawn |
| `Credentials.RefreshIsFinal` | internal/auth/session.go:63-91 | after a successful refresh the old refresh and session tokens are never accepted again, in any later state at any later time |
| `Credentials.LogoutIsFinal` | internal/auth/session.go:93-103 | after a successful logout neither token of the session is ever accepted again |
| `Credentials.DeadForever` | internal/store/session.go:34-43 | a token no row makes good is refused for ever |
| `Credentials.NewTokensWork` | internal/auth/session.go:24-48 | the tokens of a new session are good for its user until exactly fifteen minutes after the clock reading it was made with |
| `Credentials.SessionResolvesExactly` | internal/auth/middleware.go:137-146 | a session token speaks for a user exactly when an unexpired row of that user stores it |
| `Credentials.PatResolvesExactly` | internal/auth/middleware.go:148-157 | the same for personal access tokens and their optional expiry |
| `Credentials.CapabilityResolvesExactly` | internal/auth/middleware.go:159-168 | the same for capability tokens |
| `Credentials.RefreshResolvesExactly` | internal/auth/session.go:63-79 | a refresh token can be refreshed exactly while an unexpired row stores it |
| `Credentials.AuthenticatesExactly` | internal/auth/middleware.go:93-168 | whom a bearer token authenticates, and as what, exactly, from the stored rows |
| `Credentials.AuthenticatesAccount` | internal/auth/middleware.go:120-126 | a service account is authenticated exactly by a reviewed JWT, as the one the review names |
| `Credentials.JwtExactly` | internal/auth/middleware.go:133-135 | a token is taken for a JWT exactly when it has three parts between dots and begins with `eyJ` |
| `Outcomes.LoginAnswers` | internal/auth/session.go:50-61 | a login succeeds exactly with the password of the first user of the name; its token speaks for that user for fifteen minutes and no other session is touched |
| `Outcomes.RefreshAnswers` | internal/auth/session.go:63-91 | a refresh succeeds exactly for a token an unexpired row stores; the new session is the same user's, the old row goes, no other is touched |
| `Outcomes.LogoutAnswers` | internal/auth/session.go:93-103 | a logout succeeds exactly for the token of an unexpired session and touches no other |
| `Outcomes.CallerExactly` | internal/auth/middleware.go:93-111 | the caller is a user exactly by an unexpired session or personal token of that user |
| `Outcomes.PatIssueAnswers` | internal/api/tokens.go:19-58 | a personal token is issued exactly to a user and speaks for that user until the expiry asked for and not after |
| `Outcomes.PatRevokeAnswers` | internal/api/tokens.go:60-93 | what revoking one answers; once done, its token is refused for ever |
| `Outcomes.CapabilityIssueAnswers` | internal/api/tokens.go:95-162 | a capability token is issued exactly when every entry has a two-part pattern whose text the issuer is granted with its verb; it does not expire |
| `Outcomes.CapabilityRefused` | internal/api/tokens.go:113-124 | an issue is refused by its first bad entry: as a bad request if malformed, as unauthorised if not covered |
| `Outcomes.CapabilityRevokeAnswers` | internal/api/tokens.go:164-197 | what revoking one answers; once done, its token is refused for ever |
| `Outcomes.AnonTokenAnswers` | internal/api/auth.go:109-164 | an anonymous token is issued exactly while an anonymous permission is in force, and is good for its time to live |
| `Credentials.DeletedUserStaysGone` | internal/store/user.go:32-46 | after a deletion nothing ever resolves to that user or to a token that user issued, whoever takes the name |
| `Credentials.DeletedUsersTokensStayDead` | internal/store/user.go:32-46 | every token the user had is refused for ever |
| `Credentials.OthersKeepTheirSessions` | internal/store/user.go:32-46 | other users' session tokens resolve as before |
| `Credentials.OthersKeepTheirPats` | internal/store/user.go:32-46 | other users' personal tokens resolve as before |
| `Credentials.OthersKeepTheirCapabilities` | internal/orm/user.go:11-14 | capability tokens of others, or of nobody, resolve as before with the same permissions; the user's own do not |
| `Lineage.AcceptedWithinLimit` | internal/auth/session.go:24-91 | in every run, failures included, an accepted session or refresh token descends from a login and is accepted no later than 15 (k + 1) minutes after it, plus the time its refreshes took between testing the old session and making the new one; k is its generation, hence at most the refreshes of the login that made a session, all of which succeeded if none was left half done |
| `Lineage.OneSessionPerLogin` | internal/auth/session.go:63-91 | unless a refresh of a session still good was left half done, a login has at most one accepted session token and one accepted refresh token, both of one session |
| `Lineage.OneSessionExactly` | internal/auth/session.go:63-91 | a run keeps every login to one accepted session throughout if and only if no refresh in it is authenticated, refreshable and stopped between its two writes before the old session expires |
| `Lineage.EventTracks` | internal/auth/session.go:63-91 | every event keeps the time bounds, and keeps each login to one live row if and only if it is not such a refresh |
| `Lineage.DoublingLeavesTwo` | internal/auth/session.go:81-88 | from a state with one accepted session per login, an event leaves two for some login if and only if it is such a refresh |
| `Instances.HalfRefreshIsReachable` | internal/auth/session.go:81-88 | a run from an empty installation whose third request is such a refresh, after which a login has two accepted sessions |
| `Provenance.NoPasswordNoCredential` | internal/auth/session.go:50-61 | in every run, whatever speaks for a user or was issued by one was preceded by that user's password |
| `Provenance.NamesLeadBack` | internal/authz/permissions.go:40-61 | in every reachable state the permissions read for the name of a user with a credential are that user's own, although names need not be unique |
| `Provenance.OnlyOwnersRevoke` | internal/api/tokens.go:60-197 | a personal or capability token disappears only at its owner's request or with the owner |
| `Delegation.RefusalDecides` | internal/api/tokens.go:113-124 | issuance passes exactly when every entry is well formed and its text passes the issuer's check |
| `Delegation.TokenIsCovered` | internal/api/tokens.go:113-149 | at any time at which the holder passes the check on each entry's text, the token allows nothing more, outside the gap |
| `Delegation.DelegationAttenuates` | internal/api/tokens.go:95-162 | the token just issued resolves, names its issuer, and is allowed only what its issuer is allowed, for every verb and resource outside the gap; without exception if and only if the issuer holds the shortcut wherever the token does |
| `Delegation.TokensAreImmutable` | internal/api/tokens.go:132-152 | over every run a capability token keeps exactly the permissions it was issued with; one without issuer is never removed |
| `Delegation.WithinExactly` | internal/api/tokens.go:113-149 | at any time, a token's rows are within what a holder is allowed exactly when their texts pass the holder's check at that time |
| `Delegation.PassingIsFullyWithin` | internal/api/tokens.go:113-149 | rows whose texts pass a holder's check are within what the holder is allowed on every resource exactly when the shortcut is among them only where the holder has it |
| `Delegation.FullyWithinExactly` | internal/api/tokens.go:113-149 | rows are within what a holder is allowed on every resource exactly when their texts pass and the shortcut is among them only where the holder has it |
| `Delegation.LastsExactly` | internal/api/tokens.go:142-149 | with the issuer's rows unchanged, a token is within them at every later time exactly when each row live at issue is covered by one of the issuer's that does not expire before it |
| `Delegation.TokenOutlivesIssuer` | internal/api/tokens.go:142-149 | a token within its issuer's rights at issue and beyond them later |
| `Delegation.DelegationLater` | internal/api/tokens.go:113-149 | at every later point of every run, an existing token is within what its issuer is then allowed exactly when the texts it was issued with pass the issuer's check then |
| `Shortcut.OnlyTokensHoldAnything` | internal/authz/principal.go:55-70 | in every reachable state no user, service account or anonymous row is `*/*` |
| `Shortcut.ReachableFits` | internal/api/admin.go:301-368 | in every reachable state every stored pattern has two non-empty parts, and only tokens have a lone star for a namespace |
| `Shortcut.ListedHasName` | internal/authz/permissions.go:63-163 | in every reachable state whatever the index lists has a non-empty name that the check accepts |
| `Shortcut.AttenuatesExactly` | internal/api/tokens.go:95-162 | in every reachable state, a token just issued passes only checks its issuer passes, for every verb and resource, if and only if none of its unexpired entries is `*/*` |
| `Shortcut.AttenuatesExactlyLater` | internal/api/tokens.go:95-162 | at every later point of every run at which the token exists, the same holds if and only if in addition the texts it was issued with pass the issuer's check then; the rows read for the issuer are the issuer's own |
| `Instances.GapIsReachable` | internal/api/tokens.go:113-149 | a run from an empty installation after which an issued token passes a check its issuer fails |
| `Delegation.SnapshotAllows` | internal/orm/permissions.go:54-63 | exactly what copied anonymous permissions allow at any time, the edges included |
| `Delegation.AnonTokenIsSnapshot` | internal/api/auth.go:109-155 | whatever happens later, the token is allowed what the anonymous set at issue allows, up to the sentinel and except at an expiry instant |
| `Revocation.RevokeIsExact` | internal/store/permission.go:51-79 | a successful revoke leaves precisely the rows no entry matches and changes nothing else |
| `Revocation.RevokeByText` | internal/store/permission.go:51-109 | a successful revoke leaves a row of pattern `ns/name` exactly when no entry has its verb and, part by part, a star or the row's text |
| `Revocation.RevokeOneByText` | internal/store/permission.go:81-109 | for one entry `c/d`: the row `a/b` stays when the verb differs, or c is neither `*` nor a, or d is neither `*` nor b |
| `Revocation.RevokeAnswers` | internal/api/admin.go:377-438 | when a revoke succeeds, exactly: valid patterns, a known principal and a write for each row taken |
| `Outcomes.RevokeEffect` | internal/api/admin.go:377-438 | the same of the request as served, and that every other principal keeps what it had |
| `Outcomes.GrantAnswers` | internal/api/admin.go:301-368 | when a grant succeeds, exactly |
| `Outcomes.GrantEffect` | internal/api/admin.go:301-368 | after a grant the principal named is granted what it was and what the entries give, until their expiry, and every other principal what it was |
| `Revocation.RevokeOnlyTakes` | internal/api/admin.go:422-434 | even a failed one never enlarges a check and leaves every other owner alone |
| `Revocation.SurvivingIsOrderless` | internal/api/admin.go:422-434 | the order and repetition of entries do not matter |
| `Revocation.SurvivingIsIdempotent` | internal/api/admin.go:422-434 | revoking twice is revoking once |
| `Revocation.RevokeUndoesGrant` | internal/api/admin.go:346-364 | revoking the entries of a grant leaves what revoking alone would have left |
| `Revocation.GrantAllAppends` | internal/api/admin.go:346-364 | a successful grant appends one row per entry in order |
| `Revocation.GrantAllSucceeds` | internal/api/admin.go:346-364 | a grant succeeds exactly when two writes per entry do |
| `Revocation.DeleteShortcutAgrees` | internal/store/permission.go:81-90 | the `*/*` shortcut equals the segment-wise comparison |
| `Locality.GrantAllIsLocal` | internal/api/admin.go:346-364 | a grant, failing anywhere, touches only its target's rows |
| `Admin.AdminSafety` | internal/api/admin.go:35-113 | a request that changes users, users' permissions or the anonymous set is the creation of a user with a bootstrap token, or comes from an unexpired session whose user's name passes the check on `_/users` for Delete, if it deletes a user, and for Write otherwise |
| `Admin.AdminsHoldTheVerb` | internal/api/admin.go:35-113 | in every reachable state it is the session's own user that is granted that verb |
| `Admin.ChangesNeedVerbs` | internal/api/admin.go:35-511 | read off the tables: removing a user takes Delete on `_/users`; adding one takes Write or a bootstrap token; changing what a remaining user holds or the anonymous set takes Write; no user row is altered |
| `Admin.ForbiddenExactly` | internal/api/admin.go:35-60 | an authenticated administrative request is answered Forbidden if and only if it does not come from an unexpired session whose own user is granted the verb |
| `Admin.RunsAreAdministered` | internal/api/admin.go:35-113 | if users, their permissions or the anonymous set differ between two points of a run, some event between them was such a request, with such a verb, in the state it was made in |
| `Admin.NothingWithoutBootstrap` | internal/auth/middleware.go:59-63 | without a bootstrap no run creates a user or opens anything to everybody |
| `Admin.BootstrapHolds` | internal/api/admin.go:84-108 | a bootstrapped user holds exactly the ten bootstrap permissions |
| `Admin.BootstrapGrantsExactly` | internal/api/admin.go:84-108 | these grant every verb on `_/users` and `_/ns`, list and read on `_/sa`, and nothing else |
| `Outcomes.CreateUserAnswers` | internal/api/admin.go:65-112 | when a user is created, exactly |
| `Outcomes.CreateUserEffect` | internal/api/admin.go:65-112 | one row is added; without a bootstrap the new user holds nothing, and nobody else's permissions or tokens change |
| `Outcomes.CreatedUserLogsIn` | internal/store/user.go:10-30 | a user of a name that was free is the one the name finds |
| `Outcomes.DeleteUserEffect` | internal/store/user.go:32-46 | exactly the first user of the name goes, with that user's sessions, tokens and permissions |
| `Outcomes.AddAnonEffect` | internal/api/admin.go:464-489 | exactly what the entries say becomes public beside what was |
| `Outcomes.DeleteAnonEffect` | internal/store/anon.go:21-23 | exactly the rows of the id go |
| `Outcomes.OtherAdminAnswers` | internal/api/admin.go:278-511 | when deleting a user and changing the anonymous set succeed, exactly |
| `Sync.SyncGrantsExactly` | internal/k8s/sync.go:100-146 | after entries that commit, an account is allowed a verb on a resource exactly when some line of its last mention has that verb's text and a pattern that normalises to two segments, the first neither `*` nor `_`, with the resource in its language |
| `Sync.FilterPermissions` | internal/k8s/sync.go:123-140 | the loop keeps exactly the lines that normalise, validate and parse, in order |
| `Sync.FilteredIsCanonical` | internal/k8s/sync.go:123-140 | every pattern kept is canonical, in a namespace neither `*` nor `_` |
| `Sync.SyncOneEffect` | internal/k8s/sync.go:117-146 | an entry, failing at any write, leaves its account the new set whole or the old set whole, and others alone |
| `Sync.SyncConverges` | internal/k8s/sync.go:100-115 | after any entries whose writes succeed each account has exactly the rights of its last mention, and the unmentioned are untouched |
| `Sync.ConfigsConcatenate` | internal/k8s/sync.go:100-115 | successive configurations act as one |
| `Sync.SyncIsIdempotent` | internal/k8s/sync.go:100-115 | applying a configuration again changes nothing but row ids |
| `Sync.SyncLeavesUsersAlone` | internal/store/sa.go:15-28 | a sync touches no user, no token and not the anonymous set |
| `AccessDb.Database.NewSession` | internal/auth/session.go:24-48 | inserts the row for both tokens, or draws them and inserts nothing |
| `AccessDb.Database.LoginUser` | internal/auth/session.go:50-61 | the handler on the rows does what the login function says |
| `AccessDb.Database.RefreshSession` | internal/auth/session.go:63-91 | the same for refresh, insert before delete |
| `AccessDb.Database.LogoutSession` | internal/auth/session.go:93-103 | the same for logout |
| `AccessDb.Database.IssueCapabilityToken` | internal/api/tokens.go:95-162 | the validation loop and the transaction together do what the issue function says |
| `AccessDb.Database.RevokeCapabilityToken` | internal/api/tokens.go:164-197 | the same for revoking one |
| `AccessDb.Database.IssuePersonalToken` | internal/api/tokens.go:19-58 | the same for issuing a PAT |
| `AccessDb.Database.RevokePersonalToken` | internal/api/tokens.go:60-93 | the same for revoking one |
| `AccessDb.Database.IssueAnonToken` | internal/api/auth.go:109-164 | the same for anonymous tokens |
| `AccessDb.Database.GrantEntries` | internal/api/admin.go:346-364 | the create-and-link loop, stopped at any write |
| `AccessDb.Database.GrantPermissions` | internal/api/admin.go:301-368 | validation, target and loop together |
| `AccessDb.Database.RevokeMatching` | internal/store/permission.go:51-79 | unlinking matches by id leaves exactly the other rows, or stops at the failing unlink |
| `AccessDb.Database.RevokePermissions` | internal/api/admin.go:377-438 | validation, target and loops together, every owner's rows |
| `AccessDb.Database.AddUser` | internal/api/admin.go:65-112 | the user row and, for a bootstrap, the nested grants |
| `AccessDb.Database.RemoveUser` | internal/store/user.go:32-46 | the cascade |
| `AccessDb.Database.AddAnonPermissions` | internal/api/admin.go:464-489 | validation, then the insert loop stopped at any write |
| `AccessDb.Database.RemoveAnon` | internal/store/anon.go:21-23 | deletes by id; a missing row is no error |
| `AccessDb.Database.CheckAccess` | internal/authz/permissions.go:14-61 | true exactly when a row of the principal grants the verb on the resource; an unreadable principal is an error |
| `AccessDb.Database.CheckAccessWithAnon` | internal/authz/permissions.go:95-103 | own or anonymous for a readable principal, anonymous alone without one, an error otherwise |
| `AccessDb.Database.ListNamespacesFor` | internal/api/resource.go:135-181 | an unreadable caller is a server error; any other gets each namespace once with exactly the verbs owed to the rows read |
| `AccessDb.Database.GetOrCreateAccount` | internal/store/sa.go:46-56 | finds the account or inserts it |
| `AccessDb.Database.ReplacePermissions` | internal/store/sa.go:15-28 | the account's rows become the entries' |
| `AccessDb.Database.SyncAccount` | internal/k8s/sync.go:117-146 | one entry, stopped at any write |
| `AccessDb.Database.SyncAccounts` | internal/k8s/sync.go:100-115 | the loop over entries, going on after a failure |

## Left out

- HTTP and JSON plumbing, routing tables, CORS, audit logging, health checks and the operator reconciler: a request is a value and an answer a tag.
- `?`, `[...]` and backslash in patterns, and the error `path.Match` returns on a malformed one: the documented language is literals and `*`, and inclusion by matching text is a theorem of that language.
- A server error for a resource request by a caller whose row has disappeared: `VaultReading` and `VaultOutcomes` start from permissions that could be read, and `AccessDb.Database.CheckAccessWithAnon` says when they can.
- Kubernetes watches and TokenReview calls: the verdict of a review is an input, and a synchronisation starts from a parsed configuration.
- The read-only listings `op=query`, `op=versions`, `AdminUser`, `Principals` and the audit queries: they add no property to what the tables are proved to hold.
- Permission rows linked to nobody, which a failed grant or a revoke leaves in the table: nothing reads them, so `Access` does not keep them.
- Interleaving of two requests: requests are serial, so two concurrent PUTs that read the same maximum are outside the model.
