# Request authorization of the reactjs-golang-auth0 example server, in Dafny

The Go server in this repository puts a guard in front of its protected API
routes. `RequireAuthentication` reads the bearer token from the
`Authorization` header. It asks the identity provider who the caller is. It
loads the caller's access policies. It then checks that the caller's e-mail
is verified and asks an authorization strategy for a verdict. Only then does
it hand the request, with the principal attached, to the route's handler.
Two strategies exist:

- `AllowAllAuthorizationStrategy` permits everything.
- `PolicyAuthorizationStrategy(apiPrefix)` normalises the request target to a
  path. It then applies deny-overrides, default-deny evaluation of the
  caller's deny and allow statements. Each statement's actions are regular
  expressions.

The principal's policies come from `userDataFetcher`. It collects the policy
names attached to the user directly and through policy groups. It
de-duplicates them in place with `toSet`, then loads each policy's
permissions.

The model has these modules:

| module | file | what it holds |
|---|---|---|
| `Wrappers` | wrappers.dfy | `Option` and `Result` |
| `Text` | text.dfy | Go's `strings.TrimPrefix`, `TrimSpace`, `Index` and `Split`, with their defining properties |
| `Users`, `Http` | users.dfy, http.dfy | the records of `auth/user.go`, and the part of a request that is read |
| `Strategy` | strategy.dfy | both strategies; path extraction, which models Go's RE2 semantics of the path expression exactly; the evaluation specified as a function, with the source's triple loop proved equal to it |
| `Authentication` | authentication.dfy | the guard chain, specified as a state machine (Start, HeaderParsed, IdentityResolved, PermissionsLoaded, VerificationChecked, Authorized) that returns one outcome and the ordered collaborator calls; the handler method, written as the source's chain of early returns, is proved equal to it |
| `StringSet` | stringset.dfy | `toSet` as an in-place method on an `array<string>`, proved to compute the first occurrences of the input, in order |
| `UserData` | userdata.dfy | `userDataFetcher` over an abstract store of three lookups: its guard order, the aggregation and de-duplication of policy names, and the assembly of the principal; the fetcher method, with its loops over the response tables, is proved equal to a specification function |

Collaborators are given as function values:

- the identity fetcher and JSON decoder;
- the user-data fetcher;
- the strategy;
- the store lookups;
- regular-expression matching (`Matcher`: a pattern and a path give `Matched`, `NoMatch` or `MatchError`).

Every property below holds for all of them.

Where the code behaves differently from what a reader of its names and
messages would expect, the model follows the code:

- The header is split on the substring `Bearer`. The result is accepted when
  there are exactly two pieces. So any value containing "Bearer" exactly
  once is accepted, whatever precedes it; `Authentication.TokenNeedsSingleBearer`
  and `Authentication.SingleBearerGivesToken` characterise this. A strict
  `<scheme> <token>` form is not checked.
- The identity fetcher's own error is ignored. Only a body that does not
  decode is rejected; a transport failure alone is not.
- Normalising a path is idempotent only when `apiPrefix` does not strip the
  normalised path again (`Strategy.ExtractPathIdempotent`). For example,
  with prefix "/api", the target "/api/api/x" normalises to "/api/x", and
  that normalises to "/x".
- The path expression `^(?P<PATH>[^?]*)\??.*$` fails to match exactly when a
  newline follows a question mark. In RE2, `[^?]` matches a newline and `.`
  does not. Such a target is refused with the "matches" error.

## Model

| member | source | states |
|---|---|---|
| `Strategy.AllowAllAuthorizationStrategy` | server/auth/strategy.go:10-12 | permits every principal and request |
| `Strategy.PathSubmatch` | server/auth/strategy.go:17-18 | the PATH group is the text before the first `?` (or all of it), contains no `?`, and is absent exactly when some `?` is followed by a newline |
| `Strategy.ExtractPath` | server/auth/strategy.go:16-22 | an extracted path is non-empty, holds no `?`, and has no white space at either end |
| `Strategy.EmptyTargetHasNoPath` | server/auth/strategy.go:16-21 | an empty request target is refused, never evaluated |
| `Strategy.BarePrefixHasNoPath` | server/auth/strategy.go:16-21 | a target that is only the prefix plus any query yields no path |
| `Strategy.ExtractPathIdempotent` | server/auth/strategy.go:16-22 | re-normalising a normalised path that the prefix does not strip gives it back |
| `Strategy.PrefixAndQueryStripped` | server/auth/strategy.go:16-22 | prefix + clean path + `?` + newline-free query normalises to the path |
| `Strategy.Evaluate` | server/auth/strategy.go:23-47 | the reference decision: permit exactly when no deny action hits and some allow action matches; "denied by policy" exactly when some deny action hits; never the path error |
| `Strategy.PolicyDecision` | server/auth/strategy.go:14-49 | the reference verdict of the policy strategy: the path error exactly when no path is extracted, otherwise the evaluation of the principal's permissions on the path |
| `Strategy.PolicyAuthorizationStrategy` | server/auth/strategy.go:14-49 | the strategy's verdict equals the specification: refuse without a path, else deny-overrides / default-deny evaluation |
| `Strategy.EvaluatePermissions` | server/auth/strategy.go:23-47 | the triple loop (denys before allows per permission, return on first deny hit, allow flag) equals the deny-overrides, default-deny decision |
| `Strategy.PermitIff` | server/auth/strategy.go:19-47 | permit if and only if a path is extracted, no deny action hits it and some allow action matches it |
| `Strategy.DenyOverridesAllow` | server/auth/strategy.go:25-31 | one deny action that matches or fails to compile denies, whatever the allows say |
| `Strategy.DefaultDeny` | server/auth/strategy.go:43-47 | without a matching allow action the request is denied |
| `Strategy.NoPermissionsDenied` | server/auth/strategy.go:23-47 | a principal with no permissions is denied ("No match in policy") |
| `Strategy.EmptyActionsDenied` | server/auth/strategy.go:24-42 | statements without actions are skipped, so such permissions deny by default |
| `Strategy.MalformedAllowIgnored` | server/auth/strategy.go:34-40 | an allow pattern that does not compile adds nothing to the decision |
| `Strategy.MalformedDenyDenies` | server/auth/strategy.go:26-30 | a deny pattern that does not compile denies the request |
| `Strategy.OrderIrrelevant` | server/auth/strategy.go:24-47 | the verdict does not depend on the order of the permissions |
| `Strategy.MembershipDecides` | server/auth/strategy.go:24-42 | deny and allow hits are properties of which permissions are held |
| `Strategy.ResourcesIgnored` | server/auth/strategy.go:24-42 | statement resources never influence the decision |
| `Strategy.PrefixedQueryTargetPermitted` | server/auth/strategy.go:14-49 | a prefixed target with a query is permitted by one allow statement whose action matches its path |
| `Strategy.SingleAllowPermits` | server/auth/strategy.go:34-44 | one permission with one matching allow action permits |
| `Strategy.LaterDenyOverridesEarlierAllow` | server/auth/strategy.go:24-44 | an allow hit in an earlier permission is overridden by a deny hit in a later one |
| `Text.TrimPrefix` | server/auth/strategy.go:16 | the prefix is removed exactly when the target starts with it, otherwise the target is unchanged |
| `Text.TrimSpace` | server/auth/requireauthentication.go:24 | the result is an inner slice of the input with non-space ends, empty exactly when the input is all white space |
| `Text.TrimSpaceKeepsCharacters` | server/auth/strategy.go:22 | trimming introduces no character |
| `Text.TrimSpaceIdempotent` | server/auth/strategy.go:19-22 | trimming twice is trimming once |
| `Text.TrimSpaceOfUnpadded` | server/auth/strategy.go:19-22 | a string without white space at its ends is left unchanged |
| `Text.IndexOfChar` | server/auth/strategy.go:17-18 | the first position of the character, absent exactly when it does not occur |
| `Text.IndexOf` | server/auth/requireauthentication.go:19 | the first occurrence of the separator, absent exactly when it does not occur |
| `Text.Split` | server/auth/requireauthentication.go:19 | at least one piece, no piece contains the separator, one piece exactly when the separator does not occur |
| `Text.SplitJoin` | server/auth/requireauthentication.go:19 | joining the pieces with the separator gives back the input |
| `Http.HeaderGet` | server/auth/requireauthentication.go:19 | the first value stored under the header name, or "" when the header is absent or has no value |
| `Authentication.BearerTokenOf` | server/auth/requireauthentication.go:19-24 | a value without "Bearer" has no token; a token has no white space at either end; `SingleBearerGivesToken`, `TokenNeedsSingleBearer` and `MissingHeaderHasNoToken` characterise it fully |
| `Authentication.BearerToken` | server/auth/requireauthentication.go:19-24 | a request has a token only when its Authorization header contains "Bearer" |
| `Authentication.MissingHeaderHasNoToken` | server/auth/requireauthentication.go:19-20 | without an Authorization header there is no token |
| `Authentication.SingleBearerGivesToken` | server/auth/requireauthentication.go:19-24 | when "Bearer" occurs once, the token is the trimmed text after it |
| `Authentication.TokenNeedsSingleBearer` | server/auth/requireauthentication.go:19-20 | a token is found only when "Bearer" occurs exactly once |
| `Authentication.Step` | server/auth/requireauthentication.go:19-45 | each stage makes at most one collaborator call and either halts or moves strictly forward |
| `Authentication.Run` | server/auth/requireauthentication.go:19-45 | from any stage: a rejection carries status 400, 401 or 500; a forwarded request ends with the next handler's call on the forwarded principal; at most one call per remaining stage |
| `Authentication.Authenticate` | server/auth/requireauthentication.go:13-49 | the handler's reference outcome: a rejection carries status 400, 401 or 500, and forwarding ends with the next handler's call on the forwarded principal |
| `Authentication.NextRunsOnceIffForwarded` | server/auth/requireauthentication.go:20-45 | exactly one terminal response: the next handler runs once, last, when forwarded, and never when rejected |
| `Authentication.MalformedHeaderRejected` | server/auth/requireauthentication.go:19-22 | a malformed or missing header gives 400 "Malformed authorization header or token" with no collaborator called |
| `Authentication.UndecodableIdentityRejected` | server/auth/requireauthentication.go:24-30 | the fetcher gets the trimmed token; an undecodable body gives 500 "UserID error" and the data fetcher is not called |
| `Authentication.UserDataErrorRejected` | server/auth/requireauthentication.go:31-35 | a data-fetcher error gives 500 "UserID error"; the strategy and the next handler do not run |
| `Authentication.UnverifiedEmailRejected` | server/auth/requireauthentication.go:36-39 | an unverified e-mail on the fetched principal gives 401 "Unauthorized - email not verified", before any strategy is consulted |
| `Authentication.StrategyDenialRejected` | server/auth/requireauthentication.go:40-43 | a strategy refusal gives 401 "Unauthorized - denied by policy"; the next handler does not run |
| `Authentication.AllGuardsPassForwarded` | server/auth/requireauthentication.go:19-45 | when every guard passes, the fetched principal is forwarded after the calls identity, user data, strategy, in that order |
| `Authentication.ForwardedOnlyWhenAllGuardsPass` | server/auth/requireauthentication.go:19-45 | forwarding implies a token, a decoded identity, a fetched principal with verified e-mail and a permitting strategy |
| `Authentication.IdentityFetchErrorIgnored` | server/auth/requireauthentication.go:25-27 | the identity fetcher's error flag has no influence on the outcome |
| `Authentication.RequireAuthentication` | server/auth/requireauthentication.go:13-49 | the handler's chain of early returns produces exactly the state machine's outcome and calls |
| `Authentication.AuthenticateToken` | server/auth/requireauthentication.go:24-45 | the guards after the header produce the state machine's outcome and calls |
| `StringSet.FirstIndex` | server/main.go:235-236 | the position of the first occurrence: it holds the string and no earlier one does |
| `StringSet.FirstOccurrences` | server/main.go:232-244 | the de-duplicated slice is no longer than the input and holds exactly the input's strings |
| `StringSet.FirstOccurrencesNoDuplicates` | server/main.go:232-244 | after toSet no string occurs twice |
| `StringSet.FirstOccurrencesOrdered` | server/main.go:235-241 | kept strings are in the order of their first occurrences |
| `StringSet.FirstOccurrencesOfDistinct` | server/main.go:235-243 | a duplicate-free slice is left unchanged |
| `StringSet.FirstOccurrencesIdempotent` | server/main.go:232-244 | applying toSet twice is applying it once |
| `StringSet.FirstOccurrencesAppend` | server/main.go:164-194 | de-duplicating direct names followed by group names keeps the de-duplicated direct names in front |
| `StringSet.ToSet` | server/main.go:232-244 | the in-place compaction leaves exactly the first occurrences, in order, in `a[..w]` |
| `UserData.Gather` | server/main.go:183-193 | walking the response items fails exactly when some item does not decode |
| `UserData.GatherMembership` | server/main.go:183-193 | what is gathered is exactly the union of the items' contributions |
| `UserData.GatherAppend` | server/main.go:183-193 | gathering two runs of items is gathering each and appending |
| `UserData.GatherPermissions` | server/main.go:213-224 | one permission per policy item, in response order |
| `UserData.AppendDecoded` | server/main.go:183-193 | the nested loops over the response tables append every item's contribution in order, or fail on an undecodable item |
| `UserData.AppendItems` | server/main.go:184-192 | the inner loop over one table's items |
| `UserData.PolicyQuery` | server/main.go:142-194 | the names sent to the policies table: an empty user id is refused first, and no name is sent twice |
| `UserData.LoadUser` | server/main.go:142-228 | the reference result of the fetcher: an empty user id is refused; a loaded principal carries the requested identity, whose user id is not empty |
| `UserData.UserDataFetcher` | server/main.go:142-230 | the fetcher's guards, lookups, aggregation, toSet and assembly produce exactly the specified principal or error |
| `UserData.EmptyUserIdRefused` | server/main.go:145-147 | an empty user id is refused before any lookup, whatever the store holds |
| `UserData.PolicyQueryNames` | server/main.go:164-194 | the queried names are duplicate-free, are exactly the direct and group names, and keep the direct names first |
| `UserData.LoadedUser` | server/main.go:213-228 | a loaded principal carries the requested identity and one permission per returned policy, in order |
| `UserData.EmptyUserIdAnsweredWithUserIdError` | server/main.go:145-147 | through the handler, an empty user id is answered with 500 "UserID error" |
| `UserData.ForwardedIdentityIsDecoded` | server/main.go:226-227 | through the handler, the forwarded principal's identity is the decoded one, with verified e-mail and a non-empty user id |

## Left out

- `OAuthUserIdentityFetcher` (server/auth/user.go:32-54): an HTTP call to the identity provider. It is the `fetchIdentity` parameter. The 500 responses it writes itself before returning are not modelled.
- JSON decoding of the user-info body: it is the `decode` parameter.
- DynamoDB `GetItem` and `BatchGetItem`, and `attributevalue.UnmarshalMap`: these are the `Store` lookups, which return `None` for a failed call and `Undecodable` for an item that does not decode. Batch request limits and unprocessed keys are part of that abstraction.
- The loops that build the key maps `policyGroupsForQuery` and `avs` (server/main.go:167-172, 196-201): a lookup receives the names directly.
- The order of `Responses`: Go iterates a map, so the order of the response tables is arbitrary. The model takes the tables in the order the store gives them.
- Regular-expression matching of action patterns: it is the `Matcher` parameter. Only its three possible results are modelled.
- Error message strings returned by the strategy and the fetcher: the pipeline only tests them against nil, so they become the reasons of `Deny` and `StoreError`.
- Header-name canonicalisation in `http.Header.Get`: the header map is taken as already canonical.
- Response writing and logging in `errorhandler.ReturnError`: the outcome records the status and body it would write.
- Attaching the principal to the request context under the key "User": this becomes the `Forwarded(user)` outcome.
- The `user` record that the handler passes by pointer and the fetcher fills in: the fetcher returns the principal instead.
- `spaHandler`, `main`, `pingHandler` and configuration loading: these are outside the authorization core.
- Strings are sequences of Unicode characters, not of bytes: `TrimSpace` and `Split` are modelled on characters. Invalid UTF-8 is not modelled.
