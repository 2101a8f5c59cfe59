# CourtKnights: verified models

This project models three stateful parts of CourtKnights in Dafny and proves properties of them.

1. **Profile patches.** A PATCH request on a profile is parsed into a tri-state patch, checked by the
   location rules against the row it read, compiled to one SQL `UPDATE`, and executed on a row guarded by a
   CHECK constraint. The project gives the request its meaning (section 2 of RFC 7396 on the profile's JSON
   view), proves that compilation to SQL preserves it, and proves what holds when any number of requests
   interleave.
2. **The OAuth fake.** The store of authorization codes, device requests and tokens is a state machine whose
   operations run under one lock. The project proves which words of answers a device code can give, how often
   and how fast, that clients do not influence each other, and where tokens come from (sections 3.4 and 3.5 of
   RFC 8628, section 4.1.2 of RFC 6749).
3. **Accounts, logins and personal access tokens.** Logins and the admin bootstrap are sequences of separately
   committed steps over the users, profiles and tokens tables. The project proves what any interleaving of
   them keeps, what a raw key resolves to, and that two data transformations (migration 004 and pagination)
   preserve meaning.

## Files

| file | content |
|---|---|
| `Wrappers.dfy` | Option and Result |
| `TextOrder.dfy` | the lexicographic order on strings |
| `Json.dfy` | JSON values and the MergePatch algorithm of RFC 7396 |
| `Location.dfy` | ISO dataset, location validation, SQL LIKE and the CHECK of migration 005 |
| `Dates.dfy` | YYYY-MM-DD dates |
| `Profile.dfy` | the row, the tri-state patch, its direct application, the JSON view |
| `PatchParser.dfy` | request members to patch |
| `LocationRules.dfy` | the manager's location rules and the race they leave open |
| `UpdateSql.dfy` | the SQL statement as a syntax tree, its evaluator, the compiler and its correctness |
| `ProfileStore.dfy` | statement builder, repository and manager objects |
| `PatchSemantics.dfy` | what a whole request means; replaying and echoing |
| `PatchRequests.dfy` | what particular requests are answered, text by text and error by error |
| `PatchProtocol.dfy` | interleaved requests: safety, conflicts, lost updates |
| `UserCodes.dfy` | user-code generation and normalisation |
| `OAuthStore.dfy` | the store: transitions, runs, index invariant, the object |
| `DeviceFlow.dfy` | the answers one device request gets, and how many are "pending" |
| `DevicePace.dfy` | the growing interval, polite clients, the point past which polling is useless |
| `StoreAnswers.dfy` | every answer of the store, told from the operations before it |
| `NonInterference.dfy` | other clients do not matter |
| `Provenance.dfy` | where tokens come from |
| `Accounts.dfy` | users and PAT tables, repositories, user manager, key resolution |
| `Sessions.dfy` | logins, bootstraps, role and PAT operations as one system, and its invariant |
| `LoginRuns.dfy` | accounts, roles, logins and profiles over runs; the login object |
| `PatRuns.dfy` | what a PAT resolves to over runs, and for how long |
| `BootstrapRuns.dfy` | the first admin: what a bootstrap achieves and what a broken one costs |
| `Migration004.dfy` | migration 004 |
| `Listing.dfy` | the paginated list |

`dafny verify dfyconfig.toml` checks the whole project.

## Modelling choices

- The country dataset is a value. All that is assumed of it is what migration 005 relies on: an alpha-2 code is
  two capital letters, and a subdivision code starts with its country's code and a hyphen. One statement
  (`Location.CheckExceedsValidity`) also needs that no two countries share a code, and says so.
- Random values (codes, tokens, keys, salts, generated row ids) are arguments. They are required to be new where
  the code relies on it; only user codes are retried on collision, as in the code.
- Times are integers that are arguments of each operation; runs of the store require a clock that does not go
  back. The hash of a PAT is a parameter, assumed injective only where a statement says so.
- A concurrent run of the store is a sequence of operations, because each holds the lock throughout. A
  concurrent run of the API is a sequence of database round trips, each of which is atomic; checking a
  token and signing one happen with the round trip next to them.
- A token, once issued, can be presented for ever: expiry of JWTs is not modelled, so every statement about
  what no token holder can do also covers expired ones. Tokens cannot be forged. The role a request acts with
  is the one in its token.
- The tri-state `Field` has the three values its constructors can build; a value without `Set`, which the Go
  struct could hold and no code builds, does not exist.

## Findings

- The CHECK of migration 005 alone does not make a location valid (`Location.CheckExceedsValidity` says by how
  much, `Location.CheckAdmitsInvalid` that every real country is affected), yet no interleaving of requests can
  commit an invalid one: `LocationRules.CheckClosesTheGap`, `PatchProtocol.LocationsStayValid`.
- Patches that touch no common column do not always commute: one that writes only the country and one that
  writes only the region can each have the other refused. `PatchProtocol.WritesCommuteExact` gives the exact
  condition, `PatchProtocol.CrossingWritesConflict` the failing input: a row in FR, a client about to write FR
  again, a move to ES in between, and a client about to write the region ES-M.
- A polite device client can be told to slow down: the announced interval is truncated to whole seconds.
  `DevicePace.PoliteExact` gives the exact condition, `DevicePace.SlowedThoughPolite` the failing run.
- Patching a rendered profile back is refused when its display name is blank, which a provider can cause:
  `PatchSemantics.EchoIsHarmless` is an equivalence, `PatchSemantics.BlankNameEcho` the failing input, and
  `PatchProtocol.EchoFailsOnlyOnGivenName` shows that no patch can bring this about.
- Retrying repairs a partially failed login (`LoginRuns.RetryRepairs`) but not a partially failed bootstrap: a
  bootstrap achieves something exactly when there is no account yet (`BootstrapRuns.BootstrapRetryExact`). One
  that breaks right after the admin's row locks everybody out of every admin operation for ever, as does a
  user who logs in first: `BootstrapRuns.RecoverExact`, `BootstrapRuns.PartialBootstrapIsFinal`.
- A token obtained with a PAT may belong to a user without a profile: `LoginRuns.TokenProfileExact` says
  exactly when, `BootstrapRuns.PatTokenWithoutProfile` is the failing run.
- A login's token carries the role its account had at the upsert, not at the signing
  (`LoginRuns.LoginTokenRole`); a refreshed one the present role (`LoginRuns.RefreshTokenRole`).

## Model

| member | source | states |
|---|---|---|
| Location.ValidateLocationExact | api/internal/domain/profile/validate.go:30-80 | the guards accept exactly the valid locations: country null or a real alpha-2 code, region null or a subdivision of that country |
| Location.RefusalReasons | api/internal/domain/profile/validate.go:30-80 | which guard refuses an invalid location |
| Location.LikePrefix | db/migrations/005_user_profiles_region_country_check.up.sql:12 | LIKE with a wildcard-free prefix is the prefix order |
| Location.CheckIsPrefixTest | db/migrations/005_user_profiles_region_country_check.up.sql:3-12 | for a real country code the CHECK holds exactly when the region starts with the code and a hyphen |
| Location.ValidPassesCheck | db/migrations/005_user_profiles_region_country_check.up.sql:5-7 | every valid location passes the CHECK |
| Location.CheckIdentifiesOwner | db/migrations/005_user_profiles_region_country_check.up.sql:3-12 | an owned region passes the CHECK against a real country exactly when that country is its owner |
| Location.CheckExceedsValidity | db/migrations/005_user_profiles_region_country_check.up.sql:3-12 | a location passes the CHECK without being valid exactly when its country is not a real code or its region has the prefix but is no subdivision |
| Location.CheckAdmitsInvalid | db/migrations/005_user_profiles_region_country_check.up.sql:10-12 | in every dataset each real country admits such a row |
| Dates.ParseOfFormat | api/internal/api/profile/handler.go:164-167 | a printed date of birth parses back to itself |
| Dates.FormatOfParse | api/internal/api/profile/patch.go:158-168 | a text that parses is the one the date prints as |
| Dates.ParseDateExact | api/internal/api/profile/patch.go:158-168 | a text is a date exactly when it has the form YYYY-MM-DD and its digits write the numbers of a day that exists |
| Dates.DaysAreConsecutive | api/internal/api/profile/patch.go:163 | the days that exist are those of the Gregorian calendar: counted from a fixed day, each is followed by the next |
| Dates.YearLength | api/internal/api/profile/patch.go:163 | a year has 365 days, a leap year 366 |
| Profile.ApplyKeepsEnums | api/internal/domain/profile/patch.go:37-74 | a parsed patch can only break a valid row through its location |
| Profile.ReadOfView | api/internal/api/profile/handler.go:149-185 | the JSON view of a row determines the row |
| PatchParser.RejectUnknown | api/internal/api/profile/patch.go:113-125 | reports the least unknown member in sorted order, and nothing exactly when there is none |
| TextOrder.AtMostExact | api/internal/api/profile/patch.go:123 | the order unknown members are sorted in is that of the first differing character |
| PatchParser.PreferencesField | api/internal/api/profile/patch.go:72-99 | null clears, an object is read member by member, anything else is refused |
| PatchParser.ParseProfilePatch | api/internal/api/profile/patch.go:26-68 | the method computes the specified parse, first offending member first |
| PatchParser.ParseExact | api/internal/api/profile/patch.go:26-180 | parsing succeeds on exactly the bodies section 3 of ADR-015 describes, and yields only allowed enumerated values |
| PatchRequests.ParseStringExact | api/internal/api/profile/patch.go:171-180 | a text is refused exactly when all its characters are white space, and is otherwise taken as it is |
| PatchRequests.TextRequest | api/internal/api/profile/patch.go:171-180 | a PATCH of the city or name alone stores the text as it is, exactly when some character is not white space |
| PatchRequests.EnumsExact | api/internal/api/profile/patch.go:52-63 | the genders and categories accepted, and no other |
| PatchRequests.PreferenceValuesExact | api/internal/api/profile/patch.go:90-97 | the court sides and hands accepted, and no other |
| PatchRequests.ErrorsExact | api/internal/api/profile/patch.go:26-99 | which error a refused request gets: the first unknown member, else the first offending member in column order, with its own reason |
| PatchRequests.NoProfileExact | api/internal/api/profile/handler.go:86-93 | "not found" is answered exactly to a well-formed request of a user without a profile |
| LocationRules.RulesExact | api/internal/application/profile/manager.go:101-121 | on a valid row the rules accept exactly the patches that lead to a valid location |
| LocationRules.RulesVet | api/internal/application/profile/manager.go:101-121 | what the rules leave true of a patch, whatever the row becomes later |
| LocationRules.CheckClosesTheGap | db/migrations/005_user_profiles_region_country_check.up.sql:3-12 | a vetted patch over any valid row passes the CHECK exactly when the result is fully valid, and exactly when it does not collide with what the row has become |
| UpdateSql.MergeIsMemberwise | api/internal/infrastructure/postgres/profile_repository.go:140-160 | the single JSONB expression equals merging preferences member by member |
| UpdateSql.PreferencesSound | api/internal/infrastructure/postgres/profile_repository.go:140-160 | the preferences clause means the direct merge and touches no other column |
| UpdateSql.CompileSound | api/internal/infrastructure/postgres/profile_repository.go:70-91 | for every patch and row the clauses evaluate to the directly patched row |
| UpdateSql.PlaceholdersExact | api/internal/infrastructure/postgres/profile_repository.go:113-135 | placeholders 1..n are used once each, in order; the last one is the user id in WHERE |
| UpdateSql.ColumnsDistinct | api/internal/infrastructure/postgres/profile_repository.go:75-88 | no column is assigned twice |
| UpdateSql.RunIsApply | api/internal/infrastructure/postgres/profile_repository.go:88-105 | executing a compiled patch is applying it: no SQL error, the user's row only, a CHECK decides on the patched row |
| ProfileStore.UpdateBuilder.Arg | api/internal/infrastructure/postgres/profile_repository.go:114-117 | appends the argument and returns its number |
| ProfileStore.UpdateBuilder.SetField | api/internal/infrastructure/postgres/profile_repository.go:126-135 | nothing, NULL or the value, by the three states of the field |
| ProfileStore.UpdateBuilder.MergePreferences | api/internal/infrastructure/postgres/profile_repository.go:140-160 | adds the specified clause with its three arguments, or nothing for an empty patch |
| ProfileStore.MergePreference | api/internal/infrastructure/postgres/profile_repository.go:165-173 | a value goes to the additions, a cleared member to the removals |
| ProfileStore.ProfileRepository.EnsureExists | api/internal/infrastructure/postgres/profile_repository.go:32-43 | creates the row only if there is none, showing the name and nothing else, stamped now |
| ProfileStore.NewProfile | api/internal/infrastructure/postgres/profile_repository.go:32-43 | a new profile shows its display name and empty preferences, and nothing else |
| ProfileStore.WriteResultExact | api/internal/infrastructure/postgres/profile_repository.go:70-105 | an empty patch only reads; a write conflicts exactly when the region/country CHECK alone stands against the patched row |
| ProfileStore.ProfileRepository.Update | api/internal/infrastructure/postgres/profile_repository.go:70-105 | the built and executed statement has the specified effect; a refused write changes nothing |
| ProfileStore.ProfileManager.Update | api/internal/application/profile/manager.go:71-90 | read, rules, write; every error leaves the table unchanged |
| ProfileStore.ProfileManager.Patch | api/internal/api/profile/handler.go:69-105 | the whole request; every error leaves the table unchanged |
| PatchSemantics.PatchIsMerge | api/internal/api/profile/patch.go:22-99 | a parsed patch does to the row what RFC 7396 section 2 does to its JSON view |
| PatchSemantics.SaysNothingExact | api/internal/domain/profile/patch.go:58-79 | a patch is empty exactly when the request has no member, or only an empty preferences object |
| PatchSemantics.RulesAreEffectiveMembers | api/internal/application/profile/manager.go:101-108 | rule 2 amounts to a null region added to the request when the country really changes |
| PatchSemantics.PatchIsMergePatch | api/internal/application/profile/manager.go:71-121 | served alone on a valid row, a request is accepted exactly when its members are allowed and the merged resource has a valid location; the new row is the merged resource; a refusal is a client error |
| PatchSemantics.WriteAlone | api/internal/application/profile/manager.go:80-89 | run alone, rules that succeed imply that every CHECK passes |
| PatchSemantics.ReplayIsHarmless | api/internal/application/profile/manager.go:71-129 | a successful request repeated at once succeeds and leaves the same row up to updated_at |
| PatchSemantics.EchoIsHarmless | api/internal/api/profile/handler.go:149-185 | patching a rendered profile back succeeds exactly when name and city are not blank, and changes only updated_at |
| PatchSemantics.BlankNameEcho | api/internal/api/profile/patch.go:128-180 | the failing input: a profile created with a blank name |
| PatchRequests.ResponseExact | api/internal/api/profile/handler.go:149-185 | the response shows every member of the resource, null where there is none, the known preferences only, and the row's stamp |
| PatchProtocol.WriteExact | api/internal/infrastructure/postgres/profile_repository.go:93-104 | a write of a vetted patch conflicts exactly when it collides, and otherwise commits a valid row |
| PatchProtocol.LocationsStayValid | api/internal/application/profile/manager.go:71-121 | under any interleaving every row and every answer keeps a fully valid location, and no request fails internally |
| PatchProtocol.ConflictExact | api/internal/infrastructure/postgres/profile_repository.go:99-101 | in every reachable state a write conflicts exactly when it collides with the present row, whose location then differs from the one read |
| PatchProtocol.ConflictNeedsWriter | api/internal/infrastructure/postgres/profile_repository.go:99-101 | a conflict implies that a patch committed between the request's read and write wrote the country or the region |
| PatchProtocol.NoLostUpdates | api/internal/infrastructure/postgres/profile_repository.go:137-173 | after any interleaving each column and each preference key, known or not, holds what the last committed patch that touched it wrote |
| PatchProtocol.WritesCommuteExact | api/internal/infrastructure/postgres/profile_repository.go:65-105 | in every reachable state the guarded writes of two requests with disjoint footprints, or of different users, commute (same answers, same table up to updated_at) exactly when they do not cross |
| PatchProtocol.CrossingWritesConflict | api/internal/infrastructure/postgres/profile_repository.go:99-101 | the failing input, with the run that reaches it: country-only and region-only patches, each of which has the other refused |
| PatchProtocol.EchoFailsOnlyOnGivenName | api/internal/api/profile/patch.go:128-141 | after any run a rendered profile can be patched back exactly when its name is not blank, and a blank name is the one the profile was created with |
| PatchProtocol.AdjacentStepsAreSequential | api/internal/application/profile/manager.go:71-90 | a request whose read and write are adjacent behaves as the sequential service |
| UserCodes.NormalizeUserCode | tools/oauthfake/store.go:227-241 | the loop capitalises the letters, drops the rest and restores the dash |
| UserCodes.SpellCode | tools/oauthfake/store.go:212-218 | spells eight random bytes over the alphabet with a dash in the middle |
| UserCodes.NewUserCode | tools/oauthfake/store.go:206-223 | returns the first drawn code that is free |
| UserCodes.NormalizeIdempotent | tools/oauthfake/store.go:225-241 | normalising twice is normalising once |
| UserCodes.NormalizeFindsCode | tools/oauthfake/store.go:225-241 | a text normalises to an issued code exactly when its letters spell that code |
| UserCodes.NormalizeExact | tools/oauthfake/store.go:225-241 | a text normalises to an issued code exactly when it types the code's letters in order, each as a capital or as the small letter 32 code points above it, with no other letter anywhere |
| UserCodes.CodeOfExact | tools/oauthfake/store.go:206-218 | byte i picks letter i among the twenty consonants |
| UserCodes.EveryCodeDrawn | tools/oauthfake/store.go:206-218 | every code of the form can be drawn |
| OAuthStore.StepKeepsIndex | tools/oauthfake/store.go:120-146 | every operation keeps the user-code index and the device map mutually inverse and never misses a lookup |
| OAuthStore.LookupNeverMisses | tools/oauthfake/store.go:137-146 | the same at every point of every run |
| OAuthStore.SpelledCodeResolves | tools/oauthfake/store.go:137-158 | in every reachable state any text that types a live device's letters, in either case, resolves that device and changes nothing else |
| OAuthStore.Store.IssueCode | tools/oauthfake/store.go:87-93 | the object performs the specified transition |
| OAuthStore.Store.RedeemCode | tools/oauthfake/store.go:97-109 | the object performs the specified transition, burning the code even when it is refused |
| OAuthStore.Store.StartDevice | tools/oauthfake/store.go:120-134 | the object performs the specified transition with a user code that was free |
| OAuthStore.Store.ResolveDevice | tools/oauthfake/store.go:137-158 | the object performs the specified transition; its index lookup cannot fail |
| OAuthStore.Store.PollDevice | tools/oauthfake/store.go:161-187 | the object performs the specified transition |
| OAuthStore.Store.LookupToken | tools/oauthfake/store.go:190-198 | the object gives the specified answer |
| DeviceFlow.RunProjects | tools/oauthfake/store.go:161-187 | in any run of the store a device and its answers evolve as the device alone does |
| DeviceFlow.AnswersFormDeviceWord | tools/oauthfake/store.go:161-187 | over any run the answers for a device code are invalid_grant until it exists, then (pending or slow_down)*, then one token and only invalid_grant, or access_denied* and then expired_token* |
| DevicePace.IntervalInRuns | tools/oauthfake/store.go:182-185 | in any run the stored interval is the configured one plus five seconds per slow_down |
| DevicePace.PendingSpacing | tools/oauthfake/store.go:172-186 | in any run a pending answer comes at least that interval after any earlier poll that was told to wait |
| DeviceFlow.PendingBudget | tools/oauthfake/store.go:172-186 | what is left of the lifetime, divided by the current interval, bounds the pending answers to come |
| DeviceFlow.PendingAnswersBounded | tools/oauthfake/store.go:161-187 | in any run a device code gives at most 1 + codeTTL / interval pending answers |
| DevicePace.PoliteExact | tools/oauthfake/server.go:184-185 | in no run is a client that keeps the announced interval slowed down, exactly when the interval is a whole number of seconds or the code expires before a second polite poll |
| DevicePace.SlowedThoughPolite | tools/oauthfake/server.go:184-185 | the failing run: two polls exactly the announced interval apart |
| DevicePace.TooSlowToEverPend | tools/oauthfake/store.go:172-186 | in any run, once the interval exceeds the lifetime, a polled and still pending device only answers slow_down or expired_token |
| NonInterference.OthersDoNotInterfere | tools/oauthfake/store.go:120-187 | deleting every operation that does not name a device request from any run changes none of its answers nor its state |
| NonInterference.OnlyOwnOperationsMatter | tools/oauthfake/store.go:120-187 | two runs that agree on the operations naming a request agree on its answers and state |
| Provenance.TokensHaveProvenance | tools/oauthfake/store.go:97-204 | every token stems from one used-up code or redeemed device, distinct tokens from distinct ones, with that source's provider and identity; a device is redeemed exactly when a token stems from it |
| Provenance.AdvanceExtends | tools/oauthfake/store.go:151-204 | no operation rewrites an issued code, an approval, a token or its source |
| Provenance.UsedCodeIsDead | tools/oauthfake/store.go:97-109 | a used or burnt code is never redeemed again |
| Provenance.ApprovalDelivers | tools/oauthfake/store.go:161-198 | the first timely poll of an approved device gives a token that opens the approved identity, for its provider only, after any further operations |
| StoreAnswers.CodeExact | tools/oauthfake/store.go:87-109 | in any run the first presentation of an issued code by its provider gives a token exactly when at most codeTTL has passed since the issue and the redirect is empty or the one of the issue; the token opens the identity given at issue; the code is dead either way |
| StoreAnswers.ForeignCode | tools/oauthfake/store.go:97-103 | a code that provider was never issued is refused and nothing changes |
| StoreAnswers.LookupExact | tools/oauthfake/store.go:190-198 | a bearer token is accepted exactly when the run answered with it and the provider is its source's; it opens that source's identity; any other is refused |
| StoreAnswers.PollExact | tools/oauthfake/store.go:161-187 | after any run a poll is answered exactly as the record of earlier operations and answers demands |
| StoreAnswers.ResolveExact | tools/oauthfake/store.go:137-158 | after any run a text that spells a device's code decides it exactly when it is undecided and in time; otherwise which error |
| Accounts.UpsertExact | api/internal/infrastructure/postgres/user_repository.go:98-118 | an upsert is refused exactly when a different account holds the email; otherwise it keeps id and role of the existing account, or inserts, and keeps both uniqueness constraints |
| Accounts.UpsertByColumns | api/internal/infrastructure/postgres/user_repository.go:98-118 | the same, column by column |
| Accounts.UniqueExact | db/migrations/001_create_users.up.sql:5-14 | the two uniqueness constraints, column by column |
| Accounts.UpsertFindsSameAccount | api/internal/infrastructure/postgres/user_repository.go:95-118 | a later login of an identity finds the account of its first |
| Accounts.UserRepository.Upsert | api/internal/infrastructure/postgres/user_repository.go:98-118 | the statement has the specified effect; a refusal changes nothing |
| Accounts.UserRepository.FindByEmail | api/internal/infrastructure/postgres/user_repository.go:66-81 | finds the holder of the email, if there is one |
| Accounts.UserRepository.UpdateRole | api/internal/infrastructure/postgres/user_repository.go:130-141 | changes that role only; reports a missing user |
| Accounts.PatRepository.FindAll | api/internal/infrastructure/postgres/pat_repository.go:28-49 | returns each row of the table exactly once, in some order |
| Accounts.PatRepository.Save | api/internal/infrastructure/postgres/pat_repository.go:67-79 | adds the row |
| Accounts.PatRepository.Delete | api/internal/infrastructure/postgres/pat_repository.go:82-93 | removes the row and reports whether there was one |
| Accounts.UserManager.ResolveByOAuth | api/internal/application/auth/user_manager.go:41-75 | finds or creates the account; a refusal changes nothing and tells the owner's provider unless it is "pat" |
| Accounts.UserManager.CreatePAT | api/internal/application/auth/user_manager.go:108-132 | stores the salted hash for an existing user, saves nothing otherwise, and never touches the users table |
| Accounts.UserManager.RevokePAT | api/internal/application/auth/user_manager.go:134-139 | removes that PAT only |
| Accounts.UserManager.BootstrapAdmin | api/internal/application/auth/user_manager.go:164-200 | creates the first account with its PAT, and does nothing once any account exists |
| Accounts.UserManager.ResolveByPAT | api/internal/application/auth/user_manager.go:77-102 | the loop resolves the first matching row of some order of the table |
| Accounts.MatchExact | api/internal/application/auth/helpers.go:16-20 | with an injective hash a row matches a raw key exactly when it was made for that key |
| Accounts.ResolveExact | api/internal/application/auth/user_manager.go:77-102 | in whatever order the rows come, a key resolves to u exactly when a live, unexpired grant of u has it; each error is characterised |
| Sessions.NextOk | api/internal/application/auth/manager.go:76-171 | every committed step keeps the system invariant and every account's identity and, but for UpdateRole, role |
| LoginRuns.AccountsAreStable | api/internal/application/auth/user_manager.go:41-75 | over any run emails and identities stay unique, an identity keeps its first user id, and a role is what the last UpdateRole by an admin made it |
| LoginRuns.SameIdentitySameUser | db/migrations/001_create_users.up.sql:3-15 | two logins of one identity are logins of one user |
| LoginRuns.LoginTokenRole | api/internal/application/auth/manager.go:76-89 | a login's token has the role of its account at the login's upsert; the present role differs only by what admins set in between |
| LoginRuns.RefreshTokenRole | api/internal/application/auth/manager.go:118-140 | a refresh, however old the token it presents, gives the role the last UpdateRole by an admin left the user with |
| LoginRuns.RetryRepairs | api/internal/application/auth/manager.go:76-89 | from any reachable state a login run to its end succeeds exactly when no different account holds its email, keeping an existing profile; otherwise nothing changes |
| LoginRuns.RefusalDisclosesOwner | api/internal/application/auth/user_manager.go:69-75 | a refused login is told the present holder's provider, never "pat" |
| LoginRuns.ProfileExact | api/internal/application/auth/manager.go:85-87 | after any run an account has a profile exactly when some login or bootstrap of it committed its EnsureExists |
| LoginRuns.EditsSurvive | api/internal/infrastructure/postgres/profile_repository.go:29-43 | a profile is what the last edit presented with a token of its owner made it: each takes effect, no other does, and no login overwrites them |
| LoginRuns.TokenProfileExact | api/internal/application/auth/manager.go:76-116 | a token's user has a profile exactly when such a step occurred; a token without one goes back to the PAT of a bootstrap account, or to one an admin made for an account whose logins stopped short |
| LoginRuns.OAuthTokensHaveProfiles | api/internal/application/auth/manager.go:76-108 | every token of an OAuth login belongs to a user with a profile |
| LoginRuns.AuthManager.SignIn | api/internal/application/auth/manager.go:76-108 | account, profile, token in this order; refused exactly when a different account holds the email, and then nothing changes |
| PatRuns.PatsResolveToTheirUser | api/internal/application/auth/user_manager.go:77-102 | an exchange whose two queries surround any other steps gives a token for u exactly when a live, unexpired grant of u had the key at the first; its role is that of the second |
| PatRuns.CreatePatExact | api/internal/application/auth/user_manager.go:108-132 | a PAT is stored, for the user, key and expiry asked for, exactly when an admin's token was presented and the user existed |
| PatRuns.GrantsArePermanent | api/internal/application/auth/user_manager.go:104-139 | over any run a PAT is live exactly until an admin revokes it and never changes |
| BootstrapRuns.BootstrapRetryExact | api/internal/application/auth/manager.go:158-171 | a bootstrap run to its end, first or repeated, gives an admin with profile and working key exactly when no account exists; otherwise nothing changes |
| BootstrapRuns.AdminStartsWithBootstrap | api/internal/api/pats/handler.go:30-33 | in any run a PAT exists only once a bootstrap stored its own; until then no token has the admin role |
| BootstrapRuns.LockedOut | api/internal/api/users/handler.go:37-40 | with an account, no PAT ever made and no bootstrap under way, no PAT, admin token or role change ever comes |
| BootstrapRuns.RecoverExact | api/internal/application/auth/user_manager.go:164-171 | in such a reachable state a first PAT is still possible exactly when there is no account |
| BootstrapRuns.StrandedForever | api/internal/application/auth/manager.go:158-171 | an admin left without a profile by a broken bootstrap never gets one |
| BootstrapRuns.PartialBootstrapIsFinal | api/internal/application/auth/manager.go:158-171 | the failing input for retrying a bootstrap: it breaks after the admin's row, and nobody is ever an admin |
| BootstrapRuns.PatTokenWithoutProfile | api/internal/application/auth/manager.go:110-116 | the failing run for "every token's user has a profile": a bootstrap that breaks after storing its PAT |
| Migration004.PatTable.Backfill | db/migrations/004_link_personal_access_tokens_to_users.up.sql:13-17 | each PAT gets the account whose provider_id is its id, if there is one |
| Migration004.OldOwnerExact | db/migrations/004_link_personal_access_tokens_to_users.up.sql:13-17 | the owner a PAT is linked to is the account with provider "pat" whose provider_id is the PAT's id |
| Migration004.PatTable.DeleteOrphans | db/migrations/004_link_personal_access_tokens_to_users.up.sql:19-21 | keeps exactly the PATs that have an owner |
| Migration004.PatTable.SetNotNull | db/migrations/004_link_personal_access_tokens_to_users.up.sql:23-24 | succeeds exactly when every row has an owner |
| Migration004.Up | db/migrations/004_link_personal_access_tokens_to_users.up.sql:8-24 | never fails; keeps exactly the PATs with an old owner, owned by it and otherwise unchanged |
| Migration004.ResolutionPreserved | db/migrations/004_link_personal_access_tokens_to_users.up.sql:11-21 | a key authenticates the same user as before; only keys that authenticated nobody change, to unknown |
| Listing.ListingUnique | api/internal/infrastructure/postgres/profile_repository.go:205-234 | the order by name and id leaves only one possible answer, also when names collate alike |
| Listing.ListingSorted | api/internal/infrastructure/postgres/profile_repository.go:234 | names ascend, and ids among names that collate alike |
| Listing.List | api/internal/infrastructure/postgres/profile_repository.go:209-260 | collects the total of one query and one page of another |
| Listing.TotalTellsPages | api/internal/infrastructure/postgres/profile_repository.go:209-234 | over unchanged data a page holds something exactly when it starts before the total |
| Listing.PagesPartition | api/internal/infrastructure/postgres/profile_repository.go:205-234 | pages read one query at a time give each joined profile exactly once, in order, and later pages are empty |

## Left out

- HTTP, routing, middleware, templates, configuration and wiring: plumbing over libraries.
- SQL text: statements are syntax trees, so the spelling of clauses and of `$n` is not modelled; `buildUpdateQuery` only joins them.
- JSON text: decoding, media types and marshalling of the preferences argument; members are decoded values, and the decoder's case-insensitive match of stored preference keys is not modelled.
- Strings are sequences of characters, not bytes: a two-byte single character as a country is refused as malformed here and as unknown there.
- Reading back a stored preference of the wrong JSON type fails in the code; rows are only required not to hold one (`RowValid`), which every write keeps.
- Column lengths, outages and other database errors: a failed step is a session that stops there.
- The repository's zero time: a device not yet polled is marked explicitly instead of by the zero timestamp.
- Devices are values in the store's map, not shared objects; the store never hands out its pointers.
- `newUserCodeLocked` loops until a free code is drawn; the model takes the draws as an argument that contains one.
- Machine integers: the page offset and durations are unbounded.
- Provider clients, JWT signing and parsing, SHA-256, error-code tables and identity defaults of the fake.
- The redirect and device endpoints of the fake's server, apart from the announced interval: they only dispatch to the store.
- Deletion of users: no code deletes one, so cascades never run.
