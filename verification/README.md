# Verified model of the CasualOS records services

The project models, in Dafny, the stateful core of the records package
(`src/aux-records`) and two small neighbours, and proves what they promise over all
inputs and all runs.

Every controller and in-memory store of the components below is a class here, with the
sources' fields and branches; each of its methods is proved to take the store from
one state to the next exactly as a function says, and the laws are proved about those
functions and about runs of them.

| files | component |
|---|---|
| `Permissions`, `PolicyStore`, `Authorization`, `PolicyController`, `AuthorizationLaws` | the permission language, its first-match search with a greedily chosen role, and exact answers for it |
| `RequestLaws`, `PublicRead`, `GrantLaws`, `UpdateGrants`, `PolicyChanges`, `RoleTargets`, `ListingLaws`, `ListGrants`, `RoleGrants`, `Revocations` | whose roles count and what everyone may read, what grants keep and take away, administrators, role timing, `data.list` |
| `DataRecords`, `DataLaws` | recording, erasing and listing data under markers |
| `AuthStore`, `AuthSteps`, `AuthController` | login requests and sessions: the store, the steps, the controller |
| `AuthCalls`, `LoginAttempts`, `AuthChanges`, `AuthInvariants`, `AuthRuns`, `SessionChains`, `SessionListing`, `SessionKeys`, `SessionTies` | what each call needs and changes, and what every run keeps: chains of sessions, permanent revocation, bounded attempts, exact listing and paging, and how long a key works |
| `Utf8`, `Base64`, `Hashing`, `Keys`, `KeyTexts`, `Records`, `RecordKeys` | session and record keys: printed, parsed, issued, validated |
| `Sorting`, `Aws`, `AwsEncoding`, `AwsOrder` | canonicalisation for AWS Signature Version 4 |
| `Devices` | the dual index of devices and channels |
| `RateLimit` | the fixed-window rate limiter |
| `Chalk` | the string-scanning loops |
| `JsStrings`, `Options`, `Sequences` | JavaScript strings as UTF-16 code units, and shared list facts |

## Assumptions

- A call of a controller is one atomic step with one clock reading, passed in as `now`.
  In the authentication runs the clock is positive and never goes back.
- Random identifiers and secrets are parameters. A run is one in which each generated
  identifier was not in use before.
- Hashes are symbols: equal exactly when their kind, their password bytes and their salt
  bytes are equal. The regular-expression test, letter case and trimming are function
  parameters about which nothing is assumed.
- Numbers are exact integers, strings are sequences of UTF-16 code units, and UTF-8 follows the
  WHATWG encoding standard, including replacement of lone surrogates and removal of one
  leading byte order mark.

## Findings

- Monotonicity fails for `data.update`: granting a permission can turn an allowed update
  into a denied one, because the search then settles on another role
  (`UpdateGrants.GrantCanDenyUpdate`). `UpdateGrants.UpdateAfterGrantExact` says exactly
  when, in terms of the store before the grant.
- It fails for `data.list` too: a grant can hide an item that was listed
  (`ListGrants.GrantCanHideItem`); `ListGrants.ListAfterGrantExact` says exactly when, in
  the same terms.
- Granting a role can take away a creation (`RoleGrants.RoleGrantCanDenyCreate`), because
  the search then settles on the new role. Granting a role that is already held, until an
  earlier time, drops the assignment that runs longer, so after that time even a read is
  lost (`RoleGrants.LapsedGrantDeniesRead`, from `src/aux-records/PolicyController.ts:783-795`).
  `RoleGrants.RoleChangeExact` says exactly what survives.
- Revoking a permission can turn a denied update into an allowed one
  (`Revocations.RevocationCanAllowUpdate`); exactly when:
  `Revocations.AllowedAfterRevocationExact`.
- The check that an update leaves some marker compares lengths
  (`src/aux-records/PolicyController.ts:3921-3923`), so taking off every marker together
  with one that was not there passes it (`RequestLaws.NothingRemains`);
  `RequestLaws.RemainingMeaning` is the exact condition. `recordData` never asks for that.
- Between two closed ends `windowMs` apart the rate limiter allows at most
  `2 * maxHits - 1` requests, one less than two full windows, and that bound is reached for
  every positive window and limit.
- The policy check of `createPublicRecordKey` lets the empty text through
  (`src/aux-records/RecordsController.ts:50-62`); the key it then returns does not parse.
  `Records.EmptyPolicyPasses` shows it and `Records.IssuedKeyValidates` gives the exact
  condition.
- Texts survive a key exactly when they are nonempty, have no lone surrogate and do
  not begin with U+FEFF.
- Two different texts have the same percent encoding exactly when they differ only in lone
  surrogates and U+FFFD in their place (`Aws.UriEncodeExact`).
- Two headers whose names differ only in letter case make the canonical request depend on
  the order they were given in, exactly when their trimmed values differ
  (`AwsOrder.OrderExact`).
- The comment at `src/aux-records/PolicyController.ts:787-792` speaks of keeping role
  entries that outlast the new one; the filter keeps entries of the same role that expire
  no later. The model follows the filter, and `PolicyChanges.GrantTiming` is proved for it.
- Walking session pages by their last expiry loses a session exactly when a page ends
  between two sessions that expire at the same millisecond; `SessionTies.WalkCanMiss`
  reaches such a state.
- `stringReplaceAll` never returns on an empty pattern (`Chalk.EmptyPatternStalls`).

## Model

| member | source | states |
|---|---|---|
| PolicyControllers.PolicyController.BySubjectRole | src/aux-records/PolicyController.ts:3636-3692 | the lazily cached role check answers as if the store were asked every time |
| PolicyControllers.PolicyController.FindPermissionByFilter | src/aux-records/PolicyController.ts:3889-3899 | the search loop returns the first permission that the filters accept, whatever the caches hold |
| PolicyControllers.PolicyController.AuthorizeAnyMarker | src/aux-records/PolicyController.ts:1178-1249 | one subject's read, delete, count, increment, policy or role request, decided at the first marker with a match |
| PolicyControllers.PolicyController.AuthorizeEveryMarker | src/aux-records/PolicyController.ts:1058-1162 | one subject's create or file update: the role of the first marker is held for the rest |
| PolicyControllers.PolicyController.AuthorizeUpdateMarkers | src/aux-records/PolicyController.ts:1284-1467 | one subject's update: markers skipped until a role is found, changes checked, an existing marker needed |
| PolicyControllers.PolicyController.AuthorizeDataList | src/aux-records/PolicyController.ts:1571-1669 | one subject's list: items kept by the greedily chosen role |
| PolicyControllers.PolicyController.AuthorizeAllInstances | src/aux-records/PolicyController.ts:3438-3472 | instances are checked in order until one is denied, and skipped under a valid record key |
| PolicyControllers.PolicyController.ListPermissionsForMarkers | src/aux-records/PolicyController.ts:3474-3510 | each marker's documents are joined with the default documents in front |
| PolicyControllers.PolicyController.AuthorizeRequest | src/aux-records/PolicyController.ts:3307-3436 | a whole request: not too many instances, at least one marker, then the user, then the instances; the caches of one request never show in its answer |
| PolicyControllers.PolicyController.GrantMarkerPermission | src/aux-records/PolicyController.ts:208-309 | an authorized grant appends the permission unless an equal one is there; a refused one changes nothing |
| PolicyControllers.PolicyController.RevokeMarkerPermission | src/aux-records/PolicyController.ts:315-416 | an authorized revocation removes every equal permission and nothing else |
| PolicyControllers.PolicyController.RemoveEqual | src/aux-records/PolicyController.ts:370-380 | the splice loop keeps exactly the other permissions, in order, and says whether it removed any |
| PolicyControllers.PolicyController.GrantRoleTo | src/aux-records/PolicyController.ts:740-861 | an authorized role grant leaves the store as the grant function says; a refused one changes nothing |
| PolicyControllers.PolicyController.RevokeRoleFrom | src/aux-records/PolicyController.ts:870-969 | the same for a role revocation |
| PolicyStore.MemoryPolicyStore.ListPoliciesForMarker | src/aux-records/MemoryPolicyStore.ts:121-134 | default documents come first, then the public-read one where it applies, then the stored one |
| PolicyStore.MemoryPolicyStore.UpdateRolesOf | src/aux-records/MemoryPolicyStore.ts:189-232 | the entity's assignments become the unexpired ones of the given list, and no other entity's change |
| AuthorizationLaws.HasMeaning | src/aux-records/PolicyController.ts:3889-3899 | the search finds something exactly when some permission matches and its role is acceptable |
| AuthorizationLaws.AnyExact | src/aux-records/PolicyController.ts:1178-1249 | allowed exactly when some marker has an eligible match, with the role of the first |
| AuthorizationLaws.CreateExact | src/aux-records/PolicyController.ts:1058-1162 | a creation is allowed exactly when the first marker's first eligible match gives a nonempty role for which every marker grants the creation, and grants the assignment under that role or everyone |
| AuthorizationLaws.UpdateExact | src/aux-records/PolicyController.ts:1284-1467 | an update is allowed exactly when the first role found grants the update and its own change at every touched marker, and the update at an existing marker or at all |
| AuthorizationLaws.PassesMeaning | src/aux-records/PolicyController.ts:1284-1449 | the loop's two flags decide exactly as the declarative conditions |
| AuthorizationLaws.AllowedExact | src/aux-records/PolicyController.ts:3307-3472 | a request is allowed exactly when it is admissible and granted, each on its own, to the user and to every checked instance |
| RequestLaws.EligibleExact | src/aux-records/PolicyController.ts:3604-3692 | a role counts for everyone, for whoever holds it, for the administrator role with a valid key, and every role for the owner as a user where no key speaks instead; never for an instance that bears the owner's id |
| RequestLaws.ManageIgnoresKey | src/aux-records/PolicyController.ts:2585-2660 | a key never changes whether a policy or role request is allowed |
| RequestLaws.ChangeUnderRole | src/aux-records/PolicyController.ts:1094-1131 | putting a marker on or taking it off may be granted under the role in force or to everyone |
| RequestLaws.AnswerJustified | src/aux-records/PolicyController.ts:1058-1162 | every permission that an allowed answer cites stands at its marker, matches its action, and is everyone's or the one role's |
| RequestLaws.RefusalTrue | src/aux-records/PolicyController.ts:1284-1467 | a refusal that names a missing permission is true: it names the refused subject and a marker of the request where nothing grants that action under that role |
| RequestLaws.InstancesAnswered | src/aux-records/PolicyController.ts:3438-3472 | the instances are answered for in order, let through under a key or with the role each was granted |
| RequestLaws.NotLoggedInExact | src/aux-records/PolicyController.ts:3360-3383 | a refused caller is asked to log in exactly when no user and no key was named and the user's part failed |
| RequestLaws.FileLimitExact | src/aux-records/PolicyController.ts:3559-3585 | a size limit covers exactly the files no larger, a list of types exactly the listed ones |
| RequestLaws.TargetExact | src/aux-records/PolicyController.ts:3743-3803 | a list of users covers exactly those it names, a pattern exactly the instances it accepts |
| RequestLaws.ScopeExact | src/aux-records/PolicyController.ts:3544-3557 | a pattern covers exactly the addresses it accepts |
| RequestLaws.EmptyRoleCreatesNothing | src/aux-records/PolicyController.ts:1146-1153 | a first match under the empty role name lets nobody create anything |
| RequestLaws.MarkersExact | src/aux-records/PolicyController.ts:1886-1905 | an update asks about the existing, added and removed markers, each once |
| RequestLaws.RemainingMeaning | src/aux-records/PolicyController.ts:3908-3931 | for markers listed once each, an update is admissible exactly when a marker stays, one is added, or one is taken off that was not there |
| RequestLaws.NothingRemains | src/aux-records/PolicyController.ts:3908-3931 | so taking off every marker and an absent one is admissible and leaves none |
| RequestLaws.FileUpdateExact | src/aux-records/PolicyController.ts:1905-2085 | a file update is granted to a subject exactly when it changes some marker, is admissible, and the first marker's role serves every marker |
| PublicRead.PublicReadable | src/aux-records/PolicyPermissions.ts:847-869 | whatever is stored, everyone, from any instances a request may name, may read public data and files and count public events |
| PublicRead.StrangerExact | src/aux-records/PolicyController.ts:1178-1249 | someone who is neither owner, administrator nor key holder reads, deletes or counts exactly what is public and open, and what a stored document grants |
| PublicRead.NothingElse | src/aux-records/PolicyPermissions.ts:716-869 | where no document is stored, every other request of such a person is refused |
| PublicRead.StrangerLists | src/aux-records/PolicyController.ts:1571-1669 | and such a person lists exactly the public items |
| GrantLaws.GrantsExtend | src/aux-records/PolicyController.ts:270-287 | any number of grants only append to every search order |
| RequestLaws.GrantStores | src/aux-records/PolicyController.ts:255-287 | a grant puts its permission at the end of its document, once |
| GrantLaws.GrantsKeepAllowed | src/aux-records/PolicyController.ts:1905-2085 | no grant of a permission turns an allowed read, delete, create, file, count, increment, policy or role request into a denied one, for a user with any instances, despite greedy roles |
| UpdateGrants.UpdateAfterGrantsExact | src/aux-records/PolicyController.ts:1284-1467 | after any grants an allowed update is still allowed exactly when, for the user and for every checked instance, the search settles on the same role as before or on one that serves the update |
| UpdateGrants.UpdateAfterGrantExact | src/aux-records/PolicyController.ts:270-287 | for one grant the same, decided on the store before it: the granted permission does not come before the first match, or its role would serve the update |
| UpdateGrants.RoleAfterGrant | src/aux-records/PolicyController.ts:1289-1330 | a grant changes the chosen role exactly when it matches under an eligible role at a marker before the first match |
| UpdateGrants.GrantCanDenyUpdate | src/aux-records/PolicyController.ts:1284-1467 | in every such store, default documents included, one more permission for a user with two roles turns an allowed `data.update` into a denied one |
| UpdateGrants.SceneArises | src/aux-records/PolicyController.ts:3474-3510 | such stores exist, for all distinct names |
| RoleGrants.RoleGrantKeepsAllowed | src/aux-records/PolicyController.ts:740-861 | while a granted role lasts, the grant has turned no allowed read, delete, count, increment, policy or role request into a denied one |
| RoleGrants.RoleChangeExact | src/aux-records/PolicyController.ts:783-923 | after a role was granted until any time, or revoked, an allowed request is still allowed, at any later time, exactly when it survives for the grantee: what the grantee gained does not come first or does for the request, or what it lost leaves another match or another role that does; all told from the store before |
| RoleGrants.ListAfterRoleExact | src/aux-records/PolicyController.ts:1571-1669 | the same for a listed item |
| RoleGrants.RoleGrantCanDenyCreate | src/aux-records/PolicyController.ts:1058-1162 | in every such store granting a role turns an allowed `data.create` into a denied one |
| RoleGrants.CreateSceneArises | src/aux-records/PolicyController.ts:3474-3510 | such stores exist, for all distinct names |
| RoleGrants.LapsedGrantDeniesRead | src/aux-records/PolicyController.ts:783-812 | in every such store granting a user the role it holds, until an earlier time, turns an allowed `data.read` after that time into a denied one |
| RoleGrants.ReadSceneArises | src/aux-records/PolicyController.ts:3474-3510 | such stores exist, for all distinct names |
| Revocations.RevocationUndoesGrant | src/aux-records/PolicyController.ts:370-380 | revoking a permission that was not there before its grant gives every document back |
| RequestLaws.RevocationStores | src/aux-records/PolicyController.ts:361-404 | a revocation takes every copy out of its document and nothing else out of anything |
| Revocations.RevocationNeverAllows | src/aux-records/PolicyController.ts:315-416 | revoking a permission never turns a denied read, delete, count, increment, policy or role request into an allowed one |
| Revocations.AllowedAfterRevocationExact | src/aux-records/PolicyController.ts:1284-1467 | a creation, file update or update is allowed after a revocation exactly when the role that each search will settle on will do, told from the store before |
| Revocations.ListAfterRevocationExact | src/aux-records/PolicyController.ts:1571-1669 | the same for a listed item |
| Revocations.RevocationCanAllowUpdate | src/aux-records/PolicyController.ts:1284-1467 | in every such store revoking a permission turns a denied `data.update` into an allowed one |
| GrantLaws.AdminFoundFirst | src/aux-records/PolicyPermissions.ts:716-842 | whatever documents a marker has, an eligible administrator's search ends at an administrator permission of the default document |
| GrantLaws.AlwaysAuthorized | src/aux-records/PolicyController.ts:3604-3634 | in every store, after any grants and revocations, those people may, under the admin role, make every request but a list that names a marker and leaves one |
| GrantLaws.AdministratorsEligible | src/aux-records/PolicyController.ts:3604-3634 | they are the record owner, a holder of the admin role and, where keys count, a holder of a record key |
| ListGrants.AdministratorLists | src/aux-records/PolicyController.ts:1571-1669 | those of them whom a list accepts see exactly the items that carry a marker |
| PolicyChanges.HoldsMeaning | src/aux-records/MemoryPolicyStore.ts:234-250 | a role is held exactly when it is permanent or has an assignment still unexpired |
| PolicyChanges.GrantTiming | src/aux-records/PolicyController.ts:783-812 | after a grant until T the role is held at exactly the later times before T, whatever went before |
| PolicyChanges.RevokeTiming | src/aux-records/PolicyController.ts:911-923 | after a revocation it is not held unless permanent |
| PolicyChanges.OthersUntouched | src/aux-records/MemoryPolicyStore.ts:189-232 | every other role and entity holds what it held at all later times |
| PolicyChanges.LastChangeDecides | src/aux-records/PolicyController.ts:740-975 | over every run the last grant or revocation about a role decides when it is held |
| RoleTargets.TargetGranted | src/aux-records/PolicyController.ts:740-861 | the user or the instance that a grant names holds the role at exactly the later times before its expiry |
| RoleTargets.TargetRevoked | src/aux-records/PolicyController.ts:870-969 | the one a revocation names no longer holds it, unless permanently |
| RoleTargets.TargetOnly | src/aux-records/PolicyController.ts:783-861 | nobody else gains or loses a role, nor the target another one |
| RoleTargets.DurationExact | src/aux-records/PolicyController.ts:3743-3761 | a longest duration covers exactly the grants that end within it |
| RoleTargets.ShorterGrantAllowed | src/aux-records/PolicyController.ts:3119-3140 | whoever may grant a role until some time may grant it until any earlier one |
| RoleTargets.OneTarget | src/aux-records/PolicyController.ts:3743-3803 | with no target or with two, nobody's grant or revocation is allowed |
| ListingLaws.ListItemsExact | src/aux-records/PolicyController.ts:1571-1669 | the greedy loop shows exactly the items its one role may list, in order |
| ListingLaws.OneRoleJustifies | src/aux-records/PolicyController.ts:1571-1669 | one role, for which the subject is eligible, justifies every listed item |
| ListingLaws.ListAuthorizationsExact | src/aux-records/PolicyController.ts:1571-1669 | a list records, marker by marker, exactly the permissions by which its items are found under that role |
| ListingLaws.ListRoleAnswered | src/aux-records/PolicyController.ts:1655-1669 | a list is answered with its one role, or with everyone's where it has none |
| ListingLaws.ListExact | src/aux-records/PolicyController.ts:3384-3401 | with distinct addresses a list returns, in request order, exactly what the user and every checked instance may list |
| ListingLaws.ListIgnoresInstanceOrder | src/aux-records/PolicyController.ts:3384-3401 | neither order nor repetition of instances matters to what is listed |
| ListGrants.ListAfterGrantsExact | src/aux-records/PolicyController.ts:1571-1669 | after any grants a listed item is still listed exactly when, for the user and for every checked instance, the role that will be listed under is the same as now or will find the item, all told from the store before the grants |
| ListGrants.ListAfterGrantExact | src/aux-records/PolicyController.ts:270-287 | for one grant: exactly when the permission does not come before every match there is now, or its role may list the item |
| ListGrants.ListRoleAfterGrant | src/aux-records/PolicyController.ts:1602-1640 | one grant changes the role listed under exactly when it comes first |
| ListGrants.GrantCanHideItem | src/aux-records/PolicyController.ts:1571-1669 | in every such store one more permission hides an item that was listed |
| ListGrants.ListSceneArises | src/aux-records/PolicyController.ts:3474-3510 | such stores exist, for all distinct names |
| DataRecords.DataRecordsController.RecordData | src/aux-records/DataRecordsController.ts:59-245 | recording checks the stored update policy, authorizes a creation or an update with its marker changes, then stores the data |
| DataRecords.DataRecordsController.EraseData | src/aux-records/DataRecordsController.ts:412-534 | erasing checks the stored delete policy and the authorization, and removes one address |
| DataRecords.DataRecordsController.ListData | src/aux-records/DataRecordsController.ts:332-402 | listing authorizes the stored items past the given address |
| DataLaws.RecordExact | src/aux-records/DataRecordsController.ts:59-245 | recording succeeds exactly when somebody is identified, the policies suit the key, and user and instances may create the data, or may exchange its markers and its own policy lets whoever acts |
| DataLaws.RecordChanges | src/aux-records/DataRecordsController.ts:211-222 | what was recorded is read back - data, subject, publisher, both policies, markers - and every other address is as before |
| DataLaws.RecordOrder | src/aux-records/MemoryDataRecordsStore.ts:10-35 | new data comes last in the listing order, overwritten data keeps its place |
| DataLaws.EraseExact | src/aux-records/DataRecordsController.ts:412-534 | erasing succeeds exactly when somebody is identified, the data exists, user and instances are granted its deletion, and its own policy lets whoever acts or that is the maker of the key |
| DataLaws.EraseChanges | src/aux-records/MemoryDataRecordsStore.ts:62-79 | then exactly that address is gone and the others keep their order; a refusal changes nothing |
| DataLaws.CursorExact | src/aux-records/MemoryDataRecordsStore.ts:81-102 | a listing considers exactly the items whose address comes after the given one |
| DataRecords.OverwriteExact | src/aux-records/DataRecordsController.ts:175-192 | overwriting markers E by M is allowed exactly when the chosen role may update at M\E, E\M and one marker of E, and may assign the first and unassign the second |
| DataRecords.OverwriteSound | src/aux-records/PolicyController.ts:1251-1467 | an allowed overwrite means such a role for the user and for every checked instance |
| DataRecords.RecordedOverExisting | src/aux-records/DataRecordsController.ts:172-223 | in every reachable store, when recording succeeds over existing data, the user and every checked instance may under one role exchange its markers, of which there are some |
| DataRecords.RecordedMarkers | src/aux-records/PolicyController.ts:3332-3342 | no allowed recording carries an empty marker list |
| DataRecords.RunKeepsMarkers | src/aux-records/DataRecordsController.ts:175-223 | in every run from an empty store addresses stay distinct and no data is without markers |
| DataRecords.RunListing | src/aux-records/MemoryDataRecordsStore.ts:81-102 | a listing after any run returns exactly the stored items that user and instances may list |
| AuthStore.MemoryAuthStore.SaveUser | src/aux-records/MemoryAuthStore.ts:41-48 | a user with the id is overwritten in place, otherwise added |
| AuthStore.MemoryAuthStore.SaveNewUser | src/aux-records/MemoryAuthStore.ts:50-69 | a new user is added exactly when no stored user shares a nonempty address |
| SessionKeys.AbsentNotTaken | src/aux-records/MemoryAuthStore.ts:50-69 | saving a new user never fails when nobody was found by the address |
| AuthCalls.TakenExact | src/aux-records/MemoryAuthStore.ts:50-69 | a new user is turned away exactly when a stored one shares a nonempty email address or phone number |
| AuthStore.MemoryAuthStore.MarkLoginRequestComplete | src/aux-records/MemoryAuthStore.ts:152-166 | the completion time of the one request is set, and absence is reported |
| AuthStore.MemoryAuthStore.IncrementLoginRequestAttemptCount | src/aux-records/MemoryAuthStore.ts:168-178 | the attempt count of the one request goes up by one |
| AuthStore.MemoryAuthStore.SaveSession | src/aux-records/MemoryAuthStore.ts:180-190 | a session with both ids is overwritten in place, otherwise added |
| AuthStore.MemoryAuthStore.ListSessions | src/aux-records/MemoryAuthStore.ts:192-211 | up to ten of the user's sessions, newest expiry first, after the given expiry |
| AuthControllers.AuthController.RequestLogin | src/aux-records/AuthController.ts:111-304 | every branch of asking for a login, and the state each leaves |
| AuthControllers.AuthController.CompleteLogin | src/aux-records/AuthController.ts:326-500 | every branch of completing one, and the state each leaves |
| AuthControllers.AuthController.ValidateSessionKey | src/aux-records/AuthController.ts:502-628 | the answers to a session key, in the order of the checks |
| AuthControllers.AuthController.RevokeSession | src/aux-records/AuthController.ts:630-714 | every branch of revoking a session, and the state each leaves |
| AuthControllers.AuthController.RevokeAllSessions | src/aux-records/AuthController.ts:720-773 | the same for revoking all |
| AuthControllers.AuthController.ReplaceSession | src/aux-records/AuthController.ts:779-883 | the same for replacing a session by its successor |
| AuthControllers.AuthController.ListSessions | src/aux-records/AuthController.ts:889-972 | one page of sessions with the revocation time each is shown with |
| AuthControllers.AuthController.UpdateUserInfo | src/aux-records/AuthController.ts:1085-1180 | given details replace the stored ones, an API key only with a subscription and in printed form, and the rest of the user stays |
| AuthCalls.IssuedExact | src/aux-records/AuthController.ts:111-310 | a login request is issued exactly when the call is well addressed, the messenger reaches the address, and its user is not banned or, if nobody has it, the rules accept it |
| AuthCalls.IssuedFor | src/aux-records/AuthController.ts:225-300 | it is issued for the user who has the address, for five minutes; a refusal changes nothing |
| AuthCalls.BadlyAddressed | src/aux-records/AuthController.ts:112-162 | a call that is not well addressed is refused and changes nothing |
| AuthCalls.AddressFound | src/aux-records/MemoryAuthStore.ts:89-99 | a user is found by an address exactly when a stored user has it, and then the first of them |
| AuthCalls.NewcomerStored | src/aux-records/AuthController.ts:253-300 | a newcomer is stored last, with that one address, and found by it |
| LoginAttempts.WrongCodeCounted | src/aux-records/AuthController.ts:411-425 | a wrong code adds one attempt to its request and changes nothing else |
| LoginAttempts.RejectedExact | src/aux-records/AuthController.ts:377-425 | a code is answered as wrong exactly when the request is unexpired, uncompleted, asked from the same address and has fewer than five attempts, and the code does not match |
| LoginAttempts.AttemptsCounted | src/aux-records/MemoryAuthStore.ts:168-178 | over every run the attempts stored for a request are exactly the wrong codes answered for it |
| LoginAttempts.FiveWrongCodes | src/aux-records/AuthController.ts:393-409 | so never more than five are answered, and after five every later call for the request is refused and changes nothing |
| AuthCalls.AcceptedExact | src/aux-records/AuthController.ts:502-613 | a key is accepted exactly when it names a stored session, holds its secret, and the session is usable |
| AuthCalls.OnlySecretOpens | src/aux-records/AuthController.ts:530-553 | a key naming a session is accepted with its secret and with no other text |
| AuthCalls.RevokeExact | src/aux-records/AuthController.ts:630-714 | a session is revoked exactly when a key of its own user validates now and it is not revoked yet |
| AuthCalls.RevokeChanges | src/aux-records/AuthController.ts:673-698 | then that session is revoked now and nothing else changes; a refusal changes nothing |
| AuthCalls.RevokeAllExact | src/aux-records/AuthController.ts:720-773 | all sessions of a user are revoked exactly when a key of that user validates now |
| AuthCalls.RevokeAllChanges | src/aux-records/AuthController.ts:754-757 | then that user's revocation time is now, and nothing else changes |
| AuthCalls.ListAllowedExact | src/aux-records/AuthController.ts:889-972 | sessions are listed exactly when a key of their user validates now |
| AuthCalls.UpdateExact | src/aux-records/AuthController.ts:1085-1180 | details are changed exactly when a key of their user validates now |
| AuthCalls.UpdateChanges | src/aux-records/AuthController.ts:1136-1170 | then exactly the given details of that user are replaced, and a stored key of the other service reads back as given |
| AuthCalls.ReplaceExact | src/aux-records/AuthController.ts:779-883 | a session is replaced exactly when its own key validates now; a refusal changes nothing |
| AuthChanges.StepChange | src/aux-records/AuthController.ts:111-883 | every call with fresh identifiers is one of eight changes of the stored lists, each under the conditions that make it proper |
| AuthInvariants.StepKeeps | src/aux-records/AuthController.ts:111-883 | every call keeps the whole invariant, and stored items only evolve: nothing moves, revocation and succession are written once, a completed or exhausted request is frozen |
| AuthInvariants.UnreplacedCount | src/aux-records/AuthController.ts:805-859 | a user's unreplaced sessions grow in number only by a completed login |
| AuthInvariants.OpenedByCompleted | src/aux-records/AuthController.ts:446-476 | the request a session names was completed at the moment the session was granted |
| AuthRuns.Reachable | src/aux-records/AuthController.ts:111-883 | every state reachable from the empty store satisfies the invariant |
| AuthRuns.RevocationWrittenOnce | src/aux-records/AuthController.ts:685-698 | over every run a session's revocation time is written at most once and never lies in the future |
| AuthRuns.RevokeAllNeverDecreases | src/aux-records/AuthController.ts:754-757 | over every run the time all of a user's sessions were revoked never decreases |
| AuthRuns.RefusedForever | src/aux-records/AuthController.ts:554-599 | a key to a stored session refused once, except for a ban, is refused in every later state of every run |
| AuthRuns.ExhaustedNeverCompletes | src/aux-records/AuthController.ts:377-425 | attempts never exceed five, and a request with five is never completed |
| AuthRuns.CompletedOnce | src/aux-records/AuthController.ts:446-476 | a completed request never changes again and has opened exactly one session |
| AuthRuns.OlderNeverCompletes | src/aux-records/AuthController.ts:427-444 | once a newer request exists for a user, no older one completes in any later state, whatever code is entered |
| AuthRuns.IssuingSupersedes | src/aux-records/AuthController.ts:253-276 | issuing a request makes it newer than every earlier request of its user |
| SessionChains.ChainIsLine | src/aux-records/AuthController.ts:805-859 | two sessions have the same origin exactly when the later stored is reached from the earlier by replacements |
| SessionChains.ChainsDisjoint | src/aux-records/AuthController.ts:805-859 | two sessions' chains start alike exactly when they end alike |
| SessionChains.Latest | src/aux-records/AuthController.ts:851-859 | every chain has a last session, of the same user, and every session before it is revoked |
| SessionChains.ChainsAreLogins | src/aux-records/AuthController.ts:446-476 | each chain goes back to exactly one completed login request of its user, different chains to different ones |
| SessionChains.LoginsHaveChains | src/aux-records/AuthController.ts:471-476 | every completed login request is the start of a chain |
| SessionChains.AcceptedByDifferentLogins | src/aux-records/AuthController.ts:554-613 | different accepted sessions go back to different completed login requests |
| SessionChains.AcceptedWithinLogins | src/aux-records/AuthController.ts:805-859 | in every reachable state a user's accepted sessions never outnumber that user's completed login requests |
| SessionListing.ListedTellsVerdict | src/aux-records/AuthController.ts:943-959 | a listed revocation time is there exactly when validation refuses the session for revocation, unless expiry hides it; it is the earliest that applies and not in the future |
| SessionListing.ListedRevocationExact | src/aux-records/AuthController.ts:555-599 | the same for each entry that listing returns in any reachable state |
| SessionListing.ListedFields | src/aux-records/AuthController.ts:936-962 | every other field of an entry is as stored, and the session whose key asked is marked |
| SessionListing.SortedStable | src/aux-records/MemoryAuthStore.ts:192-211 | sessions that expire together are listed in the order they were stored |
| SessionListing.PageExact | src/aux-records/MemoryAuthStore.ts:192-211 | a page is the first ten sessions past the cursor, or all when there are fewer |
| SessionListing.WalkExact | src/aux-records/MemoryAuthStore.ts:192-211 | walking the pages terminates and returns each session of the user once, newest expiry first, exactly when no page boundary splits a tie |
| SessionListing.DistinctExpiriesWalkAll | src/aux-records/MemoryAuthStore.ts:192-211 | distinct expiry times are enough for that |
| SessionTies.WalkCanMiss | src/aux-records/MemoryAuthStore.ts:192-211 | a reachable state where walking misses a session: one login and ten replacements in one millisecond |
| SessionKeys.LoginExact | src/aux-records/AuthController.ts:361-444 | a login just asked for is completed exactly by the code sent, from the same address, before it expires |
| AuthCalls.SessionLifetime | src/aux-records/AuthController.ts:446-486 | the session it opens, and one that replaces another, lasts fourteen days |
| SessionKeys.NewcomerLogsIn | src/aux-records/AuthController.ts:111-500 | in every reachable state an accepted newcomer who enters the code in time gets a key, and the key validates |
| SessionKeys.LoginKeyExact | src/aux-records/AuthController.ts:446-486 | the key of a completed login works, in every later state of every run, exactly while its session is unrevoked and unexpired, all sessions have not been revoked since, and the user is not banned |
| SessionKeys.ReplacementKeyExact | src/aux-records/AuthController.ts:805-876 | the same for the key a replacement returns |
| SessionKeys.ReplacedKeyRetired | src/aux-records/AuthController.ts:853-859 | the key presented for a replacement is refused ever after |
| SessionKeys.RevokeEndsSession | src/aux-records/AuthController.ts:685-698 | revoking a session ends it for good |
| SessionKeys.RevokeAllEndsAll | src/aux-records/AuthController.ts:754-757 | revoking all sessions ends every session the user has, for good |
| Base64.DecodeEncode | src/aux-records/Utils.ts:10-24 | base64 decoding inverts encoding on all bytes |
| Base64.EncodeAlphabet | src/aux-records/Utils.ts:10-14 | encoded text uses only the 64 characters and padding, so never a period |
| Base64.StringRoundTripExact | src/aux-records/Utils.ts:10-24 | a string survives exactly when it has no lone surrogate and no leading byte order mark |
| Keys.SessionKeyRoundTripExact | src/aux-records/AuthUtils.ts:31-135 | parsing inverts formatting of a session key for every natural expiry exactly when the three texts can stand in a key |
| Keys.OpenAiKeyRoundTripExact | src/aux-records/AuthUtils.ts:141-167 | a stored API key reads back exactly when it has no lone surrogate and no leading byte order mark |
| Keys.RecordKeyV1RoundTripExact | src/aux-records/RecordsController.ts:436-442 | the same for the first record key format |
| Keys.RecordKeyV2RoundTripExact | src/aux-records/RecordsController.ts:449-528 | the same for the second, given a policy text that is one |
| Keys.VersionsDisjoint | src/aux-records/RecordsController.ts:464-473 | no text parses in both formats, so the fallback confuses nothing |
| KeyTexts.ScalarBytes | src/aux-records/Utils.ts:10-24 | UTF-8 is that of RFC 3629, section 3: lengths, first bytes, following bytes and bits |
| KeyTexts.DecodedExact | src/aux-records/Utils.ts:16-24 | the decoder reads a character exactly where its UTF-8 stands, and U+FFFD everywhere else |
| KeyTexts.Alphabet | src/aux-records/Utils.ts:10-14 | base64 uses the alphabet of RFC 4648, section 4 |
| KeyTexts.BlockValue | src/aux-records/Utils.ts:10-14 | three bytes and their four characters are one number of 24 bits |
| KeyTexts.SessionKeyLayout | src/aux-records/AuthUtils.ts:31-55 | between its periods a session key has the version, the user, the session, the secret and the expiry, in this order |
| KeyTexts.RecordKeyV2Layout | src/aux-records/RecordsController.ts:449-460 | and a record key the version, the name, the secret and the policy |
| KeyTexts.RecordKeyV1Layout | src/aux-records/RecordsController.ts:436-442 | the older format has the version, the name and the secret |
| Records.RecordsController.CreatePublicRecordKey | src/aux-records/RecordsController.ts:32-140 | every branch of creating a key, and the records and keys stored by each |
| Records.RecordsController.ValidatePublicRecordKey | src/aux-records/RecordsController.ts:147-249 | the answer to a record key, with new hashes tried before old ones |
| Records.MemoryRecordsStore.AddRecordKey | src/aux-records/MemoryRecordsStore.ts:34-41 | a key is added unless one with its name and hash is there |
| RecordKeys.CreatedExact | src/aux-records/RecordsController.ts:32-140 | after any run a key is made exactly when somebody is logged in, the policy is absent, empty or one of the two words, and the record is new or that user's own |
| RecordKeys.CreationChanges | src/aux-records/RecordsController.ts:64-129 | then one key of that user with that policy is added; a refusal changes nothing |
| RecordKeys.CreationRecord | src/aux-records/RecordsController.ts:111-116 | a record is stored, as that user's, exactly where there was none |
| RecordKeys.LegacyExact | src/aux-records/RecordsController.ts:179-216 | a secret hashed in the record itself is accepted, by either hash, as a key that needs a subject, made by the owner |
| Records.IssuedKeyValidates | src/aux-records/RecordsController.ts:64-129 | a returned key validates in all later states to its record, owner and policy exactly when the name can stand in a key and the policy text is one |
| Records.RunIssues | src/aux-records/RecordsController.ts:64-129 | over every run the stored keys are exactly the issued ones, with new hashes |
| Records.ValidateExact | src/aux-records/RecordsController.ts:147-249 | over every run, a key is accepted exactly when it parses to a name, secret and policy with which one creation succeeded |
| Records.EmptyPolicyPasses | src/aux-records/RecordsController.ts:50-62 | with the empty policy text a key is created, and it does not parse |
| Records.ChangedPolicyRefused | src/aux-records/RecordsController.ts:218-224 | an issued key with its policy suffix changed is refused ever after |
| Records.IssuedKeyAuthorizes | src/aux-records/PolicyController.ts:3624-3634 | an issued key makes its holder an administrator of its record in every later state, who lists every item that carries a marker |
| Records.IssuedKeyHasContext | src/aux-records/PolicyController.ts:93-148 | and yields the context of that record, owner and subject policy |
| RecordKeys.NamedContext | src/aux-records/PolicyController.ts:93-148 | a text that is no key gives a context, without a key, exactly when it names a record |
| RecordKeys.KeyedContext | src/aux-records/PolicyController.ts:93-148 | a text that reads as a key gives one exactly when it validates, with its policy and maker; it is never taken for a name |
| Aws.CanonicalUriEncode | src/aux-records/Utils.ts:250-291 | the loop encodes every byte of the UTF-8 form by the rules for unreserved characters and slashes |
| Aws.UriRoundTrip | src/aux-records/Utils.ts:250-291 | percent decoding gives back the UTF-8 bytes of every string |
| Aws.UriEncodeExact | src/aux-records/Utils.ts:250-291 | two strings are encoded alike exactly when they are equal with U+FFFD put for every lone surrogate |
| Aws.UriEncodeInjective | src/aux-records/Utils.ts:250-291 | so different strings without lone surrogates are encoded differently |
| Aws.UriEncodeCollides | src/aux-records/Utils.ts:250-291 | a lone surrogate and U+FFFD are encoded alike |
| AwsEncoding.UnreservedKept | src/aux-records/Utils.ts:259-276 | text of unreserved characters (RFC 3986, section 2.3), and of slashes where they are kept, is encoded as itself |
| AwsEncoding.EncodedExact | src/aux-records/Utils.ts:257-302 | every other byte is a percent sign and two upper-case hexadecimal digits of its value |
| AwsEncoding.SlashEncoded | src/aux-records/Utils.ts:271-276 | a slash is kept in a path and is %2F elsewhere |
| Aws.CreateCanonicalRequest | src/aux-records/Utils.ts:176-218 | the loops build the canonical request line by line from the sorted fields |
| Aws.SignedHeadersAgree | src/aux-records/Utils.ts:71-76 | the list that signing computes for itself is the signed-headers line of the canonical request |
| AwsEncoding.CanonicalLines | src/aux-records/Utils.ts:176-218 | split at its line feeds, a canonical request has exactly the lines it must have, in order |
| AwsEncoding.PathLine | src/aux-records/Utils.ts:179-180 | a path of unreserved characters and slashes is its second line as it is |
| AwsEncoding.QueryLineFree | src/aux-records/Utils.ts:182-198 | no slash and no line feed stands in a query line |
| AwsEncoding.QueryLineFields | src/aux-records/Utils.ts:182-198 | between the ampersands of a query line stand exactly the parameters, name=value with both sides encoded whole, in the order of the encoded names |
| Sorting.SortStable | src/aux-records/Utils.ts:186-203 | fields with equal sort keys keep the order they were given in |
| AwsOrder.OrderExact | src/aux-records/Utils.ts:176-218 | the canonical request is the same for every order of parameters and headers exactly when headers with one lower-cased name have one trimmed value, and parameters encoded to one name are encoded to one value |
| AwsOrder.InsertionOrderIrrelevant | src/aux-records/Utils.ts:182-214 | under that condition any reordering gives the same canonical request |
| AwsOrder.DistinctNamesSuffice | src/aux-records/Utils.ts:182-189 | distinct parameter names without lone surrogates are enough for parameters |
| AwsOrder.SharedNameOrderMatters | src/aux-records/Utils.ts:201-215 | exchanging two headers that share a lower-cased name but no trimmed value changes the canonical request |
| AwsOrder.SharedParameterOrderMatters | src/aux-records/Utils.ts:182-198 | the same for two parameters encoded to one name and two values |
| Aws.QueryLineRoundTrip | src/aux-records/Utils.ts:182-194 | the query line parses back to the parameters in sorted order |
| Devices.DeviceManagerImpl.JoinChannel | src/causal-tree-server/DeviceManagerImpl.ts:78-105 | both maps record the join, the device's only if it is connected |
| Devices.DeviceManagerImpl.LeaveChannel | src/causal-tree-server/DeviceManagerImpl.ts:107-128 | both maps lose one occurrence |
| Devices.DeviceManagerImpl.DisconnectDevice | src/causal-tree-server/DeviceManagerImpl.ts:66-76 | the loop leaves every channel and drops the device |
| Devices.JoinDual | src/causal-tree-server/DeviceManagerImpl.ts:78-105 | joining keeps the two maps describing one relation, with multiplicity, exactly when the device is connected |
| Devices.JoinChanges | src/causal-tree-server/DeviceManagerImpl.ts:78-105 | joining adds one entry at the end on each side, and changes no other |
| Devices.LeaveChanges | src/causal-tree-server/DeviceManagerImpl.ts:107-128 | leaving takes one entry off, where there is one, and keeps all others in order |
| Devices.LeaveChangesOwn | src/causal-tree-server/DeviceManagerImpl.ts:107-128 | and one off the device's own list, where there is one |
| Devices.DisconnectExact | src/causal-tree-server/DeviceManagerImpl.ts:66-76 | disconnecting removes the device everywhere and leaves every other entry and its order alone |
| Devices.DisconnectDual | src/causal-tree-server/DeviceManagerImpl.ts:66-76 | after disconnecting the device is in no channel and the two maps still agree |
| Devices.RunDual | src/causal-tree-server/DeviceManagerImpl.ts:52-128 | over every run the two maps agree, with multiplicity |
| Devices.ChannelIdInjective | src/causal-tree-server/DeviceManagerImpl.ts:135-137 | channel ids of two types never collide exactly when neither type can be read as the end of the other after a colon |
| RateLimit.MemoryRateLimiter.Increment | src/aux-records/MemoryRateLimiter.ts:19-55 | a hit starts a new window once the old one has passed, and is counted |
| RateLimit.RateLimitController.CheckRateLimit | src/aux-records/RateLimitController.ts:23-45 | a request is let through exactly when its window's count is within the limit |
| RateLimit.WindowInvariantHolds | src/aux-records/MemoryRateLimiter.ts:41-55 | over every run, how many requests since any moment were let through |
| RateLimit.WindowBound | src/aux-records/RateLimitController.ts:23-45 | at most maxHits are let through in one window |
| RateLimit.IntervalBound | src/aux-records/RateLimitController.ts:23-45 | at most 2 maxHits - 1 are let through in any closed interval of one window's length |
| RateLimit.IntervalBoundAttained | src/aux-records/RateLimitController.ts:23-45 | that bound is reached, for every positive window and limit |
| RateLimit.RefusedOnlyWhenFull | src/aux-records/RateLimitController.ts:23-45 | a request is refused only when its address has had maxHits let through since some moment at most windowMs ago |
| RateLimit.AddressesIndependent | src/aux-records/MemoryRateLimiter.ts:41-55 | over every run each address is counted as if it were alone |
| Chalk.StringReplaceAll | src/chalk/util.ts:1-23 | the loop puts the replacer after each leftmost occurrence, and ends |
| Chalk.OccurrencesAreLeftmost | src/chalk/util.ts:14-19 | the scan's occurrences are the only list of leftmost ones without overlap |
| Chalk.InsertAfterLength | src/chalk/util.ts:14-22 | only the insertions are new text, one for each occurrence |
| Chalk.EmptyPatternStalls | src/chalk/util.ts:14-19 | on an empty pattern the loop's next position is its current one |
| Chalk.StringEncaseCRLFWithFirstIndex | src/chalk/util.ts:25-46 | the loop wraps every line terminator, given the first newline's index |
| Chalk.EncaseWrapsEachLine | src/chalk/util.ts:25-46 | for every prefix and postfix this is splitting into lines, wrapping each terminator and joining; wrappers without a line feed add no line |
| Chalk.EncaseIdentity | src/chalk/util.ts:25-46 | empty prefix and postfix give the text back, and a text without a terminator is unchanged |
| Chalk.LinesComplete | src/chalk/util.ts:25-46 | splitting into lines loses nothing, and no line contains a line feed |

## Left out

- Chalk.StringReplaceAll: requires a nonempty pattern, because on an empty one the loop never ends.
- UpdateGrants.UpdateAfterGrantExact: is about a grant in the request's own record; a grant in another record changes nothing, which `UpdateGrants.UpdateAfterGrantsExact` covers.
- ListGrants.ListAfterGrantExact: has the same limit; `ListGrants.ListAfterGrantsExact` covers other records.
- Revocations.AllowedAfterRevocationExact: is about a revocation in the request's own record, as are its neighbours; another record's documents are not searched.
- AwsOrder.OrderExact: requires trimmed header values without a line feed, which HTTP does not allow in them.
- RateLimit.WindowBound: requires a window length that is not negative, which the interval bound does not.
- The document that granted a permission is not part of an answer.
- `base64-js` also accepts the URL alphabet and reads any other character as zero bits; the decoder here refuses both. Stray final bits are ignored by both.
- Names inherited from `Object.prototype` (a role list looked up under `constructor`, say) are not modelled; lookups see only what was stored.
- Role assignments of users and of instances share one map in the memory store; the model keeps that, so an instance and a user with the same id share roles.
- Interleavings at `await` inside one call, and two clock readings within one call; for the same reason the second search for a user after a failed save in `requestLogin` has one outcome.
- The messenger, the address rules, the random generators and the clock are parameters; regular expressions, letter case, trimming and the hash functions are uninterpreted.
- Values of a wrong JavaScript type: text that must be a string is a string here, and the empty text stands for the rest where the sources treat them alike.
- Numbers beyond the safe integers, and NaN.
- Listeners and subscriptions of the device manager; the promises of its methods.
- `decrement` and `resetKey` of the rate limiter, and its error branch.
- User details that no modelled step reads or writes (Stripe identifiers, the reason for a ban), and subscription configuration.
- Listing policies and role assignments, and reading them back, which only repeat the authorization laws.
- Computing the string to sign and the signature, which are HMAC calls.
- HTTP routing, the database stores, and the remaining record kinds (files, events), except for their authorization.
