# CryptoMembership core, modelled in Dafny

CryptoMembership is a Next.js application. Creators sell memberships as NFTs
on a contract and record them in a MongoDB database. This project models:

- **The server routes over the Member, Membership, User and Content
  collections.**
  - The member upsert keyed by (membershipId, lower-cased wallet).
  - The membership find-or-create with field merging (`/api/memberships/sync`).
  - The user upsert keyed by the lower-cased wallet.
  - The membership listing and creation.
  - The content listing and creation.
- **The schema rules those routes rely on.**
  - Setters: `lowercase`, `trim`.
  - Required fields, defaults, the `contentType` enum and the `bio` length bound.
  - The unique indexes.
- **The order-creation route of the SideShift aggregator.** It checks the
  fields, then the credentials, then calls the aggregator.
- **Three helpers.**
  - The configuration report.
  - The `MembershipCreated` event lookup.
  - The member card's display name, avatar and profile link.
- **The browser pages' list logic.**
  - The dashboard's created and joined selections and its member total.
  - The analytics sums.
  - The explore page's query and sort.
- **The create-membership page.**
  - Form validation.
  - The uploads and the contract call.
  - The receipt effect and the database sync.

Each collection is a `Store.Collection` object. It holds the documents in
insertion order and a clock that stands for `Date.now`. Each route handler is
a method on the collection whose `ensures` ties its response and the new
contents to a pure function (`Post`, `Sync`, `Get`, `List`). The route's
properties are lemmas about that function. The schema modules keep a
collection invariant (`ValidStore`) that every write preserves. That
invariant covers well-formed records, the unique index and ordered creation
stamps.

Each browser page is a class whose fields are the page's React state. The
outcome of each `fetch` is a parameter. What the create-membership page sends
(uploads, contract calls, syncs) is recorded in fields of its own. Prices are
exact `real`s; the contract's micro-unit price is `Floor(price * 1000000)`.

## Model

| member | source | states |
|---|---|---|
| MemberModel.Normalize | models/Member.ts:9-13 | the stored wallet is lower-case; no other field changes; an already lower-cased record is left as it is |
| MemberModel.SchemaAccepts | models/Member.ts:9-13 | after the setter the schema accepts a member exactly when its wallet is not empty |
| MemberModel.CreateSpec | models/Member.ts:3-35 | a create keeps required fields, lower-case wallets and the unique (membershipId, walletAddress) index; an accepted create appends the normalized record stamped by the clock; a refused create changes nothing |
| MemberModel.SaveSpec | models/Member.ts:3-35 | a save that keeps joinedAt keeps the collection invariant; an accepted save stores the normalized record in place; a refused save changes nothing |
| MemberModel.SaveUnchanged | models/Member.ts:3-35 | saving a stored record without changes is accepted and leaves the collection as it is |
| MemberModel.Create | models/Member.ts:3-35 | the collection after `Member.create` is the one CreateSpec describes, and still valid |
| MemberModel.Save | models/Member.ts:3-35 | the collection after `save` on a found member is the one SaveSpec describes, and still valid |
| MembersRoute.HandlePost | app/api/members/route.ts:5-42 | the handler's response and new collection are those of `Post`; the collection invariant is kept |
| MembersRoute.Post | app/api/members/route.ts:5-42 | a refused request changes nothing; a successful one passed the gate and returns a stored, active record under the request's key |
| MembersRoute.PostMissingFields | app/api/members/route.ts:11-13 | a falsy membershipId (0 included) or walletAddress gives 400 and leaves the collection unchanged |
| MembersRoute.PostUpsertsOneActiveRecord | app/api/members/route.ts:16-36 | with both fields the write succeeds: exactly one record has key (membershipId, lower-cased wallet), it is active, and it is the one returned |
| MembersRoute.PostUpdatesExisting | app/api/members/route.ts:21-26 | an existing record becomes active and takes tokenId/expiresAt only when truthy; its key, joinedAt and place are kept |
| MembersRoute.PostStoresTruthyValues | app/api/members/route.ts:21-38 | the record a successful write returns carries the request's tokenId and expiresAt whenever they are truthy, on both the update and the create path |
| MembersRoute.PostCreatesMissing | app/api/members/route.ts:27-36 | with no record for the key, one is appended with the given tokenId/expiresAt (possibly absent), the lower-cased wallet, isActive true and joinedAt now |
| MembersRoute.PostKeepsOtherKeys | app/api/members/route.ts:16-36 | records under any other key keep their place and contents |
| MembersRoute.PostIdempotent | app/api/members/route.ts:21-36 | two identical calls leave the same collection as one |
| MembersRoute.PostLastWriteWins | app/api/members/route.ts:21-36 | two writes for one key leave one active record with the later truthy tokenId |
| MembershipModel.WithDefaults | models/Membership.ts:28-51 | a record built from the required fields has isRecurring false, isActive true, totalMembers 0 and no optional fields |
| MembershipModel.Normalize | models/Membership.ts:10-19 | the creator is stored lower-cased and the name trimmed; nothing else changes; a normalized record is a fixed point |
| MembershipModel.SchemaAccepts | models/Membership.ts:10-23 | after the setters the schema accepts a membership exactly when creator and description are not empty and the name is not all white space |
| MembershipModel.AppendKeepsValid | models/Membership.ts:5-9 | appending a well-formed record with a fresh membershipId and the current stamp keeps the invariant |
| MembershipModel.ReplaceKeepsValid | models/Membership.ts:5-9 | replacing a record by a well-formed one with the same stamp and no clashing id keeps the invariant |
| MembershipModel.CreateSpec | models/Membership.ts:3-56 | a create keeps unique ids, ordered stamps and well-formed records (required creator/name/description, lower-case creator, trimmed name); a refused create changes nothing |
| MembershipModel.SaveSpec | models/Membership.ts:3-56 | a save that keeps createdAt keeps the invariant; a refused save changes nothing |
| MembershipModel.SaveAccepted | models/Membership.ts:3-56 | an accepted save stores the normalized record in place and changes nothing else |
| MembershipModel.CreateAccepted | models/Membership.ts:3-56 | an accepted create appends the normalized record stamped with the clock |
| MembershipModel.CreateStores | models/Membership.ts:3-56 | a create whose normalized record validates and whose membershipId is not stored is accepted, and appends that record stamped with the clock while advancing the clock |
| MembershipModel.CreateRejectsDuplicate | models/Membership.ts:5-9 | a create whose membershipId is already stored is refused with a duplicate-key error and changes nothing |
| MembershipModel.CreateKeepsOthers | models/Membership.ts:3-56 | a create leaves every stored record where it is, unchanged |
| MembershipModel.SaveKeepsIdAndCreator | models/Membership.ts:10-19 | saving a record with the stored id and a lower-case creator keeps every record's id and creator |
| MembershipModel.SaveStores | models/Membership.ts:3-56 | a save whose normalized record validates and whose membershipId no other record holds stores that record at its place and changes nothing else |
| MembershipModel.Create | models/Membership.ts:3-56 | the collection after `Membership.create` is the one CreateSpec describes, and still valid |
| MembershipModel.Save | models/Membership.ts:3-56 | the collection after `save` is the one SaveSpec describes, and still valid |
| MembershipModel.OtherHasId | models/Membership.ts:5-9 | the unique index's check on a save reports a clash exactly when another record holds the id |
| MembershipSyncRoute.Merged | app/api/memberships/sync/route.ts:32-40 | the merged record keeps id, creator, isActive and stamp; name, description, price, expiryDuration, coverImage, metadataURI and category each change only to a truthy incoming value; isRecurring and totalMembers change whenever given |
| MembershipSyncRoute.DefaultName | app/api/memberships/sync/route.ts:47 | the default name is "Membership #" followed by the id in decimal |
| MembershipSyncRoute.Created | app/api/memberships/sync/route.ts:44-57 | the record a create builds: the id, the lower-cased creator, the name or "Membership #<id>", the description or "", the price or 0, isRecurring false unless true, the four optional fields as given, isActive true, totalMembers or 0 |
| MembershipSyncRoute.Sync | app/api/memberships/sync/route.ts:5-64 | a refused sync changes nothing; a successful one passed the gate and returns a stored record with the requested membershipId |
| MembershipSyncRoute.HandleSync | app/api/memberships/sync/route.ts:5-64 | the handler's response and new collection are those of `Sync`; the invariant is kept |
| MembershipSyncRoute.SyncMissingFields | app/api/memberships/sync/route.ts:23-25 | a falsy membershipId or creator gives 400 and changes nothing |
| MembershipSyncRoute.PostGateImpliesSyncGate | app/api/memberships/sync/route.ts:23-25 | every body the membership POST accepts also passes the sync route's gate |
| MembershipSyncRoute.SyncUpdatesExisting | app/api/memberships/sync/route.ts:30-41 | on a stored id the record stays in place with its id, creator, isActive and stamp; each of the seven optional fields takes a truthy incoming value and is kept otherwise, the name trimmed; isRecurring and totalMembers take any given value |
| MembershipSyncRoute.SyncCreatesMissing | app/api/memberships/sync/route.ts:42-57 | on a new id one active record is appended: creator lower-cased, name defaulting to "Membership #<id>", the body's description, price defaulting to 0, isRecurring false unless true, expiryDuration, coverImage, metadataURI and category as given, totalMembers defaulting to 0 |
| MembershipSyncRoute.SyncCreateWithoutDescription | app/api/memberships/sync/route.ts:48 | on a new id without a description the `''` default fails the required description: 500, nothing stored |
| MembershipSyncRoute.SyncKeepsValid | app/api/memberships/sync/route.ts:28-58 | after any sync there is at most one record per membershipId |
| MembershipSyncRoute.SyncKeepsIdAndCreator | app/api/memberships/sync/route.ts:30-41 | no sync moves a record or changes its membershipId or creator |
| MembershipSyncRoute.SyncFixpoint | app/api/memberships/sync/route.ts:28-41 | a sync whose merge reproduces the stored record leaves the collection unchanged |
| MembershipSyncRoute.MergeUpdatedIsStable | app/api/memberships/sync/route.ts:32-40 | merging a body into the record it already produced gives that record back |
| MembershipSyncRoute.MergeCreatedIsStable | app/api/memberships/sync/route.ts:42-57 | merging a body into the record its create produced gives that record back |
| MembershipSyncRoute.SyncAgainAfterUpdate | app/api/memberships/sync/route.ts:28-41 | a second identical sync after an update changes nothing |
| MembershipSyncRoute.SyncAgainAfterCreate | app/api/memberships/sync/route.ts:42-58 | a second identical sync after a create changes nothing |
| MembershipSyncRoute.SyncIdempotent | app/api/memberships/sync/route.ts:28-58 | repeating a successful sync leaves the collection unchanged |
| MembershipsRoute.ListIsSelectionNewestFirst | app/api/memberships/route.ts:15-32 | the listing holds exactly the active records matching the lower-cased creator, the exact category and the search, newest first |
| MembershipsRoute.CreatorFilterIgnoresCase | app/api/memberships/route.ts:17-19 | on stored records, matching the lower-cased parameter is a case-insensitive comparison |
| MembershipsRoute.List | app/api/memberships/route.ts:15-32 | the listing holds stored records only, each selected by the parameters, and every selected stored record |
| MembershipsRoute.HandleGet | app/api/memberships/route.ts:7-53 | the GET result is `List`: only selected stored records, all of them, in decreasing createdAt |
| MembershipsRoute.QuerySelects | app/api/memberships/route.ts:15-30 | the query holding the lower-cased creator, the category and the search exactly when each parameter is truthy selects the records `Selected` describes |
| MembershipsRoute.HandlePost | app/api/memberships/route.ts:55-95 | the handler's response and new collection are those of `Post`; the invariant is kept |
| MembershipsRoute.Post | app/api/memberships/route.ts:55-95 | a refused request changes nothing; a successful one passed the gate and appended exactly the returned record, advancing the clock |
| MembershipsRoute.PostMissingFields | app/api/memberships/route.ts:72-74 | a falsy membershipId, creator, name, description or price (0 included) gives 400 and changes nothing |
| MembershipsRoute.PostCreates | app/api/memberships/route.ts:76-89 | a complete body for a new id appends one record: creator lower-cased, name trimmed, isActive, totalMembers 0, isRecurring only when true |
| MembershipsRoute.DraftValidates | app/api/memberships/route.ts:76-89 | a body past the gate whose name is not blank passes schema validation once the setters have run |
| MembershipsRoute.PostDuplicateId | app/api/memberships/route.ts:76-89 | a body for a stored id is refused with 500 and changes nothing |
| MembershipsRoute.PostBlankName | app/api/memberships/route.ts:76-89 | a white-space name passes the gate but fails validation once trimmed: 500, nothing stored |
| MembershipsRoute.PostThenListedFirst | app/api/memberships/route.ts:15-32 | a membership just created heads the listing by its creator, whatever the case of the parameter |
| UserModel.TrimOpt | models/User.ts:11-14 | the username is trimmed when present and stays absent when absent |
| UserModel.Normalize | models/User.ts:5-14 | the wallet is lower-cased and the username trimmed; nothing else changes |
| UserModel.NormalizeWellFormed | models/User.ts:5-18 | a well-formed user is a fixed point of the setters |
| UserModel.SchemaAccepts | models/User.ts:5-18 | after the setters the schema accepts a user exactly when the wallet is not empty and a bio has at most 500 characters |
| UserModel.CreateSpec | models/User.ts:3-30 | a create keeps unique lower-case wallets and bios of at most 500 characters; a refused create changes nothing |
| UserModel.SaveSpec | models/User.ts:3-30 | a save that keeps createdAt keeps the invariant; a refused save changes nothing |
| UserModel.SaveAccepted | models/User.ts:3-30 | an accepted save stores the normalized user in place |
| UserModel.CreateAccepted | models/User.ts:3-30 | an accepted create appends the normalized user stamped with the clock |
| UserModel.Create | models/User.ts:3-30 | the collection after `User.create` is the one CreateSpec describes, and still valid |
| UserModel.Save | models/User.ts:3-30 | the collection after `save` is the one SaveSpec describes, and still valid |
| UsersRoute.HandleGet | app/api/users/route.ts:5-24 | the GET response is `Get` of the collection |
| UsersRoute.Get | app/api/users/route.ts:5-24 | with a wallet parameter the answer is 404 "User not found" exactly when no stored user has the lower-cased wallet; a single user returned is stored and has it |
| UsersRoute.GetFindsIgnoringCase | app/api/users/route.ts:11-16 | a stored user whose wallet equals the parameter up to case is returned |
| UsersRoute.GetNotFound | app/api/users/route.ts:13-15 | with no such user the answer is 404 "User not found" |
| UsersRoute.GetAll | app/api/users/route.ts:19-20 | without a parameter every user is listed |
| UsersRoute.Updated | app/api/users/route.ts:39-43 | an update keeps wallet, isCreator and stamp; username and avatar change only to truthy values; bio changes whenever given, "" included |
| UsersRoute.HandlePost | app/api/users/route.ts:26-59 | the handler's response and new collection are those of `Post`; the invariant is kept |
| UsersRoute.Post | app/api/users/route.ts:26-59 | a refused request changes nothing; a successful one had a wallet and returns a stored user with the lower-cased wallet |
| UsersRoute.PostMissingWallet | app/api/users/route.ts:32-34 | a falsy wallet gives 400 and changes nothing |
| UsersRoute.PostLongBioRejected | app/api/users/route.ts:36-53 | a bio over 500 characters is refused with 500 and changes nothing |
| UsersRoute.PostUpsertsOneUser | app/api/users/route.ts:36-53 | with a wallet and an acceptable bio exactly one user has the lower-cased wallet, and it is the one returned |
| UsersRoute.PostNeverGrantsCreator | app/api/users/route.ts:38-53 | stored users keep isCreator and a created user has isCreator false |
| ContentModel.ParseContentType | models/Content.ts:19-23 | a recognised content type names that type exactly |
| ContentModel.ContentTypeRoundTrip | models/Content.ts:19-23 | every content type's name is recognised as that type |
| ContentModel.ContentTypeAdmits | models/Content.ts:21 | exactly "text", "image", "video" and "file" are admitted |
| ContentModel.CreateSpec | models/Content.ts:3-28 | a create succeeds iff the id cast succeeds, the title is not empty and the type is in the enum; it keeps ordered stamps |
| ContentModel.Create | models/Content.ts:3-28 | the collection after `Content.create` is the one CreateSpec describes, and still valid |
| ContentRoute.HandleGet | app/api/content/route.ts:5-21 | the GET response is `Get` of the collection |
| ContentRoute.Get | app/api/content/route.ts:5-21 | the answer is the 500 cast error exactly when a parameter is given that `parseInt` reads as NaN; a listing holds stored items only |
| ContentRoute.GetByMembership | app/api/content/route.ts:11-16 | a parameter that `parseInt` reads as n lists exactly the items with membershipId n, newest first |
| ContentRoute.GetAllNewestFirst | app/api/content/route.ts:11-16 | without a parameter every item is listed, newest first |
| ContentRoute.GetUnparsableId | app/api/content/route.ts:12-14 | a parameter `parseInt` reads as NaN fails the cast with 500 |
| ContentRoute.ParseId | app/api/content/route.ts:34 | a numeric membershipId survives `parseInt` of its decimal rendering |
| ContentRoute.HandlePost | app/api/content/route.ts:23-45 | the handler's response and new collection are those of `Post`; the invariant is kept |
| ContentRoute.Post | app/api/content/route.ts:23-45 | a refused request changes nothing; a successful one passed the gate and appended exactly the returned item, advancing the clock |
| ContentRoute.PostMissingFields | app/api/content/route.ts:29-31 | a falsy membershipId or title gives 400 and changes nothing |
| ContentRoute.PostContentType | app/api/content/route.ts:33-39 | without a contentType the item is stored as text; a type outside the enum is refused with 500 |
| ContentRoute.PostUnparsableId | app/api/content/route.ts:34 | a string id `parseInt` reads as NaN is refused with 500 |
| ContentRoute.PostThenListedFirst | app/api/content/route.ts:33-39 | an item posted under a numeric id heads the listing for that id |
| SideShiftCreate.Status | app/api/sideshift/create/route.ts:6-60 | status 200 exactly for an order and 400 exactly for missing fields |
| SideShiftCreate.FailureMessage | app/api/sideshift/create/route.ts:48 | the failure message is never empty |
| SideShiftCreate.MissingFieldsFirst | app/api/sideshift/create/route.ts:11-13 | a missing order field gives 400, whatever the credentials |
| SideShiftCreate.CredentialsChecked | app/api/sideshift/create/route.ts:16-36 | with the fields but without both credentials the reply is 500 with the credentials text |
| SideShiftCreate.AggregatorOnlyAfterGates | app/api/sideshift/create/route.ts:11-38 | when a gate fails, the reply does not depend on the aggregator and is not an order |
| SideShiftCreate.OrderPassedThrough | app/api/sideshift/create/route.ts:38-39 | when both gates pass, the aggregator's order for the four fields, in order, is returned unchanged |
| SideShiftCreate.FailureMessageOrder | app/api/sideshift/create/route.ts:48 | the message is the response's message, else the error's own, else the default text |
| SideShiftCreate.FailureReported | app/api/sideshift/create/route.ts:40-58 | a failed call gives 500 carrying that message and the response's data and status |
| SideShiftCreate.CreateOrder | app/api/sideshift/create/route.ts:6-60 | 400 exactly when an order field is missing; the credentials reply exactly when the fields are there but a credential is not; an order or an aggregator failure only when both gates pass |
| ConfigCheck.MessageMatchesFlag | utils/configCheck.ts:17-63 | an entry's message reads "Configured" exactly when the entry is configured, and its service's missing text otherwise |
| ConfigCheck.KeyNamesDistinct | utils/configCheck.ts:18-61 | the six service names are pairwise distinct |
| ConfigCheck.CheckWalletConnect | utils/configCheck.ts:15-21 | the WalletConnect entry: configured iff either project id variable is set and non-empty |
| ConfigCheck.CheckPolygonRpc | utils/configCheck.ts:23-29 | the Polygon RPC entry: configured iff either RPC variable is set and non-empty |
| ConfigCheck.CheckContract | utils/configCheck.ts:31-37 | the contract entry: configured iff the address is set, non-empty and not "0x0" |
| ConfigCheck.CheckMongo | utils/configCheck.ts:39-45 | the MongoDB entry: configured iff the URI is set and non-empty |
| ConfigCheck.CheckPinata | utils/configCheck.ts:47-54 | the Pinata entry: configured iff both keys are set and non-empty |
| ConfigCheck.CheckSideShift | utils/configCheck.ts:56-63 | the SideShift entry: configured iff both the secret and the affiliate id are set and non-empty |
| ConfigCheck.CheckApiKeys | utils/configCheck.ts:12-66 | exactly six entries, entry k being service k's entry in the fixed order: its name, configured iff its variables are set, its message as above |
| ConfigCheck.MissingKeys | utils/configCheck.ts:70-72 | the missing keys are empty iff every entry is configured |
| ConfigCheck.MissingKeysAppend | utils/configCheck.ts:70-72 | the missing keys keep the report order |
| ConfigCheck.MissingKeysMembership | utils/configCheck.ts:70-72 | a key is listed iff its entry is not configured |
| ConfigCheck.GetMissingKeys | utils/configCheck.ts:68-73 | the result is the report's filter-map, so in report order; a service's key is returned iff it is not configured, each at most once; the result is empty iff all six are |
| ConfigCheck.MissingKeysOfReport | utils/configCheck.ts:68-73 | in a report with distinct names, an entry's name is listed exactly when it is not configured, and only entries' names are listed |
| ConfigCheck.MissingKeysOfEnv | utils/configCheck.ts:68-73 | over the report of an environment, a service's key is listed iff it is not configured, and only service keys are listed |
| ConfigCheck.MissingKeysOfEnvDistinct | utils/configCheck.ts:68-73 | no service key is listed twice |
| ConfigCheck.MissingKeysDistinct | utils/configCheck.ts:70-72 | over entries with distinct names, the filter-map lists no name twice |
| ContractEvents.ParseMembershipCreated | utils/contractEvents.ts:4-22 | a returned id is carried by a decoded `MembershipCreated` log |
| ContractEvents.FirstCreatedEventWins | utils/contractEvents.ts:11-16 | the id comes from the first `MembershipCreated` log |
| ContractEvents.NoCreatedEvent | utils/contractEvents.ts:11-14 | without such a log the result is null |
| ContractEvents.FirstCreatedEventWithoutArgs | utils/contractEvents.ts:15-16 | a first matching log without args gives null, even if a later one has them |
| ContractEvents.DecodeFailureGivesNone | utils/contractEvents.ts:18-21 | a decoding failure gives null rather than an error |
| MemberCard.ShortWallet | components/MemberCard.tsx:14 | a wallet of 10 or more characters shortens to 13 characters: its first six, "...", its last four |
| MemberCard.DisplayName | components/MemberCard.tsx:14 | the display name is the username when truthy, else the shortened wallet; it is never empty |
| MemberCard.AvatarOf | components/MemberCard.tsx:22-32 | the image is shown iff the avatar is truthy; otherwise the letter is the display name's first character, upper-cased |
| MemberCard.ProfileHref | components/MemberCard.tsx:18 | the link is "/profile?address=" followed by the wallet |
| MemberCard.InitialIsOneLetter | components/MemberCard.tsx:29-31 | without an avatar the card shows exactly one letter |
| MemberCard.WalletShortened | components/MemberCard.tsx:14 | without a username a long wallet displays as its first six characters, "..." and its last four |
| MemberCard.WalletInitial | components/MemberCard.tsx:30 | the initial of a shortened wallet is its first character, upper-cased |
| MemberCard.Render | components/MemberCard.tsx:13-45 | the card links to the wallet's profile, never shows an empty name, shows the image iff the avatar is truthy, and shows the bio iff it is truthy |
| ClientView.ViewOf | app/api/memberships/route.ts:42 | the JSON of a stored membership carries its id, creator, price and member count |
| ClientView.MembersOf | app/dashboard/page.tsx:138 | `totalMembers \|\| 0`: the count when present, 0 when missing |
| ClientView.Views | app/api/memberships/route.ts:42 | the list sent holds one view per stored record, in order |
| ClientView.MembersOfServerRecords | app/api/memberships/route.ts:42 | over records the server sends, the members summed with missing-as-0 are the stored counts summed |
| Dashboard.CreatedBy | app/dashboard/page.tsx:77 | the created selection holds exactly the memberships whose creator equals the address up to case |
| Dashboard.JoinedIn | app/dashboard/page.tsx:81-85 | the joined selection holds exactly the memberships whose id is among the on-chain ids |
| Dashboard.SelectionsKeepOrder | app/dashboard/page.tsx:77-85 | both selections are subsequences of the fetched list |
| Dashboard.CreatedByIgnoresCase | app/dashboard/page.tsx:77 | addresses equal up to case select the same memberships |
| Dashboard.TotalMembersSplit | app/dashboard/page.tsx:138 | the created total plus the others' total is the total of the whole list |
| Dashboard.TotalMembersBounded | app/dashboard/page.tsx:138 | with non-negative counts the Total Members figure lies between 0 and the list's total |
| Dashboard.TotalMembers | app/dashboard/page.tsx:138 | one membership contributes its own count (missing as 0); with no negative counts the figure is not negative |
| Dashboard.DashboardPage.FetchData | app/dashboard/page.tsx:63-91 | no address: nothing changes; otherwise loading ends false, a failure keeps the lists, a success sets all, created and (when the ids are an array) joined |
| Analytics.RowRevenue | app/analytics/page.tsx:39-42 | a row without a member count earns 0 |
| Analytics.EmptyStats | app/analytics/page.tsx:38-48 | an empty list gives all-zero figures |
| Analytics.StatsOf | app/analytics/page.tsx:38-48 | a one-row list counts one membership with that row's members and revenue (with StatsAppend and EmptyStats this fixes every list's figures) |
| Analytics.StatsAppend | app/analytics/page.tsx:38-48 | each figure of two lists together is the sum of their figures |
| Analytics.RevenueBounded | app/analytics/page.tsx:39-42 | with counts ≥ 0 and prices in [0, cap], 0 ≤ revenue ≤ cap × members |
| Analytics.AnalyticsPage.FetchData | app/analytics/page.tsx:28-54 | no address: nothing changes; otherwise loading ends false and a parsed list sets the count, the member sum and the revenue sum of its rows |
| Explore.QueryParams | app/explore/page.tsx:46-50 | search and category are sent iff non-empty, search first, and `t` (the time) is always sent last |
| Explore.RuleOf | app/explore/page.tsx:60-66 | only "price-low", "price-high" and "members" select a sort |
| Explore.KeyOrder | app/explore/page.tsx:60-65 | the sort keys give non-decreasing price, non-increasing price, non-increasing members (missing as 0) |
| Explore.SortByKey | app/explore/page.tsx:59-66 | the array ends sorted by the key and a permutation of its start |
| Explore.ExplorePage.FetchMemberships | app/explore/page.tsx:43-74 | the query as above; a fetched list is kept as a permutation, sorted by the rule, or in server order when no rule applies; loading ends false |
| CreateMembership.ValidationOrder | app/create-membership/page.tsx:147-158 | name, then description, then price: the first failure is reported; blank means white space only; valid iff both texts have a non-space and the price is > 0 |
| CreateMembership.CheckForm | app/create-membership/page.tsx:147-158 | the three checks in order give the validation message, one of the three texts |
| CreateMembership.ValidationError | app/create-membership/page.tsx:147-158 | a failure carries a non-empty message, and a form that passes has a positive price (its order and conditions: ValidationOrder) |
| CreateMembership.CaughtMessage | app/create-membership/page.tsx:220 | the caught error's toast text is never empty |
| CreateMembership.PriceArgBounds | app/create-membership/page.tsx:204 | the price argument is the whole number of micro-units: ≥ 0 for a valid price, ≥ 1 iff the price is at least 0.000001 |
| CreateMembership.ExpiryArg | app/create-membership/page.tsx:205 | the expiry argument is 0 when not recurring and the form's value otherwise |
| CreateMembership.ValidationStopsSubmit | app/create-membership/page.tsx:147-166 | a form failing validation uploads nothing, writes nothing and shows its first failure |
| CreateMembership.WriteOnlyWhenAllPass | app/create-membership/page.tsx:142-223 | the contract is written iff the form is valid, the uploads succeed and the contract is deployed |
| CreateMembership.NotDeployedNoWrite | app/create-membership/page.tsx:195-201 | a contract address of "" or "0x0" gives the not-deployed error and no write |
| CreateMembership.Submit | app/create-membership/page.tsx:142-223 | nothing is uploaded exactly when validation fails; a contract write happens exactly when the toast is the info toast |
| CreateMembership.AfterValidation | app/create-membership/page.tsx:160-223 | the first upload is the cover image exactly when a file is chosen; one or two uploads; a write comes after both (or the single metadata) uploads and is announced by the info toast |
| CreateMembership.AfterCover | app/create-membership/page.tsx:169-217 | exactly one metadata upload naming the form and the cover URI; a write iff the upload succeeded and the contract is deployed, announced by the info toast and carrying the uploaded URI and the recurring flag |
| CreateMembership.ContractArguments | app/create-membership/page.tsx:169-215 | the call's arguments are price in micro-units, isRecurring, expiry, metadata URI in order; the metadata names the cover URI or "" |
| CreateMembership.SubmitPastCover | app/create-membership/page.tsx:165-215 | past validation and a successful or skipped cover upload, the submit is the metadata upload and contract steps, preceded by the cover upload when a file was chosen |
| CreateMembership.ContractCallOnce | app/create-membership/page.tsx:169-215 | once the cover is settled, a write follows the single metadata upload and carries the micro-unit price, the recurring flag, the expiry and the metadata URI, with an info toast |
| CreateMembership.ValidPriceIsPositive | app/create-membership/page.tsx:147-166 | a form that passes validation has a price, and it is positive |
| CreateMembership.CoverFailureStops | app/create-membership/page.tsx:160-222 | a failed cover upload stops the submit before the metadata upload with the upload's error |
| CreateMembership.MetadataFailureStops | app/create-membership/page.tsx:182-189 | a failed metadata upload stops the submit with its error and no write |
| CreateMembership.ReceiptSync | app/create-membership/page.tsx:39-48 | a sync is scheduled only for a confirmed receipt with a wallet and a non-null, non-zero parsed id |
| CreateMembership.NoSyncWithoutId | app/create-membership/page.tsx:41-42 | a receipt without an id, or with id 0, schedules nothing |
| CreateMembership.SyncPayload | app/create-membership/page.tsx:57-67 | the payload's expiryDuration is absent unless recurring; it carries the id and the creator |
| CreateMembership.SyncPayloadAccepted | app/create-membership/page.tsx:57-67 | the page's payload always passes the sync route's gate |
| CreateMembership.SyncToast | app/create-membership/page.tsx:70-91 | the toast is a success exactly when the sync response is ok |
| CreateMembership.CreateMembershipPage.HandleImageUpload | app/create-membership/page.tsx:115-140 | one upload recorded; on failure the retry toast and the error's message; uploading ends false |
| CreateMembership.CreateMembershipPage.HandleSubmit | app/create-membership/page.tsx:142-223 | no wallet: nothing changes; otherwise the uploads, the contract write and the toast are those of `Submit` |
| CreateMembership.CreateMembershipPage.SubmitConnected | app/create-membership/page.tsx:146-223 | with a wallet connected: a failed check only shows its message; otherwise the uploads, the contract write and the toast are those of `Submit` and the page stops uploading |
| CreateMembership.CreateMembershipPage.SubmitValidated | app/create-membership/page.tsx:160-223 | after validation, the uploads, write and toast are those of `AfterValidation`, and uploading ends false |
| CreateMembership.CreateMembershipPage.FinishSubmit | app/create-membership/page.tsx:169-217 | the metadata upload, the contract check and the write are those of `AfterCover` |
| CreateMembership.CreateMembershipPage.OnReceipt | app/create-membership/page.tsx:39-48 | the id is recorded, the confirmed toast shown and a sync scheduled exactly when `ReceiptSync` gives an id; otherwise nothing changes |
| CreateMembership.CreateMembershipPage.SyncMembershipToDb | app/create-membership/page.tsx:50-92 | with a non-zero id and a wallet the payload is posted and the sync toast shown; otherwise nothing changes |
| Store.FirstMatch | app/api/members/route.ts:16-19 | `findOne`: the index of the first matching document, with none before it; none exactly when no document matches |
| Store.Collection.FindOne | app/api/users/route.ts:12 | the lookup loop returns what FirstMatch describes |
| Store.NewestFirst | app/api/memberships/route.ts:32 | `find(query).sort({createdAt: -1})` holds matching stored documents only, and every one of them |
| Store.NewestFirstDescending | app/api/content/route.ts:16 | with stamps growing in insertion order, the result is in strictly decreasing stamp order |
| Store.Collection.FindNewestFirst | app/api/content/route.ts:16 | the scan returns what NewestFirst describes |
| Text.Lower | app/api/users/route.ts:12 | `toLowerCase` keeps the length, leaves no upper-case ASCII letter, changes nothing else and is the identity on lower-case strings |
| Text.LowerIdempotent | app/api/memberships/route.ts:18 | lower-casing twice is lower-casing once |
| Text.TrimIsInfix | models/Membership.ts:18 | `trim` keeps one contiguous part of the string |
| Text.TrimDropsSpace | models/Membership.ts:18 | the part kept neither starts nor ends with white space, and everything dropped on either side is white space |
| Text.TrimEmptyIff | app/create-membership/page.tsx:147-151 | a string trims to "" exactly when it is all white space |
| Text.TrimIdempotent | models/Membership.ts:18 | trimming twice is trimming once |
| Text.SliceHead | components/MemberCard.tsx:14 | `slice(0, n)` is the first n characters, or the whole of a shorter string |
| Text.SliceTail | components/MemberCard.tsx:14 | `slice(-n)` is the last n characters, or the whole of a shorter string |
| Text.IntToString | app/api/memberships/sync/route.ts:47 | `String(n)` of an integer is its decimal digits, behind a minus sign when negative |
| Text.ParseIntRoundTrip | app/api/content/route.ts:34 | `parseInt(String(n))` is n for every integer |
| Text.ParseIntDigitPrefix | app/api/content/route.ts:13 | `parseInt` of a decimal run followed by a non-digit is the run's value |

## Left out

- Database connection (`lib/mongodb.ts`), request-body parsing errors and the
  thrown-error 500 paths other than the store's own refusals are not part of
  this model.
- The find-then-create race in the upsert routes: each call is one atomic step.
  The unique indexes are kept as invariants.
- `Date.now` and timestamps are a clock counter in the collection. `updatedAt`,
  `joinedAt` display and `toLocaleDateString` are left out.
- JSON `null` and absent fields are both `None`. So where the source tests
  `!== undefined` (isRecurring, totalMembers, bio), the model treats a `null`
  as absent, while the source would assign it.
- Number handling:
  - Prices and revenues are exact reals, not IEEE doubles.
  - `toFixed` formatting is left out.
  - `bigint` to `Number` conversion of on-chain ids is taken as exact.
  - ContentRoute.ParseId: JSON numbers are exact unbounded integers. In
    JavaScript, `String(n)` for |n| ≥ 10^21 is exponent notation, so
    `parseInt` would read only its leading digits, and integers above 2^53
    are not exact; the model claims every numeric id survives unchanged.
  - An expiry string with a decimal point or exponent is not modelled: the
    form's number inputs are `Option<int>`/`Option<real>`.
- The `$regex` search is an opaque predicate `regexMatch`; its pattern
  language is not modelled.
- Case: lower- and upper-casing cover ASCII letters only. String lengths
  count characters, not UTF-16 units.
- Event decoding by `parseEventLogs` is an input: the decoded logs, or `None`
  when decoding throws.
- The aggregator call is an abstract function parameter. Its polling and
  settlement are not part of the shown files. `utils/sideshift.ts`,
  `utils/pinata.ts` and the upload route are not part of this model.
- Explore.SortByKey: `Array.prototype.sort` is stable, but the model only
  claims a sorted permutation, not stability.
- MemberCard.ShortWallet: for wallets shorter than ten characters the
  contract states only a length bound. The body follows `slice` semantics,
  including the overlap.
- The explore query's `URLSearchParams` percent-encoding is not modelled;
  parameters are pairs of strings.
- Analytics.AnalyticsPage.FetchData: a response body that is not an array is
  a fetch failure. The page itself stores such a body before the sum throws.
- Create-membership page:
  - The cover image preview's `FileReader` is not modelled.
  - Toast and redirect timers, router navigation, and the delay before the
    sync are not modelled.
  - A scheduled sync is recorded in `scheduledSyncs`; running it is a
    separate call.
