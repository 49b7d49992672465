# A verified model of the manager backend

This project models, in Dafny, the parts of vocdoni-manager-backend whose correctness no
single function shows: the relational store behind the manager, registry and token
services, the request steps built on it, the faucet's pool of signers shared by concurrent
goroutines, and two small algorithms used by the handlers.

## How it is organised

| file | content |
|---|---|
| `Basics.dfy` | byte strings, UUIDs, distinct sequences |
| `Schema.dfy` | the tables after all migrations, their constraints, and what INSERT, UPDATE and DELETE with their cascades do |
| `Store.dfy` | each write method as one atomic step; `Op`, `Try`, `Apply` and `Run` describe runs of steps |
| `Invariants.dfy` | what every run keeps: all constraints of the schema and the invariants of census rows |
| `Expansion.dfy` | when a census can be expanded, and what happens to its rows afterwards |
| `Tenancy.dfy` | a step for one entity does not touch another; deletion of an entity |
| `Tags.dfy` | integrity of the tags array, which has no foreign key |
| `Updates.dfy` | `UpdateMember` as a merge |
| `Claims.dfy` | the two exports of members; import of keys followed by their deletion |
| `Transactions.dfy` | transactions, batched insertion, reconciliation of ids |
| `Pgsql.dfy` | the class `Database` with its methods, statement by statement |
| `Lifecycle.dfy` | requests, binding of keys to members, status of tokens |
| `Effects.dfy` | what each write step stores, column by column, exactly when it succeeds, and that it changes nothing else |
| `Requests.dfy` | runs of requests as runs of write steps, and what they inherit |
| `SignUp.dfy` | signing up, repeated and cut off |
| `Shuffle.dfy` | the scatter by a random permutation |
| `Handlers.dfy` | the handlers of the manager, the registry and the token API |
| `Faucet.dfy`, `FaucetDuplicates.dfy`, `FaucetProgress.dfy` | the signer pool as an interleaved step system: safety, the need for distinct addresses, and that it cannot get stuck |
| `Util.dfy` | hexadecimal text, census ids, `UniqueUUIDs` |

The code changes its state step by step, so the store is a class whose methods reassign the
tables, with transactions as working copies that become visible at commit. Each method is
proved equal to a function of the old tables (`Store.dfy`); what these functions store is stated
column by column in `Effects.dfy`, and the other theorems are about all runs of them. A method that returns an error is proved to leave the
tables as they were, whatever statement or batch failed (`AddTag` may consume a value of its
sequence, as a SERIAL column does).

Conventions: SQL NULL is `None`; the clock, generated UUIDs, generated key pairs and the
random permutation are arguments; a result set comes in an arbitrary order; a generated id
that collides makes the insertion fail like any other duplicate key. A constraint violated by
an insertion with RETURNING shows as an empty result, as the code's comments say, which is
what `signUp` tolerates for its target. The address of a public
key and the outcome of the hash comparison in `checkAuth` are arguments. `TrimHex` of the
dvote library is not part of this repository; it is taken to drop one leading `0x` or `0X`.

## What the proofs found

- `DeleteEntity` can fail: adding a census does not check that its target belongs to the same
  entity, and a census of another entity that names one of the entity's targets blocks the
  deletion. `Tenancy.DeleteEntityIff` gives the exact condition and
  `Tenancy.DeleteEntityCanFail` four steps from empty tables that lead there.
- The token status and the refusal by `validateToken` agree over every run in which the keys given
  to `register` and `importKeysBulk` are empty or of valid length (`Lifecycle.AlwaysAgree`), and the
  first request that stores another key ends the agreement (`Lifecycle.AgreementKept`). An import of
  a key of one byte makes a token that is answered as available and refused for every key
  (`Lifecycle.ShortKeyDisagrees`).
- The nonces of the faucet are unique in every interleaving if and only if the pool holds
  no address twice (`FaucetDuplicates.UniqueIffDistinct`).
- The balance check compares with the default amount, so the accepted transfers of an amount are
  covered in every interleaving if and only if the amount is no larger (`Faucet.CheckCovers`).
- Updating a member with the very data it was added with changes the row when that data names
  tags: an insertion drops them (`Updates.AddedIsUpToDate`).
- An update of a member keeps tag integrity if and only if the tags it is given are distinct
  live tags of the entity, or it is given none (`Tags.UpdateMemberTags`).
- `manager/README.md` calls `invalidIds` the non-existing ids; the code also reports existing
  members that a tag change did not affect. The model follows the code.

## Model

| member | source | states |
|---|---|---|
| Schema.InsertRowLegal | database/pgsql/migrations.go:79-160 | a row whose references resolve and whose keys are free can be stored without breaking any constraint of any table |
| Schema.WithoutMembersLegal | database/pgsql/migrations.go:236-243 | deleting members with the cascade to census_members leaves every constraint intact |
| Schema.WithoutCensusLegal | database/pgsql/migrations.go:236-243 | deleting a census with the cascade to census_members leaves every constraint intact |
| Schema.EntityDeletedLegal | database/pgsql/migrations.go:99-160 | deleting an entity with all cascades leaves every constraint intact when the NO ACTION checks pass |
| Schema.FreeMeansNoClash | database/pgsql/migrations.go:147-160 | a row is free exactly when it clashes with no stored row on a primary key or unique constraint |
| Schema.LegalMeaning | database/pgsql/migrations.go:79-243 | tables are legal if and only if every row has what it refers to and no two rows clash on a primary key or unique constraint |
| Schema.InsertAllMeaning | database/pgsql/pgsql.go:1974-2021 | inserting a list succeeds if and only if all references resolve, no row clashes with a stored row and no two rows of the list clash; then exactly the old and the new rows are stored |
| Schema.InsertAllSplit | database/pgsql/pgsql.go:1991-2019 | inserting a list equals inserting a front part and then the rest, failures included |
| Transactions.ChunkFits | database/pgsql/pgsql.go:1975-1979 | the batch size is positive if and only if there are at most 32768 fields, and then a batch has at most 65535 parameters |
| Transactions.BulkInsert | database/pgsql/pgsql.go:1974-2021 | the batches partition the list in order within the parameter limit, and the batched insertion succeeds if and only if one insertion of the whole list does, with the same tables; otherwise the transaction is undone |
| Transactions.Reconcile | database/pgsql/pgsql.go:1266-1285 | counts the affected ids, finds exactly the requested ids not affected, and length = count + invalid + duplicates |
| Transactions.Tx.Exec | database/pgsql/pgsql.go:1999-2006 | one statement stores all of its rows in the working copy or none |
| Transactions.Tx.Rollback | database/pgsql/pgsql.go:2000-2003 | a rollback restores the tables the transaction began with |
| Invariants.StepInv | database/pgsql/pgsql.go:86-1972 | every write step, successful or not, keeps all constraints, the eligibility of every census row and the bound of rows by size |
| Invariants.RunInv | database/pgsql/pgsql.go:86-1972 | the same over every run of write steps |
| Invariants.ReachableLegal | database/pgsql/migrations.go:79-320 | every state reachable from empty tables satisfies every constraint of the schema |
| Invariants.ReplaceMemberInv | database/pgsql/pgsql.go:1020-1024 | changing a member row that keeps its entity and does not lose a valid key keeps the invariant |
| Expansion.ExpandableIffNoRows | database/pgsql/pgsql.go:1478-1567 | in every reachable state an expansion succeeds if and only if the census is the entity's and none of its rows survives |
| Expansion.ExpansionCounts | database/pgsql/pgsql.go:1494-1560 | right after an expansion size = number of rows = number of eligible members, and the ephemeral rows are those of members without a valid key |
| Expansion.AddedCensus | database/pgsql/pgsql.go:1724-1765 | a census can be added if and only if its id is new and entity and target exist, whoever owns the target; it can then be expanded, no entity can take its id, and deleting it restores all tables |
| Expansion.StepKeepsRows | database/pgsql/pgsql.go:1847-1879 | between expansions a step keeps the census's size and flag, and its rows disappear with their members and in no other way |
| Expansion.RunKeepsRows | database/pgsql/pgsql.go:1206-1345 | over any run between expansions a row is still there, unchanged, exactly when it was there and its member was never deleted |
| Expansion.SecondExpansion | database/pgsql/pgsql.go:1478-1567 | a second expansion succeeds if and only if every member of the first has been deleted since, and until then rows never exceed size |
| Expansion.ClaimsDistinct | database/pgsql/pgsql.go:1494-1531 | the digests of an expansion are pairwise distinct if and only if the generated keys are fresh |
| Tenancy.StepFrame | database/pgsql/pgsql.go:663-698 | a step issued for one entity leaves the members, tags, targets, censuses and census rows of every other as they were |
| Tenancy.RunFrame | database/pgsql/pgsql.go:838-971 | the same over any run of steps for other entities |
| Tenancy.DeleteEntityIff | database/pgsql/pgsql.go:158-177 | deletion succeeds if and only if the entity exists and no census of another entity is drawn from one of its targets |
| Tenancy.DeleteEntityCanFail | manager/manager.go:784 | four successful steps from empty tables lead to an entity that cannot be deleted, as another entity's census names its target |
| Tenancy.AddThenDeleteEntity | database/pgsql/pgsql.go:86-177 | deleting an entity right after adding it restores all tables |
| Tenancy.AuthorizedOnce | database/pgsql/pgsql.go:194-218 | after any run in which the entity was not deleted, no second AuthorizeEntity succeeds |
| Tenancy.DeleteEntityAllOrNothing | database/pgsql/pgsql.go:158-177 | deletion removes every dependent row and nothing of any other entity, or changes nothing |
| Tags.WithoutElements | database/pgsql/pgsql.go:780-782 | array_remove removes every occurrence and keeps the rest, without creating repetitions |
| Tags.AddThenRemove | database/pgsql/pgsql.go:871-878 | removing a tag right after adding it to a member without it restores the array |
| Tags.UpdateMemberTags | database/pgsql/pgsql.go:672-686 | an update keeps tag integrity if and only if it is given no tags or distinct live tags of the entity |
| Tags.StepTags | database/pgsql/pgsql.go:745-806 | every step keeps each member's tags distinct and live tags of its own entity, when updates are given such tags |
| Tags.RunTags | database/pgsql/pgsql.go:838-971 | the same over every run |
| Tags.DeletedTagNeverReturns | database/pgsql/pgsql.go:745-806 | after DeleteTag the id is on no member and names no tag, after any later run |
| Updates.MergeMerge | database/pgsql/pgsql.go:672-679 | two merges are one merge with the combined information |
| Updates.GateHidesNothing | database/pgsql/pgsql.go:680-686 | the IS DISTINCT FROM conditions suppress no change but that of updated_at |
| Updates.UpdatesCollapse | database/pgsql/pgsql.go:663-698 | any sequence of successful updates equals one update with the merged information, which succeeds too |
| Updates.AddedIsUpToDate | database/pgsql/pgsql.go:430-445 | updating a member with the data it was added with succeeds, and changes nothing but updated_at if and only if that data names no tags |
| Updates.AddedEntityIsUpToDate | database/pgsql/pgsql.go:220-249 | updating an entity with the data it was added with changes nothing |
| Updates.UpdateIdempotent | database/pgsql/pgsql.go:663-698 | repeating a successful update succeeds and changes nothing but updated_at |
| Updates.CensusUpdatesCollapse | database/pgsql/pgsql.go:1847-1879 | two updates of a census are one with the combined information, repeating one changes nothing, and none changes more than root and URI |
| Claims.JoinOncePerKey | database/pgsql/pgsql.go:1451-1460 | the join with users neither drops nor repeats a member with a key |
| Claims.MembersSplit | database/pgsql/pgsql.go:1360-1386 | rows of DumpClaims + rows of MembersTokensEmails = CountMembers |
| Claims.BulkStored | database/pgsql/pgsql.go:602-661 | a bulk import keeps the members there were and adds members with the given keys, none of which any member had |
| Claims.EachImported | database/pgsql/pgsql.go:602-661 | each entry of a bulk import becomes a member with its key under the id generated for it |
| Claims.ImportThenDelete | database/pgsql/pgsql.go:1289-1345 | deleting all imported keys undoes the import except for the user rows |
| Pgsql.Database.AddEntity | database/pgsql/pgsql.go:86-131 | stores the entity with its origins or leaves every table unchanged, and keeps the invariant |
| Pgsql.Database.UpdateEntity | database/pgsql/pgsql.go:220-249 | is the step UpdateEntity; when it reports no row, nothing changed |
| Pgsql.Database.AddMember | database/pgsql/pgsql.go:380-469 | adds the member, and the user if missing, or neither |
| Pgsql.Database.CreateMembersWithTokens | database/pgsql/pgsql.go:327-368 | creates a keyless member for every token or none |
| Pgsql.Database.ImportMembers | database/pgsql/pgsql.go:525-596 | imports all members or none |
| Pgsql.Database.AddMemberBulk | database/pgsql/pgsql.go:602-661 | imports all members with their users or nothing, also when the second bulk insertion fails |
| Pgsql.Database.RegisterMember | database/pgsql/pgsql.go:974-1050 | gives the member the key and creates the user, or changes nothing |
| Pgsql.Database.UpdateMember | database/pgsql/pgsql.go:663-698 | is the step UpdateMember; the row count tells whether anything differed |
| Pgsql.Database.DeleteMember | database/pgsql/pgsql.go:1206-1223 | deletes the member with its census rows exactly when it is the entity's |
| Pgsql.Database.DeleteMembers | database/pgsql/pgsql.go:1226-1286 | every requested id is deleted, reported as invalid or a repetition; the invalid ids are exactly those of no member of the entity |
| Pgsql.Database.DeleteMembersByKeys | database/pgsql/pgsql.go:1289-1345 | the same by key, by the uniqueness of keys within an entity |
| Pgsql.Database.AddTag | database/pgsql/pgsql.go:700-728 | adds the tag with the next id of the sequence, which advances even when the name is taken |
| Pgsql.Database.DeleteTag | database/pgsql/pgsql.go:745-806 | removes the tag from all members of the entity and then the tag, exactly when it is the entity's |
| Pgsql.Database.AddTagToMembers | database/pgsql/pgsql.go:838-904 | tags the members of the entity that lack the tag; count, invalid ids and duplicates add up |
| Pgsql.Database.RemoveTagFromMembers | database/pgsql/pgsql.go:906-971 | untags the members of the entity that have the tag; count, invalid ids and duplicates add up |
| Pgsql.Database.BuildEntries | database/pgsql/pgsql.go:1494-1531 | lists one entry for each eligible member and no others: its own valid key as the digest, or the generated pair column by column |
| Pgsql.Database.ExpandCensusMembers | database/pgsql/pgsql.go:1478-1567 | stores the entries in batches and their number, or nothing; returns one entry for each eligible member, with the generated public key in its column and as the digest, and the private key in its own |
| Pgsql.Database.DumpClaims | database/pgsql/pgsql.go:1451-1460 | the claims are distinct and are exactly the keys of the entity's members |
| Pgsql.Database.MembersTokensEmails | database/pgsql/pgsql.go:1360-1374 | the tokens are exactly the entity's members without a key |
| Pgsql.Database.DumpCensusClaims | database/pgsql/pgsql.go:1462-1476 | one digest for each row of the entity's census and no others |
| Pgsql.Database.ListEphemeralMemberInfo | database/pgsql/pgsql.go:1569-1590 | the names, private key and digest of exactly the members with an ephemeral row in the entity's census |
| Effects.AddEntityStores | database/pgsql/pgsql.go:86-131 | succeeds if and only if managers are given, the id is new and the origins are distinct labels of the enumeration; stores the given columns, unauthorized, and exactly the given origins |
| Effects.UpdateEntityStores | database/pgsql/pgsql.go:220-249 | name and email are replaced where given, the callback always, and nothing else |
| Effects.AuthorizeEntityStores | database/pgsql/pgsql.go:194-218 | sets the flag of an unauthorized entity and nothing else |
| Effects.AddMemberStores | database/pgsql/pgsql.go:380-469 | one new member with the given columns, NULL for an empty email and no tags, its user, and no other change |
| Effects.CreateMembersWithTokensStores | database/pgsql/pgsql.go:327-368 | one blank member without a key for each token, and no other change |
| Effects.ImportMembersIff | database/pgsql/pgsql.go:525-596 | an import succeeds if and only if it is not empty, the entity has the Token origin, and ids and emails are new and different |
| Effects.ImportMembersStores | database/pgsql/pgsql.go:525-596 | each entry is stored with its own columns under its own id, without a key, and no other change |
| Effects.AddMemberBulkStores | database/pgsql/pgsql.go:602-661 | each entry is stored with its own columns and key, with one user for each key, and no other change |
| Effects.RegisterMemberStores | database/pgsql/pgsql.go:974-1050 | succeeds if and only if the key is valid and no other member of the entity has it; writes the key and the times on the member and creates the user |
| Effects.UpdateMemberIff | database/pgsql/pgsql.go:663-698 | an update fails exactly on an email that another member of the entity has |
| Effects.UpdateMemberStores | database/pgsql/pgsql.go:672-686 | street, names, email, birth and tags are the given ones where given; phone, key, entity and verification stay; updated_at moves unless every given column equals the stored one; nobody else changes |
| Effects.DeleteMemberStores | database/pgsql/pgsql.go:1206-1223 | exactly the member and its census rows are gone |
| Effects.DeleteMembersStores | database/pgsql/pgsql.go:1247-1254 | exactly the requested members of the entity and their census rows are gone |
| Effects.DeleteMembersByKeysStores | database/pgsql/pgsql.go:1289-1345 | exactly the members of the entity with a requested key and their census rows are gone |
| Effects.WithoutConcat | database/pgsql/pgsql.go:780-782 | array_remove works element by element: with the value on one element this determines it, order and repetitions included |
| Effects.AddTagStores | database/pgsql/pgsql.go:700-728 | succeeds if and only if the name is new in an existing entity and the sequence is not used up; stores the tag under the next id, and a rejected insertion moves the sequence too |
| Effects.DeleteTagStores | database/pgsql/pgsql.go:745-806 | the tag is gone and is taken off all members of the entity, whose other tags stay |
| Effects.AddTagToMembersStores | database/pgsql/pgsql.go:838-904 | the tag is appended for exactly the requested members of the entity that lack it, and all other tags stay |
| Effects.RemoveTagFromMembersStores | database/pgsql/pgsql.go:906-971 | the tag is taken off exactly the requested members of the entity, and all other tags stay |
| Effects.AddTargetStores | database/pgsql/pgsql.go:1621-1659 | succeeds if and only if the owner is the entity itself, which exists, and the name is new; stores the target |
| Effects.AddCensusStores | database/pgsql/pgsql.go:1724-1765 | stores the given columns, the ephemeral flag among them, or a plain census when no information is given |
| Effects.UpdateCensusStores | database/pgsql/pgsql.go:1847-1879 | root and URI are replaced where given, and nothing else |
| Effects.DeleteCensusStores | database/pgsql/pgsql.go:1952-1972 | exactly the census and its rows are gone |
| Effects.ExpandCensusStores | database/pgsql/pgsql.go:1494-1556 | one row for each eligible member with its own key or the generated pair, each key in its column; of the censuses only the size changes, and other rows stay |
| Effects.EphemeralInfoAfterExpansion | manager/manager.go:668 | after an expansion the voting mail is made for exactly the members without a valid key of an ephemeral census, with their names and the private keys generated for them |
| Effects.RepliesMean | registry/registry.go:73-152 | the exact cases of every refusal of validateToken |
| Effects.ValidateStores | registry/registry.go:136-171 | a success writes key and times on the member, takes the pending tag off it and creates the user; nobody else changes |
| Pgsql.EntriesInserted | database/pgsql/pgsql.go:1537-1543 | inserting the list of entries fails exactly on a surviving row, and otherwise adds the entries to the table |
| Pgsql.KeysOfMembers | database/pgsql/migrations.go:156-157 | by-key deletion returns each key once: as many keys as members |
| Lifecycle.KeyNeverChanges | registry/registry.go:92-152 | over every run of requests a member's non-empty key stays until the member is deleted, and no other member of the entity has it |
| Lifecycle.StatusMoves | tokenapi/tokenapi.go:138-156 | one request never makes a registered token available; only validateToken makes an available one registered |
| Lifecycle.StatusOnlyMovesForward | tokenapi/tokenapi.go:138-156 | over any run the status of an existing token moves only along available, registered, invalid |
| Lifecycle.GeneratedTokensAvailable | database/pgsql/pgsql.go:327-368 | freshly created tokens turn from invalid to available |
| Lifecycle.StatusTellsRefusal | tokenapi/tokenapi.go:148-156 | "registered" is answered exactly when validateToken refuses, if and only if the stored key is of valid length or there is none and the request has one; a stored key of another length is answered as available and refused |
| Lifecycle.AgreeIffKeysFit | registry/registry.go:104-113 | status and validateToken agree on all tokens and keys if and only if every stored key is empty or of valid length |
| Lifecycle.AgreementKept | tokenapi/tokenapi.go:226-236 | a request keeps the agreement if and only if it fails or the keys it brings are empty or of valid length |
| Lifecycle.AlwaysAgree | registry/registry.go:92-152 | over every run of requests that bring such keys only, "registered" is answered exactly when validateToken refuses |
| Lifecycle.ShortKeyDisagrees | tokenapi/tokenapi.go:226-236 | a run from empty tables that imports a key of one byte leaves a token that is answered as available and refused for every key |
| Lifecycle.AcceptedIff | registry/registry.go:62-136 | validateToken succeeds if and only if the token is unused, the key is valid and nobody in the entity has it |
| Lifecycle.ValidateBinds | registry/registry.go:104-152 | after success the token is registered, the key is reported as registered, and every later attempt on the token is refused without effect |
| Lifecycle.PendingCleared | registry/registry.go:158-171 | a successful validation takes exactly the pending tag off the member |
| Lifecycle.AddMemberIff | database/pgsql/pgsql.go:380-469 | a member can be added if and only if the entity has the Token origin, the id is new, and neither key nor email is taken in the entity |
| Lifecycle.BulkIff | database/pgsql/pgsql.go:602-661 | a bulk import succeeds if and only if the list is not empty, its entries have keys and name no other entity, the entity has the Token origin, no key has a user, and neither keys, ids nor emails repeat or are taken |
| Lifecycle.RegisterBinds | registry/registry.go:21-60 | after registering, the key is reported as registered and the member's token is refused to everybody |
| Requests.RequestsAreRuns | registry/registry.go:92-171 | any run of requests is a run of write steps, validateToken being the registration and the removal of the pending tag |
| Requests.RequestsFrame | registry/registry.go:21-171 | over any run of requests for other entities, everything that belongs to an entity stays as it was |
| Requests.RequestsTags | registry/registry.go:158-171 | every run of requests keeps each member's tags distinct and live tags of its own entity, when updates are given such tags |
| Requests.RequestsNeverReviveTag | database/pgsql/pgsql.go:745-806 | after DeleteTag the id is on no member and names no tag, after any later run of requests |
| Requests.RequestsKeepRows | database/pgsql/pgsql.go:1206-1345 | over any run of requests between expansions a row is still there, unchanged, exactly when it was there and its member was never deleted |
| Requests.SecondExpansionAfterRequests | database/pgsql/pgsql.go:1478-1567 | after any run of requests a second expansion succeeds if and only if every member of the first has been deleted since |
| SignUp.EnterEffect | manager/manager.go:44-58 | the first half of signUp adds the entity with the Token origin if it is new and changes nothing otherwise |
| SignUp.SignUpCompletes | manager/manager.go:44-64 | a call for a new entity, or for one cut off between its insertions, leaves entity, Token origin and target |
| SignUp.SignUpIdempotent | manager/manager.go:44-64 | any number of calls ends in the state of the first: its data, the Token origin, exactly one target "all" |
| SignUp.CutOffThenRetried | manager/manager.go:44-64 | a call cut off between its insertions and then retried ends in the state of a single call |
| SignUp.TokensNeedOrigin | database/pgsql/migrations.go:159-160 | tokens can be created if and only if the entity has the Token origin and the ids are new, distinct and not nil |
| Shuffle.PermutationOnto | manager/manager.go:605-608 | every slot is written |
| Shuffle.ScatteredSame | manager/manager.go:604-608 | the shuffled claims are a permutation of the digests |
| Shuffle.Scatter | manager/manager.go:604-608 | slot perm[i] gets item i, and the multiset of items is unchanged |
| Shuffle.ScatteredDistinct | manager/manager.go:604-608 | the shuffled items are distinct if and only if the items are |
| Handlers.Manager.SignUp | manager/manager.go:24-64 | is the sign-up step; succeeds exactly for a valid key with an address |
| Handlers.Manager.DumpCensus | manager/manager.go:580-614 | expands the census and returns one claim for each eligible member, shuffled: its valid key or the one generated for it; the claims are distinct if and only if the generated keys are fresh |
| Handlers.FreshMeansDiffer | database/pgsql/pgsql.go:1494-1531 | fresh generated keys are exactly what makes the members' digests differ |
| Handlers.Registry.Register | registry/registry.go:21-60 | adds the member for an existing entity and well-formed information, or changes nothing |
| Handlers.Registry.ValidateToken | registry/registry.go:62-180 | is the validateToken step, including the removal of the pending tag |
| Handlers.Registry.RemovePending | registry/registry.go:158-171 | takes the pending tag off the member when the entity has one |
| Handlers.Registry.RegistrationStatus | registry/registry.go:201-241 | answers registered exactly when some member of the entity has the key |
| Handlers.TokenAPI.Status | tokenapi/tokenapi.go:103-157 | answers the token's status to an authentic request |
| Handlers.TokenAPI.Revoke | tokenapi/tokenapi.go:59-101 | after a revocation the token is invalid; only its member and its census rows are gone |
| Handlers.TokenAPI.Generate | tokenapi/tokenapi.go:159-201 | succeeds if and only if the request is in order, the entity has the Token origin and the ids drawn are new, different and not nil; returns the requested number of distinct tokens, each newly available, or changes nothing |
| Handlers.TokenAPI.ImportKeysBulk | tokenapi/tokenapi.go:203-242 | succeeds if and only if the request is in order, the entity has the Token origin, and every key decodes to a non-empty one without a user and without repetition, under new ids; imports all decoded keys or changes nothing |
| Handlers.TokenAPI.DeleteKeys | tokenapi/tokenapi.go:296-347 | deletes by decoded key and answers the unused keys in hexadecimal; the counts add up |
| Faucet.StepExclusive | ethclient/ethclient.go:230-299 | every step of every thread keeps: a slot is full if and only if exactly one caller or waiter owns it |
| Faucet.ReleaseNeverBlocks | ethclient/ethclient.go:246-335 | whoever is about to drain a channel finds it full |
| Faucet.QuietMeansFree | ethclient/ethclient.go:227-336 | when all calls have ended and no waiter is left, every channel is empty |
| Faucet.EveryScheduleGood | ethclient/ethclient.go:206-336 | in every interleaving: exclusive ownership, one waiter of its own for every returned call, one acceptance told to each, and a sufficient balance read before each send |
| Faucet.StepNonces | ethclient/ethclient.go:58-83 | with distinct addresses a nonce that was read stays the account's next one until it is used |
| Faucet.EveryScheduleUnique | ethclient/ethclient.go:39-97 | with distinct addresses no two accepted transactions of one signer share a nonce in any interleaving: they carry consecutive ones in the order of acceptance |
| Faucet.TakenUntilSettled | ethclient/ethclient.go:308-335 | whatever the other threads do, a waiter polls on and its signer stays taken until it is told that the transaction is settled |
| Faucet.HeldUntilSettled | ethclient/ethclient.go:289-335 | from an accepted transaction that was reported on, the signer stays taken until the waiter of that very call is told that it is settled |
| Faucet.SentAsAsked | ethclient/ethclient.go:206-270 | in every interleaving an accepted transaction comes from the pool and goes to the address, with the amount, of a call that was made and not refused; zero asks for the default amount |
| Faucet.RefusedSendsNothing | ethclient/ethclient.go:215-226 | a call refused for the balance of its recipient never sends anything |
| Faucet.Sweep | ethclient/ethclient.go:230-239 | one sweep passes over the taken signers, takes the first free one, and sleeps when there is none |
| Faucet.ReturnedSentOnce | ethclient/ethclient.go:265-299 | a call that returned was told of exactly one accepted transaction, and sent no other if and only if none was reported to it as failed though accepted |
| Faucet.CheckCovers | ethclient/ethclient.go:99-124 | in every interleaving all accepted transfers of an amount were covered by the balance read before them, if and only if the amount is at most the default one or the pool is empty |
| FaucetDuplicates.UniqueIffDistinct | cmd/dvotemanager/dvotemanager.go:272-285 | nonces are unique in every interleaving if and only if the pool's addresses are distinct |
| FaucetProgress.CanFree | ethclient/ethclient.go:240-336 | from every state of a run some continuation empties every channel and ends every waiter |
| FaucetProgress.NeverStuck | ethclient/ethclient.go:227-336 | in every state of every run some continuation ends all calls and empties all channels, if and only if the pool has a signer or nothing is left to do |
| FaucetProgress.LostSendsTwice | ethclient/ethclient.go:265-299 | with a signer in the pool, some schedule that loses one answer lets a call return after two accepted transactions |
| Util.HexRoundTrip | util/util.go:50-53 | decoding the encoding of a byte string gives it back |
| Util.UnhexRoundTrip | util/util.go:50-53 | whatever decodes is, up to letter case, the encoding of its value |
| Util.SplitJoin | util/util.go:29 | splitting at slashes loses nothing and leaves slash-free parts |
| Util.CensusIDRoundTrip | util/util.go:27-56 | hex(id), its prefixed form, and address/id with either part prefixed all decode to the id |
| Util.AddressDecides | util/util.go:28-46 | without a slash the address does not matter; with one, decoding succeeds exactly when the first part decodes to the address of the requesting key and the second decodes |
| Util.ManySlashesRefused | util/util.go:47-49 | an id with more than one slash is refused |
| Util.EncodedDecodes | util/util.go:71-76 | an encoding with or without prefix decodes, and HexPrefixed keeps its value |
| Util.FirstsSound | util/util.go:58-69 | the first occurrences are distinct, have the same elements, and are as many as there are distinct elements |
| Util.UniqueUUIDs | util/util.go:58-69 | compacts in place to the first occurrences in their order, never overwriting the cells behind them |

## Left out

- The Postgres connection, drivers, timestamps other than a member's updated_at and verified, JSON columns, push tokens and the running of migrations: the final schema is taken as the set of constraints.
- HTTP routing, JSON-RPC, metrics, logging, configuration and mail: plumbing, and foreign calls.
- Real cryptography: hashing, address derivation and key generation are arguments.
- `ImportMembersWithPubKey`, `AddCensusWithMembers` and `AddUser`: no request reaches them; the second inserts members with keys of invalid length into a census, which breaks the census invariant.
- `Members`, `MembersKeys`, `MemberByEmail`, `EphemeralMemberInfoByEmail`, listing order and paging: reads that would only add easy members, or that do not filter by entity.
- The difference between a nil and an empty byte slice for entity and census ids, and nil pointers for member ids.
- The phone and verified arguments of `UpdateMember`: its statement does not store them.
- Interleavings inside one database method: each method is one atomic step, as its reads run before its transaction.
- The callback of `validateToken`, and the faucet call at the end of `signUp` (the pool is modelled by itself).
- Liveness of `SendTokens`: it retries for as long as no signer is funded. That some continuation always ends it is proved (`FaucetProgress.NeverStuck`), not that every fair one does.
- Gas price, network id and signing in `sendTokens`: their failures count as a rejected send.
- Faucet.EveryScheduleUnique: assumes a node whose pending nonce counts accepted transactions and accounts used by the pool only.
- Transactions.BulkInsert: requires at most 32768 fields, since the loop of `bulkInsert` does not advance for more (`Transactions.ChunkFits`).
- The 32-bit width of a census size and of a list length: both are unbounded here.
- `Origin` and `OrderBySQLi` string tables, and option checks of listings.
