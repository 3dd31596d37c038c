# User management: a verified model

This project models the core of a user-management service written in Go and proves what it promises: refresh-token
rotation under any interleaving of calls and faults, the users collection behind its unique email index, keyset
pagination, ULIDs, and the reporting of errors. `dafny verify dfyconfig.toml` checks all of it.

## How it is built

**Stores.** `TokenStore` and `UserStore` give each command its atomic effect on a collection, as a function of the
documents and of a fault: a request lost before it took effect, or a reply lost after. `RefreshRepo` and the class
`UserStore.UserRepo` are the repositories as classes, each method proved equal to its command.

**Runs.** `Rotation` is a transition system in which any number of `Refresh`, `Login` and `Delete` calls are in
flight; each carries its program point and the values it has read, and a step sends one command of one call. Row
creation, email changes and the TTL index run in between, and history records which call stored, claimed or logged
in. `UserRuns` is the same for `Create`, `Update` and `Delete`. A step that is not possible stutters, so every
sequence of actions is a run, and a theorem over `Exec(INIT, acts, ...)` is a theorem over every run.

**Theorems over runs.** `RotationFamilies` (lineage and conservation), `RotationSafety` (reuse, wipe and delete),
`RotationRace` (one winner), `RotationSurvival` (what becomes of the winner's token), `UserSafety` (one winner per
email, updates, self only), `Listing` and `UserWalk` (a walk over pages while others write).

**Services.** `AuthService` and `UserService` are the use cases as classes over the repositories, written as the
source writes them. Each method is proved twice over. It ends in the store, and with the answer, of the transition
system running that call's commands alone, so that what is proved of runs is proved of it. And it keeps a promise that
names no part of the system: `SessionAnswers` and `UserAnswers` say case by case, from the input, the rows, the
documents and every fault, what is left behind and what is answered. `Codes` carries those answers to the code the
caller is told. `RotationSolo` follows lone refreshes one after the other, `RotationExpiry` says when they miss a
document the TTL index took, and `RowSteps` and `Deletion` tie the two systems together over one collection.

**Doubles.** `FakeUserRepo` and `FakeRefreshRepo` are the in-memory stores: users and tokens on the heap, updated in
place under one or two maps. They are proved to do what the collections do, and where their answers differ, exactly
when.

**Values.** `Ulid` works on 64-bit words bit by bit (`Words`), `ObjectId` on 24-digit hexadecimal ids, `UserDomain` on
names, emails and passwords, `Errors` and `ApiErr` on error trees. `Division`, `Positional`, `Finite` and `Text` are
the arithmetic, digit, counting and string lemmas they need.

## Findings

- The comment above `rotate` says a loser is refused without a wipe. That is so of a loser at the compare-and-swap,
  not of every loser: a contender whose lookup runs once the token is spent finds it revoked and wipes the user. In a
  complete race a wipe runs if and only if there is such a late lookup (`RotationSurvival.WipesIffLateLookup`), and the
  winner's token survives if and only if no wipe runs once it is stored (`RotationSurvival.WinnerSurvivesIff`). If every
  contender reads the token while it is live, losing is harmless (`RotationSurvival.TimelyRaceIsHarmless`); and
  `RotationSurvival.RevokedWinner` is a race of two, from the initial state, whose winner ends with a revoked token.
- ULIDs sort by the low 48 bits of the clock. `Ulid.WrapsAround` is the first millisecond that sorts before the one
  ahead of it.
- The user double compares ids as strings and the repository parses them, so the two answer a `Delete` alike for
  every store exactly for ids as they are printed (`FakeUserRepo.AgreeIffCanonical`).
- The repository hides password hashes (the `noPassword` projection) and the user double does not: a page, a user
  found by id and the row an `Update` returns are the same but for the hash, and equal exactly where no hash is set
  (`FakeUserRepo.ListsAgree`, `FakeUserRepo.FindsAgree`, `FakeUserRepo.UpdateAgrees`).
- `UserService.Delete` revokes by the id string it was given. That reaches the removed row's tokens exactly when the
  string is the printed id (`Deletion.RevocationReachesIffPrinted`), and for the same reason it is the rotation system's
  Delete exactly for ids that are refused or printed (`Deletion.DeletionAgreesIff`); ids in access tokens are printed.
- The TTL index can hide a reuse: once a revoked token has expired and its document is gone, presenting it again is
  refused but wipes nothing, where with the document still there it would have. That is the only way a refresh misses
  an expired document (`RotationExpiry.ExpiryUnnoticedIff`).
- The token double overwrites a document whose hash is stored again, which the collection refuses
  (`FakeRefreshRepo.FakeTokens.Store`).

## Model

| member | source | states |
|---|---|---|
| RotationRace.ExactlyOneWinner | internal/app/auth_service.go:95-162 | from any reachable state, however many refreshes present one live token of an existing user and however they interleave without faults, exactly one gets a session, every other is Unauthorized, exactly one token is stored, with the contested one as parent, and no other user's token changes |
| RotationSurvival.WinnerSurvivesIff | internal/app/auth_service.go:147-162 | after a complete race the winner's token is live if and only if no wipe ran once it was stored |
| RotationSurvival.WipesIffLateLookup | internal/app/auth_service.go:129-134 | in a complete race a wipe runs if and only if some contender's lookup runs once the contested token is spent |
| RotationSurvival.TimelyRaceIsHarmless | internal/app/auth_service.go:147-153 | if every contender looks the token up while it is live, the winner's token is live at the end and of the tokens there were only the contested one changed |
| RotationSurvival.WinnerCanBeRevoked | internal/app/auth_service.go:147-162 | from every state ready for a race, two contenders one after the other make a race that ends with the winner's token revoked |
| RotationSurvival.RevokedWinner | internal/app/auth_service.go:147-162 | such a race, concretely, from the initial state |
| RotationSurvival.FamilyAfterRace | internal/app/auth_service_test.go:202-234 | after a complete race the live tokens of the contested family are the winner's, if no wipe ran once it was stored, and otherwise none |
| RotationFamilies.FamiliesAreChains | internal/app/auth_service.go:147-190 | in every reachable state each stored token is a login's or has one spent parent of the same user, no two tokens share a parent, and a login's family has at most one live token |
| RotationFamilies.OneChild | internal/app/auth_service.go:154-162 | two rotations of one token are the same rotation |
| RotationFamilies.Chain | internal/app/auth_service.go:147-162 | of two tokens that go back to one login, the older is an ancestor of the newer |
| RotationFamilies.ParentSpentFirst | internal/app/auth_service.go:154-161 | the step that stores a rotated token finds its parent already spent and claimed by that very call |
| RotationFamilies.OneOpenPerLogin | internal/app/auth_service.go:147-162 | a login has at most one token that is live or claimed and not yet replaced |
| RotationFamilies.SessionsAreConserved | internal/app/auth_service.go:147-190 | in every reachable state, faults included, a user's live tokens and rotations in flight never outnumber that user's passed password checks |
| RotationFamilies.StoresAreCounted | internal/adapter/outbound/mongo/refresh_repo.go:50-63 | every token ever stored was stored by one login or one rotation, at most one each, and rotations are backed by distinct claims |
| RotationSafety.WipeOnReuseOnly | internal/app/auth_service.go:129-134 | in any run a call turns to wiping exactly in the step that looks up, without a fault, a token already revoked, and it wipes that token's user |
| RotationSafety.LoserTouchesNothing | internal/app/auth_service.go:154-161 | losing the compare-and-swap is answered Unauthorized and changes nothing in the store |
| RotationSafety.WipeClears | internal/adapter/outbound/mongo/refresh_repo.go:105-120 | a wipe leaves no live token of its user, touches no other user's token, and keeps earlier revocation times |
| RotationSafety.WipeAftermath | internal/app/auth_service.go:141-145 | after a wipe, in any continuation, a live token of that user lies on a chain whose first later token was stored by a login or by a rotation that held its claim at the wipe |
| RotationSafety.DeleteIsSafe | internal/app/user_service.go:108-122 | once the row is removed, whatever becomes of the revocation, new sessions for that id go only to calls already past their user lookup and number at most those |
| RotationSafety.DeleteAftermath | internal/app/user_service.go:108-122 | once a Delete's revocation has taken effect, in any continuation, a live token of that user was stored by a call already past its user lookup when the row went, and there are at most as many as such calls |
| Rotation.InvExec | internal/app/auth_service.go:95-190 | the invariant of the stores, lineage and calls holds in every reachable state |
| Rotation.HoldsFrom | internal/app/auth_service.go:154-162 | only a confirmed compare-and-swap on a live token lets a refresh go on to issue |
| RotationSolo.RefreshIsAFunction | internal/app/auth_service.go:95-190 | alone and without faults, Refresh is a function of rows and documents: the answer, and the old token revoked plus one new token expiring at now plus the TTL, or a wipe, or nothing |
| RotationSolo.SessionIff | internal/app/auth_service.go:116-139 | that function grants a session if and only if the hash is known, unrevoked, unexpired and its user exists |
| RotationSolo.ChainSucceeds | internal/app/auth_service.go:95-112 | a chain of refreshes of any length, each presenting in time the token the one before returned, succeeds at every link |
| RotationSolo.PresentedAtOnce | internal/app/auth_service.go:170-175 | with a positive TTL a token presented as soon as it is given is in time, any number of times over |
| RotationSolo.ReuseWipes | internal/app/auth_service.go:129-134 | presenting a token again after it was rotated is Unauthorized and leaves the user no live token, the new one included |
| RotationExpiry.ExpiryUnnoticedIff | internal/adapter/outbound/mongo/refresh_repo.go:38-42 | a refresh answers and stores the same whether or not the TTL index has taken an expired document, unless that document is the revoked token presented and its user has live tokens, when the wipe is missed |
| AuthService.AuthService.Refresh | internal/app/auth_service.go:95-112 | by the token, the one document with its hash and the faults of the five commands, exactly what is stored and answered; Unauthorized if and only if the token is missing, unknown, revoked with the wipe confirmed, expired, or its owner is gone, and an infrastructure error never is; the same documents and answer as the system running the five commands alone |
| SessionAnswers.RefusedIffUnusable | internal/app/auth_service.go:95-139 | what Refresh promises makes it Unauthorized exactly for an unusable token, and otherwise a session or an infrastructure error |
| AuthService.AuthService.FindLiveRefreshToken | internal/app/auth_service.go:116-139 | a usable token is found exactly if one document has the hash, unrevoked and unexpired; every other is Unauthorized, a revoked one after the wipe; a failed lookup or wipe is an infrastructure error and not Unauthorized |
| AuthService.AuthService.RevokeAllOnReuse | internal/app/auth_service.go:141-145 | the wipe, and an error instead of Unauthorized when it was not confirmed |
| AuthService.AuthService.FindOwner | internal/app/auth_service.go:103-109 | a vanished user is Unauthorized, a failed lookup is an infrastructure error |
| AuthService.AuthService.Rotate | internal/app/auth_service.go:147-162 | claim first, then issue: a lost claim is Unauthorized and changes nothing, a claim not heard of leaves the token revoked, and only a confirmed one goes on |
| AuthService.AuthService.IssueSession | internal/app/auth_service.go:164-190 | one token stored for that user, created now and expiring at now plus the TTL, or no session and an infrastructure error |
| AuthService.AuthService.Login | internal/app/auth_service.go:66-92 | a malformed email, an unknown one and a wrong password get one and the same answer and store nothing; a fault or a corrupt hash is an infrastructure error; a session is of the row with that email; and the same refinement of the system as Refresh |
| AuthService.AuthService.Authenticate | internal/app/auth_service.go:74-89 | the password is compared with the hash in the row that has the email, and a corrupt hash surfaces as an infrastructure error |
| AuthService.RowByEmailIs | internal/adapter/outbound/mongo/user_repo.go:88-102 | under the unique index the lookup by email has one possible answer |
| RefreshRepo.RefreshTokenRepo.Store | internal/adapter/outbound/mongo/refresh_repo.go:50-63 | an insert arbitrated by the unique hash; every failure is an infrastructure error |
| RefreshRepo.RefreshTokenRepo.FindByHash | internal/adapter/outbound/mongo/refresh_repo.go:65-80 | the document with that hash, or not found |
| RefreshRepo.RefreshTokenRepo.Revoke | internal/adapter/outbound/mongo/refresh_repo.go:82-103 | a compare-and-swap on not yet revoked; not found exactly when there was no live token |
| RefreshRepo.RefreshTokenRepo.RevokeAllForUser | internal/adapter/outbound/mongo/refresh_repo.go:105-120 | every live token of the user and no other is revoked; none is a success |
| Deletion.DeletionAgreesIff | internal/app/user_service.go:108-122 | the service's Delete, run alone, is the rotation system's Delete over all rows and documents and under all faults, if and only if the id is refused at entry or is the caller's own as printed |
| Deletion.RevocationReachesIffPrinted | internal/app/user_service.go:118-121 | revoking by an id string clears the tokens of the row it names, in every store, if and only if the string is the printed id |
| RowSteps.InsertIsAddRow | internal/app/user_service.go:25-38 | a Create's insert is, to the rotation system, its step that adds a row |
| RowSteps.WriteIsChangeEmail | internal/app/user_service.go:100-106 | an Update's write is, to the rotation system, its step that changes an email |
| UserRuns.RowsAreAccounted | internal/adapter/outbound/mongo/user_repo.go:32-67 | in every run of Create, Update and Delete no two rows share an email, stored fields are their own normal forms, rows are inserts less deletes, and only a call told so, or one whose reply was lost, added or removed a row |
| UserRuns.StoredEmailsAreNormal | internal/domain/user/email.go:12-36 | with the domain's checks, every stored email is unique and a fixpoint of NewEmail |
| UserRuns.InvStep | internal/app/user_service.go:25-122 | every step of every call keeps the index, the ledger of rows and the call's own claims |
| UserSafety.OneCreateWins | internal/app/user_service.go:32-37 | of any number of concurrent valid Creates normalizing to one free email exactly one succeeds, the others are told it is taken, and one row is added |
| UserSafety.UpdateLandsOnNewest | internal/app/user_service.go:73-105 | in any run an Update applies to the row as it is at the write: sent fields in normal form, unsent fields at their newest value; refused exactly when the row is gone or another row has the email |
| UserSafety.WritesCommute | internal/adapter/outbound/mongo/user_repo.go:165-182 | two Updates of different fields both succeed in either order, with the same row but for its timestamp |
| UserSafety.OnlyOwnRow | internal/app/user_service.go:137-145 | a step changes or removes a row only if it is a step of an unanswered call in the owner's name |
| UserSafety.SelfOnly | internal/app/user_service.go:137-145 | over any continuation in which the owner has no call in flight, a row stays as it is |
| UserSafety.ForeignIdIsBlind | internal/app/user_service.go:137-145 | an id not the caller's own is Forbidden in every store, for good, and changes nothing |
| UserSafety.AnswersStand | internal/app/user_service.go:62-122 | a call answers once |
| UserService.ListFilter.Resolve | internal/app/types.go:79-94 | accepts exactly no limit or a limit in 1..100; no limit means 20, and a refusal says which bound was broken |
| UserService.UserService.Create | internal/app/user_service.go:25-38 | unfit fields are all reported and nothing is hashed; fit ones are hashed once and stored in normal form with both times now, unless another row has the email, which is answered so; faults on either side of the insert |
| UserService.UserService.List | internal/app/user_service.go:47-60 | a bad limit, then a bad cursor, then a fault; else a page of at most the limit, 20 if none was sent: of the rows below the cursor, newest first, those that match, all of them for the empty query, down to a next cursor that is there exactly if more follow |
| UserService.UserService.Check | internal/app/user_service.go:84-103 | every sent field that is invalid is reported in order, every valid one goes into the patch in normal form |
| UserRuns.RejectedFields | internal/app/user_service.go:84-103 | what Update reports: a sent field if and only if it is invalid, once, the name before the email |
| UserService.UserService.Update | internal/app/user_service.go:62-106 | an empty id, a foreign id, no field, a malformed id, a failed read, a missing row, unfit fields and a taken email, in that order, each with its error and no change; else the row with the sent fields in normal form, the others as they were, stamped now, is stored and shown without its hash |
| UserService.UserService.Delete | internal/app/user_service.go:108-122 | refusals change nothing; the row goes, and only once that is confirmed are the live tokens under that id revoked, at now; every fault is an infrastructure error with its effect stated |
| UserService.CreateAlone | internal/app/user_service.go:25-38 | the outcome Create is proved to have is that of its run in the system |
| UserService.CreateOutcomeSays | internal/app/user_service.go:25-38 | what the system answers and leaves of a lone Create, case by case |
| UserService.UpdateAlone | internal/app/user_service.go:62-106 | the same for Update |
| UserService.UpdateOutcomeSays | internal/app/user_service.go:62-106 | the same for Update |
| UserService.DeleteAlone | internal/app/user_service.go:108-119 | the same for Delete |
| UserService.DeleteOutcomeSays | internal/app/user_service.go:108-122 | the same for Delete |
| UserStore.UserRepo.Create | internal/adapter/outbound/mongo/user_repo.go:47-67 | the insert under the unique index; the id is written back only on a confirmed insert |
| UserStore.UserRepo.FindByID | internal/adapter/outbound/mongo/user_repo.go:69-86 | a copy of the row without its password hash, or a malformed id, an infrastructure error or not found |
| UserStore.UserRepo.FindByEmail | internal/adapter/outbound/mongo/user_repo.go:88-102 | the row with that email, hash included |
| UserStore.UserRepo.List | internal/adapter/outbound/mongo/user_repo.go:107-157 | of the rows below the cursor, newest first and without hashes, those that match, all of them for the empty query, at most the limit, with a cursor exactly when more rows follow; a cursor that is no id is a validation failure of that field |
| UserStore.PageForShows | internal/adapter/outbound/mongo/user_repo.go:107-157 | the keyset page, in terms of id strings: a row below the cursor is shown if and only if it matches, or no query was sent, and it does not lie below the next cursor |
| UserStore.UserRepo.Find | internal/adapter/outbound/mongo/user_repo.go:131-145 | the first n selected rows in descending id order |
| UserStore.UserRepo.Update | internal/adapter/outbound/mongo/user_repo.go:159-192 | the patch applied in one command, refused by the index or by a missing row |
| UserStore.UserRepo.Delete | internal/adapter/outbound/mongo/user_repo.go:194-211 | the row removed, or not found |
| UserStore.IndexHolds | internal/adapter/outbound/mongo/user_repo.go:32-45 | no command under any fault puts two rows under one email |
| UserStore.OnlyNewEmailsCollide | internal/adapter/outbound/mongo/user_repo.go:169-188 | a patch collides exactly when it sets an email another row has |
| UserStore.LookaheadCut | internal/adapter/outbound/mongo/user_repo.go:131-151 | fetching one row more than the limit decides the page as fetching all would |
| UserStore.CursorRoundTrip | internal/adapter/outbound/mongo/user_repo.go:110-151 | the cursor string a page hands out parses back to the id the next page starts below |
| Listing.KeysetWalk | internal/adapter/outbound/mongo/user_repo.go:104-157 | with any writes between pages, ids strictly descend over the walk, a row present and matching at every page is shown, and what is shown matched when its page was read |
| Listing.StaticWalk | internal/adapter/outbound/mongo/user_repo.go:131-156 | over unchanging rows the pages concatenate to the whole answer in descending order, in max(1, ceil(n/limit)) pages, all full but the last |
| Listing.PageFacts | internal/adapter/outbound/mongo/user_repo.go:147-156 | a page is in order and in bounds, and what it leaves out lies below its cursor |
| UserWalk.UsersWalk | internal/adapter/outbound/mongo/user_repo.go:104-157 | the same for a client of the repository holding only cursor strings: id strings strictly descend, and a user that is there at every page, and matches if a query was sent, is shown |
| UserWalk.StaticUsers | internal/adapter/outbound/mongo/user_repo.go:104-157 | over rows that do not change the walk shows a row if and only if it matches, every row when no query was sent, once each and in the pages that fills |
| UserWalk.PagesAreWalk | internal/adapter/outbound/mongo/user_repo.go:110-151 | following the cursor strings of a server whose answers are keyset pages is following ids |
| UserWalk.RepositoryServes | internal/adapter/outbound/mongo/user_repo.go:107-157 | the repository, over rows that change between pages, is such a server |
| ObjectId.ParsePrint | internal/adapter/outbound/mongo/user_repo.go:227-234 | parsing undoes printing |
| ObjectId.ParsesExactly | internal/adapter/outbound/mongo/user_repo.go:227-234 | exactly the strings of 24 hexadecimal digits of either case are ids |
| ObjectId.PrintParse | internal/adapter/outbound/mongo/user_repo.go:227-234 | a printed id is the print of what it parses to |
| ObjectId.PrintOrder | internal/app/fake_test.go:81-84 | 24-digit hexadecimal ids sort as strings as they do as numbers |
| FakeUserRepo.FakeRepo.Create | internal/app/fake_test.go:94-109 | both maps gain the very user handed over, under a new id; a taken email or a forced error changes nothing |
| FakeUserRepo.FakeRepo.Update | internal/app/fake_test.go:166-190 | the stored user is changed in place and the email map follows, also for an unchanged or freed email |
| FakeUserRepo.FakeRepo.Delete | internal/app/fake_test.go:192-204 | both maps lose the user |
| FakeUserRepo.FakeRepo.FindByID | internal/app/fake_test.go:111-122 | a copy of the stored user |
| FakeUserRepo.FakeRepo.FindByEmail | internal/app/fake_test.go:124-135 | a copy of the user with that email, or not found exactly when there is none |
| FakeUserRepo.FakeRepo.List | internal/app/fake_test.go:137-164 | for every cursor, compared as a string, the page shows what the repository's page is proved to show |
| FakeUserRepo.FakeMatchExactly | internal/app/fake_test.go:148-152 | a row matches exactly if the query stands in its name or its email, case ignored |
| FakeUserRepo.InverseMove | internal/app/fake_test.go:175-182 | moving a user to a free email, or to its own, keeps the two maps inverse |
| FakeUserRepo.CreateAgrees | internal/app/fake_test.go:94-109 | the double's Create is the collection's insert |
| FakeUserRepo.UpdateAgrees | internal/app/fake_test.go:166-190 | the double's Update is the collection's update; the repository answers the same row without its hash, so the same answer exactly if there is none |
| FakeUserRepo.FindsAgree | internal/app/fake_test.go:111-122 | reading by a printed id, the repository answers the double's row without its hash, so the same answer exactly if there is none |
| FakeUserRepo.DeleteAgrees | internal/app/fake_test.go:192-204 | the double's Delete is the collection's delete |
| FakeUserRepo.ListsAgree | internal/app/fake_test.go:137-164 | for no cursor and every printed cursor the repository's page is the double's with the password hashes hidden, so the same page if and only if no user on it has one |
| FakeUserRepo.AgreeIffCanonical | internal/app/fake_test.go:192-204 | double and repository answer a Delete alike in every store if and only if the id is a printed one |
| FakeRefreshRepo.FakeTokens.Store | internal/app/fake_test.go:231-241 | an insert for a new hash, an overwrite for a stored one |
| FakeRefreshRepo.FakeTokens.FindByHash | internal/app/fake_test.go:243-252 | the document with that hash |
| FakeRefreshRepo.FakeTokens.Revoke | internal/app/fake_test.go:254-265 | the loop over the cells is the compare-and-swap |
| FakeRefreshRepo.FakeTokens.RevokeAllForUser | internal/app/fake_test.go:267-277 | the loop over the cells is the wipe |
| FakeRefreshRepo.FakeTokens.Count | internal/app/fake_test.go:279-284 | the number of documents |
| FakeRefreshRepo.FakeTokens.ActiveCount | internal/app/fake_test.go:286-296 | the number of live documents |
| Ulid.ShiftRightIsFloor | internal/platform/id/ulid.go:52-62 | for every shift below 128 the two-word shift is the floor of the 128-bit value by 2^n, reduced to 64 bits |
| Ulid.Encode | internal/platform/id/ulid.go:38-50 | the loop writes the 26 base-32 digits of the 128-bit value |
| Ulid.DecodeEncode | internal/platform/id/ulid.go:38-50 | a base-32 decoder inverts encode on every input |
| Ulid.EncodePreservesOrder | internal/platform/id/ulid.go:38-50 | encoded strings sort as the numbers, and distinct inputs have distinct strings |
| Ulid.NewUlid | internal/platform/id/ulid.go:19-36 | read back as a number the id is the low 48 bits of the clock above the number of the ten random bytes |
| Ulid.SameIdIff | internal/platform/id/ulid.go:19-36 | two ids are equal if and only if the low 48 bits of the clocks and the random bytes are |
| Ulid.PrefixIsTimestamp | internal/platform/id/ulid.go:16-27 | the first ten characters are determined by the timestamp alone and determine it |
| Ulid.SortsByTime | internal/platform/id/ulid.go:3-4 | prefixes sort if and only if the clocks' low 48 bits do, and then so do the whole ids, whatever the random bytes |
| Ulid.WrapsAround | internal/platform/id/ulid.go:23-27 | at 2^48 milliseconds the order breaks |
| UserDomain.New | internal/domain/user/user.go:33-56 | every unfit field and no hashing, or one hashing and a user whose name and email are the forms of what was sent |
| UserDomain.FailingFields | internal/domain/user/user.go:36-43 | the reported fields are exactly the unfit ones, each once, in the order name, email, password |
| UserDomain.NewEmailExactly | internal/domain/user/email.go:19-36 | accepted are exactly the strings whose trimmed lowercase form has at most 254 bytes, is an address and has a dot after an at sign, each as that form |
| UserDomain.EmailReasons | internal/domain/user/email.go:20-34 | which of the three reasons a refused email is given |
| UserDomain.NormalizeNameExactly | internal/domain/user/user.go:108-114 | accepted are exactly the names of 1 to 100 characters once trimmed, each as trimmed |
| UserDomain.ValidatePasswordExactly | internal/domain/user/password.go:21-29 | refused are exactly the passwords below 8 characters and the common ones in any case, with the reason |
| UserDomain.CommonInAnyCase | internal/domain/user/password_test.go:14-17 | the cases of the password test: a common password is refused in any case, a strong one is not |
| Text.TrimSpaceIs | internal/domain/user/email.go:20 | trimming takes off exactly the spaces at both ends |
| Text.Utf8LenIsBytes | internal/domain/user/email.go:24 | the length of an email is counted in UTF-8 bytes |
| UserDomain.User.Rename | internal/domain/user/user.go:75-83 | a valid name is stored in normal form, an invalid one changes nothing |
| UserDomain.User.ChangeEmail | internal/domain/user/user.go:85-93 | the same for the email |
| UserDomain.NewEmailStable | internal/domain/user/email.go:12-36 | normalizing is a projection |
| UserDomain.NewEmailIgnoresSpelling | internal/domain/user/email.go:12-20 | spellings that differ in case and in the spaces around them get one answer, the same email or the same rejection |
| UserDomain.NormalizeNameStable | internal/domain/user/user.go:108-114 | a normalized name is its own normal form |
| UserDomain.ValidationSurvivesWrapping | internal/domain/user/errors.go:39-60 | what New reports reaches the transport whole and in order under any depth of wrapping; read as a single failure it is the first |
| Errors.SearchIsFirst | internal/domain/user/errors.go:33-60 | the searches of errors.As and errors.Is find the first matching node of the tree's preorder |
| Errors.JoinedInOrder | internal/domain/user/errors.go:52-60 | of joined errors the earlier are searched first |
| ApiErr.Classify | internal/adapter/inbound/apierr/apierr.go:47-83 | which code, message and fields an error is answered with: validation before all, then each of six failures exactly if it occurs and none before it does, Internal exactly if none does |
| ApiErr.ClassifiedTells | internal/adapter/inbound/apierr/apierr.go:47-83 | the same of the answer read off the flattened tree |
| ApiErr.WrappingIsTransparent | internal/adapter/inbound/apierr/apierr.go:45-83 | wrapping changes no answer |
| ApiErr.ValidationAnywhere | internal/adapter/inbound/apierr/apierr.go:53-66 | the answer is a validation failure if and only if some node is one, and a many-field one keeps all its fields |
| ApiErr.CodeIgnoresShape | internal/adapter/inbound/apierr/apierr.go:53-83 | the code depends on which failures occur in the tree, not where |
| Codes.SentinelCode | internal/adapter/inbound/apierr/apierr.go:67-81 | each failure of the domain has its own code, an unauthenticated request that of Unauthorized, and the two of the application none |
| Codes.UnfitCreateCode | internal/domain/user/user.go:36-43 | end to end: a Create of unfit fields is a validation failure that lists every unfit field |
| Codes.FitCreateCode | internal/app/user_service.go:25-38 | end to end: a Create of fit fields fails with the code of the hasher's failure, or EMAIL_TAKEN when a row has the email, or INTERNAL for a fault |
| Codes.UpdateCodes | internal/app/user_service.go:62-106 | end to end: which code a failed Update is answered with, in order of precedence |
| Codes.DeleteCodes | internal/app/user_service.go:108-122 | the same for Delete |
| Codes.ListCodes | internal/app/user_service.go:47-60 | the same for List, with the field at fault |
| Codes.LoginCodes | internal/app/auth_service.go:66-92 | end to end: a failed Login is INVALID_CREDENTIALS exactly when the lookup works and no row has the email or its hash does not match the password, and INTERNAL for every fault |
| Codes.RefreshCodes | internal/app/auth_service.go:95-139 | end to end: a failed Refresh is UNAUTHORIZED exactly for an unusable token, and INTERNAL otherwise |

## Left out

- HTTP, gRPC, middleware, configuration, the worker, metrics and shutdown: transport and wiring.
- The driver, timeouts and connection handling: a command has its effect, or a fault before or after it. `RevokeAllForUser`, many documents on the server, is one step.
- bcrypt, SHA-256, random bytes and token signing: a raw token is named by its hash, hashing is injective, the hasher and the issuer answer as their callers are told. Equalizing the timing of a login has no effect to model.
- `mail.ParseAddress` is a predicate of which only the at sign is used; lowercasing covers the ASCII letters; strings are sequences of Unicode scalar values.
- Matching a search string in the repository is a predicate of the string and the row; only the double's own matching is spelled out.
- `UserService.Get` and `UserService.Count`: one read each, with nothing to add to the repository's contract.
- `UpdatedAt` is set from a clock read before the write, so interleaved updates can move it back; nothing is claimed of it but its value.
- Linearizability of `Refresh`: losing a claim is deliberately not the wipe a later reuse is, so no sequential order of calls explains every run.
- Locks of the doubles: their methods are single steps here. The recorded call names are dropped.
- ExactlyOneWinner: leaves open whether the winner's token is still live, which `RotationSurvival` decides.
- NewEmailIgnoresSpelling: folds the ASCII letters only, where the source lowercases every Unicode letter.
- NewEmailExactly: takes lowercasing on the ASCII letters, and of the address parser only what the rule says.
- ValidatePasswordExactly: compares with the common passwords on the ASCII letters only.
- InvExec: in the rotation system row creation and email changes are single steps; `RowSteps` says which commands of `UserRuns` they are.
- FakeRepo.Create: asks that fewer than 2^96 ids were handed out; the caller hands the user over, and a later change through its own reference would break the email map.
- UserService.Create: inherits what the repository's Create asks.
- UserRepo.Create: asks that fewer than 2^96 ids were generated; ids come from a counter, so they are new and ascend.
- StaticWalk: speaks of ids; `UserWalk.PagesAreWalk` carries walks over to cursor strings.
