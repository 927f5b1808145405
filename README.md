# Survey backend: survey-aggregate store, access decisions, transactions

A Dafny model of the core of the schroedinger-surveys backend. It covers:

- the survey store in both of its generations: the older `src/db/SurveyDB.js` and the newer `src/db/sql/SurveyDB.ts`;
- the survey, token and user services built on that store.

The relational database is a value, `Rows.Tables`. It holds one sequence of rows per table: surveys, freestyle questions, constrained questions, options, tokens and users. The shared connection is the class `Transactions.Database`:

- `begin` snapshots the tables;
- `rollback` restores the snapshot;
- `commit` forgets it.

Dates are abstract ordered integers. Every survey and user id becomes a storage key through `Ids.Normalize`, the source's `id.split("-").join("")`. Keys the database generates (uuids) are modelled by `Rows.NthKey`. That function gives the n-th key generated from a given state of the tables. Each such key is longer than every key in use, so it clashes with none, and different positions give different keys.

What is proved:

- **Owner-only changes.** Survey update and delete act only on the owner's row. A non-owner gets the same zero-row outcome as a missing id.
- **Null filling.** The newer store's aggregate read never answers null question lists.
- **Search.**
  - Search returns only matching rows, in the stated order, at most one page.
  - Every matching row is on some page.
  - Counts agree with searches.
  - Secured surveys never reach the public search.
  - Both WHERE quirks are kept as written:
    - the end filter is compared with the start filter's value;
    - the newer count has no escape for an absent `secured`.
- **Survey creation is all-or-nothing.**
  - On success, every question and option is stored under the new survey, and the response echoes the request.
  - When any insert throws, the tables are exactly as before.
- **Read permissions.**
  - Public and private retrieve paths follow their permission ladders.
  - A missing survey gets no response at all.
- **Token minting.** Tokens are minted only for the survey's owner, in creation order, and are committed only after all have been created.
- **Account rules.** Registration and profile change answer 409 in the source's order, and each preserves distinct usernames and emails.
- **Login.** Login succeeds exactly when the password checks.
- **Transaction discipline.** It is stated for every handler, including the missing commit in `deleteUser` (see Findings).

Quirks of the source that the model keeps:

- The older store compares titles with `LIKE` on the raw value, which is an exact match for a title without wildcards. It orders by id, descending.
- The newer store wraps the title in `%…%` and orders by `created` descending.
- The newer store formats `description` but never uses it.
- In the newer aggregate, a question without options has a null `options` list.
- A caller's `user_id` and a token's `survey_id` are compared with stored ids as storage keys.

## Model

| member | source | states |
|---|---|---|
| Ids.Normalize | src/db/sql/SurveyDB.ts:20 | the key has no `-` and is no longer than the id |
| Ids.NormalizeCounts | src/db/sql/SurveyDB.ts:109-112 | normalisation removes every `-` and keeps every other character with its multiplicity |
| Ids.NormalizeAppend | src/db/sql/SurveyDB.ts:27 | normalisation works piecewise, so it keeps the order of the remaining characters |
| Ids.NormalizeIdempotent | src/db/sql/SurveyDB.ts:41 | normalising a key again changes nothing |
| Ids.NormalizeKeepsKeys | src/db/SurveyDB.js:18 | an id without `-` is its own key |
| Ids.KeyLessTransitive | src/db/SurveyDB.js:33 | the id order of `ORDER BY id DESC` is transitive |
| Ids.KeyLessTotal | src/db/SurveyDB.js:33 | any two different ids are ordered one way or the other |
| Ids.KeyLessAsymmetric | src/db/SurveyDB.js:68 | the id order is strict |
| Rows.NthKeyUnused | src/db/sql/SurveyDB.ts:33 | a generated id clashes with no key in any table and contains no `-` |
| Rows.FreshKeyUnused | src/db/sql/SurveyDB.ts:33 | the id of a single insert clashes with no key in any table and contains no `-` |
| Rows.NthKeysDistinct | src/service/TokenService.js:25-27 | ids generated at different positions differ |
| Transactions.Database.Begin | src/service/SurveyService.js:128 | BEGIN snapshots the tables and changes no row |
| Transactions.Database.Rollback | src/service/SurveyService.js:155 | ROLLBACK restores the snapshot and closes the transaction |
| Transactions.Database.Commit | src/service/SurveyService.js:151 | COMMIT keeps the current tables and closes the transaction |
| Filters.ContainsMeansOccurs | src/db/sql/SurveyDB.ts:113-116 | the `%title%` filter holds exactly when the title occurs at some position |
| SqlSurveyDB.UpdateTouchesOnlyOwnedRow | src/db/sql/SurveyDB.ts:4-22 | the update sets the five fields of the row with that id and owner (when the owner exists), and leaves id, owner, creation date and every other row as they were |
| SqlSurveyDB.UpdateByNonOwnerIsNoOp | src/db/sql/SurveyDB.ts:12-17 | a caller who does not own the survey changes nothing and matches no row, as for a missing id |
| SqlSurveyDB.UpdateSurvey | src/db/sql/SurveyDB.ts:4-22 | the new surveys table is the updated one, the transaction state is unchanged, and the row count is the number of owned targets |
| SqlSurveyDB.DeleteByOwnerRemovesAggregate | src/db/sql/SurveyDB.ts:24-29 | the owner's delete removes the survey, its questions, their options and its tokens; it keeps every other survey, the other surveys' freestyle and constrained questions, every option not under one of the survey's questions, the other surveys' tokens, and every user |
| SqlSurveyDB.DeleteByNonOwnerIsNoOp | src/db/sql/SurveyDB.ts:26 | a non-owner's delete leaves every table unchanged |
| SqlSurveyDB.DeleteSurvey | src/db/sql/SurveyDB.ts:24-29 | the tables become the deletion's result and the removed count is the number of owned targets |
| SqlSurveyDB.GetSurveyByIdAndUserId | src/db/sql/SurveyDB.ts:38-43 | a row is returned exactly when both its id and its owner match the normalised arguments |
| SqlSurveyDB.OwnedLookup | src/db/sql/SurveyDB.ts:38-43 | the owner lookup gives at most one row, and one exactly when the survey exists and the owner matches |
| SqlSurveyDB.JsonAgg | src/db/sql/SurveyDB.ts:55-86 | `json_agg` over no rows is null, otherwise the rows |
| SqlSurveyDB.ConstrainedJsonContents | src/db/sql/SurveyDB.ts:64-84 | the list has one entry per constrained question of the survey; each question of the survey is there with the json_agg of its options, and every entry is such a question |
| SqlSurveyDB.FillNulls | src/db/sql/SurveyDB.ts:94-104 | every document keeps its order and gets `[]` in place of a null question list |
| SqlSurveyDB.AggregateContents | src/db/sql/SurveyDB.ts:45-106 | the filled aggregate holds the survey, all its freestyle questions and all its constrained questions, with null options exactly for questions without options |
| SqlSurveyDB.GetSurveyById | src/db/sql/SurveyDB.ts:45-106 | zero or one aggregate, none exactly when no survey has the id, and never a null question list |
| SqlSurveyDB.SearchMatching | src/db/sql/SurveyDB.ts:161-169 | a row is selected exactly when it meets the secured, owner, title and date filters that are given |
| SqlSurveyDB.NewerFirstIsTotal | src/db/sql/SurveyDB.ts:168 | `ORDER BY created DESC` is a total preorder |
| SqlSurveyDB.SearchPageSound | src/db/sql/SurveyDB.ts:108-184 | a page has at most `pageSize` rows, all of them matching, newest first |
| SqlSurveyDB.SearchPagesComplete | src/db/sql/SurveyDB.ts:168-169 | every matching row is on some page |
| SqlSurveyDB.SearchOrderDetermined | src/db/sql/SurveyDB.ts:168 | when no two matching surveys share `created`, every newest-first arrangement is the model's, so its pages are the ones the database returns |
| Seqs.SortedUnique | src/db/sql/SurveyDB.ts:168 | two ordered permutations of a table are equal when the order ties no two different rows |
| SqlSurveyDB.SearchIgnoresDescription | src/db/sql/SurveyDB.ts:117-120 | the description filter changes neither the search nor the count |
| SqlSurveyDB.EndFilterComparesWithStart | src/db/sql/SurveyDB.ts:166 | with an end filter, nothing passes without a start filter, and otherwise only rows ending before the start filter's value |
| SqlSurveyDB.SearchSurveys | src/db/sql/SurveyDB.ts:108-184 | one filled aggregate per row of the page, in page order, each matching the search |
| SqlSurveyDB.CountAgreesWithSearch | src/db/sql/SurveyDB.ts:186-208 | without `secured` the count is 0; with it, the count is the number of rows the search matches over all pages |
| SurveyDB.AppendFreshSurvey | src/db/SurveyDB.js:7 | adding a row with a generated id keeps survey and user ids unique |
| SurveyDB.CreateSurvey | src/db/SurveyDB.js:4-11 | exactly one row is added with the given fields and the normalised owner, and its new id finds it |
| SurveyDB.GetSurvey | src/db/SurveyDB.js:13-21 | the rows whose id is the normalised argument |
| SurveyDB.GetSurveyAtMostOne | src/db/SurveyDB.js:17 | at most one survey has an id, whether or not the id is normalised |
| SurveyDB.PublicRows | src/db/SurveyDB.js:27-32 | a row is selected exactly when it is not secured and meets the title and date filters |
| SurveyDB.SecuredRows | src/db/SurveyDB.js:60-67 | a row is selected exactly when it is secured, its owner is the normalised user, that user exists, and it meets the filters |
| SurveyDB.IdDescendingIsTotal | src/db/SurveyDB.js:33 | `ORDER BY id DESC` is a total preorder |
| SurveyDB.PageOfIds | src/db/SurveyDB.js:33-34 | a page of ids has the OFFSET/LIMIT length, holds ids of selected rows, and descends |
| SurveyDB.PublicSearchSound | src/db/SurveyDB.js:23-37 | the public search returns at most `pageSize` ids, in descending order, each of an unsecured matching survey |
| SurveyDB.SecuredSurveysInvisible | src/db/SurveyDB.js:29 | removing every secured survey changes neither the public search nor the public count |
| SurveyDB.SecuredSearchSound | src/db/SurveyDB.js:55-72 | the secured search returns only the caller's secured matching surveys, and other users' surveys affect neither search nor count |
| SurveyDB.TitleIsExactMatch | src/db/SurveyDB.js:30 | a title filter selects only surveys with that title, and every such survey that passes the date filters |
| SurveyDB.CountMatchesSearch | src/db/SurveyDB.js:39-52 | each search page has the length that OFFSET/LIMIT cuts from the count |
| SurveyDB.PublicPagesComplete | src/db/SurveyDB.js:23-37 | every matching public survey's id is on some page |
| SurveyDB.EndFilterAloneSelectsNothing | src/db/SurveyDB.js:32 | an end filter without a start filter counts nothing, public or secured |
| SurveyService.Assemble | src/service/SurveyService.js:31-42 | the assembled document has both question lists, and every constrained question has its options |
| SurveyService.AssembledDocContents | src/service/SurveyService.js:28-45 | the document holds the survey and every question of it, each constrained one with its options, with counts equal to the stored ones, and nothing that is not a question of the survey |
| SurveyService.GenerationsAgree | src/db/sql/SurveyDB.ts:94-104 | the newer filled aggregate, with null option lists read as empty, is the older service's document |
| SurveyService.GetSurvey | src/service/SurveyService.js:21-47 | fails exactly when the id does not name one survey; otherwise the assembled document of that survey |
| SurveyService.UserCheckTakesPrecedence | src/service/SurveyService.js:55-63 | with a user, the token is ignored and only the owner may read |
| SurveyService.RetrievePrivateSurvey | src/service/SurveyService.js:49-86 | no response for a missing survey; otherwise 403 exactly when the user is not the owner or, with no user, the token is for another survey; otherwise 200 with the document |
| SurveyService.RetrievePublicSurvey | src/service/SurveyService.js:88-119 | no response for a missing survey; 403 when secured; 200 with the document otherwise |
| SurveyService.CreatedRow | src/service/SurveyService.js:122-129 | the survey row has the request's fields, the caller as owner, a fresh id, and the start date defaulting to now |
| SurveyService.QuestionIndexIncreasing | src/service/SurveyService.js:139-149 | each constrained question's insert comes after the previous question's options, and within the creation's statements |
| SurveyService.OptionGroups | src/service/SurveyService.js:144-148 | the options inserted so far under a question are exactly that question's options, once it is inserted |
| SurveyService.OptionsNotYet | src/service/SurveyService.js:144-148 | before a question is inserted, no option inserted so far belongs to it |
| SurveyService.CreatedEchoesRequest | src/service/SurveyService.js:128-152 | the created survey's document echoes every freestyle question, every constrained question and every option of the request |
| SurveyService.CreatedKeepsOldRows | src/service/SurveyService.js:128-150 | creation only appends rows, keeps ids unique, and its new id finds exactly the new survey |
| SurveyService.CreatedIsFound | src/service/SurveyService.js:152 | after creation, the new id names exactly the created survey |
| SurveyService.InsertConstrained | src/service/SurveyService.js:138-149 | the constrained loop inserts every question and its options, unless a statement of it throws |
| SurveyService.CreateSurvey | src/service/SurveyService.js:121-158 | 201 exactly when no insert throws, with all rows created and the created document; otherwise 500 with the tables exactly as before |
| Rows.Truthy | src/service/SurveyService.js:161 | `value ? value : null` on a string: absent or empty becomes null, anything else stays |
| SurveyService.SearchDefaults | src/service/SurveyService.js:161-166 | page number defaults to 0 and page size to 5; empty title or description count as absent; dates are passed on |
| SurveyService.AssembleAll | src/service/SurveyService.js:169-173 | no response when some id does not resolve; otherwise 200 with one document per id, in the store's order |
| SurveyService.SearchedIdsResolve | src/service/SurveyService.js:194-199 | every id an older-store search returns names exactly one survey that meets that search |
| TokenService.TokenCount | src/service/TokenService.js:25 | the loop runs `amount` times, and not at all for a non-positive amount |
| TokenService.MintedTokens | src/service/TokenService.js:24-27 | one token per iteration, each for the given survey |
| TokenService.MintedTokensFresh | src/service/TokenService.js:26 | the new tokens have pairwise distinct ids that no existing row uses |
| TokenService.CreateToken | src/service/TokenService.js:16-45 | 403 with the tables unchanged for a non-owner; 500 with the tables unchanged when a token insert throws; otherwise all tokens committed and 201 with them in creation order |
| TokenService.MintingKeepsSurveys | src/service/TokenService.js:22-28 | minting changes no survey, and every new token belongs to the given survey |
| UserService.AtMostOneAccount | src/service/UserService.ts:169 | with distinct accounts, a name or an email selects at most one user |
| UserService.RegisteredWellFormed | src/service/UserService.ts:100 | a registration keeps user ids unique |
| UserService.RegisteredKeepsAccountsDistinct | src/service/UserService.ts:88-100 | registering a free name and a free email keeps usernames and emails distinct |
| UserService.RegisterUser | src/service/UserService.ts:78-112 | 409 for a taken name, then 409 for a taken email, 500 for a failed insert, each with the tables unchanged; otherwise one user appended, committed, 201 |
| UserService.LoginUser | src/service/UserService.ts:114-142 | 404 unless exactly one user has the name; 200 only with a checking password, carrying that user's id |
| UserService.LoginSucceedsIffPasswordMatches | src/service/UserService.ts:119-135 | with distinct accounts, login succeeds exactly when some user has the name and the password checks |
| UserService.LoginAfterRegister | src/service/UserService.ts:100-133 | a freshly registered user logs in with their password and gets the new id |
| UserService.UserInfo | src/service/UserService.ts:55-76 | 200 exactly when one user has the id, with that user's name and email and the caller's id; 404 otherwise |
| UserService.UserInfoFindsEveryUser | src/service/UserService.ts:59-69 | every stored user reads their own profile |
| UserService.ChangedTouchesOnlyCaller | src/service/UserService.ts:201 | the update keeps every id and every row but the caller's |
| UserService.ChangeKeepsAccountsDistinct | src/service/UserService.ts:157-183 | values that pass the 409 checks keep usernames and emails distinct after the update |
| UserService.ChangeUserInformation | src/service/UserService.ts:144-213 | 409 email, 409 username, 404, 403, 500 in that order, each rolled back; 204 exactly otherwise, with the caller's row updated and committed |
| UserService.WithoutUserRemovesOnlyThatUser | src/service/UserService.ts:33 | deletion removes the user with the id and keeps every other user, survey and token |
| UserService.DeleteUser | src/service/UserService.ts:16-41 | 404 leaving the transaction open, 403 and 500 rolled back, 200 with the user deleted but not committed |
| UserService.DeletionLostOnRollback | src/service/UserService.ts:33-35 | after a successful deleteUser, the next rollback brings the user back |
| UserService.DeleteUserCommitted | src/service/UserService.ts:16-41 | the same ladder with the transaction closed on every path and the deletion committed |
| UserService.DeletionSurvivesRollback | src/service/UserService.ts:33-35 | with the commit in place, a later rollback keeps the user deleted |

## Left out

- HTTP plumbing is not modelled: Express requests and responses, `Context`, `httpContext` and logging. Responses are a status with an optional payload.
- The Postgres driver, the SQL text and the JSON building are not modelled. Tables and predicates are modelled directly, and begin, commit and rollback are snapshot and restore.
- The user, token, question and option store files (UserDB, TokenDB, the question DB files, `ForgotPasswordTokenDB`) are not part of this model. The model assumes that:
  - each lookup is an equality selection on the named column and the hyphen-stripped id;
  - each insert adds one row with a generated id;
  - the user update overwrites username, email and hash of the row with the id;
  - the user delete removes that row and nothing else.
- The survey delete's cascade to questions, options and tokens is assumed from the schema's foreign keys. `SqlSurveyDB.Cascade` states the assumption.
- Concurrency and isolation are not modelled: `Promise.all`, `REPEATABLE READ` and interleaved requests. Every handler runs alone.
- Password hashing and checking and JWT signing are opaque function parameters. The token's `last_changed_password` and `user_created_at` claims are left out, as are the profile's timestamps.
- Mail sending is left out: `sendResetEmail` and `resetForgottenPassword`. So are `userLogout` and the submission and token-redemption paths. Their logic is in files that are not part of this model.
- Uuid rendering is not modelled. Stored ids are keys without `-`, and an id from a request is compared with them after normalisation.
- Lower-level string and date behaviour is not modelled:
  - `%` and `_` inside user-supplied titles;
  - collation and case rules;
  - `CAST(... as Date)`;
  - the wall clock, which is passed in as `now`.
- The order of nested questions and options is left open. The aggregate's `json_agg` has no `ORDER BY`. The model's table order is a stand-in and claims no position ordering.
- The `created` column is not in the newer aggregate's JSON. The model's document carries the whole survey row.
- A driver failure on a read path is not modelled. Failures are modelled only at the inserts and writes of the handlers that catch them: `failAt`, `insertFails`, `updateFails` and `deleteFails`.
- Values that `Number(amount)` makes fractional or NaN are not modelled. `amount` is an integer.
- The newer store's `createSurvey` (src/db/sql/SurveyDB.ts:31-36) is the same insert as the older one. It is modelled once, by `SurveyDB.CreateSurvey`.
- The search and count handlers pass one argument more than the older store declares. So they are not composed with it: `SurveyService.SearchDefaults` and `SurveyService.AssembleAll` model the handler's two halves, and the store functions are modelled on their declared parameters.
- SurveyService.CreateSurvey, TokenService.CreateToken, UserService.RegisterUser, UserService.ChangeUserInformation, UserService.DeleteUser: these are stated for a connection with no open transaction. After a `deleteUser` that left one open (see Findings), the source's `begin` only warns, and later rollbacks return to the older snapshot.
- SqlSurveyDB.SearchPagesComplete: `ORDER BY s.created DESC` leaves surveys with equal `created` in an order the database picks, possibly differently for each page. The model breaks ties by table order, so completeness across pages is a property of the model; for the database it holds when the matching surveys have distinct `created` (SqlSurveyDB.SearchOrderDetermined).
- SqlSurveyDB.SearchRows, SqlSurveyDB.SearchSurveys: the exact page contents follow the same table-order tie-break.
- TokenService.CreateToken: src/service/TokenService.js:3 imports the older store, which defines no `getSurveyByIdAndUserId`, so the handler as written fails at line 22 and answers 500 to every request. The model looks the survey up with the newer store's query (src/db/sql/SurveyDB.ts:38-43), the behaviour the end-to-end tests expect.
- SqlSurveyDB.UpdateSurvey, SqlSurveyDB.DeleteSurvey: they answer the affected-row count rather than the driver's result object.
- UserService.LoginUser: the jwt is represented by the claims it signs, with no signature.

## Findings

| source | as written | input that shows it | evidently intended | confidence | as-written member | corrected member |
|---|---|---|---|---|---|---|
| src/service/UserService.ts:22-35 | `deleteUser` begins a transaction, deletes the user and answers 200 without committing; the 404 path also returns without rollback | an existing user deletes the account with the right password, then any later request on the shared connection rolls back | commit after the delete, roll back before the 404 | medium, not executed | UserService.DeletionLostOnRollback | UserService.DeletionSurvivesRollback |
