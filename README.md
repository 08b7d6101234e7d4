# PlotTalkAI backend: the user document and its rules, in Dafny

This project models the core of the PlotTalkAI backend. Each user owns one document: a list of games, each game a list of scenes, each scene a list of scripts. Each script carries a `result` computed by the grading side. The model covers the rules that read and rewrite that document, and the guards around them:

- **Recording one result** (`Users.update_user_result`).
  - Games, then scenes, then scripts are searched by id.
  - Ids are compared through Python's `str`, so the integer 7 and the string "7" match.
  - At each level the search commits to the first match.
  - Each level that has no match fails with its own 400 error, checked game first, then scene, then script.
  - A missing or empty stored document is a 404, raised before any search.
  - The search is modelled twice. `ResultUpdate.ApplyResult` is a function. `FindAndPatch`, `PatchInGame` and `PatchInScene` are the source's three nested loops, with their flags and `break`s, proved equal to it.
- **The `users_data` table** (`Users`).
  - A class holds the table as a map from id to row, with a soft-delete flag.
  - Each service method changes that map the way its SQL statement changes the table.
  - Whether the database accepts a write is a parameter, `storeOk`.
- **The whole-document replace** (`PUT /users/me/upd/data`).
  - Before writing the client's proposal, the handler copies each stored `result` into the proposal at the same game, scene and script indices.
  - A lookup that raises is ignored.
  - `DbEndpoint.CarryOver` is that triple loop writing in place. It is proved equal to the positional function `CarryResults`, whose meaning is proved in `CarryResultsMeaning`.
  - The other `/users/me` handlers are 404/400 guard chains over the service.
- **The auth routes.**
  - Mapping the registration error to a status.
  - Reading the bearer token as element 1 of `header.split(" ")`. `Split` and `Join` are proved inverse to each other.
  - Token decoding is a function parameter.
- **`custom_openapi`.**
  - The cached schema is returned unchanged.
  - Otherwise the bearer scheme is installed, and `security` is added to the get/post/put/delete operations of paths under three prefixes.
  - The result is cached.

Modules: `Wrappers` (Option), `Http` (errors and responses), `Document`, `ResultUpdate`, `UsersDb`, `DbEndpoint`, `AuthEndpoint`, `OpenApi`.

Results are carried over by position (src/db/api/db_endpoint.py:38-46), not by game, scene or script id: a stored result lands on whatever script the proposal has at the same indices.

## Model

| member | source | states |
|---|---|---|
| Document.IntIdMatching | db/users_db.py:163-173 | ids compared through `str`: two integer ids match exactly when they are equal; an integer id matches a string id exactly when the string is its decimal text |
| Document.MatchingExamples | db/users_db.py:163-173 | 7 matches "7", -12 matches "-12", a missing id matches "None", 7 does not match "07" |
| Document.SetResultOnlyTouchesTarget | db/users_db.py:174 | writing a result at one position sets that result and leaves every other result and every non-result field unchanged |
| Document.SetResultKeepsWellFormed | db/users_db.py:174 | writing a result neither creates nor removes a key that is also held in a field of its own, so the written document is well-formed exactly when the read one was |
| ResultUpdate.IndexOf | db/users_db.py:161-163 | the scan returns no position exactly when no id matches, and otherwise the first matching position |
| ResultUpdate.Locate | db/users_db.py:160-186 | the three nested scans end at the first level without a match, or at a script reached by first matches at every level |
| ResultUpdate.ApplyResult | db/users_db.py:177-190 | every failure of the search is a 400 |
| ResultUpdate.ApplyResultLevels | db/users_db.py:160-190 | the only outcomes are success or one of the three errors; game error iff no game id matches; scene error iff the first matching game has no matching scene; script error iff the first matching scene of it has no matching script; otherwise the result is set at the first-match position |
| ResultUpdate.GameLevel | db/users_db.py:187-190 | the game error is raised exactly when no game id matches |
| ResultUpdate.SceneLevel | db/users_db.py:182-185 | given the first matching game, the scene error is raised exactly when none of its scenes matches |
| ResultUpdate.ScriptLevel | db/users_db.py:177-180 | given the first matching game and scene, the script error is raised exactly when none of its scripts matches |
| ResultUpdate.RecordResult | db/users_db.py:154-157 | a missing or empty stored document gives 404 "User data not found", exactly then, before any search; otherwise the search decides |
| ResultUpdate.ApplyResultChangesOnlyTarget | db/users_db.py:161-176 | when all three ids are found, the update succeeds, the target script's result becomes the new value and nothing else in the document changes |
| ResultUpdate.FirstMatchCommits | db/users_db.py:181-186 | with two games sharing an id, where only the second holds the scene, the call still fails with the scene error |
| ResultUpdate.SeededResultIsRecorded | db/users_db.py:171-176 | writing {"score": 10} at g1/s1/sc1 of a seeded document stores exactly that result there |
| ResultUpdate.FindAndPatch | db/users_db.py:160-190 | the game loop with its `found_game` flag and `break` returns what `ApplyResult` returns |
| ResultUpdate.PatchInGame | db/users_db.py:164-186 | the scene loop inside the first matching game returns what `ApplyResult` returns |
| ResultUpdate.PatchInScene | db/users_db.py:169-181 | the script loop inside the first matching scene writes the result or raises the script error, as `ApplyResult` does |
| UsersDb.DeleteHidesRowKeepsData | db/users_db.py:193-201 | soft deletion hides the row from lookups by id, keeps its document readable and the set of rows, and changes no other user's lookup |
| UsersDb.ReactivateRestores | db/users_db.py:208-239 | reactivating a deleted user's mail makes the row active again, with the new name, surname, hash and document; rows with other mails are untouched |
| UsersDb.WritesToMissingIdChangeNothing | db/users_db.py:100-151 | an update by an id that has no row writes nothing |
| UsersDb.WritesTouchOneField | db/users_db.py:100-151 | each update by id changes only its own columns of its own row |
| UsersDb.NewUserCannotRecordResults | db/users_db.py:17-30 | the default document is non-empty but has no games, so recording any result for a new user fails with the game error |
| UsersDb.DeletedUserResultsStillRecorded | db/users_db.py:87-94 | recording a result for a soft-deleted user behaves as it did before the delete, because `get_user_data` does not filter deleted rows |
| UsersDb.Users.constructor | db/users_db.py:10-11 | a service over an empty table |
| UsersDb.Users.CreateUser | db/users_db.py:13-55 | returns an id exactly when all four required fields are non-empty and the insert succeeds; the id was unused; the new row holds the given fields and the given document, or the default one; otherwise nothing is written |
| UsersDb.Users.GetUserByMail | db/users_db.py:57-70 | returns only an active row with that mail; None when no row has the mail or all such rows are deleted; a row when some row has it and none is deleted |
| UsersDb.Users.GetUserById | db/users_db.py:72-85 | returns the row exactly when it exists and is not soft-deleted |
| UsersDb.Users.GetUserData | db/users_db.py:87-98 | returns the document of any row with that id, deleted or not |
| UsersDb.Users.UpdateUserData | db/users_db.py:100-116 | on success replaces the row's document and returns true; on failure writes nothing and returns false |
| UsersDb.Users.UpdateUserName | db/users_db.py:118-134 | on success replaces name and surname; on failure writes nothing and returns false |
| UsersDb.Users.UpdateUserPassword | db/users_db.py:136-151 | on success replaces the password hash; on failure writes nothing and returns false |
| UsersDb.Users.UpdateUserResult | db/users_db.py:153-191 | any 404 or 400 is raised with nothing written; otherwise the patched document is written and the answer is the write's outcome |
| UsersDb.Users.DeleteUser | db/users_db.py:193-206 | on success sets only the deleted flag and returns true; on failure returns None and writes nothing |
| UsersDb.Users.ReactivateUser | db/users_db.py:208-245 | returns the id of a row with that mail exactly when one exists and the write succeeds; then every row with the mail is overwritten and undeleted; otherwise nothing is written |
| DbEndpoint.CarryResultsMeaning | src/db/api/db_endpoint.py:38-46 | the written document equals the proposal apart from results; each result is the stored one at the same indices if that lookup succeeds, else the proposal's |
| DbEndpoint.CarryKeepsWellFormed | src/db/api/db_endpoint.py:38-46 | the written document is well-formed exactly when the client's proposal is, whatever the stored document holds |
| DbEndpoint.CarryOver | src/db/api/db_endpoint.py:38-46 | the in-place triple loop produces exactly `CarryResults(stored, proposed)` |
| DbEndpoint.RecordedScoreSurvivesReplace | src/db/api/db_endpoint.py:38-48 | a stored {"score": 5} survives a replace, whatever result the client sends for that script |
| DbEndpoint.CarryIsPositional | src/db/api/db_endpoint.py:43-46 | results are carried by position even when the ids differ; a position the stored document lacks keeps the proposal's result |
| DbEndpoint.GetMe | src/db/api/db_endpoint.py:12-18 | the active row, or 404 "User not found" exactly when there is none |
| DbEndpoint.GetMyData | src/db/api/db_endpoint.py:20-29 | 404 "User not found" for a missing or deleted user, 404 "User data not found" for an empty document, otherwise the document |
| DbEndpoint.UpdateMyData | src/db/api/db_endpoint.py:31-51 | 404 with nothing written when the stored document is missing or empty; otherwise writes the proposal with the stored results carried over; answers success or 400 "Failed to update data" by the write's outcome |
| DbEndpoint.UpdateMyName | src/db/api/db_endpoint.py:53-62 | 404 before any write for a missing or deleted user; otherwise success or 400 "Failed to update name" |
| DbEndpoint.UpdateMyPassword | src/db/api/db_endpoint.py:64-73 | 404 before any write for a missing or deleted user; otherwise success or 400 "Failed to update password" |
| DbEndpoint.DeleteMe | src/db/api/db_endpoint.py:75-84 | 404 before any write for a missing or deleted user; a service answer of None is 400 "Failed to delete user" |
| AuthEndpoint.Register | src/auth/api/auth_endpoint.py:12-21 | "User already exists" iff 400, "Failed to create user" iff 500, any other non-empty error iff 422; success exactly when there is no error or it is empty, with the service's id and the request's mail, name and surname |
| AuthEndpoint.RegisterIgnoresPassword | src/auth/api/auth_endpoint.py:21 | the password never affects the response |
| AuthEndpoint.Split | src/auth/api/auth_endpoint.py:33 | `split(" ")` gives at least one field and no field contains the separator |
| AuthEndpoint.JoinSplit | src/auth/api/auth_endpoint.py:33 | joining the fields of a split gives back the string |
| AuthEndpoint.SplitJoin | src/auth/api/auth_endpoint.py:33 | splitting a join of separator-free fields gives back the fields |
| AuthEndpoint.BearerToken | src/auth/api/auth_endpoint.py:33 | the token taken from a bearer header contains no space |
| AuthEndpoint.BearerSplit | src/auth/api/auth_endpoint.py:31-33 | after "Bearer " the split has a second field, which is the text up to the next space or the end |
| AuthEndpoint.BearerExamples | src/auth/api/auth_endpoint.py:33 | "Bearer abc def" gives "abc"; "Bearer " gives "" |
| AuthEndpoint.Protected | src/auth/api/auth_endpoint.py:29-38 | 401 "Missing token" iff the header is absent or does not start with "Bearer "; 401 "Invalid token" iff decoding its token fails; otherwise "Hello, " and the payload's mail |
| OpenApi.ProtectedPathCases | src/app.py:56 | a path is protected exactly when it starts with "/api/generate", "/api/users" or "/api/get" |
| OpenApi.SecuredMeaning | src/app.py:36-52 | processing fails exactly when the generated schema has no "components"; otherwise `securitySchemes` is replaced by the single `bearerAuth` entry (http, bearer, JWT), the other components and the fields outside the paths are kept, and the paths are secured |
| OpenApi.SecurePathsMeaning | src/app.py:55-59 | no path or method is added or removed; exactly the get/post/put/delete operations of protected paths gain the bearer requirement; all else is as generated |
| OpenApi.SecurePathsIdempotent | src/app.py:55-59 | securing the paths twice is securing them once |
| OpenApi.SecurePathsFixpoint | src/app.py:55-59 | securing changes nothing exactly when every verb operation of every protected path already has the requirement |
| OpenApi.PrefixExamples | src/app.py:56 | the prefix test has no segment boundary: "/api/getter" is protected, "/api/register" and "/api/healthz" are not |
| OpenApi.SecureMethodsOf | src/app.py:57-59 | the inner loop over one path's methods gives `SecureOperations` of it |
| OpenApi.SecureAllPaths | src/app.py:55-59 | the outer loop over the paths gives `SecurePaths` of them |
| OpenApi.App.constructor | src/app.py:30 | the cache starts empty |
| OpenApi.App.CustomOpenapi | src/app.py:32-62 | a cached schema is returned unchanged, without regenerating; otherwise the processed schema is returned and cached; a generated schema without "components" raises and caches nothing |

## Left out

- Connection pool (db/database.py) and the `put_connection` calls on the error paths of `update_user_result`: pool plumbing and concurrency over a third-party library (psycopg2's pool).
- Retry decorator and its RetryError to 503 translation (lib/db/utils.py:21-41): a third-party library (tenacity). Every handler is modelled as one attempt of its undecorated body, so the 404 and 400 answers the `DbEndpoint` contracts state are those of the body, not necessarily what a client receives. With tenacity's defaults every exception is retried, the handlers' own `HTTPException`s included, so after the last attempt such an answer would reach the client as the decorator's 503; and the attempt count and wait are passed as raw environment strings (lib/db/utils.py:22-27), which tenacity does not convert. Neither effect is modelled.
- Password hashing, JWT encoding and decoding, token expiry (lib/auth/utils.py): cryptography and clocks. `Protected` takes the decoder as a function parameter.
- The `login` route (src/auth/api/auth_endpoint.py:24-27): it only returns what `Auth.login` returns, and `Auth` is not part of this model.
- SQL text, cursors, commit and rollback, logging and `print`: the table is a map, and a failed write is `storeOk == false` with nothing written.
- Read failures: the source's getters also return None when the query raises. In the model, `GetUserById` and `GetUserByMail` return nothing only when no active row matches, and `GetUserData` only when no row has the id, deleted or not.
- JSON text: `json.dumps`/`json.loads`, a stored document held as a JSON string (db/users_db.py:158-159), and a `data` argument passed as a string to `create_user` or `reactivate_user`. Documents are held decoded.
- Floating-point JSON numbers; ids that are not integers, strings or missing (their `str` rendering is not modelled).
- A `games`, `scenes` or `scripts` key holding JSON null has no value in the model, which holds a list or no key. Where the source meets one with `len(...)` it raises: in `update_user_result` (db/users_db.py:161, 165, 170) and in the proposal's lists of the replace handler (src/db/api/db_endpoint.py:38-42). A null list in the stored document makes the replace handler's lookup raise inside its `try` (src/db/api/db_endpoint.py:43-46); that is swallowed and the result is not carried over, which is what the model does for a missing list.
- Path-item entries that are not objects: a `PathItem` maps every method key to an object. In the source such an entry under a get/post/put/delete key raises when `security` is set on it, and one under any other key is never indexed (src/app.py:57-58) and passes through unchanged.
- The cache test `if app.openapi_schema` also treats an empty dict as absent; the model's cache is an Option, and a generated schema is never empty.
- CORS, router mounting and startup/shutdown hooks (src/app.py:64-88).
- Concurrent read-modify-write of one user's document: the source has no locking, so two writers can lose an update; the model is sequential.
- AuthEndpoint.Protected: the payload's `mail` claim is a string or missing; other JSON values in that claim are not rendered.
- AuthEndpoint.Register: the service's id is taken as an integer even when the error is the empty string, where the source would pass on whatever the service returned.
- UsersDb.Users.GetUserByMail: which of several rows with one mail the query returns first is left open; the contract states only what holds for every choice.
- DbEndpoint.UpdateMyData: takes the request's `data` payload directly. The handler declares `new_data: dict` yet reads `new_data.data` (src/db/api/db_endpoint.py:33, 38, 48), an attribute a dict does not have, so as written it would fail before the carry-over; the model follows the evident intent.
