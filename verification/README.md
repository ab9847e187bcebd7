# taskify — a Dafny model of the service core

taskify is a task-management REST backend. An administrator manages users,
roles and permissions. Every signed-in user owns their tasks and labels
them with shared tags. This project models the part of it that decides who
may do what and what each request leaves in the database:

- **Login and tokens** (`Security`, `AuthSchema`, `AuthService`): the login
  body validator, the credential check, the JWT claims and expiry, and
  token verification.
- **Request dependencies** (`Deps`): from a bearer token to the current
  user, and the administrator gate.
- **Roles and permissions** (`RoleService`, `PermissionService`,
  `RoleRoutes`): lookups, creation, replace-style assignment of permissions
  by name with the route's check for missing names, and the users of a role.
- **User lifecycle** (`UserService`, `UserRoutes`):
  - the order of the create checks (email, then username, then role);
  - partial update;
  - soft deactivation and reactivation, with the guard against
    deactivating oneself;
  - paged listing and the page count.
- **Owner-scoped tasks and tags** (`TaskService`, `TagService`):
  - tasks are visible only to their owner;
  - the paged, filtered task listing;
  - partial update with tags chosen by name;
  - deletion;
  - tag creation and listing, and the tasks of one owner under a tag.
- **The idempotent seed** (`Seed`): the permission catalogue, the `admin`
  and `user` roles, and the administrator account.

The database is the class `Db.Store`. It holds one sequence per table, in
insertion order. `Snapshot()` gives the tables as a `Tables` value, and
`Valid()` states the primary-key, unique-column and foreign-key constraints
(`Db.Consistent`).

Services that write to the database are methods with `modifies db`. Each
one states its whole new snapshot and keeps `Valid()`. A write the database
would refuse at commit (an `IntegrityError`) is an `Err(DbError)` path that
leaves the store unchanged. Read-only services are functions over `Tables`.
An exception that escapes a route becomes `Http.ServerError`, and
`Http.HttpError.Code` maps it to the 500 of the general exception handler
(`src/main.py:29-34`).

Some inputs of the running system are parameters of the model:

- the uuid4 a new row receives;
- the Argon2 hash and verify functions;
- the clock readings taken at token creation;
- "now" at verification.
- the `EmailStr` address check, which gives the normalised address or refuses it.

As written, the role routes module imports a request class from the wrong
schema module, so the application fails to load (see Findings,
`src/api/routes/role.py:14`). Every route model here, the role routes
included, assumes that import resolves.

`calculate_total_pages` exists in both `user_service.py` and
`task_service.py` with the same body. Both are modelled by
`UserService.CalculateTotalPages`. `AuthService.get_user_by_id` is the same
query as `UserService.get_user_by_id` and is modelled by
`UserService.GetUserById`.

## Model

| member | source | states |
|---|---|---|
| AuthSchema.ValidateIdentifier | src/schemas/auth.py:12-17 | The body is refused, with the validator's message, exactly when neither email nor username is truthy. Otherwise it is accepted unchanged. |
| AuthSchema.ParseLoginRequest | src/schemas/auth.py:6-17 | Field validation comes first: a present email the address check refuses and a missing password are 422 field errors, reported together and naming exactly those fields. Otherwise the body is built with the email normalised, and the answer is the identifier validator's verdict on it. |
| AuthSchema.AcceptedShapes | src/schemas/auth.py:8-17 | Email only, username only, and both are accepted, with a well-formed email replaced by its normalised form. |
| AuthSchema.MalformedEmailRefused | src/schemas/auth.py:8 | A malformed email is a 422 naming the email field, whatever the username, and the validator never runs. |
| AuthSchema.EmptyIdentifiersRejected | src/schemas/auth.py:8-16 | An empty email is refused as a malformed address. With no email, an empty or null username is refused by the validator's message. |
| Uuids.Format | src/core/security.py:36 | `str(uuid)` is 36 characters long. |
| Uuids.Parse | src/api/deps.py:47 | Text accepted by `UUID(...)` has 32 characters once its dashes are removed. |
| Uuids.ParseFormat | src/api/deps.py:47 | Parsing the text of a uuid gives back that uuid (`UUID(str(u)) == u`). |
| Uuids.FormatInjective | src/core/security.py:36 | Distinct uuids have distinct texts, so a token subject names one user. |
| Db.ParseStatus | src/models/task.py:12-15 | `TaskStatus(text)` is the member whose value is the text, and fails when no member has it. |
| Db.ParsePriority | src/models/task.py:18-21 | `TaskPriority(text)` is the member whose value is the text, and fails when no member has it. |
| Security.CheckClaims | src/core/security.py:52-56 | The claim checks of decoding that apply to the claims this system issues: `iat` and `exp` must be instants, `exp` must not have passed, and `sub` must be text. Within the model the claims pass exactly when all of these hold. |
| Security.Decode | src/core/security.py:52-56 | Decoding succeeds only for a token signed with the configured key by an allowed algorithm, and then gives back its claims. |
| Security.DecodeEncode | src/core/security.py:41-56 | Round trip: encoding well-formed, unexpired claims and then decoding them with the same key and algorithm gives back the claims. |
| Security.CreateAccessToken | src/core/security.py:28-46 | The token is signed with the configured key and algorithm and carries exactly `sub`, `exp` and `iat`. `sub` is the user id's text and `iat` is the second clock reading. `exp` is the first reading plus the given lifetime, or plus the configured minutes when none is given. |
| Security.VerifyAccessToken | src/core/security.py:49-62 | Gives the subject exactly when the token decodes and has a `sub`. Gives None for every decode failure and for a missing `sub`. |
| Security.VerifyCreatedToken | src/core/security.py:28-62 | A created token verifies to the user's id text up to its expiry. |
| Security.ExpiredTokenRejected | src/core/security.py:49-62 | After its expiry, a created token verifies to None. |
| Security.ForgedTokenRejected | src/core/security.py:52-56 | A token that does not parse, or that was signed with another key or algorithm, verifies to None. |
| UserService.GetUserById | src/services/user_service.py:20-22 | The user with that id when one exists, and None exactly when none does. |
| UserService.GetUserByEmail | src/services/user_service.py:24-26 | A user with that email, and None exactly when no user has it. |
| UserService.GetUserByUsername | src/services/user_service.py:28-30 | A user with that username, and None exactly when no user has it. |
| UserService.LookupsFindTheUser | src/services/user_service.py:20-30 | In a consistent database, each lookup by a stored user's key gives back that very user. |
| UserService.CheckRoleExists | src/services/user_service.py:32-34 | True exactly when a role with that id exists. |
| UserService.GetRoleByName | src/services/user_service.py:36-38 | A role with that name. A null name, or a name no role has, gives None. |
| UserService.InsertUserConflict | src/services/user_service.py:52-53 | The commit of a new user is refused exactly when its email or username is taken or its role id is not stored. |
| UserService.CreateUser | src/services/user_service.py:40-55 | Appends the active user holding the digest of the password, the role and the creator exactly when the commit is accepted. Otherwise the database is left unchanged. The constraints are kept. |
| UserService.NewUserAsWritten | src/services/user_service.py:42-50 | Building the row with the `password=` keyword fails with a TypeError on every input (see Findings). |
| UserService.PasswordKeywordFinding | src/services/user_service.py:42-50 | On input the database would accept, the as-written constructor fails, while the corrected row stores the digest in `password_hash` under a stored role. |
| UserService.GetUsersPaginated | src/services/user_service.py:57-79 | The page is the requested slice of the filtered users, newest first, and holds at most page_size of them. The total counts all filtered users, which is every user when no filter is given. |
| UserService.ActiveFilter | src/services/user_service.py:66-67 | Keeps exactly the users whose `is_active` equals the filter. With no filter it keeps every user. |
| UserService.ApplyNameItems | src/services/user_service.py:90-92 | Applying the `name` item of the body sets the name when it is sent non-null, and otherwise leaves it. |
| UserService.ApplyUsernameItems | src/services/user_service.py:90-92 | The same for `username`. |
| UserService.ApplyEmailItems | src/services/user_service.py:90-92 | The same for `email`. |
| UserService.ApplyIsActiveItems | src/services/user_service.py:90-92 | The same for `is_active`. |
| UserService.SetUserFieldsIsPatch | src/services/user_service.py:88-92 | The `setattr` loop over the sent fields equals the field-wise patch: a field sent non-null is replaced, and every other field is kept. |
| UserService.UpdateUserConflict | src/services/user_service.py:95 | The commit of an updated user is refused exactly when another user holds its email or username. |
| UserService.ReplaceUserKeepsConsistent | src/services/user_service.py:90-95 | Replacing a user in place, with the same id and role and without a key clash, keeps the database consistent. |
| UserService.ApplyUpdate | src/services/user_service.py:88-92 | The loop over the sent fields leaves the user equal to the field-wise patch. |
| UserService.UpdateUser | src/services/user_service.py:81-97 | An unknown id gives None and changes nothing. For a stored user, the commit is refused, with the clashing column, exactly when another user holds the patched email or username, and then nothing changes. Otherwise the user is replaced by its patch, with `updated_by` set to the actor. |
| UserService.WithActiveNoConflict | src/services/user_service.py:106-108 | Flipping `is_active` never clashes on a unique column. |
| UserService.SetActive | src/services/user_service.py:99-123 | An unknown id gives None and changes nothing. Otherwise only that user changes: its active flag is set and its updater recorded. |
| UserService.DeactivateUser | src/services/user_service.py:99-110 | An unknown id gives None and changes nothing. Otherwise that user becomes inactive with the actor as updater, and no other row changes. |
| UserService.ActivateUser | src/services/user_service.py:112-123 | An unknown id gives None and changes nothing. Otherwise that user becomes active with the actor as updater, and no other row changes. |
| UserService.DeactivateThenActivate | src/services/user_service.py:99-123 | Deactivating and then reactivating a user gives the same table as reactivating alone. On an active user, reactivation changes only `updated_by`. |
| UserService.CalculateTotalPages | src/services/user_service.py:125-128 | At least 1, and exactly 1 for no records. Otherwise it is the least page count whose pages hold all the records (the ceiling of total / page_size). |
| UserService.PageOfRecordCounted | src/services/user_service.py:125-128 | Every page that starts before the last record is within the page count. |
| UserService.EveryRecordOnAPage | src/services/user_service.py:71-77 | The record at offset (page - 1) * page_size + pos of a listing is shown at position pos of that page, and that page is within the page count. |
| UserService.PagesPastTheCountAreEmpty | src/services/user_service.py:71-77 | Every page past the page count is empty. |
| UserRoutes.CreateUserCheck | src/api/routes/user.py:43-63 | The checks run in order: a taken email gives 400, then a taken username gives 400, then an unknown or null role name gives 404 naming it. When all pass, the result is a stored role with the requested name, and the email and username are free. |
| UserRoutes.CheckedCreateIsAccepted | src/api/routes/user.py:43-65 | Passing the route's checks means the insert cannot be refused by a constraint. |
| UserRoutes.CreateUserRoute | src/api/routes/user.py:27-66 | A failed check is answered with its error and creates nothing. Otherwise the new user is appended with the found role and the administrator as creator. |
| UserRoutes.ListUsersRoute | src/api/routes/user.py:75-105 | Returns the requested page of the filtered users, newest first, with the total, the echoed page and page size, and a page count covering exactly the total. |
| UserRoutes.ListUsersDefaultsToActive | src/api/routes/user.py:80 | Without `is_active`, only active users are listed and counted. |
| UserRoutes.DeactivateUserRoute | src/api/routes/user.py:114-141 | Deactivating oneself gives 400 before any lookup, and an unknown id gives 404. Neither changes anything. Otherwise that user is deactivated with the administrator as updater. The administrator's own row never changes. |
| UserRoutes.ActivateUserRoute | src/api/routes/user.py:150-168 | An unknown id gives 404 and changes nothing. Otherwise that user is active, with the administrator as updater. |
| UserRoutes.CreateUserRouteAsWritten | src/api/routes/user.py:65 | As written: a failed check keeps its error, and a request that passes every check is answered 500 with a missing-`created_by` TypeError. |
| UserRoutes.DeactivateUserRouteAsWritten | src/api/routes/user.py:126-133 | As written: self-deactivation gives 400, and every other request gives 500 with a missing-`updated_by` TypeError. |
| UserRoutes.ActivateUserRouteAsWritten | src/api/routes/user.py:160 | As written: every request gives 500. |
| UserRoutes.MissingActorFinding | src/api/routes/user.py:65-160 | On inputs every check accepts, the as-written routes answer 500, while the corrected routes create, deactivate or activate (see Findings). |
| PermissionService.GetPermissionByName | src/services/permission_service.py:20-22 | A permission with that name, and None exactly when no permission has it. |
| PermissionService.GetPermissionByNameFinds | src/services/permission_service.py:20-22 | In a consistent database, looking up a stored permission's name gives back that permission. |
| PermissionService.CreatePermission | src/services/permission_service.py:24-30 | Appends the new permission exactly when its name is free. A taken name is a unique violation that changes nothing. |
| PermissionService.GetAllPermissions | src/services/permission_service.py:32-34 | Every permission, each once, sorted by name. |
| PermissionService.GetPermissionsByNames | src/services/permission_service.py:36-38 | Exactly the stored permissions whose name is in the list, each once. |
| PermissionService.PermissionsByNamesFound | src/services/permission_service.py:36-38 | The names found are the requested names that name a stored permission, and no name is found twice. |
| RoleService.GetRoleById | src/services/role_service.py:19-21 | The role with that id, and None exactly when none exists. |
| RoleService.GetRoleByName | src/services/role_service.py:23-25 | A role with that name, and None exactly when no role has it. |
| RoleService.RoleLookupsFindTheRole | src/services/role_service.py:19-25 | In a consistent database, both lookups by a stored role's key give back that role. |
| RoleService.CreateRole | src/services/role_service.py:27-33 | Appends the new role, with no permissions, exactly when its name is free. A taken name is a unique violation that changes nothing. |
| RoleService.GetAllRoles | src/services/role_service.py:35-37 | Every role, each once, sorted by name. |
| RoleService.AssignedRoles | src/services/role_service.py:49 | The role with that id gets exactly the given permission set, and every other role is kept. |
| RoleService.AssignmentReplaces | src/services/role_service.py:45-52 | After assignment, the role's permissions are exactly the new set, whatever it held before. Every other role is untouched and the database stays consistent. |
| RoleService.AssignKeepsConsistent | src/services/role_service.py:49-50 | Assigning stored permissions keeps the database consistent. |
| RoleService.AssignIdempotent | src/services/role_service.py:39-52 | Assigning the same permissions twice is the same as assigning them once. |
| RoleService.AssignPermissionsToRole | src/services/role_service.py:39-52 | An unknown role gives None and changes nothing. Otherwise the role's permissions are replaced by exactly the given ones, and no other row changes. |
| RoleService.UsersWithRole | src/services/role_service.py:60 | Exactly the users holding that role. |
| RoleService.GetUsersByRoleName | src/services/role_service.py:54-61 | An unknown name gives ([], 0). Otherwise exactly the users of that role, and how many there are. |
| RoleService.GetUsersByRole | src/services/role_service.py:63-86 | The requested page, newest first, of the role's users that pass the active filter, and the total of those users. |
| RoleRoutes.ImportNames | src/api/routes/role.py:9-15 | `from m import ...` loads exactly when the module defines every listed name, and otherwise raises ImportError at the first listed name it lacks. |
| RoleRoutes.RoleRoutesImportAsWritten | src/api/routes/role.py:9-15 | As written, importing the role schemas raises ImportError for `AssignPermissionsRequest` (see Findings). |
| RoleRoutes.RoleRoutesImportCorrected | src/api/routes/role.py:9-15 | Taking `AssignPermissionsRequest` from the permission schemas, where it is defined, and the other names from the role schemas loads the module. |
| RoleRoutes.CreateRoleRoute | src/api/routes/role.py:32-54 | A taken name gives 400 naming it and changes nothing. Otherwise the role is appended with no permissions. |
| RoleRoutes.ListRolesRoute | src/api/routes/role.py:63-76 | Every role, sorted by name, and their number. |
| RoleRoutes.PermissionsOf | src/api/routes/role.py:94-102 | The permissions shown with a role are exactly the stored permissions whose id the role holds. |
| RoleRoutes.GetRoleWithPermissions | src/api/routes/role.py:85-102 | An unknown id gives 404 "Rol no encontrado". Otherwise the role, with exactly the permissions it holds. |
| RoleRoutes.RolePermissionsShown | src/api/routes/role.py:85-102 | In a consistent database, the ids of the permissions shown are exactly the role's permission ids. |
| RoleRoutes.MissingNamesAreUnknown | src/api/routes/role.py:136-142 | The names reported missing are exactly the requested names that no stored permission has. |
| RoleRoutes.DuplicateNamesHarmless | src/api/routes/role.py:136-142 | Name lists with the same names, in any order and with any repetition, find the same permissions and miss the same names. |
| RoleRoutes.NothingMissingFindsAll | src/api/routes/role.py:141-150 | When nothing is missing, the permissions found carry exactly the requested names. |
| RoleRoutes.AssignPermissionsRoute | src/api/routes/role.py:111-151 | An unknown role gives 404 before any permission lookup. Unknown names give 400 listing exactly those names. Both change nothing. Otherwise the role's permissions become exactly those named, and it succeeds exactly then. |
| RoleRoutes.AssignedIdsAreNamed | src/api/routes/role.py:136-150 | A stored permission ends up assigned exactly when its name was requested. |
| RoleRoutes.UsersByRoleRoute | src/api/routes/role.py:160-202 | An unknown role name gives 404 naming it. Otherwise the response holds the requested page, newest first, of that role's users that pass the filter, with the total and the page count. |
| TaskService.TagsNamed | src/services/task_service.py:31 | The ids of exactly the stored tags whose name is in the list (`Tag.name.in_(names)`). |
| TaskService.CreateTagIdsAreNamed | src/services/task_service.py:30-32 | A new task's tags are the stored tags named in the body. With a null or empty list it has none, and every id it holds is a stored tag's. |
| TaskService.NoNamesNoTags | src/services/task_service.py:30 | An empty name list selects no tag. |
| TaskService.CreateTask | src/services/task_service.py:19-37 | For an existing owner, appends the task with the sent fields, the owner and the named tags. An unknown owner is a foreign-key violation that changes nothing. |
| TaskService.GetTaskById | src/services/task_service.py:39-44 | A task with that id owned by that user, and None exactly when there is none. |
| TaskService.TaskVisibleOnlyToOwner | src/services/task_service.py:39-44 | In a consistent database, a stored task is found by its owner and by no one else. |
| TaskService.StatusFilter | src/services/task_service.py:58-59 | A null or empty status filters nothing. A value that names no status is a ValueError that says so. Otherwise it is the status with that value. |
| TaskService.PriorityFilter | src/services/task_service.py:60-61 | The same for priority. |
| TaskService.ListedTasks | src/services/task_service.py:55-61 | Exactly the user's tasks that match the status and priority filters. |
| TaskService.GetTasksPaginated | src/services/task_service.py:46-75 | A bad status gives its ValueError. A good status with a bad priority gives the priority's ValueError. The call fails exactly in these two cases. Otherwise the result is the requested page, newest first, of the user's matching tasks, with their total. Every task on the page is the user's and matches the filters. |
| TaskService.UnfilteredTotalCountsOwnTasks | src/services/task_service.py:55-64 | Without filters, the listing pages over all of the user's tasks and counts them all. |
| TaskService.TaskPagesCoverListing | src/services/task_service.py:64-75 | Every matching task lies on a page within the page count. |
| TaskService.TaskPagesPastCountEmpty | src/services/task_service.py:64-75 | The page after the page count is empty and reports the same total. |
| TaskService.ApplyTitleItems | src/services/task_service.py:92-101 | Applying the sent `title` sets it when non-null, and otherwise keeps it. |
| TaskService.ApplyDescriptionItems | src/services/task_service.py:92-101 | The same for `description`: a sent null keeps the old description. |
| TaskService.ApplyStatusItems | src/services/task_service.py:96-97 | The same for `status`. |
| TaskService.ApplyPriorityItems | src/services/task_service.py:98-99 | The same for `priority`. |
| TaskService.ApplyTagNamesItems | src/services/task_service.py:93-95 | Sent non-null `tag_names` replace the tags with the stored tags of those names. Otherwise the tags are kept. |
| TaskService.SetTaskFieldsIsPatch | src/services/task_service.py:90-101 | The loop over the sent fields equals the field-wise patch. |
| TaskService.PatchedTaskFacts | src/services/task_service.py:89-101 | An update never changes the id or the owner, and keeps every field not sent or sent null. Sending an empty tag list clears the tags. Tags stay among the stored tags. |
| TaskService.UpdateIdempotent | src/services/task_service.py:77-105 | Applying the same update twice is the same as applying it once. |
| TaskService.ApplyTaskUpdate | src/services/task_service.py:90-101 | The loop leaves the task equal to the field-wise patch. |
| TaskService.ReplaceTaskKeepsConsistent | src/services/task_service.py:103 | Replacing a task in place, with the same id and owner and stored tags, keeps the database consistent. |
| TaskService.UpdateTask | src/services/task_service.py:77-105 | A task the user does not own, or that does not exist, gives None and changes nothing. Otherwise that task is replaced by its patch, and no other row changes. |
| TaskService.RemoveTaskKeepsConsistent | src/services/task_service.py:114-115 | Deleting a task keeps the database consistent. |
| TaskService.DeleteTask | src/services/task_service.py:107-116 | Gives True exactly when the user owns a task with that id, and then removes exactly that task. Gives False otherwise and changes nothing. |
| TagService.GetTagById | src/services/tag_service.py:17-19 | The tag with that id, and None exactly when none exists. |
| TagService.GetTagByName | src/services/tag_service.py:21-23 | A tag with that name, and None exactly when no tag has it. |
| TagService.TagLookupsFindTheTag | src/services/tag_service.py:17-23 | In a consistent database, both lookups by a stored tag's key give back that tag. |
| TagService.CreateTag | src/services/tag_service.py:25-31 | Appends the tag, with its creator's id as text, exactly when the name is free. A taken name is a unique violation that changes nothing. |
| TagService.CreatedTagFound | src/services/tag_service.py:21-31 | A created tag is found by its name afterwards. |
| TagService.GetAllTags | src/services/tag_service.py:33-36 | Every tag, each once, sorted by name, and their number. |
| TagService.TaggedTasks | src/services/tag_service.py:48 | Exactly the tasks that carry the tag and belong to the user. |
| TagService.GetTasksByTagName | src/services/tag_service.py:38-49 | An unknown name gives ([], 0). Otherwise exactly the user's tasks carrying that tag, and how many there are. |
| TagService.CreatedTaskListedUnderTag | src/services/tag_service.py:44-48 | A task created with a stored tag's name is listed under that tag for its owner and for no other user. |
| AuthService.IdentifiedUser | src/services/auth_service.py:23-28 | The user is selected by email when the email is truthy, else by username when that is truthy, else no one. |
| AuthService.AuthenticateUser | src/services/auth_service.py:16-39 | Gives the selected user exactly when it exists, is active and the password verifies against its stored digest. Every failure gives the same None. |
| AuthService.EmailTakesPrecedence | src/services/auth_service.py:23-26 | When an email is given, the username is never looked at. |
| AuthService.AuthenticatesExactlyTheHolder | src/services/auth_service.py:16-39 | In a consistent database, a user signing in with their own email, or with their username when no email is given, gets in exactly when active with the right password. |
| AuthService.InactiveNeverAuthenticates | src/services/auth_service.py:33-34 | An inactive account never gets in, whatever the password. |
| AuthService.AuthenticateUserAsWritten | src/services/auth_service.py:36 | As written: a request that reaches the password check raises an AttributeError, and no request succeeds (see Findings). |
| AuthService.PasswordAttributeFinding | src/services/auth_service.py:30-39 | An active user with the right password is refused with an error as written, and admitted by the corrected check. |
| AuthService.CreateTokenForUser | src/services/auth_service.py:41-43 | A signed token whose subject is the user's id and whose expiry is the default lifetime. |
| AuthService.TokenForUserVerifies | src/services/auth_service.py:41-43 | The login token names the user until its default lifetime runs out, and nothing after that. |
| Deps.GetCurrentUser | src/api/deps.py:31-63 | A token that does not verify gives 401 before any lookup. A subject that is not a uuid raises. An unknown user gives 401. An inactive user gives 401. Otherwise the result is the active user the subject names. |
| Deps.GetAdminUser | src/api/deps.py:66-75 | The current-user failures come first. Then a role named exactly "admin" admits the current user, and any other role gives 403. A success is the current user holding the admin role. |
| Deps.AdminGateNeverFaults | src/api/deps.py:70 | In a consistent database, `current_user.role.name` never fails, because the user's role row exists. |
| Deps.IssuedTokenAdmitsItsUser | src/api/deps.py:38-63 | Until it expires, the login token of a stored user admits that user when active, and gives 401 "Usuario inactivo" when not. After expiry it gives 401 "Token inválido o expirado". |
| Deps.AdminGateOnIssuedToken | src/api/deps.py:66-75 | For an active user's unexpired token, the gate admits that user exactly when their role is "admin", and otherwise gives 403. |
| Deps.LoginThenAdminGate | src/api/deps.py:66-75 | An administrator who signs in with the right password gets a token that passes the gate as them until it expires. |
| Seed.SeedPermissionsKeeps | src/db/seed.py:28-33 | The permission loop keeps every stored permission in place and leaves a permission for every catalogue name. |
| Seed.SeedPermissionsAdded | src/db/seed.py:28-33 | The permission loop adds only rows that carry the ids drawn for its turns. |
| Seed.SeedPermissionsUnique | src/db/seed.py:28-33 | With fresh, distinct ids, the permission loop keeps permission ids and names unique. |
| Seed.SeedPermissionsPresent | src/db/seed.py:29-30 | When every catalogue name is already stored, the permission loop changes nothing. |
| Seed.DictIdsAreNamedIds | src/db/seed.py:33-50 | The permissions taken from the loop's name-keyed dictionary are exactly the stored permissions of those names. |
| Seed.SeedRoleFacts | src/db/seed.py:44-51 | Each role step finds or creates the role and sets its permissions to exactly the named ones; ids and names stay unique. |
| Seed.SeedRoleKeepsOthers | src/db/seed.py:44-51 | A role step keeps every role of another name as it was. |
| Seed.SeedRoleOnlyNamed | src/db/seed.py:44-51 | After a role step every role is an earlier one or the named role with its new permissions. |
| Seed.SeedRolePresent | src/db/seed.py:44-51 | A role already holding exactly its catalogue permissions is left as it is. |
| Seed.SeedAdmin | src/db/seed.py:56-70 | The repaired administrator step (see Findings, src/db/seed.py:64). An existing admin email leaves the users as they are. Otherwise the administrator account, holding the digest in `password_hash`, is appended, unless the username "admin" is already taken, in which case the commit is refused. |
| Seed.SeedAdminAsWritten | src/db/seed.py:56-68 | The administrator step as written raises TypeError exactly when no account has the admin email, because `User` has no `password` keyword. Otherwise it leaves the tables as they are. |
| Seed.SeedResultAsWritten | src/db/seed.py:9-70 | The run as written fails exactly when the admin email is free, which includes every first run. Otherwise it commits the loops' tables with the users untouched. |
| Seed.SeedPasswordKeywordFinding | src/db/seed.py:60-67 | When neither the admin email nor the username "admin" is taken, the run as written raises TypeError while the repaired run commits and stores the new administrator. |
| Seed.FirstSeedFailsAsWritten | src/db/seed.py:58-67 | On an empty database the run as written raises TypeError, whatever ids it draws. |
| Seed.SeedKeepsConsistent | src/db/seed.py:9-70 | An accepted seed keeps the database consistent. |
| Seed.SeedTablesOutcome | src/db/seed.py:17-53 | After the catalogue phases, every catalogue permission exists, and "admin" and "user" hold exactly their catalogue permissions. Users, tasks and tags are untouched, and no permission is lost. |
| Seed.SeedRefused | src/db/seed.py:58-70 | In the repaired program, the seed is refused exactly when the admin email is free but the username "admin" is taken, and then as a unique violation on username. |
| Seed.SeedCatalogOutcome | src/db/seed.py:17-53 | After an accepted seed, the catalogue permissions exist and both roles hold exactly their catalogue permissions. |
| Seed.SeedAccountOutcome | src/db/seed.py:56-68 | In the repaired program, after an accepted seed, a user with the admin email exists. When none existed before, it is the new active administrator with the admin role and the digest of the default password. |
| Seed.SeedOnlyAdds | src/db/seed.py:9-70 | The seed never removes a user or a permission and never touches tasks or tags. |
| Seed.SeedAdminOutcome | src/db/seed.py:56-68 | In the repaired program, the admin step only adds a user, and afterwards the admin email is taken. |
| Seed.SeedTablesFixed | src/db/seed.py:27-51 | On a database that already holds the catalogue permissions and both roles with exactly their permissions, the two loops change nothing. |
| Seed.SeedIdempotent | src/db/seed.py:9-70 | Seeding an already seeded database changes nothing, whatever ids and hash it is given. |
| Seed.SeedPermissionLoop | src/db/seed.py:27-33 | The loop leaves the permission table as the seeded catalogue. It returns a dictionary mapping exactly the catalogue names to stored permissions of those names. |
| Seed.SeedRoleTurn | src/db/seed.py:44-51 | One role turn leaves the role table as the role step defines it, changes no other table and returns the role's id. |
| Seed.SeedRoleLoop | src/db/seed.py:43-51 | The loop leaves the role table as the seeded roles and returns the admin role's id. |
| Seed.SeedAdminStep | src/db/seed.py:56-70 | Performs the repaired admin step of the seed, or leaves the store unchanged when the commit is refused. |
| Seed.SeedInitialData | src/db/seed.py:9-70 | The repaired run: leaves exactly the seeded tables when the seed is accepted, and the original tables when it is refused. The constraints are kept. |

## Left out

- Argon2 hashing: `hash_password` and `verify_password` are parameters of the model. Their cost settings and salt are not modelled.
- JWT signing: a token is a symbolic value carrying its claims, key and algorithm. The HMAC and the base64 encoding are not modelled.
- Time has whole-second resolution. `datetime` values are integers of seconds, so sub-second precision is not modelled.
- Uuids.Parse accepts 32 hex digits of either case once every dash is removed. The other spellings Python's `UUID()` accepts are not modelled: surrounding braces, the `urn:uuid:` prefix, and whatever else `int(hex, 16)` tolerates (a sign, surrounding whitespace, `_` separators, a `0x` prefix).
- String order is code-point order. Database collation, which decides `order_by(name)` for roles, permissions and tags, is not modelled.
- `ceil(total / page_size)` is modelled as integer ceiling division. It agrees with the floating-point result for every total below 2^53.
- `created_at` is not a field. "Order by created_at desc" is modelled as reverse insertion order, so rows inserted within the same timestamp are not modelled.
- The audit timestamps `created_at` and `updated_at` are not modelled.
- Relationship lists (`role.permissions`, `task.tags`) are modelled as sets of ids, the association-table rows. So the order of those lists in a response is not modelled.
- RoleRoutes.AssignPermissionsRoute: the 400 is stated with the missing names as a set. The order in which `', '.join(missing)` prints them is set-iteration order and is not modelled.
- Concurrency and transaction isolation are not modelled: each request runs alone against the store.
- Rows removed by `ON DELETE CASCADE` are out of scope. No operation of the modelled core deletes a user, role, permission or tag.
- FastAPI plumbing is not modelled: `CustomHTTPBearer`'s 401 for a missing header, the `WWW-Authenticate` headers, and Pydantic's response serialisation. Pydantic field bounds appear only as the `UserCreateWellFormed` and `TaskCreateWellFormed` preconditions.
- The task, tag, permission and auth routes (`src/api/routes/task.py`, `tag.py`, `permission.py`, `auth.py`) are not part of this model. They forward to the modelled services.
- `PermissionService.get_permission_by_id` is not part of this model. No route of the core calls it.
- Security.CheckClaims: python-jose's decode also refuses an `aud` claim when no audience is configured, an `nbf` in the future and a `jti` that is not text, and reads `iat` and `exp` through `int()`. These checks are not modelled. Only `create_access_token` signs tokens with the configured key, and it never writes `aud`, `nbf` or `jti`, so no path of the core reaches them.
- SeedRefused, SeedAccountOutcome, SeedAdminOutcome: these state the repaired seed. As written, the run raises TypeError whenever the admin email is free (Findings, src/db/seed.py:64), which Seed.SeedResultAsWritten states.
- Seed.SeedInitialData, Seed.SeedAdminStep: the imperative run is the repaired one. The as-written run is stated by the function Seed.SeedResultAsWritten.
- Email address syntax: `EmailStr`'s check and normalisation are the `checkEmail` parameter of AuthSchema.ParseLoginRequest, so the rules of the address syntax are not modelled. The `UserCreate` and `UserUpdate` emails are checked the same way before any service runs, and the services take them as already normalised text.
- TaskService.CreateTask: the route always passes the signed-in user, so the foreign-key error path is reached only by a caller that passes an unknown owner id.

## Findings

| source | as written | input that shows it | evidently intended | confidence | as-written member | corrected member |
|---|---|---|---|---|---|---|
| src/services/auth_service.py:36 | `verify_password(password, user.password)` reads an attribute that `User` does not have (its column is `password_hash`) | any active user signing in with their email, right password or not | verify against `user.password_hash` | high, not executed | AuthService.AuthenticateUserAsWritten, AuthService.PasswordAttributeFinding | AuthService.AuthenticateUser |
| src/services/user_service.py:46 | `User(..., password=hash_password(...))` passes a keyword `User` has no column for | any well-formed `UserCreate` with a free email and username and a stored role | store the digest in `password_hash` | high, not executed | UserService.NewUserAsWritten, UserService.PasswordKeywordFinding | UserService.CreateUser |
| src/api/routes/user.py:65 | `create_user(user_data, role.id)` leaves out the required `created_by` | any request that passes the email, username and role checks | pass the administrator's id as `created_by` | high, not executed | UserRoutes.CreateUserRouteAsWritten, UserRoutes.MissingActorFinding | UserRoutes.CreateUserRoute |
| src/api/routes/user.py:133 | `deactivate_user(user_id)` leaves out the required `updated_by` | an administrator deactivating another user | pass the administrator's id as `updated_by` | high, not executed | UserRoutes.DeactivateUserRouteAsWritten, UserRoutes.MissingActorFinding | UserRoutes.DeactivateUserRoute |
| src/api/routes/user.py:160 | `activate_user(user_id)` leaves out the required `updated_by` | any activation request | pass the administrator's id as `updated_by` | high, not executed | UserRoutes.ActivateUserRouteAsWritten, UserRoutes.MissingActorFinding | UserRoutes.ActivateUserRoute |
| src/api/routes/role.py:14 | `AssignPermissionsRequest` is imported from `src.schemas.role`, which does not define it (the class is in `src.schemas.permission`), so importing the module raises ImportError, and with it `src/api/router.py:3` and `src/main.py:6`: the application does not start | loading the application | import `AssignPermissionsRequest` from `src.schemas.permission` | high, not executed | RoleRoutes.RoleRoutesImportAsWritten | RoleRoutes.RoleRoutesImportCorrected, RoleRoutes.AssignPermissionsRoute |
| src/db/seed.py:64 | `User(..., password=hash_password("Admin123*"), ...)` passes a keyword `User` has no attribute for, so the constructor raises TypeError whenever no account has the admin email; the session is then closed without a commit and nothing of the run is kept | the first run on an empty database | store the digest in `password_hash` | high, not executed | Seed.SeedResultAsWritten, Seed.SeedPasswordKeywordFinding, Seed.FirstSeedFailsAsWritten | Seed.SeedInitialData, Seed.SeedAccountOutcome |
