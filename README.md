# HomeChore server core in Dafny

HomeChore is a household chore manager. People register and either create
a house group (and become its admin) or join one with an invite code. The
admin creates tasks, each member or admin submits task requests, and
members upload proof images. This project models the server side of the
application:

- the page guard (`middleware.tsx`);
- the route handlers for registration, invites, tasks, task requests, the
  dashboard and user statistics, the profile, invite-code regeneration and
  image upload;
- the helpers of `lib/utils.ts` those handlers and pages use.

The hosted backend is a class `Db.Store` holding:

- the identity provider's accounts;
- the users, house_groups, tasks, task_requests and invites tables, as
  sequences of rows.

Reads are pure functions over those sequences. The store client's
`.eq`, `.order(..., { ascending: false })`, `.limit` and `.single()` are in
module `Query`. A handler that writes is a method whose `modifies` clause
names the tables it changes, and whose `ensures` gives the new table
contents. Every handler's checks are a pure function: the guard or plan
that decides the reply.

Some things the handlers get from outside. Each of them is a parameter:

- the session cookie (`token`);
- the account the identity provider resolves it to (`resolved`);
- the store's reports of failure (`...Fails` flags, or the error message it
  returns);
- the clock (`now`, in milliseconds);
- `Math.random()` (`draws`, a sequence of reals in [0, 1));
- the storage service's answers.

Modules:

- `Base`: `Option`, and JSON body fields with their JavaScript truthiness.
  `x || null`, `x ?? null` and `x || fallback` are written out separately.
- `JsText`: the string built-ins used (`startsWith`, `split` on a single
  character, `trim`, ASCII case mapping, `\s`, decimal rendering of a
  natural number, `encodeURIComponent` on ASCII).
- `Query`, `Types`, `Db`: the store.
- `Session`: the cookie/token/users-row prelude shared by the handlers.
- `Utils`, `Middleware`, and one module per route: `InvitesValidate`,
  `Invites`, `Tasks`, `TaskRequests`, `DashboardStats`, `UserStats`,
  `UserProfile`, `Regenerate`, `Register`, `Upload`.

Task-request statuses follow the route handlers: a new request is
`submitted`, and the dashboard counts `submitted` requests. The type
declarations in `types/index.ts:5` say `pending`, but no handler writes
that.

Registration's join branch looks up `house_groups.invite_code` only
(`app/api/auth/register/route.tsx:84-98`); invites issued by POST
/api/invites are not consulted. `Register.IssuedInviteCannotJoin` states
the consequence.

## Model

| member | source | states |
|---|---|---|
| Base.CoalescingDiffers | app/api/task-requests/route.tsx:141-143 | `x \|\| null` and `x ?? null` differ exactly on the empty string: the first drops it, the second keeps it |
| JsText.Split | app/api/upload/route.tsx:115 | `split` on one character yields at least one piece |
| JsText.LastIndexOf | app/api/upload/route.tsx:115 | the index found is -1 or holds the character |
| JsText.LastIndexOfIsLast | app/api/upload/route.tsx:115 | no index after the one found holds the character |
| JsText.SplitLastStep | app/api/upload/route.tsx:115 | the last piece of a split is the last piece of the tail's split once the head is a separator or the tail holds one |
| JsText.SplitWithoutSeparator | app/api/upload/route.tsx:115 | a string without the separator splits into itself alone |
| JsText.SplitWithSeparator | app/api/upload/route.tsx:115 | a string holding the separator splits into at least two pieces |
| JsText.SplitLast | app/api/upload/route.tsx:115 | the last piece of a split (`pop()`) is the text after the last separator, the whole string if there is none |
| JsText.LastIndexOfBeforeTail | app/api/upload/route.tsx:116 | in `p + "." + e` with no dot in `e`, the last dot is the one at position `p` |
| JsText.SplitJoin | lib/utils.ts:71-73 | no piece holds the separator, and joining the pieces with it restores the string |
| JsText.JoinHead | lib/utils.ts:71-73 | prefixing the first piece prefixes the joined string |
| JsText.NatToString | app/api/upload/route.tsx:116 | the decimal rendering is non-empty, made of digits, and starts with `0` exactly for 0 |
| JsText.DecimalFoldSnoc | app/api/upload/route.tsx:116 | reading one more digit at the end multiplies the value read so far by ten and adds the digit |
| JsText.NatToStringValue | app/api/upload/route.tsx:116 | reading the rendering back left to right, digit by digit, gives the number |
| JsText.HexDigit | app/api/invites/route.ts:50 | the digit is `0-9` or `A-F`, and its hexadecimal value is the number |
| JsText.EncodeUriComponent | app/api/invites/route.ts:50 | the encoding is no shorter than its input and holds only unreserved characters and `%` |
| JsText.EncodeDecode | app/api/invites/route.ts:50 | `decodeURIComponent` of the encoding gives the text back, so no two texts share an encoding |
| JsText.EncodeUnreservedIdentity | app/api/invites/route.ts:50 | text made of unreserved characters is its own encoding |
| Query.Filter | app/api/tasks/route.tsx:59-70 | `.eq` chains keep only satisfying rows, all taken from the table |
| Query.CountMono | app/api/dashboard/stats/route.tsx:59-71 | counting a weaker condition never gives less |
| Query.FilterExt | app/api/tasks/route.tsx:62-65 | conditions that agree on every row give the same rows |
| Query.FilterOnly | app/api/invites/validate/route.ts:38-42 | when exactly one row matches, the filter is that row |
| Query.FilterNone | app/api/auth/register/route.tsx:84-88 | when no row matches, the filter is empty |
| Query.FilterMultiset | app/api/tasks/route.tsx:59-70 | each row is kept as often as it occurs when it matches, and dropped when it does not |
| Query.FilterAppend | app/api/dashboard/stats/route.tsx:90-94 | an appended row is kept after the earlier rows exactly when it matches |
| Query.FilterSingleton | app/api/dashboard/stats/route.tsx:90-94 | a one-row table filters to that row or to nothing |
| Query.FilterCons | app/api/dashboard/stats/route.tsx:59-64 | a filter decomposes at the first row |
| Query.Single | app/api/invites/validate/route.ts:11-15 | `.single()` returns a row exactly when one row matches, and the row matches |
| Query.Insert | app/api/tasks/route.tsx:60 | inserting into a descending list keeps it descending, adds exactly that row, and puts either it or the old head first |
| Query.SortDesc | app/api/tasks/route.tsx:60 | `.order(created_at, descending)` is a permutation that is sorted newest first |
| Query.ConsSortedDesc | app/api/tasks/route.tsx:60 | a row whose key is no smaller than the head's keeps a descending list descending when put in front |
| Query.FilterSorted | app/api/tasks/route.tsx:59-70 | `.eq` conditions then `.order` descending give every matching row of the table, each as often as in the table, only matching rows, newest first |
| Query.Take | app/api/tasks/route.tsx:72-75 | `.limit(n)` is a prefix of length `min(n, size)`; no limit keeps everything |
| Db.UserRow | app/api/tasks/route.tsx:30-34 | the users row found has the requested id |
| Db.GroupRow | app/api/house-group/regenerate/route.tsx:55-60 | the house_groups row found has the requested id |
| Db.UserRowFindsPresent | app/api/tasks/route.tsx:30-41 | with unique ids, a present row is the one `.single()` returns |
| Db.UniqueFilterAt | app/api/tasks/route.tsx:30-34 | with unique ids, the filter on a present id is exactly that row |
| Db.NoneFiltered | app/api/auth/register/route.tsx:104-110 | an id no row has filters to nothing |
| Session.Forward | app/api/tasks/route.tsx:10-26 | a failure is passed on with its status and message |
| Session.Authenticate | app/api/user/stats/route.tsx:7-26 | 401 "Unauthorized" without a non-empty cookie, 401 "Invalid token" when the provider resolves no user, otherwise the user id |
| Session.Profile | app/api/tasks/route.tsx:8-41 | after authentication, the caller's users row, or 404 "User not found" |
| Session.TokenBeforeTable | app/api/tasks/route.tsx:8-41 | an unauthenticated request gets the same 401 whatever the users table holds |
| Session.ProfileFindsRow | app/api/tasks/route.tsx:29-41 | with unique ids, an authenticated caller with a row gets that row |
| Utils.Pick | lib/utils.ts:21 | `floor(random * 36)` is an index into the alphabet |
| Utils.InviteCodeFrom | lib/utils.ts:17-24 | the code has 8 characters, each from the alphabet and so an upper-case letter or a digit |
| Utils.GenerateInviteCode | lib/utils.ts:17-24 | the loop builds the code selected by the draws: 8 upper-case letters or digits |
| Utils.AlphabetChars | lib/utils.ts:18 | the alphabet holds only upper-case letters and digits |
| Utils.UpperCodeUnchanged | app/api/invites/route.ts:27 | upper-casing a generated code changes nothing |
| Utils.IsOverdue | lib/utils.ts:54-56 | overdue exactly when the deadline lies strictly before now |
| Utils.DaysUntil | lib/utils.ts:54-66 | `ceil(diff / day)`, bracketed by whole days; a negative count means overdue, and overdue means a count ≤ 0 with a deadline other than now |
| Utils.Initials | lib/utils.ts:70-77 | at most two characters |
| Utils.HeadsAreWordStarts | lib/utils.ts:71-73 | the first characters of the space-separated pieces are the characters that start a word |
| Utils.InitialsAreWordStarts | lib/utils.ts:70-77 | initials are the first two word starts, upper-cased; empty pieces contribute nothing |
| Utils.IndexOf | lib/utils.ts:82 | the first occurrence of a character, or -1 when absent |
| Utils.EmailCheckSound | lib/utils.ts:81-84 | a string the check accepts matches `^[^\s@]+@[^\s@]+\.[^\s@]+$` |
| Utils.EmailCheckComplete | lib/utils.ts:81-84 | a string matching the regular expression is accepted |
| Utils.IsValidEmail | lib/utils.ts:81-84 | no whitespace, one `@` with text before it, and after it a `.` with text on both sides |
| Utils.EmailCheckIsRegex | lib/utils.ts:81-84 | the check accepts exactly the language of the regular expression |
| Utils.ValidatePassword | lib/utils.ts:88-121 | one message per failed rule, in rule order; valid iff no message; weak iff invalid, strong iff valid with length ≥ 12 |
| Utils.ValidateImageFile | lib/utils.ts:135-157 | accepted iff the type is one of the four allowed and size ≤ 2 MiB; the type is checked first |
| Utils.StripNonWord | lib/utils.ts:166 | only `\w` and `-` characters of the input remain |
| Utils.DropWhile | lib/utils.ts:167-168 | a suffix of the input that does not start with a run character |
| Utils.CollapseKeeps | lib/utils.ts:167-168 | collapsing runs keeps any character property the input and replacement share |
| Utils.CollapseIdle | lib/utils.ts:167 | a string without run characters is unchanged |
| Utils.CollapseHyphensSingle | lib/utils.ts:168 | after collapsing, no two hyphens are adjacent, and a leading hyphen survives exactly when there was one |
| Utils.CollapseHyphensIdle | lib/utils.ts:168 | a string without adjacent hyphens is unchanged |
| Utils.StripIdle | lib/utils.ts:166 | a string of word characters and hyphens is unchanged |
| Utils.TrimIdle | lib/utils.ts:169 | a string without whitespace is unchanged by `trim` |
| Utils.LowerIdle | lib/utils.ts:165 | a slug is unchanged by `toLowerCase` |
| Utils.SlugCharsAreWordChars | lib/utils.ts:166 | slug characters are word characters and not whitespace |
| Utils.SlugShape | lib/utils.ts:162-170 | a slug uses only `a-z0-9_-`, holds no space, and has no two hyphens in a row |
| Utils.SlugifyIdempotent | lib/utils.ts:162-170 | slugifying a slug gives it back |
| Utils.ToLowerAppend | lib/utils.ts:165 | lower-casing a concatenation lower-cases each part |
| Utils.StripAppend | lib/utils.ts:166 | stripping non-word characters from a concatenation strips each part |
| Utils.SlugDropsSpace | lib/utils.ts:162-170 | inserting a space anywhere changes no slug: spaces are deleted, not turned into `-` |
| Utils.Slugify | lib/utils.ts:162-170 | lower case, then strip, then whitespace runs to `-`, then hyphen runs to one `-`, then trim; its properties are the lemmas above |
| Middleware.IsProtectedPath | middleware.tsx:7-13 | the path starts with one of the six protected prefixes |
| Middleware.IsAuthPath | middleware.tsx:15-18 | the path starts with `/auth`, `/login` or `/register` |
| Middleware.Target | middleware.tsx:20-28 | the login page is an auth page and not a protected one; the dashboard is protected and not an auth page |
| Middleware.Decide | middleware.tsx:20-30 | login redirect (carrying the path) iff protected and no cookie; dashboard redirect iff an auth page with a cookie; otherwise pass |
| Middleware.PrefixLists | middleware.tsx:7-18 | the path classes are the six protected and three authentication prefixes |
| Middleware.ProtectedAndAuthDisjoint | middleware.tsx:7-28 | no path is both protected and an authentication page |
| Middleware.ProtectedShape | middleware.tsx:7-13 | protected paths have length ≥ 6 and one of the six second letters |
| Middleware.AuthShape | middleware.tsx:15-18 | authentication paths have one of three second letters |
| Middleware.PresenceOnly | middleware.tsx:4-28 | only the cookie's presence matters, not its value |
| Middleware.PrefixNotSegment | middleware.tsx:9-24 | the test is a plain prefix: `/tasksx` is protected |
| Middleware.RedirectsSettle | middleware.tsx:20-30 | following either redirect with the same cookie state passes through |
| InvitesValidate.NormalizedCode | app/api/invites/validate/route.ts:7 | the code, or the empty text when absent, upper-cased with its length kept |
| InvitesValidate.InviteRow | app/api/invites/validate/route.ts:11-15 | an invites row is found iff exactly one has the code |
| InvitesValidate.LegacyRow | app/api/invites/validate/route.ts:38-42 | a house group is found iff exactly one holds the code |
| InvitesValidate.OwnGroupRow | app/api/invites/validate/route.ts:22-26 | the invite's group row, matched by id; a null id finds nothing |
| InvitesValidate.IsExpired | app/api/invites/validate/route.ts:20 | an expiry is set and lies strictly before now |
| InvitesValidate.Usable | app/api/invites/validate/route.ts:18-20 | neither revoked, nor used, nor expired |
| InvitesValidate.RowVerdict | app/api/invites/validate/route.ts:17-34 | revoked, then used, then strictly expired refuse the row, first match winning; otherwise valid for the row's group with the group's non-empty code |
| InvitesValidate.ValidateInvite | app/api/invites/validate/route.ts:7-48 | empty code gives 400; a found invite row decides; otherwise a legacy group code is valid; otherwise `not_found` |
| InvitesValidate.ValidMeansUsable | app/api/invites/validate/route.ts:17-46 | a valid answer comes from a usable invite row, or, with no row, from the one group holding the code |
| InvitesValidate.NoLegacyRescue | app/api/invites/validate/route.ts:17-20 | an unusable invite row is refused with its own reason even if a group holds the code |
| InvitesValidate.ExpiryIsStrict | app/api/invites/validate/route.ts:20 | an expiry at or after now is not expired |
| InvitesValidate.CaseInsensitive | app/api/invites/validate/route.ts:7 | a code and its upper case are answered alike |
| Invites.ExpiresAt | app/api/invites/route.ts:29 | no expiry when the days are absent or 0; otherwise now plus whole days, in the future for positive days |
| Invites.AdminRow | app/api/invites/route.ts:32-35 | the caller's row when it exists and is an admin; none otherwise |
| Invites.InviteLink | app/api/invites/route.ts:49-50 | the link starts with the origin and `/auth/register?invite=` |
| Invites.PlanInvite | app/api/invites/route.ts:9-50 | 401 without a valid token, 403 for non-admins; otherwise an unused, unrevoked row for the admin's group with the code, `email \|\| null`, the expiry, and a link ending in the code |
| Invites.UpperCodeIsUnreserved | app/api/invites/route.ts:27-50 | a generated code is its own upper case and its own URI encoding |
| Invites.IssueInvite | app/api/invites/route.ts:6-52 | the plan's reply, or 400 with the store's message (or the fallback); the invites table grows by the row exactly on success |
| Invites.IssuedInviteValidates | app/api/invites/route.ts:37-43 | an issued invite whose code was new validates as usable for its group up to its expiry |
| Invites.ListInvites | app/api/invites/route.ts:59-76 | 401, then 403 "Forbidden", then 400 with the store's message; otherwise every invite of the admin's group and no other, newest first |
| Tasks.Visible | app/api/tasks/route.tsx:59-70 | the caller's group, assigned to the caller when only own tasks are shown, and of the status when one is given |
| Tasks.Listed | app/api/tasks/route.tsx:50-70 | exactly the visible tasks (same group, own when required, status when given), newest first |
| Tasks.ListTasks | app/api/tasks/route.tsx:6-89 | the prelude's failure, or 500 when the fetch fails; otherwise a prefix of the listing within the limit, all visible tasks when no limit is given |
| Tasks.MemberCannotWiden | app/api/tasks/route.tsx:62-65 | for a member, `my_tasks` changes nothing |
| Tasks.LimitIsPrefix | app/api/tasks/route.tsx:72-75 | the limited listing is the first `n` of the unlimited one |
| Tasks.NewTask | app/api/tasks/route.tsx:159-170 | a pending task in the admin's group, created by the admin, with `description \|\| null` |
| Tasks.PlanTask | app/api/tasks/route.tsx:102-157 | the prelude's failure, 403 for non-admins, 400 unless title, assignee and deadline are all non-empty; otherwise the new task |
| Tasks.CreateTask | app/api/tasks/route.tsx:100-190 | the plan's reply or 500 on an insert error; the tasks table grows by the row exactly on success |
| Tasks.CreatedTaskListed | app/api/tasks/route.tsx:159-170 | a task an admin assigns to themself appears in their unfiltered listing |
| TaskRequests.Visible | app/api/task-requests/route.tsx:50-61 | the caller's group, of the status when one is given, and the caller's own for a member |
| TaskRequests.ListRequests | app/api/task-requests/route.tsx:5-75 | the prelude's failure, or 500; otherwise exactly the group's requests (own only for members, status when given), newest first |
| TaskRequests.NewRequest | app/api/task-requests/route.tsx:135-145 | a submitted request in the caller's group with `description \|\| null`, and `assigned_to ?? null` and `deadline ?? null` |
| TaskRequests.EmptyTextKept | app/api/task-requests/route.tsx:141-143 | an empty description is dropped; an empty assignee or deadline is stored as empty text |
| TaskRequests.PlanRequest | app/api/task-requests/route.tsx:86-132 | the prelude's failure, 400 without a title, otherwise the new request; no role check |
| TaskRequests.SubmitRequest | app/api/task-requests/route.tsx:86-161 | the plan's reply or 500; the table grows by the row exactly on success |
| TaskRequests.SubmittedRequestListed | app/api/task-requests/route.tsx:44-145 | a submitted request is in the submitter's `status=submitted` listing |
| DashboardStats.StatusPartition | app/api/dashboard/stats/route.tsx:59-64 | pending, completed and verified counts add up to the number of tasks |
| DashboardStats.OverduePending | app/api/dashboard/stats/route.tsx:68-70 | a pending task whose parsed deadline lies strictly before now; an unparseable deadline is never overdue |
| DashboardStats.Compute | app/api/dashboard/stats/route.tsx:43-98 | the counts over the caller's tasks (all the group's for admins); they add up, overdue ≤ pending, and member and request counts exist iff admin |
| DashboardStats.GetStats | app/api/dashboard/stats/route.tsx:5-103 | the prelude's failure, otherwise the computed stats |
| DashboardStats.SubmissionCounted | app/api/dashboard/stats/route.tsx:89-97 | a new submitted request in the admin's group raises the open-request count by one |
| UserStats.CountTasks | app/api/user/stats/route.tsx:28-45 | counts over the caller's assigned tasks, 0 when the fetch fails; verified ≤ completed ≤ total |
| UserStats.GetUserStats | app/api/user/stats/route.tsx:5-50 | only the token is checked; the reply is the counts |
| UserStats.GroupIgnored | app/api/user/stats/route.tsx:29-32 | moving a task to another group leaves the stats unchanged |
| UserStats.MovedFilter | app/api/user/stats/route.tsx:29-32 | changing a task's group keeps the filtered statuses |
| UserStats.SameStatusCount | app/api/user/stats/route.tsx:40-44 | lists that agree status by status have the same counts |
| UserProfile.GroupOf | app/api/user/route.tsx:29-38 | the joined group is the group with the row's group id |
| UserProfile.GetProfile | app/api/user/route.tsx:6-50 | the prelude's failure, otherwise the caller's row with its group joined |
| UserProfile.PatchFrom | app/api/user/route.tsx:84-88 | a field is updated iff present in the body; null is stored as null |
| UserProfile.ApplyPatch | app/api/user/route.tsx:97-100 | only the patched columns change |
| UserProfile.PatchRows | app/api/user/route.tsx:97-100 | rows with the caller's id are patched, all others untouched |
| UserProfile.PatchKeepsIds | app/api/user/route.tsx:97-100 | patching keeps every id, so unique ids stay unique |
| UserProfile.PatchIdempotent | app/api/user/route.tsx:97-102 | applying the same update twice is applying it once |
| UserProfile.UpdateProfile | app/api/user/route.tsx:61-115 | 401, then 400 for an empty update, then 500 on an update error or when no row results; otherwise the patched row; the table changes only on success |
| UserProfile.UpdateHitsOnlyCaller | app/api/user/route.tsx:97-113 | with unique ids the reply is the caller's patched row, and no other row changes |
| Regenerate.Guard | app/api/house-group/regenerate/route.tsx:8-49 | 401, then 404 without a row or group, then 403 for non-admins; otherwise the caller's group |
| Regenerate.ReplaceCode | app/api/house-group/regenerate/route.tsx:55-60 | the group with the id gets the new code, all else unchanged |
| Regenerate.RegenerateCode | app/api/house-group/regenerate/route.tsx:6-82 | the guard's failure, or 500; otherwise the group row with the freshly generated code and its member count; store consistency is kept |
| Regenerate.NewCodeFindsGroup | app/api/house-group/regenerate/route.tsx:52-60 | a new code no other group holds finds exactly the regenerated group, which no longer holds its old code |
| Regenerate.OthersKept | app/api/house-group/regenerate/route.tsx:55-58 | other groups and all ids are unchanged |
| Register.JoinRow | app/api/auth/register/route.tsx:84-88 | the join lookup upper-cases the code and needs exactly one group holding it |
| Register.StopAt | app/api/auth/register/route.tsx:11-134 | where the handler stops, in order: missing fields, account refused, then the create or join branch, user insert, sign-in |
| Register.Refusal | app/api/auth/register/route.tsx:11-134 | each refusal is a 400 with the provider's or store's message, or the branch's fallback text |
| Register.SessionCookies | app/api/auth/register/route.tsx:148-166 | two httpOnly, lax, path-`/` cookies, secure in production, living 7 and 30 days |
| Register.AccountsAfter | app/api/auth/register/route.tsx:21-121 | the account stays after an empty group name, an unknown code, a sign-in failure or success; after a group or users insert failure it is deleted, unless the provider refuses the delete |
| Register.RefusedDeleteOrphans | app/api/auth/register/route.tsx:60-121 | the reply to a failed insert ignores the delete's answer; a refused delete leaves the account with no users row |
| Register.NewGroup | app/api/auth/register/route.tsx:50-59 | the new group carries the name, the generated code and the new user as creator |
| Register.GroupsAfter | app/api/auth/register/route.tsx:50-72 | a group is added exactly when the create path got past the group insert |
| Register.NewUser | app/api/auth/register/route.tsx:100-110 | the users row is admin of the new group, or member of the joined one |
| Register.UsersAfter | app/api/auth/register/route.tsx:104-121 | the users row is added exactly when its insert succeeded |
| Register.RegisterUser | app/api/auth/register/route.tsx:5-168 | the three tables end as those functions say, and the reply is the refusal for the stop, or the row read back with the two cookies |
| Register.MissingFieldsCreateNothing | app/api/auth/register/route.tsx:11-19 | missing fields are refused before any account exists |
| Register.OrphanAccounts | app/api/auth/register/route.tsx:37-134 | an empty group name or an empty or unknown code leaves an account without a users row; a sign-in failure leaves both |
| Register.OrphanGroup | app/api/auth/register/route.tsx:50-121 | a users insert failure on the create path deletes the account but leaves the new group |
| Register.JoinIgnoresCase | app/api/auth/register/route.tsx:87 | a code and its upper case join the same group |
| Register.RegisterKeepsStoreValid | app/api/auth/register/route.tsx:21-121 | with new ids from the provider and the store, ids stay unique and every users row keeps its account, on every path; on success the row is found |
| Register.IssuedInviteCannotJoin | app/api/auth/register/route.tsx:84-98 | a code issued into the invites table validates, yet registration refuses it unless a group holds it |
| Upload.Extension | app/api/upload/route.tsx:114-115 | the text after the last dot of the name (or of `upload`), the whole name without a dot, `jpg` when the name ends in a dot; never empty, no dot |
| Upload.ContentType | app/api/upload/route.tsx:89 | never empty: the file's own type when it has one, `application/octet-stream` otherwise |
| Upload.FileName | app/api/upload/route.tsx:116 | `${user.id}-${Date.now()}.${ext}`, with the time rendered in decimal |
| Upload.Prepare | app/api/upload/route.tsx:18-116 | 500 without the service key, 401 without a cookie or a user, 400 without a file, for a non-image type, or above 5 MiB; otherwise the bucket, type, size and `uid-now.ext` name |
| Upload.StorageFailure | app/api/upload/route.tsx:126-170 | 404 status or statusCode gives 400 "bucket not found", numeric 401 or 403 gives 403, anything else 500 |
| Upload.TextualDenialIsPlainFailure | app/api/upload/route.tsx:128-158 | a textual "403" alone gives 500, and the 404 test wins over a 403 status |
| Upload.UntypedRejected | app/api/upload/route.tsx:89-100 | a file without a type, or with an empty type, is not an image |
| Upload.SizeLimitInclusive | app/api/upload/route.tsx:101-112 | exactly 5 MiB passes; one byte more is refused |
| Upload.DotlessNameIsExtension | app/api/upload/route.tsx:114-115 | a name without a dot is its own extension |
| Upload.FileNameKeepsExtension | app/api/upload/route.tsx:114-116 | the stored name's last dot-separated piece is the extension |
| Upload.HandleUpload | app/api/upload/route.tsx:15-201 | every refusal leaves the storage unchanged; an upload error is mapped; otherwise the object is stored and the URL is the public one, else the signed one |

## Left out

- Cookie parsing: the cookie header and the `/sb-access-token=([^;]+)/` match are not modelled. The cookie value is an input.
- The identity provider, the store and the object storage: they are outside the model. Their answers (resolved accounts, ids, error messages, URLs) are inputs. Network calls and their timing are also outside.
- The clock and `Math.random()`: both are inputs.
- Concurrency: each handler is one atomic step. Races between registrations or regenerations are not represented.
- `catch` blocks: the replies for thrown exceptions ("Server error" 500, and register's `error.message` 400) are not modelled. The same holds for malformed JSON bodies and for body fields that are numbers or objects instead of strings.
- Tasks.ListTasks: `limit` is taken as an already parsed whole number. `parseInt` of arbitrary text (NaN, negatives) is not modelled.
- Joined columns: `assigned_user`, `creator` and `house_group(*)` beyond the group row itself are not modelled.
- Query.SortDesc: it fixes one order for rows with equal `created_at`. The store may return ties in any order, so the contracts claim only a descending permutation.
- Register.Refusal: an unknown invite code yields the fallback text "Kode Undangan tidak valid". The handler actually passes on the store's `.single()` error message, whose wording is the store's.
- JsText.EncodeUriComponent: it covers ASCII input only. The codes it is applied to are ASCII.
- Utils.ValidatePassword, Utils.Initials: `.length`, `word[0]` and `.slice(0, 2)` count Unicode scalar values here, where JavaScript counts UTF-16 code units. They differ for characters outside the Basic Multilingual Plane: U+1F600 is one character here and two code units in JavaScript, so `"Aa1"` with three of them is too short here but valid there, and the lone surrogate `word[0]` gives there cannot be written here.
- Utils.IsOverdue, Utils.DaysUntil: the deadline is taken as parsed milliseconds. The `new Date(deadline)` parsing of a string or a Date is left out, and so is an unparseable deadline, for which JavaScript compares NaN (`isOverdue` is false) and `getDaysUntil` returns NaN.
- Upload.HandleUpload: a success stores the object whatever the storage held under that bucket and name. The handler uploads with `upsert: false`, so the storage refuses a name already taken; the model leaves that refusal to the `uploadError` answer.
- Invites.ExpiresAt: `expires_in_days` is taken as a whole number. A fractional JSON number such as 1.5 is outside the model.
- JsText.ToUpper, JsText.ToLower: they map ASCII letters only. There is no Unicode case mapping.
- Utils.ValidateImageFile: the size message embeds `formatFileSize` and is kept abstract. `formatFileSize`, `formatDate`, `formatDateTime` and `cn` (floating point, locale, styling) are not modelled.
- DashboardStats.OverduePending: `new Date(deadline)` parsing is the `toMillis` parameter.
- Not modelled: `OPTIONS` and the CORS headers of the upload route; the console logging; the 204 reply.
- Not modelled (thin reads or outside the server core): the login, session, logout, password, house-group and members routes, the task-request approve/reject handlers, per-task update/delete, member role changes, the pages and the client context.
