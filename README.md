# Attendance API: a Dafny model

This project models the server side of a school attendance tracker. The
tracker keeps two tabs of a Google spreadsheet, `Absensi` (attendance) and
`Users`, and serves them over an Express API:

- `/api/auth/login` looks a username and password up in `Users` and signs a
  token carrying the user's `username`, `role` and `kelas` (class).
  `/api/auth/verify` checks a bearer token.
- `/api/sheets/absensi` lists attendance rows. Callers with the roles
  `siswa`, `sekertaris` and `guru_wali_murid` see only their own class. The
  query can narrow the list by class and by a date range.
  - POST appends a row.
  - PUT overwrites a row addressed by its sheet row number.
  - DELETE clears such a row.
- `/api/sheets/users` lists and creates users, for `guru` only.
- `/api/sheets/kelas` lists the distinct class names.
- The middleware module defines:
  - a per-IP rate limiter;
  - validators for attendance and user bodies;
  - a CORS origin check;
  - an error-to-reply mapping.

The model is organised as follows.

- `Store` holds a tab as a `Table` class with a `rows: seq<Row>` field. Its
  methods change that field the way `values.append`, `values.update` and
  `values.clear` change the tab. Row number `p` is `rows[p - 2]`, because row
  1 is the header.
- `Sheet` holds the router:
  - the listing is a function of the rows;
  - the write routes are methods on the `Table` they change;
  - each route returns the status and text of its reply.
- `Auth` holds login and bearer-token handling. Checking a token's signature
  is a function parameter `verify`.
- `Middleware` holds the limiter, a `RateLimiter` class over a map of
  entries, and the validators, CORS check and error mapping as functions.
- `Common`, `JsStrings` and `Sorting` give the JavaScript behaviour the
  routes rely on:
  - `filter`, `map` and `new Set`;
  - truthiness, `x || ''` and `x || null`;
  - `trim`, `includes` and `split`;
  - the default string `sort`.

A missing cell or property is `None`, and an empty cell is `""`. Every
property a JavaScript value may lack is an `Option`. Truthiness of a string
is "present and non-empty".

In these points the model follows what the code does:

- **Unknown roles are not scoped.** Only `siswa`, `sekertaris` and
  `guru_wali_murid` are restricted to their own class. Any other role
  (`guru`, a missing role, or a role name `POST /users` accepted without
  checking it) sees every row. `Sheet.UnscopedCallerSeesEveryRow` states
  this. A class-scoped caller with no class sees nothing
  (`Sheet.ClasslessCallerSeesNothing`).
- **The routes make presence checks only.** The routes do not call
  `validateAttendance` or `validateUser`, so `POST /absensi` accepts any
  date text and any status, and `POST /users` accepts any lengths and any
  role. Those validators are modelled on their own.
  `Middleware.ValidatorsRefineRouteChecks` relates them to the routes'
  checks.
- **The role check runs before the index check.** A caller without the
  right role gets 403 even when the index is invalid.
- **PUT does not check the caller's class.** A `sekertaris` may overwrite a
  row of another class.
- **Unset PUT fields keep the old cell.** A field missing from the PUT body
  is sent as JSON `null`, and the spreadsheet skips null cells, so the cell
  keeps its old value (`Store.Merge`).
- **Unused middleware.** `rateLimit`, the validators, `corsOptions` and
  `errorHandler` are exported but not installed by the application. The
  application installs an unrestricted `cors()` and its own 500 handler
  instead.

## Model

| member | source | states |
|---|---|---|
| Common.Filter | src/api/sheet.js:64 | `filter` keeps exactly the elements that pass the predicate and never lengthens the sequence |
| Common.FilterIsSubsequence | src/api/sheet.js:70-81 | a filtered sequence keeps the original order: it is a subsequence of its input |
| Common.FilterTwice | src/api/sheet.js:71-81 | two filters applied in turn are one filter by their conjunction |
| Common.Map | src/api/sheet.js:84-90 | `map` keeps the length and applies the function at every position |
| Common.Distinct | src/api/sheet.js:257 | `[...new Set(xs)]` has the same members as `xs` and no duplicates |
| JsStrings.OrEmpty | src/api/sheet.js:89 | `x || ''` is `x` when truthy and `''` otherwise |
| JsStrings.OrNull | src/api/auth.js:54 | `x || null` is `x` when truthy and `null` otherwise |
| JsStrings.Trim | src/api/sheet.js:258 | `trim()` is a slice of the text with only whitespace cut away on either side, and it neither starts nor ends with whitespace |
| JsStrings.TrimEmptyIff | src/api/sheet.js:258 | `s.trim()` is empty exactly when `s` consists of JavaScript white space |
| JsStrings.Includes | src/api/middleware.js:78 | `s.includes(sub)` holds exactly when `sub` occurs in `s` at some position |
| JsStrings.Split | src/api/sheet.js:20 | `split(' ')` yields at least one piece, no piece contains the separator, and more than one piece exactly when the separator occurs |
| JsStrings.JoinSplit | src/api/sheet.js:20 | joining the pieces of `split` with the separator gives the text back |
| JsStrings.SplitJoin | src/api/sheet.js:20 | splitting pieces joined by the separator gives the pieces back when none contains it |
| Sorting.Sort | src/api/sheet.js:259 | `sort()` returns an ordered permutation of its input |
| Sorting.LessTotal | src/api/sheet.js:259 | the default string order compares any two distinct strings |
| Sorting.LessTransitive | src/api/sheet.js:259 | the default string order is transitive |
| Sorting.AscendingUnique | src/api/sheet.js:257-259 | a strictly ascending list is fixed by its members, so a sorted set of names has a single form |
| Store.Merge | src/api/sheet.js:200-208 | an update writes every given cell, keeps every skipped (`null`) cell, and the row is as long as the longer of the two |
| Store.MergeAllGiven | src/api/sheet.js:200-208 | an update giving every cell of a row replaces the row outright |
| Store.UpdatedRows | src/api/sheet.js:200-208 | updating row number `p` changes only row `p`, and writing below the last row leaves empty rows in between |
| Store.ClearedRows | src/api/sheet.js:230-235 | clearing row number `p` empties it in place, keeping the number of rows and every other row's position and content |
| Store.ClearUndoesUpdate | src/api/sheet.js:186-242 | a clear after an update of the same row leaves the same tab as the clear alone |
| Store.Table.Append | src/api/sheet.js:113-121 | append puts the row below the last one and keeps every existing row at its row number |
| Store.Table.UpdateAt | src/api/sheet.js:200-208 | the tab becomes `UpdatedRows` of the old tab |
| Store.Table.ClearAt | src/api/sheet.js:231-235 | the tab becomes `ClearedRows` of the old tab |
| Auth.FindUser | src/api/auth.js:42-44 | `users.find` returns the first row whose username and password cells equal the given ones, and none when no row does |
| Auth.Login | src/api/auth.js:20-72 | a missing username or password gives 400; with both present, login succeeds exactly when some row matches, otherwise 401; the identity comes from the first matching row |
| Auth.IdentityOf | src/api/auth.js:51-55 | the payload's username is cell 0, its role is cell 2 when the row has one, and its class is cell 3 when that is non-empty and `null` otherwise |
| Auth.LoginIdentity | src/api/auth.js:51-55 | the token payload holds the typed username and the matching row's role, with an empty class becoming `null` |
| Auth.NoUsernameEnumeration | src/api/auth.js:46-48 | an unknown username and a wrong password get the same 401 reply |
| Auth.PresenceCheckedFirst | src/api/auth.js:24-26 | with a field missing, the reply does not depend on the Users tab |
| Auth.IdentityOmitsPassword | src/api/auth.js:51-55 | the password column never reaches the token payload |
| Auth.BearerToken | src/api/sheet.js:20 | the token never contains a space, and it is absent exactly when there is no header or the header has no space |
| Auth.TokenIsTextAfterFirstSpace | src/api/sheet.js:20 | the token is the text between the header's first space and the next space or the end |
| Auth.BearerTokenRoundTrip | src/services/api.js:18 | the header `Bearer ${token}` the client sends yields the token back |
| Auth.TokenAfterFirstSpace | src/api/sheet.js:20-24 | the token is missing exactly when the header's first space is followed by nothing or by another space |
| Auth.Authenticate | src/api/sheet.js:19-35 | no token gives 401 "Token tidak ditemukan", a token that does not verify gives 401 "Token tidak valid", and a valid one yields its identity |
| Sheet.CheckRole | src/api/sheet.js:38-43 | the caller passes exactly when its role equals one of the listed roles; a missing role never passes |
| Sheet.RoutePermissions | src/api/sheet.js:38-43 | guru and sekertaris may add and update attendance; only guru may delete attendance and manage users |
| Sheet.ScopeToRoleIsVisibility | src/api/sheet.js:62-68 | the role filter keeps exactly the rows the caller may see |
| Sheet.SelectRows | src/api/sheet.js:62-81 | the selected rows are never more than the tab's, and each is a row of the tab the caller may see and that matches the query |
| Sheet.SelectRowsIsQueryFilter | src/api/sheet.js:70-81 | the chain of query filters equals one filter by the whole query, applied after the role filter |
| Sheet.Format | src/api/sheet.js:84-90 | each of `tanggal`, `nama`, `kelas` and `status` is present exactly when the row reaches its column, and is then that cell; `keterangan` is cell 4 or `''` |
| Sheet.ListAttendance | src/api/sheet.js:46-92 | the `data` of the reply has no more records than the tab has rows, and each is the formatted form of a row the caller may see and that matches the query |
| Sheet.ListedRows | src/api/sheet.js:46-92 | a row is listed exactly when the caller may see it and it matches every given query parameter |
| Sheet.QueryOnlyNarrows | src/api/sheet.js:62-81 | the listing is a subsequence of what the role filter lets through: a query can only narrow it, and table order is kept |
| Sheet.ScopedCallerSeesOwnClass | src/api/sheet.js:62-68 | siswa, sekertaris and guru_wali_murid see only records of their own class, whatever `kelas` they ask for |
| Sheet.ClasslessCallerSeesNothing | src/api/sheet.js:63-68 | a class-scoped caller whose token has no class sees no record |
| Sheet.UnscopedCallerSeesEveryRow | src/api/sheet.js:62-92 | every other role, with an empty query, sees every row formatted in table order |
| Sheet.DateBoundsInclusive | src/api/sheet.js:75-81 | with both bounds given, a visible row is listed exactly when its parsed date lies between the parsed bounds, both inclusive |
| Sheet.SelectRowsAppend | src/api/sheet.js:62-81 | the listing of stacked parts of the tab is the listings of the parts, one after the other |
| Sheet.ListingAfterAppend | src/api/sheet.js:46-128 | after a row is appended, the listing is the old one followed by the new record exactly when the caller may see it and it matches |
| Sheet.PostedRecordReadsBack | src/api/sheet.js:84-90 | the posted record is what the listing shows for the appended row, with `keterangan` defaulting to `''` |
| Sheet.AttendanceCells | src/api/sheet.js:206 | the PUT writes exactly the five columns A to E |
| Sheet.AttendanceRow | src/api/sheet.js:119 | the POST appends exactly the five columns A to E |
| Sheet.PostAbsensi | src/api/sheet.js:100-128 | a role other than guru or sekertaris gives 403, a missing field gives 400, and otherwise the record is appended and nothing else changes |
| Sheet.PutAbsensi | src/api/sheet.js:187-215 | 403 for other roles, 400 for an index that is not a number of at least 2, otherwise the row at that number is updated and nothing else changes |
| Sheet.CompleteUpdateReplacesRow | src/api/sheet.js:187-215 | a PUT with all four fields replaces the row by exactly the posted values |
| Sheet.DeleteAbsensi | src/api/sheet.js:218-242 | 403 for any role but guru, 400 for an invalid index, otherwise columns A–E of the row are cleared in place (the whole row of the five-column tab) and nothing else changes |
| Sheet.ScopedListingAfterDelete | src/api/sheet.js:218-242 | after a delete, a class-scoped caller sees what they saw of the other rows, in order, and not the cleared row |
| Sheet.DeletedRowListedEmpty | src/api/sheet.js:218-242 | guru still sees the cleared row at its place, as a record with every field empty, in the rows as the model keeps them (a cleared last row is dropped on reading the live sheet) |
| Sheet.ListUsers | src/api/sheet.js:131-154 | only guru may list users; the listing has one entry per row, in table order, with the row's username and role and its class or `''` |
| Sheet.ViewOf | src/api/sheet.js:143-147 | a user's view holds cell 0 as `username` and cell 2 as `role`, each present exactly when the row reaches it, and the class cell or `''`; never the password |
| Sheet.ListUsersOmitsPasswords | src/api/sheet.js:143-147 | the listing never depends on the password column |
| Sheet.UserRow | src/api/sheet.js:175 | a new user is written as the four columns A to D |
| Sheet.PostUsers | src/api/sheet.js:157-184 | 403 for any role but guru, 400 when a field is missing, otherwise the user is appended and nothing else changes |
| Sheet.CreatedUserCanLogIn | src/api/sheet.js:157-184 | a created user can log in with its username and password, and without an earlier identical row gets the role and class it was created with |
| Sheet.ClassColumn | src/api/sheet.js:251-257 | the class column holds exactly the class cells of the rows |
| Sheet.ClassList | src/api/sheet.js:245-266 | the class list holds exactly the class names that occur and are not blank, in strictly ascending order |
| Sheet.ClassListIgnoresRowOrder | src/api/sheet.js:245-266 | the class list depends only on which rows the tab holds, not on their order or repetition |
| Middleware.Admit | src/api/middleware.js:6-31 | a new IP or an expired window starts a fresh window and passes; within the window a request passes exactly while fewer than the maximum were counted; a refused request changes nothing; other IPs are untouched |
| Middleware.RateLimiter.Request | src/api/middleware.js:6-31 | the limiter's new entries and its decision are those of `Admit`, and a refusal is 429 |
| Middleware.RateLimiter.Expire | src/api/middleware.js:12 | the timer forgets the IP and nothing else |
| Middleware.RunWithinWindow | src/api/middleware.js:16-29 | within one window no more requests pass than the maximum minus those already counted, and the count never passes the maximum |
| Middleware.DefaultLimit | src/api/middleware.js:6 | with the defaults of one minute and 100 requests, a new IP gets at most 100 requests through in its first minute |
| Middleware.RunRefusedWhenFull | src/api/middleware.js:23-27 | once a window is full, every further request in it is refused and the state stays the same |
| Middleware.AtMostMaxPerWindow | src/api/middleware.js:6-31 | a new IP gets at most `maxRequests` requests through in the window its first request opens |
| Middleware.WindowResets | src/api/middleware.js:18-21 | after the window has run out, the next request passes and opens a new window |
| Middleware.Repeat | src/api/middleware.js:100 | `atom{n}` is `n` copies of the atom |
| Middleware.FullMatchByPosition | src/api/middleware.js:100-101 | an anchored pattern of single-character atoms matches exactly the texts of its length matching position by position |
| Middleware.DatePatternIsDateShape | src/api/middleware.js:100-101 | the date regular expression accepts exactly ten characters with dashes at positions 4 and 7 and ASCII digits elsewhere |
| Middleware.ValidateAttendance | src/api/middleware.js:89-117 | the body passes exactly when all four fields are present, the date has the `YYYY-MM-DD` shape and the status is one of the four; a missing field gives "Data tidak lengkap", then a bad date "Format tanggal tidak valid", then a bad status "Status tidak valid" |
| Middleware.ValidateUser | src/api/middleware.js:119-153 | the body passes exactly when all three fields are present, the username has 3 to 50 characters, the password at least 6, and the role is one of the four; the first failing check, in that order, gives its own reply |
| Middleware.ValidatorsRefineRouteChecks | src/api/middleware.js:89-127 | a body the validators pass also passes the routes' presence checks, and one those checks refuse is refused with the same reply |
| Middleware.DateShapeExamples | src/api/middleware.js:100-105 | `2024-01-15` passes, `2024-1-15` is refused, and the impossible date `2024-13-99` passes |
| Middleware.OriginAllowed | src/api/middleware.js:68-83 | a request without an origin is allowed; any other is allowed exactly when its origin is on the list or contains `vercel.app` |
| Middleware.AnyVercelMentionAllowed | src/api/middleware.js:78 | every origin that contains `vercel.app` anywhere is allowed |
| Middleware.AllowListAndSubstring | src/api/middleware.js:72-78 | the deployed frontend is already covered by the substring test, localhost:3000 is allowed and localhost:3001 is not |
| Middleware.ErrorReply | src/api/middleware.js:48-64 | token errors become 401 with their own text and every other error becomes 500 |

## Left out

- The browser application, its API client, and the Express wiring (`index.js`) are outside the model. The model has no JSON parsing and no `/api/health` route.
- Sheets API failures and the 500 replies they cause are not modelled. Every store call is taken to succeed.
- The authorisation client and spreadsheet id from the environment are not modelled.
- `USER_ENTERED` parsing is not modelled: cells hold exactly the text written.
- The spreadsheet drops trailing empty rows and trailing empty cells when it returns a range. The model keeps every row and every cell that was written.
- Grid limits and the table detection of `values.append` are not modelled.
- The signing and verifying of tokens, their secret and their 24-hour lifetime are left out. Verification is the parameter `verify` of `Auth.Authenticate`.
- `POST /auth/verify` answers as `Auth.Authenticate` does. The extra `valid` field of its reply is not modelled.
- `new Date(text)` is the parameter `parse` (a day number, or none for an invalid date). JavaScript's date syntax and time zones are not modelled.
- `parseInt` of the path parameter is given as `Option<int>`.
- The clock (`Date.now()`) and the client IP are parameters of `Middleware.RateLimiter.Request`.
- `setTimeout` is modelled as a separate `Middleware.RateLimiter.Expire` call. When the timer fires is not modelled.
- `requestLogger` and all console output only log, and are left out.
- Concurrency between requests is left out. Each request is modelled as one atomic step.
- String lengths are counted in characters, not in UTF-16 code units. `sort()` compares characters, not UTF-16 code units. The two differ only outside the Basic Multilingual Plane.
- Request bodies and query parameters are modelled as strings or absent. Numbers, arrays and objects sent as JSON are not modelled.
- The extra `required`, `validStatuses` and `validRoles` fields of the validators' 400 replies are not modelled.
- The `success: true` field of the write routes' replies is not modelled.
- The development-mode `message` of the 500 reply is not modelled.
- The CORS `credentials` and `optionsSuccessStatus` options are not modelled. The `Not allowed by CORS` error is modelled as a `false` result.
