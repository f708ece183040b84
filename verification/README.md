# vacay — a Dafny model of the session and vacation core

vacay is a vacation-browsing web application. An Express/MySQL server
registers users, logs them in and checks their session. It also serves
the vacation list with a per-user "followed" flag, admin add/update/delete,
follow/unfollow, and per-destination follower statistics. A React client
keeps the session in `localStorage`, attaches it to every request, drops it
on a 401, guards routes by the stored role, and offers a vacation browser,
an admin panel and two statistics dashboards with CSV export.

This project models that core as pure Dafny functions over immutable data:

- The server's `users` table is a sequence of rows and the follower table
  is a set of `(user_id, vacation_id)` pairs.
- Each handler is a transition that returns the HTTP reply together with the
  new table.
- The client's `localStorage` is a map from keys to strings, and each
  component handler is a transition over the component's state.
- Server replies reach the client as `ClientApi.ApiOutcome` values. The
  session store's transitions (`AuthContext.Login`, `AuthContext.VerifyToken`,
  `AuthContext.Register`) pass their reply through the response interceptor
  `ClientApi.Call` first, and keep the hard redirect it orders on a 401. The
  page handlers take the outcome their caller sees after the interceptor.
- The clock is an integer `now` in seconds. The server's sliding session
  expiry is `now + 60`; the signed credential's own expiry is `now + 3600`.
- The credential library is `Jwt.JwtService`, a pair of functions (sign,
  verify). The ghost predicate `Jwt.Sound` states what a correct library
  promises: a signed credential verifies to its own payload strictly
  before its expiry and fails from then on. Only the cross-component
  scenario lemmas assume it.
- The password hash and password check are function parameters.
- A store write that throws is the boolean `writeFails`.
- Dates in the vacation routes are integers. A price in a request body is
  a JSON number, taken to be an integer.
- The vacations table keeps its auto-increment counter next to its rows,
  so an id is never handed out twice.
- JavaScript string behaviour the code relies on is written out in module
  `JsText`: `split`, `trim`, `startsWith`, `slice` with negative indices,
  `indexOf`, `parseInt` and `String(n)`.

Modules: `Wrappers`, `JsText`, `Sorting`, `Jwt`, `UserModel`,
`UserController`, `AuthMiddleware`, `VacationRoutes`, `ClientApi`,
`AuthContext`, `ProtectedRoute`, `EmailPattern`, `LoginPage`, `RegisterPage`,
`AuthModal`, `VacationsPage`, `AdminPanel`, `CsvExport`, `Dashboards`,
`SessionScenarios`.

The model follows the code in these places, where a reader might expect
otherwise:

- The route gate answers 403, not 401, when a credential does not verify.
- A negative id passes the follow routes' 400 check, because only a
  missing id, NaN or 0 is refused.
- The token check's cleanup after a failed verification clears every row
  that holds the presented token.
- The token check reads the second space-separated field of the header
  without checking the "Bearer" scheme.
- An unknown user id is a 401 "User not found".
- The users table is queried by e-mail, by id and by token, so it is a
  sequence of rows and not a map keyed by e-mail.

## Model

| member | source | states |
|---|---|---|
| UserModel.FindUserByEmail | Backend/src/models/user.model.ts:15-22 | null exactly when no row has the e-mail; otherwise the earliest row that has it |
| UserModel.FindUserById | Backend/src/controllers/user.controller.ts:106-111 | none exactly when no row has the id; otherwise a row holding that id |
| UserModel.NextUserId | Backend/src/models/user.model.ts:35-39 | the auto-increment id handed to a new row is larger than every id in use |
| UserModel.CreateUser | Backend/src/models/user.model.ts:24-45 | the insert throws exactly when the store fails; otherwise it appends one row with the given names, e-mail, hash and role, no session and an unused id, and keeps every earlier row |
| UserModel.SetSessionWhereEmail | Backend/src/models/user.model.ts:54-59 | every row with the e-mail gets both session fields; every other row is unchanged |
| UserModel.ClearSessionWhereToken | Backend/src/controllers/user.controller.ts:93-98 | every row holding the token loses both session fields; every other row is unchanged |
| UserModel.UpdateUserToken | Backend/src/models/user.model.ts:47-65 | rethrows exactly when the store fails; otherwise it performs the e-mail-keyed session write |
| UserModel.SetSessionKeepsPairing | Backend/src/models/user.model.ts:54-59 | a write that sets both session fields or clears both keeps every row's token and expiry set together |
| UserModel.ClearSessionKeepsPairing | Backend/src/controllers/user.controller.ts:93-98 | the cleanup by token keeps every row's token and expiry set together |
| UserModel.SessionWritesKeepKeys | Backend/src/models/user.model.ts:54-59 | session writes keep user ids and e-mails unique |
| UserController.Register | Backend/src/controllers/user.controller.ts:8-29 | 400 when a field is missing or empty; 409 when the e-mail is taken; 201 exactly when all fields are present, the e-mail is new and the insert succeeds, in which case one row with the hashed password, role "user" and no session is appended; every other outcome leaves the table unchanged |
| UserController.Login | Backend/src/controllers/user.controller.ts:31-72 | succeeds exactly when a row has the e-mail and the password matches its hash; the reply carries a credential signed over the row's id, role and e-mail, valid for an hour; the session is stored with a one-minute expiry unless the write fails, which the reply does not reveal; every failure is the same 401 and changes nothing |
| UserController.PresentedToken | Backend/src/controllers/user.controller.ts:76 | no header, or a header without a space, presents no token; a header with a space presents a space-free token |
| UserController.PresentedTokenIsSecondField | Backend/src/controllers/user.controller.ts:76 | whatever precedes the first space is ignored, and the token is the field up to the next space or the end |
| UserController.BearerHeaderPresentsToken | Backend/src/controllers/user.controller.ts:76 | the "Bearer" header the client builds presents exactly the stored token when that token has no space |
| UserController.TokenValidate | Backend/src/controllers/user.controller.ts:74-164 | 401 "No token provided" for a missing or empty token; 401 "Token has expired" with cleanup of every row holding the token when verification fails; 401 and no change when the user or its stored session is missing; 401 with the session cleared when now is past the stored expiry; success exactly otherwise, with the presented token written back under a new one-minute expiry; never any other status |
| UserController.RegisterKeepsKeysUnique | Backend/src/controllers/user.controller.ts:16-24 | registration keeps e-mails and ids unique |
| UserController.RegisterKeepsTokenFieldsPaired | Backend/src/controllers/user.controller.ts:21-24 | registration keeps every row's token and expiry set together |
| UserController.LoginKeepsTokenFieldsPaired | Backend/src/controllers/user.controller.ts:45-58 | login keeps every row's token and expiry set together |
| UserController.TokenValidateKeepsTokenFieldsPaired | Backend/src/controllers/user.controller.ts:82-150 | every branch of the token check keeps every row's token and expiry set together |
| Jwt.IssuedClaims | Backend/src/controllers/user.controller.ts:48-52 | the signed payload is the user's id, role and e-mail, with an expiry one hour after issue |
| AuthMiddleware.BearerToken | Backend/src/middlewares/auth.middleware.ts:22 | the token taken from a "Bearer " header contains no space |
| AuthMiddleware.BearerTokenIsFirstWord | Backend/src/middlewares/auth.middleware.ts:18-22 | the token is exactly the first space-free word after the prefix, whatever follows it |
| AuthMiddleware.DoubleSpaceGivesEmptyToken | Backend/src/middlewares/auth.middleware.ts:22 | a doubled space after the scheme yields the empty token |
| AuthMiddleware.VerifyToken | Backend/src/middlewares/auth.middleware.ts:11-40 | 401 without a "Bearer " header; 403 when the credential does not verify; otherwise the request carries the credential's id and role |
| AuthMiddleware.RequireAdmin | Backend/src/middlewares/auth.middleware.ts:42-51 | passes exactly an attached user with role "admin"; otherwise 403 |
| AuthMiddleware.Gate | Backend/src/middlewares/auth.middleware.ts:11-51 | a route's chain admits exactly a verified credential, with the admin role when the route requires it; an authentication refusal passes through unchanged |
| AuthMiddleware.AuthenticationBeforeRole | Backend/src/middlewares/auth.middleware.ts:18-48 | on an admin route the 401 answers exactly a missing or non-Bearer header, and "Admin access only." answers exactly a verified non-admin |
| VacationRoutes.ListVacations | Backend/src/routes/vacation.routes.ts:9-43 | the listing is a permutation of the vacations, sorted by start date, each flagged followed exactly when the user's pair is in the follower table |
| VacationRoutes.NextVacationId | Backend/src/routes/vacation.routes.ts:55-63 | one past the largest stored id is larger than every id in use, so it is unused |
| VacationRoutes.AddVacation | Backend/src/routes/vacation.routes.ts:46-69 | 400 and no change, counter included, unless all six fields are truthy; otherwise 201 with an id at or above the auto-increment counter and above every stored id, exactly one row appended, and the counter moved past the new id |
| VacationRoutes.AddNeverReusesIssuedIds | Backend/src/routes/vacation.routes.ts:55-63 | an id below the counter, that is one handed out before, is never handed out again, even after its row was deleted |
| VacationRoutes.AddKeepsUniqueIds | Backend/src/routes/vacation.routes.ts:55-63 | an insert keeps the ids unique and the counter above every stored id |
| VacationRoutes.NewVacationHasNoFollowers | Backend/src/routes/vacation.routes.ts:55-63 | when every follower pair names an id handed out earlier, a new vacation has no follower pairs and is listed unfollowed for every user |
| VacationRoutes.UpdateVacation | Backend/src/routes/vacation.routes.ts:86-107 | 400 and no change unless all six fields are truthy; otherwise the rows with the id take the new fields, all other rows are unchanged, and an unknown id still succeeds |
| VacationRoutes.UpdateKeepsUniqueIds | Backend/src/routes/vacation.routes.ts:96-99 | an update changes no id, so the ids stay unique |
| VacationRoutes.DeleteVacation | Backend/src/routes/vacation.routes.ts:72-83 | the remaining rows keep their order; every row without the id keeps its multiplicity and every row with it is gone |
| VacationRoutes.DeleteKeepsOthers | Backend/src/routes/vacation.routes.ts:76 | a row remains exactly when it was stored and its id differs |
| VacationRoutes.DeleteKeepsUniqueIds | Backend/src/routes/vacation.routes.ts:76 | a delete keeps the ids unique |
| VacationRoutes.DeletedVacationNotListed | Backend/src/routes/vacation.routes.ts:9-43 | after a delete no listing row, for any user, carries the deleted id |
| VacationRoutes.Follow | Backend/src/routes/vacation.routes.ts:110-143 | 400 for a missing or zero user id or a path that parses to NaN or 0; 404 for an unknown vacation; otherwise the pair is added, idempotently |
| VacationRoutes.Unfollow | Backend/src/routes/vacation.routes.ts:146-166 | 400 for a missing or zero id; otherwise the pair is removed, with no existence check |
| VacationRoutes.FollowUnfollowLaws | Backend/src/routes/vacation.routes.ts:132-158 | following a new pair then unfollowing gives the follower table back; following again changes nothing |
| VacationRoutes.FollowTouchesOnePair | Backend/src/routes/vacation.routes.ts:132-158 | follow and unfollow change the membership of their own pair only |
| VacationRoutes.ListingAfterFollow | Backend/src/routes/vacation.routes.ts:14-25 | after a follow the listing flags exactly the followed vacation in addition; after an unfollow it clears exactly that flag; the order is unchanged |
| VacationRoutes.Distinct | Backend/src/routes/vacation.routes.ts:177 | the grouped destinations are each listed once and are exactly the destinations present |
| VacationRoutes.JoinedCountCountsPairs | Backend/src/routes/vacation.routes.ts:174-177 | with unique vacation ids, a destination's joined count is the number of follower pairs on its vacations |
| VacationRoutes.Stats | Backend/src/routes/vacation.routes.ts:170-186 | one row per distinct destination, with its joined follower count |
| VacationRoutes.FollowRaisesOneCount | Backend/src/routes/vacation.routes.ts:132-135 | a new follow raises the followed destination's count by one and no other count |
| ClientApi.RequestHeaders | Frontend/src/services/api.ts:12-27 | a non-empty stored token becomes `Authorization: Bearer <token>` and the other headers are kept; without one the headers are untouched |
| ClientApi.ClearSession | Frontend/src/services/api.ts:51-54 | removes exactly the four session keys and keeps every other entry |
| ClientApi.Call | Frontend/src/services/api.ts:30-64 | the caller sees the outcome unchanged; a 401 additionally clears the session and sends the page to /login; anything else leaves storage alone |
| ClientApi.CallKeepsSessionComplete | Frontend/src/services/api.ts:49-56 | the interceptor never leaves some session keys without the others |
| AuthContext.StoreSession | Frontend/src/lib/authContext.tsx:54-57 | the four keys hold the token, role, name and an id string that parses back to the id; other keys are kept |
| AuthContext.Login | Frontend/src/lib/authContext.tsx:46-69 | a success stores the session, marks the user signed in and orders no redirect; a failure is rethrown with the user state unchanged; a 401 also clears the session keys and orders the interceptor's reload at /login, any other failure keeps the storage and orders no redirect |
| AuthContext.FailedLoginChangesNothing | Frontend/src/lib/authContext.tsx:65-68 | a failed login that is not a 401 changes nothing, orders no redirect and rethrows |
| AuthContext.Logout | Frontend/src/lib/authContext.tsx:98-105 | exactly the four session keys go and the user is signed out |
| AuthContext.HandleSessionExpired | Frontend/src/lib/authContext.tsx:29-44 | a logout followed by navigation to /login |
| AuthContext.VerifyToken | Frontend/src/lib/authContext.tsx:107-146 | without a token no request is made and the user is signed out; resolves true exactly when a token is stored and the server answers valid with a user; an invalid answer or a 401 expires the session; any other error resolves false and changes nothing |
| AuthContext.TransitionsKeepSessionComplete | Frontend/src/lib/authContext.tsx:46-146 | login, logout and the token check leave the four session keys all present or all absent |
| AuthContext.RegisterAsWritten | Frontend/src/lib/authContext.tsx:71-96 | a reply without a user throws a TypeError after the token key was written |
| AuthContext.RegisterAsWrittenLeavesLoneToken | Frontend/src/lib/authContext.tsx:79-82 | on the reply the server's register handler sends, the stored state is a lone token "undefined", the session is incomplete and the call throws |
| AuthContext.Register | Frontend/src/lib/authContext.tsx:71-96 | corrected registration: a success never throws; a reply with a session stores it like a login, a reply without one stores nothing; a failure is rethrown, and a 401 clears the session and orders the reload at /login |
| AuthContext.RegisterKeepsSessionComplete | Frontend/src/lib/authContext.tsx:71-96 | the corrected registration keeps the four session keys together |
| ProtectedRoute.Guard | Frontend/src/routes/ProtectedRoute.tsx:9-22 | no token redirects to /login; a required role that differs from the stored one redirects to /; it renders exactly when a token is stored and the role requirement is met |
| ProtectedRoute.GuardReadsTwoKeys | Frontend/src/routes/ProtectedRoute.tsx:10-11 | the decision depends only on the stored token and role |
| ProtectedRoute.AdminRedirectedFromUserRoute | Frontend/src/routes/ProtectedRoute.tsx:17-19 | roles are compared for equality, so an admin is redirected away from a "user" route |
| EmailPattern.ShapeIffRegex | Frontend/src/pages/Login.tsx:45 | the unanchored pattern matches exactly when some `@` has a non-space before it, and some later `.` has only non-spaces between itself and the `@` and a non-space after it |
| EmailPattern.ContainsEmail | Frontend/src/pages/Register.tsx:54 | the decidable test agrees with the regular expression's meaning |
| EmailPattern.Examples | Frontend/src/pages/Login.tsx:45 | sample inputs the pattern accepts (including an address inside other text) and rejects (blank, a space before the `@`, no character between `@` and `.`) |
| LoginPage.ValidateForm | Frontend/src/pages/Login.tsx:40-54 | the first failing check's message in order (empty field, pattern, length below 4); no error exactly when the e-mail is non-empty and matches and the password has at least 4 UTF-16 code units |
| JsText.Utf16Length | Frontend/src/pages/Login.tsx:49 | `length` counts between one and two code units per character, and exactly one each when no character lies outside the Basic Multilingual Plane |
| LoginPage.TwoAstralCharactersAreLongEnough | Frontend/src/pages/Login.tsx:49 | two characters outside the Basic Multilingual Plane pass the length check |
| LoginPage.BlankEmailPassesFirstCheck | Frontend/src/pages/Login.tsx:41-47 | a blank e-mail is not trimmed, so the pattern check catches it |
| LoginPage.ErrorMessage | Frontend/src/pages/Login.tsx:72 | the server's non-empty message, else the fallback |
| LoginPage.HandleSubmit | Frontend/src/pages/Login.tsx:56-75 | an invalid form makes no call; otherwise `login` runs; an admin goes to /admin and anyone else to /vacations exactly on success; a failure shows the server's message or "Login failed." without in-app navigation; the page is reloaded at /login exactly after a 401 |
| LoginPage.SubmitLandsWhereGuardAgrees | Frontend/src/pages/Login.tsx:62-69 | after a successful login the route guard renders the admin panel for an admin and the vacations page for anyone; after a 401 it sends the reloaded page to /login as well |
| RegisterPage.ValidateForm | Frontend/src/pages/Register.tsx:49-67 | each message appears exactly when the checks before it pass and its own check fails (trimmed required fields, pattern, exact confirmation, length in UTF-16 code units); no error exactly when all pass |
| RegisterPage.EmptyPasswordIsTooShort | Frontend/src/pages/Register.tsx:50-64 | the password is not part of the required-fields check: with the names filled in and a matching, confirmed address, an empty password is reported as too short |
| RegisterPage.ConfirmationIsExact | Frontend/src/pages/Register.tsx:50-61 | the required-fields check trims but the confirmation is compared exactly, so an address confirmed with a trailing space is reported as not matching |
| RegisterPage.HandleChange | Frontend/src/pages/Register.tsx:42-47 | only the named field changes; editing either e-mail field clears the error |
| RegisterPage.Payload | Frontend/src/pages/Register.tsx:76-81 | the body carries the four fields as typed and drops the confirmation |
| RegisterPage.HandleSubmit | Frontend/src/pages/Register.tsx:69-87 | an invalid form sends nothing; a valid one sends the payload and goes to /login exactly on success, with the error cleared; a failure shows the server's non-empty message, else "Registration failed." |
| AuthModal.HandleSubmit | Frontend/src/components/AuthModal.tsx:23-35 | register mode with differing e-mails only sets the error; otherwise the matching store call is made; the dialog closes exactly when a call was made and did not throw |
| AuthModal.LoginIgnoresConfirmation | Frontend/src/components/AuthModal.tsx:25-26 | the login path does not depend on the confirmation field |
| AuthModal.HandleEmailChange | Frontend/src/components/AuthModal.tsx:37-40 | sets the e-mail, clears the error and changes nothing else |
| AuthModal.HandleConfirmEmailChange | Frontend/src/components/AuthModal.tsx:42-49 | sets the confirmation; the error is set exactly when it differs from the e-mail; nothing else changes |
| AuthModal.EmailEditClearsEvenOnMismatch | Frontend/src/components/AuthModal.tsx:37-40 | editing the e-mail clears the error even when the two fields still differ |
| Sorting.InsertBy | Frontend/src/pages/Vacations.tsx:76 | inserting into a sorted sequence gives a sorted permutation with one more element |
| Sorting.SortBy | Frontend/src/pages/Vacations.tsx:76 | the result is a permutation of the input, sorted ascending by the key |
| Sorting.SortDescBy | Frontend/src/pages/Vacations.tsx:79 | the result is a permutation of the input, sorted descending by the key |
| VacationsPage.Keep | Frontend/src/pages/Vacations.tsx:63 | the kept rows are an order-preserving subsequence that satisfies the test, and each row keeps its multiplicity exactly when it passes |
| VacationsPage.ApplyFilter | Frontend/src/pages/Vacations.tsx:59-71 | "followed" keeps exactly the followed rows, "upcoming" exactly those starting after today, anything else all rows; order is kept |
| VacationsPage.ApplySort | Frontend/src/pages/Vacations.tsx:74-83 | the rows are permuted, sorted by price ascending or descending on request, and otherwise unchanged |
| VacationsPage.Refresh | Frontend/src/pages/Vacations.tsx:58-87 | the display holds each selected row exactly as often as it was fetched and no other row, ascending or descending by price under a price sort and in fetched order otherwise; the page returns to 1 |
| VacationsPage.SetFilter | Frontend/src/pages/Vacations.tsx:89-91 | a new filter keeps the rows and the sort, the display is what the new filter and the sort select, and the page returns to 1 |
| VacationsPage.SetSort | Frontend/src/pages/Vacations.tsx:93-95 | a new sort keeps the rows and the filter, the display is what the filter and the new sort select, and the page returns to 1 |
| VacationsPage.Load | Frontend/src/pages/Vacations.tsx:47-56 | a successful fetch replaces the rows, keeps filter and sort, displays what they select from the new rows and returns to page 1; a failed one changes nothing |
| VacationsPage.ChangePage | Frontend/src/pages/Vacations.tsx:116-118 | only the page number changes: rows, display, filter and sort are kept |
| VacationsPage.PageItems | Frontend/src/pages/Vacations.tsx:129-131 | a page holds at most ten rows, and a page past the end is empty |
| VacationsPage.TotalPages | Frontend/src/pages/Vacations.tsx:132 | the fewest pages of ten that hold all rows; zero exactly when there are none |
| VacationsPage.PagesUpToPrefix | Frontend/src/pages/Vacations.tsx:129-131 | the first k pages laid end to end are the first 10k rows |
| VacationsPage.PagesPartition | Frontend/src/pages/Vacations.tsx:129-132 | pages 1 to the total give back every row exactly once, in order |
| VacationsPage.RowOnItsPage | Frontend/src/pages/Vacations.tsx:129-132 | row i appears on page i/10 + 1 at position i mod 10, within the page count |
| VacationsPage.FindIndex | Frontend/src/pages/Vacations.tsx:99 | finds the first row with the id, or none exactly when no row has it |
| VacationsPage.FlipFollowed | Frontend/src/pages/Vacations.tsx:108-110 | flips the flag exactly on the rows with the id |
| VacationsPage.HandleFollow | Frontend/src/pages/Vacations.tsx:97-114 | an unknown id sends nothing; a followed vacation gets DELETE and any other POST; only a success flips the flag of exactly the rows with that id and keeps their vacations |
| VacationsPage.FollowTwiceRestores | Frontend/src/pages/Vacations.tsx:97-114 | two successful toggles send opposite requests and give back the original rows |
| VacationsPage.ToggleFollow | Frontend/src/pages/Vacations.tsx:97-114 | a successful toggle replaces the rows, keeps filter and sort, displays what they select from the new rows and returns the view to page 1; otherwise nothing changes |
| AdminPanel.ImageUrl | Frontend/src/pages/AdminPanel.tsx:177-181 | no name gives no URL, an `http` name is kept, any other name is served from the images folder |
| AdminPanel.ImageUrlIdempotent | Frontend/src/pages/Vacations.tsx:120-124 | every produced URL is empty or absolute, so applying the helper again changes nothing |
| AdminPanel.Truncate | Frontend/src/pages/AdminPanel.tsx:183-184 | a string that fits is returned whole; a longer one is cut to n characters ending in an ellipsis |
| AdminPanel.TruncateIdempotent | Frontend/src/pages/Vacations.tsx:126-127 | with a positive limit the result fits the limit, so truncating again changes nothing |
| AdminPanel.TruncateZeroKeepsLength | Frontend/src/pages/AdminPanel.tsx:183-184 | a zero limit slices to -1, so the result keeps the input's length and ends in the ellipsis |
| AdminPanel.HandleChange | Frontend/src/pages/AdminPanel.tsx:101-103 | the named field takes the typed text and every other field is unchanged |
| AdminPanel.ChangesCommute | Frontend/src/pages/AdminPanel.tsx:101-103 | edits of different fields commute; of two edits of one field the later wins |
| AdminPanel.HandleEdit | Frontend/src/pages/AdminPanel.tsx:137-147 | enters edit mode for the vacation with all six of its fields in the form; rows, dialog and preview untouched |
| AdminPanel.HandleCancel | Frontend/src/pages/AdminPanel.tsx:149-160 | leaves edit mode with an empty form (price 0) and no preview; rows and dialog untouched |
| AdminPanel.EditThenCancel | Frontend/src/pages/AdminPanel.tsx:137-160 | editing then cancelling is the same as cancelling, whatever was edited |
| AdminPanel.Refetch | Frontend/src/pages/AdminPanel.tsx:88-95 | a successful fetch replaces the rows; a failed one keeps them |
| AdminPanel.AddFailureMessage | Frontend/src/pages/AdminPanel.tsx:120 | the server's non-empty message, else "Failed to add vacation." |
| AdminPanel.HandleAdd | Frontend/src/pages/AdminPanel.tsx:105-122 | a successful post refetches, closes the dialog and resets form and preview; a failed post only alerts |
| AdminPanel.HandleUpdate | Frontend/src/pages/AdminPanel.tsx:162-171 | a successful put leaves edit mode and refetches, keeping the form; a failure alerts and changes nothing |
| AdminPanel.HandleDelete | Frontend/src/pages/AdminPanel.tsx:124-135 | a request is sent exactly when the user confirms; success refetches, failure alerts |
| AdminPanel.OnDrop | Frontend/src/pages/AdminPanel.tsx:65-78 | the first dropped file names the image and gets a preview, and nothing else changes; no file changes nothing |
| CsvExport.Line | Frontend/src/pages/Dashboard.tsx:72-75 | a line is the destination between quotes, a comma, and a decimal count that reads back as the count |
| CsvExport.Csv | Frontend/src/pages/Dashboard.tsx:69-76 | the first newline-separated line of the export is the header, and at least one line per row follows; `LineCount` and `CsvRoundTrip` state exactly when it reads back |
| CsvExport.Lines | Frontend/src/pages/Dashboard.tsx:72-75 | one line per row, in order |
| CsvExport.ParseLine | Frontend/src/pages/Dashboard.tsx:73 | a destination read back from a line has no quote and only characters of the line |
| CsvExport.ParseLines | Frontend/src/pages/Dashboard.tsx:72-76 | reads every line or names one that fails |
| CsvExport.ParseCsv | Frontend/src/pages/Dashboard.tsx:69-76 | every row read back has a destination without quote or newline |
| CsvExport.ParseLineOfLine | Frontend/src/pages/Dashboard.tsx:72-75 | a row's line reads back as the row exactly when its destination has no quote |
| CsvExport.LineNewline | Frontend/src/pages/Dashboard.tsx:72-75 | a line contains a newline exactly when its destination does |
| CsvExport.PiecesNewlines | Frontend/src/pages/Dashboard.tsx:69-76 | the header has no newline and each row line has one exactly when its destination does |
| CsvExport.LineCount | Frontend/src/pages/Dashboard.tsx:70-76 | the export has at least one line more than there are rows, and exactly one more when no destination contains a newline |
| CsvExport.CsvRoundTrip | Frontend/src/pages/Dashboard.tsx:67-76 | reading the export gives back exactly the rows exactly when no destination contains a quote or a newline |
| CsvExport.ParseLinesOfLines | Frontend/src/pages/Dashboard.tsx:72-75 | lines that each read back give back the rows |
| Dashboards.Sum | Frontend/src/pages/Dashboard.tsx:37 | the total is at least every row's count, and zero exactly when every count is zero |
| Dashboards.Summarize | Frontend/src/pages/Dashboard.tsx:36-42 | one vacation per stats row, the fixed 42 users, and the sum of the counts as total, zero exactly when every count is |
| Dashboards.SumAppend | Frontend/src/pages/Dashboard.tsx:37 | the total of two runs of rows is the sum of their totals |
| Dashboards.SumPermutation | Frontend/src/pages/Dashboard.tsx:37 | reordering the rows does not change the total |
| Dashboards.SumBounds | Frontend/src/components/AdminDashboard.tsx:127 | counts between two bounds give a total between the row count times each bound |
| Dashboards.ChartData | Frontend/src/pages/Dashboard.tsx:44-49 | the chart rows are a permutation of the stats sorted by decreasing count |
| Dashboards.ChartAgreesWithSummary | Frontend/src/pages/Dashboard.tsx:35-49 | the chart has as many rows and the same total as the summary, and the user figure is the fixed 42 |
| Dashboards.DashboardCsv | Frontend/src/pages/Dashboard.tsx:67-76 | the dashboard export starts with the header line and has at least one line per stats row after it |
| Dashboards.DashboardCsvRoundTrip | Frontend/src/pages/Dashboard.tsx:67-76 | the dashboard export reads back as the chart rows exactly when no destination contains a quote or a newline |
| Dashboards.StatIndex | Frontend/src/components/AdminDashboard.tsx:39 | finds the first stats row for the destination, or none exactly when there is none |
| Dashboards.CountFor | Frontend/src/components/AdminDashboard.tsx:39-43 | the count of the first stats row with the destination, or 0 when none has it |
| Dashboards.Combine | Frontend/src/components/AdminDashboard.tsx:38-44 | one row per listed vacation in order, with the count of the first stats row for its destination, or 0 |
| Dashboards.AdminData | Frontend/src/components/AdminDashboard.tsx:38-46 | the admin chart is a permutation of the combined rows sorted by decreasing count, one per vacation |
| Dashboards.AdminCsv | Frontend/src/components/AdminDashboard.tsx:71-80 | the admin export starts with the header line and has at least one line per listed vacation after it |
| Dashboards.RoundedAverage | Frontend/src/components/AdminDashboard.tsx:128 | the nearest integer to total/n with halves rounded up, or 0 with no rows |
| Dashboards.ComputeMetrics | Frontend/src/components/AdminDashboard.tsx:127-130 | the total is the sum of the counts, the average is its rounded mean over the rows, and most and least are the first and last row's counts, all 0 with no rows |
| Dashboards.MetricsOfSorted | Frontend/src/components/AdminDashboard.tsx:127-130 | over the sorted chart, "least" and "most" bound every count and the average lies between them |
| Dashboards.MulMonotone | Frontend/src/components/AdminDashboard.tsx:128 | multiplying by a natural number keeps the order |
| Dashboards.RoundingKeepsLowerBound | Frontend/src/components/AdminDashboard.tsx:128 | the rounded average reaches a lower bound of the mean |
| Dashboards.RoundingKeepsUpperBound | Frontend/src/components/AdminDashboard.tsx:128 | the rounded average does not pass an upper bound of the mean |
| Dashboards.AverageBetween | Frontend/src/components/AdminDashboard.tsx:128 | a rounded average of a total between n·lo and n·hi lies between lo and hi |
| Dashboards.SumAtLeastOne | Frontend/src/components/AdminDashboard.tsx:127 | the total is at least any one row's count |
| Dashboards.SumAtLeastTwo | Frontend/src/components/AdminDashboard.tsx:127 | the total is at least the sum of any two rows' counts |
| Dashboards.SharedDestinationCountedTwice | Frontend/src/components/AdminDashboard.tsx:38-46 | two vacations sharing a destination both show its whole count, so the admin total counts it at least twice |
| Dashboards.TwoParisStats | Backend/src/routes/vacation.routes.ts:173-178 | two vacations to one destination with one follower give one stats row with count 1 |
| Dashboards.SharedDestinationExample | Frontend/src/components/AdminDashboard.tsx:38-46 | on that data the admin total is 2 while the follower table holds one pair |
| SessionScenarios.FindUniqueId | Backend/src/controllers/user.controller.ts:106-111 | with unique ids the lookup by id returns the row holding the id |
| SessionScenarios.SessionWriteKeepsIds | Backend/src/models/user.model.ts:54-59 | a session write keeps ids unique |
| SessionScenarios.HeaderCarriesToken | Frontend/src/services/api.ts:17 | the header the client builds carries the token both to the gate and to the token check |
| SessionScenarios.InterceptorHeaderPassesGate | Backend/src/middlewares/auth.middleware.ts:11-40 | the client's header for a stored credential passes the gate while the credential is valid |
| SessionScenarios.LoginThenValidateWithinWindow | Backend/src/controllers/user.controller.ts:31-164 | a token check within a minute of login succeeds for the same user and pushes the stored expiry to a minute after the check |
| SessionScenarios.StoreSessionLapsesBeforeCredential | Backend/src/controllers/user.controller.ts:121-136 | between one minute and one hour after login the token check refuses and clears the session while the gate still admits the same header |
| SessionScenarios.CredentialExpiryEndsEverything | Backend/src/middlewares/auth.middleware.ts:24-39 | once the credential's hour is over, the token check answers 401 and the gate 403 |

## Left out

- Database connections, connection errors and the 500 replies of every
  handler. The model keeps only `writeFails`, for the writes whose failure
  the code swallows or rethrows as its own error: the register insert, the
  login session write and the token check's cleanup and refresh.
- bcrypt and jsonwebtoken internals. They are function parameters, and
  `Jwt.Sound` states what the scenario lemmas assume of the credential
  library.
- Date parsing and `Date` arithmetic. Times are integer seconds; vacation
  dates are integers, and an empty date string is a missing field.
- `Math.round` on floating point. `Dashboards.RoundedAverage` is the same
  rounding on exact integers.
- `followerCount || 0`. Counts are natural numbers, which that expression
  leaves unchanged.
- The `GET /vacations/:id/stats` route, the analytics routes, XLSX export,
  the Blob/download step of the CSV export, toasts, timers and rendering.
  None of them is part of this model.
- VacationRoutes.DeleteVacation: the path segment is passed to SQL as a
  string. The model takes the integer id it denotes.
- VacationRoutes.UpdateVacation: the path segment is passed to SQL as a
  string, as for delete. The model takes the integer id it denotes.
- VacationRoutes.AddVacation: the body's price is taken to be an integer
  JSON number. A string price such as "0" is truthy in JavaScript and
  passes the 400 check, and a decimal price is stored by the database
  column; neither is modelled.
- VacationRoutes.UpdateVacation: the same integer price is assumed as for
  add.
- VacationRoutes.DeleteVacation: the follower table's schema is not part
  of this model, so the pairs of a deleted vacation stay in the ledger. The
  listing and the statistics iterate over the stored vacations, so such
  pairs are never shown or counted, and no later vacation can take their
  id because the counter never goes back.
- UserModel.FindUserByEmail: MySQL's default collation compares e-mails
  without regard to case or trailing spaces. The model compares strings
  exactly.
- VacationRoutes.Distinct: `GROUP BY destination` under the default
  collation merges destinations that differ only in case or trailing
  spaces. The model groups exactly equal strings.
- VacationRoutes.Stats: it groups destinations exactly, as `Distinct` does.
- AdminPanel.Truncate: JavaScript's `length` and `slice` count UTF-16 code
  units, and a cut can split a surrogate pair. The model counts characters.
  The validators' length checks do count code units (`JsText.Utf16Length`).
- The page handlers of the register page, the vacations page and the admin
  panel receive the outcome after the response interceptor. On a 401 the
  interceptor also clears the session keys and reloads the page at /login;
  those handlers do not carry the storage, so that effect is modelled once,
  in `ClientApi.Call` and the session store's transitions.
- VacationRoutes.ListVacations: SQL leaves the order of equal start dates
  open. The contract constrains only the order by start date.
- AdminPanel.HandleChange: the form accepts any input name. The model has
  the six named fields only.
- VacationsPage.Upcoming: `new Date(start_date) > today` is compared on
  the integer date scale, with `today` a parameter.
- The AdminPanel's dialog opening and its navigation to details, the
  Vacations page's image and truncate helpers (identical to the AdminPanel
  ones, modelled once) and the `useEffect` timers of the session store.
- AuthContext.Register: the server's register reply carries no session,
  so this corrected version stores nothing and resolves. The finding below
  describes the code as written.

## Findings

| source | as written | input that shows it | evidently intended | confidence | as-written member | corrected member |
|---|---|---|---|---|---|---|
| Frontend/src/lib/authContext.tsx:79-84 | `register` reads `{token, user}` from the reply, but the server's register handler (Backend/src/controllers/user.controller.ts:24) sends only `{message}`. `setItem('token', undefined)` stores the string "undefined", then `user.role` throws a TypeError, so the dialog's `onClose` never runs after a successful registration | a successful registration whose 201 body is `{message: "User registered successfully."}` | resolve without storing a session (the user then logs in), or store the session only when the reply carries one | not executed | AuthContext.RegisterAsWritten, AuthContext.RegisterAsWrittenLeavesLoneToken | AuthContext.Register, AuthContext.RegisterKeepsSessionComplete |
