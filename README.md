# Elevator Tracker server core in Dafny

A model of the server side of Elevator Tracker. Passengers report elevator problems (by scanning a QR code) through a public intake endpoint. Admins sign in with magic links sent by email, invite further admins, create elevators and see each elevator's report count.

The database is modelled as the class `Db.Store`. It holds the four tables (admins, magic links, elevators, reports) as sequences of records. A shared counter `nextId` stands for `gen_random_uuid()`. `Schema.Consistent` collects the constraints the schema declares:
- column widths;
- UNIQUE emails and tokens;
- REFERENCES between tables;
- unique primary keys.

It also holds one rule that the schema does not enforce but the routes keep: every admin email is stored lower-cased, because signup (src/app/api/auth/signup/route.ts:13-15) and invite (src/app/api/admin/invite/route.ts:15-19) lower the address before they look it up or insert it.

Each route is a module with two parts:
- A pure function that gives the response and the tables afterwards (`ReportRoute.Submit`, `VerifyRoute.Verify`, `SignupRoute.Signup`, `InviteRoute.Invite`, `ElevatorsRoute.Create`, `ElevatorsRoute.Listing`). The properties are proved as lemmas about these functions.
- A method on the store (`Post` / `Get`) that carries out the handler step by step. Its contract says its result and new store are exactly those the function gives, that it keeps `Valid()`, and that it leaves the other tables alone.

Inputs the handlers cannot compute are parameters:
- time is `now`, in whole seconds; SQL `NOW()` and `Date.now()` are the same value;
- the caller is `getAdmin`'s result;
- the JWT library's verdict is a function `string -> JwtCheck`;
- `Math.random` values come as `draws`;
- what the mail API did comes as `Delivery`.

Modules:
- `Common`: Option, ids, timestamps.
- `Strings`: JavaScript truthiness and `x || null`, ASCII `toLowerCase`, `trim` with the exact JavaScript whitespace set, `split(',')[0]`.
- `Schema`: records, column widths, constraints.
- `Db`: the store.
- `Auth`: `verifyToken`, `getAdmin`, `generateToken`.
- `Accounts`: the email check, find-or-create of an admin, and the magic-link insert, which signup and invite share.
- `ReportRoute`, `VerifyRoute`, `SignupRoute`, `InviteRoute`, `ElevatorsRoute`: one per route file.

## Model

| member | source | states |
|---|---|---|
| Strings.LowerChar | src/app/api/auth/signup/route.ts:13 | the result is never an upper-case ASCII letter; other characters are unchanged; upper-case letters move by 32 code points to a-z |
| Strings.Lower | src/app/api/auth/signup/route.ts:13 | same length, and each character is lowered on its own |
| Strings.LowerNormalizes | src/app/api/auth/signup/route.ts:13 | lowering gives a lower-case string, is idempotent, and leaves lower-case strings unchanged |
| Strings.LowerEqualIff | src/app/api/auth/signup/route.ts:13-15 | two emails lower to the same string if and only if they differ only in letter case |
| Strings.LowerKeepsAt | src/app/api/auth/signup/route.ts:8 | the lowered email contains '@' if and only if the original does |
| Strings.SkipWhitespace | src/app/api/report/route.ts:27 | the scan stops at the first non-whitespace character, and everything it passes is whitespace |
| Strings.SkipWhitespaceBack | src/app/api/report/route.ts:27 | the backward scan stops just past the last non-whitespace character, and everything it passes is whitespace |
| Strings.Trim | src/app/api/report/route.ts:27 | the result is the piece of the input between a whitespace prefix and a whitespace suffix; it neither starts nor ends with whitespace; it is empty if and only if the input is all whitespace |
| Strings.FirstField | src/app/api/report/route.ts:27 | the longest comma-free prefix, ending at the end of the input or at a comma |
| Schema.AddAdminKeepsConsistent | src/app/api/init/route.ts:6-13 | appending an admin with a fresh id, a new lower-cased email of at most 255 characters and an existing inviter keeps every constraint |
| Schema.AddLinkKeepsConsistent | src/app/api/init/route.ts:14-23 | appending a link with a fresh id and a new token of at most 64 characters, for an existing admin, keeps every constraint |
| Schema.AddElevatorKeepsConsistent | src/app/api/init/route.ts:24-32 | appending an elevator whose name and location fit their columns, with an existing owner, keeps every constraint |
| Schema.AddReportKeepsConsistent | src/app/api/init/route.ts:33-42 | appending a report whose values fit their columns, for an existing elevator, keeps every constraint |
| Db.Store.constructor | src/app/api/init/route.ts:6-42 | a new database has four empty tables that meet the schema's constraints |
| Auth.VerifyToken | src/lib/auth.ts:16-22 | the payload exactly when the library verifies the token; None instead of an exception otherwise |
| Auth.GetAdmin | src/lib/auth.ts:24-29 | no caller without a non-empty token cookie; otherwise some caller exactly when the cookie verifies, and that caller is the cookie's payload |
| Auth.DrawIndex | src/lib/auth.ts:35 | a random number in [0,1) selects an index in [0,36) |
| Auth.TokenOf | src/lib/auth.ts:31-38 | the token has 64 characters, all from the alphabet |
| Auth.AlphabetLayout | src/lib/auth.ts:32 | the alphabet is the 26 lower-case letters in order, followed by the 10 digits in order |
| Auth.AlphabetIsLowerAlnum | src/lib/auth.ts:32 | the alphabet has 36 characters and contains exactly a-z and 0-9 |
| Auth.GenerateToken | src/lib/auth.ts:31-38 | the loop builds 64 characters; character i is the one draw i selects; the result equals TokenOf |
| Accounts.FindByEmail | src/app/api/auth/signup/route.ts:13 | returns a position holding that email, or None exactly when no admin has it |
| Accounts.FindById | src/app/api/auth/verify/route.ts:14 | returns a position holding that id, or None exactly when no admin has it |
| Accounts.ValidEmail | src/app/api/auth/signup/route.ts:8 | a valid email is present and non-empty, and its lower-cased form, which is what gets stored, is non-empty and still contains '@' |
| Accounts.FindOrCreate | src/app/api/admin/invite/route.ts:15-21 | an existing admin is reused and the table is unchanged; otherwise exactly one admin with the email and invited_by is appended; no id exactly when the insert is refused; the id found names a row with that email |
| Accounts.FindOrCreatePreservesConsistency | src/app/api/init/route.ts:9 | find-or-create of a lower-cased email keeps one admin per email and all constraints; earlier rows are unchanged |
| Accounts.FindOrCreateAdmin | src/app/api/auth/signup/route.ts:13-18 | the SELECT and the conditional INSERT on the store: they do exactly what FindOrCreate says, any id returned names an admin, the constraints are kept, and the other tables are unchanged |
| Accounts.IssueLink | src/app/api/auth/signup/route.ts:22-25 | the insert succeeds if and only if the token is new and fits VARCHAR(64); on success exactly one unused link is appended, and on failure nothing changes |
| Accounts.InsertLink | src/app/api/auth/signup/route.ts:22-25 | the INSERT on the store does exactly what IssueLink says, keeps the constraints, and leaves the other tables unchanged |
| Accounts.IssueLinkPreservesConsistency | src/app/api/init/route.ts:14-23 | issuing a link for an existing admin keeps every constraint, token uniqueness included |
| Accounts.IssueLinkKeepsConsumed | src/app/api/init/route.ts:18 | issuing a new link never makes a consumed token usable again |
| ReportRoute.ClientIp | src/app/api/report/route.ts:27-29 | never empty; the trimmed first x-forwarded-for field when that is non-empty, and otherwise x-real-ip when truthy, and otherwise "unknown" |
| ReportRoute.RecentFromAddress | src/app/api/report/route.ts:43-46 | the per-address count of the trailing hour is at most the number of reports |
| ReportRoute.RecentFromDevice | src/app/api/report/route.ts:33-36 | the per-(elevator, device) count of the trailing hour is at most the number of reports |
| ReportRoute.RecentFromDevicePositive | src/app/api/report/route.ts:37 | the device query has rows if and only if some report has that elevator and device and is strictly newer than now - 1 h |
| ReportRoute.RecentFromAddressAppend | src/app/api/report/route.ts:44 | appending a report raises the address count by one exactly when that report matches |
| ReportRoute.RecentFromDeviceAppend | src/app/api/report/route.ts:34 | appending a report raises the device count by one exactly when that report matches |
| ReportRoute.RecentFromAddressAntitone | src/app/api/report/route.ts:44 | as the clock advances, the address window count never grows |
| ReportRoute.RecentFromDeviceAntitone | src/app/api/report/route.ts:34 | as the clock advances, the device window count never grows |
| ReportRoute.WellFormed | src/app/api/report/route.ts:16-18 | a well-formed request has an elevator id and a non-empty issue type, and every accepted issue type fits the VARCHAR(50) column |
| Strings.OrNull | src/app/api/report/route.ts:53 | a falsy value becomes NULL and any other value is kept as it is; the report INSERT stores device_hash this way, and the elevator INSERT stores location the same way (src/app/api/elevators/route.ts:24) |
| ReportRoute.Decide | src/app/api/report/route.ts:12-49 | each outcome holds if and only if its gate is the first to fire: honeypot gives the fake success; then 400 for a request that is not well-formed; then 500 for a non-UUID elevator id; then 404 for an unknown elevator; then 429 on a device cooldown or when the address has 5 or more recent reports; then 500 if the row does not fit its columns; accepted otherwise |
| ReportRoute.SuppressedLooksAccepted | src/app/api/report/route.ts:13 | a bot caught by the honeypot gets the same status and ok body as an accepted report |
| ReportRoute.Submit | src/app/api/report/route.ts:51-56 | on acceptance, exactly one row (elevator, issue, device_hash or null, ip, now) is appended; any other outcome changes nothing |
| ReportRoute.SubmitPreservesConsistency | src/app/api/init/route.ts:33-42 | an accepted report keeps every table constraint |
| ReportRoute.SubmitAddressStep | src/app/api/report/route.ts:47-49 | one submission never lifts an address's window count above max(5, its previous value) |
| ReportRoute.AddressLimitHolds | src/app/api/report/route.ts:43-49 | after any run of submissions in time order, one address has at most max(5, initial count) reports in the last hour |
| ReportRoute.SubmitDeviceStep | src/app/api/report/route.ts:32-39 | one submission never lifts a device's count on an elevator above max(1, its previous value) |
| ReportRoute.DeviceLimitHolds | src/app/api/report/route.ts:32-39 | after any run of submissions in time order, a device has at most max(1, initial count) reports per elevator in the last hour |
| ReportRoute.RepeatWithinHourCoolsDown | src/app/api/report/route.ts:32-39 | a second report from the same device on the same elevator within the hour gets 429 |
| ReportRoute.RepeatAfterHourAccepted | src/app/api/report/route.ts:32-49 | after the hour has passed, that second report is accepted if the address is under its limit |
| ReportRoute.Post | src/app/api/report/route.ts:6-61 | the handler's outcome and reports table equal Submit's; the other tables are unchanged; constraints are kept |
| VerifyRoute.FindUsable | src/app/api/auth/verify/route.ts:13-16 | finds a link with the token, unexpired (expires_at > now), unused and joined to an admin; None exactly when no such link exists |
| VerifyRoute.MarkUsed | src/app/api/auth/verify/route.ts:25 | used_at := now on every row with the token; every other row unchanged |
| VerifyRoute.Session | src/app/api/auth/verify/route.ts:22-37 | the session payload names the link's admin with the email the join returned for that admin; the cookie lasts 30 days, is httpOnly, lax and on path "/", and is secure only in production |
| VerifyRoute.Verify | src/app/api/auth/verify/route.ts:7-39 | error=invalid if and only if there is no token; a token with no usable link redirects to error=expired; signed in if and only if a usable link exists; the redirect target is /admin/login?error=invalid, /admin/login?error=expired or /admin accordingly; failure changes no link; success marks the token used and issues an httpOnly, lax, path "/" cookie for 30 days, with secure only in production, naming the link's admin |
| VerifyRoute.VerifyConsumes | src/app/api/auth/verify/route.ts:25 | after a sign-in the token is consumed |
| VerifyRoute.ConsumedIsRefused | src/app/api/auth/verify/route.ts:14-20 | a consumed token never signs in; when it is non-empty it redirects to error=expired; links unchanged |
| VerifyRoute.SingleUse | src/app/api/auth/verify/route.ts:14-25 | a second verify of a token that succeeded fails at any later time |
| VerifyRoute.FreshLinkUsableUntilExpiry | src/app/api/auth/verify/route.ts:14 | a newly issued link signs in at time t if and only if t < expires_at |
| VerifyRoute.SessionOfLinkOwner | src/app/api/auth/verify/route.ts:22-28 | the session payload is the id and email of the admin who owns the token's link |
| VerifyRoute.VerifyPreservesConsistency | src/app/api/auth/verify/route.ts:25 | marking links used keeps every constraint, and every token already consumed stays consumed whatever token is verified |
| VerifyRoute.MarkUsedKeepsConsumed | src/app/api/auth/verify/route.ts:25 | the UPDATE only stamps used_at, so a token all of whose rows are used keeps them used |
| VerifyRoute.MarkUsedKeepsLinksOk | src/app/api/auth/verify/route.ts:25 | stamping used_at changes no id, token or admin_id, so the links table keeps its constraints |
| VerifyRoute.Get | src/app/api/auth/verify/route.ts:5-44 | the handler's response and links table equal Verify's; other tables and the id counter are unchanged |
| SignupRoute.AfterSend | src/app/api/auth/signup/route.ts:74-80 | once the rows are written the response is never a 400; it is ok if and only if the mail was delivered, and a 500 otherwise |
| SignupRoute.Signup | src/app/api/auth/signup/route.ts:7-80 | 400 if and only if the email is missing or lacks '@', with nothing written; otherwise at most one admin with the lower-cased email is appended and at most one link; a new email whose insert the schema allows is appended as an uninvited admin, and one it refuses writes nothing and answers 500; when an admin is available and the token is new and fits, exactly one link is written and the response follows the mail API's answer, and otherwise nothing is linked and the response is 500; ok if and only if a link was written and the mail was delivered; 'Failed to send email' if and only if a link was written and the mail API refused; an ok or a send failure has written exactly one unused link, expiring now + 15 min, for the admin with that email |
| SignupRoute.SignupIgnoresCase | src/app/api/auth/signup/route.ts:13-15 | emails differing only in case give identical responses and tables |
| SignupRoute.SignupWritesBeforeSending | src/app/api/auth/signup/route.ts:22-78 | the rows written do not depend on the mail API's answer, so a failed send keeps them |
| SignupRoute.SignupPreservesConsistency | src/app/api/auth/signup/route.ts:13-25 | constraints kept (one admin per email, unique tokens); consumed tokens stay consumed |
| SignupRoute.Post | src/app/api/auth/signup/route.ts:5-85 | the handler, with the token GenerateToken draws, gives exactly what Signup gives for the generated token; elevators and reports unchanged |
| InviteRoute.Invite | src/app/api/admin/invite/route.ts:5-50 | 401 if and only if no caller; 400 if and only if the email check fails; neither writes anything; a new admin gets invited_by = the caller only if no admin has the email, and one is appended whenever the schema allows the insert, while a refused insert writes nothing and answers 500; when an admin is available and the token is new and fits, exactly one link is written, and otherwise nothing is linked and the response is 500; one unused link expiring now + 24 h for that admin; ok if and only if a link was added and the mail fetch did not throw |
| InviteRoute.InviteKeepsExistingAdmins | src/app/api/admin/invite/route.ts:15-21 | every existing admin row, invited_by included, stays as it was |
| InviteRoute.InviteOfExistingAdmin | src/app/api/admin/invite/route.ts:15-16 | inviting an existing email leaves the admins table unchanged |
| InviteRoute.InvitePreservesConsistency | src/app/api/admin/invite/route.ts:15-30 | constraints kept (invited_by refers to an admin, one admin per email); consumed tokens stay consumed |
| InviteRoute.Post | src/app/api/admin/invite/route.ts:5-50 | the handler gives exactly what Invite gives for the generated token; elevators and reports unchanged |
| ElevatorsRoute.ReportCount | src/app/api/elevators/route.ts:9 | an elevator's report_count is at most the number of reports |
| ElevatorsRoute.ReportCountAppend | src/app/api/elevators/route.ts:9 | appending a report raises its elevator's count by one and no other count |
| ElevatorsRoute.AcceptedReportIsCounted | src/app/api/elevators/route.ts:9 | an accepted report adds one to its own elevator's report_count; any other submission changes no count |
| ElevatorsRoute.InsertByNewest | src/app/api/elevators/route.ts:9 | inserting adds exactly the one element (as a multiset) and starts with it or with the old head |
| ElevatorsRoute.InsertKeepsNewestFirst | src/app/api/elevators/route.ts:9 | inserting into a newest-first sequence keeps it newest-first |
| ElevatorsRoute.SortByNewest | src/app/api/elevators/route.ts:9 | the sort is a permutation of the table |
| ElevatorsRoute.SortIsNewestFirst | src/app/api/elevators/route.ts:9 | the sort orders by created_at descending |
| ElevatorsRoute.Listing | src/app/api/elevators/route.ts:8-11 | one row per elevator, a permutation of the table, sorted by created_at descending; each row's report_count is its elevator's count |
| ElevatorsRoute.ListingShowsEveryElevator | src/app/api/elevators/route.ts:9-11 | every elevator appears in the listing, whoever owns it |
| ElevatorsRoute.Get | src/app/api/elevators/route.ts:5-13 | 401 with no caller; otherwise the Listing; the store is not modified |
| ElevatorsRoute.Create | src/app/api/elevators/route.ts:15-27 | 401 if and only if no caller; 400 if and only if the name is falsy; nothing written unless created; a created elevator is appended with owner = caller, location null when falsy, created_at = now; 500 if and only if the insert is refused |
| ElevatorsRoute.CreatedElevatorIsListed | src/app/api/elevators/route.ts:22-26 | a newly created elevator appears in the next listing with report_count 0 |
| ElevatorsRoute.NoReportsCountZero | src/app/api/elevators/route.ts:9 | an elevator that no report refers to counts 0 |
| ElevatorsRoute.CreatePreservesConsistency | src/app/api/elevators/route.ts:22-25 | creation keeps every constraint (owner exists, widths, unique ids) |
| ElevatorsRoute.Post | src/app/api/elevators/route.ts:15-27 | the handler's response and elevators table equal Create's; other tables unchanged |

## Left out

- The React pages and dashboard, the status route, the single-report, suspicious-flag, stats and QR routes: all of these are rendering or other routes, outside this core.
- Email delivery: the Resend `fetch` and the HTML bodies are network I/O. Only the result of the send (`Delivery`) is modelled.
- JWT signing and verification, and cookie parsing: these belong to a crypto library, so the verifier is a function parameter and the session is the payload plus the cookie attributes.
- The `pg` pool, SQL text, connection failures, and the `error=server` redirect of the verify route. Only the failures the schema forces (over-long values, dangling references, a non-UUID elevator id) are modelled. Report and signup catch them and answer 500. In invite and in the elevators POST the error is not caught, and the model answers 500 as the framework does.
- A body that is not JSON: `req.json()` throws. Report and signup catch this and answer 500; invite and the elevators POST leave it uncaught, which also ends in a 500. The model starts from the parsed fields, so this path is not modelled.
- Accounts.CanInsertAdmin: refuses every email longer than VARCHAR(255). PostgreSQL accepts an over-long value whose excess characters are all spaces and stores it truncated; the model answers 500 there instead.
- Accounts.IssueLink: refuses every token longer than VARCHAR(64), including one padded with spaces that PostgreSQL would truncate and store. Generated tokens always have exactly 64 characters, so the routes never reach this case.
- ReportRoute.FitsColumns: refuses a device_hash or an ip_address longer than its column even when the excess is all spaces, which PostgreSQL would truncate and store; the model answers 500 there instead.
- ReportRoute.SubmitDeviceStep: holds of the model only because an over-long device_hash is refused. In the source, a device_hash longer than 64 characters whose excess is spaces is stored cut to 64 characters, and a repeat of it matches no stored row under `=`, so each repeat adds another row for the cut key; the step's bound fails for such hashes.
- ReportRoute.DeviceLimitHolds: the one-report-per-device-per-elevator-per-hour bound is false of the source for a device_hash padded with spaces past 64 characters, for the reason in the line above; it holds for every device_hash that fits its column.
- ReportRoute.RepeatWithinHourCoolsDown: in the source, a repeat within the hour of an accepted device_hash padded with spaces past 64 characters is accepted again, not answered 429; the model never accepts the first such request, so the lemma says nothing about it.
- ElevatorsRoute.CanInsertElevator: refuses a name or location longer than its column even when the excess is all spaces, which PostgreSQL would truncate and store; the model answers 500 there instead.
- Concurrency: the gap between the rate-limit checks and the insert can let concurrent requests through. The model handles one request at a time.
- Ids are fresh natural numbers, not random UUIDs.
- Strings.Lower: lowers ASCII letters only; JavaScript's full Unicode `toLowerCase` is not modelled.
- Strings.LowerChar: leaves every character other than A-Z alone, whereas JavaScript's `toLowerCase` also lowers non-ASCII capitals such as "Ä".
- Auth.DrawIndex: uses exact reals; the floating-point rounding of `Math.random() * 36` is not modelled.
- ReportRoute.Decide: JSON fields are strings or absent, so a number or object sent as `issue_type`, `email` or `name` (which can throw or be coerced in JavaScript) is not modelled; `honeypot` is reduced to its truthiness.
- ElevatorsRoute.SortByNewest: SQL leaves the order of equal `created_at` values open. The model fixes one order, and only "newest first and a permutation" is claimed.
- ElevatorsRoute.Listing: `report_count` is returned by pg as a string; the model returns a number.
- The timezone of `TIMESTAMP` columns is not modelled; time is one integer clock.
