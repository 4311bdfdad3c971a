# Enquiry intake: a Dafny model of its decision rules

This project models the rule-bearing core of a small enquiry-intake web application. Visitors
submit enquiries (general questions, quotes, fleet enquiries, part exchanges) through a widget.
A creation endpoint validates and routes them. Administrators sign in and triage them on a
board behind an edge gatekeeper.

The modules follow the application's files:

- `Enquiries`: the mode/type/status/queue enumerations and their wire names, plus the two intent predicates (fleet, part exchange) that are shared everywhere.
- `Validation`: the submission schema. It covers enum membership, trimmed length bounds, the email/phone union, mileage coercion results, and the three cross-field rules. The result is a normalised enquiry or a sequence of (path, message) issues.
- `EnquiriesRoute`: creation-time routing (queue, priority, SLA deadline, trimmed-or-null fields, the part-exchange child, the page-URL fallback) and the listing's equality filters with newest-first order.
- `Auth`: role capability, session verification with the JWT library abstracted, cookie-header parsing (a loop, proved against its specification), the two-strategy password-hash retrieval (a step-by-step method), and ordered configuration validation.
- `Proxy`: the edge gatekeeper's public paths, public submission, token check and 401-or-redirect decision.
- `LoginRoute`, `EnvCheckRoute`, `Db`: administrator sign-in, configuration diagnostics, and the SQLite URL.
- `AdminBoard`: relative ages, the status tally (a loop), the local row update after a status change, and the listing's search parameters (a class).
- `EnquiryWidget`: the form as a class, with the intent chooser and the reset after submission.
- `Strings`, `ProcessEnv`, `Wrappers`: JavaScript string operations (`trim` over the full JavaScript whitespace set, ASCII `toLowerCase`, `split`/`join`, `replace`/`replaceAll`), the environment map, and Option/Result.

Effects are parameters:

- The clock is `now`.
- JWT signing and verification are the `Signer`/`Verifier` function types.
- bcrypt comparison is `PasswordCompare`.
- Base64 decoding is `Base64Decoder`, where `None` means the decoder throws.
- zod's email and URL syntax checks are `isEmail`/`isUrl`.
- The browser's URL, referrer and viewport are `Browser`.

## Model

| member | source | states |
|---|---|---|
| Enquiries.ModeFromName | src/lib/validation.ts:7-13 | a mode is recognised exactly when the string is the name of one of the five modes |
| Enquiries.TypeFromName | src/lib/validation.ts:15-20 | a type is recognised exactly when the string is the name of one of the four types |
| Enquiries.StatusFromName | src/app/admin/page.tsx:10 | a status is recognised exactly when the string names NEW, CONTACTED or CLOSED |
| Enquiries.QueueFromName | src/app/api/enquiries/route.ts:26 | a queue is recognised exactly when the string names GENERAL, FLEET or VALUATIONS |
| Enquiries.NamesRoundTrip | src/lib/validation.ts:7-20 | every enumeration value is read back from its own name, so the names are distinct |
| ProcessEnv.RawEnv | src/lib/auth.ts:89-91 | an unset variable reads as "" and a set one as its value |
| Validation.TrimmedOpt | src/lib/validation.ts:47 | an optional string is trimmed when present and stays absent otherwise |
| Validation.ParseMode | src/lib/validation.ts:27 | the mode parses exactly when it names a mode, and otherwise yields one type issue on "mode" |
| Validation.ParseType | src/lib/validation.ts:28 | the type parses exactly when it names a type, and otherwise yields one type issue on "type" |
| Validation.ParseRequiredText | src/lib/validation.ts:30-36 | a missing value is a type issue; a present one is trimmed and is clean exactly when its length is between 1 and the cap |
| Validation.ParseEmail | src/lib/validation.ts:33 | the value is the trimmed email or ""; it is clean exactly when it is absent, "", or a syntactically valid address after trimming |
| Validation.ParsePhone | src/lib/validation.ts:34 | the value is the trimmed phone or ""; it is clean exactly when it is absent, "", or 6 to 30 characters after trimming |
| Validation.ParsePageUrl | src/lib/validation.ts:39 | the page URL is kept as given and is clean exactly when it is absent or a valid URL |
| Validation.ParseMileage | src/lib/validation.ts:48 | NaN is a type issue; a present number is clean exactly when it is a positive integer |
| Validation.ParseOptionalText | src/lib/validation.ts:51-53 | an optional text is trimmed and is clean exactly when its trimmed length is within the cap |
| Validation.FieldLevelConcat | src/lib/validation.ts:26-54 | field-level issue lists stay free of cross-field messages when concatenated |
| Validation.DraftIsParsedValues | src/lib/validation.ts:26-54 | the draft record handed to the cross-field checks holds exactly the values the field parsers produce |
| Validation.WellTyped | src/lib/validation.ts:25-55 | defines when no field aborts the object parse: known mode and type, present name and message, no NaN mileage (used by ValidateAcceptsExactly and CrossFieldChecksSkippedWhenUntyped) |
| Validation.FieldIssues | src/lib/validation.ts:25-55 | defines the per-field issues in the schema's key order (their messages are never cross-field ones: FieldIssuesAreFieldLevel) |
| Validation.Draft | src/lib/validation.ts:25-55 | defines the object the field schemas hand to superRefine (shown equal to the parsers' outputs by DraftIsParsedValues) |
| Validation.FleetIssues | src/lib/validation.ts:59-70 | defines the fleet company-name check (characterised in FleetIssuesOfDraft) |
| Validation.ContactIssues | src/lib/validation.ts:72-79 | defines the contact check (characterised in ContactIssuesOf) |
| Validation.PartExIssues | src/lib/validation.ts:81-98 | defines the registration and mileage checks (characterised in PartExIssuesOfDraft) |
| Validation.CrossFieldIssues | src/lib/validation.ts:56-100 | defines superRefine's issues in the order it adds them (no issues exactly when the rules hold: CrossFieldIssuesEmpty) |
| Validation.Validate | src/lib/validation.ts:25-100 | a rejection always carries at least one issue |
| Validation.DraftReadsSubmission | src/lib/validation.ts:57-63 | the draft has an email or phone exactly when the submission provides a non-blank one; a blank company name survives into the draft |
| Validation.FieldIssuesEmpty | src/lib/validation.ts:26-54 | the field checks pass exactly when every field meets its constraint |
| Validation.CrossFieldIssuesEmpty | src/lib/validation.ts:56-99 | the cross-field checks pass exactly when the fleet, contact and part-exchange rules all hold |
| Validation.ValidateAcceptsExactly | src/lib/validation.ts:25-100 | a submission is accepted if and only if it meets every field and cross-field rule |
| Validation.AcceptedIsNormalised | src/lib/validation.ts:27-53 | an accepted enquiry carries the submitted enums, the trimmed texts, and the context fields unchanged |
| Validation.AcceptedIsGuaranteed | src/lib/validation.ts:30-98 | every accepted enquiry has a 1..100 name and a 1..2000 message, a contact method, a positive whole mileage when present, and the part-exchange and fleet details its intent needs |
| Validation.IssuesOfWellTyped | src/lib/validation.ts:25-100 | for a well-typed submission the issues are the field issues followed by the cross-field issues |
| Validation.FieldIssuesAreFieldLevel | src/lib/validation.ts:26-54 | no per-field check reports a cross-field message |
| Validation.CrossFieldIssueReported | src/lib/validation.ts:56-99 | a cross-field message is reported exactly when the cross-field checks produce it |
| Validation.UnknownModeRejected | src/lib/validation.ts:7-13 | a missing or unknown mode is rejected with Required or the invalid-enum issue on "mode", and the cross-field checks do not run |
| Validation.UnknownTypeRejected | src/lib/validation.ts:15-20 | a missing or unknown type is rejected with Required or the invalid-enum issue on "type", and the cross-field checks do not run |
| Validation.BlankNameOrMessageRejected | src/lib/validation.ts:30-36 | a name or message that is blank after trimming is rejected with its "is required" issue |
| Validation.CountMessageConcat | src/lib/validation.ts:56-99 | counting a message over two issue lists adds the two counts |
| Validation.CountMessageAbsent | src/lib/validation.ts:56-99 | a message that appears in no issue is counted zero times |
| Validation.ContactIssuesOf | src/lib/validation.ts:73-79 | for any parsed input the contact issue occurs once when neither email nor phone is non-empty, and otherwise not at all |
| Validation.ContactIssuesOfDraft | src/lib/validation.ts:57-79 | the contact issue is produced exactly once when neither email nor phone is non-blank, and otherwise never |
| Validation.ContactRule | src/lib/validation.ts:73-79 | the contact issue, on path "email", is reported if and only if no non-blank email or phone was given, and at most once |
| Validation.EmptyEmailAndPhoneBounds | src/lib/validation.ts:33-34 | an empty email is accepted and kept as ""; an accepted non-empty phone has 6 to 30 trimmed characters |
| Validation.PartExIssuesOfDraft | src/lib/validation.ts:81-98 | the reg and mileage issues are produced exactly for a part exchange with a missing or short reg, or a missing mileage |
| Validation.PartExRule | src/lib/validation.ts:81-98 | for a part exchange, a missing or under-2-character reg is reported on "reg" and a missing mileage on "mileage"; otherwise neither is ever reported |
| Validation.MileagePositiveInteger | src/lib/validation.ts:48 | a present mileage in any mode is accepted only as a positive whole number |
| Validation.FleetIssuesOfDraft | src/lib/validation.ts:59-70 | the company-name issue is produced exactly for a fleet enquiry with a blank company name |
| Validation.FleetCompanyRule | src/lib/validation.ts:59-70 | a company name that is blank after trimming is refused if and only if the enquiry is a fleet enquiry |
| Validation.CrossFieldChecksReportTogether | src/lib/validation.ts:56-99 | the three cross-field checks are independent, so contact, reg and mileage issues are reported together |
| Validation.CrossFieldChecksSkippedWhenUntyped | src/lib/validation.ts:25-56 | when a field has the wrong type, no cross-field message is reported |
| EnquiriesRoute.QueueOf | src/app/api/enquiries/route.ts:23-26 | the queue is FLEET for fleet enquiries, VALUATIONS for other part exchanges, and GENERAL otherwise |
| EnquiriesRoute.PriorityOf | src/app/api/enquiries/route.ts:32-36 | priority is HIGH exactly for a fleet or part-exchange mode or type |
| EnquiriesRoute.PriorityFollowsQueue | src/app/api/enquiries/route.ts:32-36 | priority is HIGH exactly for fleet or part-exchange enquiries, so NORMAL exactly in the general queue |
| EnquiriesRoute.SlaDueAt | src/app/api/enquiries/route.ts:39-40 | the deadline is 15 minutes after now for HIGH and 60 minutes for NORMAL, always strictly after now |
| EnquiriesRoute.TrimmedOrNull | src/app/api/enquiries/route.ts:52-54 | a stored field is the trimmed value when that is non-empty, and null otherwise |
| EnquiriesRoute.PageUrlOf | src/app/api/enquiries/route.ts:18-21 | the page URL is the submitted one, else the referer header, else "unknown" |
| EnquiriesRoute.PartExOf | src/app/api/enquiries/route.ts:66-74 | no child outside part exchange; for a part exchange, a missing reg or mileage fails (the non-null assertion and the store's required field), and otherwise the child is the trimmed reg with the mileage |
| EnquiriesRoute.AcceptedPartExBuilds | src/app/api/enquiries/route.ts:66-74 | on a body validation accepted, building the part-exchange child never fails, and the child exists exactly for part exchanges |
| EnquiriesRoute.BuildEnquiry | src/app/api/enquiries/route.ts:30-75 | the record fails only when the part-exchange child does, with its error; otherwise every field is tied to the input: enums, name and message kept, priority from the intent and the deadline from the priority, email, phone, company name, fleet size band and timeframe trimmed or null, the context passed through with the page URL's fallbacks, the queue rule, and the child exactly for part exchanges |
| EnquiriesRoute.Post | src/app/api/enquiries/route.ts:9-95 | a body is rejected exactly when validation fails, with validation's issues |
| EnquiriesRoute.AcceptedBodyIsCreated | src/app/api/enquiries/route.ts:9-95 | a record is created, with status 201, exactly when the body is acceptable, so the non-null assertions never fail |
| EnquiriesRoute.CreatedRecordFacts | src/app/api/enquiries/route.ts:14-54 | a created record keeps the submitted enums, follows the queue and priority rules, is due 15 minutes after now for HIGH and 60 for NORMAL, has a trimmed non-empty contact, a trimmed-or-null company name, the fallback page URL, and a part-exchange child exactly for part exchanges with a reg of at least 2 characters and a positive whole mileage |
| EnquiriesRoute.CreatedRecordStoresInput | src/app/api/enquiries/route.ts:14-65 | each stored field in terms of the submission: trimmed name and message; email, phone, company name, fleet size band and timeframe trimmed or null when blank; the priority from the intent and the deadline from it; the context fields passed through |
| EnquiriesRoute.Active | src/app/api/enquiries/route.ts:105-107 | a search parameter constrains the listing only when it is present and non-empty |
| EnquiriesRoute.Filter | src/app/api/enquiries/route.ts:103-108 | the filtered list holds exactly the matching enquiries, each as often as in the store |
| EnquiriesRoute.InsertByDate | src/app/api/enquiries/route.ts:109 | inserting into a newest-first list keeps it newest-first and adds exactly the one item |
| EnquiriesRoute.PrependNewest | src/app/api/enquiries/route.ts:109 | an enquiry no older than the head of a newest-first list can be put in front without breaking the order |
| EnquiriesRoute.SortNewestFirst | src/app/api/enquiries/route.ts:109 | the listing order is newest first and is a permutation of its input |
| EnquiriesRoute.List | src/app/api/enquiries/route.ts:97-114 | a well-formed query lists exactly the matching enquiries, newest first; an unknown enumeration value is an error |
| EnquiriesRoute.EmptyQueryListsAll | src/app/api/enquiries/route.ts:105-107 | absent or empty parameters add no constraint: every stored enquiry is listed |
| Auth.SecretKey | src/lib/auth.ts:8-12 | the signing secret exists exactly when AUTH_SECRET is set and non-empty |
| Auth.RoleFromClaim | src/lib/auth.ts:32 | a role claim is accepted exactly when it is ADMIN, ANALYST or VIEWER |
| Auth.UserFromPayload | src/lib/auth.ts:29-33 | a payload yields a user exactly when its email is a string and its role is known |
| Auth.VerifySession | src/lib/auth.ts:26-37 | no secret or a token the verifier rejects gives no session; a verified token gives exactly the user its payload shape yields |
| Auth.SignSession | src/lib/auth.ts:18-24 | signing succeeds exactly when the secret is set |
| Auth.SignThenVerify | src/lib/auth.ts:18-37 | a session signed under the configured secret is read back as the same user |
| Auth.CanMutate | src/lib/auth.ts:39-41 | administrators and analysts may change enquiries, and viewers may not |
| Auth.SessionValueOf | src/lib/auth.ts:52-54 | defines the destructuring of a cookie piece into name and rejoined value (characterised in SessionValueOfSpec) |
| Auth.SessionValueOfSpec | src/lib/auth.ts:52-54 | a cookie piece carries a session value exactly when it is "session=" followed by that value |
| Auth.Pieces | src/lib/auth.ts:50 | the header is split on ';' and every piece is trimmed |
| Auth.FirstSessionValue | src/lib/auth.ts:51-57 | the value comes from the first piece named "session" with an '=', and is absent exactly when no piece is one |
| Auth.SessionCookieValue | src/lib/auth.ts:46-58 | an absent or empty header has no session value; otherwise there is none exactly when no piece names the session, and a found value is that of the first piece naming it, which is exactly "session=" plus the value |
| Auth.GetSessionCookieValue | src/lib/auth.ts:46-58 | the loop with its early return computes the first session value, and null without a header |
| Auth.SessionFromRequest | src/lib/auth.ts:64-68 | an absent or empty cookie value is no session; a non-empty one gives exactly what verifying it gives |
| Auth.RequireSession | src/lib/auth.ts:74-82 | the answer is 401 exactly when there is no session, and otherwise carries that session |
| Auth.EmptySessionCookieRefused | src/lib/auth.ts:53-79 | when the first piece naming the session is "session=", the cookie value is "" and the request is refused with 401 |
| Auth.Base64Hash | src/lib/auth.ts:102-114 | the base64 strategy applies exactly when the trimmed value is non-empty and decodes to a bcrypt-prefixed string after trimming |
| Auth.StripQuotes | src/lib/auth.ts:120-122 | one pair of matching surrounding quotes is removed, and a lone quote becomes "" |
| Auth.LegacyHash | src/lib/auth.ts:116-127 | the legacy hash carries no surrounding whitespace (its round trip with an escaped hash is LegacyReadsEscapedHash) |
| Auth.AdminPasswordHash | src/lib/auth.ts:100-128 | the base64 strategy wins when it applies, and the legacy value is used otherwise |
| Auth.GetAdminPasswordHash | src/lib/auth.ts:100-128 | the step-by-step reassignment computes the same hash as the two-strategy definition |
| Auth.DoubleDollars | src/lib/auth.ts:124-125 | escaping keeps or lengthens the string and preserves its first character's role |
| Auth.UnescapeDoubled | src/lib/auth.ts:124-125 | doubling every '$' and then replacing "$$" with "$" gives back the original string |
| Auth.DoubleDollarsLast | src/lib/auth.ts:124-125 | escaping keeps the last character |
| Auth.EscapedHashEnds | src/lib/auth.ts:124-125 | an escaped bcrypt hash starts with '$' and ends with the hash's last character |
| Auth.StripQuotesOfQuoted | src/lib/auth.ts:120-122 | a value wrapped in one pair of quotes is unwrapped exactly |
| Auth.QuotedEscapedHashTrimmed | src/lib/auth.ts:117 | a quoted escaped hash has no surrounding whitespace to trim |
| Auth.LegacyReadsEscapedHash | src/lib/auth.ts:117-127 | a bcrypt hash written with doubled dollars, bare or quoted, is read back exactly |
| Auth.ValidateAuthConfig | src/lib/auth.ts:134-160 | the configuration is ok exactly when all five checks pass, and each reason is reported exactly when its check is the first to fail |
| Auth.ValidConfigHasSecret | src/lib/auth.ts:139-141 | a valid configuration has a signing secret of at least 32 characters |
| Proxy.ProxySecret | src/proxy.ts:7-13 | the gatekeeper's secret exists exactly when AUTH_SECRET has at least 32 characters |
| Proxy.VerifyToken | src/proxy.ts:15-38 | a token is accepted only under a strong secret, with HS256 and a payload of string email and known role |
| Proxy.VerifyTokenAgreesWithSession | src/proxy.ts:15-38 | the gatekeeper accepts only tokens the session check accepts, and accepts every HS256 one under a strong secret |
| Proxy.IsPublicPath | src/proxy.ts:40-69 | defines the public paths: Next.js assets, the favicon, the login page and the login, logout and envcheck endpoints (which matched paths are public is proved in MatchedPublicPathIsLogin) |
| Proxy.HandleUnauthenticated | src/proxy.ts:96-114 | API paths get 401 first, admin pages a redirect carrying the path, and anything else passes |
| Proxy.Decide | src/proxy.ts:66-94 | public paths and POST /api/enquiries pass; otherwise a missing, empty or failing token is handled as unauthenticated |
| Proxy.Gatekeeper | src/proxy.ts:116-118 | only /admin/... and /api/enquiries/... are intercepted |
| Proxy.PrefixChar | src/proxy.ts:42 | a string starting with a prefix has the prefix's characters at those positions |
| Proxy.MatchedShape | src/proxy.ts:116-118 | every intercepted path starts "/ad" or "/api/e" |
| Proxy.MatchedPublicPathIsLogin | src/proxy.ts:40-64 | among intercepted paths, the login page is the only public one |
| Proxy.FallbackUnreachable | src/proxy.ts:112-118 | an intercepted unauthenticated request never reaches the pass-through fallback |
| Proxy.EnquiryCreationIsPublic | src/proxy.ts:75-90 | POST to /api/enquiries passes; any other method or subpath without a valid token gets 401 |
| Proxy.WeakSecretLocksOut | src/proxy.ts:80-90 | with a missing or short secret every protected request is refused or redirected |
| LoginRoute.StatusCode | src/app/api/admin/login/route.ts:17-62 | success is 200, bad credentials 401, misconfiguration 500, and an error 400 |
| LoginRoute.ErrorText | src/app/api/admin/login/route.ts:55-60 | the error's message is shown only in development, and "Bad request" otherwise |
| LoginRoute.EmailMatches | src/app/api/admin/login/route.ts:24-27 | defines the email comparison: trimmed submission and trimmed configured email equal after lowercasing (its consequences are EmailPaddingAndCaseIgnored and NonStringEmailRefused) |
| LoginRoute.SessionCookie | src/app/api/admin/login/route.ts:41-49 | the cookie is "session" carrying the token, httpOnly, sameSite lax, path /, eight hours (28800 s), and secure exactly in production |
| LoginRoute.Login | src/app/api/admin/login/route.ts:7-65 | an unreadable body is 400; misconfiguration is 500 before any credential check; 401 unless the email matches and the password compares; a success sets the signed administrator cookie |
| LoginRoute.ConfiguredLoginSucceeds | src/app/api/admin/login/route.ts:15-49 | under a valid configuration the right credentials always sign in |
| LoginRoute.ConfigGateComesFirst | src/app/api/admin/login/route.ts:15-28 | a misconfigured server answers 500 whatever the password comparison would say |
| LoginRoute.IssuedSessionIsAdmin | src/app/api/admin/login/route.ts:37-49 | the cookie is "session", HTTP-only, lax, on "/", for 28800 seconds, secure exactly in production, and its token reads back as the configured email with role ADMIN |
| LoginRoute.EmailPaddingAndCaseIgnored | src/app/api/admin/login/route.ts:11-27 | the administrator's email matches with surrounding whitespace and in any ASCII letter case |
| LoginRoute.NonStringEmailRefused | src/app/api/admin/login/route.ts:11-35 | an email that is not a string is treated as "" and never signs in |
| EnvCheckRoute.Slice | src/app/api/admin/envcheck/route.ts:33 | a slice is the prefix of length min(n, length) |
| EnvCheckRoute.EnvCheck | src/app/api/admin/envcheck/route.ts:6-35 | the flags say whether the trimmed values are non-empty, the lengths are those of the trimmed raw values and of the parsed hash, and the prefix is the hash's first min(4, length) characters |
| EnvCheckRoute.ValidConfigReport | src/app/api/admin/envcheck/route.ts:24-34 | under a valid configuration every flag is set, the hash has at least 55 characters, and its prefix is "$2a$" or "$2b$" |
| EnvCheckRoute.ReportRevealsOnlyMetadata | src/app/api/admin/envcheck/route.ts:23-34 | the report depends only on presence flags, lengths and the 4-character prefix, never on the values themselves |
| Db.SqlitePathFromUrl | src/lib/db.ts:10-16 | a URL without "file:" fails with the client's message; otherwise "file:" followed by the path is the URL |
| Db.DatabaseUrl | src/lib/db.ts:21 | only an unset DATABASE_URL falls back to "file:./dev.db" |
| Db.PathRoundTrip | src/lib/db.ts:15 | every path is recovered from its own "file:" URL |
| Db.DefaultDatabasePath | src/lib/db.ts:21-22 | without DATABASE_URL the path is "./dev.db" |
| Db.EmptyDatabaseUrlRefused | src/lib/db.ts:10-21 | an empty DATABASE_URL is kept rather than defaulted, and is refused |
| AdminBoard.TimeAgo | src/app/admin/page.tsx:19-29 | an unparseable timestamp renders "NaNd ago" and anything under a minute old, including a future one, "just now" |
| AdminBoard.TimeAgoBands | src/app/admin/page.tsx:19-29 | under a minute (including the future) is "just now", then whole minutes under an hour, whole hours under a day, and whole days |
| AdminBoard.MinutesThenHours | src/app/admin/page.tsx:22-25 | hours floored from floored minutes are the floored hours of the elapsed time |
| AdminBoard.HoursThenDays | src/app/admin/page.tsx:22-27 | days floored from floored hours are the floored days of the elapsed time |
| AdminBoard.CountStatus | src/app/admin/page.tsx:81-85 | a tally never exceeds the number of items |
| AdminBoard.CountStatusExtremes | src/app/admin/page.tsx:81-85 | a tally is zero exactly when no item has the status, and the whole length exactly when every item has it |
| AdminBoard.TallyCounts | src/app/admin/page.tsx:81-85 | the loop's three counters are the numbers of items with each status |
| AdminBoard.CountsCoverItems | src/app/admin/page.tsx:81-85 | NEW + CONTACTED + CLOSED is the number of items |
| AdminBoard.CountIsFilterSize | src/app/admin/page.tsx:81-85 | each tally is the size of the listing filtered to that status |
| AdminBoard.StatusQueryMatches | src/app/api/enquiries/route.ts:106 | a status-only query matches exactly the enquiries with that status |
| AdminBoard.CountStatusFront | src/app/admin/page.tsx:81-85 | the tally of a list is the first item's contribution plus the tally of the rest |
| AdminBoard.WithStatus | src/app/admin/page.tsx:76-78 | the updated list has the same length |
| AdminBoard.ApplyPatch | src/app/admin/page.tsx:64-79 | a failed request leaves the list unchanged and alerts its error or "Failed to update"; a successful one applies the update without an alert |
| AdminBoard.WithStatusPointwise | src/app/admin/page.tsx:76-78 | exactly the items with the target id get the new status; all other fields, items, length and order are unchanged |
| AdminBoard.WithStatusIdempotent | src/app/admin/page.tsx:76-78 | applying the same update twice equals applying it once |
| AdminBoard.WithStatusAbsentId | src/app/admin/page.tsx:76-78 | an id that is not on the board leaves the list unchanged |
| AdminBoard.SearchParams.constructor | src/app/admin/page.tsx:42 | a new parameter list is empty |
| AdminBoard.SearchParams.Get | src/app/admin/page.tsx:46 | a name has a value exactly when some pair carries it |
| AdminBoard.SearchParams.Set | src/app/admin/page.tsx:43-44 | set gives the name the new value and leaves other names alone; a new name is appended at the end, an existing one is overwritten at its own position; names stay unique |
| AdminBoard.LookupIn | src/app/admin/page.tsx:46 | a lookup finds a value exactly when a pair with that name exists, and returns that pair's value |
| AdminBoard.LookupInAppend | src/app/admin/page.tsx:43-44 | appending a new name makes it found with its value and changes no other lookup |
| AdminBoard.LookupInUpdate | src/app/admin/page.tsx:43-44 | overwriting the first pair of a name changes that name's value and no other lookup |
| AdminBoard.FilterParam | src/app/admin/page.tsx:43-44 | "ALL" omits the parameter and any other selection sets it to that selection |
| AdminBoard.FilterParams | src/app/admin/page.tsx:42-44 | the request carries mode and status exactly for selections other than "ALL", and nothing else |
| AdminBoard.BoardQuery | src/app/admin/page.tsx:46 | the board never sends a queue filter |
| AdminBoard.BoardSelectionsAreListed | src/app/admin/page.tsx:98-123 | every drop-down selection gives a query the listing accepts, listing exactly the enquiries of the chosen mode and status |
| EnquiryWidget.DeviceOf | src/components/EnquiryWidget.tsx:53-58 | the device is "mobile" exactly below 768 pixels, and "desktop" otherwise |
| EnquiryWidget.DefaultValues | src/components/EnquiryWidget.tsx:43-67 | the defaults carry the page's mode and type; an empty name, message, email, phone, reg, company name, fleet size band and timeframe; no mileage and no utm fields; in a browser the page URL is its href, the referrer its referrer and the device its DeviceOf, and on the server all three are absent |
| EnquiryWidget.DefaultsAreIncomplete | src/components/EnquiryWidget.tsx:43-67 | the untouched form is refused for its missing name and message |
| EnquiryWidget.EnquiryForm.Values | src/components/EnquiryWidget.tsx:167-168 | the submitted mode and type are the names of the form's current enums |
| EnquiryWidget.EnquiryForm.constructor | src/components/EnquiryWidget.tsx:43-79 | a new form holds the default values |
| EnquiryWidget.EnquiryForm.ChooseIntent | src/components/EnquiryWidget.tsx:120-129 | mode and type are set; leaving part exchange clears reg to "" and mileage to unset; no other field changes |
| EnquiryWidget.EnquiryForm.ResetAfterSubmit | src/components/EnquiryWidget.tsx:106 | the form returns to its defaults, except that mode and type keep the submitted values |
| EnquiryWidget.OnlyChosenIntentSelected | src/components/EnquiryWidget.tsx:22-31 | no two intent buttons share a mode and type, so exactly the chosen one is shown selected |
| EnquiryWidget.IntentClassification | src/components/EnquiryWidget.tsx:22-31 | only "Part exchange" needs the part-exchange fields, and only "Fleet enquiry" is a fleet enquiry |
| EnquiryWidget.ClearedFormHasNoPartExIssues | src/components/EnquiryWidget.tsx:124-128 | after switching away from part exchange the form is never refused for reg or mileage |
| EnquiryWidget.PartExNeedsBothFields | src/components/EnquiryWidget.tsx:59-60 | a part exchange sent with the default reg and no mileage is refused on both fields |

## Left out

- JWT internals (HS256 signing, expiry after eight hours, `iat`) are abstracted as the `Signer`/`Verifier` parameters. `SignThenVerify` and `IssuedSessionIsAdmin` assume the verifier accepts what the signer produced.
- bcrypt comparison and base64 decoding are abstracted. zod's email and URL syntax checks are the `isEmail`/`isUrl` predicates.
- `toLowerCase` is modelled for ASCII letters only. Unicode case mapping is not modelled.
- String fields of a submission are either absent or strings. Non-string JSON values for string fields are not modelled, and neither is JSON parsing itself.
- `mileage` is the number after `z.coerce.number()`: NaN or a finite real. Infinities and the coercion from strings are not modelled.
- Prisma and SQLite are not modelled. This covers the global client singleton, the actual create and findMany calls, database failures at creation (which would also be a 400), and the triage view.
- `EnquiriesRoute.List`: a non-empty filter naming no enumeration value is modelled as an error, standing for the database client's rejection of an invalid enum.
- The status-change endpoint with its audit rows is not part of this model. Its source is not among the modelled files.
- Logout is not part of this model.
- React rendering, hooks, `fetch`, the success timer and the submitting flags are not modelled. Neither are the admin JSX and `toLocaleString`.
- The `availableIntents` prop some pages pass to the widget is not modelled, because the widget ignores it.
- Next.js cookie parsing in the gatekeeper is not modelled. The gatekeeper receives the session cookie's value, if any, directly.
- `AdminBoard.SearchParams.Get`: the string serialisation and percent-encoding of `URLSearchParams` are not modelled. The board's selections are plain enumeration names.
- `AdminBoard.TimeAgo`: a timestamp that does not parse is modelled as `None` and renders "NaNd ago". Otherwise timestamps are whole milliseconds.
- `EnquiryWidget.EnquiryForm.Values`: the form's values are modelled as the submission they would make. How react-hook-form turns an empty mileage input into NaN, and how JSON serialisation turns that into null, is not modelled.
- `console.error("login error:", err)` in the login route's error path is not modelled. Logging has no effect on the response.
- String lengths: the model's `|s|` counts Unicode scalar values, while JavaScript's `.length`, zod's `.min`/`.max` and `slice` count UTF-16 code units. The two differ for characters outside the Basic Multilingual Plane (such as emoji), which count once in the model and twice in the source. The members below are affected.
- `Validation.ParseRequiredText`: a name or message of astral characters is measured in scalar values, so one the source refuses as over 100 or 2000 can be accepted here.
- `Validation.ParsePhone`: the 6..30 bound on the trimmed phone is measured in scalar values.
- `Validation.ParseOptionalText`: the 120 and 50 caps on company name, fleet size band and timeframe are measured in scalar values.
- `Validation.PartExIssues`: `reg.length < 2` is measured in scalar values, so a single astral character is a missing registration here but not in the source.
- `Auth.ValidateAuthConfig`: the 32-character minimum on AUTH_SECRET, and the hash-length check, are measured in scalar values.
- `Proxy.ProxySecret`: the 32-character minimum on AUTH_SECRET is measured in scalar values.
- `EnvCheckRoute.EnvCheck`: the reported lengths count scalar values and the four-character prefix is four scalar values; a prefix that would split a surrogate pair cannot be expressed.
- Issue semantics and texts follow zod 3: a type failure aborts before `superRefine`, a failed field check does not, and `Validation.Text` renders zod 3's default wording for the built-in checks. zod 4 words these differently.
