# Volunteer management: a Dafny model

This project models the business rules of a volunteer-management web application.
Administrators create events. Volunteers keep a profile of their skills and available
days. Administrators are shown which volunteers suit an event and assign them to it.
Each assignment leaves a participation-history record and a notification for the
volunteer.

The model covers these parts of the application:

- **The server.**
  - The matching engine: the suggestion list and the assign operation.
  - The access-control middlewares.
  - The event-creation validator.
  - The register and login rules.
  - The profile read and save.
  - The history and notification routes.
- **The tables the server keeps**: users, profiles, events, history records and notifications.
  - They live in one `Store.Database` class.
  - Every state-changing route is a method that `modifies` it.
  - Every such method states the whole new state, and that the table constraints of the model declarations still hold (`Database.Valid`).
- **The client pages**:
  - the notifications page;
  - the participation-history page;
  - the matching page;
  - the event form;
  - the profile form.

  Their list helpers are functions. The pages whose state the code updates step by step (`NotificationsPage`, `MatchingPage`, `EventFormState`) are classes. Their methods take the server's reply as a parameter.

Modules:

| module | file | models |
|---|---|---|
| `Common` | common.dfy | `Option`, calendar dates, JavaScript truthiness, `filter`/count helpers |
| `Text` | text.dfy | `trim`, `substring`, `toLowerCase`, `includes`, `split`, `padStart`, `parseInt`, string `<` |
| `Models` | models.dfy | the table rows and their column constraints, the enumerations |
| `Store` | store.dfy | the `Database` class: the tables, auto-increment counters, inserts, updates, deletes |
| `Ordering` | ordering.dfy | the stable descending sort used for `ORDER BY … DESC` and `Array.prototype.sort` |
| `TimeFormat` | time_format.dfy | `formatTimeForSQL` and the 12-hour notification time text |
| `Rbac` | rbac.dfy | `authenticateToken`, `requireAdmin`, `requireVolunteerOrAdmin`, `requireOwnerOrAdmin` |
| `Auth` | auth.dfy | `isValidEmail`, `isValidPassword`, register, login |
| `Matching` | matching.dfy | skill decoding, match score, availability, suggestions, assign |
| `CreateEvent` | create_event.dfy | the `/create-event` error list |
| `Profiles` | profile.dfy | `toArray`, payload normalisation, `profileSchema`, GET and POST `/profile` |
| `HistoryRoutes` | history_routes.dfy | GET, POST and PUT of `/api/history` |
| `NotificationRoutes` | notification_routes.dfy | GET, POST, PUT `/:id/read` and DELETE of `/api/notifications` |
| `ClientNotifications` | client_notifications.dfy | the notifications page |
| `ClientHistory` | client_history.dfy | the participation-history page |
| `ClientMatching` | client_matching.dfy | the matching page |
| `EventForm` | event_form.dfy | the event form |
| `ProfileForm` | profile_form.dfy | the profile form |

Calls the model cannot see become parameters of the members that use them:

| parameter | stands for |
|---|---|
| `Decoder` | `JSON.parse` of a stored list text; `None` when it throws. Only texts decoding to an array are modelled (see `Matching.DecodeList` under "## Left out") |
| `DateParser` | `new Date(s)` reduced to a calendar day; `None` for an invalid date |
| `Verifier` | `jwt.verify` |
| `Signer` | `jwt.sign` |
| `hash`, `compare` | bcrypt |
| `longDate` | `toLocaleDateString` |
| `now` | the clock |
| `today` | midnight of the current day |
| `isEmail` | Sequelize's `isEmail` validator |
| `IdCoercion` | the database's conversion of a text bound to an INTEGER column (a body id sent as text, a path `:id`); `None` when it refuses the text and the statement fails |

## Model

| member | source | states |
|---|---|---|
| Common.DayKeyOrdersDates | server/server.js:80-84 | On valid calendar days, the integer day key orders dates as the calendar does, and equal keys mean the same day. |
| Common.OrElse | client/src/components/EventForm.js:63 | `x \|\| fallback` on text: a non-empty value is kept, and an absent or empty one gives the fallback. |
| Common.OrNull | server/routes/profile.js:78-79 | `x \|\| null`: the value is kept exactly when it is a non-empty string. |
| Text.Trim | server/server.js:52-61 | The result is no longer than the input. It is empty iff the input is all whitespace. Otherwise it neither starts nor ends with whitespace. |
| Text.TrimIdempotent | server/routes/matching.js:282-284 | Trimming twice is trimming once. |
| Text.Take | server/routes/matching.js:282-284 | `substring(0, n)` is the prefix of length min(n, length). |
| Text.Lower | server/routes/auth.js:44 | `toLowerCase` maps each character and keeps the length. |
| Text.LowerIsLower | server/routes/auth.js:61 | The result is lower case, and lowering is idempotent. |
| Text.Contains | client/src/components/VolunteerHistory.js:43-49 | `includes` holds iff the needle occurs at some position. |
| Text.PadStart | server/routes/matching.js:257-259 | `padStart` gives length max(length, n): fill characters first, then the original text. |
| Text.Split | server/middleware/rbac.js:8 | `split` gives at least one part, and no part holds the separator. |
| Text.JoinSplit | server/routes/matching.js:256 | Joining the parts of a split with the separator gives back the text. |
| Text.SplitJoin | server/routes/matching.js:256 | Splitting a join of separator-free parts gives back the parts. |
| Text.ParseInt | server/routes/matching.js:153-154 | `parseInt` fails (NaN) exactly when no digit follows the leading blanks and optional sign. |
| Text.ParseIntIntToString | server/middleware/rbac.js:84 | `parseInt` of an integer's decimal text is that integer. |
| Text.ParseIntNoRadix | server/middleware/rbac.js:84 | Radix-less `parseInt`: without a `0x`/`0X` after the blanks and sign it reads as `parseInt(s, 10)`; with one, it is NaN exactly when no hexadecimal digit follows, and a text of hexadecimal digits after the prefix gives their base-16 value with the sign applied. |
| Text.ParseIntNoRadixIntToString | server/middleware/rbac.js:84 | An integer's decimal text never carries the hexadecimal prefix, and the radix-less reading of it is that integer. |
| Text.ParseIntNoRadixHex | server/middleware/rbac.js:84 | `"0x1a"` reads as 26 and `" -0X1A"` as -26; `"0x"` and `"0xg1"` are NaN. |
| Text.IntToString | client/src/components/VolunteerMatching.js:83 | The decimal text of an integer is non-empty. |
| Models.DefaultsAreAllowed | server/models/VolunteerHistory.js:50-57 | The default role and the default status belong to their enumerations. Every status fits the 20-wide column. |
| Store.PairCount | server/models/VolunteerHistory.js:59-63 | The number of records for a (user, event) pair is zero iff no record has that pair. No unique key exists, so it can exceed one. |
| Store.PairCountAppend | server/routes/history.js:60-72 | Appending a record raises the count of its own pair by one and leaves the other pairs' counts alone. |
| Store.WithStatus | server/routes/history.js:110-111 | Only the status of record i changes. Every other record, and every other field, stays. |
| Store.WithStatusValid | server/models/VolunteerHistory.js:50-57 | A status from the enumeration keeps the table valid. |
| Store.MarkedRead | server/routes/notifications.js:84-85 | Only notification i becomes read. Every other field and every other notification stays. |
| Store.MarkedReadValid | server/models/Notification.js:29-33 | Marking read keeps the table valid. |
| Store.Without | server/routes/notifications.js:115 | `destroy` removes exactly position i and keeps the order of the rest. |
| Store.WithoutMembers | server/routes/notifications.js:115 | After the removal the table is valid and holds exactly the notifications with another id. |
| Store.Database.constructor | server/models/Events.js:1-35 | A store with the given events and empty other tables is valid. |
| Store.Database.CreateHistory | server/models/VolunteerHistory.js:5-75 | The record must name an existing user and event. It gets the next id and is appended; nothing else changes; the table stays valid. |
| Store.Database.CreateNotification | server/models/Notification.js:5-47 | The notification must name an existing user. It gets the next id and is appended; nothing else changes. |
| Store.Database.CreateProfile | server/models/UserProfile.js:5-60 | The profile must name an existing user. A profile row is added under its userId, the primary key; nothing else changes. |
| Store.Database.UpdateProfile | server/models/UserProfile.js:5-45 | The profile under that userId is replaced; nothing else changes. |
| Store.Database.SetHistoryStatus | server/routes/history.js:110-111 | The history table becomes `WithStatus`; nothing else changes. |
| Store.Database.SetNotificationRead | server/routes/notifications.js:84-85 | The notification table becomes `MarkedRead`; nothing else changes. |
| Store.Database.DestroyNotification | server/routes/notifications.js:115 | The notification table becomes `Without`; nothing else changes. |
| Store.Database.CreateUser | server/models/User.js:10-29 | A user with an unused email gets the next id and is appended. Emails stay unique, and every reference stays valid. |
| Store.ColumnId | server/routes/history.js:63-64 | A body id is stored as sent when it is a number, as the database converts it when it is a text, and is missing when absent. |
| Store.ColumnIdRepresentationIndependent | server/routes/notifications.js:48-49 | An id sent as its decimal text is stored as the same id sent as a number, when the database reads decimal texts. |
| Store.ReferencesGrowWithUsers | server/models/VolunteerHistory.js:66-75 | Adding a user breaks no foreign key. |
| Ordering.SortDesc | server/routes/matching.js:132 | The sort gives a permutation of its input with keys non-increasing. |
| Ordering.SortStable | server/routes/matching.js:132 | For every key value, the elements with that key keep their input order. |
| Ordering.SortSorted | server/routes/history.js:18-21 | A list already in descending order is left as is. |
| Ordering.SortFilterMembers | server/routes/notifications.js:18-21 | Sorting a filtered list keeps exactly the elements that pass the filter. |
| TimeFormat.FormatTimeForSql | server/routes/matching.js:251-272 | An absent or empty time gives null. Any other text gives the padded `HH:MM:SS` text. |
| TimeFormat.FormatTimeTextShape | server/routes/matching.js:255-261 | The result is three colon-free parts of at least two characters. The first is the padded first part of the input. |
| TimeFormat.FormatTimeTextIdempotent | server/routes/matching.js:255-261 | Formatting a formatted time changes nothing. |
| TimeFormat.FormatTimeTextFixpoint | server/routes/matching.js:255-261 | A two-digit `HH:MM:SS` is returned unchanged. |
| TimeFormat.FormatTimeTextAddsSeconds | server/routes/matching.js:258-260 | `HH:MM` gains `:00` seconds. |
| TimeFormat.Hour12RoundTrip | server/routes/matching.js:310-313 | Hour 0 is 12 AM and 12 is 12 PM. 13-23 become h-12 PM; 1-11 stay AM. The 12-hour form determines the 24-hour hour. |
| TimeFormat.StartTimeClause | server/routes/matching.js:304-316 | The ` at …` clause is present exactly when the event has a start-time text. |
| TimeFormat.StartTimeClauseOfClock | server/routes/matching.js:309-314 | For `H:MM`, the clause is ` at <12-hour hour>:MM AM/PM`. |
| Rbac.BearerToken | server/middleware/rbac.js:7-8 | A token is found only in a header that has a space. The token is the non-empty, space-free second part. |
| Rbac.BearerTokenOfScheme | server/middleware/rbac.js:8 | `<scheme> <token>` yields the token. |
| Rbac.BearerTokenMissing | server/middleware/rbac.js:10-15 | A header without a space yields no token, and so does a scheme followed by a space and nothing else (`"Bearer "`). |
| Rbac.BearerHeaderAuthenticates | client/src/utils/auth.js:27-33 | The `Bearer <token>` header `getAuthHeaders` builds authenticates with the token's claims. |
| Rbac.AuthenticateToken | server/middleware/rbac.js:6-27 | No token gives 401 "Access token required". A failed verification gives 403 "Invalid or expired token". Otherwise the request continues with the verified claims. The copy at server/routes/auth.js:159-180 has the same text. |
| Rbac.RequireAdmin | server/middleware/rbac.js:30-46 | No user gives 401; a non-admin gives 403; an admin continues, and only an admin. |
| Rbac.RequireVolunteerOrAdmin | server/middleware/rbac.js:49-65 | No user gives 401. The request continues iff the role is volunteer or admin, and gives 403 otherwise. |
| Rbac.AdminIsVolunteerOrAdmin | server/middleware/rbac.js:30-65 | Whoever passes `requireAdmin` passes `requireVolunteerOrAdmin`. |
| Rbac.OwnerField | server/middleware/rbac.js:77-80 | The owner id is the first truthy value among params, then body, then query. |
| Rbac.ParseField | server/middleware/rbac.js:84 | `parseInt` with no radix: of a number, that number; of an absent field, NaN; of a text, its radix-less reading (`0x` switches to base 16). |
| Rbac.RequireOwnerOrAdmin | server/middleware/rbac.js:68-94 | No user gives 401. The request continues iff the caller is admin or `sub` equals the parsed owner id; otherwise 403 "You can only access your own resources". |
| Rbac.OwnerMissingDeniesNonAdmin | server/middleware/rbac.js:82-92 | Without any owner id every non-admin is refused. |
| Rbac.OwnerParamsTakePrecedence | server/middleware/rbac.js:77-80 | A truthy params id decides alone: body and query cannot change the outcome. |
| Rbac.OwnerOwnIdAccepted | server/middleware/rbac.js:82-85 | A caller naming their own id is let through. |
| Rbac.OwnerHexIdAccepted | server/middleware/rbac.js:82-85 | An owner id written in hexadecimal (`"0x1a"`) names user 26, who is let through. |
| Auth.IsValidEmailChars | server/routes/auth.js:11-14 | The regular expression holds iff the address has no whitespace and exactly one `@`, with text before it and a `.` after it that is neither the domain's first nor its last character. |
| Auth.LowerKeepsValidEmail | server/routes/auth.js:44 | Lowercasing a valid address gives a valid address. |
| Auth.RoleFor | server/routes/auth.js:58 | A requested role is kept iff it is volunteer or admin. Any other request, absent, empty or unknown, gives volunteer. |
| Auth.FindByEmail | server/routes/auth.js:43-45 | The lookup finds a user with exactly that address, or reports that none has it. |
| Auth.RegisterRefusal | server/routes/auth.js:27-52 | Registration is refused unless the address is present and valid, the password is 8-128 characters, and the lowercased address is not taken. |
| Auth.RegisterPasswordBoundary | server/routes/auth.js:17-19 | With a valid address, a 7-character password is refused for its length and an 8-character one is not. |
| Auth.Register | server/routes/auth.js:22-82 | A refusal changes nothing. Otherwise the user is stored with the lowercased address, the hashed password and the defaulted role, and nothing else changes. The stored address is lower case and valid. |
| Auth.Login | server/routes/auth.js:85-156 | 400 for an invalid address, then for an invalid password. The same 401 for an unknown address and for a wrong password. On success the token signs `{sub, email, role}` for 24 hours. |
| Auth.LoginThenAuthenticate | server/routes/auth.js:127-135 | Presented as `Bearer <token>`, a login's token authenticates as the user who logged in. |
| Auth.RegisteredUserCanLogIn | server/routes/auth.js:105-124 | With unique addresses, a stored user logs in with their password and receives the token for their claims. |
| Matching.DecodeList | server/routes/matching.js:63-73 | An array is used as is. A string is decoded, giving `[]` when that fails. Any other value gives `[]`. |
| Matching.DecodeListRepresentationIndependent | server/routes/matching.js:80-101 | A list gives the same skills stored as an array or as its JSON text. |
| Matching.MatchingSkills | server/routes/matching.js:104-108 | The matched skills are exactly the volunteer's skills that the event requires, one per volunteer entry. |
| Matching.MatchScore | server/routes/matching.js:104-110 | The score is 100·matched/required, and 0 for an event that requires nothing. It is never negative, and positive iff some skill is shared. |
| Matching.Percent | server/routes/matching.js:108-110 | The percentage times the total is 100 times the part. It is positive iff the part is, and at most 100 when the part is at most the total. |
| Matching.MatchScoreAtMost100 | server/routes/matching.js:104-110 | For a volunteer whose skills are listed once each, the score is at most 100. |
| Matching.MatchScoreCountsRepeats | server/routes/matching.js:104-110 | A repeated skill is counted twice: `["Driving","Driving"]` against `["Driving"]` scores 200. |
| Matching.IsAvailable | server/routes/matching.js:113-116 | A volunteer is available iff some availability entry falls on the event's calendar day. |
| Matching.AssignedUserIds | server/routes/matching.js:54-59 | An id is listed iff a history record pairs it with the event. |
| Matching.ScoreProfile | server/routes/matching.js:77-101 | The row carries the profile's user id and its decoded skills and availability. |
| Matching.ScoreAll | server/routes/matching.js:77-130 | The profiles are scored one row each, in order. |
| Matching.Suggestions | server/routes/matching.js:41-48 | The event is not found (404) iff its id is unknown. |
| Matching.SuggestionsOrder | server/routes/matching.js:131-132 | The list is a permutation of the kept rows, sorted by score with the highest first. Rows of equal score keep profile order. |
| Matching.SuggestionsMembers | server/routes/matching.js:131 | A profile's row is listed iff its score is positive or the volunteer is available, and every listed row is some profile's row. |
| Matching.ScoredRowsMembers | server/routes/matching.js:118-131 | Any list holding exactly the kept scored rows has exactly the kept profiles' rows. |
| Matching.SuggestionsRows | server/routes/matching.js:104-129 | Every row's score is its `MatchScore` and its flag its `IsAvailable`. It is flagged assigned iff a history record pairs it with the event. |
| Matching.AssignRefusalOrder | server/routes/matching.js:150-193 | A zero or unparsable id gives 400 before anything else. An existing pair gives 409 before the user and event lookups. Acceptance needs both ids, no record for the pair, an existing user and an existing event. |
| Matching.SnapshotUrgency | server/routes/matching.js:244-247 | The stored urgency is the lowercased urgency ("medium" when missing) cut to its first 20 characters: a lower-case prefix of it whose length is the smaller of 20 and its length. |
| Matching.Snapshot | server/routes/matching.js:279-291 | The record holds the given ids, status upcoming and the event's day, and fits the history columns. |
| Matching.SnapshotTexts | server/routes/matching.js:282-284 | The name is the trimmed name's prefix of length min(100, its length); the location likewise with 255; the description is trimmed; the name is empty iff the event's name is blank. |
| Matching.SnapshotOfEvent | server/routes/matching.js:244-291 | The urgency is the lowercased urgency, "medium" when missing, as a prefix of length min(20, its length). The skills are decoded. A time is null iff absent or empty. |
| Matching.AssignmentNotice | server/routes/matching.js:318-324 | The notification goes to the volunteer, has type assignment, is unread, carries the event's name, and fits the table. |
| Matching.Assign | server/routes/matching.js:148-330 | A refusal changes nothing. Otherwise exactly one snapshot record and one assignment notification are appended, nothing else changes, and the pair now has exactly one record. |
| Matching.RecordAssignment | server/routes/matching.js:279-324 | The two inserts append the snapshot and the notice under the next ids, and raise the pair's count by one. |
| Matching.AssignTwice | server/routes/matching.js:164-173 | Assigning the same new pair twice gives 409 the second time. It leaves at most one record for the pair, and one more record and one more notification in all. |
| CreateEvent.SkillsToCheck | server/server.js:63-66 | Nothing to check exactly for a falsy value or an empty array. An array is checked entry by entry. Any other truthy value, a text or not, is checked as a one-entry list. |
| CreateEvent.SkillErrorsExact | server/server.js:67-71 | The skill loop reports only `Invalid skill: s`, and exactly for the entries that show as s and are not one of the seven skills; a non-text entry never is. |
| CreateEvent.SkillErrorsOfTexts | server/server.js:67-71 | For an array of texts, `Invalid skill: s` is reported iff s is an entry outside the seven skills. |
| CreateEvent.InCreateEventErrors | server/server.js:50-90 | An error is collected iff one of the seven rules reports it. |
| CreateEvent.CreateEventTextRules | server/server.js:52-61 | Name is required iff missing or blank; too long iff present and over 100 characters. Description and location are required iff missing or blank. Urgency is invalid iff missing or not one of the four levels. |
| CreateEvent.CreateEventSkillRules | server/server.js:63-72 | "At least one skill" iff nothing to check. `Invalid skill: s` iff s shows a checked entry outside the seven skills. For an array of texts, iff s is an entry outside them. A lone non-text value is always reported. |
| CreateEvent.CreateEventScheduleRules | server/server.js:77-90 | Date required iff missing; in the past iff it parses to a day before today. Times required iff either is missing; out of order iff start is not below end as strings. |
| CreateEvent.MissingNameOnlyRequired | server/server.js:52-55 | A missing name never also reports the length error. |
| CreateEvent.CollectSkillErrors | server/server.js:66-71 | The loop collects one error per entry outside the seven skills, in entry order. |
| CreateEvent.TimesOrderStrict | server/server.js:89-90 | "End after start" is strict. Equal times are reported, and when two times pass, the swapped pair is reported. |
| CreateEvent.HandleCreateEvent | server/server.js:38-117 | 400 iff some rule is broken, reporting every broken rule. Otherwise the input is echoed back unchanged. |
| Profiles.StateCodesHaveTwoLetters | server/routes/profile.js:8-13 | Every allowed state code has two letters, so it fits the 2-wide column. |
| Profiles.ToArray | server/routes/profile.js:48-52 | An array is kept, a non-empty string becomes a one-element list, and anything else becomes `[]`. |
| Profiles.CompactMembers | server/routes/profile.js:80-81 | `filter(Boolean)` keeps exactly the non-empty entries and changes a list without empty entries not at all. |
| Profiles.Normalize | server/routes/profile.js:76-82 | address2 and preferences are kept iff non-empty, else null. The other text fields pass unchanged. |
| Profiles.NormalizeDropsEmptyEntries | server/routes/profile.js:80-81 | The normalised skills and availability hold no empty entry. |
| Profiles.StateZipErrorsEmpty | server/routes/profile.js:27-31 | The state passes iff it is a listed code, and the zip iff it has 5 or 9 digits. |
| Profiles.TextErrorsEmpty | server/routes/profile.js:24-32 | The text fields pass iff each required one is present and within its width, the state is a listed code, and the zip has 5 or 9 digits. |
| Profiles.ProfileErrorsEmpty | server/routes/profile.js:23-36 | The error list is empty iff the payload meets the schema. |
| Profiles.ProfileSkillRules | server/routes/profile.js:33 | "at least 1 skill" iff the list is empty. A length error for s iff s is listed and over 100 characters. |
| Profiles.ProfileAvailabilityRules | server/routes/profile.js:15-21 | "at least 1 date" iff the list is empty. A date error for s iff s is listed and is not a parseable date. |
| Profiles.ProfileTextRules | server/routes/profile.js:24-34 | Each text field's required, length, state and zip errors are reported exactly when that rule is broken. An empty state is reported as not allowed only, because `oneOf` runs first and stops the field. An empty zip is reported both as missing and as not matching. |
| Profiles.ValidPayloadFitsRow | server/models/UserProfile.js:5-45 | A payload that meets the schema fits the profile columns. |
| Profiles.GetProfile | server/routes/profile.js:54-71 | GET gives the caller's profile, or null when there is none. |
| Profiles.GetProfileOwn | server/routes/profile.js:56-59 | The profile returned is the caller's own. |
| Profiles.SaveProfile | server/routes/profile.js:73-116 | An invalid payload gives 400 with every error and changes nothing. A valid payload for a `sub` with no profile and no user breaks the foreign key: 500, nothing changes. Otherwise it becomes the profile under the token's `sub`, created or updated, and nothing else changes. |
| Profiles.SaveKeepsOtherProfiles | server/routes/profile.js:88-103 | Saving leaves every other user's profile as it was. |
| Profiles.CreateKeyAsWritten | server/routes/profile.js:99-102 | As written, the created row's key is the body's `userId` when one is sent, else the token's `sub`. |
| Profiles.CreateAsWrittenIgnoresToken | server/routes/profile.js:99-102 | A body naming another user's id files the new profile under that id. |
| HistoryRoutes.GetHistory | server/routes/history.js:7-34 | No userId gives 400. An unparsable one lists nothing. |
| HistoryRoutes.GetHistoryRows | server/routes/history.js:18-21 | The rows are a permutation of exactly that user's records, sorted by event date with the latest first. Ties keep table order. |
| HistoryRoutes.GetHistoryNewestFirst | server/routes/history.js:20 | No row's date comes before a later row's date. |
| HistoryRoutes.StatusOrDefault | server/routes/history.js:71 | `status \|\| "upcoming"`. |
| HistoryRoutes.RowOf | server/routes/history.js:60-72 | There is a row iff both ids are stored (a number, or a text the database converts) and the fields the columns require are present with a readable date. The row keeps the stored ids and the name, and its status defaults to upcoming. |
| HistoryRoutes.LogParticipation | server/routes/history.js:37-86 | A falsy user id, event id or name gives 400 and changes nothing; an id sent as non-empty text passes. A text id the database refuses, a row failing the columns, or naming a user or event that does not exist, gives 500 and changes nothing. Otherwise the row is appended without any duplicate check, and nothing else changes. |
| HistoryRoutes.TextIdsAccepted | server/routes/history.js:53 | Numeric-text ids pass the 400 check, and a database that reads decimals gives the row the same ids as numbers would. |
| HistoryRoutes.LogTwice | server/routes/history.js:60-72 | Logging the same body twice stores two records for the same pair. |
| HistoryRoutes.FindRecord | server/routes/history.js:101 | `findByPk` finds a record with that id, or reports that none has it. |
| HistoryRoutes.UpdateStatus | server/routes/history.js:89-125 | No status gives 400, a path id the database refuses 500, and an unknown id 404, all changing nothing. A status outside the enumeration fails with 500 and changes nothing. Otherwise only that record's status changes. |
| HistoryRoutes.AnyTransitionAccepted | server/routes/history.js:110-111 | Any status can follow any other, and a change can be undone. |
| NotificationRoutes.GetNotifications | server/routes/notifications.js:7-34 | No userId gives 400. An unparsable one lists nothing. |
| NotificationRoutes.GetNotificationsRows | server/routes/notifications.js:18-21 | The rows are a permutation of exactly that user's notifications, newest first. Ties keep table order. |
| NotificationRoutes.CreateNotice | server/routes/notifications.js:37-68 | A falsy user id, message or type gives 400; a user id sent as non-empty text passes. A text id the database refuses, a row failing the columns, or naming a user that does not exist, gives 500; both change nothing. Otherwise an unread notification for an existing user is appended and nothing else changes. |
| NotificationRoutes.TextUserIdPassesCheck | server/routes/notifications.js:41 | The text "0" passes the user-id check while the number 0 gives 400: the check is truthiness. |
| NotificationRoutes.FindNotification | server/routes/notifications.js:75 | `findByPk` finds a notification with that id, or reports that none has it. |
| NotificationRoutes.MarkRead | server/routes/notifications.js:71-99 | A path id the database refuses gives 500 and an unknown id 404, both changing nothing. Otherwise only that notification's `read` becomes true. |
| NotificationRoutes.MarkReadIdempotent | server/routes/notifications.js:84-85 | Marking read again finds the same notification and changes nothing more. |
| NotificationRoutes.Delete | server/routes/notifications.js:102-128 | A path id the database refuses gives 500 and an unknown id 404, both changing nothing. Otherwise exactly the notifications with that id leave the table. |
| NotificationRoutes.DeleteThenNotFound | server/routes/notifications.js:106-115 | After a deletion the same id is no longer found. |
| ClientNotifications.Visible | client/src/components/Notifications.js:111-120 | "unread" filters the unread notifications, "read" the read ones; any other view shows all. |
| ClientNotifications.VisibleMembers | client/src/components/Notifications.js:111-120 | The unread view holds exactly the unread notifications and the read view exactly the read ones; the unread view's length is the unread count. |
| ClientNotifications.UnreadCount | client/src/components/Notifications.js:128 | The unread count is at most the total. |
| ClientNotifications.ReadCountPartition | client/src/components/Notifications.js:161-173 | The read count shown as total minus unread is the number of read notifications. |
| ClientNotifications.LocalMarkRead | client/src/components/Notifications.js:59-63 | Only the notifications with that id become read, and every other one stays. |
| ClientNotifications.LocalDeleteMembers | client/src/components/Notifications.js:99-101 | Exactly the notifications with that id leave the list. |
| ClientNotifications.LocalMarkReadCount | client/src/components/Notifications.js:59-63 | The unread count drops by the number of unread notifications with that id. Marking again changes nothing. |
| ClientNotifications.UnreadIds | client/src/components/Notifications.js:77-79 | Every unread notification's id is collected. |
| ClientNotifications.UnreadIdsExact | client/src/components/Notifications.js:77-79 | One id per unread notification, in list order, and an id is collected iff an unread notification has it. |
| ClientNotifications.NotificationsPage.constructor | client/src/components/Notifications.js:8 | The page holds the loaded list. |
| ClientNotifications.NotificationsPage.MarkAsRead | client/src/components/Notifications.js:48-73 | On success the list becomes `LocalMarkRead`; otherwise it stays. |
| ClientNotifications.NotificationsPage.DeleteNotification | client/src/components/Notifications.js:89-109 | On success the list becomes `LocalDelete`; otherwise it stays. |
| ClientNotifications.NotificationsPage.MarkAllAsRead | client/src/components/Notifications.js:75-87 | Each initially unread notification becomes read iff its request succeeds, and nothing else changes. When every request succeeds, none is left unread. |
| ClientHistory.ByStatus | client/src/components/VolunteerHistory.js:37-40 | "all" keeps every record. Any other view keeps exactly the records of that status. |
| ClientHistory.ShownIsOneFilter | client/src/components/VolunteerHistory.js:34-52 | The shown list is the order-preserving subsequence passing both the status view and the search. |
| ClientHistory.SearchIgnoresCase | client/src/components/VolunteerHistory.js:43-49 | A term and its lower-case form show the same records. |
| ClientHistory.SearchFindsName | client/src/components/VolunteerHistory.js:45-47 | A record whose name contains the term, ignoring case, is found. |
| ClientHistory.StatusBadge | client/src/components/VolunteerHistory.js:54-62 | Each of the four statuses has a label and a class. An unknown status shows itself with no class. |
| ClientHistory.Counts | client/src/components/VolunteerHistory.js:64-71 | "all" is the length; the other counts are the sizes of the status views. |
| ClientHistory.CountsPartition | client/src/components/VolunteerHistory.js:64-71 | With known statuses, the three counted ones and the uncounted in-progress add up to the total. |
| ClientMatching.Round | client/src/components/VolunteerMatching.js:104 | `Math.round` gives the integer n with n ≤ x + 0.5 < n + 1. |
| ClientMatching.ClientScore | client/src/components/VolunteerMatching.js:93-106 | The client's score is never negative. |
| ClientMatching.ClientScoreIsRoundedServerScore | client/src/components/VolunteerMatching.js:96-105 | The client's score is the server's score, rounded. A positive score means a shared skill. |
| ClientMatching.Band | client/src/components/VolunteerMatching.js:175 | The band b satisfies 25·b ≤ score < 25·(b+1). |
| ClientMatching.BandRange | client/src/components/VolunteerMatching.js:175 | For skills listed once, the score is 0-100 and the band 0-4, with band 4 only at 100. |
| ClientMatching.AssignButton | client/src/components/VolunteerMatching.js:188-194 | The button is disabled, and captioned "Already Assigned", iff the volunteer is already assigned. |
| ClientMatching.ButtonFollowsHistory | client/src/components/VolunteerMatching.js:191 | On the server's list, a button is disabled iff a history record pairs the volunteer with the event. |
| ClientMatching.FindEvent | client/src/components/VolunteerMatching.js:43 | The selection is an event whose id is the parsed text. Without one, no event has that id. |
| ClientMatching.First | client/src/components/VolunteerMatching.js:43 | `find` gives an element with the id, or reports that none has it. |
| ClientMatching.FailureMessage | client/src/components/VolunteerMatching.js:84-90 | A refusal shows the server's error, or "Failed to assign volunteer". A thrown request shows "Server error. Please try again." |
| ClientMatching.MatchingPage.constructor | client/src/components/VolunteerMatching.js:5-10 | The page starts with the loaded events, no selection, no rows and no message. |
| ClientMatching.MatchingPage.SelectEvent | client/src/components/VolunteerMatching.js:42-65 | The selection becomes the found event and the message clears. Without an event the list empties. Otherwise it becomes the server's list, or stays when the fetch failed. |
| ClientMatching.MatchingPage.AssignAsWritten | client/src/components/VolunteerMatching.js:67-91 | As written, success reloads the list and leaves the message empty. A failure shows its message. |
| ClientMatching.MatchingPage.Assign | client/src/components/VolunteerMatching.js:80-83 | As intended, success reloads the list and keeps "Volunteer assigned successfully!". A failure shows its message. |
| ClientMatching.SuccessMessageLost | client/src/components/VolunteerMatching.js:80-83 | As written, after a successful assignment the message is empty. |
| ClientMatching.StoppedReply | server/middleware/rbac.js:10-26 | A middleware's refusal reaches the page as a refusal carrying its error text. |
| ClientMatching.AssignWithoutToken | client/src/components/VolunteerMatching.js:54-56 | As written, the requests carry no token. The list stays empty and assigning shows "Access token required". |
| ClientMatching.AdminRequestsAccepted | client/src/utils/auth.js:45-63 | With the bearer header an admin passes both middlewares of the matching routes. |
| EventForm.Toggle | client/src/components/EventForm.js:28-32 | An absent skill is appended at the end. A present one is removed wherever it occurs, and the list gets shorter. Other skills stay. |
| EventForm.ToggleDistinct | client/src/components/EventForm.js:28-32 | Toggling keeps a list without repeats free of repeats. |
| EventForm.ToggleTwice | client/src/components/EventForm.js:28-32 | Toggling an absent skill twice restores the list. A present one moves to the end. |
| EventForm.LevelCaption | client/src/components/EventForm.js:157 | The caption is the level with its first letter in capitals. |
| EventForm.UrgencyButtonCaption | client/src/components/EventForm.js:144 | The button shows the chosen level, or "Select Urgency ▼". |
| EventForm.CaptionLowerRoundTrip | client/src/components/EventForm.js:157 | Lower-casing the caption of a lower-case level gives back the level. |
| EventForm.LevelCaptionsIdentifyLevels | client/src/components/EventForm.js:5 | Each of the four levels the server accepts has its own caption, which lower-cases back to the level. |
| EventForm.ReplyAlert | client/src/components/EventForm.js:60-78 | Success alerts the server's message or the default. A refusal alerts `Error: ` with its text. A throw alerts the server-error text. |
| EventForm.Request | client/src/components/EventForm.js:42-51 | The request carries the eight inputs, the skills as an array. |
| EventForm.GuardedRequestErrors | client/src/components/EventForm.js:37-51 | A request that passed the guard, with listed skills and level and filled inputs, can only fail for a past date, times out of order, or a blank name, description or location. |
| EventForm.EventFormState.constructor | client/src/components/EventForm.js:17-24 | Every input starts empty. |
| EventForm.EventFormState.Type | client/src/components/EventForm.js:84-190 | Typing changes that one input only. |
| EventForm.EventFormState.ToggleSkill | client/src/components/EventForm.js:128 | A checkbox toggles its skill and changes nothing else. |
| EventForm.EventFormState.ChooseUrgency | client/src/components/EventForm.js:150-160 | Picking a level sets the urgency and changes nothing else. |
| EventForm.EventFormState.Submit | client/src/components/EventForm.js:34-79 | Without a skill or a level it alerts and sends nothing. Otherwise it sends the inputs, empties all eight when the server accepts, and keeps them otherwise. |
| ProfileForm.OfferedSkillsShort | client/src/components/ProfileForm.js:13-21 | Every offered skill is non-empty and within the server's 100 characters. |
| ProfileForm.SubmitBody | client/src/components/ProfileForm.js:118-123 | The body sends no userId, null for an empty address2 or preferences, the skills as chosen, and the non-empty availability entries. |
| ProfileForm.ClientValidServerValid | client/src/components/ProfileForm.js:35-60 | What the form's schema accepts, the server's schema accepts, with the same lists. |
| ProfileForm.SubmitMeetsSchema | client/src/components/ProfileForm.js:109-123 | Fields valid for the form, with sendable skills, meet the server's schema. |
| ProfileForm.SubmitKeepsLists | client/src/components/ProfileForm.js:118-123 | With filled entries, the server stores the lists the form shows. |
| ProfileForm.ServerAcceptsUnofferedSkill | client/src/components/ProfileForm.js:46-48 | The form refuses a skill outside its seven, and the server accepts it. |
| ProfileForm.SaveStatus | client/src/components/ProfileForm.js:126-135 | Success shows "Profile saved!". A refusal shows the server's error list, or its error text, or the default. |
| ProfileForm.FromProfile | client/src/components/ProfileForm.js:84-95 | A loaded profile fills the form: name, both address lines, city, state and zip are copied. Missing text becomes `""`. A list column read back as an array is kept; otherwise skills load as `[]` and availability as `[""]`. |
| ProfileForm.Load | client/src/components/ProfileForm.js:70-107 | A profile fills the form. A null or refused reply shows the defaults. A throw keeps the form and shows "Failed to load profile". |
| ProfileForm.LoadSubmitRoundTrip | client/src/components/ProfileForm.js:84-123 | Loading a saved profile and submitting it unchanged saves the same row. |
| ProfileForm.FormRequestsRefused | client/src/components/ProfileForm.js:76-81 | As written, the form's requests carry no token. They are refused with "Access token required", and the form shows the defaults. |
| ProfileForm.AuthorizedRequestAccepted | client/src/utils/auth.js:27-33 | With a bearer header, the request authenticates. The form shows the caller's profile, or the defaults. |

## Left out

- The Express plumbing is not modelled:
  - routing, the response JSON, CORS, the static files and the server start-up (server/server.js:1-30, 119-123);
  - the 500 answers of thrown exceptions, and the mapping of Sequelize error classes (server/routes/matching.js:331-372).
  - A failure of a row in a column constraint is one outcome per route.
- JSON Web Tokens and bcrypt are parameters, so their cryptography is not modelled.
- `Date`, time zones and locales are not modelled:
  - `toDateString`, `toISOString` and the UTC/local day difference are all one `DateParser` oracle;
  - the long date text is an oracle, and "today at midnight" is a parameter.
- Sequelize `DATEONLY` is not modelled; event dates are calendar triples.
- The string `<` of times is lexicographic on characters, as in JavaScript. The client's `Date` maths on times is not modelled.
- Floating point is not modelled: the score is an exact real.
- Lower and upper case are mapped for ASCII letters only. Whitespace is the JavaScript whitespace set without Unicode categories.
- Non-text values in text fields are treated as absent (`Option<string>`). A field that JavaScript would coerce from a number is not modelled.
- The database's order for equal sort keys is not modelled; it is taken to be table order.
- Which texts the database converts to an INTEGER id (a body id sent as text, a path `:id`) is a parameter, `IdCoercion`: the model does not fix SQL Server's conversion rules, only that a refused text makes the statement fail with 500.
- The `userId` of a query is read with `parseInt`; Sequelize's own coercion of the query text is not modelled.
- Concurrency is not modelled: two `assign` calls racing between the check and the insert, and React's batched state updates.
  - `markAllAsRead` is modelled as sequential calls without the refetch of each call.
- yup's message texts and their order in the error list are not modelled; errors are a datatype.
- The profile update path when the body carries a `userId` is not modelled. `existingProfile.update(data)` would also overwrite the key column; the model updates under the token's `sub`.
- The routes `GET /api/auth/me` and `GET /api/matching/volunteers` are not modelled. They are single lookups with no rule beyond authentication.
- Loading spinners, dropdown open/close state, the message's CSS class, the icons of the notifications page, and the client's fetch of the events list are not modelled.
- The browser's `required` and `maxLength` attributes are not modelled as an operation. They appear as preconditions of `EventForm.GuardedRequestErrors`.
- `Matching.DecodeList`: a stored text whose JSON is not an array (a quoted string, a number, an object) is not modelled, because the decoder returns lists only. The route would keep such a string, so `includes` would test substrings and `length` would count characters (server/routes/matching.js:65-67, 103-109); the model reads the text as `[]` or as the list the decoder gives.
- `Matching.Suggestions`: the row field `assigned` is called `assignedToEvent`, because `assigned` is a reserved word.
- `Matching.Assign`: the check chain is evaluated as one function, `AssignRefusal`. Its order is stated by `Matching.AssignRefusalOrder`.
- String lengths are counted in Unicode scalar values, while JavaScript's `length` and `substring` count UTF-16 code units. A character outside the Basic Multilingual Plane counts 1 here and 2 in the source. So every width check and cut can differ for such text: the name limits, the password's 8-128 rule, `Take` at 100, 255 and 20, and the column widths.
- `ProfileForm.FromProfile`: a list column read back as a non-empty text is kept as that text by the page. The model's form holds lists only, so it loads skills as `[]` and availability as `[""]` there.
- `CreateEvent.SkillsToCheck`: an array entry that is not a text is not modelled, because request arrays hold texts (`ListField.Items`). A lone value that is not a text is modelled.
- Referential integrity is modelled as the store's `ReferencesValid` invariant. It assumes the `associate` functions of the models are called at start-up, so `sync()` (server/server.js:119) creates the foreign keys. server/models/index.js, which would call them, is not part of this model.
- `Store.Database.CreateUser`: the database's `unique` check on the email is a precondition. Registration looks the email up first, so the check never fails.
- `Matching.MatchScoreAtMost100`: proved only for a volunteer whose skills are listed once each. `Matching.MatchScoreCountsRepeats` shows a score of 200 otherwise.
- server/routes/Events.js, server/scripts/seedUsers.js, client/src/App.js and client/src/components/LoginRegister.js are not part of this model.

## Findings

| source | as written | input that shows it | evidently intended | confidence | as-written member | corrected member |
|---|---|---|---|---|---|---|
| server/routes/profile.js:99-102 | The created row is `{ userId, ...data }`, and `data` keeps unknown keys, so a `userId` in the body overrides the token's `sub` | token sub 1, body with `userId: 2` and a valid profile: the new profile is filed under user 2 | The profile is always keyed on the token's `sub` | not executed | Profiles.CreateAsWrittenIgnoresToken | Profiles.SaveProfile |
| client/src/components/VolunteerMatching.js:80-83 | The success message is set, then `handleEventSelect` runs, and that begins with `setMessage("")` (line 45) | any successful assignment with an event selected: the page ends with an empty message | "Volunteer assigned successfully!" stays on the page after the reload | not executed | ClientMatching.SuccessMessageLost | ClientMatching.MatchingPage.Assign |
| client/src/components/ProfileForm.js:76-81 | The profile requests send only an `x-user-id` header, while both profile routes sit behind `authenticateToken` | any load or save: the answer is 401 "Access token required"; the form shows the defaults or that error | The requests carry the bearer token, as `authFetch` does | not executed | ProfileForm.FormRequestsRefused | ProfileForm.AuthorizedRequestAccepted |
| client/src/components/VolunteerMatching.js:54-56 | The suggestion and assign requests use a plain `fetch` without `Authorization`, while both routes run `authenticateToken` and `requireAdmin` | any admin session: the list never loads, and assigning shows "Access token required" | The requests carry the bearer token, as `authFetch` does | not executed | ClientMatching.AssignWithoutToken | ClientMatching.AdminRequestsAccepted |
