# FieldBooker in Dafny

A model of the booking core of FieldBooker, a football-pitch booking
application. It covers:

- the `bookings` record and its server-side acceptance rule
  (`insertBookingSchema`);
- the three booking stores (`MemStorage`, the earlier `MemStorage` that
  normalises notes and status, and the table-backed `DatabaseStorage`);
- the request handlers that create a booking (with the one-confirmed-booking
  per slot check), delete one and log the administrator in;
- the single-administrator JWT gate and the session service with its users
  and sessions tables;
- the WhatsApp notification text;
- the client's helpers: hour labels, weekday names, phone check and clean-up,
  the booking form's validation and request body, and the evening slot grid
  with its click handling.

Each stateful source class is a Dafny `class` whose methods state the whole
new state. Each pure helper is a function whose contract, or the lemmas next
to it, states what the source promises.

Files and modules:

| file | module | models |
|---|---|---|
| text.dfy | `Text` | JavaScript string helpers used throughout: `replace(/\D/g, '')`, `replace(/\s+/g, '')`, `trim`, `split` segments, `parseInt`, number rendering |
| schema.dfy | `Schema` | shared/schema.ts |
| mem_storage.dfy | `MemStore` | server/storage.ts, plus the list queries every store shares |
| mem_storage_old.dfy | `MemStoreOld` | server/storage-old.ts, class `MemStorage` |
| db_storage.dfy | `DbStore` | server/database-storage.ts |
| routes.dfy | `Routes` | server/routes.ts: `POST /api/bookings`, `DELETE /api/bookings/:id`, `POST /api/auth/login` |
| simple_auth.dfy | `SimpleAuth` | server/simple-auth.ts |
| auth_service.dfy | `AuthService` | server/auth-service.ts |
| whatsapp.dfy | `WhatsApp` | the formatters of server/whatsapp-service.ts |
| weekdays.dfy | `Weekdays` | the `dayNames[day] \|\| day` lookup the client and the notifier share |
| client_utils.dfy | `ClientUtils` | client/src/lib/utils.ts |
| booking_form.dfy | `BookingForm` | client/src/components/booking-form.tsx |
| time_slot_grid.dfy | `TimeSlotGrid` | client/src/components/time-slot-grid.tsx |
| cross_checks.dfy | `CrossChecks` | where the grid, the server's slot rule and the hour helpers disagree |

Modelling conventions:

- **Time.** Time is an integer number of milliseconds (`now`). "Today" is
  the date string the caller supplies.
- **External calls.** bcrypt `compare`, JWT `sign`/`verify`,
  `crypto.randomUUID` and `new Date(string)` are function parameters. A
  database call that throws is a `fails` flag.
- **Iteration order.** A JavaScript `Map` iterates in insertion order. Ids
  are handed out by an increasing counter and never reinserted, so the
  model lists a store's values in ascending id order.
- **NaN.** `parseInt` yields `None` for NaN, and NaN compares false
  everywhere it is compared.
- **Request order.** Requests are handled one at a time.
- **String length.** Where the source compares a `length`, the model
  counts UTF-16 code units (`Text.Utf16Length`), as JavaScript does.

Proved highlights:

- **Slot rule.** `POST /api/bookings` keeps "at most one confirmed booking
  per (day, date, time)" whenever the day's bookings could be read.
  `DELETE` keeps it always. A read failure breaks the rule (see Findings).
- **DELETE replies.** With `DatabaseStorage`, `DELETE` answers 404 exactly
  when the database fails or refuses the id (NaN, or beyond the 32-bit
  column), never for a missing id. With `MemStorage`, 404
  means the id is absent.
- **Sessions.** A session-service login yields a token that validates for
  24 hours to the same user. Logout revokes exactly that session. Cleanup
  never changes a validation outcome.
- **Form and schema.** The form's phone check accepts "5" and eight digits,
  which the schema refuses. The form's name check is stricter than the
  schema's.
- **Slot grid.** The grid has exactly twelve slots with distinct times.
  Booked means some fetched booking of any status has that time, so an
  unconfirmed booking blocks the slot in the grid but not on the server.
  At most one slot is selected. Clicking toggles the selection.
- **Hour labels.** The grid shows midnight as "12:00 ص". The hour helpers
  show it as "0:00 ص", and the 23:00 slot's range label ends at "12:00 م".

## Model

| member | source | states |
|---|---|---|
| Schema.NotesOrNull | server/database-storage.ts:59 | a falsy note (absent, null or empty) becomes null; a non-empty note is kept |
| Schema.ParseInsertBooking | shared/schema.ts:17-28 | accepted exactly when the name's UTF-16 length ≥ 2, phone matches `05` + 8 digits and day, time, date are non-empty; a rejection lists exactly the failing fields; an accepted input copies the fields and defaults status to "confirmed" |
| Schema.PhonePatternShape | shared/schema.ts:22 | the phone regex holds exactly for "05" followed by eight ASCII digits |
| Schema.AcceptedPhoneFitsColumn | shared/schema.ts:8 | an accepted phone fits the 15-character `customer_phone` column |
| Schema.ParseIgnoresIdAndCreatedAt | shared/schema.ts:17-20 | a client-sent `id` or `createdAt` never changes the outcome |
| Schema.UntrimmedNameAccepted | shared/schema.ts:21 | the name is not trimmed: two spaces and a letter pass |
| Schema.AstralCharName | shared/schema.ts:21 | one character outside the Basic Multilingual Plane (an emoji) passes as a name on its own; one ordinary character does not |
| Text.DigitsOnly | client/src/lib/utils.ts:45 | the result holds only digits and is no longer than the input |
| Text.DigitsOnlyKeepsDigits | client/src/lib/utils.ts:45 | removing non-digits leaves an all-digit string unchanged |
| Text.DigitsOnlyDropsOthers | client/src/lib/utils.ts:45 | non-digit characters contribute nothing to the result |
| Text.RemoveSpaces | client/src/components/booking-form.tsx:73 | the result holds no JavaScript whitespace |
| Text.RemoveSpacesKeeps | client/src/components/booking-form.tsx:73 | a string without whitespace is left unchanged |
| Text.Trim | client/src/components/booking-form.tsx:67 | the result is a slice of the input with no leading or trailing whitespace, and only whitespace was removed |
| Text.Utf16Length | shared/schema.ts:21 | JavaScript's `length`: at least one unit per character and at most two (a character outside the Basic Multilingual Plane takes two) |
| Text.FirstSegment | client/src/lib/utils.ts:19 | `split(':')[0]`: the longest prefix without the separator |
| Text.SecondSegment | server/whatsapp-service.ts:65 | `split(':')[1]`: absent exactly when there is no separator, and never contains one |
| Text.SecondSegmentOf | server/whatsapp-service.ts:65 | the second segment of "a:t..." is t |
| Text.IntToString | client/src/lib/utils.ts:22 | `${n}`: non-empty, a leading '-' exactly for negatives, digits otherwise (inverted by `parseInt`, see ParseIntOfIntToString) |
| Text.NatToString | client/src/components/time-slot-grid.tsx:37 | a number renders as a non-empty string of digits |
| Text.ParseIntOfIntToString | client/src/lib/utils.ts:19 | `parseInt` of a rendered integer followed by a non-digit gives the integer back |
| Text.IntToStringInjective | client/src/lib/utils.ts:19 | distinct integers render differently |
| Text.HourOfTime | client/src/lib/utils.ts:19 | the hour parsed from "h:mm" is h, for every integer h |
| Text.HourOfPaddedTime | client/src/components/time-slot-grid.tsx:52 | the hour parsed from a zero-padded "0d:mm" is d |
| Text.ParseIntNaN | server/routes.ts:133 | `parseInt` is NaN when, after leading whitespace, neither a sign nor a digit follows |
| MemStore.OnDay | server/storage.ts:36-40 | a booking is kept exactly when it is in the list with that day and date |
| MemStore.CountOnDate | server/storage.ts:67 | bounded by the list; zero exactly when no booking has that date (its value is fixed by CountOnDateAppend) |
| MemStore.CountCreatedSince | server/storage.ts:68 | bounded by the list; zero exactly when every booking was created before the bound (its value is fixed by CountCreatedSinceAppend) |
| MemStore.CountCreatedSinceAppend | server/storage.ts:68 | appending a booking raises the count by one exactly when it was created at or after the bound |
| MemStore.CountOnDateAppend | server/storage.ts:67 | appending a booking raises the count by one exactly when it is dated today |
| MemStore.SortNewestFirst | server/storage.ts:30-34 | the sort is a permutation of the stored bookings and orders them newest first |
| MemStore.RoundHalfUp | server/storage.ts:74 | `Math.round(n / d)` is the integer within one half of n/d, halves rounding up |
| MemStore.MemStats | server/storage.ts:57-82 | today's count is the number of bookings dated today, the week's count the number created at or after now minus seven days; both bounded by the bookings; revenue is 100 per weekly booking; occupancy lies in [0, 100] and reaches 100 only when at least 56 bookings fall in the week; an empty store gives all zeros |
| MemStore.MemStatsAppend | server/storage.ts:67-69 | one more booking adds one to today's count exactly when dated today, and one to the week's count and 100 to the revenue exactly when created within the week |
| MemStore.MemOccupancyIsRoundedPercentage | server/storage.ts:73-80 | occupancy is the weekly count as a percentage of 56 slots, rounded to nearest, capped at 100 |
| MemStore.ValuesFrom | server/storage.ts:37 | lists the map's bookings for a key range, in ascending key order, each exactly once |
| MemStore.MemStorage.constructor | server/storage.ts:21-24 | an empty map and a counter at 1 |
| MemStore.MemStorage.Values | server/storage.ts:66 | exactly the stored bookings, in ascending id (insertion) order |
| MemStore.MemStorage.GetBooking | server/storage.ts:26-28 | a booking exactly when the id is a key, and then the booking with that id |
| MemStore.MemStorage.GetAllBookings | server/storage.ts:30-34 | every stored booking once, newest first |
| MemStore.MemStorage.GetBookingsByDay | server/storage.ts:36-40 | exactly the stored bookings with that day and date, of any status |
| MemStore.MemStorage.CreateBooking | server/storage.ts:42-51 | the booking gets the counter's value as id (larger than every stored id) and the creation time; it is stored under that id, nothing else changes, the counter advances |
| MemStore.MemStorage.DeleteBooking | server/storage.ts:53-55 | answers whether the id was stored; afterwards it is absent and every other entry is unchanged |
| MemStore.MemStorage.GetBookingStats | server/storage.ts:57-82 | the summary of the stored bookings: today's count by date, the week's count by creation time, revenue 100 per weekly booking, occupancy in [0, 100], zeros when empty |
| MemStoreOld.StatusOrDefault | server/storage-old.ts:193 | an empty status becomes "confirmed", any other is kept; the result is never empty |
| MemStoreOld.MemStorage.constructor | server/storage-old.ts:162-165 | an empty, normalised store with the counter at 1 |
| MemStoreOld.MemStorage.Values | server/storage-old.ts:213 | exactly the stored bookings, in ascending id order |
| MemStoreOld.MemStorage.GetBooking | server/storage-old.ts:167-169 | a booking exactly when the id is a key, and then the booking with that id |
| MemStoreOld.MemStorage.GetAllBookings | server/storage-old.ts:171-175 | every stored booking once, newest first |
| MemStoreOld.MemStorage.GetBookingsByDay | server/storage-old.ts:177-181 | exactly the stored bookings with that day and date, of any status |
| MemStoreOld.MemStorage.CreateBooking | server/storage-old.ts:183-198 | stores the booking with `notes \|\| null` and `status \|\| "confirmed"` under a fresh id; every stored booking keeps a non-empty status and a null or non-empty note |
| MemStoreOld.MemStorage.DeleteBooking | server/storage-old.ts:200-202 | answers whether the id was stored and removes only that entry |
| MemStoreOld.MemStorage.GetBookingStats | server/storage-old.ts:204-229 | the same summary of the stored bookings as the current store: today's count by date, the week's count by creation time, revenue 100 per weekly booking, occupancy in [0, 100] |
| DbStore.WithoutId | server/database-storage.ts:72 | for an id the column accepts, a row survives exactly when its id differs from it; ascending ids stay ascending |
| DbStore.CountDatedSince | server/database-storage.ts:93 | bounded by the rows; zero exactly when no row's date parses to a time at or after the bound (its value is fixed by CountDatedSinceAppend) |
| DbStore.CountDatedSinceAppend | server/database-storage.ts:93 | appending a row raises the count by one exactly when its date parses to a time at or after the bound |
| DbStore.DbStats | server/database-storage.ts:86-102 | today's count is the number of rows dated today, the week's count the number whose date parses to a time at or after now minus seven days; revenue is 7000 per weekly booking; occupancy is today's count as an unrounded share of 14 slots, in [0, 100], and 100 exactly when at least 14 bookings are dated today; empty rows give zeros |
| DbStore.DbStatsAppend | server/database-storage.ts:92-94 | one more row adds one to today's count exactly when dated today, and one to the week's count and 7000 to the revenue exactly when its date falls within the week |
| DbStore.FirstWithId | server/database-storage.ts:23 | a row with that id, and none only when no row has it |
| DbStore.DatabaseStorage.constructor | server/database-storage.ts:20 | an empty table whose serial starts at 1 |
| DbStore.DatabaseStorage.GetBooking | server/database-storage.ts:21-29 | a stored row with that id, found whenever one exists; nothing on failure |
| DbStore.DatabaseStorage.GetAllBookings | server/database-storage.ts:31-38 | every row once; the empty list on failure |
| DbStore.DatabaseStorage.GetBookingsByDay | server/database-storage.ts:40-52 | exactly the rows with that day and date, of any status; the empty list on failure |
| DbStore.DatabaseStorage.CreateBooking | server/database-storage.ts:54-68 | appends the input with `notes \|\| null`, the next serial id and the creation time, and returns it; a failure changes nothing and returns no booking |
| DbStore.DatabaseStorage.DeleteBooking | server/database-storage.ts:70-78 | answers true exactly when the database does not fail and the id fits the 32-bit column (NaN and larger ids make the query throw), whether or not a row matched; then only rows with that id are removed, otherwise nothing |
| DbStore.DatabaseStorage.GetBookingStats | server/database-storage.ts:80-112 | the summary of the stored rows (today's count by date, the week's count by parsed date, revenue 7000 per weekly booking, occupancy in [0, 100]); all zeros on failure |
| Routes.SlotTaken | server/routes.ts:103-105 | true exactly when some listed booking has that time and status "confirmed" |
| Routes.AppendKeepsOneConfirmedPerSlot | server/routes.ts:101-111 | inserting after the slot check passed keeps at most one confirmed booking per (day, date, time) |
| Routes.WithoutIdKeepsOneConfirmedPerSlot | server/routes.ts:131-144 | deleting by id keeps the rule |
| Routes.PostStatus | server/routes.ts:107-126 | 201 exactly for a created booking; 400 exactly for a schema rejection or a taken slot |
| Routes.PostBooking | server/routes.ts:97-128 | 401 without a token and 403 for a bad one; 400 with the failing fields on a schema rejection; 400 when a confirmed booking holds the slot (an unconfirmed one does not block); 201 with the stored booking whenever the insert succeeds after the check passed, the serial advancing by one; 500 exactly when the insert fails after the check passed; nothing is written unless 201; the slot rule is kept whenever the day's read succeeded, and a failed read lets the insert through |
| Routes.SwallowedReadAdmitsDoubleBooking | server/database-storage.ts:48-51 | a failed day read returns no bookings, so the slot check passes and the twin of a confirmed booking breaks the rule |
| Routes.ReadDay | server/routes.ts:102 | the day's bookings, or nothing exactly when the read fails |
| Routes.PostBookingGuarded | server/routes.ts:97-128 | the handler with a read failure answered 500: otherwise the same replies (201 with the stored booking when the slot is free and the insert succeeds, 500 exactly when the read or the insert fails), and the slot rule holds after every request |
| Routes.DeleteStatus | server/routes.ts:136-142 | 404 exactly for "not found" |
| Routes.DeleteReplyFor | server/routes.ts:136-140 | 404 exactly when storage answers false, 200 exactly when it answers true |
| Routes.DeleteBooking | server/routes.ts:131-144 | over `DatabaseStorage`: 404 exactly when the database fails or refuses the parsed id (NaN or beyond 32 bits), otherwise 200; after 200 the rows lose exactly that id, after 404 nothing changes; the serial never moves; never 500; the slot rule is kept |
| Routes.MissingIdStillDeleted | server/database-storage.ts:70-78 | a request for an id that fits the column but is not stored leaves the rows unchanged and still answers 200 |
| Routes.MalformedIdRefused | server/routes.ts:133-138 | a path segment starting with no digit, sign or space parses to NaN, which the column refuses: 404 |
| Routes.LargeIdRefused | server/routes.ts:133-138 | a number beyond 32 bits is refused by the column: 404 |
| Routes.DeleteBookingMem | server/routes.ts:131-144 | over `MemStorage`: 404 exactly when the parsed id is not a stored key, and then the map is unchanged; after a 200 exactly that key is removed; the counter never moves; never 500 |
| Routes.LoginStatus | server/routes.ts:46-50 | 200 exactly for a login, 401 exactly for bad credentials |
| Routes.Login | server/routes.ts:41-57 | 200 exactly when `loginUser` succeeds, with the signed administrator token, id 1, name and role "admin" |
| Routes.LoginFailureIsUniform | server/routes.ts:44-50 | a wrong name and a wrong password get the same 401 reply |
| SimpleAuth.LoginUser | server/simple-auth.ts:15-25 | a result exactly for the name "admin" with a password that matches the hash; the token signs id 1, "admin", "admin" |
| SimpleAuth.BearerToken | server/simple-auth.ts:28-29 | the second space-separated part of the header, when present and non-empty |
| SimpleAuth.GateStatus | server/simple-auth.ts:31-37 | 200 exactly for a passing gate |
| SimpleAuth.AuthenticateToken | server/simple-auth.ts:27-42 | 401 exactly when no token can be taken from the header, 403 exactly when `verify` rejects it, otherwise pass with the decoded claims |
| SimpleAuth.GetCurrentUser | server/simple-auth.ts:44-51 | the decoded claims, or null exactly when verification fails |
| SimpleAuth.BearerTokenOfHeader | server/simple-auth.ts:28-29 | "scheme token …" hands the gate exactly that token |
| SimpleAuth.EmptyBearerUnauthorized | server/simple-auth.ts:29-33 | "Bearer", "Bearer " and a double space before the token are answered 401 |
| SimpleAuth.LoginThenAuthenticate | server/simple-auth.ts:15-42 | a token from a successful login, sent as "Bearer token", passes with the administrator's claims |
| SimpleAuth.GateAgreesWithGetCurrentUser | server/simple-auth.ts:27-51 | the gate passes a well-formed header exactly when `getCurrentUser` decodes the token, with the same claims |
| AuthService.FindActiveUserByName | server/auth-service.ts:33-38 | an active user with that name, and none only when no such user is active |
| AuthService.FindActiveUserById | server/auth-service.ts:86-91 | an active user with that id, and none only when no such user is active |
| AuthService.FindLiveSession | server/auth-service.ts:74-79 | a session with that id expiring after now, and none only when every such session has expired |
| AuthService.Validate | server/auth-service.ts:69-97 | a user exactly when the token verifies, its session is live and that session's user is active; the user returned is the one whose id is the session's `userId` |
| AuthService.TouchLastLogin | server/auth-service.ts:45-47 | only the rows with that id get the new `lastLogin` |
| AuthService.WithoutSession | server/auth-service.ts:100 | a session survives exactly when its id differs |
| AuthService.Unexpired | server/auth-service.ts:104 | a session survives exactly when `now` is not past its expiry |
| AuthService.AuthService.Login | server/auth-service.ts:32-67 | null exactly when no active user has the name or the password fails, changing nothing; otherwise that user's `lastLogin` is set, a 24-hour session with the fresh id is added, and the token signs user id, session id and name; a failing select or update throws and changes nothing, a failing session insert throws after `lastLogin` was already set |
| AuthService.AuthService.ValidateSession | server/auth-service.ts:69-97 | null on a database failure; otherwise the validation of the stored tables; a returned user is stored and active; an unverifiable token gives null |
| AuthService.AuthService.Logout | server/auth-service.ts:99-101 | removes exactly the sessions with that id; session ids stay distinct |
| AuthService.AuthService.CleanExpiredSessions | server/auth-service.ts:103-105 | removes exactly the expired sessions; session ids stay distinct |
| AuthService.WithoutSessionKeepsDistinct | server/auth-service.ts:99-101 | logout keeps session ids distinct |
| AuthService.UnexpiredKeepsDistinct | server/auth-service.ts:103-105 | cleanup keeps session ids distinct |
| AuthService.CleanupKeepsValidation | server/auth-service.ts:103-105 | cleanup at a time never changes the outcome of validation at that time or later |
| AuthService.LogoutRevokes | server/auth-service.ts:99-101 | after logout, a token for that session no longer validates |
| AuthService.LogoutKeepsOtherSessions | server/auth-service.ts:99-101 | logout leaves the validation of every other session's token unchanged |
| AuthService.LogoutIdempotent | server/auth-service.ts:99-101 | logging out twice is logging out once |
| AuthService.FindLiveSessionAppended | server/auth-service.ts:53-57 | a freshly inserted unexpired session is found by its id |
| AuthService.FindActiveUserByIdUnique | server/auth-service.ts:86-91 | with distinct ids, the active user with a given id is found |
| AuthService.LoginThenValidate | server/auth-service.ts:32-97 | a login's token validates for the next 24 hours to the user who logged in, with the new `lastLogin` |
| Weekdays.Lookup | client/src/lib/utils.ts:35 | the table's non-empty entry, or the key itself when the entry is missing or empty |
| Weekdays.ClientNamesWellFormed | client/src/lib/utils.ts:26-34 | the client's table has exactly the seven weekday keys and no empty name |
| WhatsApp.GetDayNameArabic | server/whatsapp-service.ts:51-62 | the notifier's name for one of its seven keys, anything else unchanged |
| WhatsApp.Hour12 | server/whatsapp-service.ts:68 | a 12-hour clock hour in 1..12 for every hour 0..24, NaN staying NaN |
| WhatsApp.Period | server/whatsapp-service.ts:67 | the evening word exactly from hour 12 on |
| WhatsApp.FormatTimeArabic | server/whatsapp-service.ts:64-70 | ends with the period word (evening exactly from noon); a time without ':' shows "undefined" for the minutes (the "h:mm" case is FormatTimeArabicOfTime) |
| WhatsApp.FormatTimeArabicOfTime | server/whatsapp-service.ts:64-70 | on "h:mm": the 12-hour clock hour (12 at midnight), the minutes as given, and the evening word exactly from noon |
| WhatsApp.NotesPart | server/whatsapp-service.ts:45 | a notes line only for a non-empty note |
| WhatsApp.FormatBookingMessage | server/whatsapp-service.ts:34-49 | the customer's name follows the opening text, and the weekday appears by its table name after the phone |
| WhatsApp.MessageQuotesNameAndDay | server/whatsapp-service.ts:34-42 | for any fixed text, the name and the day name appear verbatim at their places |
| WhatsApp.MessageQuotesFields | server/whatsapp-service.ts:34-48 | name, phone and date appear verbatim right after their labels |
| WhatsApp.MessageQuotesNotes | server/whatsapp-service.ts:45 | a non-empty note appears verbatim just before the closing text |
| WhatsApp.MessageIgnoresFalsyNotesAndStatus | server/whatsapp-service.ts:45-48 | falsy notes and the booking's status never change the message (it always says confirmed) |
| ClientUtils.DisplayHour | client/src/lib/utils.ts:20 | NaN exactly for NaN; hours 0..24 show as 0..12 |
| ClientUtils.Period | client/src/lib/utils.ts:21 | 'م' exactly from hour 12 on, otherwise 'ص' |
| ClientUtils.FormatArabicTime | client/src/lib/utils.ts:18-23 | ends in 'م' exactly when the parsed hour is 12 or more; a time without a leading number reads "NaN:00 ص" |
| ClientUtils.FormatArabicTimeOfHour | client/src/lib/utils.ts:18-23 | on "h:mm": h − 12 after noon, h otherwise (midnight is 0), then 'م' exactly from noon |
| ClientUtils.FormatArabicTimeIsHourLabel | client/src/lib/utils.ts:18-23 | the label of "h:mm" depends on h only |
| ClientUtils.GetDayNameArabic | client/src/lib/utils.ts:25-36 | the Arabic name for the seven keys, anything else unchanged |
| ClientUtils.ValidateSaudiPhoneNumber | client/src/lib/utils.ts:38-41 | agrees exactly with the server's phone rule |
| ClientUtils.FormatSaudiPhoneNumber | client/src/lib/utils.ts:43-49 | the first ten digits of the input, in order; all of them when there are at most ten |
| ClientUtils.FormatSaudiPhoneNumberIdempotent | client/src/lib/utils.ts:43-49 | cleaning twice is cleaning once |
| ClientUtils.FormatSaudiPhoneNumberKeepsValid | client/src/lib/utils.ts:43-49 | a valid number is left unchanged |
| ClientUtils.IsValidBookingTime | client/src/lib/utils.ts:57-61 | a valid time always has a parseable hour |
| ClientUtils.IsValidBookingTimeOfHour | client/src/lib/utils.ts:57-61 | on "h:mm", exactly the hours 16 to 22 are valid |
| BookingForm.BookingForm.constructor | client/src/components/booking-form.tsx:27-33 | empty fields, terms unticked, no errors |
| BookingForm.BookingForm.ValidateForm | client/src/components/booking-form.tsx:64-83 | the name fails when its trimmed UTF-16 length is below 2; one error per failing rule, each with its message, none for a passing rule; valid exactly when there is no error; the form data is untouched |
| BookingForm.BookingForm.HandleSubmit | client/src/components/booking-form.tsx:85-103 | a request body exactly when the form validates, and then the submitted body |
| BookingForm.SubmittedBody | client/src/components/booking-form.tsx:92-100 | the body copies the form's name, phone and notes as typed and the selected day, time and date, has status "confirmed" and no id or creation time |
| BookingForm.FormatPhoneNumber | client/src/components/booking-form.tsx:113-115 | digits only, at most ten, and the same as the library's phone clean-up |
| BookingForm.GetDayName | client/src/components/booking-form.tsx:117-128 | the same table as the library's weekday lookup |
| BookingForm.FormatTime | client/src/components/booking-form.tsx:130-138 | the range label starts with what `formatArabicTime` shows for the same time; NaN on both sides for a time without a leading number |
| BookingForm.FormatTimeOfHour | client/src/components/booking-form.tsx:130-138 | the label of "h:mm" is hour h's label, a dash and hour h + 1's label |
| BookingForm.FormatTimeOfParsedHour | client/src/components/booking-form.tsx:130-138 | every time whose hour parses as h gets the same range label |
| BookingForm.FilteredPhoneChecks | client/src/components/booking-form.tsx:72-73 | a filtered phone passes the form exactly when it is "05" + 8 digits or "5" + 8 digits |
| BookingForm.NineDigitPhoneAcceptedByFormOnly | client/src/components/booking-form.tsx:72-73 | "5" + 8 digits passes the form but not the server |
| BookingForm.FormNameStricterThanSchema | client/src/components/booking-form.tsx:67 | a name the form accepts passes the schema, but " a" passes the schema and not the form |
| BookingForm.ValidFormReachesServer | client/src/components/booking-form.tsx:92-100 | a valid form with a filtered phone is accepted by the server exactly when the phone has ten digits |
| TimeSlotGrid.BookedTimes | client/src/components/time-slot-grid.tsx:33 | exactly the times of the fetched bookings, whatever their status; none before data arrives |
| TimeSlotGrid.PadStart2 | client/src/components/time-slot-grid.tsx:52 | a one-digit string gets one leading zero; longer strings are kept |
| TimeSlotGrid.Grid | client/src/components/time-slot-grid.tsx:31-69 | the grid has twelve slots |
| TimeSlotGrid.GenerateTimeSlots | client/src/components/time-slot-grid.tsx:31-69 | the two loops build exactly the grid |
| TimeSlotGrid.GridSpelledOut | client/src/components/time-slot-grid.tsx:36-66 | the times are 15:00 … 23:00, 00:00, 01:00, 02:00 and the labels 3:00 م … 11:00 م, 12:00 ص, 1:00 ص, 2:00 ص, in that order |
| TimeSlotGrid.GridTimesDistinct | client/src/components/time-slot-grid.tsx:37-52 | no two slots share a time |
| TimeSlotGrid.GridStatus | client/src/components/time-slot-grid.tsx:45-63 | booked exactly when a fetched booking has the slot's time; selected exactly when not booked and the time is the selection |
| TimeSlotGrid.BookedIgnoresSelection | client/src/components/time-slot-grid.tsx:45-63 | whether a slot is booked does not depend on the selection |
| TimeSlotGrid.AtMostOneSelected | client/src/components/time-slot-grid.tsx:45-63 | at most one slot is selected |
| TimeSlotGrid.HandleTimeClick | client/src/components/time-slot-grid.tsx:73-88 | no call exactly for a booked slot; otherwise the selection toggles: the clicked time unless it is already selected, then empty |
| TimeSlotGrid.ClickThenRegenerate | client/src/components/time-slot-grid.tsx:73-88 | a booked slot ignores clicks; an available slot becomes the only selected one; clicking the selected slot leaves none selected; booked slots stay booked |
| CrossChecks.UnconfirmedBookingBlocksOnlyTheGrid | client/src/components/time-slot-grid.tsx:33-46 | a slot holding only unconfirmed bookings is shown booked and ignores clicks, while the server's slot check lets it be booked |
| CrossChecks.SlotHourOf | client/src/components/time-slot-grid.tsx:36-52 | each slot's time parses to its hour: 15 … 23, then 0 … 2 |
| CrossChecks.GridSlotsOutsideBookingHours | client/src/lib/utils.ts:57-61 | `isValidBookingTime` refuses the grid's first slot and its last four |
| CrossChecks.GridLabelsAgreeExceptMidnight | client/src/components/time-slot-grid.tsx:53-55 | `formatArabicTime` labels every slot as the grid does except midnight |
| CrossChecks.LastEveningRangeEndsInEvening | client/src/components/booking-form.tsx:134-137 | the range label of an hour-23 time is "11:00 م - 12:00 م" |
| CrossChecks.MidnightRangeStartsAtZero | client/src/components/booking-form.tsx:130-137 | the range label of an hour-0 time is "0:00 ص - 1:00 ص" |

## Left out

- `FirebaseStorage`, the storage switch, the Firebase client and admin wrappers: thin calls into a library outside this repository.
- The GET routes, `/api/auth/me`, helmet and the rate limiters: they only pass data through or configure middleware.
- The login body's schema (`loginSchema`): shared/schema.ts does not define it, so the login handler's 400 branch is not modelled. The same holds for the `users` and `sessions` tables, whose rows are modelled from their use in server/auth-service.ts.
- `AuthService.createUser`, `getUserByUsername`, `hashPassword`, `verifyPassword`: creation and lookup helpers with no decision of their own; `verifyPassword` is the `compare` parameter.
- The WhatsApp `fetch`, `encodeURIComponent` and the CallMeBot URL: network I/O. The message's fixed text is kept character for character as the file has it (mis-encoded), and no proof depends on its content.
- React rendering, toasts, the mutation callbacks, `handleInputChange`, the loading state and the slot icons, texts and classes; the scroll after a click.
- `getNextSevenDays`, `formatArabicDate`, `generateBookingId`, `cn`: clock, locale and random based, or styling.
- Concurrency: requests run one at a time. Two POSTs racing between the slot read and the insert can both pass the check; the model does not represent that interleaving.
- Text.ParseInt: hexadecimal prefixes, "Infinity" and numbers beyond the safe-integer range are not modelled; only leading whitespace, a sign and decimal digits are.
- Weekdays.Lookup: keys inherited from `Object.prototype` (such as "constructor") are not modelled; they are not weekday keys.
- MemStore.MemStats: `Math.round((weekBookings / 56) * 100)` is computed exactly, not in floating point.
- DbStore.DbStats: `(todayBookings / 14) * 100` is an exact real, not a floating-point number.
- DbStore.DatabaseStorage.CreateBooking: a failed insert does not advance the serial counter, whereas PostgreSQL may consume a sequence value.
- DbStore.DatabaseStorage.GetAllBookings: SQL gives no row order; the model returns rows in insertion order and its contract states only the multiset.
- Schema.ParseInsertBooking: a `notes` or `status` value of a non-string type is not representable; `notes` is absent, null or a string, `status` absent or a string.
- SimpleAuth.LoginUser: the token's 24-hour expiry lives in `sign` and `verify`, which are parameters.
- BookingForm.BookingForm.ValidateForm: `setErrors` is a React state update; it is modelled as assigning the `errors` field at once.

## Findings

| source | as written | input that shows it | evidently intended | confidence | as-written member | corrected member |
|---|---|---|---|---|---|---|
| server/database-storage.ts:48-51 | `getBookingsByDay` catches a database error and returns `[]`, so `POST /api/bookings` sees an empty day, passes the slot check and inserts | a table holding one confirmed booking for (day, date, 16:00), then a POST for the same slot whose day read fails while the insert succeeds: two confirmed bookings of one slot | a failed read should fail the request (500), as a failed insert does, so the slot rule cannot be bypassed | not executed; medium (depends on a transient read failure) | Routes.SwallowedReadAdmitsDoubleBooking | Routes.PostBookingGuarded |
