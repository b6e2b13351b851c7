# Field-engineer attendance backend — a Dafny model

This project models the core of an Express/Mongoose backend. Field engineers use it to:

- mark attendance with a photo and a location;
- review their days, with distances between visits;
- keep monthly targets and achievements;
- keep a list of allocated sites.

The model covers these parts of the backend:

- the request handlers of the attendance, target, achievement, site-allocation and user controllers;
- the bearer-token middleware;
- the schemas of the target, achievement and site-allocation documents;
- the spreadsheet-to-JSON converter for the bulk target import.

Each module follows one part of the program:

| module | file | models |
|---|---|---|
| `Common` | common.dfy | JavaScript values and truthiness, `||` defaults, ASCII lower-casing, `String.split` |
| `Users` | users.dfy | the `User` document and `User.findOne({ email })` |
| `Attendance` | attendance.dfy | the attendance record, UTC day arithmetic, the date windows of the queries, by-date, filtered and summary handlers |
| `AttendanceCapture` | attendance_capture.dfy | `markAttendance`: data-URL parsing, the quality-stepping compression loop, the geocoding fallback, the stored record |
| `Distances` | distances.dfy | `calculateDistanceBetweenPoints` and `getAttendanceWithDistances` |
| `MonthlyRecords` | monthly_records.dfy | the `UserTarget` / `UserAchievement` schema: the month enum, validation, the `findIndex` upsert, the `filter` removal, the pre-save hook |
| `MonthlyStore` | monthly_store.dfy | the target and achievement controllers, which share one shape and differ in messages (`Kind`) |
| `SiteAllocation` | site_allocation.dfy | the site-allocation schema and controller |
| `Roster` | roster.dfy | the user controller: users without attendance today, engineers by state, update and delete by email |
| `RequireAuth` | require_auth.dfy | the bearer-token middleware |
| `ExcelImport` | excel_import.dfy | `convertExcelToJson` |

Modelling conventions:

- Instants are integers counting milliseconds since the epoch.
- A calendar day is the day number `DayOf(t) = t / 86400000` (UTC). It stands in for the `YYYY-MM-DD` string the store keeps in `date`.
- A collection is a `seq` in natural order. A collection of one document per user is a `map` from user id to document, held by a class whose methods update it in place.
- A JSON body field is a `JsValue`, a primitive value, so the handlers' `!x` and `===` tests are modelled exactly. String fields whose only test is truthiness are plain strings, with `""` standing for missing.
- Every handler answers with a `Response`: a status with a body, or a status with the `error` message.
- Clocks, the image encoder, the uploader, the geocoding and distance-matrix services, token verification and date parsing are parameters. A failure of any of them is a `None` or failed reply.

Two behaviours of the code that the model keeps as they are:

- `calculateDistanceBetweenPoints` has no "0 m" fallback. A reply without a readable distance, or with a status other than `OK`, makes it throw, and `getAttendanceWithDistances` then answers 500 "Server error".
- The filtered and with-distances queries end the day at 23:59:59.999 with a strict `$lt`, so the last millisecond of the day is excluded. The by-date query uses `[midnight, midnight + 24h)`, and the summary query is closed at both ends.

The handlers are modelled as written, including the two defects listed under "## Findings". The corrected behaviour is modelled beside them (`Distances.CorrectedAttendanceWithDistances`, `AttendanceCapture.NewRecord`).

## Model

| member | source | states |
|---|---|---|
| Common.Or | examples/excel-to-json-converter.js:37-39 | `x || fallback`: the value when it is truthy, the fallback otherwise |
| Common.Lower | controllers/siteAllocationController.js:69-77 | `toLowerCase` keeps the length and lower-cases each ASCII capital |
| Common.Split | controllers/attendaceController.js:283-289 | `split(sep)` yields one more piece than the separator occurs |
| Common.SplitJoin | controllers/attendaceController.js:283-289 | joining the pieces of a split gives back the string, and no piece holds the separator |
| Common.SplitFirst | middleware/requireAuth.js:17 | the first piece is a separator-free prefix, empty exactly for the empty string or a leading separator |
| Common.SplitAfterWord | middleware/requireAuth.js:17 | splitting `w + sep + rest` yields `w` followed by the pieces of `rest` |
| Users.FindByEmail | controllers/userTargetController.js:13-17 | `findOne({ email })`: a user with that email when one exists, none exactly when no user has it |
| Attendance.StartOfDay | controllers/attendaceController.js:127-140 | midnight of the instant's day, on the same day and not after the instant |
| Attendance.EndOfDay | controllers/attendaceController.js:238-250 | 23:59:59.999 of the instant's day, within one day at or after the instant |
| Attendance.ByDateWindow | controllers/attendaceController.js:127-140 | an instant is in the window iff it falls on the requested day |
| Attendance.WithDistancesWindow | controllers/attendaceController.js:238-250 | an instant is in the window iff it falls on the day and is not its last millisecond |
| Attendance.FilteredWindow | controllers/attendaceController.js:169-177 | an instant is in the window iff its day lies from the start day through the end day, last millisecond excluded |
| Attendance.SummaryWindow | controllers/attendaceController.js:292-298 | an instant is in the window iff its day lies from the start day through the end day, both inclusive |
| Attendance.Query | controllers/attendaceController.js:127-140 | a record is returned iff it is stored, belongs to one of the users and lies in the window |
| Attendance.QueryAppend | controllers/attendaceController.js:127-140 | the query keeps the stored order: it distributes over concatenation |
| Attendance.AttendanceByDate | controllers/attendaceController.js:123-147 | an unparsable date answers 500; otherwise exactly the user's records of that day |
| Attendance.FilteredAttendance | controllers/attendaceController.js:162-185 | records of users in the state, from the start day through the end day (start day when no end); a bad date answers 500 |
| Attendance.CountFuture | controllers/attendaceController.js:289 | the future holidays are at most the listed holidays |
| Attendance.CountFutureMeaning | controllers/attendaceController.js:289 | the count is the number of positions holding a parsed holiday later than now and no later than the end of the range |
| Attendance.ParsedHolidays | controllers/attendaceController.js:283 | one parsed date per comma-separated piece, in order |
| Attendance.TotalDays | controllers/attendaceController.js:304 | the inclusive day count equals end day minus start day plus one |
| Attendance.AttendanceSummary | controllers/attendaceController.js:271-337 | succeeds iff both dates parse and holidays are given; holidays are the comma pieces; work days are total days minus holidays; present is the distinct dates of the user's records in range; future holidays are the parsed holidays after now and no later than the end day's last millisecond; absent is work days minus present minus days left plus future holidays, clamped at zero |
| Attendance.DistinctDatesAtMostRecords | controllers/attendaceController.js:301 | the present-day count never exceeds the number of records |
| Attendance.DaysBetween | controllers/attendaceController.js:304 | the days of an inclusive range, as many as the range is long |
| Attendance.PresentDaysBounded | controllers/attendaceController.js:301-304 | for records dated by their timestamps, present days are at most the total days of the range |
| AttendanceCapture.MimeEnd | controllers/attendaceController.js:73 | the end of the longest run of mime-type characters |
| AttendanceCapture.ParseDataUrl | controllers/attendaceController.js:73-77 | a match yields a mime type and payload that rebuild the data URL |
| AttendanceCapture.ParseDataUrlComplete | controllers/attendaceController.js:73-77 | every data URL of the pattern's shape matches, with its own mime type and payload |
| AttendanceCapture.FirstFitMeaning | controllers/attendaceController.js:16-34 | the compression answers with the first quality whose encoding fits, fails where the encoder throws first, and keeps the original when nothing fits |
| AttendanceCapture.CompressToTargetSize | controllers/attendaceController.js:16-34 | the loop's answer is the first-fit scan over 100, 90, …, 20; at most nine encodings, never quality 10 |
| AttendanceCapture.LocationName | controllers/attendaceController.js:37-55 | the first formatted address of an OK reply with results, "Unknown location" for every other reply |
| AttendanceCapture.NewRecordAsWritten | controllers/attendaceController.js:94-107 | the stored record as written: timestamp from the first clock read, date from the second |
| AttendanceCapture.AsWrittenDateCanMissTimestampDay | controllers/attendaceController.js:104 | two reads 200 ms apart across UTC midnight store a date that is not the timestamp's day |
| AttendanceCapture.NewRecord | controllers/attendaceController.js:94-107 | the record's date is the day of its own timestamp |
| AttendanceCapture.AsWrittenAgreesOnSameDay | controllers/attendaceController.js:94-107 | when both clock reads fall on one UTC day, the record as written is the corrected record |
| AttendanceCapture.MarkAttendance | controllers/attendaceController.js:57-120 | 400 messages in check order, iff a field is missing or the image is not a data URL; past those checks, 500 "Error processing image" when the encoder fails, 500 "Cloudinary upload failed" when the upload fails, 500 "Server error" when the location does not parse, there is no user or the write fails, and otherwise 201; 201 iff one record is stored, built as written from the request, the upload, the geocoding and both clock reads (the date from the second) |
| Distances.MatrixRequest | controllers/attendaceController.js:210-211 | origins are all points but the last, destinations all but the first: pair i is the leg from point i to point i + 1 |
| Distances.LegDistancesAsWritten | controllers/attendaceController.js:223-230 | as written: succeeds iff the reply is OK and every row has a readable first element, one distance per row |
| Distances.AsWrittenMeasuresToSecondPoint | controllers/attendaceController.js:227 | for a correct reply, every leg read as written is the distance from point i to the second point |
| Distances.AsWrittenMissesSecondLeg | controllers/attendaceController.js:227 | for three points, the second annotation is the 0-length "1 m" instead of the B-to-C "5 km" |
| Distances.LegDistances | controllers/attendaceController.js:223-230 | reads element i of row i: succeeds iff the reply is OK and each diagonal cell is readable |
| Distances.LegDistancesAreConsecutive | controllers/attendaceController.js:209-232 | for a correct reply, leg i is the distance from point i to point i + 1 |
| Distances.Locations | controllers/attendaceController.js:253-255 | the records' locations, in order |
| Distances.Annotate | controllers/attendaceController.js:257-262 | the first record is untouched; record i > 0 gets distance i - 1 |
| Distances.AnnotateFound | controllers/attendaceController.js:253-264 | with more than one record, 500 iff the distances could not be read; else the records in order, record i > 0 carrying leg i - 1 and record 0 none |
| Distances.AttendanceWithDistances | controllers/attendaceController.js:234-269 | the user's records of the day in order; with more than one, fails with 500 iff some row's `elements[0]` cannot be read, else record i > 0 carries the `elements[0]` reading of row i - 1 |
| Distances.CorrectedAttendanceWithDistances | controllers/attendaceController.js:209-269 | the same handler reading row i, element i: fails with 500 iff a diagonal cell cannot be read, else record i > 0 carries the diagonal leg i - 1 |
| Distances.AsWrittenAnnotationsMeasureToSecondRecord | controllers/attendaceController.js:227 | as written, with a correct reply, every record after the first carries the distance from the record before it to the second record |
| Distances.AnnotationsFollowConsecutiveRecords | controllers/attendaceController.js:253-262 | with the corrected reading and a correct reply, every record after the first carries the distance from the record before it |
| MonthlyRecords.FindKey | controllers/userTargetController.js:96-98 | `findIndex`: the first entry with the month and year, or -1 iff none has them |
| MonthlyRecords.Upserted | controllers/userTargetController.js:96-110 | the first matching entry gets the new value with everything else kept; without a match the entry is appended |
| MonthlyRecords.UpsertedCons | controllers/userTargetController.js:96-110 | upserting past a non-matching head leaves the head in place |
| MonthlyRecords.UpsertedHead | controllers/userTargetController.js:96-104 | upserting onto a matching head replaces only the head's value |
| MonthlyRecords.LookupPastHead | controllers/userTargetController.js:96-98 | a changed head with another month or year leaves every other lookup as it was |
| MonthlyRecords.LookupUpserted | controllers/userTargetController.js:96-110 | after an upsert the month and year read back the new value |
| MonthlyRecords.LookupUpsertedOther | controllers/userTargetController.js:96-110 | an upsert changes no other month and year |
| MonthlyRecords.UpsertKeepsUniqueKeys | models/userTargetModel.js:46 | upserts keep one entry per month and year |
| MonthlyRecords.UpsertValidity | models/userTargetModel.js:10-23 | from a valid list, the upserted list is valid iff the written entry is valid |
| MonthlyRecords.WithoutKey | controllers/userTargetController.js:229-231 | removal never lengthens the list |
| MonthlyRecords.WithoutKeyMembers | controllers/userTargetController.js:229-231 | exactly the entries with another month or year survive |
| MonthlyRecords.WithoutKeyAppend | controllers/userTargetController.js:229-231 | removal distributes over concatenation, so order is kept |
| MonthlyRecords.LookupWithoutKey | controllers/userTargetController.js:229-231 | after removal the key reads nothing and every other key reads as before |
| MonthlyRecords.TailUniqueKeys | models/userTargetModel.js:46 | a suffix of a list with unique keys has unique keys |
| MonthlyRecords.ConsUniqueKeys | models/userTargetModel.js:46 | a new key in front of unique keys keeps them unique |
| MonthlyRecords.WithoutKeyKeepsInvariant | models/userTargetModel.js:10-23 | removal keeps a valid list with unique keys valid with unique keys |
| MonthlyRecords.RemoveAfterUpsert | controllers/userTargetController.js:96-110 | removing a key after upserting it is removing it from the original list |
| MonthlyRecords.Saved | models/userTargetModel.js:40-43 | a save succeeds iff every entry is valid, and then sets `updatedAt` to now and keeps the rest |
| MonthlyRecords.EmptyDoc | models/userTargetModel.js:24-36 | a new document has no entries, both timestamps at creation, and saves as itself |
| MonthlyStore.MonthColumns | controllers/userTargetController.js:168-172 | three distinct months of the enum |
| MonthlyStore.ApplyMonthsOtherKey | controllers/userTargetController.js:174-186 | a month and year no column names reads as before |
| MonthlyStore.ApplyMonthsReadBack | controllers/userTargetController.js:174-186 | each column's month reads back the column's value, or its old value when the column is skipped |
| MonthlyStore.ApplyMonthsUniqueKeys | controllers/userTargetController.js:174-186 | applying the columns keeps one entry per month and year |
| MonthlyStore.LookupFromEntry | controllers/userTargetController.js:176-181 | a value read back is the value of some entry |
| MonthlyStore.ApplyMonthsKeepsValid | controllers/userTargetController.js:174-188 | columns with valid values keep a valid list valid |
| MonthlyStore.ApplyMonthsValidity | controllers/userTargetController.js:174-188 | from a valid list, the result is valid iff every non-skipped column holds a valid value |
| MonthlyStore.ImportStepMeaning | controllers/userTargetController.js:142-192 | a row fails with 'N/A' / 'Email is required', 'User not found', or the validation error, leaving the store unchanged; otherwise it is imported and each month reads back its value |
| MonthlyStore.KnownUserStep | controllers/userTargetController.js:160-192 | a known user's row imports iff every non-skipped month is valid, then reads each month back and leaves other users' documents alone; otherwise it fails with the validation message and changes nothing |
| MonthlyStore.RowReadBack | controllers/userTargetController.js:168-186 | after a row is applied each of its three months reads back the cell, or the old value for a skipped cell |
| MonthlyStore.ImportStepKeepsValid | controllers/userTargetController.js:141-192 | one row keeps every stored document valid with unique keys |
| MonthlyStore.ReportCoversOutcomes | controllers/userTargetController.js:138-199 | every row lands in exactly one of `results` and `errors` |
| MonthlyStore.ImportAllLength | controllers/userTargetController.js:141-193 | the import yields one outcome per row |
| MonthlyStore.ImportAllRow | controllers/userTargetController.js:141-193 | outcome i is row i judged against the documents the rows before it left |
| MonthlyStore.ImportAllOnePerRow | controllers/userTargetController.js:141-193 | one outcome per row, row i judged against the documents rows before it left |
| MonthlyStore.ImportAllKeepsValid | controllers/userTargetController.js:141-193 | the whole import keeps every stored document valid with unique keys |
| MonthlyStore.MonthlyStore.Ensure | controllers/userTargetController.js:20-30 | lazy creation: an existing document is returned unchanged, a missing one is created empty and stored |
| MonthlyStore.MonthlyStore.GetByEmail | controllers/userTargetController.js:5-40 | 400 without email, 404 for an unknown user, else the user's document, created lazily |
| MonthlyStore.MonthlyStore.GetCurrent | controllers/userAchievementController.js:43-80 | without an authenticated user: 500 for targets, 401 for achievements; else the document, created lazily |
| MonthlyStore.MonthlyStore.AddOrUpdate | controllers/userTargetController.js:71-127 | 400 and 404 checks in order; success 201 iff the written entry is valid, with the upserted list saved; else 500 with the store unchanged |
| MonthlyStore.MonthlyStore.Remove | controllers/userTargetController.js:208-248 | 400, 404 user, 404 no document; else 200 with the key filtered out |
| MonthlyStore.MonthlyStore.ImportOne | controllers/userAchievementController.js:153-234 | one row of the bulk import, equal to the specification step |
| MonthlyStore.MonthlyStore.BulkImport | controllers/userAchievementController.js:142-247 | 400 for a missing or empty array; else 200 with `results` and `errors` of the in-order import, one entry per row |
| SiteAllocation.AlreadyAllocated | controllers/siteAllocationController.js:69-77 | true iff some allocated site matches name, district and state ignoring case |
| SiteAllocation.AppendKeepsNoDuplicates | controllers/siteAllocationController.js:69-86 | appending a site the check lets through keeps the list free of case-insensitive duplicates |
| SiteAllocation.WithoutSite | controllers/siteAllocationController.js:125-127 | removal never lengthens the list |
| SiteAllocation.WithoutSiteMeaning | controllers/siteAllocationController.js:125-127 | exactly the sites with another id survive; an unknown id changes nothing |
| SiteAllocation.WithoutSiteAppend | controllers/siteAllocationController.js:125-127 | removal distributes over concatenation, so order is kept |
| SiteAllocation.TailNoDuplicates | models/siteAllocationModel.js:9-26 | dropping the first site keeps a list free of case-insensitive duplicates |
| SiteAllocation.ConsNoDuplicates | models/siteAllocationModel.js:9-26 | a site no later site duplicates may be put in front without creating a duplicate |
| SiteAllocation.WithoutSiteKeepsValid | models/siteAllocationModel.js:9-26 | removal keeps the sites valid and free of duplicates |
| SiteAllocation.SiteStore.GetByEmail | controllers/siteAllocationController.js:5-40 | 400, 404, else the allocation, created empty when missing |
| SiteAllocation.SiteStore.AddSite | controllers/siteAllocationController.js:43-101 | 400 for a missing field, 404, 400 for a duplicate ignoring case; else 201 with the site appended |
| SiteAllocation.SiteStore.RemoveSite | controllers/siteAllocationController.js:104-141 | 400, 404 user, 404 no allocation; else 200 with the id filtered out |
| Roster.UsersWithAttendance | controllers/userController.js:141-144 | a user id is present iff some record is dated today for that user |
| Roster.FilterListed | controllers/userController.js:147-153 | exactly the users that are listed |
| Roster.FilterListedAppend | controllers/userController.js:147-153 | the filter keeps collection order: it distributes over concatenation |
| Roster.WithoutAttendanceToday | controllers/userController.js:139-160 | a user is listed iff role 'user', not Delhi or Denmark in any case, and no record dated today |
| Roster.DateList | controllers/userController.js:71-80 | one entry per day from the first to the last instant, consecutive day numbers |
| Roster.DayShift | controllers/userController.js:78-79 | adding whole days to an instant adds as many to its day number |
| Roster.CountSteps | controllers/userController.js:78 | the day loop runs one more time than there are whole days between the bounds |
| Roster.SumCountsBump | controllers/userController.js:109-129 | raising one group's count by one raises the total by one |
| Roster.GroupsSum | controllers/userController.js:109-129 | the counts of the groups add up to the number of records |
| Roster.GroupsCoverAt | controllers/userController.js:109-116 | the date of any one record has a group |
| Roster.GroupsCover | controllers/userController.js:109-116 | every record's date has a group |
| Roster.GroupsDistinct | controllers/userController.js:109-116 | every group carries a date and no date has two groups |
| Roster.GroupsCount | controllers/userController.js:109-116 | each group's count is the number of records on its date |
| Roster.GroupsMeaning | controllers/userController.js:103-129 | the groups carry distinct dates, each count is the records on that date, every record's date has a group, and the counts sum to the records |
| Roster.CountOnZero | controllers/userController.js:109-116 | a date no record carries counts zero |
| Roster.AttendanceByDate | controllers/userController.js:98-129 | the date groups, or a single zero entry without a date when there are no records |
| Roster.RecordsOf | controllers/userController.js:86-93 | exactly the records of the user |
| Roster.RecordsOfAppend | controllers/userController.js:86-93 | the lookup keeps collection order: it distributes over concatenation |
| Roster.StateEngineers | controllers/userController.js:83-85 | exactly the users with role 'user' and the requested state |
| Roster.StateEngineersAppend | controllers/userController.js:83-85 | the match keeps collection order: it distributes over concatenation |
| Roster.EngineersByState | controllers/userController.js:68-137 | entry i is built from matched user i, so there is exactly one engineer per user of role 'user' in the state, with its name, email and the attendance counts of its own records |
| Roster.IndexOfEmail | controllers/userController.js:170-174 | the index of the first user with the email, or -1 iff none has it |
| Roster.IndexOfEmailFinds | controllers/userController.js:170-174 | the index points at the user `findOne` finds |
| Roster.Merged | controllers/userController.js:190-201 | only the fields given a truthy value change; id, email and role are kept |
| Roster.MergedIdempotent | controllers/userController.js:190-201 | applying an update twice is applying it once; an empty update changes nothing |
| Roster.UserCollection.UpdateByEmail | controllers/userController.js:182-211 | 400, 404, else the first user with the email is replaced by the merged user and returned |
| Roster.UserCollection.DeleteByEmail | controllers/userController.js:162-180 | 400, 404, else the first user with the email is removed and returned, the others kept in order |
| RequireAuth.BearerToken | middleware/requireAuth.js:17 | the second space-separated piece: no space in it, empty iff nothing or a space follows the prefix |
| RequireAuth.BearerTokenRoundTrip | middleware/requireAuth.js:13-22 | a space-free token written after the prefix, alone or followed by more words, is read back |
| RequireAuth.OnlyPiece | middleware/requireAuth.js:17 | a string without the separator splits into itself |
| RequireAuth.Authorize | middleware/requireAuth.js:4-34 | rejected for a missing header, then a missing prefix, then an empty token, then a token that does not verify, each reason iff its check is the first to fail; authenticated iff the token verifies, with the user set iff the id exists |
| RequireAuth.Request.RequireAuth | middleware/requireAuth.js:4-34 | a rejected request gets status 401 and the reason's message, without `next`; an accepted one gets `req.user` and one `next` call |
| ExcelImport.ConvertRow | examples/excel-to-json-converter.js:34-41 | the email is copied, and each month is its cell, or 0 for a falsy cell, so no month is skipped |
| ExcelImport.ConvertExcelToJson | examples/excel-to-json-converter.js:33-46 | one converted row per sheet row, in order |
| ExcelImport.ConvertedRowStoresEveryMonth | examples/excel-to-json-converter.js:33-46 | a converted row of a known user imports iff each truthy cell is valid, and then each month reads back its cell, or 0 for a falsy one |

## Left out

- Mongoose casting is not modelled. A value of the wrong JSON type, such as a year sent as `"2025"`, fails schema validation in the model. The real driver would cast it.
- `populate`, `sort`, `select` and the `success`/`message` fields of the JSON bodies are not modelled. A response carries its status and either the data or the `error` text.
- Each handler's outer `catch`, which answers 500 on a database error, is not modelled. Only the failures the handlers reach through their own logic are modelled.
- MonthlyStore.ValidationMessage: it carries only the leading "… validation failed" part of Mongoose's message, because the rest names fields and values in the library's own wording.
- Calendars in local time are not modelled. Every day is a UTC day number. `now`, `daysLeft` and the month bounds of `getEngineersByState` are parameters.
- Lower-casing covers ASCII letters only.
- Image decoding and encoding (sharp), base64, the Cloudinary upload, `JSON.parse` and the Google geocoding and distance-matrix calls are parameters of the model.
- The `/^delhi$/i` pattern is modelled as the lower-cased name, optionally followed by one newline. No other regular-expression engine behaviour is modelled.
- The unique multikey index on user, month and year is modelled as the invariant that keys stay unique. It is not modelled as a database error.
- Roster.EngineersByState and Roster.GroupsMeaning list the engineers in collection order and the date groups in the order of first appearance. The aggregation's `$group` order is unspecified, so these orders are modelling choices.
- A bulk-import row that is `null` or not an object is not modelled. Each row is a record of the four fields.
- A request reads the clock once; `now` is that instant. The exception is `markAttendance`: it reads the clock twice, and both readings are parameters.
- The user model's own validators, password hashing, `loginUser`, `signupUser`, `getAllUsers` and `getUserByEmail` are not modelled. They are outside the core.
- `getAllAttendance`, `getEmailAttendance`, `getAllUserTargets`, `getAllUserAchievements` and `getAllSiteAllocations` are not modelled. They are unfiltered list reads outside the core.
- `importTargetsToAPI` in the converter example is not modelled. It is a network client.
- The distance and site-visit summary models and the route files are not modelled. They are context only.
- Attendance.FilteredAttendance: a missing `state` parameter is not modelled, since Mongoose's handling of an `undefined` filter value depends on its settings.
- Objects, arrays and fractional numbers in request bodies and query strings are not modelled. A body field is `undefined`, `null`, a boolean, an integer or a string. So an object such as `{"$ne": null}` in `email`, which passes the `!email` test and reaches `findOne` or `findOneAndDelete` as a query operator matching the first user, is outside the model. So is a fractional target such as 2.5, which the schema accepts.
- Attendance.AttendanceByDate, Attendance.AttendanceSummary and Distances.AttendanceWithDistances take the authenticated user's id. The handlers read `req.user._id` before their `try`, so when the middleware set `req.user` to null (a verified token whose user was deleted) they throw, and no response is sent. That case is not modelled.
- AttendanceCapture.MarkAttendance: the user lookup and the store write are modelled as an id and a success flag. The saved record has no generated id.

## Findings

| source | as written | input that shows it | evidently intended | confidence | as-written member | corrected member |
|---|---|---|---|---|---|---|
| controllers/attendaceController.js:227 | each row's distance is read from `elements[0]`, the leg from origin i to the first destination (point 1) | points A, B, C with a correct reply: the second annotation is the B-to-B distance, not B to C | row i, element i: the leg from point i to point i + 1, so every record after the first carries the distance from the record before it (proved for the corrected handler by AnnotationsFollowConsecutiveRecords) | high, not executed | Distances.AsWrittenMissesSecondLeg | Distances.CorrectedAttendanceWithDistances |
| controllers/attendaceController.js:104 | `date` comes from a second `new Date()` read after the awaited geocoding call | timestamp 23:59:59.900 UTC and the second read 200 ms later: the record is stored under the next day | `date` is the UTC day of `timestamp` | medium, not executed | AttendanceCapture.AsWrittenDateCanMissTimestampDay | AttendanceCapture.NewRecord |
