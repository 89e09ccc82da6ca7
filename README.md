# Clinic backend — a Dafny model of its tables and rules

This project models the core of the clinic REST backend: the in-memory meaning of its
sqlite tables, the repositories and services that change them, the two Express
middlewares that authenticate and authorise a request, and the four appointment routes.
The properties of that code are proved about the model.

Each table with an `INTEGER PRIMARY KEY AUTOINCREMENT` key is a `map<int, Row>` plus the
next id to hand out. A scan without `ORDER BY` reads rows in key order (`Tables`). A
repository is a `class` whose fields are its tables, and its methods update those fields
in place. Queries are functions over the fields. Each method's `ensures` gives its whole
new state, stated against a specification function. Lemmas prove what the code promises
about those functions.

Modules, one per source file, with shared helpers:

- `Common`, `Http`: `Option`, `Outcome` (a thrown error), `Result`, and `x || null`
  (`OrNull`); also the status-and-JSON-body replies.
- `Text`: code-point text order (SQLite's BINARY collation), JavaScript `split(" ")` and
  `join`, and decimal rendering for template strings.
- `Sequences`: filtering, distinctness, and an insertion sort used for `ORDER BY`.
  `Sort` is specified as sorted plus permutation.
- `Tables`: the key-ordered scan of a table.
- `AuthMiddleware`, `RoleMiddleware`: `authenticateToken` and `authorizeRoles`.
- `AuditLog`, `Notifications`, `Availability`: the append-only audit table, the
  notification table, and the insert-or-replace availability table.
- `Appointments`, `AppointmentWorkflow`, `AppointmentRoutes`: the appointment store, the
  service, and the controller's four routes.
- `MedicalRecords`, `MedicalRecordAccess`: medical records with their test-result child
  table, and the service's ownership rule.
- `Users`, `UserAccounts`: the user store with its constraints and search-query builder,
  and the service with hashing, login, paging and delete.
- `Specialties`: the specialty table, the doctor–specialty link table and its join with
  users.

Things outside the code are parameters:

- `jwt.verify` (`Verifier`), `jwt.sign` (`Signer`), `bcrypt.hash` (`Hasher`) and
  `bcrypt.compare` (`Comparer`) are functions the caller supplies. The model relates their
  results and never looks inside them.
- `CURRENT_TIMESTAMP`, for the audit trail and for a notification's `createdAt`, is a
  reading `now` that the caller supplies, in whole seconds. Entries written in the same
  second share a stamp. The model assumes the clock never runs backwards.
  - Every entry point that stamps a row requires `clock <= now`: `LogAction`, `Record`,
    the four routes and `CreateNotification`.
  - `AuditLog.NewestFirst` depends on that assumption.
- A store error the model cannot derive from its own tables is an `Option<string>`
  parameter. This covers a failed audit insert, and an appointment insert rejected by a
  foreign key to `users`.
- Constraint-failure texts are the sqlite driver's messages, for example
  `SQLITE_CONSTRAINT: UNIQUE constraint failed: users.email`.

## Model

| member | source | states |
|---|---|---|
| Common.OrNull | src/app/appointment/appointment.repository.ts:18 | `x \|\| null` on optional text: NULL exactly when the value is absent or empty, otherwise the value itself |
| Text.Split | src/app/middleware/auth.middleware.ts:15 | `split(" ")` always yields at least one piece |
| AuthMiddleware.BearerToken | src/app/middleware/auth.middleware.ts:14-15 | `authHeader && authHeader.split(" ")[1]`: no header, an empty header, or a missing or empty second space-separated piece gives no token; otherwise that second piece |
| AuthMiddleware.Authenticate | src/app/middleware/auth.middleware.ts:14-28 | no token gives 401 "Access denied"; otherwise a failed verification gives 403 "Invalid token", and a successful one gives the decoded claims |
| AuthMiddleware.TokenIsSecondWord | src/app/middleware/auth.middleware.ts:14-15 | the token is the second space-separated word, whatever the first (scheme) word is |
| AuthMiddleware.NoSpaceNoToken | src/app/middleware/auth.middleware.ts:15-20 | a header without a space has no second word, so no token |
| AuthMiddleware.TokenHasNoSpace | src/app/middleware/auth.middleware.ts:15 | an extracted token is non-empty and contains no space |
| AuthMiddleware.MissingTokenIgnoresVerifier | src/app/middleware/auth.middleware.ts:17-20 | without a token the answer is 401 whatever the verifier would say: it is never consulted |
| AuthMiddleware.AuthenticateToken | src/app/middleware/auth.middleware.ts:9-30 | on denial it sends the 401/403 and neither sets `req.user` nor calls `next`; on success it sets `req.user` to the claims, sends nothing and calls `next` exactly once |
| RoleMiddleware.AuthorizeRoles | src/app/middleware/role.middleware.ts:14-26 | 401 "Unauthorized" iff there is no user; 403 iff the role is not listed; `next` iff it is listed (exactly one of the three) |
| RoleMiddleware.DecisionIgnoresUserId | src/app/middleware/role.middleware.ts:19-26 | the decision depends on the role only, never on the user id |
| RoleMiddleware.MoreRolesAdmitMore | src/app/middleware/role.middleware.ts:19 | enlarging the allowed list never turns an admitted caller away |
| AuditLog.LogStepAppends | src/app/audit-log/audit-log.repository.ts:9-15 | a successful `logAction` adds exactly one row under a fresh key, holding the given user, the action, the details (absent or empty gives NULL) and the stamp `now`, and keeps every earlier row; a failed one changes nothing |
| AuditLog.NewEntry | src/app/audit-log/audit-log.repository.ts:11-13 | the row the INSERT stores: the caller's user and action, `details \|\| null`, and the store's timestamp |
| AuditLog.LogStep | src/app/audit-log/audit-log.repository.ts:9-15 | one `logAction` at time `now`: a store error leaves table, id counter and clock as they were; otherwise `NewEntry` goes under the next id, stamped `now`, and the clock reads `now` |
| AuditLog.AuditLogRepository.LogAction | src/app/audit-log/audit-log.repository.ts:9-15 | the table after the call is `LogStep` of the table before; the store's error is rethrown |
| AuditLog.Logs | src/app/audit-log/audit-log.repository.ts:17-22 | every stored row, each exactly once, ordered by timestamp descending |
| AuditLog.NewerOrSame | src/app/audit-log/audit-log.repository.ts:20 | `ORDER BY timestamp DESC`: an entry may precede another exactly when its stamp is not older |
| AuditLog.NewestFirst | src/app/audit-log/audit-log.repository.ts:20 | right after an append at time `now`, the new entry is listed and the head of `getLogs` carries the stamp `now`: no entry is listed before a newer one |
| AuditLog.NewestFirstWhenLater | src/app/audit-log/audit-log.repository.ts:20 | an append in a later second than every stored entry heads `getLogs` |
| AuditLog.AuditLogRepository.GetLogs | src/app/audit-log/audit-log.repository.ts:17-22 | every stored row once, newest first |
| Notifications.NotificationService.CreateNotification | src/app/notification/notification.service.ts:9-16 | inserts one row with the given recipient and message, unread and stamped `now`, under a fresh id that it returns; earlier rows unchanged |
| Notifications.NewNotification | src/app/notification/notification.service.ts:11-14 | the row the INSERT stores: the given recipient and message, `read` at its default false (the column default in the schema), and the store's stamp |
| Notifications.ForRecipient | src/app/notification/notification.service.ts:18-25 | exactly the stored rows addressed to the user (none when there are none), in id order |
| Notifications.NotificationService.GetNotificationsByUserId | src/app/notification/notification.service.ts:18-25 | exactly the user's notifications |
| Notifications.DeliveredOnlyToRecipient | src/app/notification/notification.service.ts:9-25 | a new notification is listed for its recipient and for no one else, and every other user's list is unchanged |
| Availability.AvailabilityRepository.SetAvailability | src/app/availability/availability.repository.ts:9-19 | the key's slot list becomes the given one, other keys keep theirs, and each key has at most one entry |
| Availability.AvailabilityRepository.GetAvailability | src/app/availability/availability.repository.ts:21-37 | null exactly when the key has no row; otherwise that key with its stored slot list |
| Availability.Lookup | src/app/availability/availability.repository.ts:26-36 | `SELECT ... WHERE doctorId = ? AND date = ?`: the rebuilt {doctorId, date, timeSlots} for the key, or null when no row has it |
| Availability.Upsert | src/app/availability/availability.repository.ts:11-18 | `INSERT OR REPLACE` on the (doctorId, date) key: that key maps to the new slot list, whether or not it had a row |
| Availability.SetThenGet | src/app/availability/availability.repository.ts:9-37 | a get after a set for the same (doctorId, date) returns the list that was set |
| Availability.SetLeavesOtherKeys | src/app/availability/availability.repository.ts:11-18 | a set for one key leaves every other key's answer unchanged |
| Availability.LastSetWins | src/app/availability/availability.repository.ts:12 | a second set for the same key replaces the first |
| Appointments.NewRowIsScheduled | src/app/appointment/appointment.repository.ts:12-20 | a created row is Scheduled whatever status the input carries; a missing or empty reason is NULL; parties, date and time are as given |
| Appointments.NewRow | src/app/appointment/appointment.repository.ts:12-20 | the row the INSERT stores under the new id: patient, doctor, date and time as given, `reason \|\| null`, status "Scheduled" |
| Appointments.WithStatus | src/app/appointment/appointment.repository.ts:33-42 | `UPDATE ... SET status = ? WHERE id = ?`: the row with that id gets the new status; with no such row the table is unchanged |
| Appointments.AppointmentRepository.CreateAppointment | src/app/appointment/appointment.repository.ts:9-23 | returns an id not in the table before, under which the new row is stored; other rows are unchanged; a rejected insert stores nothing |
| Appointments.AppointmentRepository.GetAppointmentById | src/app/appointment/appointment.repository.ts:25-31 | null exactly when no row has the id; otherwise that row |
| Appointments.WithStatusFrame | src/app/appointment/appointment.repository.ts:33-42 | a status update changes only the status of that row; other rows and fields stay the same, and an absent id is a no-op |
| Appointments.AppointmentRepository.UpdateAppointmentStatus | src/app/appointment/appointment.repository.ts:33-42 | the table after is the table before with that row's status replaced |
| Appointments.ScheduleLeOrders | src/app/appointment/appointment.repository.ts:47 | ordering by (date, time), compared as text, is a total preorder |
| Appointments.ScheduleLe | src/app/appointment/appointment.repository.ts:47 | `ORDER BY date, time`: by date in code-point order, then by time when the dates are equal |
| Appointments.Schedule | src/app/appointment/appointment.repository.ts:44-50 | exactly the Scheduled rows of the doctor, each once, sorted by date then time |
| Appointments.AppointmentRepository.GetDoctorSchedule | src/app/appointment/appointment.repository.ts:44-50 | exactly the doctor's Scheduled appointments, once each, in (date, time) order |
| AppointmentWorkflow.AppointmentService.CreateAppointment | src/app/appointment/appoinment.service.ts:9-12 | the store's result and effect, unchanged |
| AppointmentWorkflow.AppointmentService.CancelAppointment | src/app/appointment/appoinment.service.ts:14-25 | an absent id throws "Appointment not found" and changes nothing; a present one becomes Cancelled whatever its status, and nothing else changes |
| AppointmentWorkflow.CancelTwice | src/app/appointment/appoinment.service.ts:21-24 | cancelling an already cancelled appointment is allowed and changes nothing further |
| AppointmentWorkflow.CancelRemovesFromSchedule | src/app/appointment/appoinment.service.ts:21-24 | after a cancel, the schedule is the old one without that appointment |
| AppointmentWorkflow.Moved | src/app/appointment/appoinment.service.ts:43-48 | the input `{ ...appointment, date, time, status: "Scheduled" }` hands to `createAppointment`: the stored patient, doctor and reason, the new date and time |
| AppointmentWorkflow.AfterReschedule | src/app/appointment/appoinment.service.ts:38-48 | the table after the status update to Rescheduled followed by the insert of `Moved` under the next id |
| AppointmentWorkflow.AppointmentService.RescheduleAppointment | src/app/appointment/appoinment.service.ts:27-49 | an absent id throws "Appointment not found" and changes nothing; otherwise the table becomes `AfterReschedule` and the id counter advances by one |
| AppointmentWorkflow.RescheduleRows | src/app/appointment/appoinment.service.ts:39-48 | the original becomes Rescheduled and keeps its date and time; exactly one new row appears under a fresh id, with the same patient, doctor and reason, the new date and time, and status Scheduled; all other rows are unchanged |
| AppointmentWorkflow.RescheduleMovesSlot | src/app/appointment/appoinment.service.ts:39-48 | after a reschedule, the doctor's schedule contains the new slot and not the original; apart from those two it is unchanged |
| AppointmentWorkflow.AppointmentService.GetDoctorSchedule | src/app/appointment/appoinment.service.ts:51-53 | the store's schedule, unchanged |
| AppointmentWorkflow.AppointmentService.GetAppointmentById | src/app/appointment/appoinment.service.ts:55-57 | the store's lookup, unchanged |
| AppointmentRoutes.Gate | src/app/appointment/appoinment.controller.ts:22-25 | `authenticateToken` then `authorizeRoles`: admits exactly a verified caller whose role is listed; otherwise the answer is one of the middlewares' replies |
| AppointmentRoutes.GateNeverUnauthorized | src/app/appointment/appoinment.controller.ts:24-25 | after authentication the role check's 401 cannot occur; a verified caller with an unlisted role gets the 403 |
| AppointmentRoutes.Owns | src/app/appointment/appoinment.controller.ts:71-80 | the cancel and reschedule ownership test: the appointment exists and its patientId is the caller's userId |
| AppointmentRoutes.MayReadSchedule | src/app/appointment/appoinment.controller.ts:158-166 | the schedule test: refused exactly for a Doctor asking for another doctor's id |
| AppointmentRoutes.Thrown | src/app/appointment/appoinment.controller.ts:54-56 | the `catch` reply: 400 with `{ error: message }` |
| AppointmentRoutes.CreatedEntry | src/app/appointment/appoinment.controller.ts:44-48 | the audit entry for a creation: "CREATE_APPOINTMENT", "Created appointment with ID <id>" |
| AppointmentRoutes.CancelledEntry | src/app/appointment/appoinment.controller.ts:87-91 | the audit entry for a cancellation: "CANCEL_APPOINTMENT", "Cancelled appointment with ID <id>" |
| AppointmentRoutes.RescheduledEntry | src/app/appointment/appoinment.controller.ts:132-136 | the audit entry for a move: "RESCHEDULE_APPOINTMENT", "Rescheduled appointment with ID <id> to <newDate> at <newTime>" |
| AppointmentRoutes.ScheduleEntry | src/app/appointment/appoinment.controller.ts:173-177 | the audit entry for a schedule read: "GET_DOCTOR_SCHEDULE", "Fetched schedule for doctor with ID <doctorId>" |
| AppointmentRoutes.ScheduleAccess | src/app/appointment/appoinment.controller.ts:158-166 | of the admitted roles, an Admin reads any schedule and a Doctor exactly their own |
| AppointmentRoutes.AppointmentController.Record | src/app/appointment/appoinment.controller.ts:44-48 | writes one audit entry; a failure to do so becomes the route's 400 with the error message |
| AppointmentRoutes.AppointmentController.CreateRoute | src/app/appointment/appoinment.controller.ts:22-58 | Patient only. A body patientId other than the caller's gives 403, with no insert and no audit. A rejected insert gives 400 with no audit. Otherwise one row and one audit entry ("CREATE_APPOINTMENT", "Created appointment with ID <id>") are written and the answer is 201 with the id and "Appointment created successfully", or 400 if the audit write fails after the insert |
| AppointmentRoutes.AppointmentController.CancelRoute | src/app/appointment/appoinment.controller.ts:61-100 | Patient only. An absent or someone else's appointment gives the same 403 (not "Appointment not found"), with no change and no audit. Otherwise the row is Cancelled, "CANCEL_APPOINTMENT" is logged and the answer is 200, or 400 on an audit failure |
| AppointmentRoutes.AppointmentController.RescheduleRoute | src/app/appointment/appoinment.controller.ts:103-145 | Patient only. Ownership is checked as in cancel. Otherwise the service's reschedule runs with (id, newDate, newTime), "RESCHEDULE_APPOINTMENT" is logged with "... ID <id> to <newDate> at <newTime>", and the answer is 200, or 400 on an audit failure |
| AppointmentRoutes.AppointmentController.ScheduleRoute | src/app/appointment/appoinment.controller.ts:148-184 | Doctor and Admin only. A Doctor asking for another doctor's schedule gets 403 with no audit. Otherwise "GET_DOCTOR_SCHEDULE" is logged and the answer is the schedule, or 400 on an audit failure |
| MedicalRecords.NewRecord | src/app/medical-record/medical-record.repository.ts:11-22 | absent prescriptions and ongoing treatments are stored as [], absent or empty notes as NULL, and the diagnosis as given |
| MedicalRecords.Patched | src/app/medical-record/medical-record.repository.ts:42-53 | an update overwrites all four columns, an omitted one with []/NULL, and keeps id, patient and doctor |
| MedicalRecords.EmptyPatchClears | src/app/medical-record/medical-record.repository.ts:42-53 | an update that names no field clears the record's columns instead of keeping them |
| MedicalRecords.Tagged | src/app/medical-record/medical-record.repository.ts:26-31 | one child row per test result, in order, tagged with the record id |
| MedicalRecords.Without | src/app/medical-record/medical-record.repository.ts:56-58 | the delete removes exactly the record's child rows |
| MedicalRecords.ResultsOf | src/app/medical-record/medical-record.repository.ts:75-78 | `SELECT type, result ... WHERE recordId = ?`: the (type, result) of every child row tagged with the record, in stored order |
| MedicalRecords.ChildrenAfterUpdate | src/app/medical-record/medical-record.repository.ts:55-65 | the child table after an update: with test results in the patch, the record's rows deleted and the new ones appended; without, unchanged |
| MedicalRecords.View | src/app/medical-record/medical-record.repository.ts:80-85 | the record a read returns: the stored row's columns, with the lists decoded, and the test results attached |
| MedicalRecords.ResultsOfConcat | src/app/medical-record/medical-record.repository.ts:75-78 | reading a record's results over two batches of child rows gives the first batch's results followed by the second's |
| MedicalRecords.ResultsOfTagged | src/app/medical-record/medical-record.repository.ts:24-32 | the rows inserted for a list read back as that list for that record, and as nothing for any other record |
| MedicalRecords.ResultsOfAbsent | src/app/medical-record/medical-record.repository.ts:75-78 | a record without child rows reads back no test results |
| MedicalRecords.ResultsOfWithout | src/app/medical-record/medical-record.repository.ts:56-63 | deleting one record's child rows leaves other records' results unchanged |
| MedicalRecords.WithoutAbsent | src/app/medical-record/medical-record.repository.ts:56-58 | a delete that matches no child row changes nothing |
| MedicalRecords.UpdateReplacesResults | src/app/medical-record/medical-record.repository.ts:55-65 | when an update carries test results, the record's results are exactly the new list (an empty list clears them); otherwise they stay as they were; other records' results never change |
| MedicalRecords.MedicalRecordRepository.CreateMedicalRecord | src/app/medical-record/medical-record.repository.ts:9-35 | stores one record under a fresh id and one child row per test result, in order (none when absent or empty); reading the new id returns that record with exactly those results |
| MedicalRecords.MedicalRecordRepository.UpdateMedicalRecord | src/app/medical-record/medical-record.repository.ts:37-66 | for a stored record, the record is patched and its child rows are replaced or left alone. With no such record nothing changes, and test results to insert fail the foreign key |
| MedicalRecords.MedicalRecordRepository.GetMedicalRecordById | src/app/medical-record/medical-record.repository.ts:68-86 | null exactly when no record has the id; otherwise the stored record with its test results attached, in insertion order |
| MedicalRecordAccess.Disclose | src/app/medical-record/medical-record.service.ts:29-35 | null when nothing was found; the "Forbidden: Unauthorized access to this record" error exactly for a Patient who is not the record's patient; otherwise the record as found |
| MedicalRecordAccess.PatientSeesOnlyOwnRecords | src/app/medical-record/medical-record.service.ts:31-35 | a record returned to a Patient is always that patient's own |
| MedicalRecordAccess.OtherRolesSeeEveryRecord | src/app/medical-record/medical-record.service.ts:31-35 | any role other than Patient receives the record, whatever the ids |
| MedicalRecordAccess.MedicalRecordService.CreateMedicalRecord | src/app/medical-record/medical-record.service.ts:9-11 | the store's effect and id, unchanged |
| MedicalRecordAccess.MedicalRecordService.UpdateMedicalRecord | src/app/medical-record/medical-record.service.ts:13-18 | forwards to the store with no existence check, so a missing record is no error unless the patch carries test results |
| MedicalRecordAccess.MedicalRecordService.GetMedicalRecordById | src/app/medical-record/medical-record.service.ts:20-36 | null for a missing record; the ownership error for a non-owning Patient; otherwise the stored record with its results |
| Users.CriteriaFromFilters | src/app/user/user.repository.ts:47-58 | each non-empty filter gives exactly one condition; an absent or empty one gives none; no kind of condition appears twice |
| Users.CriteriaOrdered | src/app/user/user.repository.ts:47-58 | conditions come in the order role, name, email |
| Users.NoFiltersNoWhere | src/app/user/user.repository.ts:60-62 | with no non-empty filter, the WHERE clause is empty and there are no parameters; otherwise the clause starts with "WHERE " |
| Users.Criteria | src/app/user/user.repository.ts:47-58 | the conditions the search builds: `role = ?` for a truthy role, then `name LIKE ?`, then `email LIKE ?` |
| Users.Criterion.Condition | src/app/user/user.repository.ts:48-56 | the SQL text a criterion pushes: `role = ?`, `name LIKE ?` or `email LIKE ?` |
| Users.Criterion.Param | src/app/user/user.repository.ts:49-57 | the value a criterion binds: the role verbatim, name and email wrapped in `%` |
| Users.Conditions | src/app/user/user.repository.ts:44-58 | the `conditions` array: one SQL text per criterion, in order |
| Users.Params | src/app/user/user.repository.ts:45-57 | the `params` array: one bound value per criterion, in the same order |
| Users.WhereClause | src/app/user/user.repository.ts:60-62 | "" with no condition, otherwise "WHERE " and the conditions joined by " AND " |
| Users.FirstWithEmail | src/app/user/user.repository.ts:18-22 | `db.get` on `WHERE email = ?`: the first scanned row with the email, or null when none has it |
| Users.UserRepository.SearchUsers | src/app/user/user.repository.ts:38-62 | the clause is "WHERE " plus the conditions joined by " AND ". The parameters match the conditions one for one, in the same order: the role verbatim, name and email wrapped in `%` |
| Users.UserRepository.CreateUser | src/app/user/user.repository.ts:9-16 | an unknown role fails the CHECK and a taken email fails UNIQUE, both with nothing stored; otherwise the user is stored under a fresh id, which is returned |
| Users.UserRepository.GetUserById | src/app/user/user.repository.ts:24-28 | null exactly when no row has the id |
| Users.UserRepository.GetUserByEmail | src/app/user/user.repository.ts:18-22 | null exactly when no row has the email; otherwise the row that has it |
| Users.UserRepository.UpdateUser | src/app/user/user.repository.ts:30-36 | overwrites only name, email and password of that id, never the role. A missing field fails NOT NULL and another row's email fails UNIQUE, and then nothing changes; an absent id changes nothing |
| UserAccounts.Paginate | src/app/user/user.service.ts:54-61 | limit, sort and filters are passed on unchanged |
| UserAccounts.PagesAreConsecutive | src/app/user/user.service.ts:56 | offset = (page − 1) × limit: page 1 starts at row 0, and each page starts where the previous one ends |
| UserAccounts.PagesDoNotOverlap | src/app/user/user.service.ts:56 | with a positive limit, two different pages share no row |
| UserAccounts.IssuedTokenAuthenticates | src/app/user/user.service.ts:25-36 | a token issued at login, sent back as `Bearer <token>`, authenticates as {userId, role} of that user, provided verify accepts what sign produced |
| UserAccounts.UserService.CreateUser | src/app/user/user.service.ts:11-19 | the stored password is hash(password, 10), never the plain one; the store's CHECK and UNIQUE errors pass through with nothing stored; on success the id is the store's next id |
| UserAccounts.UserService.AuthenticateUser | src/app/user/user.service.ts:21-37 | null exactly when no user has the email or the compare fails; otherwise the signed token for {userId, role} with the shared secret and "1h" |
| UserAccounts.UserService.UpdateUser | src/app/user/user.service.ts:39-44 | the patch's password is replaced in place by its hash only when it is present and non-empty; the other fields go to the store unchanged |
| UserAccounts.UserService.GetUserById | src/app/user/user.service.ts:46-48 | the store's lookup, unchanged |
| UserAccounts.UserService.GetUserByEmail | src/app/user/user.service.ts:72-74 | the store's lookup, unchanged |
| UserAccounts.UserService.SearchUsers | src/app/user/user.service.ts:50-62 | the request sent to the paged search is `Paginate` of the page options |
| UserAccounts.UserService.DeleteUser | src/app/user/user.service.ts:64-70 | an absent id throws "User not found" and deletes nothing; a present id is removed, and no other row changes |
| Specialties.AssociateContents | src/app/specialty/specialty.repository.ts:14-26 | the link table afterwards is the old links plus (doctorId, s) for every listed, existing s (when the doctor exists), and nothing else; each pair still appears once |
| Specialties.AssociateSucceeds | src/app/specialty/specialty.repository.ts:19-25 | the call succeeds exactly when the doctor and every listed specialty exist, none is already linked, and none is listed twice; a pair already present fails the primary key |
| Specialties.AssociateNothing | src/app/specialty/specialty.repository.ts:19-25 | an empty list leaves the link table unchanged and succeeds |
| Specialties.LinkError | src/app/specialty/specialty.repository.ts:20-23 | one INSERT into `doctor_specialties`: a pair already present fails the primary key; otherwise an unknown doctor or specialty fails a foreign key; otherwise it succeeds |
| Specialties.Associate | src/app/specialty/specialty.repository.ts:19-25 | every listed id inserted in list order against the links so far: the successful pairs appended, the first error reported |
| Specialties.DoctorsOf | src/app/specialty/specialty.repository.ts:28-37 | exactly the users linked to the specialty whose role is Doctor, as {doctorId, doctorName} |
| Specialties.DoctorsOfDistinct | src/app/specialty/specialty.repository.ts:31-34 | since each pair is linked once, each doctor appears once |
| Specialties.SpecialtyRepository.constructor | src/database/database.service.ts:115-123 | the initialised tables hold the four seeded specialties and no links |
| Specialties.SpecialtyRepository.GetAllSpecialties | src/app/specialty/specialty.repository.ts:9-12 | every specialty row, once each, in id order |
| Specialties.SpecialtyRepository.AssociateDoctorSpecialties | src/app/specialty/specialty.repository.ts:14-26 | one insert per listed id, in order: the links and the error are those of `Associate`, and it passes exactly when no insert failed |
| Specialties.SpecialtyRepository.GetDoctorsBySpecialty | src/app/specialty/specialty.repository.ts:28-37 | exactly the linked Doctors with their names, each once |

## Left out

- Persistence and bootstrap are I/O and are not modelled: the sqlite connection, the
  schema script, and the Express, cors and morgan wiring. The one exception is the four
  seeded specialties, which are the `Specialties` constructor's state.
- The other controllers (user, availability, specialty, medical-record, department,
  notification, audit-log) and the department module are not part of this model.
- JSON encoding of list columns (time slots, prescriptions, ongoing treatments) is treated
  as an identity round trip, so the model stores the lists themselves.
- bcrypt and jsonwebtoken are foreign calls and are parameters. Token expiry ("1h") is
  passed to the signer but not modelled.
- `AuditLog.NewestFirst`: states that the newest stamp heads `getLogs` and that the new
  entry is listed, not that the new entry itself is first. With equal stamps from one
  second, SQL leaves the order open. `AuditLog.NewestFirstWhenLater` gives the stronger
  result when the append falls in a later second.
- The `created_at` and `updated_at` columns of `appointments` are not modelled. `SELECT *`
  returns them, and an UPDATE does not change them.
- Clock readings are integers counting seconds, not `DATETIME` text. A wall clock set
  back between two inserts is outside the model.
- Concurrency is not modelled. `Promise.all` in `associateDoctorSpecialties` runs as
  inserts in list order, and its error is the first in list order, not the first in
  time. Races between concurrent requests are not modelled either.
- Notification fan-out on appointment or medical-record changes is not done by the
  source, and the model does not add it.
- Path parameters are taken as the numbers `Number(...)` yields, so NaN and non-integers
  are not modelled. Audit details print the id in decimal, which matches the raw path text
  only when that text is the canonical decimal.
- Request bodies are typed values. A JSON `patientId` of another type, and missing
  `newDate`/`newTime`, are not modelled. So the NOT NULL failure of the second insert
  inside a reschedule, after the status update, is not modelled either.
  - `AppointmentWorkflow.AppointmentService.RescheduleAppointment`: the copy insert is
    taken to succeed.
- Foreign keys into `users` (from appointments, medical_records, availability,
  notifications and audit_log) are not checked, and ON DELETE CASCADE is not modelled.
  - `UserAccounts.UserService.DeleteUser` removes the user row only, with no cascade.
  - An appointment insert that such a key rejects is the parameter `insertError`.
- NOT NULL on the `createUser` columns and on the test-result `type` and `result` is not
  modelled, because the model's input types require those values.
- `searchUsers` running its query (LIKE matching, case folding, the returned rows) is
  not modelled; the query builder is.
  - `Users.UserRepository.SearchUsers` returns the WHERE clause and the parameters, not
    the rows.
- UserRepository has no `searchUsersWithPagination` or `deleteUser`, which the service
  calls. The model does not invent them.
  - `UserAccounts.UserService.SearchUsers` returns the request the paged search would
    receive.
  - `UserAccounts.UserService.DeleteUser` removes the row directly.
- JavaScript number semantics (floating point, NaN) for `page` and `limit` are not
  modelled; they are integers here.
- `Appointments.Schedule`: the order among appointments with equal date and time is not
  stated, because SQL does not fix it.
- `Specialties.SpecialtyRepository.GetDoctorsBySpecialty`: the order of the result is not
  stated, because the query has no ORDER BY.
- `Notifications.ForRecipient` states id order, which is SQLite's plain-scan order. SQL
  does not promise it.
- `Specialties.SpecialtyRepository.GetAllSpecialties` states id order, which is SQLite's
  plain-scan order for `SELECT * FROM specialties`. SQL does not promise it.
- `MedicalRecords.MedicalRecordRepository.GetMedicalRecordById` attaches the test results
  in insertion order, which is SQLite's plain-scan order for the child query. SQL does not
  promise it.
- The `status` column is free text in the table. The model uses the three values the
  appointment type allows, which are the only ones the code writes.
