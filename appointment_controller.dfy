/**
 * The appointment routes (src/app/appointment/appoinment.controller.ts): each
 * runs `authenticateToken`, then `authorizeRoles`, then its handler, which
 * checks that the caller owns what they touch, calls the workflow, records
 * the action in the audit trail and answers. A thrown error answers 400 with
 * its message.
 */
module AppointmentRoutes {
  import opened Common
  import opened Http
  import opened AuthMiddleware
  import opened RoleMiddleware
  import opened Appointments
  import opened AppointmentWorkflow
  import AuditLog
  import Text

  /** What the two middlewares leave for the handler: the caller, or the response already sent. */
  datatype Admission = Admit(caller: Claims) | Refuse(reply: Reply)

  /** `authenticateToken` followed by `authorizeRoles(roles)`. */
  function Gate(authorization: Option<string>, verify: Verifier, roles: seq<string>): (g: Admission)
    ensures g.Admit? <==> Authenticate(authorization, verify).Authenticated?
                          && Authenticate(authorization, verify).claims.role in roles
    ensures g.Admit? ==> Authenticate(authorization, verify) == Authenticated(g.caller)
    ensures g.Refuse? ==> g.reply in {AccessDenied, InvalidToken, Forbidden}
  {
    match Authenticate(authorization, verify)
    case Denied(r) => Refuse(r)
    case Authenticated(c) =>
      match AuthorizeRoles(roles, Some(c))
      case Respond(r) => Refuse(r)
      case Next => Admit(c)
  }

  /**
   * Once a token verifies, `req.user` is set, so the role check's own 401
   * ("Unauthorized") is never the answer; a verified caller with a role not
   * in the list gets its 403.
   */
  lemma {:induction false} GateNeverUnauthorized(authorization: Option<string>, verify: Verifier, roles: seq<string>)
    ensures Gate(authorization, verify, roles) != Refuse(Unauthorized)
    ensures Authenticate(authorization, verify).Authenticated?
            && Authenticate(authorization, verify).claims.role !in roles
            ==> Gate(authorization, verify, roles) == Refuse(Forbidden)
  {
    match Authenticate(authorization, verify)
    case Denied(r) =>
      assert r == AccessDenied || r == InvalidToken;
    case Authenticated(c) =>
  }

  /**
   * What a route answers: a plain JSON body, the 201 of a creation with its
   * `{ appointmentId, message }` body, or the 200 of a schedule.
   */
  datatype RouteReply =
    | Sent(reply: Reply)
    | AppointmentCreated(appointmentId: int, message: string)
    | ScheduleSent(schedule: seq<Appointment>)
  {
    function Status(): int {
      match this
      case Sent(r) => r.status
      case AppointmentCreated(_, _) => 201
      case ScheduleSent(_) => 200
    }
  }

  const CreatedMessage := "Appointment created successfully"
  const CancelledReply := Reply(200, Message("Appointment cancelled successfully"))
  const RescheduledReply := Reply(200, Message("Appointment rescheduled successfully"))
  const CreateForbidden := Reply(403, Error("Forbidden: Patients can only create their own appointments"))
  const CancelForbidden := Reply(403, Error("Forbidden: Patients can only cancel their own appointments"))
  const RescheduleForbidden := Reply(403, Error("Forbidden: Patients can only reschedule their own appointments"))
  const ScheduleForbidden := Reply(403, Error("Forbidden: Doctors can only access their own schedule"))

  /** The `catch` branch: 400 with the thrown message. */
  function Thrown(message: string): RouteReply {
    Sent(Reply(400, Error(message)))
  }

  function CreatedEntry(userId: int, id: int): AuditLog.AuditLogInput {
    AuditLog.AuditLogInput(userId, "CREATE_APPOINTMENT", Some("Created appointment with ID " + Text.IntToDecimal(id)))
  }

  function CancelledEntry(userId: int, id: int): AuditLog.AuditLogInput {
    AuditLog.AuditLogInput(userId, "CANCEL_APPOINTMENT", Some("Cancelled appointment with ID " + Text.IntToDecimal(id)))
  }

  function RescheduledEntry(userId: int, id: int, newDate: string, newTime: string): AuditLog.AuditLogInput {
    AuditLog.AuditLogInput(userId, "RESCHEDULE_APPOINTMENT",
      Some("Rescheduled appointment with ID " + Text.IntToDecimal(id) + " to " + newDate + " at " + newTime))
  }

  function ScheduleEntry(userId: int, doctorId: int): AuditLog.AuditLogInput {
    AuditLog.AuditLogInput(userId, "GET_DOCTOR_SCHEDULE", Some("Fetched schedule for doctor with ID " + Text.IntToDecimal(doctorId)))
  }

  /** Whether a caller may act on appointment `id`: it exists and belongs to them. */
  predicate Owns(rows: map<int, Appointment>, id: int, caller: Claims) {
    id in rows && rows[id].patientId == caller.userId
  }

  /** Whether a caller may read a doctor's schedule: an admin may read any, a doctor only their own. */
  predicate MayReadSchedule(caller: Claims, doctorId: int) {
    !(caller.role == DoctorRole && doctorId != caller.userId)
  }

  /**
   * Of the roles the schedule route admits, an admin reads every schedule
   * and a doctor exactly their own.
   */
  lemma ScheduleAccess(caller: Claims, doctorId: int)
    requires caller.role in [DoctorRole, AdminRole]
    ensures MayReadSchedule(caller, doctorId) <==> caller.role == AdminRole || doctorId == caller.userId
  {
  }

  class AppointmentController {
    const service: AppointmentService
    const audit: AuditLog.AuditLogRepository

    ghost predicate Valid()
      reads this, service, service.repo, audit
    {
      service.repo.Valid() && audit.Valid()
    }

    constructor (service: AppointmentService, audit: AuditLog.AuditLogRepository)
      ensures this.service == service && this.audit == audit
    {
      this.service := service;
      this.audit := audit;
    }

    /** Appends the audit entry for a handled request; a store error becomes the route's 400. */
    method Record(input: AuditLog.AuditLogInput, now: int, auditError: Option<string>, success: RouteReply) returns (resp: RouteReply)
      requires audit.Valid()
      requires audit.clock <= now
      modifies audit
      ensures audit.Valid()
      ensures (audit.rows, audit.nextId, audit.clock)
              == AuditLog.LogStep(old(audit.rows), old(audit.nextId), old(audit.clock), input, now, auditError)
      ensures resp == (if auditError.Some? then Thrown(auditError.value) else success)
    {
      var o := audit.LogAction(input, now, auditError);
      resp := if o.Fail? then Thrown(o.message) else success;
    }

    /**
     * `POST /`: a patient creates an appointment for themselves. Another
     * patient id in the body is refused with 403 and nothing is written; a
     * store rejection of the insert answers 400 and nothing is written;
     * otherwise the appointment is stored, the creation is logged and the
     * answer is 201 with the new id. A failure to log still leaves the
     * appointment stored, and answers 400.
     */
    method CreateRoute(authorization: Option<string>, verify: Verifier, body: AppointmentInput,
                       insertError: Option<string>, now: int, auditError: Option<string>) returns (resp: RouteReply)
      requires Valid()
      requires audit.clock <= now
      modifies service.repo, audit
      ensures Valid()
      ensures var g := Gate(authorization, verify, [PatientRole]);
        if g.Refuse? || body.patientId != g.caller.userId || insertError.Some? then
          && resp == (if g.Refuse? then Sent(g.reply)
                      else if body.patientId != g.caller.userId then Sent(CreateForbidden)
                      else Thrown(insertError.value))
          && service.repo.rows == old(service.repo.rows) && service.repo.nextId == old(service.repo.nextId)
          && unchanged(audit)
        else
          && service.repo.rows == old(service.repo.rows)[old(service.repo.nextId) := NewRow(old(service.repo.nextId), body)]
          && service.repo.nextId == old(service.repo.nextId) + 1
          && (audit.rows, audit.nextId, audit.clock)
             == AuditLog.LogStep(old(audit.rows), old(audit.nextId), old(audit.clock),
                                 CreatedEntry(g.caller.userId, old(service.repo.nextId)), now, auditError)
          && resp == (if auditError.Some? then Thrown(auditError.value) else AppointmentCreated(old(service.repo.nextId), CreatedMessage))
    {
      var g := Gate(authorization, verify, [PatientRole]);
      if g.Refuse? {
        return Sent(g.reply);
      }
      if body.patientId != g.caller.userId {
        return Sent(CreateForbidden);
      }
      var created := service.CreateAppointment(body, insertError);
      if created.Err? {
        return Thrown(created.message);
      }
      resp := Record(CreatedEntry(g.caller.userId, created.value), now, auditError, AppointmentCreated(created.value, CreatedMessage));
    }

    /**
     * `DELETE /:appointmentId`: a patient cancels one of their own
     * appointments. A missing appointment and another patient's appointment
     * get the same 403 and nothing is written; otherwise the status becomes
     * Cancelled and the cancellation is logged.
     */
    method CancelRoute(authorization: Option<string>, verify: Verifier, appointmentId: int,
                       now: int, auditError: Option<string>) returns (resp: RouteReply)
      requires Valid()
      requires audit.clock <= now
      modifies service.repo, audit
      ensures Valid()
      ensures service.repo.nextId == old(service.repo.nextId)
      ensures var g := Gate(authorization, verify, [PatientRole]);
        if g.Refuse? || !Owns(old(service.repo.rows), appointmentId, g.caller) then
          && resp == (if g.Refuse? then Sent(g.reply) else Sent(CancelForbidden))
          && service.repo.rows == old(service.repo.rows) && unchanged(audit)
        else
          && service.repo.rows == WithStatus(old(service.repo.rows), appointmentId, Cancelled)
          && (audit.rows, audit.nextId, audit.clock)
             == AuditLog.LogStep(old(audit.rows), old(audit.nextId), old(audit.clock),
                                 CancelledEntry(g.caller.userId, appointmentId), now, auditError)
          && resp == (if auditError.Some? then Thrown(auditError.value) else Sent(CancelledReply))
    {
      var g := Gate(authorization, verify, [PatientRole]);
      if g.Refuse? {
        return Sent(g.reply);
      }
      var found := service.GetAppointmentById(appointmentId);
      if found.None? || found.value.patientId != g.caller.userId {
        return Sent(CancelForbidden);
      }
      // The appointment exists, so the workflow's "Appointment not found" cannot be thrown here.
      var _ := service.CancelAppointment(appointmentId);
      resp := Record(CancelledEntry(g.caller.userId, appointmentId), now, auditError, Sent(CancelledReply));
    }

    /**
     * `PUT /:appointmentId`: a patient moves one of their own appointments to
     * a new date and time. The ownership check is the cancel route's; on
     * success the original becomes Rescheduled, a new Scheduled appointment
     * is stored and the move is logged.
     */
    method RescheduleRoute(authorization: Option<string>, verify: Verifier, appointmentId: int,
                           newDate: string, newTime: string, now: int, auditError: Option<string>) returns (resp: RouteReply)
      requires Valid()
      requires audit.clock <= now
      modifies service.repo, audit
      ensures Valid()
      ensures var g := Gate(authorization, verify, [PatientRole]);
        if g.Refuse? || !Owns(old(service.repo.rows), appointmentId, g.caller) then
          && resp == (if g.Refuse? then Sent(g.reply) else Sent(RescheduleForbidden))
          && service.repo.rows == old(service.repo.rows) && service.repo.nextId == old(service.repo.nextId)
          && unchanged(audit)
        else
          && service.repo.rows == AfterReschedule(old(service.repo.rows), old(service.repo.nextId), appointmentId, newDate, newTime)
          && service.repo.nextId == old(service.repo.nextId) + 1
          && (audit.rows, audit.nextId, audit.clock)
             == AuditLog.LogStep(old(audit.rows), old(audit.nextId), old(audit.clock),
                                 RescheduledEntry(g.caller.userId, appointmentId, newDate, newTime), now, auditError)
          && resp == (if auditError.Some? then Thrown(auditError.value) else Sent(RescheduledReply))
    {
      var g := Gate(authorization, verify, [PatientRole]);
      if g.Refuse? {
        return Sent(g.reply);
      }
      var found := service.GetAppointmentById(appointmentId);
      if found.None? || found.value.patientId != g.caller.userId {
        return Sent(RescheduleForbidden);
      }
      var _ := service.RescheduleAppointment(appointmentId, newDate, newTime);
      resp := Record(RescheduledEntry(g.caller.userId, appointmentId, newDate, newTime), now, auditError, Sent(RescheduledReply));
    }

    /**
     * `GET /doctors/:doctorId/schedule`: a doctor reads their own schedule,
     * an admin any doctor's. A doctor asking for another doctor's schedule
     * gets 403 and nothing is written; otherwise the read is logged and the
     * schedule is the answer.
     */
    method ScheduleRoute(authorization: Option<string>, verify: Verifier, doctorId: int,
                         now: int, auditError: Option<string>) returns (resp: RouteReply)
      requires Valid()
      requires audit.clock <= now
      modifies audit
      ensures Valid()
      ensures var g := Gate(authorization, verify, [DoctorRole, AdminRole]);
        if g.Refuse? || !MayReadSchedule(g.caller, doctorId) then
          && resp == (if g.Refuse? then Sent(g.reply) else Sent(ScheduleForbidden))
          && unchanged(audit)
        else
          && (audit.rows, audit.nextId, audit.clock)
             == AuditLog.LogStep(old(audit.rows), old(audit.nextId), old(audit.clock),
                                 ScheduleEntry(g.caller.userId, doctorId), now, auditError)
          && resp == (if auditError.Some? then Thrown(auditError.value)
                      else ScheduleSent(Schedule(service.repo.rows, service.repo.nextId, doctorId)))
    {
      var g := Gate(authorization, verify, [DoctorRole, AdminRole]);
      if g.Refuse? {
        return Sent(g.reply);
      }
      if g.caller.role == DoctorRole && doctorId != g.caller.userId {
        return Sent(ScheduleForbidden);
      }
      var schedule := service.GetDoctorSchedule(doctorId);
      resp := Record(ScheduleEntry(g.caller.userId, doctorId), now, auditError, ScheduleSent(schedule));
    }
  }
}
