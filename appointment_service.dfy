/**
 * The appointment workflow (src/app/appointment/appoinment.service.ts):
 * creation, cancellation and rescheduling over the appointment store.
 */
module AppointmentWorkflow {
  import opened Common
  import opened Sequences
  import opened Appointments

  const NotFound := "Appointment not found"

  /** The input `rescheduleAppointment` builds from the stored row: same parties and reason, new slot. */
  function Moved(a: Appointment, newDate: string, newTime: string): AppointmentInput {
    AppointmentInput(a.patientId, a.doctorId, newDate, newTime, a.reason, Some(Scheduled))
  }

  /** The table after a successful reschedule of `id` (which must be stored). */
  function AfterReschedule(rows: map<int, Appointment>, nextId: int, id: int, newDate: string, newTime: string): map<int, Appointment>
    requires id in rows
  {
    WithStatus(rows, id, Appointments.Rescheduled)[nextId := NewRow(nextId, Moved(rows[id], newDate, newTime))]
  }

  /**
   * A reschedule marks the original Rescheduled and keeps its date and time,
   * adds exactly one row under a fresh id with the same patient, doctor and
   * reason, the new date and time and status Scheduled, and changes no
   * other row.
   */
  lemma RescheduleRows(rows: map<int, Appointment>, nextId: int, id: int, newDate: string, newTime: string)
    requires WellFormed(rows, nextId) && id in rows
    ensures var t := AfterReschedule(rows, nextId, id, newDate, newTime);
            && nextId !in rows && t.Keys == rows.Keys + {nextId}
            && t[id] == rows[id].(status := Appointments.Rescheduled)
            && t[nextId] == Appointment(nextId, rows[id].patientId, rows[id].doctorId, newDate, newTime,
                                        rows[id].reason, Scheduled)
            && forall k :: k in rows && k != id ==> t[k] == rows[k]
  {
    WithStatusFrame(rows, nextId, id, Appointments.Rescheduled);
    OrNullIdempotent(rows[id].reason);
  }

  /** Cancelling twice is cancelling once: the second cancel finds the row and leaves it Cancelled. */
  lemma CancelTwice(rows: map<int, Appointment>, id: int)
    ensures WithStatus(WithStatus(rows, id, Cancelled), id, Cancelled) == WithStatus(rows, id, Cancelled)
    ensures id in rows ==> id in WithStatus(rows, id, Cancelled)
  {
  }

  /**
   * After a reschedule the doctor's schedule holds the new slot, no longer
   * holds the original appointment, and otherwise lists what it listed before.
   */
  lemma RescheduleMovesSlot(rows: map<int, Appointment>, nextId: int, id: int, newDate: string, newTime: string)
    requires WellFormed(rows, nextId) && id in rows
    ensures WellFormed(AfterReschedule(rows, nextId, id, newDate, newTime), nextId + 1)
    ensures var after := Schedule(AfterReschedule(rows, nextId, id, newDate, newTime), nextId + 1, rows[id].doctorId);
            && NewRow(nextId, Moved(rows[id], newDate, newTime)) in after
            && (forall a :: a in after ==> a.id != id)
            && (forall a :: a in after && a.id != nextId <==> a in Schedule(rows, nextId, rows[id].doctorId) && a.id != id)
  {
    WithStatusFrame(rows, nextId, id, Appointments.Rescheduled);
    var mid := WithStatus(rows, id, Appointments.Rescheduled);
    var row := NewRow(nextId, Moved(rows[id], newDate, newTime));
    var table := mid[nextId := row];
    assert table == AfterReschedule(rows, nextId, id, newDate, newTime);
    assert WellFormed(table, nextId + 1);
    var before := Schedule(rows, nextId, rows[id].doctorId);
    var after := Schedule(table, nextId + 1, rows[id].doctorId);
    assert table[nextId] == row;
    assert row in after;
    forall a | a in after ensures a.id != id {
      assert table[a.id] == a;
    }
    forall a ensures a in after && a.id != nextId <==> a in before && a.id != id {
      if a.id != nextId && a.id != id {
        assert (a.id in table && table[a.id] == a) <==> (a.id in rows && rows[a.id] == a);
      }
    }
  }

  class AppointmentService {
    const repo: AppointmentRepository

    constructor (repo: AppointmentRepository)
      ensures this.repo == repo
    {
      this.repo := repo;
    }

    /** `createAppointment`: forwards to the store. */
    method CreateAppointment(a: AppointmentInput, storeError: Option<string>) returns (r: Result<int>)
      requires repo.Valid()
      modifies repo
      ensures repo.Valid()
      ensures storeError.Some? ==> r == Err(storeError.value) && repo.rows == old(repo.rows) && repo.nextId == old(repo.nextId)
      ensures storeError.None? ==>
                && r == Ok(old(repo.nextId)) && old(repo.nextId) !in old(repo.rows)
                && repo.rows == old(repo.rows)[old(repo.nextId) := NewRow(old(repo.nextId), a)]
                && repo.nextId == old(repo.nextId) + 1
    {
      r := repo.CreateAppointment(a, storeError);
    }

    /**
     * `cancelAppointment`: an unknown id fails with "Appointment not found"
     * and changes nothing; otherwise the row's status becomes Cancelled.
     */
    method CancelAppointment(id: int) returns (o: Outcome)
      requires repo.Valid()
      modifies repo
      ensures repo.Valid()
      ensures o == (if id in old(repo.rows) then Pass else Fail(NotFound))
      ensures repo.rows == WithStatus(old(repo.rows), id, Cancelled) && repo.nextId == old(repo.nextId)
    {
      var found := repo.GetAppointmentById(id);
      if found.None? {
        return Fail(NotFound);
      }
      repo.UpdateAppointmentStatus(id, Cancelled);
      o := Pass;
    }

    /**
     * `rescheduleAppointment`: an unknown id fails with "Appointment not
     * found" and changes nothing; otherwise the row becomes Rescheduled and a
     * new Scheduled row with the same patient, doctor and reason is stored
     * for the new date and time. Any stored row can be rescheduled, a
     * cancelled one included.
     */
    method RescheduleAppointment(id: int, newDate: string, newTime: string) returns (o: Outcome)
      requires repo.Valid()
      modifies repo
      ensures repo.Valid()
      ensures o == (if id in old(repo.rows) then Pass else Fail(NotFound))
      ensures id !in old(repo.rows) ==> repo.rows == old(repo.rows) && repo.nextId == old(repo.nextId)
      ensures id in old(repo.rows) ==>
                && repo.rows == AfterReschedule(old(repo.rows), old(repo.nextId), id, newDate, newTime)
                && repo.nextId == old(repo.nextId) + 1
    {
      var found := repo.GetAppointmentById(id);
      if found.None? {
        return Fail(NotFound);
      }
      var original := found.value;
      repo.UpdateAppointmentStatus(id, Appointments.Rescheduled);
      var _ := repo.CreateAppointment(Moved(original, newDate, newTime), None);
      o := Pass;
    }

    /** `getDoctorSchedule`: forwards to the store. */
    function GetDoctorSchedule(doctorId: int): (r: seq<Appointment>)
      requires repo.Valid()
      reads repo
      ensures forall a :: a in r <==> a.id in repo.rows && repo.rows[a.id] == a && a.doctorId == doctorId && a.status == Scheduled
      ensures Distinct(r)
      ensures SortedBy(r, ScheduleLe)
    {
      repo.GetDoctorSchedule(doctorId)
    }

    /** `getAppointmentById`: forwards to the store. */
    function GetAppointmentById(id: int): (r: Option<Appointment>)
      requires repo.Valid()
      reads repo
      ensures r.None? <==> id !in repo.rows
      ensures r.Some? ==> r.value == repo.rows[id]
    {
      repo.GetAppointmentById(id)
    }
  }

  /** A cancelled appointment leaves its doctor's schedule; the rest of the schedule is as before. */
  lemma CancelRemovesFromSchedule(rows: map<int, Appointment>, nextId: int, id: int, doctorId: int)
    requires WellFormed(rows, nextId)
    ensures WellFormed(WithStatus(rows, id, Cancelled), nextId)
    ensures forall a :: a in Schedule(WithStatus(rows, id, Cancelled), nextId, doctorId)
                    <==> a in Schedule(rows, nextId, doctorId) && a.id != id
  {
    WithStatusFrame(rows, nextId, id, Cancelled);
  }
}
