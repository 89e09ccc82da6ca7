/**
 * The appointment store (src/app/appointment/appointment.repository.ts) over
 * the `appointments` table.
 */
module Appointments {
  import opened Common
  import opened Sequences
  import Text
  import Tables

  /** The `status` values of src/app/appointment/appoinment.model.ts. */
  datatype Status = Scheduled | Cancelled | Rescheduled

  /** What a caller hands to `createAppointment`; `status` is accepted but never stored. */
  datatype AppointmentInput = AppointmentInput(
    patientId: int, doctorId: int, date: string, time: string,
    reason: Option<string>, status: Option<Status>)

  /** A row of `appointments`. Dates and times are text, compared as text. */
  datatype Appointment = Appointment(
    id: int, patientId: int, doctorId: int, date: string, time: string,
    reason: Option<string>, status: Status)

  /** The row the INSERT stores under `id`. */
  function NewRow(id: int, a: AppointmentInput): (row: Appointment)
  {
    Appointment(id, a.patientId, a.doctorId, a.date, a.time, OrNull(a.reason), Scheduled)
  }

  /** A created row always holds the given parties and slot, is Scheduled whatever the input said, and holds no empty reason. */
  lemma NewRowIsScheduled(id: int, a: AppointmentInput)
    ensures NewRow(id, a).status == Scheduled
    ensures NewRow(id, a).reason == (if a.reason == Some("") then None else a.reason)
    ensures (NewRow(id, a).id, NewRow(id, a).patientId, NewRow(id, a).doctorId, NewRow(id, a).date, NewRow(id, a).time)
         == (id, a.patientId, a.doctorId, a.date, a.time)
  {
  }

  /** The table invariant: ids handed out in order, each row under its own id, no empty reason stored. */
  ghost predicate WellFormed(rows: map<int, Appointment>, nextId: int) {
    && 1 <= nextId
    && Tables.KeysWithin(rows, nextId)
    && forall k :: k in rows ==> rows[k].id == k && rows[k].reason != Some("")
  }

  /** `UPDATE appointments SET status = ? WHERE id = ?`: a no-op when no row has that id. */
  function WithStatus(rows: map<int, Appointment>, id: int, status: Status): map<int, Appointment>
  {
    if id in rows then rows[id := rows[id].(status := status)] else rows
  }

  /** A status update changes the status field of row `id` and nothing else. */
  lemma WithStatusFrame(rows: map<int, Appointment>, nextId: int, id: int, status: Status)
    requires WellFormed(rows, nextId)
    ensures WellFormed(WithStatus(rows, id, status), nextId)
    ensures WithStatus(rows, id, status).Keys == rows.Keys
    ensures forall k :: k in rows && k != id ==> WithStatus(rows, id, status)[k] == rows[k]
    ensures id in rows ==> WithStatus(rows, id, status)[id] == rows[id].(status := status)
  {
  }

  /** `ORDER BY date, time`: `a` may come before `b`. */
  predicate ScheduleLe(a: Appointment, b: Appointment) {
    if a.date != b.date then Text.TextLe(a.date, b.date) else Text.TextLe(a.time, b.time)
  }

  lemma ScheduleLeOrders()
    ensures TotalPreorder(ScheduleLe)
  {
    forall a: Appointment, b: Appointment ensures ScheduleLe(a, b) || ScheduleLe(b, a) {
      Text.TextLeTotal(a.date, b.date);
      Text.TextLeTotal(a.time, b.time);
    }
    forall a: Appointment, b: Appointment, c: Appointment | ScheduleLe(a, b) && ScheduleLe(b, c)
      ensures ScheduleLe(a, c)
    {
      Text.TextLeTransitive(a.date, b.date, c.date);
      Text.TextLeTransitive(a.time, b.time, c.time);
      Text.TextLeAntisymmetric(a.date, b.date);
      Text.TextLeAntisymmetric(b.date, c.date);
      Text.TextLeAntisymmetric(a.date, c.date);
    }
  }

  function AppointmentId(a: Appointment): int { a.id }

  /** The rows of the table in id order. */
  function AllRows(rows: map<int, Appointment>, nextId: int): (s: seq<Appointment>)
    requires WellFormed(rows, nextId)
    ensures forall a :: a in s <==> a.id in rows && rows[a.id] == a
    ensures Ascending(s, AppointmentId)
  {
    Tables.ScanContents(rows, nextId, AppointmentId);
    Tables.ScanAscending(rows, nextId, AppointmentId);
    Tables.Scan(rows, nextId)
  }

  /**
   * `SELECT * FROM appointments WHERE doctorId = ? AND status = 'Scheduled'
   * ORDER BY date, time`.
   */
  function Schedule(rows: map<int, Appointment>, nextId: int, doctorId: int): (r: seq<Appointment>)
    requires WellFormed(rows, nextId)
    ensures forall a :: a in r <==> a.id in rows && rows[a.id] == a && a.doctorId == doctorId && a.status == Scheduled
    ensures Distinct(r)
    ensures SortedBy(r, ScheduleLe)
  {
    var all := AllRows(rows, nextId);
    var isOpen := (a: Appointment) => a.doctorId == doctorId && a.status == Scheduled;
    var matching := Filter(all, isOpen);
    FilterAscending(all, isOpen, AppointmentId);
    AscendingDistinct(matching, AppointmentId);
    ScheduleLeOrders();
    var r := Sort(matching, ScheduleLe);
    DistinctPermutation(matching, r);
    assert forall a :: a in r <==> a in multiset(matching);
    r
  }

  class AppointmentRepository {
    var rows: map<int, Appointment>
    var nextId: int

    ghost predicate Valid()
      reads this
    {
      WellFormed(rows, nextId)
    }

    constructor ()
      ensures Valid() && rows == map[] && nextId == 1
    {
      rows := map[];
      nextId := 1;
    }

    /**
     * `createAppointment`: stores one new row under an id no row had, with the
     * input's parties, date, time and reason (empty reason as NULL) and status
     * Scheduled whatever the input's status, and returns that id; existing
     * rows are unchanged. When the store rejects the insert (`storeError`,
     * for instance a foreign key to `users` that does not hold) the error is
     * thrown and nothing is stored.
     */
    method CreateAppointment(a: AppointmentInput, storeError: Option<string>) returns (r: Result<int>)
      requires Valid()
      modifies this
      ensures Valid()
      ensures storeError.Some? ==> r == Err(storeError.value) && rows == old(rows) && nextId == old(nextId)
      ensures storeError.None? ==>
                && r == Ok(old(nextId)) && old(nextId) !in old(rows)
                && rows == old(rows)[old(nextId) := NewRow(old(nextId), a)]
                && nextId == old(nextId) + 1
    {
      if storeError.Some? {
        return Err(storeError.value);
      }
      r := Ok(nextId);
      rows := rows[nextId := NewRow(nextId, a)];
      nextId := nextId + 1;
    }

    /** `getAppointmentById`: null exactly when no row is stored under that id; otherwise the row, whose id field is that id. */
    function GetAppointmentById(id: int): (r: Option<Appointment>)
      requires Valid()
      reads this
      ensures r.None? <==> id !in rows
      ensures r.Some? ==> r.value == rows[id] && r.value.id == id
    {
      if id in rows then Some(rows[id]) else None
    }

    /** `updateAppointmentStatus`: only the status of row `id` changes; an absent id changes nothing. */
    method UpdateAppointmentStatus(id: int, status: Status)
      requires Valid()
      modifies this
      ensures Valid()
      ensures rows == WithStatus(old(rows), id, status) && nextId == old(nextId)
    {
      WithStatusFrame(rows, nextId, id, status);
      rows := WithStatus(rows, id, status);
    }

    /**
     * `getDoctorSchedule`: exactly the Scheduled rows of that doctor, each
     * once, ordered by date and then time, both compared as text.
     */
    function GetDoctorSchedule(doctorId: int): (r: seq<Appointment>)
      requires Valid()
      reads this
      ensures forall a :: a in r <==> a.id in rows && rows[a.id] == a && a.doctorId == doctorId && a.status == Scheduled
      ensures Distinct(r)
      ensures SortedBy(r, ScheduleLe)
    {
      Schedule(rows, nextId, doctorId)
    }
  }
}
