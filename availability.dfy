/**
 * Doctor availability (src/app/availability/availability.repository.ts, with
 * the delegating AvailabilityService folded in): the `availability` table,
 * whose primary key is (doctorId, date), maps each key to a list of time-slot
 * labels. The list goes through `JSON.stringify` on the way in and
 * `JSON.parse` on the way out, which gives back the same list, so the model
 * stores the list itself.
 */
module Availability {
  import opened Common

  datatype Availability = Availability(doctorId: int, date: string, timeSlots: seq<string>)

  /** The row for a key, as `getAvailability` rebuilds it; None when there is none. */
  function Lookup(slots: map<(int, string), seq<string>>, doctorId: int, date: string): (r: Option<Availability>)
  {
    if (doctorId, date) in slots then Some(Availability(doctorId, date, slots[(doctorId, date)])) else None
  }

  /** `INSERT OR REPLACE`: the row for the key is the new one, whether or not one existed. */
  function Upsert(slots: map<(int, string), seq<string>>, a: Availability): map<(int, string), seq<string>>
  {
    slots[(a.doctorId, a.date) := a.timeSlots]
  }

  /** Setting then getting the same key gives back the same slot list. */
  lemma SetThenGet(slots: map<(int, string), seq<string>>, a: Availability)
    ensures Lookup(Upsert(slots, a), a.doctorId, a.date) == Some(a)
  {
  }

  /** Setting one key leaves every other key as it was. */
  lemma SetLeavesOtherKeys(slots: map<(int, string), seq<string>>, a: Availability, doctorId: int, date: string)
    requires (doctorId, date) != (a.doctorId, a.date)
    ensures Lookup(Upsert(slots, a), doctorId, date) == Lookup(slots, doctorId, date)
  {
  }

  /** A second set for the same key replaces the first: only the last one is seen. */
  lemma LastSetWins(slots: map<(int, string), seq<string>>, a: Availability, b: Availability)
    requires (a.doctorId, a.date) == (b.doctorId, b.date)
    ensures Upsert(Upsert(slots, a), b) == Upsert(slots, b)
  {
  }

  class AvailabilityRepository {
    /** One entry per (doctorId, date): the primary key guarantees at most one row. */
    var slots: map<(int, string), seq<string>>

    constructor ()
      ensures slots == map[]
    {
      slots := map[];
    }

    /** `setAvailability`: inserts or replaces the row of `(a.doctorId, a.date)` and no other. */
    method SetAvailability(a: Availability)
      modifies this
      ensures slots == old(slots)[(a.doctorId, a.date) := a.timeSlots]
      ensures GetAvailability(a.doctorId, a.date) == Some(a)
      ensures forall k :: k in old(slots) && k != (a.doctorId, a.date) ==> k in slots && slots[k] == old(slots)[k]
      ensures slots.Keys == old(slots).Keys + {(a.doctorId, a.date)}
    {
      slots := Upsert(slots, a);
    }

    /** `getAvailability`: the stored list for the key, or null when the key has no row. */
    function GetAvailability(doctorId: int, date: string): (r: Option<Availability>)
      reads this
      ensures r.None? <==> (doctorId, date) !in slots
      ensures r.Some? ==> r.value.doctorId == doctorId && r.value.date == date
                          && r.value.timeSlots == slots[(doctorId, date)]
    {
      Lookup(slots, doctorId, date)
    }
  }
}
