/**
 * Specialties and their doctors (src/app/specialty/specialty.repository.ts,
 * with the delegating SpecialtyService folded in): the `specialties` table,
 * the `doctor_specialties` link table whose primary key is the pair
 * (doctorId, specialtyId) and whose columns are foreign keys into `users`
 * and `specialties`, and a join of the links with the users.
 */
module Specialties {
  import opened Common
  import opened Sequences
  import Tables
  import Users

  /** A row of `specialties`. */
  datatype Specialty = Specialty(id: int, name: string)

  /** A row of the join `getDoctorsBySpecialty` returns. */
  datatype DoctorSummary = DoctorSummary(doctorId: int, doctorName: string)

  const LinkTaken := "SQLITE_CONSTRAINT: UNIQUE constraint failed: doctor_specialties.doctorId, doctor_specialties.specialtyId"
  const ForeignKeyFailed := "SQLITE_CONSTRAINT: FOREIGN KEY constraint failed"

  function SpecialtyId(s: Specialty): int { s.id }

  /**
   * The error inserting one link meets, if any: a pair already present fails
   * the primary key; otherwise a doctor or specialty that does not exist
   * fails a foreign key.
   */
  function LinkError(links: seq<(int, int)>, pair: (int, int), userIds: set<int>, specialtyIds: set<int>): Option<string>
  {
    if pair in links then Some(LinkTaken)
    else if pair.0 !in userIds || pair.1 !in specialtyIds then Some(ForeignKeyFailed)
    else None
  }

  /**
   * `associateDoctorSpecialties(doctorId, ids)` as the inserts happen one
   * after the other: every insert is attempted, the ones that succeed add
   * their pair, and the operation fails with the first error met.
   */
  function Associate(links: seq<(int, int)>, doctorId: int, ids: seq<int>, userIds: set<int>, specialtyIds: set<int>)
    : (r: (seq<(int, int)>, Option<string>))
    decreases |ids|
  {
    if ids == [] then (links, None)
    else
      var (before, err) := Associate(links, doctorId, ids[..|ids| - 1], userIds, specialtyIds);
      var e := LinkError(before, (doctorId, ids[|ids| - 1]), userIds, specialtyIds);
      (if e.None? then before + [(doctorId, ids[|ids| - 1])] else before, if err.Some? then err else e)
  }

  /**
   * After the inserts the link table holds the old links plus the pair
   * (doctorId, s) for every listed s that exists, when the doctor exists,
   * and nothing else; it still holds each pair once.
   */
  lemma {:induction false} AssociateContents(links: seq<(int, int)>, doctorId: int, ids: seq<int>,
                                             userIds: set<int>, specialtyIds: set<int>)
    requires Distinct(links)
    ensures Distinct(Associate(links, doctorId, ids, userIds, specialtyIds).0)
    ensures forall p :: p in Associate(links, doctorId, ids, userIds, specialtyIds).0 <==>
              p in links || (p.0 == doctorId && p.1 in ids && doctorId in userIds && p.1 in specialtyIds)
    decreases |ids|
  {
    if ids != [] {
      var prefix := ids[..|ids| - 1];
      AssociateContents(links, doctorId, prefix, userIds, specialtyIds);
      assert ids == prefix + [ids[|ids| - 1]];
      var before := Associate(links, doctorId, prefix, userIds, specialtyIds).0;
      var pair := (doctorId, ids[|ids| - 1]);
      if LinkError(before, pair, userIds, specialtyIds).None? {
        forall i | 0 <= i < |before| ensures before[i] != pair {
          assert before[i] in before;
        }
      }
    }
  }

  /**
   * The operation succeeds exactly when the doctor exists and every listed
   * specialty exists, is not yet linked to the doctor and is listed once.
   */
  lemma {:induction false} AssociateSucceeds(links: seq<(int, int)>, doctorId: int, ids: seq<int>,
                                             userIds: set<int>, specialtyIds: set<int>)
    requires Distinct(links)
    ensures Associate(links, doctorId, ids, userIds, specialtyIds).1.None? <==>
              forall i :: 0 <= i < |ids| ==>
                && doctorId in userIds && ids[i] in specialtyIds && (doctorId, ids[i]) !in links
                && forall j :: 0 <= j < i ==> ids[j] != ids[i]
    decreases |ids|
  {
    if ids != [] {
      var n := |ids| - 1;
      var prefix := ids[..n];
      AssociateSucceeds(links, doctorId, prefix, userIds, specialtyIds);
      AssociateContents(links, doctorId, prefix, userIds, specialtyIds);
      assert forall i :: 0 <= i < n ==> prefix[i] == ids[i];
      var before := Associate(links, doctorId, prefix, userIds, specialtyIds).0;
      var pair := (doctorId, ids[n]);
      if Associate(links, doctorId, prefix, userIds, specialtyIds).1.None? {
        // Every earlier id was linked, so `pair` is already in `before` exactly when ids[n] repeats one or was linked.
        assert pair in before <==> pair in links || exists j :: 0 <= j < n && ids[j] == ids[n] by {
          if pair in before && pair !in links {
            assert ids[n] in prefix;
            var j :| 0 <= j < n && prefix[j] == ids[n];
          }
          if exists j :: 0 <= j < n && ids[j] == ids[n] {
            var j :| 0 <= j < n && ids[j] == ids[n];
            assert prefix[j] == ids[n];
          }
        }
      }
    }
  }

  /** An empty list of specialties leaves the link table as it is and succeeds. */
  lemma AssociateNothing(links: seq<(int, int)>, doctorId: int, userIds: set<int>, specialtyIds: set<int>)
    ensures Associate(links, doctorId, [], userIds, specialtyIds) == (links, None)
  {
  }

  /** The doctors linked to `specialtyId`, in link order, with their names: the join filtered to role Doctor. */
  function DoctorsOf(links: seq<(int, int)>, users: map<int, Users.User>, specialtyId: int): (r: seq<DoctorSummary>)
    ensures forall x :: x in r <==>
              (x.doctorId, specialtyId) in links && x.doctorId in users
              && users[x.doctorId].role == DoctorRole && x.doctorName == users[x.doctorId].name
  {
    if links == [] then []
    else
      var rest := DoctorsOf(links[1..], users, specialtyId);
      var (d, s) := links[0];
      if s == specialtyId && d in users && users[d].role == DoctorRole
      then [DoctorSummary(d, users[d].name)] + rest
      else rest
  }

  /** With each pair linked once, each doctor appears once. */
  lemma {:induction false} DoctorsOfDistinct(links: seq<(int, int)>, users: map<int, Users.User>, specialtyId: int)
    requires Distinct(links)
    ensures Distinct(DoctorsOf(links, users, specialtyId))
    decreases |links|
  {
    if links != [] {
      assert Distinct(links[1..]) by {
        forall i, j | 0 <= i < j < |links[1..]| ensures links[1..][i] != links[1..][j] {
          assert links[1..][i] == links[i + 1] && links[1..][j] == links[j + 1];
        }
      }
      DoctorsOfDistinct(links[1..], users, specialtyId);
      var (d, s) := links[0];
      var rest := DoctorsOf(links[1..], users, specialtyId);
      if s == specialtyId && d in users && users[d].role == DoctorRole {
        var x := DoctorSummary(d, users[d].name);
        assert x !in rest;
        forall i, j | 0 <= i < j < |[x] + rest| ensures ([x] + rest)[i] != ([x] + rest)[j] {
          if i == 0 {
            assert ([x] + rest)[j] == rest[j - 1];
            assert rest[j - 1] in rest;
          } else {
            assert ([x] + rest)[i] == rest[i - 1] && ([x] + rest)[j] == rest[j - 1];
          }
        }
      }
    }
  }

  class SpecialtyRepository {
    var specialties: map<int, Specialty>
    var nextId: int
    /** The rows of `doctor_specialties`, in insertion order. */
    var links: seq<(int, int)>
    const users: Users.UserRepository

    ghost predicate Valid()
      reads this
    {
      && 1 <= nextId
      && Tables.KeysWithin(specialties, nextId)
      && Tables.KeyedBy(specialties, SpecialtyId)
      && Distinct(links)
    }

    /** The tables as the schema script leaves them: the four seeded specialties and no links. */
    constructor (users: Users.UserRepository)
      ensures Valid() && this.users == users && links == []
      ensures specialties == map[1 := Specialty(1, "Cardiology"), 2 := Specialty(2, "Dermatology"),
                                 3 := Specialty(3, "Neurology"), 4 := Specialty(4, "Pediatrics")]
      ensures nextId == 5
    {
      this.users := users;
      specialties := map[1 := Specialty(1, "Cardiology"), 2 := Specialty(2, "Dermatology"),
                         3 := Specialty(3, "Neurology"), 4 := Specialty(4, "Pediatrics")];
      nextId := 5;
      links := [];
    }

    /** `getAllSpecialties`: every specialty row, once each, in id order. */
    function GetAllSpecialties(): (r: seq<Specialty>)
      requires Valid()
      reads this
      ensures forall s :: s in r <==> s.id in specialties && specialties[s.id] == s
      ensures Ascending(r, SpecialtyId)
    {
      Tables.ScanContents(specialties, nextId, SpecialtyId);
      Tables.ScanAscending(specialties, nextId, SpecialtyId);
      Tables.Scan(specialties, nextId)
    }

    /**
     * `associateDoctorSpecialties`: one INSERT per listed specialty, in list
     * order; each that meets no constraint adds its pair, and the operation
     * fails with the first constraint error.
     */
    method AssociateDoctorSpecialties(doctorId: int, specialtyIds: seq<int>) returns (o: Outcome)
      requires Valid()
      modifies this
      ensures Valid()
      ensures specialties == old(specialties) && nextId == old(nextId)
      ensures (links, o.ErrorText()) ==
              (var (after, err) := Associate(old(links), doctorId, specialtyIds, users.rows.Keys, specialties.Keys);
               (after, if err.Some? then err.value else ""))
      ensures o.Pass? <==> Associate(old(links), doctorId, specialtyIds, users.rows.Keys, specialties.Keys).1.None?
    {
      var firstError: Option<string> := None;
      for i := 0 to |specialtyIds|
        invariant (links, firstError) == Associate(old(links), doctorId, specialtyIds[..i], users.rows.Keys, specialties.Keys)
        invariant specialties == old(specialties) && nextId == old(nextId)
        invariant Distinct(links)
      {
        assert specialtyIds[..i + 1][..i] == specialtyIds[..i];
        var pair := (doctorId, specialtyIds[i]);
        var e: Option<string>;
        if pair in links {
          e := Some(LinkTaken);
        } else if doctorId !in users.rows || specialtyIds[i] !in specialties {
          e := Some(ForeignKeyFailed);
        } else {
          e := None;
          forall a, b | 0 <= a < b < |links + [pair]| ensures (links + [pair])[a] != (links + [pair])[b] {
            if b == |links| {
              assert links[a] in links;
            }
          }
          links := links + [pair];
        }
        if firstError.None? {
          firstError := e;
        }
      }
      assert specialtyIds[..|specialtyIds|] == specialtyIds;
      o := if firstError.Some? then Fail(firstError.value) else Pass;
    }

    /** `getDoctorsBySpecialty`: exactly the linked users whose role is Doctor, each once, with their names. */
    function GetDoctorsBySpecialty(specialtyId: int): (r: seq<DoctorSummary>)
      requires Valid()
      reads this, users
      ensures forall x :: x in r <==>
                (x.doctorId, specialtyId) in links && x.doctorId in users.rows
                && users.rows[x.doctorId].role == DoctorRole && x.doctorName == users.rows[x.doctorId].name
      ensures Distinct(r)
    {
      DoctorsOfDistinct(links, users.rows, specialtyId);
      DoctorsOf(links, users.rows, specialtyId)
    }
  }
}
