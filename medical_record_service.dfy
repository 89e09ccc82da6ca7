/**
 * Access to medical records (src/app/medical-record/medical-record.service.ts):
 * reads are filtered by who asks; creation and update go straight to the store.
 */
module MedicalRecordAccess {
  import opened Common
  import opened MedicalRecords

  const UnauthorizedAccess := "Forbidden: Unauthorized access to this record"

  /**
   * The rule applied after the lookup: nothing found gives null; a Patient
   * asking for another patient's record gets the error; anyone else gets the
   * record as found.
   */
  function Disclose(found: Option<MedicalRecord>, userId: int, userRole: string): (r: Result<Option<MedicalRecord>>)
    ensures found.None? ==> r == Ok(None)
    ensures found.Some? ==>
              (r == Err(UnauthorizedAccess) <==> userRole == PatientRole && found.value.patientId != userId)
    ensures r.Ok? && r.value.Some? ==> r.value == found
  {
    if found.None? then Ok(None)
    else if userRole == PatientRole && found.value.patientId != userId then Err(UnauthorizedAccess)
    else Ok(found)
  }

  /** A Patient receives a record only when they are its patient. */
  lemma PatientSeesOnlyOwnRecords(found: Option<MedicalRecord>, userId: int)
    ensures Disclose(found, userId, PatientRole).Ok? && Disclose(found, userId, PatientRole).value.Some?
            ==> Disclose(found, userId, PatientRole).value.value.patientId == userId
  {
  }

  /** Whoever is not a Patient — a Doctor, an Admin — receives any record there is, whatever their id. */
  lemma OtherRolesSeeEveryRecord(found: Option<MedicalRecord>, userId: int, userRole: string)
    requires userRole != PatientRole
    ensures Disclose(found, userId, userRole) == Ok(found)
  {
  }

  class MedicalRecordService {
    const repo: MedicalRecordRepository

    constructor (repo: MedicalRecordRepository)
      ensures this.repo == repo
    {
      this.repo := repo;
    }

    /** `createMedicalRecord`: forwards to the store. */
    method CreateMedicalRecord(input: RecordInput) returns (id: int)
      requires repo.Valid()
      modifies repo
      ensures repo.Valid()
      ensures id == old(repo.nextId) && id !in old(repo.records)
      ensures repo.records == old(repo.records)[id := NewRecord(id, input)] && repo.nextId == old(repo.nextId) + 1
      ensures repo.testResults == old(repo.testResults) + Tagged(id, input.testResults.GetOr([]))
      ensures repo.GetMedicalRecordById(id) == Some(View(NewRecord(id, input), input.testResults.GetOr([])))
    {
      id := repo.CreateMedicalRecord(input);
    }

    /** `updateMedicalRecord`: forwards to the store without checking that the record exists. */
    method UpdateMedicalRecord(recordId: int, patch: RecordPatch) returns (o: Outcome)
      requires repo.Valid()
      modifies repo
      ensures repo.Valid()
      ensures repo.nextId == old(repo.nextId)
      ensures recordId !in old(repo.records) ==>
                repo.records == old(repo.records) && repo.testResults == old(repo.testResults)
                && o == (if patch.testResults.Some? && patch.testResults.value != [] then Fail(ForeignKeyFailed) else Pass)
      ensures recordId in old(repo.records) ==>
                && o == Pass
                && repo.records == old(repo.records)[recordId := Patched(old(repo.records)[recordId], patch)]
                && repo.testResults == ChildrenAfterUpdate(old(repo.testResults), recordId, patch.testResults)
    {
      o := repo.UpdateMedicalRecord(recordId, patch);
    }

    /**
     * `getMedicalRecordById(recordId, userId, userRole)`: null for a missing
     * record, the ownership error for a Patient who is not the record's
     * patient, and the stored record otherwise.
     */
    function GetMedicalRecordById(recordId: int, userId: int, userRole: string): (r: Result<Option<MedicalRecord>>)
      requires repo.Valid()
      reads repo
      ensures recordId !in repo.records ==> r == Ok(None)
      ensures recordId in repo.records ==>
                && (r == Err(UnauthorizedAccess) <==> userRole == PatientRole && repo.records[recordId].patientId != userId)
                && (r.Ok? ==> r == Ok(Some(View(repo.records[recordId], ResultsOf(repo.testResults, recordId)))))
    {
      Disclose(repo.GetMedicalRecordById(recordId), userId, userRole)
    }
  }
}
