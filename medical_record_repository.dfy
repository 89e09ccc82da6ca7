/**
 * The medical-record store (src/app/medical-record/medical-record.repository.ts):
 * a parent table `medical_records` and a child table `record_test_results`
 * whose `recordId` is a foreign key into the parent. The list columns
 * (prescriptions, ongoing treatments) are JSON text in the table; encoding
 * and decoding give back the same list, so the model stores the list.
 */
module MedicalRecords {
  import opened Common
  import Tables

  /** One test result as the caller gives it and as a read returns it. */
  datatype TestResult = TestResult(testType: string, result: string)

  /** A row of `record_test_results`. */
  datatype TestResultRow = TestResultRow(recordId: int, testType: string, result: string)

  /** What a caller hands to `createMedicalRecord`; absent optional fields are None. */
  datatype RecordInput = RecordInput(
    patientId: int, doctorId: int, diagnosis: Option<string>,
    prescriptions: Option<seq<string>>, notes: Option<string>,
    ongoingTreatments: Option<seq<string>>, testResults: Option<seq<TestResult>>)

  /** What a caller hands to `updateMedicalRecord`: a `Partial<MedicalRecord>`, of which only these fields are read. */
  datatype RecordPatch = RecordPatch(
    diagnosis: Option<string>, prescriptions: Option<seq<string>>, notes: Option<string>,
    ongoingTreatments: Option<seq<string>>, testResults: Option<seq<TestResult>>)

  /** A row of `medical_records`. */
  datatype RecordRow = RecordRow(
    id: int, patientId: int, doctorId: int, diagnosis: Option<string>,
    prescriptions: seq<string>, notes: Option<string>, ongoingTreatments: seq<string>)

  /** What `getMedicalRecordById` returns: the row with its test results attached. */
  datatype MedicalRecord = MedicalRecord(
    id: int, patientId: int, doctorId: int, diagnosis: Option<string>,
    prescriptions: seq<string>, notes: Option<string>, ongoingTreatments: seq<string>,
    testResults: seq<TestResult>)

  const ForeignKeyFailed := "SQLITE_CONSTRAINT: FOREIGN KEY constraint failed"

  /** The parent row the INSERT stores: absent lists become [], absent or empty notes NULL, the diagnosis as given. */
  function NewRecord(id: int, input: RecordInput): (row: RecordRow)
    ensures row.prescriptions == (if input.prescriptions.Some? then input.prescriptions.value else [])
    ensures row.ongoingTreatments == (if input.ongoingTreatments.Some? then input.ongoingTreatments.value else [])
    ensures row.id == id && row.patientId == input.patientId && row.doctorId == input.doctorId
    ensures row.notes.None? <==> input.notes.None? || input.notes.value == ""
    ensures row.notes.Some? ==> row.notes == input.notes
    ensures row.diagnosis == input.diagnosis
  {
    RecordRow(id, input.patientId, input.doctorId, input.diagnosis,
              input.prescriptions.GetOr([]), OrNull(input.notes), input.ongoingTreatments.GetOr([]))
  }

  /** The UPDATE's SET clause: every one of the four columns is overwritten, an omitted one with []/NULL. */
  function Patched(row: RecordRow, patch: RecordPatch): (r: RecordRow)
    ensures r.id == row.id && r.patientId == row.patientId && r.doctorId == row.doctorId
    ensures r.diagnosis == patch.diagnosis
    ensures r.prescriptions == (if patch.prescriptions.Some? then patch.prescriptions.value else [])
    ensures r.ongoingTreatments == (if patch.ongoingTreatments.Some? then patch.ongoingTreatments.value else [])
    ensures r.notes.None? <==> patch.notes.None? || patch.notes.value == ""
    ensures r.notes.Some? ==> r.notes == patch.notes
  {
    row.(diagnosis := patch.diagnosis, prescriptions := patch.prescriptions.GetOr([]),
         notes := OrNull(patch.notes), ongoingTreatments := patch.ongoingTreatments.GetOr([]))
  }

  /** An update that names no field clears the four columns rather than keeping them. */
  lemma EmptyPatchClears(row: RecordRow)
    ensures Patched(row, RecordPatch(None, None, None, None, None))
            == RecordRow(row.id, row.patientId, row.doctorId, None, [], None, [])
  {
  }

  /** The child rows inserted for `tests`, in order, each tagged with `recordId`. */
  function Tagged(recordId: int, tests: seq<TestResult>): (rows: seq<TestResultRow>)
    ensures |rows| == |tests|
    ensures forall i :: 0 <= i < |tests| ==> rows[i] == TestResultRow(recordId, tests[i].testType, tests[i].result)
  {
    seq(|tests|, i requires 0 <= i < |tests| => TestResultRow(recordId, tests[i].testType, tests[i].result))
  }

  /** `SELECT type, result FROM record_test_results WHERE recordId = ?`, in insertion order. */
  function ResultsOf(children: seq<TestResultRow>, recordId: int): seq<TestResult>
  {
    if children == [] then []
    else
      var rest := ResultsOf(children[1..], recordId);
      if children[0].recordId == recordId
      then [TestResult(children[0].testType, children[0].result)] + rest
      else rest
  }

  /** `DELETE FROM record_test_results WHERE recordId = ?`. */
  function Without(children: seq<TestResultRow>, recordId: int): (r: seq<TestResultRow>)
    ensures forall c :: c in r <==> c in children && c.recordId != recordId
  {
    if children == [] then []
    else
      var rest := Without(children[1..], recordId);
      if children[0].recordId == recordId then rest else [children[0]] + rest
  }

  lemma {:induction false} ResultsOfConcat(a: seq<TestResultRow>, b: seq<TestResultRow>, recordId: int)
    ensures ResultsOf(a + b, recordId) == ResultsOf(a, recordId) + ResultsOf(b, recordId)
    decreases |a|
  {
    if a == [] {
      assert a + b == b;
    } else {
      assert (a + b)[1..] == a[1..] + b;
      ResultsOfConcat(a[1..], b, recordId);
    }
  }

  /** Reading back the rows inserted for `tests` gives `tests` for that record and nothing for any other. */
  lemma {:induction false} ResultsOfTagged(recordId: int, tests: seq<TestResult>, other: int)
    ensures ResultsOf(Tagged(recordId, tests), recordId) == tests
    ensures other != recordId ==> ResultsOf(Tagged(recordId, tests), other) == []
    decreases |tests|
  {
    if tests != [] {
      var t := Tagged(recordId, tests);
      assert t[1..] == Tagged(recordId, tests[1..]);
      ResultsOfTagged(recordId, tests[1..], other);
      assert tests == [tests[0]] + tests[1..];
    }
  }

  /** A record with no child rows reads back no test results. */
  lemma {:induction false} ResultsOfAbsent(children: seq<TestResultRow>, recordId: int)
    requires forall c :: c in children ==> c.recordId != recordId
    ensures ResultsOf(children, recordId) == []
    decreases |children|
  {
    if children != [] {
      assert children[0] in children;
      assert forall c :: c in children[1..] ==> c in children;
      ResultsOfAbsent(children[1..], recordId);
    }
  }

  /** Deleting one record's child rows leaves every other record's results as they were. */
  lemma {:induction false} ResultsOfWithout(children: seq<TestResultRow>, recordId: int, other: int)
    requires other != recordId
    ensures ResultsOf(Without(children, recordId), other) == ResultsOf(children, other)
    decreases |children|
  {
    if children != [] {
      ResultsOfWithout(children[1..], recordId, other);
      if children[0].recordId != recordId {
        assert ([children[0]] + Without(children[1..], recordId))[1..] == Without(children[1..], recordId);
      }
    }
  }

  /** The record as a read returns it. */
  function View(row: RecordRow, tests: seq<TestResult>): MedicalRecord {
    MedicalRecord(row.id, row.patientId, row.doctorId, row.diagnosis, row.prescriptions,
                  row.notes, row.ongoingTreatments, tests)
  }

  /** The child rows after `updateMedicalRecord(recordId, patch)`: replaced wholesale when the patch carries test results. */
  function ChildrenAfterUpdate(children: seq<TestResultRow>, recordId: int, tests: Option<seq<TestResult>>): seq<TestResultRow>
  {
    if tests.Some? then Without(children, recordId) + Tagged(recordId, tests.value) else children
  }

  /**
   * The test results a read returns after an update: exactly the new list
   * for the updated record when the patch carries one (an empty list clears
   * them), the old ones otherwise, and every other record's unchanged.
   */
  lemma UpdateReplacesResults(children: seq<TestResultRow>, recordId: int, tests: Option<seq<TestResult>>, other: int)
    requires other != recordId
    ensures ResultsOf(ChildrenAfterUpdate(children, recordId, tests), recordId)
            == (if tests.Some? then tests.value else ResultsOf(children, recordId))
    ensures ResultsOf(ChildrenAfterUpdate(children, recordId, tests), other) == ResultsOf(children, other)
  {
    if tests.Some? {
      var w := Without(children, recordId);
      ResultsOfConcat(w, Tagged(recordId, tests.value), recordId);
      ResultsOfConcat(w, Tagged(recordId, tests.value), other);
      ResultsOfTagged(recordId, tests.value, other);
      ResultsOfAbsent(w, recordId);
      ResultsOfWithout(children, recordId, other);
    }
  }

  ghost predicate WellFormed(records: map<int, RecordRow>, nextId: int, children: seq<TestResultRow>) {
    && 1 <= nextId
    && Tables.KeysWithin(records, nextId)
    && (forall k :: k in records ==> records[k].id == k && records[k].notes != Some(""))
    && forall c :: c in children ==> c.recordId in records
  }

  class MedicalRecordRepository {
    var records: map<int, RecordRow>
    var nextId: int
    /** The rows of `record_test_results` in insertion (rowid) order. */
    var testResults: seq<TestResultRow>

    ghost predicate Valid()
      reads this
    {
      WellFormed(records, nextId, testResults)
    }

    constructor ()
      ensures Valid() && records == map[] && nextId == 1 && testResults == []
    {
      records := map[];
      nextId := 1;
      testResults := [];
    }

    /**
     * `createMedicalRecord`: stores one parent row under a fresh id, then one
     * child row per given test result, in order, tagged with that id (none
     * when the list is absent or empty), and returns the id.
     */
    method CreateMedicalRecord(input: RecordInput) returns (id: int)
      requires Valid()
      modifies this
      ensures Valid()
      ensures id == old(nextId) && id !in old(records)
      ensures records == old(records)[id := NewRecord(id, input)] && nextId == old(nextId) + 1
      ensures testResults == old(testResults) + Tagged(id, input.testResults.GetOr([]))
      ensures GetMedicalRecordById(id) == Some(View(NewRecord(id, input), input.testResults.GetOr([])))
    {
      id := nextId;
      records := records[id := NewRecord(id, input)];
      nextId := nextId + 1;
      if input.testResults.Some? {
        var tests := input.testResults.value;
        for i := 0 to |tests|
          invariant testResults == old(testResults) + Tagged(id, tests[..i])
          invariant Valid() && records == old(records)[id := NewRecord(id, input)] && nextId == id + 1
        {
          assert Tagged(id, tests[..i + 1]) == Tagged(id, tests[..i]) + [TestResultRow(id, tests[i].testType, tests[i].result)];
          testResults := testResults + [TestResultRow(id, tests[i].testType, tests[i].result)];
        }
        assert tests[..|tests|] == tests;
      } else {
        assert old(testResults) + Tagged(id, []) == old(testResults);
      }
      var tests := input.testResults.GetOr([]);
      assert testResults == old(testResults) + Tagged(id, tests);
      ResultsOfAbsent(old(testResults), id);
      ResultsOfConcat(old(testResults), Tagged(id, tests), id);
      ResultsOfTagged(id, tests, id);
      assert ResultsOf(testResults, id) == tests;
    }

    /**
     * `updateMedicalRecord`: overwrites the four columns of row `recordId`
     * (a no-op when there is none) and, when the patch carries test results,
     * deletes that record's child rows and inserts the given ones. With no
     * such row, inserting a child fails the foreign key: the error is thrown
     * and, since the first insert is the one that fails, nothing has changed.
     */
    method UpdateMedicalRecord(recordId: int, patch: RecordPatch) returns (o: Outcome)
      requires Valid()
      modifies this
      ensures Valid()
      ensures records.Keys == old(records).Keys && nextId == old(nextId)
      ensures recordId !in old(records) ==>
                records == old(records) && testResults == old(testResults)
                && o == (if patch.testResults.Some? && patch.testResults.value != [] then Fail(ForeignKeyFailed) else Pass)
      ensures recordId in old(records) ==>
                && o == Pass
                && records == old(records)[recordId := Patched(old(records)[recordId], patch)]
                && testResults == ChildrenAfterUpdate(old(testResults), recordId, patch.testResults)
    {
      if recordId in records {
        records := records[recordId := Patched(records[recordId], patch)];
      }
      if patch.testResults.Some? {
        var tests := patch.testResults.value;
        var kept := Without(testResults, recordId);
        if recordId !in records {
          // No child row refers to a missing record, so the DELETE removes nothing.
          assert kept == testResults by {
            WithoutAbsent(testResults, recordId);
          }
        }
        testResults := kept;
        ghost var patched := records;
        for i := 0 to |tests|
          invariant testResults == kept + Tagged(recordId, tests[..i])
          invariant Valid() && records == patched && nextId == old(nextId)
          invariant recordId !in records ==> i == 0 && kept == old(testResults)
        {
          if recordId !in records {
            return Fail(ForeignKeyFailed);
          }
          assert Tagged(recordId, tests[..i + 1]) == Tagged(recordId, tests[..i]) + [TestResultRow(recordId, tests[i].testType, tests[i].result)];
          testResults := testResults + [TestResultRow(recordId, tests[i].testType, tests[i].result)];
        }
        assert tests[..|tests|] == tests;
      }
      o := Pass;
    }

    /**
     * `getMedicalRecordById`: null when no row has that id; otherwise the row
     * with exactly the test results stored for it, in insertion order.
     */
    function GetMedicalRecordById(recordId: int): (r: Option<MedicalRecord>)
      requires Valid()
      reads this
      ensures r.None? <==> recordId !in records
      ensures r.Some? ==> r.value == View(records[recordId], ResultsOf(testResults, recordId))
                          && r.value.id == recordId
    {
      if recordId !in records then None
      else Some(View(records[recordId], ResultsOf(testResults, recordId)))
    }
  }

  /** A delete that matches no row changes nothing. */
  lemma {:induction false} WithoutAbsent(children: seq<TestResultRow>, recordId: int)
    requires forall c :: c in children ==> c.recordId != recordId
    ensures Without(children, recordId) == children
    decreases |children|
  {
    if children != [] {
      assert children[0] in children;
      assert forall c :: c in children[1..] ==> c in children;
      WithoutAbsent(children[1..], recordId);
      assert children == [children[0]] + children[1..];
    }
  }
}
