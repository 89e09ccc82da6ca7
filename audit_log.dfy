/**
 * The audit trail (src/app/audit-log/audit-log.repository.ts, with
 * `AuditLogService.log` folded in): an append-only `audit_log` table read back
 * newest first.
 */
module AuditLog {
  import opened Common
  import opened Sequences
  import Tables

  /** What a caller hands to `logAction`. */
  datatype AuditLogInput = AuditLogInput(userId: int, action: string, details: Option<string>)

  /** A row of `audit_log`; `timestamp` is the value the store assigned on insert. */
  datatype AuditEntry = AuditEntry(id: int, userId: int, action: string, details: Option<string>, timestamp: int)

  /** The row the INSERT stores: absent or empty details become NULL. */
  function NewEntry(id: int, input: AuditLogInput, timestamp: int): AuditEntry {
    AuditEntry(id, input.userId, input.action, OrNull(input.details), timestamp)
  }

  /** `ORDER BY timestamp DESC`: `a` may precede `b`. */
  predicate NewerOrSame(a: AuditEntry, b: AuditEntry) {
    a.timestamp >= b.timestamp
  }

  lemma NewerOrSameOrders()
    ensures TotalPreorder(NewerOrSame)
  {
  }

  /**
   * The state of the table: rows keyed by id, none stamped later than `clock`,
   * the latest reading of the store's clock.
   */
  ghost predicate WellFormed(rows: map<int, AuditEntry>, nextId: int, clock: int) {
    && 1 <= nextId
    && Tables.KeysWithin(rows, nextId)
    && forall k :: k in rows ==> rows[k].id == k && rows[k].timestamp <= clock && rows[k].details != Some("")
  }

  function EntryId(e: AuditEntry): int { e.id }

  /** Every row, newest first: `SELECT ... FROM audit_log ORDER BY timestamp DESC`. */
  function Logs(rows: map<int, AuditEntry>, nextId: int, clock: int): (r: seq<AuditEntry>)
    requires WellFormed(rows, nextId, clock)
    ensures forall e :: e in r <==> e.id in rows && rows[e.id] == e
    ensures Distinct(r)
    ensures SortedBy(r, NewerOrSame)
  {
    NewerOrSameOrders();
    var all := Tables.Scan(rows, nextId);
    Tables.ScanContents(rows, nextId, EntryId);
    Tables.ScanAscending(rows, nextId, EntryId);
    AscendingDistinct(all, EntryId);
    var r := Sort(all, NewerOrSame);
    DistinctPermutation(all, r);
    assert forall e :: e in r <==> e in multiset(all);
    r
  }

  /**
   * The table after one `logAction` at time `now` (`CURRENT_TIMESTAMP`, in
   * whole seconds, so two inserts in the same second share a stamp), as
   * (rows, nextId, clock): a store error leaves it as it was; otherwise the
   * entry is appended under the next id, stamped `now`, the id advances and
   * the clock reads `now`.
   */
  function LogStep(rows: map<int, AuditEntry>, nextId: int, clock: int, input: AuditLogInput, now: int, storeError: Option<string>)
    : (after: (map<int, AuditEntry>, int, int))
    requires clock <= now
  {
    if storeError.Some? then (rows, nextId, clock)
    else (rows[nextId := NewEntry(nextId, input, now)], nextId + 1, now)
  }

  /**
   * A step keeps the table well formed, and a step that writes adds exactly
   * one entry, which carries the caller's user, action and details, sits
   * under a key no row had, and leaves every earlier row as it was.
   */
  lemma LogStepAppends(rows: map<int, AuditEntry>, nextId: int, clock: int, input: AuditLogInput, now: int, storeError: Option<string>)
    requires WellFormed(rows, nextId, clock)
    requires clock <= now
    ensures var (rows', nextId', clock') := LogStep(rows, nextId, clock, input, now, storeError);
            && WellFormed(rows', nextId', clock')
            && (storeError.None? ==>
                  && nextId !in rows && rows'.Keys == rows.Keys + {nextId}
                  && rows'[nextId].userId == input.userId && rows'[nextId].action == input.action
                  && rows'[nextId].details == OrNull(input.details)
                  && rows'[nextId].timestamp == now
                  && forall k :: k in rows ==> rows'[k] == rows[k])
            && (storeError.Some? ==> rows' == rows)
  {
  }

  /**
   * After an append at time `now`, `getLogs` lists the new entry, and no
   * entry it lists is newer: the head carries the stamp `now`. Whether the
   * new entry itself is the head is left open, because an entry written
   * earlier in the same second ties with it.
   */
  lemma {:induction false} NewestFirst(rows: map<int, AuditEntry>, nextId: int, clock: int, input: AuditLogInput, now: int)
    requires WellFormed(rows, nextId, clock)
    requires clock <= now
    ensures WellFormed(rows[nextId := NewEntry(nextId, input, now)], nextId + 1, now)
    ensures NewEntry(nextId, input, now) in Logs(rows[nextId := NewEntry(nextId, input, now)], nextId + 1, now)
    ensures Logs(rows[nextId := NewEntry(nextId, input, now)], nextId + 1, now)[0].timestamp == now
  {
    var e := NewEntry(nextId, input, now);
    var rows' := rows[nextId := e];
    assert rows'[nextId] == e;
    var r := Logs(rows', nextId + 1, now);
    assert e in r;
    var i :| 0 <= i < |r| && r[i] == e;
    assert r[0] in r;
  }

  /**
   * When the append falls in a later second than every stored entry, the new
   * entry is the head of `getLogs`.
   */
  lemma {:induction false} NewestFirstWhenLater(rows: map<int, AuditEntry>, nextId: int, clock: int, input: AuditLogInput, now: int)
    requires WellFormed(rows, nextId, clock)
    requires clock < now
    ensures WellFormed(rows[nextId := NewEntry(nextId, input, now)], nextId + 1, now)
    ensures Logs(rows[nextId := NewEntry(nextId, input, now)], nextId + 1, now)[0] == NewEntry(nextId, input, now)
  {
    NewestFirst(rows, nextId, clock, input, now);
    var e := NewEntry(nextId, input, now);
    var r := Logs(rows[nextId := e], nextId + 1, now);
    assert r[0] in r;
  }

  class AuditLogRepository {
    var rows: map<int, AuditEntry>
    var nextId: int
    /** The store's clock as of the latest insert, in seconds. */
    var clock: int

    ghost predicate Valid()
      reads this
    {
      WellFormed(rows, nextId, clock)
    }

    constructor ()
      ensures Valid() && rows == map[] && nextId == 1
    {
      rows := map[];
      nextId := 1;
      clock := 0;
    }

    /**
     * `logAction` at time `now` (the clock never runs backwards): appends
     * exactly one row and touches no other. The insert
     * fails only when the store reports an error (`storeError`), and then
     * nothing is written and the error is thrown to the caller.
     */
    method LogAction(input: AuditLogInput, now: int, storeError: Option<string>) returns (o: Outcome)
      requires Valid()
      requires clock <= now
      modifies this
      ensures Valid()
      ensures o == (if storeError.Some? then Fail(storeError.value) else Pass)
      ensures (rows, nextId, clock) == LogStep(old(rows), old(nextId), old(clock), input, now, storeError)
    {
      if storeError.Some? {
        return Fail(storeError.value);
      }
      rows := rows[nextId := NewEntry(nextId, input, now)];
      nextId := nextId + 1;
      clock := now;
      o := Pass;
    }

    /** `getLogs`: every row exactly once, newest first. */
    function GetLogs(): (r: seq<AuditEntry>)
      requires Valid()
      reads this
      ensures forall e :: e in r <==> e.id in rows && rows[e.id] == e
      ensures Distinct(r)
      ensures SortedBy(r, NewerOrSame)
    {
      Logs(rows, nextId, clock)
    }
  }
}
