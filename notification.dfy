/**
 * Notifications (src/app/notification/notification.service.ts): one row per
 * recipient and message in the `notifications` table, read back per recipient.
 */
module Notifications {
  import opened Common
  import opened Sequences
  import Tables

  /** What a caller hands to `createNotification`; `read` and `createdAt` are ignored by the INSERT. */
  datatype NotificationInput = NotificationInput(recipientId: int, message: string, read: Option<bool>, createdAt: Option<int>)

  /** A row of `notifications`; `read` defaults to false and `createdAt` is stamped by the store. */
  datatype Notification = Notification(id: int, recipientId: int, message: string, read: bool, createdAt: int)

  /** The row the INSERT stores: the caller's recipient and message, unread, stamped by the store. */
  function NewNotification(id: int, n: NotificationInput, createdAt: int): Notification {
    Notification(id, n.recipientId, n.message, false, createdAt)
  }

  ghost predicate WellFormed(rows: map<int, Notification>, nextId: int) {
    && 1 <= nextId
    && Tables.KeysWithin(rows, nextId)
    && forall k :: k in rows ==> rows[k].id == k
  }

  function NotificationId(n: Notification): int { n.id }

  /** `SELECT * FROM notifications WHERE recipientId = ?`, in insertion order. */
  function ForRecipient(rows: map<int, Notification>, nextId: int, userId: int): (r: seq<Notification>)
    requires WellFormed(rows, nextId)
    ensures forall n :: n in r <==> n.id in rows && rows[n.id] == n && n.recipientId == userId
    ensures Ascending(r, NotificationId)
  {
    var all := Tables.Scan(rows, nextId);
    Tables.ScanContents(rows, nextId, NotificationId);
    Tables.ScanAscending(rows, nextId, NotificationId);
    FilterAscending(all, (n: Notification) => n.recipientId == userId, NotificationId);
    Filter(all, (n: Notification) => n.recipientId == userId)
  }

  /** A notification created for `u` is listed for `u` and for no other user. */
  lemma DeliveredOnlyToRecipient(rows: map<int, Notification>, nextId: int, now: int, n: NotificationInput, other: int)
    requires WellFormed(rows, nextId)
    requires other != n.recipientId
    ensures WellFormed(rows[nextId := NewNotification(nextId, n, now)], nextId + 1)
    ensures NewNotification(nextId, n, now) in ForRecipient(rows[nextId := NewNotification(nextId, n, now)], nextId + 1, n.recipientId)
    ensures NewNotification(nextId, n, now) !in ForRecipient(rows[nextId := NewNotification(nextId, n, now)], nextId + 1, other)
    ensures forall m :: m in ForRecipient(rows[nextId := NewNotification(nextId, n, now)], nextId + 1, other)
                    <==> m in ForRecipient(rows, nextId, other)
  {
  }

  class NotificationService {
    var rows: map<int, Notification>
    var nextId: int
    /** The store's clock as of the latest insert, in seconds: the `createdAt` default. */
    var clock: int

    ghost predicate Valid()
      reads this
    {
      WellFormed(rows, nextId)
    }

    constructor ()
      ensures Valid() && rows == map[] && nextId == 1
    {
      rows := map[];
      nextId := 1;
      clock := 0;
    }

    /**
     * `createNotification` at time `now` (the model assumes the clock never
     * runs backwards): one new unread row stamped `now` under a fresh id,
     * which it returns.
     */
    method CreateNotification(n: NotificationInput, now: int) returns (id: int)
      requires Valid()
      requires clock <= now
      modifies this
      ensures Valid()
      ensures id == old(nextId) && id !in old(rows)
      ensures rows == old(rows)[id := Notification(id, n.recipientId, n.message, false, now)]
      ensures nextId == old(nextId) + 1 && clock == now
    {
      id := nextId;
      rows := rows[id := NewNotification(id, n, now)];
      nextId := nextId + 1;
      clock := now;
    }

    /** `getNotificationsByUserId`: exactly the rows addressed to `userId` (none if there are none). */
    function GetNotificationsByUserId(userId: int): (r: seq<Notification>)
      requires Valid()
      reads this
      ensures forall m :: m in r <==> m.id in rows && rows[m.id] == m && m.recipientId == userId
      ensures Ascending(r, NotificationId)
    {
      ForRecipient(rows, nextId, userId)
    }
  }
}
