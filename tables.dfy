/**
 * An SQL table whose key is an `INTEGER PRIMARY KEY AUTOINCREMENT` column is a
 * map from keys to rows together with the next key to hand out. A query
 * without `ORDER BY` reads the rows in key order.
 */
module Tables {
  import opened Sequences

  /** Every key was handed out earlier: it lies in [1, nextId). */
  ghost predicate KeysWithin<R>(rows: map<int, R>, nextId: int) {
    forall k :: k in rows ==> 1 <= k < nextId
  }

  /** The keys of `rows` in [1, bound), in ascending order. */
  function KeysBelow<R>(rows: map<int, R>, bound: int): (ks: seq<int>)
    ensures forall k :: k in ks <==> k in rows && 1 <= k < bound
    ensures forall i, j :: 0 <= i < j < |ks| ==> ks[i] < ks[j]
    decreases bound
  {
    if bound <= 1 then []
    else
      var prefix := KeysBelow(rows, bound - 1);
      assert forall i :: 0 <= i < |prefix| ==> prefix[i] < bound - 1 by {
        forall i | 0 <= i < |prefix| ensures prefix[i] < bound - 1 {
          assert prefix[i] in prefix;
        }
      }
      prefix + (if bound - 1 in rows then [bound - 1] else [])
  }

  /** A full table scan: the rows with keys in [1, bound), in key order. */
  function Scan<R>(rows: map<int, R>, bound: int): (s: seq<R>)
    ensures |s| == |KeysBelow(rows, bound)|
    ensures forall i :: 0 <= i < |s| ==> s[i] == rows[KeysBelow(rows, bound)[i]]
  {
    var ks := KeysBelow(rows, bound);
    seq(|ks|, i requires 0 <= i < |ks| => rows[ks[i]])
  }

  /** Every row is stored under the key that `id` reads from it. */
  ghost predicate KeyedBy<R>(rows: map<int, R>, id: R -> int) {
    forall k :: k in rows ==> id(rows[k]) == k
  }

  /**
   * A scan of a table whose keys are all below its counter and whose rows
   * carry their own key reads exactly the stored rows.
   */
  lemma ScanContents<R>(rows: map<int, R>, nextId: int, id: R -> int)
    requires KeysWithin(rows, nextId) && KeyedBy(rows, id)
    ensures forall x :: x in Scan(rows, nextId) <==> id(x) in rows && rows[id(x)] == x
  {
    var s, ks := Scan(rows, nextId), KeysBelow(rows, nextId);
    forall x | x in s ensures id(x) in rows && rows[id(x)] == x {
      var i :| 0 <= i < |s| && s[i] == x;
      assert ks[i] in ks;
    }
    forall x | id(x) in rows && rows[id(x)] == x ensures x in s {
      var i :| 0 <= i < |ks| && ks[i] == id(x);
      assert s[i] == x;
    }
  }

  /** In a scan of such a table the rows come in ascending key order. */
  lemma ScanAscending<R>(rows: map<int, R>, nextId: int, id: R -> int)
    requires KeyedBy(rows, id)
    ensures Ascending(Scan(rows, nextId), id)
  {
    var s, ks := Scan(rows, nextId), KeysBelow(rows, nextId);
    forall i, j | 0 <= i < j < |s| ensures id(s[i]) < id(s[j]) {
      assert ks[i] in ks && ks[j] in ks;
    }
  }
}
