/** Rows, keys, and what SQLite's INSERT OR REPLACE does to a table's contents. */
module Tables {
  import opened Wrappers

  /** The identity the journal records: a table (by manifest position) and a stable key in it. */
  datatype Key = Key(table: nat, id: int)

  /** The columns of a row. `inline` holds the UNIQUE columns declared in CREATE TABLE,
      `indexed` those made unique by a later CREATE UNIQUE INDEX; None is NULL, which never collides. */
  datatype Content = Content(payload: string, inline: seq<Option<int>>, indexed: seq<Option<int>>)

  /** `pos` is the scan position: the rowid, or the primary-key rank in a WITHOUT ROWID table. */
  datatype Row = Row(pos: int, content: Content)

  /** One replayed write: INSERT OR REPLACE of a value, or DELETE. */
  datatype Write<+V> = Write(key: Key, value: Option<V>)

  predicate Collide(a: seq<Option<int>>, b: seq<Option<int>>) {
    exists i | 0 <= i < |a| && i < |b| :: a[i].Some? && a[i] == b[i]
  }

  /** Rows that cannot coexist while the partial replica is scanned: unique indexes do not exist yet. */
  predicate ScanClash(k1: Key, r1: Row, k2: Key, r2: Row) {
    && k1 != k2 && k1.table == k2.table
    && (r1.pos == r2.pos || Collide(r1.content.inline, r2.content.inline))
  }

  /** Rows that cannot coexist in a finished replica. A delta either names the rowid as the key or
      lets SQLite pick an unused one, so positions no longer matter. */
  predicate ReplicaClash(k1: Key, c1: Content, k2: Key, c2: Content) {
    && k1 != k2 && k1.table == k2.table
    && (Collide(c1.inline, c2.inline) || Collide(c1.indexed, c2.indexed))
  }

  /** Equal values in some UNIQUE column; NULL equals nothing. */
  predicate SharesValue(a: seq<Option<int>>, b: seq<Option<int>>) {
    exists i | 0 <= i < |a| && i < |b| :: a[i].Some? && b[i].Some? && a[i].value == b[i].value
  }

  lemma CollideIffShares(a: seq<Option<int>>, b: seq<Option<int>>)
    ensures Collide(a, b) <==> SharesValue(a, b)
  {
    if i :| 0 <= i < |a| && i < |b| && a[i].Some? && b[i].Some? && a[i].value == b[i].value {
      assert a[i] == b[i];
    }
  }

  function Contents(rows: map<Key, Row>): (m: map<Key, Content>)
    ensures m.Keys == rows.Keys
  {
    map k | k in rows :: rows[k].content
  }

  predicate ClashFree<V>(clash: (Key, V, Key, V) -> bool, m: map<Key, V>) {
    forall k1, k2 | k1 in m && k2 in m :: !clash(k1, m[k1], k2, m[k2])
  }

  /** Every UNIQUE constraint, and the uniqueness of scan positions, holds. */
  predicate Unique(rows: map<Key, Row>) {
    ClashFree(ScanClash, rows) && ClashFree(ReplicaClash, Contents(rows))
  }

  /** INSERT OR REPLACE: rows that conflict with the new one are deleted. */
  function Put<V>(clash: (Key, V, Key, V) -> bool, m: map<Key, V>, k: Key, v: V): map<Key, V> {
    (map k2 | k2 in m && !clash(k2, m[k2], k, v) :: m[k2])[k := v]
  }

  /** In the partial replica a written row displaces those at its position or equal in a UNIQUE column
      declared with the table. */
  lemma ScanWriteDisplaces(m: map<Key, Row>, k: Key, row: Row, x: Key)
    requires x in m && x != k
    ensures x !in Put(ScanClash, m, k, row) <==>
      x.table == k.table && (m[x].pos == row.pos || SharesValue(m[x].content.inline, row.content.inline))
    ensures x in Put(ScanClash, m, k, row) ==> Put(ScanClash, m, k, row)[x] == m[x]
    ensures k in Put(ScanClash, m, k, row) && Put(ScanClash, m, k, row)[k] == row
  {
    CollideIffShares(m[x].content.inline, row.content.inline);
  }

  /** In the finished replica it displaces those equal in any UNIQUE column. */
  lemma ReplicaWriteDisplaces(m: map<Key, Content>, k: Key, content: Content, x: Key)
    requires x in m && x != k
    ensures x !in Put(ReplicaClash, m, k, content) <==>
      x.table == k.table && (SharesValue(m[x].inline, content.inline) || SharesValue(m[x].indexed, content.indexed))
    ensures x in Put(ReplicaClash, m, k, content) ==> Put(ReplicaClash, m, k, content)[x] == m[x]
    ensures k in Put(ReplicaClash, m, k, content) && Put(ReplicaClash, m, k, content)[k] == content
  {
    CollideIffShares(m[x].inline, content.inline);
    CollideIffShares(m[x].indexed, content.indexed);
  }

  function Perform<V>(clash: (Key, V, Key, V) -> bool, m: map<Key, V>, w: Write<V>): map<Key, V> {
    match w.value
    case None => m - {w.key}
    case Some(v) => Put(clash, m, w.key, v)
  }

  /** Replay of a list of writes, in order. */
  function Replay<V>(clash: (Key, V, Key, V) -> bool, m: map<Key, V>, ws: seq<Write<V>>): map<Key, V> {
    if ws == [] then m else Perform(clash, Replay(clash, m, ws[..|ws| - 1]), ws[|ws| - 1])
  }

  ghost predicate Agree<V>(a: map<Key, V>, b: map<Key, V>, k: Key) {
    (k in a <==> k in b) && (k in a ==> a[k] == b[k])
  }

  ghost predicate Writes<V>(ws: seq<Write<V>>, k: Key) {
    exists i :: 0 <= i < |ws| && ws[i].key == k
  }

  /** The writes carry the values of `target`, except that some may delete a key `target` still has. */
  ghost predicate FromTarget<V>(ws: seq<Write<V>>, target: map<Key, V>) {
    forall i :: 0 <= i < |ws| && ws[i].value.Some? ==>
      ws[i].key in target && target[ws[i].key] == ws[i].value.value
  }

  /** A delete of a key that `target` has. */
  ghost predicate StaleDelete<V>(ws: seq<Write<V>>, target: map<Key, V>, k: Key) {
    k in target && exists i :: 0 <= i < |ws| && ws[i].key == k && ws[i].value.None?
  }

  /** Displacement by UNIQUE conflicts never hurts: replaying writes taken from one conflict-free
      `target` brings every written key to `target`, keeps every key that already agreed (only a row
      that disagreed with `target` can be displaced), and creates no other key. */
  lemma {:induction false} ReplayReachesTarget<V>(
      clash: (Key, V, Key, V) -> bool, m: map<Key, V>, ws: seq<Write<V>>, target: map<Key, V>)
    requires ClashFree(clash, target) && FromTarget(ws, target)
    ensures forall k :: (Agree(m, target, k) || Writes(ws, k)) && !StaleDelete(ws, target, k)
              ==> Agree(Replay(clash, m, ws), target, k)
    ensures forall k :: !Writes(ws, k) && k in Replay(clash, m, ws)
              ==> k in m && Replay(clash, m, ws)[k] == m[k]
  {
    if ws != [] {
      var n := |ws| - 1;
      var pre, last := ws[..n], ws[n];
      ReplayReachesTarget(clash, m, pre, target);
      var mid := Replay(clash, m, pre);
      forall k | (Agree(m, target, k) || Writes(ws, k)) && !StaleDelete(ws, target, k)
        ensures Agree(Replay(clash, m, ws), target, k)
      {
        assert !StaleDelete(pre, target, k);
        if last.key != k {
          if Writes(ws, k) {
            var i :| 0 <= i < |ws| && ws[i].key == k;
            assert pre[i].key == k;
          }
          assert Agree(mid, target, k);
        }
      }
      forall k | !Writes(ws, k) && k in Replay(clash, m, ws)
        ensures k in m && Replay(clash, m, ws)[k] == m[k]
      {
        assert ws[n].key != k;
        assert !Writes(pre, k);
      }
    }
  }

  lemma WritesSplit<V>(ws: seq<Write<V>>, i: nat, k: Key)
    requires i < |ws| && ws[i].key != k && Writes(ws, k)
    ensures Writes(ws[..i], k) || Writes(ws[i + 1..], k)
  {
    var j :| 0 <= j < |ws| && ws[j].key == k;
    if j < i {
      assert ws[..i][j].key == k;
    } else {
      assert ws[i + 1..][j - i - 1].key == k;
    }
  }

  /** In the middle of a replay, a key that is already right or has a write is right, or its write is
      still to come. */
  lemma MidwayAgrees<V>(clash: (Key, V, Key, V) -> bool, m: map<Key, V>, ws: seq<Write<V>>, target: map<Key, V>,
        i: nat, k: Key)
    requires ClashFree(clash, target) && FromTarget(ws, target) && i < |ws| && ws[i].key != k
    requires (Agree(m, target, k) || Writes(ws, k)) && !StaleDelete(ws, target, k)
    ensures Agree(Replay(clash, m, ws[..i]), target, k) || Writes(ws[i + 1..], k)
  {
    ReplayReachesTarget(clash, m, ws[..i], target);
    assert !StaleDelete(ws[..i], target, k);
    if Writes(ws, k) {
      WritesSplit(ws, i, k);
    }
  }

  /** A key without a write of its own is never created. */
  lemma MidwayKeeps<V>(clash: (Key, V, Key, V) -> bool, m: map<Key, V>, ws: seq<Write<V>>, target: map<Key, V>,
        i: nat, k: Key)
    requires ClashFree(clash, target) && FromTarget(ws, target) && i <= |ws|
    requires k in Replay(clash, m, ws[..i]) && !Writes(ws, k)
    ensures k in m
  {
    ReplayReachesTarget(clash, m, ws[..i], target);
    PrefixWrites(ws, i, k);
  }

  lemma PrefixWrites<V>(ws: seq<Write<V>>, i: nat, k: Key)
    requires i <= |ws|
    ensures Writes(ws[..i], k) ==> Writes(ws, k)
  {
    if Writes(ws[..i], k) {
      var j :| 0 <= j < i && ws[..i][j].key == k;
      assert ws[j].key == k;
    }
  }

  ghost predicate EachKeyOnce<V>(ws: seq<Write<V>>) {
    forall i, j | 0 <= i < j < |ws| :: ws[i].key != ws[j].key
  }

  /** A write that would displace value v of key k. */
  ghost predicate Displaces<V>(clash: (Key, V, Key, V) -> bool, w: Write<V>, k: Key, v: V) {
    w.value.Some? && clash(k, v, w.key, w.value.value)
  }

  /** A key without a write survives exactly when no write displaces it. */
  lemma {:induction false} UnwrittenSurvives<V>(clash: (Key, V, Key, V) -> bool, m: map<Key, V>, ws: seq<Write<V>>,
        k: Key)
    requires !Writes(ws, k)
    ensures k in Replay(clash, m, ws) <==> k in m && forall i | 0 <= i < |ws| :: !Displaces(clash, ws[i], k, m[k])
    ensures k in Replay(clash, m, ws) ==> Replay(clash, m, ws)[k] == m[k]
  {
    if ws != [] {
      var n := |ws| - 1;
      PrefixWrites(ws, n, k);
      UnwrittenSurvives(clash, m, ws[..n], k);
      assert ws[n].key != k;
      assert ws == ws[..n] + [ws[n]];
    }
  }

  /** What a replay leaves under a key it writes does not depend on where it started. */
  lemma WrittenIsFixed<V>(clash: (Key, V, Key, V) -> bool, m: map<Key, V>, ws: seq<Write<V>>, target: map<Key, V>,
        k: Key)
    requires ClashFree(clash, target) && FromTarget(ws, target) && EachKeyOnce(ws) && Writes(ws, k)
    ensures Agree(Replay(clash, m, ws), if StaleDelete(ws, target, k) then target - {k} else target, k)
  {
    if StaleDelete(ws, target, k) {
      ReplayReachesTarget(clash, m, ws, target - {k});
    } else {
      ReplayReachesTarget(clash, m, ws, target);
    }
  }

  /** Replaying the same writes again changes nothing. */
  lemma ReplayIsIdempotent<V>(clash: (Key, V, Key, V) -> bool, m: map<Key, V>, ws: seq<Write<V>>, target: map<Key, V>)
    requires ClashFree(clash, target) && FromTarget(ws, target) && EachKeyOnce(ws)
    ensures Replay(clash, Replay(clash, m, ws), ws) == Replay(clash, m, ws)
  {
    var once := Replay(clash, m, ws);
    var twice := Replay(clash, once, ws);
    forall k ensures Agree(twice, once, k) {
      if Writes(ws, k) {
        WrittenIsFixed(clash, m, ws, target, k);
        WrittenIsFixed(clash, once, ws, target, k);
      } else {
        UnwrittenSurvives(clash, m, ws, k);
        UnwrittenSurvives(clash, once, ws, k);
      }
    }
    AgreeingMaps(twice, once);
  }

  lemma AgreeingMaps<V>(a: map<Key, V>, b: map<Key, V>)
    requires forall k :: Agree(a, b, k)
    ensures a == b
  {
    forall k ensures k in a <==> k in b { assert Agree(a, b, k); }
    forall k | k in a ensures a[k] == b[k] { assert Agree(a, b, k); }
  }
}
