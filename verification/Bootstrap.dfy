/** The fuzzy scan: a partial replica built from pages read at different times. */
module Bootstrap {
  import opened Wrappers
  import opened Tables
  import opened Journal
  import opened Deltas
  import opened Paging

  /** A rowid scan without a cursor starts at rowid > 0; a WITHOUT ROWID scan starts at its first key. */
  predicate Within(withoutRowid: bool, cursor: Option<int>, pos: int) {
    match cursor
    case None => withoutRowid || pos > 0
    case Some(c) => pos > c
  }

  predicate Visible(s: Source, k: Key, row: Row) {
    k.table < |s.withoutRowid| && Within(s.withoutRowid[k.table], None, row.pos)
  }

  /** The rows the scan will never return: rowid tables are read from rowid 1. */
  function Blind(s: Source): set<Key> {
    set k | k in s.rows && !Visible(s, k, s.rows[k])
  }

  /** `scan` is the result of the unlimited page query for table t behind `cursor`. */
  ghost predicate IsScan(s: Source, t: nat, cursor: Option<int>, scan: seq<Record>) {
    && t < |s.withoutRowid| && Ordered(scan)
    && (forall r :: r in scan ==> r.key in s.rows && s.rows[r.key] == r.row && r.key.table == t
                                  && Within(s.withoutRowid[t], cursor, r.row.pos))
    && (forall k :: k in s.rows && k.table == t && Within(s.withoutRowid[t], cursor, s.rows[k].pos)
                    ==> Record(k, s.rows[k]) in scan)
  }

  /** Not yet scanned when the checkpoint says table `next`, position `cursor`. */
  predicate Ahead(s: Source, next: nat, cursor: Option<int>, k: Key, row: Row) {
    && Visible(s, k, row)
    && (k.table > next || (k.table == next && Within(s.withoutRowid[next], cursor, row.pos)))
  }

  /** Cursors of a rowid table are positive, like the rowids they come from. */
  predicate CursorSound(s: Source, t: nat, cursor: Option<int>) {
    cursor.Some? ==> t < |s.withoutRowid| && Within(s.withoutRowid[t], None, cursor.value)
  }

  /** During the scan the partial replica differs from the source only on keys journaled past the
      start watermark, on rows still ahead of the checkpoint, and on blind keys. */
  ghost predicate ScanGood(P: map<Key, Row>, s: Source, start: nat, next: nat, cursor: Option<int>, blind: set<Key>) {
    && CursorSound(s, next, cursor)
    && (forall k :: k !in blind ==>
          || Agree(P, s.rows, k) || Dirty(s.journal, k, start)
          || (k !in P && k in s.rows && Ahead(s, next, cursor, k, s.rows[k])))
    && (forall k :: k in blind ==> k !in P && k in s.rows && !Visible(s, k, s.rows[k]) && !Dirty(s.journal, k, start))
  }

  function Loads(rs: seq<Record>): seq<Write<Row>> {
    seq(|rs|, i requires 0 <= i < |rs| => Write(rs[i].key, Some(rs[i].row)))
  }

  /** The checkpoint position after a page. */
  function NextTable(t: nat, p: Page): nat { if p.done then t + 1 else t }

  /** Before the first page nothing is loaded and every visible row is ahead. */
  lemma ScanBegins(s: Source)
    requires Valid(s) && s.configured
    ensures ScanGood(map[], s, s.head, 0, None, Blind(s))
  {}

  lemma ScanFollows(P: map<Key, Row>, s: Source, s': Source, start: nat, next: nat, cursor: Option<int>,
        blind: set<Key>)
    requires Follows(s, s', start) && start <= s.head
    requires ScanGood(P, s, start, next, cursor, blind)
    ensures ScanGood(P, s', start, next, cursor, blind - Touched(s'.journal, s.head))
  {
    TouchedDirty(s'.journal, s.head);
    var blind' := blind - Touched(s'.journal, s.head);
    forall k | k !in blind'
      ensures || Agree(P, s'.rows, k) || Dirty(s'.journal, k, start)
              || (k !in P && k in s'.rows && Ahead(s', next, cursor, k, s'.rows[k]))
    {
      if Dirty(s'.journal, k, s.head) {
        var e :| e in s'.journal && e.key == k && e.id > s.head;
        assert e.id > start;
      } else if Dirty(s.journal, k, start) {
        var e :| e in s.journal && e.key == k && e.id > start;
        assert e in s'.journal;
      } else {
        assert Agree(s.rows, s'.rows, k);
      }
    }
    forall k | k in blind'
      ensures k !in P && k in s'.rows && !Visible(s', k, s'.rows[k]) && !Dirty(s'.journal, k, start)
    {
      assert !Dirty(s'.journal, k, s.head);
      assert Agree(s.rows, s'.rows, k);
      assert forall e :: e in s'.journal && e.key == k ==> e in s.journal;
    }
  }

  /** An older checkpoint of the same scan is still good: this is what a crash falls back to. */
  lemma OlderCheckpoint(P: map<Key, Row>, s: Source, start: nat, t: nat, cursor: Option<int>, p: Page, blind: set<Key>)
    requires ScanGood(P, s, start, NextTable(t, p), p.next, blind)
    requires t < |s.withoutRowid| && CursorSound(s, t, cursor) && (p.done ==> p.next.None?)
    requires !p.done ==> p.next.Some? && Within(s.withoutRowid[t], cursor, p.next.value)
    ensures ScanGood(P, s, start, t, cursor, blind)
  {}

  /** A visible row behind the cursor that the page does not carry lies behind the page's own cursor. */
  lemma NotWrittenIsAhead(s: Source, t: nat, cursor: Option<int>, scan: seq<Record>, p: Page, k: Key)
    requires IsScan(s, t, cursor, scan) && CutFrom(scan, p)
    requires k in s.rows && Ahead(s, t, cursor, k, s.rows[k])
    ensures Writes(Loads(p.rows), k) || Ahead(s, NextTable(t, p), p.next, k, s.rows[k])
  {
    if k.table == t {
      var i :| 0 <= i < |scan| && scan[i] == Record(k, s.rows[k]);
      if i < |p.rows| {
        assert Loads(p.rows)[i].key == k;
      }
    }
  }

  /** Pages carry only source rows of their table that the scan can see. */
  lemma PageRows(s: Source, t: nat, cursor: Option<int>, scan: seq<Record>, p: Page)
    requires IsScan(s, t, cursor, scan) && CutFrom(scan, p) && CursorSound(s, t, cursor)
    ensures FromTarget(Loads(p.rows), s.rows)
    ensures forall k :: Writes(Loads(p.rows), k) ==> k in s.rows && Visible(s, k, s.rows[k])
    ensures !p.done ==> p.next.Some? && Within(s.withoutRowid[t], cursor, p.next.value)
    ensures CursorSound(s, NextTable(t, p), p.next)
  {
    forall i | 0 <= i < |p.rows|
      ensures p.rows[i].key in s.rows && s.rows[p.rows[i].key] == p.rows[i].row
      ensures Visible(s, p.rows[i].key, p.rows[i].row) && Within(s.withoutRowid[t], cursor, p.rows[i].row.pos)
    {
      assert p.rows[i] == scan[i] && scan[i] in scan;
    }
  }

  /** Loading a page reaches the source on its own keys and spoils no key that agreed. */
  lemma LoadPage(P: map<Key, Row>, s: Source, ws: seq<Write<Row>>)
    requires Unique(s.rows) && FromTarget(ws, s.rows) && forall i | 0 <= i < |ws| :: ws[i].value.Some?
    ensures forall k :: Agree(P, s.rows, k) || Writes(ws, k) ==> Agree(Replay(ScanClash, P, ws), s.rows, k)
    ensures forall k :: !Writes(ws, k) && k in Replay(ScanClash, P, ws) ==> k in P
  {
    ReplayReachesTarget(ScanClash, P, ws, s.rows);
    assert forall k :: !StaleDelete(ws, s.rows, k);
  }

  /** Committing a page moves the good checkpoint behind it, whatever rows it displaces. */
  lemma PageKeepsScanGood(P: map<Key, Row>, s: Source, start: nat, t: nat, cursor: Option<int>,
      scan: seq<Record>, p: Page, blind: set<Key>)
    requires Valid(s) && s.configured && IsScan(s, t, cursor, scan) && CutFrom(scan, p)
    requires ScanGood(P, s, start, t, cursor, blind)
    ensures ScanGood(Replay(ScanClash, P, Loads(p.rows)), s, start, NextTable(t, p), p.next, blind)
  {
    PageRows(s, t, cursor, scan, p);
    LoadPage(P, s, Loads(p.rows));
    forall k | k in s.rows && Ahead(s, t, cursor, k, s.rows[k])
      ensures Writes(Loads(p.rows), k) || Ahead(s, NextTable(t, p), p.next, k, s.rows[k])
    {
      NotWrittenIsAhead(s, t, cursor, scan, p, k);
    }
    var P' := Replay(ScanClash, P, Loads(p.rows));
    LoadedScanGood(P, P', Loads(p.rows), s, start, t, cursor, NextTable(t, p), p.next, blind);
  }

  lemma LoadedScanGood(P: map<Key, Row>, P': map<Key, Row>, ws: seq<Write<Row>>, s: Source, start: nat,
      t: nat, cursor: Option<int>, t': nat, cursor': Option<int>, blind: set<Key>)
    requires ScanGood(P, s, start, t, cursor, blind) && CursorSound(s, t', cursor')
    requires forall k :: Agree(P, s.rows, k) || Writes(ws, k) ==> Agree(P', s.rows, k)
    requires forall k :: !Writes(ws, k) && k in P' ==> k in P
    requires forall k :: Writes(ws, k) ==> k in s.rows && Visible(s, k, s.rows[k])
    requires forall k :: k in s.rows && Ahead(s, t, cursor, k, s.rows[k])
               ==> Writes(ws, k) || Ahead(s, t', cursor', k, s.rows[k])
    ensures ScanGood(P', s, start, t', cursor', blind)
  {}

  /** A finished scan differs from the source only on keys journaled past the start watermark. */
  lemma FinishedScanGood(P: map<Key, Row>, s: Source, start: nat, blind: set<Key>)
    requires Valid(s) && ScanGood(P, s, start, |s.withoutRowid|, None, blind)
    ensures Good(Contents(P), Contents(s.rows), s.journal, start, blind)
  {
    forall k | k !in blind
      ensures Agree(Contents(P), Contents(s.rows), k) || Dirty(s.journal, k, start)
    {
      assert k in s.rows ==> !Ahead(s, |s.withoutRowid|, None, k, s.rows[k]);
      assert Agree(P, s.rows, k) || Dirty(s.journal, k, start);
    }
  }
}
