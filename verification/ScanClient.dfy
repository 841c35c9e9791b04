/** The certifier's page loop: a partial replica and its checkpoint, one request at a time. */
module ScanClient {
  import opened Wrappers
  import opened Tables
  import opened Journal
  import opened Deltas
  import opened Paging
  import opened Bootstrap

  /** What the service's keyset query returns: `scanOf` lists table t behind a cursor, in order. */
  ghost predicate Answers(scanOf: (Source, nat, Option<int>) -> seq<Record>) {
    forall s: Source, t: nat, cursor: Option<int> | Valid(s) && t < |s.withoutRowid| ::
      IsScan(s, t, cursor, scanOf(s, t, cursor))
  }

  /** The source moves from `now` to `s` within one schema epoch. */
  ghost predicate Moves(now: Source, s: Source, start: nat, tables: nat) {
    && Valid(s) && s.configured && |now.withoutRowid| == |s.withoutRowid| == tables
    && start <= now.head && Follows(now, s, start)
  }

  /** The source as each request finds it. */
  ghost predicate Serves(feed: nat -> Source, start: nat, tables: nat) {
    && Valid(feed(0)) && |feed(0).withoutRowid| == tables
    && forall k: nat :: Moves(feed(k), feed(k + 1), start, tables)
  }

  /** Grow by a quarter, at least by one, never past the target. */
  function NextRecoveredPageRows(current: nat, target: nat): (r: nat)
    ensures current < target ==> current < r <= target
    ensures current < target ==> r == target || 4 * r >= 5 * current
    ensures current < target ==> 4 * (r - 1) < 5 * current || r == current + 1
    ensures current >= target ==> r == target
  {
    if current >= target then target
    else
      var grown := (current * 5 + 3) / 4;
      var atLeast := if current + 1 > grown then current + 1 else grown;
      if atLeast < target then atLeast else target
  }

  /** The source as each request finds it, the rows a query yields there, which requests get a 503, which
      tables may send a lone oversize row, and the byte bound of a response. */
  datatype Channel = Channel(feed: nat -> Source, scanOf: (Source, nat, Option<int>) -> seq<Record>, busy: nat -> bool,
                             oversize: nat -> bool, maxBytes: nat, size: Record -> nat)

  /** A position of the scan: the table and the last key passed in it. */
  datatype Point = Point(table: nat, cursor: Option<int>)

  /** The rows left begin with one that no response can carry. */
  predicate Stuck(scan: seq<Record>, oversize: bool, maxBytes: nat, size: Record -> nat) {
    scan != [] && size(scan[0]) > maxBytes && !(oversize && size(scan[0]) <= MAX_SINGLE_ROW_BYTES)
  }

  /** On to a later position of the table, or to the next one. */
  predicate Moved(s: Source, a: Point, b: Point) {
    || b == Point(a.table + 1, None)
    || (&& b.table == a.table < |s.withoutRowid| && b.cursor.Some?
        && Within(s.withoutRowid[a.table], a.cursor, b.cursor.value))
  }

  /** Request i: a 503 keeps the checkpoint, a stuck scan keeps it and ends the loop, and any other
      answer moves it. */
  predicate Goes(c: Channel, i: nat, a: Point, b: Point, last: bool) {
    var s := c.feed(i + 1);
    var stuck := Stuck(c.scanOf(s, a.table, a.cursor), c.oversize(a.table), c.maxBytes, c.size);
    (last <==> !c.busy(i) && stuck) && if c.busy(i) || stuck then b == a else Moved(s, a, b)
  }

  lemma RequestGoes(c: Channel, i: nat, a: Point, b: Point, ok: bool)
    requires var s := c.feed(i + 1);
      !ok <==> !c.busy(i) && Stuck(c.scanOf(s, a.table, a.cursor), c.oversize(a.table), c.maxBytes, c.size)
    requires (c.busy(i) || !ok ==> b == a) && (!c.busy(i) && ok ==> Moved(c.feed(i + 1), a, b))
    ensures Goes(c, i, a, b, !ok)
  {
  }

  /** The checkpoints before and after each request; `ended` says that the last one met a stuck scan. */
  ghost predicate Trail(c: Channel, tables: nat, trail: seq<Point>, ended: bool) {
    && |trail| > 0 && (ended ==> |trail| > 1)
    && forall i: nat | i < |trail| - 1 ::
         trail[i].table < tables && Goes(c, i, trail[i], trail[i + 1], ended && i == |trail| - 2)
  }

  lemma TrailGrows(c: Channel, tables: nat, trail: seq<Point>, b: Point, ended: bool)
    requires Trail(c, tables, trail, false) && trail[|trail| - 1].table < tables
    requires Goes(c, |trail| - 1, trail[|trail| - 1], b, ended)
    ensures Trail(c, tables, trail + [b], ended)
  {
  }

  /** Enough answers in a row, and room to grow. */
  predicate Recovers(streak: nat, pageRows: nat, successes: nat, target: nat) {
    streak + 1 >= successes && pageRows < target
  }

  datatype Finish = Complete | OutOfRequests | RowRejected

  class PartialReplica {
    var rows: map<Key, Row>
    var nextTable: nat
    var cursor: Option<int>
    var pageRows: nat
    var streak: nat

    /** The durable checkpoint is honest about the committed rows. */
    ghost predicate GoodAt(s: Source, start: nat, blind: set<Key>)
      reads this
    {
      nextTable <= |s.withoutRowid| && ScanGood(rows, s, start, nextTable, cursor, blind)
    }

    predicate PageSizeOk(minRows: nat, target: nat)
      reads this
    {
      minRows <= pageRows <= target
    }

    constructor (target: nat)
      ensures rows == map[] && nextTable == 0 && cursor == None && pageRows == target && streak == 0
    {
      rows, nextTable, cursor, pageRows, streak := map[], 0, None, target, 0;
    }

    /** A 503 answer halves the page, down to the minimum, at the same cursor. */
    method BackOff(minRows: nat, target: nat)
      requires PageSizeOk(minRows, target)
      modifies this`pageRows, this`streak
      ensures PageSizeOk(minRows, target) && streak == 0
      ensures pageRows == old(pageRows) / 2 || (pageRows == minRows && old(pageRows) / 2 < minRows)
      ensures old(pageRows) > minRows ==> pageRows < old(pageRows)
    {
      pageRows := if pageRows / 2 < minRows then minRows else pageRows / 2;
      streak := 0;
    }

    method Recover(successes: nat, minRows: nat, target: nat)
      requires PageSizeOk(minRows, target)
      modifies this`pageRows, this`streak
      ensures PageSizeOk(minRows, target)
      ensures if Recovers(old(streak), old(pageRows), successes, target)
              then pageRows == NextRecoveredPageRows(old(pageRows), target) > old(pageRows) && streak == 0
              else pageRows == old(pageRows) && streak == old(streak) + 1
    {
      streak := streak + 1;
      if streak >= successes && pageRows < target {
        pageRows := NextRecoveredPageRows(pageRows, target);
        streak := 0;
      }
    }

    /** INSERT OR REPLACE of a page's rows, in one transaction. */
    method CommitPage(page: Page)
      modifies this`rows
      ensures rows == Replay(ScanClash, old(rows), Loads(page.rows))
    {
      var writes := Loads(page.rows);
      var table := rows;
      for i := 0 to |writes|
        invariant table == Replay(ScanClash, rows, writes[..i])
      {
        table := Perform(ScanClash, table, writes[i]);
        assert writes[..i + 1][..i] == writes[..i];
      }
      assert writes[..|writes|] == writes;
      rows := table;
    }

    /** Commit, then move the checkpoint behind the page. */
    method LoadPage(s: Source, ghost start: nat, ghost scan: seq<Record>, page: Page, ghost blind: set<Key>)
      requires Valid(s) && s.configured && nextTable < |s.withoutRowid| && GoodAt(s, start, blind)
      requires IsScan(s, nextTable, cursor, scan) && CutFrom(scan, page)
      modifies this`rows, this`nextTable, this`cursor
      ensures GoodAt(s, start, blind) && rows == Replay(ScanClash, old(rows), Loads(page.rows))
      ensures nextTable == NextTable(old(nextTable), page) && cursor == page.next
    {
      ghost var loaded := Replay(ScanClash, rows, Loads(page.rows));
      PageKeepsScanGood(rows, s, start, nextTable, cursor, scan, page, blind);
      assert ScanGood(loaded, s, start, NextTable(nextTable, page), page.next, blind);
      CommitPage(page);
      assert rows == loaded;
      nextTable, cursor := NextTable(nextTable, page), page.next;
    }

    /** One answered request: a page of at most pageRows rows is cut, loaded and passed. */
    method RequestPage(s: Source, ghost start: nat, scan: seq<Record>, oversize: bool, maxBytes: nat,
          size: Record -> nat, ghost blind: set<Key>)
      returns (ok: bool)
      requires Valid(s) && s.configured && nextTable < |s.withoutRowid| && GoodAt(s, start, blind)
      requires IsScan(s, nextTable, cursor, scan)
      modifies this`rows, this`nextTable, this`cursor
      ensures GoodAt(s, start, blind)
      ensures ok <==> scan == [] || !Unsendable(size, oversize, maxBytes, scan[0])
      ensures !ok ==> rows == old(rows) && nextTable == old(nextTable) && cursor == old(cursor)
      ensures ok ==> Moved(s, old(Point(nextTable, cursor)), Point(nextTable, cursor))
    {
      var limit := BoundedLimit(pageRows);
      var raw := scan[..if |scan| > limit + 1 then limit + 1 else |scan|];
      var reply := StreamPageRecords(raw, limit, oversize, maxBytes, size);
      if reply.RowTooLarge? {
        return false;
      }
      LimitIsInvisible(scan, limit, reply.page);
      if !reply.page.done { CursorAdvances(s, nextTable, cursor, scan, reply.page); }
      LoadPage(s, start, scan, reply.page, blind);
      return true;
    }

    /** One request: refused with 503, or answered by the source as it is by then. */
    method Turn(now: Source, s: Source, ghost start: nat, ghost tables: nat, scan: seq<Record>, busy: bool,
                successes: nat, minRows: nat, target: nat, oversize: bool, maxBytes: nat, size: Record -> nat,
                ghost blind: set<Key>)
      returns (ok: bool)
      requires Moves(now, s, start, tables) && nextTable < tables && GoodAt(now, start, blind)
      requires PageSizeOk(minRows, target)
      requires IsScan(s, nextTable, cursor, scan)
      modifies this
      ensures GoodAt(s, start, blind - Touched(s.journal, now.head)) && PageSizeOk(minRows, target)
      ensures nextTable <= tables
      ensures !ok <==> !busy && Stuck(scan, oversize, maxBytes, size)
      ensures busy || !ok ==> rows == old(rows) && nextTable == old(nextTable) && cursor == old(cursor)
      ensures !busy && ok ==> Moved(s, old(Point(nextTable, cursor)), Point(nextTable, cursor))
      ensures streak == if busy || (ok && Recovers(old(streak), old(pageRows), successes, target)) then 0
                        else if ok then old(streak) + 1 else old(streak)
      ensures !busy ==> pageRows == if ok && Recovers(old(streak), old(pageRows), successes, target)
                                    then NextRecoveredPageRows(old(pageRows), target) else old(pageRows)
    {
      ScanFollows(rows, now, s, start, nextTable, cursor, blind);
      if busy {
        BackOff(minRows, target);
        return true;
      }
      ok := RequestPage(s, start, scan, oversize, maxBytes, size, blind - Touched(s.journal, now.head));
      if ok {
        Recover(successes, minRows, target);
      }
    }

    /** At most `budget` requests, answered by a source that changes between any two of them. Wherever the
        loop stops, the partial replica differs from the last state read only on keys journaled since the
        start watermark, rows ahead of the checkpoint, and rows no scan returns; a complete loop leaves
        nothing ahead. `trail` holds the checkpoints: a 503 keeps one, an answer moves it, and the loop gives
        up exactly when the rows left begin with one that can never be sent. */
    method Scan(c: Channel, ghost start: nat, tables: nat, budget: nat,
        successes: nat, minRows: nat, target: nat, ghost blind: set<Key>)
      returns (finish: Finish, used: nat, ghost missed: set<Key>, ghost trail: seq<Point>)
      requires Answers(c.scanOf) && Serves(c.feed, start, tables) && GoodAt(c.feed(0), start, blind)
      requires PageSizeOk(minRows, target)
      modifies this
      ensures used <= budget && missed <= blind && PageSizeOk(minRows, target)
      ensures GoodAt(c.feed(used), start, missed)
      ensures finish == Complete ==>
        nextTable == tables && Good(Contents(rows), Contents(c.feed(used).rows), c.feed(used).journal, start, missed)
      ensures finish == OutOfRequests ==> used == budget
      ensures finish == Complete <==> nextTable == tables
      ensures |trail| == used + 1 && trail[0] == old(Point(nextTable, cursor))
      ensures trail[used] == Point(nextTable, cursor) && Trail(c, tables, trail, finish == RowRejected)
    {
      used, missed, trail := 0, blind, [Point(nextTable, cursor)];
      var now := c.feed(0);
      while used < budget && nextTable < tables
        invariant used <= budget && missed <= blind && PageSizeOk(minRows, target)
        invariant now == c.feed(used) && Valid(now) && |now.withoutRowid| == tables && GoodAt(now, start, missed)
        invariant |trail| == used + 1 && trail[0] == old(Point(nextTable, cursor))
        invariant trail[used] == Point(nextTable, cursor) && Trail(c, tables, trail, false)
        decreases budget - used
      {
        hide Stuck, Trail, Goes, Moved, Recovers, NextRecoveredPageRows, ScanGood, Valid, Follows;
        var s := c.feed(used + 1);
        assert Moves(now, s, start, tables);
        var scan := c.scanOf(s, nextTable, cursor);
        var ok := Turn(now, s, start, tables, scan, c.busy(used), successes, minRows, target,
                       c.oversize(nextTable), c.maxBytes, c.size, missed);
        RequestGoes(c, used, trail[used], Point(nextTable, cursor), ok);
        TrailGrows(c, tables, trail, Point(nextTable, cursor), !ok);
        missed := missed - Touched(s.journal, now.head);
        used, now, trail := used + 1, s, trail + [Point(nextTable, cursor)];
        if !ok {
          return RowRejected, used, missed, trail;
        }
      }
      if nextTable < tables {
        return OutOfRequests, used, missed, trail;
      }
      FinishedScanGood(rows, now, start, missed);
      finish := Complete;
    }
  }

  lemma CursorAdvances(s: Source, t: nat, cursor: Option<int>, scan: seq<Record>, p: Page)
    requires IsScan(s, t, cursor, scan) && CutFrom(scan, p) && !p.done
    ensures p.next.Some? && Within(s.withoutRowid[t], cursor, p.next.value)
  {
    assert p.rows[|p.rows| - 1] == scan[|p.rows| - 1] && scan[|p.rows| - 1] in scan;
  }
}
