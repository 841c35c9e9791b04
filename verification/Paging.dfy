/** Keyset pages: how one bounded response is cut from an ordered table scan. */
module Paging {
  import opened Wrappers
  import opened Tables

  const MAX_PAGE_ROWS := 500
  const MAX_SINGLE_ROW_BYTES := 64 * 1024 * 1024

  datatype Record = Record(key: Key, row: Row)
  datatype Page = Page(rows: seq<Record>, bytes: nat, done: bool, next: Option<int>)
  datatype PageReply = PageServed(page: Page) | RowTooLarge

  predicate Ordered(rs: seq<Record>) {
    forall i, j | 0 <= i < j < |rs| :: rs[i].row.pos < rs[j].row.pos
  }

  function Bytes(size: Record -> nat, rs: seq<Record>): nat {
    if rs == [] then 0 else Bytes(size, rs[..|rs| - 1]) + size(rs[|rs| - 1])
  }

  /** A row the transport can never carry. */
  predicate Unsendable(size: Record -> nat, oversizeTable: bool, maxBytes: nat, r: Record) {
    size(r) > maxBytes && (!oversizeTable || size(r) > MAX_SINGLE_ROW_BYTES)
  }

  function BoundedLimit(limit: int): (r: nat)
    ensures 1 <= r <= MAX_PAGE_ROWS && (1 <= limit <= MAX_PAGE_ROWS ==> r == limit)
  {
    if limit < 1 then 1 else if limit > MAX_PAGE_ROWS then MAX_PAGE_ROWS else limit
  }

  /** A response cut from the front of `scan`: it is done only if it holds everything, and otherwise
      it is non-empty and names its last position as the next cursor. */
  ghost predicate CutFrom(scan: seq<Record>, p: Page) {
    && p.rows <= scan
    && (p.done ==> p.rows == scan && p.next == None)
    && (!p.done ==> p.rows != [] && p.next == Some(p.rows[|p.rows| - 1].row.pos))
  }

  /** The response loop over a SELECT with LIMIT limit + 1. A single oversize row travels alone, and
      such a page never closes the table. */
  method StreamPageRecords(raw: seq<Record>, limit: nat, oversizeTable: bool, maxBytes: nat, size: Record -> nat)
    returns (r: PageReply)
    requires 1 <= limit && |raw| <= limit + 1
    ensures r.RowTooLarge? <==> raw != [] && Unsendable(size, oversizeTable, maxBytes, raw[0])
    ensures r.PageServed? ==> CutFrom(raw, r.page)
    ensures r.PageServed? ==> |r.page.rows| <= limit && r.page.bytes == Bytes(size, r.page.rows)
    ensures r.PageServed? ==> r.page.bytes <= maxBytes || |r.page.rows| == 1
    ensures r.PageServed? ==> (r.page.done <==> r.page.rows == raw && r.page.bytes <= maxBytes)
    ensures (r.PageServed? && !r.page.done && |r.page.rows| < limit && r.page.bytes <= maxBytes)
              ==> r.page.bytes + size(raw[|r.page.rows|]) > maxBytes
  {
    var rows: seq<Record> := [];
    var bytes := 0;
    var truncated, exhausted := false, false;
    while |rows| < limit
      invariant rows <= raw && |rows| <= limit && bytes == Bytes(size, rows) && bytes <= maxBytes
      invariant !truncated && !exhausted && (rows != [] ==> size(raw[0]) <= maxBytes)
      decreases limit - |rows|
    {
      if |rows| == |raw| {
        exhausted := true;
        break;
      }
      var record := raw[|rows|];
      var size := size(record);
      if rows != [] && bytes + size > maxBytes {
        truncated := true;
        break;
      }
      if rows == [] && size > maxBytes {
        if !oversizeTable || size > MAX_SINGLE_ROW_BYTES {
          return RowTooLarge;
        }
        rows, bytes := rows + [record], bytes + size;
        truncated := true;
        break;
      }
      rows, bytes := rows + [record], bytes + size;
    }
    if !truncated && !exhausted && |rows| >= limit {
      exhausted := |rows| == |raw|;
    }
    var done := exhausted && !truncated;
    var next := if rows != [] && !done then Some(rows[|rows| - 1].row.pos) else None;
    return PageServed(Page(rows, bytes, done, next));
  }

  /** The LIMIT of the SELECT hides nothing a page needs. */
  lemma LimitIsInvisible(scan: seq<Record>, limit: nat, p: Page)
    requires CutFrom(scan[..if |scan| > limit + 1 then limit + 1 else |scan|], p) && |p.rows| <= limit
    ensures CutFrom(scan, p)
  {}

  /** WHERE pos > cursor. */
  function Beyond(scan: seq<Record>, cursor: Option<int>): seq<Record> {
    if scan == [] then []
    else (if cursor.Some? ==> scan[0].row.pos > cursor.value then [scan[0]] else []) + Beyond(scan[1..], cursor)
  }

  lemma {:induction false} BeyondAll(scan: seq<Record>, cursor: Option<int>)
    requires cursor.Some? ==> forall r :: r in scan ==> r.row.pos > cursor.value
    ensures Beyond(scan, cursor) == scan
  {
    if scan != [] {
      BeyondAll(scan[1..], cursor);
    }
  }

  /** Restarting at the last position of a prefix continues exactly behind it. */
  lemma {:induction false} BeyondPrefix(scan: seq<Record>, n: nat)
    requires Ordered(scan) && 0 < n <= |scan|
    ensures Beyond(scan, Some(scan[n - 1].row.pos)) == scan[n..]
  {
    if n == 1 {
      BeyondAll(scan[1..], Some(scan[0].row.pos));
    } else {
      assert scan[1..][n - 2] == scan[n - 1] && scan[1..][n - 1..] == scan[n..];
      BeyondPrefix(scan[1..], n - 1);
    }
  }

  /** One request against an unchanging table. */
  method Request(scan: seq<Record>, cursor: Option<int>, limit: int, oversizeTable: bool, maxBytes: nat,
        size: Record -> nat)
    returns (r: PageReply)
    ensures var rest := Beyond(scan, cursor);
      && (r.RowTooLarge? <==> rest != [] && Unsendable(size, oversizeTable, maxBytes, rest[0]))
      && (r.PageServed? ==> CutFrom(rest, r.page) && |r.page.rows| <= BoundedLimit(limit))
      && (r.PageServed? ==> forall i | 0 <= i < |r.page.rows| :: !Unsendable(size, oversizeTable, maxBytes, rest[i]))
  {
    var bounded := BoundedLimit(limit);
    var rest := Beyond(scan, cursor);
    var raw := rest[..if |rest| > bounded + 1 then bounded + 1 else |rest|];
    r := StreamPageRecords(raw, bounded, oversizeTable, maxBytes, size);
    if r.PageServed? {
      LimitIsInvisible(rest, bounded, r.page);
      PageSendable(size, oversizeTable, maxBytes, raw, r.page);
      assert forall i | 0 <= i < |r.page.rows| :: r.page.rows[i] == rest[i];
    }
  }

  /** A client paging through an unchanging table, with any page size per request, receives every row
      exactly once and in order, in at most one request more than there are rows; it fails exactly
      when some row cannot be sent at all. */
  method PageThrough(scan: seq<Record>, limitOf: nat -> int, oversizeTable: bool, maxBytes: nat, size: Record -> nat)
    returns (received: seq<Record>, requests: nat, failed: bool)
    requires Ordered(scan)
    ensures !failed ==> received == scan && requests <= |scan| + 1 && |scan| <= requests * MAX_PAGE_ROWS
    ensures failed <==> exists i :: 0 <= i < |scan| && Unsendable(size, oversizeTable, maxBytes, scan[i])
  {
    received, requests, failed := [], 0, false;
    var cursor: Option<int> := None;
    var done := false;
    ghost var n := 0;
    BeyondAll(scan, None);
    while !done
      invariant n <= |scan| && received == scan[..n] && requests <= n + (if done then 1 else 0)
      invariant n <= requests * MAX_PAGE_ROWS
      invariant if done then n == |scan| else Beyond(scan, cursor) == scan[n..]
      invariant forall i | 0 <= i < n :: !Unsendable(size, oversizeTable, maxBytes, scan[i])
      decreases |scan| - n, !done
    {
      var reply := Request(scan, cursor, limitOf(requests), oversizeTable, maxBytes, size);
      if reply.RowTooLarge? {
        assert scan[n..][0] == scan[n];
        failed := true;
        return;
      }
      var page := reply.page;
      AppendPage(scan, n, page, size, oversizeTable, maxBytes);
      n := n + |page.rows|;
      received := received + page.rows;
      requests := requests + 1;
      done, cursor := page.done, page.next;
    }
  }

  lemma AppendPage(scan: seq<Record>, n: nat, p: Page, size: Record -> nat, oversizeTable: bool, maxBytes: nat)
    requires Ordered(scan) && n <= |scan| && CutFrom(scan[n..], p)
    requires forall i | 0 <= i < |p.rows| :: !Unsendable(size, oversizeTable, maxBytes, scan[n..][i])
    ensures n + |p.rows| <= |scan| && scan[..n] + p.rows == scan[..n + |p.rows|]
    ensures p.done ==> n + |p.rows| == |scan|
    ensures !p.done ==> |p.rows| > 0 && Beyond(scan, p.next) == scan[n + |p.rows|..]
    ensures forall i | n <= i < n + |p.rows| :: !Unsendable(size, oversizeTable, maxBytes, scan[i])
  {
    PrefixStep(scan, n, p.rows);
    ContinuesBehind(scan, n, p);
    hide Ordered, CutFrom, Beyond, Unsendable;
    forall i | n <= i < n + |p.rows| ensures !Unsendable(size, oversizeTable, maxBytes, scan[i]) {
      assert scan[n..][i - n] == scan[i];
    }
  }

  lemma ContinuesBehind(scan: seq<Record>, n: nat, p: Page)
    requires Ordered(scan) && n <= |scan| && CutFrom(scan[n..], p)
    ensures n + |p.rows| <= |scan| && (p.done ==> n + |p.rows| == |scan|)
    ensures !p.done ==> |p.rows| > 0 && Beyond(scan, p.next) == scan[n + |p.rows|..]
  {
    hide Ordered, Beyond;
    PrefixStep(scan, n, p.rows);
    if !p.done {
      BeyondPrefix(scan, n + |p.rows|);
      assert p.rows[|p.rows| - 1] == scan[n + |p.rows| - 1];
    }
  }

  lemma PrefixStep<T>(s: seq<T>, n: nat, part: seq<T>)
    requires n <= |s| && part <= s[n..]
    ensures n + |part| <= |s| && s[..n] + part == s[..n + |part|] && part == s[n..n + |part|]
  {
    assert part == s[n..][..|part|];
  }

  /** Nothing in a served page was unsendable. */
  lemma PageSendable(size: Record -> nat, oversizeTable: bool, maxBytes: nat, raw: seq<Record>, p: Page)
    requires CutFrom(raw, p) && p.bytes == Bytes(size, p.rows) && (p.bytes <= maxBytes || |p.rows| == 1)
    requires raw != [] ==> !Unsendable(size, oversizeTable, maxBytes, raw[0])
    ensures forall i | 0 <= i < |p.rows| :: !Unsendable(size, oversizeTable, maxBytes, p.rows[i])
  {
    forall i | 0 <= i < |p.rows| ensures i == 0 || size(p.rows[i]) <= p.bytes {
      SizeBelowBytes(size, p.rows, i);
    }
  }

  lemma {:induction false} SizeBelowBytes(size: Record -> nat, rs: seq<Record>, i: nat)
    requires i < |rs|
    ensures size(rs[i]) <= Bytes(size, rs)
  {
    if i < |rs| - 1 {
      SizeBelowBytes(size, rs[..|rs| - 1], i);
    }
  }
}
