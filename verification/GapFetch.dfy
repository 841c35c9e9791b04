/** Backward paging over a signature history that grows at its head, and the durable scout cursor. */
module GapFetch {
  import opened Sequences
  import opened Wrappers

  const POLL_LIMIT := 1000

  /** Slot 0 stands for an absent or unreadable slot, "" for an absent signature. */
  datatype SignatureRow = SignatureRow(slot: int, signature: string)

  /** Why paging ended. */
  datatype Stop = Exhausted | CursorReached | SignatureMissing | PageCap

  /** Newest first, as far as slots can be read. */
  ghost predicate Ordered(rows: seq<SignatureRow>) {
    forall i, j | 0 <= i < j < |rows| && rows[i].slot > 0 :: rows[j].slot <= rows[i].slot
  }

  ghost predicate Distinct(rows: seq<SignatureRow>) {
    forall i, j | 0 <= i < j < |rows| :: rows[i].signature != "" ==> rows[i].signature != rows[j].signature
  }

  ghost predicate WellFormed(rows: seq<SignatureRow>) {
    Ordered(rows) && Distinct(rows)
  }

  /** What the provider knows at request k ends with what it knew at request 0. */
  ghost predicate Grows(history: nat -> seq<SignatureRow>) {
    forall k: nat :: Distinct(history(k)) && |history(0)| <= |history(k)|
                     && history(k)[|history(k)| - |history(0)|..] == history(0)
  }

  function After(rows: seq<SignatureRow>, signature: string): seq<SignatureRow> {
    if rows == [] then []
    else if rows[0].signature == signature then rows[1..]
    else After(rows[1..], signature)
  }

  function Take(rows: seq<SignatureRow>, n: nat): seq<SignatureRow> {
    if |rows| <= n then rows else rows[..n]
  }

  /** getSignaturesForAddress with limit and an optional `before`. */
  function PageOf(history: seq<SignatureRow>, before: Option<string>): seq<SignatureRow> {
    Take(if before.Some? then After(history, before.value) else history, POLL_LIMIT)
  }

  lemma {:induction false} AfterIndex(rows: seq<SignatureRow>, i: nat)
    requires i < |rows| && rows[i].signature != "" && Distinct(rows)
    ensures After(rows, rows[i].signature) == rows[i + 1..]
  {
    if i > 0 {
      AfterIndex(rows[1..], i - 1);
      assert rows[1..][i..] == rows[i + 1..];
    }
  }

  /** Growth at the head does not move the next page. */
  lemma PagesDoNotShift(history: nat -> seq<SignatureRow>, k: nat, i: nat)
    requires Grows(history) && i < |history(0)| && history(0)[i].signature != ""
    ensures After(history(k), history(0)[i].signature) == history(0)[i + 1..]
  {
    var now, first := history(k), history(0);
    var shift := |now| - |first|;
    assert now[shift..] == first && now[shift + i] == first[i];
    AfterIndex(now, shift + i);
    assert now[shift + i + 1..] == first[i + 1..];
  }

  predicate Wanted(row: SignatureRow, cursor: int) {
    row.signature != "" && row.slot > cursor
  }

  /** The wanted rows, oldest first. */
  function OldestFirst(rows: seq<SignatureRow>, cursor: int): seq<SignatureRow> {
    if rows == [] then []
    else OldestFirst(rows[1..], cursor) + if Wanted(rows[0], cursor) then [rows[0]] else []
  }

  lemma {:induction false} OldestFirstMembers(rows: seq<SignatureRow>, cursor: int)
    ensures forall row :: row in OldestFirst(rows, cursor) <==> row in rows && Wanted(row, cursor)
  {
    if rows != [] {
      OldestFirstMembers(rows[1..], cursor);
      assert rows == [rows[0]] + rows[1..];
    }
  }

  lemma AboveTheRest(rows: seq<SignatureRow>, row: SignatureRow)
    requires WellFormed(rows) && rows != [] && row in rows[1..]
    ensures rows[0].slot > 0 ==> row.slot <= rows[0].slot
    ensures rows[0].signature != "" ==> row.signature != rows[0].signature
  {
    var j :| 0 <= j < |rows[1..]| && rows[1..][j] == row;
    assert rows[j + 1] == row;
  }

  /** Once each, in slot order. */
  ghost predicate InOrder(out: seq<SignatureRow>) {
    forall i, j | 0 <= i < j < |out| :: out[i].signature != out[j].signature && out[i].slot <= out[j].slot
  }

  lemma InOrderGrows(older: seq<SignatureRow>, row: SignatureRow)
    requires InOrder(older) && forall x | x in older :: x.signature != row.signature && x.slot <= row.slot
    ensures InOrder(older + [row])
  {
    var out := older + [row];
    forall i, j | 0 <= i < j < |out| ensures out[i].signature != out[j].signature && out[i].slot <= out[j].slot {
      assert out[i] == older[i] && older[i] in older;
    }
  }

  lemma {:induction false} OldestFirstInOrder(rows: seq<SignatureRow>, cursor: int)
    requires WellFormed(rows) && 0 <= cursor
    ensures InOrder(OldestFirst(rows, cursor))
  {
    if rows != [] {
      var older := OldestFirst(rows[1..], cursor);
      OldestFirstInOrder(rows[1..], cursor);
      OldestFirstMembers(rows[1..], cursor);
      assert OldestFirst(rows, cursor) == older + if Wanted(rows[0], cursor) then [rows[0]] else [];
      if Wanted(rows[0], cursor) {
        forall x | x in older ensures x.signature != rows[0].signature
          && x.slot <= rows[0].slot { AboveTheRest(rows, x); }
        InOrderGrows(older, rows[0]);
      } else {
        assert older + [] == older;
      }
    }
  }

  lemma DistinctSuffix(front: seq<SignatureRow>, rows: seq<SignatureRow>)
    requires Distinct(front + rows)
    ensures Distinct(rows)
  {
    forall i, j | 0 <= i < j < |rows| ensures rows[i].signature != "" ==> rows[i].signature != rows[j].signature {
      assert (front + rows)[|front| + i] == rows[i] && (front + rows)[|front| + j] == rows[j];
    }
  }

  ghost predicate Signatures(seen: set<string>, rows: seq<SignatureRow>) {
    forall s :: s in seen <==> exists i | 0 <= i < |rows| :: rows[i].signature == s
  }

  lemma SeenGrows(seen: set<string>, rows: seq<SignatureRow>, row: SignatureRow)
    requires Signatures(seen, rows)
    ensures Signatures(seen + {row.signature}, rows + [row])
  {
    var more := rows + [row];
    forall s ensures s in seen + {row.signature} <==> exists i | 0 <= i < |more| :: more[i].signature == s {
      if s in seen {
        var i :| 0 <= i < |rows| && rows[i].signature == s;
        assert more[i].signature == s;
      }
      assert more[|rows|].signature == row.signature;
    }
  }

  /** A row ahead of already collected ones is never mistaken for a repeat. */
  lemma NotSeen(rows: seq<SignatureRow>, cursor: int, seen: set<string>)
    requires rows != [] && Distinct(rows) && Wanted(rows[0], cursor)
    requires Signatures(seen, OldestFirst(rows[1..], cursor))
    ensures rows[0].signature !in seen
  {
    var out := OldestFirst(rows[1..], cursor);
    OldestFirstMembers(rows[1..], cursor);
    forall i | 0 <= i < |out| ensures out[i].signature != rows[0].signature {
      assert out[i] in out;
      var j :| 0 <= j < |rows[1..]| && rows[1..][j] == out[i];
      assert rows[j + 1] == out[i];
    }
  }

  predicate Skipped(row: SignatureRow, seen: set<string>, cursor: int) {
    row.signature == "" || row.signature in seen || row.slot <= cursor
  }

  lemma CollectStep(row: SignatureRow, older: seq<SignatureRow>, cursor: int, seen: set<string>)
    requires Distinct([row] + older) && Signatures(seen, OldestFirst(older, cursor))
    ensures var rows := OldestFirst(older, cursor);
      && OldestFirst([row] + older, cursor) == (if Skipped(row, seen, cursor) then rows else rows + [row])
      && (!Skipped(row, seen, cursor) ==> Signatures(seen + {row.signature}, rows + [row]))
  {
    var all := [row] + older;
    assert all[0] == row && all[1..] == older;
    if Wanted(row, cursor) { NotSeen(all, cursor, seen); }
    SeenGrows(seen, OldestFirst(older, cursor), row);
  }

  lemma RestIsDistinct(page: seq<SignatureRow>, rest: seq<SignatureRow>, j: nat)
    requires Distinct(page + rest) && j < |page|
    ensures page[j..] + rest == [page[j]] + (page[j + 1..] + rest) && Distinct([page[j]] + (page[j + 1..] + rest))
  {
    assert page + rest == page[..j] + (page[j..] + rest);
    DistinctSuffix(page[..j], page[j..] + rest);
    assert page[j..] + rest == [page[j]] + (page[j + 1..] + rest);
  }

  method CollectPage(page: seq<SignatureRow>, cursor: int, rows0: seq<SignatureRow>, seen0: set<string>,
        ghost rest: seq<SignatureRow>)
    returns (rows: seq<SignatureRow>, seen: set<string>)
    requires Distinct(page + rest) && rows0 == OldestFirst(rest, cursor) && Signatures(seen0, rows0)
    ensures rows == OldestFirst(page + rest, cursor) && Signatures(seen, rows)
  {
    rows, seen := rows0, seen0;
    ghost var older := rest;
    for j := |page| downto 0
      invariant older == page[j..] + rest
      invariant rows == OldestFirst(older, cursor) && Signatures(seen, rows)
    {
      var row := page[j];
      RestIsDistinct(page, rest, j);
      CollectStep(row, older, cursor, seen);
      older := [row] + older;
      if !Skipped(row, seen, cursor) {
        seen, rows := seen + {row.signature}, rows + [row];
      }
    }
  }

  /** Pages back to front, each page back to front, skipping signatures already seen. */
  method Collect(pages: seq<seq<SignatureRow>>, cursor: int) returns (rows: seq<SignatureRow>)
    requires Distinct(Concat(pages))
    ensures rows == OldestFirst(Concat(pages), cursor)
  {
    rows := [];
    var seen: set<string> := {};
    for p := |pages| downto 0
      invariant rows == OldestFirst(Concat(pages[p..]), cursor) && Signatures(seen, rows)
    {
      ConcatSplit(pages, p);
      ConcatSplit(pages[p..], 1);
      assert pages[p..][..1] == [pages[p]] && pages[p..][1..] == pages[p + 1..];
      assert [pages[p]][..0] == [] && Concat([pages[p]]) == pages[p];
      DistinctSuffix(Concat(pages[..p]), Concat(pages[p..]));
      rows, seen := CollectPage(pages[p], cursor, rows, seen, Concat(pages[p + 1..]));
    }
    assert pages[0..] == pages;
  }

  predicate Reaches(page: seq<SignatureRow>, cursor: int) {
    cursor > 0 && exists i | 0 <= i < |page| :: page[i].slot <= cursor
  }

  /** Why paging stops after `page`, if it does. */
  function Verdict(page: seq<SignatureRow>, cursor: int): Option<Stop> {
    if page == [] then Some(Exhausted)
    else if Reaches(page, cursor) then Some(CursorReached)
    else if |page| < POLL_LIMIT then Some(Exhausted)
    else if page[|page| - 1].signature == "" then Some(SignatureMissing)
    else None
  }

  /** The reference: how much of one fixed history is read, and why paging stops. */
  function Reading(first: seq<SignatureRow>, cursor: int, start: nat, pages: nat): (r: (nat, Stop))
    requires start <= |first|
    ensures start <= r.0 <= |first|
    decreases pages
  {
    if pages == 0 then (start, PageCap)
    else
      var page := Take(first[start..], POLL_LIMIT);
      match Verdict(page, cursor)
      case Some(stop) => (start + |page|, stop)
      case None => Reading(first, cursor, start + |page|, pages - 1)
  }

  /** After k pages: they are the front of the first history, and `before` names their last row. */
  ghost predicate Progress(first: seq<SignatureRow>, cursor: int, maxPages: nat, pages: seq<seq<SignatureRow>>,
        before: Option<string>, k: nat) {
    var done := |Concat(pages)|;
    && k <= maxPages && done <= |first| && Concat(pages) == first[..done]
    && Reading(first, cursor, 0, maxPages) == Reading(first, cursor, done, maxPages - k)
    && if k == 0 then before == None && done == 0
       else before.Some? && done > 0 && before.value != "" && first[done - 1].signature == before.value
  }

  ghost predicate Ended(first: seq<SignatureRow>, cursor: int, maxPages: nat, pages: seq<seq<SignatureRow>>,
        stop: Stop) {
    var read := Reading(first, cursor, 0, maxPages);
    stop == read.1 && Concat(pages) == first[..read.0]
  }

  lemma NextPage(history: nat -> seq<SignatureRow>, k: nat, done: nat, before: Option<string>)
    requires Grows(history) && done <= |history(0)|
    requires if k == 0 then before == None && done == 0
             else before.Some? && done > 0 && before.value != "" && history(0)[done - 1].signature == before.value
    ensures PageOf(history(k), before) == Take(history(0)[done..], POLL_LIMIT)
  {
    if k > 0 {
      PagesDoNotShift(history, k, done - 1);
    } else {
      assert history(0)[0..] == history(0);
    }
  }

  lemma ReadingStep(first: seq<SignatureRow>, cursor: int, done: nat, left: nat, page: seq<SignatureRow>)
    requires done <= |first| && left > 0 && page == Take(first[done..], POLL_LIMIT)
    ensures done + |page| <= |first| && first[..done] + page == first[..done + |page|]
    ensures Reading(first, cursor, done, left) == match Verdict(page, cursor)
      case Some(stop) => (done + |page|, stop)
      case None => Reading(first, cursor, done + |page|, left - 1)
  {
    assert first[..done] + page == first[..done + |page|];
  }

  lemma PageStep(first: seq<SignatureRow>, cursor: int, maxPages: nat, pages: seq<seq<SignatureRow>>,
      before: Option<string>, k: nat, page: seq<SignatureRow>)
    requires Progress(first, cursor, maxPages, pages, before, k) && k < maxPages
    requires page == Take(first[|Concat(pages)|..], POLL_LIMIT)
    ensures match Verdict(page, cursor)
      case Some(stop) => stop != PageCap && Ended(first, cursor, maxPages, pages + [page], stop)
      case None =>
        && page != []
        && Progress(first, cursor, maxPages, pages + [page], Some(page[|page| - 1].signature), k + 1)
  {
    var done := |Concat(pages)|;
    ConcatAppend(pages, page);
    ReadingStep(first, cursor, done, maxPages - k, page);
    hide Concat, Reading, Take;
  }

  /** The page loop: it reads the history of its first page, front to back, however the head grows. */
  method FetchPages(history: nat -> seq<SignatureRow>, cursor: int, maxPages: nat)
    returns (pages: seq<seq<SignatureRow>>, complete: bool, stop: Stop)
    requires Grows(history)
    ensures Ended(history(0), cursor, maxPages, pages, stop) && complete == (stop != PageCap)
  {
    var before: Option<string> := None;
    pages, complete, stop := [], false, PageCap;
    for k := 0 to maxPages
      invariant !complete && stop == PageCap && Progress(history(0), cursor, maxPages, pages, before, k)
    {
      var page := PageOf(history(k), before);
      NextPage(history, k, |Concat(pages)|, before);
      PageStep(history(0), cursor, maxPages, pages, before, k, page);
      pages := pages + [page];
      var verdict := Verdict(page, cursor);
      if verdict.Some? {
        complete, stop := true, verdict.value;
        return;
      }
      before := Some(page[|page| - 1].signature);
    }
  }

  /** A completed fetch returns the wanted rows of what it read, oldest first; an incomplete one none. */
  method GapFetch(history: nat -> seq<SignatureRow>, cursor: int, maxPages: nat)
    returns (rows: seq<SignatureRow>, complete: bool, stop: Stop)
    requires Grows(history)
    ensures var read := Reading(history(0), cursor, 0, maxPages);
      && stop == read.1 && complete == (stop != PageCap)
      && rows == if complete then OldestFirst(history(0)[..read.0], cursor) else []
  {
    var pages;
    pages, complete, stop := FetchPages(history, cursor, maxPages);
    rows := [];
    if complete {
      rows := Collect(pages, cursor);
    }
  }

  // ---- completeness ----

  lemma {:induction false} NothingWanted(rows: seq<SignatureRow>, cursor: int)
    requires forall i | 0 <= i < |rows| :: !Wanted(rows[i], cursor)
    ensures OldestFirst(rows, cursor) == []
  {
    if rows != [] {
      NothingWanted(rows[1..], cursor);
    }
  }

  lemma {:induction false} OldestFirstConcat(a: seq<SignatureRow>, b: seq<SignatureRow>, cursor: int)
    ensures OldestFirst(a + b, cursor) == OldestFirst(b, cursor) + OldestFirst(a, cursor)
  {
    if a == [] {
      assert a + b == b;
    } else {
      assert (a + b)[1..] == a[1..] + b;
      OldestFirstConcat(a[1..], b, cursor);
    }
  }

  /** Enough pages reach the end of any history. */
  lemma {:induction false} EnoughPages(first: seq<SignatureRow>, cursor: int, start: nat)
    requires start <= |first|
    ensures Reading(first, cursor, start, |first| - start + 1).1 != PageCap
    decreases |first| - start
  {
    var page := Take(first[start..], POLL_LIMIT);
    if Verdict(page, cursor).None? {
      EnoughPages(first, cursor, start + |page|);
      MorePages(first, cursor, start + |page|, |first| - start - |page| + 1, |first| - start);
    }
  }

  lemma {:induction false} MorePages(first: seq<SignatureRow>, cursor: int, start: nat, pages: nat, more: nat)
    requires start <= |first| && pages <= more && Reading(first, cursor, start, pages).1 != PageCap
    ensures Reading(first, cursor, start, more) == Reading(first, cursor, start, pages)
    decreases pages
  {
    var page := Take(first[start..], POLL_LIMIT);
    if Verdict(page, cursor).None? {
      MorePages(first, cursor, start + |page|, pages - 1, more - 1);
    }
  }

  /** The page a reading ends on. */
  function LastPage(first: seq<SignatureRow>, cursor: int, start: nat, pages: nat): seq<SignatureRow>
    requires start <= |first| && pages > 0
    decreases pages
  {
    var page := Take(first[start..], POLL_LIMIT);
    if Verdict(page, cursor).Some? || pages == 1 then page else LastPage(first, cursor, start + |page|, pages - 1)
  }

  /** The page shows that nothing wanted lies behind it: it is short, or it has a readable row at or
      below the cursor. */
  predicate Conclusive(page: seq<SignatureRow>, cursor: int) {
    |page| < POLL_LIMIT || exists i | 0 <= i < |page| :: 0 < page[i].slot <= cursor
  }

  /** The last page is a page of the history, decides the stop, and no row before it reached the cursor. */
  lemma {:induction false} LastPageAt(first: seq<SignatureRow>, cursor: int, start: nat, pages: nat) returns (at: nat)
    requires start <= |first| && Reading(first, cursor, start, pages).1 != PageCap
    ensures pages > 0 && start <= at <= |first|
    ensures var r, page := Reading(first, cursor, start, pages), LastPage(first, cursor, start, pages);
      page == Take(first[at..], POLL_LIMIT) && Verdict(page, cursor).Some?
        && r == (at + |page|, Verdict(page, cursor).value)
    ensures cursor > 0 ==> forall i | start <= i < at :: first[i].slot > cursor
    decreases pages
  {
    var page := Take(first[start..], POLL_LIMIT);
    if Verdict(page, cursor).Some? {
      at := start;
    } else {
      at := LastPageAt(first, cursor, start + |page|, pages - 1);
      forall i | start <= i < at && cursor > 0 ensures first[i].slot > cursor {
        if i < start + |page| { assert page[i - start] == first[i]; }
      }
    }
  }

  /** The rows read hold every wanted row of the history. */
  ghost predicate ReadsAll(first: seq<SignatureRow>, cursor: int, pages: nat) {
    OldestFirst(first[..Reading(first, cursor, 0, pages).0], cursor) == OldestFirst(first, cursor)
  }

  lemma FrontIsAllIff(front: seq<SignatureRow>, rest: seq<SignatureRow>, cursor: int)
    ensures OldestFirst(front, cursor) == OldestFirst(front + rest, cursor) <==>
      forall i | 0 <= i < |rest| :: !Wanted(rest[i], cursor)
  {
    OldestFirstConcat(front, rest, cursor);
    OldestFirstMembers(rest, cursor);
    if forall i | 0 <= i < |rest| :: !Wanted(rest[i], cursor) {
      NothingWanted(rest, cursor);
    } else {
      var i :| 0 <= i < |rest| && Wanted(rest[i], cursor);
      assert rest[i] in OldestFirst(rest, cursor);
    }
  }

  /** Rows are lost exactly when a wanted one lies behind the last page. */
  lemma ReadsAllIff(first: seq<SignatureRow>, cursor: int, pages: nat)
    ensures ReadsAll(first, cursor, pages) <==>
      forall j | Reading(first, cursor, 0, pages).0 <= j < |first| :: !Wanted(first[j], cursor)
  {
    var end := Reading(first, cursor, 0, pages).0;
    var rest := first[end..];
    assert first == first[..end] + rest;
    FrontIsAllIff(first[..end], rest, cursor);
    hide Reading, OldestFirst;
    assert forall i | 0 <= i < |rest| :: rest[i] == first[end + i];
  }

  /** A completed fetch whose last page is conclusive has every wanted row of the history. */
  lemma CompleteMeansAll(first: seq<SignatureRow>, cursor: int, pages: nat)
    requires WellFormed(first) && 0 <= cursor && Reading(first, cursor, 0, pages).1 != PageCap
    requires Conclusive(LastPage(first, cursor, 0, pages), cursor)
    ensures ReadsAll(first, cursor, pages)
  {
    var page := LastPage(first, cursor, 0, pages);
    var at := LastPageAt(first, cursor, 0, pages);
    if |page| == POLL_LIMIT {
      var i :| 0 <= i < |page| && 0 < page[i].slot <= cursor;
      assert first[at + i] == page[i];
      assert forall j | at + |page| <= j < |first| :: first[j].slot <= first[at + i].slot;
    }
    ReadsAllIff(first, cursor, pages);
  }

  /** Some signature differs from all of these. */
  lemma {:induction false} UnseenSignature(rows: seq<SignatureRow>) returns (unseen: string)
    ensures |unseen| > 0 && forall i | 0 <= i < |rows| :: |rows[i].signature| < |unseen|
  {
    if rows == [] {
      unseen := "1";
    } else {
      var n := |rows| - 1;
      unseen := UnseenSignature(rows[..n]);
      if |rows[n].signature| >= |unseen| {
        unseen := rows[n].signature + "1";
      }
      forall i | 0 <= i < |rows| ensures |rows[i].signature| < |unseen| {
        assert i < n ==> rows[..n][i] == rows[i];
      }
    }
  }

  /** Another well-formed history from which the same pages are read. */
  ghost predicate Lookalike(first: seq<SignatureRow>, other: seq<SignatureRow>, cursor: int, pages: nat) {
    var r := Reading(first, cursor, 0, pages);
    WellFormed(other) && Reading(other, cursor, 0, pages) == r && other[..r.0] == first[..r.0]
  }

  /** Lookalikes end on the same page. */
  lemma {:induction false} SameLastPage(first: seq<SignatureRow>, other: seq<SignatureRow>, cursor: int, start: nat,
        pages: nat)
    requires start <= |first| && start <= |other| && Reading(first, cursor, start, pages).1 != PageCap
    requires Reading(first, cursor, start, pages) == Reading(other, cursor, start, pages)
    requires var end := Reading(first, cursor, start, pages).0; first[..end] == other[..end]
    ensures pages > 0 && LastPage(first, cursor, start, pages) == LastPage(other, cursor, start, pages)
    decreases pages
  {
    var end := Reading(first, cursor, start, pages).0;
    var page, twin := Take(first[start..], POLL_LIMIT), Take(other[start..], POLL_LIMIT);
    SamePage(first, other, start, end, page, twin);
    if Verdict(page, cursor).None? {
      SameLastPage(first, other, cursor, start + |page|, pages - 1);
    }
  }

  lemma SamePage(first: seq<SignatureRow>, other: seq<SignatureRow>, start: nat, end: nat, page: seq<SignatureRow>,
        twin: seq<SignatureRow>)
    requires start <= end <= |first| && end <= |other| && first[..end] == other[..end]
    requires page == Take(first[start..], POLL_LIMIT) && twin == Take(other[start..], POLL_LIMIT)
    requires start + |page| <= end && start + |twin| <= end
    ensures page == twin
  {
    assert first[..end][start..start + |page|] == page && other[..end][start..start + |twin|] == twin;
  }

  /** Behind a full page one more row changes nothing that is read. */
  lemma {:induction false} SameReading(first: seq<SignatureRow>, extra: SignatureRow, cursor: int, start: nat,
        pages: nat)
    requires start <= |first| && Reading(first, cursor, start, pages).1 != PageCap
    requires pages > 0 && |LastPage(first, cursor, start, pages)| == POLL_LIMIT
    ensures var r := Reading(first, cursor, start, pages); Reading(first[..r.0] + [extra], cursor, start, pages) == r
    decreases pages
  {
    var end := Reading(first, cursor, start, pages).0;
    var other := first[..end] + [extra];
    var page := Take(first[start..], POLL_LIMIT);
    if Verdict(page, cursor).None? {
      SameReading(first, extra, cursor, start + |page|, pages - 1);
    }
    assert Take(other[start..], POLL_LIMIT) == page;
  }

  /** Every readable row that was read up to an inconclusive page lies above the cursor. */
  lemma InconclusiveIsAbove(first: seq<SignatureRow>, cursor: int, pages: nat)
    requires 0 <= cursor && Reading(first, cursor, 0, pages).1 != PageCap
    requires !Conclusive(LastPage(first, cursor, 0, pages), cursor)
    ensures forall i | 0 <= i < Reading(first, cursor, 0, pages).0 && first[i].slot > 0 :: first[i].slot > cursor
  {
    var page := LastPage(first, cursor, 0, pages);
    var at := LastPageAt(first, cursor, 0, pages);
    forall i | 0 <= i < at + |page| && first[i].slot > 0 ensures first[i].slot > cursor {
      if i >= at { assert page[i - at] == first[i]; }
    }
  }

  /** The exception is real: whatever a fetch that ends on an inconclusive page has read, one more unread
      row just above the cursor makes it complete and wrong. */
  lemma InconclusivePageLosesRows(first: seq<SignatureRow>, cursor: int, pages: nat, unseen: string)
    requires WellFormed(first) && 0 <= cursor && Reading(first, cursor, 0, pages).1 != PageCap
    requires !Conclusive(LastPage(first, cursor, 0, pages), cursor)
    requires unseen != "" && forall i | 0 <= i < |first| :: first[i].signature != unseen
    ensures var other := first[..Reading(first, cursor, 0, pages).0] + [SignatureRow(cursor + 1, unseen)];
      Lookalike(first, other, cursor, pages) && !ReadsAll(other, cursor, pages)
  {
    var end, extra := Reading(first, cursor, 0, pages).0, SignatureRow(cursor + 1, unseen);
    var other := first[..end] + [extra];
    var at := LastPageAt(first, cursor, 0, pages);
    InconclusiveIsAbove(first, cursor, pages);
    SameReading(first, extra, cursor, 0, pages);
    assert other[..end] == first[..end];
    OneMoreWanted(first[..end], extra, cursor);
    OneMoreIsWellFormed(first, end, extra);
  }

  /** A fetch that reports completeness can be trusted, whatever history produced its pages, if and only
      if its last page is conclusive. */
  lemma TrustworthyIff(first: seq<SignatureRow>, cursor: int, pages: nat)
    requires WellFormed(first) && 0 <= cursor && Reading(first, cursor, 0, pages).1 != PageCap
    ensures pages > 0
    ensures (forall other | Lookalike(first, other, cursor, pages) :: ReadsAll(other, cursor, pages))
            <==> Conclusive(LastPage(first, cursor, 0, pages), cursor)
  {
    if Conclusive(LastPage(first, cursor, 0, pages), cursor) {
      forall other | Lookalike(first, other, cursor, pages) ensures ReadsAll(other, cursor, pages) {
        SameLastPage(first, other, cursor, 0, pages);
        CompleteMeansAll(other, cursor, pages);
      }
    } else {
      var unseen := UnseenSignature(first);
      InconclusivePageLosesRows(first, cursor, pages, unseen);
    }
  }

  /** An inconclusive last page is a full one of two kinds: its last signature is missing, or it seemed
      to reach the cursor only because of a slot that could not be read. */
  lemma InconclusiveKinds(first: seq<SignatureRow>, cursor: int, pages: nat)
    requires Reading(first, cursor, 0, pages).1 != PageCap
    ensures var stop, page := Reading(first, cursor, 0, pages).1, LastPage(first, cursor, 0, pages);
      !Conclusive(page, cursor) <==>
        && |page| == POLL_LIMIT
        && ((stop == SignatureMissing && page[|page| - 1].signature == "")
            || (&& stop == CursorReached && cursor > 0
                && forall i | 0 <= i < |page| && page[i].slot <= cursor :: page[i].slot <= 0))
  {
    var at := LastPageAt(first, cursor, 0, pages);
  }

  lemma OneMoreIsWellFormed(first: seq<SignatureRow>, n: nat, extra: SignatureRow)
    requires WellFormed(first) && n <= |first|
    requires forall i | 0 <= i < n && first[i].slot > 0 :: extra.slot <= first[i].slot
    requires forall i | 0 <= i < |first| :: first[i].signature != extra.signature
    ensures WellFormed(first[..n] + [extra])
  {
    var other := first[..n] + [extra];
    assert forall i | 0 <= i < n :: other[i] == first[i];
  }

  lemma OneMoreWanted(rows: seq<SignatureRow>, extra: SignatureRow, cursor: int)
    requires Wanted(extra, cursor)
    ensures |OldestFirst(rows + [extra], cursor)| == 1 + |OldestFirst(rows, cursor)|
  {
    OldestFirstConcat(rows, [extra], cursor);
    assert OldestFirst([extra], cursor) == OldestFirst([], cursor) + [extra];
  }
}
