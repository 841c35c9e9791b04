/** Funding provenance: the chunked, cached history scan against a serial newest-first scan. */
module FundingScan {
  import opened Wrappers

  const CHUNK_SIZE := 8
  const CACHE_MAX := 4096
  const FULL_PAGE := 1000

  /** A signature-history row after parsing; 0 stands for an absent or unreadable number. */
  datatype HistoryRow = HistoryRow(slot: int, blockTime: int, failed: bool, signature: string)
  datatype Transfer = Transfer(source: string, lamports: int)
  datatype Tx = Tx(blockTime: int, inbound: seq<Transfer>)
  datatype Fetched = Hydrated(tx: Tx) | FetchFailed(error: string)
  datatype PageReply = Rows(rows: seq<HistoryRow>) | PageFailed(error: string)
  datatype FundingSource = FundingSource(source: string, lamports: int, at: int)

  /** One trace request. Times are microseconds; block times are seconds. */
  datatype Trace = Trace(beforeAt: int, beforeSlot: int, startAt: int, threshold: int, maxPages: nat)

  datatype Reason =
    | LatestQualifyingSource | HistoryExhausted | ShortPage | LookbackBoundary
    | HistoryRpc(error: string) | TransactionRpc(error: string) | RowMissingSlotAndTime | CursorMissing | PageCap
  datatype Outcome = Outcome(source: Option<FundingSource>, complete: bool, reason: Reason)

  datatype Class = Skip | NoTime | TooOld | Candidate(signature: string, blockTime: int)

  /** What a row means for the trace, decided before any transaction is read. */
  function Classify(t: Trace, row: HistoryRow): Class {
    var bySlot := t.beforeSlot > 0 && row.slot > 0;
    var observed := row.blockTime * 1_000_000;
    if bySlot && row.slot >= t.beforeSlot then Skip
    else if !bySlot && row.blockTime <= 0 then NoTime
    else if !bySlot && observed >= t.beforeAt then Skip
    else if row.blockTime > 0 && observed < t.startAt then TooOld
    else if row.failed || row.signature == "" then Skip
    else Candidate(row.signature, row.blockTime)
  }

  /** x is at index i, and everything before it is strictly smaller. */
  ghost predicate FirstAt(inbound: seq<Transfer>, x: Transfer, i: nat) {
    i < |inbound| && inbound[i] == x && forall j | 0 <= j < i :: inbound[j].lamports < x.lamports
  }

  /** The largest transfer at or over the threshold. */
  function Largest(inbound: seq<Transfer>, threshold: int): (best: Option<Transfer>)
    ensures best.None? <==> forall x | x in inbound :: x.lamports < threshold
    ensures best.Some? ==> best.value.lamports >= threshold
    ensures best.Some? ==> forall x | x in inbound :: x.lamports <= best.value.lamports
  {
    if inbound == [] then None
    else
      var last := inbound[|inbound| - 1];
      var best := Largest(inbound[..|inbound| - 1], threshold);
      assert inbound == inbound[..|inbound| - 1] + [last];
      if last.lamports >= threshold && (best.None? || last.lamports > best.value.lamports) then Some(last) else best
  }

  lemma {:induction false} LargestIsFirst(inbound: seq<Transfer>, threshold: int)
    ensures var best := Largest(inbound, threshold); best.Some? ==> exists i :: FirstAt(inbound, best.value, i)
  {
    if inbound != [] {
      var n := |inbound| - 1;
      LargestIsFirst(inbound[..n], threshold);
      var best, before := Largest(inbound, threshold), Largest(inbound[..n], threshold);
      if best.Some? {
        if best == before {
          var i :| FirstAt(inbound[..n], best.value, i);
          assert FirstAt(inbound, best.value, i);
        } else {
          forall j | 0 <= j < n ensures inbound[j].lamports < best.value.lamports {
            assert inbound[j] in inbound[..n];
          }
          assert FirstAt(inbound, best.value, n);
        }
      }
    }
  }

  function SourceOf(t: Trace, tx: Tx, rowTime: int): Option<FundingSource> {
    var time := if tx.blockTime != 0 then tx.blockTime else rowTime;
    match Largest(tx.inbound, t.threshold)
    case None => None
    case Some(x) => Some(FundingSource(x.source, x.lamports, if time > 0 then time * 1_000_000 else t.beforeAt))
  }

  /** What one hydrated candidate decides, if anything. */
  function Judge(t: Trace, f: Fetched, rowTime: int): Option<Outcome> {
    match f
    case FetchFailed(e) => Some(Outcome(None, false, TransactionRpc(e)))
    case Hydrated(tx) =>
      var source := SourceOf(t, tx, rowTime);
      if source.Some? then Some(Outcome(source, true, LatestQualifyingSource)) else None
  }

  datatype Verdict = Stop(outcome: Outcome) | Boundary | EndOfPage

  /** The reference: one row at a time, newest first, each transaction read when its row is reached. */
  function SerialRows(t: Trace, fetch: string -> Fetched, rows: seq<HistoryRow>): Verdict {
    if rows == [] then EndOfPage
    else match Classify(t, rows[0])
      case Skip => SerialRows(t, fetch, rows[1..])
      case NoTime => Stop(Outcome(None, false, RowMissingSlotAndTime))
      case TooOld => Boundary
      case Candidate(signature, blockTime) =>
        match Judge(t, fetch(signature), blockTime)
        case Some(o) => Stop(o)
        case None => SerialRows(t, fetch, rows[1..])
  }

  function Serial(t: Trace, fetch: string -> Fetched, page: Option<string> -> PageReply, before: Option<string>,
        pages: nat): Outcome
    decreases pages
  {
    if pages == 0 then Outcome(None, false, PageCap)
    else match page(before)
      case PageFailed(e) => Outcome(None, false, HistoryRpc(e))
      case Rows(rows) =>
        if rows == [] then Outcome(None, true, HistoryExhausted)
        else match SerialRows(t, fetch, rows)
          case Stop(o) => o
          case Boundary => Outcome(None, true, LookbackBoundary)
          case EndOfPage =>
            var last := rows[|rows| - 1].signature;
            if |rows| < FULL_PAGE then Outcome(None, true, ShortPage)
            else if last == "" then Outcome(None, false, CursorMissing)
            else Serial(t, fetch, page, Some(last), pages - 1)
  }

  /** Deciding a chunk of candidates in order, then going on. */
  function AfterChunk(t: Trace, fetch: string -> Fetched, chunk: seq<(string, int)>, rest: Verdict): Verdict {
    if chunk == [] then rest
    else match Judge(t, fetch(chunk[0].0), chunk[0].1)
      case Some(o) => Stop(o)
      case None => AfterChunk(t, fetch, chunk[1..], rest)
  }

  lemma {:induction false} ChunkGrows(t: Trace, fetch: string -> Fetched, chunk: seq<(string, int)>, c: (string, int),
        rest: Verdict)
    ensures AfterChunk(t, fetch, chunk + [c], rest) == AfterChunk(t, fetch, chunk, AfterChunk(t, fetch, [c], rest))
  {
    if chunk == [] {
      assert [] + [c] == [c];
    } else {
      assert (chunk + [c])[1..] == chunk[1..] + [c];
      ChunkGrows(t, fetch, chunk[1..], c, rest);
    }
  }

  /** A pending chunk with nothing decided leaves the rest of the page to decide. */
  lemma {:induction false} ChunkUndecided(t: Trace, fetch: string -> Fetched, chunk: seq<(string, int)>, rest: Verdict)
    requires forall i | 0 <= i < |chunk| :: Judge(t, fetch(chunk[i].0), chunk[i].1).None?
    ensures AfterChunk(t, fetch, chunk, rest) == rest
  {
    if chunk != [] {
      ChunkUndecided(t, fetch, chunk[1..], rest);
    }
  }

  lemma {:induction false} ChunkDecided(t: Trace, fetch: string -> Fetched, chunk: seq<(string, int)>, i: nat,
        rest: Verdict)
    requires i < |chunk| && forall j | 0 <= j < i :: Judge(t, fetch(chunk[j].0), chunk[j].1).None?
    requires Judge(t, fetch(chunk[i].0), chunk[i].1).Some?
    ensures AfterChunk(t, fetch, chunk, rest) == Stop(Judge(t, fetch(chunk[i].0), chunk[i].1).value)
  {
    if i > 0 {
      ChunkDecided(t, fetch, chunk[1..], i - 1, rest);
    }
  }

  /** Row i is where a page that yields a source or an error is decided, and nothing before it was. */
  ghost predicate DecidedAt(t: Trace, fetch: string -> Fetched, rows: seq<HistoryRow>, i: nat, o: Outcome) {
    && i < |rows| && Classify(t, rows[i]).Candidate?
    && Judge(t, fetch(rows[i].signature), rows[i].blockTime) == Some(o)
    && forall j | 0 <= j < i :: Undecided(t, fetch, rows[j])
  }

  ghost predicate Undecided(t: Trace, fetch: string -> Fetched, row: HistoryRow) {
    match Classify(t, row)
    case Skip => true
    case Candidate(signature, blockTime) => Judge(t, fetch(signature), blockTime).None?
    case _ => false
  }

  /** Newest first: a page yields a source exactly when its first row that decides anything is a
      candidate whose transaction carries that source; an older transfer never outranks a newer one. */
  lemma {:induction false} NewestDecides(t: Trace, fetch: string -> Fetched, rows: seq<HistoryRow>, o: Outcome)
    requires o.reason != RowMissingSlotAndTime
    ensures SerialRows(t, fetch, rows) == Stop(o) <==> exists i: nat :: DecidedAt(t, fetch, rows, i, o)
  {
    if rows != [] {
      NewestDecides(t, fetch, rows[1..], o);
      if Undecided(t, fetch, rows[0]) {
        if i: nat :| DecidedAt(t, fetch, rows[1..], i, o) {
          forall j | 0 <= j < i + 1 ensures Undecided(t, fetch, rows[j]) {
            assert j > 0 ==> rows[j] == rows[1..][j - 1];
          }
          assert DecidedAt(t, fetch, rows, i + 1, o);
        }
        if i: nat :| DecidedAt(t, fetch, rows, i, o) {
          assert i > 0;
          forall j | 0 <= j < i - 1 ensures Undecided(t, fetch, rows[1..][j]) {
            assert rows[1..][j] == rows[j + 1];
          }
          assert DecidedAt(t, fetch, rows[1..], i - 1, o);
        }
      } else {
        assert forall i: nat :: DecidedAt(t, fetch, rows, i, o) ==> i == 0;
        if SerialRows(t, fetch, rows) == Stop(o) {
          assert DecidedAt(t, fetch, rows, 0, o);
        }
      }
    }
  }

  /** How far one hydration task has come. */
  datatype Phase = Arrived | Waiting | Reading | Done(answer: Fetched)

  function Rank(p: Phase): nat {
    match p
    case Arrived => 3
    case Waiting => 2
    case Reading => 1
    case Done(_) => 0
  }

  function Ranks(ps: seq<Phase>): nat {
    if ps == [] then 0 else Rank(ps[0]) + Ranks(ps[1..])
  }

  predicate AllDone(ps: seq<Phase>) {
    forall i | 0 <= i < |ps| :: ps[i].Done?
  }

  lemma {:induction false} RanksFall(ps: seq<Phase>, i: nat, next: Phase)
    requires i < |ps| && Rank(next) < Rank(ps[i])
    ensures Ranks(ps[i := next]) < Ranks(ps)
  {
    if i == 0 {
      assert ps[0 := next][1..] == ps[1..];
    } else {
      RanksFall(ps[1..], i - 1, next);
      assert ps[i := next][1..] == ps[1..][i - 1 := next];
    }
  }

  // ---- what the scan decides, row by row ----

  predicate PlacedBySlot(t: Trace, row: HistoryRow) {
    t.beforeSlot > 0 && row.slot > 0
  }

  /** The row lies before the purchase: by slot when both are known, else by time when that is known. */
  predicate IsBefore(t: Trace, row: HistoryRow) {
    if PlacedBySlot(t, row) then row.slot < t.beforeSlot
    else row.blockTime > 0 && row.blockTime * 1_000_000 < t.beforeAt
  }

  predicate IsUnplaceable(t: Trace, row: HistoryRow) {
    !PlacedBySlot(t, row) && row.blockTime <= 0
  }

  /** Before the purchase, and known to lie before the lookback window. */
  predicate IsOlder(t: Trace, row: HistoryRow) {
    IsBefore(t, row) && row.blockTime > 0 && row.blockTime * 1_000_000 < t.startAt
  }

  /** A successful, signed transaction before the purchase and not older than the window. */
  predicate Counts(t: Trace, row: HistoryRow) {
    IsBefore(t, row) && !IsOlder(t, row) && !row.failed && row.signature != ""
  }

  predicate Qualifies(t: Trace, x: Transfer) {
    x.lamports >= t.threshold
  }

  /** A transaction that counts, was read, and brings a qualifying transfer. */
  ghost predicate Funds(t: Trace, fetch: string -> Fetched, row: HistoryRow) {
    && Counts(t, row) && fetch(row.signature).Hydrated?
    && exists x | x in fetch(row.signature).tx.inbound :: Qualifies(t, x)
  }

  ghost predicate FailsToLoad(t: Trace, fetch: string -> Fetched, row: HistoryRow) {
    Counts(t, row) && fetch(row.signature).FetchFailed?
  }

  /** The row does not end the scan. */
  ghost predicate Passed(t: Trace, fetch: string -> Fetched, row: HistoryRow) {
    !IsUnplaceable(t, row) && !IsOlder(t, row) && !Funds(t, fetch, row) && !FailsToLoad(t, fetch, row)
  }

  /** The source names the first of the largest transfers, and the transaction's time, else the row's,
      else the purchase's. */
  ghost predicate Names(t: Trace, fetch: string -> Fetched, row: HistoryRow, source: FundingSource)
    requires Funds(t, fetch, row)
  {
    var tx := fetch(row.signature).tx;
    && (exists i :: FirstAt(tx.inbound, Transfer(source.source, source.lamports), i))
    && (forall x | x in tx.inbound :: x.lamports <= source.lamports) && source.lamports >= t.threshold
    && source.at == (if tx.blockTime > 0 then tx.blockTime * 1_000_000
                     else if tx.blockTime == 0 < row.blockTime then row.blockTime * 1_000_000 else t.beforeAt)
  }

  /** What the first row that is not passed makes of the trace. */
  ghost predicate Decides(t: Trace, fetch: string -> Fetched, row: HistoryRow, o: Outcome) {
    if IsUnplaceable(t, row) then o == Outcome(None, false, RowMissingSlotAndTime)
    else if IsOlder(t, row) then o == Outcome(None, true, LookbackBoundary)
    else if FailsToLoad(t, fetch, row) then o == Outcome(None, false, TransactionRpc(fetch(row.signature).error))
    else Funds(t, fetch, row) && o.source.Some? && o.complete && o.reason == LatestQualifyingSource
         && Names(t, fetch, row, o.source.value)
  }

  /** The rows that paging yields, and what is to be said when none of them decides. */
  function History(page: Option<string> -> PageReply, before: Option<string>, pages: nat)
    : (h: (seq<HistoryRow>, Outcome))
    ensures h.1.source.None?
    decreases pages
  {
    if pages == 0 then ([], Outcome(None, false, PageCap))
    else match page(before)
      case PageFailed(e) => ([], Outcome(None, false, HistoryRpc(e)))
      case Rows(rows) =>
        if rows == [] then ([], Outcome(None, true, HistoryExhausted))
        else if |rows| < FULL_PAGE then (rows, Outcome(None, true, ShortPage))
        else if rows[|rows| - 1].signature == "" then (rows, Outcome(None, false, CursorMissing))
        else
          var rest := History(page, Some(rows[|rows| - 1].signature), pages - 1);
          (rows + rest.0, rest.1)
  }

  lemma JudgeMeans(t: Trace, fetch: string -> Fetched, row: HistoryRow)
    requires Counts(t, row)
    ensures var judged := Judge(t, fetch(row.signature), row.blockTime);
      && (judged.None? <==> Passed(t, fetch, row)) && (judged.Some? ==> Decides(t, fetch, row, judged.value))
  {
    if fetch(row.signature).Hydrated? {
      LargestIsFirst(fetch(row.signature).tx.inbound, t.threshold);
    }
  }

  /** One page: its first row that is not passed decides, and otherwise nothing does. */
  lemma {:induction false} PageMeans(t: Trace, fetch: string -> Fetched, rows: seq<HistoryRow>, n: nat)
    requires n <= |rows| && forall j | 0 <= j < n :: Passed(t, fetch, rows[j])
    requires n < |rows| ==> !Passed(t, fetch, rows[n])
    ensures if n == |rows| then SerialRows(t, fetch, rows) == EndOfPage
            else match SerialRows(t, fetch, rows)
              case EndOfPage => false
              case Boundary => Decides(t, fetch, rows[n], Outcome(None, true, LookbackBoundary))
              case Stop(o) => Decides(t, fetch, rows[n], o)
  {
    if rows != [] {
      if Counts(t, rows[0]) { JudgeMeans(t, fetch, rows[0]); }
      if n > 0 {
        PageMeans(t, fetch, rows[1..], n - 1);
      }
    }
  }

  /** The first of these rows that is not passed, or their number. */
  lemma {:induction false} FirstNotPassed(t: Trace, fetch: string -> Fetched, rows: seq<HistoryRow>) returns (n: nat)
    ensures n <= |rows| && forall j | 0 <= j < n :: Passed(t, fetch, rows[j])
    ensures n < |rows| ==> !Passed(t, fetch, rows[n])
  {
    n := 0;
    if rows != [] && Passed(t, fetch, rows[0]) {
      n := FirstNotPassed(t, fetch, rows[1..]);
      n := n + 1;
    }
  }

  /** Row n is the newest that is not passed, and decides; or all are passed and the end of the history does. */
  ghost predicate Settles(t: Trace, fetch: string -> Fetched, h: (seq<HistoryRow>, Outcome), n: nat, o: Outcome) {
    && n <= |h.0| && (forall j | 0 <= j < n :: Passed(t, fetch, h.0[j]))
    && if n == |h.0| then o == h.1 else !Passed(t, fetch, h.0[n]) && Decides(t, fetch, h.0[n], o)
  }

  lemma SettlesLater(t: Trace, fetch: string -> Fetched, rows: seq<HistoryRow>, h: (seq<HistoryRow>, Outcome),
      n: nat, o: Outcome)
    requires (forall j | 0 <= j < |rows| :: Passed(t, fetch, rows[j])) && Settles(t, fetch, h, n, o)
    ensures Settles(t, fetch, (rows + h.0, h.1), |rows| + n, o)
  {
    var all := rows + h.0;
    forall j | 0 <= j < |rows| + n ensures Passed(t, fetch, all[j]) {
      assert all[j] == if j < |rows| then rows[j] else h.0[j - |rows|];
    }
    hide Passed, Decides;
  }

  /** The whole scan, in terms of the fields of the rows alone. */
  lemma {:induction false} ScanMeans(t: Trace, fetch: string -> Fetched, page: Option<string> -> PageReply,
      before: Option<string>, pages: nat) returns (n: nat)
    ensures Settles(t, fetch, History(page, before, pages), n, Serial(t, fetch, page, before, pages))
    decreases pages
  {
    hide Passed, Decides, SerialRows;
    n := 0;
    if pages > 0 && page(before).Rows? && page(before).rows != [] {
      var rows := page(before).rows;
      n := FirstNotPassed(t, fetch, rows);
      PageMeans(t, fetch, rows, n);
      var last := rows[|rows| - 1].signature;
      if n == |rows| >= FULL_PAGE && last != "" {
        var m := ScanMeans(t, fetch, page, Some(last), pages - 1);
        var o := Serial(t, fetch, page, Some(last), pages - 1);
        SettlesLater(t, fetch, rows, History(page, Some(last), pages - 1), m, o);
        n := n + m;
      }
    }
  }

  /** A source is found exactly when some row funds and no newer one fails to load, cannot be placed, or is
      older than the window; it names the newest that funds. */
  lemma SourceIsNewest(t: Trace, fetch: string -> Fetched, page: Option<string> -> PageReply) returns (n: nat)
    ensures var rows, o := History(page, None, t.maxPages).0, Serial(t, fetch, page, None, t.maxPages);
      && n <= |rows| && (forall j | 0 <= j < n :: !Funds(t, fetch, rows[j]) && !FailsToLoad(t, fetch, rows[j]))
      && (o.source.Some? <==> n < |rows| && Funds(t, fetch, rows[n]))
      && (o.source.Some? ==> o.complete && Names(t, fetch, rows[n], o.source.value))
      && (o.complete && o.source.None? && n < |rows| ==> IsOlder(t, rows[n]))
  {
    n := ScanMeans(t, fetch, page, None, t.maxPages);
  }

  /** The tracer with its bounded least-recently-used transaction cache. */
  class Tracer {
    var cache: map<string, Tx>
    var order: seq<string>

    /** The cache is bounded, its order lists its keys, and it holds only true answers. */
    ghost predicate Valid(fetch: string -> Fetched)
      reads this
    {
      Listed(fetch) && |order| <= CACHE_MAX
    }

    ghost predicate Listed(fetch: string -> Fetched)
      reads this
    {
      && (forall k :: k in cache <==> k in order) && NoRepeats(order)
      && (forall k :: k in cache ==> fetch(k) == Hydrated(cache[k]))
    }

    constructor ()
      ensures cache == map[] && order == []
    {
      cache, order := map[], [];
    }

    static predicate NoRepeats(s: seq<string>) {
      forall i, j | 0 <= i < j < |s| :: s[i] != s[j]
    }

    /** popitem(last=False) until the bound holds. */
    static function Bounded(s: seq<string>): seq<string> {
      if |s| > CACHE_MAX then s[|s| - CACHE_MAX..] else s
    }

    static function Without(s: seq<string>, k: string): (r: seq<string>)
      ensures forall x :: x in r <==> x in s && x != k
      ensures |r| <= |s| && (k in s ==> |r| < |s|)
    {
      if s == [] then []
      else if s[0] == k then Without(s[1..], k)
      else [s[0]] + Without(s[1..], k)
    }

    static lemma WithoutOldest(s: seq<string>)
      requires NoRepeats(s) && s != []
      ensures NoRepeats(s[1..]) && forall k :: k in s[1..] <==> k in s && k != s[0]
    {
      assert s == [s[0]] + s[1..];
      forall i | 0 <= i < |s[1..]| ensures s[1..][i] != s[0] {
        assert s[1..][i] == s[i + 1];
      }
    }

    method Evict(fetch: string -> Fetched)
      requires Listed(fetch)
      modifies this
      ensures Valid(fetch) && order == Bounded(old(order))
    {
      ghost var full := order;
      while |order| > CACHE_MAX
        invariant Listed(fetch) && |order| <= |full| && order == full[|full| - |order|..]
        invariant |full| > CACHE_MAX ==> |order| >= CACHE_MAX
        invariant |full| <= CACHE_MAX ==> order == full
        decreases |order|
      {
        WithoutOldest(order);
        cache, order := cache - {order[0]}, order[1..];
      }
    }

    static lemma {:induction false} WithoutKeepsDistinct(s: seq<string>, k: string)
      requires NoRepeats(s)
      ensures NoRepeats(Without(s, k) + [k])
    {
      if s != [] {
        var rest := Without(s[1..], k);
        WithoutKeepsDistinct(s[1..], k);
        forall i | 0 <= i < |rest| ensures rest[i] != s[0] {
          assert rest[i] in rest;
        }
        var all := Without(s, k) + [k];
        assert s[0] != k ==> all == [s[0]] + (rest + [k]);
      }
    }

    /** A look at the cache: a hit is the provider's answer and becomes the most recent. */
    method Lookup(fetch: string -> Fetched, signature: string) returns (hit: Option<Tx>)
      requires Valid(fetch)
      modifies this
      ensures Valid(fetch) && cache == old(cache)
      ensures hit.Some? <==> signature in old(order)
      ensures hit.Some? ==>
        fetch(signature) == Hydrated(hit.value) && order == Without(old(order), signature) + [signature]
      ensures hit.None? ==> order == old(order)
    {
      WithoutKeepsDistinct(order, signature);
      hit := None;
      if signature in cache {
        order := Without(order, signature) + [signature];
        hit := Some(cache[signature]);
      }
    }

    /** A transaction that has arrived becomes the most recent, whether or not another task brought it
        first, and only the least recent is given up. */
    method Insert(fetch: string -> Fetched, signature: string, tx: Tx)
      requires Valid(fetch) && fetch(signature) == Hydrated(tx)
      modifies this
      ensures Valid(fetch) && order == Bounded(Without(old(order), signature) + [signature])
    {
      WithoutKeepsDistinct(order, signature);
      cache := cache[signature := tx];
      order := Without(order, signature) + [signature];
      Evict(fetch);
    }

    /** One step of one hydration task. It looks at the cache, waits for the gate, looks again, and asks the
        provider; between any two of these other tasks, of this trace or another, may have run. */
    method Advance(fetch: string -> Fetched, signature: string, phase: Phase) returns (next: Phase)
      requires Valid(fetch) && !phase.Done?
      modifies this
      ensures Valid(fetch) && Rank(next) < Rank(phase)
      ensures next.Done? ==> next.answer == fetch(signature)
    {
      if phase.Arrived? {
        var hit := Lookup(fetch, signature);
        next := if hit.Some? then Done(Hydrated(hit.value)) else Waiting;
      } else if phase.Waiting? {
        var hit := Lookup(fetch, signature);
        next := if hit.Some? then Done(Hydrated(hit.value)) else Reading;
      } else {
        var answer := fetch(signature);
        if answer.Hydrated? {
          Insert(fetch, signature, answer.tx);
        }
        next := Done(answer);
      }
    }

    /** Hydrate the whole chunk, then consume the results in history order. The tasks of the chunk interleave
        step by step in any order, with each other and with the insertions of other traces. */
    method ResolveChunk(t: Trace, fetch: string -> Fetched, chunk: seq<(string, int)>) returns (r: Option<Outcome>)
      requires Valid(fetch)
      modifies this
      ensures Valid(fetch)
      ensures forall rest :: AfterChunk(t, fetch, chunk, rest) == if r.Some? then Stop(r.value) else rest
    {
      var phases := Hydrate(fetch, chunk);
      for i := 0 to |chunk|
        invariant forall j | 0 <= j < i :: Judge(t, fetch(chunk[j].0), chunk[j].1).None?
      {
        r := Judge(t, phases[i].answer, chunk[i].1);
        if r.Some? {
          forall rest { ChunkDecided(t, fetch, chunk, i, rest); }
          return;
        }
      }
      forall rest { ChunkUndecided(t, fetch, chunk, rest); }
      r := None;
    }

    method Hydrate(fetch: string -> Fetched, chunk: seq<(string, int)>) returns (phases: seq<Phase>)
      requires Valid(fetch)
      modifies this
      ensures Valid(fetch) && |phases| == |chunk| && forall i | 0 <= i < |chunk| :: phases[i] == Done(fetch(chunk[i].0))
    {
      phases := seq(|chunk|, i => Arrived);
      var others: seq<string> := *; // what other traces insert meanwhile
      while !AllDone(phases)
        invariant Valid(fetch) && |phases| == |chunk|
        invariant forall i | 0 <= i < |chunk| && phases[i].Done? :: phases[i].answer == fetch(chunk[i].0)
        decreases |others|, Ranks(phases)
      {
        var elsewhere: bool := *;
        if others != [] && elsewhere {
          var answer := fetch(others[0]);
          if answer.Hydrated? {
            Insert(fetch, others[0], answer.tx);
          }
          others := others[1..];
        } else {
          var i :| 0 <= i < |phases| && !phases[i].Done?;
          var next := Advance(fetch, chunk[i].0, phases[i]);
          RanksFall(phases, i, next);
          phases := phases[i := next];
        }
      }
    }

    /** One page: candidates gather in a chunk that is flushed when full, before any row that stops
        the scan, and at the end of the page. */
    method ScanPage(t: Trace, fetch: string -> Fetched, rows: seq<HistoryRow>) returns (v: Verdict)
      requires Valid(fetch)
      modifies this
      ensures Valid(fetch) && v == SerialRows(t, fetch, rows)
    {
      var chunk: seq<(string, int)> := [];
      for i := 0 to |rows|
        invariant Valid(fetch) && |chunk| < CHUNK_SIZE
        invariant SerialRows(t, fetch, rows) == AfterChunk(t, fetch, chunk, SerialRows(t, fetch, rows[i..]))
      {
        ghost var rest := SerialRows(t, fetch, rows[i + 1..]);
        assert rows[i..][1..] == rows[i + 1..];
        match Classify(t, rows[i])
        case Skip =>
        case NoTime =>
          var decided := ResolveChunk(t, fetch, chunk);
          return if decided.Some? then Stop(decided.value) else Stop(Outcome(None, false, RowMissingSlotAndTime));
        case TooOld =>
          var decided := ResolveChunk(t, fetch, chunk);
          return if decided.Some? then Stop(decided.value) else Boundary;
        case Candidate(signature, blockTime) =>
          var c := (signature, blockTime);
          ChunkGrows(t, fetch, chunk, c, rest);
          assert AfterChunk(t, fetch, [c], rest) == SerialRows(t, fetch, rows[i..]);
          chunk := chunk + [c];
          if |chunk| >= CHUNK_SIZE {
            var decided := ResolveChunk(t, fetch, chunk);
            if decided.Some? {
              return Stop(decided.value);
            }
            chunk := [];
          }
      }
      var decided := ResolveChunk(t, fetch, chunk);
      return if decided.Some? then Stop(decided.value) else EndOfPage;
    }

    /** The chunk-parallel scan returns exactly the serial scan's source, completeness and reason. */
    method FundingSourceResult(t: Trace, fetch: string -> Fetched, page: Option<string> -> PageReply)
      returns (o: Outcome)
      requires Valid(fetch)
      modifies this
      ensures Valid(fetch) && o == Serial(t, fetch, page, None, t.maxPages)
      ensures exists n: nat :: Settles(t, fetch, History(page, None, t.maxPages), n, o)
    {
      ghost var n := ScanMeans(t, fetch, page, None, t.maxPages);
      assert Settles(t, fetch, History(page, None, t.maxPages), n, Serial(t, fetch, page, None, t.maxPages));
      hide Settles;
      var before: Option<string> := None;
      for pageIndex := 0 to t.maxPages
        invariant Valid(fetch)
        invariant Serial(t, fetch, page, None, t.maxPages) == Serial(t, fetch, page, before, t.maxPages - pageIndex)
      {
        var reply := page(before);
        if reply.PageFailed? {
          return Outcome(None, false, HistoryRpc(reply.error));
        }
        var rows := reply.rows;
        if rows == [] {
          return Outcome(None, true, HistoryExhausted);
        }
        var v := ScanPage(t, fetch, rows);
        if v.Stop? {
          return v.outcome;
        }
        if v.Boundary? {
          return Outcome(None, true, LookbackBoundary);
        }
        if |rows| < FULL_PAGE {
          return Outcome(None, true, ShortPage);
        }
        before := Some(rows[|rows| - 1].signature);
        if before.value == "" {
          return Outcome(None, false, CursorMissing);
        }
      }
      return Outcome(None, false, PageCap);
    }
  }
}
