/** The bounded delta: which journal entries a request covers, how they are coalesced, which row
    values they are resolved to, and why replaying them brings a replica up to date. */
module Deltas {
  import opened Wrappers
  import opened Tables
  import opened Journal

  /** A Python dict: insertion order and current values. */
  datatype Dict = Dict(order: seq<Key>, ops: map<Key, Op>)

  datatype Delta = Delta(start: nat, to: nat, changes: seq<Write<Content>>, caughtUp: bool)

  datatype Reply = Served(delta: Delta) | BootstrapRequired(reason: Reason)
  datatype Reason = SchemaChanged | IdentityMismatch | WatermarkAhead | DeltaBytesExceeded

  /** WHERE id > lo AND id <= hi ORDER BY id. */
  function Window(es: seq<Entry>, lo: nat, hi: nat): (r: seq<Entry>)
    ensures forall e :: e in r <==> e in es && lo < e.id <= hi
  {
    if es == [] then []
    else (if lo < es[0].id <= hi then [es[0]] else []) + Window(es[1..], lo, hi)
  }

  function SetItem(d: Dict, k: Key, op: Op): Dict {
    Dict(if k in d.ops then d.order else d.order + [k], d.ops[k := op])
  }

  function Coalesce(es: seq<Entry>): (d: Dict)
    ensures forall k :: k in d.order <==> k in d.ops
  {
    if es == [] then Dict([], map[])
    else var last := es[|es| - 1]; SetItem(Coalesce(es[..|es| - 1]), last.key, last.op)
  }

  /** The statement for one coalesced change, read from the pinned rows: a key whose row has
      disappeared is deleted even if its last entry is an upsert. */
  function Resolve(rows: map<Key, Row>, k: Key, op: Op): Write<Content> {
    Write(k, if op == Delete || k !in rows then None else Some(rows[k].content))
  }

  function ResolveAll(rows: map<Key, Row>, d: Dict): seq<Write<Content>>
    requires forall k :: k in d.order ==> k in d.ops
  {
    seq(|d.order|, i requires 0 <= i < |d.order| => Resolve(rows, d.order[i], d.ops[d.order[i]]))
  }

  function Batch(s: Source, start: nat, maxRows: nat): seq<Entry> {
    var pending := Window(s.journal, start, s.head);
    if |pending| > maxRows then pending[..maxRows] else pending
  }

  /** The delta for watermark `start` as of source state s. */
  function DeltaFor(s: Source, start: nat, maxRows: nat): Delta
    requires maxRows > 0
  {
    var batch := Batch(s, start, maxRows);
    var to := if |Window(s.journal, start, s.head)| > maxRows then batch[|batch| - 1].id else s.head;
    Delta(start, to, ResolveAll(s.rows, Coalesce(batch)), to == s.head)
  }

  function TotalBytes<V>(size: Write<V> -> nat, ws: seq<Write<V>>): nat {
    if ws == [] then 0 else TotalBytes(size, ws[..|ws| - 1]) + size(ws[|ws| - 1])
  }

  /** The whole request, on a source whose tracking is already ensured. */
  function Answer(s: Source, start: nat, epoch: nat, maxRows: nat, maxBytes: nat,
      size: Write<Content> -> nat): Reply
    requires maxRows > 0
  {
    if !s.configured then BootstrapRequired(SchemaChanged)
    else if epoch != s.epoch then BootstrapRequired(IdentityMismatch)
    else if start > s.head then BootstrapRequired(WatermarkAhead)
    else if TotalBytes(size, DeltaFor(s, start, maxRows).changes) > maxBytes then BootstrapRequired(DeltaBytesExceeded)
    else Served(DeltaFor(s, start, maxRows))
  }

  /** What a copy R of S may look like for a client at watermark w: every difference is on a key with
      a journal entry past w, except for the `blind` keys, which no scan of this bootstrap can see. */
  ghost predicate Good<V>(R: map<Key, V>, S: map<Key, V>, es: seq<Entry>, w: nat, blind: set<Key>) {
    && (forall k :: k !in blind ==> Agree(R, S, k) || Dirty(es, k, w))
    && (forall k :: k in blind ==> k !in R && k in S && !Dirty(es, k, w))
  }

  /** The keys journaled past a watermark. */
  function Touched(es: seq<Entry>, w: nat): set<Key> {
    set e | e in es && e.id > w :: e.key
  }

  lemma TouchedDirty(es: seq<Entry>, w: nat)
    ensures forall k :: k in Touched(es, w) <==> Dirty(es, k, w)
  {
    forall k | Dirty(es, k, w) ensures k in Touched(es, w) {
      var e :| e in es && e.key == k && e.id > w;
    }
  }

  /** Whatever the source does later in the epoch, the same copy stays good. */
  lemma GoodFollows<V>(R: map<Key, V>, S: map<Key, V>, S': map<Key, V>, s: Source, s': Source, w: nat, blind: set<Key>)
    requires Follows(s, s', w) && w <= s.head
    requires forall k :: Agree(s.rows, s'.rows, k) ==> Agree(S, S', k)
    requires Good(R, S, s.journal, w, blind)
    ensures Good(R, S', s'.journal, w, blind - Touched(s'.journal, s.head))
  {
    TouchedDirty(s'.journal, s.head);
    var blind' := blind - Touched(s'.journal, s.head);
    forall k | k !in blind'
      ensures Agree(R, S', k) || Dirty(s'.journal, k, w)
    {
      if Dirty(s'.journal, k, s.head) {
        var e :| e in s'.journal && e.key == k && e.id > s.head;
        assert e.id > w;
      } else if Dirty(s.journal, k, w) {
        var e :| e in s.journal && e.key == k && e.id > w;
        assert e in s'.journal;
      } else {
        assert Agree(s.rows, s'.rows, k);
      }
    }
    forall k | k in blind'
      ensures k !in R && k in S' && !Dirty(s'.journal, k, w)
    {
      assert !Dirty(s'.journal, k, s.head);
      assert Agree(s.rows, s'.rows, k);
      assert forall e :: e in s'.journal && e.key == k ==> e in s.journal;
    }
  }

  /** The operation of a key's last entry. */
  function LastOp(es: seq<Entry>, k: Key): Option<Op> {
    if es == [] then None
    else if es[|es| - 1].key == k then Some(es[|es| - 1].op)
    else LastOp(es[..|es| - 1], k)
  }

  /** Coalescing keeps each key of the batch once, with the operation of its last entry. */
  lemma {:induction false} CoalesceIsLast(es: seq<Entry>)
    ensures var d := Coalesce(es);
      && (forall k :: k in d.ops <==> LastOp(es, k).Some?)
      && (forall k | k in d.ops :: d.ops[k] == LastOp(es, k).value)
      && (forall a, b | 0 <= a < b < |d.order| :: d.order[a] != d.order[b])
  {
    if es != [] {
      CoalesceIsLast(es[..|es| - 1]);
    }
  }

  lemma {:induction false} LastOpEntry(es: seq<Entry>, k: Key)
    requires Ascending(es)
    ensures LastOp(es, k).None? <==> forall e :: e in es ==> e.key != k
    ensures LastOp(es, k).Some? ==>
      exists e :: e in es && e.key == k && e.op == LastOp(es, k).value && !Dirty(es, k, e.id)
  {
    if es != [] {
      var n := |es| - 1;
      LastOpEntry(es[..n], k);
      assert es == es[..n] + [es[n]];
      if es[n].key == k {
        assert !Dirty(es, k, es[n].id);
      } else if e :| e in es[..n] && e.key == k && e.op == LastOp(es[..n], k).value && !Dirty(es[..n], k, e.id) {
        assert !Dirty(es, k, e.id);
      }
    }
  }

  lemma {:induction false} WindowAscending(es: seq<Entry>, lo: nat, hi: nat)
    requires Ascending(es)
    ensures Ascending(Window(es, lo, hi))
  {
    if es != [] {
      WindowAscending(es[1..], lo, hi);
      forall e | e in Window(es[1..], lo, hi) ensures es[0].id < e.id {
        assert e in es[1..];
      }
    }
  }

  lemma TakeAscending(es: seq<Entry>, n: nat)
    requires Ascending(es) && 0 < n < |es|
    ensures Ascending(es[..n]) && es[n - 1].id < es[n].id
    ensures forall e :: e in es[..n] <==> e in es && e.id <= es[n - 1].id
  {
    forall e | e in es && e.id <= es[n - 1].id ensures e in es[..n] {
      var i :| 0 <= i < |es| && es[i] == e;
      assert es[..n][i] == e;
    }
    forall e | e in es[..n] ensures e in es && e.id <= es[n - 1].id {
      var i :| 0 <= i < n && es[..n][i] == e;
      assert es[i] == e;
    }
  }

  /** `batch` is exactly the journal between the two watermarks. */
  ghost predicate Covers(s: Source, start: nat, to: nat, batch: seq<Entry>) {
    && start <= to <= s.head && Ascending(batch)
    && forall e :: e in batch <==> e in s.journal && start < e.id <= to
  }

  /** The limited read skips nothing: its watermark `to` stops exactly where its batch does. */
  lemma BatchCovers(s: Source, start: nat, maxRows: nat)
    requires Valid(s) && start <= s.head && maxRows > 0
    ensures Covers(s, start, DeltaFor(s, start, maxRows).to, Batch(s, start, maxRows))
    ensures !DeltaFor(s, start, maxRows).caughtUp ==>
              |Batch(s, start, maxRows)| == maxRows && DeltaFor(s, start, maxRows).to > start
  {
    var pending := Window(s.journal, start, s.head);
    WindowAscending(s.journal, start, s.head);
    if |pending| > maxRows {
      TakeAscending(pending, maxRows);
      assert pending[maxRows - 1] in pending && pending[maxRows] in pending;
    }
  }

  lemma ChangeKeys(rows: map<Key, Row>, batch: seq<Entry>, k: Key)
    requires Ascending(batch)
    ensures Writes(ResolveAll(rows, Coalesce(batch)), k) <==> exists e :: e in batch && e.key == k
  {
    var d, ws := Coalesce(batch), ResolveAll(rows, Coalesce(batch));
    CoalesceIsLast(batch);
    LastOpEntry(batch, k);
    if k in d.order {
      var i :| 0 <= i < |d.order| && d.order[i] == k;
      assert ws[i].key == k;
    }
    if Writes(ws, k) {
      var i :| 0 <= i < |ws| && ws[i].key == k;
      assert d.order[i] == k;
    }
  }

  /** A key the batch deletes although the pinned read still has it is journaled again past `to`. */
  lemma StaleDeleteIsDirty(s: Source, start: nat, to: nat, batch: seq<Entry>, k: Key)
    requires Valid(s) && s.configured && Covers(s, start, to, batch)
    requires StaleDelete(ResolveAll(s.rows, Coalesce(batch)), Contents(s.rows), k)
    ensures Dirty(s.journal, k, to)
  {
    var d := Coalesce(batch);
    CoalesceIsLast(batch);
    LastOpEntry(batch, k);
    assert k in d.order && d.ops[k] == Delete;
    var e :| e in batch && e.key == k && e.op == Delete && !Dirty(batch, k, e.id);
    assert Dirty(s.journal, k, e.id);
    var later :| later in s.journal && later.key == k && later.id > e.id;
    assert later !in batch;
  }

  /** Replaying a batch moves a good copy from watermark `start` to watermark `to`. */
  lemma BatchKeepsGood(s: Source, start: nat, to: nat, batch: seq<Entry>, R: map<Key, Content>, blind: set<Key>)
    requires Valid(s) && s.configured && Covers(s, start, to, batch)
    requires Good(R, Contents(s.rows), s.journal, start, blind)
    ensures Good(Replay(ReplicaClash, R, ResolveAll(s.rows, Coalesce(batch))), Contents(s.rows), s.journal, to, blind)
  {
    var S, ws := Contents(s.rows), ResolveAll(s.rows, Coalesce(batch));
    var R' := Replay(ReplicaClash, R, ws);
    ReplayReachesTarget(ReplicaClash, R, ws, S);
    forall k | k !in blind ensures Agree(R', S, k) || Dirty(s.journal, k, to) {
      ChangeKeys(s.rows, batch, k);
      if StaleDelete(ws, S, k) {
        StaleDeleteIsDirty(s, start, to, batch, k);
      } else if !Agree(R, S, k) {
        var e :| e in s.journal && e.key == k && e.id > start;
        assert e in batch || e.id > to;
      }
    }
    forall k | k in blind ensures k !in R' && k in S && !Dirty(s.journal, k, to) {
      ChangeKeys(s.rows, batch, k);
      assert forall e :: e in s.journal && e.key == k ==> e.id <= start;
    }
  }

  /** The replica while a batch is replayed, before its i-th write. */
  ghost function Midway(s: Source, batch: seq<Entry>, R: map<Key, Content>, i: nat): map<Key, Content>
    requires i <= |ResolveAll(s.rows, Coalesce(batch))|
  {
    Replay(ReplicaClash, R, ResolveAll(s.rows, Coalesce(batch))[..i])
  }

  /** In the middle of a batch every key agrees with the source, or its own entry is still to come. */
  lemma AgreesOrAwaited(s: Source, start: nat, to: nat, batch: seq<Entry>, R: map<Key, Content>, blind: set<Key>,
        i: nat, k: Key)
    requires Valid(s) && s.configured && Covers(s, start, to, batch)
    requires Good(R, Contents(s.rows), s.journal, start, blind)
    requires i < |ResolveAll(s.rows, Coalesce(batch))| && k in Midway(s, batch, R, i)
    requires ResolveAll(s.rows, Coalesce(batch))[i].key != k
    ensures || Agree(Midway(s, batch, R, i), Contents(s.rows), k)
            || Writes(ResolveAll(s.rows, Coalesce(batch))[i + 1..], k) || Dirty(s.journal, k, to)
  {
    var S, ws := Contents(s.rows), ResolveAll(s.rows, Coalesce(batch));
    ChangeKeys(s.rows, batch, k);
    if StaleDelete(ws, S, k) {
      StaleDeleteIsDirty(s, start, to, batch, k);
    } else if !Dirty(s.journal, k, to) {
      if !Writes(ws, k) {
        MidwayKeeps(ReplicaClash, R, ws, S, i, k);
        assert Agree(R, S, k) || Dirty(s.journal, k, start);
        if !Agree(R, S, k) { UnwrittenIsDirty(s, start, to, batch, R, blind, k); }
      }
      MidwayAgrees(ReplicaClash, R, ws, S, i, k);
    }
  }

  /** A key of a good replica that is wrong has an entry in the batch or after it. */
  lemma UnwrittenIsDirty(s: Source, start: nat, to: nat, batch: seq<Entry>, R: map<Key, Content>, blind: set<Key>,
        k: Key)
    requires Covers(s, start, to, batch) && Good(R, Contents(s.rows), s.journal, start, blind)
    requires k in R && !Agree(R, Contents(s.rows), k)
    ensures (exists e :: e in batch && e.key == k) || Dirty(s.journal, k, to)
  {
    var e :| e in s.journal && e.key == k && e.id > start;
    assert e in batch || e.id > to;
  }

  /** No up-to-date row is ever lost for good: a row displaced by a UNIQUE conflict in the middle of a
      batch still has its own entry coming, later in this batch or in a later one. */
  lemma DisplacedRowIsAwaited(s: Source, start: nat, to: nat, batch: seq<Entry>, R: map<Key, Content>,
        blind: set<Key>, i: nat, k: Key)
    requires Valid(s) && s.configured && Covers(s, start, to, batch)
    requires Good(R, Contents(s.rows), s.journal, start, blind)
    requires i < |ResolveAll(s.rows, Coalesce(batch))| && ResolveAll(s.rows, Coalesce(batch))[i].key != k
    requires var w := ResolveAll(s.rows, Coalesce(batch))[i];
      k in Midway(s, batch, R, i) && k !in Perform(ReplicaClash, Midway(s, batch, R, i), w)
    ensures Writes(ResolveAll(s.rows, Coalesce(batch))[i + 1..], k) || Dirty(s.journal, k, to)
  {
    var S, w, mid := Contents(s.rows), ResolveAll(s.rows, Coalesce(batch))[i], Midway(s, batch, R, i);
    AgreesOrAwaited(s, start, to, batch, R, blind, i, k);
    assert w.value.Some? && w.key in S && S[w.key] == w.value.value && ReplicaClash(k, mid[k], w.key, w.value.value);
    assert k in S ==> !ReplicaClash(k, S[k], w.key, S[w.key]);
  }

  /** A delta replayed once more, because the state file was lost with a crash, changes nothing. */
  lemma DeltaIsIdempotent(s: Source, start: nat, maxRows: nat, R: map<Key, Content>)
    requires Valid(s) && maxRows > 0
    ensures var ws := DeltaFor(s, start, maxRows).changes;
      Replay(ReplicaClash, Replay(ReplicaClash, R, ws), ws) == Replay(ReplicaClash, R, ws)
  {
    CoalesceIsLast(Batch(s, start, maxRows));
    ReplayIsIdempotent(ReplicaClash, R, DeltaFor(s, start, maxRows).changes, Contents(s.rows));
  }

  lemma NothingPending<V>(R: map<Key, V>, S: map<Key, V>, es: seq<Entry>, w: nat, blind: set<Key>)
    requires Good(R, S, es, w, blind) && forall e :: e in es ==> e.id <= w
    ensures R == S - blind
  {
    assert forall k :: !Dirty(es, k, w);
    assert forall k :: k !in blind ==> Agree(R, S, k);
    assert forall k :: k in R <==> k in S - blind;
  }

  /** The heart of convergence. Row values are read later than the entries and each key is written
      once, in coalesced order, under UNIQUE constraints that may displace other rows; still a good
      replica stays good, and a caught-up delta leaves it equal to the source as read, apart from
      the blind keys. */
  lemma DeltaConverges(s: Source, start: nat, maxRows: nat, R: map<Key, Content>, blind: set<Key>)
    requires Valid(s) && s.configured && start <= s.head && maxRows > 0
    requires Good(R, Contents(s.rows), s.journal, start, blind)
    ensures var d := DeltaFor(s, start, maxRows);
      var R' := Replay(ReplicaClash, R, d.changes);
      && start <= d.to <= s.head
      && Good(R', Contents(s.rows), s.journal, d.to, blind)
      && (d.caughtUp ==> R' == Contents(s.rows) - blind)
  {
    var d, S := DeltaFor(s, start, maxRows), Contents(s.rows);
    var R' := Replay(ReplicaClash, R, d.changes);
    BatchCovers(s, start, maxRows);
    BatchKeepsGood(s, start, d.to, Batch(s, start, maxRows), R, blind);
    if d.caughtUp {
      NothingPending(R', S, s.journal, d.to, blind);
    }
  }

  /** Work is bounded: a batch that does not catch up retires exactly maxRows pending entries. */
  lemma BatchProgress(s: Source, start: nat, maxRows: nat)
    requires Valid(s) && start <= s.head && maxRows > 0
    requires !DeltaFor(s, start, maxRows).caughtUp
    ensures |Window(s.journal, DeltaFor(s, start, maxRows).to, s.head)| ==
            |Window(s.journal, start, s.head)| - maxRows
  {
    WindowDrop(s.journal, start, s.head, maxRows);
  }

  lemma WindowDrop(es: seq<Entry>, lo: nat, hi: nat, n: nat)
    requires Ascending(es) && 0 < n <= |Window(es, lo, hi)|
    ensures Window(es, Window(es, lo, hi)[n - 1].id, hi) == Window(es, lo, hi)[n..]
  {
    var w := Window(es, lo, hi);
    assert w[n - 1] in w;
    WindowAscending(es, lo, hi);
    WindowTwice(es, lo, w[n - 1].id, hi);
    forall i | 0 <= i < |w| ensures w[i].id <= hi { assert w[i] in w; }
    DropAscending(w, hi, n);
  }

  /** Narrowing a window is the same as reading the narrower one. */
  lemma {:induction false} WindowTwice(es: seq<Entry>, lo: nat, mid: nat, hi: nat)
    requires lo <= mid
    ensures Window(es, mid, hi) == Window(Window(es, lo, hi), mid, hi)
  {
    if es != [] {
      var t := Window(es[1..], lo, hi);
      WindowTwice(es[1..], lo, mid, hi);
      assert lo < es[0].id <= hi ==> ([es[0]] + t)[1..] == t;
      assert [] + t == t;
    }
  }

  lemma {:induction false} DropAscending(w: seq<Entry>, hi: nat, n: nat)
    requires Ascending(w) && 0 < n <= |w| && forall i | 0 <= i < |w| :: w[i].id <= hi
    ensures Window(w, w[n - 1].id, hi) == w[n..]
  {
    if n == 1 {
      WindowAll(w[1..], w[0].id, hi);
    } else {
      DropAscending(w[1..], hi, n - 1);
      assert w[1..][n - 1..] == w[n..];
    }
  }

  lemma {:induction false} WindowAll(w: seq<Entry>, mid: nat, hi: nat)
    requires forall i | 0 <= i < |w| :: mid < w[i].id <= hi
    ensures Window(w, mid, hi) == w
  {
    if w != [] {
      WindowAll(w[1..], mid, hi);
    }
  }
}
