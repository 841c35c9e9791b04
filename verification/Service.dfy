/** The authoritative service: tracking, pruning, and the request handler for one bounded delta. */
module Service {
  import opened Tables
  import opened Journal
  import opened Deltas

  /** Bytes of the first n writes never exceed the bytes of them all. */
  lemma {:induction false} PrefixBytes<V>(size: Tables.Write<V> -> nat, ws: seq<Tables.Write<V>>, n: nat)
    requires n <= |ws|
    ensures TotalBytes(size, ws[..n]) <= TotalBytes(size, ws)
  {
    if n == |ws| {
      assert ws[..n] == ws;
    } else {
      assert ws[..|ws| - 1][..n] == ws[..n];
      PrefixBytes(size, ws[..|ws| - 1], n);
    }
  }

  lemma BytesAppend<V>(size: Tables.Write<V> -> nat, ws: seq<Tables.Write<V>>, w: Tables.Write<V>)
    ensures TotalBytes(size, ws + [w]) == TotalBytes(size, ws) + size(w)
  {
    assert (ws + [w])[..|ws|] == ws;
  }

  /** The first loop of a delta: a dict of the last operation per key. */
  method CoalesceBatch(batch: seq<Entry>) returns (coalesced: Dict)
    ensures coalesced == Coalesce(batch)
  {
    coalesced := Dict([], map[]);
    for i := 0 to |batch|
      invariant coalesced == Coalesce(batch[..i])
    {
      coalesced := SetItem(coalesced, batch[i].key, batch[i].op);
      assert batch[..i + 1][..i] == batch[..i];
    }
    assert batch[..|batch|] == batch;
  }

  /** The second loop: one statement per key, abandoned as soon as the byte bound is passed. */
  method Materialize(rows: map<Key, Row>, coalesced: Dict, maxBytes: nat, size: Tables.Write<Content> -> nat)
    returns (changes: seq<Tables.Write<Content>>, exceeded: bool)
    requires forall k :: k in coalesced.order ==> k in coalesced.ops
    ensures exceeded <==> TotalBytes(size, ResolveAll(rows, coalesced)) > maxBytes
    ensures !exceeded ==> changes == ResolveAll(rows, coalesced)
  {
    ghost var all := ResolveAll(rows, coalesced);
    changes := [];
    var payloadBytes := 0;
    for i := 0 to |coalesced.order|
      invariant changes == all[..i] && payloadBytes == TotalBytes(size, changes) <= maxBytes
    {
      var key := coalesced.order[i];
      var change := Resolve(rows, key, coalesced.ops[key]);
      assert all[..i + 1] == changes + [change];
      BytesAppend(size, changes, change);
      payloadBytes := payloadBytes + size(change);
      if payloadBytes > maxBytes {
        PrefixBytes(size, all, i + 1);
        return changes, true;
      }
      changes := changes + [change];
    }
    assert all[..|all|] == all;
    exceeded := false;
  }

  /** The pinned read transaction of a delta request. */
  method ReadDelta(s: Source, start: nat, maxRows: nat, maxBytes: nat, size: Tables.Write<Content> -> nat)
    returns (delta: Delta, exceeded: bool)
    requires maxRows > 0
    ensures exceeded <==> TotalBytes(size, DeltaFor(s, start, maxRows).changes) > maxBytes
    ensures !exceeded ==> delta == DeltaFor(s, start, maxRows)
  {
    var pending := Window(s.journal, start, s.head);
    var moreRows := |pending| > maxRows;
    var batch := if moreRows then pending[..maxRows] else pending;
    var to := if moreRows then batch[|batch| - 1].id else s.head;
    var coalesced := CoalesceBatch(batch);
    var changes: seq<Tables.Write<Content>>;
    changes, exceeded := Materialize(s.rows, coalesced, maxBytes, size);
    delta := Delta(start, to, changes, to == s.head);
  }

  class CanonicalStore {
    var withoutRowid: seq<bool>
    var rows: map<Key, Row>
    var journal: seq<Entry>
    var head: nat
    var epoch: nat
    var configured: bool

    constructor (s: Source)
      ensures View() == s
    {
      withoutRowid, rows, journal, head, epoch, configured :=
        s.withoutRowid, s.rows, s.journal, s.head, s.epoch, s.configured;
    }

    function View(): Source
      reads this
    {
      Source(withoutRowid, rows, journal, head, epoch, configured)
    }

    /** _ensure_tracking_locked. */
    method Track() returns (reconfigured: bool)
      modifies this
      ensures View() == EnsureTracking(old(View())) && reconfigured == !old(configured)
    {
      reconfigured := !configured;
      if reconfigured {
        journal := [];
        epoch := epoch + 1;
        configured := true;
      }
    }

    /** Best-effort cleanup: under lock contention nothing happens. */
    method PruneAcknowledged(w: nat, busy: bool) returns (done: bool)
      modifies this
      ensures done == !busy && View() == if busy then old(View()) else Prune(old(View()), w)
    {
      if busy {
        return false;
      }
      journal := Above(journal, w);
      return true;
    }

    /** One delta request: coalesce the limited window, resolve every key against the pinned rows
        under a byte bound, and only then prune what the request has acknowledged. */
    method DeltaPayload(start: nat, clientEpoch: nat, maxRows: nat, maxBytes: nat,
        size: Tables.Write<Content> -> nat, busy: bool) returns (r: Reply)
      requires maxRows > 0
      modifies this
      ensures r == Answer(old(View()), start, clientEpoch, maxRows, maxBytes, size)
      ensures var changes := DeltaFor(old(View()), start, maxRows).changes;
        var known := old(configured) && clientEpoch == old(epoch);
        && (r.Served? <==> known && start <= old(head) && TotalBytes(size, changes) <= maxBytes)
        && (r == BootstrapRequired(SchemaChanged) <==> !old(configured))
        && (r == BootstrapRequired(IdentityMismatch) <==> old(configured) && clientEpoch != old(epoch))
        && (r == BootstrapRequired(WatermarkAhead) <==> known && start > old(head))
        && (r == BootstrapRequired(DeltaBytesExceeded) <==>
              known && start <= old(head) && TotalBytes(size, changes) > maxBytes)
      ensures r.Served? ==> r.delta == DeltaFor(old(View()), start, maxRows)
      ensures View() == if r.Served? && start > 0 && !busy then Prune(old(View()), start)
        else EnsureTracking(old(View()))
    {
      var reconfigured := Track();
      if reconfigured {
        return BootstrapRequired(SchemaChanged);
      }
      if clientEpoch != epoch {
        return BootstrapRequired(IdentityMismatch);
      }
      if start > head {
        return BootstrapRequired(WatermarkAhead);
      }
      var delta, exceeded := ReadDelta(View(), start, maxRows, maxBytes, size);
      if exceeded {
        return BootstrapRequired(DeltaBytesExceeded);
      }
      if start > 0 {
        var _ := PruneAcknowledged(start, busy);
      }
      return Served(delta);
    }
  }
}
