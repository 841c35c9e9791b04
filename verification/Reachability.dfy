/** Progress: from every reachable world the certifier can still synchronise once writers pause. */
module Reachability {
  import opened Wrappers
  import opened Tables
  import opened Journal
  import opened Deltas
  import opened Paging
  import opened Bootstrap
  import opened Protocol

  /** How the service cuts the i-th response from what is left of a table: by whatever row limit and byte
      bound, as long as no row is too large to send. */
  type Server = (nat, seq<Record>) -> Page

  ghost predicate Serves(server: Server) {
    forall i, scan :: CutFrom(scan, server(i, scan))
  }

  /** A step of the certifier alone. */
  predicate Own(server: Server, i: nat, e: Event) {
    !e.OnSource? && (e.OnScan? && e.page.ReadPage? ==> e.page.response == server(i, e.page.scan))
  }

  /** Such steps, from a sound world. */
  ghost predicate Path(server: Server, w: World, es: seq<Event>) {
    (forall i | 0 <= i < |es| :: Own(server, i, es[i])) && Sound(Run(w, es))
  }

  lemma {:induction false} OwnStepsKeepRows(server: Server, w: World, es: seq<Event>)
    requires forall i | 0 <= i < |es| :: Own(server, i, es[i])
    ensures Run(w, es).src.rows == w.src.rows && Run(w, es).src.withoutRowid == w.src.withoutRowid
  {
    if es != [] {
      OwnStepsKeepRows(server, w, es[..|es| - 1]);
      assert Own(server, |es| - 1, es[|es| - 1]);
    }
  }

  // ---- what a checkpoint can look like ----

  /** At most the table being scanned has been created, and an open table is one of the manifest's. */
  ghost predicate Shape(w: World) {
    && (HasScan(w) ==> var c := w.disk.ckpt.value;
          && w.disk.partial.value.created <= c.next + 1
          && (Live(w, c.epoch) ==>
                && c.next <= |w.src.withoutRowid| && (c.open ==> c.next < |w.src.withoutRowid|)
                && w.disk.partial.value.created <= |w.src.withoutRowid|))
    && (w.proc.TableCreated? && HasScan(w) && Live(w, w.disk.ckpt.value.epoch) ==>
          w.disk.ckpt.value.next < |w.src.withoutRowid|)
  }

  lemma ShapeSource(w: World, e: SourceEvent)
    requires Inv(w) && Shape(w)
    ensures Shape(StepSource(w, e))
  {
  }

  lemma ShapeFiles(w: World, e: FileEvent)
    requires Inv(w) && Shape(w)
    ensures Shape(StepFiles(w, e))
  {
  }

  lemma ShapeScan(w: World, e: ScanEvent)
    requires Inv(w) && Shape(w) && HasScan(w)
    ensures Shape(StepScan(w, e))
  {
  }

  lemma ShapeSync(w: World, e: SyncEvent)
    requires Inv(w) && Shape(w) && HasReplica(w)
    ensures Shape(StepSync(w, e))
  {
  }

  ghost predicate Sound(w: World) {
    Inv(w) && Shape(w)
  }

  lemma SoundStep(w: World, e: Event)
    requires Sound(w)
    ensures Sound(Step(w, e))
  {
    StepInv(w, e);
    match e
    case OnSource(source) => ShapeSource(w, source);
    case Crash =>
    case OnFiles(files) => ShapeFiles(w, files);
    case OnScan(page) => if HasScan(w) { ShapeScan(w, page); }
    case OnInstall(install) =>
    case OnSync(sync) => if HasReplica(w) { ShapeSync(w, sync); }
  }

  lemma {:induction false} SoundRun(w: World, es: seq<Event>)
    requires Initial(w)
    ensures Sound(Run(w, es))
  {
    if es != [] {
      SoundRun(w, es[..|es| - 1]);
      SoundStep(Run(w, es[..|es| - 1]), es[|es| - 1]);
    }
  }

  /** One more step of the certifier. */
  lemma Advance(server: Server, w: World, es: seq<Event>, e: Event) returns (more: seq<Event>)
    requires Path(server, w, es) && Own(server, |es|, e)
    ensures Path(server, w, more) && Run(w, more) == Step(Run(w, es), e)
  {
    more := es + [e];
    assert more[..|es|] == es;
    SoundStep(Run(w, es), e);
  }

  // ---- to a scan of the current state ----

  /** Scanning, with a start watermark that is still the head. */
  ghost predicate Prepared(w: World) {
    && Sound(w) && w.proc.Scanning? && HasScan(w)
    && w.src.configured && w.proc.m == Manifest(w.src.epoch, w.src.head, |w.src.withoutRowid|)
  }

  /** The next table has not been created yet, unless it is the open one. */
  ghost predicate Steady(w: World) {
    Prepared(w) && (!w.disk.ckpt.value.open ==> w.disk.partial.value.created <= w.disk.ckpt.value.next)
  }

  /** A crash and a restart lead to a scan, resumed or new. */
  lemma Restarted(server: Server, w: World, es: seq<Event>) returns (more: seq<Event>)
    requires Path(server, w, es)
    ensures Path(server, w, more) && Prepared(Run(w, more)) && (!HasScan(Run(w, es)) ==> Steady(Run(w, more)))
  {
    more := Advance(server, w, es, Crash);
    more := Advance(server, w, more, OnFiles(RemoveReplica));
    more := Advance(server, w, more, OnFiles(RemoveState));
    more := Advance(server, w, more, OnFiles(RequestManifest));
    if Run(w, more).proc.Discarding? {
      more := NewScan(server, w, more);
    }
  }

  lemma NewScan(server: Server, w: World, es: seq<Event>) returns (more: seq<Event>)
    requires Path(server, w, es) && Run(w, es).proc.Discarding? && Run(w, es).src.configured
    requires var now := Run(w, es);
      now.proc.again == Some(Manifest(now.src.epoch, now.src.head, |now.src.withoutRowid|))
    ensures Path(server, w, more) && Steady(Run(w, more))
  {
    more := Advance(server, w, es, OnFiles(RemoveCheckpoint));
    more := Advance(server, w, more, OnFiles(CreatePartial));
    more := Advance(server, w, more, OnFiles(WriteBaseCheckpoint));
  }

  lemma Discarded(server: Server, w: World, es: seq<Event>) returns (more: seq<Event>)
    requires Path(server, w, es) && Prepared(Run(w, es)) && !Steady(Run(w, es))
    ensures Path(server, w, more) && !HasScan(Run(w, more))
  {
    assert Run(w, es).disk.ckpt.value.next < Run(w, es).proc.m.tables;
    hide Sound;
    more := Advance(server, w, es, OnScan(CreateTable));
    more := Advance(server, w, more, OnFiles(RemoveCheckpoint));
  }

  /** A scan that was cut off right after creating a table is thrown away and begun anew. */
  lemma Steadied(server: Server, w: World, es: seq<Event>) returns (more: seq<Event>)
    requires Path(server, w, es) && Prepared(Run(w, es))
    ensures Path(server, w, more) && Steady(Run(w, more))
  {
    more := es;
    if !Steady(Run(w, es)) {
      more := Discarded(server, w, es);
      more := Restarted(server, w, more);
    }
  }

  // ---- to the end of the scan ----

  /** Some row of the set is first. */
  lemma {:induction false} FirstOf(s: Source, ks: set<Key>) returns (first: Key)
    requires ks != {} && ks <= s.rows.Keys
    ensures first in ks && forall k | k in ks :: s.rows[first].pos <= s.rows[k].pos
  {
    first :| first in ks;
    if ks != {first} {
      var other := FirstOf(s, ks - {first});
      if s.rows[other].pos < s.rows[first].pos {
        first := other;
      }
    }
  }

  /** The rows of the set in scan order. */
  lemma {:induction false} Sorted(s: Source, t: nat, ks: set<Key>) returns (scan: seq<Record>)
    requires Valid(s) && ks <= s.rows.Keys && forall k | k in ks :: k.table == t
    ensures Ordered(scan) && forall r :: r in scan <==> r.key in ks && r.row == s.rows[r.key]
    decreases |ks|
  {
    if ks == {} {
      scan := [];
    } else {
      var first := FirstOf(s, ks);
      var rest := Sorted(s, t, ks - {first});
      forall i | 0 <= i < |rest| ensures s.rows[first].pos < rest[i].row.pos {
        assert rest[i] in rest;
        assert !ScanClash(first, s.rows[first], rest[i].key, s.rows[rest[i].key]);
      }
      scan := InFront(Record(first, s.rows[first]), rest);
    }
  }

  lemma InFront(first: Record, rest: seq<Record>) returns (scan: seq<Record>)
    requires Ordered(rest) && forall i | 0 <= i < |rest| :: first.row.pos < rest[i].row.pos
    ensures Ordered(scan) && forall r :: r in scan <==> r == first || r in rest
  {
    scan := [first] + rest;
  }

  lemma ScanExists(s: Source, t: nat, cursor: Option<int>) returns (scan: seq<Record>)
    requires Valid(s) && t < |s.withoutRowid|
    ensures IsScan(s, t, cursor, scan)
  {
    scan := Sorted(s, t, set k | k in s.rows && k.table == t && Within(s.withoutRowid[t], cursor, s.rows[k].pos));
  }

  /** Behind a page that does not close the table lies the rest of the scan. */
  lemma BehindPage(s: Source, t: nat, cursor: Option<int>, scan: seq<Record>, page: Page)
    requires IsScan(s, t, cursor, scan) && CutFrom(scan, page) && !page.done
    ensures 0 < |page.rows| <= |scan| && IsScan(s, t, page.next, scan[|page.rows|..])
  {
    var n := |page.rows|;
    BehindRow(scan, n);
    assert scan[n - 1] in scan;
    forall k | k in s.rows && k.table == t
      && s.rows[k].pos > scan[n - 1].row.pos ensures Record(k, s.rows[k]) in scan[n..] {
      assert Within(s.withoutRowid[t], cursor, s.rows[k].pos);
    }
  }

  lemma BehindRow(scan: seq<Record>, n: nat)
    requires Ordered(scan) && 0 < n <= |scan|
    ensures Ordered(scan[n..]) && forall r :: r in scan[n..] <==> r in scan && r.row.pos > scan[n - 1].row.pos
  {
    forall i | 0 <= i < |scan[n..]| ensures scan[n..][i].row.pos > scan[n - 1].row.pos && scan[n..][i] in scan {
      assert scan[n..][i] == scan[n + i];
    }
    forall r | r in scan && r.row.pos > scan[n - 1].row.pos ensures r in scan[n..] {
      var i :| 0 <= i < |scan| && scan[i] == r;
      assert i >= n && scan[n..][i - n] == r;
    }
  }

  lemma PageTaken(server: Server, w: World, es: seq<Event>, scan: seq<Record>) returns (more: seq<Event>, page: Page)
    requires Serves(server) && Path(server, w, es) && Prepared(Run(w, es)) && Run(w, es).disk.ckpt.value.open
    requires IsScan(Run(w, es).src, Run(w, es).disk.ckpt.value.next, Run(w, es).disk.ckpt.value.cursor, scan)
    ensures Path(server, w, more) && Prepared(Run(w, more)) && CutFrom(scan, page)
    ensures var now, later := Run(w, es), Run(w, more); var c := now.disk.ckpt.value;
      && later.src == now.src && later.disk.partial.value.created == now.disk.partial.value.created
      && later.disk.ckpt.value == c.(next := NextTable(c.next, page), open := !page.done, cursor := page.next)
  {
    hide Sound, IsScan, Run;
    page := server(|es|, scan);
    more := Advance(server, w, es, OnScan(ReadPage(scan, page)));
    more := Advance(server, w, more, OnScan(CommitPage));
    more := Advance(server, w, more, OnScan(WritePageCheckpoint));
  }

  lemma {:induction false} TableDrained(server: Server, w: World, es: seq<Event>, scan: seq<Record>)
    returns (more: seq<Event>)
    requires Serves(server) && Path(server, w, es) && Prepared(Run(w, es)) && Run(w, es).disk.ckpt.value.open
    requires IsScan(Run(w, es).src, Run(w, es).disk.ckpt.value.next, Run(w, es).disk.ckpt.value.cursor, scan)
    ensures Path(server, w, more) && Steady(Run(w, more)) && !Run(w, more).disk.ckpt.value.open
    ensures var now, later := Run(w, es), Run(w, more);
      && later.src == now.src && later.disk.partial.value.created == now.disk.partial.value.created
      && later.disk.ckpt.value.next == now.disk.ckpt.value.next + 1
    decreases |scan|
  {
    var c := Run(w, es).disk.ckpt.value;
    var page;
    more, page := PageTaken(server, w, es, scan);
    if !page.done {
      BehindPage(Run(w, es).src, c.next, c.cursor, scan, page);
      more := TableDrained(server, w, more, scan[|page.rows|..]);
    }
  }

  lemma {:induction false} Drained(server: Server, w: World, es: seq<Event>) returns (more: seq<Event>)
    requires Serves(server) && Path(server, w, es) && Steady(Run(w, es))
    ensures Path(server, w, more) && AtEnd(Run(w, more))
    decreases |Run(w, es).src.withoutRowid| - Run(w, es).disk.ckpt.value.next
  {
    more := es;
    var now := Run(w, es);
    var c := now.disk.ckpt.value;
    if c.open || c.next < |now.src.withoutRowid| {
      if !c.open {
        more := Opened(server, w, es);
      }
      var scan := ScanExists(now.src, c.next, Run(w, more).disk.ckpt.value.cursor);
      more := TableDrained(server, w, more, scan);
      more := Drained(server, w, more);
    }
  }

  lemma Opened(server: Server, w: World, es: seq<Event>) returns (more: seq<Event>)
    requires Path(server, w, es) && Steady(Run(w, es)) && !Run(w, es).disk.ckpt.value.open
    requires Run(w, es).disk.ckpt.value.next < |Run(w, es).src.withoutRowid|
    ensures Path(server, w, more) && Prepared(Run(w, more)) && Run(w, more).src == Run(w, es).src
    ensures Run(w, more).disk.ckpt.value == Run(w, es).disk.ckpt.value.(open := true, cursor := None)
  {
    hide Sound, Run;
    more := Advance(server, w, es, OnScan(CreateTable));
    more := Advance(server, w, more, OnScan(WriteTableCheckpoint));
  }

  ghost predicate AtEnd(w: World) {
    Prepared(w) && !w.disk.ckpt.value.open && w.disk.ckpt.value.next == w.proc.m.tables
  }

  // ---- to a synchronised certifier ----

  lemma PartIsUnique(rows: map<Key, Row>, blind: set<Key>)
    requires Unique(rows)
    ensures IndexesHold(Contents(rows) - blind)
  {
    var part := Contents(rows) - blind;
    forall k1, k2 | k1 in part && k2 in part && k1 != k2 && k1.table == k2.table
      ensures !Collide(part[k1].indexed, part[k2].indexed)
    {
      assert !ReplicaClash(k1, Contents(rows)[k1], k2, Contents(rows)[k2]);
    }
  }

  lemma IndexesWillHold(w: World)
    requires AtEnd(w)
    ensures IndexesHold(Contents(w.disk.partial.value.rows))
  {
    var P := w.disk.partial.value.rows;
    DurableScanFacts(w);
    FinishedScanGood(P, w.src, w.src.head, w.blind);
    NothingPending(Contents(P), Contents(w.src.rows), w.src.journal, w.src.head, w.blind);
    PartIsUnique(w.src.rows, w.blind);
  }

  ghost predicate ReadyToSync(w: World) {
    && w.proc.Syncing? && HasReplica(w) && w.src.configured
    && w.disk.state == Some(ReplicaState(w.src.epoch, w.src.head, false))
  }

  lemma Serving(server: Server, w: World, es: seq<Event>) returns (more: seq<Event>)
    requires Path(server, w, es) && AtEnd(Run(w, es))
    ensures Path(server, w, more) && ReadyToSync(Run(w, more))
  {
    IndexesWillHold(Run(w, es));
    hide Run;
    more := Advance(server, w, es, OnInstall(FinishScan));
    more := Advance(server, w, more, OnInstall(InstallReplica));
    more := Advance(server, w, more, OnInstall(WriteReplicaState));
  }

  lemma {:induction false} EmptyWindow(es: seq<Entry>, head: nat)
    ensures Window(es, head, head) == []
  {
    if es != [] {
      EmptyWindow(es[1..], head);
    }
  }

  lemma NothingToSend(s: Source)
    ensures DeltaFor(s, s.head, 1).caughtUp
  {
    EmptyWindow(s.journal, s.head);
  }

  /** A certifier that has the current source, but for rows no scan returns. */
  ghost predicate InStep(w: World) {
    && w.proc.Synced? && w.disk.replica.Some? && w.proc.missed <= Blind(w.src)
    && w.disk.replica.value == Contents(w.src.rows) - w.proc.missed
  }

  lemma Synchronised(server: Server, w: World, es: seq<Event>) returns (more: seq<Event>)
    requires Path(server, w, es) && ReadyToSync(Run(w, es))
    ensures Path(server, w, more) && InStep(Run(w, more))
  {
    hide Sound, Run;
    NothingToSend(Run(w, es).src);
    more := Advance(server, w, es, OnSync(SendDelta));
    more := Advance(server, w, more, OnSync(ReadDelta(1)));
    more := Advance(server, w, more, OnSync(CommitDelta));
    more := Advance(server, w, more, OnSync(WriteDeltaState));
    SyncedIsInStep(Run(w, more));
  }

  lemma SyncedIsInStep(w: World)
    requires Sound(w) && w.proc.Synced? && w.proc.seen == w.src
    ensures InStep(w)
  {
    SyncedFacts(w);
  }

  ghost predicate Recovers(server: Server, w: World, more: seq<Event>) {
    Path(server, w, more) && InStep(Run(w, more)) && Run(w, more).src.rows == w.src.rows
  }

  /** From every reachable world, whatever writers and crashes did before, and however the service cuts its
      pages, there are steps of the certifier alone after which it holds the contents of the source, but
      for rows no scan returns. */
  lemma AlwaysRecoverable(server: Server, w0: World, es: seq<Event>)
    requires Serves(server) && Initial(w0)
    ensures exists more :: Recovers(server, Run(w0, es), more)
  {
    var w := Run(w0, es);
    SoundRun(w0, es);
    assert Path(server, w, []);
    var more := Restarted(server, w, []);
    more := Steadied(server, w, more);
    more := Drained(server, w, more);
    more := Serving(server, w, more);
    more := Synchronised(server, w, more);
    OwnStepsKeepRows(server, w, more);
    assert Recovers(server, w, more);
  }

  /** In particular by a row limit that may differ from request to request, zero standing for none. */
  function Limited(limit: nat -> nat): Server {
    (i: nat, scan: seq<Record>) =>
      if limit(i) == 0 || |scan| <= limit(i) then Page(scan, 0, true, None)
      else Page(scan[..limit(i)], 0, false, Some(scan[limit(i) - 1].row.pos))
  }

  lemma LimitsServe(limit: nat -> nat)
    ensures Serves(Limited(limit))
  {
  }
}
