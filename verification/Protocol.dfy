/** The whole replication protocol as a state machine: writers, the authoritative service, pruning,
    one certifier with its durable files, and a crash between any two steps. */
module Protocol {
  import opened Wrappers
  import opened Tables
  import opened Journal
  import opened Deltas
  import opened Paging
  import opened Bootstrap

  /** The partial replica file: rows committed so far and how many tables have been created. */
  datatype Partial = Partial(rows: map<Key, Row>, created: nat)
  /** The bootstrap checkpoint file; `open` means that table `next` is recorded as the current one. */
  datatype Checkpoint = Checkpoint(epoch: nat, start: nat, next: nat, open: bool, cursor: Option<int>)
  datatype ReplicaState = ReplicaState(epoch: nat, watermark: nat, caughtUp: bool)

  datatype Disk = Disk(
    replica: Option<map<Key, Content>>,
    state: Option<ReplicaState>,
    partial: Option<Partial>,
    ckpt: Option<Checkpoint>)

  /** The manifest a bootstrap works from: epoch, start watermark, number of tables. */
  datatype Manifest = Manifest(epoch: nat, start: nat, tables: nat)

  /** The certifier's volatile control state; each value is a point where a crash can happen. */
  datatype Proc =
    | Idle
    | Removing                                  // replica file gone, state file still there
    | Bootstrapping                             // both gone, manifest not yet requested
    | Discarding(again: Option<Manifest>)       // stale partial gone, its checkpoint still there
    | Creating(m: Manifest)                     // neither partial nor checkpoint
    | Opening(m: Manifest)                      // empty partial, checkpoint not yet written
    | Scanning(m: Manifest)
    | TableCreated(m: Manifest)                 // CREATE TABLE committed, checkpoint not yet written
    | PageRead(m: Manifest, page: Page)         // response received, nothing committed
    | PageCommitted(m: Manifest, page: Page)    // rows committed, checkpoint not yet written
    | Building(m: Manifest, built: map<Key, Content>) // partial renamed away, replica not yet in place
    | Installed(m: Manifest)                    // replica in place, state file not yet written
    | Syncing
    | Awaiting                                  // delta request sent
    | DeltaRead(delta: Delta, seen: Source, missed: set<Key>)
    | DeltaCommitted(delta: Delta, seen: Source, missed: set<Key>)
    | Synced(seen: Source, missed: set<Key>)

  /** `prunable` is the largest watermark a delta request has carried, so the largest any late prune
      can use. `blind` is bookkeeping of the proof: the rows this bootstrap's scan cannot return. */
  datatype World = World(src: Source, disk: Disk, proc: Proc, prunable: nat, blind: set<Key>)

  datatype SourceEvent =
    | Mutate(st: Statement)
    | Ddl(rows: map<Key, Row>, withoutRowid: seq<bool>, firings: nat)
    | PruneJournal(w: nat)
  datatype FileEvent =
    | RemoveReplica | RemoveState
    | RequestManifest | RemoveCheckpoint | CreatePartial | WriteBaseCheckpoint
  datatype ScanEvent =
    | CreateTable | WriteTableCheckpoint
    | ReadPage(scan: seq<Record>, response: Page) | CommitPage | WritePageCheckpoint
  datatype InstallEvent = FinishScan | InstallReplica | WriteReplicaState
  datatype SyncEvent = StartSync | SendDelta | ReadDelta(maxRows: nat) | CommitDelta | WriteDeltaState
  datatype Event =
    | OnSource(source: SourceEvent)
    | Crash
    | OnFiles(files: FileEvent)
    | OnScan(page: ScanEvent)
    | OnInstall(install: InstallEvent)
    | OnSync(sync: SyncEvent)

  ghost predicate Live(w: World, epoch: nat) {
    w.src.configured && w.src.epoch == epoch
  }

  /** _ensure_tracking_locked: a new epoch starts with no bookkeeping. */
  ghost function Track(w: World): World {
    if w.src.configured then w else w.(src := EnsureTracking(w.src), blind := {})
  }

  /** The part of _checkpoint_matches that can vary within one release of the client. */
  predicate CheckpointMatches(disk: Disk, m: Manifest) {
    disk.partial.Some? && disk.ckpt.Some? && disk.ckpt.value.epoch == m.epoch && disk.ckpt.value.start == m.start
  }

  /** CREATE UNIQUE INDEX succeeds on these rows. */
  predicate IndexesHold(c: map<Key, Content>) {
    forall k1, k2 | k1 in c && k2 in c && k1 != k2 && k1.table == k2.table ::
      !Collide(c[k1].indexed, c[k2].indexed)
  }

  ghost function Discard(w: World): World {
    w.(disk := w.disk.(partial := None), proc := Discarding(None))
  }

  ghost function StepSource(w: World, e: SourceEvent): World
  {
    match e
    case Mutate(st) =>
      if w.src.configured && Executes(w.src, st) && Tracked(st) then
        var src := Execute(w.src, st);
        w.(src := src, blind := w.blind - Touched(src.journal, w.src.head))
      else w
    case Ddl(rows, withoutRowid, firings) =>
      if Unique(rows) && forall k :: k in rows ==> k.table < |withoutRowid| then
        w.(src := w.src.(rows := rows, withoutRowid := withoutRowid, head := w.src.head + firings, configured := false))
      else w
    case PruneJournal(v) => if v <= w.prunable then w.(src := Prune(w.src, v)) else w
  }

  ghost function StepFiles(w: World, e: FileEvent): World
  {
    match e
    case RemoveReplica =>
      if w.proc.Idle? || w.proc.Awaiting? then w.(disk := w.disk.(replica := None), proc := Removing) else w
    case RemoveState =>
      if w.proc.Removing? then w.(disk := w.disk.(state := None), proc := Bootstrapping) else w
    case RequestManifest =>
      if w.proc.Bootstrapping? then
        var t := Track(w);
        var m := Manifest(t.src.epoch, t.src.head, |t.src.withoutRowid|);
        if CheckpointMatches(w.disk, m) then t.(proc := Scanning(m))
        else t.(disk := w.disk.(partial := None), proc := Discarding(Some(m)), blind := Blind(t.src))
      else w
    case RemoveCheckpoint =>
      if w.proc.Discarding? then
        w.(disk := w.disk.(ckpt := None),
           proc := if w.proc.again.Some? then Creating(w.proc.again.value) else Idle)
      else w
    case CreatePartial =>
      if w.proc.Creating? then
        w.(disk := w.disk.(partial := Some(Partial(map[], 0))), proc := Opening(w.proc.m))
      else w
    case WriteBaseCheckpoint =>
      if w.proc.Opening? then
        w.(disk := w.disk.(ckpt := Some(Checkpoint(w.proc.m.epoch, w.proc.m.start, 0, false, None))),
           proc := Scanning(w.proc.m))
      else w
  }

  ghost predicate HasScan(w: World) {
    w.disk.partial.Some? && w.disk.ckpt.Some?
  }

  ghost function StepScan(w: World, e: ScanEvent): World
    requires HasScan(w)
  {
    var P, c := w.disk.partial.value, w.disk.ckpt.value;
    match e
    case CreateTable =>
      if w.proc.Scanning? && !c.open && c.next < w.proc.m.tables then
        if P.created > c.next then Discard(w)     // the table already exists: a crash hit this very step
        else w.(disk := w.disk.(partial := Some(P.(created := c.next + 1))), proc := TableCreated(w.proc.m))
      else w
    case WriteTableCheckpoint =>
      if w.proc.TableCreated? then
        w.(disk := w.disk.(ckpt := Some(c.(open := true, cursor := None))), proc := Scanning(w.proc.m))
      else w
    case ReadPage(scan, page) =>
      if w.proc.Scanning? && c.open then
        if !Live(w, w.proc.m.epoch) then Discard(w)
        else if IsScan(w.src, c.next, c.cursor, scan) && CutFrom(scan, page) then w.(proc := PageRead(w.proc.m, page))
        else w
      else w
    case CommitPage =>
      if w.proc.PageRead? then
        w.(disk := w.disk.(partial := Some(P.(rows := Replay(ScanClash, P.rows, Loads(w.proc.page.rows))))),
           proc := PageCommitted(w.proc.m, w.proc.page))
      else w
    case WritePageCheckpoint =>
      if w.proc.PageCommitted? then
        var p := w.proc.page;
        w.(disk := w.disk.(ckpt := Some(c.(next := NextTable(c.next, p), open := !p.done, cursor := p.next))),
           proc := Scanning(w.proc.m))
      else w
  }

  ghost function StepInstall(w: World, e: InstallEvent): World
  {
    match e
    case FinishScan =>
      if w.proc.Scanning? && HasScan(w) && w.disk.ckpt.value.next == w.proc.m.tables then
        var built := Contents(w.disk.partial.value.rows);
        if IndexesHold(built) then w.(disk := w.disk.(partial := None), proc := Building(w.proc.m, built))
        else Discard(w)
      else w
    case InstallReplica =>
      if w.proc.Building? then
        w.(disk := w.disk.(replica := Some(w.proc.built)), proc := Installed(w.proc.m))
      else w
    case WriteReplicaState =>
      if w.proc.Installed? then
        w.(disk := w.disk.(state := Some(ReplicaState(w.proc.m.epoch, w.proc.m.start, false))), proc := Syncing)
      else w
  }

  ghost predicate HasReplica(w: World) {
    w.disk.replica.Some? && w.disk.state.Some?
  }

  ghost function StepSync(w: World, e: SyncEvent): World
    requires HasReplica(w)
  {
    var R, st := w.disk.replica.value, w.disk.state.value;
    match e
    case StartSync => if w.proc.Idle? || w.proc.Synced? then w.(proc := Syncing) else w
    case SendDelta =>
      if w.proc.Syncing? then
        w.(proc := Awaiting, prunable := if st.watermark > w.prunable then st.watermark else w.prunable)
      else w
    case ReadDelta(maxRows) =>
      if w.proc.Awaiting? && maxRows > 0 then
        var t := Track(w);
        if t.src.epoch != st.epoch || st.watermark > t.src.head || !w.src.configured then t.(proc := Idle)
        else t.(proc := DeltaRead(DeltaFor(t.src, st.watermark, maxRows), t.src, t.blind))
      else w
    case CommitDelta =>
      if w.proc.DeltaRead? then
        w.(disk := w.disk.(replica := Some(Replay(ReplicaClash, R, w.proc.delta.changes))),
           proc := DeltaCommitted(w.proc.delta, w.proc.seen, w.proc.missed))
      else w
    case WriteDeltaState =>
      if w.proc.DeltaCommitted? then
        var d := w.proc.delta;
        w.(disk := w.disk.(state := Some(st.(watermark := d.to, caughtUp := d.caughtUp))),
           proc := if d.caughtUp then Synced(w.proc.seen, w.proc.missed) else Syncing)
      else w
  }

  /** One step; an event that is not enabled changes nothing. */
  ghost function Step(w: World, e: Event): World {
    match e
    case OnSource(source) => StepSource(w, source)
    case Crash => w.(proc := Idle)
    case OnFiles(files) => StepFiles(w, files)
    case OnScan(page) => if HasScan(w) then StepScan(w, page) else w
    case OnInstall(install) => StepInstall(w, install)
    case OnSync(sync) => if HasReplica(w) then StepSync(w, sync) else w
  }

  ghost function Run(w: World, es: seq<Event>): World {
    if es == [] then w else Step(Run(w, es[..|es| - 1]), es[|es| - 1])
  }

  /** Any source, no files on the certifier's side. */
  ghost predicate Initial(w: World) {
    && Valid(w.src) && w.disk == Disk(None, None, None, None) && w.proc.Idle? && w.prunable == 0 && w.blind == {}
  }

  /** The replica is what a client at watermark wm may hold. */
  ghost predicate ReplicaGood(w: World, epoch: nat, R: map<Key, Content>, wm: nat) {
    Live(w, epoch) ==> Good(R, Contents(w.src.rows), w.src.journal, wm, w.blind)
  }

  ghost predicate PartialGood(w: World, epoch: nat, P: map<Key, Row>, start: nat, next: nat, cursor: Option<int>) {
    Live(w, epoch) ==> ScanGood(P, w.src, start, next, cursor, w.blind)
  }

  /** What holds of the files alone, so at every crash. */
  ghost predicate DiskInv(w: World) {
    var d := w.disk;
    && (d.state.Some? ==> w.prunable <= d.state.value.watermark <= w.src.head && d.state.value.epoch <= w.src.epoch)
    && (d.state.Some? && d.replica.Some? ==>
          ReplicaGood(w, d.state.value.epoch, d.replica.value, d.state.value.watermark))
    && (d.partial.Some? ==> d.replica.None? && d.state.None?)
    && (d.ckpt.Some? ==> d.ckpt.value.start <= w.src.head && d.ckpt.value.epoch <= w.src.epoch)
    && (HasScan(w) ==> var c := d.ckpt.value;
          && w.prunable <= c.start && (!c.open ==> c.cursor == None)
          && PartialGood(w, c.epoch, d.partial.value.rows, c.start, c.next, c.cursor))
  }

  /** A manifest in use: no watermark below it was ever sent for pruning, and no replica is visible. */
  ghost predicate ManifestInv(w: World, m: Manifest) {
    && w.prunable <= m.start <= w.src.head && m.epoch <= w.src.epoch
    && w.disk.state.None?
    && (Live(w, m.epoch) ==> m.tables == |w.src.withoutRowid|)
  }

  ghost predicate ScanInv(w: World, m: Manifest) {
    && ManifestInv(w, m) && HasScan(w)
    && w.disk.ckpt.value.epoch == m.epoch && w.disk.ckpt.value.start == m.start
  }

  ghost predicate Continues(s: Source, t: nat, cursor: Option<int>, page: Page) {
    && t < |s.withoutRowid| && CursorSound(s, t, cursor)
    && (!page.done ==> page.next.Some? && Within(s.withoutRowid[t], cursor, page.next.value))
  }

  /** The page in hand continues the checkpoint on disk. */
  ghost predicate PageInv(w: World, m: Manifest, page: Page, P: map<Key, Row>)
    requires ScanInv(w, m)
  {
    var c := w.disk.ckpt.value;
    && c.open && (page.done ==> page.next == None)
    && (Live(w, m.epoch) ==> Continues(w.src, c.next, c.cursor, page))
    && PartialGood(w, m.epoch, P, m.start, NextTable(c.next, page), page.next)
  }

  ghost predicate DeltaInv(w: World, d: Delta, seen: Source, missed: set<Key>, R: map<Key, Content>) {
    && HasReplica(w) && w.disk.state.value.watermark == d.start && d.start <= d.to <= w.src.head
    && ReplicaGood(w, w.disk.state.value.epoch, R, d.to)
    && missed <= Blind(seen)
    && (d.caughtUp ==> R == Contents(seen.rows) - missed)
  }

  ghost predicate ProcInv(w: World) {
    match w.proc
    case Idle => true
    case Removing => w.disk.replica.None?
    case Bootstrapping => w.disk.replica.None? && w.disk.state.None?
    case Discarding(again) =>
      && w.disk.replica.None? && w.disk.state.None? && w.disk.partial.None?
      && (again.Some? ==>
            ManifestInv(w, again.value) && PartialGood(w, again.value.epoch, map[], again.value.start, 0, None))
    case Creating(m) =>
      && w.disk.replica.None? && w.disk.partial.None? && w.disk.ckpt.None?
      && ManifestInv(w, m) && PartialGood(w, m.epoch, map[], m.start, 0, None)
    case Opening(m) =>
      && w.disk.replica.None? && w.disk.partial == Some(Partial(map[], 0)) && w.disk.ckpt.None?
      && ManifestInv(w, m) && PartialGood(w, m.epoch, map[], m.start, 0, None)
    case Scanning(m) => ScanInv(w, m)
    case TableCreated(m) => ScanInv(w, m) && !w.disk.ckpt.value.open
    case PageRead(m, page) => ScanInv(w, m)
      && PageInv(w, m, page, Replay(ScanClash, w.disk.partial.value.rows, Loads(page.rows)))
    case PageCommitted(m, page) => ScanInv(w, m) && PageInv(w, m, page, w.disk.partial.value.rows)
    case Building(m, built) =>
      w.disk.replica.None? && w.disk.partial.None? && ManifestInv(w, m) && ReplicaGood(w, m.epoch, built, m.start)
    case Installed(m) =>
      w.disk.replica.Some? && w.disk.partial.None? && ManifestInv(w, m)
        && ReplicaGood(w, m.epoch, w.disk.replica.value, m.start)
    case Syncing => HasReplica(w)
    case Awaiting => HasReplica(w)
    case DeltaRead(d, seen, missed) =>
      HasReplica(w) && DeltaInv(w, d, seen, missed, Replay(ReplicaClash, w.disk.replica.value, d.changes))
    case DeltaCommitted(d, seen, missed) => HasReplica(w) && DeltaInv(w, d, seen, missed, w.disk.replica.value)
    case Synced(seen, missed) =>
      HasReplica(w) && missed <= Blind(seen) && w.disk.replica.value == Contents(seen.rows) - missed
  }

  ghost predicate BlindInv(w: World) {
    w.src.configured ==> forall k :: k in w.blind ==> k in w.src.rows && !Visible(w.src, k, w.src.rows[k])
  }

  ghost predicate Inv(w: World) {
    Valid(w.src) && w.prunable <= w.src.head && BlindInv(w) && DiskInv(w) && ProcInv(w)
  }

  /** The source moved on within its epoch, and every copy of it that was good stayed good. */
  ghost predicate SourceMoved(w: World, w': World) {
    && w' == w.(src := w'.src, blind := w'.blind) && Valid(w'.src) && BlindInv(w')
    && w.src.head <= w'.src.head && w'.src.epoch == w.src.epoch && w'.src.configured == w.src.configured
    && w'.src.withoutRowid == w.src.withoutRowid
    && (forall e, R, wm :: w.prunable <= wm <= w.src.head && ReplicaGood(w, e, R, wm) ==> ReplicaGood(w', e, R, wm))
    && (forall e, P, start, next, cursor ::
          w.prunable <= start <= w.src.head && PartialGood(w, e, P, start, next, cursor)
          ==> PartialGood(w', e, P, start, next, cursor))
  }

  lemma SourceMovedInv(w: World, w': World)
    requires Inv(w) && SourceMoved(w, w')
    ensures Inv(w')
  {
    assert DiskInv(w') by {
      if HasScan(w) {
        var c := w.disk.ckpt.value;
        assert PartialGood(w, c.epoch, w.disk.partial.value.rows, c.start, c.next, c.cursor);
      }
    }
    match w.proc
    case PageRead(m, page) => assert ScanInv(w', m);
    case PageCommitted(m, page) => assert ScanInv(w', m);
    case _ =>
  }

  lemma FollowingSource(w: World, w': World)
    requires Valid(w.src) && Valid(w'.src) && BlindInv(w)
    requires w' == w.(src := w'.src, blind := w.blind - Touched(w'.src.journal, w.src.head))
    requires w'.src.configured == w.src.configured
    requires forall wm: nat :: w.prunable <= wm ==> Follows(w.src, w'.src, wm)
    requires w.prunable <= w.src.head
    ensures SourceMoved(w, w')
  {
    assert Follows(w.src, w'.src, w.prunable);
    forall e, R, wm | w.prunable <= wm <= w.src.head && ReplicaGood(w, e, R, wm)
      ensures ReplicaGood(w', e, R, wm)
    {
      if Live(w, e) {
        GoodFollows(R, Contents(w.src.rows), Contents(w'.src.rows), w.src, w'.src, wm, w.blind);
      }
    }
    forall e, P, start, next, cursor | w.prunable <= start <= w.src.head && PartialGood(w, e, P, start, next, cursor)
      ensures PartialGood(w', e, P, start, next, cursor)
    {
      if Live(w, e) {
        ScanFollows(P, w.src, w'.src, start, next, cursor, w.blind);
      }
    }
    TouchedDirty(w'.src.journal, w.src.head);
    forall k | w'.src.configured && k in w'.blind ensures k in w'.src.rows && !Visible(w'.src, k, w'.src.rows[k]) {
      assert !Dirty(w'.src.journal, k, w.src.head);
      assert Agree(w.src.rows, w'.src.rows, k);
    }
  }

  lemma MutateInv(w: World, st: Statement)
    requires Inv(w) && w.src.configured && Executes(w.src, st) && Tracked(st)
    ensures Inv(StepSource(w, Mutate(st)))
  {
    var w' := StepSource(w, Mutate(st));
    forall wm: nat ensures Follows(w.src, w'.src, wm) {
      ExecuteFollows(w.src, st, wm);
    }
    ExecuteFollows(w.src, st, 0);
    FollowingSource(w, w');
    SourceMovedInv(w, w');
  }

  lemma PruneInv(w: World, v: nat)
    requires Inv(w) && v <= w.prunable
    ensures Inv(StepSource(w, PruneJournal(v)))
  {
    var w' := StepSource(w, PruneJournal(v));
    forall wm: nat | w.prunable <= wm ensures Follows(w.src, w'.src, wm) {
      PruneFollows(w.src, v, wm);
    }
    PruneFollows(w.src, v, v);
    assert Touched(w'.src.journal, w.src.head) == {};
    FollowingSource(w, w');
    SourceMovedInv(w, w');
  }

  /** A schema change orphans every copy: none is live in the epoch to come. */
  lemma DdlInv(w: World, rows: map<Key, Row>, withoutRowid: seq<bool>, firings: nat)
    requires Inv(w)
    ensures Inv(StepSource(w, Ddl(rows, withoutRowid, firings)))
  {
    var w' := StepSource(w, Ddl(rows, withoutRowid, firings));
    assert w' != w ==> forall epoch :: !Live(w', epoch);
  }

  /** Writers, schema changes and late prunes keep the invariant. */
  lemma SourceStepInv(w: World, e: SourceEvent)
    requires Inv(w)
    ensures Inv(StepSource(w, e))
  {
    match e
    case Mutate(st) =>
      if w.src.configured && Executes(w.src, st) && Tracked(st) {
        MutateInv(w, st);
      }
    case PruneJournal(v) =>
      if v <= w.prunable {
        PruneInv(w, v);
      }
    case Ddl(rows, withoutRowid, firings) => DdlInv(w, rows, withoutRowid, firings);
  }

  /** Writers, schema changes and late prunes act on the source and on nothing else: no such step is lost. */
  lemma SourceStepsAct(w: World, e: SourceEvent)
    requires Inv(w)
    ensures var w' := Step(w, OnSource(e)); w'.disk == w.disk && w'.proc == w.proc && w'.prunable == w.prunable
    ensures var s, s' := w.src, Step(w, OnSource(e)).src;
      match e
      case Mutate(st) =>
        s.configured && Executes(s, st) && Tracked(st) ==>
          Leaves(s.rows, st, s'.rows) && s.journal <= s'.journal && s'.configured && s'.head > s.head
      case Ddl(rows, withoutRowid, firings) =>
        Unique(rows) && (forall k :: k in rows ==> k.table < |withoutRowid|) ==>
          s'.rows == rows && s'.withoutRowid == withoutRowid && !s'.configured && s'.head == s.head + firings
      case PruneJournal(v) =>
        v <= w.prunable ==> s'.rows == s.rows && forall x :: x in s'.journal <==> x in s.journal && x.id > v
  {
    if e.Mutate? && w.src.configured && Executes(w.src, e.st) && Tracked(e.st) {
      StatementLeaves(w.src, e.st);
    }
  }

  lemma TrackInv(w: World)
    requires Inv(w)
    ensures Inv(Track(w)) && Track(w).src.configured
    ensures forall e: nat :: e <= w.src.epoch && Live(Track(w), e) ==> w.src.configured
  {}

  /** Removing files, requesting a manifest and resetting a stale scan keep the invariant. A scan is
      resumed only at an equal watermark, which is also at least every prunable one. */
  lemma FilesStepInv(w: World, e: FileEvent)
    requires Inv(w)
    ensures Inv(StepFiles(w, e))
  {
    if e.RequestManifest? && w.proc.Bootstrapping? {
      TrackInv(w);
      ScanBegins(Track(w).src);
    }
  }

  lemma ScanStepInv(w: World, e: ScanEvent)
    requires Inv(w) && HasScan(w)
    ensures Inv(StepScan(w, e))
  {
    var w' := StepScan(w, e);
    match e
    case ReadPage(scan, page) =>
      if w'.proc.PageRead? && w.proc.Scanning? {
        var P, c := w.disk.partial.value.rows, w.disk.ckpt.value;
        assert PartialGood(w, c.epoch, P, c.start, c.next, c.cursor);
        PageKeepsScanGood(P, w.src, c.start, c.next, c.cursor, scan, page, w.blind);
        PageRows(w.src, c.next, c.cursor, scan, page);
      }
    case CommitPage =>
      if w.proc.PageRead? {
        PageCommittedInv(w, w');
      }
    case _ =>
  }

  /** Between the commit of a page and its checkpoint, the old checkpoint still describes the rows. */
  lemma PageCommittedInv(w: World, w': World)
    requires Inv(w) && HasScan(w) && w.proc.PageRead? && w' == StepScan(w, CommitPage)
    ensures Inv(w')
  {
    var m, page, c := w.proc.m, w.proc.page, w.disk.ckpt.value;
    var P' := w'.disk.partial.value.rows;
    assert PartialGood(w', m.epoch, P', m.start, NextTable(c.next, page), page.next);
    if Live(w', m.epoch) {
      OlderCheckpoint(P', w.src, m.start, c.next, c.cursor, page, w.blind);
    }
    assert PartialGood(w', c.epoch, P', c.start, c.next, c.cursor);
    assert ScanInv(w', m);
  }

  lemma InstallStepInv(w: World, e: InstallEvent)
    requires Inv(w)
    ensures Inv(StepInstall(w, e))
  {
    var w' := StepInstall(w, e);
    if e.FinishScan? && w'.proc.Building? && w.proc.Scanning? {
      var P, c, m := w.disk.partial.value.rows, w.disk.ckpt.value, w.proc.m;
      assert PartialGood(w, c.epoch, P, c.start, c.next, c.cursor);
      if Live(w, m.epoch) {
        if c.open {
          assert CursorSound(w.src, c.next, c.cursor);
        }
        FinishedScanGood(P, w.src, m.start, w.blind);
      }
    }
  }

  /** With a replica in place the partial scan is gone, so only the replica's own facts matter. */
  lemma ServingInv(w: World, w': World)
    requires Inv(w) && HasReplica(w) && HasReplica(w')
    requires w'.src == w.src && w'.blind == w.blind && w'.prunable == w.prunable
    requires w'.disk.partial == w.disk.partial && w'.disk.ckpt == w.disk.ckpt
    requires var st' := w'.disk.state.value;
      && w.prunable <= st'.watermark <= w.src.head && st'.epoch <= w.src.epoch
      && ReplicaGood(w', st'.epoch, w'.disk.replica.value, st'.watermark)
    requires ProcInv(w')
    ensures Inv(w')
  {}

  /** A delta is read against the live source: the replica it will produce is good at `to`. */
  lemma DeltaReadInv(w: World, w': World, maxRows: nat)
    requires Inv(w) && HasReplica(w) && w.proc.Awaiting? && w.src.configured && maxRows > 0
    requires w.src.epoch == w.disk.state.value.epoch
    requires w' == w.(proc := DeltaRead(DeltaFor(w.src, w.disk.state.value.watermark, maxRows), w.src, w.blind))
    ensures Inv(w')
  {
    var st, R := w.disk.state.value, w.disk.replica.value;
    DurableReplicaFacts(w);
    DeltaConverges(w.src, st.watermark, maxRows, R, w.blind);
    assert ReplicaGood(w', st.epoch, Replay(ReplicaClash, R, w'.proc.delta.changes), w'.proc.delta.to);
    ServingInv(w, w');
  }

  lemma SyncStepInv(w: World, e: SyncEvent)
    requires Inv(w) && HasReplica(w)
    ensures Inv(StepSync(w, e))
  {
    if e.ReadDelta? && w.proc.Awaiting? && e.maxRows > 0 {
      if w.src.configured && w.src.epoch == w.disk.state.value.epoch {
        DeltaReadInv(w, StepSync(w, e), e.maxRows);
      } else {
        TrackInv(w);
        assert StepSync(w, e) == Track(w).(proc := Idle);
      }
    } else if e.CommitDelta? && w.proc.DeltaRead? {
      DeltaCommittedInv(w, StepSync(w, e));
    } else if e.WriteDeltaState? && w.proc.DeltaCommitted? {
      DeltaStateInv(w, StepSync(w, e));
    }
  }

  /** An idle or synchronised certifier with a replica can start a round, and sending its request makes exactly
      the durable watermark prunable. */
  lemma RoundBegins(w: World)
    requires Inv(w) && HasReplica(w) && (w.proc.Idle? || w.proc.Synced?)
    ensures var syncing := Step(w, OnSync(StartSync));
      && syncing == w.(proc := Syncing)
      && Step(syncing, OnSync(SendDelta)) == w.(proc := Awaiting, prunable := w.disk.state.value.watermark)
  {
  }

  lemma DeltaStateInv(w: World, w': World)
    requires Inv(w) && HasReplica(w) && w.proc.DeltaCommitted? && w' == StepSync(w, WriteDeltaState)
    ensures Inv(w')
  {
    assert DeltaInv(w, w.proc.delta, w.proc.seen, w.proc.missed, w.disk.replica.value);
    assert ReplicaGood(w', w.disk.state.value.epoch, w.disk.replica.value, w.proc.delta.to);
    ServingInv(w, w');
  }

  /** Between the commit of a delta and its state file, the old watermark still describes the replica. */
  lemma DeltaCommittedInv(w: World, w': World)
    requires Inv(w) && HasReplica(w) && w.proc.DeltaRead? && w' == StepSync(w, CommitDelta)
    ensures Inv(w')
  {
    var d, st, R' := w.proc.delta, w.disk.state.value, w'.disk.replica.value;
    assert ReplicaGood(w', st.epoch, R', d.to);
    if Live(w', st.epoch) {
      assert Good(w.disk.replica.value, Contents(w.src.rows), w.src.journal, st.watermark, w.blind);
      LowerWatermark(R', Contents(w.src.rows), w.src.journal, st.watermark, d.to, w.blind);
    }
    ServingInv(w, w');
  }

  lemma LowerWatermark<V>(R: map<Key, V>, S: map<Key, V>, es: seq<Entry>, lo: nat, hi: nat, blind: set<Key>)
    requires lo <= hi && Good(R, S, es, hi, blind) && forall k :: k in blind ==> !Dirty(es, k, lo)
    ensures Good(R, S, es, lo, blind)
  {
    forall k | Dirty(es, k, hi) ensures Dirty(es, k, lo) {
      var e :| e in es && e.key == k && e.id > hi;
      assert e.id > lo;
    }
  }

  lemma StepInv(w: World, e: Event)
    requires Inv(w)
    ensures Inv(Step(w, e))
  {
    match e
    case OnSource(source) => SourceStepInv(w, source);
    case Crash =>
    case OnFiles(files) => FilesStepInv(w, files);
    case OnScan(page) => if HasScan(w) { ScanStepInv(w, page); }
    case OnInstall(install) => InstallStepInv(w, install);
    case OnSync(sync) => if HasReplica(w) { SyncStepInv(w, sync); }
  }

  lemma {:induction false} RunInv(w: World, es: seq<Event>)
    requires Initial(w)
    ensures Inv(Run(w, es))
  {
    if es != [] {
      RunInv(w, es[..|es| - 1]);
      StepInv(Run(w, es[..|es| - 1]), es[|es| - 1]);
    }
  }

  lemma SyncedFacts(w: World)
    requires Inv(w) && w.proc.Synced?
    ensures w.disk.replica.Some? && w.proc.missed <= Blind(w.proc.seen)
    ensures w.disk.replica.value == Contents(w.proc.seen.rows) - w.proc.missed
  {}

  lemma DurableReplicaFacts(w: World)
    requires Inv(w) && HasReplica(w) && Live(w, w.disk.state.value.epoch)
    ensures Good(w.disk.replica.value, Contents(w.src.rows), w.src.journal, w.disk.state.value.watermark, w.blind)
    ensures w.blind <= Blind(w.src)
  {}

  lemma DurableScanFacts(w: World)
    requires Inv(w) && HasScan(w) && Live(w, w.disk.ckpt.value.epoch)
    ensures var c := w.disk.ckpt.value;
      ScanGood(w.disk.partial.value.rows, w.src, c.start, c.next, c.cursor, w.blind)
    ensures Valid(w.src) && w.blind <= Blind(w.src)
  {
    var c := w.disk.ckpt.value;
    assert PartialGood(w, c.epoch, w.disk.partial.value.rows, c.start, c.next, c.cursor);
  }
}
