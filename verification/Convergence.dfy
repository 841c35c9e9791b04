/** What the protocol guarantees over whole runs, and exactly where the guarantee ends. */
module Convergence {
  import opened Wrappers
  import opened Tables
  import opened Journal
  import opened Deltas
  import opened Bootstrap
  import opened Protocol

  /** Convergence. After any run whatsoever - racing writers, schema changes, late prunes, crashes -
      a certifier that finished a caught-up delta holds the contents of the source as that delta read
      it, except for rows its scan could never see; it is an exact copy if and only if there are none. */
  lemma CaughtUpMeansEqual(w0: World, es: seq<Event>)
    requires Initial(w0) && Run(w0, es).proc.Synced?
    ensures var w := Run(w0, es);
      && w.disk.replica.Some?
      && w.disk.replica.value == Contents(w.proc.seen.rows) - w.proc.missed
      && w.proc.missed <= Blind(w.proc.seen)
      && (w.disk.replica.value == Contents(w.proc.seen.rows) <==> w.proc.missed == {})
  {
    RunInv(w0, es);
    var w := Run(w0, es);
    SyncedFacts(w);
    LostKeysShow(Contents(w.proc.seen.rows), w.proc.missed);
  }

  lemma LostKeysShow(all: map<Key, Content>, missed: set<Key>)
    requires missed <= all.Keys
    ensures all - missed == all <==> missed == {}
  {
    if missed != {} {
      var k :| k in missed;
      assert k in all && k !in all - missed;
    }
  }

  /** At every moment of every run, so at every crash: a replica with a durable watermark differs from
      the source only on keys the journal still lists past that watermark. */
  lemma DurableWatermarkIsHonest(w0: World, es: seq<Event>, k: Key)
    requires Initial(w0) && HasReplica(Run(w0, es)) && Live(Run(w0, es), Run(w0, es).disk.state.value.epoch)
    ensures var w := Run(w0, es);
      Agree(w.disk.replica.value, Contents(w.src.rows), k)
      || Dirty(w.src.journal, k, w.disk.state.value.watermark) || k in Blind(w.src)
  {
    RunInv(w0, es);
    DurableReplicaFacts(Run(w0, es));
  }

  /** At every moment of every run: the durable checkpoint never runs ahead of the committed rows.
      Every key the scan has passed agrees with the source, is journaled, or is invisible to scans. */
  lemma DurableCursorIsHonest(w0: World, es: seq<Event>, k: Key)
    requires Initial(w0) && HasScan(Run(w0, es)) && Live(Run(w0, es), Run(w0, es).disk.ckpt.value.epoch)
    ensures var w := Run(w0, es); var c := w.disk.ckpt.value;
      || Agree(w.disk.partial.value.rows, w.src.rows, k)
      || Dirty(w.src.journal, k, c.start)
      || k in Blind(w.src)
      || (k !in w.disk.partial.value.rows && k in w.src.rows && Ahead(w.src, c.next, c.cursor, k, w.src.rows[k]))
  {
    RunInv(w0, es);
    DurableScanFacts(Run(w0, es));
  }

  /** A resumed scan is one whose watermark is still the source's head: then nothing it has loaded is
      stale. This is why the checkpoint must match the start watermark and not only the identity. */
  lemma ResumedScanIsExact(w0: World, es: seq<Event>, k: Key)
    requires Initial(w0)
    requires var w := Run(w0, es);
      w.src.configured && CheckpointMatches(w.disk, Manifest(w.src.epoch, w.src.head, |w.src.withoutRowid|))
    ensures var w := Run(w0, es);
      k in w.disk.partial.value.rows ==> k in w.src.rows && w.disk.partial.value.rows[k] == w.src.rows[k]
  {
    RunInv(w0, es);
    DurableScanFacts(Run(w0, es));
  }

  /** The watermarks the certifier can still send: its durable one, or the start of a bootstrap. */
  ghost predicate Sendable(w: World, wm: nat) {
    || (w.disk.state.Some? && wm == w.disk.state.value.watermark)
    || (HasScan(w) && wm == w.disk.ckpt.value.start)
    || (w.proc.Discarding? && w.proc.again.Some? && wm == w.proc.again.value.start)
    || (w.proc.Creating? && wm == w.proc.m.start)
    || (w.proc.Opening? && wm == w.proc.m.start)
    || (w.proc.Building? && wm == w.proc.m.start)
    || (w.proc.Installed? && wm == w.proc.m.start)
    || wm == w.src.head // a manifest requested now
  }

  lemma SendableAbovePrunable(w: World, wm: nat)
    requires Inv(w) && Sendable(w, wm)
    ensures w.prunable <= wm
  {}

  /** No prune, however late, deletes an entry past a watermark the certifier can still send. */
  lemma PruneNeverOutruns(w0: World, es: seq<Event>, v: nat, e: Entry, wm: nat)
    requires Initial(w0) && v <= Run(w0, es).prunable && Sendable(Run(w0, es), wm)
    requires e in Run(w0, es).src.journal && e !in Step(Run(w0, es), OnSource(PruneJournal(v))).src.journal
    ensures e.id <= wm
  {
    RunInv(w0, es);
    SendableAbovePrunable(Run(w0, es), wm);
    PruneFollows(Run(w0, es).src, v, v);
  }

  /** Building the unique indexes fails only if a writer raced with the scan. */
  lemma IndexFailureNeedsRace(w0: World, es: seq<Event>)
    requires Initial(w0)
    requires var w := Run(w0, es);
      && w.proc.Scanning? && HasScan(w) && Live(w, w.proc.m.epoch) && w.disk.ckpt.value.next == w.proc.m.tables
      && !IndexesHold(Contents(w.disk.partial.value.rows))
    ensures var w := Run(w0, es); exists k :: Dirty(w.src.journal, k, w.disk.ckpt.value.start)
  {
    RunInv(w0, es);
    var w := Run(w0, es);
    var P, c := w.disk.partial.value.rows, w.disk.ckpt.value;
    DurableScanFacts(w);
    var k1, k2 :| k1 in P && k2 in P && k1 != k2 && k1.table == k2.table
      && Collide(P[k1].content.indexed, P[k2].content.indexed);
    ClashIsNotBoth(P, w.src.rows, k1, k2);
    assert Dirty(w.src.journal, k1, c.start) || Dirty(w.src.journal, k2, c.start);
  }

  lemma ClashIsNotBoth(P: map<Key, Row>, S: map<Key, Row>, k1: Key, k2: Key)
    requires Unique(S) && k1 in P && k2 in P && ReplicaClash(k1, P[k1].content, k2, P[k2].content)
    ensures !Agree(P, S, k1) || !Agree(P, S, k2)
  {
    assert k1 in S && k2 in S ==> !ReplicaClash(k1, Contents(S)[k1], k2, Contents(S)[k2]);
  }

  /** A run in which nobody writes to the source. */
  predicate Quiet(es: seq<Event>) {
    forall e | e in es :: e.OnSource? ==> e.source.PruneJournal?
  }

  /** In a quiet run the scan's blind spot is exactly the source's invisible rows. */
  ghost predicate QuietInv(w: World, rows: map<Key, Row>) {
    && w.src.rows == rows && Valid(w.src)
    && (w.disk.replica.Some? || w.disk.partial.Some? || w.proc.Creating? || w.proc.Opening? || w.proc.Scanning?
        || w.proc.TableCreated? || w.proc.PageRead? || w.proc.PageCommitted? || w.proc.Building? || w.proc.Installed?
        || (w.proc.Discarding? && w.proc.again.Some?)
        ==> w.src.configured && w.blind == Blind(w.src))
    && (w.proc.DeltaRead? ==> w.proc.seen.rows == rows && w.proc.missed == Blind(w.src))
    && (w.proc.DeltaCommitted? ==> w.proc.seen.rows == rows && w.proc.missed == Blind(w.src))
    && (w.proc.Synced? ==> w.proc.seen.rows == rows && w.proc.missed == Blind(w.src))
  }

  lemma QuietFiles(w: World, e: FileEvent, rows: map<Key, Row>)
    requires QuietInv(w, rows)
    ensures QuietInv(StepFiles(w, e), rows)
  {}

  lemma QuietScan(w: World, e: ScanEvent, rows: map<Key, Row>)
    requires QuietInv(w, rows) && HasScan(w)
    ensures QuietInv(StepScan(w, e), rows)
  {}

  lemma QuietInstall(w: World, e: InstallEvent, rows: map<Key, Row>)
    requires QuietInv(w, rows)
    ensures QuietInv(StepInstall(w, e), rows)
  {}

  lemma QuietSync(w: World, e: SyncEvent, rows: map<Key, Row>)
    requires QuietInv(w, rows) && HasReplica(w)
    ensures QuietInv(StepSync(w, e), rows)
  {}

  lemma QuietPrune(w: World, v: nat, rows: map<Key, Row>)
    requires QuietInv(w, rows)
    ensures QuietInv(StepSource(w, PruneJournal(v)), rows)
  {
    if v <= w.prunable {
      PruneFollows(w.src, v, v);
    }
  }

  lemma QuietStep(w: World, e: Event, rows: map<Key, Row>)
    requires QuietInv(w, rows) && (e.OnSource? ==> e.source.PruneJournal?)
    ensures QuietInv(Step(w, e), rows)
  {
    match e
    case OnSource(source) => QuietPrune(w, source.w, rows);
    case Crash =>
    case OnFiles(files) => QuietFiles(w, files, rows);
    case OnScan(page) => if HasScan(w) { QuietScan(w, page, rows); }
    case OnInstall(install) => QuietInstall(w, install, rows);
    case OnSync(sync) => if HasReplica(w) { QuietSync(w, sync, rows); }
  }

  lemma {:induction false} QuietRun(w0: World, es: seq<Event>)
    requires Initial(w0) && Quiet(es)
    ensures QuietInv(Run(w0, es), w0.src.rows)
  {
    if es != [] {
      QuietRun(w0, es[..|es| - 1]);
      QuietStep(Run(w0, es[..|es| - 1]), es[|es| - 1], w0.src.rows);
    }
  }

  /** The scan starts at rowid 1, so a bootstrap of an idle source is exact if and only if no rowid
      table holds a row with rowid <= 0. */
  lemma QuietBootstrapExactIff(w0: World, es: seq<Event>)
    requires Initial(w0) && Quiet(es) && Run(w0, es).proc.Synced?
    ensures Run(w0, es).disk.replica.Some?
    ensures Run(w0, es).disk.replica.value == Contents(w0.src.rows) <==>
            forall k :: k in w0.src.rows ==> w0.src.withoutRowid[k.table] || w0.src.rows[k].pos > 0
  {
    CaughtUpMeansEqual(w0, es);
    QuietRun(w0, es);
    QuietTables(w0, es);
    assert Blind(w0.src) == Blind(Run(w0, es).src);
    forall k | k in w0.src.rows && Blind(w0.src) == {}
      ensures w0.src.withoutRowid[k.table] || w0.src.rows[k].pos > 0
    {
      assert k !in Blind(w0.src);
    }
  }

  lemma {:induction false} QuietTables(w0: World, es: seq<Event>)
    requires Quiet(es)
    ensures Run(w0, es).src.withoutRowid == w0.src.withoutRowid
  {
    if es != [] {
      QuietTables(w0, es[..|es| - 1]);
    }
  }

  /** One statement after a synchronised moment, any tracked statement after it, and a caught-up delta
      from the old watermark: the replica is again equal to the source. */
  ghost predicate SafeStatement(s: Source, st: Statement) {
    forall st2, maxRows: nat :: maxRows > 0 && Executes(Execute(s, st), st2) && Tracked(st2) ==>
      Recovers(s, Execute(Execute(s, st), st2), maxRows)
  }

  ghost predicate Recovers(s: Source, s': Source, maxRows: nat)
    requires maxRows > 0
  {
    DeltaFor(s', s.head, maxRows).caughtUp ==>
      Replay(ReplicaClash, Contents(s.rows), DeltaFor(s', s.head, maxRows).changes) == Contents(s'.rows)
  }

  /** SQLite does not fire delete triggers for rows displaced by INSERT OR REPLACE unless recursive
      triggers are on. Replication survives a statement, whatever follows, if and only if the
      statement displaces nothing silently. */
  lemma SafeStatementIffTracked(s: Source, st: Statement)
    requires Valid(s) && s.configured && Executes(s, st)
    ensures SafeStatement(s, st) <==> Tracked(st)
  {
    if Tracked(st) {
      forall st2, maxRows: nat | maxRows > 0 && Executes(Execute(s, st), st2) && Tracked(st2)
        ensures Recovers(s, Execute(Execute(s, st), st2), maxRows)
      {
        TrackedRecovers(s, st, st2, maxRows);
      }
    } else {
      var s1 := Execute(s, st);
      assert Executes(s1, Remove(st.key)) && Tracked(Remove(st.key));
      SilentDisplacementDiverges(s, st);
    }
  }

  lemma TrackedRecovers(s: Source, st: Statement, st2: Statement, maxRows: nat)
    requires Valid(s) && s.configured && Executes(s, st) && Tracked(st)
    requires Executes(Execute(s, st), st2) && Tracked(st2) && maxRows > 0
    ensures Recovers(s, Execute(Execute(s, st), st2), maxRows)
  {
    var s1 := Execute(s, st);
    var s2 := Execute(s1, st2);
    ExecuteFollows(s, st, s.head);
    StillGood(s, s, st);
    ExecuteFollows(s1, st2, s.head);
    StillGood(s, s1, st2);
    GoodRecovers(s, s2, maxRows);
  }

  lemma GoodRecovers(s: Source, s': Source, maxRows: nat)
    requires Valid(s') && s'.configured && s.head <= s'.head && maxRows > 0
    requires Good(Contents(s.rows), Contents(s'.rows), s'.journal, s.head, {})
    ensures Recovers(s, s', maxRows)
  {
    DeltaConverges(s', s.head, maxRows, Contents(s.rows), {});
    assert Contents(s'.rows) - {} == Contents(s'.rows);
  }

  lemma StillGood(s: Source, s1: Source, st: Statement)
    requires Valid(s1) && s1.configured && Executes(s1, st) && Tracked(st) && s.head <= s1.head
    requires s1 == s || Good(Contents(s.rows), Contents(s1.rows), s1.journal, s.head, {})
    ensures Good(Contents(s.rows), Contents(Execute(s1, st).rows), Execute(s1, st).journal, s.head, {})
  {
    var s2 := Execute(s1, st);
    assert Good(Contents(s.rows), Contents(s1.rows), s1.journal, s.head, {});
    ExecuteFollows(s1, st, s.head);
    GoodFollows(Contents(s.rows), Contents(s1.rows), Contents(s2.rows), s1, s2, s.head, {});
    assert {} - Touched(s2.journal, s1.head) == {};
  }

  lemma SilentDisplacementDiverges(s: Source, st: Statement)
    requires Valid(s) && Executes(s, st) && !Tracked(st)
    ensures !Recovers(s, Execute(Execute(s, st), Remove(st.key)), 2)
  {
    var v := st.victims[0];
    assert v in Displaced(s.rows, st.key, st.row);
    var s2 := Execute(Execute(s, st), Remove(st.key));
    assert s2.journal == s.journal + [Entry(s.head + 1, st.key, Upsert), Entry(s.head + 2, st.key, Delete)];
    ForgottenRowStays(s, s2, st.key, v);
  }

  /** A journal that mentions only k cannot repair the loss of another row v. */
  lemma ForgottenRowStays(s: Source, s2: Source, k: Key, v: Key)
    requires forall e :: e in s.journal ==> e.id <= s.head
    requires s2.journal == s.journal + [Entry(s.head + 1, k, Upsert), Entry(s.head + 2, k, Delete)]
    requires s2.head == s.head + 2 && v != k && v in s.rows && v !in s2.rows
    ensures !Recovers(s, s2, 2)
  {
    UpDownDelta(s, s2, k);
    ReplayOne(ReplicaClash, Contents(s.rows), Tables.Write(k, None));
    assert v in Contents(s.rows) - {k} && v !in Contents(s2.rows);
  }

  lemma UpDownDelta(s: Source, s2: Source, k: Key)
    requires forall e :: e in s.journal ==> e.id <= s.head
    requires s2.journal == s.journal + [Entry(s.head + 1, k, Upsert), Entry(s.head + 2, k, Delete)]
    requires s2.head == s.head + 2
    ensures DeltaFor(s2, s.head, 2) == Delta(s.head, s2.head, [Tables.Write(k, None)], true)
  {
    var up, down := Entry(s.head + 1, k, Upsert), Entry(s.head + 2, k, Delete);
    WindowOfNew(s.journal, [up, down], s.head);
    assert Batch(s2, s.head, 2) == [up, down];
    DeltaOfUpDown(s2, s.head, up, down);
  }

  lemma DeltaOfUpDown(s: Source, start: nat, up: Entry, down: Entry)
    requires Window(s.journal, start, s.head) == [up, down] && up.key == down.key && down.op == Delete
    ensures DeltaFor(s, start, 2) == Delta(start, s.head, [Tables.Write(up.key, None)], true)
  {
    CoalesceUpDown(up, down);
    ResolveDelete(s.rows, up.key);
  }

  lemma ResolveDelete(rows: map<Key, Row>, k: Key)
    ensures ResolveAll(rows, Dict([k], map[k := Delete])) == [Tables.Write(k, None)]
  {}

  lemma CoalesceUpDown(up: Entry, down: Entry)
    requires up.key == down.key
    ensures Coalesce([up, down]) == Dict([up.key], map[up.key := down.op])
  {
    assert [up, down][..1] == [up] && [up][..0] == [];
    assert Coalesce([up]) == Dict([up.key], map[up.key := up.op]);
  }

  lemma ReplayOne<V>(clash: (Key, V, Key, V) -> bool, m: map<Key, V>, w: Tables.Write<V>)
    ensures Replay(clash, m, [w]) == Perform(clash, m, w)
  {
    assert [w][..0] == [];
  }

  lemma {:induction false} WindowOfNew(es: seq<Entry>, added: seq<Entry>, w: nat)
    requires forall e :: e in es ==> e.id <= w
    requires |added| == 2 && added[0].id == w + 1 && added[1].id == w + 2
    ensures Window(es + added, w, w + 2) == added
  {
    if es == [] {
      assert es + added == added;
      assert added[1..] == [added[1]] && added[1..][1..] == [];
      assert Window(added[1..], w, w + 2) == [added[1]];
    } else {
      assert (es + added)[1..] == es[1..] + added;
      assert es[0] in es;
      WindowOfNew(es[1..], added, w);
    }
  }
}
