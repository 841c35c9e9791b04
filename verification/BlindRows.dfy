/** Which rows a synchronised certifier misses: those its manifest could not see and nobody wrote since. */
module BlindRows {
  import opened Tables
  import opened Journal
  import opened Deltas
  import opened Bootstrap
  import opened Protocol
  import opened Convergence

  ghost function At(w0: World, es: seq<Event>, i: nat): World
    requires i <= |es|
  {
    Run(w0, es[..i])
  }

  /** Step i of the run requested the manifest of a new scan. */
  ghost predicate ManifestAt(w0: World, es: seq<Event>, i: nat) {
    0 < i <= |es| && es[i - 1] == OnFiles(RequestManifest) && At(w0, es, i).proc.Discarding?
      && At(w0, es, i).src.configured
  }

  /** The keys one step journals. */
  function Journals(s: Source, s': Source): set<Key> {
    Touched(s'.journal, s.head)
  }

  ghost function JournaledBy(w0: World, es: seq<Event>, j: nat): set<Key>
    requires j < |es|
  {
    Journals(At(w0, es, j).src, At(w0, es, j + 1).src)
  }

  /** No step from i to n journaled the key. */
  ghost predicate Unjournaled(w0: World, es: seq<Event>, i: nat, n: nat, k: Key)
    requires i <= n <= |es|
  {
    forall j | i <= j < n :: k !in JournaledBy(w0, es, j)
  }

  /** `blind` is what the manifest at i could not see, less what was journaled up to n. */
  ghost predicate BlindFrom(w0: World, es: seq<Event>, i: nat, n: nat, blind: set<Key>) {
    && i <= n <= |es| && ManifestAt(w0, es, i)
    && forall k :: k in blind <==> k in Blind(At(w0, es, i).src) && Unjournaled(w0, es, i, n, k)
  }

  /** There is a copy, or the beginning of one, that belongs to the live epoch. */
  ghost predicate HasCopy(w: World) {
    && w.src.configured
    && (|| (w.disk.state.Some? && w.disk.state.value.epoch == w.src.epoch)
        || (HasScan(w) && w.disk.ckpt.value.epoch == w.src.epoch)
        || (w.proc.Discarding? && w.proc.again.Some? && w.proc.again.value.epoch == w.src.epoch)
        || (w.proc.Creating? && w.proc.m.epoch == w.src.epoch)
        || (w.proc.Opening? && w.proc.m.epoch == w.src.epoch)
        || (w.proc.Building? && w.proc.m.epoch == w.src.epoch)
        || (w.proc.Installed? && w.proc.m.epoch == w.src.epoch))
  }

  ghost predicate Answered(w: World) {
    w.proc.DeltaRead? || w.proc.DeltaCommitted? || w.proc.Synced?
  }

  lemma Earlier(w0: World, es: seq<Event>, j: nat)
    requires es != [] && j < |es|
    ensures At(w0, es, j) == At(w0, es[..|es| - 1], j)
  {
    assert es[..|es| - 1][..j] == es[..j];
  }

  lemma JournaledEarlier(w0: World, es: seq<Event>, j: nat)
    requires es != [] && j + 1 < |es|
    ensures JournaledBy(w0, es[..|es| - 1], j) == JournaledBy(w0, es, j)
  {
    Earlier(w0, es, j);
    Earlier(w0, es, j + 1);
  }

  lemma UnjournaledEarlier(w0: World, es: seq<Event>, i: nat, n: nat, k: Key)
    requires es != [] && i <= n < |es|
    ensures Unjournaled(w0, es, i, n, k) <==> Unjournaled(w0, es[..|es| - 1], i, n, k)
  {
    var front := es[..|es| - 1];
    hide JournaledBy;
    if Unjournaled(w0, es, i, n, k) {
      forall j | i <= j < n ensures k !in JournaledBy(w0, front, j) {
        JournaledEarlier(w0, es, j);
      }
    } else {
      var j :| i <= j < n && k in JournaledBy(w0, es, j);
      JournaledEarlier(w0, es, j);
      assert k in JournaledBy(w0, front, j);
    }
  }

  /** What was so before the last step still is. */
  lemma BlindFromEarlier(w0: World, es: seq<Event>, i: nat, n: nat, blind: set<Key>)
    requires es != [] && BlindFrom(w0, es[..|es| - 1], i, n, blind)
    ensures BlindFrom(w0, es, i, n, blind)
  {
    Earlier(w0, es, i);
    hide Run, Unjournaled, At;
    forall k ensures Unjournaled(w0, es, i, n, k) <==> Unjournaled(w0, es[..|es| - 1], i, n, k) {
      UnjournaledEarlier(w0, es, i, n, k);
    }
  }

  lemma UnjournaledStep(w0: World, es: seq<Event>, i: nat, n: nat, k: Key)
    requires i <= n < |es|
    ensures Unjournaled(w0, es, i, n + 1, k) <==>
      Unjournaled(w0, es, i, n, k) && k !in JournaledBy(w0, es, n)
  {
    hide JournaledBy;
  }

  /** One more step takes away what it journals. */
  lemma BlindFromStep(w0: World, es: seq<Event>, i: nat, n: nat, blind: set<Key>)
    requires n < |es| && BlindFrom(w0, es, i, n, blind)
    ensures BlindFrom(w0, es, i, n + 1, blind - JournaledBy(w0, es, n))
  {
    hide Run, At, Unjournaled, JournaledBy;
    forall k ensures Unjournaled(w0, es, i, n + 1, k) <==>
      Unjournaled(w0, es, i, n, k) && k !in JournaledBy(w0, es, n)
    {
      UnjournaledStep(w0, es, i, n, k);
    }
  }

  /** The step leaves the blind rows, but for those it journals. */
  ghost predicate Leaves(w: World, w': World) {
    HasCopy(w) && w'.blind == w.blind - Journals(w.src, w'.src)
  }

  lemma NothingJournaled(w: World, w': World)
    requires Inv(w) && w'.src == w.src && w'.blind == w.blind
    ensures w'.blind == w.blind - Journals(w.src, w'.src)
  {
  }

  lemma SourceLeaves(w: World, e: SourceEvent)
    requires Inv(w) && HasCopy(StepSource(w, e))
    ensures Leaves(w, StepSource(w, e))
  {
  }

  lemma FilesLeave(w: World, e: FileEvent)
    requires Inv(w) && HasCopy(StepFiles(w, e))
    ensures var w' := StepFiles(w, e);
      Leaves(w, w') || (e.RequestManifest? && w'.proc.Discarding? && w'.blind == Blind(w'.src))
  {
    if !e.RequestManifest? {
      NothingJournaled(w, StepFiles(w, e));
    }
  }

  lemma ScanLeaves(w: World, e: ScanEvent)
    requires Inv(w) && HasScan(w) && HasCopy(StepScan(w, e))
    ensures Leaves(w, StepScan(w, e))
  {
    NothingJournaled(w, StepScan(w, e));
  }

  lemma InstallLeaves(w: World, e: InstallEvent)
    requires Inv(w) && HasCopy(StepInstall(w, e))
    ensures Leaves(w, StepInstall(w, e))
  {
    NothingJournaled(w, StepInstall(w, e));
  }

  lemma SyncLeaves(w: World, e: SyncEvent)
    requires Inv(w) && HasReplica(w) && HasCopy(StepSync(w, e))
    ensures Leaves(w, StepSync(w, e))
  {
    NothingJournaled(w, StepSync(w, e));
  }

  /** Only the manifest of a new scan sets the blind rows. */
  lemma StepLeaves(w: World, e: Event)
    requires Inv(w) && HasCopy(Step(w, e))
    ensures var w' := Step(w, e);
      Leaves(w, w') || (e == OnFiles(RequestManifest) && w'.proc.Discarding? && w'.blind == Blind(w'.src))
  {
    match e
    case OnSource(source) => SourceLeaves(w, source);
    case Crash => NothingJournaled(w, Step(w, e));
    case OnFiles(files) => FilesLeave(w, files);
    case OnScan(page) => if HasScan(w) { ScanLeaves(w, page); } else { NothingJournaled(w, w); }
    case OnInstall(install) => InstallLeaves(w, install);
    case OnSync(sync) => if HasReplica(w) { SyncLeaves(w, sync); } else { NothingJournaled(w, w); }
  }

  /** A delta's answer is pinned to the state it was read in. */
  lemma StepAnswered(w: World, e: Event)
    requires Inv(w) && Answered(Step(w, e))
    ensures (Answered(w) && Step(w, e).proc.seen == w.proc.seen && Step(w, e).proc.missed == w.proc.missed)
            || (HasCopy(w) && Step(w, e).src == w.src == Step(w, e).proc.seen && Step(w, e).proc.missed == w.blind)
  {
  }

  lemma {:induction false} CopiesAreExplained(w0: World, es: seq<Event>)
    requires Initial(w0) && HasCopy(Run(w0, es))
    ensures exists i :: BlindFrom(w0, es, i, |es|, Run(w0, es).blind)
  {
    if es != [] {
      var front, e := es[..|es| - 1], es[|es| - 1];
      var w, w' := Run(w0, front), Run(w0, es);
      RunInv(w0, front);
      StepLeaves(w, e);
      assert At(w0, es, |es|) == w' by { assert es[..|es|] == es; }
      if Leaves(w, w') {
        CopiesAreExplained(w0, front);
        var i :| BlindFrom(w0, front, i, |front|, w.blind);
        BlindFromEarlier(w0, es, i, |front|, w.blind);
        BlindFromStep(w0, es, i, |front|, w.blind);
      } else {
        assert BlindFrom(w0, es, |es|, |es|, w'.blind);
      }
    }
  }

  lemma {:induction false} AnswersAreExplained(w0: World, es: seq<Event>)
    requires Initial(w0) && Answered(Run(w0, es))
    ensures exists i, n ::
      BlindFrom(w0, es, i, n, Run(w0, es).proc.missed) && At(w0, es, n).src == Run(w0, es).proc.seen
  {
    if es != [] {
      var front, e := es[..|es| - 1], es[|es| - 1];
      var w, w' := Run(w0, front), Run(w0, es);
      RunInv(w0, front);
      StepAnswered(w, e);
      if Answered(w) && w'.proc.seen == w.proc.seen && w'.proc.missed == w.proc.missed {
        AnswersAreExplained(w0, front);
        var i, n :| BlindFrom(w0, front, i, n, w.proc.missed) && At(w0, front, n).src == w.proc.seen;
        BlindFromEarlier(w0, es, i, n, w.proc.missed);
        Earlier(w0, es, n);
        assert BlindFrom(w0, es, i, n, w'.proc.missed) && At(w0, es, n).src == w'.proc.seen;
      } else {
        CopiesAreExplained(w0, front);
        var i :| BlindFrom(w0, front, i, |front|, w.blind);
        BlindFromEarlier(w0, es, i, |front|, w.blind);
        assert At(w0, es, |front|) == w;
        assert BlindFrom(w0, es, i, |front|, w'.proc.missed) && At(w0, es, |front|).src == w'.proc.seen;
      }
    }
  }

  /** Exactly which rows a synchronised certifier misses, after any run: there is a moment at which the
      manifest of its scan was requested and a later one at which its delta was read, and it misses the
      rows the scan could not return at the first that nothing journaled before the second. */
  lemma MissedRows(w0: World, es: seq<Event>)
    requires Initial(w0) && Run(w0, es).proc.Synced?
    ensures exists i, n: nat :: MissesExactly(w0, es, i, n)
  {
    AnswersAreExplained(w0, es);
    CaughtUpMeansEqual(w0, es);
    var w := Run(w0, es);
    var i, n :| BlindFrom(w0, es, i, n, w.proc.missed) && At(w0, es, n).src == w.proc.seen;
    assert MissesExactly(w0, es, i, n);
  }

  ghost predicate MissesExactly(w0: World, es: seq<Event>, i: nat, n: nat) {
    && i <= n <= |es| && ManifestAt(w0, es, i) && Run(w0, es).disk.replica.Some?
    && var before, read, held := At(w0, es, i).src, At(w0, es, n).src, Run(w0, es).disk.replica.value;
       && (forall k :: k in held ==> k in read.rows && held[k] == read.rows[k].content)
       && (forall k | k in read.rows :: k !in held <==> Invisible(before, k) && Unjournaled(w0, es, i, n, k))
  }

  /** A row of a rowid table with rowid zero or less. */
  predicate Invisible(s: Source, k: Key) {
    k in s.rows && !(k.table < |s.withoutRowid| && (s.withoutRowid[k.table] || s.rows[k].pos > 0))
  }
}
