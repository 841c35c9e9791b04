/** The durable poll cursor of one frozen scout, the loop's own cursor, and the receipts both run ahead of. */
module ScoutCursor {
  import opened Wrappers
  import opened GapFetch

  predicate Readable(rows: seq<SignatureRow>) {
    forall i | 0 <= i < |rows| :: rows[i].slot > 0 && rows[i].signature != ""
  }

  function Newest(rows: seq<SignatureRow>, start: int): (m: int)
    ensures m >= start && forall i | 0 <= i < |rows| :: rows[i].slot <= m
    ensures m == start || exists i | 0 <= i < |rows| :: rows[i].slot == m
  {
    if rows == [] then start
    else
      var front := Newest(rows[..|rows| - 1], start);
      var last := rows[|rows| - 1];
      assert front == start || exists i | 0 <= i < |rows| - 1 ::
        rows[..|rows| - 1][i].slot == front && rows[i].slot == front;
      assert forall i | 0 <= i < |rows| - 1 :: rows[i] == rows[..|rows| - 1][i];
      if last.slot > front then last.slot else front
  }

  /** The slot of the newest row, 0 if there is none. */
  function Head(history: seq<SignatureRow>): int {
    if history == [] then 0 else history[0].slot
  }

  /** `history` is what the chain has confirmed, newest first, and `known` its rows at the very first
      start; `pending` is a completed fetch whose rows the loop has not dealt with yet. A durable cursor
      of 0 stands for none. */
  datatype State = State(history: seq<SignatureRow>, known: set<SignatureRow>, receipts: set<string>,
                         checkpoint: int, cursor: int, pending: Option<seq<SignatureRow>>, running: bool)

  /** `commits` says how the fetch is installed: with the wrapper that saves the durable cursor when the
      socket covers the scout, or without it. `readable` is false when reading the durable cursor raises,
      which the code takes for none, or when the release is new and has none. */
  datatype Step =
    | Confirm(rows: seq<SignatureRow>)
    | Receive(signature: string)
    | Fetch(commits: bool, covered: bool, pages: nat)
    | Record(covered: bool, failAt: nat)
    | Rearm(slot: int)
    | Crash
    | Restart(readable: bool, journal: bool, failAt: nat, pages: nat)

  function ReceiptsFor(rows: seq<SignatureRow>, n: nat): set<string> {
    set i | 0 <= i < n && i < |rows| && rows[i].signature != "" && rows[i].slot > 0 :: rows[i].signature
  }

  predicate Complete(s: State, cursor: int, pages: nat) {
    Reading(s.history, cursor, 0, pages).1 != PageCap
  }

  /** The rows of a completed fetch at `cursor`. */
  function Fetched(s: State, cursor: int, pages: nat): seq<SignatureRow> {
    OldestFirst(s.history[..Reading(s.history, cursor, 0, pages).0], cursor)
  }

  /** Rows are confirmed in slot order, but perhaps late: in the head's own slot, or in slots the cursors
      have passed already. Rearming takes any later confirmed slot of the chain. */
  ghost predicate Possible(s: State, step: Step) {
    match step
    case Confirm(rows) => WellFormed(rows + s.history) && Readable(rows)
    case Receive(_) => true
    case Fetch(_, _, _) => s.running && s.pending.None?
    case Record(_, _) => s.running && s.pending.Some?
    case Rearm(slot) => s.running && s.pending.None? && s.cursor < slot
    case Crash => true
    case Restart(_, _, _, _) => true
  }

  /** Fetching: the covered wrapper saves at once, before the loop reads coverage again. */
  function DoFetch(s: State, commits: bool, covered: bool, pages: nat): State {
    if !Complete(s, s.cursor, pages) then s
    else
      var rows := Fetched(s, s.cursor, pages);
      var newest := Newest(rows, s.cursor);
      s.(pending := Some(rows), checkpoint := if commits && covered && newest > 0 then newest else s.checkpoint)
  }

  /** The loop's second half: covered rows are only passed over; otherwise the rows are recorded one by
      one, then the durable cursor is saved, then the loop cursor moves. Operation failAt raises. */
  function DoRecord(s: State, covered: bool, failAt: nat): State
    requires s.pending.Some?
  {
    var rows := s.pending.value;
    var newest := Newest(rows, s.cursor);
    if rows == [] || covered then s.(pending := None, cursor := newest)
    else if failAt <= |rows| then s.(pending := None, receipts := s.receipts + ReceiptsFor(rows, failAt))
    else s.(pending := None, receipts := s.receipts + ReceiptsFor(rows, |rows|), checkpoint := newest, cursor := newest)
  }

  predicate TakesHead(s: State, readable: bool) {
    s.checkpoint == 0 || !readable
  }

  /** Starting at the head, which becomes the durable cursor if there is any row. */
  function StartAtHead(s: State): State {
    var head := Head(s.history);
    s.(checkpoint := if head > 0 then head else s.checkpoint, cursor := head, running := true, pending := None)
  }

  /** Starting again from the durable cursor, if one is found: an incomplete interval or a raising journal
      stops it. */
  function DoRestart(s: State, readable: bool, journal: bool, failAt: nat, pages: nat): State {
    var down := s.(running := false, pending := None);
    if TakesHead(s, readable) then StartAtHead(s)
    else if !Complete(s, s.checkpoint, pages) then down
    else
      var rows := Fetched(s, s.checkpoint, pages);
      var newest := Newest(rows, s.checkpoint);
      if journal && failAt <= |rows| then down.(receipts := s.receipts + ReceiptsFor(rows, failAt))
      else down.(receipts := if journal then s.receipts + ReceiptsFor(rows, |rows|) else s.receipts,
                 checkpoint := newest, cursor := newest, running := true)
  }

  ghost function Move(s: State, step: Step): State {
    if !Possible(s, step) then s
    else match step
      case Confirm(rows) => s.(history := rows + s.history)
      case Receive(signature) => s.(receipts := s.receipts + {signature})
      case Fetch(commits, covered, pages) => DoFetch(s, commits, covered, pages)
      case Record(covered, failAt) => DoRecord(s, covered, failAt)
      case Rearm(slot) => s.(cursor := slot)
      case Crash => s.(running := false, pending := None)
      case Restart(readable, journal, failAt, pages) => DoRestart(s, readable, journal, failAt, pages)
  }

  ghost function Run(s: State, steps: seq<Step>): State
    decreases |steps|
  {
    if steps == [] then s else Run(Move(s, steps[0]), steps[1..])
  }

  /** Rows of the history above the cursor, and among those up to their newest all of them. */
  ghost predicate FetchedFrom(history: seq<SignatureRow>, cursor: int, rows: seq<SignatureRow>) {
    && SomeAbove(history, cursor, rows)
    && (forall row | row in history && cursor < row.slot <= Newest(rows, cursor) :: row in rows)
  }

  ghost predicate SomeAbove(history: seq<SignatureRow>, cursor: int, rows: seq<SignatureRow>) {
    forall row | row in rows :: row in history && row.slot > cursor
  }

  ghost predicate Valid(s: State) {
    && WellFormed(s.history) && Readable(s.history) && 0 <= s.cursor && 0 <= s.checkpoint
    && (forall row | row in s.known :: row in s.history && row.slot <= s.cursor && row.slot <= s.checkpoint)
    && (s.pending.Some? ==> SomeAbove(s.history, s.cursor, s.pending.value))
  }

  /** Every row up to `cursor` that was not there at the first start has its receipt. */
  ghost predicate CommittedTo(s: State, cursor: int) {
    forall row | row in s.history && row !in s.known && row.slot <= cursor :: row.signature in s.receipts
  }

  ghost predicate AllIn(rows: seq<SignatureRow>, receipts: set<string>) {
    forall row | row in rows :: row.signature in receipts
  }

  /** The durable cursor has not passed an uncommitted row. */
  ghost predicate Committed(s: State) {
    CommittedTo(s, s.checkpoint)
  }

  lemma ReadableIsConclusive(history: seq<SignatureRow>, cursor: int, pages: nat)
    requires WellFormed(history) && Readable(history) && 0 <= cursor && Reading(history, cursor, 0, pages).1 != PageCap
    ensures OldestFirst(history[..Reading(history, cursor, 0, pages).0], cursor) == OldestFirst(history, cursor)
  {
    var at := LastPageAt(history, cursor, 0, pages);
    var page := LastPage(history, cursor, 0, pages);
    forall i | 0 <= i < |page| ensures page[i].slot > 0
      && page[i].signature != "" { assert page[i] == history[at + i]; }
    InconclusiveKinds(history, cursor, pages);
    CompleteMeansAll(history, cursor, pages);
  }

  /** What a completed fetch holds: the history's rows above the cursor. */
  lemma FetchedRows(s: State, cursor: int, pages: nat)
    requires WellFormed(s.history) && Readable(s.history) && 0 <= cursor && Complete(s, cursor, pages)
    ensures FetchedFrom(s.history, cursor, Fetched(s, cursor, pages))
    ensures forall row :: row in Fetched(s, cursor, pages) <==> row in s.history && row.slot > cursor
    ensures Readable(Fetched(s, cursor, pages))
  {
    ReadableIsConclusive(s.history, cursor, pages);
    OldestFirstMembers(s.history, cursor);
    var rows := Fetched(s, cursor, pages);
    forall i | 0 <= i < |rows| ensures rows[i].slot > 0 && rows[i].signature != "" { assert rows[i] in rows; }
  }

  lemma AboveIsReadable(history: seq<SignatureRow>, cursor: int, rows: seq<SignatureRow>)
    requires WellFormed(history) && Readable(history) && SomeAbove(history, cursor, rows)
    ensures Readable(rows) && forall row :: row in history ==> row.slot <= Head(history)
  {
    forall i | 0 <= i < |rows| ensures rows[i].slot > 0 && rows[i].signature != "" {
      assert rows[i] in rows && rows[i] in history;
    }
  }

  ghost predicate Continues(s: State, s2: State) {
    Valid(s2) && s2.known == s.known && s.receipts <= s2.receipts
      && (forall row | row in s.history :: row in s2.history)
  }

  lemma ConfirmKeepsValid(s: State, rows: seq<SignatureRow>)
    requires Valid(s) && Possible(s, Confirm(rows))
    ensures Continues(s, s.(history := rows + s.history))
  {
    var history := rows + s.history;
    forall i | 0 <= i < |history| ensures history[i].slot > 0 && history[i].signature != "" {
      if i >= |rows| { assert history[i] == s.history[i - |rows|]; }
    }
  }

  lemma FetchKeepsValid(s: State, commits: bool, covered: bool, pages: nat)
    requires Valid(s)
    ensures Continues(s, DoFetch(s, commits, covered, pages))
  {
    if Complete(s, s.cursor, pages) {
      FetchedRows(s, s.cursor, pages);
    }
  }

  lemma HeadKeepsValid(s: State)
    requires Valid(s)
    ensures Continues(s, StartAtHead(s))
  {
    AboveIsReadable(s.history, 0, []);
    hide WellFormed, Readable;
  }

  lemma RestartKeepsValid(s: State, readable: bool, journal: bool, failAt: nat, pages: nat)
    requires Valid(s)
    ensures Continues(s, DoRestart(s, readable, journal, failAt, pages))
  {
    hide Reading, OldestFirst, WellFormed, Readable, Newest;
    if TakesHead(s, readable) {
      HeadKeepsValid(s);
    }
  }

  /** Every step keeps both cursors at or above the rows known at the first start, keeps receipts and
      rows, and keeps a pending fetch one of rows above the loop cursor. */
  lemma MoveKeepsValid(s: State, step: Step)
    requires Valid(s)
    ensures Continues(s, Move(s, step))
  {
    if Possible(s, step) {
      match step
      case Confirm(rows) => ConfirmKeepsValid(s, rows);
      case Fetch(commits, covered, pages) => FetchKeepsValid(s, commits, covered, pages);
      case Restart(readable, journal, failAt, pages) => RestartKeepsValid(s, readable, journal, failAt, pages);
      case _ =>
    }
  }

  /** Where the step puts the durable cursor, if it saves it at all. */
  ghost function Saves(s: State, step: Step): Option<int> {
    if !Possible(s, step) then None
    else match step
      case Fetch(commits, covered, pages) =>
        var newest := Newest(Fetched(s, s.cursor, pages), s.cursor);
        if commits && covered && Complete(s, s.cursor, pages) && newest > 0 then Some(newest) else None
      case Record(covered, failAt) =>
        var rows := s.pending.value;
        if rows != [] && !covered && failAt > |rows| then Some(Newest(rows, s.cursor)) else None
      case Restart(readable, journal, failAt, pages) =>
        var rows := Fetched(s, s.checkpoint, pages);
        if TakesHead(s, readable) then if Head(s.history) > 0 then Some(Head(s.history)) else None
        else if Complete(s, s.checkpoint, pages) && !(journal && failAt <= |rows|) then Some(Newest(rows, s.checkpoint))
        else None
      case _ => None
  }

  /** The rows confirmed since the fetch, in slots it went past, have their receipts. */
  ghost predicate LateIn(s: State, cursor: int, rows: seq<SignatureRow>) {
    forall row | row in s.history && cursor < row.slot <= Newest(rows, cursor) && row !in rows ::
      row.signature in s.receipts
  }

  /** What a caller could check before a save: everything up to the cursor the rows were fetched at has
      its receipt, so have rows confirmed late, and so do the rows themselves unless this very step
      records them. Before a confirmation: the rows the durable cursor has passed have theirs. */
  ghost predicate Guarded(s: State, step: Step) {
    match step
    case Confirm(rows) => forall row | row in rows && row.slot <= s.checkpoint :: row.signature in s.receipts
    case Fetch(_, _, pages) => CommittedTo(s, s.cursor) && AllIn(Fetched(s, s.cursor, pages), s.receipts)
    case Record(_, _) => s.pending.Some? && CommittedTo(s, s.cursor) && LateIn(s, s.cursor, s.pending.value)
    case Restart(readable, journal, _, pages) =>
      if TakesHead(s, readable) then CommittedTo(s, Head(s.history))
      else CommittedTo(s, s.checkpoint) && (journal || AllIn(Fetched(s, s.checkpoint, pages), s.receipts))
    case _ => true
  }

  /** Everything up to the newest fetched row has its receipt exactly when everything up to the cursor,
      every fetched row, and every row confirmed late has. */
  lemma AdvanceIsSafeIff(s: State, cursor: int, rows: seq<SignatureRow>)
    requires SomeAbove(s.history, cursor, rows) && forall row | row in s.known :: row.slot <= cursor
    ensures CommittedTo(s, Newest(rows, cursor)) <==>
      CommittedTo(s, cursor) && AllIn(rows, s.receipts) && LateIn(s, cursor, rows)
  {
    var newest := Newest(rows, cursor);
    if CommittedTo(s, newest) {
      forall row | row in rows ensures row.signature in s.receipts {
        var i :| 0 <= i < |rows| && rows[i] == row;
      }
    }
  }

  lemma RecordedRowsAreIn(rows: seq<SignatureRow>, receipts: set<string>)
    requires Readable(rows)
    ensures AllIn(rows, receipts + ReceiptsFor(rows, |rows|))
  {
    forall row | row in rows ensures row.signature in ReceiptsFor(rows, |rows|) {
      var i :| 0 <= i < |rows| && rows[i] == row;
    }
  }

  lemma DistinctRows(history: seq<SignatureRow>, a: SignatureRow, b: SignatureRow)
    requires Distinct(history) && a in history && b in history && a != b && a.signature != ""
    ensures a.signature != b.signature
  {
    var i :| 0 <= i < |history| && history[i] == a;
    var j :| 0 <= j < |history| && history[j] == b;
    if i < j {
      assert history[i].signature != history[j].signature;
    } else {
      assert history[j].signature == "" || history[j].signature != history[i].signature;
    }
  }

  /** Recording fetched rows gives no receipt to any other row. */
  lemma RecordingIsSeparate(history: seq<SignatureRow>, cursor: int, rows: seq<SignatureRow>, n: nat, row: SignatureRow)
    requires WellFormed(history) && SomeAbove(history, cursor, rows) && row in history && row !in rows
    ensures row.signature !in ReceiptsFor(rows, n)
  {
    forall i | 0 <= i < n && i < |rows| && rows[i].signature != "" ensures rows[i].signature != row.signature {
      assert rows[i] in rows;
      DistinctRows(history, rows[i], row);
    }
  }

  lemma RecordIsSafeIff(s: State, cursor: int, rows: seq<SignatureRow>)
    requires WellFormed(s.history) && Readable(s.history) && SomeAbove(s.history, cursor, rows)
    requires forall row | row in s.known :: row.slot <= cursor
    ensures CommittedTo(s.(receipts := s.receipts + ReceiptsFor(rows, |rows|)), Newest(rows, cursor)) <==>
      CommittedTo(s, cursor) && LateIn(s, cursor, rows)
  {
    var s2 := s.(receipts := s.receipts + ReceiptsFor(rows, |rows|));
    AboveIsReadable(s.history, cursor, rows);
    RecordedRowsAreIn(rows, s.receipts);
    AdvanceIsSafeIff(s2, cursor, rows);
    forall row | row in s.history && row !in rows ensures row.signature !in ReceiptsFor(rows, |rows|) {
      RecordingIsSeparate(s.history, cursor, rows, |rows|, row);
    }
    hide Newest, ReceiptsFor, WellFormed, Readable;
  }

  lemma FetchSaveIsSafeIff(s: State, commits: bool, covered: bool, pages: nat)
    requires Valid(s) && Saves(s, Fetch(commits, covered, pages)).Some?
    ensures Committed(DoFetch(s, commits, covered, pages)) <==> Guarded(s, Fetch(commits, covered, pages))
  {
    FetchedRows(s, s.cursor, pages);
    AdvanceIsSafeIff(s, s.cursor, Fetched(s, s.cursor, pages));
  }

  lemma RestartSaveIsSafeIff(s: State, readable: bool, journal: bool, failAt: nat, pages: nat)
    requires Valid(s) && Saves(s, Restart(readable, journal, failAt, pages)).Some?
    ensures Committed(DoRestart(s, readable, journal, failAt, pages)) <==>
      Guarded(s, Restart(readable, journal, failAt, pages))
  {
    var rows := Fetched(s, s.checkpoint, pages);
    if !TakesHead(s, readable) {
      FetchedRows(s, s.checkpoint, pages);
      if journal {
        RecordIsSafeIff(s, s.checkpoint, rows);
      } else {
        AdvanceIsSafeIff(s, s.checkpoint, rows);
      }
    }
  }

  /** The exact condition: a save leaves the durable cursor behind every uncommitted row if and only if
      its guard holds beforehand, whatever state the run is in. */
  lemma SaveIsSafeIff(s: State, step: Step)
    requires Valid(s) && Saves(s, step).Some?
    ensures Move(s, step).checkpoint == Saves(s, step).value
    ensures Committed(Move(s, step)) <==> Guarded(s, step)
  {
    match step
    case Fetch(commits, covered, pages) => FetchSaveIsSafeIff(s, commits, covered, pages);
    case Record(_, _) => RecordIsSafeIff(s, s.cursor, s.pending.value);
    case Restart(readable, journal, failAt, pages) => RestartSaveIsSafeIff(s, readable, journal, failAt, pages);
  }

  /** New rows leave the durable cursor safe if and only if it was, and the rows it has passed already,
      in the head's own slot or up to a rearmed cursor, have their receipts. */
  lemma ConfirmIsSafeIff(s: State, rows: seq<SignatureRow>)
    requires Valid(s) && Possible(s, Confirm(rows))
    ensures Committed(Move(s, Confirm(rows))) <==> Committed(s) && Guarded(s, Confirm(rows))
  {
    LaterRowsAreNotKnown(s, rows);
    var s2 := Move(s, Confirm(rows));
    assert forall row :: row in s2.history <==> row in rows || row in s.history;
  }

  lemma LaterRowsAreNotKnown(s: State, rows: seq<SignatureRow>)
    requires Valid(s) && Possible(s, Confirm(rows))
    ensures forall row | row in rows :: row !in s.known
  {
    var history := rows + s.history;
    forall i, j | 0 <= i < |rows| && 0 <= j < |s.history| ensures rows[i] != s.history[j] {
      assert history[i] == rows[i] && history[|rows| + j] == s.history[j];
    }
  }

  /** In terms of the rows between the two cursors, for a durable cursor that was safe so far. */
  lemma GapBetweenCursors(s: State)
    requires Valid(s) && Committed(s)
    ensures CommittedTo(s, s.cursor) <==>
      forall row | row in s.history && s.checkpoint < row.slot <= s.cursor :: row.signature in s.receipts
  {
  }

  /** A step that neither saves nor confirms keeps the durable cursor safe. */
  lemma OtherStepsAreSafe(s: State, step: Step)
    requires Valid(s) && Saves(s, step).None? && !(step.Confirm? && Possible(s, step))
    ensures Move(s, step).checkpoint == s.checkpoint && (Committed(s) ==> Committed(Move(s, step)))
  {
    hide Reading, OldestFirst, Newest, WellFormed, Readable;
  }

  // ---- runs ----

  ghost predicate NeverAhead(s: State, steps: seq<Step>)
    decreases |steps|
  {
    Committed(s) && (steps == [] || NeverAhead(Move(s, steps[0]), steps[1..]))
  }

  ghost predicate AllGuarded(s: State, steps: seq<Step>)
    decreases |steps|
  {
    steps == [] || ((Saves(s, steps[0]).Some? || (steps[0].Confirm? && Possible(s, steps[0])) ==> Guarded(s, steps[0]))
                    && AllGuarded(Move(s, steps[0]), steps[1..]))
  }

  /** Over any run the durable cursor never passes an uncommitted row if and only if it starts behind
      them and the guard holds before each save and each confirmation. */
  lemma {:induction false} NeverAheadIff(s: State, steps: seq<Step>)
    requires Valid(s)
    ensures NeverAhead(s, steps) <==> Committed(s) && AllGuarded(s, steps)
    decreases |steps|
  {
    if steps != [] {
      var s2 := Move(s, steps[0]);
      MoveKeepsValid(s, steps[0]);
      if Saves(s, steps[0]).Some? {
        SaveIsSafeIff(s, steps[0]);
      } else if steps[0].Confirm? && Possible(s, steps[0]) {
        ConfirmIsSafeIff(s, steps[0].rows);
      } else {
        OtherStepsAreSafe(s, steps[0]);
      }
      NeverAheadIff(s2, steps[1..]);
    }
  }

  /** Both cursors are behind every uncommitted row. */
  ghost predicate BothCommitted(s: State) {
    CommittedTo(s, s.checkpoint) && CommittedTo(s, s.cursor)
  }

  /** The rows a step passes over without recording them itself, or confirms although they are passed. */
  ghost predicate Passes(s: State, step: Step, row: SignatureRow) {
    && Possible(s, step)
    && match step
       case Confirm(rows) => row in rows && (row.slot <= s.cursor || row.slot <= s.checkpoint)
       case Fetch(commits, covered, pages) =>
         commits && covered && Complete(s, s.cursor, pages) && row in Fetched(s, s.cursor, pages)
       case Record(covered, failAt) =>
         var rows := s.pending.value;
         && row in s.history && s.cursor < row.slot <= Newest(rows, s.cursor)
         && (covered || (row !in rows && failAt > |rows|))
       case Rearm(slot) => row in s.history && s.cursor < row.slot <= slot
       case Restart(readable, journal, _, pages) =>
         if TakesHead(s, readable) then row in s.history && row !in s.known
         else !journal && Complete(s, s.checkpoint, pages) && row in Fetched(s, s.checkpoint, pages)
       case _ => false
  }

  ghost predicate Trusted(s: State, step: Step) {
    forall row | Passes(s, step, row) :: row.signature in s.receipts
  }

  lemma ConfirmKeepsBothIff(s: State, rows: seq<SignatureRow>)
    requires Valid(s) && BothCommitted(s) && Possible(s, Confirm(rows))
    ensures BothCommitted(s.(history := rows + s.history)) <==> Trusted(s, Confirm(rows))
  {
    LaterRowsAreNotKnown(s, rows);
    assert forall row :: row in rows + s.history <==> row in rows || row in s.history;
  }

  lemma FetchKeepsBothIff(s: State, commits: bool, covered: bool, pages: nat)
    requires Valid(s) && BothCommitted(s) && Possible(s, Fetch(commits, covered, pages))
    ensures BothCommitted(DoFetch(s, commits, covered, pages)) <==> Trusted(s, Fetch(commits, covered, pages))
  {
    if Complete(s, s.cursor, pages) {
      FetchedRows(s, s.cursor, pages);
      AdvanceIsSafeIff(s, s.cursor, Fetched(s, s.cursor, pages));
    }
  }

  lemma RecordKeepsBothIff(s: State, covered: bool, failAt: nat)
    requires Valid(s) && BothCommitted(s) && Possible(s, Record(covered, failAt))
    ensures BothCommitted(DoRecord(s, covered, failAt)) <==> Trusted(s, Record(covered, failAt))
  {
    var rows := s.pending.value;
    AdvanceIsSafeIff(s, s.cursor, rows);
    RecordIsSafeIff(s, s.cursor, rows);
    RecordPasses(s, covered, failAt);
    hide Newest, ReceiptsFor, Trusted, LateIn, AllIn, WellFormed, Readable;
  }

  lemma RecordPasses(s: State, covered: bool, failAt: nat)
    requires Valid(s) && Possible(s, Record(covered, failAt))
    ensures Trusted(s, Record(covered, failAt)) <==>
      if covered then AllIn(s.pending.value, s.receipts) && LateIn(s, s.cursor, s.pending.value)
      else failAt > |s.pending.value| ==> LateIn(s, s.cursor, s.pending.value)
  {
    var rows := s.pending.value;
    forall row | row in rows ensures s.cursor < row.slot <= Newest(rows, s.cursor) {
      var i :| 0 <= i < |rows| && rows[i] == row;
    }
  }

  lemma RestartPasses(s: State, readable: bool, journal: bool, failAt: nat, pages: nat)
    requires Valid(s) && Saves(s, Restart(readable, journal, failAt, pages)).Some? && CommittedTo(s, s.checkpoint)
    ensures Trusted(s, Restart(readable, journal, failAt, pages)) <==>
      Guarded(s, Restart(readable, journal, failAt, pages))
  {
    if TakesHead(s, readable) {
      AboveIsReadable(s.history, 0, []);
    } else {
      FetchedRows(s, s.checkpoint, pages);
    }
  }

  /** A restart that does not save passes nothing. */
  lemma RestartStays(s: State, readable: bool, journal: bool, failAt: nat, pages: nat)
    requires Valid(s) && BothCommitted(s) && Saves(s, Restart(readable, journal, failAt, pages)).None?
    ensures BothCommitted(DoRestart(s, readable, journal, failAt, pages))
    ensures Trusted(s, Restart(readable, journal, failAt, pages))
  {
    hide Reading, OldestFirst, Newest, FetchedFrom;
  }

  lemma RestartKeepsBothIff(s: State, readable: bool, journal: bool, failAt: nat, pages: nat)
    requires Valid(s) && BothCommitted(s)
    ensures BothCommitted(DoRestart(s, readable, journal, failAt, pages)) <==>
      Trusted(s, Restart(readable, journal, failAt, pages))
  {
    if Saves(s, Restart(readable, journal, failAt, pages)).Some? {
      RestartSaveIsSafeIff(s, readable, journal, failAt, pages);
      RestartPasses(s, readable, journal, failAt, pages);
      hide CommittedTo, Trusted, Guarded, Reading, OldestFirst, Newest, Valid;
    } else {
      RestartStays(s, readable, journal, failAt, pages);
    }
  }

  /** A step leaves both cursors behind every uncommitted row if and only if each row it passes over has
      its receipt, from the socket or from an earlier step. */
  lemma BothStayIff(s: State, step: Step)
    requires Valid(s) && BothCommitted(s)
    ensures BothCommitted(Move(s, step)) <==> Trusted(s, step)
  {
    if Possible(s, step) {
      match step
      case Confirm(rows) => ConfirmKeepsBothIff(s, rows);
      case Fetch(commits, covered, pages) => FetchKeepsBothIff(s, commits, covered, pages);
      case Record(covered, failAt) => RecordKeepsBothIff(s, covered, failAt);
      case Restart(readable, journal, failAt, pages) => RestartKeepsBothIff(s, readable, journal, failAt, pages);
      case _ =>
    }
  }

  ghost predicate BothNeverAhead(s: State, steps: seq<Step>)
    decreases |steps|
  {
    BothCommitted(s) && (steps == [] || BothNeverAhead(Move(s, steps[0]), steps[1..]))
  }

  ghost predicate AllTrusted(s: State, steps: seq<Step>)
    decreases |steps|
  {
    steps == [] || (Trusted(s, steps[0]) && AllTrusted(Move(s, steps[0]), steps[1..]))
  }

  /** Over any run neither cursor passes an uncommitted row if and only if whatever is passed over
      unrecorded already had its receipt; then the durable cursor never does. */
  lemma {:induction false} BothNeverAheadIff(s: State, steps: seq<Step>)
    requires Valid(s)
    ensures BothNeverAhead(s, steps) <==> BothCommitted(s) && AllTrusted(s, steps)
    ensures BothNeverAhead(s, steps) ==> NeverAhead(s, steps)
    decreases |steps|
  {
    if steps != [] && BothCommitted(s) {
      MoveKeepsValid(s, steps[0]);
      BothStayIff(s, steps[0]);
      BothNeverAheadIff(Move(s, steps[0]), steps[1..]);
    }
  }

  /** Steps that record whatever they pass. */
  predicate Recording(step: Step) {
    match step
    case Fetch(commits, covered, _) => !(commits && covered)
    case Record(covered, _) => !covered
    case Rearm(_) => false
    case Restart(readable, journal, _, _) => readable && journal
    case _ => true
  }

  lemma CheckpointStaysSet(s: State, step: Step)
    requires Valid(s) && s.checkpoint > 0
    ensures Move(s, step).checkpoint > 0
  {
    if Saves(s, step).Some? && step.Record? {
      assert s.pending.value[0] in s.pending.value;
    }
  }

  /** How far the loop, its pending fetch and the durable cursor have come. */
  function Passed(s: State): int {
    var fetched := if s.pending.Some? then Newest(s.pending.value, s.cursor) else s.cursor;
    if s.checkpoint > fetched then s.checkpoint else fetched
  }

  /** No row is confirmed late. */
  ghost predicate AllTimely(s: State, steps: seq<Step>)
    decreases |steps|
  {
    steps == [] || (Timely(s, steps[0]) && AllTimely(Move(s, steps[0]), steps[1..]))
  }

  predicate Timely(s: State, step: Step) {
    step.Confirm? ==> forall row | row in step.rows :: row.slot > Passed(s)
  }

  /** The pending fetch has missed nothing up to its newest row. */
  ghost predicate Whole(s: State) {
    s.pending.Some? ==> FetchedFrom(s.history, s.cursor, s.pending.value)
  }

  lemma MoveKeepsWhole(s: State, step: Step)
    requires Valid(s) && Whole(s) && Timely(s, step)
    ensures Whole(Move(s, step))
  {
    if step.Fetch? && Possible(s, step) && Complete(s, s.cursor, step.pages) {
      FetchedRows(s, s.cursor, step.pages);
    }
  }

  lemma RecordingIsTrusted(s: State, step: Step)
    requires Valid(s) && s.checkpoint > 0 && Whole(s) && Timely(s, step) && Recording(step)
    ensures Trusted(s, step)
  {
    hide Reading, OldestFirst;
  }

  /** While no socket covers the scout, no row is confirmed late and every restart can read the durable
      cursor, once there is one any mixture of new rows, failing fetches and recorders, crashes and
      restarts with a journal keeps it behind every uncommitted row. */
  lemma {:induction false} UncoveredRunsAreSafe(s: State, steps: seq<Step>)
    requires Valid(s) && BothCommitted(s) && Whole(s) && s.checkpoint > 0 && AllTimely(s, steps)
    requires forall i | 0 <= i < |steps| :: Recording(steps[i])
    ensures NeverAhead(s, steps) && BothCommitted(Run(s, steps))
    decreases |steps|
  {
    if steps != [] {
      assert Recording(steps[0]);
      MoveKeepsValid(s, steps[0]);
      MoveKeepsWhole(s, steps[0]);
      CheckpointStaysSet(s, steps[0]);
      RecordingIsTrusted(s, steps[0]);
      BothStayIff(s, steps[0]);
      UncoveredRunsAreSafe(Move(s, steps[0]), steps[1..]);
    }
  }

  /** A restart that cannot read the durable cursor puts the head in its place: from every state that is
      safe if and only if every row has its receipt or was known at the first start. */
  lemma UnreadableRestartIff(s: State, journal: bool, failAt: nat, pages: nat)
    requires Valid(s) && s.history != []
    ensures Move(s, Restart(false, journal, failAt, pages)).checkpoint == Head(s.history)
    ensures Committed(Move(s, Restart(false, journal, failAt, pages))) <==>
      forall row | row in s.history && row !in s.known :: row.signature in s.receipts
  {
    AboveIsReadable(s.history, 0, []);
  }

  lemma OneRowIsCollected(page: seq<SignatureRow>, cursor: int)
    requires |page| > 0 && Wanted(page[0], cursor) && forall i | 0 < i < |page| :: page[i].slot <= cursor
    ensures OldestFirst(page, cursor) == [page[0]]
  {
    NothingWanted(page[1..], cursor);
  }

  /** One row above the cursor is what a fetch yields, in one page. */
  lemma OneRowIsFetched(older: seq<SignatureRow>, row: SignatureRow)
    requires older != [] && older[0].slot > 0 && row.signature != "" && row.slot > older[0].slot
    requires forall i | 0 <= i < |older| :: older[i].slot <= older[0].slot
    ensures var history, cursor := [row] + older, older[0].slot;
      Reading(history, cursor, 0, 1).1 == CursorReached
        && OldestFirst(history[..Reading(history, cursor, 0, 1).0], cursor) == [row]
  {
    var history, cursor := [row] + older, older[0].slot;
    var page := Take(history[0..], POLL_LIMIT);
    assert history[0..] == history;
    assert page[1] == older[0];
    assert Reaches(page, cursor);
    assert Verdict(page, cursor) == Some(CursorReached);
    assert page == history[..|page|];
    forall i | 0 < i < |page| ensures page[i].slot <= cursor { assert page[i] == older[i - 1]; }
    OneRowIsCollected(page, cursor);
  }

  /** The loop is idle at the head. */
  ghost predicate CaughtUp(s: State) {
    Valid(s) && s.running && s.pending.None? && s.history != [] && s.cursor == Head(s.history)
  }

  /** The row may be confirmed next. */
  ghost predicate Next(s: State, row: SignatureRow) {
    && row.signature != "" && row.slot > Head(s.history)
    && forall i | 0 <= i < |s.history| :: s.history[i].signature != row.signature
  }

  lemma OneMoreRow(s: State, row: SignatureRow)
    requires Valid(s) && Next(s, row)
    ensures Possible(s, Confirm([row])) && Valid(s.(history := [row] + s.history))
  {
    var history := [row] + s.history;
    forall i, j | 0 <= i < j < |history|
      ensures history[j].slot <= history[i].slot && history[i].signature != history[j].signature
    {
      assert history[j] == s.history[j - 1];
      if i > 0 { assert history[i] == s.history[i - 1]; }
    }
    ConfirmKeepsValid(s, [row]);
  }

  /** A cycle of the loop for one new row, under the installation that only replaces the recorder. */
  function Cycle(row: SignatureRow, covered: bool): seq<Step> {
    [Confirm([row]), Fetch(false, covered, 1), Record(covered, 2)]
  }

  lemma RunThree(s: State, a: Step, b: Step, c: Step)
    ensures Run(s, [a, b, c]) == Move(Move(Move(s, a), b), c)
  {
    assert [a, b, c][1..] == [b, c] && [b, c][1..] == [c];
    assert Run(Move(Move(s, a), b), [c]) == Run(Move(Move(Move(s, a), b), c), []);
  }

  ghost function AfterCycle(s: State, row: SignatureRow, covered: bool): State {
    var seen := s.(history := [row] + s.history, cursor := row.slot);
    if covered then seen else seen.(checkpoint := row.slot, receipts := s.receipts + {row.signature})
  }

  /** A cycle moves the loop cursor over the row; it saves, and gives the receipt, only if uncovered. */
  lemma CycleMoves(s: State, row: SignatureRow, covered: bool)
    requires CaughtUp(s) && Next(s, row)
    ensures Run(s, Cycle(row, covered)) == AfterCycle(s, row, covered)
    ensures CaughtUp(AfterCycle(s, row, covered))
  {
    var steps := Cycle(row, covered);
    OneMoreRow(s, row);
    OneRowIsFetched(s.history, row);
    var s1 := s.(history := [row] + s.history);
    assert Move(s, steps[0]) == s1;
    var s2 := s1.(pending := Some([row]));
    assert Move(s1, steps[1]) == s2;
    RowIsRecorded(s2, row, covered);
    RunThree(s, steps[0], steps[1], steps[2]);
  }

  lemma RowIsRecorded(s: State, row: SignatureRow, covered: bool)
    requires s.running && s.pending == Some([row]) && row.slot > s.cursor && row.slot > 0 && row.signature != ""
    ensures Move(s, Record(covered, 2)) ==
      if covered then s.(pending := None, cursor := row.slot)
      else s.(pending := None, cursor := row.slot, checkpoint := row.slot, receipts := s.receipts + {row.signature})
  {
    var rows := [row];
    assert rows[..0] == [] && Newest(rows[..0], s.cursor) == s.cursor;
    assert rows[0] == row && ReceiptsFor(rows, 1) == {row.signature};
  }

  lemma TwoMoreRows(s: State, missed: SignatureRow, later: SignatureRow)
    requires Valid(s) && CommittedTo(s, Head(s.history))
    requires Head(s.history) < missed.slot < later.slot && missed.signature != later.signature
    ensures var history := [later] + ([missed] + s.history);
      CommittedTo(s.(history := history, receipts := s.receipts + {later.signature}), later.slot)
      <==> missed.signature in s.receipts
  {
    var history := [later] + ([missed] + s.history);
    assert missed in history by { assert history[1] == missed; }
    forall row | row in s.history ensures row.slot <= Head(s.history) {
    }
    hide Head, WellFormed, Readable;
  }

  /** The failing runs: a covered cycle, then an uncovered one. The second saves past the first one's row,
      so the durable cursor is ahead if and only if the socket never delivered that row. */
  lemma CoveredThenUncovered(s: State, missed: SignatureRow, later: SignatureRow)
    requires CaughtUp(s) && BothCommitted(s) && Next(s, missed)
    requires Next(AfterCycle(s, missed, true), later)
    ensures Committed(Run(s, Cycle(missed, true) + Cycle(later, false))) <==> missed.signature in s.receipts
  {
    var s2 := AfterCycle(s, missed, true);
    assert s2.history[0] == missed;
    CycleMoves(s, missed, true);
    CycleMoves(s2, later, false);
    RunAppend(s, Cycle(missed, true), Cycle(later, false));
    TwoMoreRows(s, missed, later);
    hide CommittedTo, Run, Cycle, Valid;
  }

  lemma OneMoreOwed(s: State, missed: SignatureRow)
    requires Valid(s) && CommittedTo(s, Head(s.history)) && Next(s, missed)
    ensures var history := [missed] + s.history;
      (forall row | row in history && row !in s.known :: row.signature in s.receipts) <==>
        missed.signature in s.receipts
  {
    AboveIsReadable(s.history, 0, []);
    assert missed !in s.history;
    assert ([missed] + s.history)[0] == missed;
    hide WellFormed, Readable;
  }

  /** The failing runs of a restart, whatever the journal does: a crash, one more row, and a restart that
      cannot read the durable cursor. It ends past the row, which is safe if and only if the socket had
      delivered it. */
  lemma CrashThenUnreadable(s: State, missed: SignatureRow, journal: bool, failAt: nat, pages: nat)
    requires Valid(s) && CommittedTo(s, Head(s.history)) && Next(s, missed)
    ensures var end := Run(s, [Step.Crash, Confirm([missed]), Restart(false, journal, failAt, pages)]);
      end.checkpoint == missed.slot && (Committed(end) <==> missed.signature in s.receipts)
  {
    var down := s.(running := false, pending := None);
    var s2 := down.(history := [missed] + s.history);
    OneMoreRow(down, missed);
    OneMoreOwed(s, missed);
    RunThree(s, Step.Crash, Confirm([missed]), Restart(false, journal, failAt, pages));
    assert Move(s, Step.Crash) == down && Move(down, Confirm([missed])) == s2;
    UnreadableRestartIff(s2, journal, failAt, pages);
    hide Valid, Committed, CommittedTo, Run, Move;
  }

  lemma {:induction false} RunAppend(s: State, a: seq<Step>, b: seq<Step>)
    ensures Run(s, a + b) == Run(Run(s, a), b)
    decreases |a|
  {
    if a == [] {
      assert a + b == b;
    } else {
      assert (a + b)[1..] == a[1..] + b;
      RunAppend(Move(s, a[0]), a[1..], b);
    }
  }

  // ---- rows confirmed late ----

  /** Neither the socket's delivery of this signature nor a restart that cannot read the durable cursor. */
  predicate Plain(step: Step, signature: string) {
    match step
    case Receive(x) => x != signature
    case Restart(readable, _, _, _) => readable
    case _ => true
  }

  /** A row without receipt that the durable cursor, if there is one, has passed, and the loop too if it
      runs. */
  ghost predicate Behind(s: State, row: SignatureRow) {
    && row in s.history && row.signature !in s.receipts
    && (s.checkpoint == 0 || row.slot <= s.checkpoint) && (s.running ==> row.slot <= s.cursor)
  }

  lemma FetchStaysBehind(s: State, commits: bool, covered: bool, pages: nat, row: SignatureRow)
    requires Valid(s) && Behind(s, row) && s.running
    ensures Behind(DoFetch(s, commits, covered, pages), row)
  {
  }

  lemma RecordStaysBehind(s: State, covered: bool, failAt: nat, row: SignatureRow)
    requires Valid(s) && Behind(s, row) && s.running && s.pending.Some?
    ensures Behind(DoRecord(s, covered, failAt), row)
  {
    var rows := s.pending.value;
    RecordingIsSeparate(s.history, s.cursor, rows, failAt, row);
    RecordingIsSeparate(s.history, s.cursor, rows, |rows|, row);
  }

  lemma RestartStaysBehind(s: State, journal: bool, failAt: nat, pages: nat, row: SignatureRow)
    requires Valid(s) && Behind(s, row)
    ensures Behind(DoRestart(s, true, journal, failAt, pages), row)
  {
    if s.checkpoint == 0 {
      AboveIsReadable(s.history, 0, []);
    } else if Complete(s, s.checkpoint, pages) {
      var rows := Fetched(s, s.checkpoint, pages);
      FetchedRows(s, s.checkpoint, pages);
      RecordingIsSeparate(s.history, s.checkpoint, rows, failAt, row);
      RecordingIsSeparate(s.history, s.checkpoint, rows, |rows|, row);
      hide Reading, OldestFirst, ReceiptsFor;
    }
  }

  lemma StaysBehind(s: State, step: Step, row: SignatureRow)
    requires Valid(s) && Behind(s, row) && Plain(step, row.signature)
    ensures Behind(Move(s, step), row)
  {
    if Possible(s, step) {
      match step
      case Fetch(commits, covered, pages) => FetchStaysBehind(s, commits, covered, pages, row);
      case Record(covered, failAt) => RecordStaysBehind(s, covered, failAt, row);
      case Restart(_, journal, failAt, pages) => RestartStaysBehind(s, journal, failAt, pages, row);
      case _ =>
    }
  }

  lemma {:induction false} BehindForGood(s: State, steps: seq<Step>, row: SignatureRow)
    requires Valid(s) && Behind(s, row) && forall i | 0 <= i < |steps| :: Plain(steps[i], row.signature)
    ensures row.signature !in Run(s, steps).receipts
    decreases |steps|
  {
    if steps != [] {
      assert Plain(steps[0], row.signature);
      MoveKeepsValid(s, steps[0]);
      StaysBehind(s, steps[0], row);
      BehindForGood(Move(s, steps[0]), steps[1..], row);
    }
  }

  /** Some run without the socket's help and with readable restarts gives the row its receipt. */
  ghost predicate CanBeRecorded(s: State, row: SignatureRow) {
    exists steps: seq<Step> ::
      (forall i | 0 <= i < |steps| :: Plain(steps[i], row.signature)) && row.signature in Run(s, steps).receipts
  }

  lemma AboveIsFetched(s: State, cursor: int, row: SignatureRow) returns (pages: nat)
    requires Valid(s) && row in s.history && row.slot > cursor >= 0
    ensures Complete(s, cursor, pages)
    ensures var rows := Fetched(s, cursor, pages); row in rows && row.signature in ReceiptsFor(rows, |rows|)
  {
    pages := |s.history| + 1;
    EnoughPages(s.history, cursor, 0);
    FetchedRows(s, cursor, pages);
    var rows := Fetched(s, cursor, pages);
    var i :| 0 <= i < |rows| && rows[i] == row;
  }

  lemma RestartRecords(s: State, row: SignatureRow)
    requires Valid(s) && row in s.history && row.slot > s.checkpoint > 0
    ensures CanBeRecorded(s, row)
  {
    var pages := AboveIsFetched(s, s.checkpoint, row);
    var restart := Restart(true, true, |Fetched(s, s.checkpoint, pages)| + 1, pages);
    assert Run(s, [restart]) == Run(Move(s, restart), []);
    assert row.signature in Run(s, [restart]).receipts;
  }

  lemma PollRecords(s: State, row: SignatureRow)
    requires Valid(s) && row in s.history && s.running && row.slot > s.cursor
    ensures CanBeRecorded(s, row)
  {
    hide Reading, OldestFirst, Newest;
    var s1 := Move(s, Record(false, 0));
    MoveKeepsValid(s, Record(false, 0));
    var pages := AboveIsFetched(s1, s1.cursor, row);
    var n := |Fetched(s1, s1.cursor, pages)| + 1;
    var steps := [Record(false, 0), Step.Fetch(false, false, pages), Record(false, n)];
    RunThree(s, steps[0], steps[1], steps[2]);
    assert row.signature in Run(s, steps).receipts;
  }

  /** The exact condition under which a row is lost to the polls, in particular one confirmed late, in the
      head's own slot or below a rearmed cursor: no run gives it its receipt if and only if the durable
      cursor, if there is one, has passed it and so has the loop's, if it runs. */
  lemma LostIff(s: State, row: SignatureRow)
    requires Valid(s) && row in s.history && row.signature !in s.receipts
    ensures !CanBeRecorded(s, row) <==>
      (s.checkpoint == 0 || row.slot <= s.checkpoint) && (s.running ==> row.slot <= s.cursor)
  {
    if s.checkpoint > 0 && row.slot > s.checkpoint {
      RestartRecords(s, row);
    } else if s.running && row.slot > s.cursor {
      PollRecords(s, row);
    } else {
      forall steps: seq<Step> | forall i | 0 <= i < |steps| :: Plain(steps[i], row.signature)
        ensures row.signature !in Run(s, steps).receipts
      {
        BehindForGood(s, steps, row);
      }
    }
  }

  // ---- the loop and its recorder ----

  lemma OneMoreReceipt(rows: seq<SignatureRow>, i: nat)
    requires i < |rows|
    ensures ReceiptsFor(rows, i + 1) ==
      ReceiptsFor(rows, i) + if rows[i].signature != "" && rows[i].slot > 0 then {rows[i].signature} else {}
  {
  }

  /** The first start, at the head. */
  function Begun(history: seq<SignatureRow>, receipts: set<string>): State {
    State(history, (set row | row in history), receipts, Head(history), Head(history), None, true)
  }

  class Scout {
    ghost const known: set<SignatureRow>
    var receipts: set<string>
    var checkpoint: int
    var cursor: int
    var pending: Option<seq<SignatureRow>>
    var running: bool

    ghost function View(history: seq<SignatureRow>): State
      reads this
    {
      State(history, known, receipts, checkpoint, cursor, pending, running)
    }

    constructor (history: seq<SignatureRow>, received: set<string>)
      requires WellFormed(history) && Readable(history)
      ensures View(history) == Begun(history, received) && Valid(View(history)) && BothCommitted(View(history))
    {
      known := set row | row in history;
      receipts, checkpoint, cursor := received, Head(history), Head(history);
      pending, running := None, true;
    }

    method Save(slot: int)
      modifies this`checkpoint
      ensures checkpoint == if slot > 0 then slot else old(checkpoint)
    {
      if slot > 0 {
        checkpoint := slot;
      }
    }

    /** The journal records rows in order; record number failAt raises. */
    method RecordRows(rows: seq<SignatureRow>, failAt: nat) returns (ok: bool)
      modifies this`receipts
      ensures ok == (failAt >= |rows|) && receipts == old(receipts) + ReceiptsFor(rows, failAt)
    {
      for i := 0 to |rows|
        invariant i <= failAt && receipts == old(receipts) + ReceiptsFor(rows, i)
      {
        if i == failAt {
          return false;
        }
        OneMoreReceipt(rows, i);
        if rows[i].signature != "" && rows[i].slot > 0 {
          receipts := receipts + {rows[i].signature};
        }
      }
      assert ReceiptsFor(rows, failAt) == ReceiptsFor(rows, |rows|);
      return true;
    }

    /** Page by page at the loop cursor, while the head may grow. */
    method Fetch(view: nat -> seq<SignatureRow>, commits: bool, covered: bool, pages: nat)
      requires Grows(view) && Possible(View(view(0)), Step.Fetch(commits, covered, pages))
      modifies this
      ensures View(view(0)) == Move(old(View(view(0))), Step.Fetch(commits, covered, pages))
    {
      var rows, complete, stop := GapFetch.GapFetch(view, cursor, pages);
      if complete {
        if commits && covered {
          Save(Newest(rows, cursor));
        }
        pending := Some(rows);
      }
    }

    /** Covered rows are only passed over; others are recorded, then saved, then passed over. */
    method Record(ghost history: seq<SignatureRow>, covered: bool, failAt: nat)
      requires Valid(View(history)) && Possible(View(history), Step.Record(covered, failAt))
      modifies this
      ensures View(history) == Move(old(View(history)), Step.Record(covered, failAt))
    {
      var rows := pending.value;
      var newest := Newest(rows, cursor);
      pending := None;
      if rows != [] && !covered {
        var ok := RecordRows(rows, failAt);
        if !ok || failAt == |rows| {
          return;
        }
        assert rows[0] in rows;
        Save(newest);
      }
      cursor := newest;
    }

    /** Without a durable cursor: the newest row's slot is saved and taken. */
    method Begin(view: nat -> seq<SignatureRow>)
      requires Valid(View(view(0)))
      modifies this
      ensures View(view(0)) == StartAtHead(old(View(view(0))))
    {
      var head := Head(view(0));
      Save(head);
      cursor, running, pending := head, true, None;
    }

    /** From the durable cursor: fetch, record, save, and only then run on. */
    method Resume(view: nat -> seq<SignatureRow>, journal: bool, failAt: nat, pages: nat)
      requires Grows(view) && Valid(View(view(0))) && checkpoint > 0
      modifies this
      ensures View(view(0)) == DoRestart(old(View(view(0))), true, journal, failAt, pages)
    {
      hide Valid, Newest, OldestFirst, Reading;
      running, pending := false, None;
      var rows, complete, stop := GapFetch.GapFetch(view, checkpoint, pages);
      if !complete {
        return;
      }
      if journal {
        var ok := RecordRows(rows, failAt);
        if !ok || failAt == |rows| {
          return;
        }
      }
      cursor := Newest(rows, checkpoint);
      Save(cursor);
      running := true;
    }

    /** Everything but the durable cursor and the receipts is lost; an exception while reading the durable
        cursor is taken for its absence. */
    method Restart(view: nat -> seq<SignatureRow>, readable: bool, journal: bool, failAt: nat, pages: nat)
      requires Grows(view) && Valid(View(view(0)))
      modifies this
      ensures View(view(0)) == Move(old(View(view(0))), Step.Restart(readable, journal, failAt, pages))
    {
      var row := if readable && checkpoint > 0 then Some(checkpoint) else None;
      if row.None? {
        Begin(view);
      } else {
        Resume(view, journal, failAt, pages);
      }
    }

    method Receive(ghost history: seq<SignatureRow>, signature: string)
      modifies this`receipts
      ensures View(history) == Move(old(View(history)), Step.Receive(signature))
    {
      receipts := receipts + {signature};
    }

    method Rearm(ghost history: seq<SignatureRow>, slot: int)
      requires Possible(View(history), Step.Rearm(slot))
      modifies this`cursor
      ensures View(history) == Move(old(View(history)), Step.Rearm(slot))
    {
      cursor := slot;
    }

    method Crash(ghost history: seq<SignatureRow>)
      modifies this
      ensures View(history) == Move(old(View(history)), Step.Crash)
    {
      running, pending := false, None;
    }

    method Perform(view: nat -> seq<SignatureRow>, step: Step)
      requires Grows(view) && Valid(View(view(0))) && Possible(View(view(0)), step)
      modifies this
      ensures var next := Move(old(View(view(0))), step); View(next.history) == next
    {
      match step
      case Confirm(_) =>
      case Receive(signature) => Receive(view(0), signature);
      case Fetch(commits, covered, pages) => Fetch(view, commits, covered, pages);
      case Record(covered, failAt) => Record(view(0), covered, failAt);
      case Rearm(slot) => Rearm(view(0), slot);
      case Crash => Crash(view(0));
      case Restart(readable, journal, failAt, pages) => Restart(view, readable, journal, failAt, pages);
    }
  }

  /** The histories each step sees: what the run has confirmed so far, growing while the step pages. */
  ghost predicate Shows(start: State, steps: seq<Step>, views: nat -> nat -> seq<SignatureRow>) {
    forall i: nat | i < |steps| ::
      && Grows(views(i)) && views(i)(0) == Run(start, steps[..i]).history
      && Possible(Run(start, steps[..i]), steps[i])
  }

  lemma OneMoreStep(s: State, steps: seq<Step>, i: nat)
    requires i < |steps| && Valid(Run(s, steps[..i]))
    ensures Run(s, steps[..i + 1]) == Move(Run(s, steps[..i]), steps[i]) && Valid(Run(s, steps[..i + 1]))
  {
    var now := Run(s, steps[..i]);
    MoveKeepsValid(now, steps[i]);
    RunAppend(s, steps[..i], [steps[i]]);
    assert steps[..i] + [steps[i]] == steps[..i + 1];
    assert Run(now, [steps[i]]) == Run(Move(now, steps[i]), []);
  }

  /** A scout driven through any possible steps ends where the run of those steps does, so what is proved
      of runs holds of it. */
  method Live(s: Scout, ghost history: seq<SignatureRow>, steps: seq<Step>, views: nat -> nat -> seq<SignatureRow>)
    requires Valid(s.View(history)) && Shows(s.View(history), steps, views)
    modifies s
    ensures var end := Run(old(s.View(history)), steps); s.View(end.history) == end && Valid(end)
  {
    ghost var start := s.View(history);
    assert steps[..0] == [];
    for i := 0 to |steps|
      invariant var now := Run(start, steps[..i]); s.View(now.history) == now && Valid(now)
    {
      hide Move, Possible, Valid, Run, Grows;
      s.Perform(views(i), steps[i]);
      OneMoreStep(start, steps, i);
    }
    assert steps[..|steps|] == steps;
  }
}
