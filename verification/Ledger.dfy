/** The hash-chained event ledger: append, and chunked verification while writers may commit. */
module Ledger {
  import opened Wrappers

  const VERIFY_CHUNK_ROWS := 2048

  datatype Event = Event(id: int, kind: string, at: string, payload: string, previous: string, lineage: string)

  /** The sealed frontier of the removed prefix. */
  datatype Anchor = Anchor(id: int, hash: string, engineId: int)

  /** The events table in id order, and its AUTOINCREMENT sequence row. */
  datatype Database = Database(events: seq<Event>, sequence: Option<int>)

  datatype Verdict = Refused | Verified(lastId: int, latestEngine: int)

  ghost predicate ByKey(events: seq<Event>) {
    forall i, j | 0 <= i < j < |events| :: events[i].id < events[j].id
  }

  predicate IsEngine(kind: string) {
    kind in {"first_touch", "confirmation", "price", "trade_intent", "trade_outcome"}
  }

  function Join(first: string, rest: string): string {
    first + "|" + rest
  }

  /** previous|type|time|payload */
  function Encoded(previous: string, kind: string, at: string, payload: string): string {
    Join(previous, Join(kind, Join(at, payload)))
  }

  function LineageOf(hash: string -> string, previous: string, e: Event): string {
    hash(Encoded(previous, e.kind, e.at, e.payload))
  }

  /** SELECT ... WHERE id > low AND id <= high ORDER BY id. */
  function Tail(events: seq<Event>, low: int, high: int): (rows: seq<Event>)
    ensures |rows| <= |events| && forall i | 0 <= i < |rows| :: low < rows[i].id <= high
  {
    if events == [] then []
    else if low < events[0].id <= high then [events[0]] + Tail(events[1..], low, high)
    else Tail(events[1..], low, high)
  }

  function HeadId(db: Database, anchor: Anchor): int {
    if db.events == [] then anchor.id else db.events[|db.events| - 1].id
  }

  function HeadHash(db: Database, anchor: Anchor): string {
    if db.events == [] then anchor.hash else db.events[|db.events| - 1].lineage
  }

  /** Ids go up by one from `id`, and every row carries the hash of the one before it. */
  ghost predicate Chain(hash: string -> string, id: int, previous: string, rows: seq<Event>)
    decreases |rows|
  {
    rows == []
    || (&& rows[0].id == id + 1 && rows[0].previous == previous
        && rows[0].lineage == LineageOf(hash, previous, rows[0])
        && Chain(hash, id + 1, rows[0].lineage, rows[1..]))
  }

  ghost function LastHash(previous: string, rows: seq<Event>): string
    decreases |rows|
  {
    if rows == [] then previous else LastHash(rows[0].lineage, rows[1..])
  }

  ghost function LatestEngine(start: int, rows: seq<Event>): int
    decreases |rows|
  {
    if rows == [] then start
    else LatestEngine(if IsEngine(rows[0].kind) then rows[0].id else start, rows[1..])
  }

  function Retained(db: Database, anchor: Anchor): seq<Event> {
    Tail(db.events, anchor.id, HeadId(db, anchor))
  }

  /** One database version continues the sealed frontier without a gap up to its own head. */
  ghost predicate Accepted(hash: string -> string, anchor: Anchor, db: Database) {
    var rows := Retained(db, anchor);
    && db.sequence == Some(HeadId(db, anchor)) && anchor.id <= HeadId(db, anchor)
    && Chain(hash, anchor.id, anchor.hash, rows)
    && anchor.id + |rows| == HeadId(db, anchor) && LastHash(anchor.hash, rows) == HeadHash(db, anchor)
  }

  // ---- what acceptance means, row by row ----

  ghost function PreviousAt(previous: string, rows: seq<Event>, i: nat): string
    requires i < |rows|
  {
    if i == 0 then previous else rows[i - 1].lineage
  }

  /** Row i directly continues the row before it, or the start. */
  ghost predicate LinkAt(hash: string -> string, id: int, previous: string, rows: seq<Event>, i: nat)
    requires i < |rows|
  {
    && rows[i].id == id + 1 + i && rows[i].previous == PreviousAt(previous, rows, i)
    && rows[i].lineage == LineageOf(hash, PreviousAt(previous, rows, i), rows[i])
  }

  /** The walk accepts exactly the contiguous, fully linked rows. */
  lemma {:induction false} ChainIsLinks(hash: string -> string, id: int, previous: string, rows: seq<Event>)
    ensures Chain(hash, id, previous, rows) <==> forall i: nat | i < |rows| :: LinkAt(hash, id, previous, rows, i)
    ensures LastHash(previous, rows) == if rows == [] then previous else rows[|rows| - 1].lineage
    decreases |rows|
  {
    if rows != [] {
      var rest := rows[1..];
      ChainIsLinks(hash, id + 1, rows[0].lineage, rest);
      if Chain(hash, id, previous, rows) {
        forall i: nat | i < |rows| ensures LinkAt(hash, id, previous, rows, i) {
          assert i > 0 ==> LinkAt(hash, id + 1, rows[0].lineage, rest, i - 1);
        }
      }
      if forall i: nat | i < |rows| :: LinkAt(hash, id, previous, rows, i) {
        assert LinkAt(hash, id, previous, rows, 0);
        forall i: nat {:trigger rest[i]} | i < |rest| ensures LinkAt(hash, id + 1, rows[0].lineage, rest, i) {
          assert LinkAt(hash, id, previous, rows, i + 1);
        }
      }
    }
  }

  /** Row i is the newest engine event and has this id. */
  ghost predicate NewestEngineAt(rows: seq<Event>, i: nat, id: int) {
    && i < |rows| && IsEngine(rows[i].kind) && rows[i].id == id
    && forall j | i < j < |rows| :: !IsEngine(rows[j].kind)
  }

  /** The reported engine event is the newest retained one, or the sealed one if none is retained. */
  lemma {:induction false} LatestEngineIsNewest(start: int, rows: seq<Event>)
    ensures var latest := LatestEngine(start, rows);
      || (exists i: nat :: NewestEngineAt(rows, i, latest))
      || (latest == start && forall i | 0 <= i < |rows| :: !IsEngine(rows[i].kind))
    decreases |rows|
  {
    if rows != [] {
      var next := if IsEngine(rows[0].kind) then rows[0].id else start;
      LatestEngineIsNewest(next, rows[1..]);
      var latest := LatestEngine(next, rows[1..]);
      if i: nat :| NewestEngineAt(rows[1..], i, latest) {
        forall j | i + 1 < j < |rows| ensures !IsEngine(rows[j].kind) {
          assert rows[j] == rows[1..][j - 1];
        }
        assert NewestEngineAt(rows, i + 1, latest);
      } else {
        forall j | 0 < j < |rows| ensures !IsEngine(rows[j].kind) {
          assert rows[j] == rows[1..][j - 1];
        }
        assert IsEngine(rows[0].kind) ==> NewestEngineAt(rows, 0, latest);
      }
    }
  }

  // ---- reading in chunks ----

  lemma {:induction false} TailDropsFirst(events: seq<Event>, low: int, high: int)
    requires ByKey(events) && Tail(events, low, high) != []
    ensures var rows := Tail(events, low, high); Tail(events, rows[0].id, high) == rows[1..]
  {
    if low < events[0].id <= high {
      TailIsAll(events[1..], low, events[0].id, high);
    } else {
      TailDropsFirst(events[1..], low, high);
    }
  }

  lemma {:induction false} TailIsAll(events: seq<Event>, low: int, low2: int, high: int)
    requires forall i | 0 <= i < |events| :: low < events[i].id && low2 < events[i].id
    ensures Tail(events, low, high) == Tail(events, low2, high)
  {
    if events != [] {
      TailIsAll(events[1..], low, low2, high);
    }
  }

  /** What every reader, the version witness and stat see: the file the path names at each moment, how
      often that file has been committed to, and what a file holds at a version. */
  datatype World = World(inode: nat -> nat, version: (nat, nat) -> nat, contents: (nat, nat) -> Database)

  ghost predicate OneWay(inode: nat -> nat) {
    forall i: nat, j: nat, k: nat | i <= j <= k && inode(i) == inode(k) :: inode(j) == inode(i)
  }

  ghost predicate Monotone(version: (nat, nat) -> nat) {
    forall f: nat, i: nat, j: nat | i <= j :: version(f, i) <= version(f, j)
  }

  /** Commits only add versions, a replaced file does not come back, and the id is the primary key. */
  ghost predicate Plausible(w: World) {
    && OneWay(w.inode) && Monotone(w.version) && forall f: nat, v: nat :: ByKey(w.contents(f, v).events)
  }

  ghost function At(w: World, k: nat): Database {
    w.contents(w.inode(k), w.version(w.inode(k), k))
  }

  /** Nobody commits or replaces the file between the first look and moment n. */
  ghost predicate Stable(w: World, n: nat) {
    forall k: nat | 1 <= k <= n :: w.inode(k) == w.inode(0) && w.version(w.inode(0), k) == w.version(w.inode(0), 1)
  }

  lemma StableReads(w: World, n: nat, k: nat)
    requires Stable(w, n) && 1 <= k <= n
    ensures At(w, k) == At(w, 1)
  {
    assert w.inode(1) == w.inode(0);
  }

  /** Equal identity and equal data_version at the end rule out every change in between. */
  lemma EndpointsSuffice(w: World, n: nat)
    requires Plausible(w) && n >= 2
    requires w.inode(n - 1) == w.inode(0) && w.version(w.inode(1), n) == w.version(w.inode(1), 1)
    ensures Stable(w, n - 1)
  {
    forall k: nat | 1 <= k <= n - 1
      ensures w.inode(k) == w.inode(0) && w.version(w.inode(0), k) == w.version(w.inode(0), 1)
    {
      assert w.inode(1) == w.inode(0);
      assert w.version(w.inode(0), 1) <= w.version(w.inode(0), k) <= w.version(w.inode(0), n);
    }
  }

  /** The rest of the walk from the current frontier decides acceptance. */
  ghost predicate Frontier(hash: string -> string, anchor: Anchor, db: Database, last: int, previous: string,
        engine: int, rest: seq<Event>) {
    var rows := Retained(db, anchor);
    && rest == Tail(db.events, last, HeadId(db, anchor))
    && (Chain(hash, anchor.id, anchor.hash, rows) <==> Chain(hash, last, previous, rest))
    && anchor.id + |rows| == last + |rest| && last <= HeadId(db, anchor)
    && LastHash(anchor.hash, rows) == LastHash(previous, rest)
    && LatestEngine(anchor.engineId, rows) == LatestEngine(engine, rest)
  }

  lemma FrontierAdvances(hash: string -> string, anchor: Anchor, db: Database, last: int, previous: string,
        engine: int, rest: seq<Event>)
    requires ByKey(db.events) && rest != [] && Frontier(hash, anchor, db, last, previous, engine, rest)
    requires rest[0].id == last + 1 && rest[0].previous == previous
    requires rest[0].lineage == LineageOf(hash, previous, rest[0])
    ensures var engine2 := if IsEngine(rest[0].kind) then last + 1 else engine;
      Frontier(hash, anchor, db, last + 1, rest[0].lineage, engine2, rest[1..])
  {
    TailDropsFirst(db.events, last, HeadId(db, anchor));
  }

  lemma BrokenLink(hash: string -> string, id: int, previous: string, rows: seq<Event>)
    requires rows != []
    requires rows[0].id != id + 1 || rows[0].previous != previous
      || rows[0].lineage != LineageOf(hash, previous, rows[0])
    ensures !Chain(hash, id, previous, rows)
  {
  }

  /** One chunk: every row must continue the row before it. `stable` says the rows were read from db. */
  method VerifyChunk(hash: string -> string, rows: seq<Event>, last0: int, previous0: string, engine0: int,
                     ghost stable: bool, ghost anchor: Anchor, ghost db: Database, ghost rest0: seq<Event>)
    returns (ok: bool, last: int, previous: string, engine: int)
    requires stable ==>
      ByKey(db.events) && Frontier(hash, anchor, db, last0, previous0, engine0, rest0) && rows <= rest0
    ensures ok ==> last == last0 + |rows| && (rows != [] ==> last == rows[|rows| - 1].id)
    ensures stable && ok ==> Frontier(hash, anchor, db, last, previous, engine, rest0[|rows|..])
    ensures stable && !ok ==> !Chain(hash, last0, previous0, rest0)
  {
    last, previous, engine := last0, previous0, engine0;
    for i := 0 to |rows|
      invariant last == last0 + i && (i > 0 ==> last == rows[i - 1].id)
      invariant stable ==> Frontier(hash, anchor, db, last, previous, engine, rest0[i..])
      invariant stable ==> (Chain(hash, last0, previous0, rest0) <==> Chain(hash, last, previous, rest0[i..]))
    {
      var e := rows[i];
      assert stable ==> rest0[i..] != [] && rest0[i..][0] == e && rest0[i..][1..] == rest0[i + 1..];
      if e.id != last + 1 || e.previous != previous || e.lineage != LineageOf(hash, previous, e) {
        if stable { BrokenLink(hash, last, previous, rest0[i..]); }
        return false, last, previous, engine;
      }
      if stable { FrontierAdvances(hash, anchor, db, last, previous, engine, rest0[i..]); }
      last, previous := e.id, e.lineage;
      engine := if IsEngine(e.kind) then last else engine;
    }
    ok := true;
  }

  /** Chunked verification: it succeeds exactly when one database version is accepted, and only if
      that version was the current one from the first read to the last. */
  method VerifyActiveSnapshot(hash: string -> string, anchor: Anchor, w: World) returns (r: Verdict, ghost ticks: nat)
    requires Plausible(w)
    ensures r.Verified? ==> Stable(w, ticks)
    ensures Stable(w, ticks) ==> (r.Verified? <==> Accepted(hash, anchor, At(w, 1)))
    ensures r.Verified? ==>
      r == Verified(HeadId(At(w, 1), anchor), LatestEngine(anchor.engineId, Retained(At(w, 1), anchor)))
  {
    var identity, witnessed := w.inode(0), w.inode(1);
    var version := w.version(witnessed, 1);
    var tick := 2;
    var head := w.contents(w.inode(tick), w.version(w.inode(tick), tick));
    ticks := tick;
    ghost var db := At(w, 1);
    var terminal, terminalHash := HeadId(head, anchor), HeadHash(head, anchor);
    if head.sequence != Some(terminal) || terminal < anchor.id {
      if Stable(w, ticks) { StableReads(w, ticks, tick); }
      return Refused, ticks;
    }
    var last, previous, latestEngine := anchor.id, anchor.hash, anchor.engineId;
    ghost var rest := Retained(db, anchor);
    while last < terminal
      invariant tick == ticks >= 2
      invariant last <= terminal
      invariant Stable(w, ticks) ==> head == db
      invariant Stable(w, ticks) ==> Frontier(hash, anchor, db, last, previous, latestEngine, rest)
      decreases terminal - last
    {
      tick := tick + 1;
      var reader := w.contents(w.inode(tick), w.version(w.inode(tick), tick));
      var all := Tail(reader.events, last, terminal);
      var rows := if |all| > VERIFY_CHUNK_ROWS then all[..VERIFY_CHUNK_ROWS] else all;
      ticks := tick;
      if rows == [] {
        return Refused, ticks;
      }
      ghost var stable := Stable(w, ticks);
      if stable { StableReads(w, ticks, tick); }
      var ok: bool;
      ok, last, previous, latestEngine :=
        VerifyChunk(hash, rows, last, previous, latestEngine, stable, anchor, db, rest);
      if !ok {
        return Refused, ticks;
      }
      rest := if stable then rest[|rows|..] else rest;
      tick := tick + 1;
      ticks := tick;
      if w.version(witnessed, tick) != version {
        return Refused, ticks;
      }
    }
    tick := tick + 2;
    ticks := tick - 1;
    if w.inode(tick - 1) != identity || w.version(witnessed, tick) != version {
      ticks := tick;
      return Refused, ticks;
    }
    EndpointsSuffice(w, tick);
    if last != terminal || previous != terminalHash {
      return Refused, ticks;
    }
    return Verified(last, latestEngine), ticks;
  }

  // ---- append ----

  function NextId(db: Database): int {
    var sequence := if db.sequence.Some? then db.sequence.value else 0;
    var largest := if db.events == [] then 0 else db.events[|db.events| - 1].id;
    (if sequence < largest then largest else sequence) + 1
  }

  lemma {:induction false} TailGrows(events: seq<Event>, e: Event, low: int, high: int)
    requires forall i | 0 <= i < |events| :: events[i].id <= high
    requires low < e.id && high < e.id
    ensures Tail(events + [e], low, e.id) == Tail(events, low, high) + [e]
  {
    if events != [] {
      assert (events + [e])[1..] == events[1..] + [e];
      TailGrows(events[1..], e, low, high);
    } else {
      assert ([] + [e])[1..] == [] && ([] + [e])[0] == e;
    }
  }

  lemma {:induction false} ChainGrows(hash: string -> string, id: int, previous: string, rows: seq<Event>, e: Event)
    requires Chain(hash, id, previous, rows) && e.id == id + |rows| + 1
    requires e.previous == LastHash(previous, rows) && e.lineage == LineageOf(hash, e.previous, e)
    ensures Chain(hash, id, previous, rows + [e]) && LastHash(previous, rows + [e]) == e.lineage
    decreases |rows|
  {
    if rows != [] {
      assert (rows + [e])[1..] == rows[1..] + [e];
      ChainGrows(hash, id + 1, rows[0].lineage, rows[1..], e);
    }
  }

  /** What append inserts. */
  function Appended(hash: string -> string, anchor: Anchor, db: Database, kind: string, at: string,
        payload: string): Event {
    var previous := HeadHash(db, anchor);
    Event(NextId(db), kind, at, payload, previous, hash(Encoded(previous, kind, at, payload)))
  }

  /** A store that verifies still verifies with one more event, which is its new head. */
  lemma AppendKeepsAccepted(hash: string -> string, anchor: Anchor, db: Database, kind: string, at: string,
        payload: string)
    requires ByKey(db.events) && Accepted(hash, anchor, db) && 0 <= anchor.id
    ensures var e := Appended(hash, anchor, db, kind, at, payload);
      var db2 := Database(db.events + [e], Some(e.id));
      && e.id == HeadId(db, anchor) + 1 && ByKey(db2.events) && Accepted(hash, anchor, db2)
      && Retained(db2, anchor) == Retained(db, anchor) + [e]
  {
    var e := Appended(hash, anchor, db, kind, at, payload);
    TailGrows(db.events, e, anchor.id, HeadId(db, anchor));
    ChainGrows(hash, anchor.id, anchor.hash, Retained(db, anchor), e);
  }

  /** The live store over the compact database. */
  class EventStore {
    const anchor: Anchor
    var events: seq<Event>
    var sequence: Option<int>

    ghost function View(): Database
      reads this
    {
      Database(events, sequence)
    }

    ghost predicate Valid()
      reads this
    {
      && ByKey(events) && 0 <= anchor.id
      && (forall i, j | 0 <= i < j < |events| :: events[i].lineage != events[j].lineage)
    }

    constructor (anchor: Anchor, db: Database)
      requires ByKey(db.events) && 0 <= anchor.id
      requires forall i, j | 0 <= i < j < |db.events| :: db.events[i].lineage != db.events[j].lineage
      ensures Valid() && this.anchor == anchor && View() == db
    {
      this.anchor, events, sequence := anchor, db.events, db.sequence;
    }

    /** Opening: historical bodies block it; an empty table has its sequence raised to the frontier,
        after which it verifies unless the sequence was already past the frontier. */
    method Attach(hash: string -> string) returns (ok: bool)
      requires Valid()
      modifies this
      ensures Valid() && events == old(events)
      ensures ok <==>
        anchor.engineId <= anchor.id && |anchor.hash| == 64 && forall i | 0 <= i < |events| :: anchor.id < events[i].id
      ensures !ok ==> sequence == old(sequence)
      ensures events != [] ==> sequence == old(sequence)
      ensures ok && events == [] ==>
        (Accepted(hash, anchor, View()) <==> old(sequence).None? || old(sequence).value <= anchor.id)
    {
      if anchor.id < anchor.engineId || |anchor.hash| != 64 {
        return false;
      }
      if events != [] {
        return events[0].id > anchor.id;
      }
      if sequence.None? || sequence.value < anchor.id {
        sequence := Some(anchor.id);
      }
      return true;
    }

    /** Append one event in its own transaction; a repeated lineage hash or an id at or below the
        frontier rolls it back. */
    method Append(hash: string -> string, kind: string, at: string, payload: string) returns (lineage: Option<string>)
      requires Valid()
      modifies this
      ensures Valid()
      ensures lineage.None? ==> View() == old(View())
      ensures lineage.Some? ==>
        var e := Appended(hash, anchor, old(View()), kind, at, payload);
        View() == Database(old(events) + [e], Some(e.id)) && lineage.value == e.lineage
      ensures old(Accepted(hash, anchor, View())) ==> Accepted(hash, anchor, View())
      ensures old(Accepted(hash, anchor, View())) ==>
        (lineage.None? <==> exists i | 0 <= i < |old(events)| ::
          old(events)[i].lineage == Appended(hash, anchor, old(View()), kind, at, payload).lineage)
    {
      ghost var before := View();
      var db := Database(events, sequence);
      var e := Appended(hash, anchor, db, kind, at, payload);
      if Accepted(hash, anchor, before) { AppendKeepsAccepted(hash, anchor, before, kind, at, payload); }
      if exists i | 0 <= i < |events| :: events[i].lineage == e.lineage {
        return None;
      }
      if e.id <= anchor.id {
        return None;
      }
      events, sequence := events + [e], Some(e.id);
      return Some(e.lineage);
    }
  }

  // ---- one terminal hash, one history ----

  ghost predicate Injective(hash: string -> string) {
    forall a, b :: hash(a) == hash(b) ==> a == b
  }

  predicate Barless(s: string) {
    '|' !in s
  }

  /** A digest is hexadecimal. */
  ghost predicate Hexadecimal(hash: string -> string) {
    forall a :: Barless(hash(a))
  }

  /** Text before the first bar is determined. */
  lemma FirstBar(a: string, x: string, b: string, y: string)
    requires Join(a, x) == Join(b, y) && Barless(a) && Barless(b)
    ensures a == b && x == y
  {
    var s, t := Join(a, x), Join(b, y);
    assert s[|a|] == '|' && t[|b|] == '|';
    assert |a| == |b|;
    assert a == s[..|a|] && b == t[..|b|];
    assert x == s[|a| + 1..] && y == t[|b| + 1..];
  }

  lemma SameFirst(a: string, x: string, y: string)
    requires Join(a, x) == Join(a, y)
    ensures x == y
  {
    assert x == Join(a, x)[|a| + 1..] && y == Join(a, y)[|a| + 1..];
  }

  lemma EncodedIsInjective(p: string, e: Event, q: string, f: Event)
    requires Encoded(p, e.kind, e.at, e.payload) == Encoded(q, f.kind, f.at, f.payload)
    requires p == q || (Barless(p) && Barless(q))
    requires Barless(e.kind) && Barless(e.at) && Barless(f.kind) && Barless(f.at)
    ensures p == q && e.kind == f.kind && e.at == f.at && e.payload == f.payload
  {
    if p == q {
      SameFirst(p, Join(e.kind, Join(e.at, e.payload)), Join(f.kind, Join(f.at, f.payload)));
    } else {
      FirstBar(p, Join(e.kind, Join(e.at, e.payload)), q, Join(f.kind, Join(f.at, f.payload)));
    }
    FirstBar(e.kind, Join(e.at, e.payload), f.kind, Join(f.at, f.payload));
    FirstBar(e.at, e.payload, f.at, f.payload);
  }

  ghost predicate PlainFields(rows: seq<Event>) {
    forall i | 0 <= i < |rows| :: Barless(rows[i].kind) && Barless(rows[i].at)
  }

  lemma {:induction false} SameChain(hash: string -> string, id: int, p: string, a: seq<Event>, q: string,
        b: seq<Event>)
    requires Injective(hash) && Hexadecimal(hash) && PlainFields(a) && PlainFields(b)
    requires Chain(hash, id, p, a) && Chain(hash, id, q, b) && |a| == |b|
    requires LastHash(p, a) == LastHash(q, b)
    requires p == q || (Barless(p) && Barless(q))
    ensures p == q && a == b
    decreases |a|
  {
    if a != [] {
      SameChain(hash, id + 1, a[0].lineage, a[1..], b[0].lineage, b[1..]);
      EncodedIsInjective(p, a[0], q, b[0]);
      assert a == [a[0]] + a[1..] && b == [b[0]] + b[1..];
    }
  }

  /** Two stores that verify from one anchor with the same terminal id and hash hold the same events. */
  lemma SameHeadSameHistory(hash: string -> string, anchor: Anchor, d1: Database, d2: Database)
    requires Injective(hash) && Hexadecimal(hash)
    requires Accepted(hash, anchor, d1) && Accepted(hash, anchor, d2)
    requires PlainFields(Retained(d1, anchor)) && PlainFields(Retained(d2, anchor))
    requires HeadId(d1, anchor) == HeadId(d2, anchor) && HeadHash(d1, anchor) == HeadHash(d2, anchor)
    ensures Retained(d1, anchor) == Retained(d2, anchor)
  {
    SameChain(hash, anchor.id, anchor.hash, Retained(d1, anchor), anchor.hash, Retained(d2, anchor));
  }

  function Solo(anchor: Anchor, e: Event): Database {
    Database([e], Some(e.id))
  }

  ghost predicate Forked(hash: string -> string, anchor: Anchor, e: Event, f: Event) {
    && e != f && Accepted(hash, anchor, Solo(anchor, e)) && Accepted(hash, anchor, Solo(anchor, f))
    && e.id == f.id && e.lineage == f.lineage
  }

  lemma SoloAccepted(hash: string -> string, anchor: Anchor, e: Event)
    requires e.id == anchor.id + 1 && e.previous == anchor.hash && e.lineage == LineageOf(hash, anchor.hash, e)
    ensures Accepted(hash, anchor, Solo(anchor, e))
  {
    assert Retained(Solo(anchor, e), anchor) == [e];
    assert [e][1..] == [];
  }

  /** A bar in the event type can move into the timestamp unnoticed: whatever the hash, two different
      one-event stores verify with the same terminal id and hash. */
  lemma BarsAreAmbiguous(hash: string -> string, anchor: Anchor)
    ensures exists e, f :: Forked(hash, anchor, e, f)
  {
    var text := Encoded(anchor.hash, "a|b", "c", "{}");
    assert Join("a|b", Join("c", "{}")) == "a|b|c|{}" == Join("a", Join("b|c", "{}"));
    var e := Event(anchor.id + 1, "a|b", "c", "{}", anchor.hash, hash(text));
    var f := Event(anchor.id + 1, "a", "b|c", "{}", anchor.hash, hash(text));
    assert |e.kind| != |f.kind|;
    SoloAccepted(hash, anchor, e);
    SoloAccepted(hash, anchor, f);
    assert Forked(hash, anchor, e, f);
  }
}
