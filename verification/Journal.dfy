/** The authoritative side: source rows, the triggers that fill the change journal, the epoch that
    names one tracked schema, and pruning. */
module Journal {
  import opened Wrappers
  import opened Tables

  datatype Op = Upsert | Delete
  datatype Entry = Entry(id: nat, key: Key, op: Op)
  datatype Firing = Firing(key: Key, op: Op)

  /** `head` is the AUTOINCREMENT high water mark, which survives deletion of journal rows.
      `withoutRowid[t]` says whether table t is a WITHOUT ROWID table.
      `configured` says that the schema is the one the triggers of `epoch` were installed for. */
  datatype Source = Source(
    withoutRowid: seq<bool>,
    rows: map<Key, Row>,
    journal: seq<Entry>,
    head: nat,
    epoch: nat,
    configured: bool)

  /** One statement of a writer. In Replace, `victims` are the other rows SQLite deletes because they
      conflict, in the order it deletes them, and `recursive` is PRAGMA recursive_triggers. */
  datatype Statement =
    | Insert(key: Key, row: Row)
    | Replace(key: Key, row: Row, victims: seq<Key>, recursive: bool)
    | Update(prior: Key, key: Key, row: Row)
    | Remove(key: Key)

  predicate Blocks(k1: Key, r1: Row, k2: Key, r2: Row) {
    ScanClash(k1, r1, k2, r2) || ReplicaClash(k1, r1.content, k2, r2.content)
  }

  function Displaced(rows: map<Key, Row>, k: Key, row: Row): set<Key> {
    set k2 | k2 in rows && Blocks(k2, rows[k2], k, row)
  }

  /** The statement is one SQLite can execute in this state (constraint failures abort instead). */
  predicate Executes(s: Source, st: Statement) {
    match st
    case Insert(k, row) => k.table < |s.withoutRowid| && k !in s.rows && Displaced(s.rows, k, row) == {}
    case Replace(k, row, victims, _) =>
      && k.table < |s.withoutRowid|
      && Displaced(s.rows, k, row) == (set v | v in victims)
    case Update(prior, k, row) =>
      && k.table == prior.table && prior in s.rows && (k == prior || k !in s.rows)
      && Displaced(s.rows - {prior}, k, row) == {}
    case Remove(k) => k in s.rows
  }

  /** Every row the statement removes fires the delete trigger. */
  predicate Tracked(st: Statement) {
    st.Replace? ==> st.recursive || st.victims == []
  }

  function RowsAfter(rows: map<Key, Row>, st: Statement): map<Key, Row> {
    match st
    case Insert(k, row) => rows[k := row]
    case Replace(k, row, _, _) => (rows - Displaced(rows, k, row))[k := row]
    case Update(prior, k, row) => (rows - {prior})[k := row]
    case Remove(k) => rows - {k}
  }

  function Deletions(ks: seq<Key>): seq<Firing> {
    seq(|ks|, i requires 0 <= i < |ks| => Firing(ks[i], Delete))
  }

  /** What the installed triggers write, in order. */
  function Fire(rows: map<Key, Row>, st: Statement): seq<Firing> {
    match st
    case Insert(k, _) => [Firing(k, Upsert)]
    case Replace(k, _, victims, recursive) =>
      (if recursive then Deletions(victims) + (if k in rows then [Firing(k, Delete)] else []) else [])
      + [Firing(k, Upsert)]
    case Update(prior, k, _) => [Firing(prior, Delete), Firing(k, Upsert)]
    case Remove(k) => [Firing(k, Delete)]
  }

  function Stamp(fs: seq<Firing>, head: nat): seq<Entry> {
    seq(|fs|, i requires 0 <= i < |fs| => Entry(head + 1 + i, fs[i].key, fs[i].op))
  }

  function Execute(s: Source, st: Statement): Source {
    var fs := Fire(s.rows, st);
    s.(rows := RowsAfter(s.rows, st), journal := s.journal + Stamp(fs, s.head), head := s.head + |fs|)
  }

  /** DELETE FROM the journal WHERE id <= w. */
  function Prune(s: Source, w: nat): Source {
    s.(journal := Above(s.journal, w))
  }

  /** A schema mismatch drops the triggers, clears the journal and starts a fresh, never reused epoch. */
  function EnsureTracking(s: Source): Source {
    if s.configured then s else s.(journal := [], epoch := s.epoch + 1, configured := true)
  }

  function Above(es: seq<Entry>, w: nat): (r: seq<Entry>)
    ensures forall e :: e in r <==> e in es && e.id > w
  {
    if es == [] then []
    else (if es[0].id > w then [es[0]] else []) + Above(es[1..], w)
  }

  predicate Ascending(es: seq<Entry>) {
    forall i, j | 0 <= i < j < |es| :: es[i].id < es[j].id
  }

  /** The journal has an entry for k past watermark w. */
  ghost predicate Dirty(es: seq<Entry>, k: Key, w: nat) {
    exists e :: e in es && e.key == k && e.id > w
  }

  /** A key whose newest journal entry is a delete is gone from the source. */
  ghost predicate DeletesAreFinal(s: Source) {
    forall e :: e in s.journal && e.op == Delete && !Dirty(s.journal, e.key, e.id) ==> e.key !in s.rows
  }

  ghost predicate Valid(s: Source) {
    && Ascending(s.journal)
    && (forall e :: e in s.journal ==> e.id <= s.head)
    && Unique(s.rows)
    && (forall k :: k in s.rows ==> k.table < |s.withoutRowid|)
    && (s.configured ==> DeletesAreFinal(s))
  }

  /** `s'` is a later state of the same epoch for a client at watermark w: entries past w are kept,
      every entry that is new lies past the old head, and every key whose row changed has one. */
  ghost predicate Follows(s: Source, s': Source, w: nat) {
    && s'.epoch == s.epoch && s'.withoutRowid == s.withoutRowid && s.head <= s'.head
    && (forall e :: e in s.journal && e.id > w ==> e in s'.journal)
    && (forall e :: e in s'.journal ==> e in s.journal || e.id > s.head)
    && (forall k :: !Agree(s.rows, s'.rows, k) ==> Dirty(s'.journal, k, s.head))
  }

  lemma AboveAscending(es: seq<Entry>, w: nat)
    requires Ascending(es)
    ensures Ascending(Above(es, w))
  {
    if es != [] {
      AboveAscending(es[1..], w);
      forall e | e in Above(es[1..], w) ensures es[0].id < e.id {
        assert e in es[1..];
      }
    }
  }

  lemma StampIds(fs: seq<Firing>, head: nat)
    ensures Ascending(Stamp(fs, head))
    ensures forall e :: e in Stamp(fs, head) ==> head < e.id <= head + |fs|
  {}

  ghost predicate Fired(fs: seq<Firing>, k: Key) {
    exists i :: 0 <= i < |fs| && fs[i].key == k
  }

  /** The last firing for a key says delete only if the statement leaves the key absent. */
  ghost predicate FinalDeletes(fs: seq<Firing>, rows: map<Key, Row>) {
    forall i :: 0 <= i < |fs| && fs[i].op == Delete && fs[i].key in rows
      ==> exists j :: i < j < |fs| && fs[j].key == fs[i].key
  }

  lemma DisplacedUnique(rows: map<Key, Row>, k: Key, row: Row)
    requires Unique(rows)
    ensures Unique((rows - Displaced(rows, k, row))[k := row])
  {
    var after := (rows - Displaced(rows, k, row))[k := row];
    forall k1, k2 | k1 in after && k2 in after
      ensures !ScanClash(k1, after[k1], k2, after[k2])
      ensures !ReplicaClash(k1, after[k1].content, k2, after[k2].content)
    {
      if k1 != k && k2 != k {
        assert !ScanClash(k1, rows[k1], k2, rows[k2]);
        assert !ReplicaClash(k1, Contents(rows)[k1], k2, Contents(rows)[k2]);
      } else if k1 != k {
        assert !Blocks(k1, rows[k1], k, row);
      } else if k2 != k {
        assert !Blocks(k2, rows[k2], k, row);
        ClashSymmetric(k, row, k2, rows[k2]);
      }
    }
  }

  lemma ClashSymmetric(k1: Key, r1: Row, k2: Key, r2: Row)
    ensures Blocks(k1, r1, k2, r2) <==> Blocks(k2, r2, k1, r1)
  {
    CollideSymmetric(r1.content.inline, r2.content.inline);
    CollideSymmetric(r1.content.indexed, r2.content.indexed);
  }

  lemma CollideSymmetric(a: seq<Option<int>>, b: seq<Option<int>>)
    ensures Collide(a, b) <==> Collide(b, a)
  {
    if Collide(a, b) {
      var i :| 0 <= i < |a| && i < |b| && a[i].Some? && a[i] == b[i];
      assert b[i].Some? && b[i] == a[i];
    }
    if Collide(b, a) {
      var i :| 0 <= i < |b| && i < |a| && b[i].Some? && b[i] == a[i];
      assert a[i].Some? && a[i] == b[i];
    }
  }

  lemma SubmapUnique(rows: map<Key, Row>, k: Key)
    requires Unique(rows)
    ensures Unique(rows - {k})
  {
    var rest := rows - {k};
    forall k1, k2 | k1 in rest && k2 in rest
      ensures !ScanClash(k1, rest[k1], k2, rest[k2])
      ensures !ReplicaClash(k1, rest[k1].content, k2, rest[k2].content)
    {
      assert !ScanClash(k1, rows[k1], k2, rows[k2]);
      assert !ReplicaClash(k1, Contents(rows)[k1], k2, Contents(rows)[k2]);
    }
  }

  /** Constraints survive every statement SQLite executes. */
  lemma StatementKeepsUnique(s: Source, st: Statement)
    requires Unique(s.rows) && Executes(s, st)
    ensures Unique(RowsAfter(s.rows, st))
  {
    match st
    case Insert(k, row) =>
      DisplacedUnique(s.rows, k, row);
      assert s.rows - {} == s.rows;
    case Replace(k, row, _, _) => DisplacedUnique(s.rows, k, row);
    case Update(prior, k, row) =>
      SubmapUnique(s.rows, prior);
      DisplacedUnique(s.rows - {prior}, k, row);
      assert (s.rows - {prior}) - {} == s.rows - {prior};
    case Remove(k) => SubmapUnique(s.rows, k);
  }

  /** Two rows that cannot stand in one table together. */
  predicate Conflicts(k1: Key, r1: Row, k2: Key, r2: Row) {
    && k1 != k2 && k1.table == k2.table
    && (r1.pos == r2.pos || SharesValue(r1.content.inline, r2.content.inline)
        || SharesValue(r1.content.indexed, r2.content.indexed))
  }

  lemma BlocksIffConflicts(k1: Key, r1: Row, k2: Key, r2: Row)
    ensures Blocks(k1, r1, k2, r2) <==> Conflicts(k1, r1, k2, r2)
  {
    CollideIffShares(r1.content.inline, r2.content.inline);
    CollideIffShares(r1.content.indexed, r2.content.indexed);
  }

  /** Exactly the statements SQLite executes: an insert of a new key without conflict, an update of a present
      row that neither hits another key nor conflicts, a removal of a present row, and always a replacement,
      which displaces the conflicting rows. */
  lemma ExecutesIff(s: Source, st: Statement)
    ensures Executes(s, st) <==>
      match st
      case Insert(k, row) =>
        k.table < |s.withoutRowid| && k !in s.rows && forall x | x in s.rows :: !Conflicts(x, s.rows[x], k, row)
      case Replace(k, row, victims, _) =>
        && k.table < |s.withoutRowid|
        && forall x :: x in victims <==> x in s.rows && Conflicts(x, s.rows[x], k, row)
      case Update(prior, k, row) =>
        && prior in s.rows && k.table == prior.table && (k == prior || k !in s.rows)
        && forall x | x in s.rows && x != prior :: !Conflicts(x, s.rows[x], k, row)
      case Remove(k) => k in s.rows
  {
    match st
    case Insert(k, row) => DisplacedIff(s.rows, k, row);
    case Replace(k, row, victims, _) =>
      DisplacedIff(s.rows, k, row);
      assert forall x :: x in (set v | v in victims) <==> x in victims;
    case Update(prior, k, row) =>
      var rest := s.rows - {prior};
      DisplacedIff(rest, k, row);
      assert forall x :: x in rest <==> x in s.rows && x != prior;
    case Remove(_) =>
  }

  lemma DisplacedIff(rows: map<Key, Row>, k: Key, row: Row)
    ensures forall x :: x in Displaced(rows, k, row) <==> x in rows && Conflicts(x, rows[x], k, row)
    ensures Displaced(rows, k, row) == {} <==> forall x | x in rows :: !Conflicts(x, rows[x], k, row)
  {
    forall x | x in rows ensures Blocks(x, rows[x], k, row) <==> Conflicts(x, rows[x], k, row) {
      BlocksIffConflicts(x, rows[x], k, row);
    }
    hide Blocks, Conflicts;
    assert forall x :: x in Displaced(rows, k, row) <==> x in rows && Blocks(x, rows[x], k, row);
  }

  /** The keys a statement names, or displaces. */
  predicate Concerns(st: Statement, k: Key) {
    match st
    case Insert(key, _) => k == key
    case Replace(key, _, victims, _) => k == key || k in victims
    case Update(prior, key, _) => k == prior || k == key
    case Remove(key) => k == key
  }

  /** What is left of `before`: the written row under its key, nothing under a key that was given up,
      displaced or removed, and everything else as it was. */
  ghost predicate Leaves(before: map<Key, Row>, st: Statement, after: map<Key, Row>) {
    && (!st.Remove? ==> st.key in after && after[st.key] == st.row)
    && (st.Remove? ==> st.key !in after)
    && (st.Update? && st.prior != st.key ==> st.prior !in after)
    && (st.Replace? ==> forall k | k in st.victims :: k !in after)
    && (forall k | !Concerns(st, k) :: Agree(before, after, k))
  }

  lemma StatementLeaves(s: Source, st: Statement)
    requires Executes(s, st)
    ensures Leaves(s.rows, st, Execute(s, st).rows)
  {
    if st.Replace? {
      forall k | k in st.victims ensures k !in Execute(s, st).rows {
        assert k in Displaced(s.rows, st.key, st.row);
      }
    }
  }

  /** Entry i of these is the last for its key. */
  ghost predicate LastFor(fs: seq<Firing>, i: nat) {
    i < |fs| && forall j | i < j < |fs| :: fs[j].key != fs[i].key
  }

  /** A tracked statement journals nothing but keys it concerns, and its last word on each says whether
      the key is there afterwards. */
  lemma LastFiringTells(s: Source, st: Statement, i: nat)
    requires Executes(s, st) && Tracked(st) && LastFor(Fire(s.rows, st), i)
    ensures var e := Fire(s.rows, st)[i];
      Concerns(st, e.key) && (e.op == Upsert <==> e.key in Execute(s, st).rows)
  {
    var fs := Fire(s.rows, st);
    StatementLeaves(s, st);
    if st.Replace? {
      assert fs[|fs| - 1] == Firing(st.key, Upsert);
      if i < |fs| - 1 {
        assert fs[i].key != st.key;
        assert fs[i].key == st.victims[i];
      }
    } else if st.Update? {
      assert fs[1].key == st.key;
    }
  }

  /** The delete trigger fires for a row exactly if the statement removes it, or writes over it in one of the
      two ways that remove it first. */
  lemma DeletesFire(s: Source, st: Statement, k: Key)
    requires Executes(s, st) && Tracked(st)
    ensures Firing(k, Delete) in Fire(s.rows, st) <==>
      && k in s.rows
      && (|| k !in Execute(s, st).rows || (st.Update? && k == st.prior)
          || (st.Replace? && st.recursive && k == st.key))
  {
    StatementLeaves(s, st);
    DisplacedIffVictim(s, st);
    if st.Replace? && st.recursive {
      if i :| 0 <= i < |st.victims| && st.victims[i] == k {
        assert Fire(s.rows, st)[i] == Firing(k, Delete);
        assert k in st.victims && k in Displaced(s.rows, st.key, st.row);
      }
    }
  }

  lemma DisplacedIffVictim(s: Source, st: Statement)
    requires Executes(s, st)
    ensures st.Replace? ==> forall k :: k in st.victims <==> k in Displaced(s.rows, st.key, st.row)
  {
    assert st.Replace? ==> forall k :: k in (set v | v in st.victims) <==> k in st.victims;
  }

  /** The trigger program covers every changed key, and its last word on a key is true. */
  lemma TriggersCover(s: Source, st: Statement)
    requires Executes(s, st) && Tracked(st)
    ensures forall k :: !Agree(s.rows, RowsAfter(s.rows, st), k) ==> Fired(Fire(s.rows, st), k)
    ensures FinalDeletes(Fire(s.rows, st), RowsAfter(s.rows, st))
  {
    var fs, after := Fire(s.rows, st), RowsAfter(s.rows, st);
    forall k | !Agree(s.rows, after, k)
      ensures Fired(fs, k)
    {
      if st.Replace? && k != st.key {
        assert k in Displaced(s.rows, st.key, st.row);
        var i :| 0 <= i < |st.victims| && st.victims[i] == k;
        assert fs[i].key == k;
      } else if st.Update? && k == st.prior {
        assert fs[0].key == k;
      } else {
        assert fs[|fs| - 1].key == k;
      }
    }
    if st.Replace? {
      assert fs[|fs| - 1].key == st.key;
      forall i | 0 <= i < |fs| && fs[i].op == Delete && fs[i].key in after
        ensures fs[i].key == st.key && i < |fs| - 1
      {
        if i < |st.victims| {
          assert st.victims[i] in Displaced(s.rows, st.key, st.row);
        }
      }
    } else if st.Update? {
      assert fs[1].key == st.key;
    }
  }

  lemma AppendJournal(es: seq<Entry>, fs: seq<Firing>, head: nat)
    requires Ascending(es) && forall e :: e in es ==> e.id <= head
    ensures Ascending(es + Stamp(fs, head))
    ensures forall e :: e in es + Stamp(fs, head) <==> e in es || e in Stamp(fs, head)
    ensures forall k :: Fired(fs, k) ==> Dirty(es + Stamp(fs, head), k, head)
  {
    StampIds(fs, head);
    var all := es + Stamp(fs, head);
    forall i, j | 0 <= i < j < |all| ensures all[i].id < all[j].id {
      assert i < |es| ==> all[i] in es;
    }
    forall k | Fired(fs, k) ensures Dirty(all, k, head) {
      var i :| 0 <= i < |fs| && fs[i].key == k;
      assert Stamp(fs, head)[i] in all;
    }
  }

  /** A stamped delete of a key that is still there is followed by a later entry. */
  lemma LastStampedDelete(es: seq<Entry>, fs: seq<Firing>, head: nat, rows: map<Key, Row>, e: Entry)
    requires FinalDeletes(fs, rows)
    requires e in Stamp(fs, head) && e.op == Delete && e.key in rows
    ensures Dirty(es + Stamp(fs, head), e.key, e.id)
  {
    var i :| 0 <= i < |fs| && Stamp(fs, head)[i] == e;
    var j :| i < j < |fs| && fs[j].key == fs[i].key;
    assert Stamp(fs, head)[j] in es + Stamp(fs, head);
  }

  /** A tracked statement keeps the source valid, and a client at any watermark can still see it. */
  lemma ExecuteFollows(s: Source, st: Statement, w: nat)
    requires Valid(s) && s.configured && Executes(s, st) && Tracked(st)
    ensures Valid(Execute(s, st)) && Follows(s, Execute(s, st), w)
  {
    var s' := Execute(s, st);
    var fs := Fire(s.rows, st);
    StampIds(fs, s.head);
    AppendJournal(s.journal, fs, s.head);
    StatementKeepsUnique(s, st);
    TriggersCover(s, st);
    forall e | e in s'.journal && e.op == Delete && !Dirty(s'.journal, e.key, e.id)
      ensures e.key !in s'.rows
    {
      if e in Stamp(fs, s.head) {
        if e.key in s'.rows {
          LastStampedDelete(s.journal, fs, s.head, s'.rows, e);
        }
      } else {
        assert !Dirty(s.journal, e.key, e.id);
        assert !Dirty(s'.journal, e.key, s.head);
        assert Agree(s.rows, s'.rows, e.key);
      }
    }
    assert DeletesAreFinal(s');
  }

  lemma PruneFollows(s: Source, v: nat, w: nat)
    requires Valid(s) && v <= w
    ensures Valid(Prune(s, v)) && Follows(s, Prune(s, v), w)
    ensures forall e :: e in s.journal && e !in Prune(s, v).journal ==> e.id <= v
  {
    AboveAscending(s.journal, v);
    var s' := Prune(s, v);
    forall e | e in s'.journal && e.op == Delete && s.configured && !Dirty(s'.journal, e.key, e.id)
      ensures e.key !in s'.rows
    {
      assert !Dirty(s.journal, e.key, e.id);
    }
  }
}
