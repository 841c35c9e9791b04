/** The certifier's side of incremental replication: one delta, and the bounded catch-up loop. */
module Certifier {
  import opened Tables
  import opened Journal
  import opened Deltas

  datatype Outcome = UpToDate | Pending | Restart(reason: Reason) | Regressed

  ghost predicate Later(s: Source, s': Source, wm: nat) {
    forall w: nat :: wm <= w ==> Follows(s, s', w)
  }

  /** Successive states of a source that keeps changing within one epoch. */
  ghost predicate Evolves(feed: seq<Source>, wm: nat) {
    && (forall i | 0 <= i < |feed| :: Valid(feed[i]) && feed[i].configured)
    && (forall i | 0 < i < |feed| :: Later(feed[i - 1], feed[i], wm))
  }

  /** One round: the source has moved from `now` to `s`, and a delta is taken from `s`. */
  lemma Round(now: Source, s: Source, contents: map<Key, Content>, wm: nat, maxRows: nat, blind: set<Key>)
    requires Valid(s) && s.configured && Follows(now, s, wm) && wm <= now.head && maxRows > 0
    requires Good(contents, Contents(now.rows), now.journal, wm, blind)
    ensures var d := DeltaFor(s, wm, maxRows);
      var contents' := Replay(ReplicaClash, contents, d.changes);
      var blind' := blind - Touched(s.journal, now.head);
      && wm <= d.to <= s.head && (!d.caughtUp ==> d.to > wm) && (d.caughtUp ==> d.to == s.head)
      && Good(contents', Contents(s.rows), s.journal, d.to, blind')
      && (d.caughtUp ==> contents' == Contents(s.rows) - blind')
  {
    var blind' := blind - Touched(s.journal, now.head);
    GoodFollows(contents, Contents(now.rows), Contents(s.rows), now, s, wm, blind);
    DeltaConverges(s, wm, maxRows, contents, blind');
    BatchCovers(s, wm, maxRows);
  }

  lemma Moves(now: Source, s: Source, start: nat, wm: nat)
    requires start <= wm && (now == s || Later(now, s, start))
    ensures Follows(now, s, wm) && s.epoch == now.epoch && now.head <= s.head
  {
    assert now != s ==> Follows(now, s, wm);
  }

  class Replica {
    var contents: map<Key, Content>
    var watermark: nat
    var caughtUp: bool

    constructor (contents: map<Key, Content>, watermark: nat)
      ensures this.contents == contents && this.watermark == watermark && !caughtUp
    {
      this.contents, this.watermark, caughtUp := contents, watermark, false;
    }

    /** The changes are replayed in one transaction; the state file is written after the commit, so a
        crash between the two leaves new contents under the old watermark. */
    method ApplyDelta(d: Delta, crashAfterCommit: bool) returns (accepted: bool)
      modifies this
      ensures accepted == (d.to >= old(watermark))
      ensures contents == if accepted then Replay(ReplicaClash, old(contents), d.changes) else old(contents)
      ensures accepted && !crashAfterCommit ==> watermark == d.to && caughtUp == d.caughtUp
      ensures !accepted || crashAfterCommit ==> watermark == old(watermark) && caughtUp == old(caughtUp)
    {
      if d.to < watermark {
        return false;
      }
      var transaction := contents;
      for i := 0 to |d.changes|
        invariant transaction == Replay(ReplicaClash, contents, d.changes[..i])
      {
        transaction := Perform(ReplicaClash, transaction, d.changes[i]);
        assert d.changes[..i + 1][..i] == d.changes[..i];
      }
      assert d.changes[..|d.changes|] == d.changes;
      contents := transaction;
      if crashAfterCommit {
        return true;
      }
      watermark := d.to;
      caughtUp := d.caughtUp;
      return true;
    }

    /** At most |feed| requests, the i-th answered by source state feed[i]. Started on a good replica,
        the loop ends either with the contents of the very state that answered last (apart from rows
        no scan can see), or with a replica that is still good at a strictly larger watermark. */
    method CatchUp(feed: seq<Source>, epoch: nat, maxRows: nat, maxBytes: nat,
        size: Tables.Write<Content> -> nat, ghost blind: set<Key>)
      returns (outcome: Outcome, batches: nat, ghost missed: set<Key>)
      requires feed != [] && maxRows > 0 && Evolves(feed, watermark)
      requires watermark <= feed[0].head && (epoch == feed[0].epoch ==> GoodAt(feed[0], blind))
      modifies this
      ensures batches <= |feed| && missed <= blind && outcome != Regressed && watermark >= old(watermark)
      ensures outcome == UpToDate ==> Finished(feed, epoch, batches, missed)
      ensures outcome == Pending ==>
        && batches == |feed| && !caughtUp && epoch == feed[0].epoch && old(watermark) < watermark
        && GoodAt(feed[|feed| - 1], missed)
      ensures outcome.Restart? ==>
        && batches < |feed|
        && Answer(feed[batches], watermark, epoch, maxRows, maxBytes, size) == BootstrapRequired(outcome.reason)
      ensures outcome != Restart(WatermarkAhead) && outcome != Restart(SchemaChanged)
      ensures outcome == Restart(IdentityMismatch) <==> epoch != feed[0].epoch
      ensures outcome == Restart(DeltaBytesExceeded) ==>
        batches < |feed| && TotalBytes(size, DeltaFor(feed[batches], watermark, maxRows).changes) > maxBytes
    {
      hide Good, Follows, Later, Valid, DeltaFor;
      batches, missed := 0, blind;
      ghost var start := watermark;
      ghost var now := feed[0];
      while batches < |feed|
        invariant batches <= |feed| && missed <= blind && start <= watermark
        invariant now == feed[if batches == 0 then 0 else batches - 1]
        invariant watermark <= now.head && (epoch == now.epoch ==> GoodAt(now, missed)) && now.epoch == feed[0].epoch
        invariant batches > 0 ==> epoch == now.epoch && start < watermark && !caughtUp
      {
        var s := feed[batches];
        Moves(now, s, start, watermark);
        var reply := Answer(s, watermark, epoch, maxRows, maxBytes, size);
        if reply.BootstrapRequired? {
          return Restart(reply.reason), batches, missed;
        }
        assert epoch == s.epoch == now.epoch && reply.delta == DeltaFor(s, watermark, maxRows);
        Round(now, s, contents, watermark, maxRows, missed);
        missed := missed - Touched(s.journal, now.head);
        now := s;
        var accepted := ApplyDelta(reply.delta, false);
        batches := batches + 1;
        if caughtUp {
          return UpToDate, batches, missed;
        }
      }
      outcome := Pending;
    }

    /** The replica is one a client at its watermark may hold. */
    ghost predicate GoodAt(s: Source, blind: set<Key>)
      reads this
    {
      watermark <= s.head && Good(contents, Contents(s.rows), s.journal, watermark, blind)
    }

    /** The last answer came from feed[batches - 1], and its contents are what the replica holds. */
    ghost predicate Finished(feed: seq<Source>, epoch: nat, batches: nat, missed: set<Key>)
      reads this
    {
      && 0 < batches <= |feed| && caughtUp && epoch == feed[0].epoch
      && watermark == feed[batches - 1].head && contents == Contents(feed[batches - 1].rows) - missed
    }
  }
}
