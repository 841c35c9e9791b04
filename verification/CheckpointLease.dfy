/** The generation-stamped lease that suspends SQLite's automatic checkpoints during a bootstrap. */
module CheckpointLease {
  import opened Wrappers

  const MAX_WAL_BYTES := 64 * 1024 * 1024
  const COMPLETE := "bootstrap_complete"

  datatype Refreshed = Leased(generation: nat) | NeedsMaintenance | Paused | Unavailable

  /** The lease fields beside the connection's setting. `configured` is the setting without a lease. */
  class Lease {
    var autocheckpoint: nat
    var active: bool
    var generation: nat
    var originalPages: nat
    var timer: Option<nat>
    var tableNames: seq<string>
    var restoreReason: Option<string>
    const configured: nat
    var timers: set<nat>  // generations of all timers ever started

    /** The setting is 0 exactly while a lease is active, and the configured value otherwise. */
    ghost predicate Valid()
      reads this
    {
      && (active ==> autocheckpoint == 0 && originalPages == configured && timer == Some(generation))
      && (!active ==> autocheckpoint == configured)
      && (forall g :: g in timers ==> 1 <= g <= generation)
      && (timer.Some? ==> timer.value in timers)
    }

    predicate Completed()
      reads this
    {
      !active && restoreReason == Some(COMPLETE)
    }

    constructor (pages: nat)
      ensures Valid() && !active && !Completed() && timers == {} && configured == autocheckpoint == pages
      ensures tableNames == []
    {
      configured, autocheckpoint, active, generation, originalPages := pages, pages, false, 0, 0;
      timer, tableNames, restoreReason, timers := None, [], None, {};
    }

    /** Put the original setting back. A failing write still ends the lease. */
    method Restore(reason: string, cancelTimer: bool, writeOk: bool) returns (restored: bool)
      modifies this`autocheckpoint, this`active, this`generation, this`timer, this`restoreReason
      requires Valid()
      ensures restored == (old(active) && writeOk) && !active
      ensures !old(active) ==>
        autocheckpoint == old(autocheckpoint) && generation == old(generation) && restoreReason == old(restoreReason)
      ensures restored ==> generation == old(generation) + 1 && restoreReason == Some(reason)
      ensures old(active) && !writeOk ==>
        generation == old(generation) && restoreReason == Some(reason + ":store_unavailable")
      ensures timer == if cancelTimer then None else old(timer)
      ensures Valid() <==> !old(active) || writeOk || configured == 0
    {
      if cancelTimer {
        timer := None;
      }
      if !active {
        return false;
      }
      active := false;
      if !writeOk {
        restoreReason := Some(reason + ":store_unavailable");
        return false;
      }
      autocheckpoint, restoreReason, generation := originalPages, Some(reason), generation + 1;
      return true;
    }

    /** Acquire or extend: a new generation and a new timer. A failing acquisition changes nothing. */
    method Schedule(writeOk: bool) returns (r: Refreshed)
      requires Valid()
      modifies this`autocheckpoint, this`active, this`generation, this`originalPages, this`timer
      modifies this`restoreReason, this`timers
      ensures Valid()
      ensures r == if old(active) || writeOk then Leased(old(generation) + 1) else Unavailable
      ensures r.Leased? ==> active && generation == r.generation && timer == Some(generation) && !Completed()
      ensures r.Leased? ==> timers == old(timers) + {generation}
      ensures r.Unavailable? ==>
        !active && generation == old(generation) && restoreReason == old(restoreReason) && timers == old(timers)
    {
      if !active {
        if !writeOk {
          return Unavailable;
        }
        originalPages := autocheckpoint;
        autocheckpoint, active, restoreReason := 0, true, None;
      }
      generation := generation + 1;
      timer, timers := Some(generation), timers + {generation};
      return Leased(generation);
    }

    /** First locked section of a refresh: below the ceiling the lease is extended; at the ceiling it is
        given up so that the log can be truncated. */
    method RefreshBegin(walBytes: nat, writeOk: bool) returns (r: Refreshed)
      requires Valid() && (walBytes >= MAX_WAL_BYTES ==> writeOk)
      modifies this`autocheckpoint, this`active, this`generation, this`originalPages, this`timer
      modifies this`restoreReason, this`timers
      ensures Valid() && old(timers) <= timers && generation >= old(generation)
      ensures walBytes >= MAX_WAL_BYTES ==> r == NeedsMaintenance && !active && timers == old(timers)
      ensures walBytes >= MAX_WAL_BYTES ==> (Completed() <==> old(Completed()))
      ensures walBytes >= MAX_WAL_BYTES ==>
        timer == (if old(active) then None else old(timer))
        && restoreReason == if old(active) then Some("wal_bound") else old(restoreReason)
      ensures walBytes < MAX_WAL_BYTES ==> r.Leased? || r.Unavailable?
      ensures r.Leased? ==> active && generation == r.generation > old(generation) && generation in timers
      ensures r.Unavailable? ==> !active && (Completed() <==> old(Completed()))
    {
      if walBytes < MAX_WAL_BYTES {
        r := Schedule(writeOk);
        return;
      }
      if active {
        var _ := Restore("wal_bound", true, writeOk);
      }
      return NeedsMaintenance;
    }

    /** Second locked section, after the checkpoint attempt ran without the lock. */
    method RefreshEnd(recovered: bool, walBytes: nat, writeOk: bool) returns (r: Refreshed)
      requires Valid()
      modifies this`autocheckpoint, this`active, this`generation, this`originalPages, this`timer
      modifies this`restoreReason, this`timers
      ensures Valid() && old(timers) <= timers && generation >= old(generation)
      ensures r.Leased? <==> recovered && walBytes < MAX_WAL_BYTES && (old(active) || writeOk)
      ensures r.Leased? ==> active && generation == r.generation > old(generation) && generation in timers
      ensures !r.Leased? ==>
        active == old(active) && generation == old(generation) && (Completed() <==> old(Completed()))
    {
      if !recovered || walBytes >= MAX_WAL_BYTES {
        return Paused;
      }
      r := Schedule(writeOk);
    }

    /** Timer `g` fires. Any timer ever started may still fire: cancelling can come too late. */
    method Expire(g: nat, writeOk: bool) returns (ended: bool)
      requires Valid() && g in timers && writeOk
      modifies this`autocheckpoint, this`active, this`generation, this`timer, this`restoreReason
      ensures Valid() && generation >= old(generation)
      ensures ended == (old(active) && g == old(generation))
      ensures ended ==> !active && !Completed() && restoreReason == Some("idle_timeout")
      ensures timer == old(timer)
      ensures !ended ==> active == old(active) && generation == old(generation) && restoreReason == old(restoreReason)
    {
      if !active || generation != g {
        return false;
      }
      ended := Restore("idle_timeout", false, writeOk);
    }

    method SetManifestTables(names: seq<string>)
      requires Valid()
      modifies this`tableNames
      ensures Valid() && tableNames == names
    {
      tableNames := names;
    }

    /** The last page of the last table ends the lease and marks completion. */
    method FinishIfComplete(done: bool, table: string, writeOk: bool) returns (finished: bool)
      requires Valid() && writeOk
      modifies this`autocheckpoint, this`active, this`generation, this`timer, this`restoreReason
      ensures Valid() && generation >= old(generation)
      ensures finished == (FinalPage(tableNames, done, table) && old(active))
      ensures finished ==> Completed()
      ensures timer == if FinalPage(tableNames, done, table) then None else old(timer)
      ensures !finished ==>
        active == old(active) && generation == old(generation) && restoreReason == old(restoreReason)
    {
      if !done || tableNames == [] || table != tableNames[|tableNames| - 1] {
        return false;
      }
      finished := Restore(COMPLETE, true, writeOk);
    }

    method Finish(reason: string, writeOk: bool) returns (finished: bool)
      requires Valid() && writeOk
      modifies this`autocheckpoint, this`active, this`generation, this`timer, this`restoreReason
      ensures Valid() && generation >= old(generation)
      ensures finished == old(active) && !active && timer == None
      ensures restoreReason == if finished then Some(reason) else old(restoreReason)
      ensures Completed() <==> if old(active) then reason == COMPLETE else old(Completed())
    {
      finished := Restore(reason, true, writeOk);
    }
  }

  predicate FinalPage(names: seq<string>, done: bool, table: string) {
    done && names != [] && table == names[|names| - 1]
  }

  /** One locked section, by whichever thread gets the lock next. Setting writes succeed, except that an
      acquisition may fail. */
  datatype Step =
    | Begin(walBytes: nat, writeOk: bool)
    | End(recovered: bool, walBytes: nat, writeOk: bool)
    | Fire(g: nat)
    | Manifest(names: seq<string>)
    | Page(done: bool, table: string)
    | Release(reason: string)

  function NamesAfter(names: seq<string>, steps: seq<Step>): seq<string> {
    if steps == [] then names
    else
      var last := steps[|steps| - 1];
      if last.Manifest? then last.names else NamesAfter(names, steps[..|steps| - 1])
  }

  /** Step i is the last page of the last table of the manifest in force at that point. */
  predicate CompletedBy(names: seq<string>, steps: seq<Step>, i: nat) {
    i < |steps| && steps[i].Page? && FinalPage(NamesAfter(names, steps[..i]), steps[i].done, steps[i].table)
  }

  method Take(lease: Lease, step: Step)
    requires lease.Valid() && (step.Release? ==> step.reason != COMPLETE)
    modifies lease
    ensures lease.Valid() && lease.generation >= old(lease.generation)
    ensures lease.tableNames == if step.Manifest? then step.names else old(lease.tableNames)
    ensures lease.Completed() ==>
      old(lease.Completed()) || (step.Page? && FinalPage(old(lease.tableNames), step.done, step.table))
    // a timer of an older generation never ends a lease
    ensures step.Fire? && step.g < old(lease.generation) ==>
      lease.active == old(lease.active) && lease.generation == old(lease.generation)
        && lease.restoreReason == old(lease.restoreReason)
  {
    match step
    case Begin(walBytes, writeOk) => var _ := lease.RefreshBegin(walBytes, writeOk || walBytes >= MAX_WAL_BYTES);
    case End(recovered, walBytes, writeOk) => var _ := lease.RefreshEnd(recovered, walBytes, writeOk);
    case Fire(g) =>
      if g in lease.timers { var _ := lease.Expire(g, true); }
    case Manifest(names) => lease.SetManifestTables(names);
    case Page(done, table) => var _ := lease.FinishIfComplete(done, table, true);
    case Release(reason) => var _ := lease.Finish(reason, true);
  }

  /** Any interleaving: the setting follows the lease, and the worker gate's completion flag is raised
      only by the final page of the final table. */
  method Interleave(lease: Lease, steps: seq<Step>)
    requires lease.Valid() && !lease.Completed()
    requires forall i | 0 <= i < |steps| && steps[i].Release? :: steps[i].reason != COMPLETE
    modifies lease
    ensures lease.Valid()
    ensures lease.autocheckpoint == if lease.active then 0 else lease.configured
    ensures lease.Completed() ==> exists i: nat :: CompletedBy(old(lease.tableNames), steps, i)
  {
    ghost var names := lease.tableNames;
    for k := 0 to |steps|
      invariant lease.Valid() && lease.tableNames == NamesAfter(names, steps[..k])
      invariant lease.Completed() ==> exists i: nat :: CompletedBy(names, steps, i)
    {
      Take(lease, steps[k]);
      assert steps[..k + 1][..k] == steps[..k];
      assert steps[k].Page? && FinalPage(NamesAfter(names, steps[..k]), steps[k].done, steps[k].table) ==>
        CompletedBy(names, steps, k);
    }
  }
}
