/** Replacing an oversized active database by a compact successor, over hard links and one atomic rename. */
module Rollover {
  import opened Wrappers

  const MAX_UNRECLAIMED_SEALED_EPOCHS := 2

  /** What one file-system step does: it happens, it raises without effect, or the process dies before it. */
  datatype Fault = Fine | Raises | Dies

  /** Everything about an attempt that its own code does not decide. `stray` is what an unexpected writer
      commits to the source's write-ahead log while the successor is being built. */
  datatype Env = Env(
    oversized: bool, inventoryReadable: bool, headroom: bool, truncate: Fault, build: Fault, built: seq<int>,
    stray: seq<int>, checks: Fault, makeDir: Fault, link: Fault, dropSidecars: Fault, replace: Fault,
    dropSuccessor: Fault, unlinkAlias: Fault, reopen: Fault, dropMarker: Fault)

  datatype Outcome = NotRequired | Blocked | Died | Failed(swapped: bool) | RolledOver

  /** The inodes some sealed path names: each counts once, however many links it has. */
  function Identities(links: map<nat, nat>): (ids: set<nat>)
    ensures forall i :: i in ids <==> exists token :: token in links && links[token] == i
  {
    set token | token in links :: links[token]
  }

  lemma IdentitiesGrow(links: map<nat, nat>, token: nat, inode: nat)
    requires token !in links
    ensures Identities(links[token := inode]) == Identities(links) + {inode}
  {
    var grown := links[token := inode];
    forall i | i in Identities(links) + {inode} ensures i in Identities(grown) {
      if i == inode {
        assert token in grown && grown[token] == i;
      } else {
        var t :| t in links && links[t] == i;
        assert t in grown && grown[t] == i;
      }
    }
  }

  /** One volume: a body per inode, and the names that point at them. A database's content is its
      main body followed by the committed frames of the write-ahead log beside its path. */
  class Volume {
    var bodies: map<nat, seq<int>>
    var active: nat
    var wal: Option<seq<int>>
    var successors: map<nat, nat>
    var links: map<nat, nat>
    var marker: bool
    ghost var committed: seq<int>

    ghost predicate Valid()
      reads this
    {
      && Whole() && |Identities(links)| <= MAX_UNRECLAIMED_SEALED_EPOCHS
      && (forall token :: token in links ==> links[token] in bodies)
      && (forall token :: token in successors ==> successors[token] in bodies && successors[token] != active)
      && (forall t, u :: t in successors && u in successors && successors[t] == successors[u] ==> t == u)
    }

    /** Opening the active path gives everything ever committed. */
    ghost predicate Whole()
      reads this
    {
      active in bodies && bodies[active] + Frames() == committed
    }

    function Frames(): seq<int>
      reads this
    {
      if wal.Some? then wal.value else []
    }

    constructor (content: seq<int>, inode: nat)
      ensures Valid() && links == successors == map[] && active == inode && committed == content && !marker
    {
      bodies, active, wal := map[inode := content], inode, None;
      successors, links, marker := map[], map[], false;
      committed := content;
    }

    /** A runtime transaction. */
    method Commit(change: int)
      requires Valid()
      modifies this
      ensures Valid() && committed == old(committed) + [change]
      ensures active == old(active) && links == old(links) && bodies == old(bodies)
    {
      wal := Some(Frames() + [change]);
      committed := committed + [change];
    }

    /** Distinct sealed inodes. */
    method PhysicalInodes() returns (count: nat)
      ensures count == |Identities(links)|
    {
      var identities: set<nat>, rest := {}, links.Keys;
      while rest != {}
        invariant rest <= links.Keys
        invariant forall i :: i in identities <==> exists token :: token in links && token !in rest && links[token] == i
        decreases |rest|
      {
        var token :| token in rest;
        identities, rest := identities + {links[token]}, rest - {token};
      }
      assert identities == Identities(links);
      return |identities|;
    }

    /** PRAGMA wal_checkpoint(TRUNCATE): the log is folded into the main body. */
    method TruncateWal(fault: Fault) returns (f: Fault)
      requires Valid()
      modifies this`bodies, this`wal
      ensures Valid() && f == fault
      ensures f.Fine? ==> Frames() == [] && bodies == old(bodies)[active := committed]
      ensures !f.Fine? ==> bodies == old(bodies) && wal == old(wal)
    {
      f := fault;
      if f.Fine? {
        bodies, wal := bodies[active := bodies[active] + Frames()], Some([]);
      }
    }

    /** Build and check the successor beside the source. It may be left half built. */
    method BuildSuccessor(env: Env, token: nat, inode: nat) returns (f: Fault)
      requires Valid() && inode !in bodies && token !in successors && Frames() == []
      modifies this`bodies, this`successors, this`wal, this`committed
      ensures Valid() && Frames() == env.stray && committed == old(committed) + env.stray
      ensures bodies == old(bodies)[inode := env.built] && successors == old(successors)[token := inode]
      ensures f.Fine? ==> env.built == old(committed)
      ensures f == (if !env.build.Fine? then env.build else if env.built == old(committed) then env.checks else Raises)
    {
      assert bodies[active] == committed;
      bodies, successors := bodies[inode := env.built], successors[token := inode];
      wal, committed := Some(Frames() + env.stray), committed + env.stray;
      if !env.build.Fine? {
        return env.build;
      }
      if env.built != bodies[active] {
        return Raises;
      }
      return env.checks;
    }

    /** Give the source a second name under a new sealed directory. */
    method Seal(env: Env, token: nat) returns (f: Fault)
      requires Valid() && token !in links && |Identities(links)| < MAX_UNRECLAIMED_SEALED_EPOCHS
      modifies this`links
      ensures Valid()
      ensures f == if env.makeDir.Fine? then env.link else env.makeDir
      ensures links == if f.Fine? then old(links)[token := active] else old(links)
    {
      if !env.makeDir.Fine? {
        return env.makeDir;
      }
      f := env.link;
      if f.Fine? {
        IdentitiesGrow(links, token, active);
        links := links[token := active];
      }
    }

    /** Drop the empty sidecars, then rename the successor over the active path. */
    method Swap(env: Env, token: nat) returns (f: Fault)
      requires Valid() && token in successors && (Frames() == [] ==> bodies[successors[token]] == committed)
      modifies this`wal, this`active, this`successors
      ensures f == if Frames() == [] then (if env.dropSidecars.Fine? then env.replace else env.dropSidecars) else Raises
      ensures f.Fine? ==>
        Valid() && active == old(successors[token]) && wal == None && successors == old(successors) - {token}
      ensures !f.Fine? ==>
        Valid() && active == old(active) && Frames() == old(Frames()) && successors == old(successors)
    {
      if Frames() != [] {
        return Raises;
      }
      if !env.dropSidecars.Fine? {
        return env.dropSidecars;
      }
      wal := None;
      f := env.replace;
      if f.Fine? {
        active, successors := successors[token], successors - {token};
      }
    }

    /** The exception handler: drop the successor, then the second name of the still active source.
        A failure of the first skips the second; a failure of the second is swallowed. */
    method CleanUp(env: Env, token: nat) returns (died: bool)
      requires Valid() && token in successors
      modifies this`successors, this`links
      ensures Valid() && successors.Keys <= old(successors.Keys)
      ensures died == (|| env.dropSuccessor.Dies?
                       || (env.dropSuccessor.Fine? && AliasOf(old(links), token) && env.unlinkAlias.Dies?))
      ensures links == if AliasOf(old(links), token) && env.dropSuccessor.Fine?
        && env.unlinkAlias.Fine? then old(links) - {token}
                       else old(links)
      ensures successors == if env.dropSuccessor.Fine? then old(successors) - {token} else old(successors)
    {
      if !env.dropSuccessor.Fine? {
        return env.dropSuccessor.Dies?;
      }
      successors := successors - {token};
      if AliasOf(links, token) {
        if env.unlinkAlias.Fine? {
          IdentitiesShrink(links, token);
          links := links - {token};
        }
        return env.unlinkAlias.Dies?;
      }
      return false;
    }

    predicate AliasOf(names: map<nat, nat>, token: nat)
      reads this
    {
      token in names && names[token] == active
    }

    /** Build, seal and swap, up to the first step that fails. */
    method Attempt(env: Env, token: nat, inode: nat) returns (f: Fault)
      requires Valid() && Frames() == [] && |Identities(links)| < MAX_UNRECLAIMED_SEALED_EPOCHS
      requires inode !in bodies && token !in successors && token !in links
      modifies this`bodies, this`wal, this`active, this`successors, this`links, this`committed
      ensures Valid() && committed == old(committed) + env.stray && bodies == old(bodies)[inode := env.built]
      ensures f.Fine? <==> Swaps(env, old(committed))
      ensures f.Fine? ==> active == inode && wal == None && env.built == committed && successors == old(successors)
      ensures !f.Fine? ==> active == old(active) && successors == old(successors)[token := inode]
      ensures links == if Sealed(env, old(committed)) then old(links)[token := old(active)] else old(links)
      ensures Survives(env) ==> !f.Dies?
      ensures Sealed(env, old(committed)) && env.stray == [] && env.dropSidecars.Fine? ==> f == env.replace
    {
      f := BuildSuccessor(env, token, inode);
      if f.Fine? {
        f := Seal(env, token);
        if f.Fine? {
          f := Swap(env, token);
        }
      }
      assert f.Fine? ==> old(successors)[token := inode] - {token} == old(successors);
    }

    /** Build, seal and swap, with the handler that undoes them. */
    method Replace(env: Env, token: nat, inode: nat) returns (f: Fault)
      requires Valid() && Frames() == [] && |Identities(links)| < MAX_UNRECLAIMED_SEALED_EPOCHS
      requires inode !in bodies && token !in successors && token !in links
      modifies this`bodies, this`wal, this`active, this`successors, this`links, this`committed
      ensures Valid() && committed == old(committed) + env.stray && bodies == old(bodies)[inode := env.built]
      ensures successors.Keys <= old(successors.Keys) + {token}
      ensures f.Fine? ==> active == inode && wal == None && env.stray == [] && env.built == committed
      ensures f.Fine? ==> links == old(links)[token := old(active)]
      ensures !f.Fine? ==> active == old(active)
      ensures f.Raises? ==>
        links == if Sealed(env, old(committed)) && !CleansUp(env) then old(links)[token := active] else old(links)
      ensures f.Dies? ==> links == old(links) || (Sealed(env, old(committed)) && links == old(links)[token := active])
      ensures Sealed(env, old(committed)) && env.stray == [] && env.dropSidecars.Fine? ==>
        && (env.replace.Fine? ==> f.Fine?)
        && (env.replace.Dies? ==> f.Dies? && links == old(links)[token := active])
      ensures f.Fine? <==> Swaps(env, old(committed))
      ensures Survives(env) ==> !f.Dies?
      ensures f.Raises? ==> !env.dropSuccessor.Dies?
      ensures f.Raises? && Sealed(env, old(committed)) && env.dropSuccessor.Fine? ==> !env.unlinkAlias.Dies?
      ensures successors == if f.Fine? || (f.Raises? && env.dropSuccessor.Fine?) then old(successors)
                            else if f.Raises? then old(successors)[token := inode] else successors
    {
      f := Attempt(env, token, inode);
      if f.Raises? {
        assert old(links)[token := active] - {token} == old(links);
        assert old(successors)[token := inode] - {token} == old(successors);
        var died := CleanUp(env, token);
        f := if died then Dies else Raises;
      }
    }

    /** One attempt at startup, with any failure or crash along the way. */
    method RolloverIfNeeded(env: Env, token: nat, inode: nat) returns (o: Outcome)
      requires Valid() && inode !in bodies && token !in successors && token !in links
      modifies this
      ensures Valid() && (committed == old(committed) || committed == old(committed) + env.stray)
      ensures bodies.Keys <= old(bodies.Keys) + {inode} && successors.Keys <= old(successors.Keys) + {token}
      // the active path names the source or the verified successor, and the source keeps a name
      ensures active == old(active) ==> links == old(links) || links == old(links)[token := active]
      ensures active != old(active) ==>
        active == inode && bodies[active] == committed == env.built && links == old(links)[token := old(active)]
      ensures o.RolledOver? || o == Failed(true) ==> active == inode
      ensures o.NotRequired? || o.Blocked? ==>
        active == old(active) && links == old(links) && committed == old(committed)
      // when it runs, and when it is refused
      ensures o.NotRequired? <==> !Requested(old(marker), env)
      ensures o.Blocked? <==> Requested(old(marker), env) && (Refuses(env, old(links)) || env.truncate.Raises?)
      // an exception before the swap leaves no second name exactly when the clean-up's own steps succeed
      ensures o == Failed(false) ==> active == old(active)
      ensures o == Failed(false) ==> (links == old(links) <==> !Sealed(env, old(committed)) || CleansUp(env))
      ensures o.Died? && active == old(active) && links != old(links) ==> Sealed(env, old(committed))
      ensures Requested(old(marker), env) && !Refuses(env, old(links)) && CrashesAtSwap(env, old(committed)) ==>
        o.Died? && active == old(active) && links == old(links)[token := active] && committed == old(committed)
      ensures marker == (old(marker) && !o.RolledOver?)
      // after the swap, an exception and a crash come from reopening or from dropping the marker
      ensures Survives(env) && !env.truncate.Dies? && !env.reopen.Dies? && !env.dropMarker.Dies? ==> !o.Died?
      ensures o == Failed(true) ==> env.reopen.Raises? || (env.reopen.Fine? && env.dropMarker.Raises?)
      ensures o.Died? && active != old(active) ==> env.reopen.Dies? || (env.reopen.Fine? && env.dropMarker.Dies?)
      ensures Requested(old(marker), env) && !Refuses(env, old(links)) && Works(env, old(committed)) ==> o.RolledOver?
    {
      if !marker && !env.oversized {
        return NotRequired;
      }
      var sealedCount := PhysicalInodes();
      if !env.inventoryReadable || sealedCount >= MAX_UNRECLAIMED_SEALED_EPOCHS || !env.headroom {
        return Blocked;
      }
      var f := TruncateWal(env.truncate);
      if !f.Fine? {
        return if f.Dies? then Died else Blocked;
      }
      f := Replace(env, token, inode);
      if !f.Fine? {
        return if f.Dies? then Died else Failed(false);
      }
      if !env.reopen.Fine? {
        return if env.reopen.Dies? then Died else Failed(true);
      }
      if marker {
        if !env.dropMarker.Fine? {
          return if env.dropMarker.Dies? then Died else Failed(true);
        }
        marker := false;
      }
      return RolledOver;
    }
  }

  predicate Requested(marker: bool, env: Env) {
    marker || env.oversized
  }

  ghost predicate Refuses(env: Env, links: map<nat, nat>) {
    !env.inventoryReadable || |Identities(links)| >= MAX_UNRECLAIMED_SEALED_EPOCHS || !env.headroom
  }

  predicate CleansUp(env: Env) {
    env.dropSuccessor.Fine? && env.unlinkAlias.Fine?
  }

  /** Power is lost after the source got its second name and before the rename. */
  predicate CrashesAtSwap(env: Env, content: seq<int>) {
    Sealed(env, content) && env.truncate.Fine? && env.stray == [] && env.dropSidecars.Fine? && env.replace.Dies?
  }

  /** The second name of the source is made. */
  predicate Sealed(env: Env, content: seq<int>) {
    env.build.Fine? && env.built == content && env.checks.Fine? && env.makeDir.Fine? && env.link.Fine?
  }

  /** The rename happens. */
  predicate Swaps(env: Env, content: seq<int>) {
    Sealed(env, content) && env.stray == [] && env.dropSidecars.Fine? && env.replace.Fine?
  }

  /** No step of building, swapping or cleaning up is where the process dies. */
  predicate Survives(env: Env) {
    && !env.build.Dies? && !env.checks.Dies? && !env.makeDir.Dies? && !env.link.Dies? && !env.dropSidecars.Dies?
    && !env.replace.Dies? && !env.dropSuccessor.Dies? && !env.unlinkAlias.Dies?
  }

  predicate Works(env: Env, content: seq<int>) {
    && env.truncate.Fine? && Sealed(env, content) && env.stray == []
    && env.dropSidecars.Fine? && env.replace.Fine? && env.reopen.Fine? && env.dropMarker.Fine?
  }

  lemma IdentitiesShrink(links: map<nat, nat>, token: nat)
    ensures Identities(links - {token}) <= Identities(links) && |Identities(links - {token})| <= |Identities(links)|
  {
    var fewer := links - {token};
    forall i | i in Identities(fewer) ensures i in Identities(links) {
      var t :| t in fewer && fewer[t] == i;
      assert t in links && links[t] == i;
    }
    SubsetSize(Identities(fewer), Identities(links));
  }

  lemma {:induction false} SubsetSize(a: set<nat>, b: set<nat>)
    requires a <= b
    ensures |a| <= |b|
  {
    if a != {} {
      var x :| x in a;
      SubsetSize(a - {x}, b - {x});
    }
  }

  datatype Step = Run(change: int) | Start(env: Env, token: nat, inode: nat)

  /** Any life of a volume: every inode that was ever active keeps a name, nothing committed is lost,
      and the number of sealed predecessors stays bounded. */
  method Lifetime(v: Volume, steps: seq<Step>) returns (ghost named: set<nat>)
    requires v.Valid() && v.links == map[]
    modifies v
    ensures v.Valid() && old(v.committed) <= v.committed
    ensures old(v.active) in named && v.active in named
    ensures forall inode :: inode in named ==> inode == v.active || inode in Identities(v.links)
  {
    named := {v.active};
    for i := 0 to |steps|
      invariant v.Valid() && old(v.committed) <= v.committed
      invariant old(v.active) in named && v.active in named
      invariant forall inode :: inode in named ==> inode == v.active || inode in Identities(v.links)
    {
      match steps[i]
      case Run(change) => v.Commit(change);
      case Start(env, token, inode) =>
        // identifiers are never reused
        if inode !in v.bodies && token !in v.successors && token !in v.links {
          var links, source := v.links, v.active;
          var o := v.RolloverIfNeeded(env, token, inode);
          IdentitiesGrow(links, token, source);
          named := named + {v.active};
        }
    }
  }

  /** A crash, unlike an exception, can spend the allowance: with one real predecessor sealed, dying
      between link and rename leaves the active inode counted too, and every later start is refused. */
  method CrashSpendsTheAllowance(v: Volume, crash: Env, later: Env, token: nat, inode: nat, token2: nat, inode2: nat)
    returns (o: Outcome)
    requires v.Valid() && v.marker && |Identities(v.links)| == 1 && v.active !in Identities(v.links)
    requires inode !in v.bodies && token !in v.successors && token !in v.links
    requires inode2 !in v.bodies && inode2 != inode && token2 != token && token2 !in v.successors && token2 !in v.links
    requires !Refuses(crash, v.links) && CrashesAtSwap(crash, v.committed)
    modifies v
    ensures v.Valid() && v.active == old(v.active) && o.Blocked?
  {
    var links, source := v.links, v.active;
    var first := v.RolloverIfNeeded(crash, token, inode);
    IdentitiesGrow(links, token, source);
    assert |Identities(links) + {source}| == |Identities(links)| + 1;
    o := v.RolloverIfNeeded(later, token2, inode2);
  }
}
