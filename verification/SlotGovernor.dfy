/** Per-endpoint request slots: admission rules, waiter counts, release and cancellation. */
module SlotGovernor {

  datatype Workload = Critical | Certification | Research | Candidate | Standby

  /** The three admission rules, by the module that installs each. */
  datatype Rule = CandidatePriority | CandidateFirst | Fair

  /** One endpoint's limits; at least one slot stays critical and at least two do not. */
  datatype Policy = Policy(total: int, ceiling: int, researchMax: int)

  predicate Sane(p: Policy) {
    2 <= p.ceiling < p.total && 1 <= p.researchMax
  }

  /** The limits as the settings give them, whatever these are. */
  function Configured(total: int, reserved: int, research: int): Policy {
    var t := if total < 3 then 3 else total;
    var wanted := if reserved < 1 then 1 else reserved;
    var r := if wanted > t - 2 then t - 2 else wanted;
    var most := if t - r - 1 < 1 then 1 else t - r - 1;
    var m := if research < 1 then 1 else research;
    Policy(t, t - r, if m > most then most else m)
  }

  /** The settings give exactly the sane policies whose research limit leaves a noncritical slot. */
  lemma SaneIffConfigured(p: Policy)
    ensures Sane(p) && p.researchMax <= p.ceiling - 1 <==>
      exists total, reserved, research :: p == Configured(total, reserved, research)
  {
    if Sane(p) && p.researchMax <= p.ceiling - 1 {
      assert p == Configured(p.total, p.total - p.ceiling, p.researchMax);
    }
  }

  /** What an admission rule looks at. */
  datatype Load = Load(activeTotal: int, held: map<Workload, int>, waiting: map<Workload, int>)

  function Get(counts: map<Workload, int>, w: Workload): int {
    if w in counts then counts[w] else 0
  }

  function Background(load: Load): int {
    Get(load.held, Certification) + Get(load.held, Research)
  }

  /** The oldest rule predates standby work and does not count it. */
  function NoncriticalActive(rule: Rule, load: Load): int {
    Background(load) + Get(load.held, Candidate) + if rule == CandidatePriority then 0 else Get(load.held, Standby)
  }

  function AtLeastZero(n: int): int {
    if n < 0 then 0 else n
  }

  function One(b: bool): int {
    if b then 1 else 0
  }

  predicate ResearchAllowed(load: Load, p: Policy, rested: bool) {
    Get(load.held, Research) < p.researchMax && rested
  }

  predicate PriorityAllows(load: Load, w: Workload, p: Policy, rested: bool) {
    var active := NoncriticalActive(CandidatePriority, load);
    if w == Critical then load.activeTotal < p.total
    else if load.activeTotal >= p.total || active >= p.ceiling then false
    else if w != Candidate && Get(load.waiting, Candidate) > 0 && active >= AtLeastZero(p.ceiling - 1) then false
    else if w == Research then ResearchAllowed(load, p, rested)
    else true
  }

  predicate FirstAllows(load: Load, w: Workload, p: Policy, rested: bool) {
    var active := NoncriticalActive(CandidateFirst, load);
    if w == Critical then load.activeTotal < p.total
    else if load.activeTotal >= p.total || active >= p.ceiling then false
    else if w == Candidate then true
    else if Get(load.waiting, Candidate) > 0 then false
    else if w == Standby then true
    else if Get(load.waiting, Standby) > 0 && Get(load.held, Standby) == 0
      && active >= AtLeastZero(p.ceiling - 1) then false
    else if w == Research then ResearchAllowed(load, p, rested)
    else true
  }

  /** A class waits and holds nothing. */
  predicate Starved(load: Load, w: Workload) {
    Get(load.waiting, w) > 0 && Get(load.held, w) == 0
  }

  predicate FairAllows(load: Load, w: Workload, p: Policy, rested: bool) {
    var active := NoncriticalActive(Fair, load);
    var reserved := One(Starved(load, Candidate)) + One(Starved(load, Standby));
    if w == Critical then load.activeTotal < p.total
    else if load.activeTotal >= p.total || active >= p.ceiling then false
    else if w == Candidate then !(Starved(load, Standby) && Get(load.held, Candidate) >= 1)
    else if w == Standby then !Starved(load, Candidate)
    else if active >= AtLeastZero(p.ceiling - reserved) then false
    else if w == Research then ResearchAllowed(load, p, rested)
    else true
  }

  /** `rested` says that the minimum interval since the last research request has passed. */
  predicate Allowed(rule: Rule, load: Load, w: Workload, p: Policy, rested: bool) {
    match rule
    case CandidatePriority => PriorityAllows(load, w, p, rested)
    case CandidateFirst => FirstAllows(load, w, p, rested)
    case Fair => FairAllows(load, w, p, rested)
  }

  // ---- what the rules guarantee ----

  function Sum(held: map<Workload, int>): int {
    Get(held, Critical) + Get(held, Certification) + Get(held, Research) + Get(held, Candidate) + Get(held, Standby)
  }

  /** Bounds every reachable load keeps. Standby work exists only under the rules that know it. */
  predicate Bounded(rule: Rule, load: Load, p: Policy) {
    && load.activeTotal == Sum(load.held) <= p.total && NoncriticalActive(rule, load) <= p.ceiling
    && Get(load.held, Research) <= p.researchMax
    && (forall w :: Get(load.held, w) >= 0 && Get(load.waiting, w) >= 0)
    && (rule == CandidatePriority ==> Get(load.held, Standby) == 0 && Get(load.waiting, Standby) == 0)
  }

  /** A critical request is admitted whenever the critical reserve is not used up. */
  lemma CriticalReserve(rule: Rule, load: Load, p: Policy, rested: bool)
    requires Bounded(rule, load, p) && Get(load.held, Critical) < p.total - p.ceiling
    ensures Allowed(rule, load, Critical, p, rested)
  {
    assert load.activeTotal == Get(load.held, Critical) + NoncriticalActive(rule, load);
  }

  /** Candidate and standby never block each other: with room and a waiter, some waiter may go. */
  lemma SomeWaiterMayGo(rule: Rule, load: Load, p: Policy, rested: bool)
    requires Bounded(rule, load, p) && Sane(p)
    requires load.activeTotal < p.total && NoncriticalActive(rule, load) < p.ceiling
    requires Get(load.waiting, Candidate) > 0 || Get(load.waiting, Standby) > 0
    ensures exists w | w in {Candidate, Standby} :: Get(load.waiting, w) > 0 && Allowed(rule, load, w, p, rested)
  {
    var w := if Get(load.waiting, Candidate) == 0
      || (rule == Fair && Starved(load, Standby) && Get(load.held, Candidate) >= 1)
      then Standby else Candidate;
    assert w in {Candidate, Standby} && Get(load.waiting, w) > 0 && Allowed(rule, load, w, p, rested);
  }

  /** With nobody waiting every rule is plain capacity, and research is limited and spaced out: no
      request is refused needlessly. */
  lemma UncontendedIsCapacity(rule: Rule, load: Load, w: Workload, p: Policy, rested: bool)
    requires Sane(p) && Get(load.waiting, Candidate) == Get(load.waiting, Standby) == 0
    ensures Allowed(rule, load, w, p, rested) <==>
      && load.activeTotal < p.total
      && (w != Critical ==> NoncriticalActive(rule, load) < p.ceiling)
      && (w == Research ==> Get(load.held, Research) < p.researchMax && rested)
  {
  }

  /** Under the candidate-first rule a waiting candidate holds off everything but critical work. */
  lemma CandidateOutranks(load: Load, w: Workload, p: Policy, rested: bool)
    requires Get(load.waiting, Candidate) > 0 && Allowed(CandidateFirst, load, w, p, rested)
    ensures w == Critical || w == Candidate
  {
  }

  /** Room for one more request that is not critical. */
  predicate HasRoom(load: Load, p: Policy, standby: bool) {
    load.activeTotal < p.total && FreeSlots(load, p, standby) >= 1
  }

  /** Slots of the ceiling that no noncritical task holds; the oldest rule does not look at standby. */
  function FreeSlots(load: Load, p: Policy, standby: bool): int {
    p.ceiling - Get(load.held, Certification) - Get(load.held, Research) - Get(load.held, Candidate)
    - if standby then Get(load.held, Standby) else 0
  }

  /** Classes that wait and hold nothing. */
  function StarvedClasses(load: Load): set<Workload> {
    set w | w in {Candidate, Standby} && Get(load.waiting, w) > 0 && Get(load.held, w) == 0
  }

  predicate ResearchHeldBack(load: Load, w: Workload, p: Policy, rested: bool) {
    w == Research && (Get(load.held, Research) >= p.researchMax || !rested)
  }

  /** Under the fair rule, with room, background work is refused exactly when it would leave fewer free slots
      than classes that wait and hold nothing, or by the research limits; standby exactly while a candidate is
      starved; and a further candidate exactly while standby is. */
  lemma FairRefusesIff(load: Load, w: Workload, p: Policy, rested: bool)
    requires Sane(p) && HasRoom(load, p, true)
    ensures w == Certification || w == Research ==>
      (!Allowed(Fair, load, w, p, rested) <==>
         FreeSlots(load, p, true) - 1 < |StarvedClasses(load)| || ResearchHeldBack(load, w, p, rested))
    ensures !Allowed(Fair, load, Standby, p, rested) <==> Candidate in StarvedClasses(load)
    ensures !Allowed(Fair, load, Candidate, p, rested) <==>
      Standby in StarvedClasses(load) && Get(load.held, Candidate) > 0
  {
    StarvedCount(load);
  }

  lemma StarvedCount(load: Load)
    ensures |StarvedClasses(load)| == One(Starved(load, Candidate)) + One(Starved(load, Standby))
  {
    var candidate := if Starved(load, Candidate) then {Candidate} else {};
    var standby := if Starved(load, Standby) then {Standby} else {};
    assert StarvedClasses(load) == candidate + standby;
  }

  /** Under the oldest rule one slot is withheld from others while a candidate waits. */
  lemma PriorityRefusesIff(load: Load, w: Workload, p: Policy, rested: bool)
    requires Sane(p) && HasRoom(load, p, false) && w != Critical
    ensures !Allowed(CandidatePriority, load, w, p, rested) <==>
      || (w != Candidate && Get(load.waiting, Candidate) > 0 && FreeSlots(load, p, false) == 1)
      || ResearchHeldBack(load, w, p, rested)
  {
  }

  /** Under candidate-first everything but critical and candidate work is refused while a candidate waits, and
      the last free slot is withheld from background work while standby waits and holds nothing. */
  lemma FirstRefusesIff(load: Load, w: Workload, p: Policy, rested: bool)
    requires Sane(p) && HasRoom(load, p, true) && w != Critical
    ensures !Allowed(CandidateFirst, load, w, p, rested) <==>
      || (w != Candidate && Get(load.waiting, Candidate) > 0)
      || (w != Candidate && w != Standby && Standby in StarvedClasses(load) && FreeSlots(load, p, true) == 1)
      || ResearchHeldBack(load, w, p, rested)
  {
  }

  /** Without room every rule refuses, critical work only when the total is used up. */
  lemma NoRoomNoGrant(rule: Rule, load: Load, w: Workload, p: Policy, rested: bool)
    ensures Allowed(rule, load, Critical, p, rested) <==> load.activeTotal < p.total
    ensures w != Critical && !HasRoom(load, p, rule != CandidatePriority) ==> !Allowed(rule, load, w, p, rested)
  {
  }

  /** Noncritical slots held by classes other than w. */
  function Others(rule: Rule, load: Load, w: Workload): int {
    NoncriticalActive(rule, load) - Get(load.held, w)
  }

  /** While a candidate waits, admitting other noncritical work never lets it fill the ceiling. */
  lemma CandidateKeepsRoom(rule: Rule, load: Load, w: Workload, p: Policy, rested: bool)
    requires Bounded(rule, load, p) && Sane(p) && Get(load.waiting, Candidate) > 0
    requires w != Critical && w != Candidate && Allowed(rule, load, w, p, rested)
    ensures Others(rule, load, Candidate) + 1 < p.ceiling
  {
  }

  /** The same for standby fails in one case only: the last slot goes to a first candidate when
      neither class holds anything. */
  lemma StandbyKeepsRoomIff(load: Load, w: Workload, p: Policy, rested: bool)
    requires Bounded(Fair, load, p) && Sane(p) && Get(load.waiting, Standby) > 0
    requires w != Critical && w != Standby && Allowed(Fair, load, w, p, rested)
    ensures Others(Fair, load, Standby) + 1 < p.ceiling <==>
      !(w == Candidate && Get(load.held, Candidate) == 0 && Get(load.held, Standby) == 0
        && NoncriticalActive(Fair, load) == p.ceiling - 1)
  {
  }

  // ---- tasks ----

  datatype Task = Waiting(workload: Workload) | Holding(workload: Workload)

  ghost function Those(tasks: map<nat, Task>, x: Task): set<nat> {
    set t | t in tasks && tasks[t] == x
  }

  ghost function Count(tasks: map<nat, Task>, x: Task): nat {
    |Those(tasks, x)|
  }

  lemma CountWithout(tasks: map<nat, Task>, t: nat, x: Task)
    ensures Count(tasks, x) == Count(tasks - {t}, x) + if t in tasks && tasks[t] == x then 1 else 0
  {
    var all, fewer := Those(tasks, x), Those(tasks - {t}, x);
    assert all == if t in tasks && tasks[t] == x then fewer + {t} else fewer;
    assert t !in fewer;
  }

  lemma CountPut(tasks: map<nat, Task>, t: nat, y: Task, x: Task)
    ensures Count(tasks[t := y], x) == Count(tasks - {t}, x) + if y == x then 1 else 0
  {
    CountWithout(tasks[t := y], t, x);
    assert tasks[t := y] - {t} == tasks - {t};
  }

  predicate Registers(rule: Rule, w: Workload) {
    w == Candidate || (w == Standby && rule != CandidatePriority)
  }

  /** The counters say exactly how many tasks hold and wait. */
  ghost predicate Exact(rule: Rule, load: Load, tasks: map<nat, Task>) {
    && (forall w :: Get(load.held, w) == Count(tasks, Holding(w)))
    && (forall w :: Get(load.waiting, w) == if Registers(rule, w) then Count(tasks, Waiting(w)) else 0)
  }

  /** dict[w] = max(0, dict.get(w, 0) + delta) */
  function Bump(counts: map<Workload, int>, w: Workload, delta: int): map<Workload, int> {
    counts[w := AtLeastZero(Get(counts, w) + delta)]
  }

  lemma ExactAfterPut(rule: Rule, load: Load, load2: Load, tasks: map<nat, Task>, t: nat, y: Task)
    requires Exact(rule, load, tasks)
    requires var before := if t in tasks then {tasks[t]} else {};
      && (forall w :: Get(load2.held, w) == Get(load.held, w) - One(Holding(w) in before) + One(Holding(w) == y))
      && (forall w :: Get(load2.waiting, w) == Get(load.waiting, w)
            + if Registers(rule, w) then One(Waiting(w) == y) - One(Waiting(w) in before) else 0)
    ensures Exact(rule, load2, tasks[t := y])
  {
    forall x: Task ensures Count(tasks[t := y], x) == Count(tasks, x) - One(t in tasks && tasks[t] == x) + One(x == y) {
      CountWithout(tasks, t, x);
      CountPut(tasks, t, y, x);
    }
  }

  lemma ExactAfterDrop(rule: Rule, load: Load, load2: Load, tasks: map<nat, Task>, t: nat)
    requires Exact(rule, load, tasks) && t in tasks
    requires forall w :: Get(load2.held, w) == Get(load.held, w) - One(tasks[t] == Holding(w))
    requires forall w ::
      Get(load2.waiting, w) == Get(load.waiting, w) - One(Registers(rule, w) && tasks[t] == Waiting(w))
    ensures Exact(rule, load2, tasks - {t})
  {
    forall x: Task ensures Count(tasks - {t}, x) == Count(tasks, x) - One(tasks[t] == x) {
      CountWithout(tasks, t, x);
    }
  }

  lemma CountPositive(tasks: map<nat, Task>, t: nat)
    requires t in tasks
    ensures Count(tasks, tasks[t]) > 0
  {
    CountWithout(tasks, t, tasks[t]);
  }

  /** What a grant, an arrival and a release do to the counters. */
  function Granted(rule: Rule, load: Load, w: Workload): Load {
    var waiting := if Registers(rule, w) then Bump(load.waiting, w, -1) else load.waiting;
    Load(load.activeTotal + 1, Bump(load.held, w, 1), waiting)
  }

  function Enrolled(rule: Rule, load: Load, w: Workload): Load {
    if Registers(rule, w) then load.(waiting := Bump(load.waiting, w, 1)) else load
  }

  function Freed(load: Load, w: Workload): Load {
    Load(AtLeastZero(load.activeTotal - 1), Bump(load.held, w, -1), load.waiting)
  }

  lemma GrantKeepsBounds(rule: Rule, load: Load, w: Workload, p: Policy, rested: bool)
    requires Sane(p) && Bounded(rule, load, p) && Allowed(rule, load, w, p, rested)
    requires !(rule == CandidatePriority && w == Standby)
    ensures Bounded(rule, Granted(rule, load, w), p)
  {
    var load2 := Granted(rule, load, w);
    assert forall x :: Get(load2.held, x) == Get(load.held, x) + One(x == w);
  }

  function Withdrawn(rule: Rule, load: Load, w: Workload): Load {
    if Registers(rule, w) then load.(waiting := Bump(load.waiting, w, -1)) else load
  }

  /** The counters of one endpoint and the tasks they count. */
  datatype Books = Books(load: Load, tasks: map<nat, Task>)

  ghost predicate Sound(rule: Rule, p: Policy, b: Books) {
    && Sane(p) && Bounded(rule, b.load, p) && Exact(rule, b.load, b.tasks)
    && (rule == CandidatePriority ==> forall t | t in b.tasks :: b.tasks[t].workload != Standby)
  }

  /** A request arrives, makes a pass of its acquire loop, is cancelled while it waits, or gives its slot back. */
  datatype Step =
    | Arrive(task: nat, workload: Workload)
    | Pass(task: nat, rested: bool)
    | Abandon(task: nat)
    | Finish(task: nat)

  predicate Possible(rule: Rule, b: Books, step: Step) {
    match step
    case Arrive(t, w) => t !in b.tasks && !(rule == CandidatePriority && w == Standby)
    case Pass(t, _) => t in b.tasks && b.tasks[t].Waiting?
    case Abandon(t) => t in b.tasks && b.tasks[t].Waiting?
    case Finish(t) => t in b.tasks && b.tasks[t].Holding?
  }

  /** The pass succeeds. */
  predicate Grants(rule: Rule, p: Policy, b: Books, step: Step) {
    step.Pass? && Possible(rule, b, step) && Allowed(rule, b.load, b.tasks[step.task].workload, p, step.rested)
  }

  /** One step; a step that is not possible changes nothing. */
  function Move(rule: Rule, p: Policy, b: Books, step: Step): Books {
    if !Possible(rule, b, step) then b
    else match step
      case Arrive(t, w) => Books(Enrolled(rule, b.load, w), b.tasks[t := Waiting(w)])
      case Pass(t, _) =>
        var w := b.tasks[t].workload;
        if Grants(rule, p, b, step) then Books(Granted(rule, b.load, w), b.tasks[t := Holding(w)]) else b
      case Abandon(t) => Books(Withdrawn(rule, b.load, b.tasks[t].workload), b.tasks - {t})
      case Finish(t) => Books(Freed(b.load, b.tasks[t].workload), b.tasks - {t})
  }

  function Run(rule: Rule, p: Policy, b: Books, steps: seq<Step>): Books
    decreases |steps|
  {
    if steps == [] then b else Run(rule, p, Move(rule, p, b, steps[0]), steps[1..])
  }

  lemma ArriveKeepsSound(rule: Rule, p: Policy, b: Books, t: nat, w: Workload)
    requires Sound(rule, p, b) && Possible(rule, b, Arrive(t, w))
    ensures Sound(rule, p, Move(rule, p, b, Arrive(t, w)))
  {
    ExactAfterPut(rule, b.load, Enrolled(rule, b.load, w), b.tasks, t, Waiting(w));
  }

  lemma AbandonKeepsSound(rule: Rule, p: Policy, b: Books, t: nat)
    requires Sound(rule, p, b) && Possible(rule, b, Abandon(t))
    ensures Sound(rule, p, Move(rule, p, b, Abandon(t)))
  {
    CountPositive(b.tasks, t);
    ExactAfterDrop(rule, b.load, Withdrawn(rule, b.load, b.tasks[t].workload), b.tasks, t);
  }

  lemma GrantKeepsCounts(rule: Rule, load: Load, tasks: map<nat, Task>, t: nat, w: Workload)
    requires Exact(rule, load, tasks) && t in tasks && tasks[t] == Waiting(w)
    ensures Exact(rule, Granted(rule, load, w), tasks[t := Holding(w)])
  {
    CountPositive(tasks, t);
    ExactAfterPut(rule, load, Granted(rule, load, w), tasks, t, Holding(w));
  }

  lemma FreeKeepsBounds(rule: Rule, load: Load, w: Workload, p: Policy)
    requires Bounded(rule, load, p) && Get(load.held, w) > 0
    ensures Bounded(rule, Freed(load, w), p) && Freed(load, w).activeTotal == load.activeTotal - 1
    ensures forall x :: Get(Freed(load, w).held, x) == Get(load.held, x) - One(x == w)
  {
    var load2 := Freed(load, w);
    assert forall x :: Get(load2.held, x) == Get(load.held, x) - One(x == w);
  }

  lemma FreeKeepsCounts(rule: Rule, load: Load, tasks: map<nat, Task>, t: nat, w: Workload)
    requires Exact(rule, load, tasks) && t in tasks && tasks[t] == Holding(w)
    ensures Get(load.held, w) > 0 && Exact(rule, Freed(load, w), tasks - {t})
  {
    CountPositive(tasks, t);
    ExactAfterDrop(rule, load, Freed(load, w), tasks, t);
  }

  lemma GrantKeepsSound(rule: Rule, p: Policy, b: Books, t: nat, rested: bool)
    requires Sound(rule, p, b) && Grants(rule, p, b, Pass(t, rested))
    ensures Sound(rule, p, Move(rule, p, b, Pass(t, rested)))
  {
    GrantKeepsBounds(rule, b.load, b.tasks[t].workload, p, rested);
    GrantKeepsCounts(rule, b.load, b.tasks, t, b.tasks[t].workload);
  }

  lemma FinishKeepsSound(rule: Rule, p: Policy, b: Books, t: nat)
    requires Sound(rule, p, b) && Possible(rule, b, Finish(t))
    ensures Sound(rule, p, Move(rule, p, b, Finish(t)))
    ensures Move(rule, p, b, Finish(t)).load.activeTotal == b.load.activeTotal - 1
    ensures forall x ::
      Get(Move(rule, p, b, Finish(t)).load.held, x) == Get(b.load.held, x) - One(x == b.tasks[t].workload)
  {
    FreeKeepsCounts(rule, b.load, b.tasks, t, b.tasks[t].workload);
    FreeKeepsBounds(rule, b.load, b.tasks[t].workload, p);
  }

  /** Every step keeps the counters exact and every bound. */
  lemma MoveKeepsSound(rule: Rule, p: Policy, b: Books, step: Step)
    requires Sound(rule, p, b)
    ensures Sound(rule, p, Move(rule, p, b, step))
  {
    if Possible(rule, b, step) {
      match step
      case Arrive(t, w) => ArriveKeepsSound(rule, p, b, t, w);
      case Pass(t, rested) => if Grants(rule, p, b, step) { GrantKeepsSound(rule, p, b, t, rested); }
      case Abandon(t) => AbandonKeepsSound(rule, p, b, t);
      case Finish(t) => FinishKeepsSound(rule, p, b, t);
    }
  }

  /** One endpoint's shared state, with the tasks that use it. */
  class Endpoint {
    const rule: Rule
    const policy: Policy
    var activeTotal: int
    var held: map<Workload, int>
    var waiting: map<Workload, int>
    var tasks: map<nat, Task>

    function View(): Books
      reads this
    {
      Books(Load(activeTotal, held, waiting), tasks)
    }

    ghost predicate Valid()
      reads this
    {
      Sound(rule, policy, View())
    }

    constructor (rule: Rule, policy: Policy)
      requires Sane(policy)
      ensures Valid() && View() == Idle() && this.rule == rule && this.policy == policy
    {
      this.rule, this.policy := rule, policy;
      activeTotal, held, waiting, tasks := 0, map[], map[], map[];
    }

    /** A request arrives and registers as a waiter of its class. */
    method Enter(t: nat, w: Workload)
      requires Valid() && Possible(rule, View(), Arrive(t, w))
      modifies this`waiting, this`tasks
      ensures Valid() && View() == Books(Enrolled(rule, old(View()).load, w), old(tasks)[t := Waiting(w)])
      ensures var registers := w == Candidate || (w == Standby && rule != CandidatePriority);
        forall x :: Get(waiting, x) == old(Get(waiting, x)) + One(x == w && registers)
    {
      ArriveKeepsSound(rule, policy, View(), t, w);
      if Registers(rule, w) {
        waiting := Bump(waiting, w, 1);
      }
      tasks := tasks[t := Waiting(w)];
    }

    /** One pass of the acquire loop, under the lock. */
    method TryAcquire(t: nat, w: Workload, rested: bool) returns (granted: bool)
      requires Valid() && t in tasks && tasks[t] == Waiting(w)
      modifies this
      ensures Valid() && granted == Allowed(rule, old(View()).load, w, policy, rested)
      ensures View() == if granted then Books(Granted(rule, old(View()).load, w), old(tasks)[t := Holding(w)])
        else old(View())
    {
      var load := View().load;
      if !Allowed(rule, load, w, policy, rested) {
        return false;
      }
      GrantKeepsSound(rule, policy, View(), t, rested);
      var next := Granted(rule, load, w);
      activeTotal, held, waiting := next.activeTotal, next.held, next.waiting;
      tasks := tasks[t := Holding(w)];
      return true;
    }

    /** A waiting task is cancelled: the finally block takes back its registration. */
    method Cancel(t: nat, w: Workload)
      requires Valid() && t in tasks && tasks[t] == Waiting(w)
      modifies this`waiting, this`tasks
      ensures Valid() && View() == Books(Withdrawn(rule, old(View()).load, w), old(tasks) - {t})
    {
      AbandonKeepsSound(rule, policy, View(), t);
      if Registers(rule, w) {
        waiting := Bump(waiting, w, -1);
      }
      tasks := tasks - {t};
    }

    /** A slot is given back; neither lower clamp ever takes effect. */
    method Release(t: nat, w: Workload)
      requires Valid() && t in tasks && tasks[t] == Holding(w)
      modifies this`activeTotal, this`held, this`tasks
      ensures Valid() && View() == Books(Freed(old(View()).load, w), old(tasks) - {t})
      ensures activeTotal == old(activeTotal) - 1
      ensures forall x :: Get(held, x) == Get(old(held), x) - One(x == w)
    {
      FinishKeepsSound(rule, policy, View(), t);
      activeTotal, held := AtLeastZero(activeTotal - 1), Bump(held, w, -1);
      tasks := tasks - {t};
    }
  }

  function Idle(): Books {
    Books(Load(0, map[], map[]), map[])
  }

  // ---- runs ----

  /** Task c is a waiting candidate, and the other classes do not fill the noncritical ceiling. */
  predicate AwaitsRoom(rule: Rule, p: Policy, b: Books, c: nat) {
    c in b.tasks && b.tasks[c] == Waiting(Candidate) && Others(rule, b.load, Candidate) < p.ceiling
  }

  lemma CandidateRoomAfterGrant(rule: Rule, load: Load, w: Workload, p: Policy, rested: bool)
    requires Bounded(rule, load, p) && Sane(p) && Get(load.waiting, Candidate) > 0
    requires Others(rule, load, Candidate) < p.ceiling && Allowed(rule, load, w, p, rested)
    ensures Others(rule, Granted(rule, load, w), Candidate) < p.ceiling
  {
    var load2 := Granted(rule, load, w);
    assert forall x :: Get(load2.held, x) == if x == w then AtLeastZero(Get(load.held, x) + 1) else Get(load.held, x);
    if w != Critical && w != Candidate { CandidateKeepsRoom(rule, load, w, p, rested); }
  }

  lemma CandidateRoomStays(rule: Rule, p: Policy, b: Books, step: Step, c: nat)
    requires Sound(rule, p, b) && AwaitsRoom(rule, p, b, c) && step.task != c
    ensures AwaitsRoom(rule, p, Move(rule, p, b, step), c)
  {
    if step.Finish? && Possible(rule, b, step) {
      FinishKeepsSound(rule, p, b, step.task);
    } else if Grants(rule, p, b, step) {
      CountPositive(b.tasks, c);
      CandidateRoomAfterGrant(rule, b.load, b.tasks[step.task].workload, p, step.rested);
    }
  }

  method Perform(e: Endpoint, step: Step)
    requires e.Valid()
    modifies e
    ensures e.Valid() && e.View() == Move(e.rule, e.policy, old(e.View()), step)
  {
    if Possible(e.rule, e.View(), step) {
      match step
      case Arrive(t, w) => e.Enter(t, w);
      case Pass(t, rested) => var _ := e.TryAcquire(t, e.tasks[t].workload, rested);
      case Abandon(t) => e.Cancel(t, e.tasks[t].workload);
      case Finish(t) => e.Release(t, e.tasks[t].workload);
    }
  }

  /** Critical work is admitted while its reserve is not used up, and candidate c, if it waits with room,
      as soon as no other candidate holds a slot and the total is not used up. */
  ghost predicate Admits(rule: Rule, p: Policy, b: Books, c: nat) {
    && (Get(b.load.held, Critical) < p.total - p.ceiling ==>
          forall rested :: Allowed(rule, b.load, Critical, p, rested))
    && ((AwaitsRoom(rule, p, b, c) && Get(b.load.held, Candidate) == 0 && b.load.activeTotal < p.total)
          ==> forall rested :: Allowed(rule, b.load, Candidate, p, rested))
  }

  /** No step belongs to task c. */
  predicate Spares(steps: seq<Step>, c: nat) {
    forall i | 0 <= i < |steps| :: steps[i].task != c
  }

  /** Any interleaving of arrivals, lock passes, cancellations and releases, from any state an endpoint
      can be in, keeps every counter exact and every bound, and always admits critical work within its
      reserve. While a candidate waits that had room when the run began, the other classes never fill
      the ceiling. */
  method Interleave(e: Endpoint, steps: seq<Step>, ghost c: nat)
    requires e.Valid()
    modifies e
    ensures e.Valid() && e.View() == Run(e.rule, e.policy, old(e.View()), steps)
    ensures Admits(e.rule, e.policy, e.View(), c)
    ensures old(AwaitsRoom(e.rule, e.policy, e.View(), c)) && Spares(steps, c) ==>
      AwaitsRoom(e.rule, e.policy, e.View(), c)
  {
    ghost var room := AwaitsRoom(e.rule, e.policy, e.View(), c) && Spares(steps, c);
    ghost var end := Run(e.rule, e.policy, e.View(), steps);
    for i := 0 to |steps|
      invariant e.Valid() && Run(e.rule, e.policy, e.View(), steps[i..]) == end
      invariant room ==> AwaitsRoom(e.rule, e.policy, e.View(), c)
    {
      if room { CandidateRoomStays(e.rule, e.policy, e.View(), steps[i], c); }
      Perform(e, steps[i]);
      assert steps[i..][1..] == steps[i + 1..];
    }
    AdmitsAlways(e.rule, e.policy, e.View(), c);
  }

  /** What sound books say: every slot held and every registered waiter is a task's, and no limit is passed. */
  lemma SoundMeans(rule: Rule, p: Policy, b: Books, w: Workload)
    requires Sound(rule, p, b)
    ensures Get(b.load.held, w) == Count(b.tasks, Holding(w))
    ensures w == Candidate || (w == Standby && rule != CandidatePriority) ==>
      Get(b.load.waiting, w) == Count(b.tasks, Waiting(w))
    ensures b.load.activeTotal == Get(b.load.held, Critical) + Get(b.load.held, Certification)
      + Get(b.load.held, Research) + Get(b.load.held, Candidate) + Get(b.load.held, Standby)
    ensures b.load.activeTotal <= p.total && FreeSlots(b.load, p, rule != CandidatePriority) >= 0
    ensures Get(b.load.held, Research) <= p.researchMax
  {
  }

  lemma AdmitsAlways(rule: Rule, p: Policy, b: Books, c: nat)
    requires Sound(rule, p, b)
    ensures Admits(rule, p, b, c)
  {
    if Get(b.load.held, Critical) < p.total - p.ceiling {
      forall rested ensures Allowed(rule, b.load, Critical, p, rested) { CriticalReserve(rule, b.load, p, rested); }
    }
  }

  // ---- overtaking a waiting standby task under the fair rule ----

  /** Standby task s waits and no standby task holds a slot. */
  predicate Overlooked(b: Books, s: nat) {
    s in b.tasks && b.tasks[s] == Waiting(Standby) && Get(b.load.held, Standby) == 0
  }

  /** Critical and background work leave a slot beside one candidate, in the total and below the ceiling. */
  predicate Roomy(p: Policy, b: Books) {
    Background(b.load) + 1 < p.ceiling && Get(b.load.held, Critical) + Background(b.load) + 1 < p.total
  }

  /** What a run has shown so far: how often a candidate was admitted, whether s has made a pass since the
      last such admission, whether s stayed overlooked with `keep` true, and whether s was attended:
      no candidate left its slot before s had tried for one. */
  datatype Watch = Watch(books: Books, overtakes: nat, tried: bool, overlooked: bool, attended: bool)

  function Observe(p: Policy, s: nat, keep: Books -> bool, w: Watch, step: Step): Watch {
    var next := Move(Fair, p, w.books, step);
    var taken := Grants(Fair, p, w.books, step) && w.books.tasks[step.task] == Waiting(Candidate);
    var leaves := step.Finish? && Possible(Fair, w.books, step) && w.books.tasks[step.task] == Holding(Candidate);
    Watch(next, w.overtakes + if taken then 1 else 0,
          if taken then false else w.tried || (step.Pass? && step.task == s),
          w.overlooked && Overlooked(next, s) && keep(next), w.attended && (leaves ==> w.tried))
  }

  function Watched(p: Policy, s: nat, keep: Books -> bool, w: Watch, steps: seq<Step>): Watch
    decreases |steps|
  {
    if steps == [] then w else Watched(p, s, keep, Observe(p, s, keep, w, steps[0]), steps[1..])
  }

  lemma {:induction false} WatchedIsRun(p: Policy, s: nat, keep: Books -> bool, w: Watch, steps: seq<Step>)
    ensures Watched(p, s, keep, w, steps).books == Run(Fair, p, w.books, steps)
    ensures Watched(p, s, keep, w, steps).overlooked ==> w.overlooked
    ensures Watched(p, s, keep, w, steps).attended ==> w.attended
    decreases |steps|
  {
    if steps != [] {
      WatchedIsRun(p, s, keep, Observe(p, s, keep, w, steps[0]), steps[1..]);
    }
  }

  lemma {:induction false} WatchedAppend(p: Policy, s: nat, keep: Books -> bool, w: Watch, a: seq<Step>, b: seq<Step>)
    ensures Watched(p, s, keep, w, a + b) == Watched(p, s, keep, Watched(p, s, keep, w, a), b)
    decreases |a|
  {
    if a == [] {
      assert a + b == b;
    } else {
      assert (a + b)[1..] == a[1..] + b;
      WatchedAppend(p, s, keep, Observe(p, s, keep, w, a[0]), a[1..], b);
    }
  }

  /** After one overtaking candidate, it is the only one and s has not tried since. */
  predicate AtMostOnce(w: Watch) {
    w.overtakes == 0 || (w.overtakes == 1 && Get(w.books.load.held, Candidate) == 1 && !w.tried)
  }

  /** With room beside one candidate, the pass of s succeeds while that candidate holds its slot. */
  lemma TurnOfStandby(p: Policy, b: Books, s: nat, rested: bool)
    requires Sound(Fair, p, b) && Overlooked(b, s) && Roomy(p, b) && Get(b.load.held, Candidate) == 1
    ensures Allowed(Fair, b.load, Standby, p, rested)
  {
  }

  lemma OvertakingStep(p: Policy, s: nat, keep: Books -> bool, w: Watch, step: Step)
    requires Sound(Fair, p, w.books) && Overlooked(w.books, s) && Roomy(p, w.books) && AtMostOnce(w)
    requires Observe(p, s, keep, w, step).overlooked && Observe(p, s, keep, w, step).attended
    ensures AtMostOnce(Observe(p, s, keep, w, step))
  {
    var b, next := w.books, Observe(p, s, keep, w, step);
    CountPositive(b.tasks, s);
    if Grants(Fair, p, b, step) {
      var x := b.tasks[step.task].workload;
      assert Get(next.books.load.held, Candidate) == Get(b.load.held, Candidate) + One(x == Candidate);
    } else if step.Finish? && Possible(Fair, b, step) {
      FinishKeepsSound(Fair, p, b, step.task);
    }
    if w.overtakes == 1 {
      TurnOfStandby(p, b, s, true);
      TurnOfStandby(p, b, s, false);
    }
  }

  /** In every run that attends to s and has room throughout, at most one candidate overtakes s, and
      then the very next pass of s succeeds. */
  lemma {:induction false} OvertakenAtMostOnce(p: Policy, s: nat, keep: Books -> bool, w: Watch, steps: seq<Step>)
    requires Sound(Fair, p, w.books) && Overlooked(w.books, s) && keep(w.books) && AtMostOnce(w)
    requires forall b: Books | keep(b) :: Roomy(p, b)
    requires Watched(p, s, keep, w, steps).overlooked && Watched(p, s, keep, w, steps).attended
    ensures var end := Watched(p, s, keep, w, steps);
      && end.overtakes <= 1
      && (end.overtakes == 1 ==> forall rested :: Allowed(Fair, end.books.load, Standby, p, rested))
    decreases |steps|
  {
    if steps == [] {
      if w.overtakes == 1 {
        TurnOfStandby(p, w.books, s, true);
        TurnOfStandby(p, w.books, s, false);
      }
    } else {
      var next := Observe(p, s, keep, w, steps[0]);
      WatchedIsRun(p, s, keep, next, steps[1..]);
      OvertakingStep(p, s, keep, w, steps[0]);
      MoveKeepsSound(Fair, p, w.books, steps[0]);
      OvertakenAtMostOnce(p, s, keep, next, steps[1..]);
    }
  }

  // ---- candidates taking turns ----

  /** Standby task s waits, candidate c alone of its class holds a slot, and no other candidate waits. */
  predicate Contended(b: Books, s: nat, c: nat) {
    && Overlooked(b, s) && c in b.tasks && b.tasks[c] == Holding(Candidate)
    && Get(b.load.held, Candidate) == 1 && Get(b.load.waiting, Candidate) == 0
  }

  /** Critical and background work are as in b. */
  function SameBusy(b: Books): Books -> bool {
    (x: Books) => Get(x.load.held, Critical) == Get(b.load.held, Critical) && Background(x.load) == Background(b.load)
  }

  /** The next candidate n arrives, s tries, candidate c leaves, s tries again, and n tries. */
  function TurnSteps(s: nat, c: nat, n: nat): seq<Step> {
    [Arrive(n, Candidate), Pass(s, true), Finish(c), Pass(s, true), Pass(n, true)]
  }

  /** The same without the first try of s. */
  function HastySteps(s: nat, c: nat, n: nat): seq<Step> {
    [Arrive(n, Candidate), Finish(c), Pass(s, true), Pass(n, true)]
  }

  lemma ArrivedBooks(p: Policy, b: Books, s: nat, c: nat, n: nat)
    requires Sound(Fair, p, b) && Contended(b, s, c) && n !in b.tasks
    ensures var arrived := Move(Fair, p, b, Arrive(n, Candidate));
      && Sound(Fair, p, arrived) && Overlooked(arrived, s) && SameBusy(b)(arrived)
      && arrived.tasks == b.tasks[n := Waiting(Candidate)]
      && Get(arrived.load.held, Candidate) == Get(arrived.load.waiting, Candidate) == 1
      && (Allowed(Fair, arrived.load, Standby, p, true) <==> Roomy(p, b))
  {
    CountPositive(b.tasks, s);
    MoveKeepsSound(Fair, p, b, Arrive(n, Candidate));
  }

  lemma LeftBooks(p: Policy, b: Books, s: nat, c: nat, n: nat)
    requires Sound(Fair, p, b) && Overlooked(b, s) && c in b.tasks && b.tasks[c] == Holding(Candidate)
    requires Get(b.load.held, Candidate) == Get(b.load.waiting, Candidate) == 1
    requires n in b.tasks && b.tasks[n] == Waiting(Candidate)
    ensures var left := Move(Fair, p, b, Finish(c));
      && Sound(Fair, p, left) && Overlooked(left, s) && SameBusy(b)(left) && left.tasks == b.tasks - {c}
      && Get(left.load.held, Candidate) == 0 && Get(left.load.waiting, Candidate) == 1
      && !Allowed(Fair, left.load, Standby, p, true) && Allowed(Fair, left.load, Candidate, p, true)
  {
    CountPositive(b.tasks, s);
    FinishKeepsSound(Fair, p, b, c);
  }

  lemma TakenBooks(p: Policy, b: Books, s: nat, n: nat)
    requires Sound(Fair, p, b) && Overlooked(b, s) && n in b.tasks && b.tasks[n] == Waiting(Candidate)
    requires Get(b.load.held, Candidate) == 0 && Get(b.load.waiting, Candidate) == 1
    requires Allowed(Fair, b.load, Candidate, p, true)
    ensures var taken := Move(Fair, p, b, Pass(n, true));
      && Sound(Fair, p, taken) && Contended(taken, s, n) && SameBusy(b)(taken)
      && taken.tasks == b.tasks[n := Holding(Candidate)]
  {
    MoveKeepsSound(Fair, p, b, Pass(n, true));
    var held := Granted(Fair, b.load, Candidate).held;
    assert forall x :: Get(held, x) == Get(b.load.held, x) + One(x == Candidate);
  }

  /** One turn overtakes s, which is refused both times, exactly when critical and background work leave
      no slot beside the candidate. */
  lemma TurnOvertakesIff(p: Policy, b: Books, s: nat, c: nat, n: nat)
    requires Sound(Fair, p, b) && Contended(b, s, c) && n !in b.tasks
    ensures var arrived := Move(Fair, p, b, Arrive(n, Candidate));
      var left := Move(Fair, p, arrived, Finish(c));
      (&& !Allowed(Fair, arrived.load, Standby, p, true) && !Allowed(Fair, left.load, Standby, p, true)
       && Allowed(Fair, left.load, Candidate, p, true))
      <==> Background(b.load) + 1 >= p.ceiling || Get(b.load.held, Critical) + Background(b.load) + 1 >= p.total
  {
    ArrivedBooks(p, b, s, c, n);
    LeftBooks(p, Move(Fair, p, b, Arrive(n, Candidate)), s, c, n);
  }

  /** A refused try changes nothing but that it was made. */
  lemma TryFails(p: Policy, s: nat, keep: Books -> bool, w: Watch)
    requires Overlooked(w.books, s) && keep(w.books) && !Allowed(Fair, w.books.load, Standby, p, true)
    ensures Observe(p, s, keep, w, Pass(s, true)) == w.(tried := true)
  {
  }

  /** The first two steps of a turn, then the other three. */
  lemma TurnBegins(p: Policy, s: nat, c: nat, n: nat, keep: Books -> bool, w: Watch)
    requires Sound(Fair, p, w.books) && Contended(w.books, s, c) && n !in w.books.tasks && !Roomy(p, w.books)
    requires forall x: Books | SameBusy(w.books)(x) :: keep(x)
    ensures Observe(p, s, keep, Observe(p, s, keep, w, Arrive(n, Candidate)), Pass(s, true))
            == w.(books := Move(Fair, p, w.books, Arrive(n, Candidate)), tried := true)
  {
    ArrivedBooks(p, w.books, s, c, n);
    TryFails(p, s, keep, Observe(p, s, keep, w, Arrive(n, Candidate)));
  }

  lemma TurnEnds(p: Policy, s: nat, c: nat, n: nat, keep: Books -> bool, w: Watch)
    requires Sound(Fair, p, w.books) && Overlooked(w.books, s) && c in w.books.tasks
    requires w.books.tasks[c] == Holding(Candidate)
    requires Get(w.books.load.held, Candidate) == Get(w.books.load.waiting, Candidate) == 1
    requires n in w.books.tasks && w.books.tasks[n] == Waiting(Candidate)
    requires forall x: Books | SameBusy(w.books)(x) :: keep(x)
    ensures var left := Move(Fair, p, w.books, Finish(c));
      Observe(p, s, keep, Observe(p, s, keep, Observe(p, s, keep, w, Finish(c)), Pass(s, true)), Pass(n, true))
      == Watch(Move(Fair, p, left, Pass(n, true)), w.overtakes + 1, false, w.overlooked, w.attended && w.tried)
  {
    LeftBooks(p, w.books, s, c, n);
    var w1 := Observe(p, s, keep, w, Finish(c));
    TryFails(p, s, keep, w1);
    TakenBooks(p, w1.books, s, n);
  }

  /** The state after a turn is the state before it, with the next candidate in place of the last. */
  lemma TurnRepeats(p: Policy, s: nat, c: nat, n: nat, keep: Books -> bool, w: Watch)
    requires Sound(Fair, p, w.books) && Contended(w.books, s, c) && n !in w.books.tasks && !Roomy(p, w.books)
    requires forall x: Books | SameBusy(w.books)(x) :: keep(x)
    ensures var end := Watched(p, s, keep, w, TurnSteps(s, c, n));
      && Sound(Fair, p, end.books) && Contended(end.books, s, n) && SameBusy(w.books)(end.books)
        && end.overtakes == w.overtakes + 1
      && end.books.tasks.Keys <= w.books.tasks.Keys + {n} && end.overlooked == w.overlooked
        && end.attended == w.attended
  {
    ArrivedBooks(p, w.books, s, c, n);
    var b1 := Move(Fair, p, w.books, Arrive(n, Candidate));
    LeftBooks(p, b1, s, c, n);
    TakenBooks(p, Move(Fair, p, b1, Finish(c)), s, n);
    TurnBegins(p, s, c, n, keep, w);
    TurnEnds(p, s, c, n, keep, w.(books := b1, tried := true));
    FiveSteps(p, s, keep, w, TurnSteps(s, c, n));
  }

  lemma WatchedLast(p: Policy, s: nat, keep: Books -> bool, w: Watch, front: seq<Step>, last: Step)
    ensures Watched(p, s, keep, w, front + [last]) == Observe(p, s, keep, Watched(p, s, keep, w, front), last)
  {
    WatchedAppend(p, s, keep, w, front, [last]);
    assert [last][1..] == [];
  }

  lemma FourSteps(p: Policy, s: nat, keep: Books -> bool, w: Watch, steps: seq<Step>)
    requires |steps| == 4
    ensures Watched(p, s, keep, w, steps) ==
      var w2 := Observe(p, s, keep, Observe(p, s, keep, w, steps[0]), steps[1]);
      Observe(p, s, keep, Observe(p, s, keep, w2, steps[2]), steps[3])
  {
    assert steps[..1] == [] + [steps[0]] && steps[..2] == steps[..1] + [steps[1]];
    assert steps[..3] == steps[..2] + [steps[2]] && steps == steps[..3] + [steps[3]];
    WatchedLast(p, s, keep, w, [], steps[0]);
    WatchedLast(p, s, keep, w, steps[..1], steps[1]);
    WatchedLast(p, s, keep, w, steps[..2], steps[2]);
    WatchedLast(p, s, keep, w, steps[..3], steps[3]);
  }

  lemma FiveSteps(p: Policy, s: nat, keep: Books -> bool, w: Watch, steps: seq<Step>)
    requires |steps| == 5
    ensures Watched(p, s, keep, w, steps) ==
      Observe(p, s, keep, Observe(p, s, keep, Observe(p, s, keep, Observe(p, s, keep, Observe(p, s, keep, w,
        steps[0]), steps[1]), steps[2]), steps[3]), steps[4])
  {
    assert steps == steps[..4] + [steps[4]];
    FourSteps(p, s, keep, w, steps[..4]);
    WatchedLast(p, s, keep, w, steps[..4], steps[4]);
  }

  /** Tasks from n on are new. */
  predicate NewFrom(b: Books, n: nat) {
    forall t | t in b.tasks :: t < n
  }

  /** Candidate c holds a slot, s waits, tasks from n on are new, and the rest is as in b0. */
  ghost predicate Ready(p: Policy, s: nat, c: nat, n: nat, b0: Books, w: Watch) {
    && Sound(Fair, p, w.books) && Contended(w.books, s, c) && NewFrom(w.books, n)
    && SameBusy(b0)(w.books) && w.overlooked
  }

  lemma ReadyAgain(p: Policy, s: nat, c: nat, n: nat, b0: Books, w: Watch)
    requires Ready(p, s, c, n, b0, w) && !Roomy(p, b0)
    ensures var end := Watched(p, s, SameBusy(b0), w, TurnSteps(s, c, n));
      Ready(p, s, n, n + 1, b0, end) && end.overtakes == w.overtakes + 1 && end.attended == w.attended
  {
    TurnRepeats(p, s, c, n, SameBusy(b0), w);
  }

  lemma {:induction false} TurnsOvertake(p: Policy, s: nat, c: nat, n: nat, b0: Books, w: Watch, rounds: nat)
    returns (steps: seq<Step>)
    requires Ready(p, s, c, n, b0, w) && !Roomy(p, b0) && w.attended
    ensures var end := Watched(p, s, SameBusy(b0), w, steps);
      end.overlooked && end.attended && end.overtakes == w.overtakes + rounds
    decreases rounds
  {
    if rounds == 0 {
      steps := [];
    } else {
      var turn := TurnSteps(s, c, n);
      ReadyAgain(p, s, c, n, b0, w);
      var rest := TurnsOvertake(p, s, n, n + 1, b0, Watched(p, s, SameBusy(b0), w, turn), rounds - 1);
      WatchedAppend(p, s, SameBusy(b0), w, turn, rest);
      steps := turn + rest;
    }
  }

  /** Some run with critical and background work unchanged attends to s, keeps it waiting, and lets at
      least `rounds` candidates overtake it. */
  ghost predicate CanBeOvertaken(p: Policy, b: Books, s: nat, rounds: nat) {
    exists steps :: Overtaking(p, b, s, rounds, Watched(p, s, SameBusy(b), Watch(b, 0, false, true, true), steps))
  }

  predicate Overtaking(p: Policy, b: Books, s: nat, rounds: nat, end: Watch) {
    end.overlooked && end.attended && end.overtakes >= rounds
  }

  /** The exact condition. Beside one candidate holding a slot, overtaking of a waiting standby task is
      unbounded if and only if critical and background work leave it no slot; otherwise no run lets a
      second candidate overtake it. */
  lemma OvertakingIsUnboundedIff(p: Policy, b: Books, s: nat, c: nat)
    requires Sound(Fair, p, b) && Contended(b, s, c)
    ensures (forall rounds: nat :: CanBeOvertaken(p, b, s, rounds))
            <==> Background(b.load) + 1 >= p.ceiling || Get(b.load.held, Critical) + Background(b.load) + 1 >= p.total
    ensures CanBeOvertaken(p, b, s, 2) ==> forall rounds: nat :: CanBeOvertaken(p, b, s, rounds)
  {
    var start := Watch(b, 0, false, true, true);
    if Roomy(p, b) {
      forall steps ensures !Overtaking(p, b, s, 2, Watched(p, s, SameBusy(b), start, steps)) {
        var end := Watched(p, s, SameBusy(b), start, steps);
        if end.overlooked && end.attended { OvertakenAtMostOnce(p, s, SameBusy(b), start, steps); }
      }
      assert !CanBeOvertaken(p, b, s, 2);
    } else {
      var n := FreshTask(b.tasks.Keys);
      forall rounds: nat ensures CanBeOvertaken(p, b, s, rounds) {
        var steps := TurnsOvertake(p, s, c, n, b, start, rounds);
        assert Overtaking(p, b, s, rounds, Watched(p, s, SameBusy(b), start, steps));
      }
    }
  }

  lemma {:induction false} FreshTask(used: set<nat>) returns (n: nat)
    ensures forall t | t in used :: t < n
  {
    if used == {} {
      n := 0;
    } else {
      var t :| t in used;
      var rest := FreshTask(used - {t});
      n := if rest <= t then t + 1 else rest;
      forall x | x in used ensures x < n {
        assert x == t || x in used - {t};
      }
    }
  }

  lemma HastyTurnRepeats(p: Policy, s: nat, c: nat, n: nat, keep: Books -> bool, w: Watch)
    requires Sound(Fair, p, w.books) && Contended(w.books, s, c) && n !in w.books.tasks
    requires forall x: Books | SameBusy(w.books)(x) :: keep(x)
    ensures var end := Watched(p, s, keep, w, HastySteps(s, c, n));
      && Sound(Fair, p, end.books) && Contended(end.books, s, n) && SameBusy(w.books)(end.books)
        && end.overtakes == w.overtakes + 1
      && end.books.tasks.Keys <= w.books.tasks.Keys + {n} && end.overlooked == w.overlooked
  {
    ArrivedBooks(p, w.books, s, c, n);
    var w1 := Observe(p, s, keep, w, Arrive(n, Candidate));
    LeftBooks(p, w1.books, s, c, n);
    TakenBooks(p, Move(Fair, p, w1.books, Finish(c)), s, n);
    TurnEnds(p, s, c, n, keep, w1);
    FourSteps(p, s, keep, w, HastySteps(s, c, n));
  }

  lemma ReadyAgainHastily(p: Policy, s: nat, c: nat, n: nat, b0: Books, w: Watch)
    requires Ready(p, s, c, n, b0, w)
    ensures var end := Watched(p, s, SameBusy(b0), w, HastySteps(s, c, n));
      Ready(p, s, n, n + 1, b0, end) && end.overtakes == w.overtakes + 1
  {
    HastyTurnRepeats(p, s, c, n, SameBusy(b0), w);
  }

  /** Attending to s matters: candidates that leave before s has tried for their slot overtake it any
      number of times whatever room there is, although s makes a pass in every turn. */
  lemma {:induction false} HastyTurnsOvertake(p: Policy, s: nat, c: nat, n: nat, b0: Books, w: Watch, rounds: nat)
    returns (steps: seq<Step>)
    requires Ready(p, s, c, n, b0, w)
    ensures var end := Watched(p, s, SameBusy(b0), w, steps); end.overlooked && end.overtakes == w.overtakes + rounds
    decreases rounds
  {
    if rounds == 0 {
      steps := [];
    } else {
      var turn := HastySteps(s, c, n);
      ReadyAgainHastily(p, s, c, n, b0, w);
      var rest := HastyTurnsOvertake(p, s, n, n + 1, b0, Watched(p, s, SameBusy(b0), w, turn), rounds - 1);
      WatchedAppend(p, s, SameBusy(b0), w, turn, rest);
      steps := turn + rest;
    }
  }

  // ---- every policy reaches such states ----

  lemma {:induction false} RunAppend(rule: Rule, p: Policy, b: Books, front: seq<Step>, back: seq<Step>)
    ensures Run(rule, p, b, front + back) == Run(rule, p, Run(rule, p, b, front), back)
    decreases |front|
  {
    if front == [] {
      assert front + back == back;
    } else {
      assert (front + back)[1..] == front[1..] + back;
      RunAppend(rule, p, Move(rule, p, b, front[0]), front[1..], back);
    }
  }

  /** n certification tasks hold a slot each and nothing else happens. */
  predicate Filled(b: Books, n: nat) {
    && b.load.activeTotal == n && Get(b.load.held, Certification) == n && NewFrom(b, n)
    && Get(b.load.held, Critical) == Get(b.load.held, Research) == 0
    && Get(b.load.held, Candidate) == Get(b.load.held, Standby) == 0
    && Get(b.load.waiting, Candidate) == Get(b.load.waiting, Standby) == 0
  }

  lemma TwoSteps(rule: Rule, p: Policy, b: Books, x: Step, y: Step)
    ensures Run(rule, p, b, [x, y]) == Move(rule, p, Move(rule, p, b, x), y)
  {
    assert [x, y][1..] == [y] && [y][1..] == [];
    assert Run(rule, p, Move(rule, p, b, x), [y]) == Move(rule, p, Move(rule, p, b, x), y);
  }

  lemma AdmittedLoad(p: Policy, load: Load, w: Workload)
    requires Sane(p) && Bounded(Fair, load, p) && w in {Certification, Candidate}
    requires Get(load.waiting, Candidate) == Get(load.waiting, Standby) == 0
    requires load.activeTotal < p.total && NoncriticalActive(Fair, load) < p.ceiling
    ensures Allowed(Fair, Enrolled(Fair, load, w), w, p, true)
    ensures var end := Granted(Fair, Enrolled(Fair, load, w), w);
      && end.activeTotal == load.activeTotal + 1
      && (forall x :: Get(end.held, x) == Get(load.held, x) + One(x == w))
      && (forall x :: Get(end.waiting, x) == Get(load.waiting, x))
  {
  }

  /** A task arrives and is admitted at once. */
  lemma Admitted(p: Policy, b: Books, t: nat, w: Workload)
    requires Sound(Fair, p, b) && t !in b.tasks && w in {Certification, Candidate}
    requires Get(b.load.waiting, Candidate) == Get(b.load.waiting, Standby) == 0
    requires b.load.activeTotal < p.total && NoncriticalActive(Fair, b.load) < p.ceiling
    ensures var end := Run(Fair, p, b, [Arrive(t, w), Pass(t, true)]);
      && Sound(Fair, p, end) && end.tasks == b.tasks[t := Holding(w)] && end.load.activeTotal == b.load.activeTotal + 1
      && (forall x :: Get(end.load.held, x) == Get(b.load.held, x) + One(x == w))
      && (forall x :: Get(end.load.waiting, x) == Get(b.load.waiting, x))
  {
    var arrived := Move(Fair, p, b, Arrive(t, w));
    MoveKeepsSound(Fair, p, b, Arrive(t, w));
    MoveKeepsSound(Fair, p, arrived, Pass(t, true));
    AdmittedLoad(p, b.load, w);
    TwoSteps(Fair, p, b, Arrive(t, w), Pass(t, true));
    assert arrived.tasks[t := Holding(w)] == b.tasks[t := Holding(w)];
  }

  lemma FilledGrows(p: Policy, b: Books, n: nat)
    requires Sound(Fair, p, b) && Filled(b, n) && n + 1 < p.ceiling
    ensures var end := Run(Fair, p, b, [Arrive(n, Certification), Pass(n, true)]);
      Sound(Fair, p, end) && Filled(end, n + 1)
  {
    Admitted(p, b, n, Certification);
  }

  lemma {:induction false} Fill(p: Policy, n: nat) returns (steps: seq<Step>)
    requires Sane(p) && n < p.ceiling
    ensures Sound(Fair, p, Run(Fair, p, Idle(), steps)) && Filled(Run(Fair, p, Idle(), steps), n)
  {
    if n == 0 {
      steps := [];
    } else {
      var front := Fill(p, n - 1);
      var b := Run(Fair, p, Idle(), front);
      var one := [Arrive(n - 1, Certification), Pass(n - 1, true)];
      FilledGrows(p, b, n - 1);
      RunAppend(Fair, p, Idle(), front, one);
      steps := front + one;
    }
  }

  /** Under every policy an idle endpoint reaches a state with a waiting standby task that candidates can
      overtake forever. */
  lemma EveryPolicyCanStarveStandby(p: Policy) returns (steps: seq<Step>, s: nat, c: nat)
    requires Sane(p)
    ensures var b := Run(Fair, p, Idle(), steps);
      Sound(Fair, p, b) && Contended(b, s, c) && forall rounds: nat :: CanBeOvertaken(p, b, s, rounds)
  {
    var n := p.ceiling - 1;
    var front := Fill(p, n);
    var b := Run(Fair, p, Idle(), front);
    c, s := n, n + 1;
    var admit, wait := [Arrive(c, Candidate), Pass(c, true)], [Arrive(s, Standby)];
    Admitted(p, b, c, Candidate);
    var b2 := Run(Fair, p, b, admit);
    MoveKeepsSound(Fair, p, b2, Arrive(s, Standby));
    assert wait[1..] == [];
    RunAppend(Fair, p, Idle(), front, admit);
    RunAppend(Fair, p, Idle(), front + admit, wait);
    steps := front + admit + wait;
    OvertakingIsUnboundedIff(p, Run(Fair, p, Idle(), steps), s, c);
  }
}
