/** Reference counting of AIO queues: `__aio_get_queue`, the reference taken by `submit`, and
    `__aio_unref_queue`, with the map lock (readers and one writer) and one lock per queue.
    An agent is one asynchronous operation: it is carried first by the submitting thread and,
    once the reference is taken, by the worker thread (or again by the submitter when
    pthread_create fails, which takes the same way out). Queue names are allocations, so a
    name is never used twice. */
module AioRef {
  import opened Common

  type Agent = nat
  type Qid = nat
  type Fd = nat

  datatype Pc =
    | Idle
    | RdLook(fd: Fd)                 // map read-locked, looking the descriptor up
    | RdLockQ(fd: Fd, q: Qid)        // map read-locked, wants the queue lock
    | WrWant(fd: Fd)                 // no lock, wants the map write lock
    | WrLook(fd: Fd)                 // map write-locked, looking again
    | WrCount(fd: Fd, q: Qid)        // map write-locked, new queue in the map, not yet counted
    | WrLockQ(fd: Fd, q: Qid)        // map write-locked, wants the queue lock
    | GotRd(q: Qid)                  // map read-locked and queue locked
    | GotWr(q: Qid)                  // map write-locked and queue locked
    | Got(q: Qid)                    // queue locked, about to take a reference
    | Holding(q: Qid)                // owns a reference, no lock
    | Using(q: Qid)                  // owns a reference, queue locked
    | Unref(q: Qid)                  // owns a reference, queue locked, giving it up
    | Retry(q: Qid)                  // maybe the last reference: no lock, wants the map write lock
    | RetryWr(q: Qid)                // map write-locked, wants the queue lock
    | Recheck(q: Qid)                // map write-locked and queue locked
    | Removed(q: Qid)                // taken out of the map, not yet uncounted; both locks
    | Uncounted(q: Qid)              // both locks
    | LastQ(q: Qid)                  // queue locked only
    | Freeing(q: Qid)                // no lock, about to free
    | DropBoth(q: Qid)               // reference given up; both locks
    | DropQ(q: Qid)                  // reference given up; queue locked

  datatype Queue = Queue(fd: Fd, ref: nat)

  datatype State = State(
    readers: set<Agent>, writer: Option<Agent>,
    map_: map<Fd, Qid>,
    queues: map<Qid, Queue>,              // allocated and not freed
    holder: map<Qid, Agent>,              // queue locks that are held
    count: int,                           // aio_fd_cnt
    freed: seq<Qid>,                      // history of free(q)
    pcs: map<Agent, Pc>)

  // ----- what a pc stands for

  predicate ReadsMap(pc: Pc) { pc.RdLook? || pc.RdLockQ? || pc.GotRd? }

  predicate WritesMap(pc: Pc) {
    pc.WrLook? || pc.WrCount? || pc.WrLockQ? || pc.GotWr? || pc.RetryWr? || pc.Recheck? || pc.Removed? || pc.Uncounted? || pc.DropBoth?
  }

  /** The queue whose lock the agent holds. */
  function Locked(pc: Pc): Option<Qid> {
    if pc.GotRd? || pc.GotWr? || pc.Got? || pc.Using? || pc.Unref? || pc.Recheck? || pc.Removed? || pc.Uncounted?
       || pc.LastQ? || pc.DropBoth? || pc.DropQ?
    then Some(pc.q) else None
  }

  predicate Refers(pc: Pc, q: Qid) {
    && (pc.Holding? || pc.Using? || pc.Unref? || pc.Retry? || pc.RetryWr? || pc.Recheck? || pc.Removed? || pc.Uncounted? || pc.LastQ? || pc.Freeing?)
    && pc.q == q
  }

  /** The agent may still touch the memory of q. */
  predicate Mentions(pc: Pc, q: Qid) {
    !pc.Idle? && !pc.RdLook? && !pc.WrWant? && !pc.WrLook? && pc.q == q
  }

  /** The agent has taken q out of the map and is about to free it. */
  predicate Retires(pc: Pc, q: Qid) {
    (pc.Removed? || pc.Uncounted? || pc.LastQ? || pc.Freeing?) && pc.q == q
  }

  /** On its way to the first reference. */
  predicate Arrives(pc: Pc, q: Qid) {
    (pc.WrCount? || pc.WrLockQ? || pc.GotRd? || pc.GotWr? || pc.Got?) && pc.q == q
  }

  // ----- steps

  predicate CanRead(s: State) { s.writer == None }

  predicate CanWrite(s: State) { s.writer == None && s.readers == {} }

  /** The agent may go on to pc p: every lock that p holds and the old pc did not is free. */
  ghost predicate CanGo(s: State, a: Agent, p: Pc)
    requires a in s.pcs
  {
    && (ReadsMap(p) && !ReadsMap(s.pcs[a]) ==> CanRead(s))
    && (WritesMap(p) && !WritesMap(s.pcs[a]) ==> CanWrite(s))
    && (Locked(p).Some? && Locked(p) != Locked(s.pcs[a]) ==> Locked(p).value !in s.holder)
  }

  /** Take and release locks as the change of pc says. */
  ghost function Go(s: State, a: Agent, p: Pc): State
    requires a in s.pcs
  {
    var o := s.pcs[a];
    s.(readers := if ReadsMap(p) then s.readers + {a} else s.readers - {a},
       writer := if WritesMap(p) then Some(a) else if WritesMap(o) then None else s.writer,
       holder := (if Locked(o).Some? then s.holder - {Locked(o).value} else s.holder)
                 + (if Locked(p).Some? then map[Locked(p).value := a] else map[]),
       pcs := s.pcs[a := p])
  }

  /** One step of the agent, from s or from s with map, queues or count updated. */
  ghost predicate Goes(s: State, s': State, a: Agent, p: Pc)
    requires a in s.pcs
  {
    CanGo(s, a, p) && s' == Go(s, a, p)
  }

  function SetRef(s: State, q: Qid, n: nat): State
    requires q in s.queues
  {
    s.(queues := s.queues[q := s.queues[q].(ref := n)])
  }

  function Insert(s: State, fd: Fd, q: Qid): State {
    s.(map_ := s.map_[fd := q], queues := s.queues[q := Queue(fd, 0)])
  }

  /** What the environment decides: which descriptor, where calloc puts a queue, whether a
      call fails or (for a holder) the reference is given up. */
  datatype Choice = Choice(fd: Fd, q: Qid, alt: bool)

  /** The data the agent writes in its next step and the pc it goes to. */
  datatype Plan = Plan(data: State, pc: Pc) | Stuck

  /** __aio_get_queue up to the moment the queue is locked and the map is not. */
  function GetPlan(s: State, p: Pc, c: Choice): Plan {
    match p
    case Idle => Plan(s, RdLook(c.fd))
    case RdLook(fd) => Plan(s, if fd in s.map_ then RdLockQ(fd, s.map_[fd]) else WrWant(fd))
    case RdLockQ(fd, q) => Plan(s, GotRd(q))
    case WrWant(fd) => Plan(s, if c.alt then Idle else WrLook(fd))            // alt: fcntl failed
    case WrLook(fd) =>
      if fd in s.map_ then Plan(s, WrLockQ(fd, s.map_[fd]))
      else if c.alt then Plan(s, Idle)                                        // calloc failed
      else if c.q in s.queues || c.q in s.freed then Stuck
      else Plan(Insert(s, fd, c.q), WrCount(fd, c.q))
    case WrCount(fd, q) => Plan(s.(count := s.count + 1), WrLockQ(fd, q))
    case WrLockQ(fd, q) => Plan(s, GotWr(q))
    case GotRd(q) => Plan(s, Got(q))
    case GotWr(q) => Plan(s, Got(q))
    case _ => Stuck
  }

  /** submit takes the reference; the worker locks the queue any number of times; in the end
      the reference is given up. */
  function UsePlan(s: State, p: Pc, c: Choice): Plan {
    match p
    case Got(q) => if q in s.queues then Plan(SetRef(s, q, s.queues[q].ref + 1), Using(q)) else Stuck
    case Holding(q) => Plan(s, if c.alt then Unref(q) else Using(q))
    case Using(q) => Plan(s, Holding(q))
    case _ => Stuck
  }

  /** __aio_unref_queue. */
  function UnrefPlan(s: State, p: Pc): Plan {
    match p
    case Unref(q) =>
      if q !in s.queues then Stuck
      else if s.queues[q].ref > 1 then Plan(SetRef(s, q, s.queues[q].ref - 1), DropQ(q))
      else Plan(s, Retry(q))
    case Retry(q) => Plan(s, RetryWr(q))
    case RetryWr(q) => Plan(s, Recheck(q))
    case Recheck(q) =>
      if q !in s.queues || s.queues[q].ref == 0 then Stuck
      else if s.queues[q].ref == 1 then Plan(s.(map_ := s.map_ - {s.queues[q].fd}), Removed(q))
      else Plan(SetRef(s, q, s.queues[q].ref - 1), DropBoth(q))
    case Removed(q) => Plan(s.(count := s.count - 1), Uncounted(q))
    case Uncounted(q) => Plan(s, LastQ(q))
    case LastQ(q) => Plan(s, Freeing(q))
    case Freeing(q) => Plan(s.(queues := s.queues - {q}, freed := s.freed + [q]), Idle)
    case DropBoth(q) => Plan(s, DropQ(q))
    case DropQ(q) => Plan(s, Idle)
    case _ => Stuck
  }

  function PlanOf(s: State, a: Agent, c: Choice): Plan
    requires a in s.pcs
  {
    var p := s.pcs[a];
    if p.Got? || p.Holding? || p.Using? then UsePlan(s, p, c)
    else if p.Unref? || p.Retry? || p.RetryWr? || p.Recheck? || p.Removed? || p.Uncounted? || p.LastQ? || p.Freeing? || p.DropBoth? || p.DropQ?
    then UnrefPlan(s, p)
    else GetPlan(s, p, c)
  }

  ghost predicate StepBy(s: State, s': State, a: Agent, c: Choice) {
    a in s.pcs && var m := PlanOf(s, a, c); m.Plan? && a in m.data.pcs && Goes(m.data, s', a, m.pc)
  }

  ghost predicate Next(s: State, s': State) { exists a, c :: StepBy(s, s', a, c) }

  ghost predicate Init(s: State) {
    && s.readers == {} && s.writer == None && s.map_ == map[] && s.queues == map[] && s.holder == map[]
    && s.count == 0 && s.freed == [] && forall a :: a in s.pcs ==> s.pcs[a] == Idle
  }

  ghost predicate Follows(r: seq<State>, i: nat)
    requires i + 1 < |r|
  {
    Next(r[i], r[i + 1])
  }

  ghost predicate IsRun(r: seq<State>) {
    |r| > 0 && Init(r[0]) && forall i :: 0 <= i < |r| - 1 ==> Follows(r, i)
  }

  // ----- invariant

  ghost predicate MapLockInv(s: State) {
    && (forall a :: a in s.readers <==> a in s.pcs && ReadsMap(s.pcs[a]))
    && (forall a :: a in s.pcs ==> (s.writer == Some(a) <==> WritesMap(s.pcs[a])))
    && (s.writer != None ==> s.readers == {} && s.writer.value in s.pcs)
  }

  ghost predicate QueueLockInv(s: State) {
    && (forall a :: a in s.pcs && Locked(s.pcs[a]).Some? ==> HeldBy(s, Locked(s.pcs[a]).value, a))
    && forall q :: q in s.holder ==> s.holder[q] in s.pcs && Locked(s.pcs[s.holder[q]]) == Some(q)
  }

  ghost predicate HeldBy(s: State, q: Qid, a: Agent) { q in s.holder && s.holder[q] == a }

  /** The map leads to live queues, each under its own descriptor. */
  ghost predicate Named(s: State) {
    forall fd :: fd in s.map_ ==> s.map_[fd] in s.queues && s.queues[s.map_[fd]].fd == fd
  }

  /** A live queue is in the map or about to be freed by someone. */
  ghost predicate Reached(s: State) {
    forall q :: q in s.queues ==> InMap(s, q) || exists a :: a in s.pcs && Retires(s.pcs[a], q)
  }

  /** A queue somebody may touch is live, and in the map unless that one is freeing it. */
  ghost predicate Mentioned(s: State) {
    forall a, q :: a in s.pcs && Mentions(s.pcs[a], q) ==> q in s.queues && (InMap(s, q) || Retires(s.pcs[a], q))
  }

  /** Whoever frees a queue is alone with it, and the map does not lead to it. */
  ghost predicate Alone(s: State) {
    && (forall a, b, q :: a in s.pcs && b in s.pcs && a != b && Retires(s.pcs[a], q) ==> !Mentions(s.pcs[b], q))
    && (forall a, q :: a in s.pcs && Retires(s.pcs[a], q) ==> !InMap(s, q))
  }

  ghost predicate MapInv(s: State) {
    Named(s) && Reached(s) && Mentioned(s) && Alone(s)
  }

  ghost predicate InMap(s: State, q: Qid) {
    q in s.queues && s.queues[q].fd in s.map_ && s.map_[s.queues[q].fd] == q
  }

  /** The agents that own a reference to q. */
  ghost function Owners(s: State, q: Qid): set<Agent> {
    set a | a in s.pcs && Refers(s.pcs[a], q)
  }

  ghost predicate RefInv(s: State) {
    && (forall q :: q in s.queues ==> s.queues[q].ref == |Owners(s, q)|)
    && forall q :: q in s.queues && s.queues[q].ref == 0 ==> exists a :: a in s.pcs && Arrives(s.pcs[a], q)
  }

  ghost predicate FreedInv(s: State) {
    NoDup(s.freed) && forall q :: q in s.freed ==> q !in s.queues
  }

  /** The counter lags behind the map only inside the writer's two-step update. */
  ghost predicate CountInv(s: State) {
    s.count == |s.map_| - Lag(s)
  }

  ghost function Lag(s: State): int {
    if s.writer == None || s.writer.value !in s.pcs then 0
    else if s.pcs[s.writer.value].WrCount? then 1
    else if s.pcs[s.writer.value].Removed? then -1
    else 0
  }

  ghost predicate Inv(s: State) {
    MapLockInv(s) && QueueLockInv(s) && MapInv(s) && RefInv(s) && FreedInv(s) && CountInv(s)
  }

  // ----- every step keeps it

  lemma GoesMapLock(s: State, s': State, a: Agent, p: Pc)
    requires MapLockInv(s) && a in s.pcs && Goes(s, s', a, p)
    ensures MapLockInv(s')
  {
  }

  /** Queue lock q after the agent has gone from pc o to pc p. */
  ghost predicate LockMoved(s: State, s': State, a: Agent, o: Pc, p: Pc, q: Qid) {
    && (q in s'.holder <==> Locked(p) == Some(q) || (q in s.holder && Locked(o) != Some(q)))
    && (q in s'.holder ==> s'.holder[q] == if Locked(p) == Some(q) then a else s.holder[q])
  }

  lemma GoHolder(s: State, a: Agent, p: Pc, q: Qid)
    requires a in s.pcs
    ensures LockMoved(s, Go(s, a, p), a, s.pcs[a], p, q)
  {
  }

  lemma GoesQueueLock(s: State, s': State, a: Agent, p: Pc)
    requires QueueLockInv(s) && a in s.pcs && Goes(s, s', a, p)
    ensures QueueLockInv(s')
  {
    assert Locked(p).Some? && Locked(p) != Locked(s.pcs[a]) ==> Locked(p).value !in s.holder;
    assert s'.pcs == s.pcs[a := p] && s' == Go(s, a, p);
    hide Go, Locked, Goes;
    assert Locked(s.pcs[a]).Some? ==> HeldBy(s, Locked(s.pcs[a]).value, a);
    forall b | b in s'.pcs && Locked(s'.pcs[b]).Some? ensures HeldBy(s', Locked(s'.pcs[b]).value, b) {
      var q := Locked(s'.pcs[b]).value;
      GoHolder(s, a, p, q);
      if b != a { assert HeldBy(s, q, b); }
    }
    forall q | q in s'.holder ensures s'.holder[q] in s'.pcs && Locked(s'.pcs[s'.holder[q]]) == Some(q) {
      GoHolder(s, a, p, q);
    }
  }

  ghost predicate SameLocks(s: State, d: State) {
    d.readers == s.readers && d.writer == s.writer && d.holder == s.holder && d.pcs == s.pcs
  }

  lemma PlanKeepsLocks(s: State, a: Agent, c: Choice)
    requires a in s.pcs && PlanOf(s, a, c).Plan?
    ensures SameLocks(s, PlanOf(s, a, c).data)
  {
    var p := s.pcs[a];
    assert GetPlan(s, p, c).Plan? ==> SameLocks(s, GetPlan(s, p, c).data);
    assert UsePlan(s, p, c).Plan? ==> SameLocks(s, UsePlan(s, p, c).data);
    assert UnrefPlan(s, p).Plan? ==> SameLocks(s, UnrefPlan(s, p).data);
    hide GetPlan, UsePlan, UnrefPlan;
  }

  /** A step of a that leaves map and queues as they are, except for reference counts. */
  ghost predicate SameMap(s: State, s': State, a: Agent) {
    && a in s.pcs && a in s'.pcs && s'.pcs == s.pcs[a := s'.pcs[a]] && s'.map_ == s.map_ && s'.freed == s.freed
    && s'.queues.Keys == s.queues.Keys && forall q :: q in s.queues ==> s'.queues[q].fd == s.queues[q].fd
  }

  /** What a may newly mention in such a step must be in the map. */
  lemma QuietMap(s: State, s': State, a: Agent)
    requires MapInv(s) && SameMap(s, s', a)
    requires forall q :: Mentions(s'.pcs[a], q) ==> Mentions(s.pcs[a], q) || InMap(s, q)
    requires forall q :: Retires(s'.pcs[a], q) <==> Retires(s.pcs[a], q)
    ensures MapInv(s')
  {
    assert forall q :: InMap(s, q) <==> InMap(s', q);
    hide InMap, Mentions, Retires;
    assert Reached(s') by {
      hide Named, Mentioned, Alone;
      forall q | q in s'.queues && !InMap(s', q) ensures exists b :: b in s'.pcs && Retires(s'.pcs[b], q) {
        var b :| b in s.pcs && Retires(s.pcs[b], q);
        assert Retires(s'.pcs[b], q);
      }
    }
    hide Reached;
  }

  predicate Inserts(p: Pc, n: Pc) { p.WrLook? && n.WrCount? }

  predicate Removes(p: Pc, n: Pc) { p.Recheck? && n.Removed? }

  predicate Frees(p: Pc) { p.Freeing? }

  /** The plan touches neither map nor queues, except reference counts, and its new pc
      mentions only what the old one did or what the map holds. */
  ghost predicate QuietPlan(s: State, p: Pc, m: Plan)
    requires m.Plan?
  {
    && m.data.map_ == s.map_ && m.data.freed == s.freed && m.data.queues.Keys == s.queues.Keys
    && (forall q :: q in s.queues ==> m.data.queues[q].fd == s.queues[q].fd)
    && (forall q :: Mentions(m.pc, q) ==> Mentions(p, q) || InMap(s, q))
    && (forall q :: Retires(m.pc, q) <==> Retires(p, q))
  }

  lemma GetQuiet(s: State, p: Pc, c: Choice)
    requires MapInv(s) && GetPlan(s, p, c).Plan? && !Inserts(p, GetPlan(s, p, c).pc)
    ensures QuietPlan(s, p, GetPlan(s, p, c))
  {
    match p
    case RdLook(fd) => assert fd in s.map_ ==> InMap(s, s.map_[fd]);
    case WrLook(fd) => assert fd in s.map_ ==> InMap(s, s.map_[fd]);
    case _ =>
  }

  lemma UseQuiet(s: State, p: Pc, c: Choice)
    requires UsePlan(s, p, c).Plan?
    ensures QuietPlan(s, p, UsePlan(s, p, c))
  {
  }

  lemma UnrefQuiet(s: State, p: Pc)
    requires UnrefPlan(s, p).Plan? && !Removes(p, UnrefPlan(s, p).pc) && !Frees(p)
    ensures QuietPlan(s, p, UnrefPlan(s, p))
  {
  }

  /** Steps other than the three that change map or queues. */
  lemma PlanQuiet(s: State, a: Agent, c: Choice)
    requires a in s.pcs && PlanOf(s, a, c).Plan? && MapInv(s)
    requires !Inserts(s.pcs[a], PlanOf(s, a, c).pc) && !Removes(s.pcs[a], PlanOf(s, a, c).pc) && !Frees(s.pcs[a])
    ensures QuietPlan(s, s.pcs[a], PlanOf(s, a, c))
  {
    hide GetPlan, UsePlan, UnrefPlan, QuietPlan;
    var p, m := s.pcs[a], PlanOf(s, a, c);
    if m == UsePlan(s, p, c) { UseQuiet(s, p, c); }
    else if m == UnrefPlan(s, p) { UnrefQuiet(s, p); }
    else { GetQuiet(s, p, c); }
  }

  lemma QuietKept(s: State, s': State, a: Agent, c: Choice)
    requires MapInv(s) && StepBy(s, s', a, c)
    requires !Inserts(s.pcs[a], PlanOf(s, a, c).pc) && !Removes(s.pcs[a], PlanOf(s, a, c).pc) && !Frees(s.pcs[a])
    ensures MapInv(s')
  {
    PlanQuiet(s, a, c);
    PlanKeepsLocks(s, a, c);
    hide PlanOf, MapInv, Mentions, Retires, InMap;
    QuietMap(s, s', a);
  }

  /** A change of map and queues, described by what becomes of InMap and of the agent's pc: */
  ghost predicate ForAgent(s: State, s': State, a: Agent, n: Pc)
    requires a in s.pcs
  {
    && (forall x :: x in s'.queues ==> InMap(s', x) || Retires(n, x) || (x in s.queues && !InMap(s, x) && !Retires(s.pcs[a], x)))
    && (forall x :: Mentions(n, x) ==> x in s'.queues && (InMap(s', x) || Retires(n, x)))
    && (forall x :: Retires(n, x) ==> !InMap(s', x))
  }

  /** for the agent, and for every other one. */
  ghost predicate ForOthers(s: State, s': State, a: Agent, n: Pc) {
    && (forall b, x :: b in s.pcs && b != a && Mentions(s.pcs[b], x) ==>
          x in s'.queues && !Retires(n, x) && (InMap(s', x) <==> InMap(s, x)))
    && (forall b, x :: b in s.pcs && b != a && Retires(s.pcs[b], x) ==> Mentions(s.pcs[b], x) && !Mentions(n, x))
  }

  lemma MapChange(s: State, s': State, a: Agent, n: Pc)
    requires MapInv(s) && a in s.pcs && s'.pcs == s.pcs[a := n] && Named(s')
    requires ForAgent(s, s', a, n) && ForOthers(s, s', a, n)
    ensures MapInv(s')
  {
    hide Named, Reached, Mentioned, Alone, ForAgent, ForOthers;
    ChangeReached(s, s', a, n);
    ChangeMentioned(s, s', a, n);
    ChangeAlone(s, s', a, n);
  }

  lemma ChangeReached(s: State, s': State, a: Agent, n: Pc)
    requires Reached(s) && a in s.pcs && s'.pcs == s.pcs[a := n] && ForAgent(s, s', a, n)
    ensures Reached(s')
  {
    hide Mentions, Retires, InMap;
    forall x | x in s'.queues && !InMap(s', x) ensures exists b :: b in s'.pcs && Retires(s'.pcs[b], x) {
      if Retires(n, x) {
        assert Retires(s'.pcs[a], x);
      } else {
        var b :| b in s.pcs && Retires(s.pcs[b], x);
        assert Retires(s'.pcs[b], x);
      }
    }
  }

  lemma ChangeMentioned(s: State, s': State, a: Agent, n: Pc)
    requires Mentioned(s) && a in s.pcs && s'.pcs == s.pcs[a := n]
    requires ForAgent(s, s', a, n) && ForOthers(s, s', a, n)
    ensures Mentioned(s')
  {
    hide Mentions, Retires, InMap;
  }

  lemma ChangeAlone(s: State, s': State, a: Agent, n: Pc)
    requires Alone(s) && a in s.pcs && s'.pcs == s.pcs[a := n]
    requires ForAgent(s, s', a, n) && ForOthers(s, s', a, n)
    ensures Alone(s')
  {
    hide Mentions, Retires, InMap;
  }

  lemma RetiresMentions(s: State)
    ensures forall b, x :: b in s.pcs && Retires(s.pcs[b], x) ==> Mentions(s.pcs[b], x)
  {
  }

  lemma InsertInMap(s: State, s': State, fd: Fd, q: Qid)
    requires fd !in s.map_ && q !in s.queues
    requires s'.map_ == s.map_[fd := q] && s'.queues == s.queues[q := Queue(fd, 0)]
    ensures forall x :: InMap(s', x) <==> x == q || InMap(s, x)
  {
  }

  /** A new queue: nobody knows it but the agent that put it into the map. */
  lemma InsertKept(s: State, s': State, a: Agent, fd: Fd, q: Qid)
    requires MapInv(s) && a in s.pcs && s.pcs[a] == WrLook(fd) && fd !in s.map_ && q !in s.queues
    requires s'.pcs == s.pcs[a := WrCount(fd, q)]
    requires s'.map_ == s.map_[fd := q] && s'.queues == s.queues[q := Queue(fd, 0)]
    ensures MapInv(s')
  {
    var n := WrCount(fd, q);
    assert Named(s') by { hide Reached, Mentioned, Alone; }
    hide Mentions, Retires, InMap, Reached, Alone, Named;
    InsertInMap(s, s', fd, q);
    InsertPcs(fd, q);
    assert ForAgent(s, s', a, n) by { hide Mentioned; }
    hide ForAgent;
    RetiresMentions(s);
    MapChange(s, s', a, n);
  }

  lemma InsertPcs(fd: Fd, q: Qid)
    ensures forall x :: Mentions(WrCount(fd, q), x) <==> x == q
    ensures forall x :: !Retires(WrCount(fd, q), x) && !Retires(WrLook(fd), x)
  {
  }

  lemma {:induction false} OneOwner(o: set<Agent>, a: Agent, b: Agent)
    requires |o| == 1 && a in o && b in o
    ensures a == b
  {
    if a != b {
      assert {a, b} <= o;
      assert |{a, b}| == 2;
      SubsetSize({a, b}, o);
      assert false;
    }
  }

  lemma {:induction false} SubsetSize(x: set<Agent>, y: set<Agent>)
    requires x <= y
    ensures |x| <= |y|
  {
    if x != {} {
      var e :| e in x;
      SubsetSize(x - {e}, y - {e});
    }
  }

  /** The heart of the two-lock protocol: an agent that finds the count at one while holding
      the map for writing and the queue lock is the only one that can still reach the queue. */
  lemma SoleUser(s: State, a: Agent, b: Agent, q: Qid)
    requires MapLockInv(s) && QueueLockInv(s) && RefInv(s)
    requires a in s.pcs && b in s.pcs && s.pcs[a] == Recheck(q) && q in s.queues && s.queues[q].ref == 1
    requires Mentions(s.pcs[b], q)
    ensures a == b
  {
    assert s.writer == Some(a) && HeldBy(s, q, a);
    if Refers(s.pcs[b], q) {
      OneOwner(Owners(s, q), a, b);
    } else if Locked(s.pcs[b]) == Some(q) {
      assert HeldBy(s, q, b);
    } else if WritesMap(s.pcs[b]) {
      assert s.writer == Some(b);
    } else {
      ReaderListed(s, b);
      assert false;
    }
  }

  lemma ReaderListed(s: State, b: Agent)
    requires MapLockInv(s) && b in s.pcs && ReadsMap(s.pcs[b])
    ensures s.readers != {}
  {
    assert b in s.readers;
  }

  lemma RemoveInMap(s: State, s': State, q: Qid)
    requires InMap(s, q) && s'.queues == s.queues && s'.map_ == s.map_ - {s.queues[q].fd}
    ensures forall x :: InMap(s', x) <==> x != q && InMap(s, x)
  {
  }

  lemma RemoveKept(s: State, s': State, a: Agent, q: Qid)
    requires MapLockInv(s) && QueueLockInv(s) && RefInv(s) && MapInv(s)
    requires a in s.pcs && s.pcs[a] == Recheck(q) && q in s.queues && s.queues[q].ref == 1
    requires s'.pcs == s.pcs[a := Removed(q)] && s'.queues == s.queues && s'.map_ == s.map_ - {s.queues[q].fd}
    ensures MapInv(s')
  {
    hide MapLockInv, QueueLockInv, RefInv, Mentions, Retires, InMap;
    var n := Removed(q);
    RemovedPc(q);
    RecheckInMap(s, a, q);
    RemoveInMap(s, s', q);
    NobodyElse(s, a, q);
    RetiresMentions(s);
    MapChange(s, s', a, n);
  }

  lemma RemovedPc(q: Qid)
    ensures forall x :: Mentions(Removed(q), x) <==> x == q
    ensures forall x :: Retires(Removed(q), x) <==> x == q
    ensures forall x :: !Retires(Recheck(q), x)
  {
  }

  lemma RecheckInMap(s: State, a: Agent, q: Qid)
    requires MapInv(s) && a in s.pcs && s.pcs[a] == Recheck(q)
    ensures InMap(s, q)
  {
    assert Mentions(s.pcs[a], q);
  }

  lemma NobodyElse(s: State, a: Agent, q: Qid)
    requires MapLockInv(s) && QueueLockInv(s) && RefInv(s)
    requires a in s.pcs && s.pcs[a] == Recheck(q) && q in s.queues && s.queues[q].ref == 1
    ensures forall b :: b in s.pcs && b != a ==> !Mentions(s.pcs[b], q)
  {
    hide MapLockInv, QueueLockInv, RefInv, Mentions;
    forall b | b in s.pcs && b != a ensures !Mentions(s.pcs[b], q) {
      if Mentions(s.pcs[b], q) { SoleUser(s, a, b, q); assert false; }
    }
  }

  lemma FreeInMap(s: State, s': State, q: Qid)
    requires !InMap(s, q) && s'.queues == s.queues - {q} && s'.map_ == s.map_
    ensures forall x :: InMap(s', x) <==> InMap(s, x)
  {
  }

  lemma FreeKept(s: State, s': State, a: Agent, q: Qid)
    requires MapInv(s) && a in s.pcs && s.pcs[a] == Freeing(q)
    requires s'.pcs == s.pcs[a := Idle] && s'.queues == s.queues - {q} && s'.map_ == s.map_
    ensures MapInv(s')
  {
    hide Mentions, Retires, Reached;
    FreePcs(q);
    assert Retires(s.pcs[a], q) && !InMap(s, q);
    FreeNamed(s, s', q);
    FreeInMap(s, s', q);
    hide InMap, Named;
    assert ForAgent(s, s', a, Idle) by { hide Mentioned, Alone; }
    hide ForAgent;
    RetiresMentions(s);
    MapChange(s, s', a, Idle);
  }

  lemma FreePcs(q: Qid)
    ensures forall x :: !Mentions(Idle, x) && !Retires(Idle, x)
    ensures forall x :: Retires(Freeing(q), x) <==> x == q
  {
  }

  lemma FreeNamed(s: State, s': State, q: Qid)
    requires Named(s) && !InMap(s, q) && s'.queues == s.queues - {q} && s'.map_ == s.map_
    ensures Named(s')
  {
  }

  lemma MapKept(s: State, s': State, a: Agent, c: Choice)
    requires MapLockInv(s) && QueueLockInv(s) && RefInv(s) && MapInv(s) && StepBy(s, s', a, c)
    ensures MapInv(s')
  {
    var p, m := s.pcs[a], PlanOf(s, a, c);
    hide MapLockInv, QueueLockInv, RefInv, MapInv, UsePlan;
    if Inserts(p, m.pc) {
      InsertKept(s, s', a, p.fd, m.pc.q);
    } else if Removes(p, m.pc) {
      RemoveKept(s, s', a, p.q);
    } else if Frees(p) {
      FreeKept(s, s', a, p.q);
    } else {
      hide PlanOf;
      QuietKept(s, s', a, c);
    }
  }

  // reference counts

  function Bit(b: bool): int { if b then 1 else 0 }

  /** The plan changes the count of each queue exactly as the agent's ownership changes, never
      back to zero, and a queue without owners keeps an agent on its way to it. */
  ghost predicate CountsPlan(s: State, p: Pc, m: Plan)
    requires m.Plan?
  {
    forall q :: q in m.data.queues ==> CountsFor(s, p, m.data.queues[q].ref, m.pc, q)
  }

  ghost predicate CountsFor(s: State, p: Pc, ref: nat, n: Pc, q: Qid) {
    if q in s.queues then
      && ref == s.queues[q].ref + Bit(Refers(n, q)) - Bit(Refers(p, q))
      && (s.queues[q].ref > 0 ==> ref > 0)
      && (Arrives(p, q) ==> Arrives(n, q) || ref > 0)
    else
      ref == 0 && !Refers(n, q) && Arrives(n, q)
  }

  lemma GetCounts(s: State, p: Pc, c: Choice)
    requires GetPlan(s, p, c).Plan?
    ensures CountsPlan(s, p, GetPlan(s, p, c))
  {
    var m := GetPlan(s, p, c);
    if Inserts(p, m.pc) {
      assert m.data.queues == s.queues[m.pc.q := Queue(p.fd, 0)] && m.pc.q !in s.queues;
      hide GetPlan;
    } else {
      assert m.data.queues == s.queues;
      GetPcs(s, p, c);
      hide GetPlan, Refers, Arrives;
    }
  }

  lemma GetPcs(s: State, p: Pc, c: Choice)
    requires GetPlan(s, p, c).Plan?
    ensures var n := GetPlan(s, p, c).pc; forall q :: !Refers(p, q) && !Refers(n, q) && (Arrives(p, q) ==> Arrives(n, q))
  {
  }

  lemma UseCounts(s: State, p: Pc, c: Choice)
    requires UsePlan(s, p, c).Plan?
    ensures CountsPlan(s, p, UsePlan(s, p, c))
  {
  }

  lemma UnrefCounts(s: State, p: Pc)
    requires UnrefPlan(s, p).Plan?
    ensures CountsPlan(s, p, UnrefPlan(s, p))
  {
    var m := UnrefPlan(s, p);
    assert forall q :: !Arrives(p, q);
    if p.Freeing? {
      assert m.data.queues == s.queues - {p.q};
      hide UnrefPlan;
    } else if (m.pc.DropQ? && !p.DropBoth?) || m.pc.DropBoth? {
      assert m.data.queues == SetRef(s, p.q, s.queues[p.q].ref - 1).queues && s.queues[p.q].ref > 1;
      hide UnrefPlan;
    } else {
      assert m.data.queues == s.queues;
      assert forall q :: Refers(m.pc, q) == Refers(p, q);
      hide UnrefPlan, Refers, Arrives;
    }
  }

  lemma PlanCounts(s: State, a: Agent, c: Choice)
    requires a in s.pcs && PlanOf(s, a, c).Plan?
    ensures CountsPlan(s, s.pcs[a], PlanOf(s, a, c))
  {
    hide GetPlan, UsePlan, UnrefPlan, CountsPlan;
    var p, m := s.pcs[a], PlanOf(s, a, c);
    if m == UsePlan(s, p, c) { UseCounts(s, p, c); }
    else if m == UnrefPlan(s, p) { UnrefCounts(s, p); }
    else { GetCounts(s, p, c); }
  }

  lemma OwnersMove(s: State, s': State, a: Agent, n: Pc, q: Qid)
    requires a in s.pcs && s'.pcs == s.pcs[a := n]
    ensures |Owners(s', q)| == |Owners(s, q)| + Bit(Refers(n, q)) - Bit(Refers(s.pcs[a], q))
  {
    var o, o' := Owners(s, q), Owners(s', q);
    assert a in o <==> Refers(s.pcs[a], q);
    assert a in o' <==> Refers(n, q);
    assert forall b :: b != a ==> (b in o <==> b in o');
    hide Owners, Refers;
    OneMember(o, o', a);
  }

  lemma OneMember(o: set<Agent>, o': set<Agent>, a: Agent)
    requires forall b :: b != a ==> (b in o <==> b in o')
    ensures |o'| == |o| + Bit(a in o') - Bit(a in o)
  {
    assert o' - {a} == o - {a};
    assert a in o ==> o == (o - {a}) + {a};
    assert a in o' ==> o' == (o' - {a}) + {a};
  }

  lemma RefKept(s: State, s': State, a: Agent, c: Choice)
    requires RefInv(s) && MapInv(s) && StepBy(s, s', a, c)
    ensures RefInv(s')
  {
    var p, m := s.pcs[a], PlanOf(s, a, c);
    PlanCounts(s, a, c);
    PlanKeepsLocks(s, a, c);
    assert forall x :: x !in s.queues ==> Owners(s, x) == {} by { UnknownUnowned(s); }
    hide PlanOf, Refers, Arrives, Owners, MapInv;
    forall q | q in s'.queues ensures s'.queues[q].ref == |Owners(s', q)| {
      OwnersMove(s, s', a, m.pc, q);
      if q !in s.queues { UnknownPc(s, a, q); }
    }
    forall q | q in s'.queues && s'.queues[q].ref == 0 ensures exists b :: b in s'.pcs && Arrives(s'.pcs[b], q) {
      if q in s.queues {
        var b :| b in s.pcs && Arrives(s.pcs[b], q);
        assert Arrives(s'.pcs[b], q);
      } else {
        assert Arrives(s'.pcs[a], q);
      }
    }
  }

  lemma UnknownPc(s: State, a: Agent, q: Qid)
    requires MapInv(s) && a in s.pcs && q !in s.queues
    ensures !Refers(s.pcs[a], q)
  {
    assert Refers(s.pcs[a], q) ==> Mentions(s.pcs[a], q);
  }

  lemma UnknownUnowned(s: State)
    requires MapInv(s)
    ensures forall x :: x !in s.queues ==> Owners(s, x) == {}
  {
    hide MapInv, Refers;
    forall x | x !in s.queues ensures Owners(s, x) == {} {
      forall a | a in s.pcs ensures !Refers(s.pcs[a], x) { UnknownPc(s, a, x); }
    }
  }

  lemma FreedKept(s: State, s': State, a: Agent, c: Choice)
    requires FreedInv(s) && MapInv(s) && StepBy(s, s', a, c)
    ensures FreedInv(s')
  {
    var p, m := s.pcs[a], PlanOf(s, a, c);
    assert Frees(p) ==> Mentions(p, p.q);
    assert Frees(p) ==> p.q in s.queues;
    hide MapInv, UsePlan, ReadsMap, WritesMap, Locked, CanGo;
    if Inserts(p, m.pc) {
      assert s'.freed == s.freed && m.pc.q !in s.freed && s'.queues == s.queues[m.pc.q := Queue(p.fd, 0)];
      hide PlanOf, StepBy;
    } else if Frees(p) {
      assert s'.freed == s.freed + [p.q] && s'.queues == s.queues - {p.q};
      hide PlanOf, StepBy;
    } else {
      assert s'.freed == s.freed && s'.queues.Keys <= s.queues.Keys by {
        if !Removes(p, m.pc) { PlanQuiet(s, a, c); }
      }
    }
  }

  function LagOf(p: Pc): int { if p.WrCount? then 1 else if p.Removed? then -1 else 0 }

  lemma LagMoves(s: State, s': State, a: Agent, n: Pc)
    requires MapLockInv(s) && MapLockInv(s') && a in s.pcs && s'.pcs == s.pcs[a := n]
    requires !WritesMap(s.pcs[a]) && !WritesMap(n) ==> s'.writer == s.writer
    ensures Lag(s') - Lag(s) == LagOf(n) - LagOf(s.pcs[a])
  {
    assert s.writer == Some(a) <==> WritesMap(s.pcs[a]);
    assert s'.writer == Some(a) <==> WritesMap(n);
  }

  ghost predicate SizePlan(s: State, p: Pc, m: Plan)
    requires m.Plan?
  {
    m.data.count - |m.data.map_| == s.count - |s.map_| - LagOf(m.pc) + LagOf(p)
  }

  lemma GetSize(s: State, p: Pc, c: Choice)
    requires GetPlan(s, p, c).Plan?
    ensures SizePlan(s, p, GetPlan(s, p, c))
  {
    var m := GetPlan(s, p, c);
    if Inserts(p, m.pc) {
      assert m.data.map_ == s.map_[p.fd := m.pc.q] && p.fd !in s.map_ && m.data.count == s.count;
      hide GetPlan;
      WithKey(s.map_, p.fd, m.pc.q);
    } else {
      assert m.data.map_ == s.map_ && m.data.count - s.count == LagOf(p) - LagOf(m.pc);
      hide GetPlan, LagOf;
    }
  }

  lemma WithKey(m: map<Fd, Qid>, fd: Fd, q: Qid)
    requires fd !in m
    ensures |m[fd := q]| == |m| + 1
  {
    assert m[fd := q].Keys == m.Keys + {fd};
  }

  lemma UseSize(s: State, p: Pc, c: Choice)
    requires UsePlan(s, p, c).Plan?
    ensures SizePlan(s, p, UsePlan(s, p, c))
  {
  }

  lemma WithoutKey(m: map<Fd, Qid>, fd: Fd)
    requires fd in m
    ensures |m - {fd}| == |m| - 1
  {
    var m' := m - {fd};
    assert m'.Keys == m.Keys - {fd};
    assert m.Keys == m'.Keys + {fd};
  }

  lemma UnrefSize(s: State, p: Pc)
    requires UnrefPlan(s, p).Plan? && (p.Recheck? ==> InMap(s, p.q))
    ensures SizePlan(s, p, UnrefPlan(s, p))
  {
    var m := UnrefPlan(s, p);
    if m.pc.Removed? {
      var fd := s.queues[p.q].fd;
      assert m.data.map_ == s.map_ - {fd} && m.data.count == s.count && p.Recheck?;
      hide UnrefPlan;
      WithoutKey(s.map_, fd);
    } else {
      assert m.data.map_ == s.map_;
    }
  }

  lemma PlanSize(s: State, a: Agent, c: Choice)
    requires a in s.pcs && PlanOf(s, a, c).Plan? && (s.pcs[a].Recheck? ==> InMap(s, s.pcs[a].q))
    ensures SizePlan(s, s.pcs[a], PlanOf(s, a, c))
  {
    hide GetPlan, UsePlan, UnrefPlan, SizePlan, InMap;
    var p, m := s.pcs[a], PlanOf(s, a, c);
    if m == UsePlan(s, p, c) { UseSize(s, p, c); }
    else if m == UnrefPlan(s, p) { UnrefSize(s, p); }
    else { GetSize(s, p, c); }
  }

  lemma StepShape(s: State, s': State, a: Agent, c: Choice)
    requires StepBy(s, s', a, c)
    ensures var p, m := s.pcs[a], PlanOf(s, a, c);
            && s'.pcs == s.pcs[a := m.pc] && s'.map_ == m.data.map_ && s'.count == m.data.count
            && (!WritesMap(p) && !WritesMap(m.pc) ==> s'.writer == s.writer)
  {
    PlanKeepsLocks(s, a, c);
    hide PlanOf, WritesMap;
  }

  lemma RecheckListed(s: State, a: Agent)
    requires MapInv(s) && a in s.pcs && s.pcs[a].Recheck?
    ensures InMap(s, s.pcs[a].q)
  {
    assert Mentions(s.pcs[a], s.pcs[a].q);
  }

  lemma CountKept(s: State, s': State, a: Agent, c: Choice)
    requires MapLockInv(s) && MapInv(s) && CountInv(s) && MapLockInv(s') && StepBy(s, s', a, c)
    ensures CountInv(s')
  {
    hide PlanOf, InMap, MapLockInv, Goes, MapInv, Lag, LagOf, WritesMap;
    if s.pcs[a].Recheck? { RecheckListed(s, a); }
    StepShape(s, s', a, c);
    PlanSize(s, a, c);
    LagMoves(s, s', a, PlanOf(s, a, c).pc);
  }

  lemma StepKeeps(s: State, s': State)
    requires Inv(s) && Next(s, s')
    ensures Inv(s')
  {
    var a, c :| StepBy(s, s', a, c);
    LocksKept(s, s', a, c);
    hide StepBy, MapLockInv, QueueLockInv, MapInv, RefInv, FreedInv, CountInv;
    MapKept(s, s', a, c);
    RefKept(s, s', a, c);
    FreedKept(s, s', a, c);
    CountKept(s, s', a, c);
  }

  lemma LocksKept(s: State, s': State, a: Agent, c: Choice)
    requires MapLockInv(s) && QueueLockInv(s) && StepBy(s, s', a, c)
    ensures MapLockInv(s') && QueueLockInv(s')
  {
    var m := PlanOf(s, a, c);
    PlanKeepsLocks(s, a, c);
    assert MapLockInv(m.data) && QueueLockInv(m.data) by { hide PlanOf; }
    hide PlanOf, MapLockInv, QueueLockInv;
    GoesMapLock(m.data, s', a, m.pc);
    GoesQueueLock(m.data, s', a, m.pc);
  }

  lemma InitHolds(s: State)
    requires Init(s)
    ensures Inv(s)
  {
    assert !ReadsMap(Idle) && !WritesMap(Idle) && Locked(Idle) == None;
    assert forall q :: !Mentions(Idle, q) && !Retires(Idle, q);
    hide ReadsMap, WritesMap, Locked, Mentions, Retires;
    assert MapLockInv(s) && QueueLockInv(s) by { hide MapInv, RefInv, FreedInv, CountInv; }
    hide MapLockInv, QueueLockInv;
    assert MapInv(s) by { hide RefInv, FreedInv, CountInv; }
    hide MapInv;
  }

  lemma {:induction false} RunKeeps(r: seq<State>, n: nat)
    requires IsRun(r) && n < |r|
    ensures Inv(r[n])
  {
    hide Inv, Init, Next;
    if n == 0 {
      InitHolds(r[0]);
    } else {
      RunKeeps(r, n - 1);
      assert Follows(r, n - 1);
      StepKeeps(r[n - 1], r[n]);
    }
  }

  // ----- what holds in every reachable state

  /** The count of a queue is the number of operations that own a reference to it. */
  lemma RefCountsOwners(r: seq<State>, n: nat, q: Qid)
    requires IsRun(r) && n < |r| && q in r[n].queues
    ensures r[n].queues[q].ref == |Owners(r[n], q)|
  {
    RunKeeps(r, n);
  }

  /** A queue that some operation may still touch has not been freed. */
  lemma NeverUsedAfterFree(r: seq<State>, n: nat, a: Agent, q: Qid)
    requires IsRun(r) && n < |r| && a in r[n].pcs && Mentions(r[n].pcs[a], q)
    ensures q in r[n].queues && q !in r[n].freed
  {
    hide IsRun, MapLockInv, QueueLockInv, RefInv, CountInv, Named, Reached, Alone, Mentions, NoDup;
    RunKeeps(r, n);
  }

  lemma FreedOnce(r: seq<State>, n: nat)
    requires IsRun(r) && n < |r|
    ensures NoDup(r[n].freed)
  {
    RunKeeps(r, n);
  }

  /** free is called only when nobody else owns, holds or waits for the queue, and the map no
      longer leads to it. */
  lemma FreedUnshared(r: seq<State>, n: nat, a: Agent, q: Qid)
    requires IsRun(r) && n < |r| && a in r[n].pcs && r[n].pcs[a] == Freeing(q)
    ensures forall b :: b in r[n].pcs && b != a ==> !Mentions(r[n].pcs[b], q)
    ensures q !in r[n].holder
    ensures forall fd :: fd in r[n].map_ ==> r[n].map_[fd] != q
  {
    RunKeeps(r, n);
    var s := r[n];
    assert MapInv(s) && QueueLockInv(s);
    hide IsRun, Inv;
    assert Retires(s.pcs[a], q);
    assert !InMap(s, q);
    if q in s.holder {
      HolderMentions(s, q);
      assert false;
    }
  }

  lemma HolderMentions(s: State, q: Qid)
    requires QueueLockInv(s) && q in s.holder
    ensures s.holder[q] in s.pcs && var p := s.pcs[s.holder[q]]; Mentions(p, q) && !p.Freeing?
  {
  }

  /** The counter of open queues is exact whenever nobody is inside the map's write lock. */
  lemma CountMatchesMap(r: seq<State>, n: nat)
    requires IsRun(r) && n < |r| && r[n].writer == None
    ensures r[n].count == |r[n].map_|
  {
    RunKeeps(r, n);
  }

  /** Nothing is left behind: when every operation has finished, every queue was freed. */
  lemma Quiescent(r: seq<State>, n: nat)
    requires IsRun(r) && n < |r| && forall a :: a in r[n].pcs ==> r[n].pcs[a].Idle?
    ensures r[n].queues == map[] && r[n].map_ == map[] && r[n].count == 0 && r[n].holder == map[]
    ensures r[n].readers == {} && r[n].writer == None
  {
    RunKeeps(r, n);
    hide IsRun;
    IdleOwnsNothing(r[n]);
  }

  lemma IdleOwnsNothing(s: State)
    requires forall a :: a in s.pcs ==> s.pcs[a].Idle?
    ensures forall q :: Owners(s, q) == {}
  {
  }

  // ----- the descriptor asked for

  /** The pcs that carry the descriptor. */
  predicate Seeks(pc: Pc) { pc.RdLook? || pc.RdLockQ? || pc.WrWant? || pc.WrLook? || pc.WrCount? || pc.WrLockQ? }

  /** An agent at pc, with these queues, works for descriptor fd: it seeks fd, and may touch only its queue. */
  ghost predicate WorksFor(pc: Pc, queues: map<Qid, Queue>, fd: Fd) {
    && (Seeks(pc) ==> pc.fd == fd)
    && forall q :: Mentions(pc, q) ==> q in queues && queues[q].fd == fd
  }

  /** A step leaves the descriptor of every queue that stays. */
  ghost predicate KeepDescriptors(x: map<Qid, Queue>, y: map<Qid, Queue>) {
    forall q :: q in x && q in y ==> y[q].fd == x[q].fd
  }

  lemma GetFor(s: State, p: Pc, c: Choice, fd: Fd)
    requires Named(s) && GetPlan(s, p, c).Plan?
    ensures KeepDescriptors(s.queues, GetPlan(s, p, c).data.queues)
    ensures !p.Idle? && WorksFor(p, s.queues, fd) ==> WorksFor(GetPlan(s, p, c).pc, GetPlan(s, p, c).data.queues, fd)
  {
    assert p.RdLockQ? || p.WrCount? || p.WrLockQ? || p.GotRd? || p.GotWr? ==> Mentions(p, p.q);
  }

  lemma UseFor(s: State, p: Pc, c: Choice, fd: Fd)
    requires UsePlan(s, p, c).Plan?
    ensures KeepDescriptors(s.queues, UsePlan(s, p, c).data.queues)
    ensures WorksFor(p, s.queues, fd) ==> WorksFor(UsePlan(s, p, c).pc, UsePlan(s, p, c).data.queues, fd)
  {
    assert Mentions(p, p.q);
  }

  lemma UnrefFor(s: State, p: Pc, fd: Fd)
    requires UnrefPlan(s, p).Plan?
    ensures KeepDescriptors(s.queues, UnrefPlan(s, p).data.queues)
    ensures WorksFor(p, s.queues, fd) ==> WorksFor(UnrefPlan(s, p).pc, UnrefPlan(s, p).data.queues, fd)
  {
    assert Mentions(p, p.q);
  }

  lemma PlanFor(s: State, a: Agent, c: Choice, fd: Fd)
    requires Named(s) && a in s.pcs && PlanOf(s, a, c).Plan?
    ensures var p, m := s.pcs[a], PlanOf(s, a, c);
            && KeepDescriptors(s.queues, m.data.queues)
            && (!p.Idle? && WorksFor(p, s.queues, fd) ==> WorksFor(m.pc, m.data.queues, fd))
  {
    hide GetPlan, UsePlan, UnrefPlan, WorksFor, KeepDescriptors, Named;
    var p, m := s.pcs[a], PlanOf(s, a, c);
    if m == UsePlan(s, p, c) { UseFor(s, p, c, fd); }
    else if m == UnrefPlan(s, p) { UnrefFor(s, p, fd); }
    else { GetFor(s, p, c, fd); }
  }

  lemma StepData(s: State, s': State, b: Agent, c: Choice)
    requires StepBy(s, s', b, c)
    ensures s'.pcs == s.pcs[b := PlanOf(s, b, c).pc] && s'.queues == PlanOf(s, b, c).data.queues
  {
    PlanKeepsLocks(s, b, c);
    hide PlanOf, ReadsMap, WritesMap, Locked;
  }

  lemma OtherFor(s: State, s': State, a: Agent, fd: Fd)
    requires Mentioned(s') && a in s.pcs && a in s'.pcs && s'.pcs[a] == s.pcs[a]
    requires KeepDescriptors(s.queues, s'.queues) && WorksFor(s.pcs[a], s.queues, fd)
    ensures WorksFor(s'.pcs[a], s'.queues, fd)
  {
    hide Mentions, InMap, Retires, Seeks;
  }

  lemma StepFor(s: State, s': State, a: Agent, fd: Fd)
    requires Named(s) && Mentioned(s') && Next(s, s') && a in s.pcs && !s.pcs[a].Idle? && WorksFor(s.pcs[a], s.queues, fd)
    ensures a in s'.pcs && WorksFor(s'.pcs[a], s'.queues, fd)
  {
    hide StepBy, Named, Mentioned, WorksFor, PlanOf, KeepDescriptors;
    var b, c :| StepBy(s, s', b, c);
    StepData(s, s', b, c);
    assert b in s.pcs && PlanOf(s, b, c).Plan? by { StepParts(s, s', b, c); }
    PlanFor(s, b, c, fd);
    if a != b { OtherFor(s, s', a, fd); }
  }

  lemma StepParts(s: State, s': State, b: Agent, c: Choice)
    requires StepBy(s, s', b, c)
    ensures b in s.pcs && PlanOf(s, b, c).Plan?
  {
    hide PlanOf;
  }

  ghost predicate BusyFrom(r: seq<State>, a: Agent, k: nat, i: nat)
    requires i < |r|
  {
    forall j :: k <= j <= i ==> a in r[j].pcs && !r[j].pcs[a].Idle?
  }

  /** In every run: an operation that began with descriptor fd in state k and has not finished since may touch,
      and so refer to and free, only a queue made for fd. */
  lemma {:induction false} QueueOfDescriptor(r: seq<State>, k: nat, i: nat, a: Agent, fd: Fd)
    requires IsRun(r) && k <= i < |r| && BusyFrom(r, a, k, i) && a in r[k].pcs && r[k].pcs[a] == RdLook(fd)
    ensures a in r[i].pcs && WorksFor(r[i].pcs[a], r[i].queues, fd)
    decreases i
  {
    assert BusyFrom(r, a, k, i);
    hide *;
    if i == k {
      StartsFor(r[k].queues, fd);
    } else {
      BusyBefore(r, a, k, i);
      QueueOfDescriptor(r, k, i - 1, a, fd);
      RunStep(r, i - 1);
      StepFor(r[i - 1], r[i], a, fd);
    }
  }

  lemma BusyBefore(r: seq<State>, a: Agent, k: nat, i: nat)
    requires k < i < |r| && BusyFrom(r, a, k, i)
    ensures BusyFrom(r, a, k, i - 1) && a in r[i - 1].pcs && !r[i - 1].pcs[a].Idle?
  {
  }

  lemma StartsFor(queues: map<Qid, Queue>, fd: Fd)
    ensures WorksFor(RdLook(fd), queues, fd)
  {
  }

  lemma RunStep(r: seq<State>, i: nat)
    requires IsRun(r) && i + 1 < |r|
    ensures Next(r[i], r[i + 1]) && Named(r[i]) && Mentioned(r[i + 1])
  {
    assert Follows(r, i);
    hide IsRun, Next, MapLockInv, QueueLockInv, RefInv, FreedInv, CountInv, Named, Mentioned, Reached, Alone;
    RunKeeps(r, i);
    RunKeeps(r, i + 1);
  }

  // ----- progress

  ghost predicate CanStep(s: State, a: Agent) { exists s', c :: StepBy(s, s', a, c) }

  lemma Stepped(s: State, a: Agent, c: Choice)
    requires a in s.pcs && PlanOf(s, a, c).Plan? && a in PlanOf(s, a, c).data.pcs
    requires CanGo(PlanOf(s, a, c).data, a, PlanOf(s, a, c).pc)
    ensures CanStep(s, a)
  {
    var m := PlanOf(s, a, c);
    assert StepBy(s, Go(m.data, a, m.pc), a, c);
  }

  /** Under a queue lock no further lock is taken. */
  lemma HolderPlan(s: State, a: Agent, c: Choice)
    requires a in s.pcs && Locked(s.pcs[a]).Some? && s.pcs[a].q in s.queues
    requires s.pcs[a].Recheck? ==> s.queues[s.pcs[a].q].ref > 0
    ensures PlanOf(s, a, c).Plan?
    ensures var p, n := s.pcs[a], PlanOf(s, a, c).pc;
            (ReadsMap(n) ==> ReadsMap(p)) && (WritesMap(n) ==> WritesMap(p)) && (Locked(n).Some? ==> Locked(n) == Locked(p))
  {
  }

  lemma HolderOwns(s: State, a: Agent)
    requires MapInv(s) && RefInv(s) && a in s.pcs && Locked(s.pcs[a]).Some?
    ensures var p := s.pcs[a]; p.q in s.queues && (p.Recheck? ==> s.queues[p.q].ref > 0)
  {
    var p := s.pcs[a];
    assert Mentions(p, p.q);
    if p.Recheck? { assert a in Owners(s, p.q); }
  }

  /** Whoever holds a queue lock goes on without waiting. */
  lemma QueueHolderSteps(s: State, a: Agent)
    requires MapInv(s) && RefInv(s) && a in s.pcs && Locked(s.pcs[a]).Some?
    ensures CanStep(s, a)
  {
    var c := Choice(0, 0, false);
    HolderOwns(s, a);
    HolderPlan(s, a, c);
    PlanKeepsLocks(s, a, c);
    hide MapInv, RefInv, PlanOf, ReadsMap, WritesMap, Locked, CanStep;
    Stepped(s, a, c);
  }

  /** With no queue lock held, whoever is in the map, reading or writing, can go on. */
  lemma MapHolderSteps(s: State, a: Agent)
    requires a in s.pcs && s.holder == map[] && (ReadsMap(s.pcs[a]) || WritesMap(s.pcs[a])) && Locked(s.pcs[a]).None?
    ensures CanStep(s, a)
  {
    var c := Choice(0, 0, true);
    assert PlanOf(s, a, c).Plan?;
    PlanKeepsLocks(s, a, c);
    Stepped(s, a, c);
  }

  /** With no lock held at all, every operation in progress can go on. */
  lemma FreeAgentSteps(s: State, a: Agent)
    requires a in s.pcs && s.holder == map[] && s.writer == None && s.readers == {} && !s.pcs[a].Idle?
    requires !ReadsMap(s.pcs[a]) && !WritesMap(s.pcs[a]) && Locked(s.pcs[a]).None?
    ensures CanStep(s, a)
  {
    var c := Choice(0, 0, true);
    assert PlanOf(s, a, c).Plan?;
    PlanKeepsLocks(s, a, c);
    Stepped(s, a, c);
  }

  /** The two kinds of lock cannot deadlock: while some operation is in progress, some operation in
      progress can take its next step. */
  lemma NoDeadlock(r: seq<State>, n: nat, a: Agent)
    requires IsRun(r) && n < |r| && a in r[n].pcs && !r[n].pcs[a].Idle?
    ensures exists b :: b in r[n].pcs && !r[n].pcs[b].Idle? && CanStep(r[n], b)
  {
    RunKeeps(r, n);
    var s := r[n];
    hide IsRun, CanStep, MapInv, RefInv, FreedInv, CountInv;
    if q :| q in s.holder {
      QueueHolderSteps(s, s.holder[q]);
    } else if s.writer != None {
      assert Locked(s.pcs[s.writer.value]).None?;
      MapHolderSteps(s, s.writer.value);
    } else if b :| b in s.readers {
      assert Locked(s.pcs[b]).None?;
      MapHolderSteps(s, b);
    } else {
      assert Locked(s.pcs[a]).None?;
      FreeAgentSteps(s, a);
    }
  }
}
