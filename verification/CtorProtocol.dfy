/** Running constructors and destructors from several threads: `do_init_fini` and
    `__libc_exit_fini` as steps of a transition system. Everything under `init_fini_lock`
    between two points where the lock is dropped is cut into steps of the lock holder; a
    thread in a constructor may enter `do_init_fini` again (a constructor calling dlopen),
    so every thread has a stack of activations. Waiting on `ctor_cond` is a state that can
    be left whenever the lock is free, which covers every wake-up including spurious ones. */
module CtorProtocol {
  import opened Common

  type Tid = nat
  type Dso = nat

  /** One activation of do_init_fini: position i in its queue; inCtor while queue[i]'s
      constructor runs with the lock released. */
  datatype Frame = Frame(queue: seq<Dso>, i: nat, inCtor: bool)

  datatype Pc =
    | Running        // outside the lock, in application or constructor code
    | Wanting        // blocked on the lock or waiting on ctor_cond in do_init_fini
    | Looping        // holding the lock in the loop of do_init_fini
    | ExitWaiting    // waiting on ctor_cond in __libc_exit_fini
    | ExitLooping    // holding the lock in the walk of the fini list
    | Exited         // past the walk; the lock is never released

  datatype Thread = Thread(pc: Pc, frames: seq<Frame>)

  datatype State = State(
    lock: Option<Tid>,
    visitor: map<Dso, Tid>,       // p->ctor_visitor where it is not null
    constructed: set<Dso>,
    fini: seq<Dso>,               // the list at fini_head
    shuttingDown: bool,
    threads: map<Tid, Thread>,
    exiter: Tid, pos: nat,        // who walks the fini list, and how far
    started: seq<Dso>,            // history: constructors in the order they started
    ran: seq<Dso>)                // history: destructors in the order they ran

  // ----- steps

  function Top(th: Thread): Frame
    requires th.frames != []
  {
    th.frames[|th.frames| - 1]
  }

  function SetTop(th: Thread, pc: Pc, f: Frame): Thread
    requires th.frames != []
  {
    Thread(pc, th.frames[..|th.frames| - 1] + [f])
  }

  /** A thread calls do_init_fini, from outside or from a constructor it is running. */
  ghost predicate Enter(s: State, s': State, t: Tid, queue: seq<Dso>) {
    && t in s.threads && s.threads[t].pc == Running
    && (s.threads[t].frames != [] ==> Top(s.threads[t]).inCtor)
    && s' == s.(threads := s.threads[t := Thread(Wanting, s.threads[t].frames + [Frame(queue, 0, false)])])
  }

  ghost predicate Acquire(s: State, s': State, t: Tid) {
    && t in s.threads && s.threads[t].pc == Wanting && s.lock == None
    && s' == s.(lock := Some(t), threads := s.threads[t := s.threads[t].(pc := Looping)])
  }

  ghost predicate AtLoop(s: State, t: Tid) {
    t in s.threads && s.threads[t].pc == Looping && s.threads[t].frames != []
  }

  ghost predicate MustWait(s: State, t: Tid, p: Dso) {
    (p in s.visitor && s.visitor[p] != t) || s.shuttingDown
  }

  ghost predicate Wait(s: State, s': State, t: Tid) {
    && AtLoop(s, t)
    && var f := Top(s.threads[t]);
       && f.i < |f.queue| && MustWait(s, t, f.queue[f.i])
       && s' == s.(lock := None, threads := s.threads[t := s.threads[t].(pc := Wanting)])
  }

  ghost predicate Skip(s: State, s': State, t: Tid) {
    && AtLoop(s, t)
    && var f := Top(s.threads[t]);
       && f.i < |f.queue| && !MustWait(s, t, f.queue[f.i])
       && (f.queue[f.i] in s.visitor || f.queue[f.i] in s.constructed)
       && s' == s.(threads := s.threads[t := SetTop(s.threads[t], Looping, f.(i := f.i + 1))])
  }

  /** Take charge of the constructor, register for destruction, drop the lock. */
  ghost predicate Start(s: State, s': State, t: Tid, withFini: set<Dso>) {
    && AtLoop(s, t)
    && var f := Top(s.threads[t]);
       && f.i < |f.queue| && !MustWait(s, t, f.queue[f.i])
       && f.queue[f.i] !in s.visitor && f.queue[f.i] !in s.constructed
       && var p := f.queue[f.i];
          s' == s.(lock := None, visitor := s.visitor[p := t], started := s.started + [p],
                   fini := (if p in withFini then [p] else []) + s.fini,
                   threads := s.threads[t := SetTop(s.threads[t], Running, f.(inCtor := true))])
  }

  /** The constructor returned: retake the lock and publish. */
  ghost predicate Finish(s: State, s': State, t: Tid) {
    && t in s.threads && s.threads[t].pc == Running && s.threads[t].frames != [] && s.lock == None
    && var f := Top(s.threads[t]);
       && f.inCtor && f.i < |f.queue|
       && var p := f.queue[f.i];
          s' == s.(lock := Some(t), visitor := s.visitor - {p}, constructed := s.constructed + {p},
                   threads := s.threads[t := SetTop(s.threads[t], Looping, Frame(f.queue, f.i + 1, false))])
  }

  ghost predicate Leave(s: State, s': State, t: Tid) {
    && AtLoop(s, t)
    && Top(s.threads[t]).i == |Top(s.threads[t]).queue|
    && s' == s.(lock := None,
                threads := s.threads[t := Thread(Running, s.threads[t].frames[..|s.threads[t].frames| - 1])])
  }

  ghost predicate BeginExit(s: State, s': State, t: Tid) {
    && t in s.threads && s.threads[t].pc == Running && s.lock == None && !s.shuttingDown
    && s' == s.(lock := Some(t), shuttingDown := true, exiter := t, pos := 0,
                threads := s.threads[t := s.threads[t].(pc := ExitLooping)])
  }

  ghost predicate AtFini(s: State, t: Tid) {
    t in s.threads && s.threads[t].pc == ExitLooping && s.pos < |s.fini|
  }

  ghost predicate ExitWait(s: State, s': State, t: Tid) {
    && AtFini(s, t) && s.fini[s.pos] in s.visitor && s.visitor[s.fini[s.pos]] != t
    && s' == s.(lock := None, threads := s.threads[t := s.threads[t].(pc := ExitWaiting)])
  }

  ghost predicate ExitAcquire(s: State, s': State, t: Tid) {
    && t in s.threads && s.threads[t].pc == ExitWaiting && s.lock == None
    && s' == s.(lock := Some(t), threads := s.threads[t := s.threads[t].(pc := ExitLooping)])
  }

  /** Past the wait: run the destructors if the DSO is constructed, go on either way. */
  ghost predicate ExitVisit(s: State, s': State, t: Tid) {
    && AtFini(s, t)
    && var p := s.fini[s.pos];
       && !(p in s.visitor && s.visitor[p] != t)
       && s' == s.(pos := s.pos + 1, ran := if p in s.constructed then s.ran + [p] else s.ran)
  }

  ghost predicate ExitDone(s: State, s': State, t: Tid) {
    && t in s.threads && s.threads[t].pc == ExitLooping && s.pos == |s.fini|
    && s' == s.(threads := s.threads[t := s.threads[t].(pc := Exited)])
  }

  ghost predicate StepBy(s: State, s': State, t: Tid, withFini: set<Dso>) {
    || (exists queue :: Enter(s, s', t, queue))
    || Acquire(s, s', t) || Wait(s, s', t) || Skip(s, s', t) || Start(s, s', t, withFini)
    || Finish(s, s', t) || Leave(s, s', t)
    || BeginExit(s, s', t) || ExitWait(s, s', t) || ExitAcquire(s, s', t)
    || ExitVisit(s, s', t) || ExitDone(s, s', t)
  }

  ghost predicate Next(s: State, s': State, withFini: set<Dso>) {
    exists t :: StepBy(s, s', t, withFini)
  }

  ghost predicate Init(s: State) {
    && s.lock == None && s.visitor == map[] && s.constructed == {} && s.fini == [] && !s.shuttingDown
    && s.started == [] && s.ran == [] && s.pos == 0
    && forall t :: t in s.threads ==> s.threads[t] == Thread(Running, [])
  }

  ghost predicate Follows(r: seq<State>, i: nat, withFini: set<Dso>)
    requires i + 1 < |r|
  {
    Next(r[i], r[i + 1], withFini)
  }

  ghost predicate IsRun(r: seq<State>, withFini: set<Dso>) {
    && |r| > 0 && Init(r[0])
    && forall i :: 0 <= i < |r| - 1 ==> Follows(r, i, withFini)
  }

  // ----- invariant

  predicate Holds(pc: Pc) { pc == Looping || pc == ExitLooping || pc == Exited }

  predicate Exiting(pc: Pc) { pc == ExitWaiting || pc == ExitLooping || pc == Exited }

  ghost predicate LockInv(s: State) {
    && (forall t :: t in s.threads ==> (Holds(s.threads[t].pc) <==> s.lock == Some(t)))
    && forall t :: t in s.threads ==> (Exiting(s.threads[t].pc) <==> s.shuttingDown && s.exiter == t)
  }

  /** Newest first, the started DSOs that have destructors. */
  ghost function FiniOf(started: seq<Dso>, withFini: set<Dso>): seq<Dso> {
    if started == [] then []
    else
      var p := started[|started| - 1];
      (if p in withFini then [p] else []) + FiniOf(started[..|started| - 1], withFini)
  }

  ghost predicate HistoryInv(s: State, withFini: set<Dso>) {
    && NoDup(s.started) && s.fini == FiniOf(s.started, withFini)
    && (forall p :: p in s.started <==> p in s.visitor || p in s.constructed)
    && forall p :: p in s.visitor ==> p !in s.constructed
  }

  /** p is constructed, or its constructor is being run by t itself. */
  ghost predicate ReadyFor(s: State, t: Tid, p: Dso) {
    p in s.constructed || (p in s.visitor && s.visitor[p] == t)
  }

  /** The DSO whose constructor an activation is running. */
  function CtorOf(f: Frame): Dso { if f.i < |f.queue| then f.queue[f.i] else 0 }

  ghost predicate FrameOk(s: State, t: Tid, f: Frame) {
    && f.i <= |f.queue| && (forall j :: 0 <= j < f.i ==> ReadyFor(s, t, f.queue[j]))
    && (f.inCtor ==> f.i < |f.queue| && f.queue[f.i] in s.visitor && s.visitor[f.queue[f.i]] == t)
  }

  ghost predicate ThreadOk(s: State, t: Tid)
    requires t in s.threads
  {
    var th := s.threads[t];
    && (forall k :: 0 <= k < |th.frames| ==> FrameOk(s, t, th.frames[k]))
    && (forall k :: 0 <= k < |th.frames| - 1 ==> th.frames[k].inCtor)
    && (th.frames != [] && Top(th).inCtor ==> th.pc == Running || Exiting(th.pc))
    && (th.pc == Looping || th.pc == Wanting ==> th.frames != [])
    && forall k, l :: 0 <= k < l < |th.frames| && th.frames[k].inCtor && th.frames[l].inCtor ==>
         CtorOf(th.frames[k]) != CtorOf(th.frames[l])
  }

  ghost predicate ThreadsInv(s: State) {
    forall t :: t in s.threads ==> ThreadOk(s, t)
  }

  ghost function Ran(s: seq<Dso>, constructed: set<Dso>): seq<Dso> {
    if s == [] then []
    else Ran(s[..|s| - 1], constructed) + (if s[|s| - 1] in constructed then [s[|s| - 1]] else [])
  }

  /** The walk has run exactly the constructed DSOs it passed; the others it passed are
      being constructed by the exiting thread itself and so never finish. */
  ghost predicate ExitInv(s: State) {
    && s.pos <= |s.fini| && (!s.shuttingDown ==> s.pos == 0)
    && (forall j :: 0 <= j < s.pos ==> ReadyFor(s, s.exiter, s.fini[j]))
    && s.ran == Ran(s.fini[..s.pos], s.constructed)
  }

  ghost predicate Inv(s: State, withFini: set<Dso>) {
    LockInv(s) && HistoryInv(s, withFini) && ThreadsInv(s) && ExitInv(s)
  }

  // ----- every step keeps it

  /** What a step by t may do to the other threads' view of constructors. */
  ghost predicate OthersKeep(s: State, s': State, t: Tid) {
    && s'.threads.Keys == s.threads.Keys
    && (forall u :: u in s.threads && u != t ==> s'.threads[u] == s.threads[u])
    && (forall p :: p in s.constructed ==> p in s'.constructed)
    && forall p :: p in s.visitor && s.visitor[p] != t ==> p in s'.visitor && s'.visitor[p] == s.visitor[p]
  }

  lemma OtherThreads(s: State, s': State, t: Tid, u: Tid)
    requires OthersKeep(s, s', t) && u in s.threads && u != t && ThreadOk(s, u)
    ensures ThreadOk(s', u)
  {
    var th := s.threads[u];
    forall k | 0 <= k < |th.frames| ensures FrameOk(s', u, th.frames[k]) {
      assert FrameOk(s, u, th.frames[k]);
      assert forall p :: ReadyFor(s, u, p) ==> ReadyFor(s', u, p);
    }
  }

  /** Frames of t below the top, when the step leaves t's own visits in place. */
  lemma LowerFrames(s: State, s': State, t: Tid, f: Frame)
    requires FrameOk(s, t, f)
    requires forall p :: p in s.constructed ==> p in s'.constructed
    requires forall p :: p in s.visitor && s.visitor[p] == t ==>
               (p in s'.visitor && s'.visitor[p] == t) || (p in s'.constructed && !(f.inCtor && CtorOf(f) == p))
    ensures FrameOk(s', t, f)
  {
    assert forall p :: ReadyFor(s, t, p) ==> ReadyFor(s', t, p);
  }

  lemma EnterOk(s: State, s': State, t: Tid, queue: seq<Dso>)
    requires Enter(s, s', t, queue) && ThreadOk(s, t)
    ensures ThreadOk(s', t)
  {
    var th, th' := s.threads[t], s'.threads[t];
    forall k | 0 <= k < |th'.frames| ensures FrameOk(s', t, th'.frames[k]) {
      if k < |th.frames| {
        assert th'.frames[k] == th.frames[k];
        LowerFrames(s, s', t, th.frames[k]);
      }
    }
  }

  /** Steps that touch neither frames nor constructors. */
  lemma QuietOk(s: State, s': State, t: Tid)
    requires t in s.threads && t in s'.threads && ThreadOk(s, t)
    requires s'.visitor == s.visitor && s'.constructed == s.constructed
    requires s'.threads[t].frames == s.threads[t].frames
    requires s.threads[t].frames != [] && Top(s.threads[t]).inCtor ==> s'.threads[t].pc == Running || Exiting(s'.threads[t].pc)
    requires s'.threads[t].pc == Looping || s'.threads[t].pc == Wanting ==> s.threads[t].frames != []
    ensures ThreadOk(s', t)
  {
    var th := s.threads[t];
    forall k | 0 <= k < |th.frames| ensures FrameOk(s', t, th.frames[k]) {
      LowerFrames(s, s', t, th.frames[k]);
    }
  }

  /** Steps that replace the top frame. */
  lemma TopOk(s: State, s': State, t: Tid, pc: Pc, f: Frame)
    requires t in s.threads && t in s'.threads && ThreadOk(s, t) && s.threads[t].frames != []
    requires s'.threads[t] == SetTop(s.threads[t], pc, f)
    requires FrameOk(s', t, f) && (f.inCtor ==> pc == Running)
    requires forall k :: 0 <= k < |s.threads[t].frames| - 1 ==>
               FrameOk(s', t, s.threads[t].frames[k]) && (f.inCtor ==> CtorOf(s.threads[t].frames[k]) != CtorOf(f))
    ensures ThreadOk(s', t)
  {
    var th, th' := s.threads[t], s'.threads[t];
    assert forall k :: 0 <= k < |th.frames| - 1 ==> th'.frames[k] == th.frames[k];
    assert th'.frames[|th.frames| - 1] == f;
  }

  lemma SkipOk(s: State, s': State, t: Tid)
    requires Skip(s, s', t) && ThreadOk(s, t)
    ensures ThreadOk(s', t)
  {
    var th := s.threads[t];
    var f := Top(th);
    forall k | 0 <= k < |th.frames| - 1 ensures FrameOk(s', t, th.frames[k]) { LowerFrames(s, s', t, th.frames[k]); }
    assert FrameOk(s, t, f);
    assert ReadyFor(s', t, f.queue[f.i]);
    assert FrameOk(s', t, f.(i := f.i + 1)) by {
      assert forall j :: 0 <= j < f.i ==> ReadyFor(s, t, f.queue[j]) && ReadyFor(s', t, f.queue[j]);
    }
    TopOk(s, s', t, Looping, f.(i := f.i + 1));
  }

  lemma StartOk(s: State, s': State, t: Tid, withFini: set<Dso>)
    requires Start(s, s', t, withFini) && ThreadOk(s, t)
    ensures ThreadOk(s', t)
  {
    var th := s.threads[t];
    var f := Top(th);
    forall k | 0 <= k < |th.frames| - 1
      ensures FrameOk(s', t, th.frames[k]) && CtorOf(th.frames[k]) != CtorOf(f)
    {
      assert FrameOk(s, t, th.frames[k]);
      LowerFrames(s, s', t, th.frames[k]);
    }
    assert FrameOk(s, t, f);
    assert FrameOk(s', t, f.(inCtor := true)) by {
      assert forall j :: 0 <= j < f.i ==> ReadyFor(s, t, f.queue[j]) && ReadyFor(s', t, f.queue[j]);
    }
    TopOk(s, s', t, Running, f.(inCtor := true));
  }

  lemma FinishOk(s: State, s': State, t: Tid)
    requires Finish(s, s', t) && ThreadOk(s, t)
    ensures ThreadOk(s', t)
  {
    var th := s.threads[t];
    var f := Top(th);
    forall k | 0 <= k < |th.frames| - 1 ensures FrameOk(s', t, th.frames[k]) {
      assert FrameOk(s, t, th.frames[k]);
      LowerFrames(s, s', t, th.frames[k]);
    }
    var f' := Frame(f.queue, f.i + 1, false);
    assert FrameOk(s, t, f);
    assert FrameOk(s', t, f') by {
      assert forall p :: ReadyFor(s, t, p) ==> ReadyFor(s', t, p);
      assert ReadyFor(s', t, f.queue[f.i]);
    }
    TopOk(s, s', t, Looping, f');
  }

  lemma LeaveOk(s: State, s': State, t: Tid)
    requires Leave(s, s', t) && ThreadOk(s, t)
    ensures ThreadOk(s', t)
  {
    var th, th' := s.threads[t], s'.threads[t];
    forall k | 0 <= k < |th'.frames| ensures FrameOk(s', t, th'.frames[k]) {
      assert th'.frames[k] == th.frames[k];
      LowerFrames(s, s', t, th.frames[k]);
    }
  }

  /** A thread that leaves do_init_fini has every DSO of its queue constructed, or is itself
      still inside that DSO's constructor further down its stack. */
  lemma LeaveReady(s: State, s': State, t: Tid)
    requires Leave(s, s', t) && ThreadOk(s, t)
    ensures forall p :: p in Top(s.threads[t]).queue ==> ReadyFor(s', t, p)
  {
    var f := Top(s.threads[t]);
    assert FrameOk(s, t, f);
    forall p | p in f.queue ensures ReadyFor(s', t, p) {
      var j :| 0 <= j < |f.queue| && f.queue[j] == p;
      assert ReadyFor(s, t, f.queue[j]);
    }
  }

  lemma ThreadKept(s: State, s': State, t: Tid, withFini: set<Dso>)
    requires Inv(s, withFini) && StepBy(s, s', t, withFini) && t in s.threads && ThreadOk(s, t)
    ensures t in s'.threads && ThreadOk(s', t)
  {
    if queue :| Enter(s, s', t, queue) { EnterOk(s, s', t, queue); }
    else if Skip(s, s', t) { SkipOk(s, s', t); }
    else if Start(s, s', t, withFini) { StartOk(s, s', t, withFini); }
    else if Finish(s, s', t) { FinishOk(s, s', t); }
    else if Leave(s, s', t) { LeaveOk(s, s', t); }
    else {
      QuietStep(s, s', t, withFini);
      hide StepBy, Inv, ThreadOk;
      QuietOk(s, s', t);
    }
  }

  /** The remaining steps leave frames and constructors alone and wait only where they may. */
  lemma QuietStep(s: State, s': State, t: Tid, withFini: set<Dso>)
    requires StepBy(s, s', t, withFini) && t in s.threads && ThreadOk(s, t) && !Skip(s, s', t) && !Start(s, s', t, withFini)
    requires !Finish(s, s', t) && !Leave(s, s', t) && !exists queue :: Enter(s, s', t, queue)
    ensures t in s'.threads && s'.visitor == s.visitor && s'.constructed == s.constructed
    ensures var th, th' := s.threads[t], s'.threads[t];
            && th'.frames == th.frames
            && (th.frames != [] && Top(th).inCtor ==> th'.pc == Running || Exiting(th'.pc))
            && (th'.pc == Looping || th'.pc == Wanting ==> th.frames != [])
  {
    hide FrameOk;
  }

  /** Only Start and Finish change which constructors have run or are running. */
  lemma OtherStepsQuiet(s: State, s': State, t: Tid, withFini: set<Dso>)
    requires StepBy(s, s', t, withFini) && !Start(s, s', t, withFini) && !Finish(s, s', t)
    ensures s'.started == s.started && s'.visitor == s.visitor && s'.constructed == s.constructed && s'.fini == s.fini
  {
  }

  lemma StepMovesOneThread(s: State, s': State, t: Tid, withFini: set<Dso>)
    requires StepBy(s, s', t, withFini)
    ensures t in s.threads && s'.threads.Keys == s.threads.Keys
    ensures forall u :: u in s.threads && u != t ==> s'.threads[u] == s.threads[u]
  {
  }

  lemma StepsAreLocal(s: State, s': State, t: Tid, withFini: set<Dso>)
    requires ThreadsInv(s) && StepBy(s, s', t, withFini)
    ensures t in s.threads && OthersKeep(s, s', t)
  {
    StepMovesOneThread(s, s', t, withFini);
    assert ThreadOk(s, t);
    if Finish(s, s', t) {
      assert FrameOk(s, t, Top(s.threads[t]));
    } else if !Start(s, s', t, withFini) {
      OtherStepsQuiet(s, s', t, withFini);
      hide StepBy;
    }
  }

  lemma ThreadsKept(s: State, s': State, t: Tid, withFini: set<Dso>)
    requires Inv(s, withFini) && StepBy(s, s', t, withFini)
    ensures ThreadsInv(s')
  {
    StepsAreLocal(s, s', t, withFini);
    forall u | u in s'.threads ensures ThreadOk(s', u) {
      assert ThreadOk(s, u);
      if u == t { ThreadKept(s, s', t, withFini); } else { OtherThreads(s, s', t, u); }
    }
  }

  /** What a step by t does to the lock and to the shutdown flag, read off its pcs. */
  ghost predicate LockStep(s: State, s': State, t: Tid) {
    && t in s.threads && t in s'.threads && s'.threads == s.threads[t := s'.threads[t]]
    && var pc, pc' := s.threads[t].pc, s'.threads[t].pc;
       && s'.lock == (if Holds(pc') then Some(t) else if Holds(pc) then None else s.lock)
       && (Holds(pc') && !Holds(pc) ==> s.lock == None)
       && (Exiting(pc) == Exiting(pc') ==> s'.shuttingDown == s.shuttingDown && s'.exiter == s.exiter)
       && (Exiting(pc) ==> Exiting(pc'))
       && (Exiting(pc') && !Exiting(pc) ==> !s.shuttingDown && s'.shuttingDown && s'.exiter == t)
  }

  lemma StepLocks(s: State, s': State, t: Tid, withFini: set<Dso>)
    requires t in s.threads ==> (Holds(s.threads[t].pc) ==> s.lock == Some(t))
    requires StepBy(s, s', t, withFini)
    ensures LockStep(s, s', t)
  {
  }

  lemma LockKept(s: State, s': State, t: Tid, withFini: set<Dso>)
    requires LockInv(s) && StepBy(s, s', t, withFini)
    ensures LockInv(s')
  {
    hide StepBy;
    StepLocks(s, s', t, withFini);
    hide Holds, Exiting;
  }

  lemma StartHistory(s: State, s': State, t: Tid, withFini: set<Dso>)
    requires HistoryInv(s, withFini) && Start(s, s', t, withFini)
    ensures HistoryInv(s', withFini)
  {
    var p := Top(s.threads[t]).queue[Top(s.threads[t]).i];
    assert p !in s.started && s'.started[..|s.started|] == s.started;
    assert s'.started[|s.started|] == p;
    assert forall x :: x in s'.started <==> x in s.started || x == p;
  }

  lemma FinishHistory(s: State, s': State, t: Tid, withFini: set<Dso>)
    requires t in s.threads && ThreadOk(s, t) && HistoryInv(s, withFini) && Finish(s, s', t)
    ensures HistoryInv(s', withFini)
  {
    assert FrameOk(s, t, Top(s.threads[t]));
  }

  lemma HistoryKept(s: State, s': State, t: Tid, withFini: set<Dso>)
    requires ThreadsInv(s) && HistoryInv(s, withFini) && StepBy(s, s', t, withFini)
    ensures HistoryInv(s', withFini)
  {
    if Start(s, s', t, withFini) {
      hide StepBy, HistoryInv;
      StartHistory(s, s', t, withFini);
    } else if Finish(s, s', t) {
      hide StepBy, HistoryInv;
      FinishHistory(s, s', t, withFini);
    } else {
      OtherStepsQuiet(s, s', t, withFini);
      hide StepBy;
    }
  }

  lemma {:induction false} RanSame(q: seq<Dso>, c: set<Dso>, c': set<Dso>)
    requires forall p :: p in q ==> (p in c <==> p in c')
    ensures Ran(q, c) == Ran(q, c')
  {
    if q != [] { RanSame(q[..|q| - 1], c, c'); }
  }

  lemma ExitKept(s: State, s': State, t: Tid, withFini: set<Dso>)
    requires Inv(s, withFini) && StepBy(s, s', t, withFini)
    ensures ExitInv(s')
  {
    if Finish(s, s', t) {
      hide StepBy;
      FinishExit(s, s', t, withFini);
    } else if ExitVisit(s, s', t) {
      hide StepBy;
      VisitExit(s, s', t, withFini);
    } else if Start(s, s', t, withFini) {
      hide StepBy;
      assert s.pos == 0;
    } else {
      OtherStepsQuiet(s, s', t, withFini);
      WalkStays(s, s', t, withFini);
      hide StepBy, LockInv, HistoryInv, ThreadsInv, Finish, ExitVisit, Start;
      assert forall j :: 0 <= j < s.pos ==> ReadyFor(s, s.exiter, s.fini[j]);
    }
  }

  lemma WalkStays(s: State, s': State, t: Tid, withFini: set<Dso>)
    requires StepBy(s, s', t, withFini) && !ExitVisit(s, s', t) && (!s.shuttingDown ==> s.pos == 0)
    ensures s'.ran == s.ran && s'.pos == s.pos && (s.shuttingDown ==> s'.shuttingDown && s'.exiter == s.exiter)
  {
  }

  lemma VisitExit(s: State, s': State, t: Tid, withFini: set<Dso>)
    requires Inv(s, withFini) && ExitVisit(s, s', t)
    ensures ExitInv(s')
  {
    hide ThreadsInv;
    assert s'.fini[..s'.pos][..s.pos] == s.fini[..s.pos];
    assert s.fini[s.pos] in s.started by { FiniStarted(s.started, withFini, s.pos); }
    hide FiniOf, NoDup;
    assert forall j :: 0 <= j < s.pos ==> ReadyFor(s, s.exiter, s.fini[j]) && ReadyFor(s', s'.exiter, s'.fini[j]);
    assert t == s.exiter && ReadyFor(s', t, s.fini[s.pos]);
  }

  lemma FinishExit(s: State, s': State, t: Tid, withFini: set<Dso>)
    requires Inv(s, withFini) && Finish(s, s', t)
    ensures ExitInv(s')
  {
    assert ThreadOk(s, t);
    var f := Top(s.threads[t]);
    assert FrameOk(s, t, f);
    var p := f.queue[f.i];
    forall j | 0 <= j < s.pos ensures s.fini[j] != p && ReadyFor(s', s'.exiter, s'.fini[j]) {
      assert ReadyFor(s, s.exiter, s.fini[j]);
      assert s.shuttingDown && s.exiter != t;
    }
    RanSame(s.fini[..s.pos], s.constructed, s'.constructed);
  }

  lemma {:induction false} FiniStarted(started: seq<Dso>, withFini: set<Dso>, k: nat)
    requires k < |FiniOf(started, withFini)|
    ensures FiniOf(started, withFini)[k] in started && FiniOf(started, withFini)[k] in withFini
  {
    var p, rest := started[|started| - 1], started[..|started| - 1];
    var n := if p in withFini then 1 else 0;
    if k >= n {
      FiniStarted(rest, withFini, k - n);
      assert FiniOf(started, withFini)[k] == FiniOf(rest, withFini)[k - n];
    }
  }

  lemma StepKeeps(s: State, s': State, withFini: set<Dso>)
    requires Inv(s, withFini) && Next(s, s', withFini)
    ensures Inv(s', withFini)
  {
    var t :| StepBy(s, s', t, withFini);
    LockKept(s, s', t, withFini);
    HistoryKept(s, s', t, withFini);
    ThreadsKept(s, s', t, withFini);
    ExitKept(s, s', t, withFini);
  }

  lemma {:induction false} RunKeeps(r: seq<State>, withFini: set<Dso>, i: nat)
    requires IsRun(r, withFini) && i < |r|
    ensures Inv(r[i], withFini)
  {
    if i > 0 {
      RunKeeps(r, withFini, i - 1);
      assert Follows(r, i - 1, withFini);
      StepKeeps(r[i - 1], r[i], withFini);
    }
  }

  // ----- what every interleaving guarantees

  /** No constructor starts twice, in any run. */
  lemma StartedOnce(r: seq<State>, withFini: set<Dso>, i: nat)
    requires IsRun(r, withFini) && i < |r|
    ensures NoDup(r[i].started)
  {
    RunKeeps(r, withFini, i);
  }

  /** Once shutting_down is set no constructor starts any more. */
  lemma {:induction false} NoStartAfterShutdown(r: seq<State>, withFini: set<Dso>, i: nat, j: nat)
    requires IsRun(r, withFini) && i <= j < |r| && r[i].shuttingDown
    ensures r[j].shuttingDown && r[j].started == r[i].started
  {
    if i < j {
      NoStartAfterShutdown(r, withFini, i, j - 1);
      assert Follows(r, j - 1, withFini);
    }
  }

  ghost predicate StartedBefore(started: seq<Dso>, p: Dso, q: Dso) {
    exists x, y :: 0 <= x < y < |started| && started[x] == p && started[y] == q
  }

  /** In any run a destructor runs only for a constructed DSO that has one. */
  lemma DestructorsOnlyConstructed(r: seq<State>, withFini: set<Dso>, i: nat, a: nat)
    requires IsRun(r, withFini) && i < |r| && a < |r[i].ran|
    ensures r[i].ran[a] in r[i].constructed && r[i].ran[a] in withFini
  {
    var s := r[i];
    RunKeeps(r, withFini, i);
    var x := RanIndex(s.fini[..s.pos], s.constructed, a);
    FiniStarted(s.started, withFini, x);
  }

  /** Destructors run at most once each, in the reverse order of constructor start. */
  lemma DestructorsReverseStarts(r: seq<State>, withFini: set<Dso>, i: nat, a: nat, b: nat)
    requires IsRun(r, withFini) && i < |r| && a < b < |r[i].ran|
    ensures r[i].ran[a] != r[i].ran[b] && StartedBefore(r[i].started, r[i].ran[b], r[i].ran[a])
  {
    var s := r[i];
    RunKeeps(r, withFini, i);
    var x, y := RanIndices(s.fini[..s.pos], s.constructed, a, b);
    FiniReverses(s.started, withFini, x, y);
  }

  lemma {:induction false} RanIndices(q: seq<Dso>, c: set<Dso>, a: nat, b: nat) returns (x: nat, y: nat)
    requires a < b < |Ran(q, c)|
    ensures x < y < |q| && q[x] == Ran(q, c)[a] && q[y] == Ran(q, c)[b] && q[x] in c && q[y] in c
  {
    var rest := q[..|q| - 1];
    if b < |Ran(rest, c)| {
      x, y := RanIndices(rest, c, a, b);
    } else {
      x := RanIndex(rest, c, a);
      y := |q| - 1;
    }
  }

  lemma {:induction false} RanIndex(q: seq<Dso>, c: set<Dso>, a: nat) returns (x: nat)
    requires a < |Ran(q, c)|
    ensures x < |q| && q[x] == Ran(q, c)[a] && q[x] in c
  {
    var rest := q[..|q| - 1];
    if a < |Ran(rest, c)| { x := RanIndex(rest, c, a); } else { x := |q| - 1; }
  }

  lemma {:induction false} FiniReverses(started: seq<Dso>, withFini: set<Dso>, x: nat, y: nat)
    requires NoDup(started) && x < y < |FiniOf(started, withFini)|
    ensures var f := FiniOf(started, withFini); f[x] != f[y] && StartedBefore(started, f[y], f[x])
  {
    var f, p, rest := FiniOf(started, withFini), started[|started| - 1], started[..|started| - 1];
    var g := FiniOf(rest, withFini);
    var n := if p in withFini then 1 else 0;
    assert forall k :: n <= k < |f| ==> f[k] == g[k - n];
    if x >= n {
      FiniReverses(rest, withFini, x - n, y - n);
      var u, v :| 0 <= u < v < |rest| && rest[u] == g[y - n] && rest[v] == g[x - n];
      assert started[u] == f[y] && started[v] == f[x];
    } else {
      FiniStarted(rest, withFini, y - n);
      var u :| 0 <= u < |rest| && rest[u] == g[y - n];
      assert started[u] == f[y] && started[|started| - 1] == f[x];
    }
  }

  /** When the walk is over, every constructed DSO with destructors has been finalised. */
  lemma AllFinalised(r: seq<State>, withFini: set<Dso>, i: nat, t: Tid, p: Dso)
    requires IsRun(r, withFini) && i < |r| && t in r[i].threads && r[i].threads[t].pc == ExitLooping
    requires r[i].pos == |r[i].fini| && p in withFini && p in r[i].constructed
    ensures p in r[i].ran
  {
    var s := r[i];
    RunKeeps(r, withFini, i);
    assert p in s.started;
    StartedInFini(s.started, withFini, p);
    assert s.fini[..s.pos] == s.fini;
    ConstructedRan(s.fini, s.constructed, p);
  }

  lemma {:induction false} StartedInFini(started: seq<Dso>, withFini: set<Dso>, p: Dso)
    requires p in started && p in withFini
    ensures p in FiniOf(started, withFini)
  {
    if started[|started| - 1] != p {
      assert p in started[..|started| - 1];
      StartedInFini(started[..|started| - 1], withFini, p);
    }
  }

  lemma {:induction false} ConstructedRan(q: seq<Dso>, c: set<Dso>, p: Dso)
    requires p in q && p in c
    ensures p in Ran(q, c)
  {
    if q[|q| - 1] != p {
      assert p in q[..|q| - 1];
      ConstructedRan(q[..|q| - 1], c, p);
    }
  }

  // ----- who is waited for

  /** Activation k of thread u is running the constructor of p. */
  ghost predicate RunsCtor(s: State, u: Tid, k: nat, p: Dso) {
    && u in s.threads && k < |s.threads[u].frames|
    && var f := s.threads[u].frames[k]; f.inCtor && f.i < |f.queue| && f.queue[f.i] == p
  }

  /** Whoever is registered as visitor of p is running its constructor. */
  ghost predicate Visits(s: State, p: Dso)
    requires p in s.visitor
  {
    exists k :: RunsCtor(s, s.visitor[p], k, p)
  }

  ghost predicate VisitorsInv(s: State) { forall p :: p in s.visitor ==> Visits(s, p) }

  /** A step of t that leaves the visitors alone, and the frames of t that run a constructor. */
  lemma QuietVisitors(s: State, s': State, t: Tid)
    requires VisitorsInv(s) && s'.visitor == s.visitor && t in s.threads && t in s'.threads
    requires s'.threads == s.threads[t := s'.threads[t]]
    requires forall k, p :: RunsCtor(s, t, k, p) ==> RunsCtor(s', t, k, p)
    ensures VisitorsInv(s')
  {
    forall p | p in s'.visitor ensures Visits(s', p) {
      assert Visits(s, p);
      var k :| RunsCtor(s, s.visitor[p], k, p);
      assert RunsCtor(s', s'.visitor[p], k, p);
    }
  }

  lemma StartVisitors(s: State, s': State, t: Tid, withFini: set<Dso>)
    requires VisitorsInv(s) && t in s.threads && ThreadOk(s, t) && Start(s, s', t, withFini)
    ensures VisitorsInv(s')
  {
    var n := |s.threads[t].frames| - 1;
    var q := Top(s.threads[t]).queue[Top(s.threads[t]).i];
    hide ThreadOk;
    assert RunsCtor(s', t, n, q);
    forall p | p in s'.visitor ensures Visits(s', p) {
      if p != q {
        assert Visits(s, p);
        var k :| RunsCtor(s, s.visitor[p], k, p);
        assert RunsCtor(s', s'.visitor[p], k, p) by { TopIdle(s, t, k, p); }
      }
    }
  }

  /** A thread in the loop of do_init_fini runs constructors only in the activations below. */
  lemma TopIdle(s: State, t: Tid, k: nat, p: Dso)
    requires t in s.threads && ThreadOk(s, t) && AtLoop(s, t)
    ensures RunsCtor(s, t, k, p) ==> k < |s.threads[t].frames| - 1
  {
  }

  lemma FinishVisitors(s: State, s': State, t: Tid)
    requires VisitorsInv(s) && Finish(s, s', t)
    ensures VisitorsInv(s')
  {
    forall p | p in s'.visitor ensures Visits(s', p) {
      assert Visits(s, p);
      var k :| RunsCtor(s, s.visitor[p], k, p);
      assert RunsCtor(s', s'.visitor[p], k, p);
    }
  }

  /** The activations of th that run a constructor are there in th', at the same depth. */
  ghost predicate KeepsCtors(th: Thread, th': Thread) {
    forall k :: 0 <= k < |th.frames| && th.frames[k].inCtor ==> k < |th'.frames| && th'.frames[k] == th.frames[k]
  }

  lemma LoopKeepsCtors(s: State, s': State, t: Tid)
    requires t in s.threads && ThreadOk(s, t) && (Skip(s, s', t) || Leave(s, s', t))
    ensures t in s'.threads && KeepsCtors(s.threads[t], s'.threads[t])
  {
    var th := s.threads[t];
    assert !Top(th).inCtor;
    hide ThreadOk;
  }

  lemma EnterKeepsCtors(s: State, s': State, t: Tid, queue: seq<Dso>)
    requires Enter(s, s', t, queue)
    ensures t in s'.threads && KeepsCtors(s.threads[t], s'.threads[t])
  {
  }

  lemma CtorsKept(s: State, s': State, t: Tid)
    requires t in s.threads && t in s'.threads && KeepsCtors(s.threads[t], s'.threads[t])
    ensures forall k, p :: RunsCtor(s, t, k, p) ==> RunsCtor(s', t, k, p)
  {
  }

  lemma StepKeepsCtors(s: State, s': State, t: Tid, withFini: set<Dso>)
    requires StepBy(s, s', t, withFini) && t in s.threads && ThreadOk(s, t)
    requires !Start(s, s', t, withFini) && !Finish(s, s', t)
    ensures t in s'.threads && KeepsCtors(s.threads[t], s'.threads[t])
  {
    if queue :| Enter(s, s', t, queue) { EnterKeepsCtors(s, s', t, queue); }
    else if Skip(s, s', t) || Leave(s, s', t) { LoopKeepsCtors(s, s', t); }
    else {
      QuietStep(s, s', t, withFini);
      hide StepBy, ThreadOk;
    }
  }

  lemma OtherVisitors(s: State, s': State, t: Tid, withFini: set<Dso>)
    requires StepBy(s, s', t, withFini) && t in s.threads && ThreadOk(s, t)
    requires !Start(s, s', t, withFini) && !Finish(s, s', t)
    ensures t in s'.threads && s'.threads == s.threads[t := s'.threads[t]]
    ensures forall k, p :: RunsCtor(s, t, k, p) ==> RunsCtor(s', t, k, p)
  {
    hide *;
    StepKeepsCtors(s, s', t, withFini);
    CtorsKept(s, s', t);
    StepMovesOneThread(s, s', t, withFini);
  }

  lemma StepVisitors(s: State, s': State, withFini: set<Dso>)
    requires VisitorsInv(s) && ThreadsInv(s) && Next(s, s', withFini)
    ensures VisitorsInv(s')
  {
    hide StepBy, VisitorsInv, ThreadOk;
    var t :| StepBy(s, s', t, withFini);
    StepMovesOneThread(s, s', t, withFini);
    assert ThreadOk(s, t);
    if Start(s, s', t, withFini) {
      StartVisitors(s, s', t, withFini);
    } else if Finish(s, s', t) {
      FinishVisitors(s, s', t);
    } else {
      hide RunsCtor;
      OtherStepsQuiet(s, s', t, withFini);
      OtherVisitors(s, s', t, withFini);
      QuietVisitors(s, s', t);
    }
  }

  lemma {:induction false} RunVisitors(r: seq<State>, withFini: set<Dso>, i: nat)
    requires IsRun(r, withFini) && i < |r|
    ensures VisitorsInv(r[i])
  {
    if i > 0 {
      RunVisitors(r, withFini, i - 1);
      RunKeeps(r, withFini, i - 1);
      assert Follows(r, i - 1, withFini);
      hide IsRun, Next, VisitorsInv, LockInv, HistoryInv, ExitInv, ThreadsInv;
      StepVisitors(r[i - 1], r[i], withFini);
    }
  }

  /** In any run: the exit walk waits only for a DSO whose constructor another thread is running, */
  lemma ExitWaitsForOthers(r: seq<State>, withFini: set<Dso>, i: nat, t: Tid) returns (u: Tid, k: nat)
    requires IsRun(r, withFini) && i + 1 < |r| && ExitWait(r[i], r[i + 1], t)
    ensures u != t && RunsCtor(r[i], u, k, r[i].fini[r[i].pos])
  {
    RunVisitors(r, withFini, i);
    hide IsRun;
    var p := r[i].fini[r[i].pos];
    assert Visits(r[i], p);
    u := r[i].visitor[p];
    k :| RunsCtor(r[i], u, k, p);
  }

  /** and so does a thread in do_init_fini, as long as the process is not shutting down. */
  lemma WaitsForOthers(r: seq<State>, withFini: set<Dso>, i: nat, t: Tid) returns (u: Tid, k: nat)
    requires IsRun(r, withFini) && i + 1 < |r| && Wait(r[i], r[i + 1], t) && !r[i].shuttingDown
    ensures u != t && RunsCtor(r[i], u, k, CtorOf(Top(r[i].threads[t])))
  {
    RunVisitors(r, withFini, i);
    hide IsRun;
    var p := CtorOf(Top(r[i].threads[t]));
    assert Visits(r[i], p);
    u := r[i].visitor[p];
    k :| RunsCtor(r[i], u, k, p);
  }

  // ----- one activation, from the call of do_init_fini to its return

  /** The activation with n others below it is there from state k to state i. */
  ghost predicate ActiveFrom(r: seq<State>, t: Tid, n: nat, k: nat, i: nat)
    requires i < |r|
  {
    forall j :: k <= j <= i ==> t in r[j].threads && n < |r[j].threads[t].frames|
  }

  /** A step leaves the queue of every activation as it is. */
  lemma StepKeepsQueue(s: State, s': State, u: Tid, withFini: set<Dso>, t: Tid, n: nat)
    requires StepBy(s, s', u, withFini) && t in s.threads && t in s'.threads
    requires n < |s.threads[t].frames| && n < |s'.threads[t].frames|
    ensures s'.threads[t].frames[n].queue == s.threads[t].frames[n].queue
  {
    if t != u { StepMovesOneThread(s, s', u, withFini); }
  }

  /** So the activation works on the queue it was called with. */
  lemma {:induction false} QueueKept(r: seq<State>, withFini: set<Dso>, k: nat, i: nat, t: Tid, queue: seq<Dso>)
    requires IsRun(r, withFini) && k < i < |r| && Enter(r[k], r[k + 1], t, queue)
    requires ActiveFrom(r, t, |r[k].threads[t].frames|, k + 1, i)
    ensures var n := |r[k].threads[t].frames|;
            t in r[i].threads && n < |r[i].threads[t].frames| && r[i].threads[t].frames[n].queue == queue
  {
    hide Next;
    if i > k + 1 {
      QueueKept(r, withFini, k, i - 1, t, queue);
      hide Enter;
      assert Follows(r, i - 1, withFini);
      NextKeepsQueue(r[i - 1], r[i], withFini, t, |r[k].threads[t].frames|);
    }
  }

  lemma NextKeepsQueue(s: State, s': State, withFini: set<Dso>, t: Tid, n: nat)
    requires Next(s, s', withFini) && t in s.threads && t in s'.threads
    requires n < |s.threads[t].frames| && n < |s'.threads[t].frames|
    ensures s'.threads[t].frames[n].queue == s.threads[t].frames[n].queue
  {
    hide StepBy;
    var u :| StepBy(s, s', u, withFini);
    StepKeepsQueue(s, s', u, withFini, t, n);
  }

  /** In any run: an activation called with `queue` starts constructors in the order of that queue. When
      it starts queue[m], every entry before it is constructed, or under construction by this thread. */
  lemma StartsInQueueOrder(r: seq<State>, withFini: set<Dso>, k: nat, i: nat, t: Tid, queue: seq<Dso>) returns (m: nat)
    requires IsRun(r, withFini) && k < i && i + 1 < |r| && Enter(r[k], r[k + 1], t, queue)
    requires ActiveFrom(r, t, |r[k].threads[t].frames|, k + 1, i)
    requires Start(r[i], r[i + 1], t, withFini) && |r[i].threads[t].frames| == |r[k].threads[t].frames| + 1
    ensures m < |queue| && r[i + 1].started == r[i].started + [queue[m]]
    ensures forall j :: 0 <= j < m ==> ReadyFor(r[i], t, queue[j])
  {
    QueueKept(r, withFini, k, i, t, queue);
    RunKeeps(r, withFini, i);
    hide IsRun, Enter, ActiveFrom;
    m := Top(r[i].threads[t]).i;
    TopReady(r[i], t, withFini);
  }

  lemma TopReady(s: State, t: Tid, withFini: set<Dso>)
    requires Inv(s, withFini) && t in s.threads && s.threads[t].frames != []
    ensures var f := Top(s.threads[t]); f.i <= |f.queue| && forall j :: 0 <= j < f.i ==> ReadyFor(s, t, f.queue[j])
  {
    assert ThreadOk(s, t);
    assert FrameOk(s, t, Top(s.threads[t]));
  }

  /** In any run: when an activation called with `queue` returns, every entry of that queue is constructed,
      or under construction by this thread. */
  lemma LeavingFindsQueueReady(r: seq<State>, withFini: set<Dso>, k: nat, i: nat, t: Tid, queue: seq<Dso>)
    requires IsRun(r, withFini) && k < i && i + 1 < |r| && Enter(r[k], r[k + 1], t, queue)
    requires ActiveFrom(r, t, |r[k].threads[t].frames|, k + 1, i)
    requires Leave(r[i], r[i + 1], t) && |r[i].threads[t].frames| == |r[k].threads[t].frames| + 1
    ensures forall p :: p in queue ==> ReadyFor(r[i + 1], t, p)
  {
    QueueKept(r, withFini, k, i, t, queue);
    RunKeeps(r, withFini, i);
    hide IsRun, Enter, ActiveFrom;
    assert ThreadOk(r[i], t);
    LeaveReady(r[i], r[i + 1], t);
  }
}
