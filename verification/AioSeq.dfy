/** Sequencing of asynchronous operations on one file descriptor: the list of active workers,
    newest first, and the waits of appending writes and syncs, as a transition system. The
    steps cut `submit`, `io_thread_func` and `cleanup` at every point where another thread
    can run; sem_post and the linking are separate steps under the queue lock. */
module AioSeq {
  import opened Common

  type Id = nat
  type Tid = nat

  datatype Kind = Read | Write | Sync

  datatype Holder = Free | Worker(id: Id) | Submitter

  datatype Pc =
    | Created      // worker thread exists, has not locked the queue
    | Locked       // holds the lock, semaphore not yet posted
    | Posted       // holds the lock, semaphore posted, not yet in the list
    | Checking     // holds the lock, in the list, looking for older writes
    | Sleeping     // in pthread_cond_wait
    | Woken        // past the wait, wants the lock again
    | Running      // lock released, doing the I/O
    | Ending       // I/O done, wants the lock to clean up
    | Unlinked     // holds the lock, out of the list, waiters woken
    | Done

  datatype Op = Op(kind: Kind, owner: Tid, pc: Pc)

  datatype State = State(
    lock: Holder,
    ops: map<Id, Op>,
    list: seq<Id>,            // q->head first
    append: bool,
    submitted: seq<Id>,       // history: order of pthread_create
    enq: seq<Id>,             // history: order of linking
    started: seq<Id>)         // history: order in which I/O began

  function SetPc(s: State, id: Id, pc: Pc): map<Id, Op>
    requires id in s.ops
  {
    s.ops[id := s.ops[id].(pc := pc)]
  }

  predicate At(s: State, id: Id, pc: Pc) { id in s.ops && s.ops[id].pc == pc }

  /** Operations that wait for older writes: syncs, and writes to an appending descriptor. */
  predicate Sequenced(s: State, id: Id)
    requires id in s.ops
  {
    s.ops[id].kind == Sync || (s.ops[id].kind == Write && s.append)
  }

  predicate IsWrite(s: State, id: Id) { id in s.ops && s.ops[id].kind == Write }

  /** The scan from at.next on finds a write. */
  ghost predicate OlderWrite(s: State, id: Id) {
    exists i, j :: 0 <= i < j < |s.list| && s.list[i] == id && IsWrite(s, s.list[j])
  }

  // ----- steps

  /** submit() returns only after the semaphore of its operation was posted, so a thread
      submits again only then. */
  ghost predicate Submit(s: State, s': State, id: Id, kind: Kind, t: Tid) {
    && id !in s.ops
    && (forall x :: x in s.ops && s.ops[x].owner == t ==> s.ops[x].pc != Created && s.ops[x].pc != Locked)
    && s' == s.(ops := s.ops[id := Op(kind, t, Created)], submitted := s.submitted + [id])
  }

  /** A submitter takes the queue lock for a moment; it does not touch the list. */
  ghost predicate Borrow(s: State, s': State) {
    s.lock == Free && s' == s.(lock := Submitter)
  }

  ghost predicate GiveBack(s: State, s': State) {
    s.lock == Submitter && s' == s.(lock := Free)
  }

  ghost predicate Lock(s: State, s': State, id: Id) {
    At(s, id, Created) && s.lock == Free && s' == s.(lock := Worker(id), ops := SetPc(s, id, Locked))
  }

  ghost predicate Post(s: State, s': State, id: Id) {
    At(s, id, Locked) && s' == s.(ops := SetPc(s, id, Posted))
  }

  ghost predicate Link(s: State, s': State, id: Id) {
    && At(s, id, Posted)
    && s' == s.(list := [id] + s.list, enq := s.enq + [id], ops := SetPc(s, id, Checking))
  }

  ghost predicate Sleep(s: State, s': State, id: Id) {
    && At(s, id, Checking) && Sequenced(s, id) && OlderWrite(s, id)
    && s' == s.(lock := Free, ops := SetPc(s, id, Sleeping))
  }

  ghost predicate StartIo(s: State, s': State, id: Id) {
    && At(s, id, Checking) && !(Sequenced(s, id) && OlderWrite(s, id))
    && s' == s.(lock := Free, ops := SetPc(s, id, Running), started := s.started + [id])
  }

  /** A wait may also end without a broadcast. */
  ghost predicate Spurious(s: State, s': State, id: Id) {
    At(s, id, Sleeping) && s' == s.(ops := SetPc(s, id, Woken))
  }

  ghost predicate Relock(s: State, s': State, id: Id) {
    At(s, id, Woken) && s.lock == Free && s' == s.(lock := Worker(id), ops := SetPc(s, id, Checking))
  }

  ghost predicate EndIo(s: State, s': State, id: Id) {
    At(s, id, Running) && s' == s.(ops := SetPc(s, id, Ending))
  }

  function Remove(l: seq<Id>, id: Id): seq<Id> {
    if l == [] then [] else if l[0] == id then l[1..] else [l[0]] + Remove(l[1..], id)
  }

  function WakeAll(ops: map<Id, Op>): map<Id, Op> {
    map x | x in ops :: if ops[x].pc == Sleeping then ops[x].(pc := Woken) else ops[x]
  }

  /** Lock, unlink, broadcast. */
  ghost predicate Unlink(s: State, s': State, id: Id) {
    && At(s, id, Ending) && s.lock == Free
    && s' == s.(lock := Worker(id), list := Remove(s.list, id), ops := WakeAll(SetPc(s, id, Unlinked)))
  }

  ghost predicate Release(s: State, s': State, id: Id) {
    At(s, id, Unlinked) && s' == s.(lock := Free, ops := SetPc(s, id, Done))
  }

  ghost predicate WorkerStep(s: State, s': State, id: Id) {
    || Lock(s, s', id) || Post(s, s', id) || Link(s, s', id) || Sleep(s, s', id) || StartIo(s, s', id)
    || Relock(s, s', id) || EndIo(s, s', id) || Unlink(s, s', id) || Release(s, s', id)
  }

  ghost predicate Next(s: State, s': State) {
    || (exists id, kind, t :: Submit(s, s', id, kind, t))
    || Borrow(s, s') || GiveBack(s, s')
    || (exists id :: WorkerStep(s, s', id) || Spurious(s, s', id))
  }

  ghost predicate Init(s: State) {
    s.lock == Free && s.ops == map[] && s.list == [] && s.submitted == [] && s.enq == [] && s.started == []
  }

  ghost predicate Follows(r: seq<State>, i: nat)
    requires i + 1 < |r|
  {
    Next(r[i], r[i + 1])
  }

  ghost predicate IsRun(r: seq<State>) {
    |r| > 0 && Init(r[0]) && forall i :: 0 <= i < |r| - 1 ==> Follows(r, i)
  }

  // ----- invariant

  predicate HoldsLock(pc: Pc) { pc == Locked || pc == Posted || pc == Checking || pc == Unlinked }

  predicate InList(pc: Pc) { pc == Checking || pc == Sleeping || pc == Woken || pc == Running || pc == Ending }

  predicate Left(pc: Pc) { pc == Unlinked || pc == Done }

  predicate HasStarted(pc: Pc) { pc == Running || pc == Ending || Left(pc) }

  ghost predicate Before(l: seq<Id>, a: Id, b: Id) {
    exists x, y :: 0 <= x < y < |l| && l[x] == a && l[y] == b
  }

  ghost predicate LockInv(s: State) {
    && (s.lock.Worker? ==> s.lock.id in s.ops)
    && forall id :: id in s.ops ==> (HoldsLock(s.ops[id].pc) <==> s.lock == Worker(id))
  }

  ghost predicate ListInv(s: State) {
    && NoDup(s.list) && NoDup(s.enq) && NoDup(s.submitted)
    && (forall id :: id in s.submitted <==> id in s.ops)
    && (forall id :: id in s.list <==> id in s.ops && InList(s.ops[id].pc))
    && (forall id :: id in s.enq <==> id in s.ops && (InList(s.ops[id].pc) || Left(s.ops[id].pc)))
    && forall i, j :: 0 <= i < j < |s.list| ==> Before(s.enq, s.list[j], s.list[i])
  }

  /** No lost wake-up: a sleeper always has an older write still in the list. */
  ghost predicate SleepInv(s: State) {
    forall id :: At(s, id, Sleeping) ==> OlderWrite(s, id)
  }

  /** When a sequenced operation has begun its I/O, every write linked before it has left. */
  ghost predicate SeqInv(s: State) {
    && (forall id :: id in s.started <==> id in s.ops && HasStarted(s.ops[id].pc))
    && forall a, b :: b in s.started && b in s.ops && Sequenced(s, b) && IsWrite(s, a) && Before(s.enq, a, b)
         ==> Left(s.ops[a].pc)
  }

  /** A thread's next operation exists only after the semaphore of the one before was posted,
      and is linked after it. */
  ghost predicate OrderInv(s: State) {
    forall a, b :: Before(s.submitted, a, b) && a in s.ops && b in s.ops && s.ops[a].owner == s.ops[b].owner ==>
      && s.ops[a].pc != Created && s.ops[a].pc != Locked
      && (b in s.enq ==> Before(s.enq, a, b))
  }

  ghost predicate Inv(s: State) {
    LockInv(s) && ListInv(s) && SleepInv(s) && SeqInv(s) && OrderInv(s)
  }

  // ----- every step keeps it

  /** A step that moves only the pc of one operation and possibly the lock. */
  ghost predicate PcMove(s: State, s': State, id: Id) {
    && id in s.ops && id in s'.ops && s'.ops == SetPc(s, id, s'.ops[id].pc)
    && s'.list == s.list && s'.enq == s.enq && s'.submitted == s.submitted && s'.append == s.append
  }

  ghost predicate SameClass(p: Pc, q: Pc) {
    (InList(p) <==> InList(q)) && (Left(p) <==> Left(q))
  }

  lemma BeforeAppend(l: seq<Id>, x: Id, a: Id, b: Id)
    requires x !in l
    ensures b != x ==> (Before(l + [x], a, b) <==> Before(l, a, b))
    ensures Before(l + [x], a, x) <==> a in l
  {
    var m := l + [x];
    assert forall k :: 0 <= k < |l| ==> m[k] == l[k];
    if Before(l, a, b) {
      var u, v :| 0 <= u < v < |l| && l[u] == a && l[v] == b;
      assert m[u] == a && m[v] == b;
    }
    if a in l {
      var u :| 0 <= u < |l| && l[u] == a;
      assert m[u] == a && m[|l|] == x;
    }
  }

  lemma SameIndex(l: seq<Id>, i: nat, j: nat)
    requires NoDup(l) && i < |l| && j < |l| && l[i] == l[j]
    ensures i == j
  {
  }

  lemma BeforeOrder(l: seq<Id>, a: Id, b: Id)
    requires NoDup(l) && Before(l, a, b)
    ensures a in l && b in l && a != b && !Before(l, b, a)
  {
    hide NoDup;
    var u, v :| 0 <= u < v < |l| && l[u] == a && l[v] == b;
    if a == b {
      SameIndex(l, u, v);
      assert false;
    }
    if Before(l, b, a) {
      var x, y :| 0 <= x < y < |l| && l[x] == b && l[y] == a;
      SameIndex(l, x, v);
      SameIndex(l, y, u);
      assert false;
    }
  }

  /** The list order is the reverse of the order of linking. */
  lemma OlderInList(s: State, a: Id, b: Id)
    requires ListInv(s) && a in s.list && b in s.list && Before(s.enq, a, b)
    ensures exists i, j :: 0 <= i < j < |s.list| && s.list[i] == b && s.list[j] == a
  {
    BeforeOrder(s.enq, a, b);
    hide ListInv, Before;
    var i: nat :| i < |s.list| && s.list[i] == b;
    var j: nat :| j < |s.list| && s.list[j] == a;
    if j < i {
      EnqOrder(s, j, i);
      assert false;
    }
  }

  lemma EnqOrder(s: State, i: nat, j: nat)
    requires ListInv(s) && i < j < |s.list|
    ensures Before(s.enq, s.list[j], s.list[i])
  {
  }

  lemma MoveList(s: State, s': State, id: Id)
    requires ListInv(s) && PcMove(s, s', id) && SameClass(s.ops[id].pc, s'.ops[id].pc)
    ensures ListInv(s')
  {
  }

  lemma LinkList(s: State, s': State, id: Id)
    requires ListInv(s) && Link(s, s', id)
    ensures ListInv(s')
  {
    hide NoDup, Before;
    assert id !in s.list && id !in s.enq && s'.list == [id] + s.list && s'.enq == s.enq + [id];
    LinkNewest(s, s', id);
    assert forall x :: x in s'.list <==> x == id || x in s.list;
    assert forall x :: x in s'.enq <==> x == id || x in s.enq;
    ConsNoDup(id, s.list);
    SnocNoDup(s.enq, id);
  }

  lemma ConsNoDup(x: Id, l: seq<Id>)
    requires NoDup(l) && x !in l
    ensures NoDup([x] + l)
  {
  }

  lemma SnocNoDup(l: seq<Id>, x: Id)
    requires NoDup(l) && x !in l
    ensures NoDup(l + [x])
  {
  }

  lemma LinkNewest(s: State, s': State, id: Id)
    requires ListInv(s) && id !in s.list && id !in s.enq && s'.list == [id] + s.list && s'.enq == s.enq + [id]
    ensures forall i, j :: 0 <= i < j < |s'.list| ==> Before(s'.enq, s'.list[j], s'.list[i])
  {
    assert forall x :: x in s.list ==> x in s.enq;
    hide ListInv, NoDup, Before;
    forall i, j | 0 <= i < j < |s'.list| ensures Before(s'.enq, s'.list[j], s'.list[i]) {
      BeforeAppend(s.enq, id, s'.list[j], s'.list[i]);
      assert s'.list[j] == s.list[j - 1];
      if i > 0 {
        assert s'.list[i] == s.list[i - 1];
        EnqOrder(s, i - 1, j - 1);
      }
    }
  }

  lemma {:induction false} RemoveFacts(l: seq<Id>, id: Id)
    requires NoDup(l)
    ensures NoDup(Remove(l, id)) && forall x :: x in Remove(l, id) <==> x in l && x != id
    ensures forall i, j :: 0 <= i < j < |Remove(l, id)| ==> Before(l, Remove(l, id)[i], Remove(l, id)[j])
  {
    if l != [] {
      var r, t := Remove(l, id), l[1..];
      assert forall k :: 0 <= k < |t| ==> t[k] == l[k + 1];
      RemoveFacts(t, id);
      assert forall x :: x in l <==> x == l[0] || x in t;
      if l[0] == id {
        assert id !in t;
        forall i, j | 0 <= i < j < |r| ensures Before(l, r[i], r[j]) { assert l[i + 1] == r[i] && l[j + 1] == r[j]; }
      } else {
        var q := Remove(t, id);
        assert forall k :: 1 <= k < |r| ==> r[k] == q[k - 1];
        assert l[0] !in q;
        forall i, j | 0 <= i < j < |r| ensures Before(l, r[i], r[j]) && r[i] != r[j] {
          RemoveBefore(l, q, r, i, j);
        }
      }
    }
  }

  lemma RemoveBefore(l: seq<Id>, q: seq<Id>, r: seq<Id>, i: nat, j: nat)
    requires l != [] && i < j < |r| && r == [l[0]] + q && l[0] !in q && NoDup(q)
    requires forall x :: x in q ==> x in l[1..]
    requires forall u, v :: 0 <= u < v < |q| ==> Before(l[1..], q[u], q[v])
    ensures Before(l, r[i], r[j]) && r[i] != r[j]
  {
    assert r[j] == q[j - 1] && q[j - 1] in q;
    if i == 0 {
      var y :| 0 <= y < |l[1..]| && l[1..][y] == q[j - 1];
      assert l[0] == r[i] && l[y + 1] == r[j];
    } else {
      assert r[i] == q[i - 1] && Before(l[1..], q[i - 1], q[j - 1]);
      var x, y :| 0 <= x < y < |l[1..]| && l[1..][x] == q[i - 1] && l[1..][y] == q[j - 1];
      assert l[x + 1] == r[i] && l[y + 1] == r[j];
    }
  }

  /** Unlinking moves one operation out and touches the others' wait state only. */
  lemma UnlinkOps(s: State, s': State, id: Id)
    requires Unlink(s, s', id)
    ensures s'.ops.Keys == s.ops.Keys && s'.ops[id].pc == Unlinked
    ensures forall x :: x in s.ops ==> s'.ops[x].kind == s.ops[x].kind && s'.ops[x].owner == s.ops[x].owner
    ensures forall x :: x in s.ops && x != id ==>
              s'.ops[x].pc == if s.ops[x].pc == Sleeping then Woken else s.ops[x].pc
  {
  }

  lemma UnlinkMembers(s: State, s': State, id: Id)
    requires ListInv(s) && Unlink(s, s', id)
    ensures (forall x :: x in s'.submitted <==> x in s'.ops)
    ensures forall x :: x in s'.list <==> x in s'.ops && InList(s'.ops[x].pc)
    ensures forall x :: x in s'.enq <==> x in s'.ops && (InList(s'.ops[x].pc) || Left(s'.ops[x].pc))
  {
    UnlinkOps(s, s', id);
    RemoveFacts(s.list, id);
    hide Remove, NoDup, WakeAll, Before;
  }

  lemma UnlinkList(s: State, s': State, id: Id)
    requires ListInv(s) && Unlink(s, s', id)
    ensures ListInv(s')
  {
    UnlinkMembers(s, s', id);
    RemoveFacts(s.list, id);
    hide Remove, NoDup, WakeAll;
    forall i, j | 0 <= i < j < |s'.list| ensures Before(s'.enq, s'.list[j], s'.list[i]) {
      assert Before(s.list, s'.list[i], s'.list[j]);
      var x, y :| 0 <= x < y < |s.list| && s.list[x] == s'.list[i] && s.list[y] == s'.list[j];
      EnqOrder(s, x, y);
    }
    hide Before;
  }

  lemma SubmitList(s: State, s': State, id: Id, kind: Kind, t: Tid)
    requires ListInv(s) && Submit(s, s', id, kind, t)
    ensures ListInv(s')
  {
    assert id !in s.submitted;
    assert forall x :: x in s'.submitted <==> x == id || x in s.submitted;
  }

  lemma MoveSleep(s: State, s': State, id: Id)
    requires SleepInv(s) && PcMove(s, s', id) && (s'.ops[id].pc == Sleeping ==> OlderWrite(s, id))
    ensures SleepInv(s')
  {
    forall x | At(s', x, Sleeping) ensures OlderWrite(s', x) {
      assert OlderWrite(s, x);
      var i, j :| 0 <= i < j < |s.list| && s.list[i] == x && IsWrite(s, s.list[j]);
      assert IsWrite(s', s'.list[j]);
    }
  }

  lemma LinkSleep(s: State, s': State, id: Id)
    requires SleepInv(s) && Link(s, s', id)
    ensures SleepInv(s')
  {
    forall x | At(s', x, Sleeping) ensures OlderWrite(s', x) {
      assert At(s, x, Sleeping);
      var i, j :| 0 <= i < j < |s.list| && s.list[i] == x && IsWrite(s, s.list[j]);
      assert s'.list[i + 1] == x && IsWrite(s', s'.list[j + 1]);
    }
  }

  lemma SubmitSleep(s: State, s': State, id: Id, kind: Kind, t: Tid)
    requires SleepInv(s) && Submit(s, s', id, kind, t)
    ensures SleepInv(s')
  {
    forall x | At(s', x, Sleeping) ensures OlderWrite(s', x) {
      assert At(s, x, Sleeping);
      var i, j :| 0 <= i < j < |s.list| && s.list[i] == x && IsWrite(s, s.list[j]);
      assert s'.list[i] == x && IsWrite(s', s'.list[j]);
    }
  }

  lemma MoveSeq(s: State, s': State, id: Id)
    requires SeqInv(s) && PcMove(s, s', id) && s'.started == s.started
    requires (HasStarted(s.ops[id].pc) <==> HasStarted(s'.ops[id].pc)) && (Left(s.ops[id].pc) ==> Left(s'.ops[id].pc))
    ensures SeqInv(s')
  {
  }

  /** What the scan under the lock establishes when it finds no older write. */
  lemma StartSeq(s: State, s': State, id: Id)
    requires ListInv(s) && SeqInv(s) && StartIo(s, s', id)
    ensures SeqInv(s')
  {
    forall a, b | b in s'.started && b in s'.ops && Sequenced(s', b) && IsWrite(s', a) && Before(s'.enq, a, b)
      ensures Left(s'.ops[a].pc)
    {
      if b == id {
        BeforeOrder(s.enq, a, id);
        if a in s.list {
          OlderInList(s, a, id);
          assert false;
        }
      } else {
        assert b in s.started && a != id by { if a == id { BeforeOrder(s.enq, a, b); } }
      }
    }
  }

  lemma LinkSeq(s: State, s': State, id: Id)
    requires ListInv(s) && SeqInv(s) && Link(s, s', id)
    ensures SeqInv(s')
  {
    assert id !in s.enq && id !in s.started;
    forall a, b | b in s'.started && b in s'.ops && Sequenced(s', b) && IsWrite(s', a) && Before(s'.enq, a, b)
      ensures Left(s'.ops[a].pc)
    {
      BeforeAppend(s.enq, id, a, b);
      BeforeOrder(s.enq, a, b);
    }
  }

  lemma UnlinkSeq(s: State, s': State, id: Id)
    requires SeqInv(s) && Unlink(s, s', id)
    ensures SeqInv(s')
  {
    UnlinkOps(s, s', id);
    hide Remove, WakeAll, Before;
  }

  lemma SubmitSeq(s: State, s': State, id: Id, kind: Kind, t: Tid)
    requires ListInv(s) && SeqInv(s) && Submit(s, s', id, kind, t)
    ensures SeqInv(s')
  {
    forall a, b | b in s'.started && b in s'.ops && Sequenced(s', b) && IsWrite(s', a) && Before(s'.enq, a, b)
      ensures Left(s'.ops[a].pc)
    {
      BeforeOrder(s.enq, a, b);
    }
  }

  lemma MoveOrder(s: State, s': State, id: Id)
    requires OrderInv(s) && PcMove(s, s', id)
    requires s'.ops[id].pc == Locked ==> s.ops[id].pc == Created
    requires s'.ops[id].pc != Created
    ensures OrderInv(s')
  {
  }

  lemma LinkOrder(s: State, s': State, id: Id)
    requires LockInv(s) && ListInv(s) && OrderInv(s) && Link(s, s', id)
    ensures OrderInv(s')
  {
    forall a, b | Before(s'.submitted, a, b) && a in s'.ops && b in s'.ops && s'.ops[a].owner == s'.ops[b].owner
      ensures s'.ops[a].pc != Created && s'.ops[a].pc != Locked && (b in s'.enq ==> Before(s'.enq, a, b))
    {
      BeforeOrder(s.submitted, a, b);
      BeforeAppend(s.enq, id, a, b);
      assert s.ops[a].pc == Posted ==> s.lock == Worker(a);
      assert s.lock == Worker(id);
    }
  }

  lemma SubmitOrder(s: State, s': State, id: Id, kind: Kind, t: Tid)
    requires ListInv(s) && OrderInv(s) && Submit(s, s', id, kind, t)
    ensures OrderInv(s')
  {
    assert id !in s.submitted && id !in s.enq;
    forall a, b | Before(s'.submitted, a, b) && a in s'.ops && b in s'.ops && s'.ops[a].owner == s'.ops[b].owner
      ensures s'.ops[a].pc != Created && s'.ops[a].pc != Locked && (b in s'.enq ==> Before(s'.enq, a, b))
    {
      BeforeAppend(s.submitted, id, a, b);
      if b != id { BeforeOrder(s.submitted, a, b); }
    }
  }

  lemma UnlinkOrder(s: State, s': State, id: Id)
    requires OrderInv(s) && Unlink(s, s', id)
    ensures OrderInv(s')
  {
    UnlinkOps(s, s', id);
    hide Remove, WakeAll, Before;
  }

  lemma UnlinkLock(s: State, s': State, id: Id)
    requires LockInv(s) && Unlink(s, s', id)
    ensures LockInv(s')
  {
    UnlinkOps(s, s', id);
    hide Remove, WakeAll;
  }

  lemma MoveLock(s: State, s': State, id: Id)
    requires LockInv(s) && (WorkerStep(s, s', id) || Spurious(s, s', id)) && !Unlink(s, s', id)
    ensures LockInv(s')
  {
    hide OlderWrite;
  }

  lemma LockKept(s: State, s': State)
    requires LockInv(s) && Next(s, s')
    ensures LockInv(s')
  {
    if id :| WorkerStep(s, s', id) || Spurious(s, s', id) {
      hide WorkerStep, Spurious;
      if Unlink(s, s', id) { UnlinkLock(s, s', id); } else { MoveLock(s, s', id); }
    }
  }

  lemma SubmitKept(s: State, s': State, id: Id, kind: Kind, t: Tid)
    requires Inv(s) && Submit(s, s', id, kind, t)
    ensures ListInv(s') && SleepInv(s') && SeqInv(s') && OrderInv(s')
  {
    SubmitList(s, s', id, kind, t);
    SubmitSleep(s, s', id, kind, t);
    SubmitSeq(s, s', id, kind, t);
    SubmitOrder(s, s', id, kind, t);
  }

  /** Steps of a worker other than linking and unlinking. */
  ghost predicate Moves(s: State, s': State, id: Id) {
    (WorkerStep(s, s', id) || Spurious(s, s', id)) && !Link(s, s', id) && !Unlink(s, s', id)
  }

  lemma MoveShape(s: State, s': State, id: Id)
    requires Moves(s, s', id)
    ensures PcMove(s, s', id) && SameClass(s.ops[id].pc, s'.ops[id].pc)
    ensures s'.ops[id].pc != Created && (s'.ops[id].pc == Locked ==> s.ops[id].pc == Created)
    ensures !StartIo(s, s', id) ==>
              && s'.started == s.started && (HasStarted(s.ops[id].pc) <==> HasStarted(s'.ops[id].pc))
              && (Left(s.ops[id].pc) ==> Left(s'.ops[id].pc))
    ensures s'.ops[id].pc == Sleeping ==> OlderWrite(s, id)
  {
    hide OlderWrite;
  }

  lemma MoveKept(s: State, s': State, id: Id)
    requires Inv(s) && Moves(s, s', id)
    ensures ListInv(s') && SleepInv(s') && SeqInv(s') && OrderInv(s')
  {
    MoveShape(s, s', id);
    hide Moves, LockInv, ListInv, SleepInv, SeqInv, OrderInv, PcMove, StartIo;
    MoveList(s, s', id);
    MoveSleep(s, s', id);
    MoveOrder(s, s', id);
    if StartIo(s, s', id) { StartSeq(s, s', id); } else { MoveSeq(s, s', id); }
  }

  lemma StepKeeps(s: State, s': State)
    requires Inv(s) && Next(s, s')
    ensures Inv(s')
  {
    LockKept(s, s');
    hide LockInv, ListInv, SleepInv, SeqInv, OrderInv;
    if id, kind, t :| Submit(s, s', id, kind, t) {
      SubmitKept(s, s', id, kind, t);
    } else if id :| WorkerStep(s, s', id) || Spurious(s, s', id) {
      if Link(s, s', id) {
        LinkList(s, s', id);
        LinkSleep(s, s', id);
        LinkSeq(s, s', id);
        LinkOrder(s, s', id);
      } else if Unlink(s, s', id) {
        UnlinkList(s, s', id);
        UnlinkSleep(s, s', id);
        UnlinkSeq(s, s', id);
        UnlinkOrder(s, s', id);
      } else {
        MoveKept(s, s', id);
      }
    } else {
      BorrowKept(s, s');
    }
  }

  lemma UnlinkSleep(s: State, s': State, id: Id)
    requires Unlink(s, s', id)
    ensures SleepInv(s')
  {
  }

  lemma BorrowKept(s: State, s': State)
    requires Inv(s) && (Borrow(s, s') || GiveBack(s, s'))
    ensures ListInv(s') && SleepInv(s') && SeqInv(s') && OrderInv(s')
  {
    BorrowSleep(s, s');
    hide NoDup, Before, OlderWrite, LockInv;
  }

  lemma BorrowSleep(s: State, s': State)
    requires SleepInv(s) && s' == s.(lock := s'.lock)
    ensures SleepInv(s')
  {
    forall id | At(s', id, Sleeping) ensures OlderWrite(s', id) {
      assert At(s, id, Sleeping);
      var i, j :| 0 <= i < j < |s.list| && s.list[i] == id && IsWrite(s, s.list[j]);
      assert IsWrite(s', s'.list[j]);
    }
  }

  lemma {:induction false} RunKeeps(r: seq<State>, i: nat)
    requires IsRun(r) && i < |r|
    ensures Inv(r[i])
  {
    if i > 0 {
      RunKeeps(r, i - 1);
      assert Follows(r, i - 1);
      StepKeeps(r[i - 1], r[i]);
    }
  }

  // ----- what every interleaving guarantees

  /** An fsync, or a write to an appending descriptor, has begun only if every write linked
      before it has left the list. */
  lemma SequencedAfterOlderWrites(r: seq<State>, i: nat, a: Id, b: Id)
    requires IsRun(r) && i < |r| && b in r[i].started && b in r[i].ops && Before(r[i].enq, a, b)
    requires r[i].ops[b].kind == Sync || (r[i].ops[b].kind == Write && r[i].append)
    requires a in r[i].ops && r[i].ops[a].kind == Write
    ensures Left(r[i].ops[a].pc) && a !in r[i].list
  {
    RunKeeps(r, i);
  }

  // ----- who never waits

  /** Only a sync, or a write to an appending descriptor, is ever in the wait or past one. */
  ghost predicate WaitersInv(s: State) {
    forall x :: x in s.ops && (s.ops[x].pc == Sleeping || s.ops[x].pc == Woken) ==>
      s.ops[x].kind == Sync || (s.ops[x].kind == Write && s.append)
  }

  /** What a step makes of operation x: the same kind and owner, and in the wait only if it has to. */
  ghost predicate Develops(s: State, s': State, x: Id) {
    && x in s.ops && x in s'.ops && s'.ops[x].kind == s.ops[x].kind && s'.ops[x].owner == s.ops[x].owner
    && (s'.ops[x].pc == Sleeping || s'.ops[x].pc == Woken ==>
          || s.ops[x].pc == Sleeping || s.ops[x].pc == Woken
          || s.ops[x].kind == Sync || (s.ops[x].kind == Write && s.append))
  }

  lemma WorkerDevelops(s: State, s': State, id: Id, x: Id)
    requires (WorkerStep(s, s', id) || Spurious(s, s', id)) && !Unlink(s, s', id) && x in s.ops
    ensures Develops(s, s', x) && s'.append == s.append && s'.ops.Keys == s.ops.Keys
  {
    hide OlderWrite;
  }

  lemma UnlinkDevelops(s: State, s': State, id: Id, x: Id)
    requires Unlink(s, s', id) && x in s.ops
    ensures Develops(s, s', x) && s'.append == s.append && s'.ops.Keys == s.ops.Keys
  {
    hide Remove;
  }

  lemma StepDevelops(s: State, s': State, x: Id)
    requires Next(s, s') && x in s.ops
    ensures Develops(s, s', x) && s'.append == s.append
  {
    hide WorkerStep, Spurious, Unlink;
    if id :| WorkerStep(s, s', id) || Spurious(s, s', id) {
      hide Develops;
      if Unlink(s, s', id) { UnlinkDevelops(s, s', id, x); } else { WorkerDevelops(s, s', id, x); }
    }
  }

  /** A step adds at most one operation, which is not in the wait. */
  lemma StepAdds(s: State, s': State, x: Id)
    requires Next(s, s') && x !in s.ops && x in s'.ops
    ensures s'.ops[x].pc == Created
  {
    hide WorkerStep, Spurious, Unlink;
    if id :| WorkerStep(s, s', id) || Spurious(s, s', id) {
      WorkerAddsNone(s, s', id);
      assert false;
    }
  }

  lemma WorkerAddsNone(s: State, s': State, id: Id)
    requires WorkerStep(s, s', id) || Spurious(s, s', id)
    ensures s'.ops.Keys == s.ops.Keys
  {
    hide OlderWrite, Remove;
  }

  lemma StepWaiters(s: State, s': State)
    requires WaitersInv(s) && Next(s, s')
    ensures WaitersInv(s')
  {
    hide Next;
    forall x | x in s'.ops && (s'.ops[x].pc == Sleeping || s'.ops[x].pc == Woken)
      ensures s'.ops[x].kind == Sync || (s'.ops[x].kind == Write && s'.append)
    {
      if x in s.ops { StepDevelops(s, s', x); } else { StepAdds(s, s', x); }
    }
  }

  lemma {:induction false} RunWaiters(r: seq<State>, i: nat)
    requires IsRun(r) && i < |r|
    ensures WaitersInv(r[i])
  {
    hide Next, WaitersInv;
    if i > 0 {
      RunWaiters(r, i - 1);
      assert Follows(r, i - 1);
      StepWaiters(r[i - 1], r[i]);
    } else {
      assert WaitersInv(r[0]) by { NobodyWaits(r[0]); }
    }
  }

  lemma NobodyWaits(s: State)
    requires Init(s)
    ensures WaitersInv(s)
  {
  }

  /** A read never waits, and neither does a write where the descriptor does not append. */
  lemma OthersNeverWait(r: seq<State>, i: nat, x: Id)
    requires IsRun(r) && i < |r| && x in r[i].ops
    requires r[i].ops[x].kind == Read || (r[i].ops[x].kind == Write && !r[i].append)
    ensures r[i].ops[x].pc != Sleeping && r[i].ops[x].pc != Woken
  {
    hide IsRun;
    RunWaiters(r, i);
  }

  /** Appending writes run one at a time and in the order of linking. */
  lemma AppendsOneAtATime(r: seq<State>, i: nat, a: Id, b: Id)
    requires IsRun(r) && i < |r| && r[i].append && a in r[i].ops && b in r[i].ops && a != b
    requires r[i].ops[a].kind == Write && r[i].ops[b].kind == Write
    requires b in r[i].started && a in r[i].enq && b in r[i].enq
    ensures !(At(r[i], a, Running) && At(r[i], b, Running))
    ensures a !in r[i].started ==> Before(r[i].enq, b, a)
  {
    RunKeeps(r, i);
    InOrder(r[i].enq, a, b);
  }

  lemma InOrder(l: seq<Id>, a: Id, b: Id)
    requires a in l && b in l && a != b
    ensures Before(l, a, b) || Before(l, b, a)
  {
    var x :| 0 <= x < |l| && l[x] == a;
    var y :| 0 <= y < |l| && l[y] == b;
  }

  /** Operations one thread submits are linked in the order of its calls. */
  lemma ProgramOrderKept(r: seq<State>, i: nat, a: Id, b: Id)
    requires IsRun(r) && i < |r| && Before(r[i].submitted, a, b) && a in r[i].ops && b in r[i].enq && b in r[i].ops
    requires r[i].ops[a].owner == r[i].ops[b].owner
    ensures Before(r[i].enq, a, b)
  {
    RunKeeps(r, i);
  }

  /** The worker of a has posted the semaphore: submit() may have returned. */
  predicate Handed(s: State, a: Id) { a in s.ops && s.ops[a].pc != Created && s.ops[a].pc != Locked }

  /** If b is linked at all, then after a. */
  ghost predicate Ahead(s: State, a: Id, b: Id) { Handed(s, a) && (b in s.enq ==> Before(s.enq, a, b)) }

  lemma LinkAhead(s: State, s': State, id: Id, a: Id, b: Id)
    requires LockInv(s) && ListInv(s) && Link(s, s', id) && Ahead(s, a, b) && a != b
    ensures Ahead(s', a, b)
  {
    assert id !in s.enq;
    BeforeAppend(s.enq, id, a, b);
    assert s.lock == Worker(id);
    assert s.ops[a].pc == Posted ==> s.lock == Worker(a);
    hide Before, NoDup;
  }

  lemma UnlinkAhead(s: State, s': State, id: Id, a: Id, b: Id)
    requires Unlink(s, s', id) && Ahead(s, a, b)
    ensures Ahead(s', a, b)
  {
    UnlinkOps(s, s', id);
    hide Before, Remove, WakeAll;
  }

  lemma MoveAhead(s: State, s': State, id: Id, a: Id, b: Id)
    requires PcMove(s, s', id) && Ahead(s, a, b)
    requires s'.ops[id].pc != Created && (s'.ops[id].pc == Locked ==> s.ops[id].pc == Created)
    ensures Ahead(s', a, b)
  {
    hide Before;
  }

  lemma StepAhead(s: State, s': State, a: Id, b: Id)
    requires Inv(s) && Next(s, s') && Ahead(s, a, b) && a != b
    ensures Ahead(s', a, b)
  {
    hide LockInv, ListInv, SleepInv, SeqInv, OrderInv, WorkerStep, Link, Unlink, Spurious, PcMove, SameClass;
    if id :| WorkerStep(s, s', id) || Spurious(s, s', id) {
      if Link(s, s', id) {
        LinkAhead(s, s', id, a, b);
      } else if Unlink(s, s', id) {
        UnlinkAhead(s, s', id, a, b);
      } else {
        MoveShape(s, s', id);
        hide Ahead;
        MoveAhead(s, s', id, a, b);
      }
    } else {
      hide Before;
    }
  }

  lemma NotYetLinked(s: State, a: Id, b: Id)
    requires Inv(s) && Handed(s, a) && b !in s.ops
    ensures Ahead(s, a, b)
  {
    assert ListInv(s);
    hide Inv, LockInv, SleepInv, SeqInv, OrderInv, NoDup, Before;
    assert b !in s.enq;
  }

  /** Whoever calls submit after another submit has returned is linked after it, whichever threads
      they are: the worker posts while it holds the lock and links before it gives the lock up. */
  lemma {:induction false} SubmissionOrderKept(r: seq<State>, k: nat, i: nat, a: Id, b: Id)
    requires IsRun(r) && k <= i < |r| && Handed(r[k], a) && b !in r[k].ops
    ensures Ahead(r[i], a, b)
  {
    assert a != b;
    hide Inv, Init, Next, Ahead, Handed;
    if i == k {
      RunKeeps(r, k);
      NotYetLinked(r[k], a, b);
    } else {
      SubmissionOrderKept(r, k, i - 1, a, b);
      RunKeeps(r, i - 1);
      assert Follows(r, i - 1);
      StepAhead(r[i - 1], r[i], a, b);
    }
  }

  /** An fsync or an appending write has begun only when every write whose submit returned before
      its own call has left the list. */
  lemma SequencedAfterSubmittedWrites(r: seq<State>, k: nat, i: nat, a: Id, b: Id)
    requires IsRun(r) && k <= i < |r| && Handed(r[k], a) && b !in r[k].ops
    requires b in r[i].started && b in r[i].ops && a in r[i].ops && r[i].ops[a].kind == Write
    requires r[i].ops[b].kind == Sync || (r[i].ops[b].kind == Write && r[i].append)
    ensures Left(r[i].ops[a].pc) && a !in r[i].list
  {
    SubmissionOrderKept(r, k, i, a, b);
    RunKeeps(r, i);
    hide IsRun, Before;
  }

  // ----- in terms of the calls

  /** An operation stays what it was submitted as. */
  lemma StepKeepsKind(s: State, s': State, x: Id)
    requires Next(s, s') && x in s.ops
    ensures x in s'.ops && s'.ops[x].kind == s.ops[x].kind && s'.ops[x].owner == s.ops[x].owner && s'.append == s.append
  {
    hide Next;
    StepDevelops(s, s', x);
  }

  lemma {:induction false} KindKept(r: seq<State>, k: nat, i: nat, x: Id, kind: Kind, t: Tid)
    requires IsRun(r) && k < i < |r| && Submit(r[k], r[k + 1], x, kind, t)
    ensures x in r[i].ops && r[i].ops[x].kind == kind && r[i].ops[x].owner == t
  {
    hide Next, Init;
    if i > k + 1 {
      KindKept(r, k, i - 1, x, kind, t);
      hide Submit;
      assert Follows(r, i - 1);
      StepKeepsKind(r[i - 1], r[i], x);
    }
  }

  /** Call a: submit(write) by any thread, returned at the latest in state k. Call b: submit(fsync) by
      any thread, made in state k. When the I/O of b has begun, a has left the list. */
  lemma FsyncCoversSubmittedWrites(r: seq<State>, j: nat, k: nat, i: nat, a: Id, ta: Tid, b: Id, tb: Tid)
    requires IsRun(r) && j < k < i < |r| && Submit(r[j], r[j + 1], a, Write, ta) && Handed(r[k], a)
    requires Submit(r[k], r[k + 1], b, Sync, tb) && b in r[i].started
    ensures a in r[i].ops && Left(r[i].ops[a].pc) && a !in r[i].list
  {
    KindKept(r, j, i, a, Write, ta);
    KindKept(r, k, i, b, Sync, tb);
    hide IsRun, Submit, Handed;
    SequencedAfterSubmittedWrites(r, k, i, a, b);
  }

  /** The same for two writes to an appending descriptor; and they start in the order of the calls. */
  lemma AppendsCoverSubmittedWrites(r: seq<State>, j: nat, k: nat, i: nat, a: Id, ta: Tid, b: Id, tb: Tid)
    requires IsRun(r) && j < k < i < |r| && Submit(r[j], r[j + 1], a, Write, ta) && Handed(r[k], a)
    requires Submit(r[k], r[k + 1], b, Write, tb) && b in r[i].started && r[i].append
    ensures a in r[i].ops && Left(r[i].ops[a].pc) && a !in r[i].list && Before(r[i].started, a, b)
  {
    KindKept(r, j, i, a, Write, ta);
    KindKept(r, k, i, b, Write, tb);
    hide IsRun, Submit, Handed, Before;
    SequencedAfterSubmittedWrites(r, k, i, a, b);
    AppendsInSubmissionOrder(r, k, i, a, b);
  }

  /** b, if it waits for a at all, has started after it. */
  ghost predicate InTurn(s: State, a: Id, b: Id) {
    && b in s.started && b in s.ops && (s.ops[b].kind == Sync || (s.ops[b].kind == Write && s.append))
    && a in s.ops && s.ops[a].kind == Write && Before(s.enq, a, b)
    ==> Before(s.started, a, b)
  }

  lemma StartInTurn(s: State, s': State, id: Id, a: Id, b: Id)
    requires ListInv(s) && SeqInv(s) && SeqInv(s') && StartIo(s, s', id) && InTurn(s, a, b)
    ensures InTurn(s', a, b)
  {
    assert id !in s.started;
    BeforeAppend(s.started, id, a, b);
    if b == id && Before(s.enq, a, b) { BeforeOrder(s.enq, a, b); }
    hide Before, OlderWrite, NoDup;
  }

  lemma LinkInTurn(s: State, s': State, id: Id, a: Id, b: Id)
    requires ListInv(s) && SeqInv(s) && Link(s, s', id) && InTurn(s, a, b)
    ensures InTurn(s', a, b)
  {
    assert id !in s.enq && id !in s.started;
    BeforeAppend(s.enq, id, a, b);
    hide Before, NoDup;
  }

  lemma UnlinkInTurn(s: State, s': State, id: Id, a: Id, b: Id)
    requires Unlink(s, s', id) && InTurn(s, a, b)
    ensures InTurn(s', a, b)
  {
    UnlinkOps(s, s', id);
    hide Before, Remove, WakeAll;
  }

  lemma SubmitInTurn(s: State, s': State, id: Id, kind: Kind, t: Tid, a: Id, b: Id)
    requires ListInv(s) && SeqInv(s) && Submit(s, s', id, kind, t) && InTurn(s, a, b)
    ensures InTurn(s', a, b)
  {
    assert id !in s.enq && id !in s.started;
    if Before(s.enq, a, b) { BeforeOrder(s.enq, a, b); }
    hide Before, NoDup;
  }

  lemma MoveInTurn(s: State, s': State, id: Id, a: Id, b: Id)
    requires PcMove(s, s', id) && InTurn(s, a, b) && s'.started == s.started
    ensures InTurn(s', a, b)
  {
    hide Before;
  }

  lemma StepInTurn(s: State, s': State, a: Id, b: Id)
    requires Inv(s) && SeqInv(s') && Next(s, s') && InTurn(s, a, b)
    ensures InTurn(s', a, b)
  {
    hide LockInv, ListInv, SleepInv, SeqInv, OrderInv, WorkerStep, Submit, StartIo, Link, Unlink, Spurious, PcMove, SameClass;
    if id, kind, t :| Submit(s, s', id, kind, t) {
      SubmitInTurn(s, s', id, kind, t, a, b);
    } else if id :| WorkerStep(s, s', id) || Spurious(s, s', id) {
      hide InTurn;
      if Link(s, s', id) {
        LinkInTurn(s, s', id, a, b);
      } else if Unlink(s, s', id) {
        UnlinkInTurn(s, s', id, a, b);
      } else if StartIo(s, s', id) {
        StartInTurn(s, s', id, a, b);
      } else {
        MoveShape(s, s', id);
        MoveInTurn(s, s', id, a, b);
      }
    } else {
      hide Before;
    }
  }

  /** Operations that have to wait start in the order of linking. */
  lemma {:induction false} StartsInTurn(r: seq<State>, i: nat, a: Id, b: Id)
    requires IsRun(r) && i < |r|
    ensures InTurn(r[i], a, b)
  {
    hide Next;
    if i > 0 {
      hide InTurn, Init;
      StartsInTurn(r, i - 1, a, b);
      assert Inv(r[i - 1]) && SeqInv(r[i]) by { RunKeeps(r, i - 1); RunKeeps(r, i); }
      hide Inv, SeqInv;
      assert Follows(r, i - 1);
      StepInTurn(r[i - 1], r[i], a, b);
    }
  }

  /** Appending writes: a submit that had returned before the other was called starts first, and
      has left when the other starts. */
  lemma AppendsInSubmissionOrder(r: seq<State>, k: nat, i: nat, a: Id, b: Id)
    requires IsRun(r) && k <= i < |r| && Handed(r[k], a) && b !in r[k].ops
    requires r[i].append && a in r[i].ops && b in r[i].ops && b in r[i].started
    requires r[i].ops[a].kind == Write && r[i].ops[b].kind == Write
    ensures Before(r[i].started, a, b) && Left(r[i].ops[a].pc)
  {
    SubmissionOrderKept(r, k, i, a, b);
    StartsInTurn(r, i, a, b);
    RunKeeps(r, i);
    hide IsRun, Before;
  }

  /** Waits point only to strictly older operations and wake-ups are never lost, so as long
      as some operation is not done, some thread can take a step. */
  lemma NoDeadlock(r: seq<State>, i: nat, x: Id)
    requires IsRun(r) && i < |r| && x in r[i].ops && r[i].ops[x].pc != Done
    ensures (exists s' :: GiveBack(r[i], s')) || exists s', id :: WorkerStep(r[i], s', id)
  {
    RunKeeps(r, i);
    var s := r[i];
    match s.lock
    case Submitter => assert GiveBack(s, s.(lock := Free));
    case Worker(id) => HolderSteps(s, id);
    case Free =>
      if s.ops[x].pc != Sleeping {
        FreeSteps(s, x);
      } else {
        assert x in s.list;
        var last := s.list[|s.list| - 1];
        OldestAwake(s);
        FreeSteps(s, last);
      }
  }

  /** The oldest operation of the list never waits. */
  lemma OldestAwake(s: State)
    requires ListInv(s) && SleepInv(s) && s.list != []
    ensures var last := s.list[|s.list| - 1]; last in s.ops && s.ops[last].pc != Sleeping && s.ops[last].pc != Done
  {
    hide NoDup, Before;
    var n := |s.list| - 1;
    var last := s.list[n];
    assert last in s.list;
    if s.ops[last].pc == Sleeping {
      assert At(s, last, Sleeping) && OlderWrite(s, last);
      var i: nat, j: nat :| 0 <= i < j < |s.list| && s.list[i] == last && IsWrite(s, s.list[j]);
      SameIndex(s.list, i, n);
      assert false;
    }
  }

  lemma HolderSteps(s: State, id: Id)
    requires LockInv(s) && s.lock == Worker(id)
    ensures exists s', x :: WorkerStep(s, s', x)
  {
    match s.ops[id].pc
    case Locked => assert WorkerStep(s, s.(ops := SetPc(s, id, Posted)), id);
    case Posted => assert WorkerStep(s, s.(list := [id] + s.list, enq := s.enq + [id], ops := SetPc(s, id, Checking)), id);
    case Checking =>
      if Sequenced(s, id) && OlderWrite(s, id) {
        assert WorkerStep(s, s.(lock := Free, ops := SetPc(s, id, Sleeping)), id);
      } else {
        assert WorkerStep(s, s.(lock := Free, ops := SetPc(s, id, Running), started := s.started + [id]), id);
      }
    case Unlinked => assert WorkerStep(s, s.(lock := Free, ops := SetPc(s, id, Done)), id);
    case _ => assert false;
  }

  lemma FreeSteps(s: State, id: Id)
    requires LockInv(s) && s.lock == Free && id in s.ops && s.ops[id].pc != Sleeping && s.ops[id].pc != Done
    ensures exists s', x :: WorkerStep(s, s', x)
  {
    match s.ops[id].pc
    case Created => assert WorkerStep(s, s.(lock := Worker(id), ops := SetPc(s, id, Locked)), id);
    case Woken => assert WorkerStep(s, s.(lock := Worker(id), ops := SetPc(s, id, Checking)), id);
    case Running => assert WorkerStep(s, s.(ops := SetPc(s, id, Ending)), id);
    case Ending =>
      assert WorkerStep(s, s.(lock := Worker(id), list := Remove(s.list, id), ops := WakeAll(SetPc(s, id, Unlinked))), id);
    case _ => assert false;
  }
}
