/** Constructor ordering: the depth-first sort of `queue_ctors`, whose output queue and work
    stack share one buffer, and the dependency closure of `extend_bfs_deps`. */
module CtorOrder {
  import opened Common
  import opened DsoGraph

  /** The order in which constructors must run for `root`: every DSO it reaches exactly once,
      each after its direct dependencies except where a dependency leads back to it. */
  ghost predicate IsCtorOrder(g: Graph, root: nat, q: seq<nat>) {
    && NoDup(q)
    && (forall v :: v in q <==> Reach(g, root, v))
    && forall k :: 0 <= k < |q| ==> DepsFirst(g, q, k)
  }

  ghost predicate DepsFirst(g: Graph, q: seq<nat>, k: nat)
    requires k < |q|
  {
    forall d :: Edge(g, q[k], d) ==> d in q[..k] || Reach(g, d, q[k])
  }

  /** The search between two steps: finished DSOs `q`, the path being explored `w` (current
      node first), and the per-DSO fields `mark` and `next_dep`. */
  datatype Dfs = Dfs(q: seq<nat>, w: seq<nat>, mark: seq<bool>, next: seq<nat>) {
    ghost predicate Seen(v: nat) { v in q || v in w }
  }

  ghost predicate Shape(g: Graph, all: set<nat>, s: Dfs) {
    && |s.mark| == |s.next| == |g| && IsGraph(g) && Closed(g, all)
    && (forall v :: v in all ==> v < |g|)
    && NoDup(s.q + s.w)
    && (forall v :: s.Seen(v) ==> v in all)
    && forall v :: v in all ==> (s.mark[v] <==> s.Seen(v))
  }

  /** Stack entry i has looked at its dependencies below `next`; all but the current node
      are waiting for the entry above them. */
  ghost predicate OnStack(g: Graph, s: Dfs, i: nat)
    requires i < |s.w| && s.w[i] < |g| == |s.next|
  {
    var u := s.w[i];
    && s.next[u] <= |g[u]|
    && (i > 0 ==> s.next[u] < |g[u]| && g[u][s.next[u]] == s.w[i - 1])
    && forall j :: 0 <= j < s.next[u] ==> s.Seen(g[u][j])
  }

  ghost predicate Stack(g: Graph, all: set<nat>, s: Dfs)
    requires Shape(g, all, s)
  {
    forall i :: 0 <= i < |s.w| ==> InAll(all, s, s.w[i]) && OnStack(g, s, i)
  }

  ghost predicate InAll(all: set<nat>, s: Dfs, v: nat) { s.Seen(v) && v in all }

  ghost predicate Queue(g: Graph, s: Dfs) {
    forall k :: 0 <= k < |s.q| ==> DepsFirst(g, s.q, k) && DepsSeen(g, s, k)
  }

  ghost predicate DepsSeen(g: Graph, s: Dfs, k: nat)
    requires k < |s.q|
  {
    forall d :: Edge(g, s.q[k], d) ==> s.Seen(d)
  }

  ghost predicate Rooted(g: Graph, root: nat, s: Dfs) {
    s.Seen(root) && forall v :: s.Seen(v) ==> Reach(g, root, v)
  }

  ghost predicate Inv(g: Graph, all: set<nat>, root: nat, s: Dfs) {
    Shape(g, all, s) && Stack(g, all, s) && Queue(g, s) && Rooted(g, root, s)
  }

  // ----- the three steps

  function Advance(s: Dfs): Dfs
    requires s.w != [] && s.w[0] < |s.next|
  {
    s.(next := s.next[s.w[0] := s.next[s.w[0]] + 1])
  }

  function Push(s: Dfs, c: nat): Dfs
    requires c < |s.next| && c < |s.mark|
  {
    Dfs(s.q, [c] + s.w, s.mark[c := true], s.next[c := 0])
  }

  function Pop(s: Dfs): Dfs
    requires s.w != []
  {
    s.(q := s.q + [s.w[0]], w := s.w[1..])
  }

  lemma AdvanceInv(g: Graph, all: set<nat>, root: nat, s: Dfs)
    requires Inv(g, all, root, s) && s.w != [] && s.w[0] < |g|
    requires s.next[s.w[0]] < |g[s.w[0]]| && s.Seen(g[s.w[0]][s.next[s.w[0]]])
    ensures Inv(g, all, root, Advance(s))
  {
    var t := Advance(s);
    assert forall v :: s.Seen(v) <==> t.Seen(v);
    forall i | 0 <= i < |t.w| ensures InAll(all, t, t.w[i]) && OnStack(g, t, i) {
      assert InAll(all, s, s.w[i]) && OnStack(g, s, i);
      assert i > 0 ==> (s.q + s.w)[|s.q|] != (s.q + s.w)[|s.q| + i];
    }
    forall k | 0 <= k < |t.q| ensures DepsFirst(g, t.q, k) && DepsSeen(g, t, k) {
      assert DepsFirst(g, s.q, k) && DepsSeen(g, s, k);
    }
  }

  lemma PushShape(g: Graph, all: set<nat>, s: Dfs, c: nat)
    requires Shape(g, all, s) && c in all && c < |g| && !s.mark[c]
    ensures Shape(g, all, Push(s, c))
    ensures forall v :: Push(s, c).Seen(v) <==> v == c || s.Seen(v)
  {
    var t := Push(s, c);
    hide NoDup, Closed, IsGraph;
    assert !s.Seen(c);
    NoDupInsert(s.q, s.w, c);
    assert forall v :: v in t.w <==> v == c || v in s.w;
    assert forall v :: t.Seen(v) <==> v == c || s.Seen(v);
  }

  lemma NoDupInsert(q: seq<nat>, w: seq<nat>, c: nat)
    requires NoDup(q + w) && c !in q && c !in w
    ensures NoDup(q + ([c] + w))
  {
    var a, b := q + w, q + ([c] + w);
    assert forall k :: 0 <= k < |q| ==> b[k] == a[k] == q[k];
    assert b[|q|] == c && forall k :: |q| < k < |b| ==> b[k] == a[k - 1] == w[k - 1 - |q|];
  }

  lemma PushInv(g: Graph, all: set<nat>, root: nat, s: Dfs, c: nat)
    requires Inv(g, all, root, s) && s.w != [] && s.w[0] < |g| && s.next[s.w[0]] < |g[s.w[0]]|
    requires c == g[s.w[0]][s.next[s.w[0]]] && c < |g| && c in all && !s.mark[c]
    ensures Inv(g, all, root, Push(s, c))
  {
    var t := Push(s, c);
    PushShape(g, all, s, c);
    forall i | 0 <= i < |t.w| ensures InAll(all, t, t.w[i]) && OnStack(g, t, i) {
      if i > 0 {
        assert t.w[i] == s.w[i - 1];
        assert InAll(all, s, s.w[i - 1]) && OnStack(g, s, i - 1);
      } else {
        assert t.w[0] == c && t.Seen(c);
      }
    }
    forall k | 0 <= k < |t.q| ensures DepsFirst(g, t.q, k) && DepsSeen(g, t, k) {
      assert DepsFirst(g, s.q, k) && DepsSeen(g, s, k);
    }
    assert Rooted(g, root, t) by {
      assert s.Seen(s.w[0]) && Edge(g, s.w[0], c);
      ReachThenEdge(g, root, s.w[0], c);
    }
  }

  /** The stack is a path of dependencies: each entry reaches the current node. */
  lemma {:induction false} StackReaches(g: Graph, all: set<nat>, s: Dfs, i: nat)
    requires Shape(g, all, s) && Stack(g, all, s) && i < |s.w|
    ensures Reach(g, s.w[i], s.w[0])
  {
    hide Reach, NoDup, Closed;
    if i == 0 {
      ReachSelf(g, s.w[0]);
    } else {
      StackReaches(g, all, s, i - 1);
      assert InAll(all, s, s.w[i]) && OnStack(g, s, i);
      assert Edge(g, s.w[i], s.w[i - 1]);
      hide Shape, Stack, OnStack, Edge;
      EdgeThenReach(g, s.w[i], s.w[i - 1], s.w[0]);
    }
  }

  lemma PopShape(g: Graph, all: set<nat>, s: Dfs)
    requires Shape(g, all, s) && s.w != []
    ensures Shape(g, all, Pop(s))
    ensures forall v :: Pop(s).Seen(v) <==> s.Seen(v)
  {
    var t := Pop(s);
    assert t.q + t.w == s.q + s.w;
    assert s.w == [s.w[0]] + s.w[1..];
    assert forall v :: t.Seen(v) <==> s.Seen(v);
  }

  lemma PopDepsFirst(g: Graph, all: set<nat>, s: Dfs)
    requires Shape(g, all, s) && Stack(g, all, s) && s.w != []
    requires s.w[0] < |g| && s.next[s.w[0]] == |g[s.w[0]]|
    ensures DepsFirst(g, Pop(s).q, |s.q|)
    ensures forall d :: Edge(g, s.w[0], d) ==> s.Seen(d)
  {
    var p, q := s.w[0], Pop(s).q;
    assert q[|s.q|] == p && q[..|s.q|] == s.q;
    assert InAll(all, s, s.w[0]) && OnStack(g, s, 0);
    forall d | Edge(g, p, d) ensures s.Seen(d) && (d in s.q || Reach(g, d, p)) {
      var j :| 0 <= j < |g[p]| && g[p][j] == d;
      if d !in s.q {
        var i :| 0 <= i < |s.w| && s.w[i] == d;
        StackReaches(g, all, s, i);
      }
    }
  }

  lemma PopInv(g: Graph, all: set<nat>, root: nat, s: Dfs)
    requires Inv(g, all, root, s) && s.w != []
    requires s.w[0] < |g| && s.next[s.w[0]] == |g[s.w[0]]|
    ensures Inv(g, all, root, Pop(s))
  {
    var t := Pop(s);
    PopShape(g, all, s);
    PopDepsFirst(g, all, s);
    forall i | 0 <= i < |t.w| ensures InAll(all, t, t.w[i]) && OnStack(g, t, i) {
      assert InAll(all, s, s.w[i + 1]) && OnStack(g, s, i + 1);
    }
    forall k | 0 <= k < |t.q| ensures DepsFirst(g, t.q, k) && DepsSeen(g, t, k) {
      if k < |s.q| {
        assert DepsFirst(g, s.q, k) && DepsSeen(g, s, k);
        assert t.q[..k] == s.q[..k];
      }
    }
  }

  /** When the stack is empty the queue is a constructor order for the root. */
  lemma DoneIsOrder(g: Graph, all: set<nat>, root: nat, s: Dfs)
    requires Inv(g, all, root, s) && s.w == []
    ensures IsCtorOrder(g, root, s.q)
  {
    var done := set v | v in s.q;
    assert s.q + s.w == s.q;
    assert Closed(g, done) by {
      forall u, v | u in done && Edge(g, u, v) ensures v in done {
        var k :| 0 <= k < |s.q| && s.q[k] == u;
        assert DepsSeen(g, s, k);
      }
    }
    forall v | Reach(g, root, v) ensures v in s.q {
      assert s.Seen(root);
      ClosedReach(g, done, root, v);
    }
    assert forall v :: v in s.q ==> s.Seen(v);
  }

  lemma StartInv(g: Graph, all: set<nat>, root: nat, s: Dfs)
    requires IsGraph(g) && Closed(g, all) && root in all && (forall v :: v in all ==> v < |g|)
    requires |s.mark| == |s.next| == |g| && s.q == [] && s.w == [root] && s.next[root] == 0
    requires forall v :: v in all ==> (s.mark[v] <==> v == root)
    ensures Inv(g, all, root, s)
  {
    ReachSelf(g, root);
    assert s.w[0] == root;
    assert forall v :: s.Seen(v) <==> v == root;
  }

  /** Queue and stack together never outgrow the DSOs that can be visited. */
  lemma NeverOverlap(g: Graph, all: set<nat>, s: Dfs)
    requires Shape(g, all, s)
    ensures |s.q| + |s.w| <= |all|
  {
    forall v | v in s.q + s.w ensures v in all { assert s.Seen(v); }
    NoDupFits(s.q + s.w, all);
  }
}

module Linker {
  import opened Common
  import opened DsoGraph
  import opened CtorOrder

  /** `l` is a complete dependency list for p: the direct dependencies as they stand, then
      every other DSO they reach, each once. */
  ghost predicate IsBfsList(g: Graph, p: nat, l: seq<nat>)
    requires p < |g|
  {
    && |g[p]| <= |l| && l[..|g[p]|] == g[p]
    && NoDup(l[|g[p]|..]) && (forall v :: v in l[|g[p]|..] ==> v !in g[p])
    && forall v :: v in l <==> ReachBelow(g, p, v)
  }

  /** v is a direct dependency of p or reached from one. */
  ghost predicate ReachBelow(g: Graph, p: nat, v: nat) {
    exists d :: Edge(g, p, d) && Reach(g, d, v)
  }

  ghost function Elements(l: seq<nat>): set<nat> { set v | v in l }

  ghost function Range(n: nat): (r: set<nat>)
    ensures |r| == n && forall v :: v in r <==> 0 <= v < n
  {
    if n == 0 then {} else Range(n - 1) + {n - 1}
  }

  lemma {:induction false} ElementsSize(l: seq<nat>)
    ensures |Elements(l)| <= |l|
  {
    if l != [] {
      var t := l[..|l| - 1];
      ElementsSize(t);
      assert Elements(l) == Elements(t) + {l[|l| - 1]} by { assert l == t + [l[|l| - 1]]; }
    }
  }

  /** A complete list plus p itself is closed, so it bounds what a search from p visits. */
  lemma BfsListClosed(g: Graph, p: nat, l: seq<nat>)
    requires IsGraph(g) && p < |g| && IsBfsList(g, p, l)
    ensures var all := Elements(l) + {p};
            Closed(g, all) && |all| <= |l| + 1 && forall v :: v in all ==> v < |g|
  {
    ElementsSize(l);
    var all := Elements(l) + {p};
    forall u, v | u in all && Edge(g, u, v) ensures v in all {
      if u == p {
        ReachSelf(g, v);
        assert ReachBelow(g, p, v);
      } else {
        assert ReachBelow(g, p, u);
        var d :| Edge(g, p, d) && Reach(g, d, u);
        ReachThenEdge(g, d, u, v);
        assert ReachBelow(g, p, v);
      }
    }
    var every := Range(|g|);
    assert Closed(g, every);
    forall v | v in l ensures v < |g| {
      assert ReachBelow(g, p, v);
      var d :| Edge(g, p, d) && Reach(g, d, v);
      ClosedReach(g, every, d, v);
    }
  }

  ghost predicate OthersSame(all: set<nat>, m: seq<bool>, n: seq<bool>) {
    |m| == |n| && forall v :: 0 <= v < |m| && v !in all ==> m[v] == n[v]
  }

  class Linker {
    const direct: Graph            // p->deps[..p->ndeps_direct]
    const mark: array<bool>
    const nextDep: array<nat>
    var deps: seq<seq<nat>>        // p->deps up to its terminator
    var bfsBuilt: seq<bool>

    ghost predicate Valid()
      reads this
    {
      && IsGraph(direct) && mark.Length == nextDep.Length == |direct| == |deps| == |bfsBuilt|
      && forall p :: 0 <= p < |direct| ==> DepsOk(p)
    }

    constructor (g: Graph)
      requires IsGraph(g)
      ensures Valid() && direct == g && fresh(mark) && fresh(nextDep) && forall v :: 0 <= v < |g| ==> !mark[v]
    {
      direct, deps := g, g;
      mark, nextDep := new bool[|g|](_ => false), new nat[|g|](_ => 0);
      bfsBuilt := seq(|g|, _ => false);
    }

    ghost predicate DepsOk(p: nat)
      requires p < |direct| == |deps| == |bfsBuilt|
      reads this
    {
      if bfsBuilt[p] then IsBfsList(direct, p, deps[p]) else deps[p] == direct[p]
    }

    method ClearListed(l: seq<nat>) returns (cnt: nat)
      requires forall v :: v in l ==> v < mark.Length
      modifies mark
      ensures cnt == |l|
      ensures forall v :: 0 <= v < mark.Length ==> mark[v] == (old(mark[v]) && v !in l)
    {
      cnt := 0;
      while cnt < |l|
        invariant cnt <= |l|
        invariant forall v :: 0 <= v < mark.Length ==> mark[v] == (old(mark[v]) && v !in l[..cnt])
      {
        assert l[..cnt + 1] == l[..cnt] + [l[cnt]] && l[cnt] in l;
        mark[l[cnt]] := false;
        cnt := cnt + 1;
      }
      assert l[..cnt] == l;
    }

    method ClearAll() returns (cnt: nat)
      modifies mark
      ensures cnt == mark.Length && forall v :: 0 <= v < mark.Length ==> !mark[v]
    {
      cnt := 0;
      while cnt < mark.Length
        invariant cnt <= mark.Length && forall v :: 0 <= v < cnt ==> !mark[v]
      {
        mark[cnt] := false;
        cnt := cnt + 1;
      }
    }

    /** Size the buffer and clear the marks of every DSO the search may visit. */
    method ClearMarks(dso: nat) returns (cnt: nat, ghost all: set<nat>)
      requires Valid() && dso < |direct|
      modifies mark
      ensures Closed(direct, all) && dso in all && |all| <= cnt - 1
      ensures cnt == if bfsBuilt[dso] then |deps[dso]| + 2 else |direct| + 1
      ensures forall v :: v in all ==> v < |direct| && (v != dso ==> !mark[v])
      ensures forall v :: 0 <= v < |direct| && mark[v] ==> old(mark[v])
    {
      assert DepsOk(dso);
      if bfsBuilt[dso] {
        BfsListClosed(direct, dso, deps[dso]);
        all := Elements(deps[dso]) + {dso};
        hide IsBfsList, Closed;
        assert forall v :: v in deps[dso] ==> v in all;
        cnt := ClearListed(deps[dso]);
        cnt := cnt + 1;
      } else {
        all := Range(|direct|);
        cnt := ClearAll();
      }
      cnt := cnt + 1;
    }

    /** Arrays and search state agree; `rest` is the stack below the current node. */
    ghost predicate Tied(buf: array<nat>, qpos: nat, spos: nat, s: Dfs, rest: seq<nat>)
      requires qpos <= spos <= buf.Length
      reads buf, mark, nextDep
    {
      buf[..qpos] == s.q && buf[spos..] == rest && mark[..] == s.mark && nextDep[..] == s.next
    }

    /** The inner loop: go down unvisited dependencies until a DSO has none left. */
    method Descend(buf: array<nat>, qpos: nat, spos0: nat, p0: nat,
                   ghost all: set<nat>, ghost root: nat, ghost s0: Dfs)
      returns (spos: nat, p: nat, ghost s: Dfs)
      requires Valid() && buf != nextDep && |all| <= buf.Length - 1
      requires Inv(direct, all, root, s0) && s0.w != [] && s0.w[0] == p0
      requires qpos <= spos0 <= buf.Length && Tied(buf, qpos, spos0, s0, s0.w[1..])
      modifies buf, mark, nextDep
      ensures Inv(direct, all, root, s) && s.q == s0.q && s.w != [] && s.w[0] == p
      ensures qpos < spos <= buf.Length && Tied(buf, qpos, spos, s, s.w[1..])
      ensures p < |direct| && s.next[p] == |direct[p]| && OthersSame(all, s0.mark, s.mark)
    {
      hide Inv, Valid, DepsOk;
      spos, p, s := spos0, p0, s0;
      StateFacts(direct, all, root, s);
      assert |buf[spos..]| == |s.w| - 1;
      while nextDep[p] < |direct[p]|
        invariant Inv(direct, all, root, s) && s.q == s0.q && s.w != [] && s.w[0] == p
        invariant qpos < spos <= buf.Length && Tied(buf, qpos, spos, s, s.w[1..])
        invariant p < |direct| && s.next[p] <= |direct[p]| && OthersSame(all, s0.mark, s.mark)
        decreases |all| - |s.q| - |s.w|, |direct[p]| - nextDep[p]
      {
        StateFacts(direct, all, root, s);
        var c := direct[p][nextDep[p]];
        if mark[c] {
          AdvanceInv(direct, all, root, s);
          s := Advance(s);
          nextDep[p] := nextDep[p] + 1;
        } else {
          PushInv(direct, all, root, s, c);
          GoDown(buf, qpos, spos, p, c, s);
          s := Push(s, c);
          spos := spos - 1;
          p := c;
        }
        StateFacts(direct, all, root, s);
      }
    }

    /** Save the current node p and make its dependency c the current one. */
    method GoDown(buf: array<nat>, ghost qpos: nat, spos: nat, p: nat, c: nat, ghost s: Dfs)
      requires buf != nextDep && qpos < spos <= buf.Length && s.w != [] && s.w[0] == p
      requires c < |s.mark| && c < |s.next| && Tied(buf, qpos, spos, s, s.w[1..])
      modifies buf, mark, nextDep
      ensures Tied(buf, qpos, spos - 1, Push(s, c), s.w)
    {
      buf[spos - 1] := p;
      nextDep[c] := 0;
      mark[c] := true;
      assert buf[spos - 1..] == [p] + buf[spos..];
    }

    /** The outer loop, from a stack holding only the root. */
    method Sort(buf: array<nat>, dso: nat, ghost all: set<nat>, ghost s0: Dfs) returns (qpos: nat, ghost s: Dfs)
      requires Valid() && buf != nextDep && |all| <= buf.Length - 1
      requires Inv(direct, all, dso, s0) && s0.q == [] && |s0.w| == 1 && Tied(buf, 0, buf.Length - 1, s0, s0.w)
      modifies buf, mark, nextDep
      ensures Inv(direct, all, dso, s) && s.w == [] && qpos < buf.Length && buf[..qpos] == s.q
      ensures mark[..] == s.mark && OthersSame(all, s0.mark, s.mark)
    {
      hide Inv, Valid, DepsOk;
      var spos := buf.Length - 1;
      qpos, s := 0, s0;
      StateFacts(direct, all, dso, s);
      while spos < buf.Length
        invariant qpos <= spos <= buf.Length && qpos <= |all| && OthersSame(all, s0.mark, s.mark)
        invariant Inv(direct, all, dso, s) && Tied(buf, qpos, spos, s, s.w)
        decreases |all| - qpos
      {
        assert buf[spos + 1..] == s.w[1..];
        StateFacts(direct, all, dso, s);
        var p;
        spos, p, s := Descend(buf, qpos, spos + 1, buf[spos], all, dso, s);
        PopInv(direct, all, dso, s);
        s := Pop(s);
        buf[qpos] := p;
        assert buf[..qpos + 1] == buf[..qpos] + [p];
        qpos := qpos + 1;
        StateFacts(direct, all, dso, s);
      }
    }

    /** Allocate the shared buffer and put the root on the stack at its far end. */
    method StartSearch(dso: nat) returns (buf: array<nat>, ghost all: set<nat>, ghost s: Dfs)
      requires Valid() && dso < |direct|
      modifies mark, nextDep
      ensures fresh(buf) && |all| <= buf.Length - 1 && Inv(direct, all, dso, s)
      ensures s.q == [] && |s.w| == 1 && Tied(buf, 0, buf.Length - 1, s, s.w)
      ensures forall v :: 0 <= v < |direct| == |s.mark| && v !in all && s.mark[v] ==> old(mark[v])
    {
      assert IsGraph(direct) && mark.Length == nextDep.Length == |direct|;
      hide Valid, IsGraph, Closed, DepsOk, Inv;
      var cnt;
      cnt, all := ClearMarks(dso);
      buf := new nat[cnt](_ => 0);
      buf[cnt - 1] := dso;
      nextDep[dso] := 0;
      mark[dso] := true;
      s := Dfs([], [dso], mark[..], nextDep[..]);
      StartInv(direct, all, dso, s);
      assert buf[cnt - 1..] == s.w && buf[..0] == s.q;
    }

    method QueueCtors(dso: nat) returns (queue: array<nat>, qpos: nat)
      requires Valid() && dso < |direct|
      modifies mark, nextDep
      ensures fresh(queue) && qpos < queue.Length
      ensures IsCtorOrder(direct, dso, queue[..qpos])
      ensures forall v :: 0 <= v < |direct| && mark[v] ==> old(mark[v]) && !Reach(direct, dso, v)
    {
      assert mark.Length == |direct|;
      hide Valid, IsCtorOrder, DepsOk, Inv, OthersSame, Reach;
      ghost var all, s0, s;
      queue, all, s0 := StartSearch(dso);
      qpos, s := Sort(queue, dso, all, s0);
      DoneIsOrder(direct, all, dso, s);
      assert forall v :: v in s.q ==> v < |direct| by { DoneMarks(direct, all, dso, s); }
      var _ := ClearListed(queue[..qpos]);
      LeftMarked(direct, all, dso, old(mark[..]), s0, s, mark[..]);
    }

    method MarkListed(l: seq<nat>)
      requires forall v :: v in l ==> v < mark.Length
      modifies mark
      ensures forall v :: 0 <= v < mark.Length ==> mark[v] == (old(mark[v]) || v in l)
    {
      var i := 0;
      while i < |l|
        invariant i <= |l|
        invariant forall v :: 0 <= v < mark.Length ==> mark[v] == (old(mark[v]) || v in l[..i])
      {
        assert l[..i + 1] == l[..i] + [l[i]] && l[i] in l;
        mark[l[i]] := true;
        i := i + 1;
      }
      assert l[..i] == l;
    }

    method CountNew(dep: nat) returns (cnt: nat)
      requires Valid() && dep < |direct|
      ensures cnt == Unmarked(direct[dep], mark[..])
    {
      cnt := 0;
      var j := 0;
      while j < |direct[dep]|
        invariant j <= |direct[dep]| && cnt == Unmarked(direct[dep][..j], mark[..])
      {
        assert direct[dep][j] in direct[dep] && direct[dep][..j + 1][..j] == direct[dep][..j];
        if !mark[direct[dep][j]] { cnt := cnt + 1; }
        j := j + 1;
      }
      assert direct[dep][..j] == direct[dep];
    }

    /** Append the unmarked dependencies of `dep`; `room` entries were allocated beyond l. */
    method AppendNew(l0: seq<nat>, dep: nat, room: nat, ghost p: nat, ghost i: nat) returns (l: seq<nat>)
      requires Valid() && p < |direct| && dep < |direct| && i < |l0| && l0[i] == dep
      requires BfsInv(direct, p, l0, i, mark[..]) && room == Unmarked(direct[dep], mark[..])
      modifies mark
      ensures BfsInv(direct, p, l, i + 1, mark[..]) && |l0| <= |l| <= |l0| + room && l[..|l0|] == l0
    {
      hide Valid, DepsOk, BfsInv;
      l := l0;
      ghost var m0 := mark[..];
      BfsFacts(direct, p, l, i, mark[..]);
      var j := 0;
      while j < |direct[dep]|
        invariant j <= |direct[dep]| && |l0| <= |l| <= |l0| + Unmarked(direct[dep][..j], m0) && l[..|l0|] == l0
        invariant BfsInv(direct, p, l, i, mark[..]) && |mark[..]| == |m0| == |direct|
        invariant forall k :: 0 <= k < j ==> direct[dep][k] in l
        invariant forall v :: 0 <= v < |m0| && m0[v] ==> mark[v]
      {
        ghost var ds := direct[dep];
        assert ds[..j + 1][..j] == ds[..j];
        BfsFacts(direct, p, l, i, mark[..]);
        assert Edge(direct, dep, ds[j]);
        if !mark[direct[dep][j]] {
          assert l[i] == l[..|l0|][i] == dep;
          BfsAppend(direct, p, l, i, mark[..], ds[j]);
          mark[direct[dep][j]] := true;
          assert |l| < |l0| + Unmarked(ds[..j + 1], m0);
          l := l + [direct[dep][j]];
        }
        j := j + 1;
      }
      assert direct[dep][..j] == direct[dep];
      assert l[i] == l[..|l0|][i];
      BfsNext(direct, p, l, i, mark[..]);
    }

    /** Walk the list from its direct dependencies while it grows. */
    method CloseDeps(p: nat) returns (l: seq<nat>)
      requires Valid() && p < |direct| && forall v :: 0 <= v < |direct| ==> !mark[v]
      modifies mark
      ensures IsBfsList(direct, p, l)
    {
      l := direct[p];
      assert forall v :: v in l ==> Edge(direct, p, v);
      MarkListed(l);
      BfsStart(direct, p, mark[..]);
      hide BfsInv, IsBfsList, DepsOk;
      var i := 0;
      while i < |l|
        invariant i <= |l| && BfsInv(direct, p, l, i, mark[..])
        decreases |direct[p]| + |direct| - i
      {
        BfsFacts(direct, p, l, i, mark[..]);
        var dep := l[i];
        assert dep in l;
        var cnt := CountNew(dep);
        l := AppendNew(l, dep, cnt, p, i);
        i := i + 1;
        BfsFacts(direct, p, l, i, mark[..]);
      }
      BfsDone(direct, p, l, mark[..]);
    }

    method ExtendBfsDeps(p: nat)
      requires Valid() && p < |direct| && forall v :: 0 <= v < |direct| ==> !mark[v]
      modifies this`deps, this`bfsBuilt, mark
      ensures Valid() && forall v :: 0 <= v < |direct| ==> !mark[v]
      ensures |deps| == |old(deps)| && deps == old(deps)[p := deps[p]] && bfsBuilt == old(bfsBuilt)[p := true]
      ensures old(bfsBuilt[p]) ==> deps == old(deps)
      ensures IsBfsList(direct, p, deps[p])
    {
      hide IsBfsList;
      assert DepsOk(p);
      if bfsBuilt[p] { return; }
      var l := CloseDeps(p);
      var _ := ClearAll();
      deps := deps[p := l];
      bfsBuilt := bfsBuilt[p := true];
      forall u | 0 <= u < |direct| ensures DepsOk(u) {
        assert old(DepsOk(u));
      }
    }
  }

  // ----- the growing dependency list

  function Unmarked(ds: seq<nat>, m: seq<bool>): nat {
    if ds == [] then 0
    else
      var d := ds[|ds| - 1];
      Unmarked(ds[..|ds| - 1], m) + (if d < |m| && !m[d] then 1 else 0)
  }

  /** The list `l` while it is walked at position i: marks say what is in it, everything
      before i has all its dependencies in it. */
  ghost predicate BfsInv(g: Graph, p: nat, l: seq<nat>, i: nat, m: seq<bool>)
    requires p < |g|
  {
    && IsGraph(g) && |m| == |g| && |g[p]| <= |l| && l[..|g[p]|] == g[p]
    && NoDup(l[|g[p]|..]) && (forall v :: v in l[|g[p]|..] ==> v !in g[p])
    && (forall v :: v in l ==> v < |g| && ReachBelow(g, p, v))
    && (forall v :: 0 <= v < |g| ==> (m[v] <==> v in l))
    && i <= |l| && forall k :: 0 <= k < i ==> DepsListed(g, l, k)
  }

  ghost predicate DepsListed(g: Graph, l: seq<nat>, k: nat)
    requires k < |l|
  {
    forall d :: Edge(g, l[k], d) ==> d in l
  }

  lemma BfsStart(g: Graph, p: nat, m: seq<bool>)
    requires IsGraph(g) && p < |g| == |m| && forall v :: 0 <= v < |g| ==> (m[v] <==> v in g[p])
    ensures BfsInv(g, p, g[p], 0, m)
  {
    forall v | v in g[p] ensures ReachBelow(g, p, v) {
      ReachSelf(g, v);
      assert Edge(g, p, v);
    }
  }

  lemma BfsFacts(g: Graph, p: nat, l: seq<nat>, i: nat, m: seq<bool>)
    requires p < |g| && BfsInv(g, p, l, i, m)
    ensures |m| == |g| && i <= |l| <= |g[p]| + |g|
    ensures forall v :: v in l ==> v < |g|
    ensures forall v :: 0 <= v < |g| ==> (m[v] <==> v in l)
    ensures forall u: nat, d: nat :: Edge(g, u, d) ==> d < |g|
  {
    var tail := l[|g[p]|..];
    assert forall v :: v in tail ==> v in l;
    NoDupFits(tail, Range(|g|));
  }

  lemma BfsAppend(g: Graph, p: nat, l: seq<nat>, i: nat, m: seq<bool>, c: nat)
    requires p < |g| && BfsInv(g, p, l, i, m) && i < |l| && Edge(g, l[i], c) && c < |g| && !m[c]
    ensures BfsInv(g, p, l + [c], i, m[c := true])
  {
    var l', n := l + [c], |g[p]|;
    assert l'[..n] == l[..n] && l'[n..] == l[n..] + [c];
    assert forall v :: v in g[p] ==> v in l[..n];
    assert ReachBelow(g, p, c) by {
      assert l[i] in l;
      var d :| Edge(g, p, d) && Reach(g, d, l[i]);
      ReachThenEdge(g, d, l[i], c);
    }
    assert forall v :: v in l' <==> v in l || v == c;
    forall k | 0 <= k < i ensures DepsListed(g, l', k) { assert DepsListed(g, l, k); }
  }

  lemma BfsNext(g: Graph, p: nat, l: seq<nat>, i: nat, m: seq<bool>)
    requires p < |g| && BfsInv(g, p, l, i, m) && i < |l| && l[i] < |g|
    requires forall k :: 0 <= k < |g[l[i]]| ==> g[l[i]][k] in l
    ensures BfsInv(g, p, l, i + 1, m)
  {
    assert DepsListed(g, l, i);
  }

  lemma BfsDone(g: Graph, p: nat, l: seq<nat>, m: seq<bool>)
    requires p < |g| && BfsInv(g, p, l, |l|, m)
    ensures IsBfsList(g, p, l)
  {
    assert Closed(g, Elements(l)) by {
      forall u, v | u in Elements(l) && Edge(g, u, v) ensures v in Elements(l) {
        var k :| 0 <= k < |l| && l[k] == u;
        assert DepsListed(g, l, k);
      }
    }
    forall v | ReachBelow(g, p, v) ensures v in l {
      var d :| Edge(g, p, d) && Reach(g, d, v);
      assert d in l[..|g[p]|];
      ClosedReach(g, Elements(l), d, v);
    }
  }

  lemma DoneMarks(g: Graph, all: set<nat>, root: nat, s: Dfs)
    requires Inv(g, all, root, s) && s.w == []
    ensures |s.mark| == |g|
    ensures forall v :: v in s.q ==> v < |g|
    ensures forall v :: 0 <= v < |g| && v in all && s.mark[v] ==> v in s.q
    ensures forall v :: Reach(g, root, v) ==> v in all
    ensures forall v :: Reach(g, root, v) ==> v in s.q
  {
    DoneIsOrder(g, all, root, s);
    assert forall v :: v in s.q ==> s.Seen(v);
  }

  /** Marks that are set in the end were set before and lie outside what the search can reach. */
  lemma LeftMarked(g: Graph, all: set<nat>, root: nat, m: seq<bool>, s0: Dfs, s: Dfs, after: seq<bool>)
    requires Inv(g, all, root, s) && s.w == [] && |g| == |m| == |after| == |s.mark| && OthersSame(all, s0.mark, s.mark)
    requires forall v :: 0 <= v < |g| == |s0.mark| && v !in all && s0.mark[v] ==> m[v]
    requires forall v :: 0 <= v < |g| ==> after[v] == (s.mark[v] && v !in s.q)
    ensures forall v :: 0 <= v < |g| && after[v] ==> m[v] && !Reach(g, root, v)
  {
    hide Inv;
    DoneMarks(g, all, root, s);
  }

  /** What the loops read off the invariant. */
  lemma StateFacts(g: Graph, all: set<nat>, root: nat, s: Dfs)
    requires Inv(g, all, root, s)
    ensures |s.mark| == |s.next| == |g| && |s.q| + |s.w| <= |all|
    ensures s.w != [] ==>
              var p := s.w[0];
              && p < |g| && p in all && s.next[p] <= |g[p]|
              && forall j :: 0 <= j < |g[p]| ==> g[p][j] < |g| && g[p][j] in all && (s.mark[g[p][j]] <==> s.Seen(g[p][j]))
  {
    NeverOverlap(g, all, s);
    if s.w != [] {
      assert InAll(all, s, s.w[0]) && OnStack(g, s, 0);
      assert forall j :: 0 <= j < |g[s.w[0]]| ==> Edge(g, s.w[0], g[s.w[0]][j]);
    }
  }
}
