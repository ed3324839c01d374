/** The sort of `queue_ctors` and the protocol of `do_init_fini` put together: what the dependency order
    of the queue means for the constructors that run. */
module CtorStart {
  import opened DsoGraph
  import opened CtorOrder
  import opened CtorProtocol

  /** Dependencies are constructed first: when an activation called with a constructor order for `root`
      starts a constructor, every direct dependency of that DSO is constructed, or under construction by
      the same thread, unless it leads back to the DSO itself. */
  lemma DependenciesFirst(g: Graph, root: nat, r: seq<State>, withFini: set<Dso>, k: nat, i: nat, t: Tid, queue: seq<Dso>)
    returns (p: Dso)
    requires IsCtorOrder(g, root, queue)
    requires IsRun(r, withFini) && k < i && i + 1 < |r| && Enter(r[k], r[k + 1], t, queue)
    requires ActiveFrom(r, t, |r[k].threads[t].frames|, k + 1, i)
    requires Start(r[i], r[i + 1], t, withFini) && |r[i].threads[t].frames| == |r[k].threads[t].frames| + 1
    ensures r[i + 1].started == r[i].started + [p] && Reach(g, root, p)
    ensures forall d :: Edge(g, p, d) ==> ReadyFor(r[i], t, d) || Reach(g, d, p)
  {
    var m := StartsInQueueOrder(r, withFini, k, i, t, queue);
    hide IsRun, Enter, Start, ActiveFrom, Reach, Edge, ReadyFor;
    p := queue[m];
    assert p in queue && DepsFirst(g, queue, m);
    forall d | Edge(g, p, d) ensures ReadyFor(r[i], t, d) || Reach(g, d, p) {
      if d in queue[..m] {
        var j :| 0 <= j < m && queue[..m][j] == d;
        assert ReadyFor(r[i], t, queue[j]);
      }
    }
  }

  /** When the activation returns, everything reachable from `root` is constructed, or under construction by
      the same thread. */
  lemma ReachableReady(g: Graph, root: nat, r: seq<State>, withFini: set<Dso>, k: nat, i: nat, t: Tid, queue: seq<Dso>, v: Dso)
    requires IsCtorOrder(g, root, queue) && Reach(g, root, v)
    requires IsRun(r, withFini) && k < i && i + 1 < |r| && Enter(r[k], r[k + 1], t, queue)
    requires ActiveFrom(r, t, |r[k].threads[t].frames|, k + 1, i)
    requires Leave(r[i], r[i + 1], t) && |r[i].threads[t].frames| == |r[k].threads[t].frames| + 1
    ensures ReadyFor(r[i + 1], t, v)
  {
    hide IsRun, Enter, Leave, ActiveFrom, Reach, ReadyFor;
    LeavingFindsQueueReady(r, withFini, k, i, t, queue);
  }
}
