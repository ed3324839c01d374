/** The dependency graph of loaded DSOs: `g[u]` lists the direct dependencies of DSO u,
    in DT_NEEDED order and possibly with repetitions. */
module DsoGraph {
  import opened Common

  type Graph = seq<seq<nat>>

  ghost predicate IsGraph(g: Graph) {
    forall u, d :: 0 <= u < |g| && d in g[u] ==> d < |g|
  }

  ghost predicate Edge(g: Graph, u: nat, v: nat) {
    u < |g| && v in g[u]
  }

  ghost predicate IsPath(g: Graph, p: seq<nat>) {
    |p| > 0 && forall i :: 0 <= i < |p| - 1 ==> Edge(g, p[i], p[i + 1])
  }

  /** v can be reached from u along dependencies (every DSO reaches itself). */
  ghost predicate Reach(g: Graph, u: nat, v: nat) {
    exists p: seq<nat> :: IsPath(g, p) && p[0] == u && p[|p| - 1] == v
  }

  ghost predicate Closed(g: Graph, s: set<nat>) {
    forall u, v :: u in s && Edge(g, u, v) ==> v in s
  }

  lemma ReachSelf(g: Graph, u: nat)
    ensures Reach(g, u, u)
  {
    assert IsPath(g, [u]);
  }

  lemma ReachThenEdge(g: Graph, u: nat, v: nat, w: nat)
    requires Reach(g, u, v) && Edge(g, v, w)
    ensures Reach(g, u, w)
  {
    var p :| IsPath(g, p) && p[0] == u && p[|p| - 1] == v;
    var q := p + [w];
    assert IsPath(g, q) by {
      forall i | 0 <= i < |q| - 1 ensures Edge(g, q[i], q[i + 1]) {
        if i < |p| - 1 { assert Edge(g, p[i], p[i + 1]); }
      }
    }
  }

  lemma EdgeThenReach(g: Graph, u: nat, v: nat, w: nat)
    requires Edge(g, u, v) && Reach(g, v, w)
    ensures Reach(g, u, w)
  {
    var p :| IsPath(g, p) && p[0] == v && p[|p| - 1] == w;
    var q := [u] + p;
    assert IsPath(g, q) by {
      forall i | 0 <= i < |q| - 1 ensures Edge(g, q[i], q[i + 1]) {
        if i > 0 { assert Edge(g, p[i - 1], p[i - 1 + 1]); }
      }
    }
  }

  /** A closed set keeps everything its members reach. */
  lemma ClosedReach(g: Graph, s: set<nat>, u: nat, v: nat)
    requires Closed(g, s) && u in s && Reach(g, u, v)
    ensures v in s
  {
    var p :| IsPath(g, p) && p[0] == u && p[|p| - 1] == v;
    ClosedPath(g, s, p, |p| - 1);
  }

  lemma {:induction false} ClosedPath(g: Graph, s: set<nat>, p: seq<nat>, i: nat)
    requires Closed(g, s) && IsPath(g, p) && p[0] in s && i < |p|
    ensures p[i] in s
  {
    if i > 0 {
      ClosedPath(g, s, p, i - 1);
      assert Edge(g, p[i - 1], p[i - 1 + 1]);
    }
  }

  /** Distinct elements of a set are at most as many as the set. */
  lemma {:induction false} NoDupFits(s: seq<nat>, all: set<nat>)
    requires NoDup(s) && forall v :: v in s ==> v in all
    ensures |s| <= |all|
  {
    if s != [] {
      var t, last := s[..|s| - 1], s[|s| - 1];
      assert last in all;
      forall v | v in t ensures v in all - {last} {
        assert v in s;
      }
      NoDupFits(t, all - {last});
    }
  }
}
