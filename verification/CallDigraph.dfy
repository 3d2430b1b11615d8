/** The call graph as a finite directed graph: node ids, call edges, and reachability over them. */
module CallDigraph {
  import opened Wrappers

  /** `callees[u]` lists the callee nodes of `u`, call site after call site; `None` is a null callee pointer. */
  datatype Digraph = Digraph(callees: seq<seq<Option<nat>>>) {
    ghost predicate Valid() {
      forall u, i :: 0 <= u < |callees| && 0 <= i < |callees[u]| && callees[u][i].Some?
        ==> callees[u][i].value < |callees|
    }

    ghost predicate Edge(u: nat, v: nat) {
      u < |callees| && Some(v) in callees[u]
    }

    ghost predicate Path(p: seq<nat>, u: nat, v: nat) {
      |p| > 0 && p[0] == u && p[|p| - 1] == v && forall i :: 0 <= i < |p| - 1 ==> Edge(p[i], p[i + 1])
    }

    /** `v` can be reached from `u` by following zero or more calls. */
    ghost predicate Reach(u: nat, v: nat) {
      exists p :: Path(p, u, v)
    }

    ghost predicate Mutual(u: nat, v: nat) {
      Reach(u, v) && Reach(v, u)
    }

    /** `v` can be reached from `u` by following one or more calls. */
    ghost predicate ReachByCalls(u: nat, v: nat) {
      exists w :: Edge(u, w) && Reach(w, v)
    }

    lemma ReachSelf(u: nat)
      ensures Reach(u, u)
    {
      assert Path([u], u, u);
    }

    lemma ReachEdge(u: nat, v: nat)
      requires Edge(u, v)
      ensures Reach(u, v)
    {
      assert Path([u, v], u, v);
    }

    lemma ReachTrans(u: nat, v: nat, w: nat)
      requires Reach(u, v) && Reach(v, w)
      ensures Reach(u, w)
    {
      var p :| Path(p, u, v);
      var q :| Path(q, v, w);
      var r := p + q[1..];
      forall i | 0 <= i < |r| - 1
        ensures Edge(r[i], r[i + 1])
      {
        if i >= |p| - 1 {
          assert r[i] == q[i - (|p| - 1)];
          assert r[i + 1] == q[i + 1 - (|p| - 1)];
        }
      }
      assert Path(r, u, w);
    }

    /** A path that starts inside a set and ends outside it leaves the set through some edge. */
    lemma {:induction false} LeavingEdge(p: seq<nat>, u: nat, v: nat, inside: set<nat>) returns (a: nat, b: nat)
      requires Path(p, u, v) && u in inside && v !in inside
      ensures a in inside && b !in inside && Edge(a, b) && Reach(u, a) && Reach(b, v)
    {
      if p[1] !in inside {
        a, b := u, p[1];
        ReachSelf(u);
        assert Path(p[1..], p[1], v);
      } else {
        assert Path(p[1..], p[1], v);
        a, b := LeavingEdge(p[1..], p[1], v, inside);
        assert Edge(p[0], p[1]);
        ReachEdge(u, p[1]);
        ReachTrans(u, p[1], a);
      }
    }

    /** A set of nodes that no edge leaves contains everything reachable from its members. */
    lemma ClosedUnderReach(u: nat, v: nat, inside: set<nat>)
      requires u in inside && Reach(u, v)
      requires forall a, b :: a in inside && Edge(a, b) ==> b in inside
      ensures v in inside
    {
      if v !in inside {
        var p :| Path(p, u, v);
        var a, b := LeavingEdge(p, u, v, inside);
        assert false;
      }
    }
  }
}
