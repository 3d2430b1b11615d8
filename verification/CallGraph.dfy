/** The call graph object: the depth-first SCC construction and the caller/callee links between SCCs. */
module CallGraphBuild {
  import opened Wrappers
  import opened CallDigraph
  import opened SccState
  import opened SccOrder

  /** Every node that was reached from `nodesMap` is in one SCC, and SCCs are the classes of mutual reachability. */
  ghost predicate SccsExact(g: Digraph, nodesMap: seq<nat>, s: Snapshot) {
    && ListsAgree(s)
    && (forall v: nat :: s.Scc(v).Some? <==> ReachedFrom(g, nodesMap, v))
    && (forall v: nat, w: nat :: s.Scc(v).Some? && s.Scc(w).Some? ==> (s.Scc(v) == s.Scc(w) <==> g.Mutual(v, w)))
  }

  ghost predicate ReachedFrom(g: Digraph, starts: seq<nat>, v: nat) {
    exists u :: u in starts && g.Reach(u, v)
  }

  /** The links between SCCs: `calleeScc[k]` and `callerScc[k]` are the other SCCs called from and calling SCC `k`. */
  ghost predicate LinksExact(g: Digraph, s: Snapshot, calleeScc: seq<set<nat>>, callerScc: seq<set<nat>>) {
    |calleeScc| == |s.sccNodes| && LinksSoFar(g, s, calleeScc, callerScc)
  }

  ghost predicate LinksSoFar(g: Digraph, s: Snapshot, calleeScc: seq<set<nat>>, callerScc: seq<set<nat>>) {
    && |calleeScc| == |callerScc|
    && (forall k: nat, c: nat :: k < |calleeScc| ==> (c in calleeScc[k] <==> SccCalls(g, s, k, c)))
    && (forall k: nat, c: nat :: k < |callerScc| ==> (c in callerScc[k] <==> SccCalls(g, s, c, k)))
  }

  /** Some member of SCC `k` calls some member of another SCC `c`. */
  ghost predicate SccCalls(g: Digraph, s: Snapshot, k: nat, c: nat) {
    k != c && exists v: nat, w: nat :: s.Scc(v) == Some(k) && s.Scc(w) == Some(c) && g.Edge(v, w)
  }

  /** Between nested visits the call path is empty, so the stack is empty as well. */
  lemma NoPathNoStack(g: Digraph, s: Snapshot)
    requires Inv(g, s, {})
    ensures s.visitStack == []
    ensures forall v: nat :: s.Order(v) > 0 <==> s.Scc(v).Some?
  {
    assert !ReachesGray(g, s.visitStack, 0, {});
  }

  lemma LastCall(g: Digraph, u: nat, v: nat)
    requires g.Reach(u, v) && u != v
    ensures exists w: nat :: g.Edge(w, v)
  {
    var p :| g.Path(p, u, v);
    assert g.Edge(p[|p| - 2], p[|p| - 1]);
  }

  /** The nodes visited so far are those reached from `starts`. */
  ghost predicate VisitedFrom(g: Digraph, s: Snapshot, starts: seq<nat>) {
    forall v: nat :: s.Order(v) > 0 <==> ReachedFrom(g, starts, v)
  }

  /** A complete visit from `id` extends the visited set by exactly what `id` reaches. */
  lemma VisitExtends(g: Digraph, starts: seq<nat>, s0: Snapshot, s: Snapshot, id: nat)
    requires Inv(g, s0, {}) && Visited(g, s0, s, {}, id) && VisitedFrom(g, s0, starts)
    ensures Inv(g, s, {}) && VisitedFrom(g, s, starts + [id])
    ensures s.Order(id) > 0 && forall v: nat :: s0.Order(v) > 0 ==> s.Order(v) > 0
  {
    NoPathNoStack(g, s);
    forall v: nat
      ensures s.Order(v) > 0 <==> ReachedFrom(g, starts + [id], v)
    {
      if s.Order(v) > 0 {
        if s0.Order(v) > 0 {
          var u :| u in starts && g.Reach(u, v);
          assert u in starts + [id];
        } else {
          assert id in starts + [id] && g.Reach(id, v);
        }
      }
      if ReachedFrom(g, starts + [id], v) {
        var u :| u in starts + [id] && g.Reach(u, v);
        if u in starts {
          g.ReachSelf(u);
          assert ReachedFrom(g, starts, u);
          assert s0.Order(u) > 0;
        }
        SccsClosedUnderReach(g, s, u, v);
      }
    }
  }

  ghost function Unvisited(g: Digraph, s: Snapshot): set<nat> {
    set v: nat | v < |g.callees| && s.Order(v) == 0
  }

  lemma UnvisitedShrinks(g: Digraph, s0: Snapshot, s: Snapshot, id: nat)
    requires id < |g.callees| && s0.Order(id) == 0 && s.Order(id) > 0 && Grows(g, s0, s, id)
    ensures Unvisited(g, s) < Unvisited(g, s0)
  {
    assert id in Unvisited(g, s0) && id !in Unvisited(g, s);
  }

  lemma CalleesThere(g: Digraph, s0: Snapshot, gray: set<nat>, id: nat)
    requires MayVisit(g, s0, gray, id)
    ensures id < |g.callees| && s0.Order(id) == 0
  {
  }

  lemma MayVisitCallee(g: Digraph, s0: Snapshot, s: Snapshot, gray: set<nat>, id: nat, k: nat, low: nat, w: nat)
    requires MayVisit(g, s0, gray, id) && k < |g.callees[id]| && g.callees[id][k] == Some(w)
    requires Visiting(g, s0, s, gray, id, k, low) && s.Order(w) == 0
    ensures MayVisit(g, s, gray + {id}, w)
    ensures Unvisited(g, s) < Unvisited(g, s0)
  {
    UnvisitedShrinks(g, s0, s, id);
    g.ReachEdge(id, w);
    forall x | x in gray
      ensures g.Reach(x, w)
    {
      g.ReachTrans(x, id, w);
    }
  }

  lemma StackBounds(g: Digraph, s0: Snapshot, s: Snapshot, gray: set<nat>, id: nat)
    requires MayVisit(g, s0, gray, id)
    requires Visiting(g, s0, s, gray, id, |g.callees[id]|, s.Low(id))
    ensures |s.inStack| == |s.sccNode| && |s0.visitStack| < |s.visitStack|
    ensures forall i :: 0 <= i < |s.visitStack| ==>
              s.visitStack[i] < |s.inStack| && (s.visitStack[i] == id <==> i == |s0.visitStack|)
  {
    assert s.visitStack[|s0.visitStack|] == id;
  }

  /** Popping one more entry: the state the pop loop is in after its next round. */
  lemma PopOne(s: Snapshot, q: nat)
    requires q < |s.visitStack| && forall i :: 0 <= i < |s.visitStack| ==> s.visitStack[i] < |s.inStack|
    requires |s.inStack| == |s.sccNode|
    ensures var t := Popped(s, q + 1);
            |t.visitStack| == q + 1 && t.visitStack[q] == s.visitStack[q] && t.sccNodes == s.sccNodes
            && s.visitStack[q] < |t.inStack| && |t.inStack| == |t.sccNode|
    ensures |Popped(s, q).visitStack| == q
    ensures var t, v := Popped(s, q + 1), s.visitStack[q];
            Popped(s, q) == t.(visitStack := t.visitStack[..q], inStack := t.inStack[v := false],
                               sccNode := t.sccNode[v := Some(|s.sccNodes|)])
    ensures Reversed(s.visitStack[q..]) == Reversed(s.visitStack[q + 1..]) + [s.visitStack[q]]
  {
    assert s.visitStack[q..] == [s.visitStack[q]] + s.visitStack[q + 1..];
    assert s.visitStack[q..][1..] == s.visitStack[q + 1..];
  }

  /** Some node of `vs` calls a member of SCC `c`. */
  ghost predicate CalledFrom(g: Digraph, s: Snapshot, vs: seq<nat>, c: nat) {
    exists v: nat, w: nat :: v in vs && g.Edge(v, w) && s.Scc(w) == Some(c)
  }

  /** One of the first `j` callees of `v` is a member of SCC `c`. */
  ghost predicate CalledAt(g: Digraph, s: Snapshot, v: nat, j: nat, c: nat) {
    && v < |g.callees| && j <= |g.callees[v]|
    && exists l :: 0 <= l < j && g.callees[v][l].Some? && s.Scc(g.callees[v][l].value) == Some(c)
  }

  /** Some member of SCC `c` calls `w`. */
  ghost predicate CallsInto(g: Digraph, s: Snapshot, c: nat, w: nat) {
    exists u: nat :: g.Edge(u, w) && s.Scc(u) == Some(c)
  }

  lemma MayVisitMapped(g: Digraph, s: Snapshot, id: nat)
    requires g.Valid() && Inv(g, s, {}) && id < |g.callees| && s.Order(id) == 0
    ensures MayVisit(g, s, {}, id)
  {
    hide Inv;
  }

  /** `list` holds some of the elements of `all`, in the same order. */
  ghost predicate InOrderOf(list: seq<nat>, all: seq<nat>) {
    forall a, b, i, j {:trigger list[a], list[b], all[i], all[j]} ::
      0 <= a < b < |list| && 0 <= i < |all| && 0 <= j < |all| && list[a] == all[i] && list[b] == all[j] ==> i < j
  }

  lemma InOrderNext(list: seq<nat>, all: seq<nat>, k: nat)
    requires InOrderOf(list, all) && Distinct(all) && k < |all| && forall v :: v in list ==> v in all[..k]
    ensures InOrderOf(list + [all[k]], all)
  {
    var next := list + [all[k]];
    forall a, b, i, j | 0 <= a < b < |next| && 0 <= i < |all| && 0 <= j < |all|
                        && next[a] == all[i] && next[b] == all[j]
      ensures i < j
    {
      assert next[a] in list;
      if b == |list| {
        var l :| 0 <= l < k && all[l] == next[a];
      }
    }
  }

  lemma CalleeHasScc(g: Digraph, nodesMap: seq<nat>, s: Snapshot, v: nat, w: nat)
    requires SccsExact(g, nodesMap, s) && s.Scc(v).Some? && g.Edge(v, w)
    ensures s.Scc(w).Some?
  {
    var u :| u in nodesMap && g.Reach(u, v);
    g.ReachEdge(v, w);
    g.ReachTrans(u, v, w);
  }

  lemma CallerHasScc(g: Digraph, nodesMap: seq<nat>, s: Snapshot, v: nat)
    requires SccsExact(g, nodesMap, s) && v in nodesMap
    ensures s.Scc(v).Some?
  {
    g.ReachSelf(v);
  }

  lemma CalledFromNext(g: Digraph, s: Snapshot, vs: seq<nat>, i: nat)
    requires i < |vs| && vs[i] < |g.callees|
    ensures forall c: nat :: CalledFrom(g, s, vs[..i + 1], c) <==>
                             CalledFrom(g, s, vs[..i], c) || CalledAt(g, s, vs[i], |g.callees[vs[i]]|, c)
  {
    assert vs[..i + 1] == vs[..i] + [vs[i]];
    forall c: nat
      ensures CalledFrom(g, s, vs[..i + 1], c) <==>
              CalledFrom(g, s, vs[..i], c) || CalledAt(g, s, vs[i], |g.callees[vs[i]]|, c)
    {
      if CalledAt(g, s, vs[i], |g.callees[vs[i]]|, c) {
        var l :| 0 <= l < |g.callees[vs[i]]| && g.callees[vs[i]][l].Some?
                  && s.Scc(g.callees[vs[i]][l].value) == Some(c);
        assert g.Edge(vs[i], g.callees[vs[i]][l].value);
      }
    }
  }

  lemma CalledFromAll(g: Digraph, nodesMap: seq<nat>, s: Snapshot, k: nat)
    requires SccsExact(g, nodesMap, s) && k < |s.sccNodes|
    ensures forall c: nat :: k != c && CalledFrom(g, s, s.sccNodes[k], c) <==> SccCalls(g, s, k, c)
  {
  }

  ghost predicate CalledBy(g: Digraph, s: Snapshot, c: nat, vs: seq<nat>) {
    exists w :: w in vs && CallsInto(g, s, c, w)
  }

  lemma CalledByAll(g: Digraph, s: Snapshot, k: nat)
    requires ListsAgree(s) && k < |s.sccNodes|
    ensures forall c: nat :: k != c && CalledBy(g, s, c, s.sccNodes[k]) <==> SccCalls(g, s, c, k)
  {
  }

  /** What the passes over the call graph ask about a function. */
  datatype MirFunction = MirFunction(hasBody: bool, isNative: bool, isStatic: bool)

  /** Outside a visit every visited node has its SCC and nothing is on the stack: the SCCs are exact. */
  lemma BuiltIsExact(g: Digraph, nodesMap: seq<nat>, started: seq<nat>, s: Snapshot)
    requires Inv(g, s, {}) && VisitedFrom(g, s, started)
    requires forall v :: v in started ==> v in nodesMap
    requires forall v :: v in nodesMap ==> s.Order(v) > 0
    ensures SccsExact(g, nodesMap, s) && ClosedSccs(g, s) && Sized(g, s)
  {
    hide Inv, VisitedFrom, ReachedFrom, ListsAgree, Sized;
    InvReads(g, s);
    forall v: nat
      ensures s.Scc(v).Some? <==> ReachedFrom(g, nodesMap, v)
    {
      BuiltReaches(g, nodesMap, started, s, v);
    }
  }

  lemma InvReads(g: Digraph, s: Snapshot)
    requires Inv(g, s, {})
    ensures Sized(g, s) && ListsAgree(s) && ClosedSccs(g, s)
  {
  }

  lemma BuiltReaches(g: Digraph, nodesMap: seq<nat>, started: seq<nat>, s: Snapshot, v: nat)
    requires Inv(g, s, {}) && VisitedFrom(g, s, started)
    requires forall v :: v in started ==> v in nodesMap
    requires forall v :: v in nodesMap ==> s.Order(v) > 0
    ensures s.Scc(v).Some? <==> ReachedFrom(g, nodesMap, v)
  {
    NoPathNoStack(g, s);
    InvReads(g, s);
    hide Inv;
    if ReachedFrom(g, nodesMap, v) {
      var u :| u in nodesMap && g.Reach(u, v);
      SccsClosedUnderReach(g, s, u, v);
    }
    if s.Scc(v).Some? {
      var u :| u in started && g.Reach(u, v);
      assert u in nodesMap;
    }
  }

  /** The state in which the construction starts. */
  lemma UnvisitedInv(g: Digraph, s: Snapshot, s': Snapshot)
    requires |s.sccNode| == |g.callees| && (forall v: nat :: s.Scc(v) == None) && s.sccNodes == []
    requires s.visitStack == []
    requires var n := |g.callees|;
      s' == s.(visitIndex := 1, visitedOrder := seq(n, _ => 0), lowestOrder := seq(n, _ => 0),
               inStack := seq(n, _ => false))
    ensures Inv(g, s', {}) && VisitedFrom(g, s', [])
  {
    assert forall v: nat :: s'.Scc(v) == s.Scc(v);
  }

  lemma NoLinksYet(g: Digraph, s: Snapshot)
    ensures LinksSoFar(g, s, [], [])
  {
  }

  lemma LinksNext(g: Digraph, s: Snapshot, calleeScc: seq<set<nat>>, callerScc: seq<set<nat>>, callees: set<nat>,
                  callers: set<nat>)
    requires LinksSoFar(g, s, calleeScc, callerScc)
    requires forall c: nat :: c in callees <==> SccCalls(g, s, |calleeScc|, c)
    requires forall c: nat :: c in callers <==> SccCalls(g, s, c, |calleeScc|)
    ensures LinksSoFar(g, s, calleeScc + [callees], callerScc + [callers])
  {
    hide SccCalls;
  }

  lemma LinksDone(g: Digraph, s: Snapshot, calleeScc: seq<set<nat>>, callerScc: seq<set<nat>>)
    requires LinksSoFar(g, s, calleeScc, callerScc)
    ensures |calleeScc| == |s.sccNodes| ==> LinksExact(g, s, calleeScc, callerScc)
  {
    hide SccCalls;
  }

  /** Calls between SCCs go from the higher to the lower number, so the links have no cycle. */
  lemma BuiltIsNumbered(g: Digraph, s: Snapshot, calleeScc: seq<set<nat>>, callerScc: seq<set<nat>>)
    requires ListsAgree(s) && ClosedSccs(g, s) && LinksExact(g, s, calleeScc, callerScc)
    ensures Numbered(Links(calleeScc, callerScc))
  {
  }

  /** A root of the map is not reached from the roots visited before it. */
  lemma RootIsNew(g: Digraph, roots: seq<nat>, i: nat)
    requires i < |roots| && Distinct(roots)
    requires forall v, u: nat :: v in roots ==> !g.Edge(u, v)
    ensures !ReachedFrom(g, roots[..i], roots[i])
  {
    assert roots[i] in roots;
    if ReachedFrom(g, roots[..i], roots[i]) {
      var u :| u in roots[..i] && g.Reach(u, roots[i]);
      LastCall(g, u, roots[i]);
    }
  }

  /** In `list`, a function never calls one that comes later, except within its own SCC. */
  ghost predicate CalleesFirst(g: Digraph, list: seq<nat>) {
    forall i, j :: 0 <= i < j < |list| && g.Edge(list[i], list[j]) ==> g.Mutual(list[i], list[j])
  }

  /** Reordering the members of one SCC keeps lists and pointers in agreement. */
  lemma SortedAgree(s: Snapshot, k: nat, sorted: seq<nat>)
    requires ListsAgree(s) && k < |s.sccNodes| && multiset(sorted) == multiset(s.sccNodes[k])
    ensures ListsAgree(s.(sccNodes := s.sccNodes[k := sorted]))
    ensures Distinct(sorted) && forall v: nat :: v in sorted <==> s.Scc(v) == Some(k)
  {
    var members := s.sccNodes[k];
    PermutationDistinct(members, sorted);
    assert forall v: nat :: v in sorted <==> v in multiset(sorted);
    assert forall v: nat :: v in members <==> v in multiset(members);
    assert |sorted| == |multiset(sorted)| == |members|;
    var t := s.(sccNodes := s.sccNodes[k := sorted]);
    assert forall v: nat :: t.Scc(v) == s.Scc(v);
    forall l, i | 0 <= l < |t.sccNodes| && 0 <= i < |t.sccNodes[l]|
      ensures t.Scc(t.sccNodes[l][i]) == Some(l)
    {
      assert t.sccNodes[l][i] in t.sccNodes[l];
    }
  }

  lemma PermutationDistinct(a: seq<nat>, b: seq<nat>)
    requires multiset(a) == multiset(b) && Distinct(a)
    ensures Distinct(b)
  {
    forall i, j | 0 <= i < j < |b|
      ensures b[i] != b[j]
    {
      if b[i] == b[j] {
        TwiceIn(b, i, j);
        DistinctOnce(a, b[i]);
      }
    }
  }

  lemma DistinctTake(s: seq<nat>, i: nat)
    requires Distinct(s) && i < |s|
    ensures s[i] in s && s[i] !in s[..i] && s[..i + 1] == s[..i] + [s[i]]
    ensures forall v :: v in s[..i] ==> v in s
  {
  }

  lemma TwiceIn(s: seq<nat>, i: nat, j: nat)
    requires i < j < |s| && s[i] == s[j]
    ensures multiset(s)[s[i]] >= 2
  {
    assert s == s[..j] + s[j..];
    assert s[i] in s[..j] && s[i] == s[j..][0];
  }

  lemma {:induction false} DistinctOnce(s: seq<nat>, v: nat)
    requires Distinct(s)
    ensures multiset(s)[v] <= 1
  {
    if s != [] {
      var rest := s[..|s| - 1];
      assert s == rest + [s[|s| - 1]];
      DistinctOnce(rest, v);
      if v == s[|s| - 1] {
        assert v !in rest;
      }
    }
  }

  /** Members of one SCC with several members lie on a call cycle. */
  lemma ManyAreRecursive(g: Digraph, nodesMap: seq<nat>, s: Snapshot, k: nat)
    requires SccsExact(g, nodesMap, s) && k < |s.sccNodes| && |s.sccNodes[k]| > 1
    ensures exists v :: v in s.sccNodes[k] && g.ReachByCalls(v, v)
  {
    var v, w := s.sccNodes[k][0], s.sccNodes[k][1];
    assert s.Scc(v) == s.Scc(w) == Some(k);
    var p :| g.Path(p, v, w);
    assert g.Path(p[1..], p[1], w) && g.Edge(v, p[1]);
    g.ReachTrans(p[1], w, v);
  }

  /** The only member of an SCC lies on a call cycle exactly if it calls itself. */
  lemma OneIsRecursive(g: Digraph, nodesMap: seq<nat>, s: Snapshot, k: nat)
    requires SccsExact(g, nodesMap, s) && k < |s.sccNodes| && |s.sccNodes[k]| == 1
    ensures (exists v :: v in s.sccNodes[k] && g.ReachByCalls(v, v)) <==> g.Edge(s.sccNodes[k][0], s.sccNodes[k][0])
  {
    var node := s.sccNodes[k][0];
    assert s.Scc(node) == Some(k);
    g.ReachSelf(node);
    if g.ReachByCalls(node, node) {
      var w :| g.Edge(node, w) && g.Reach(w, node);
      CalleeHasScc(g, nodesMap, s, node, w);
      g.ReachEdge(node, w);
      assert w in s.sccNodes[k];
    }
  }

  /** A path over SCC links is a path of calls between any two members of its ends. */
  lemma {:induction false} SccPathCalls(g: Digraph, nodesMap: seq<nat>, s: Snapshot, l: Links, p: seq<nat>, a: nat,
                                        b: nat, u: nat, v: nat)
    requires SccsExact(g, nodesMap, s) && LinksExact(g, s, l.calleeScc, l.callerScc)
    requires SccPath(l, p, a, b) && s.Scc(u) == Some(a) && s.Scc(v) == Some(b)
    ensures g.Reach(u, v)
    decreases |p|
  {
    hide *;
    SccPathStep(l, p, a, b);
    if |p| > 1 {
      var x, y := LinkIsCall(g, s, l, a, p[1]);
      MembersReach(g, nodesMap, s, a, u, x);
      SccPathCalls(g, nodesMap, s, l, p[1..], p[1], b, y, v);
      g.ReachEdge(x, y);
      g.ReachTrans(u, x, y);
      g.ReachTrans(u, y, v);
    } else {
      MembersReach(g, nodesMap, s, a, u, v);
    }
  }

  lemma SccPathStep(l: Links, p: seq<nat>, a: nat, b: nat)
    requires SccPath(l, p, a, b)
    ensures |p| <= 1 ==> a == b
    ensures |p| > 1 ==> a < |l.calleeScc| && p[1] in l.calleeScc[a] && SccPath(l, p[1..], p[1], b)
  {
    if |p| > 1 {
      assert p[0 + 1] in l.calleeScc[p[0]];
    }
  }

  lemma LinkIsCall(g: Digraph, s: Snapshot, l: Links, k: nat, c: nat) returns (x: nat, y: nat)
    requires LinksExact(g, s, l.calleeScc, l.callerScc) && k < |l.calleeScc| && c in l.calleeScc[k]
    ensures s.Scc(x) == Some(k) && s.Scc(y) == Some(c) && g.Edge(x, y)
  {
    assert SccCalls(g, s, k, c);
    x, y :| s.Scc(x) == Some(k) && s.Scc(y) == Some(c) && g.Edge(x, y);
  }

  lemma MembersReach(g: Digraph, nodesMap: seq<nat>, s: Snapshot, k: nat, u: nat, v: nat)
    requires SccsExact(g, nodesMap, s) && s.Scc(u) == Some(k) && s.Scc(v) == Some(k)
    ensures g.Reach(u, v)
  {
    assert g.Mutual(u, v);
  }

  /** A path of calls leads through SCCs along their links. */
  lemma {:induction false} CallsSccPath(g: Digraph, nodesMap: seq<nat>, s: Snapshot, l: Links, p: seq<nat>, u: nat,
                                        v: nat) returns (q: seq<nat>)
    requires SccsExact(g, nodesMap, s) && LinksExact(g, s, l.calleeScc, l.callerScc)
    requires g.Path(p, u, v) && s.Scc(u).Some?
    ensures s.Scc(v).Some? && SccPath(l, q, s.Scc(u).value, s.Scc(v).value)
    decreases |p|
  {
    if |p| == 1 {
      q := [s.Scc(u).value];
    } else {
      var w := p[1];
      assert g.Edge(p[0], p[0 + 1]);
      CalleeHasScc(g, nodesMap, s, u, w);
      assert g.Path(p[1..], w, v);
      q := CallsSccPath(g, nodesMap, s, l, p[1..], w, v);
      if s.Scc(u) != s.Scc(w) {
        assert SccCalls(g, s, s.Scc(u).value, s.Scc(w).value);
        q := [s.Scc(u).value] + q;
      }
    }
  }

  class CallGraph {
    const graph: Digraph
    /** The nodes of functions of this module, in the order of the map. */
    const nodesMap: seq<nat>
    /** `callerSet[v]`: the nodes with a call site that may call `v`. */
    const callerSet: seq<set<nat>>
    /** The function of each node; `None` for the node that stands for external code. */
    const mirFunc: seq<Option<MirFunction>>
    const addrTaken: seq<bool>
    const isInIPA: bool
    const isCModule: bool

    var rootNodes: seq<nat>
    /** The vectors of the depth-first construction, the SCC pointers of the nodes and the SCCs closed so far. */
    var dfs: Snapshot
    var calleeScc: seq<set<nat>>
    var callerScc: seq<set<nat>>
    var sccTopologicalVec: seq<nat>
    /** The module's compilation list and function list, as nodes. */
    var compilationList: seq<nat>
    var functionList: seq<nat>

    /** Caller sets are the inverse of the call edges, and only nodes of the map have call sites. */
    ghost predicate Valid() {
      && graph.Valid()
      && |callerSet| == |mirFunc| == |addrTaken| == |graph.callees|
      && (forall i :: 0 <= i < |nodesMap| ==> nodesMap[i] < |graph.callees|)
      && (forall i, j :: 0 <= i < j < |nodesMap| ==> nodesMap[i] != nodesMap[j])
      && (forall u: nat, v: nat :: v < |callerSet| ==> (u in callerSet[v] <==> graph.Edge(u, v)))
      && (forall u: nat, v: nat :: graph.Edge(u, v) ==> u in nodesMap)
    }

    constructor (g: Digraph, nodes: seq<nat>, callers: seq<set<nat>>, funcs: seq<Option<MirFunction>>,
                 taken: seq<bool>, inIPA: bool, cModule: bool)
      ensures graph == g && nodesMap == nodes && callerSet == callers && mirFunc == funcs && addrTaken == taken
      ensures isInIPA == inIPA && isCModule == cModule
      ensures rootNodes == [] && Unbuilt()
    {
      graph, nodesMap, callerSet, rootNodes := g, nodes, callers, [];
      mirFunc, addrTaken, isInIPA, isCModule := funcs, taken, inIPA, cModule;
      dfs := Snapshot(1, [], [], [], [], seq(|g.callees|, _ => None), []);
      calleeScc, callerScc, sccTopologicalVec := [], [], [];
      compilationList, functionList := [], [];
    }

    /** No SCC has been built yet. */
    ghost predicate Unbuilt()
      reads this`dfs
    {
      |dfs.sccNode| == |graph.callees| && (forall v: nat :: dfs.Scc(v) == None) && dfs.sccNodes == []
      && dfs.visitStack == []
    }

    ghost predicate RootsFound()
      reads this`rootNodes
    {
      && (forall v :: v in rootNodes <==> v in nodesMap && forall u: nat :: !graph.Edge(u, v))
      && Distinct(rootNodes)
    }

    ghost function SccLinks(): Links
      reads this`calleeScc, this`callerScc
    {
      Links(calleeScc, callerScc)
    }

    /** The state `BuildSCC` leaves: exact SCCs, exact links between them, and their topological order. */
    ghost predicate Built()
      reads this`dfs, this`calleeScc, this`callerScc
    {
      && |dfs.sccNode| == |graph.callees|
      && SccsExact(graph, nodesMap, dfs)
      && LinksExact(graph, dfs, calleeScc, callerScc)
      && Numbered(SccLinks())
    }

    method FindRootNodes()
      requires Valid() && rootNodes == []
      modifies this`rootNodes
      ensures RootsFound() && InOrderOf(rootNodes, nodesMap)
    {
      for i := 0 to |nodesMap|
        invariant forall v :: v in rootNodes <==> v in nodesMap[..i] && callerSet[v] == {}
        invariant Distinct(rootNodes) && InOrderOf(rootNodes, nodesMap)
      {
        if callerSet[nodesMap[i]] == {} {
          InOrderNext(rootNodes, nodesMap, i);
          rootNodes := rootNodes + [nodesMap[i]];
        }
      }
      RootsHaveNoCaller();
    }

    lemma RootsHaveNoCaller()
      requires Valid()
      ensures forall v :: v in nodesMap ==> (callerSet[v] == {} <==> forall u: nat :: !graph.Edge(u, v))
    {
      forall v | v in nodesMap
        ensures callerSet[v] == {} <==> forall u: nat :: !graph.Edge(u, v)
      {
        if forall u: nat :: !graph.Edge(u, v) {
          assert forall u: nat :: u !in callerSet[v];
        }
      }
    }

    method BuildSCCDFS(caller: nat, ghost gray: set<nat>)
      requires MayVisit(graph, dfs, gray, caller)
      modifies this`dfs
      ensures Sized(graph, dfs) && Visited(graph, old(dfs), dfs, gray, caller)
      decreases Unvisited(graph, dfs), 2
    {
      ghost var s0 := dfs;
      StartVisit(caller, gray);
      for k := 0 to |graph.callees[caller]|
        invariant Visiting(graph, s0, dfs, gray, caller, k, dfs.Low(caller))
      {
        VisitCallee(caller, k, s0, gray);
      }
      if dfs.Order(caller) == dfs.Low(caller) {
        PopScc(caller, s0, gray);
      } else {
        StayOnStack(graph, s0, dfs, gray, caller);
      }
    }

    method StartVisit(caller: nat, ghost gray: set<nat>)
      requires MayVisit(graph, dfs, gray, caller)
      modifies this`dfs
      ensures dfs == Enter(old(dfs), caller)
      ensures Visiting(graph, old(dfs), dfs, gray, caller, 0, dfs.Low(caller))
    {
      EnterStarts(graph, dfs, gray, caller);
      dfs := dfs.(visitedOrder := dfs.visitedOrder[caller := dfs.visitIndex],
      lowestOrder := dfs.lowestOrder[caller := dfs.visitIndex]);
      dfs := dfs.(visitIndex := dfs.visitIndex + 1);
      dfs := dfs.(visitStack := dfs.visitStack + [caller], inStack := dfs.inStack[caller := true]);
    }

    /** One round of the loop over the callees of `caller`. */
    method VisitCallee(caller: nat, k: nat, ghost s0: Snapshot, ghost gray: set<nat>)
      requires MayVisit(graph, s0, gray, caller) && k < |graph.callees[caller]|
      requires Visiting(graph, s0, dfs, gray, caller, k, dfs.Low(caller))
      modifies this`dfs
      ensures Visiting(graph, s0, dfs, gray, caller, k + 1, dfs.Low(caller))
      decreases Unvisited(graph, s0), 1
    {
      hide *;
      CalleesThere(graph, s0, gray, caller);
      var low := dfs.Low(caller);
      match graph.callees[caller][k] {
        case None =>
          NullCallee(graph, s0, dfs, gray, caller, k, low);
        case Some(callee) =>
          if dfs.Order(callee) == 0 {
            low := VisitNewCallee(caller, k, callee, s0, gray);
          } else {
            KnownCallee(graph, s0, dfs, gray, caller, k, low, callee);
            low := if dfs.OnStack(callee) then dfs.Order(callee) else low;
          }
      }
      LowerOrder(caller, low, s0, gray, k + 1);
    }

    method VisitNewCallee(caller: nat, k: nat, callee: nat, ghost s0: Snapshot, ghost gray: set<nat>)
      returns (low: nat)
      requires MayVisit(graph, s0, gray, caller)
      requires k < |graph.callees[caller]| && graph.callees[caller][k] == Some(callee)
      requires Visiting(graph, s0, dfs, gray, caller, k, dfs.Low(caller)) && dfs.Order(callee) == 0
      modifies this`dfs
      ensures Visiting(graph, s0, dfs, gray, caller, k + 1, if low < dfs.Low(caller) then low else dfs.Low(caller))
      decreases Unvisited(graph, s0), 0
    {
      ghost var s := dfs;
      hide *;
      MayVisitCallee(graph, s0, s, gray, caller, k, s.Low(caller), callee);
      BuildSCCDFS(callee, gray + {caller});
      NewCallee(graph, s0, s, dfs, gray, caller, k, s.Low(caller), callee);
      low := dfs.Low(callee);
    }

    /** `lowestOrder[id]` is replaced by `low` if that is smaller. */
    method LowerOrder(id: nat, low: nat, ghost s0: Snapshot, ghost gray: set<nat>, ghost done: nat)
      requires s0.Order(id) == 0
      requires Visiting(graph, s0, dfs, gray, id, done, if low < dfs.Low(id) then low else dfs.Low(id))
      modifies this`dfs
      ensures Visiting(graph, s0, dfs, gray, id, done, dfs.Low(id))
    {
      if low < dfs.lowestOrder[id] {
        LowerKeepsVisiting(graph, s0, dfs, gray, id, done, low);
        dfs := dfs.(lowestOrder := dfs.lowestOrder[id := low]);
      }
    }

    /** Pops the stack down to `id` into a new SCC. */
    method PopScc(id: nat, ghost s0: Snapshot, ghost gray: set<nat>)
      requires MayVisit(graph, s0, gray, id)
      requires Visiting(graph, s0, dfs, gray, id, |graph.callees[id]|, dfs.Low(id))
      requires dfs.Low(id) == dfs.Order(id)
      modifies this`dfs
      ensures dfs == Closed(old(dfs), |s0.visitStack|)
      ensures Visited(graph, s0, dfs, gray, id)
    {
      ghost var s := dfs;
      CloseScc(graph, s0, s, gray, id);
      StackBounds(graph, s0, s, gray, id);
      hide *;
      var cgNodes := PopDown(id, |s0.visitStack|);
      dfs := dfs.(sccNodes := dfs.sccNodes + [cgNodes]);
      ClosedIsPopped(s, |s0.visitStack|);
    }

    lemma ClosedIsPopped(s: Snapshot, p: nat)
      requires p <= |s.visitStack|
      ensures Closed(s, p) ==
              Popped(s, p).(sccNodes := Popped(s, p).sccNodes + [Reversed(s.visitStack[p..])])
    {
    }

    /** Pops entry after entry until `id`, which is entry `p`, has been popped. */
    method PopDown(id: nat, ghost p: nat) returns (cgNodes: seq<nat>)
      requires p < |dfs.visitStack| && |dfs.inStack| == |dfs.sccNode|
      requires forall i :: 0 <= i < |dfs.visitStack| ==>
                 dfs.visitStack[i] < |dfs.inStack| && (dfs.visitStack[i] == id <==> i == p)
      modifies this`dfs
      ensures dfs == Popped(old(dfs), p) && cgNodes == Reversed(old(dfs).visitStack[p..])
    {
      ghost var s := dfs;
      cgNodes := [];
      var done := false;
      assert Popped(s, |s.visitStack|) == s && Reversed(s.visitStack[|s.visitStack|..]) == [];
      hide Popped, Reversed;
      while !done
        invariant p <= |dfs.visitStack| <= |s.visitStack|
        invariant dfs == Popped(s, |dfs.visitStack|)
        invariant cgNodes == Reversed(s.visitStack[|dfs.visitStack|..])
        invariant done <==> |dfs.visitStack| == p
        decreases |dfs.visitStack|
      {
        var stackTopId := PopTop(s);
        cgNodes := cgNodes + [stackTopId];
        done := stackTopId == id;
      }
    }

    method PopTop(ghost s: Snapshot) returns (stackTopId: nat)
      requires 0 < |dfs.visitStack| <= |s.visitStack| && dfs == Popped(s, |dfs.visitStack|)
      requires forall i :: 0 <= i < |s.visitStack| ==> s.visitStack[i] < |s.inStack|
      requires |s.inStack| == |s.sccNode|
      modifies this`dfs
      ensures |dfs.visitStack| == old(|dfs.visitStack|) - 1 && dfs == Popped(s, |dfs.visitStack|)
      ensures stackTopId == s.visitStack[|dfs.visitStack|]
      ensures Reversed(s.visitStack[|dfs.visitStack|..])
           == Reversed(s.visitStack[|dfs.visitStack| + 1..]) + [stackTopId]
    {
      stackTopId := dfs.visitStack[|dfs.visitStack| - 1];
      PopOne(s, |dfs.visitStack| - 1);
      hide Popped, Reversed;
      dfs := dfs.(visitStack := dfs.visitStack[..|dfs.visitStack| - 1], inStack := dfs.inStack[stackTopId := false],
      sccNode := dfs.sccNode[stackTopId := Some(|dfs.sccNodes|)]);
    }

    // -------------------------------------------------------------------------------------------
    // Links between SCCs.
    // -------------------------------------------------------------------------------------------

    /** The other SCCs that a member of SCC `k` calls. */
    method SetupCallees(k: nat) returns (callees: set<nat>)
      requires Valid() && SccsExact(graph, nodesMap, dfs) && k < |dfs.sccNodes| && |dfs.sccNode| == |graph.callees|
      ensures forall c: nat :: c in callees <==> SccCalls(graph, dfs, k, c)
    {
      callees := {};
      var cgNodes := dfs.sccNodes[k];
      for i := 0 to |cgNodes|
        invariant forall c: nat :: c in callees <==> k != c && CalledFrom(graph, dfs, cgNodes[..i], c)
      {
        var node := cgNodes[i];
        assert dfs.Scc(node) == Some(k);
        for j := 0 to |graph.callees[node]|
          invariant forall c: nat ::
              c in callees <==> k != c && (CalledFrom(graph, dfs, cgNodes[..i], c) || CalledAt(graph, dfs, node, j, c))
        {
          match graph.callees[node][j]
          case None =>
          case Some(callee) =>
            CalleeHasScc(graph, nodesMap, dfs, node, callee);
            if dfs.Scc(callee) != Some(k) {
              callees := callees + {dfs.Scc(callee).value};
            }
        }
        CalledFromNext(graph, dfs, cgNodes, i);
      }
      assert cgNodes[..|cgNodes|] == cgNodes;
      CalledFromAll(graph, nodesMap, dfs, k);
    }

    /** The other SCCs that call a member of SCC `k`. */
    method SetupCallers(k: nat) returns (callers: set<nat>)
      requires Valid() && SccsExact(graph, nodesMap, dfs) && k < |dfs.sccNodes| && |dfs.sccNode| == |graph.callees|
      ensures forall c: nat :: c in callers <==> SccCalls(graph, dfs, c, k)
    {
      callers := {};
      var cgNodes := dfs.sccNodes[k];
      for i := 0 to |cgNodes|
        invariant forall c: nat :: c in callers <==> k != c && CalledBy(graph, dfs, c, cgNodes[..i])
      {
        assert dfs.Scc(cgNodes[i]) == Some(k);
        callers := AddCallers(k, cgNodes[i], callers);
        assert cgNodes[..i + 1] == cgNodes[..i] + [cgNodes[i]];
      }
      assert cgNodes[..|cgNodes|] == cgNodes;
      CalledByAll(graph, dfs, k);
    }

    method AddCallers(k: nat, node: nat, callers0: set<nat>) returns (callers: set<nat>)
      requires Valid() && SccsExact(graph, nodesMap, dfs) && node < |callerSet|
      ensures forall c: nat :: c in callers <==> c in callers0 || (k != c && CallsInto(graph, dfs, c, node))
    {
      callers := callers0;
      var todo := callerSet[node];
      while todo != {}
        invariant todo <= callerSet[node] && callers0 <= callers
        invariant forall c: nat :: c in callers ==> c in callers0 || (k != c && CallsInto(graph, dfs, c, node))
        invariant forall u: nat :: u in callerSet[node] && u !in todo && dfs.Scc(u) != Some(k) ==>
                    dfs.Scc(u).Some? && dfs.Scc(u).value in callers
        decreases |todo|
      {
        var caller: nat :| caller in todo;
        todo := todo - {caller};
        CallerHasScc(graph, nodesMap, dfs, caller);
        if dfs.Scc(caller) != Some(k) {
          callers := callers + {dfs.Scc(caller).value};
          assert CallsInto(graph, dfs, dfs.Scc(caller).value, node);
        }
      }
    }

    method BuildSCC()
      requires Valid() && RootsFound() && Unbuilt() && sccTopologicalVec == []
      modifies this`dfs, this`calleeScc, this`callerScc, this`sccTopologicalVec
      ensures Built() && Topological(SccLinks(), sccTopologicalVec)
    {
      VisitAll();
      SetupLinks();
      sccTopologicalVec := SCCTopologicalSort(Links(calleeScc, callerScc));
    }

    /** Visits from the roots first, then from every node that is still without an SCC. */
    method VisitAll()
      requires Valid() && RootsFound() && Unbuilt()
      modifies this`dfs
      ensures |dfs.sccNode| == |graph.callees| && SccsExact(graph, nodesMap, dfs) && ClosedSccs(graph, dfs)
    {
      hide *;
      ghost var started: seq<nat> := rootNodes;
      MapIsValid();
      VisitRoots();
      for i := 0 to |nodesMap|
        invariant Inv(graph, dfs, {}) && VisitedFrom(graph, dfs, started)
        invariant forall v :: v in started ==> v in nodesMap
        invariant forall v :: v in nodesMap[..i] ==> dfs.Order(v) > 0
      {
        NoPathNoStack(graph, dfs);
        if dfs.Scc(nodesMap[i]) == None {
          ghost var s0 := dfs;
          MayVisitMapped(graph, dfs, nodesMap[i]);
          BuildSCCDFS(nodesMap[i], {});
          VisitExtends(graph, started, s0, dfs, nodesMap[i]);
          started := started + [nodesMap[i]];
        }
        assert nodesMap[..i + 1] == nodesMap[..i] + [nodesMap[i]];
      }
      assert nodesMap[..|nodesMap|] == nodesMap;
      BuiltIsExact(graph, nodesMap, started, dfs);
      SizedReads(graph, dfs);
    }

    lemma SizedReads(g: Digraph, s: Snapshot)
      requires Sized(g, s)
      ensures |s.sccNode| == |g.callees|
    {
    }

    lemma MapIsValid()
      requires Valid() && RootsFound()
      ensures graph.Valid() && (forall i :: 0 <= i < |nodesMap| ==> nodesMap[i] < |graph.callees|)
      ensures forall v :: v in rootNodes ==> v in nodesMap
    {
    }

    /** A root has not been visited when its turn comes. */
    lemma RootMayVisit(s: Snapshot, i: nat)
      requires Valid() && RootsFound() && i < |rootNodes|
      requires Inv(graph, s, {}) && VisitedFrom(graph, s, rootNodes[..i])
      ensures MayVisit(graph, s, {}, rootNodes[i])
    {
      assert rootNodes[i] in rootNodes;
      RootIsNew(graph, rootNodes, i);
      hide Inv;
    }

    method VisitRoots()
      requires Valid() && RootsFound() && Unbuilt()
      modifies this`dfs
      ensures Inv(graph, dfs, {}) && VisitedFrom(graph, dfs, rootNodes)
    {
      hide *;
      ghost var s := dfs;
      UnbuiltReads();
      var n := |graph.callees|;
      dfs := dfs.(visitIndex := 1, visitedOrder := seq(n, _ => 0), lowestOrder := seq(n, _ => 0),
      inStack := seq(n, _ => false));
      UnvisitedInv(graph, s, dfs);
      assert rootNodes[..0] == [];
      for i := 0 to |rootNodes|
        invariant Inv(graph, dfs, {}) && VisitedFrom(graph, dfs, rootNodes[..i])
      {
        ghost var s0 := dfs;
        RootMayVisit(dfs, i);
        BuildSCCDFS(rootNodes[i], {});
        VisitExtends(graph, rootNodes[..i], s0, dfs, rootNodes[i]);
        assert rootNodes[..i + 1] == rootNodes[..i] + [rootNodes[i]];
      }
      assert rootNodes[..|rootNodes|] == rootNodes;
    }

    lemma UnbuiltReads()
      requires Unbuilt()
      ensures |dfs.sccNode| == |graph.callees| && (forall v: nat :: dfs.Scc(v) == None) && dfs.sccNodes == []
      ensures dfs.visitStack == []
    {
    }

    method SetupLinks()
      requires Valid() && SccsExact(graph, nodesMap, dfs) && ClosedSccs(graph, dfs)
      requires |dfs.sccNode| == |graph.callees|
      modifies this`calleeScc, this`callerScc
      ensures Built()
    {
      hide *;
      calleeScc, callerScc := [], [];
      NoLinksYet(graph, dfs);
      for k := 0 to |dfs.sccNodes|
        invariant |calleeScc| == |callerScc| == k && LinksSoFar(graph, dfs, calleeScc, callerScc)
      {
        var callees := SetupCallees(k);
        var callers := SetupCallers(k);
        LinksNext(graph, dfs, calleeScc, callerScc, callees, callers);
        calleeScc, callerScc := calleeScc + [callees], callerScc + [callers];
      }
      LinksDone(graph, dfs, calleeScc, callerScc);
      NowBuilt();
    }

    lemma NowBuilt()
      requires SccsExact(graph, nodesMap, dfs) && ClosedSccs(graph, dfs) && |dfs.sccNode| == |graph.callees|
      requires LinksExact(graph, dfs, calleeScc, callerScc)
      ensures Built()
    {
      BuiltIsNumbered(graph, dfs, calleeScc, callerScc);
      hide SccsExact, ClosedSccs, LinksExact, Numbered;
    }

    /** Whether SCC `k` is recursive: several members, or one that calls itself. */
    method HasRecursion(k: nat) returns (recursive: bool)
      requires Valid() && Built() && k < |dfs.sccNodes|
      ensures recursive <==> exists v :: v in dfs.sccNodes[k] && graph.ReachByCalls(v, v)
    {
      var cgNodes := dfs.sccNodes[k];
      if |cgNodes| > 1 {
        ManyAreRecursive(graph, nodesMap, dfs, k);
        return true;
      }
      var node := cgNodes[0];
      OneIsRecursive(graph, nodesMap, dfs, k);
      for i := 0 to |graph.callees[node]|
        invariant Some(node) !in graph.callees[node][..i]
      {
        if graph.callees[node][i] == Some(node) {
          return true;
        }
      }
      assert graph.callees[node][..|graph.callees[node]|] == graph.callees[node];
      return false;
    }

    // -------------------------------------------------------------------------------------------
    // Passes over the topological order.
    // -------------------------------------------------------------------------------------------

    /** A member that may be called from another module or through a pointer keeps its SCC. */
    ghost predicate Pinned(k: nat)
      requires |addrTaken| == |mirFunc|
      reads this`dfs
    {
      k < |dfs.sccNodes| && exists v :: v in dfs.sccNodes[k] && v < |mirFunc| && MayBeReferred(v)
    }

    /** SCC `k` is pinned, or is reached over callee links from a pinned SCC. */
    ghost predicate ReachedFromPinnedScc(k: nat)
      requires |addrTaken| == |mirFunc|
      reads this
    {
      k < |calleeScc| && exists u, p :: Pinned(u) && SccPath(SccLinks(), p, u, k)
    }

    /** The function can be called from another module, or through a pointer. */
    ghost predicate MayBeReferred(v: nat)
      requires v < |mirFunc| && v < |addrTaken|
    {
      mirFunc[v].Some? && (mirFunc[v].value.isStatic ==> addrTaken[v])
    }

    method PinnedSccs() returns (pinned: set<nat>)
      requires Valid() && Built()
      ensures forall k: nat :: k in pinned <==> Pinned(k)
    {
      pinned := {};
      for k := 0 to |dfs.sccNodes|
        invariant forall l: nat :: l in pinned <==> l < k && Pinned(l)
      {
        var canBeDel := true;
        for i := 0 to |dfs.sccNodes[k]|
          invariant canBeDel <==> forall j :: 0 <= j < i ==> !MayBeReferred(dfs.sccNodes[k][j])
        {
          var node := dfs.sccNodes[k][i];
          assert dfs.Scc(node) == Some(k);
          if mirFunc[node] != None && (!mirFunc[node].value.isStatic || addrTaken[node]) {
            canBeDel := false;
          }
        }
        if !canBeDel {
          pinned := pinned + {k};
        }
      }
    }

    /** Drops the SCCs of file-static functions that nothing left over can call. */
    method RemoveFileStaticSccs()
      requires Valid() && Built() && Topological(SccLinks(), sccTopologicalVec)
      modifies this`sccTopologicalVec
      ensures forall k: nat :: k in sccTopologicalVec <==> ReachedFromPinnedScc(k)
      ensures Distinct(sccTopologicalVec) && NoBackCalls(SccLinks(), sccTopologicalVec)
    {
      var pinned := PinnedSccs();
      var l := Links(calleeScc, callerScc);
      TopologicalNoBackCalls(l, sccTopologicalVec);
      StayingPartOrdered(l, pinned, sccTopologicalVec);
      sccTopologicalVec := RemoveFileStaticSCC(l, sccTopologicalVec, pinned);
      PinnedReach(pinned);
    }

    lemma PinnedReach(pinned: set<nat>)
      requires Valid() && Numbered(SccLinks()) && forall k: nat :: k in pinned <==> Pinned(k)
      ensures forall k: nat :: ReachedFromPinnedScc(k) <==>
                               k < |calleeScc| && ReachedFromPinned(SccLinks(), pinned, k)
    {
      forall k: nat
        ensures ReachedFromPinnedScc(k) <==> k < |calleeScc| && ReachedFromPinned(SccLinks(), pinned, k)
      {
        if ReachedFromPinned(SccLinks(), pinned, k) {
          var u, p :| u in pinned && SccPath(SccLinks(), p, u, k);
          assert Pinned(u);
        }
      }
    }

    function MIRFunctionOf(v: nat): Option<MirFunction> {
      if v < |mirFunc| then mirFunc[v] else None
    }

    /** A native function is compiled only outside interprocedural analysis, and only if it has a body. */
    ghost predicate Compiled(v: nat) {
      var func := MIRFunctionOf(v);
      func.Some? && (func.value.isNative ==> func.value.hasBody && !isInIPA)
    }

    lemma CompiledReads(v: nat)
      ensures var func := MIRFunctionOf(v);
        Compiled(v) <==> (func != None && func.value.hasBody && !isInIPA) || (func != None && !func.value.isNative)
    {
    }

    /** The members of an SCC in whatever order the sort leaves them. */
    method SortCGNodes(k: nat)
      requires k < |dfs.sccNodes|
      modifies this`dfs
      ensures |dfs.sccNodes| == |old(dfs).sccNodes| && multiset(dfs.sccNodes[k]) == multiset(old(dfs).sccNodes[k])
      ensures dfs == old(dfs).(sccNodes := old(dfs).sccNodes[k := dfs.sccNodes[k]])
    {
      var cgNodes := dfs.sccNodes[k];
      var sorted: seq<nat> :| multiset(sorted) == multiset(cgNodes);
      dfs := dfs.(sccNodes := dfs.sccNodes[k := sorted]);
    }

    /** Callees before callers: walking the topological order backwards, whatever order the members of an SCC get. */
    method SetCompilationFunclist()
      requires Valid() && Built()
      requires Distinct(sccTopologicalVec) && NoBackCalls(SccLinks(), sccTopologicalVec)
      modifies this`dfs, this`compilationList, this`functionList
      ensures compilationList == functionList && Distinct(compilationList)
      ensures forall v: nat :: v in compilationList <==>
                Compiled(v) && dfs.Scc(v).Some? && dfs.Scc(v).value in sccTopologicalVec
      ensures CalleesFirst(graph, compilationList)
      ensures dfs == old(dfs).(sccNodes := dfs.sccNodes) && ListsAgree(dfs)
    {
      hide *;
      ghost var s0 := dfs;
      ReadBuilt();
      compilationList, functionList := [], [];
      NothingCollected(s0);
      assert sccTopologicalVec[|sccTopologicalVec|..] == [];
      for i := |sccTopologicalVec| downto 0
        invariant dfs == s0.(sccNodes := dfs.sccNodes) && ListsAgree(dfs) && |dfs.sccNodes| == |s0.sccNodes|
        invariant compilationList == functionList
        invariant Collected(s0, compilationList, sccTopologicalVec[i..], [])
      {
        var k := sccTopologicalVec[i];
        ghost var before := dfs;
        SortCGNodes(k);
        SortedAgree(before, k, dfs.sccNodes[k]);
        SamePointers(s0, before);
        AddScc(s0, i, dfs.sccNodes[k]);
      }
      assert sccTopologicalVec[0..] == sccTopologicalVec;
      CollectedReads(s0, compilationList, sccTopologicalVec);
      SamePointers(s0, dfs);
    }

    lemma ReadBuilt()
      requires Built() && NoBackCalls(SccLinks(), sccTopologicalVec)
      ensures SccsExact(graph, nodesMap, dfs) && LinksExact(graph, dfs, calleeScc, callerScc) && ListsAgree(dfs)
      ensures forall i :: 0 <= i < |sccTopologicalVec| ==> sccTopologicalVec[i] < |dfs.sccNodes|
    {
      hide ListsAgree, LinksSoFar, Numbered;
    }

    lemma SamePointers(s: Snapshot, t: Snapshot)
      requires t == s.(sccNodes := t.sccNodes)
      ensures forall v: nat :: t.Scc(v) == s.Scc(v)
    {
    }

    lemma NothingCollected(s: Snapshot)
      ensures Collected(s, [], [], [])
    {
    }

    lemma CollectedReads(s: Snapshot, list: seq<nat>, sccs: seq<nat>)
      requires Collected(s, list, sccs, [])
      ensures forall v: nat :: v in list <==> Compiled(v) && s.Scc(v).Some? && s.Scc(v).value in sccs
      ensures Distinct(list) && CalleesFirst(graph, list)
    {
      hide CalleesFirst, Distinct;
    }

    /** The list built so far: the compiled functions of the SCCs in `sccs` and of `part`, callees first. */
    ghost predicate Collected(s: Snapshot, list: seq<nat>, sccs: seq<nat>, part: seq<nat>) {
      && (forall v: nat :: v in list <==>
            Compiled(v) && (v in part || (s.Scc(v).Some? && s.Scc(v).value in sccs)))
      && Distinct(list)
      && CalleesFirst(graph, list)
    }

    /** SCC `k` is not among `sccs`, and none of those calls it. */
    ghost predicate InFront(s: Snapshot, l: Links, sccs: seq<nat>, k: nat) {
      && LinksExact(graph, s, l.calleeScc, l.callerScc)
      && k !in sccs && (forall c :: c in sccs ==> c < |l.calleeScc| && k !in l.calleeScc[c])
    }

    /** In a list that is collected with callees first, a call into the SCC in front comes from that SCC. */
    lemma CallerIsMember(s: Snapshot, l: Links, list: seq<nat>, sccs: seq<nat>, part: seq<nat>, k: nat, u: nat, v: nat)
      requires SccsExact(graph, nodesMap, s) && InFront(s, l, sccs, k) && Collected(s, list, sccs, part)
      requires u in list && graph.Edge(u, v) && s.Scc(v) == Some(k)
      ensures u in part
    {
      hide SccsExact;
      assert u in part || (s.Scc(u).Some? && s.Scc(u).value in sccs);
      assert s.Scc(u).Some? ==> SccCalls(graph, s, s.Scc(u).value, k) || s.Scc(u) == Some(k);
    }

    lemma AppendNode(s: Snapshot, l: Links, list: seq<nat>, sccs: seq<nat>, part: seq<nat>, k: nat, v: nat)
      requires SccsExact(graph, nodesMap, s) && InFront(s, l, sccs, k)
      requires Collected(s, list, sccs, part) && v !in part && s.Scc(v) == Some(k)
      requires forall u :: u in part ==> s.Scc(u) == Some(k)
      ensures Collected(s, if Compiled(v) then list + [v] else list, sccs, part + [v])
    {
      var list' := list + [v];
      forall i, j | 0 <= i < j < |list'| && graph.Edge(list'[i], list'[j])
        ensures graph.Mutual(list'[i], list'[j])
      {
        if j == |list| {
          assert list'[i] in list;
          CallerIsMember(s, l, list, sccs, part, k, list'[i], v);
        }
      }
    }

    method AddScc(ghost s: Snapshot, i: nat, cgNodes: seq<nat>)
      requires Valid() && SccsExact(graph, nodesMap, s) && LinksExact(graph, s, calleeScc, callerScc)
      requires Distinct(sccTopologicalVec) && NoBackCalls(SccLinks(), sccTopologicalVec)
      requires i < |sccTopologicalVec| && compilationList == functionList
      requires Distinct(cgNodes) && forall v: nat :: v in cgNodes <==> s.Scc(v) == Some(sccTopologicalVec[i])
      requires Collected(s, compilationList, sccTopologicalVec[i + 1..], [])
      modifies this`compilationList, this`functionList
      ensures compilationList == functionList
      ensures Collected(s, compilationList, sccTopologicalVec[i..], [])
    {
      hide *;
      ghost var sccs, k := sccTopologicalVec[i + 1..], sccTopologicalVec[i];
      TurnInFront(s, i);
      assert cgNodes[..0] == [];
      for j := 0 to |cgNodes|
        invariant compilationList == functionList && SccLinks() == old(SccLinks())
        invariant Collected(s, compilationList, sccs, cgNodes[..j])
      {
        var node := cgNodes[j];
        DistinctTake(cgNodes, j);
        AppendNode(s, SccLinks(), compilationList, sccs, cgNodes[..j], k, node);
        CompiledReads(node);
        var func := MIRFunctionOf(node);
        if (func != None && func.value.hasBody && !isInIPA) || (func != None && !func.value.isNative) {
          compilationList := compilationList + [node];
          functionList := functionList + [node];
        }
      }
      assert cgNodes[..|cgNodes|] == cgNodes;
      WholeScc(s, compilationList, sccs, cgNodes, k);
      assert sccTopologicalVec[i..] == [k] + sccs;
    }

    lemma TurnInFront(s: Snapshot, i: nat)
      requires LinksExact(graph, s, calleeScc, callerScc) && i < |sccTopologicalVec|
      requires Distinct(sccTopologicalVec) && NoBackCalls(SccLinks(), sccTopologicalVec)
      ensures InFront(s, SccLinks(), sccTopologicalVec[i + 1..], sccTopologicalVec[i])
    {
      hide LinksExact;
    }

    /** All members of SCC `k` have been added. */
    lemma WholeScc(s: Snapshot, list: seq<nat>, sccs: seq<nat>, part: seq<nat>, k: nat)
      requires Collected(s, list, sccs, part) && forall v: nat :: v in part <==> s.Scc(v) == Some(k)
      ensures Collected(s, list, [k] + sccs, [])
    {
      hide CalleesFirst;
    }

    // -------------------------------------------------------------------------------------------
    // The whole construction.
    // -------------------------------------------------------------------------------------------

    /** The function is called, directly or not, from one that may be referred to from outside, or is one. */
    ghost predicate Needed(v: nat)
      requires |addrTaken| == |mirFunc|
    {
      exists u: nat :: ReachedFrom(graph, nodesMap, u) && u < |mirFunc| && MayBeReferred(u) && graph.Reach(u, v)
    }

    lemma NeededIsReached(v: nat)
      requires Valid() && Built() && dfs.Scc(v).Some?
      ensures Needed(v) <==> ReachedFromPinnedScc(dfs.Scc(v).value)
    {
      var k, l := dfs.Scc(v).value, SccLinks();
      if Needed(v) {
        var u: nat :| ReachedFrom(graph, nodesMap, u) && u < |mirFunc| && MayBeReferred(u) && graph.Reach(u, v);
        var p :| graph.Path(p, u, v);
        var q := CallsSccPath(graph, nodesMap, dfs, l, p, u, v);
        assert Pinned(dfs.Scc(u).value);
      }
      if ReachedFromPinnedScc(k) {
        var a: nat, p :| Pinned(a) && SccPath(l, p, a, k);
        var u: nat :| u in dfs.sccNodes[a] && u < |mirFunc| && MayBeReferred(u);
        assert dfs.Scc(u) == Some(a);
        SccPathCalls(graph, nodesMap, dfs, l, p, a, k, u, v);
      }
    }

    /** The nodes whose SCC is left in the list are those that are needed. */
    lemma NeededAreLeft()
      requires Valid() && Built() && forall k: nat :: k in sccTopologicalVec <==> ReachedFromPinnedScc(k)
      ensures forall v: nat :: dfs.Scc(v).Some? && dfs.Scc(v).value in sccTopologicalVec <==> Needed(v)
    {
      forall v: nat
        ensures dfs.Scc(v).Some? && dfs.Scc(v).value in sccTopologicalVec <==> Needed(v)
      {
        if Needed(v) {
          var u: nat :| ReachedFrom(graph, nodesMap, u) && u < |mirFunc| && MayBeReferred(u) && graph.Reach(u, v);
          var w :| w in nodesMap && graph.Reach(w, u);
          graph.ReachTrans(w, u, v);
        }
        if dfs.Scc(v).Some? {
          NeededIsReached(v);
        }
      }
    }

    ghost predicate Wanted(v: nat)
      requires |addrTaken| == |mirFunc|
    {
      if isCModule then Needed(v) else ReachedFrom(graph, nodesMap, v)
    }

    /** Roots, SCCs, their order, and in a C module the removal of what nobody can call. */
    method GenCallGraph()
      requires Valid() && Unbuilt() && rootNodes == [] && sccTopologicalVec == []
      modifies this
      ensures Built() && Distinct(sccTopologicalVec) && NoBackCalls(SccLinks(), sccTopologicalVec)
      ensures forall v: nat :: dfs.Scc(v).Some? && dfs.Scc(v).value in sccTopologicalVec <==> Wanted(v)
    {
      FindRootNodes();
      BuildSCC();
      if isCModule {
        RemoveFileStaticSccs();
        NeededAreLeft();
      } else {
        TopologicalNoBackCalls(SccLinks(), sccTopologicalVec);
      }
    }

    /**
     * From the call edges to the compilation list: every function that is reached, or in a C module still needed, once,
     * and none before a function it calls unless they call each other. Native functions are listed only outside
     * interprocedural analysis and with a body, and what can be called from outside is always listed.
     */
    method BuildCallGraph()
      requires Valid() && Unbuilt() && rootNodes == [] && sccTopologicalVec == []
      modifies this
      ensures compilationList == functionList && Distinct(compilationList)
      ensures CalleesFirst(graph, compilationList)
      ensures forall v: nat :: v in compilationList ==> Wanted(v) && MIRFunctionOf(v).Some?
      ensures forall v: nat :: Wanted(v) && MIRFunctionOf(v).Some? && !MIRFunctionOf(v).value.isNative ==>
                v in compilationList
      ensures forall v: nat :: Wanted(v) && MIRFunctionOf(v).Some? && MIRFunctionOf(v).value.isNative ==>
                (v in compilationList <==> !isInIPA && MIRFunctionOf(v).value.hasBody)
      ensures forall v: nat | ReachedFrom(graph, nodesMap, v) && MIRFunctionOf(v).Some? &&
                              (isCModule && mirFunc[v].value.isStatic ==> addrTaken[v]) :: Wanted(v)
    {
      GenCallGraph();
      SetCompilationFunclist();
      forall v: nat | ReachedFrom(graph, nodesMap, v) && MIRFunctionOf(v).Some? &&
                      (isCModule && mirFunc[v].value.isStatic ==> addrTaken[v])
        ensures Wanted(v)
      {
        graph.ReachSelf(v);
      }
    }
  }
}
