/** The state of the depth-first SCC construction and the invariant every step of it keeps. */
module SccState {
  import opened Wrappers
  import opened CallDigraph

  /**
   * A snapshot of the construction: `visitedOrder` (0 = not visited), `lowestOrder`, `visitStack`,
   * `inStack`, each node's SCC pointer and the SCCs closed so far, each with its members in pop order.
   */
  datatype Snapshot = Snapshot(visitIndex: nat, visitedOrder: seq<nat>, lowestOrder: seq<nat>, visitStack: seq<nat>,
                               inStack: seq<bool>, sccNode: seq<Option<nat>>, sccNodes: seq<seq<nat>>) {
    function Order(v: nat): nat {
      if v < |visitedOrder| then visitedOrder[v] else 0
    }

    function Low(v: nat): nat {
      if v < |lowestOrder| then lowestOrder[v] else 0
    }

    function Scc(v: nat): Option<nat> {
      if v < |sccNode| then sccNode[v] else None
    }

    predicate OnStack(v: nat) {
      v < |inStack| && inStack[v]
    }
  }

  ghost predicate Sized(g: Digraph, s: Snapshot) {
    |s.visitedOrder| == |s.lowestOrder| == |s.inStack| == |s.sccNode| == |g.callees|
  }

  /** The stack holds visited nodes in the order of their visits, and `inStack` is its characteristic vector. */
  ghost predicate StackOrdered(s: Snapshot) {
    && s.visitIndex >= 1
    && (forall v: nat :: s.Order(v) < s.visitIndex)
    && (forall i :: 0 <= i < |s.visitStack| ==> s.Order(s.visitStack[i]) > 0)
    && (forall i, j :: 0 <= i < j < |s.visitStack| ==> s.Order(s.visitStack[i]) < s.Order(s.visitStack[j]))
    && (forall v: nat :: s.OnStack(v) <==> v in s.visitStack)
  }

  /** Visited nodes are exactly those on the stack and those with an SCC; SCC lists and SCC pointers agree. */
  ghost predicate Filed(s: Snapshot) {
    && (forall v: nat :: s.Order(v) > 0 <==> s.OnStack(v) || s.Scc(v).Some?)
    && (forall v: nat :: s.Scc(v).Some? ==> !s.OnStack(v))
    && ListsAgree(s)
  }

  ghost predicate ListsAgree(s: Snapshot) {
    && (forall v: nat :: s.Scc(v).Some? ==> s.Scc(v).value < |s.sccNodes| && v in s.sccNodes[s.Scc(v).value])
    && (forall k, i :: 0 <= k < |s.sccNodes| && 0 <= i < |s.sccNodes[k]| ==> s.Scc(s.sccNodes[k][i]) == Some(k))
    && (forall k, i, j :: 0 <= k < |s.sccNodes| && 0 <= i < j < |s.sccNodes[k]| ==>
          s.sccNodes[k][i] != s.sccNodes[k][j])
    && (forall k :: 0 <= k < |s.sccNodes| ==> |s.sccNodes[k]| > 0)
  }

  /** A finished node (visited, not on the current call path `gray`) has no unvisited callee. */
  ghost predicate NoBlackToWhite(g: Digraph, s: Snapshot, gray: set<nat>) {
    forall v: nat, w: nat :: s.Order(v) > 0 && v !in gray && g.Edge(v, w) ==> s.Order(w) > 0
  }

  /** Lower stack entries reach higher ones, and every entry reaches a call-path node at or below it. */
  ghost predicate StackLinked(g: Digraph, s: Snapshot, gray: set<nat>) {
    && (forall v :: v in gray ==> v in s.visitStack)
    && (forall i, j :: 0 <= i <= j < |s.visitStack| ==> g.Reach(s.visitStack[i], s.visitStack[j]))
    && (forall j :: 0 <= j < |s.visitStack| ==> ReachesGray(g, s.visitStack, j, gray))
  }

  ghost predicate ReachesGray(g: Digraph, stack: seq<nat>, j: nat, gray: set<nat>) {
    exists i :: 0 <= i <= j < |stack| && stack[i] in gray && g.Reach(stack[j], stack[i])
  }

  /** Closed SCCs are exact, and calls out of a closed SCC go to SCCs closed no later. */
  ghost predicate ClosedSccs(g: Digraph, s: Snapshot) {
    && (forall v: nat, w: nat :: s.Scc(v).Some? && g.Edge(v, w) ==> s.Scc(w).Some? && s.Scc(w).value <= s.Scc(v).value)
    && (forall v: nat, w: nat :: s.Scc(v).Some? && s.Scc(w).Some? ==> (s.Scc(v) == s.Scc(w) <==> g.Mutual(v, w)))
  }

  ghost predicate Inv(g: Digraph, s: Snapshot, gray: set<nat>) {
    Sized(g, s) && StackOrdered(s) && Filed(s) && NoBlackToWhite(g, s, gray) && StackLinked(g, s, gray)
    && ClosedSccs(g, s)
  }

  /** What a step from `s0` to `s` under the visit of `id` leaves alone, and which nodes it may newly visit. */
  ghost predicate Grows(g: Digraph, s0: Snapshot, s: Snapshot, id: nat) {
    && s0.visitIndex <= s.visitIndex
    && (forall v: nat :: s0.Order(v) > 0 ==> s.Order(v) == s0.Order(v) && s.Low(v) == s0.Low(v))
    && (forall v: nat :: s0.Order(v) == 0 && s.Order(v) > 0 ==> s.Order(v) >= s0.visitIndex && g.Reach(id, v))
    && s0.visitStack <= s.visitStack
    && s0.sccNodes <= s.sccNodes
    && (forall v: nat :: s0.Scc(v).Some? ==> s.Scc(v) == s0.Scc(v))
  }

  /** `low` is the visit order of a stack node that `id` reaches. */
  ghost predicate LowIsReached(g: Digraph, s: Snapshot, id: nat, low: nat) {
    exists v :: v in s.visitStack && s.Order(v) == low && g.Reach(id, v)
  }

  /** Calls from stack entries at or above `from` into the part below `base` are covered by `low`. */
  ghost predicate LowCovers(g: Digraph, s: Snapshot, base: nat, from: nat, low: nat) {
    forall i, j :: from <= i < |s.visitStack| && 0 <= j < base && j < |s.visitStack| ==>
      g.Edge(s.visitStack[i], s.visitStack[j]) ==> low <= s.Order(s.visitStack[j])
  }

  /** What one complete visit of `id` establishes. */
  ghost predicate Visited(g: Digraph, s0: Snapshot, s: Snapshot, gray: set<nat>, id: nat) {
    && Inv(g, s, gray)
    && Grows(g, s0, s, id)
    && 0 < s.Order(id)
    && s.Low(id) <= s.Order(id)
    && (s.OnStack(id) ==> LowIsReached(g, s, id, s.Low(id)))
    && (!s.OnStack(id) ==> s.Low(id) == s.Order(id))
    && LowCovers(g, s, |s0.visitStack|, |s0.visitStack|, s.Low(id))
  }

  /** The loop over the callees of `id`, with the first `done` callees processed and `low` the low value so far. */
  ghost predicate Visiting(g: Digraph, s0: Snapshot, s: Snapshot, gray: set<nat>, id: nat, done: nat, low: nat) {
    && Inv(g, s, gray + {id})
    && Grows(g, s0, s, id)
    && s0.visitStack + [id] <= s.visitStack
    && s.Order(id) == s0.visitIndex
    && low <= s.Order(id)
    && LowIsReached(g, s, id, low)
    && LowCovers(g, s, |s0.visitStack|, |s0.visitStack| + 1, low)
    && CalleesSeen(g, s0, s, id, done, low)
  }

  /** The first `done` callees of `id` are visited, and `low` covers those that were on the stack. */
  ghost predicate CalleesSeen(g: Digraph, s0: Snapshot, s: Snapshot, id: nat, done: nat, low: nat) {
    && id < |g.callees|
    && done <= |g.callees[id]|
    && forall k :: 0 <= k < done && g.callees[id][k].Some? ==>
         s.Order(g.callees[id][k].value) > 0
         && (g.callees[id][k].value in s0.visitStack ==> low <= s.Order(g.callees[id][k].value))
  }

  /** The visit of `id` may start: it is unvisited and every node on the call path reaches it. */
  ghost predicate MayVisit(g: Digraph, s0: Snapshot, gray: set<nat>, id: nat) {
    && g.Valid() && Inv(g, s0, gray) && id < |g.callees| && s0.Order(id) == 0
    && forall x :: x in gray ==> g.Reach(x, id)
  }

  // ---------------------------------------------------------------------------------------------
  // The steps the visit of a node is made of.
  // ---------------------------------------------------------------------------------------------

  ghost function Enter(s: Snapshot, id: nat): Snapshot
    requires id < |s.visitedOrder| && id < |s.lowestOrder| && id < |s.inStack|
  {
    s.(visitedOrder := s.visitedOrder[id := s.visitIndex], lowestOrder := s.lowestOrder[id := s.visitIndex],
       visitIndex := s.visitIndex + 1, visitStack := s.visitStack + [id], inStack := s.inStack[id := true])
  }

  ghost function Lower(s: Snapshot, id: nat, low: nat): Snapshot
    requires id < |s.lowestOrder|
  {
    s.(lowestOrder := s.lowestOrder[id := low])
  }

  lemma EnterOrdered(s0: Snapshot, id: nat)
    requires StackOrdered(s0) && Filed(s0) && s0.Order(id) == 0
    requires id < |s0.visitedOrder| && id < |s0.lowestOrder| && id < |s0.inStack|
    ensures StackOrdered(Enter(s0, id)) && Filed(Enter(s0, id))
  {
    EnterStack(s0, id);
    EnterFiled(s0, id);
    hide *;
  }

  lemma EnterStack(s0: Snapshot, id: nat)
    requires StackOrdered(s0) && s0.Order(id) == 0
    requires id < |s0.visitedOrder| && id < |s0.lowestOrder| && id < |s0.inStack|
    ensures StackOrdered(Enter(s0, id))
  {
    var s := Enter(s0, id);
    assert id !in s0.visitStack;
    EnterReads(s0, id);
    hide Enter;
    forall i, j | 0 <= i < j < |s.visitStack|
      ensures s.Order(s.visitStack[i]) < s.Order(s.visitStack[j])
    {
      assert s.visitStack[i] == s0.visitStack[i] != id;
      assert j < |s0.visitStack| ==> s.visitStack[j] == s0.visitStack[j] != id;
    }
  }

  lemma EnterReads(s0: Snapshot, id: nat)
    requires id < |s0.visitedOrder| && id < |s0.lowestOrder| && id < |s0.inStack|
    ensures var s := Enter(s0, id);
      && s.visitStack == s0.visitStack + [id] && s.visitIndex == s0.visitIndex + 1
      && (forall v :: v in s.visitStack <==> v in s0.visitStack || v == id)
      && (forall v: nat {:trigger s.Order(v)} :: s.Order(v) == if v == id then s0.visitIndex else s0.Order(v))
      && (forall v: nat {:trigger s.OnStack(v)} :: s.OnStack(v) <==> s0.OnStack(v) || v == id)
  {
  }

  lemma EnterFiled(s0: Snapshot, id: nat)
    requires StackOrdered(s0) && Filed(s0) && s0.Order(id) == 0
    requires id < |s0.visitedOrder| && id < |s0.lowestOrder| && id < |s0.inStack|
    ensures Filed(Enter(s0, id))
  {
    var s := Enter(s0, id);
    assert s.sccNodes == s0.sccNodes && forall v: nat :: s.Scc(v) == s0.Scc(v);
    assert forall v: nat :: s.Order(v) == if v == id then s0.visitIndex else s0.Order(v);
    assert forall v: nat :: s.OnStack(v) <==> s0.OnStack(v) || v == id;
    assert s0.visitIndex >= 1;
    hide StackOrdered, Enter;
  }

  lemma EnterReaches(g: Digraph, s0: Snapshot, gray: set<nat>, id: nat, i: nat)
    requires StackLinked(g, s0, gray) && i < |s0.visitStack|
    requires forall x :: x in gray ==> g.Reach(x, id)
    ensures g.Reach(s0.visitStack[i], id)
  {
    var m := |s0.visitStack| - 1;
    assert ReachesGray(g, s0.visitStack, m, gray);
    var k :| 0 <= k <= m && s0.visitStack[k] in gray && g.Reach(s0.visitStack[m], s0.visitStack[k]);
    g.ReachTrans(s0.visitStack[i], s0.visitStack[m], s0.visitStack[k]);
    g.ReachTrans(s0.visitStack[i], s0.visitStack[k], id);
  }

  lemma EnterLinked(g: Digraph, s0: Snapshot, gray: set<nat>, id: nat)
    requires StackLinked(g, s0, gray)
    requires id < |s0.visitedOrder| && id < |s0.lowestOrder| && id < |s0.inStack|
    requires forall x :: x in gray ==> g.Reach(x, id)
    ensures StackLinked(g, Enter(s0, id), gray + {id})
  {
    var stack, stack' := s0.visitStack, s0.visitStack + [id];
    var m := |stack|;
    g.ReachSelf(id);
    assert stack'[m] == id;
    forall i, j | 0 <= i <= j < |stack'|
      ensures g.Reach(stack'[i], stack'[j])
    {
      if i < m && j == m {
        EnterReaches(g, s0, gray, id, i);
      }
    }
    forall j | 0 <= j < |stack'|
      ensures ReachesGray(g, stack', j, gray + {id})
    {
      if j < m {
        assert ReachesGray(g, stack, j, gray);
        var k :| 0 <= k <= j && stack[k] in gray && g.Reach(stack[j], stack[k]);
        assert stack'[k] in gray + {id} && g.Reach(stack'[j], stack'[k]);
      }
    }
  }

  lemma EnterStarts(g: Digraph, s0: Snapshot, gray: set<nat>, id: nat)
    requires MayVisit(g, s0, gray, id)
    ensures Visiting(g, s0, Enter(s0, id), gray, id, 0, s0.visitIndex)
  {
    hide Inv, MayVisit, Grows, LowIsReached, LowCovers, CalleesSeen, Enter;
    MayVisitReads(g, s0, gray, id);
    EnterInv(g, s0, gray, id);
    EnterFacts(g, s0, gray, id);
  }

  lemma MayVisitReads(g: Digraph, s0: Snapshot, gray: set<nat>, id: nat)
    requires MayVisit(g, s0, gray, id)
    ensures Inv(g, s0, gray) && Sized(g, s0) && id < |g.callees| && s0.Order(id) == 0
    ensures forall x :: x in gray ==> g.Reach(x, id)
  {
  }

  lemma EnterInv(g: Digraph, s0: Snapshot, gray: set<nat>, id: nat)
    requires Inv(g, s0, gray) && id < |g.callees| && s0.Order(id) == 0
    requires forall x :: x in gray ==> g.Reach(x, id)
    ensures Inv(g, Enter(s0, id), gray + {id})
  {
    var s := Enter(s0, id);
    EnterOrdered(s0, id);
    EnterLinked(g, s0, gray, id);
    assert ClosedSccs(g, s) by {
      assert forall v: nat :: s.Scc(v) == s0.Scc(v);
    }
    hide StackOrdered, Filed, StackLinked, ClosedSccs;
  }

  lemma EnterFacts(g: Digraph, s0: Snapshot, gray: set<nat>, id: nat)
    requires Sized(g, s0) && id < |g.callees| && s0.Order(id) == 0
    ensures var s := Enter(s0, id);
      && Grows(g, s0, s, id) && s0.visitStack + [id] <= s.visitStack && s.Order(id) == s0.visitIndex
      && LowIsReached(g, s, id, s0.visitIndex)
      && LowCovers(g, s, |s0.visitStack|, |s0.visitStack| + 1, s0.visitIndex)
      && CalleesSeen(g, s0, s, id, 0, s0.visitIndex)
  {
    var s := Enter(s0, id);
    g.ReachSelf(id);
    assert s.visitStack[|s0.visitStack|] == id;
    assert LowIsReached(g, s, id, s0.visitIndex);
  }

  /** The invariant does not speak about `lowestOrder`. */
  lemma LowerKeepsInv(g: Digraph, s: Snapshot, gray: set<nat>, id: nat, low: nat)
    requires Inv(g, s, gray) && id < |g.callees|
    ensures Inv(g, Lower(s, id, low), gray)
  {
    var s' := Lower(s, id, low);
    assert forall v: nat ::
        s'.Order(v) == s.Order(v) && s'.Scc(v) == s.Scc(v) && (s'.OnStack(v) <==> s.OnStack(v));
  }

  /** Storing the low value in `lowestOrder[id]` keeps the loop going. */
  lemma LowerKeepsVisiting(g: Digraph, s0: Snapshot, s: Snapshot, gray: set<nat>, id: nat, done: nat, low: nat)
    requires s0.Order(id) == 0 && Visiting(g, s0, s, gray, id, done, low)
    ensures Visiting(g, s0, Lower(s, id, low), gray, id, done, low)
  {
    hide Inv, Grows, LowIsReached, LowCovers, CalleesSeen, Lower;
    VisitedNode(g, s, gray + {id}, id, done, low, s0);
    LowerKeepsInv(g, s, gray + {id}, id, low);
    LowerKeepsRest(g, s0, s, id, done, low);
  }

  lemma VisitedNode(g: Digraph, s: Snapshot, gray: set<nat>, id: nat, done: nat, low: nat, s0: Snapshot)
    requires Inv(g, s, gray) && CalleesSeen(g, s0, s, id, done, low)
    ensures id < |s.lowestOrder| && id < |g.callees|
  {
  }

  lemma LowerKeepsRest(g: Digraph, s0: Snapshot, s: Snapshot, id: nat, done: nat, low: nat)
    requires s0.Order(id) == 0 && id < |s.lowestOrder| && Grows(g, s0, s, id) && LowIsReached(g, s, id, low)
    requires LowCovers(g, s, |s0.visitStack|, |s0.visitStack| + 1, low) && CalleesSeen(g, s0, s, id, done, low)
    ensures var s' := Lower(s, id, low);
      && Grows(g, s0, s', id) && s'.visitStack == s.visitStack && s'.Order(id) == s.Order(id)
      && LowIsReached(g, s', id, low) && LowCovers(g, s', |s0.visitStack|, |s0.visitStack| + 1, low)
      && CalleesSeen(g, s0, s', id, done, low)
  {
    var s' := Lower(s, id, low);
    assert s'.visitStack == s.visitStack && forall v: nat ::
        s'.Order(v) == s.Order(v) && s'.Scc(v) == s.Scc(v) && (v != id ==> s'.Low(v) == s.Low(v));
    LowerIsReached(g, s, s', id, low);
  }

  lemma LowerIsReached(g: Digraph, s: Snapshot, s': Snapshot, id: nat, low: nat)
    requires LowIsReached(g, s, id, low) && s'.visitStack == s.visitStack && forall v: nat :: s'.Order(v) == s.Order(v)
    ensures LowIsReached(g, s', id, low)
  {
    var v :| v in s.visitStack && s.Order(v) == low && g.Reach(id, v);
    assert v in s'.visitStack && s'.Order(v) == low;
  }

  lemma NullCallee(g: Digraph, s0: Snapshot, s: Snapshot, gray: set<nat>, id: nat, k: nat, low: nat)
    requires MayVisit(g, s0, gray, id) && k < |g.callees[id]| && g.callees[id][k] == None
    requires Visiting(g, s0, s, gray, id, k, low)
    ensures Visiting(g, s0, s, gray, id, k + 1, low)
  {
  }

  /** The callee `w` was visited before: a back edge if it is still on the stack, nothing otherwise. */
  lemma KnownCallee(g: Digraph, s0: Snapshot, s: Snapshot, gray: set<nat>, id: nat, k: nat, low: nat, w: nat)
    requires MayVisit(g, s0, gray, id) && k < |g.callees[id]| && g.callees[id][k] == Some(w)
    requires Visiting(g, s0, s, gray, id, k, low) && s.Order(w) > 0
    ensures Visiting(g, s0, s, gray, id, k + 1, if s.OnStack(w) && s.Order(w) < low then s.Order(w) else low)
  {
    hide Inv, Grows, LowIsReached, LowCovers;
    assert g.Edge(id, w);
    KnownLow(g, s0, s, gray, id, low, w);
    KnownOnStack(g, s, gray + {id}, s0.visitStack, w);
  }

  lemma KnownLow(g: Digraph, s0: Snapshot, s: Snapshot, gray: set<nat>, id: nat, low: nat, w: nat)
    requires Inv(g, s, gray + {id}) && g.Edge(id, w) && s.Order(w) > 0
    requires LowIsReached(g, s, id, low) && LowCovers(g, s, |s0.visitStack|, |s0.visitStack| + 1, low)
    ensures var low' := if s.OnStack(w) && s.Order(w) < low then s.Order(w) else low;
      LowIsReached(g, s, id, low') && LowCovers(g, s, |s0.visitStack|, |s0.visitStack| + 1, low')
  {
    g.ReachEdge(id, w);
  }

  lemma KnownOnStack(g: Digraph, s: Snapshot, gray: set<nat>, stack: seq<nat>, w: nat)
    requires Inv(g, s, gray) && stack <= s.visitStack
    ensures w in stack ==> s.OnStack(w)
  {
    hide NoBlackToWhite, ListsAgree, ReachesGray;
  }

  lemma CoversAfter(g: Digraph, s: Snapshot, s1: Snapshot, m: nat, lowId: nat, lowW: nat, low: nat)
    requires s.visitStack <= s1.visitStack && m < |s.visitStack|
    requires forall v :: v in s.visitStack ==> s1.Order(v) == s.Order(v)
    requires LowCovers(g, s, m, m + 1, lowId)
    requires LowCovers(g, s1, |s.visitStack|, |s.visitStack|, lowW)
    requires low <= lowId && low <= lowW
    ensures LowCovers(g, s1, m, m + 1, low)
  {
    forall i, j | m + 1 <= i < |s1.visitStack| && 0 <= j < m && g.Edge(s1.visitStack[i], s1.visitStack[j])
      ensures low <= s1.Order(s1.visitStack[j])
    {
      assert s1.visitStack[j] == s.visitStack[j];
      if i < |s.visitStack| {
        assert s1.visitStack[i] == s.visitStack[i];
      }
    }
  }

  /** A composite visit: what the callee's visit leaves alone, the caller's visit leaves alone. */
  lemma GrowsTrans(g: Digraph, s0: Snapshot, s1: Snapshot, s2: Snapshot, id: nat, w: nat)
    requires Grows(g, s0, s1, id) && Grows(g, s1, s2, w) && g.Reach(id, w)
    ensures Grows(g, s0, s2, id)
  {
    forall v: nat | s0.Order(v) == 0 && s2.Order(v) > 0
      ensures s2.Order(v) >= s0.visitIndex && g.Reach(id, v)
    {
      if s1.Order(v) == 0 {
        g.ReachTrans(id, w, v);
      }
    }
  }

  lemma SeenAfter(g: Digraph, s0: Snapshot, s: Snapshot, s1: Snapshot, id: nat, k: nat, low: nat, low': nat, w: nat)
    requires CalleesSeen(g, s0, s, id, k, low) && low' <= low
    requires k < |g.callees[id]| && g.callees[id][k] == Some(w)
    requires forall v: nat :: s.Order(v) > 0 ==> s1.Order(v) == s.Order(v)
    requires s1.Order(w) > 0 && w !in s0.visitStack
    ensures CalleesSeen(g, s0, s1, id, k + 1, low')
  {
  }

  lemma ReachedAfter(g: Digraph, s: Snapshot, s1: Snapshot, id: nat, low: nat, w: nat)
    requires LowIsReached(g, s, id, low) && g.Reach(id, w)
    requires s.visitStack <= s1.visitStack
    requires forall v :: v in s.visitStack ==> s1.Order(v) == s.Order(v)
    requires s1.Low(w) < low ==> LowIsReached(g, s1, w, s1.Low(w))
    ensures LowIsReached(g, s1, id, if s1.Low(w) < low then s1.Low(w) else low)
  {
    if s1.Low(w) < low {
      var v :| v in s1.visitStack && s1.Order(v) == s1.Low(w) && g.Reach(w, v);
      g.ReachTrans(id, w, v);
    } else {
      var v :| v in s.visitStack && s.Order(v) == low && g.Reach(id, v);
      assert v in s1.visitStack;
    }
  }

  lemma NewCalleeFrame(g: Digraph, s0: Snapshot, s: Snapshot, s1: Snapshot, gray: set<nat>, id: nat, k: nat, low: nat,
                       w: nat)
    requires MayVisit(g, s0, gray, id) && k < |g.callees[id]| && g.callees[id][k] == Some(w)
    requires Visiting(g, s0, s, gray, id, k, low) && s.Order(w) == 0
    requires Visited(g, s, s1, gray + {id}, w)
    ensures Grows(g, s0, s1, id) && s0.visitStack + [id] <= s1.visitStack
    ensures s1.Order(id) == s0.visitIndex && s1.Low(id) == s.Low(id) && low <= s0.visitIndex
  {
    assert g.Edge(id, w);
    g.ReachEdge(id, w);
    GrowsTrans(g, s0, s, s1, id, w);
  }

  lemma NewCalleeSeen(g: Digraph, s0: Snapshot, s: Snapshot, s1: Snapshot, gray: set<nat>, id: nat, k: nat, low: nat,
                      w: nat)
    requires MayVisit(g, s0, gray, id) && k < |g.callees[id]| && g.callees[id][k] == Some(w)
    requires Visiting(g, s0, s, gray, id, k, low) && s.Order(w) == 0
    requires Visited(g, s, s1, gray + {id}, w)
    ensures CalleesSeen(g, s0, s1, id, k + 1, if s1.Low(w) < low then s1.Low(w) else low)
  {
    assert w !in s0.visitStack by {
      assert forall v :: v in s0.visitStack ==> s0.Order(v) > 0;
    }
    hide Inv, MayVisit;
    SeenAfter(g, s0, s, s1, id, k, low, if s1.Low(w) < low then s1.Low(w) else low, w);
  }

  lemma NewCalleeLow(g: Digraph, s0: Snapshot, s: Snapshot, s1: Snapshot, gray: set<nat>, id: nat, k: nat, low: nat,
                     w: nat)
    requires MayVisit(g, s0, gray, id) && k < |g.callees[id]| && g.callees[id][k] == Some(w)
    requires Visiting(g, s0, s, gray, id, k, low) && s.Order(w) == 0
    requires Visited(g, s, s1, gray + {id}, w)
    ensures LowIsReached(g, s1, id, if s1.Low(w) < low then s1.Low(w) else low)
    ensures LowCovers(g, s1, |s0.visitStack|, |s0.visitStack| + 1, if s1.Low(w) < low then s1.Low(w) else low)
  {
    hide *;
    MayVisitReads(g, s0, gray, id);
    CalleeReached(g, id, k, w);
    VisitingReads(g, s0, s, gray, id, k, low);
    VisitedReads(g, s, s1, gray + {id}, w, low);
    ReachedAfter(g, s, s1, id, low, w);
    CoversAfter(g, s, s1, |s0.visitStack|, low, s1.Low(w), if s1.Low(w) < low then s1.Low(w) else low);
  }

  lemma CalleeReached(g: Digraph, id: nat, k: nat, w: nat)
    requires id < |g.callees| && k < |g.callees[id]| && g.callees[id][k] == Some(w)
    ensures g.Edge(id, w) && g.Reach(id, w)
  {
    g.ReachEdge(id, w);
  }

  lemma VisitingReads(g: Digraph, s0: Snapshot, s: Snapshot, gray: set<nat>, id: nat, done: nat, low: nat)
    requires Visiting(g, s0, s, gray, id, done, low)
    ensures LowIsReached(g, s, id, low) && LowCovers(g, s, |s0.visitStack|, |s0.visitStack| + 1, low)
    ensures id < |g.callees| && |s0.visitStack| < |s.visitStack| && low < s.visitIndex
    ensures forall v :: v in s.visitStack ==> s.Order(v) > 0
  {
    hide LowIsReached, LowCovers, Grows, Filed, NoBlackToWhite, StackLinked, ClosedSccs;
  }

  lemma VisitedReads(g: Digraph, s0: Snapshot, s: Snapshot, gray: set<nat>, w: nat, low: nat)
    requires Visited(g, s0, s, gray, w) && s0.Order(w) == 0 && low < s0.visitIndex
    requires forall v :: v in s0.visitStack ==> s0.Order(v) > 0
    ensures s0.visitStack <= s.visitStack && forall v :: v in s0.visitStack ==> s.Order(v) == s0.Order(v)
    ensures LowCovers(g, s, |s0.visitStack|, |s0.visitStack|, s.Low(w))
    ensures s.Low(w) < low ==> LowIsReached(g, s, w, s.Low(w))
  {
    hide Inv, LowIsReached, LowCovers;
  }

  /** The callee `w` has just been visited by a nested call, which may have reached lower on the stack. */
  lemma NewCallee(g: Digraph, s0: Snapshot, s: Snapshot, s1: Snapshot, gray: set<nat>, id: nat, k: nat, low: nat,
                  w: nat)
    requires MayVisit(g, s0, gray, id) && k < |g.callees[id]| && g.callees[id][k] == Some(w)
    requires Visiting(g, s0, s, gray, id, k, low) && s.Order(w) == 0
    requires Visited(g, s, s1, gray + {id}, w)
    ensures s1.Low(id) == s.Low(id)
    ensures Visiting(g, s0, s1, gray, id, k + 1, if s1.Low(w) < low then s1.Low(w) else low)
  {
    NewCalleeFrame(g, s0, s, s1, gray, id, k, low, w);
    NewCalleeSeen(g, s0, s, s1, gray, id, k, low, w);
    NewCalleeLow(g, s0, s, s1, gray, id, k, low, w);
    hide Inv, MayVisit, Grows, CalleesSeen, LowIsReached, LowCovers;
  }

  /** All callees are done and `id` reaches below itself: it stays on the stack, inside its caller's visit. */
  lemma StayOnStack(g: Digraph, s0: Snapshot, s: Snapshot, gray: set<nat>, id: nat)
    requires MayVisit(g, s0, gray, id)
    requires Visiting(g, s0, s, gray, id, |g.callees[id]|, s.Low(id)) && s.Low(id) != s.Order(id)
    ensures Visited(g, s0, s, gray, id)
  {
    var m := |s0.visitStack|;
    assert s.visitStack[m] == id;
    assert StackLinked(g, s, gray) by { StayLinked(g, s0, s, gray, id); }
    assert NoBlackToWhite(g, s, gray) by { CalleesVisited(g, s0, s, gray, id, s.Low(id)); }
    assert LowCovers(g, s, m, m, s.Low(id)) by { CoversFromId(g, s0, s, id, s.Low(id)); }
  }

  lemma CalleesVisited(g: Digraph, s0: Snapshot, s: Snapshot, gray: set<nat>, id: nat, low: nat)
    requires id < |g.callees| && CalleesSeen(g, s0, s, id, |g.callees[id]|, low) && NoBlackToWhite(g, s, gray + {id})
    ensures NoBlackToWhite(g, s, gray)
  {
  }

  lemma CoversFromId(g: Digraph, s0: Snapshot, s: Snapshot, id: nat, low: nat)
    requires id < |g.callees| && CalleesSeen(g, s0, s, id, |g.callees[id]|, low) && s0.visitStack + [id] <= s.visitStack
    requires LowCovers(g, s, |s0.visitStack|, |s0.visitStack| + 1, low)
    ensures LowCovers(g, s, |s0.visitStack|, |s0.visitStack|, low)
  {
    var m := |s0.visitStack|;
    assert s.visitStack[m] == id;
    forall i, j | m <= i < |s.visitStack| && 0 <= j < m && g.Edge(s.visitStack[i], s.visitStack[j])
      ensures low <= s.Order(s.visitStack[j])
    {
      assert s.visitStack[j] == s0.visitStack[j];
    }
  }

  /** `id` reaches a node of its caller's call path. */
  lemma GrayBelow(g: Digraph, s0: Snapshot, s: Snapshot, gray: set<nat>, id: nat) returns (x: nat)
    requires forall i, j :: 0 <= i < j < |s.visitStack| ==> s.Order(s.visitStack[i]) < s.Order(s.visitStack[j])
    requires forall j :: 0 <= j < |s.visitStack| ==> ReachesGray(g, s.visitStack, j, gray + {id})
    requires |s0.visitStack| < |s.visitStack| && s.visitStack[|s0.visitStack|] == id
    requires LowIsReached(g, s, id, s.Low(id)) && s.Low(id) < s.Order(id)
    ensures x < |s0.visitStack| && s.visitStack[x] in gray && g.Reach(id, s.visitStack[x])
  {
    var stack, m := s.visitStack, |s0.visitStack|;
    var v :| v in stack && s.Order(v) == s.Low(id) && g.Reach(id, v);
    var l :| 0 <= l < |stack| && stack[l] == v;
    assert l < m;
    assert ReachesGray(g, stack, l, gray + {id});
    x :| 0 <= x <= l && stack[x] in gray + {id} && g.Reach(stack[l], stack[x]);
    g.ReachTrans(id, v, stack[x]);
    assert stack[x] != id;
  }

  lemma RedirectToGray(g: Digraph, stack: seq<nat>, gray: set<nat>, id: nat, m: nat, x: nat, j: nat)
    requires ReachesGray(g, stack, j, gray + {id}) && x < m && j < |stack|
    requires forall i :: 0 <= i < |stack| && stack[i] == id ==> m <= i
    requires x < |stack| && stack[x] in gray && g.Reach(id, stack[x])
    ensures ReachesGray(g, stack, j, gray)
  {
    var i :| 0 <= i <= j && stack[i] in gray + {id} && g.Reach(stack[j], stack[i]);
    if stack[i] !in gray {
      g.ReachTrans(stack[j], id, stack[x]);
      assert 0 <= x <= j < |stack| && stack[x] in gray && g.Reach(stack[j], stack[x]);
    }
  }

  lemma StayLinked(g: Digraph, s0: Snapshot, s: Snapshot, gray: set<nat>, id: nat)
    requires StackOrdered(s) && StackLinked(g, s, gray + {id}) && s0.visitStack + [id] <= s.visitStack
    requires LowIsReached(g, s, id, s.Low(id)) && s.Low(id) < s.Order(id)
    ensures StackLinked(g, s, gray)
  {
    var stack, m := s.visitStack, |s0.visitStack|;
    assert stack[m] == id;
    var x := GrayBelow(g, s0, s, gray, id);
    forall j | 0 <= j < |stack|
      ensures ReachesGray(g, stack, j, gray)
    {
      RedirectToGray(g, stack, gray, id, m, x, j);
    }
  }

  // ---------------------------------------------------------------------------------------------
  // Closing an SCC: everything from `id` up to the top of the stack is popped.
  // ---------------------------------------------------------------------------------------------

  ghost function Reversed(s: seq<nat>): (r: seq<nat>)
    ensures |r| == |s|
    ensures forall v :: v in r <==> v in s
  {
    if s == [] then [] else Reversed(s[1..]) + [s[0]]
  }

  lemma {:induction false} ReversedAt(s: seq<nat>, i: nat)
    requires i < |s|
    ensures Reversed(s)[|s| - 1 - i] == s[i]
  {
    if i > 0 {
      ReversedAt(s[1..], i - 1);
    }
  }

  /** The state after the stack entries from position `p` up have been popped into the SCC being closed. */
  ghost function Popped(s: Snapshot, p: nat): Snapshot
    requires p <= |s.visitStack|
  {
    var popped := s.visitStack[p..];
    s.(visitStack := s.visitStack[..p],
       inStack := seq(|s.inStack|, (v: nat) requires v < |s.inStack| => s.inStack[v] && v !in popped),
       sccNode := seq(|s.sccNode|, (v: nat) requires v < |s.sccNode| =>
                                     if v in popped then Some(|s.sccNodes|) else s.sccNode[v]))
  }

  ghost function Closed(s: Snapshot, p: nat): Snapshot
    requires p <= |s.visitStack|
  {
    Popped(s, p).(sccNodes := s.sccNodes + [Reversed(s.visitStack[p..])])
  }

  /** Reading the closed state: popped nodes carry the new SCC, everything else is as before. */
  lemma ClosedReads(g: Digraph, s: Snapshot, p: nat)
    requires Sized(g, s) && StackOrdered(s) && p <= |s.visitStack|
    ensures var t := Closed(s, p);
            forall v: nat ::
              && t.Order(v) == s.Order(v)
              && t.Low(v) == s.Low(v)
              && (t.OnStack(v) <==> v in s.visitStack[..p])
              && t.Scc(v) == if v in s.visitStack[p..] then Some(|s.sccNodes|) else s.Scc(v)
  {
    var t := Closed(s, p);
    forall v: nat
      ensures t.OnStack(v) <==> v in s.visitStack[..p]
      ensures t.Scc(v) == if v in s.visitStack[p..] then Some(|s.sccNodes|) else s.Scc(v)
    {
      StackSplit(s, p, v);
    }
  }

  /** Stack entries are distinct, so each lies on exactly one side of `p`. */
  lemma StackSplit(s: Snapshot, p: nat, v: nat)
    requires StackOrdered(s) && p <= |s.visitStack|
    ensures v in s.visitStack <==> v in s.visitStack[..p] || v in s.visitStack[p..]
    ensures !(v in s.visitStack[..p] && v in s.visitStack[p..])
  {
    assert s.visitStack == s.visitStack[..p] + s.visitStack[p..];
  }

  lemma ClosedFiled(g: Digraph, s: Snapshot, p: nat)
    requires Sized(g, s) && StackOrdered(s) && Filed(s) && p < |s.visitStack|
    ensures StackOrdered(Closed(s, p)) && Filed(Closed(s, p))
  {
    var t, popped := Closed(s, p), s.visitStack[p..];
    ClosedReads(g, s, p);
    forall v: nat
      ensures t.Order(v) > 0 <==> t.OnStack(v) || t.Scc(v).Some?
      ensures t.Scc(v).Some? ==> !t.OnStack(v)
    {
      StackSplit(s, p, v);
    }
    assert StackOrdered(t);
    ClosedLists(g, s, p);
  }

  lemma ClosedListsPoint(g: Digraph, s: Snapshot, p: nat, i: nat, l: nat)
    requires Sized(g, s) && StackOrdered(s) && Filed(s) && p < |s.visitStack|
    requires i < |Closed(s, p).sccNodes| && l < |Closed(s, p).sccNodes[i]|
    ensures Closed(s, p).Scc(Closed(s, p).sccNodes[i][l]) == Some(i)
  {
    var t, popped, k := Closed(s, p), s.visitStack[p..], |s.sccNodes|;
    ClosedReads(g, s, p);
    if i < k {
      StackSplit(s, p, s.sccNodes[i][l]);
    } else {
      assert t.sccNodes[k] == Reversed(popped);
      assert t.sccNodes[k][l] in popped;
    }
  }

  lemma ClosedListsNode(g: Digraph, s: Snapshot, p: nat, v: nat)
    requires Sized(g, s) && StackOrdered(s) && Filed(s) && p < |s.visitStack|
    requires Closed(s, p).Scc(v).Some?
    ensures Closed(s, p).Scc(v).value < |Closed(s, p).sccNodes|
    ensures v in Closed(s, p).sccNodes[Closed(s, p).Scc(v).value]
  {
    ClosedReads(g, s, p);
  }

  lemma ClosedListsDistinct(g: Digraph, s: Snapshot, p: nat)
    requires StackOrdered(s) && ListsAgree(s) && p < |s.visitStack|
    ensures var l := Closed(s, p).sccNodes;
            && (forall k, i, j :: 0 <= k < |l| && 0 <= i < j < |l[k]| ==> l[k][i] != l[k][j])
            && (forall k :: 0 <= k < |l| ==> |l[k]| > 0)
  {
    var popped := s.visitStack[p..];
    assert forall i, j :: 0 <= i < j < |popped| ==> popped[i] != popped[j];
    ReversedDistinct(popped);
    hide StackOrdered, Reversed;
    assert Closed(s, p).sccNodes[|s.sccNodes|] == Reversed(popped);
  }

  lemma ClosedLists(g: Digraph, s: Snapshot, p: nat)
    requires Sized(g, s) && StackOrdered(s) && Filed(s) && p < |s.visitStack|
    ensures ListsAgree(Closed(s, p))
  {
    var t := Closed(s, p);
    forall i, l | 0 <= i < |t.sccNodes| && 0 <= l < |t.sccNodes[i]|
      ensures t.Scc(t.sccNodes[i][l]) == Some(i)
    {
      ClosedListsPoint(g, s, p, i, l);
    }
    forall v: nat | t.Scc(v).Some?
      ensures t.Scc(v).value < |t.sccNodes| && v in t.sccNodes[t.Scc(v).value]
    {
      ClosedListsNode(g, s, p, v);
    }
    ClosedListsDistinct(g, s, p);
    hide StackOrdered, Filed, Closed, Popped, Reversed;
  }

  lemma ReversedDistinct(s: seq<nat>)
    requires forall i, j :: 0 <= i < j < |s| ==> s[i] != s[j]
    ensures forall i, j :: 0 <= i < j < |s| ==> Reversed(s)[i] != Reversed(s)[j]
  {
    forall i, j | 0 <= i < j < |s|
      ensures Reversed(s)[i] != Reversed(s)[j]
    {
      ReversedAt(s, |s| - 1 - i);
      ReversedAt(s, |s| - 1 - j);
    }
  }

  /** Popped nodes reach each other: `id` reaches everything above it, and everything reaches back to `id`. */
  lemma PoppedMutual(g: Digraph, s: Snapshot, gray: set<nat>, m: nat, i: nat)
    requires StackLinked(g, s, gray) && m <= i < |s.visitStack|
    requires forall x :: x in gray ==> x in s.visitStack[..m + 1]
    ensures g.Mutual(s.visitStack[m], s.visitStack[i])
  {
    var stack := s.visitStack;
    assert ReachesGray(g, stack, i, gray);
    var k :| 0 <= k <= i && stack[k] in gray && g.Reach(stack[i], stack[k]);
    var l :| 0 <= l < m + 1 && stack[l] == stack[k];
    g.ReachTrans(stack[i], stack[l], stack[m]);
  }

  /** A call from the stack part at or above `m` that stays on the stack goes to that part again. */
  lemma PoppedCallsOnStack(g: Digraph, s: Snapshot, m: nat, v: nat, w: nat)
    requires StackOrdered(s) && m < |s.visitStack|
    requires LowCovers(g, s, m, m, s.Order(s.visitStack[m]))
    requires v in s.visitStack[m..] && g.Edge(v, w) && w in s.visitStack
    ensures w in s.visitStack[m..]
  {
    var i :| m <= i < |s.visitStack| && s.visitStack[i] == v;
    var j :| 0 <= j < |s.visitStack| && s.visitStack[j] == w;
    if j >= m {
      assert s.visitStack[m..][j - m] == w;
    }
  }

  /** Calls out of the popped part go to popped nodes or to SCCs closed earlier. */
  lemma PoppedCalls(g: Digraph, s0: Snapshot, s: Snapshot, gray: set<nat>, id: nat, v: nat, w: nat)
    requires MayVisit(g, s0, gray, id)
    requires Visiting(g, s0, s, gray, id, |g.callees[id]|, s.Order(id))
    requires v in s.visitStack[|s0.visitStack|..] && g.Edge(v, w)
    ensures w in s.visitStack[|s0.visitStack|..] || s.Scc(w).Some?
  {
    var m := |s0.visitStack|;
    assert s.visitStack[m] == id;
    CalleesVisited(g, s0, s, gray, id, s.Order(id));
    CoversFromId(g, s0, s, id, s.Order(id));
    StackSplit(s, m, v);
    assert v !in gray by {
      assert s.visitStack[..m] == s0.visitStack;
    }
    assert s.Order(v) > 0;
    assert s.Order(w) > 0;
    if w in s.visitStack {
      PoppedCallsOnStack(g, s, m, v, w);
    }
  }

  lemma SccsClosedUnderReach(g: Digraph, s: Snapshot, v: nat, w: nat)
    requires Sized(g, s) && ClosedSccs(g, s) && s.Scc(v).Some? && g.Reach(v, w)
    ensures s.Scc(w).Some? && s.Scc(w).value <= s.Scc(v).value
  {
    g.ClosedUnderReach(v, w, set x: nat | x < |s.sccNode| && s.Scc(x).Some? && s.Scc(x).value <= s.Scc(v).value);
  }

  lemma ClosedExact(g: Digraph, s0: Snapshot, s: Snapshot, gray: set<nat>, id: nat)
    requires MayVisit(g, s0, gray, id)
    requires Visiting(g, s0, s, gray, id, |g.callees[id]|, s.Order(id))
    ensures ClosedSccs(g, Closed(s, |s0.visitStack|))
  {
    var m := |s0.visitStack|;
    var t, popped := Closed(s, m), s.visitStack[m..];
    ClosedReads(g, s, m);
    forall v: nat, w: nat | t.Scc(v).Some? && g.Edge(v, w)
      ensures t.Scc(w).Some? && t.Scc(w).value <= t.Scc(v).value
    {
      if v in popped {
        PoppedCalls(g, s0, s, gray, id, v, w);
      } else {
        StackSplit(s, m, w);
      }
    }
    forall v: nat, w: nat | t.Scc(v).Some? && t.Scc(w).Some?
      ensures t.Scc(v) == t.Scc(w) <==> g.Mutual(v, w)
    {
      ClosedExactPair(g, s0, s, gray, id, v, w);
    }
  }

  lemma ClosedExactPair(g: Digraph, s0: Snapshot, s: Snapshot, gray: set<nat>, id: nat, v: nat, w: nat)
    requires MayVisit(g, s0, gray, id)
    requires Visiting(g, s0, s, gray, id, |g.callees[id]|, s.Order(id))
    requires Closed(s, |s0.visitStack|).Scc(v).Some? && Closed(s, |s0.visitStack|).Scc(w).Some?
    ensures Closed(s, |s0.visitStack|).Scc(v) == Closed(s, |s0.visitStack|).Scc(w) <==> g.Mutual(v, w)
  {
    var m := |s0.visitStack|;
    var t, popped := Closed(s, m), s.visitStack[m..];
    ClosedReads(g, s, m);
    StackSplit(s, m, v);
    StackSplit(s, m, w);
    if v in popped && w in popped {
      PoppedPairMutual(g, s0, s, gray, id, v, w);
    } else if g.Mutual(v, w) {
      if w in popped {
        SccsClosedUnderReach(g, s, v, w);
      } else if v in popped {
        SccsClosedUnderReach(g, s, w, v);
      }
    }
  }

  lemma PoppedPairMutual(g: Digraph, s0: Snapshot, s: Snapshot, gray: set<nat>, id: nat, v: nat, w: nat)
    requires StackLinked(g, s, gray + {id}) && s0.visitStack + [id] <= s.visitStack
    requires forall x :: x in gray ==> x in s0.visitStack
    requires v in s.visitStack[|s0.visitStack|..] && w in s.visitStack[|s0.visitStack|..]
    ensures g.Mutual(v, w)
  {
    var m := |s0.visitStack|;
    assert s.visitStack[..m + 1] == s0.visitStack + [id];
    var i :| m <= i < |s.visitStack| && s.visitStack[i] == v;
    var j :| m <= j < |s.visitStack| && s.visitStack[j] == w;
    PoppedMutual(g, s, gray + {id}, m, i);
    PoppedMutual(g, s, gray + {id}, m, j);
    g.ReachTrans(v, id, w);
    g.ReachTrans(w, id, v);
  }

  /** All callees are done and `id` reaches nothing below itself: it is the root of an SCC, which is closed. */
  lemma CloseScc(g: Digraph, s0: Snapshot, s: Snapshot, gray: set<nat>, id: nat)
    requires MayVisit(g, s0, gray, id)
    requires Visiting(g, s0, s, gray, id, |g.callees[id]|, s.Low(id)) && s.Low(id) == s.Order(id)
    ensures Visited(g, s0, Closed(s, |s0.visitStack|), gray, id)
  {
    hide ListsAgree, ClosedSccs, LowIsReached, NoBlackToWhite, StackLinked, LowCovers, CalleesSeen;
    var m := |s0.visitStack|;
    ClosedStack(s0, s, id);
    ClosedReads(g, s, m);
    ClosedFiled(g, s, m);
    ClosedExact(g, s0, s, gray, id);
    ClosedLinked(g, s0, s, gray, id);
    ClosedGrows(g, s0, s, id);
    StackSplit(s, m, id);
    hide Grows, StackOrdered, Filed;
  }

  lemma ClosedStack(s0: Snapshot, s: Snapshot, id: nat)
    requires s0.visitStack + [id] <= s.visitStack
    ensures var m := |s0.visitStack|;
      && m < |s.visitStack| && id in s.visitStack[m..] && Closed(s, m).visitStack == s0.visitStack == s.visitStack[..m]
  {
    assert s.visitStack[|s0.visitStack|..][0] == id;
  }

  /** What is left on the stack is as it was before the visit, and no finished node has an unvisited callee. */
  lemma ClosedLinked(g: Digraph, s0: Snapshot, s: Snapshot, gray: set<nat>, id: nat)
    requires MayVisit(g, s0, gray, id)
    requires Visiting(g, s0, s, gray, id, |g.callees[id]|, s.Low(id))
    ensures var t := Closed(s, |s0.visitStack|);
      && StackLinked(g, t, gray) && NoBlackToWhite(g, t, gray)
      && LowCovers(g, t, |s0.visitStack|, |s0.visitStack|, t.Low(id))
  {
    hide StackOrdered, Filed, ClosedSccs, Grows, LowIsReached, Closed;
    ClosedStack(s0, s, id);
    CalleesVisited(g, s0, s, gray, id, s.Low(id));
    ClosedOrders(s, |s0.visitStack|);
  }

  lemma ClosedOrders(s: Snapshot, p: nat)
    requires p <= |s.visitStack|
    ensures forall v: nat :: Closed(s, p).Order(v) == s.Order(v)
  {
  }

  lemma ClosedGrows(g: Digraph, s0: Snapshot, s: Snapshot, id: nat)
    requires Sized(g, s) && StackOrdered(s) && Filed(s) && Grows(g, s0, s, id) && s0.visitStack + [id] <= s.visitStack
    ensures Grows(g, s0, Closed(s, |s0.visitStack|), id)
  {
    var m := |s0.visitStack|;
    ClosedStack(s0, s, id);
    ClosedReads(g, s, m);
    forall v: nat | s0.Scc(v).Some?
      ensures Closed(s, m).Scc(v) == s0.Scc(v)
    {
      StackSplit(s, m, v);
    }
    hide ListsAgree;
  }
}
