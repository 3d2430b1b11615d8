/** Marking functions that must not be inlined: one pass over the functions, callees first, that marks direct callers
    only. */
module MarkInline {
  import opened CallDigraph
  import opened CallGraphBuild
  import opened Chains
  import opened SccOrder
  import opened SccState
  import opened Wrappers

  /** For each function the functions that call it. */
  type Callers = seq<set<nat>>

  function CallersOf(c: Callers, v: nat): set<nat> {
    if v < |c| then c[v] else {}
  }

  /** What the pass makes of the marks `m`: a function that is marked, or is a seed, marks its direct callers. */
  ghost function Pass(c: Callers, seeds: set<nat>, order: seq<nat>, m: set<nat>): set<nat> {
    if order == [] then m
    else
      var v := order[0];
      Pass(c, seeds, order[1..], if v in m || v in seeds then m + {v} + CallersOf(c, v) else m)
  }

  class MarkPass {
    var mustNotBeInlined: set<nat>

    constructor (marks: set<nat>)
      ensures mustNotBeInlined == marks
    {
      mustNotBeInlined := marks;
    }

    method MarkParent(c: Callers, v: nat)
      modifies this
      ensures mustNotBeInlined == old(mustNotBeInlined) + CallersOf(c, v)
    {
      var rest := CallersOf(c, v);
      while rest != {}
        invariant rest <= CallersOf(c, v)
        invariant mustNotBeInlined == old(mustNotBeInlined) + (CallersOf(c, v) - rest)
        decreases |rest|
      {
        var parent :| parent in rest;
        mustNotBeInlined := mustNotBeInlined + {parent};
        rest := rest - {parent};
      }
    }

    /** `order` holds the functions of the strongly connected components, the last component first. */
    method MarkUnInlinableFunction(c: Callers, seeds: set<nat>, order: seq<nat>)
      modifies this
      ensures mustNotBeInlined == Pass(c, seeds, order, old(mustNotBeInlined))
    {
      var i := 0;
      while i < |order|
        invariant 0 <= i <= |order|
        invariant Pass(c, seeds, order[i..], mustNotBeInlined) == Pass(c, seeds, order, old(mustNotBeInlined))
      {
        assert order[i..][1..] == order[i + 1..];
        var v := order[i];
        if v in mustNotBeInlined || v in seeds {
          mustNotBeInlined := mustNotBeInlined + {v};
          MarkParent(c, v);
        }
        i := i + 1;
      }
    }
  }

  // ---------------------------------------------------------------------------------------------
  // What is marked.
  // ---------------------------------------------------------------------------------------------

  /** Turns of a pass over `n` functions, one after the other. */
  ghost predicate Rising(turns: seq<nat>, n: nat) {
    (forall i :: 0 <= i < |turns| ==> turns[i] < n) && forall i, j :: 0 <= i < j < |turns| ==> turns[i] < turns[j]
  }

  /** The function whose turn is number `i` of `turns` is called by the next one. */
  ghost predicate HandsOn(c: Callers, order: seq<nat>, turns: seq<nat>, i: nat)
    requires Rising(turns, |order|) && i + 1 < |turns|
  {
    order[turns[i + 1]] in CallersOf(c, order[turns[i]])
  }

  /** The functions with these turns are each a caller of the one before; the first is in `marks`, and `x`, whose
      turn does not matter, calls the last. */
  ghost predicate Chained(c: Callers, marks: set<nat>, order: seq<nat>, turns: seq<nat>, x: nat) {
    && turns != [] && Rising(turns, |order|)
    && order[turns[0]] in marks && x in CallersOf(c, order[turns[|turns| - 1]])
    && forall i: nat {:trigger HandsOn(c, order, turns, i)} :: i + 1 < |turns| ==> HandsOn(c, order, turns, i)
  }

  /** An ascending chain leads to `x`: it starts at a function in `marks` and goes on, each time, to a caller whose
      turn comes later. */
  ghost predicate Ascends(c: Callers, marks: set<nat>, order: seq<nat>, x: nat) {
    exists turns :: Chained(c, marks, order, turns, x)
  }

  /** The same along the pass. */
  ghost predicate AscendsAlong(c: Callers, marks: set<nat>, order: seq<nat>, x: nat)
    decreases |order|
  {
    order != []
    && (AscendsAlong(c, marks, order[1..], x)
        || (order[0] in marks
            && (x in CallersOf(c, order[0]) || AscendsAlong(c, CallersOf(c, order[0]), order[1..], x))))
  }

  ghost function Later(turns: seq<nat>): (r: seq<nat>)
    ensures |r| == |turns| && forall i :: 0 <= i < |r| ==> r[i] == turns[i] + 1
  {
    seq(|turns|, (i: nat) requires i < |turns| => turns[i] + 1)
  }

  ghost function Earlier(turns: seq<nat>): (r: seq<nat>)
    requires forall i :: 0 <= i < |turns| ==> turns[i] > 0
    ensures |r| == |turns| && forall i :: 0 <= i < |r| ==> r[i] == turns[i] - 1
  {
    seq(|turns|, (i: nat) requires i < |turns| => turns[i] - 1)
  }

  lemma ChainedLater(c: Callers, marks: set<nat>, order: seq<nat>, turns: seq<nat>, x: nat)
    requires order != [] && Chained(c, marks, order[1..], turns, x)
    ensures Chained(c, marks, order, Later(turns), x)
  {
    hide CallersOf;
    var later, rest := Later(turns), order[1..];
    assert Rising(later, |order|);
    assert forall i :: 0 <= i < |rest| ==> rest[i] == order[i + 1];
    hide Later;
    forall i: nat | i + 1 < |turns|
      ensures HandsOn(c, order, later, i)
    {
      assert HandsOn(c, rest, turns, i);
    }
  }

  lemma ChainedEarlier(c: Callers, marks: set<nat>, order: seq<nat>, turns: seq<nat>, x: nat)
    requires order != [] && Chained(c, marks, order, turns, x) && turns[0] > 0
    ensures (forall i :: 0 <= i < |turns| ==> turns[i] > 0) && Chained(c, marks, order[1..], Earlier(turns), x)
  {
    hide CallersOf;
    assert forall i :: 0 <= i < |turns| ==> turns[i] >= turns[0];
    var earlier, rest := Earlier(turns), order[1..];
    assert Rising(earlier, |rest|);
    assert forall i :: 0 <= i < |rest| ==> rest[i] == order[i + 1];
    hide Earlier;
    forall i: nat | i + 1 < |turns|
      ensures HandsOn(c, rest, earlier, i)
    {
      assert HandsOn(c, order, turns, i);
    }
  }

  lemma ChainedFromFirst(c: Callers, marks: set<nat>, order: seq<nat>, turns: seq<nat>, x: nat)
    requires order != [] && order[0] in marks && Chained(c, CallersOf(c, order[0]), order[1..], turns, x)
    ensures Chained(c, marks, order, [0] + Later(turns), x)
  {
    ChainedLater(c, CallersOf(c, order[0]), order, turns, x);
    hide CallersOf;
    FirstInFront(c, marks, order, Later(turns), x);
  }

  lemma FirstInFront(c: Callers, marks: set<nat>, order: seq<nat>, later: seq<nat>, x: nat)
    requires order != [] && order[0] in marks && Chained(c, CallersOf(c, order[0]), order, later, x)
    requires forall i :: 0 <= i < |later| ==> later[i] > 0
    ensures Chained(c, marks, order, [0] + later, x)
  {
    hide CallersOf;
    var all := [0] + later;
    assert Rising(all, |order|) && all[|all| - 1] == later[|later| - 1];
    forall i: nat | i + 1 < |all|
      ensures HandsOn(c, order, all, i)
    {
      if i > 0 {
        assert HandsOn(c, order, later, i - 1);
      }
    }
  }

  lemma ChainedBehindFirst(c: Callers, marks: set<nat>, order: seq<nat>, turns: seq<nat>, x: nat)
    requires order != [] && Chained(c, marks, order, turns, x) && turns[0] == 0 && |turns| > 1
    ensures Chained(c, CallersOf(c, order[0]), order, turns[1..], x) && turns[1..][0] > 0
  {
    hide CallersOf;
    var rest := turns[1..];
    assert HandsOn(c, order, turns, 0);
    assert Rising(rest, |order|) && rest[|rest| - 1] == turns[|turns| - 1];
    forall i: nat | i + 1 < |rest|
      ensures HandsOn(c, order, rest, i)
    {
      assert HandsOn(c, order, turns, i + 1);
    }
  }

  lemma {:induction false} AlongAscends(c: Callers, marks: set<nat>, order: seq<nat>, x: nat) returns (turns: seq<nat>)
    requires AscendsAlong(c, marks, order, x)
    ensures Chained(c, marks, order, turns, x)
    decreases |order|
  {
    hide Chained;
    if AscendsAlong(c, marks, order[1..], x) {
      turns := AlongAscends(c, marks, order[1..], x);
      ChainedLater(c, marks, order, turns, x);
      turns := Later(turns);
    } else if x in CallersOf(c, order[0]) {
      turns := [0];
      ChainedOnce(c, marks, order, x);
    } else {
      turns := AlongAscends(c, CallersOf(c, order[0]), order[1..], x);
      ChainedFromFirst(c, marks, order, turns, x);
      turns := [0] + Later(turns);
    }
  }

  lemma ChainedOnce(c: Callers, marks: set<nat>, order: seq<nat>, x: nat)
    requires order != [] && order[0] in marks && x in CallersOf(c, order[0])
    ensures Chained(c, marks, order, [0], x)
  {
  }

  lemma {:induction false} AscendsIsAlong(c: Callers, marks: set<nat>, order: seq<nat>, turns: seq<nat>, x: nat)
    requires Chained(c, marks, order, turns, x)
    ensures AscendsAlong(c, marks, order, x)
    decreases |order|
  {
    if turns[0] > 0 {
      ChainedEarlier(c, marks, order, turns, x);
      AscendsIsAlong(c, marks, order[1..], Earlier(turns), x);
    } else if |turns| > 1 {
      ChainedBehindFirst(c, marks, order, turns, x);
      ChainedEarlier(c, CallersOf(c, order[0]), order, turns[1..], x);
      AscendsIsAlong(c, CallersOf(c, order[0]), order[1..], Earlier(turns[1..]), x);
    }
  }

  /** Ascending chains can be found in one go along the pass. */
  lemma AscendsExactly(c: Callers, marks: set<nat>, order: seq<nat>, x: nat)
    ensures Ascends(c, marks, order, x) <==> AscendsAlong(c, marks, order, x)
  {
    hide Chained, AscendsAlong;
    if Ascends(c, marks, order, x) {
      var turns :| Chained(c, marks, order, turns, x);
      AscendsIsAlong(c, marks, order, turns, x);
    }
    if AscendsAlong(c, marks, order, x) {
      var turns := AlongAscends(c, marks, order, x);
    }
  }

  lemma {:induction false} AscendsFromEither(c: Callers, a: set<nat>, b: set<nat>, order: seq<nat>, x: nat)
    ensures AscendsAlong(c, a + b, order, x) <==> AscendsAlong(c, a, order, x) || AscendsAlong(c, b, order, x)
    decreases |order|
  {
    if order != [] {
      AscendsFromEither(c, a, b, order[1..], x);
    }
  }

  /** The pass marks, besides what was marked and the seeds, exactly what ascending chains lead to; whatever the
      order. */
  lemma MarkedExactly(c: Callers, seeds: set<nat>, order: seq<nat>, m: set<nat>, x: nat)
    ensures x in Pass(c, seeds, order, m) <==> x in m || (x in seeds && x in order) || Ascends(c, m + seeds, order, x)
  {
    MarkedAlong(c, seeds, order, m, x);
    AscendsExactly(c, m + seeds, order, x);
  }

  lemma {:induction false} MarkedAlong(c: Callers, seeds: set<nat>, order: seq<nat>, m: set<nat>, x: nat)
    ensures x in Pass(c, seeds, order, m)
       <==> x in m || (x in seeds && x in order) || AscendsAlong(c, m + seeds, order, x)
    decreases |order|
  {
    if order != [] {
      var v, rest := order[0], order[1..];
      var m' := if v in m || v in seeds then m + {v} + CallersOf(c, v) else m;
      MarkedAlong(c, seeds, rest, m', x);
      if v in m || v in seeds {
        assert m' + seeds == (m + seeds) + CallersOf(c, v) by {
          assert v in m + seeds;
        }
        AscendsFromEither(c, m + seeds, CallersOf(c, v), rest, x);
      }
      assert x in order <==> x == v || x in rest;
    }
  }

  // ---------------------------------------------------------------------------------------------
  // Seeds and their transitive callers.
  // ---------------------------------------------------------------------------------------------

  /** `x` is a seed or calls one, directly or not. */
  ghost predicate CallsSeed(c: Callers, seeds: set<nat>, x: nat) {
    exists s :: s in seeds && Reaches(c, s, x)
  }

  /** Nothing else is ever marked. */
  lemma {:induction false} OnlyCallersMarked(c: Callers, seeds: set<nat>, order: seq<nat>, m: set<nat>, x: nat)
    requires (forall y :: y in m ==> CallsSeed(c, seeds, y)) && x in Pass(c, seeds, order, m)
    ensures CallsSeed(c, seeds, x)
    decreases |order|
  {
    if order != [] {
      var v := order[0];
      var m' := if v in m || v in seeds then m + {v} + CallersOf(c, v) else m;
      forall y | y in m'
        ensures CallsSeed(c, seeds, y)
      {
        if y !in m {
          ReachesSelf(c, v);
          assert CallsSeed(c, seeds, v);
          var s :| s in seeds && Reaches(c, s, v);
          if y != v {
            ReachesStep(c, s, v, y);
          }
        }
      }
      OnlyCallersMarked(c, seeds, order[1..], m', x);
    }
  }

  /** Every function other than itself that calls a function has its turn after it. */
  ghost predicate CalleesFirst(c: Callers, order: seq<nat>) {
    forall i, j :: 0 <= i < |order| && 0 <= j < |order| ==>
      order[j] in CallersOf(c, order[i]) && order[i] != order[j] ==> i < j
  }

  /** What is marked at the end of the pass has marked its callers. */
  lemma {:induction false} MarksAreClosed(c: Callers, seeds: set<nat>, order: seq<nat>, k: nat, m: set<nat>, v: nat)
    requires CalleesFirst(c, order) && k <= |order| && (forall i, j :: 0 <= i < j < |order| ==> order[i] != order[j])
    requires forall i :: 0 <= i < k && (order[i] in m || order[i] in seeds) ==>
               CallersOf(c, order[i]) <= m && order[i] in m
    requires v in order && v in Pass(c, seeds, order[k..], m)
    ensures CallersOf(c, v) <= Pass(c, seeds, order[k..], m)
    decreases |order| - k
  {
    if k < |order| {
      var u := order[k];
      var m' := if u in m || u in seeds then m + {u} + CallersOf(c, u) else m;
      assert order[k..][1..] == order[k + 1..];
      forall i | 0 <= i < k + 1 && (order[i] in m' || order[i] in seeds)
        ensures CallersOf(c, order[i]) <= m' && order[i] in m'
      {
      }
      MarksAreClosed(c, seeds, order, k + 1, m', v);
    } else {
      var i :| 0 <= i < |order| && order[i] == v;
    }
  }

  lemma {:induction false} AlongChain(c: Callers, seeds: set<nat>, order: seq<nat>, p: seq<nat>, s: nat, x: nat)
    requires CalleesFirst(c, order) && (forall i, j :: 0 <= i < j < |order| ==> order[i] != order[j])
    requires s in Pass(c, seeds, order, {}) && Chain(c, p, s, x) && AllButLast(p, order)
    ensures x in Pass(c, seeds, order, {})
    decreases |p|
  {
    if |p| > 1 {
      assert Step(c, p[0], p[0 + 1]);
      assert order[0..] == order;
      assert p[0] in order;
      MarksAreClosed(c, seeds, order, 0, {}, s);
      assert Chain(c, p[1..], p[1], x);
      assert forall i :: 0 <= i < |p[1..]| - 1 ==> p[1..][i] == p[i + 1];
      AlongChain(c, seeds, order, p[1..], p[1], x);
    }
  }

  ghost predicate AllButLast(p: seq<nat>, order: seq<nat>) {
    forall i :: 0 <= i < |p| - 1 ==> p[i] in order
  }

  /** Calls lead from `x` to a seed, and all functions they lead through, the seed included, have a turn. */
  ghost predicate CallsSeedIn(c: Callers, seeds: set<nat>, order: seq<nat>, x: nat) {
    exists s, p :: s in seeds && s in order && Chain(c, p, s, x) && AllButLast(p, order)
  }

  lemma CallerOfTurned(c: Callers, seeds: set<nat>, order: seq<nat>, v: nat, y: nat)
    requires CallsSeedIn(c, seeds, order, v) && v in order && y in CallersOf(c, v)
    ensures CallsSeedIn(c, seeds, order, y)
  {
    var s, p :| s in seeds && s in order && Chain(c, p, s, v) && AllButLast(p, order);
    assert Step(c, v, y);
    assert Chain(c, p + [y], s, y) && AllButLast(p + [y], order);
  }

  lemma {:induction false} MarkedHaveTurns(c: Callers, seeds: set<nat>, order: seq<nat>, k: nat, m: set<nat>, x: nat)
    requires k <= |order| && (forall y :: y in m ==> CallsSeedIn(c, seeds, order, y))
    requires x in Pass(c, seeds, order[k..], m)
    ensures CallsSeedIn(c, seeds, order, x)
    decreases |order| - k
  {
    hide CallsSeedIn;
    if k < |order| {
      var v := order[k];
      var m' := if v in m || v in seeds then m + {v} + CallersOf(c, v) else m;
      assert order[k..][1..] == order[k + 1..];
      if v in seeds {
        SeedWithTurn(c, seeds, order, v);
      }
      forall y | y in m' && y !in m
        ensures CallsSeedIn(c, seeds, order, y)
      {
        if y != v {
          CallerOfTurned(c, seeds, order, v, y);
        }
      }
      MarkedHaveTurns(c, seeds, order, k + 1, m', x);
    }
  }

  lemma SeedWithTurn(c: Callers, seeds: set<nat>, order: seq<nat>, v: nat)
    requires v in seeds && v in order
    ensures CallsSeedIn(c, seeds, order, v)
  {
    assert Chain(c, [v], v, v);
  }

  /** With callees first, the pass marks exactly the functions from which calls lead to a seed through functions with a
      turn. */
  lemma MarksAllCallers(c: Callers, seeds: set<nat>, order: seq<nat>, x: nat)
    requires CalleesFirst(c, order) && (forall i, j :: 0 <= i < j < |order| ==> order[i] != order[j])
    ensures x in Pass(c, seeds, order, {}) <==> CallsSeedIn(c, seeds, order, x)
  {
    hide Pass;
    assert order[0..] == order;
    if x in Pass(c, seeds, order, {}) {
      MarkedHaveTurns(c, seeds, order, 0, {}, x);
    }
    if CallsSeedIn(c, seeds, order, x) {
      var s, p :| s in seeds && s in order && Chain(c, p, s, x) && AllButLast(p, order);
      MarkedExactly(c, seeds, order, {}, s);
      AlongChain(c, seeds, order, p, s, x);
    }
  }

  /** The order of the pass: the members of the listed SCCs, the last SCC first. */
  ghost function PassOrder(s: Snapshot, vec: seq<nat>): seq<nat>
    requires forall i :: 0 <= i < |vec| ==> vec[i] < |s.sccNodes|
  {
    if vec == [] then [] else s.sccNodes[vec[|vec| - 1]] + PassOrder(s, vec[..|vec| - 1])
  }

  lemma {:induction false} SingleOrder(s: Snapshot, vec: seq<nat>)
    requires forall i :: 0 <= i < |vec| ==> vec[i] < |s.sccNodes| && |s.sccNodes[vec[i]]| == 1
    ensures var order := PassOrder(s, vec);
      |order| == |vec| && forall i :: 0 <= i < |order| ==> order[i] == s.sccNodes[vec[|vec| - 1 - i]][0]
  {
    if vec != [] {
      SingleOrder(s, vec[..|vec| - 1]);
    }
  }

  /** With SCCs of one member each, a list in which no SCC calls an earlier one, walked backwards, has callees before
      callers. */
  lemma BackwardsIsCalleesFirst(g: Digraph, s: Snapshot, l: Links, vec: seq<nat>, c: Callers)
    requires ListsAgree(s) && LinksExact(g, s, l.calleeScc, l.callerScc) && Distinct(vec) && NoBackCalls(l, vec)
    requires forall k :: 0 <= k < |s.sccNodes| ==> |s.sccNodes[k]| == 1
    requires forall u: nat, v: nat {:trigger u in CallersOf(c, v)} :: u in CallersOf(c, v) ==> g.Edge(u, v)
    ensures CalleesFirst(c, PassOrder(s, vec))
    ensures forall i, j :: 0 <= i < j < |PassOrder(s, vec)| ==> PassOrder(s, vec)[i] != PassOrder(s, vec)[j]
  {
    SingleOrder(s, vec);
    var order := PassOrder(s, vec);
    forall i | 0 <= i < |order|
      ensures s.Scc(order[i]) == Some(vec[|vec| - 1 - i])
    {
    }
    hide PassOrder, ListsAgree;
    forall i, j | 0 <= i < |order| && 0 <= j < |order| && order[j] in CallersOf(c, order[i]) && order[i] != order[j]
      ensures i < j
    {
      var ki, kj := vec[|vec| - 1 - i], vec[|vec| - 1 - j];
      assert g.Edge(order[j], order[i]);
      assert ki != kj by {
        assert i != j;
      }
      assert SccCalls(g, s, kj, ki);
      assert ki in l.calleeScc[kj];
    }
  }

  lemma {:induction false} MembersHaveTurns(s: Snapshot, vec: seq<nat>, v: nat)
    requires ListsAgree(s) && (forall i :: 0 <= i < |vec| ==> vec[i] < |s.sccNodes|)
    ensures v in PassOrder(s, vec) <==> s.Scc(v).Some? && s.Scc(v).value in vec
    decreases |vec|
  {
    if vec != [] {
      var k, rest := vec[|vec| - 1], vec[..|vec| - 1];
      MembersHaveTurns(s, rest, v);
      assert vec == rest + [k];
      assert v in s.sccNodes[k] <==> s.Scc(v) == Some(k);
    }
  }

  /** With every listed SCC the SCCs it calls are listed. */
  ghost predicate ClosedUnderCalls(l: Links, vec: seq<nat>) {
    forall k, d :: k in vec && k < |l.calleeScc| && d in l.calleeScc[k] ==> d in vec
  }

  /** The callees of functions with a turn have one, too. */
  lemma {:induction false} CalleesHaveTurns(g: Digraph, nodesMap: seq<nat>, s: Snapshot, l: Links, vec: seq<nat>,
                                            c: Callers, p: seq<nat>, u: nat, x: nat)
    requires SccsExact(g, nodesMap, s) && LinksExact(g, s, l.calleeScc, l.callerScc)
    requires NoBackCalls(l, vec) && ClosedUnderCalls(l, vec)
    requires forall u: nat, v: nat {:trigger u in CallersOf(c, v)} :: u in CallersOf(c, v) ==> g.Edge(u, v)
    requires Chain(c, p, u, x) && x in PassOrder(s, vec)
    ensures u in PassOrder(s, vec) && AllButLast(p, PassOrder(s, vec))
    decreases |p|
  {
    hide PassOrder, ListsAgree, NoBackCalls, ClosedUnderCalls, LinksExact, CallersOf;
    if |p| > 1 {
      assert Step(c, p[0], p[0 + 1]);
      assert Chain(c, p[1..], p[1], x);
      CalleesHaveTurns(g, nodesMap, s, l, vec, c, p[1..], p[1], x);
      StepIsEdge(g, c, u, p[1]);
      CalleeHasTurn(g, nodesMap, s, l, vec, p[1], u);
      assert forall i :: 0 < i < |p| - 1 ==> p[i] == p[1..][i - 1];
    }
  }

  lemma StepIsEdge(g: Digraph, c: Callers, v: nat, u: nat)
    requires forall u: nat, v: nat {:trigger u in CallersOf(c, v)} :: u in CallersOf(c, v) ==> g.Edge(u, v)
    requires Step(c, v, u)
    ensures g.Edge(u, v)
  {
    assert u in CallersOf(c, v);
  }

  lemma CalleeHasTurn(g: Digraph, nodesMap: seq<nat>, s: Snapshot, l: Links, vec: seq<nat>, u: nat, v: nat)
    requires SccsExact(g, nodesMap, s) && LinksExact(g, s, l.calleeScc, l.callerScc)
    requires NoBackCalls(l, vec) && ClosedUnderCalls(l, vec) && g.Edge(u, v) && u in PassOrder(s, vec)
    ensures v in PassOrder(s, vec)
  {
    hide PassOrder, ListsAgree;
    MembersHaveTurns(s, vec, u);
    MembersHaveTurns(s, vec, v);
    var start :| start in nodesMap && g.Reach(start, u);
    g.ReachEdge(u, v);
    g.ReachTrans(start, u, v);
    var k, d := s.Scc(u).value, s.Scc(v).value;
    if k != d {
      assert SccCalls(g, s, k, d);
      assert d in l.calleeScc[k];
    }
  }

  /** When no function calls itself through others, so that every SCC has one member, the pass over the SCCs that are
      left, in reverse order, marks exactly the functions from which calls lead to a seed through functions with a turn;
      and of those that have a turn themselves it marks all that call a seed, directly or through any others. */
  lemma PassIsExact(g: Digraph, nodesMap: seq<nat>, s: Snapshot, l: Links, vec: seq<nat>, c: Callers, seeds: set<nat>,
                    x: nat)
    requires SccsExact(g, nodesMap, s) && LinksExact(g, s, l.calleeScc, l.callerScc)
    requires Distinct(vec) && NoBackCalls(l, vec) && ClosedUnderCalls(l, vec)
    requires forall k :: 0 <= k < |s.sccNodes| ==> |s.sccNodes[k]| == 1
    requires forall u: nat, v: nat {:trigger u in CallersOf(c, v)} :: u in CallersOf(c, v) <==> g.Edge(u, v)
    ensures x in Pass(c, seeds, PassOrder(s, vec), {}) <==> CallsSeedIn(c, seeds, PassOrder(s, vec), x)
    ensures x in PassOrder(s, vec) ==> (x in Pass(c, seeds, PassOrder(s, vec), {}) <==> CallsSeed(c, seeds, x))
  {
    hide Pass, PassOrder, ListsAgree, Distinct, ClosedUnderCalls, LinksSoFar, CallersOf;
    BackwardsIsCalleesFirst(g, s, l, vec, c);
    MarksAllCallers(c, seeds, PassOrder(s, vec), x);
    if CallsSeedIn(c, seeds, PassOrder(s, vec), x) {
      OnlyCallersMarked(c, seeds, PassOrder(s, vec), {}, x);
    }
    if CallsSeed(c, seeds, x) && x in PassOrder(s, vec) {
      var u :| u in seeds && Reaches(c, u, x);
      var p :| Chain(c, p, u, x);
      CalleesHaveTurns(g, nodesMap, s, l, vec, c, p, u, x);
    }
  }

  /** Two lists are of this kind: the one that holds every SCC, and what a C module leaves of it. */
  lemma TopologicalIsClosed(g: Digraph, s: Snapshot, l: Links, vec: seq<nat>)
    requires ListsAgree(s) && LinksExact(g, s, l.calleeScc, l.callerScc) && Topological(l, vec)
    ensures Distinct(vec) && NoBackCalls(l, vec) && ClosedUnderCalls(l, vec)
    ensures forall v: nat :: v in PassOrder(s, vec) <==> s.Scc(v).Some?
  {
    TopologicalNoBackCalls(l, vec);
    forall k, d | k in vec && d in l.calleeScc[k]
      ensures d in vec
    {
      assert SccCalls(g, s, k, d);
    }
    forall v: nat
      ensures v in PassOrder(s, vec) <==> s.Scc(v).Some?
    {
      MembersHaveTurns(s, vec, v);
    }
  }

  lemma LeftIsClosed(l: Links, pinned: set<nat>, top: seq<nat>, vec: seq<nat>)
    requires Numbered(l) && Topological(l, top) && vec == StayingPart(l, pinned, top)
    requires forall k: nat :: k in vec <==> k < |l.calleeScc| && ReachedFromPinned(l, pinned, k)
    ensures Distinct(vec) && NoBackCalls(l, vec) && ClosedUnderCalls(l, vec)
  {
    TopologicalNoBackCalls(l, top);
    StayingPartOrdered(l, pinned, top);
    forall k, d | k in vec && k < |l.calleeScc| && d in l.calleeScc[k]
      ensures d in vec
    {
      var u, p :| u in pinned && SccPath(l, p, u, k);
      assert SccPath(l, p + [d], u, d);
    }
  }

  // ---------------------------------------------------------------------------------------------
  // Cycles.
  // ---------------------------------------------------------------------------------------------

  /** Functions 0 and 1 call each other, and 2 calls 0. */
  const CYCLE := Digraph([[Some(1)], [Some(0)], [Some(0)]])
  const CYCLE_CALLERS: Callers := [{1, 2}, {0}, {}]
  const CYCLE_LINKS := Links([{}, {0}], [{1}, {}])

  /** A snapshot of the finished search: functions 0 and 1 make up one SCC. */
  ghost predicate CycleFound(s: Snapshot) {
    s.sccNode == [Some(0), Some(0), Some(1)] && s.sccNodes == [[0, 1], [2]]
  }

  lemma CycleEdges(u: nat, v: nat)
    ensures CYCLE.Edge(u, v) <==> (u, v) in {(0, 1), (1, 0), (2, 0)}
    ensures u in CallersOf(CYCLE_CALLERS, v) <==> CYCLE.Edge(u, v)
  {
  }

  lemma CycleSccs(s: Snapshot)
    requires CycleFound(s)
    ensures SccsExact(CYCLE, [0, 1, 2], s)
  {
    forall v: nat
      ensures s.Scc(v).Some? <==> ReachedFrom(CYCLE, [0, 1, 2], v)
    {
      if ReachedFrom(CYCLE, [0, 1, 2], v) {
        var u :| u in [0, 1, 2] && CYCLE.Reach(u, v);
        CYCLE.ClosedUnderReach(u, v, {0, 1, 2});
      } else {
        CYCLE.ReachSelf(v);
      }
    }
    forall v: nat, w: nat | s.Scc(v).Some? && s.Scc(w).Some?
      ensures s.Scc(v) == s.Scc(w) <==> CYCLE.Mutual(v, w)
    {
      CycleMutual(v, w);
    }
  }

  lemma CycleMutual(v: nat, w: nat)
    requires v < 3 && w < 3
    ensures CYCLE.Mutual(v, w) <==> (v == 2 <==> w == 2)
  {
    CYCLE.ReachSelf(v);
    CYCLE.ReachEdge(0, 1);
    CYCLE.ReachEdge(1, 0);
    if CYCLE.Mutual(v, w) && v != 2 {
      CYCLE.ClosedUnderReach(v, w, {0, 1});
    }
    if CYCLE.Mutual(v, w) && w != 2 {
      CYCLE.ClosedUnderReach(w, v, {0, 1});
    }
  }

  lemma CycleLinked(s: Snapshot)
    requires CycleFound(s)
    ensures LinksExact(CYCLE, s, CYCLE_LINKS.calleeScc, CYCLE_LINKS.callerScc) && Topological(CYCLE_LINKS, [1, 0])
  {
    forall k: nat, d: nat | k < 2
      ensures d in CYCLE_LINKS.calleeScc[k] <==> SccCalls(CYCLE, s, k, d)
      ensures d in CYCLE_LINKS.callerScc[k] <==> SccCalls(CYCLE, s, d, k)
    {
      assert CYCLE.Edge(2, 0);
    }
  }

  /** Within an SCC the callers of a function that has already had its turn are missed, and so are theirs: function 1
      is a seed, and 2, which calls 0, which calls 1, stays unmarked. */
  lemma CycleIsMissed(s: Snapshot)
    requires CycleFound(s)
    ensures SccsExact(CYCLE, [0, 1, 2], s)
    ensures LinksExact(CYCLE, s, CYCLE_LINKS.calleeScc, CYCLE_LINKS.callerScc) && Topological(CYCLE_LINKS, [1, 0])
    ensures forall u: nat, v: nat {:trigger u in CallersOf(CYCLE_CALLERS, v)} ::
              u in CallersOf(CYCLE_CALLERS, v) <==> CYCLE.Edge(u, v)
    ensures PassOrder(s, [1, 0]) == [0, 1, 2]
    ensures Pass(CYCLE_CALLERS, {1}, PassOrder(s, [1, 0]), {}) == {0, 1} && CallsSeed(CYCLE_CALLERS, {1}, 2)
  {
    CycleSccs(s);
    CycleLinked(s);
    CyclePass(s);
    var c := CYCLE_CALLERS;
    assert Step(c, 1, 0) && Step(c, 0, 2);
    ReachesSelf(c, 2);
    StepReaches(c, 0, 2, 2);
    StepReaches(c, 1, 0, 2);
    forall u: nat, v: nat
      ensures u in CallersOf(c, v) <==> CYCLE.Edge(u, v)
    {
      CycleEdges(u, v);
    }
  }

  lemma CyclePass(s: Snapshot)
    requires CycleFound(s)
    ensures PassOrder(s, [1, 0]) == [0, 1, 2] && Pass(CYCLE_CALLERS, {1}, [0, 1, 2], {}) == {0, 1}
  {
    assert [1, 0][..1] == [1] && [1][..0] == [];
    assert PassOrder(s, [1]) == [2];
    assert [0, 1, 2][1..] == [1, 2] && [1, 2][1..] == [2] && [2][1..] == [];
    assert Pass(CYCLE_CALLERS, {1}, [2], {0, 1}) == {0, 1};
  }

  /** In any order, components or not, the pass finds all transitive callers of every set of seeds exactly when every
      transitive caller of a function is reached from it by an ascending chain. */
  lemma ExactForAllSeeds(c: Callers, order: seq<nat>)
    ensures (forall seeds: set<nat>, x: nat {:trigger CallsSeed(c, seeds, x)} :: (forall s :: s in seeds ==>
        s in order) ==>
               (x in Pass(c, seeds, order, {}) <==> CallsSeed(c, seeds, x)))
       <==> (forall s: nat, x: nat {:trigger Reaches(c, s, x)} :: s in order && Reaches(c, s, x) && x != s ==>
               Ascends(c, {s}, order, x))
  {
    if forall s: nat, x: nat {:trigger Reaches(c, s, x)} ::
         s in order && Reaches(c, s, x) && x != s ==> Ascends(c, {s}, order, x) {
      forall seeds: set<nat>, x: nat | forall s :: s in seeds ==> s in order
        ensures x in Pass(c, seeds, order, {}) <==> CallsSeed(c, seeds, x)
      {
        if x in Pass(c, seeds, order, {}) {
          OnlyCallersMarked(c, seeds, order, {}, x);
        }
        if CallsSeed(c, seeds, x) {
          var s :| s in seeds && Reaches(c, s, x);
          AscendsExactly(c, {s}, order, x);
          AscendsExactly(c, seeds, order, x);
          AscendsFromEither(c, {s}, seeds, order, x);
          assert {s} + seeds == seeds && {} + seeds == seeds;
          MarkedExactly(c, seeds, order, {}, x);
        }
      }
    }
    if forall seeds: set<nat>, x: nat {:trigger CallsSeed(c, seeds, x)} :: (forall s :: s in seeds ==> s in order) ==>
         (x in Pass(c, seeds, order, {}) <==> CallsSeed(c, seeds, x)) {
      forall s: nat, x: nat | s in order && Reaches(c, s, x) && x != s
        ensures Ascends(c, {s}, order, x)
      {
        assert CallsSeed(c, {s}, x);
        MarkedExactly(c, {s}, order, {}, x);
        assert {} + {s} == {s};
      }
    }
  }
}
