/** What adding an `out` node does to a connection graph. */
module EscapeAddOut {
  import opened Chains
  import opened EscapeNodes
  import opened EscapeSpread
  import opened EscapeSteps
  import opened EscapeCreate

  /** A globally escaping node that points somewhere only hands on its status; no edge is recorded. */
  ghost predicate Absorbed(n: Nodes, v: nat) {
    Status(n, v) == GLOBAL_ESCAPE && Pts(n, v) != {}
  }

  /** `m` is `n` after `w` received the status of `v`; then the edge is added unless `v` absorbs it. */
  ghost predicate OutNodeVia(n: Nodes, m: Nodes, n': Nodes, v: nat, w: nat) {
    && v < |m| && w < |m| && StatusSpread(n, m, w, Status(n, v))
    && if Absorbed(n, v) then n' == m else Spread(EdgeAdded(m, v, w), n', v, Pts(m, w))
  }

  ghost predicate CanAdd(n: Nodes, v: nat, w: nat) {
    Live(n, v) && Live(n, w) && !IsObject(n, v) && Pts(n, w) != {}
  }

  /** What every node keeps when an `out` node is added to `v`, and what `v` gains. */
  ghost predicate Gained(n: Nodes, n': Nodes, v: nat, w: nat) {
    && |n'| == |n|
    && (forall x: nat {:trigger Kind(n', x)} :: Kind(n', x) == Kind(n, x))
    && (forall x: nat {:trigger Fields(n', x)} :: Fields(n', x) == Fields(n, x))
    && (forall x: nat {:trigger Belongs(n', x)} :: Belongs(n', x) == Belongs(n, x))
    && (forall x: nat {:trigger Status(n', x)} :: Status(n, x) <= Status(n', x))
    && (forall x: nat {:trigger Pts(n', x)} :: Pts(n, x) <= Pts(n', x))
    && (forall x: nat {:trigger Outs(n', x)} :: x != v ==> Outs(n', x) == Outs(n, x))
    && (forall x: nat {:trigger Ins(n', x)} :: x != w ==> Ins(n', x) == Ins(n, x))
    && (Pts(n, w) <= Pts(n', v) || (Status(n', v) == GLOBAL_ESCAPE && Status(n', w) == GLOBAL_ESCAPE))
    && (Pts(n, v) == {} ==> Pts(n, w) <= Pts(n', v))
  }

  lemma GlobalAbsorbs(n: Nodes, v: nat)
    requires GlobalsFixed(n) && IsGlobal(v)
    ensures Absorbed(n, v)
  {
  }

  /** The status step leaves an edge step behind when `v` does not absorb the new node. */
  lemma ViaEdgeStep(n: Nodes, m: Nodes, n': Nodes, v: nat, w: nat)
    requires GlobalsFixed(n) && CanAdd(n, v, w) && OutNodeVia(n, m, n', v, w) && !Absorbed(n, v)
    ensures EdgeStep(m, n', v, w)
  {
    SameFlows(n, m);
    if IsGlobal(v) {
      GlobalAbsorbs(n, v);
    }
    assert Status(m, v) == Status(n, v) || Status(m, v) == Status(n, v);
  }

  lemma ViaKeepsInv(n: Nodes, m: Nodes, n': Nodes, v: nat, w: nat)
    requires Inv(n) && CanAdd(n, v, w) && OutNodeVia(n, m, n', v, w)
    ensures Inv(n') && (Exact(n) ==> Exact(n'))
  {
    RaiseKeepsInv(n, m, w, Status(n, v));
    if !Absorbed(n, v) {
      ViaEdgeStep(n, m, n', v, w);
      hide Inv, Exact, OutNodeVia, EdgeStep;
      EdgeKeepsInv(m, n', v, w);
      if Exact(m) {
        EdgeKeepsExact(m, n', v, w);
      }
    }
  }

  lemma EdgeGains(n: Nodes, m: Nodes, n': Nodes, v: nat, w: nat)
    requires StatusSpread(n, m, w, Status(n, v)) && (forall x: nat :: Status(n, x) <= Status(m, x))
    requires EdgeFrame(m, n', v, w) && EdgeHanded(m, n', v, w)
    ensures Gained(n, n', v, w)
  {
    SameFlows(n, m);
  }

  lemma RaiseGains(n: Nodes, m: Nodes, v: nat, w: nat)
    requires StatusSpread(n, m, w, Status(n, v)) && (forall x: nat :: Status(n, x) <= Status(m, x))
    requires Absorbed(n, v)
    ensures Gained(n, m, v, w)
  {
    SameFlows(n, m);
  }

  lemma ViaGains(n: Nodes, m: Nodes, n': Nodes, v: nat, w: nat)
    requires Inv(n) && CanAdd(n, v, w) && OutNodeVia(n, m, n', v, w)
    ensures Gained(n, n', v, w)
  {
    RaiseKeepsFlows(n, m, w, Status(n, v));
    if Absorbed(n, v) {
      RaiseGains(n, m, v, w);
    } else {
      ViaEdgeStep(n, m, n', v, w);
      RaiseKeepsInv(n, m, w, Status(n, v));
      hide Inv, EdgeStep, EdgeFrame, EdgeHanded, Gained, StatusSpread, Spread;
      EdgeStepFacts(m, n', v, w);
      EdgeGains(n, m, n', v, w);
    }
  }

  /** A node that another one reaches has a predecessor. */
  lemma ReachedHasPred(succ: seq<set<nat>>, x: nat, v: nat)
    requires Reaches(succ, x, v) && x != v
    ensures exists u: nat :: Step(succ, u, v)
  {
    var p :| Chain(succ, p, x, v);
    assert Step(succ, p[|p| - 2], p[|p| - 2 + 1]);
  }

  /** Without predecessors of `v` nobody else's points-to set changes. */
  lemma UnreachedGainsAlone(n: Nodes, n': Nodes, v: nat, w: nat, x: nat)
    requires Inv(n) && EdgeStep(n, n', v, w) && Ins(n, v) == {} && v != w && x != v
    ensures Pts(n', x) == Pts(n, x)
  {
    hide *;
    EdgeStepFacts(n, n', v, w);
    EdgeKeepsInv(n, n', v, w);
    FrameReads(n, n', v, w, x);
    forall o | o in Pts(n', x)
      ensures o in Pts(n, x)
    {
      PointUnreached(n, n', v, x, o);
    }
  }

  lemma FrameReads(n: Nodes, n': Nodes, v: nat, w: nat, x: nat)
    requires EdgeFrame(n, n', v, w) && v != w
    ensures Ins(n', v) == Ins(n, v) && Pts(n, x) <= Pts(n', x) && !IsGlobal(v)
  {
  }

  lemma PointUnreached(n: Nodes, n': Nodes, v: nat, x: nat, o: nat)
    requires EdgePoints(n, n', v) && Inv(n') && Ins(n', v) == {} && !IsGlobal(v) && x != v && o in Pts(n', x)
    ensures o in Pts(n, x)
  {
    assert EdgesMirror(n') && EdgePoint(n, n', v, x, o);
    hide Inv, Reaches;
    if Reaches(OutEdges(n'), x, v) {
      ReachedHasPred(OutEdges(n'), x, v);
    }
  }

  lemma ViaGainsAlone(n: Nodes, m: Nodes, n': Nodes, v: nat, w: nat, x: nat)
    requires Inv(n) && CanAdd(n, v, w) && OutNodeVia(n, m, n', v, w) && Ins(n, v) == {} && v != w && x != v
    ensures Pts(n', x) == Pts(n, x)
  {
    SameFlows(n, m);
    if !Absorbed(n, v) {
      RaiseKeepsInv(n, m, w, Status(n, v));
      ViaEdgeStep(n, m, n', v, w);
      UnreachedGainsAlone(m, n', v, w, x);
    }
  }

  /** When `w` is already an `out` node of `v` there is nothing to gain. */
  lemma NothingToGain(n: Nodes, v: nat, w: nat)
    requires Inv(n) && w in Outs(n, v)
    ensures Gained(n, n, v, w)
  {
    assert Pts(n, w) <= Pts(n, v);
  }

  ghost predicate PointsInside(n: Nodes) {
    forall x: nat, o: nat {:trigger o in Pts(n, x)} :: o in Pts(n, x) ==> o < |n|
  }

  /** What propagation needs of the nodes it walks over. */
  ghost predicate Usable(n: Nodes) {
    PredsOk(n) && PointsInside(n) && FlowsInside(n)
  }

  lemma InvIsUsable(n: Nodes)
    requires Inv(n)
    ensures Usable(n)
  {
    InvGivesPreds(n);
  }

  /** `n'` is the graph after `w` became an `out` node of `v`. */
  ghost predicate OutNodeAdded(n: Nodes, n': Nodes, v: nat, w: nat) {
    if w in Outs(n, v) then n' == n else exists m :: OutNodeVia(n, m, n', v, w)
  }

  lemma AddedKeepsInv(n: Nodes, n': Nodes, v: nat, w: nat)
    requires Inv(n) && CanAdd(n, v, w) && OutNodeAdded(n, n', v, w)
    ensures Inv(n') && (Exact(n) ==> Exact(n')) && Gained(n, n', v, w)
  {
    if w in Outs(n, v) {
      NothingToGain(n, v, w);
    } else {
      var m :| OutNodeVia(n, m, n', v, w);
      hide Inv, Exact, OutNodeVia, Gained;
      ViaKeepsInv(n, m, n', v, w);
      ViaGains(n, m, n', v, w);
    }
  }

  /** Adding to a node that nobody leads to changes nobody else's points-to set. */
  lemma AddedGainsAlone(n: Nodes, n': Nodes, v: nat, w: nat)
    requires Inv(n) && CanAdd(n, v, w) && OutNodeAdded(n, n', v, w) && Ins(n, v) == {} && v != w
    ensures forall x: nat :: x != v ==> Pts(n', x) == Pts(n, x)
  {
    if w !in Outs(n, v) {
      var m :| OutNodeVia(n, m, n', v, w);
      forall x: nat | x != v
        ensures Pts(n', x) == Pts(n, x)
      {
        ViaGainsAlone(n, m, n', v, w, x);
      }
    }
  }

  // ---------------------------------------------------------------------------------------------
  // The graph every function starts with.
  // ---------------------------------------------------------------------------------------------

  /** The three global nodes, escaping with status `st`. */
  ghost function GlobalNodes(): Nodes {
    [Node(ObjectNode, GLOBAL_ESCAPE, {1, 2}, {}, {0}, {0, 1, 2}, map[ANY_FIELD := 2], {}),
     Node(ReferenceNode, GLOBAL_ESCAPE, {1, 2}, {0, 1, 2}, {0}, {}, map[], {}),
     Node(FieldNode, GLOBAL_ESCAPE, {1, 2}, {0, 1, 2}, {0}, {}, map[], {0})]
  }

  lemma GlobalNodesRead()
    ensures var n := GlobalNodes();
      && |n| == 3 && Kind(n, 0) == ObjectNode && Kind(n, 1) == ReferenceNode && Kind(n, 2) == FieldNode
      && (forall x: nat {:trigger Kind(n, x)} :: x > 2 ==> Kind(n, x) == NullSlot)
      && (forall x: nat {:trigger Outs(n, x)} :: Outs(n, x) == if x == 1 || x == 2 then {0, 1, 2} else {})
      && (forall x: nat {:trigger Ins(n, x)} :: Ins(n, x) == if x <= 2 then {1, 2} else {})
      && (forall x: nat {:trigger Pts(n, x)} :: Pts(n, x) == if x <= 2 then {0} else {})
      && (forall x: nat {:trigger By(n, x)} :: By(n, x) == if x == 0 then {0, 1, 2} else {})
      && (forall x: nat {:trigger Status(n, x)} :: Status(n, x) == if x <= 2 then GLOBAL_ESCAPE else NO_ESCAPE)
      && (forall x: nat {:trigger Fields(n, x)} :: Fields(n, x) == if x == 0 then map[ANY_FIELD := 2] else map[])
      && (forall x: nat {:trigger Belongs(n, x)} :: Belongs(n, x) == if x == 2 then {0} else {})
  {
  }

  lemma GlobalNodesReach(v: nat)
    requires v < 3
    ensures Reaches(OutEdges(GlobalNodes()), v, 0)
  {
    var e := OutEdges(GlobalNodes());
    ReachesSelf(e, 0);
    if v != 0 {
      assert 0 in Outs(GlobalNodes(), v) && Step(e, v, 0);
      StepReaches(e, v, 0, 0);
    }
  }

  lemma GlobalNodesKinds()
    ensures var n := GlobalNodes(); WellKinded(n) && Owned(n)
  {
    var n := GlobalNodes();
    GlobalNodesRead();
    hide GlobalNodes;
    assert Lists(n, 0, 2) by {
      assert ANY_FIELD in Fields(n, 0);
    }
  }

  lemma GlobalNodesMirror()
    ensures var n := GlobalNodes(); EdgesMirror(n) && PointsMirror(n) && ExactMirrors(n) && EmptyUnused(n)
  {
    GlobalNodesRead();
    hide GlobalNodes;
  }

  lemma GlobalNodesRest()
    ensures var n := GlobalNodes(); PointsClosed(n) && PointsReached(n) && StatusFlows(n) && GlobalsFixed(n)
  {
    GlobalNodesRead();
    hide GlobalNodes;
  }

  lemma GlobalNodesOk()
    ensures Inv(GlobalNodes()) && Exact(GlobalNodes())
  {
    var n := GlobalNodes();
    GlobalNodesKinds();
    GlobalNodesMirror();
    GlobalNodesRest();
    GlobalNodesRead();
    hide Reaches, GlobalNodes, WellKinded, Owned, EdgesMirror, PointsMirror, PointsClosed, PointsReached, StatusFlows;
    hide GlobalsFixed, EmptyUnused, ExactMirrors, ExactPoints;
    forall v: nat, o: nat | o in Pts(n, v)
      ensures Reaches(OutEdges(n), v, o)
    {
      GlobalNodesReach(v);
    }
    ExactWhenReached(n);
  }

  /** The edge is added and `v` points to the global object. */
  ghost function Booted(n: Nodes, v: nat, w: nat): Nodes
    requires v < |n| && w < |n|
  {
    var g := EdgeAdded(n, v, w);
    seq(|n|, (x: nat) requires x < |n| =>
      g[x].(pointsTo := {GLOBAL_OBJ},
            pointsBy := if x == GLOBAL_OBJ && Pts(n, v) == {} then By(n, x) + {v} else By(n, x)))
  }

  /** While only the global object exists, spreading it reaches `v` and nothing else. */
  lemma BootSpread(g: Nodes, n': Nodes, v: nat)
    requires v < |g| && Spread(g, n', v, {GLOBAL_OBJ}) && Pts(g, v) <= {GLOBAL_OBJ}
    requires forall x: nat :: x < |g| && x != v ==> Pts(g, x) == {GLOBAL_OBJ}
    ensures |n'| == |g| && forall x: nat :: x < |g| ==> Pts(n', x) == {GLOBAL_OBJ}
    ensures forall x: nat :: x < |g| ==>
              By(n', x) == if x == GLOBAL_OBJ && Pts(g, v) == {} then By(g, x) + {v} else By(g, x)
  {
    assert forall x: nat, o: nat {:trigger o in Pts(g, x)} :: o in Pts(g, x) ==> o == GLOBAL_OBJ;
    forall x: nat | x < |g|
      ensures Pts(n', x) == {GLOBAL_OBJ}
    {
      forall o | o in Pts(n', x)
        ensures o == GLOBAL_OBJ
      {
        assert FromReached(g, v, {GLOBAL_OBJ}, x, o);
      }
      assert Pts(g, x) <= Pts(n', x);
    }
    hide PointsJustified, HandedOn;
    forall x: nat | x < |g|
      ensures By(n', x) == if x == GLOBAL_OBJ && Pts(g, v) == {} then By(g, x) + {v} else By(g, x)
    {
      forall y: nat
        ensures y in By(n', x) <==> y in By(g, x) || (x == GLOBAL_OBJ && Pts(g, v) == {} && y == v)
      {
        assert y in By(n', x) <==> y in By(g, x) || (x in Pts(n', y) && Pts(n', y) != Pts(g, y));
      }
    }
  }

  lemma SpreadNode(g: Nodes, n': Nodes, x: nat)
    requires SameButPoints(g, n') && x < |g|
    ensures n'[x] == g[x].(pointsTo := Pts(n', x), pointsBy := By(n', x))
  {
  }

  lemma NothingToRaise(n: Nodes, m: Nodes, w: nat)
    requires StatusSpread(n, m, w, NO_ESCAPE)
    ensures m == n
  {
    forall x: nat | x < |n|
      ensures m[x] == n[x]
    {
      assert Status(m, x) == Status(n, x);
    }
  }

  /** While only the global object exists, `w` may become an `out` node of `v`. */
  ghost predicate Ready(n: Nodes, v: nat, w: nat) {
    && Usable(n) && CanAdd(n, v, w) && w !in Outs(n, v)
    && Status(n, v) == NO_ESCAPE
    && (forall x: nat :: x < |n| && x != v ==> Pts(n, x) == {GLOBAL_OBJ})
    && Pts(n, v) <= {GLOBAL_OBJ} && Pts(n, w) == {GLOBAL_OBJ}
  }

  lemma BootStep(n: Nodes, n': Nodes, v: nat, w: nat)
    requires Ready(n, v, w) && OutNodeAdded(n, n', v, w)
    ensures n' == Booted(n, v, w)
  {
    var m :| OutNodeVia(n, m, n', v, w);
    NothingToRaise(n, m, w);
    var g := EdgeAdded(n, v, w);
    EdgeAddedReads(n, v, w);
    BootSpread(g, n', v);
    assert SameButPoints(g, n');
    hide Spread, OutNodeVia, EdgeAdded, SameButPoints;
    forall x: nat | x < |n|
      ensures n'[x] == Booted(n, v, w)[x]
    {
      SpreadNode(g, n', x);
      assert By(g, x) == By(n, x);
    }
  }

  /** The nodes before the global field exists, with the edge sets that change. */
  ghost function TwoBooted(a: set<nat>, b: set<nat>, c: set<nat>, pb: set<nat>, pts: set<nat>): Nodes {
    [Node(ObjectNode, NO_ESCAPE, a, {}, {0}, pb, map[], {}), Node(ReferenceNode, NO_ESCAPE, b, c, pts, {}, map[], {})]
  }

  lemma TwoBootedStep(a: set<nat>, b: set<nat>, c: set<nat>, pb: set<nat>, pts: set<nat>, w: nat)
    requires w <= 1
    ensures Booted(TwoBooted(a, b, c, pb, pts), 1, w)
         == TwoBooted(if w == 0 then a + {1} else a, if w == 1 then b + {1} else b, c + {w},
                      if pts == {} then pb + {1} else pb, {0})
  {
    var n := TwoBooted(a, b, c, pb, pts);
    var m := Booted(n, 1, w);
    assert |m| == 2;
    assert m[0] == Node(ObjectNode, NO_ESCAPE, if w == 0 then a + {1} else a, {}, {0},
                        if pts == {} then pb + {1} else pb, map[], {});
    assert m[1] == Node(ReferenceNode, NO_ESCAPE, if w == 1 then b + {1} else b, c + {w}, {0}, {}, map[], {});
  }

  /** The nodes once the global field exists. */
  ghost function AllBooted(i: set<nat>, pb: set<nat>, a: set<nat>, b: set<nat>, c: set<nat>, d: set<nat>,
                           pts: set<nat>): Nodes
  {
    [Node(ObjectNode, NO_ESCAPE, i, {}, {0}, pb, map[ANY_FIELD := 2], {}),
     Node(ReferenceNode, NO_ESCAPE, a, b, {0}, {}, map[], {}),
     Node(FieldNode, NO_ESCAPE, c, d, pts, {}, map[], {0})]
  }

  lemma AllBootedStep(i: set<nat>, pb: set<nat>, a: set<nat>, b: set<nat>, c: set<nat>, d: set<nat>, pts: set<nat>,
                      v: nat, w: nat)
    requires (v == 1 && pts == {0}) || v == 2
    requires w <= 2
    ensures Booted(AllBooted(i, pb, a, b, c, d, pts), v, w)
         == AllBooted(if w == 0 then i + {v} else i, if v == 2 && pts == {} then pb + {v} else pb,
                      if w == 1 then a + {v} else a, if v == 1 then b + {w} else b,
                      if w == 2 then c + {v} else c, if v == 2 then d + {w} else d, {0})
  {
    var n := AllBooted(i, pb, a, b, c, d, pts);
    var m := Booted(n, v, w);
    assert |m| == 3;
    assert m[0] == Node(ObjectNode, NO_ESCAPE, if w == 0 then i + {v} else i, {}, {0},
                        if v == 2 && pts == {} then pb + {v} else pb, map[ANY_FIELD := 2], {});
    assert m[1] == Node(ReferenceNode, NO_ESCAPE, if w == 1 then a + {v} else a, if v == 1 then b + {w} else b, {0}, {},
                        map[], {});
    assert m[2] == Node(FieldNode, NO_ESCAPE, if w == 2 then c + {v} else c, if v == 2 then d + {w} else d, {0}, {},
                        map[], {0});
  }

  lemma BootReady()
    ensures Ready(TwoBooted({}, {}, {}, {0}, {}), 1, 0) && Ready(TwoBooted({1}, {}, {0}, {0, 1}, {0}), 1, 1)
    ensures Ready(AllBooted({1}, {0, 1}, {1}, {0, 1}, {}, {}, {}), 2, 0)
  {
    ReadyFirst();
    ReadySecond();
    ReadyThird();
    hide *;
  }

  lemma ReadyFirst()
    ensures Ready(TwoBooted({}, {}, {}, {0}, {}), 1, 0)
  {
  }

  lemma ReadySecond()
    ensures Ready(TwoBooted({1}, {}, {0}, {0, 1}, {0}), 1, 1)
  {
  }

  lemma ReadyThird()
    ensures Ready(AllBooted({1}, {0, 1}, {1}, {0, 1}, {}, {}, {}), 2, 0)
  {
  }

  lemma BootReadyEnd()
    ensures Ready(AllBooted({1, 2}, {0, 1, 2}, {1}, {0, 1}, {}, {0}, {0}), 2, 1)
    ensures Ready(AllBooted({1, 2}, {0, 1, 2}, {1, 2}, {0, 1}, {}, {0, 1}, {0}), 2, 2)
    ensures Ready(AllBooted({1, 2}, {0, 1, 2}, {1, 2}, {0, 1}, {2}, {0, 1, 2}, {0}), 1, 2)
  {
    hide *;
    ReadyOnceBooted({1, 2}, {0, 1, 2}, {1}, {0, 1}, {}, {0}, 2, 1);
    ReadyOnceBooted({1, 2}, {0, 1, 2}, {1, 2}, {0, 1}, {}, {0, 1}, 2, 2);
    ReadyOnceBooted({1, 2}, {0, 1, 2}, {1, 2}, {0, 1}, {2}, {0, 1, 2}, 1, 2);
  }

  /** Among the nodes that exist, an edge that is not there yet can be added. */
  lemma ReadyOnceBooted(i: set<nat>, pb: set<nat>, a: set<nat>, b: set<nat>, c: set<nat>, d: set<nat>, v: nat, w: nat)
    requires 1 <= v <= 2 && w <= 2 && i <= {1, 2} && a <= {1, 2} && c <= {1, 2} && b <= {0, 1, 2} && d <= {0, 1, 2}
    requires (1 in a ==> 1 in b) && (1 in i ==> 0 in b) && (1 in c ==> 2 in b)
    requires (2 in a ==> 1 in d) && (2 in i ==> 0 in d) && (2 in c ==> 2 in d)
    requires w !in if v == 1 then b else d
    ensures Ready(AllBooted(i, pb, a, b, c, d, {0}), v, w)
  {
  }

  lemma TwoBootedStart()
    ensures Booted(TwoBooted({}, {}, {}, {0}, {}), 1, 0) == TwoBooted({1}, {}, {0}, {0, 1}, {0})
    ensures Booted(TwoBooted({1}, {}, {0}, {0, 1}, {0}), 1, 1) == TwoBooted({1}, {1}, {0, 1}, {0, 1}, {0})
  {
    TwoBootedStep({}, {}, {}, {0}, {}, 0);
    TwoBootedStep({1}, {}, {0}, {0, 1}, {0}, 1);
    assert {0} + {1} == {0, 1};
    assert {} + {1} == {1} && {} + {0} == {0};
  }

  lemma AllBootedStart()
    ensures FieldCreated(TwoBooted({1}, {1}, {0, 1}, {0, 1}, {0}), NO_ESCAPE, ANY_FIELD, 0)
         == AllBooted({1}, {0, 1}, {1}, {0, 1}, {}, {}, {})
    ensures Booted(AllBooted({1}, {0, 1}, {1}, {0, 1}, {}, {}, {}), 2, 0)
         == AllBooted({1, 2}, {0, 1, 2}, {1}, {0, 1}, {}, {0}, {0})
  {
    AllBootedStep({1}, {0, 1}, {1}, {0, 1}, {}, {}, {}, 2, 0);
    assert {1} + {2} == {1, 2} && {0, 1} + {2} == {0, 1, 2} && {} + {0} == {0};
  }

  lemma AllBootedEnd()
    ensures Booted(AllBooted({1, 2}, {0, 1, 2}, {1}, {0, 1}, {}, {0}, {0}), 2, 1)
         == AllBooted({1, 2}, {0, 1, 2}, {1, 2}, {0, 1}, {}, {0, 1}, {0})
    ensures Booted(AllBooted({1, 2}, {0, 1, 2}, {1, 2}, {0, 1}, {}, {0, 1}, {0}), 2, 2)
         == AllBooted({1, 2}, {0, 1, 2}, {1, 2}, {0, 1}, {2}, {0, 1, 2}, {0})
    ensures Booted(AllBooted({1, 2}, {0, 1, 2}, {1, 2}, {0, 1}, {2}, {0, 1, 2}, {0}), 1, 2)
         == AllBooted({1, 2}, {0, 1, 2}, {1, 2}, {0, 1, 2}, {1, 2}, {0, 1, 2}, {0})
  {
    AllBootedStep({1, 2}, {0, 1, 2}, {1}, {0, 1}, {}, {0}, {0}, 2, 1);
    AllBootedStep({1, 2}, {0, 1, 2}, {1, 2}, {0, 1}, {}, {0, 1}, {0}, 2, 2);
    AllBootedStep({1, 2}, {0, 1, 2}, {1, 2}, {0, 1}, {2}, {0, 1, 2}, {0}, 1, 2);
    assert {1} + {2} == {1, 2} && {0} + {1} == {0, 1} && {} + {2} == {2} && {0, 1} + {2} == {0, 1, 2};
    assert {2} + {1} == {1, 2};
  }
}
