/** Each step of building a connection graph keeps the invariant. */
module EscapeSteps {
  import opened Chains
  import opened EscapeNodes
  import opened EscapeSpread

  // ---------------------------------------------------------------------------------------------
  // Consequences of the invariant.
  // ---------------------------------------------------------------------------------------------

  lemma {:induction false} ClosedAlongChain(n: Nodes, p: seq<nat>, v: nat, w: nat)
    requires PointsClosed(n) && Chain(OutEdges(n), p, v, w)
    ensures Pts(n, w) <= Pts(n, v)
    decreases |p|
  {
    if |p| > 1 {
      assert Step(OutEdges(n), p[0], p[0 + 1]);
      assert p[1] in Outs(n, v);
      assert Chain(OutEdges(n), p[1..], p[1], w);
      ClosedAlongChain(n, p[1..], p[1], w);
    }
  }

  lemma ClosedAlong(n: Nodes, v: nat, w: nat)
    requires PointsClosed(n) && Reaches(OutEdges(n), v, w)
    ensures Pts(n, w) <= Pts(n, v)
  {
    var p :| Chain(OutEdges(n), p, v, w);
    ClosedAlongChain(n, p, v, w);
  }

  lemma {:induction false} StatusAlongChain(n: Nodes, p: seq<nat>, v: nat, w: nat)
    requires WellKinded(n) && StatusFlows(n) && Chain(OutEdges(n), p, v, w)
    ensures Status(n, v) <= Status(n, w)
    decreases |p|
  {
    if |p| > 1 {
      assert Step(OutEdges(n), p[0], p[0 + 1]);
      assert p[1] in Outs(n, v) && p[1] in FlowsTo(n, v);
      assert Chain(OutEdges(n), p[1..], p[1], w);
      StatusAlongChain(n, p[1..], p[1], w);
    }
  }

  /** The escape status never decreases from a node to an object it points to. */
  lemma StatusToPointee(n: Nodes, v: nat, o: nat)
    requires Inv(n) && o in Pts(n, v)
    ensures Status(n, v) <= Status(n, o)
  {
    if o != GLOBAL_OBJ {
      var p :| Chain(OutEdges(n), p, v, o);
      StatusAlongChain(n, p, v, o);
    } else {
      assert IsGlobal(o);
    }
  }

  /** A node without `out` edges reaches only itself. */
  lemma DeadEnd(succ: seq<set<nat>>, v: nat, w: nat)
    requires Reaches(succ, v, w) && forall x: nat :: !Step(succ, v, x)
    ensures w == v
  {
    var p :| Chain(succ, p, v, w);
    CarriedAlong(succ, p, v, w, {v});
  }

  lemma InvGivesPreds(n: Nodes)
    requires Inv(n)
    ensures PredsOk(n) && FlowsInside(n)
  {
    forall x: nat, y: nat | y in FlowsTo(n, x)
      ensures x < |n| && y < |n|
    {
      if IsObject(n, x) {
        var f :| f in Fields(n, x) && Fields(n, x)[f] == y;
      } else {
        assert y in Outs(n, x);
      }
    }
  }

  // ---------------------------------------------------------------------------------------------
  // Raising a status.
  // ---------------------------------------------------------------------------------------------

  lemma RaiseKeepsFlows(n: Nodes, n': Nodes, v: nat, st: EAStatus)
    requires StatusFlows(n) && StatusSpread(n, n', v, st)
    ensures StatusFlows(n')
    ensures forall x: nat :: Status(n, x) <= Status(n', x)
  {
    SameFlows(n, n');
    forall x: nat
      ensures Status(n, x) <= Status(n', x)
    {
      assert Status(n', x) == Status(n, x) || Status(n', x) == st;
    }
    forall x: nat, y: nat | y in FlowsTo(n', x)
      ensures Status(n', x) <= Status(n', y)
    {
      assert y in FlowsTo(n, x);
      assert Status(n', y) >= Status(n, y);
    }
  }

  lemma RaiseKeepsInv(n: Nodes, n': Nodes, v: nat, st: EAStatus)
    requires Inv(n) && StatusSpread(n, n', v, st)
    ensures Inv(n')
    ensures Exact(n) ==> Exact(n')
  {
    hide Reaches;
    SameFlows(n, n');
    RaiseKeepsFlows(n, n', v, st);
    RaiseKeepsGlobals(n, n', v, st);
    SameShape(n, n');
    hide StatusSpread, StatusFlows, GlobalsFixed;
    hide WellKinded, Owned, EdgesMirror, PointsMirror, PointsClosed, PointsReached, EmptyUnused, Exact;
  }

  lemma RaiseKeepsGlobals(n: Nodes, n': Nodes, v: nat, st: EAStatus)
    requires GlobalsFixed(n) && StatusSpread(n, n', v, st)
    ensures GlobalsFixed(n')
  {
    SameFlows(n, n');
    hide StatusHandedOn, Reaches;
  }

  /** What does not depend on statuses. */
  lemma SameShape(n: Nodes, n': Nodes)
    requires SameButStatus(n, n')
    ensures WellKinded(n) ==> WellKinded(n')
    ensures Owned(n) ==> Owned(n')
    ensures EdgesMirror(n) && PointsMirror(n) ==> EdgesMirror(n') && PointsMirror(n')
    ensures PointsClosed(n) && PointsReached(n) ==> PointsClosed(n') && PointsReached(n')
    ensures EmptyUnused(n) ==> EmptyUnused(n')
    ensures Exact(n) ==> Exact(n')
  {
    SameKinds(n, n');
    SameMirrors(n, n');
    SamePoints(n, n');
    hide *;
  }

  lemma SameKinds(n: Nodes, n': Nodes)
    requires SameButStatus(n, n')
    ensures WellKinded(n) ==> WellKinded(n')
    ensures Owned(n) ==> Owned(n')
    ensures EmptyUnused(n) ==> EmptyUnused(n')
  {
    SameFlows(n, n');
    hide SameButStatus;
  }

  lemma SameMirrors(n: Nodes, n': Nodes)
    requires SameButStatus(n, n')
    ensures EdgesMirror(n) && PointsMirror(n) ==> EdgesMirror(n') && PointsMirror(n')
  {
    SameFlows(n, n');
    hide SameButStatus;
  }

  lemma SamePoints(n: Nodes, n': Nodes)
    requires SameButStatus(n, n')
    ensures PointsClosed(n) && PointsReached(n) ==> PointsClosed(n') && PointsReached(n')
    ensures Exact(n) ==> Exact(n')
  {
    hide Reaches;
    SameFlows(n, n');
    hide SameButStatus;
  }

  // ---------------------------------------------------------------------------------------------
  // Adding an edge.
  // ---------------------------------------------------------------------------------------------

  ghost function EdgeAdded(n: Nodes, v: nat, w: nat): Nodes
    requires v < |n| && w < |n|
  {
    var m := n[v := n[v].(outs := n[v].outs + {w})];
    m[w := m[w].(ins := m[w].ins + {v})]
  }

  lemma EdgeAddedReads(n: Nodes, v: nat, w: nat)
    requires v < |n| && w < |n|
    ensures var m := EdgeAdded(n, v, w);
      && |m| == |n|
      && (forall x: nat ::
            && Outs(m, x) == (if x == v then Outs(n, x) + {w} else Outs(n, x))
            && Ins(m, x) == (if x == w then Ins(n, x) + {v} else Ins(n, x))
            && Pts(m, x) == Pts(n, x) && By(m, x) == By(n, x) && Status(m, x) == Status(n, x)
            && Fields(m, x) == Fields(n, x) && Kind(m, x) == Kind(n, x) && Belongs(m, x) == Belongs(n, x))
      && (forall a: nat, b: nat :: Step(OutEdges(n), a, b) ==> Step(OutEdges(m), a, b))
  {
    var m := EdgeAdded(n, v, w);
    forall a: nat, b: nat | Step(OutEdges(n), a, b)
      ensures Step(OutEdges(m), a, b)
    {
      assert b in Outs(n, a);
      assert b in Outs(m, a);
    }
  }

  /** The edge from `v` to `w` may be added, and `n'` is the result after `w`'s objects have been handed on. */
  ghost predicate EdgeStep(n: Nodes, n': Nodes, v: nat, w: nat) {
    && Live(n, v) && Live(n, w) && !IsObject(n, v) && !IsGlobal(v) && Pts(n, w) != {}
    && Status(n, v) <= Status(n, w)
    && Spread(EdgeAdded(n, v, w), n', v, Pts(n, w))
  }

  /** Every object of `x` was already in a node `y` that `x` reaches, or came over the new edge from `w`. */
  lemma EdgeStepSource(n: Nodes, n': Nodes, v: nat, w: nat, x: nat, o: nat) returns (y: nat)
    requires EdgeStep(n, n', v, w) && o in Pts(n', x)
    ensures OutEdges(n') == OutEdges(EdgeAdded(n, v, w))
    ensures Reaches(OutEdges(n'), x, y) && (o in Pts(n, y) || (y == v && o in Pts(n, w)))
  {
    var m := EdgeAdded(n, v, w);
    EdgeAddedReads(n, v, w);
    SameEdges(m, n');
    assert FromReached(m, v, Pts(n, w), x, o);
    hide Reaches, EdgeAdded, Spread;
    y :| Reaches(OutEdges(m), x, y) && (o in Pts(m, y) || (y == v && o in Pts(n, w)));
  }

  /** What a source reached before the new edge, its receivers reach over it. */
  lemma SourceReaches(n: Nodes, v: nat, w: nat, x: nat, y: nat, o: nat)
    requires v < |n| && w < |n| && Reaches(OutEdges(EdgeAdded(n, v, w)), x, y)
    requires Reaches(OutEdges(n), y, o) || (y == v && Reaches(OutEdges(n), w, o))
    ensures Reaches(OutEdges(EdgeAdded(n, v, w)), x, o)
  {
    var e := OutEdges(EdgeAdded(n, v, w));
    EdgeAddedReads(n, v, w);
    assert w in Outs(EdgeAdded(n, v, w), v) && Step(e, v, w);
    hide EdgeAdded, Reaches;
    if Reaches(OutEdges(n), y, o) {
      ReachesMore(OutEdges(n), e, y, o);
    } else {
      ReachesMore(OutEdges(n), e, w, o);
      StepReaches(e, v, w, o);
    }
    ReachesTrans(e, x, y, o);
  }

  /** What is known of an object `o` that `x` points to after the edge step. */
  ghost predicate EdgePoint(n: Nodes, n': Nodes, v: nat, x: nat, o: nat) {
    && IsObject(n, o)
    && (o in Pts(n, x) || Reaches(OutEdges(n'), x, v))
    && (o != GLOBAL_OBJ ==> Reaches(OutEdges(n'), x, o))
    && (IsObject(n, x) || IsGlobal(x) ==> o in Pts(n, x))
  }

  ghost predicate EdgePoints(n: Nodes, n': Nodes, v: nat) {
    forall x: nat, o: nat {:trigger o in Pts(n', x)} :: o in Pts(n', x) ==> EdgePoint(n, n', v, x, o)
  }

  lemma EdgeStepPoints(n: Nodes, n': Nodes, v: nat, w: nat, x: nat, o: nat)
    requires Inv(n) && EdgeStep(n, n', v, w) && o in Pts(n', x)
    ensures EdgePoint(n, n', v, x, o)
  {
    var y := EdgeStepSource(n, n', v, w, x, o);
    assert v < |n| && w < |n| && !IsObject(n, v) && !IsGlobal(v);
    hide EdgeStep, Reaches, EdgeAdded;
    EdgeStepOldPoints(n, v, w, x, y, o);
    assert IsObject(n, o) by {
      assert o in Pts(n, y) || o in Pts(n, w);
    }
    if o != GLOBAL_OBJ {
      if o in Pts(n, y) {
        assert Reaches(OutEdges(n), y, o);
      } else {
        assert Reaches(OutEdges(n), w, o);
      }
      SourceReaches(n, v, w, x, y, o);
    }
  }

  /** An object that arrives over the new edge arrives through `v`; objects and global nodes receive none. */
  lemma EdgeStepOldPoints(n: Nodes, v: nat, w: nat, x: nat, y: nat, o: nat)
    requires Inv(n) && v < |n| && w < |n| && !IsObject(n, v) && !IsGlobal(v)
    requires Reaches(OutEdges(EdgeAdded(n, v, w)), x, y) && (o in Pts(n, y) || y == v)
    ensures o in Pts(n, x) || Reaches(OutEdges(EdgeAdded(n, v, w)), x, v)
    ensures IsObject(n, x) || IsGlobal(x) ==> o in Pts(n, x)
  {
    var m := EdgeAdded(n, v, w);
    EdgeAddedReads(n, v, w);
    if !Reaches(OutEdges(m), x, v) {
      AvoidsNewEdge(n, v, w, x, y);
      ClosedAlong(n, x, y);
    } else if IsObject(n, x) {
      forall b: nat
        ensures !Step(OutEdges(m), x, b)
      {
        assert Outs(m, x) == {};
      }
      DeadEnd(OutEdges(m), x, v);
    } else if IsGlobal(x) {
      GlobalsAvoid(n, v, w, x);
    }
  }

  /** A chain that never meets `v` does not use the new edge. */
  lemma AvoidsNewEdge(n: Nodes, v: nat, w: nat, x: nat, y: nat)
    requires v < |n| && w < |n|
    requires Reaches(OutEdges(EdgeAdded(n, v, w)), x, y) && !Reaches(OutEdges(EdgeAdded(n, v, w)), x, v)
    ensures Reaches(OutEdges(n), x, y)
  {
    var m := EdgeAdded(n, v, w);
    var p :| Chain(OutEdges(m), p, x, y);
    forall i | 0 <= i < |p| - 1
      ensures Step(OutEdges(n), p[i], p[i + 1])
    {
      assert Step(OutEdges(m), p[i], p[i + 1]);
      assert Chain(OutEdges(m), p[..i + 1], x, p[i]);
      EdgeAddedReads(n, v, w);
      assert p[i + 1] in Outs(m, p[i]);
    }
    assert Chain(OutEdges(n), p, x, y);
  }

  lemma GlobalsAvoid(n: Nodes, v: nat, w: nat, x: nat)
    requires GlobalsFixed(n) && v < |n| && w < |n| && !IsGlobal(v) && IsGlobal(x)
    ensures !Reaches(OutEdges(EdgeAdded(n, v, w)), x, v)
  {
    var m := EdgeAdded(n, v, w);
    if Reaches(OutEdges(m), x, v) {
      EdgeAddedReads(n, v, w);
      var p :| Chain(OutEdges(m), p, x, v);
      var good := {0, 1, 2};
      forall a: nat, b: nat | a in good && Step(OutEdges(m), a, b)
        ensures b in good
      {
        assert b in Outs(m, a) && b in Outs(n, a) && IsGlobal(a);
      }
      CarriedAlong(OutEdges(m), p, x, v, good);
    }
  }

  /** How the nodes after the edge step read, apart from points-to information. */
  ghost predicate EdgeFrame(n: Nodes, n': Nodes, v: nat, w: nat) {
    && |n'| == |n| && Live(n, v) && Live(n, w) && !IsObject(n, v) && !IsGlobal(v) && Pts(n, w) != {}
    && Status(n, v) <= Status(n, w)
    && (forall x: nat {:trigger Outs(n', x)} :: Outs(n', x) == if x == v then Outs(n, x) + {w} else Outs(n, x))
    && (forall x: nat {:trigger Ins(n', x)} :: Ins(n', x) == if x == w then Ins(n, x) + {v} else Ins(n, x))
    && (forall x: nat {:trigger Status(n', x)} :: Status(n', x) == Status(n, x))
    && (forall x: nat {:trigger Fields(n', x)} :: Fields(n', x) == Fields(n, x))
    && (forall x: nat {:trigger Kind(n', x)} :: Kind(n', x) == Kind(n, x))
    && (forall x: nat {:trigger Belongs(n', x)} :: Belongs(n', x) == Belongs(n, x))
    && (forall x: nat {:trigger Pts(n', x)} :: Pts(n, x) <= Pts(n', x))
  }

  /** A node whose set grew in the edge step has handed it on. */
  ghost predicate EdgeHanded(n: Nodes, n': Nodes, v: nat, w: nat) {
    && Pts(n, w) <= Pts(n', v)
    && forall u: nat, x: nat {:trigger u in Ins(n', x)} :: u in Ins(n', x) ==>
         Pts(n', x) == Pts(n, x) || Pts(n', x) <= Pts(n', u)
  }

  lemma EdgeStepAllPoints(n: Nodes, n': Nodes, v: nat, w: nat)
    requires Inv(n) && EdgeStep(n, n', v, w)
    ensures EdgePoints(n, n', v)
  {
    hide Inv, EdgeStep, EdgePoint;
    forall x: nat, o: nat | o in Pts(n', x)
      ensures EdgePoint(n, n', v, x, o)
    {
      EdgeStepPoints(n, n', v, w, x, o);
    }
  }

  lemma EdgeStepFacts(n: Nodes, n': Nodes, v: nat, w: nat)
    requires Inv(n) && EdgeStep(n, n', v, w)
    ensures EdgeFrame(n, n', v, w) && EdgePoints(n, n', v) && EdgeHanded(n, n', v, w) && ByGrows(n, n')
  {
    hide *;
    EdgeStepReads(n, n', v, w);
    EdgeStepAllPoints(n, n', v, w);
  }

  lemma EdgeStepReads(n: Nodes, n': Nodes, v: nat, w: nat)
    requires EdgeStep(n, n', v, w)
    ensures EdgeFrame(n, n', v, w) && EdgeHanded(n, n', v, w)
    ensures ByGrows(n, n')
  {
    var m := EdgeAdded(n, v, w);
    EdgeAddedReads(n, v, w);
    SameEdges(m, n');
    hide EdgeAdded, SameButPoints;
    forall x: nat
      ensures Pts(n, x) <= Pts(n', x)
    {
      assert Pts(m, x) <= Pts(n', x);
    }
    forall x: nat, o: nat
      ensures x in By(n', o) <==> x in By(n, o) || (o in Pts(n', x) && Pts(n', x) != Pts(n, x))
    {
      assert x in By(n', o) <==> x in By(m, o) || (o in Pts(n', x) && Pts(n', x) != Pts(m, x));
    }
    forall u: nat, x: nat | u in Ins(n', x)
      ensures Pts(n', x) == Pts(n, x) || Pts(n', x) <= Pts(n', u)
    {
      assert u in Ins(m, x);
    }
  }

  lemma EdgeKeepsKinds(n: Nodes, n': Nodes, v: nat, w: nat)
    requires WellKinded(n) && EdgesMirror(n) && EdgeFrame(n, n', v, w) && EdgePoints(n, n', v)
    ensures WellKinded(n') && EdgesMirror(n')
  {
    forall x: nat | IsObject(n', x)
      ensures Outs(n', x) == {} && Pts(n', x) == {x}
    {
      assert Pts(n, x) <= Pts(n', x);
    }
  }

  lemma EdgeKeepsMirror(n: Nodes, n': Nodes, v: nat, w: nat)
    requires PointsMirror(n) && EdgeFrame(n, n', v, w)
    requires ByGrows(n, n')
    ensures PointsMirror(n')
  {
    forall x: nat, o: nat
      ensures x in By(n', o) ==> o in Pts(n', x)
      ensures o in Pts(n', x) && o != GLOBAL_OBJ ==> x in By(n', o)
    {
      assert Pts(n, x) <= Pts(n', x);
      assert o in Pts(n, x) && o != GLOBAL_OBJ ==> x in By(n, o);
    }
  }

  lemma EdgeKeepsClosed(n: Nodes, n': Nodes, v: nat, w: nat)
    requires PointsClosed(n) && EdgesMirror(n') && EdgeFrame(n, n', v, w) && EdgePoints(n, n', v)
    requires EdgeHanded(n, n', v, w)
    ensures PointsClosed(n')
  {
    forall u: nat, x: nat | x in Outs(n', u)
      ensures Pts(n', x) <= Pts(n', u)
    {
      assert (u == v && x == w) || x in Outs(n, u);
      assert Pts(n, x) <= Pts(n', u) by {
        assert Pts(n, u) <= Pts(n', u);
      }
      if !IsGlobal(x) {
        assert u in Ins(n', x);
      } else {
        assert Pts(n', x) <= Pts(n, x);
      }
    }
  }

  lemma EdgeKeepsRest(n: Nodes, n': Nodes, v: nat, w: nat)
    requires StatusFlows(n) && EmptyUnused(n) && GlobalsFixed(n)
    requires EdgeFrame(n, n', v, w) && EdgePoints(n, n', v)
    ensures PointsReached(n') && StatusFlows(n') && EmptyUnused(n') && GlobalsFixed(n')
  {
    forall x: nat, y: nat | y in FlowsTo(n', x)
      ensures Status(n', x) <= Status(n', y)
    {
      assert y in FlowsTo(n, x) || (x == v && y == w);
    }
    forall x: nat
      ensures Pts(n', x) == {} ==> Ins(n', x) == {}
      ensures IsGlobal(x) ==> Pts(n', x) == {GLOBAL_OBJ}
    {
      assert Pts(n, x) <= Pts(n', x);
    }
  }

  lemma EdgeKeepsOwned(n: Nodes, n': Nodes, v: nat, w: nat)
    requires Owned(n) && EdgeFrame(n, n', v, w)
    ensures Owned(n')
  {
    forall x: nat, o: nat | o in Belongs(n', x)
      ensures IsObject(n', o) && Lists(n', o, x)
    {
      assert o in Belongs(n, x) && Lists(n, o, x) && Fields(n', o) == Fields(n, o);
    }
  }

  lemma EdgeKeepsInv(n: Nodes, n': Nodes, v: nat, w: nat)
    requires Inv(n) && EdgeStep(n, n', v, w)
    ensures Inv(n')
  {
    EdgeStepFacts(n, n', v, w);
    hide EdgeStep, EdgeFrame, EdgePoints, EdgeHanded, ByGrows;
    hide WellKinded, Owned, EdgesMirror, PointsMirror, PointsClosed, PointsReached, StatusFlows, GlobalsFixed,
        EmptyUnused;
    EdgeKeepsKinds(n, n', v, w);
    EdgeKeepsOwned(n, n', v, w);
    EdgeKeepsMirror(n, n', v, w);
    EdgeKeepsClosed(n, n', v, w);
    EdgeKeepsRest(n, n', v, w);
  }

  lemma EdgeKeepsExactMirror(n: Nodes, n': Nodes, v: nat, w: nat)
    requires ExactMirrors(n) && EdgeFrame(n, n', v, w) && ByGrows(n, n')
    ensures ExactMirrors(n')
  {
    forall x: nat, o: nat
      ensures x in By(n', o) <==> o in Pts(n', x)
    {
      assert Pts(n, x) <= Pts(n', x);
      assert x in By(n, o) <==> o in Pts(n, x);
    }
  }

  /** Closed points-to sets hold every reachable object. */
  lemma ReachedIsPointed(n: Nodes, x: nat, o: nat)
    requires WellKinded(n) && PointsClosed(n) && IsObject(n, o) && Reaches(OutEdges(n), x, o)
    ensures o in Pts(n, x)
  {
    ClosedAlong(n, x, o);
    assert o in Pts(n, o);
  }

  lemma ExactWhenReached(n: Nodes)
    requires WellKinded(n) && PointsClosed(n)
    requires forall x: nat, o: nat {:trigger o in Pts(n, x)} :: o in Pts(n, x) ==> Reaches(OutEdges(n), x, o)
    ensures ExactPoints(n)
  {
    hide PointsClosed, Reaches;
    forall x: nat, o: nat | x < |n|
      ensures o in Pts(n, x) <==> IsObject(n, o) && Reaches(OutEdges(n), x, o)
    {
      if IsObject(n, o) && Reaches(OutEdges(n), x, o) {
        ReachedIsPointed(n, x, o);
      }
    }
  }

  lemma EdgeKeepsExactPoints(n: Nodes, n': Nodes, v: nat, w: nat)
    requires ExactPoints(n) && EdgeStep(n, n', v, w) && WellKinded(n') && PointsClosed(n')
    ensures ExactPoints(n')
  {
    hide WellKinded, EdgeStep, PointsClosed, ExactPoints, Reaches;
    forall x: nat, o: nat | o in Pts(n', x)
      ensures Reaches(OutEdges(n'), x, o)
    {
      EdgeStepPointsExact(n, n', v, w, x, o);
    }
    ExactWhenReached(n');
  }

  /** With exact mirrors, points-to sets are exactly the reachable objects again. */
  lemma EdgeKeepsExact(n: Nodes, n': Nodes, v: nat, w: nat)
    requires Inv(n) && Exact(n) && EdgeStep(n, n', v, w)
    ensures Exact(n')
  {
    EdgeKeepsInv(n, n', v, w);
    EdgeStepFacts(n, n', v, w);
    hide WellKinded, Owned, EdgesMirror, PointsMirror, PointsClosed, PointsReached, StatusFlows, GlobalsFixed,
        EmptyUnused;
    hide EdgeStep, EdgeFrame, EdgePoints, EdgeHanded, ByGrows, ExactMirrors, ExactPoints;
    EdgeKeepsExactMirror(n, n', v, w);
    EdgeKeepsExactPoints(n, n', v, w);
  }

  lemma EdgeStepPointsExact(n: Nodes, n': Nodes, v: nat, w: nat, x: nat, o: nat)
    requires ExactPoints(n) && EdgeStep(n, n', v, w) && o in Pts(n', x)
    ensures Reaches(OutEdges(n'), x, o)
  {
    var y := EdgeStepSource(n, n', v, w, x, o);
    assert v < |n| && w < |n|;
    hide EdgeStep, Reaches, EdgeAdded;
    if o in Pts(n, y) {
      assert Reaches(OutEdges(n), y, o);
    } else {
      assert Reaches(OutEdges(n), w, o);
    }
    SourceReaches(n, v, w, x, y, o);
  }
}
