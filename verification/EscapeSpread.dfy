/** What one propagation of points-to objects does to the nodes. */
module EscapeSpread {
  import opened Chains
  import opened EscapeNodes

  /** Nothing but points-to information differs. */
  ghost predicate SameButPoints(n: Nodes, n': Nodes) {
    && |n'| == |n|
    && forall v :: 0 <= v < |n| ==> n'[v] == n[v].(pointsTo := n'[v].pointsTo, pointsBy := n'[v].pointsBy)
  }

  ghost predicate PointsGrow(n: Nodes, n': Nodes) {
    forall v: nat :: Pts(n, v) <= Pts(n', v)
  }

  /** Every object of `x` came from a node `x` reaches, or is one of the objects `c` handed to a reached `v`. */
  ghost predicate FromReached(n: Nodes, v: nat, c: set<nat>, x: nat, o: nat) {
    exists y :: Reaches(OutEdges(n), x, y) && (o in Pts(n, y) || (y == v && o in c))
  }

  ghost predicate PointsJustified(n: Nodes, n': Nodes, v: nat, c: set<nat>) {
    forall x: nat, o: nat {:trigger o in Pts(n', x)} :: o in Pts(n', x) ==> FromReached(n, v, c, x, o)
  }

  /** A node whose set grew has handed it on to all of its predecessors, except those in `todo` of `v`. */
  ghost predicate HandedOn(n: Nodes, n': Nodes, v: nat, todo: set<nat>) {
    forall u: nat, w: nat {:trigger u in Ins(n, w)} :: u in Ins(n, w) && !(w == v && u in todo) ==>
      Pts(n', w) == Pts(n, w) || Pts(n', w) <= Pts(n', u)
  }

  /** `pointsBy` gains exactly the nodes whose set grew. */
  ghost predicate ByGrows(n: Nodes, n': Nodes) {
    forall x: nat, o: nat {:trigger x in By(n', o)} {:trigger x in By(n, o)} {:trigger o in Pts(n', x)} ::
      x in By(n', o) <==> x in By(n, o) || (o in Pts(n', x) && Pts(n', x) != Pts(n, x))
  }

  /** The effect of handing the objects `c` to `v`, with the predecessors `todo` of `v` still to be served. */
  ghost predicate SpreadBut(n: Nodes, n': Nodes, v: nat, c: set<nat>, todo: set<nat>) {
    && SameButPoints(n, n') && PointsGrow(n, n') && PointsJustified(n, n', v, c) && HandedOn(n, n', v, todo)
    && ByGrows(n, n')
    && c <= Pts(n', v)
  }

  /** The effect of handing the objects `c` to `v`. */
  ghost predicate Spread(n: Nodes, n': Nodes, v: nat, c: set<nat>) {
    SpreadBut(n, n', v, c, {})
  }

  /** What the propagation needs of the edges: predecessors are non-object nodes with an `out` edge. */
  ghost predicate PredsOk(n: Nodes) {
    forall u: nat, w: nat {:trigger u in Ins(n, w)} :: u in Ins(n, w) ==> u < |n| && !IsObject(n, u) && w in Outs(n, u)
  }

  lemma SameEdges(n: Nodes, n': Nodes)
    requires SameButPoints(n, n')
    ensures OutEdges(n') == OutEdges(n) && FlowEdges(n') == FlowEdges(n)
    ensures PredsOk(n) ==> PredsOk(n')
    ensures forall v: nat :: Ins(n', v) == Ins(n, v) && Outs(n', v) == Outs(n, v) && Status(n', v) == Status(n, v)
                             && Fields(n', v) == Fields(n, v) && Kind(n', v) == Kind(n, v)
                                 && Belongs(n', v) == Belongs(n, v)
  {
    assert forall v: nat :: Ins(n', v) == Ins(n, v) && Outs(n', v) == Outs(n, v) && Status(n', v) == Status(n, v)
                            && Fields(n', v) == Fields(n, v) && Kind(n', v) == Kind(n, v)
                                && Belongs(n', v) == Belongs(n, v);
  }

  lemma JustifiedTrans(n: Nodes, s: Nodes, t: Nodes, v: nat, c: set<nat>, u: nat)
    requires PointsJustified(n, s, v, c) && PointsJustified(s, t, u, Pts(s, v))
    requires OutEdges(s) == OutEdges(n) && Step(OutEdges(n), u, v)
    ensures PointsJustified(n, t, v, c)
  {
    var e := OutEdges(n);
    forall x: nat, o: nat | o in Pts(t, x)
      ensures FromReached(n, v, c, x, o)
    {
      assert FromReached(s, u, Pts(s, v), x, o);
      var y: nat :| Reaches(e, x, y) && (o in Pts(s, y) || (y == u && o in Pts(s, v)));
      if o !in Pts(s, y) {
        ReachesStep(e, x, u, v);
        y := v;
      }
      assert FromReached(n, v, c, y, o);
      var z: nat :| Reaches(e, y, z) && (o in Pts(n, z) || (z == v && o in c));
      ReachesTrans(e, x, y, z);
    }
  }

  lemma ByGrowsTrans(n: Nodes, s: Nodes, t: Nodes)
    requires ByGrows(n, s) && ByGrows(s, t) && PointsGrow(n, s) && PointsGrow(s, t)
    ensures ByGrows(n, t)
  {
    forall x: nat, o: nat
      ensures x in By(t, o) <==> x in By(n, o) || (o in Pts(t, x) && Pts(t, x) != Pts(n, x))
    {
      assert x in By(s, o) <==> x in By(n, o) || (o in Pts(s, x) && Pts(s, x) != Pts(n, x));
      assert Pts(n, x) <= Pts(s, x) <= Pts(t, x);
    }
  }

  lemma HandedOnTrans(n: Nodes, s: Nodes, t: Nodes, v: nat, todo: set<nat>, u: nat)
    requires HandedOn(n, s, v, todo) && HandedOn(s, t, u, {}) && PointsGrow(s, t) && Pts(s, v) <= Pts(t, u)
    requires forall w: nat :: Ins(s, w) == Ins(n, w)
    ensures HandedOn(n, t, v, todo - {u})
  {
    forall a: nat, w: nat | a in Ins(n, w) && !(w == v && a in todo - {u})
      ensures Pts(t, w) == Pts(n, w) || Pts(t, w) <= Pts(t, a)
    {
      assert Pts(t, w) == Pts(s, w) || Pts(t, w) <= Pts(t, a);
      assert Pts(s, a) <= Pts(t, a);
    }
  }

  lemma SameTrans(n: Nodes, s: Nodes, t: Nodes)
    requires SameButPoints(n, s) && SameButPoints(s, t) && PointsGrow(n, s) && PointsGrow(s, t)
    ensures SameButPoints(n, t) && PointsGrow(n, t)
  {
    forall v | 0 <= v < |n|
      ensures t[v] == n[v].(pointsTo := t[v].pointsTo, pointsBy := t[v].pointsBy)
    {
      assert t[v] == s[v].(pointsTo := t[v].pointsTo, pointsBy := t[v].pointsBy);
    }
    forall v: nat
      ensures Pts(n, v) <= Pts(t, v)
    {
      assert Pts(n, v) <= Pts(s, v) <= Pts(t, v);
    }
  }

  /** Serving one more predecessor of `v`. */
  lemma ServePred(n: Nodes, s: Nodes, t: Nodes, v: nat, c: set<nat>, todo: set<nat>, u: nat)
    requires PredsOk(n) && SpreadBut(n, s, v, c, todo) && u in todo && u in Ins(n, v)
    requires Spread(s, t, u, Pts(s, v))
    ensures SpreadBut(n, t, v, c, todo - {u})
  {
    SameEdges(n, s);
    assert v in Outs(n, u) && Step(OutEdges(n), u, v);
    SameTrans(n, s, t);
    ByGrowsTrans(n, s, t);
    HandedOnTrans(n, s, t, v, todo, u);
    JustifiedTrans(n, s, t, v, c, u);
    assert c <= Pts(s, v) <= Pts(t, v);
    hide SameButPoints, PointsGrow, PointsJustified, HandedOn, ByGrows;
  }

  /** The node's own set has grown and is registered with its objects; no predecessor is served yet. */
  ghost function Grown(n: Nodes, v: nat, c: set<nat>): Nodes
    requires v < |n|
  {
    n[v := n[v].(pointsTo := n[v].pointsTo + c)]
  }

  ghost function Registered(n: Nodes, v: nat, objs: set<nat>): Nodes {
    seq(|n|, (o: nat) requires o < |n| =>
      if o in objs then n[o].(pointsBy := n[o].pointsBy + {v}) else n[o])
  }

  lemma SpreadStarts(n: Nodes, v: nat, c: set<nat>)
    requires v < |n| && !(c <= Pts(n, v)) && (forall o :: o in Pts(n, v) + c ==> o < |n|)
    ensures SpreadBut(n, Registered(Grown(n, v, c), v, Pts(n, v) + c), v, c, Ins(n, v))
  {
    var s := Registered(Grown(n, v, c), v, Pts(n, v) + c);
    StartReads(n, v, c);
    hide Registered, Grown, Reaches;
    forall x: nat, o: nat | o in Pts(s, x)
      ensures FromReached(n, v, c, x, o)
    {
      ReachesSelf(OutEdges(n), x);
      assert o in Pts(n, x) || (x == v && o in c);
    }
  }

  lemma StartReads(n: Nodes, v: nat, c: set<nat>)
    requires v < |n| && (forall o :: o in Pts(n, v) + c ==> o < |n|)
    ensures var s := Registered(Grown(n, v, c), v, Pts(n, v) + c);
      && SameButPoints(n, s)
      && (forall x: nat {:trigger Pts(s, x)} :: Pts(s, x) == if x == v then Pts(n, v) + c else Pts(n, x))
      && (forall o: nat {:trigger By(s, o)} :: By(s, o) == if o in Pts(n, v) + c then By(n, o) + {v} else By(n, o))
  {
  }

  lemma NothingNew(n: Nodes, v: nat, c: set<nat>)
    requires c <= Pts(n, v)
    ensures Spread(n, n, v, c)
  {
    forall x: nat, o: nat | o in Pts(n, x)
      ensures FromReached(n, v, c, x, o)
    {
      ReachesSelf(OutEdges(n), x);
    }
  }

  // ---------------------------------------------------------------------------------------------
  // Escape status.
  // ---------------------------------------------------------------------------------------------

  ghost predicate SameButStatus(n: Nodes, n': Nodes) {
    && |n'| == |n|
    && forall v :: 0 <= v < |n| ==> n'[v] == n[v].(eaStatus := n'[v].eaStatus)
  }

  /** Whatever was raised was below `st`, is now `st`, and is reached from `v` by flow edges. */
  ghost predicate RaisedTo(n: Nodes, n': Nodes, v: nat, st: EAStatus) {
    forall x: nat {:trigger Status(n', x)} :: Status(n', x) == Status(n, x)
      || (Status(n, x) < st && Status(n', x) == st && Reaches(FlowEdges(n), v, x))
  }

  /** A raised node has handed its status on, except `v` to its successors in `todo`. */
  ghost predicate StatusHandedOn(n: Nodes, n': Nodes, v: nat, todo: set<nat>) {
    forall x: nat, y: nat {:trigger y in FlowsTo(n, x)} :: y in FlowsTo(n, x) && !(x == v && y in todo) ==>
      Status(n', x) == Status(n, x) || Status(n', x) <= Status(n', y)
  }

  ghost predicate StatusSpreadBut(n: Nodes, n': Nodes, v: nat, st: EAStatus, todo: set<nat>) {
    SameButStatus(n, n') && RaisedTo(n, n', v, st) && StatusHandedOn(n, n', v, todo) && Status(n', v) >= st
  }

  /** The effect of raising `v` to `st`. */
  ghost predicate StatusSpread(n: Nodes, n': Nodes, v: nat, st: EAStatus) {
    StatusSpreadBut(n, n', v, st, {})
  }

  ghost predicate FlowsInside(n: Nodes) {
    forall x: nat, y: nat {:trigger y in FlowsTo(n, x)} :: y in FlowsTo(n, x) ==> x < |n| && y < |n|
  }

  lemma SameFlows(n: Nodes, n': Nodes)
    requires SameButStatus(n, n')
    ensures OutEdges(n') == OutEdges(n) && FlowEdges(n') == FlowEdges(n)
    ensures forall v: nat :: FlowsTo(n', v) == FlowsTo(n, v)
    ensures forall v: nat :: Ins(n', v) == Ins(n, v) && Outs(n', v) == Outs(n, v) && Fields(n', v) == Fields(n, v)
                             && Kind(n', v) == Kind(n, v) && Belongs(n', v) == Belongs(n, v)
                                 && Pts(n', v) == Pts(n, v) && By(n', v) == By(n, v)
  {
    assert forall v: nat :: Ins(n', v) == Ins(n, v) && Outs(n', v) == Outs(n, v) && Fields(n', v) == Fields(n, v)
                            && Kind(n', v) == Kind(n, v) && Belongs(n', v) == Belongs(n, v);
    assert forall v: nat :: FlowsTo(n', v) == FlowsTo(n, v);
  }

  lemma RaiseStarts(n: Nodes, v: nat, st: EAStatus)
    requires v < |n| && Status(n, v) < st
    ensures StatusSpreadBut(n, n[v := n[v].(eaStatus := st)], v, st, FlowsTo(n, v))
  {
    ReachesSelf(FlowEdges(n), v);
  }

  /** Serving one more successor of `v`. */
  lemma ServeSucc(n: Nodes, s: Nodes, t: Nodes, v: nat, st: EAStatus, todo: set<nat>, w: nat)
    requires FlowsInside(n) && StatusSpreadBut(n, s, v, st, todo) && w in todo && w in FlowsTo(n, v)
    requires Status(s, v) == st && StatusSpread(s, t, w, st)
    ensures StatusSpreadBut(n, t, v, st, todo - {w}) && Status(t, v) == st
  {
    SameFlows(n, s);
    assert v < |n| && Step(FlowEdges(n), v, w);
    forall x: nat
      ensures Status(t, x) == Status(n, x)
              || (Status(n, x) < st && Status(t, x) == st && Reaches(FlowEdges(n), v, x))
    {
      assert Status(s, x) == Status(n, x) || Status(s, x) == st;
      if Status(t, x) != Status(s, x) {
        StepReaches(FlowEdges(n), v, w, x);
      }
    }
    forall x: nat, y: nat | y in FlowsTo(n, x) && !(x == v && y in todo - {w})
      ensures Status(t, x) == Status(n, x) || Status(t, x) <= Status(t, y)
    {
      assert y in FlowsTo(s, x);
      assert Status(t, x) == Status(s, x) || Status(t, x) <= Status(t, y);
      assert Status(t, y) == Status(s, y) || Status(t, y) == st;
    }
    SameStatusTrans(n, s, t);
  }

  lemma SameStatusTrans(n: Nodes, s: Nodes, t: Nodes)
    requires SameButStatus(n, s) && SameButStatus(s, t)
    ensures SameButStatus(n, t)
  {
    forall v | 0 <= v < |n|
      ensures t[v] == n[v].(eaStatus := t[v].eaStatus)
    {
      assert t[v] == s[v].(eaStatus := t[v].eaStatus);
    }
  }

  lemma NothingRaised(n: Nodes, v: nat, st: EAStatus)
    requires Status(n, v) >= st
    ensures StatusSpread(n, n, v, st)
  {
  }
}
