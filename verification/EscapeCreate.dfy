/** Appending a node keeps the invariant. */
module EscapeCreate {
  import opened Wrappers
  import opened Chains
  import opened EscapeNodes
  import opened EscapeSteps

  ghost function ObjectCreated(n: Nodes, st: EAStatus): Nodes {
    n + [Node(ObjectNode, st, {}, {}, {|n|}, {|n|}, map[], {})]
  }

  ghost function LocalCreated(n: Nodes, kind: NodeKind, st: EAStatus): Nodes {
    n + [Node(kind, st, {}, {}, {}, {}, map[], {})]
  }

  /** A new field node, registered with the object it belongs to. */
  ghost function FieldCreated(n: Nodes, st: EAStatus, fid: int, owner: nat): Nodes
    requires owner < |n|
  {
    n[owner := n[owner].(fieldNodes := n[owner].fieldNodes[fid := |n|])]
    + [Node(FieldNode, st, {}, {}, {}, {}, map[], {owner})]
  }

  /** `n'` is `n` with one more node at the end; `owner` gets it as field `fid` when it is a field node. */
  ghost predicate OneMore(n: Nodes, n': Nodes, kind: NodeKind, st: EAStatus, fid: int, owner: nat) {
    && kind != NullSlot && |n'| == |n| + 1 && Kind(n', |n|) == kind && Status(n', |n|) == st
    && (forall x: nat {:trigger Kind(n', x)} :: x != |n| ==> Kind(n', x) == Kind(n, x))
    && (forall x: nat {:trigger Status(n', x)} :: x != |n| ==> Status(n', x) == Status(n, x))
    && (forall x: nat {:trigger Outs(n', x)} :: Outs(n', x) == Outs(n, x))
    && (forall x: nat {:trigger Ins(n', x)} :: Ins(n', x) == Ins(n, x))
    && (forall x: nat {:trigger Pts(n', x)} ::
          Pts(n', x) == if x == |n| && kind == ObjectNode then {x} else Pts(n, x))
    && (forall x: nat {:trigger By(n', x)} ::
          By(n', x) == if x == |n| && kind == ObjectNode then {x} else By(n, x))
    && (forall x: nat {:trigger Fields(n', x)} ::
          Fields(n', x) == if x == owner && kind == FieldNode then Fields(n, x)[fid := |n|] else Fields(n, x))
    && (forall x: nat {:trigger Belongs(n', x)} ::
          Belongs(n', x) == if x == |n| && kind == FieldNode then {owner} else Belongs(n, x))
    && (kind == FieldNode ==> IsObject(n, owner) && Status(n, owner) <= st && FieldOf(n, owner, fid) == None)
  }

  lemma ObjectIsOneMore(n: Nodes, st: EAStatus)
    ensures OneMore(n, ObjectCreated(n, st), ObjectNode, st, 0, 0)
  {
  }

  lemma LocalIsOneMore(n: Nodes, kind: NodeKind, st: EAStatus)
    requires kind == ReferenceNode || kind == ActualNode
    ensures OneMore(n, LocalCreated(n, kind, st), kind, st, 0, 0)
  {
  }

  lemma FieldIsOneMore(n: Nodes, st: EAStatus, fid: int, owner: nat)
    requires IsObject(n, owner) && Status(n, owner) <= st && FieldOf(n, owner, fid) == None
    ensures OneMore(n, FieldCreated(n, st, fid, owner), FieldNode, st, fid, owner)
  {
  }

  lemma CreateKeepsKinds(n: Nodes, n': Nodes, kind: NodeKind, st: EAStatus, fid: int, owner: nat)
    requires WellKinded(n) && OneMore(n, n', kind, st, fid, owner)
    ensures WellKinded(n')
  {
  }

  lemma CreateKeepsOwned(n: Nodes, n': Nodes, kind: NodeKind, st: EAStatus, fid: int, owner: nat)
    requires Owned(n) && OneMore(n, n', kind, st, fid, owner)
    ensures Owned(n')
  {
    forall x: nat, o: nat | o in Belongs(n', x)
      ensures IsObject(n', o) && Lists(n', o, x)
    {
      if x == |n| && kind == FieldNode {
        assert fid in Fields(n', o) && Fields(n', o)[fid] == x;
      } else {
        assert o in Belongs(n, x) && Lists(n, o, x);
        var f :| f in Fields(n, o) && Fields(n, o)[f] == x;
        assert f in Fields(n', o) && Fields(n', o)[f] == x;
      }
    }
  }

  lemma CreateKeepsMirrors(n: Nodes, n': Nodes, kind: NodeKind, st: EAStatus, fid: int, owner: nat)
    requires EdgesMirror(n) && PointsMirror(n) && PointsClosed(n) && WellKinded(n) && EmptyUnused(n)
    requires OneMore(n, n', kind, st, fid, owner)
    ensures EdgesMirror(n') && PointsMirror(n') && PointsClosed(n') && EmptyUnused(n')
  {
    forall x: nat, o: nat
      ensures x in By(n', o) ==> o in Pts(n', x)
      ensures o in Pts(n', x) && o != GLOBAL_OBJ ==> x in By(n', o)
    {
      assert x in By(n, o) ==> o in Pts(n, x) && x < |n|;
      assert o in Pts(n, x) ==> IsObject(n, o) && o < |n|;
    }
    forall v: nat, w: nat | w in Outs(n', v)
      ensures Pts(n', w) <= Pts(n', v)
    {
      assert w in Outs(n, v) && Live(n, w) && v < |n|;
    }
  }

  lemma CreateKeepsSteps(n: Nodes, n': Nodes, a: nat, b: nat)
    requires |n'| >= |n| && forall x: nat {:trigger Outs(n', x)} :: Outs(n', x) == Outs(n, x)
    ensures Step(OutEdges(n'), a, b) <==> Step(OutEdges(n), a, b)
  {
    assert Outs(n', a) == Outs(n, a);
  }

  lemma CreateKeepsReach(n: Nodes, n': Nodes, v: nat, w: nat)
    requires |n'| >= |n| && forall x: nat {:trigger Outs(n', x)} :: Outs(n', x) == Outs(n, x)
    ensures Reaches(OutEdges(n'), v, w) <==> Reaches(OutEdges(n), v, w)
  {
    forall a: nat, b: nat
      ensures Step(OutEdges(n'), a, b) <==> Step(OutEdges(n), a, b)
    {
      CreateKeepsSteps(n, n', a, b);
    }
    hide Reaches;
    if Reaches(OutEdges(n'), v, w) {
      ReachesMore(OutEdges(n'), OutEdges(n), v, w);
    }
    if Reaches(OutEdges(n), v, w) {
      ReachesMore(OutEdges(n), OutEdges(n'), v, w);
    }
  }

  lemma CreateKeepsReached(n: Nodes, n': Nodes, kind: NodeKind, st: EAStatus, fid: int, owner: nat)
    requires PointsReached(n) && OneMore(n, n', kind, st, fid, owner)
    ensures PointsReached(n')
  {
    hide Reaches;
    forall v: nat, o: nat | o in Pts(n', v) && o != GLOBAL_OBJ
      ensures Reaches(OutEdges(n'), v, o)
    {
      if o in Pts(n, v) {
        CreateKeepsReach(n, n', v, o);
      } else {
        ReachesSelf(OutEdges(n'), v);
      }
    }
  }

  lemma CreateKeepsFlows(n: Nodes, n': Nodes, kind: NodeKind, st: EAStatus, fid: int, owner: nat)
    requires StatusFlows(n) && WellKinded(n) && Owned(n) && OneMore(n, n', kind, st, fid, owner)
    ensures StatusFlows(n')
  {
    forall x: nat, y: nat | y in FlowsTo(n', x)
      ensures Status(n', x) <= Status(n', y)
    {
      if x == owner && y == |n| && kind == FieldNode {
      } else {
        assert y in FlowsTo(n, x) by {
          if IsObject(n', x) {
            var f :| f in Fields(n', x) && Fields(n', x)[f] == y;
            assert f in Fields(n, x);
          }
        }
        assert Status(n, x) <= Status(n, y);
        assert x < |n|;
        assert y < |n| by {
          if IsObject(n, x) {
            var f :| f in Fields(n, x) && Fields(n, x)[f] == y;
          }
        }
      }
    }
  }

  lemma CreateKeepsGlobals(n: Nodes, n': Nodes, kind: NodeKind, st: EAStatus, fid: int, owner: nat)
    requires GlobalsFixed(n) && OneMore(n, n', kind, st, fid, owner)
    ensures GlobalsFixed(n')
  {
  }

  lemma CreateKeepsInv(n: Nodes, n': Nodes, kind: NodeKind, st: EAStatus, fid: int, owner: nat)
    requires Inv(n) && OneMore(n, n', kind, st, fid, owner)
    ensures Inv(n')
  {
    hide OneMore;
    hide WellKinded, Owned, EdgesMirror, PointsMirror, PointsClosed, PointsReached, StatusFlows, GlobalsFixed,
        EmptyUnused;
    CreateKeepsKinds(n, n', kind, st, fid, owner);
    CreateKeepsOwned(n, n', kind, st, fid, owner);
    CreateKeepsMirrors(n, n', kind, st, fid, owner);
    CreateKeepsReached(n, n', kind, st, fid, owner);
    CreateKeepsFlows(n, n', kind, st, fid, owner);
    CreateKeepsGlobals(n, n', kind, st, fid, owner);
  }

  lemma CreateKeepsExact(n: Nodes, n': Nodes, kind: NodeKind, st: EAStatus, fid: int, owner: nat)
    requires Inv(n) && Exact(n) && OneMore(n, n', kind, st, fid, owner)
    ensures Exact(n')
  {
    CreateKeepsInv(n, n', kind, st, fid, owner);
    CreateKeepsExactMirrors(n, n', kind, st, fid, owner);
    assert WellKinded(n') && PointsClosed(n');
    hide Inv, WellKinded, PointsClosed, ExactMirrors, Reaches;
    forall v: nat, o: nat | o in Pts(n', v)
      ensures Reaches(OutEdges(n'), v, o)
    {
      if o in Pts(n, v) {
        assert Reaches(OutEdges(n), v, o);
        CreateKeepsReach(n, n', v, o);
      } else {
        ReachesSelf(OutEdges(n'), v);
      }
    }
    ExactWhenReached(n');
  }

  lemma CreateKeepsExactMirrors(n: Nodes, n': Nodes, kind: NodeKind, st: EAStatus, fid: int, owner: nat)
    requires WellKinded(n) && ExactMirrors(n) && OneMore(n, n', kind, st, fid, owner)
    ensures ExactMirrors(n')
  {
    forall x: nat, o: nat
      ensures x in By(n', o) <==> o in Pts(n', x)
    {
      assert o in Pts(n, x) ==> IsObject(n, o) && o < |n|;
    }
  }
}
