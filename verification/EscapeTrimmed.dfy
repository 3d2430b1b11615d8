/** The graph after every globally escaping node has been replaced: a quotient that keeps the invariant. */
module EscapeTrimmed {
  import opened Chains
  import opened EscapeNodes
  import opened EscapeSteps
  import opened EscapeTrim

  /** The object that stands for `o` in the trimmed graph. */
  ghost function Quotient(n: Nodes, o: nat): nat {
    if Status(n, o) == GLOBAL_ESCAPE then GLOBAL_OBJ else o
  }

  /** The whole graph has been trimmed. */
  ghost function AllTrimmed(n: Nodes): Nodes {
    Trimmed(n, |n|)
  }

  lemma FatesAtEnd(n: Nodes, x: nat)
    requires GlobalsFixed(n) && WellKinded(n)
    ensures Gone(n, |n|, x) <==> Doomed(n, x)
    ensures IsObject(n, x) ==> Rep(n, |n|, x) == Quotient(n, x) && (Doomed(n, x) <==> Quotient(n, x) != x)
    ensures Status(n, x) != GLOBAL_ESCAPE ==> !Cut(n, |n|, x) && !Sealed(n, |n|, x) && Rep(n, |n|, x) == x
    ensures IsGlobal(x) ==> Rep(n, |n|, x) == x && !Cut(n, |n|, x) && !Sealed(n, |n|, x)
  {
    if IsGlobal(x) && IsObject(n, x) {
      assert Pts(n, x) == {GLOBAL_OBJ} && Pts(n, x) == {x};
    }
  }

  /** Everything a globally escaping node points to is represented by the global object. */
  lemma GlobalPointees(n: Nodes, x: nat)
    requires Inv(n) && Status(n, x) == GLOBAL_ESCAPE && Pts(n, x) != {}
    ensures (set o | o in Pts(n, x) :: Quotient(n, o)) == {GLOBAL_OBJ}
  {
    forall o | o in Pts(n, x)
      ensures Quotient(n, o) == GLOBAL_OBJ
    {
      StatusToPointee(n, x, o);
    }
    var o :| o in Pts(n, x);
    assert Quotient(n, o) in (set o | o in Pts(n, x) :: Quotient(n, o));
  }

  /** Trimming is a quotient: surviving nodes keep their status, and their points-to sets are the old ones with every
      globally escaping object replaced by the global object. */
  lemma TrimIsQuotient(n: Nodes, x: nat)
    requires Inv(n) && Live(AllTrimmed(n), x)
    ensures Status(AllTrimmed(n), x) == Status(n, x) && Kind(AllTrimmed(n), x) == Kind(n, x)
    ensures Pts(n, x) != {} ==> Pts(AllTrimmed(n), x) == set o | o in Pts(n, x) :: Quotient(n, o)
  {
    TrimmedReads(n, |n|, x);
    FatesAtEnd(n, x);
    if Frozen(n, |n|, x) {
      if Pts(n, x) != {} {
        GlobalPointees(n, x);
      }
    } else {
      forall o | o in Pts(n, x)
        ensures Rep(n, |n|, o) == Quotient(n, o)
      {
        FatesAtEnd(n, o);
      }
    }
  }

  /** How the trimmed graph reads. */
  ghost predicate TrimReads(n: Nodes, t: Nodes) {
    && |t| == |n|
    && (forall x: nat {:trigger Kind(t, x)} :: Kind(t, x) == if Doomed(n, x) then NullSlot else Kind(n, x))
    && (forall x: nat {:trigger Status(t, x)} :: Status(t, x) == if Doomed(n, x) then NO_ESCAPE else Status(n, x))
    && (forall x: nat {:trigger Fields(t, x)} :: Fields(t, x) == if Doomed(n, x) then map[] else Fields(n, x))
    && (forall x: nat, v: nat {:trigger v in Ins(t, x)} :: v in Ins(t, x) ==> v in Ins(n, x) && KeepsEdge(n, v, x))
    && (forall x: nat, v: nat {:trigger v in By(t, x)} ::
          v in By(t, x) <==> v in By(n, x) && !Doomed(n, x) && !Cut(n, |n|, v))
    && (forall x: nat, o: nat {:trigger o in Belongs(t, x)} ::
          o in Belongs(t, x) <==> o in Belongs(n, x) && !Doomed(n, x) && !Doomed(n, o))
  }

  /** The edge from `v` to `w` is still there after trimming. */
  ghost predicate KeepsEdge(n: Nodes, v: nat, w: nat) {
    !Doomed(n, w) && !Sealed(n, |n|, w) && !Cut(n, |n|, v)
  }

  lemma TrimmedGraphReads(n: Nodes)
    requires GlobalsFixed(n) && WellKinded(n)
    ensures TrimReads(n, AllTrimmed(n))
  {
    hide GlobalsFixed, WellKinded, Doomed, Cut, Sealed, Frozen;
    var t := AllTrimmed(n);
    forall x: nat
      ensures |t| == |n| && Kind(t, x) == if Doomed(n, x) then NullSlot else Kind(n, x)
      ensures Status(t, x) == if Doomed(n, x) then NO_ESCAPE else Status(n, x)
      ensures Fields(t, x) == if Doomed(n, x) then map[] else Fields(n, x)
    {
      TrimmedNodeReads(n, x);
    }
    forall x: nat, v: nat | v in Ins(t, x)
      ensures v in Ins(n, x) && KeepsEdge(n, v, x)
    {
      TrimmedPairReads(n, x, v);
    }
    forall x: nat, v: nat
      ensures v in By(t, x) <==> v in By(n, x) && !Doomed(n, x) && !Cut(n, |n|, v)
      ensures v in Belongs(t, x) <==> v in Belongs(n, x) && !Doomed(n, x) && !Doomed(n, v)
    {
      TrimmedPairReads(n, x, v);
    }
    TrimmedNodeReads(n, 0);
  }

  lemma TrimmedNodeReads(n: Nodes, x: nat)
    requires GlobalsFixed(n) && WellKinded(n)
    ensures var t := AllTrimmed(n);
      && |t| == |n| && Kind(t, x) == (if Doomed(n, x) then NullSlot else Kind(n, x))
      && Status(t, x) == (if Doomed(n, x) then NO_ESCAPE else Status(n, x))
      && Fields(t, x) == if Doomed(n, x) then map[] else Fields(n, x)
  {
    TrimmedReads(n, |n|, x);
    FatesAtEnd(n, x);
  }

  lemma TrimmedPairReads(n: Nodes, x: nat, v: nat)
    requires GlobalsFixed(n) && WellKinded(n)
    ensures var t := AllTrimmed(n);
      && (v in Ins(t, x) ==> v in Ins(n, x) && KeepsEdge(n, v, x))
      && (v in By(t, x) <==> v in By(n, x) && !Doomed(n, x) && !Cut(n, |n|, v))
      && (v in Belongs(t, x) <==> v in Belongs(n, x) && !Doomed(n, x) && !Doomed(n, v))
  {
    TrimmedReads(n, |n|, x);
    FatesAtEnd(n, x);
    FatesAtEnd(n, v);
    hide Doomed, Cut, Sealed, Frozen;
  }

  /** An `out` edge of the trimmed graph is an old edge to a node that stayed, or leads to a global node. */
  lemma TrimmedEdge(n: Nodes, v: nat, w: nat)
    requires Inv(n) && w in Outs(AllTrimmed(n), v)
    ensures !Doomed(n, v)
    ensures (w in Outs(n, v) && KeepsEdge(n, v, w)) || (w in Outs(n, v) && IsGlobal(w)) || GlobalEdge(n, v, w)
  {
    TrimmedReads(n, |n|, v);
    FatesAtEnd(n, v);
    if !Frozen(n, |n|, v) {
      var u :| u in Outs(n, v) && !Sealed(n, |n|, u) && w == Rep(n, |n|, u);
      FatesAtEnd(n, u);
    }
  }

  /** A new edge: `v` leads, or led, to something that escapes globally. */
  ghost predicate GlobalEdge(n: Nodes, v: nat, w: nat) {
    IsGlobal(w) && !IsGlobal(v) && !IsObject(n, v)
    && (Frozen(n, |n|, v) || exists u :: u in Outs(n, v) && !IsGlobal(u) && Status(n, u) == GLOBAL_ESCAPE)
  }

  /** An old edge between nodes whose edges stay is still there. */
  lemma OldEdgeStays(n: Nodes, v: nat, w: nat)
    requires w in Outs(n, v) && KeepsEdge(n, v, w)
    ensures w in Outs(AllTrimmed(n), v)
  {
    TrimmedReads(n, |n|, v);
    assert v < |n|;
    assert Rep(n, |n|, w) == w;
  }

  lemma TrimmedIn(n: Nodes, v: nat, w: nat)
    requires v in Ins(n, w) && KeepsEdge(n, v, w)
    ensures v in Ins(AllTrimmed(n), w)
  {
    TrimmedReads(n, |n|, w);
    assert w < |n|;
  }

  lemma TrimmedPoint(n: Nodes, v: nat, o: nat)
    requires Inv(n) && o in Pts(AllTrimmed(n), v)
    ensures !Doomed(n, v) && !Doomed(n, o) && IsObject(n, o)
    ensures o == GLOBAL_OBJ || (o in Pts(n, v) && Status(n, o) != GLOBAL_ESCAPE && !Cut(n, |n|, v))
  {
    TrimmedReads(n, |n|, v);
    FatesAtEnd(n, v);
    FatesAtEnd(n, GLOBAL_OBJ);
    if !Frozen(n, |n|, v) {
      var u :| u in Pts(n, v) && o == Rep(n, |n|, u);
      FatesAtEnd(n, u);
    }
  }

  lemma OldPointStays(n: Nodes, v: nat, o: nat)
    requires Inv(n) && o in Pts(n, v) && !Doomed(n, v)
    ensures Status(n, o) == GLOBAL_ESCAPE ==> GLOBAL_OBJ in Pts(AllTrimmed(n), v)
    ensures Status(n, o) != GLOBAL_ESCAPE ==> o in Pts(AllTrimmed(n), v) && !Cut(n, |n|, v)
  {
    TrimmedReads(n, |n|, v);
    FatesAtEnd(n, v);
    FatesAtEnd(n, o);
    assert v < |n|;
    StatusToPointee(n, v, o);
    if !Frozen(n, |n|, v) {
      assert Rep(n, |n|, o) in TrimmedPts(n, |n|, v);
    }
  }

  lemma TrimmedOutOk(n: Nodes, v: nat, w: nat)
    requires Inv(n) && TrimReads(n, AllTrimmed(n)) && w in Outs(AllTrimmed(n), v)
    ensures Live(AllTrimmed(n), w) && !IsObject(AllTrimmed(n), v) && (!IsGlobal(w) ==> v in Ins(AllTrimmed(n), w))
  {
    TrimmedEdge(n, v, w);
    if !IsGlobal(w) {
      assert v in Ins(n, w);
      TrimmedIn(n, v, w);
    } else {
      GlobalsAreLive(n, w);
    }
    NoObjectEdge(n, v, w);
    hide Inv, AllTrimmed, Sealed, Cut;
  }

  lemma NoObjectEdge(n: Nodes, v: nat, w: nat)
    requires Inv(n)
    ensures w in Outs(n, v) ==> !IsObject(n, v) && Live(n, w)
  {
  }

  lemma GlobalsAreLive(n: Nodes, w: nat)
    requires Inv(n) && IsGlobal(w)
    ensures Live(n, w) && !Doomed(n, w)
  {
  }

  lemma TrimmedInOk(n: Nodes, v: nat, w: nat)
    requires Inv(n) && TrimReads(n, AllTrimmed(n)) && v in Ins(AllTrimmed(n), w)
    ensures Live(AllTrimmed(n), v) && w in Outs(AllTrimmed(n), v)
  {
    assert v in Ins(n, w) && Live(n, v);
    assert KeepsEdge(n, v, w) && w in Outs(n, v);
    OldEdgeStays(n, v, w);
    TrimmedEdge(n, v, w);
  }

  lemma TrimmedObjectOk(n: Nodes, v: nat)
    requires Inv(n) && TrimReads(n, AllTrimmed(n)) && IsObject(AllTrimmed(n), v)
    ensures Outs(AllTrimmed(n), v) == {} && Pts(AllTrimmed(n), v) == {v}
  {
    assert IsObject(n, v) && !Doomed(n, v) && Pts(n, v) == {v} && Outs(n, v) == {};
    TrimmedReads(n, |n|, v);
    FatesAtEnd(n, v);
    assert Rep(n, |n|, v) == v;
  }

  lemma TrimKeepsMirror(n: Nodes)
    requires Inv(n) && TrimReads(n, AllTrimmed(n))
    ensures EdgesMirror(AllTrimmed(n))
  {
    var t := AllTrimmed(n);
    hide AllTrimmed, Inv, TrimReads;
    forall v: nat, w: nat | w in Outs(t, v) && !IsGlobal(w)
      ensures v in Ins(t, w)
    {
      TrimmedOutOk(n, v, w);
    }
    forall v: nat, w: nat | v in Ins(t, w)
      ensures w in Outs(t, v)
    {
      TrimmedInOk(n, v, w);
    }
  }

  lemma TrimKeepsLiveEdges(n: Nodes)
    requires Inv(n) && TrimReads(n, AllTrimmed(n))
    ensures forall v: nat, w: nat {:trigger w in Outs(AllTrimmed(n), v)} :: w in Outs(AllTrimmed(n), v) ==>
        Live(AllTrimmed(n), w)
    ensures forall v: nat, w: nat {:trigger w in Ins(AllTrimmed(n), v)} :: w in Ins(AllTrimmed(n), v) ==>
        Live(AllTrimmed(n), w)
  {
    var t := AllTrimmed(n);
    hide AllTrimmed, Inv, TrimReads, Live;
    forall v: nat, w: nat | w in Outs(t, v)
      ensures Live(t, w)
    {
      TrimmedOutOk(n, v, w);
    }
    forall v: nat, w: nat | v in Ins(t, w)
      ensures Live(t, v)
    {
      TrimmedInOk(n, v, w);
    }
  }

  lemma TrimKeepsKinds(n: Nodes)
    requires Inv(n) && TrimReads(n, AllTrimmed(n))
    ensures WellKinded(AllTrimmed(n))
  {
    var t := AllTrimmed(n);
    assert |t| == |n| > GLOBAL_FIELD;
    TrimKeepsLiveEdges(n);
    hide AllTrimmed, Inv, TrimReads, IsObject, Live;
    forall v: nat, o: nat | o in Pts(t, v)
      ensures IsObject(t, o)
    {
      TrimmedPointOk(n, v, o);
    }
    forall v: nat | IsObject(t, v)
      ensures Outs(t, v) == {} && Pts(t, v) == {v}
    {
      TrimmedObjectOk(n, v);
    }
  }

  lemma TrimmedPointOk(n: Nodes, v: nat, o: nat)
    requires Inv(n) && TrimReads(n, AllTrimmed(n)) && o in Pts(AllTrimmed(n), v)
    ensures IsObject(AllTrimmed(n), o)
  {
    TrimmedPoint(n, v, o);
    hide Inv, AllTrimmed, Doomed, Cut;
  }

  lemma TrimKeepsOwned(n: Nodes)
    requires Inv(n) && TrimReads(n, AllTrimmed(n))
    ensures Owned(AllTrimmed(n))
  {
    var t := AllTrimmed(n);
    hide AllTrimmed;
    forall o: nat, f | f in Fields(t, o)
      ensures IsField(t, Fields(t, o)[f]) && Belongs(t, Fields(t, o)[f]) == {o} && o < Fields(t, o)[f]
    {
      assert f in Fields(n, o) && !Doomed(n, o) && Belongs(n, Fields(n, o)[f]) == {o};
      KeptOwnerKeepsField(n, o, f);
    }
    forall x: nat, o: nat | o in Belongs(t, x)
      ensures IsObject(t, o) && Lists(t, o, x)
    {
      assert o in Belongs(n, x) && !Doomed(n, o) && Lists(n, o, x) && Fields(t, o) == Fields(n, o);
    }
  }

  lemma KeptOwnerKeepsField(n: Nodes, o: nat, f: int)
    requires Inv(n) && f in Fields(n, o) && !Doomed(n, o)
    ensures !Doomed(n, Fields(n, o)[f])
  {
    var x := Fields(n, o)[f];
    assert Belongs(n, x) == {o} && IsObject(n, o);
    if IsGlobal(o) {
      GlobalOwner(n, o, f);
    } else {
      assert Status(n, o) != GLOBAL_ESCAPE;
    }
  }

  lemma TrimKeepsPointsMirror(n: Nodes)
    requires Inv(n) && TrimReads(n, AllTrimmed(n))
    ensures PointsMirror(AllTrimmed(n))
  {
    var t := AllTrimmed(n);
    forall v: nat, o: nat | v in By(t, o)
      ensures o in Pts(t, v)
    {
      ByStays(n, v, o);
    }
    hide AllTrimmed;
    forall v: nat, o: nat | o in Pts(t, v) && o != GLOBAL_OBJ
      ensures v in By(t, o)
    {
      TrimmedPoint(n, v, o);
    }
  }

  lemma ByStays(n: Nodes, v: nat, o: nat)
    requires Inv(n) && v in By(n, o) && !Doomed(n, o) && !Cut(n, |n|, v)
    ensures o in Pts(AllTrimmed(n), v)
  {
    assert o in Pts(n, v);
    TrimmedReads(n, |n|, v);
    FatesAtEnd(n, o);
    assert v < |n| && Rep(n, |n|, o) == o;
  }

  /** A node that led to something globally escaping points to the global object. */
  lemma GlobalEdgePoints(n: Nodes, v: nat, w: nat)
    requires Inv(n) && GlobalEdge(n, v, w) && !Doomed(n, v)
    ensures GLOBAL_OBJ in Pts(AllTrimmed(n), v)
  {
    if Frozen(n, |n|, v) {
      TrimmedReads(n, |n|, v);
      assert v < |n|;
    } else {
      var u :| u in Outs(n, v) && !IsGlobal(u) && Status(n, u) == GLOBAL_ESCAPE;
      assert v in Ins(n, u) && Pts(n, u) != {};
      var o :| o in Pts(n, u);
      assert Pts(n, u) <= Pts(n, v);
      StatusToPointee(n, u, o);
      OldPointStays(n, v, o);
    }
  }

  lemma TrimmedClosed(n: Nodes, v: nat, w: nat, o: nat)
    requires Inv(n) && w in Outs(AllTrimmed(n), v) && o in Pts(AllTrimmed(n), w)
    ensures o in Pts(AllTrimmed(n), v)
  {
    TrimmedEdge(n, v, w);
    TrimmedPoint(n, w, o);
    if GlobalEdge(n, v, w) {
      assert Pts(n, w) == {GLOBAL_OBJ};
      GlobalEdgePoints(n, v, w);
    } else {
      assert w in Outs(n, v) && Pts(n, w) <= Pts(n, v);
      if o != GLOBAL_OBJ {
        OldPointStays(n, v, o);
      } else if IsGlobal(w) {
        assert GLOBAL_OBJ in Pts(n, w);
        OldPointStays(n, v, GLOBAL_OBJ);
      } else {
        assert v in Ins(n, w) && Pts(n, w) != {};
        GlobalCameFrom(n, w);
        var u :| u in Pts(n, w) && Status(n, u) == GLOBAL_ESCAPE;
        OldPointStays(n, v, u);
      }
    }
  }

  /** The global object stands for a globally escaping object. */
  lemma GlobalCameFrom(n: Nodes, w: nat)
    requires Inv(n) && GLOBAL_OBJ in Pts(AllTrimmed(n), w) && Pts(n, w) != {}
    ensures exists u :: u in Pts(n, w) && Status(n, u) == GLOBAL_ESCAPE
  {
    TrimmedReads(n, |n|, w);
    FatesAtEnd(n, w);
    if Frozen(n, |n|, w) {
      var u :| u in Pts(n, w);
      StatusToPointee(n, w, u);
    } else {
      var u :| u in Pts(n, w) && GLOBAL_OBJ == Rep(n, |n|, u);
      FatesAtEnd(n, u);
      assert Status(n, GLOBAL_OBJ) == GLOBAL_ESCAPE;
    }
  }

  /** Chains between nodes that do not escape globally survive. */
  lemma {:induction false} ChainStays(n: Nodes, p: seq<nat>, v: nat, o: nat)
    requires Inv(n) && Chain(OutEdges(n), p, v, o) && Status(n, o) != GLOBAL_ESCAPE
    ensures Chain(OutEdges(AllTrimmed(n)), p, v, o)
  {
    forall i | 0 <= i < |p| - 1
      ensures Step(OutEdges(AllTrimmed(n)), p[i], p[i + 1])
    {
      assert Step(OutEdges(n), p[i], p[i + 1]) && p[i + 1] in Outs(n, p[i]);
      assert Chain(OutEdges(n), p[i..], p[i], o) && Chain(OutEdges(n), p[i + 1..], p[i + 1], o);
      StatusAlongChain(n, p[i..], p[i], o);
      StatusAlongChain(n, p[i + 1..], p[i + 1], o);
      FatesAtEnd(n, p[i]);
      FatesAtEnd(n, p[i + 1]);
      OldEdgeStays(n, p[i], p[i + 1]);
      TrimmedReads(n, |n|, p[i]);
    }
  }

  lemma TrimKeepsReached(n: Nodes)
    requires Inv(n)
    ensures PointsReached(AllTrimmed(n))
  {
    var t := AllTrimmed(n);
    forall v: nat, o: nat | o in Pts(t, v) && o != GLOBAL_OBJ
      ensures Reaches(OutEdges(t), v, o)
    {
      TrimmedPoint(n, v, o);
      var p :| Chain(OutEdges(n), p, v, o);
      ChainStays(n, p, v, o);
    }
  }

  lemma TrimKeepsClosed(n: Nodes)
    requires Inv(n)
    ensures PointsClosed(AllTrimmed(n))
  {
    var t := AllTrimmed(n);
    hide AllTrimmed, Inv;
    forall v: nat, w: nat | w in Outs(t, v)
      ensures Pts(t, w) <= Pts(t, v)
    {
      forall o | o in Pts(t, w)
        ensures o in Pts(t, v)
      {
        TrimmedClosed(n, v, w, o);
      }
    }
  }

  lemma TrimKeepsFlows(n: Nodes)
    requires Inv(n) && TrimReads(n, AllTrimmed(n))
    ensures StatusFlows(AllTrimmed(n))
  {
    var t := AllTrimmed(n);
    forall x: nat, y: nat | y in FlowsTo(t, x)
      ensures Status(t, x) <= Status(t, y)
    {
      if IsObject(t, x) {
        var f :| f in Fields(t, x) && Fields(t, x)[f] == y;
        assert f in Fields(n, x) && y in FlowsTo(n, x);
        KeptOwnerKeepsField(n, x, f);
      } else {
        TrimmedFlow(n, x, y);
      }
    }
  }

  lemma TrimmedFlow(n: Nodes, x: nat, y: nat)
    requires Inv(n) && TrimReads(n, AllTrimmed(n)) && y in Outs(AllTrimmed(n), x)
    ensures Status(AllTrimmed(n), x) <= Status(AllTrimmed(n), y)
  {
    TrimmedEdge(n, x, y);
    if IsGlobal(y) {
      assert Status(n, y) == GLOBAL_ESCAPE && !Doomed(n, y);
    } else {
      assert y in FlowsTo(n, x);
    }
  }

  lemma TrimKeepsGlobals(n: Nodes)
    requires Inv(n) && TrimReads(n, AllTrimmed(n))
    ensures GlobalsFixed(AllTrimmed(n)) && EmptyUnused(AllTrimmed(n))
  {
    var t := AllTrimmed(n);
    forall v: nat | IsGlobal(v)
      ensures Status(t, v) == GLOBAL_ESCAPE && Pts(t, v) == {GLOBAL_OBJ}
    {
      GlobalsAreLive(n, v);
      TrimmedReads(n, |n|, v);
      FatesAtEnd(n, v);
      FatesAtEnd(n, GLOBAL_OBJ);
      assert Pts(n, v) == {GLOBAL_OBJ};
    }
    forall v: nat, w: nat | IsGlobal(v) && w in Outs(t, v)
      ensures IsGlobal(w)
    {
      TrimmedEdge(n, v, w);
    }
    forall v: nat | Pts(t, v) == {}
      ensures Ins(t, v) == {}
    {
      TrimmedEmpty(n, v);
    }
    GlobalsAreLive(n, GLOBAL_OBJ);
    GlobalsAreLive(n, GLOBAL_REF);
    GlobalsAreLive(n, GLOBAL_FIELD);
  }

  lemma TrimmedEmpty(n: Nodes, v: nat)
    requires Inv(n) && Pts(AllTrimmed(n), v) == {}
    ensures Ins(AllTrimmed(n), v) == {}
  {
    TrimmedReads(n, |n|, v);
    if v < |n| && !Gone(n, |n|, v) {
      assert !Frozen(n, |n|, v);
      assert TrimmedPts(n, |n|, v) == Image(n, |n|, Pts(n, v));
      ImageOfSome(n, |n|, Pts(n, v));
      assert Ins(n, v) == {};
    }
  }

  lemma ImageOfSome(n: Nodes, k: nat, a: set<nat>)
    ensures a != {} ==> Image(n, k, a) != {}
  {
    if o :| o in a {
      assert Rep(n, k, o) in Image(n, k, a);
    }
  }

  /** Trimming keeps the invariant: in particular nothing left refers to a deleted node. */
  lemma TrimKeepsInv(n: Nodes)
    requires Inv(n)
    ensures Inv(AllTrimmed(n))
  {
    TrimmedGraphReads(n);
    hide AllTrimmed, TrimReads;
    hide WellKinded, Owned, EdgesMirror, PointsMirror, PointsClosed, PointsReached, StatusFlows, GlobalsFixed,
        EmptyUnused;
    TrimKeepsKinds(n);
    TrimKeepsMirror(n);
    TrimKeepsOwned(n);
    TrimKeepsPointsMirror(n);
    TrimKeepsReached(n);
    TrimKeepsClosed(n);
    TrimKeepsFlows(n);
    TrimKeepsGlobals(n);
  }

  /** Objects that escape globally are replaced by the global object wherever they are pointed to. */
  lemma EscapedPointees(n: Nodes, v: nat)
    requires Inv(n) && forall o :: o in Pts(n, v) ==> Status(n, o) == GLOBAL_ESCAPE
    ensures Pts(AllTrimmed(n), v) <= {GLOBAL_OBJ}
  {
    forall o | o in Pts(AllTrimmed(n), v)
      ensures o == GLOBAL_OBJ
    {
      TrimmedPoint(n, v, o);
    }
  }

  /** The node a call's result leads to stays a reference that points somewhere. */
  lemma TrimKeepsResult(n: Nodes, a: nat, r: nat)
    requires Inv(n) && Kind(n, a) == ActualNode && Pts(n, a) != {} && Outs(n, a) == {r} && Kind(n, r) == ReferenceNode
    ensures var t := AllTrimmed(n); Kind(t, a) == ActualNode && Pts(t, a) != {} && Outs(t, a) == {Rep(n, |n|, r)}
    ensures Kind(AllTrimmed(n), Rep(n, |n|, r)) == ReferenceNode
  {
    hide *;
    TrimKeepsActual(n, a);
    TrimKeepsPoint(n, a);
    TrimKeepsReference(n, r);
    TrimKeepsOut(n, a, r);
  }

  lemma TrimKeepsPoint(n: Nodes, a: nat)
    requires Inv(n) && Kind(n, a) == ActualNode && Pts(n, a) != {}
    ensures Pts(AllTrimmed(n), a) != {}
  {
    TrimKeepsActual(n, a);
    TrimIsQuotient(n, a);
    var o :| o in Pts(n, a);
    assert Quotient(n, o) in Pts(AllTrimmed(n), a);
  }

  lemma TrimKeepsOut(n: Nodes, a: nat, r: nat)
    requires Kind(n, a) == ActualNode && Outs(n, a) == {r} && Kind(n, r) == ReferenceNode
    ensures Outs(AllTrimmed(n), a) == {Rep(n, |n|, r)}
  {
    TrimmedReads(n, |n|, a);
    assert r in Outs(n, a) && !Sealed(n, |n|, r);
    assert Rep(n, |n|, r) in TrimmedOuts(n, |n|, a);
  }

  lemma TrimKeepsReference(n: Nodes, r: nat)
    requires Inv(n) && Kind(n, r) == ReferenceNode
    ensures Kind(AllTrimmed(n), Rep(n, |n|, r)) == ReferenceNode
  {
    FatesAtEnd(n, r);
    FatesAtEnd(n, GLOBAL_REF);
    TrimmedReads(n, |n|, Rep(n, |n|, r));
    hide Inv, Trimmed;
  }

  lemma TrimKeepsActual(n: Nodes, a: nat)
    requires Kind(n, a) == ActualNode
    ensures Kind(AllTrimmed(n), a) == ActualNode
  {
    TrimmedReads(n, |n|, a);
  }
}
