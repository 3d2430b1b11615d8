/** Embedding a callee's summary graph into the caller's graph: what has been mapped, and what is still to do. */
module EscapeMerge {
  import opened Wrappers
  import opened Chains
  import opened EscapeNodes
  import opened EscapeSpread
  import opened EscapeSteps
  import opened EscapeCreate
  import opened EscapeAddOut
  import opened FiniteSets
  import opened EscapeTrimmed

  /** The caller objects that stand for each callee object. */
  type ObjectMap = map<nat, set<nat>>

  function MapsTo(m: ObjectMap, q: nat): set<nat> {
    if q in m then m[q] else {}
  }

  // ---------------------------------------------------------------------------------------------
  // What the caller's nodes keep while callee objects are being mapped.
  // ---------------------------------------------------------------------------------------------

  ghost predicate KeepsNodes(n: Nodes, n': Nodes) {
    && |n| <= |n'|
    && (forall x: nat {:trigger Kind(n', x)} :: x < |n| ==> Kind(n', x) == Kind(n, x))
    && (forall x: nat {:trigger Status(n', x)} :: Status(n, x) <= Status(n', x))
    && (forall x: nat {:trigger Ins(n', x)} :: !IsObject(n', x) ==> Ins(n', x) == Ins(n, x))
    && (forall x: nat, f {:trigger f in Fields(n', x)} {:trigger f in Fields(n, x)} :: f in Fields(n, x) ==>
          f in Fields(n', x) && Fields(n', x)[f] == Fields(n, x)[f])
  }

  /** A node that points somewhere keeps exactly its points-to set and its `out` edges. */
  ghost predicate KeepsPoints(n: Nodes, n': Nodes) {
    && (forall x: nat {:trigger Pts(n', x)} :: Pts(n, x) != {} ==> Pts(n', x) == Pts(n, x))
    && (forall x: nat {:trigger Outs(n', x)} :: Pts(n, x) != {} ==> Outs(n', x) == Outs(n, x))
  }

  lemma KeepsNodesTrans(a: Nodes, b: Nodes, c: Nodes)
    requires KeepsNodes(a, b) && KeepsNodes(b, c)
    ensures KeepsNodes(a, c)
  {
    forall x: nat
      ensures Status(a, x) <= Status(c, x)
      ensures !IsObject(c, x) ==> Ins(c, x) == Ins(a, x)
    {
      assert Status(a, x) <= Status(b, x) <= Status(c, x);
      assert !IsObject(c, x) ==> !IsObject(b, x) || x >= |b|;
    }
    forall x: nat, f | f in Fields(a, x)
      ensures f in Fields(c, x) && Fields(c, x)[f] == Fields(a, x)[f]
    {
      assert f in Fields(b, x);
    }
  }

  lemma KeepsTrans(a: Nodes, b: Nodes, c: Nodes)
    requires KeepsNodes(a, b) && KeepsNodes(b, c) && KeepsPoints(a, b) && KeepsPoints(b, c)
    ensures KeepsNodes(a, c) && KeepsPoints(a, c)
  {
    KeepsNodesTrans(a, b, c);
    forall x: nat | Pts(a, x) != {}
      ensures Pts(c, x) == Pts(a, x) && Outs(c, x) == Outs(a, x)
    {
      assert Pts(b, x) == Pts(a, x) && Outs(b, x) == Outs(a, x);
    }
  }

  lemma FieldOfStays(n: Nodes, n': Nodes, o: nat, f: int)
    requires KeepsNodes(n, n') && FieldOf(n, o, f).Some?
    ensures FieldOf(n', o, f).Some?
  {
    assert ANY_FIELD in Fields(n, o) ==> ANY_FIELD in Fields(n', o);
    assert f in Fields(n, o) ==> f in Fields(n', o);
  }

  lemma FieldOfIsField(n: Nodes, o: nat, f: int)
    requires Owned(n) && FieldOf(n, o, f).Some?
    ensures IsField(n, FieldOf(n, o, f).value)
  {
  }

  // ---------------------------------------------------------------------------------------------
  // The map and what has been completed for its pairs.
  // ---------------------------------------------------------------------------------------------

  ghost predicate MapOk(n: Nodes, k: Nodes, m: ObjectMap) {
    forall q: nat, o: nat {:trigger o in MapsTo(m, q)} :: o in MapsTo(m, q) ==> IsObject(n, o) && IsObject(k, q)
  }

  ghost predicate MapGrows(m: ObjectMap, m': ObjectMap) {
    forall q: nat {:trigger MapsTo(m', q)} {:trigger MapsTo(m, q)} :: MapsTo(m, q) <= MapsTo(m', q)
  }

  /** The caller object `o` has field `f`, and whatever the callee's field points to is mapped. */
  ghost predicate FieldDone(n: Nodes, k: Nodes, m: ObjectMap, o: nat, q: nat, f: int) {
    && FieldOf(n, o, f).Some?
    && (f in Fields(k, q) ==> forall t: nat {:trigger MapsTo(m, t)} :: t in Pts(k, Fields(k, q)[f]) ==>
        MapsTo(m, t) != {})
  }

  /** Everything the embedding owes the caller object `o` for standing for the callee object `q`. */
  ghost predicate PairDone(n: Nodes, k: Nodes, m: ObjectMap, o: nat, q: nat) {
    && (Status(k, q) == GLOBAL_ESCAPE ==> Status(n, o) == GLOBAL_ESCAPE)
    && (forall f {:trigger FieldOf(n, o, f)} {:trigger f in Fields(k, q)} :: f in Fields(k, q) ==>
        FieldDone(n, k, m, o, q, f))
  }

  /** Every mapped pair is complete, except those whose completion is under way. */
  ghost predicate AllDone(n: Nodes, k: Nodes, m: ObjectMap, pending: set<(nat, nat)>) {
    forall q: nat, o: nat {:trigger o in MapsTo(m, q)} :: o in MapsTo(m, q) && (o, q) !in pending ==>
        PairDone(n, k, m, o, q)
  }

  lemma FieldStaysDone(n: Nodes, n': Nodes, k: Nodes, m: ObjectMap, m': ObjectMap, o: nat, q: nat, f: int)
    requires KeepsNodes(n, n') && MapGrows(m, m') && FieldDone(n, k, m, o, q, f)
    ensures FieldDone(n', k, m', o, q, f)
  {
    FieldOfStays(n, n', o, f);
    if f in Fields(k, q) {
      forall t: nat | t in Pts(k, Fields(k, q)[f])
        ensures MapsTo(m', t) != {}
      {
        assert MapsTo(m, t) != {} && MapsTo(m, t) <= MapsTo(m', t);
      }
    }
  }

  lemma PairStaysDone(n: Nodes, n': Nodes, k: Nodes, m: ObjectMap, m': ObjectMap, o: nat, q: nat)
    requires KeepsNodes(n, n') && MapGrows(m, m') && PairDone(n, k, m, o, q)
    ensures PairDone(n', k, m', o, q)
  {
    assert Status(n, o) <= Status(n', o);
    hide KeepsNodes, MapGrows, FieldDone;
    forall f | f in Fields(k, q)
      ensures FieldDone(n', k, m', o, q, f)
    {
      FieldStaysDone(n, n', k, m, m', o, q, f);
    }
  }

  /** What is done stays done; new pairs must be pending. */
  lemma AllStaysDone(n: Nodes, n': Nodes, k: Nodes, m: ObjectMap, m': ObjectMap, pending: set<(nat, nat)>,
                     pending': set<(nat, nat)>)
    requires KeepsNodes(n, n') && MapGrows(m, m') && AllDone(n, k, m, pending) && pending <= pending'
    requires forall q: nat, o: nat {:trigger o in MapsTo(m', q)} ::
               o in MapsTo(m', q) ==> o in MapsTo(m, q) || (o, q) in pending'
    ensures AllDone(n', k, m', pending')
  {
    hide KeepsNodes, MapGrows, PairDone;
    forall q: nat, o: nat | o in MapsTo(m', q) && (o, q) !in pending'
      ensures PairDone(n', k, m', o, q)
    {
      assert (o, q) !in pending;
      PairStaysDone(n, n', k, m, m', o, q);
    }
  }

  // ---------------------------------------------------------------------------------------------
  // New objects: at most one for each callee object.
  // ---------------------------------------------------------------------------------------------

  /** Every object from `base` on was made for a callee object of its own, which it stands for. */
  ghost predicate Phantoms(n: Nodes, m: ObjectMap, base: nat, madeFor: map<nat, nat>) {
    && (forall o: nat {:trigger IsObject(n, o)} :: base <= o && IsObject(n, o) ==> o in madeFor)
    && (forall o {:trigger madeFor[o]} :: o in madeFor ==> o < |n| && o in MapsTo(m, madeFor[o]))
    && (forall a, b {:trigger madeFor[a], madeFor[b]} ::
          a in madeFor && b in madeFor && madeFor[a] == madeFor[b] ==> a == b)
  }

  ghost function Unmapped(k: Nodes, m: ObjectMap): set<nat> {
    set q: nat | q < |k| && MapsTo(m, q) == {}
  }

  ghost function OpenPairs(n: Nodes, k: Nodes, m: ObjectMap): set<(nat, nat)> {
    set o: nat, q: nat | o < |n| && q < |k| && IsObject(n, o) && o !in MapsTo(m, q) :: (o, q)
  }

  ghost predicate SameObjects(n: Nodes, n': Nodes) {
    forall x: nat {:trigger IsObject(n', x)} {:trigger IsObject(n, x)} :: IsObject(n', x) <==> IsObject(n, x)
  }

  /** One stretch of the walk: nodes and map only grow, and new objects come with newly mapped callee objects. */
  ghost predicate Walked(n: Nodes, m: ObjectMap, n': Nodes, m': ObjectMap, k: Nodes) {
    && KeepsNodes(n, n') && KeepsPoints(n, n') && MapGrows(m, m')
    && (Unmapped(k, m') == Unmapped(k, m) ==> SameObjects(n, n'))
  }

  lemma UnmappedShrinks(k: Nodes, m: ObjectMap, m': ObjectMap)
    requires MapGrows(m, m')
    ensures Unmapped(k, m') <= Unmapped(k, m)
  {
    forall q | q in Unmapped(k, m')
      ensures q in Unmapped(k, m)
    {
      assert MapsTo(m, q) <= MapsTo(m', q);
    }
  }

  lemma MapGrowsTrans(a: ObjectMap, b: ObjectMap, c: ObjectMap)
    requires MapGrows(a, b) && MapGrows(b, c)
    ensures MapGrows(a, c)
  {
    forall q: nat
      ensures MapsTo(a, q) <= MapsTo(c, q)
    {
      assert MapsTo(a, q) <= MapsTo(b, q) <= MapsTo(c, q);
    }
  }

  lemma WalkedTrans(a: Nodes, ma: ObjectMap, b: Nodes, mb: ObjectMap, c: Nodes, mc: ObjectMap, k: Nodes)
    requires Walked(a, ma, b, mb, k) && Walked(b, mb, c, mc, k)
    ensures Walked(a, ma, c, mc, k)
  {
    UnmappedShrinks(k, ma, mb);
    UnmappedShrinks(k, mb, mc);
    KeepsTrans(a, b, c);
    MapGrowsTrans(ma, mb, mc);
    hide KeepsNodes, KeepsPoints, MapGrows, Unmapped;
  }

  lemma WalkedSelf(n: Nodes, m: ObjectMap, k: Nodes)
    ensures Walked(n, m, n, m, k)
  {
  }

  /** The lexicographic measure of the walk never grows. */
  lemma WalkedIsNoMoreWork(n: Nodes, m: ObjectMap, n': Nodes, m': ObjectMap, k: Nodes)
    requires Walked(n, m, n', m', k)
    ensures |Unmapped(k, m')| <= |Unmapped(k, m)|
    ensures |Unmapped(k, m')| == |Unmapped(k, m)| ==> |OpenPairs(n', k, m')| <= |OpenPairs(n, k, m)|
  {
    UnmappedShrinks(k, m, m');
    SetIsBounded(Unmapped(k, m'), Unmapped(k, m));
    if |Unmapped(k, m')| == |Unmapped(k, m)| {
      EqualSets(Unmapped(k, m'), Unmapped(k, m));
      assert OpenPairs(n', k, m') <= OpenPairs(n, k, m) by {
        forall t | t in OpenPairs(n', k, m')
          ensures t in OpenPairs(n, k, m)
        {
          assert MapsTo(m, t.1) <= MapsTo(m', t.1);
          assert IsObject(n', t.0) && IsObject(n, t.0);
        }
      }
      SetIsBounded(OpenPairs(n', k, m'), OpenPairs(n, k, m));
    }
  }

  // ---------------------------------------------------------------------------------------------
  // The steps of the walk.
  // ---------------------------------------------------------------------------------------------

  /** What holds between any two steps of the walk. */
  ghost predicate MergeInv(n: Nodes, k: Nodes, m: ObjectMap, pending: set<(nat, nat)>, base: nat,
                           madeFor: map<nat, nat>) {
    WellKinded(k) && Inv(n) && MapOk(n, k, m) && AllDone(n, k, m, pending) && Phantoms(n, m, base, madeFor)
  }

  /** A step that creates no object and leaves the map alone. */
  lemma QuietStep(n: Nodes, n': Nodes, k: Nodes, m: ObjectMap, pending: set<(nat, nat)>, base: nat,
                  madeFor: map<nat, nat>)
    requires MergeInv(n, k, m, pending, base, madeFor) && Inv(n')
    requires KeepsNodes(n, n') && KeepsPoints(n, n') && SameObjects(n, n')
    ensures MergeInv(n', k, m, pending, base, madeFor) && Walked(n, m, n', m, k)
  {
    hide Inv, PairDone;
    assert MapGrows(m, m);
    AllStaysDone(n, n', k, m, m, pending, pending);
  }

  lemma RaiseIsQuiet(n: Nodes, n': Nodes, v: nat, st: EAStatus)
    requires Inv(n) && StatusSpread(n, n', v, st)
    ensures Inv(n') && KeepsNodes(n, n') && KeepsPoints(n, n') && SameObjects(n, n')
  {
    RaiseKeepsInv(n, n', v, st);
    RaiseKeepsFlows(n, n', v, st);
    SameFlows(n, n');
  }

  lemma FieldIsQuiet(n: Nodes, n': Nodes, st: EAStatus, fid: int, owner: nat)
    requires Inv(n) && OneMore(n, n', FieldNode, st, fid, owner)
    ensures Inv(n') && KeepsNodes(n, n') && KeepsPoints(n, n') && SameObjects(n, n')
  {
    CreateKeepsInv(n, n', FieldNode, st, fid, owner);
    hide Inv;
  }

  lemma LinkKeepsNodes(n: Nodes, n': Nodes, v: nat, o: nat)
    requires Gained(n, n', v, o) && IsObject(n, o) && !IsObject(n, v)
    ensures KeepsNodes(n, n') && SameObjects(n, n') && Ins(n', v) == Ins(n, v)
    ensures forall x: nat :: x != v ==> Outs(n', x) == Outs(n, x)
  {
  }

  /** Adding an object as `out` node of a node nobody leads to. */
  lemma LinkKeeps(n: Nodes, n': Nodes, v: nat, o: nat)
    requires Inv(n) && CanAdd(n, v, o) && IsObject(n, o) && OutNodeAdded(n, n', v, o) && Ins(n, v) == {}
    ensures Inv(n') && KeepsNodes(n, n') && SameObjects(n, n') && Ins(n', v) == {}
    ensures forall x: nat :: x != v ==> Pts(n', x) == Pts(n, x)
    ensures forall x: nat :: x != v ==> Outs(n', x) == Outs(n, x)
    ensures Pts(n', v) == Pts(n, v) + {o} || (Pts(n, v) != {} && Pts(n', v) == Pts(n, v))
  {
    assert !IsObject(n, v) && v != o;
    hide *;
    AddedKeepsInv(n, n', v, o);
    AddedGainsAlone(n, n', v, o);
    LinkPoints(n, n', v, o);
    LinkKeepsNodes(n, n', v, o);
  }

  lemma LinkPoints(n: Nodes, n': Nodes, v: nat, o: nat)
    requires Inv(n) && CanAdd(n, v, o) && IsObject(n, o) && OutNodeAdded(n, n', v, o) && Ins(n, v) == {}
    ensures Pts(n', v) == Pts(n, v) + {o} || (Pts(n, v) != {} && Pts(n', v) == Pts(n, v))
  {
    if o !in Outs(n, v) {
      var s :| OutNodeVia(n, s, n', v, o);
      SameFlows(n, s);
      if !Absorbed(n, v) {
        RaiseKeepsInv(n, s, o, Status(n, v));
        ViaEdgeStep(n, s, n', v, o);
        UnreachedPoints(s, n', v, o);
        assert Pts(s, o) == {o};
      }
    } else {
      assert Pts(n, o) <= Pts(n, v);
      assert Pts(n, o) == {o};
    }
  }

  /** A node nobody leads to gains exactly the objects of its new `out` node. */
  lemma UnreachedPoints(n: Nodes, n': Nodes, v: nat, w: nat)
    requires Inv(n) && EdgeStep(n, n', v, w) && Ins(n, v) == {} && IsObject(n, w)
    ensures Pts(n', v) == Pts(n, v) + Pts(n, w)
  {
    EdgeStepReads(n, n', v, w);
    forall o | o in Pts(n', v)
      ensures o in Pts(n, v) + Pts(n, w)
    {
      UnreachedPoint(n, n', v, w, o);
    }
  }

  lemma UnreachedPoint(n: Nodes, n': Nodes, v: nat, w: nat, o: nat)
    requires Inv(n) && EdgeStep(n, n', v, w) && Ins(n, v) == {} && IsObject(n, w) && o in Pts(n', v)
    ensures o in Pts(n, v) + Pts(n, w)
  {
    var y := EdgeStepSource(n, n', v, w, v, o);
    hide Inv, EdgeStep, Reaches;
    if y != v {
      var a := FirstStep(OutEdges(n'), v, y);
      assert a in Outs(n', v);
      OtherSource(n, n', v, w, a, y, o);
    }
  }

  lemma OtherSource(n: Nodes, n': Nodes, v: nat, w: nat, a: nat, y: nat, o: nat)
    requires Inv(n) && EdgeStep(n, n', v, w) && Ins(n, v) == {} && IsObject(n, w)
    requires a in Outs(n', v) && Reaches(OutEdges(n'), a, y) && o in Pts(n, y)
    ensures o in Pts(n, v) + Pts(n, w)
  {
    OtherSourceReads(n, n', v, w, a, y);
    EdgeKeepsInv(n, n', v, w);
    assert PointsClosed(n') && PointsClosed(n);
    assert v != w by {
      assert !IsObject(n, v);
    }
    assert a in Outs(n, v) ==> Pts(n, a) <= Pts(n, v);
    hide *;
    ClosedAlong(n', a, y);
    UnreachedGainsAlone(n, n', v, w, a);
  }

  lemma OtherSourceReads(n: Nodes, n': Nodes, v: nat, w: nat, a: nat, y: nat)
    requires Inv(n) && EdgeStep(n, n', v, w) && Ins(n, v) == {} && IsObject(n, w) && a in Outs(n', v)
    ensures Pts(n, y) <= Pts(n', y) && a != v && (a == w || a in Outs(n, v))
  {
    EdgeStepReads(n, n', v, w);
    assert EdgesMirror(n) && !IsGlobal(v) && !IsObject(n, v);
    hide EdgeStep, EdgeHanded, ByGrows, Inv;
    assert Outs(n', v) == Outs(n, v) + {w};
    assert v !in Ins(n, v);
  }

  lemma PhantomNodes(n: Nodes, n1: Nodes, n2: Nodes, v: nat)
    requires Inv(n) && Pts(n, v) == {} && Live(n, v) && Ins(n, v) == {} && !IsObject(n, v)
    requires n1 == ObjectCreated(n, Status(n, v)) && OutNodeAdded(n1, n2, v, |n|)
    ensures Inv(n2) && KeepsNodes(n, n2) && KeepsPoints(n, n2) && Pts(n2, v) == {|n|} && |n2| == |n| + 1
    ensures forall x: nat :: IsObject(n2, x) <==> IsObject(n, x) || x == |n|
  {
    hide *;
    PhantomCreated(n, n1, v);
    LinkKeeps(n1, n2, v, |n|);
    OnlyOneGains(n1, n2, v);
    KeepsTrans(n, n1, n2);
    SameObjectsRead(n1, n2);
    AddedKeepsSize(n1, n2, v, |n|);
  }

  lemma SameObjectsRead(n: Nodes, n': Nodes)
    requires SameObjects(n, n')
    ensures forall x: nat :: IsObject(n', x) <==> IsObject(n, x)
  {
  }

  lemma AddedKeepsSize(n: Nodes, n': Nodes, v: nat, w: nat)
    requires Inv(n) && CanAdd(n, v, w) && OutNodeAdded(n, n', v, w)
    ensures |n'| == |n|
  {
    AddedKeepsInv(n, n', v, w);
    hide Inv, CanAdd, OutNodeAdded;
  }

  lemma PhantomCreated(n: Nodes, n1: Nodes, v: nat)
    requires Inv(n) && Pts(n, v) == {} && Live(n, v) && Ins(n, v) == {} && !IsObject(n, v)
    requires n1 == ObjectCreated(n, Status(n, v))
    ensures Inv(n1) && KeepsNodes(n, n1) && KeepsPoints(n, n1) && CanAdd(n1, v, |n|) && IsObject(n1, |n|)
    ensures Ins(n1, v) == {} && Pts(n1, v) == {} && |n1| == |n| + 1
    ensures forall x: nat :: IsObject(n1, x) <==> IsObject(n, x) || x == |n|
  {
    ObjectIsOneMore(n, Status(n, v));
    CreateKeepsInv(n, n1, ObjectNode, Status(n, v), 0, 0);
    hide Inv;
  }

  lemma OnlyOneGains(n: Nodes, n': Nodes, v: nat)
    requires Pts(n, v) == {} && forall x: nat :: x != v ==> Pts(n', x) == Pts(n, x)
    requires forall x: nat :: x != v ==> Outs(n', x) == Outs(n, x)
    ensures KeepsPoints(n, n')
  {
  }

  lemma PhantomOwner(n: Nodes, n2: Nodes, m: ObjectMap, m': ObjectMap, base: nat, madeFor: map<nat, nat>, q: nat)
    requires Phantoms(n, m, base, madeFor) && |n2| == |n| + 1 && MapsTo(m, q) == {}
    requires forall x: nat :: IsObject(n2, x) <==> IsObject(n, x) || x == |n|
    requires Recorded(m, m', |n|, q)
    ensures Phantoms(n2, m', base, madeFor[|n| := q])
  {
  }

  /** The map with one more pair. */
  ghost predicate Recorded(m: ObjectMap, m': ObjectMap, o: nat, q: nat) {
    forall t: nat {:trigger MapsTo(m', t)} :: MapsTo(m', t) == if t == q then MapsTo(m, t) + {o} else MapsTo(m, t)
  }

  lemma RecordedGrows(k: Nodes, m: ObjectMap, m': ObjectMap, o: nat, q: nat)
    requires Recorded(m, m', o, q)
    ensures MapGrows(m, m') && Unmapped(k, m') <= Unmapped(k, m)
    ensures IsObject(k, q) && MapsTo(m, q) == {} ==> Unmapped(k, m') != Unmapped(k, m)
  {
    assert MapGrows(m, m') by {
      forall t: nat
        ensures MapsTo(m, t) <= MapsTo(m', t)
      {
        assert MapsTo(m', t) == if t == q then MapsTo(m, t) + {o} else MapsTo(m, t);
      }
    }
    UnmappedShrinks(k, m, m');
    if IsObject(k, q) && MapsTo(m, q) == {} {
      assert o in MapsTo(m', q);
      assert q in Unmapped(k, m) && q !in Unmapped(k, m');
    }
  }

  lemma RecordedMapOk(n: Nodes, n': Nodes, k: Nodes, m: ObjectMap, m': ObjectMap, o: nat, q: nat)
    requires Recorded(m, m', o, q) && MapOk(n, k, m) && IsObject(n', o) && IsObject(k, q)
    requires forall x: nat :: IsObject(n, x) ==> IsObject(n', x)
    ensures MapOk(n', k, m')
  {
  }

  lemma RecordedDone(n: Nodes, n': Nodes, k: Nodes, m: ObjectMap, m': ObjectMap, pending: set<(nat, nat)>, o: nat,
                     q: nat)
    requires Recorded(m, m', o, q) && KeepsNodes(n, n') && AllDone(n, k, m, pending)
    ensures AllDone(n', k, m', pending + {(o, q)})
  {
    RecordedGrows(k, m, m', o, q);
    AllStaysDone(n, n', k, m, m', pending, pending + {(o, q)});
  }

  /** The new phantom, its edge and its entry in the map are one stretch of the walk. */
  lemma PhantomStep(n: Nodes, n1: Nodes, n2: Nodes, k: Nodes, m: ObjectMap, m': ObjectMap, pending: set<(nat, nat)>,
                    base: nat, madeFor: map<nat, nat>, v: nat, q: nat)
    requires MergeInv(n, k, m, pending, base, madeFor) && Pts(n, v) == {} && Live(n, v) && IsObject(k, q)
    requires n1 == ObjectCreated(n, Status(n, v)) && OutNodeAdded(n1, n2, v, |n|)
    requires MapsTo(m, q) == {} && Recorded(m, m', |n|, q)
    ensures MergeInv(n2, k, m', pending + {(|n|, q)}, base, madeFor[|n| := q])
    ensures Walked(n, m, n2, m', k) && |Unmapped(k, m')| < |Unmapped(k, m)|
    ensures Pts(n2, v) != {} && Covers(n2, m', v, q) && |n| in MapsTo(m', q)
  {
    hide *;
    MergeInvFacts(n, k, m, pending, base, madeFor);
    EmptyIsUnreached(n, v);
    PhantomNodes(n, n1, n2, v);
    RecordedGrows(k, m, m', |n|, q);
    RecordedMaps(m, m', |n|, q);
    RecordedDone(n, n2, k, m, m', pending, |n|, q);
    PhantomOwner(n, n2, m, m', base, madeFor, q);
    RecordedMapOk(n, n2, k, m, m', |n|, q);
    StrictlySmaller(Unmapped(k, m'), Unmapped(k, m));
    MergeInvMade(n2, k, m', pending + {(|n|, q)}, base, madeFor[|n| := q]);
    WalkedWithObject(n, m, n2, m', k);
    LinkedCovers(n2, m', v, q);
  }

  lemma WalkedWithObject(n: Nodes, m: ObjectMap, n': Nodes, m': ObjectMap, k: Nodes)
    requires KeepsNodes(n, n') && KeepsPoints(n, n') && MapGrows(m, m') && Unmapped(k, m') != Unmapped(k, m)
    ensures Walked(n, m, n', m', k)
  {
    hide KeepsNodes, KeepsPoints, MapGrows, Unmapped;
  }

  lemma StrictlySmaller<T>(a: set<T>, b: set<T>)
    requires a <= b && a != b
    ensures |a| < |b|
  {
    SetIsBounded(a, b);
    if |a| == |b| {
      EqualSets(a, b);
    }
  }

  /** Recording one more pair is a step of the walk. */
  lemma PairStep(n: Nodes, k: Nodes, m: ObjectMap, m': ObjectMap, pending: set<(nat, nat)>, base: nat,
                 madeFor: map<nat, nat>, o: nat, q: nat)
    requires MergeInv(n, k, m, pending, base, madeFor) && IsObject(n, o) && IsObject(k, q) && o !in MapsTo(m, q)
    requires Recorded(m, m', o, q)
    ensures MergeInv(n, k, m', pending + {(o, q)}, base, madeFor) && Walked(n, m, n, m', k)
    ensures |Unmapped(k, m')| <= |Unmapped(k, m)| && |OpenPairs(n, k, m')| < |OpenPairs(n, k, m)|
  {
    assert KeepsNodes(n, n) && KeepsPoints(n, n) && SameObjects(n, n);
    RecordedGrows(k, m, m', o, q);
    PairsShrink(n, k, m, m', o, q);
    SetIsBounded(Unmapped(k, m'), Unmapped(k, m));
    RecordedMapOk(n, n, k, m, m', o, q);
    RecordedDone(n, n, k, m, m', pending, o, q);
    PairOwner(n, m, m', base, madeFor, o, q);
    hide Inv, AllDone, MapOk, KeepsNodes, KeepsPoints, Unmapped, OpenPairs, Phantoms, SameObjects;
  }

  lemma PairOwner(n: Nodes, m: ObjectMap, m': ObjectMap, base: nat, madeFor: map<nat, nat>, o: nat, q: nat)
    requires Phantoms(n, m, base, madeFor) && Recorded(m, m', o, q)
    ensures Phantoms(n, m', base, madeFor)
  {
  }

  lemma PairsShrink(n: Nodes, k: Nodes, m: ObjectMap, m': ObjectMap, o: nat, q: nat)
    requires Recorded(m, m', o, q) && IsObject(n, o) && IsObject(k, q) && o !in MapsTo(m, q)
    ensures |OpenPairs(n, k, m')| < |OpenPairs(n, k, m)|
  {
    var a, b := OpenPairs(n, k, m'), OpenPairs(n, k, m);
    assert (o, q) in b && (o, q) !in a;
    SmallerSet(a, b, (o, q));
  }

  /** The objects `v` points to all stand for the callee object `q`. */
  ghost predicate Covers(n: Nodes, m: ObjectMap, v: nat, q: nat) {
    MapsTo(m, q) != {} && Pts(n, v) <= MapsTo(m, q)
  }

  lemma StillCovers(n: Nodes, m: ObjectMap, n': Nodes, m': ObjectMap, k: Nodes, v: nat, q: nat)
    requires Walked(n, m, n', m', k) && Covers(n, m, v, q) && Pts(n, v) != {}
    ensures Covers(n', m', v, q)
  {
    assert Pts(n', v) == Pts(n, v) && MapsTo(m, q) <= MapsTo(m', q);
  }

  lemma StaysLive(n: Nodes, n': Nodes, v: nat)
    requires KeepsNodes(n, n') && Live(n, v)
    ensures Live(n', v) && Kind(n', v) == Kind(n, v)
  {
  }

  /** An empty entry in the map changes nothing. */
  lemma SameMap(n: Nodes, k: Nodes, m: ObjectMap, m': ObjectMap, pending: set<(nat, nat)>, base: nat,
                madeFor: map<nat, nat>)
    requires MergeInv(n, k, m, pending, base, madeFor) && forall t: nat :: MapsTo(m', t) == MapsTo(m, t)
    ensures MergeInv(n, k, m', pending, base, madeFor) && Walked(n, m, n, m', k)
    ensures Unmapped(k, m') == Unmapped(k, m) && OpenPairs(n, k, m') == OpenPairs(n, k, m)
  {
    assert KeepsNodes(n, n) && MapGrows(m, m');
    hide Inv, PairDone;
    AllStaysDone(n, n, k, m, m', pending, pending);
  }

  /** Once its fields are done, the pair is. */
  lemma PairCompleted(n: Nodes, k: Nodes, m: ObjectMap, pending: set<(nat, nat)>, base: nat, madeFor: map<nat, nat>,
                      o: nat, q: nat)
    requires MergeInv(n, k, m, pending + {(o, q)}, base, madeFor)
    requires FieldsDoneBut(n, k, m, o, q, {})
    ensures MergeInv(n, k, m, pending, base, madeFor)
  {
    assert PairDone(n, k, m, o, q) by {
      hide FieldDone;
    }
    hide PairDone, Inv, Phantoms, MapOk;
  }

  lemma EmptyIsUnreached(n: Nodes, v: nat)
    requires Inv(n) && Pts(n, v) == {}
    ensures Ins(n, v) == {} && !IsObject(n, v) && !IsGlobal(v)
  {
    assert IsObject(n, v) ==> v in Pts(n, v);
  }

  /** Between two links: `v`, which pointed nowhere in `n`, points to some of `objs`, and nothing else changed. */
  ghost predicate Linking(n: Nodes, s: Nodes, v: nat, objs: set<nat>) {
    && Inv(s) && KeepsNodes(n, s) && SameObjects(n, s) && Ins(s, v) == {} && Pts(s, v) <= objs
    && (forall x: nat :: x != v ==> Pts(s, x) == Pts(n, x))
    && (forall x: nat :: x != v ==> Outs(s, x) == Outs(n, x))
  }

  lemma LinkNext(n: Nodes, s: Nodes, t: Nodes, v: nat, o: nat, objs: set<nat>)
    requires Linking(n, s, v, objs) && o in objs && CanAdd(s, v, o) && IsObject(s, o) && OutNodeAdded(s, t, v, o)
    ensures Linking(n, t, v, objs) && Pts(t, v) != {}
  {
    hide Inv, KeepsNodes, SameObjects, OutNodeAdded, CanAdd;
    LinkKeeps(s, t, v, o);
    KeepsNodesTrans(n, s, t);
    SameObjectsTrans(n, s, t);
  }

  lemma SameObjectsTrans(a: Nodes, b: Nodes, c: Nodes)
    requires SameObjects(a, b) && SameObjects(b, c)
    ensures SameObjects(a, c)
  {
    forall x: nat
      ensures IsObject(c, x) <==> IsObject(a, x)
    {
      assert IsObject(b, x) <==> IsObject(a, x);
    }
  }

  lemma LinkStarts(n: Nodes, v: nat, objs: set<nat>)
    requires Inv(n) && Pts(n, v) == {}
    ensures Linking(n, n, v, objs) && !IsObject(n, v)
  {
    EmptyIsUnreached(n, v);
    hide Inv;
  }

  lemma LinkEnds(n: Nodes, s: Nodes, v: nat, objs: set<nat>)
    requires Linking(n, s, v, objs) && Pts(n, v) == {}
    ensures Inv(s) && KeepsNodes(n, s) && KeepsPoints(n, s) && SameObjects(n, s) && Pts(s, v) <= objs
  {
    hide Inv, KeepsNodes, SameObjects;
  }

  lemma CanLink(n: Nodes, s: Nodes, v: nat, o: nat, objs: set<nat>)
    requires Live(n, v) && !IsObject(n, v) && IsObject(n, o) && Linking(n, s, v, objs)
    ensures CanAdd(s, v, o) && IsObject(s, o) && Usable(s) && !IsObject(s, v)
  {
    StaysLive(n, s, v);
    assert IsObject(s, o);
    InvIsUsable(s);
    hide KeepsNodes;
  }

  lemma MappedAreObjects(n: Nodes, k: Nodes, m: ObjectMap, q: nat)
    requires MapOk(n, k, m)
    ensures forall o :: o in MapsTo(m, q) ==> IsObject(n, o) && IsObject(k, q)
  {
  }

  lemma PointeeIsObject(n: Nodes, v: nat, o: nat)
    requires Inv(n) && o in Pts(n, v)
    ensures IsObject(n, o)
  {
  }

  lemma PhantomUsable(n: Nodes, n1: Nodes, v: nat)
    requires Inv(n) && Inv(n1) && Pts(n, v) == {} && Live(n, v) && n1 == ObjectCreated(n, Status(n, v))
    ensures Usable(n1) && CanAdd(n1, v, |n|)
  {
    EmptyIsUnreached(n, v);
    InvIsUsable(n1);
  }

  lemma WalkedKeeps(n: Nodes, m: ObjectMap, n': Nodes, m': ObjectMap, k: Nodes, v: nat, q: nat, o: nat)
    requires Walked(n, m, n', m', k) && Pts(n, v) != {}
    ensures Pts(n', v) == Pts(n, v) && MapsTo(m, q) <= MapsTo(m', q)
  {
  }

  lemma WalkedMapped(n: Nodes, m: ObjectMap, n': Nodes, m': ObjectMap, k: Nodes, o: nat, q: nat)
    requires Walked(n, m, n', m', k) && o in MapsTo(m, q)
    ensures o in MapsTo(m', q)
  {
    assert MapsTo(m, q) <= MapsTo(m', q);
  }

  lemma FieldCompleted(n: Nodes, m: ObjectMap, n': Nodes, m': ObjectMap, k: Nodes, o: nat, q: nat, f: int, v: nat)
    requires Walked(n, m, n', m', k) && FieldOf(n, o, f) == Some(v) && f in Fields(k, q)
    requires forall t :: t in Pts(k, Fields(k, q)[f]) ==> Covers(n', m', v, t)
    ensures FieldDone(n', k, m', o, q, f)
  {
    FieldOfStays(n, n', o, f);
    hide KeepsNodes;
    forall t: nat | t in Pts(k, Fields(k, q)[f])
      ensures MapsTo(m', t) != {}
    {
      assert Covers(n', m', v, t);
    }
  }

  /** The pair owes no more than the fields in `todo`. */
  ghost predicate FieldsDoneBut(n: Nodes, k: Nodes, m: ObjectMap, o: nat, q: nat, todo: set<int>) {
    && (Status(k, q) == GLOBAL_ESCAPE ==> Status(n, o) == GLOBAL_ESCAPE)
    && forall f :: f in Fields(k, q) && f !in todo ==> FieldDone(n, k, m, o, q, f)
  }

  lemma FieldsStayDone(n: Nodes, m: ObjectMap, n': Nodes, m': ObjectMap, k: Nodes, o: nat, q: nat, todo: set<int>)
    requires Walked(n, m, n', m', k)
    requires FieldsDoneBut(n, k, m, o, q, todo)
    ensures FieldsDoneBut(n', k, m', o, q, todo)
  {
    assert Status(n, o) <= Status(n', o);
    hide MapGrows, FieldDone;
    forall f | f in Fields(k, q) && f !in todo
      ensures FieldDone(n', k, m', o, q, f)
    {
      FieldStaysDone(n, n', k, m, m', o, q, f);
    }
  }

  lemma OneFieldLess(n: Nodes, k: Nodes, m: ObjectMap, o: nat, q: nat, todo: set<int>, f: int)
    requires FieldsDoneBut(n, k, m, o, q, todo) && FieldDone(n, k, m, o, q, f)
    ensures FieldsDoneBut(n, k, m, o, q, todo - {f})
  {
    hide FieldDone;
  }

  lemma NoFieldDoneYet(n: Nodes, k: Nodes, m: ObjectMap, o: nat, q: nat, todo: set<int>)
    requires Status(k, q) == GLOBAL_ESCAPE ==> Status(n, o) == GLOBAL_ESCAPE
    requires forall f :: f in Fields(k, q) ==> f in todo
    ensures FieldsDoneBut(n, k, m, o, q, todo)
  {
  }

  // ---------------------------------------------------------------------------------------------
  // The edge phase.
  // ---------------------------------------------------------------------------------------------

  /** Every callee object that was looked up stands for something, except `q`. */
  ghost predicate KeysFullBut(m: ObjectMap, q: nat) {
    forall t :: t in m && t != q ==> m[t] != {}
  }

  ghost predicate KeysFull(m: ObjectMap) {
    forall t :: t in m ==> m[t] != {}
  }

  lemma KeysFilled(m: ObjectMap, m': ObjectMap, o: nat, q: nat)
    requires KeysFullBut(m, q) && m'.Keys == m.Keys + {q} && Recorded(m, m', o, q)
    ensures KeysFull(m')
  {
    forall t | t in m'
      ensures m'[t] != {}
    {
      assert m'[t] == MapsTo(m', t);
      if t == q {
        assert o in MapsTo(m', t);
      } else {
        assert t in m && MapsTo(m', t) == MapsTo(m, t) == m[t];
      }
    }
  }

  /** What the nodes keep while edges are added. */
  ghost predicate EdgesOnly(n: Nodes, n': Nodes) {
    && |n'| == |n|
    && (forall x: nat {:trigger Kind(n', x)} :: Kind(n', x) == Kind(n, x))
    && (forall x: nat {:trigger Fields(n', x)} :: Fields(n', x) == Fields(n, x))
    && (forall x: nat {:trigger Status(n', x)} :: Status(n, x) <= Status(n', x))
    && (forall x: nat {:trigger Pts(n', x)} :: Pts(n, x) <= Pts(n', x))
  }

  /** Only field nodes get new `out` edges. */
  ghost predicate OutsKept(n: Nodes, n': Nodes) {
    forall x: nat {:trigger Outs(n', x)} :: !IsField(n, x) ==> Outs(n', x) == Outs(n, x)
  }

  lemma EdgesOnlyTrans(a: Nodes, b: Nodes, c: Nodes)
    requires EdgesOnly(a, b) && EdgesOnly(b, c)
    ensures EdgesOnly(a, c)
  {
    forall x: nat
      ensures Status(a, x) <= Status(c, x) && Pts(a, x) <= Pts(c, x)
      ensures Kind(c, x) == Kind(a, x) && Fields(c, x) == Fields(a, x)
    {
      assert Status(a, x) <= Status(b, x) <= Status(c, x);
      assert Pts(a, x) <= Pts(b, x) <= Pts(c, x);
      assert Kind(b, x) == Kind(a, x) && Fields(b, x) == Fields(a, x);
    }
  }

  /** The node `v` points to the object `t`, or both escape globally. */
  ghost predicate Leads(n: Nodes, v: nat, t: nat) {
    t in Pts(n, v) || (Status(n, v) == GLOBAL_ESCAPE && Status(n, t) == GLOBAL_ESCAPE)
  }

  /** Field `f` of every image of `p` leads to every image of `q`. */
  ghost predicate Linked(n: Nodes, m: ObjectMap, p: nat, f: int, q: nat) {
    forall o: nat, t: nat {:trigger o in MapsTo(m, p), t in MapsTo(m, q)} :: o in MapsTo(m, p) && t in MapsTo(m, q) ==>
      FieldOf(n, o, f).Some? && Leads(n, FieldOf(n, o, f).value, t)
  }

  /** Field `f` of `o` leads to every image of `q`, except those in `todo`. */
  ghost predicate LinkedFrom(n: Nodes, m: ObjectMap, o: nat, f: int, q: nat, todo: set<nat>) {
    FieldOf(n, o, f).Some? && forall t: nat {:trigger t in MapsTo(m, q)} ::
      t in MapsTo(m, q) && t !in todo ==> Leads(n, FieldOf(n, o, f).value, t)
  }

  ghost predicate LinkedBut(n: Nodes, m: ObjectMap, p: nat, f: int, q: nat, todo: set<nat>) {
    forall o: nat {:trigger o in MapsTo(m, p)} :: o in MapsTo(m, p) && o !in todo ==> LinkedFrom(n, m, o, f, q, {})
  }

  ghost predicate FieldEmbeddedBut(n: Nodes, k: Nodes, m: ObjectMap, p: nat, f: int, todo: set<nat>) {
    f in Fields(k, p) ==> forall q: nat {:trigger q in Pts(k, Fields(k, p)[f])} ::
      q in Pts(k, Fields(k, p)[f]) && q !in todo ==> MapsTo(m, q) != {} && Linked(n, m, p, f, q)
  }

  ghost predicate ObjectEmbeddedBut(n: Nodes, k: Nodes, m: ObjectMap, p: nat, todo: set<int>) {
    forall f {:trigger f in Fields(k, p)} :: f in Fields(k, p) && f !in todo ==> FieldEmbedded(n, k, m, p, f)
  }

  ghost predicate EmbeddedBut(n: Nodes, k: Nodes, m: ObjectMap, todo: set<nat>) {
    forall p {:trigger p in m} :: p in m && p !in todo ==> ObjectEmbedded(n, k, m, p)
  }

  ghost predicate FieldEmbedded(n: Nodes, k: Nodes, m: ObjectMap, p: nat, f: int) {
    FieldEmbeddedBut(n, k, m, p, f, {})
  }

  ghost predicate ObjectEmbedded(n: Nodes, k: Nodes, m: ObjectMap, p: nat) {
    ObjectEmbeddedBut(n, k, m, p, {})
  }

  /** The map is a homomorphism from the mapped part of the callee's graph to the caller's graph. */
  ghost predicate Embedded(n: Nodes, k: Nodes, m: ObjectMap) {
    (forall p: nat {:trigger MapsTo(m, p)} :: MapsTo(m, p) != {} ==> ObjectEmbedded(n, k, m, p))
        && GlobalsMapped(n, k, m)
  }

  /** Before the edges: fields exist on all images, and their pointees are mapped. */
  ghost predicate FieldReady(n: Nodes, k: Nodes, m: ObjectMap, p: nat, f: int) {
    && (forall o: nat {:trigger o in MapsTo(m, p)} :: o in MapsTo(m, p) ==> FieldOf(n, o, f).Some?)
    && (f in Fields(k, p) ==> forall q: nat {:trigger q in Pts(k, Fields(k, p)[f])} ::
          q in Pts(k, Fields(k, p)[f]) ==> q in m && m[q] != {})
  }

  ghost predicate EdgesReady(n: Nodes, k: Nodes, m: ObjectMap) {
    forall p, f {:trigger FieldReady(n, k, m, p, f)} :: p in m && f in Fields(k, p) ==> FieldReady(n, k, m, p, f)
  }

  lemma NodesGiveReady(n: Nodes, k: Nodes, m: ObjectMap)
    requires AllDone(n, k, m, {}) && KeysFull(m)
    ensures EdgesReady(n, k, m)
  {
    forall p, f | p in m && f in Fields(k, p)
      ensures FieldReady(n, k, m, p, f)
    {
      var o :| o in m[p];
      assert o in MapsTo(m, p) && PairDone(n, k, m, o, p) && FieldDone(n, k, m, o, p, f);
      forall q: nat | q in Pts(k, Fields(k, p)[f])
        ensures q in m && m[q] != {}
      {
        assert MapsTo(m, q) != {};
      }
      forall o': nat | o' in MapsTo(m, p)
        ensures FieldOf(n, o', f).Some?
      {
        assert PairDone(n, k, m, o', p) && FieldDone(n, k, m, o', p, f);
      }
    }
  }

  lemma StaysReady(n: Nodes, n': Nodes, k: Nodes, m: ObjectMap)
    requires EdgesReady(n, k, m) && EdgesOnly(n, n')
    ensures EdgesReady(n', k, m)
  {
    forall p, f | p in m && f in Fields(k, p)
      ensures FieldReady(n', k, m, p, f)
    {
      assert FieldReady(n, k, m, p, f);
      FieldStaysReady(n, n', k, m, p, f);
    }
  }

  lemma FieldStaysReady(n: Nodes, n': Nodes, k: Nodes, m: ObjectMap, p: nat, f: int)
    requires FieldReady(n, k, m, p, f) && EdgesOnly(n, n')
    ensures FieldReady(n', k, m, p, f)
  {
    forall o: nat | o in MapsTo(m, p)
      ensures FieldOf(n', o, f).Some?
    {
      assert FieldOf(n, o, f).Some? && Fields(n', o) == Fields(n, o);
    }
  }

  lemma StaysLeading(n: Nodes, n': Nodes, v: nat, t: nat)
    requires EdgesOnly(n, n') && Leads(n, v, t)
    ensures Leads(n', v, t)
  {
    assert Pts(n, v) <= Pts(n', v) && Status(n, v) <= Status(n', v) && Status(n, t) <= Status(n', t);
  }

  lemma StaysLinkedFrom(n: Nodes, n': Nodes, m: ObjectMap, o: nat, f: int, q: nat, todo: set<nat>)
    requires EdgesOnly(n, n') && LinkedFrom(n, m, o, f, q, todo)
    ensures LinkedFrom(n', m, o, f, q, todo)
  {
    assert Fields(n', o) == Fields(n, o);
    hide Leads, EdgesOnly;
    forall t: nat | t in MapsTo(m, q) && t !in todo
      ensures Leads(n', FieldOf(n', o, f).value, t)
    {
      StaysLeading(n, n', FieldOf(n, o, f).value, t);
    }
  }

  lemma StaysLinkedBut(n: Nodes, n': Nodes, m: ObjectMap, p: nat, f: int, q: nat, todo: set<nat>)
    requires EdgesOnly(n, n') && LinkedBut(n, m, p, f, q, todo)
    ensures LinkedBut(n', m, p, f, q, todo)
  {
    hide EdgesOnly, LinkedFrom;
    forall o: nat | o in MapsTo(m, p) && o !in todo
      ensures LinkedFrom(n', m, o, f, q, {})
    {
      StaysLinkedFrom(n, n', m, o, f, q, {});
    }
  }

  lemma AllLinked(n: Nodes, m: ObjectMap, p: nat, f: int, q: nat)
    requires LinkedBut(n, m, p, f, q, {})
    ensures Linked(n, m, p, f, q)
  {
    forall o: nat, t: nat | o in MapsTo(m, p) && t in MapsTo(m, q)
      ensures FieldOf(n, o, f).Some? && Leads(n, FieldOf(n, o, f).value, t)
    {
      assert LinkedFrom(n, m, o, f, q, {});
    }
  }

  lemma StaysLinked(n: Nodes, n': Nodes, m: ObjectMap, p: nat, f: int, q: nat)
    requires EdgesOnly(n, n') && Linked(n, m, p, f, q)
    ensures Linked(n', m, p, f, q)
  {
    forall o: nat, t: nat | o in MapsTo(m, p) && t in MapsTo(m, q)
      ensures FieldOf(n', o, f).Some? && Leads(n', FieldOf(n', o, f).value, t)
    {
      assert Fields(n', o) == Fields(n, o);
      StaysLeading(n, n', FieldOf(n, o, f).value, t);
    }
  }

  lemma FieldStaysEmbedded(n: Nodes, n': Nodes, k: Nodes, m: ObjectMap, p: nat, f: int, todo: set<nat>)
    requires EdgesOnly(n, n') && FieldEmbeddedBut(n, k, m, p, f, todo)
    ensures FieldEmbeddedBut(n', k, m, p, f, todo)
  {
    hide EdgesOnly, Linked;
    if f in Fields(k, p) {
      forall q: nat | q in Pts(k, Fields(k, p)[f]) && q !in todo
        ensures MapsTo(m, q) != {} && Linked(n', m, p, f, q)
      {
        StaysLinked(n, n', m, p, f, q);
      }
    }
  }

  lemma ObjectStaysEmbedded(n: Nodes, n': Nodes, k: Nodes, m: ObjectMap, p: nat, todo: set<int>)
    requires EdgesOnly(n, n') && ObjectEmbeddedBut(n, k, m, p, todo)
    ensures ObjectEmbeddedBut(n', k, m, p, todo)
  {
    hide EdgesOnly;
    forall f | f in Fields(k, p) && f !in todo
      ensures FieldEmbedded(n', k, m, p, f)
    {
      FieldStaysEmbedded(n, n', k, m, p, f, {});
    }
  }

  lemma StaysEmbedded(n: Nodes, n': Nodes, k: Nodes, m: ObjectMap, todo: set<nat>)
    requires EdgesOnly(n, n') && EmbeddedBut(n, k, m, todo)
    ensures EmbeddedBut(n', k, m, todo)
  {
    hide EdgesOnly, FieldEmbedded;
    forall p | p in m && p !in todo
      ensures ObjectEmbedded(n', k, m, p)
    {
      ObjectStaysEmbedded(n, n', k, m, p, {});
    }
  }

  lemma GainedIsEdgesOnly(n: Nodes, n': Nodes, v: nat, t: nat)
    requires Gained(n, n', v, t) && t in Pts(n, t)
    ensures EdgesOnly(n, n') && Leads(n', v, t)
  {
  }

  /** Between two edges of the edge phase. */
  ghost predicate EdgePhase(n: Nodes, s: Nodes, k: Nodes, m: ObjectMap) {
    Inv(s) && EdgesOnly(n, s) && OutsKept(n, s) && MapOk(s, k, m) && EdgesReady(s, k, m)
  }

  lemma EdgePhaseStarts(n: Nodes, k: Nodes, m: ObjectMap)
    requires Inv(n) && MapOk(n, k, m) && EdgesReady(n, k, m)
    ensures EdgePhase(n, n, k, m)
  {
    assert EdgesOnly(n, n) && OutsKept(n, n);
    hide EdgesOnly, OutsKept, Inv, MapOk, EdgesReady;
  }

  lemma EdgePhaseAgain(n: Nodes, s: Nodes, k: Nodes, m: ObjectMap)
    requires EdgePhase(n, s, k, m)
    ensures EdgePhase(s, s, k, m)
  {
    EdgePhaseStarts(s, k, m);
  }

  lemma EdgePhaseGoesOn(n: Nodes, s: Nodes, s': Nodes, k: Nodes, m: ObjectMap)
    requires EdgePhase(n, s, k, m) && EdgePhase(s, s', k, m)
    ensures EdgePhase(n, s', k, m)
  {
    EdgesOnlyTrans(n, s, s');
    OutsKeptTrans(n, s, s');
    hide EdgesReady, Inv, MapOk, EdgesOnly, OutsKept;
  }

  lemma OutsKeptTrans(a: Nodes, b: Nodes, c: Nodes)
    requires EdgesOnly(a, b) && OutsKept(a, b) && OutsKept(b, c)
    ensures OutsKept(a, c)
  {
    forall x: nat | !IsField(a, x)
      ensures Outs(c, x) == Outs(a, x)
    {
      assert Kind(b, x) == Kind(a, x) && Outs(b, x) == Outs(a, x);
    }
  }

  lemma EdgePhaseStep(s: Nodes, s': Nodes, k: Nodes, m: ObjectMap)
    requires EdgePhase(s, s, k, m) && Inv(s') && EdgesOnly(s, s') && OutsKept(s, s')
    ensures EdgePhase(s, s', k, m)
  {
    StaysReady(s, s', k, m);
    hide EdgesReady, Inv;
    forall q: nat, o: nat | o in MapsTo(m, q)
      ensures IsObject(s', o) && IsObject(k, q)
    {
      assert Kind(s', o) == Kind(s, o);
    }
  }

  lemma EdgeCanBeAdded(n: Nodes, k: Nodes, m: ObjectMap, o: nat, f: int, q: nat, t: nat)
    requires Inv(n) && MapOk(n, k, m) && FieldOf(n, o, f).Some? && t in MapsTo(m, q)
    ensures CanAdd(n, FieldOf(n, o, f).value, t) && Usable(n) && t in Pts(n, t)
  {
    FieldOfIsField(n, o, f);
    InvIsUsable(n);
    assert IsObject(n, t);
  }

  /** The actual argument `G` of the call, and whether it stands for the call's result. */
  datatype Actual = Actual(node: nat, isReturn: bool)

  function Min(a: nat, b: nat): nat {
    if a < b then a else b
  }

  /** What the first `count` actual arguments point to stands for all the callee's arguments point to. */
  ghost predicate ArgsCovered(n: Nodes, k: Nodes, m: ObjectMap, caller: seq<Actual>, callee: seq<Actual>, count: nat) {
    forall i, q: nat {:trigger Covers(n, m, caller[i].node, q)} ::
      0 <= i < count && i < |caller| && i < |callee| && q in Pts(k, callee[i].node) ==>
        Pts(n, caller[i].node) != {} && Covers(n, m, caller[i].node, q)
  }

  lemma ArgsStayCovered(n: Nodes, m: ObjectMap, n': Nodes, m': ObjectMap, k: Nodes, caller: seq<Actual>,
                        callee: seq<Actual>, i: nat)
    requires Walked(n, m, n', m', k) && ArgsCovered(n, k, m, caller, callee, i) && i < |caller| && i < |callee|
    requires forall q :: q in Pts(k, callee[i].node) ==> Covers(n', m', caller[i].node, q)
    requires Pts(k, callee[i].node) != {} ==> Pts(n', caller[i].node) != {}
    ensures ArgsCovered(n', k, m', caller, callee, i + 1)
  {
    hide Covers;
    forall j, q: nat | 0 <= j < i + 1 && q in Pts(k, callee[j].node)
      ensures Pts(n', caller[j].node) != {} && Covers(n', m', caller[j].node, q)
    {
      if j < i {
        assert Covers(n, m, caller[j].node, q);
        StillCovers(n, m, n', m', k, caller[j].node, q);
        WalkedKeeps(n, m, n', m', k, caller[j].node, q, q);
      }
    }
  }

  lemma MergeStarts(n: Nodes, k: Nodes)
    requires Inv(n) && WellKinded(k)
    ensures MergeInv(n, k, map[], {}, |n|, map[]) && KeysFull(map[])
  {
    hide Inv;
  }

  /** The node phase leaves everything ready for the edge phase. */
  lemma NodePhaseEnds(n: Nodes, k: Nodes, m: ObjectMap, base: nat, madeFor: map<nat, nat>)
    requires MergeInv(n, k, m, {}, base, madeFor) && KeysFull(m)
    ensures EdgePhase(n, n, k, m) && GlobalsMapped(n, k, m)
  {
    NodesGiveReady(n, k, m);
    EdgePhaseStarts(n, k, m);
    hide Inv, Phantoms, EdgesReady;
    forall p: nat, o: nat | o in MapsTo(m, p) && Status(k, p) == GLOBAL_ESCAPE
      ensures Status(n, o) == GLOBAL_ESCAPE
    {
      assert PairDone(n, k, m, o, p);
    }
  }

  /** Images of globally escaping objects escape globally. */
  ghost predicate GlobalsMapped(n: Nodes, k: Nodes, m: ObjectMap) {
    forall p: nat, o: nat {:trigger o in MapsTo(m, p)} ::
      o in MapsTo(m, p) && Status(k, p) == GLOBAL_ESCAPE ==> Status(n, o) == GLOBAL_ESCAPE
  }

  lemma GlobalsStayMapped(n: Nodes, n': Nodes, k: Nodes, m: ObjectMap)
    requires GlobalsMapped(n, k, m) && EdgesOnly(n, n')
    ensures GlobalsMapped(n', k, m)
  {
    forall p: nat, o: nat | o in MapsTo(m, p) && Status(k, p) == GLOBAL_ESCAPE
      ensures Status(n', o) == GLOBAL_ESCAPE
    {
      assert Status(n, o) <= Status(n', o);
    }
  }

  lemma EdgesFromStep(n: Nodes, s: Nodes, s': Nodes, k: Nodes, m: ObjectMap, o: nat, f: int, q: nat, t: nat,
                      todo: set<nat>)
    requires EdgePhase(n, s, k, m) && LinkedFrom(s, m, o, f, q, todo) && t in MapsTo(m, q)
    requires Inv(s') && Gained(s, s', FieldOf(s, o, f).value, t)
    ensures EdgePhase(n, s', k, m) && LinkedFrom(s', m, o, f, q, todo - {t})
  {
    assert t in Pts(s, t) && Inv(s) by {
      assert IsObject(s, t);
    }
    EdgePhaseAgain(n, s, k, m);
    GainedIsEdgesOnly(s, s', FieldOf(s, o, f).value, t);
    FieldOfIsField(s, o, f);
    assert OutsKept(s, s');
    hide Inv, Gained;
    assert FieldOf(s', o, f) == FieldOf(s, o, f) by {
      assert Fields(s', o) == Fields(s, o);
    }
    hide EdgePhase, EdgesOnly, Leads, OutsKept;
    EdgePhaseStep(s, s', k, m);
    EdgePhaseGoesOn(n, s, s', k, m);
    StaysLinkedFrom(s, s', m, o, f, q, todo);
  }

  lemma InternalStep(n: Nodes, s: Nodes, s': Nodes, k: Nodes, m: ObjectMap, p: nat, o: nat, f: int, q: nat,
                     todo: set<nat>)
    requires EdgePhase(n, s, k, m) && LinkedBut(s, m, p, f, q, todo)
    requires EdgePhase(s, s', k, m) && LinkedFrom(s', m, o, f, q, {})
    ensures EdgePhase(n, s', k, m) && LinkedBut(s', m, p, f, q, todo - {o})
  {
    EdgePhaseGoesOn(n, s, s', k, m);
    StaysLinkedBut(s, s', m, p, f, q, todo);
    hide EdgePhase, LinkedFrom;
  }

  lemma ImageHasField(n: Nodes, s: Nodes, k: Nodes, m: ObjectMap, p: nat, f: int, o: nat)
    requires EdgePhase(n, s, k, m) && p in m && f in Fields(k, p) && o in m[p]
    ensures EdgePhase(s, s, k, m) && FieldOf(s, o, f).Some?
  {
    EdgePhaseAgain(n, s, k, m);
    hide Inv, EdgesOnly, MapOk;
    assert FieldReady(s, k, m, p, f) && o in MapsTo(m, p);
  }

  lemma EdgePhaseField(n: Nodes, s: Nodes, k: Nodes, m: ObjectMap, o: nat, f: int, q: nat, t: nat)
    requires EdgePhase(n, s, k, m) && FieldOf(s, o, f).Some? && t in MapsTo(m, q)
    ensures CanAdd(s, FieldOf(s, o, f).value, t) && Usable(s) && Inv(s)
  {
    EdgeCanBeAdded(s, k, m, o, f, q, t);
  }

  lemma HasField(n: Nodes, m: ObjectMap, o: nat, f: int, q: nat, todo: set<nat>)
    requires LinkedFrom(n, m, o, f, q, todo)
    ensures FieldOf(n, o, f).Some?
  {
  }

  // ---------------------------------------------------------------------------------------------
  // The result of the call.
  // ---------------------------------------------------------------------------------------------

  /** Between two links of the result. */
  ghost predicate ResultPhase(n: Nodes, s: Nodes, k: Nodes, m: ObjectMap) {
    Inv(s) && EdgesOnly(n, s) && MapOk(s, k, m)
  }

  ghost predicate LeadsAll(n: Nodes, v: nat, objs: set<nat>, todo: set<nat>) {
    forall t {:trigger Leads(n, v, t)} :: t in objs && t !in todo ==> Leads(n, v, t)
  }

  /** The caller's result node leads to all images of what the callee's result points to. */
  ghost predicate ResultLinkedBut(n: Nodes, m: ObjectMap, v: nat, pts: set<nat>, todo: set<nat>) {
    forall q: nat {:trigger MapsTo(m, q)} :: q in pts && q !in todo ==> LeadsAll(n, v, MapsTo(m, q), {})
  }

  lemma LeadsAllStays(n: Nodes, n': Nodes, v: nat, objs: set<nat>, todo: set<nat>)
    requires EdgesOnly(n, n') && LeadsAll(n, v, objs, todo)
    ensures LeadsAll(n', v, objs, todo)
  {
    hide EdgesOnly, Leads;
    forall t | t in objs && t !in todo
      ensures Leads(n', v, t)
    {
      assert Leads(n, v, t);
      StaysLeading(n, n', v, t);
    }
  }

  lemma ResultStaysLinked(n: Nodes, n': Nodes, m: ObjectMap, v: nat, pts: set<nat>, todo: set<nat>, q: nat)
    requires EdgesOnly(n, n') && ResultLinkedBut(n, m, v, pts, todo) && LeadsAll(n', v, MapsTo(m, q), {})
    ensures ResultLinkedBut(n', m, v, pts, todo - {q})
  {
    hide EdgesOnly, LeadsAll;
    forall p: nat | p in pts && p !in todo - {q}
      ensures LeadsAll(n', v, MapsTo(m, p), {})
    {
      if p != q {
        LeadsAllStays(n, n', v, MapsTo(m, p), {});
      }
    }
  }

  lemma ResultCanBeLinked(n: Nodes, s: Nodes, k: Nodes, m: ObjectMap, v: nat, q: nat, t: nat)
    requires ResultPhase(n, s, k, m) && Live(n, v) && !IsObject(n, v) && t in MapsTo(m, q)
    ensures CanAdd(s, v, t) && Usable(s) && Inv(s)
  {
    InvIsUsable(s);
    assert IsObject(s, t) && Kind(s, v) == Kind(n, v);
  }

  lemma ResultStep(n: Nodes, s: Nodes, s': Nodes, k: Nodes, m: ObjectMap, v: nat, q: nat, t: nat, todo: set<nat>)
    requires ResultPhase(n, s, k, m) && t in MapsTo(m, q) && LeadsAll(s, v, MapsTo(m, q), todo)
    requires Inv(s') && Gained(s, s', v, t)
    ensures ResultPhase(n, s', k, m) && LeadsAll(s', v, MapsTo(m, q), todo - {t})
  {
    assert t in Pts(s, t) by {
      assert IsObject(s, t);
    }
    GainedIsEdgesOnly(s, s', v, t);
    LeadsAllStays(s, s', v, MapsTo(m, q), todo);
    EdgesOnlyTrans(n, s, s');
    MapStaysOk(s, s', k, m);
    hide Inv, Gained, EdgesOnly, MapOk, Leads;
  }

  lemma MapStaysOk(n: Nodes, n': Nodes, k: Nodes, m: ObjectMap)
    requires MapOk(n, k, m) && EdgesOnly(n, n')
    ensures MapOk(n', k, m)
  {
    forall q: nat, o: nat | o in MapsTo(m, q)
      ensures IsObject(n', o) && IsObject(k, q)
    {
      assert Kind(n', o) == Kind(n, o);
    }
  }

  lemma ResultPhaseGoesOn(n: Nodes, s: Nodes, s': Nodes, k: Nodes, m: ObjectMap)
    requires ResultPhase(n, s, k, m) && ResultPhase(s, s', k, m)
    ensures ResultPhase(n, s', k, m) && ResultPhase(s, s, k, m) && EdgesOnly(s, s')
  {
    EdgesOnlyTrans(n, s, s');
    hide Inv, MapOk;
    assert EdgesOnly(s, s);
  }

  lemma ResultPhaseAgain(n: Nodes, s: Nodes, k: Nodes, m: ObjectMap, v: nat)
    requires ResultPhase(n, s, k, m) && Live(n, v) && !IsObject(n, v)
    ensures ResultPhase(s, s, k, m) && Live(s, v) && !IsObject(s, v)
  {
    assert Kind(s, v) == Kind(n, v);
    hide Inv, MapOk;
    assert EdgesOnly(s, s);
  }

  lemma SameMapResult(n: Nodes, s: Nodes, k: Nodes, m: ObjectMap, m': ObjectMap, v: nat, pts: set<nat>, todo: set<nat>)
    requires ResultPhase(n, s, k, m) && ResultLinkedBut(s, m, v, pts, todo)
    requires forall t: nat :: MapsTo(m', t) == MapsTo(m, t)
    ensures ResultPhase(n, s, k, m') && ResultLinkedBut(s, m', v, pts, todo)
  {
    hide Inv, EdgesOnly;
  }

  // ---------------------------------------------------------------------------------------------
  // All phases together.
  // ---------------------------------------------------------------------------------------------

  /** The actual arguments of a call site are argument nodes, and the result's leads to one reference that points
      somewhere. */
  ghost predicate CallSiteOk(n: Nodes, caller: seq<Actual>) {
    && (forall i {:trigger caller[i]} :: 0 <= i < |caller| ==> Kind(n, caller[i].node) == ActualNode)
    && (|caller| > 0 && caller[|caller| - 1].isReturn ==>
          Pts(n, caller[|caller| - 1].node) != {} && exists r: nat ::
            Outs(n, caller[|caller| - 1].node) == {r} && Kind(n, r) == ReferenceNode)
  }

  ghost predicate ResultReady(n: Nodes, caller: seq<Actual>) {
    |caller| > 0 && caller[|caller| - 1].isReturn ==>
      Kind(n, caller[|caller| - 1].node) == ActualNode && exists r: nat ::
        Outs(n, caller[|caller| - 1].node) == {r} && Kind(n, r) == ReferenceNode
  }

  /** The caller's result leads to all images of what the callee's result points to. */
  ghost predicate ResultEmbedded(n: Nodes, n': Nodes, k: Nodes, m: ObjectMap, caller: seq<Actual>,
                                 callee: seq<Actual>) {
    |caller| > 0 && |callee| > 0 && caller[|caller| - 1].isReturn ==>
      forall r: nat {:trigger r in Outs(n, caller[|caller| - 1].node)} :: r in Outs(n, caller[|caller| - 1].node) ==>
        ResultLinkedBut(n', m, r, Pts(k, callee[|callee| - 1].node), {})
  }

  /** Whatever an actual argument pointed to stands for all that the callee's argument points to. */
  ghost predicate ArgsMapped(n: Nodes, k: Nodes, m: ObjectMap, caller: seq<Actual>, callee: seq<Actual>) {
    forall i, q: nat {:trigger q in Pts(k, callee[i].node)} ::
      0 <= i < |caller| && i < |callee| && q in Pts(k, callee[i].node) ==>
        MapsTo(m, q) != {} && Pts(n, caller[i].node) <= MapsTo(m, q)
  }

  lemma CallSiteNodes(n: Nodes, caller: seq<Actual>)
    requires CallSiteOk(n, caller)
    ensures forall i :: 0 <= i < |caller| ==> Live(n, caller[i].node) && !IsObject(n, caller[i].node)
  {
  }

  lemma AfterNodes(n: Nodes, n1: Nodes, k: Nodes, m: ObjectMap, madeFor: map<nat, nat>, caller: seq<Actual>,
                   callee: seq<Actual>)
    requires MergeInv(n1, k, m, {}, |n|, madeFor) && KeysFull(m) && KeepsPoints(n, n1)
        && KeepsNodes(n, n1)
    requires ArgsCovered(n1, k, m, caller, callee, Min(|caller|, |callee|)) && CallSiteOk(n, caller)
    ensures EdgePhase(n1, n1, k, m) && GlobalsMapped(n1, k, m) && ArgsMapped(n, k, m, caller, callee)
    ensures ResultReady(n1, caller) && SameResult(n, n1, caller)
  {
    NodePhaseEnds(n1, k, m, |n|, madeFor);
    ArgsCoveredAreMapped(n, n1, k, m, caller, callee);
    if |caller| > 0 && caller[|caller| - 1].isReturn {
      var r: nat :| Outs(n, caller[|caller| - 1].node) == {r} && Kind(n, r) == ReferenceNode;
      ResultStays(n, n1, caller[|caller| - 1].node, r);
    }
    hide MergeInv, EdgePhase, GlobalsMapped, ArgsMapped;
  }

  ghost predicate SameResult(n: Nodes, n': Nodes, caller: seq<Actual>) {
    |caller| > 0 && caller[|caller| - 1].isReturn ==>
      Outs(n', caller[|caller| - 1].node) == Outs(n, caller[|caller| - 1].node)
  }

  lemma ResultStays(n: Nodes, n1: Nodes, v: nat, r: nat)
    requires KeepsPoints(n, n1) && KeepsNodes(n, n1) && Pts(n, v) != {} && Kind(n, v) == ActualNode
    requires Kind(n, r) == ReferenceNode
    ensures Outs(n1, v) == Outs(n, v) && Kind(n1, v) == ActualNode && Kind(n1, r) == ReferenceNode
  {
  }

  lemma ArgsCoveredAreMapped(n: Nodes, n1: Nodes, k: Nodes, m: ObjectMap, caller: seq<Actual>, callee: seq<Actual>)
    requires KeepsPoints(n, n1) && ArgsCovered(n1, k, m, caller, callee, Min(|caller|, |callee|))
    ensures ArgsMapped(n, k, m, caller, callee)
  {
    forall i, q: nat | 0 <= i < |caller| && i < |callee| && q in Pts(k, callee[i].node)
      ensures MapsTo(m, q) != {} && Pts(n, caller[i].node) <= MapsTo(m, q)
    {
      assert Covers(n1, m, caller[i].node, q);
      assert Pts(n, caller[i].node) != {} ==> Pts(n1, caller[i].node) == Pts(n, caller[i].node);
    }
  }

  lemma AfterEdges(n: Nodes, n1: Nodes, n2: Nodes, k: Nodes, m: ObjectMap, madeFor: map<nat, nat>, caller: seq<Actual>)
    requires EdgePhase(n1, n2, k, m) && ResultReady(n1, caller)
    ensures ResultPhase(n2, n2, k, m) && ResultReady(n2, caller) && SameResult(n1, n2, caller)
  {
    assert EdgesOnly(n2, n2);
    hide Inv, EdgesReady, MapOk;
    if |caller| > 0 && caller[|caller| - 1].isReturn {
      var r: nat :| Outs(n1, caller[|caller| - 1].node) == {r} && Kind(n1, r) == ReferenceNode;
      assert Outs(n2, caller[|caller| - 1].node) == {r} && Kind(n2, r) == ReferenceNode;
      assert Kind(n2, caller[|caller| - 1].node) == ActualNode;
    }
  }

  /** Nodes are only added, and what a node had it keeps. */
  ghost predicate Grows(n: Nodes, n': Nodes) {
    && |n| <= |n'|
    && (forall x: nat {:trigger Kind(n', x)} :: x < |n| ==> Kind(n', x) == Kind(n, x))
    && (forall x: nat {:trigger Status(n', x)} :: Status(n, x) <= Status(n', x))
    && (forall x: nat {:trigger Pts(n', x)} :: Pts(n, x) <= Pts(n', x))
    && (forall x: nat, f {:trigger f in Fields(n', x)} {:trigger f in Fields(n, x)} :: f in Fields(n, x) ==>
          f in Fields(n', x) && Fields(n', x)[f] == Fields(n, x)[f])
  }

  lemma KeptThenGrown(n: Nodes, n1: Nodes, n2: Nodes)
    requires KeepsNodes(n, n1) && KeepsPoints(n, n1) && EdgesOnly(n1, n2)
    ensures Grows(n, n2)
  {
    forall x: nat
      ensures Status(n, x) <= Status(n2, x) && Pts(n, x) <= Pts(n2, x) && (x < |n| ==> Kind(n2, x) == Kind(n, x))
      ensures Fields(n2, x) == Fields(n1, x)
    {
      assert Status(n, x) <= Status(n1, x) <= Status(n2, x);
      assert Pts(n, x) != {} ==> Pts(n1, x) == Pts(n, x);
      assert Pts(n1, x) <= Pts(n2, x);
      assert x < |n| ==> Kind(n1, x) == Kind(n, x);
      assert Kind(n2, x) == Kind(n1, x);
    }
    forall x: nat, f | f in Fields(n, x)
      ensures f in Fields(n2, x) && Fields(n2, x)[f] == Fields(n, x)[f]
    {
      assert f in Fields(n1, x) && Fields(n2, x) == Fields(n1, x);
    }
  }

  lemma EmbeddedAfterResult(n1: Nodes, n2: Nodes, n3: Nodes, k: Nodes, m: ObjectMap, m': ObjectMap)
    requires EdgesOnly(n1, n2) && EdgesOnly(n2, n3) && GlobalsMapped(n1, k, m) && EmbeddedBut(n2, k, m, {})
    requires forall q: nat :: MapsTo(m', q) == MapsTo(m, q)
    ensures Embedded(n3, k, m')
  {
    GlobalsStayMapped(n1, n2, k, m);
    GlobalsStayMapped(n2, n3, k, m);
    StaysEmbedded(n2, n3, k, m, {});
    hide EdgesOnly;
    forall p: nat | MapsTo(m', p) != {}
      ensures ObjectEmbedded(n3, k, m', p)
    {
      assert p in m;
      assert ObjectEmbedded(n3, k, m, p);
      SameMapEmbedded(n3, k, m, m', p);
    }
  }

  lemma SameMapEmbedded(n: Nodes, k: Nodes, m: ObjectMap, m': ObjectMap, p: nat)
    requires ObjectEmbedded(n, k, m, p) && forall q: nat :: MapsTo(m', q) == MapsTo(m, q)
    ensures ObjectEmbedded(n, k, m', p)
  {
    forall f | f in Fields(k, p)
      ensures FieldEmbedded(n, k, m', p, f)
    {
      assert FieldEmbedded(n, k, m, p, f);
      forall q: nat | q in Pts(k, Fields(k, p)[f])
        ensures MapsTo(m', q) != {} && Linked(n, m', p, f, q)
      {
        assert MapsTo(m, q) != {} && Linked(n, m, p, f, q);
      }
    }
  }

  lemma PhantomsAfterResult(n1: Nodes, n2: Nodes, m: ObjectMap, m': ObjectMap, base: nat, madeFor: map<nat, nat>)
    requires Phantoms(n1, m, base, madeFor) && EdgesOnly(n1, n2) && forall q: nat :: MapsTo(m', q) == MapsTo(m, q)
    ensures Phantoms(n2, m', base, madeFor)
  {
    forall o: nat | base <= o && IsObject(n2, o)
      ensures o in madeFor
    {
      assert IsObject(n1, o);
    }
  }

  lemma AfterResult(n: Nodes, n1: Nodes, n2: Nodes, n3: Nodes, k: Nodes, m: ObjectMap, m': ObjectMap,
                    madeFor: map<nat, nat>, caller: seq<Actual>, callee: seq<Actual>)
    requires KeepsNodes(n, n1) && KeepsPoints(n, n1) && MergeInv(n1, k, m, {}, |n|, madeFor)
        && GlobalsMapped(n1, k, m)
    requires EdgePhase(n1, n2, k, m) && EmbeddedBut(n2, k, m, {}) && ResultPhase(n2, n3, k, m')
    requires forall q: nat :: MapsTo(m', q) == MapsTo(m, q)
    requires SameResult(n, n1, caller) && SameResult(n1, n2, caller) && ResultEmbedded(n2, n3, k, m', caller, callee)
    requires ArgsMapped(n, k, m, caller, callee)
    ensures Inv(n3) && Merged(n, n3, Summary(k, callee), m', caller, madeFor)
  {
    hide *;
    PhasesRead(n1, n2, n3, k, m, m');
    MergeInvFacts(n1, k, m, {}, |n|, madeFor);
    EdgesOnlyTrans(n1, n2, n3);
    KeptThenGrown(n, n1, n3);
    EmbeddedAfterResult(n1, n2, n3, k, m, m');
    PhantomsAfterResult(n1, n3, m, m', |n|, madeFor);
    SameMapArgs(n, k, m, m', caller, callee);
    ResultFromStart(n, n1, n2, n3, k, m', caller, callee);
    MergedMade(n, n3, k, m', caller, callee, madeFor);
  }

  lemma PhasesRead(n1: Nodes, n2: Nodes, n3: Nodes, k: Nodes, m: ObjectMap, m': ObjectMap)
    requires EdgePhase(n1, n2, k, m) && ResultPhase(n2, n3, k, m')
    ensures EdgesOnly(n1, n2) && EdgesOnly(n2, n3) && Inv(n3)
  {
    hide EdgesOnly, Inv;
  }

  lemma SameMapArgs(n: Nodes, k: Nodes, m: ObjectMap, m': ObjectMap, caller: seq<Actual>, callee: seq<Actual>)
    requires ArgsMapped(n, k, m, caller, callee) && forall q: nat :: MapsTo(m', q) == MapsTo(m, q)
    ensures ArgsMapped(n, k, m', caller, callee)
  {
  }

  lemma ResultFromStart(n: Nodes, n1: Nodes, n2: Nodes, n3: Nodes, k: Nodes, m: ObjectMap, caller: seq<Actual>,
                        callee: seq<Actual>)
    requires SameResult(n, n1, caller) && SameResult(n1, n2, caller) && ResultEmbedded(n2, n3, k, m, caller, callee)
    ensures ResultEmbedded(n, n3, k, m, caller, callee)
  {
    hide ResultLinkedBut;
  }

  lemma MergedMade(n: Nodes, n': Nodes, k: Nodes, m: ObjectMap, caller: seq<Actual>, callee: seq<Actual>,
                   madeFor: map<nat, nat>)
    requires Grows(n, n') && Embedded(n', k, m) && ArgsMapped(n, k, m, caller, callee)
    requires ResultEmbedded(n, n', k, m, caller, callee) && Phantoms(n', m, |n|, madeFor)
    ensures Merged(n, n', Summary(k, callee), m, caller, madeFor)
  {
    hide Grows, Embedded, ArgsMapped, ResultEmbedded, Phantoms;
  }

  lemma CallSiteStaysOk(n: Nodes, caller: seq<Actual>)
    requires Inv(n) && CallSiteOk(n, caller)
    ensures CallSiteOk(AllTrimmed(n), caller)
  {
    forall i | 0 <= i < |caller|
      ensures Kind(AllTrimmed(n), caller[i].node) == ActualNode
    {
      TrimKeepsActual(n, caller[i].node);
    }
    if |caller| > 0 && caller[|caller| - 1].isReturn {
      var r: nat :| Outs(n, caller[|caller| - 1].node) == {r} && Kind(n, r) == ReferenceNode;
      TrimKeepsResult(n, caller[|caller| - 1].node, r);
    }
  }

  /** A callee's graph and its argument nodes, the result last. */
  datatype Summary = Summary(nodes: Nodes, args: seq<Actual>)

  /** The sizes the source asserts: caller and callee agree on the arguments, and at most one of them lacks the
      result. */
  ghost predicate SizesAgree(caller: seq<Actual>, callee: seq<Actual>) {
    || |caller| == |callee|
    || |caller| == 0 || |callee| == 0
    || (|caller| == |callee| + 1 && !callee[|callee| - 1].isReturn)
    || (|caller| + 1 == |callee| && callee[|callee| - 1].isReturn)
  }

  /** Every object that `v` points to escapes globally. */
  ghost predicate Escapes(n: Nodes, v: nat) {
    forall o :: o in Pts(n, v) ==> Status(n, o) == GLOBAL_ESCAPE
  }

  /** What raising statuses keeps. */
  ghost predicate RaisedOnly(n: Nodes, n': Nodes) {
    SameButStatus(n, n') && forall x: nat {:trigger Status(n', x)} :: Status(n, x) <= Status(n', x)
  }

  lemma RaisedOnlyTrans(a: Nodes, b: Nodes, c: Nodes)
    requires RaisedOnly(a, b) && RaisedOnly(b, c)
    ensures RaisedOnly(a, c)
  {
    SameStatusTrans(a, b, c);
    forall x: nat
      ensures Status(a, x) <= Status(c, x)
    {
      assert Status(a, x) <= Status(b, x);
    }
  }

  /** Some node in `srcs` leads to `x`. */
  ghost predicate LedFrom(n: Nodes, srcs: set<nat>, x: nat) {
    exists o :: o in srcs && Reaches(FlowEdges(n), o, x)
  }

  /** Whatever has been raised now escapes globally, and some node in `srcs` leads to it. */
  ghost predicate RaisedFrom(n: Nodes, n': Nodes, srcs: set<nat>) {
    forall x: nat {:trigger Status(n', x)} ::
      Status(n', x) == Status(n, x) || (Status(n', x) == GLOBAL_ESCAPE && LedFrom(n, srcs, x))
  }

  lemma RaisedFromTrans(a: Nodes, b: Nodes, c: Nodes, srcs: set<nat>, more: set<nat>)
    requires RaisedOnly(a, b) && RaisedFrom(a, b, srcs) && RaisedFrom(b, c, more) && more <= srcs
    ensures RaisedFrom(a, c, srcs)
  {
    SameFlows(a, b);
    hide Reaches;
    forall x: nat
      ensures Status(c, x) == Status(a, x) || (Status(c, x) == GLOBAL_ESCAPE && LedFrom(a, srcs, x))
    {
      assert Status(b, x) == Status(a, x) || (Status(b, x) == GLOBAL_ESCAPE && LedFrom(a, srcs, x));
      if LedFrom(b, more, x) {
        var o :| o in more && Reaches(FlowEdges(b), o, x);
        assert o in srcs;
      }
    }
  }

  lemma SpreadRaisesFrom(s: Nodes, t: Nodes, o: nat)
    requires StatusSpread(s, t, o, GLOBAL_ESCAPE)
    ensures RaisedFrom(s, t, {o})
  {
    hide Reaches;
    forall x: nat
      ensures Status(t, x) == Status(s, x) || (Status(t, x) == GLOBAL_ESCAPE && LedFrom(s, {o}, x))
    {
      assert o in {o};
    }
  }

  /** Everything the arguments point to. */
  ghost function PointeesOf(n: Nodes, args: seq<Actual>): set<nat> {
    set i, o | 0 <= i < |args| && o in Pts(n, args[i].node) :: o
  }

  lemma StaysEscaping(n: Nodes, n': Nodes, v: nat)
    requires RaisedOnly(n, n') && Escapes(n, v)
    ensures Escapes(n', v)
  {
    SameFlows(n, n');
    forall o | o in Pts(n', v)
      ensures Status(n', o) == GLOBAL_ESCAPE
    {
      assert Status(n, o) <= Status(n', o);
    }
  }

  /** Some object that `v` points to escapes globally. */
  ghost predicate HasGlobal(n: Nodes, v: nat) {
    exists o :: o in Pts(n, v) && Status(n, o) == GLOBAL_ESCAPE
  }

  /** The caller's argument `i` is not its result and points to something that escapes globally. */
  ghost predicate Endangered(n: Nodes, args: seq<Actual>, i: nat)
    requires i < |args|
  {
    !(i == |args| - 1 && args[i].isReturn) && HasGlobal(n, args[i].node)
  }

  /** Everything the arguments of an unknown callee point to escapes; once trimmed, they point to the global object
      only. */
  ghost predicate AllEscaped(n: Nodes, n': Nodes, caller: seq<Actual>) {
    && RaisedOnly(n, n') && RaisedFrom(n, n', PointeesOf(n, caller))
    && forall i {:trigger caller[i]} :: 0 <= i < |caller| ==>
         Escapes(n', caller[i].node) && Pts(AllTrimmed(n'), caller[i].node) <= {GLOBAL_OBJ}
  }

  lemma EscapedArguments(n: Nodes, n': Nodes, caller: seq<Actual>)
    requires Inv(n') && RaisedOnly(n, n') && forall i :: 0 <= i < |caller| ==> Escapes(n', caller[i].node)
    requires RaisedFrom(n, n', PointeesOf(n, caller))
    ensures AllEscaped(n, n', caller)
  {
    forall i | 0 <= i < |caller|
      ensures Pts(AllTrimmed(n'), caller[i].node) <= {GLOBAL_OBJ}
    {
      EscapedPointees(n', caller[i].node);
    }
  }

  /** The callee's summary has been embedded into the caller's graph `n`, giving `n'`. */
  ghost predicate Merged(n: Nodes, n': Nodes, callee: Summary, m: ObjectMap, caller: seq<Actual>,
                         madeFor: map<nat, nat>) {
    && Grows(n, n')
    && Embedded(n', callee.nodes, m)
    && ArgsMapped(n, callee.nodes, m, caller, callee.args)
    && ResultEmbedded(n, n', callee.nodes, m, caller, callee.args)
    && Phantoms(n', m, |n|, madeFor)
  }

  /** Between two objects of `v` that are mapped to `q`: those in `rest` are still to come. */
  ghost predicate MappedBut(n: Nodes, m: ObjectMap, s: Nodes, m': ObjectMap, k: Nodes, v: nat, q: nat, rest: set<nat>) {
    && Walked(n, m, s, m', k) && rest <= Pts(n, v) && Pts(s, v) == Pts(n, v) && Pts(n, v) - rest <= MapsTo(m', q)
    && KeysFullBut(m', q) && (rest != Pts(n, v) ==> KeysFull(m'))
  }

  lemma MappedNone(n: Nodes, m: ObjectMap, k: Nodes, v: nat, q: nat)
    requires KeysFullBut(m, q)
    ensures MappedBut(n, m, n, m, k, v, q, Pts(n, v))
  {
    WalkedSelf(n, m, k);
  }

  lemma MappedOneMore(n: Nodes, m: ObjectMap, s: Nodes, m1: ObjectMap, t: Nodes, m2: ObjectMap, k: Nodes, v: nat,
                      q: nat, o: nat, rest: set<nat>)
    requires MappedBut(n, m, s, m1, k, v, q, rest) && o in rest
    requires (t == s && m2 == m1 && o in MapsTo(m1, q))
          || (Walked(s, m1, t, m2, k) && o in MapsTo(m2, q) && KeysFull(m2))
    ensures MappedBut(n, m, t, m2, k, v, q, rest - {o})
  {
    if t == s && m2 == m1 {
      assert o in MapsTo(m1, q) ==> q in m1 && m1[q] != {};
    } else {
      WalkedTrans(n, m, s, m1, t, m2, k);
      WalkedKeeps(s, m1, t, m2, k, v, q, o);
    }
    hide Walked;
  }

  lemma MappedAll(n: Nodes, m: ObjectMap, s: Nodes, m': ObjectMap, k: Nodes, v: nat, q: nat)
    requires MappedBut(n, m, s, m', k, v, q, {}) && Pts(n, v) != {}
    ensures Walked(n, m, s, m', k) && Covers(s, m', v, q) && Pts(s, v) != {} && KeysFull(m')
  {
    hide Walked;
    var o :| o in Pts(n, v);
    assert Pts(n, v) - {} == Pts(n, v);
  }

  /** Between two callee objects that are mapped to what `v` points to: those in `todo` are still to come. */
  ghost predicate CoveredBut(n: Nodes, m: ObjectMap, s: Nodes, m': ObjectMap, k: Nodes, f: nat, v: nat,
                             todo: set<nat>) {
    && Walked(n, m, s, m', k) && todo <= Pts(k, f) && (forall q :: q in Pts(k, f) && q !in todo ==> Covers(s, m', v, q))
    && (todo != Pts(k, f) ==> Pts(s, v) != {})
  }

  lemma CoveredOneMore(n: Nodes, m: ObjectMap, s: Nodes, m1: ObjectMap, t: Nodes, m2: ObjectMap, k: Nodes, f: nat,
                       v: nat, q: nat, todo: set<nat>)
    requires CoveredBut(n, m, s, m1, k, f, v, todo) && q in todo && Walked(s, m1, t, m2, k)
    requires Covers(t, m2, v, q) && Pts(t, v) != {}
    ensures CoveredBut(n, m, t, m2, k, f, v, todo - {q})
  {
    WalkedTrans(n, m, s, m1, t, m2, k);
    hide Walked, Covers;
    forall p | p in Pts(k, f) && p !in todo - {q}
      ensures Covers(t, m2, v, p)
    {
      if p != q {
        StillCovers(s, m1, t, m2, k, v, p);
      }
    }
  }

  lemma MappedFacts(n: Nodes, m: ObjectMap, s: Nodes, m': ObjectMap, k: Nodes, v: nat, q: nat, rest: set<nat>)
    requires MappedBut(n, m, s, m', k, v, q, rest)
    ensures Walked(n, m, s, m', k) && rest <= Pts(s, v) && KeysFullBut(m', q)
  {
    hide Walked, KeysFullBut;
  }

  lemma CoveredStarts(n: Nodes, m: ObjectMap, k: Nodes, f: nat, v: nat)
    ensures CoveredBut(n, m, n, m, k, f, v, Pts(k, f))
  {
    WalkedSelf(n, m, k);
    hide Walked;
  }

  lemma CoveredFacts(n: Nodes, m: ObjectMap, s: Nodes, m': ObjectMap, k: Nodes, f: nat, v: nat, todo: set<nat>, q: nat)
    requires CoveredBut(n, m, s, m', k, f, v, todo) && q in todo && WellKinded(k) && Live(n, v) && !IsObject(n, v)
    ensures Walked(n, m, s, m', k) && IsObject(k, q) && q in Pts(k, f) && Live(s, v) && !IsObject(s, v)
  {
    StaysLive(n, s, v);
    hide Walked;
  }

  lemma CoveredEnds(n: Nodes, m: ObjectMap, s: Nodes, m': ObjectMap, k: Nodes, f: nat, v: nat)
    requires CoveredBut(n, m, s, m', k, f, v, {})
    ensures Walked(n, m, s, m', k) && (forall q :: q in Pts(k, f) ==> Covers(s, m', v, q))
    ensures Pts(k, f) != {} ==> Pts(s, v) != {}
  {
    hide Walked, Covers;
  }

  lemma MergeInvFacts(n: Nodes, k: Nodes, m: ObjectMap, pending: set<(nat, nat)>, base: nat, madeFor: map<nat, nat>)
    requires MergeInv(n, k, m, pending, base, madeFor)
    ensures WellKinded(k) && Inv(n) && MapOk(n, k, m) && AllDone(n, k, m, pending) && Phantoms(n, m, base, madeFor)
  {
    hide WellKinded, Inv, MapOk, AllDone, Phantoms;
  }

  lemma MergeInvMade(n: Nodes, k: Nodes, m: ObjectMap, pending: set<(nat, nat)>, base: nat, madeFor: map<nat, nat>)
    requires WellKinded(k) && Inv(n) && MapOk(n, k, m) && AllDone(n, k, m, pending) && Phantoms(n, m, base, madeFor)
    ensures MergeInv(n, k, m, pending, base, madeFor)
  {
    hide WellKinded, Inv, MapOk, AllDone, Phantoms;
  }

  /** Looking `q` up leaves an empty entry for it behind. */
  ghost function LookedUp(m: ObjectMap, q: nat): ObjectMap {
    if q in m then m else m[q := {}]
  }

  lemma LookedUpMaps(m: ObjectMap, q: nat)
    ensures var m' := LookedUp(m, q);
      && m' == (if q in m then m else m[q := {}]) && m'[q] == MapsTo(m', q)
      && forall t: nat :: MapsTo(m', t) == MapsTo(m, t)
  {
  }

  lemma LookUpKeepsKeys(m: ObjectMap, q: nat)
    requires KeysFull(m)
    ensures var m' := LookedUp(m, q); KeysFullBut(m', q) && (MapsTo(m', q) != {} ==> KeysFull(m'))
  {
  }

  /** A node that points to some of the objects that stand for `q`. */
  lemma LinkedCovers(n: Nodes, m: ObjectMap, v: nat, q: nat)
    requires Pts(n, v) <= MapsTo(m, q) != {}
    ensures Covers(n, m, v, q)
  {
  }

  lemma LiveReads(n: Nodes, v: nat)
    ensures Live(n, v) ==> v < |n| && n[v].eaStatus == Status(n, v)
    ensures IsObject(n, v) ==> Live(n, v)
  {
  }

  /** A mapped pair consists of two objects. */
  lemma ImageReads(n: Nodes, k: Nodes, m: ObjectMap, o: nat, q: nat)
    requires MapOk(n, k, m) && o in MapsTo(m, q)
    ensures IsObject(n, o) && o < |n| && IsObject(k, q) && q < |k| && k[q].eaStatus == Status(k, q)
  {
  }

  lemma FieldMade(n: Nodes, f: int, o: nat)
    requires IsObject(n, o) && FieldOf(n, o, f) == None
    ensures var st, n' := Status(n, o), FieldCreated(n, Status(n, o), f, o);
      FieldOf(n', o, f) == Some(|n|) && OneMore(n, n', FieldNode, st, f, o)
  {
    FieldIsOneMore(n, Status(n, o), f, o);
  }

  lemma FieldFound(n: Nodes, o: nat, f: int, v: nat)
    requires Inv(n) && FieldOf(n, o, f) == Some(v)
    ensures Live(n, v) && !IsObject(n, v)
  {
    FieldOfIsField(n, o, f);
  }

  lemma RaisedToGlobal(n: Nodes, n': Nodes, o: nat)
    requires StatusSpread(n, n', o, GLOBAL_ESCAPE)
    ensures Status(n', o) == GLOBAL_ESCAPE
  {
  }

  lemma NoArgCovered(n: Nodes, k: Nodes, m: ObjectMap, caller: seq<Actual>, callee: seq<Actual>)
    ensures ArgsCovered(n, k, m, caller, callee, 0)
  {
  }

  lemma RecordedMaps(m: ObjectMap, m': ObjectMap, o: nat, q: nat)
    requires Recorded(m, m', o, q)
    ensures o in MapsTo(m', q)
  {
  }

  lemma MinBounds(a: nat, b: nat)
    ensures Min(a, b) <= a && Min(a, b) <= b
  {
  }

  lemma WalkedReads(n: Nodes, m: ObjectMap, n': Nodes, m': ObjectMap, k: Nodes)
    requires Walked(n, m, n', m', k)
    ensures KeepsNodes(n, n') && KeepsPoints(n, n') && MapGrows(m, m')
  {
    hide KeepsNodes, KeepsPoints, MapGrows;
  }

  lemma WalkedStaysLive(n: Nodes, m: ObjectMap, n': Nodes, m': ObjectMap, k: Nodes, v: nat)
    requires Walked(n, m, n', m', k) && Live(n, v) && !IsObject(n, v)
    ensures Live(n', v) && !IsObject(n', v)
  {
    WalkedReads(n, m, n', m', k);
    StaysLive(n, n', v);
  }

  lemma NothingEmbedded(n: Nodes, k: Nodes, m: ObjectMap)
    ensures EmbeddedBut(n, k, m, m.Keys)
  {
  }

  lemma ObjectStep(n: Nodes, s: Nodes, s': Nodes, k: Nodes, m: ObjectMap, todo: set<nat>, p: nat)
    requires EdgePhase(n, s, k, m) && EdgePhase(s, s', k, m) && EmbeddedBut(s, k, m, todo)
    requires ObjectEmbeddedBut(s', k, m, p, {})
    ensures EdgePhase(n, s', k, m) && EmbeddedBut(s', k, m, todo - {p})
  {
    EdgePhaseGoesOn(n, s, s', k, m);
    StaysEmbedded(s, s', k, m, todo);
    hide EdgePhase, ObjectEmbeddedBut;
  }

  lemma NoFieldEmbedded(n: Nodes, k: Nodes, m: ObjectMap, p: nat, todo: set<int>)
    requires forall f :: f in Fields(k, p) ==> f in todo
    ensures ObjectEmbeddedBut(n, k, m, p, todo)
  {
  }

  lemma FieldStep(n: Nodes, s: Nodes, s': Nodes, k: Nodes, m: ObjectMap, p: nat, todo: set<int>, f: int)
    requires EdgePhase(n, s, k, m) && EdgePhase(s, s', k, m) && ObjectEmbeddedBut(s, k, m, p, todo)
    requires FieldEmbeddedBut(s', k, m, p, f, {})
    ensures EdgePhase(n, s', k, m) && ObjectEmbeddedBut(s', k, m, p, todo - {f})
  {
    EdgePhaseGoesOn(n, s, s', k, m);
    ObjectStaysEmbedded(s, s', k, m, p, todo);
    hide EdgePhase, FieldEmbeddedBut;
  }

  lemma NoPointeeEmbedded(n: Nodes, k: Nodes, m: ObjectMap, p: nat, f: int)
    requires f in Fields(k, p)
    ensures FieldEmbeddedBut(n, k, m, p, f, Pts(k, Fields(k, p)[f]))
  {
  }

  lemma PointeesMapped(n: Nodes, k: Nodes, m: ObjectMap, p: nat, f: int, q: nat)
    requires EdgePhase(n, n, k, m) && p in m && f in Fields(k, p) && q in Pts(k, Fields(k, p)[f])
    ensures q in m && m[q] != {} && MapsTo(m, q) == m[q] && MapsTo(m, p) == m[p]
  {
    assert FieldReady(n, k, m, p, f);
  }

  lemma PointeeStep(n: Nodes, s: Nodes, s': Nodes, k: Nodes, m: ObjectMap, p: nat, f: int, todo: set<nat>, q: nat)
    requires EdgePhase(n, s, k, m) && EdgePhase(s, s', k, m) && FieldEmbeddedBut(s, k, m, p, f, todo)
    requires p in m && f in Fields(k, p) && q in Pts(k, Fields(k, p)[f]) && Linked(s', m, p, f, q)
    ensures EdgePhase(n, s', k, m) && FieldEmbeddedBut(s', k, m, p, f, todo - {q})
  {
    EdgePhaseGoesOn(n, s, s', k, m);
    EdgePhaseAgain(n, s', k, m);
    PointeesMapped(s', k, m, p, f, q);
    FieldStaysEmbedded(s, s', k, m, p, f, todo);
    hide EdgePhase, Linked;
  }

  lemma NothingLinked(n: Nodes, m: ObjectMap, p: nat, f: int, q: nat)
    ensures LinkedBut(n, m, p, f, q, MapsTo(m, p))
  {
  }

  lemma NothingLinkedFrom(n: Nodes, m: ObjectMap, o: nat, f: int, q: nat)
    requires FieldOf(n, o, f).Some?
    ensures LinkedFrom(n, m, o, f, q, MapsTo(m, q))
  {
  }

  lemma NoResultLinked(n: Nodes, m: ObjectMap, v: nat, pts: set<nat>)
    ensures ResultLinkedBut(n, m, v, pts, pts)
  {
  }

  lemma NoneLed(n: Nodes, v: nat, objs: set<nat>)
    ensures LeadsAll(n, v, objs, objs)
  {
  }

  lemma AlreadyLed(n: Nodes, v: nat, objs: set<nat>, todo: set<nat>, o: nat)
    requires LeadsAll(n, v, objs, todo) && o in Pts(n, v)
    ensures LeadsAll(n, v, objs, todo - {o})
  {
  }

  lemma NoResult(n: Nodes, k: Nodes, m: ObjectMap, caller: seq<Actual>, callee: seq<Actual>)
    requires |caller| > 0 && !caller[|caller| - 1].isReturn
    ensures ResultEmbedded(n, n, k, m, caller, callee)
  {
  }

  /** The one node that the actual node of the result leads to. */
  lemma TheResult(n: Nodes, caller: seq<Actual>) returns (r: nat)
    requires ResultReady(n, caller) && |caller| > 0 && caller[|caller| - 1].isReturn
    ensures var v := caller[|caller| - 1].node; v < |n| && n[v].outs == Outs(n, v) == {r}
    ensures Live(n, r) && !IsObject(n, r)
  {
    r :| Outs(n, caller[|caller| - 1].node) == {r} && Kind(n, r) == ReferenceNode;
  }

  lemma ResultIsEmbedded(n: Nodes, n': Nodes, k: Nodes, m: ObjectMap, caller: seq<Actual>, callee: seq<Actual>, r: nat)
    requires |caller| > 0 && |callee| > 0 && Outs(n, caller[|caller| - 1].node) == {r}
    requires ResultLinkedBut(n', m, r, Pts(k, callee[|callee| - 1].node), {})
    ensures ResultEmbedded(n, n', k, m, caller, callee)
  {
    hide ResultLinkedBut;
  }

  /** The arguments of this callee that the caller's graph `g` endangers escape, up to the first `count`. */
  ghost predicate EndangeredEscape(g: Nodes, caller: seq<Actual>, callee: seq<Actual>, n: Nodes, count: nat) {
    forall i {:trigger callee[i]} :: 0 <= i < count && i < |caller| && i < |callee| && Endangered(g, caller, i) ==>
      Escapes(n, callee[i].node)
  }

  /** What the endangered arguments of this callee point to. */
  ghost function EndangeredPointees(g: Nodes, caller: seq<Actual>, callee: seq<Actual>, n: Nodes): set<nat> {
    set i, o | 0 <= i < |caller| && i < |callee| && Endangered(g, caller, i) && o in Pts(n, callee[i].node) :: o
  }

  lemma NoneEndangered(g: Nodes, caller: seq<Actual>, callee: seq<Actual>, n: Nodes)
    ensures EndangeredEscape(g, caller, callee, n, 0)
  {
  }

  lemma NextEndangered(g: Nodes, caller: seq<Actual>, callee: seq<Actual>, n: Nodes, n': Nodes, i: nat)
    requires EndangeredEscape(g, caller, callee, n, i) && RaisedOnly(n, n') && i < |caller|
    requires (i == |caller| - 1 && caller[i].isReturn) || !HasGlobal(g, caller[i].node)
          || (i < |callee| && Escapes(n', callee[i].node))
    ensures EndangeredEscape(g, caller, callee, n', i + 1)
  {
    hide Escapes, RaisedOnly, HasGlobal;
    forall j | 0 <= j < i + 1 && j < |caller| && j < |callee| && Endangered(g, caller, j)
      ensures Escapes(n', callee[j].node)
    {
      if j < i {
        StaysEscaping(n, n', callee[j].node);
      }
    }
  }
}
