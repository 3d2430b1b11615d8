/** The escape-analysis connection graph: creation of nodes, propagation of points-to objects and of escape status. */
module EscapeGraph {
  import opened EscapeNodes
  import opened EscapeSpread
  import opened EscapeSteps
  import opened EscapeCreate
  import opened EscapeAddOut
  import opened EscapeMerge
  import opened EscapeBlame
  import opened EscapeTrim
  import opened EscapeTrimmed
  import opened EscapeRuns
  import opened Wrappers
  import opened FiniteSets

  /** What the propagation of points-to objects has not handed out yet. */
  ghost function MissingPoints(n: Nodes): set<(nat, nat)> {
    set x: nat, o: nat | x < |n| && o < |n| && o !in Pts(n, x) :: (x, o)
  }

  lemma SpreadShrinksMissing(n: Nodes, n': Nodes, v: nat, o: nat)
    requires SameButPoints(n, n') && PointsGrow(n, n')
    requires v < |n| && o < |n| && o !in Pts(n, v) && o in Pts(n', v)
    ensures |MissingPoints(n')| < |MissingPoints(n)|
  {
    var a, b := MissingPoints(n'), MissingPoints(n);
    forall t | t in a
      ensures t in b
    {
      assert Pts(n, t.0) <= Pts(n', t.0);
    }
    assert (v, o) in b && (v, o) !in a;
    SmallerSet(a, b, (v, o));
  }

  /** The status levels a node has not reached yet. */
  ghost function MissingLevels(n: Nodes): set<(nat, nat)> {
    set x: nat, l: nat | x < |n| && l <= 3 && Status(n, x) < l :: (x, l)
  }

  lemma RaiseShrinksMissing(n: Nodes, n': Nodes, v: nat)
    requires |n'| == |n| && (forall x: nat :: Status(n, x) <= Status(n', x))
    requires v < |n| && Status(n, v) < Status(n', v)
    ensures |MissingLevels(n')| < |MissingLevels(n)|
  {
    var a, b := MissingLevels(n'), MissingLevels(n);
    forall t | t in a
      ensures t in b
    {
      assert Status(n, t.0) <= Status(n', t.0);
    }
    assert (v, Status(n', v)) in b && (v, Status(n', v)) !in a;
    SmallerSet(a, b, (v, Status(n', v)));
  }

  lemma RaisedIsUsable(n: Nodes, m: Nodes, w: nat, st: EAStatus)
    requires Usable(n) && StatusSpread(n, m, w, st)
    ensures Usable(m)
  {
    SameFlows(n, m);
  }

  lemma EdgeAddedIsUsable(n: Nodes, v: nat, w: nat)
    requires Usable(n) && v < |n| && w < |n| && !IsObject(n, v)
    ensures PredsOk(EdgeAdded(n, v, w)) && PointsInside(EdgeAdded(n, v, w))
  {
    EdgeAddedReads(n, v, w);
  }

  lemma SpreadStaysInside(n: Nodes, n': Nodes, v: nat, c: set<nat>)
    requires PointsInside(n) && SameButPoints(n, n') && PointsJustified(n, n', v, c) && forall o :: o in c ==> o < |n|
    ensures PointsInside(n')
  {
    forall x: nat, o: nat | o in Pts(n', x)
      ensures o < |n'|
    {
      assert FromReached(n, v, c, x, o);
    }
  }

  lemma RaisedMonotone(n: Nodes, n': Nodes, v: nat, st: EAStatus, todo: set<nat>)
    requires StatusSpreadBut(n, n', v, st, todo)
    ensures forall x: nat :: Status(n, x) <= Status(n', x)
  {
    forall x: nat
      ensures Status(n, x) <= Status(n', x)
    {
      assert Status(n', x) == Status(n, x) || Status(n', x) == st;
    }
  }

  /** The propagation from `v` is under way: the graph was `n`, and the predecessors in `todo` are still to be
      served. */
  ghost predicate Spreading(n: Nodes, s: Nodes, v: nat, c: set<nat>, todo: set<nat>) {
    && SpreadBut(n, s, v, c, todo) && todo <= Ins(n, v) && PredsOk(n) && PointsInside(s) && v < |n|
    && |MissingPoints(s)| < |MissingPoints(n)|
  }

  lemma GrownReads(n: Nodes, v: nat, c: set<nat>)
    requires v < |n| && PointsInside(n) && forall o :: o in c ==> o < |n|
    ensures Grown(n, v, c) == n[v := n[v].(pointsTo := n[v].pointsTo + c)]
    ensures Pts(Grown(n, v, c), v) == Pts(n, v) + c == n[v].pointsTo + c
    ensures forall o :: o in Pts(n, v) + c ==> o < |n|
  {
  }

  lemma SpreadingStarts(n: Nodes, v: nat, c: set<nat>)
    requires v < |n| && PredsOk(n) && PointsInside(n) && !(c <= Pts(n, v)) && forall o :: o in c ==> o < |n|
    ensures var s := Registered(Grown(n, v, c), v, Pts(n, v) + c);
      Spreading(n, s, v, c, Ins(n, v)) && Ins(s, v) == Ins(n, v)
  {
    GrownReads(n, v, c);
    SpreadStarts(n, v, c);
    var s := Registered(Grown(n, v, c), v, Pts(n, v) + c);
    SameEdges(n, s);
    SpreadStaysInside(n, s, v, c);
    var missing: nat :| missing in c && missing !in Pts(n, v);
    SpreadShrinksMissing(n, s, v, missing);
  }

  /** The next predecessor may be served. */
  lemma SpreadingOn(n: Nodes, s: Nodes, v: nat, c: set<nat>, todo: set<nat>, u: nat)
    requires Spreading(n, s, v, c, todo) && u in todo
    ensures u < |s| && !IsObject(s, u) && PredsOk(s) && PointsInside(s) && v < |s| && u in Ins(n, v)
    ensures (forall o :: o in Pts(s, v) ==> o < |s|) && |MissingPoints(s)| < |MissingPoints(n)|
  {
    SameEdges(n, s);
    assert u in Ins(n, v);
  }

  lemma SpreadingNext(n: Nodes, s: Nodes, t: Nodes, v: nat, c: set<nat>, todo: set<nat>, u: nat)
    requires Spreading(n, s, v, c, todo) && u in todo && Spread(s, t, u, Pts(s, v))
    ensures Spreading(n, t, v, c, todo - {u})
  {
    SpreadingOn(n, s, v, c, todo, u);
    ServePred(n, s, t, v, c, todo, u);
    SpreadStaysInside(s, t, u, Pts(s, v));
    MissingStays(s, t);
  }

  lemma MissingStays(n: Nodes, n': Nodes)
    requires SameButPoints(n, n') && PointsGrow(n, n')
    ensures |MissingPoints(n')| <= |MissingPoints(n)|
  {
    forall t | t in MissingPoints(n')
      ensures t in MissingPoints(n)
    {
      assert Pts(n, t.0) <= Pts(n', t.0);
    }
    SetIsBounded(MissingPoints(n'), MissingPoints(n));
  }

  lemma SpreadingEnds(n: Nodes, s: Nodes, v: nat, c: set<nat>)
    requires Spreading(n, s, v, c, {})
    ensures Spread(n, s, v, c)
  {
  }

  /** The raising of `v` to `st` is under way: the graph was `n`, and the successors in `todo` are still to be
      served. */
  ghost predicate Raising(n: Nodes, s: Nodes, v: nat, st: EAStatus, todo: set<nat>) {
    && StatusSpreadBut(n, s, v, st, todo) && todo <= FlowsTo(n, v) && FlowsInside(n) && v < |n|
    && Status(n, v) < st == Status(s, v) && |MissingLevels(s)| < |MissingLevels(n)|
  }

  /** What a status is handed on to, in terms of the node's own sets. */
  lemma FlowsRead(n: Nodes, v: nat)
    requires v < |n|
    ensures FlowsTo(n, v) == if n[v].kind == ObjectNode then set f | f in n[v].fieldNodes :: n[v].fieldNodes[f]
                             else n[v].outs
  {
    var fields := n[v].fieldNodes;
    assert Fields(n, v) == fields;
    assert (set f | f in Fields(n, v) :: Fields(n, v)[f]) == set f | f in fields :: fields[f];
  }

  lemma RaisingStarts(n: Nodes, v: nat, st: EAStatus)
    requires v < |n| && FlowsInside(n) && Status(n, v) < st
    ensures var s := n[v := n[v].(eaStatus := st)];
      Raising(n, s, v, st, FlowsTo(n, v)) && FlowsTo(s, v) == FlowsTo(n, v)
  {
    var s := n[v := n[v].(eaStatus := st)];
    RaiseStarts(n, v, st);
    RaisedMonotone(n, s, v, st, FlowsTo(n, v));
    RaiseShrinksMissing(n, s, v);
    SameFlows(n, s);
  }

  lemma RaisingOn(n: Nodes, s: Nodes, v: nat, st: EAStatus, todo: set<nat>, w: nat)
    requires Raising(n, s, v, st, todo) && w in todo
    ensures v < |s| && s[v].eaStatus == st && w < |s| && FlowsInside(s)
    ensures |MissingLevels(s)| < |MissingLevels(n)|
  {
    SameFlows(n, s);
    assert w in FlowsTo(n, v);
  }

  lemma RaisingNext(n: Nodes, s: Nodes, t: Nodes, v: nat, st: EAStatus, todo: set<nat>, w: nat)
    requires Raising(n, s, v, st, todo) && w in todo && StatusSpread(s, t, w, st)
    ensures Raising(n, t, v, st, todo - {w})
  {
    assert w in FlowsTo(n, v);
    ServeSucc(n, s, t, v, st, todo, w);
    RaisedMonotone(n, t, v, st, todo - {w});
    RaiseShrinksMissing(n, t, v);
  }

  lemma RaisingEnds(n: Nodes, s: Nodes, v: nat, st: EAStatus)
    requires Raising(n, s, v, st, {})
    ensures StatusSpread(n, s, v, st)
  {
  }

  lemma CanAddReads(n: Nodes, v: nat, w: nat)
    requires CanAdd(n, v, w) && Usable(n)
    ensures v < |n| && w < |n| && !IsObject(n, v) && FlowsInside(n)
    ensures n[v].outs == Outs(n, v) && n[v].eaStatus == Status(n, v) && n[v].pointsTo == Pts(n, v)
    ensures Status(n, w) == n[w].eaStatus && Pts(n, w) == n[w].pointsTo
    ensures Absorbed(n, v) <==> n[v].eaStatus == GLOBAL_ESCAPE && n[v].pointsTo != {}
  {
  }

  /** After `w` has received the status of `v`. */
  lemma AfterRaise(n: Nodes, m: Nodes, v: nat, w: nat)
    requires CanAdd(n, v, w) && Usable(n) && StatusSpread(n, m, w, Status(n, v))
    ensures v < |m| && w < |m| && !IsObject(m, v) && Usable(m)
    ensures m[v].eaStatus == Status(n, v) && m[v].pointsTo == Pts(n, v) && m[w].pointsTo == Pts(n, w)
    ensures Pts(m, v) == Pts(n, v) && Pts(m, w) == Pts(n, w)
    ensures Absorbed(n, v) ==> OutNodeVia(n, m, m, v, w)
  {
    SameFlows(n, m);
    RaisedIsUsable(n, m, w, Status(n, v));
    assert Status(m, v) == Status(n, v);
  }

  lemma EdgeAddedOn(m: Nodes, v: nat, w: nat)
    requires Usable(m) && v < |m| && w < |m| && !IsObject(m, v)
    ensures var g := EdgeAdded(m, v, w);
      && |g| == |m| && PredsOk(g) && PointsInside(g) && !IsObject(g, v) && g[w].pointsTo == Pts(m, w)
      && Pts(g, v) == Pts(m, v) && (forall o :: o in Pts(m, w) ==> o < |g|)
    ensures var a := m[v := m[v].(outs := m[v].outs + {w})];
      EdgeAdded(m, v, w) == a[w := a[w].(ins := a[w].ins + {v})]
  {
    EdgeAddedReads(m, v, w);
    EdgeAddedIsUsable(m, v, w);
  }

  lemma AddedVia(n: Nodes, m: Nodes, n': Nodes, v: nat, w: nat)
    requires v < |m| && w < |m| && StatusSpread(n, m, w, Status(n, v)) && !Absorbed(n, v)
    requires Spread(EdgeAdded(m, v, w), n', v, Pts(m, w))
    ensures OutNodeVia(n, m, n', v, w)
  {
    hide StatusSpread, Spread;
  }

  lemma AddedKnown(n: Nodes, v: nat, w: nat)
    requires w in Outs(n, v)
    ensures OutNodeAdded(n, n, v, w)
  {
  }

  lemma AddedByVia(n: Nodes, m: Nodes, n': Nodes, v: nat, w: nat)
    requires w !in Outs(n, v) && OutNodeVia(n, m, n', v, w)
    ensures OutNodeAdded(n, n', v, w)
  {
    hide OutNodeVia;
  }

  /** A new edge, and only that, changes the `out` edges of `v`. */
  lemma ViaChanges(n: Nodes, m: Nodes, n': Nodes, v: nat, w: nat)
    requires w !in Outs(n, v) && OutNodeVia(n, m, n', v, w) && !Absorbed(n, v) && v < |n|
    ensures n' != n
  {
    EdgeAddedReads(m, v, w);
    SameEdges(EdgeAdded(m, v, w), n');
    assert w in Outs(n', v);
  }

  lemma RaiseChanges(n: Nodes, m: Nodes, w: nat, st: EAStatus)
    requires StatusSpread(n, m, w, st) && Status(n, w) < st
    ensures m != n
  {
  }

  /** Every successor of a node already has at least its status. */
  lemma AlreadyHandedOn(n: Nodes, v: nat, w: nat)
    requires Inv(n) && (w in FlowsTo(n, v) || w in Pts(n, v))
    ensures w < |n| && v < |n| && Status(n, v) <= Status(n, w) && n[v].eaStatus == Status(n, v)
  {
    InvGivesPreds(n);
    if w in Pts(n, v) {
      StatusToPointee(n, v, w);
    }
  }

  lemma TurnReads(n: Nodes, k: nat)
    requires Inv(n) && k < |n|
    ensures var t := Trimmed(n, k); |t| == |n| && t[k].kind == Kind(n, k) && t[k].eaStatus == Status(n, k)
    ensures IsGlobal(k) <==> k <= GLOBAL_FIELD
  {
    TurnOf(n, k);
    hide Trimmed, Inv;
  }

  lemma TrimmedSize(n: Nodes, k: nat)
    ensures |Trimmed(n, k)| == |n|
  {
  }

  lemma TrimmedToEnd(n: Nodes)
    ensures AllTrimmed(n) == Trimmed(n, |n|)
  {
  }

  /** What `v` points to is being made to escape globally: the graph was `n`, the objects in `todo` are to come. */
  ghost predicate Escaping(n: Nodes, s: Nodes, v: nat, todo: set<nat>) {
    && Inv(n) && Inv(s) && RaisedOnly(n, s) && RaisedFrom(n, s, Pts(n, v)) && todo <= Pts(n, v)
    && forall o :: o in Pts(n, v) && o !in todo ==> Status(s, o) == GLOBAL_ESCAPE
  }

  lemma RaisedOnlySelf(n: Nodes)
    ensures RaisedOnly(n, n) && forall srcs :: RaisedFrom(n, n, srcs)
  {
  }

  lemma EscapingStarts(n: Nodes, v: nat)
    requires Inv(n)
    ensures Escaping(n, n, v, Pts(n, v))
  {
    RaisedOnlySelf(n);
    hide Inv, RaisedOnly;
  }

  lemma EscapingOn(n: Nodes, s: Nodes, v: nat, todo: set<nat>, o: nat)
    requires Escaping(n, s, v, todo) && o in todo
    ensures o < |s| && FlowsInside(s)
  {
    InvGivesPreds(s);
    PointeeIsObject(n, v, o);
    hide Inv;
  }

  lemma RaiseMonotone(s: Nodes, t: Nodes, o: nat, st: EAStatus)
    requires Inv(s) && StatusSpread(s, t, o, st)
    ensures forall x: nat :: Status(s, x) <= Status(t, x)
  {
    RaiseKeepsFlows(s, t, o, st);
  }

  lemma EscapingNext(n: Nodes, s: Nodes, t: Nodes, v: nat, todo: set<nat>, o: nat)
    requires Escaping(n, s, v, todo) && o in todo && StatusSpread(s, t, o, GLOBAL_ESCAPE)
    ensures Escaping(n, t, v, todo - {o})
  {
    hide Inv, StatusSpread, RaisedFrom, RaisedOnly;
    RaiseKeepsInv(s, t, o, GLOBAL_ESCAPE);
    RaiseMonotone(s, t, o, GLOBAL_ESCAPE);
    RaisedToGlobal(s, t, o);
    SpreadRaisesOnly(s, t, o, GLOBAL_ESCAPE);
    RaisedOnlyTrans(n, s, t);
    SpreadRaisesFrom(s, t, o);
    RaisedFromTrans(n, s, t, Pts(n, v), {o});
    assert forall p: nat :: Status(s, p) <= Status(t, p);
  }

  lemma SpreadRaisesOnly(s: Nodes, t: Nodes, o: nat, st: EAStatus)
    requires StatusSpread(s, t, o, st) && forall x: nat :: Status(s, x) <= Status(t, x)
    ensures RaisedOnly(s, t)
  {
    hide SameButStatus, RaisedTo, StatusHandedOn;
  }

  lemma EscapingChanges(n: Nodes, s: Nodes, t: Nodes, v: nat, todo: set<nat>, o: nat)
    requires Escaping(n, s, v, todo) && StatusSpread(s, t, o, GLOBAL_ESCAPE)
    requires t == s || Status(s, o) < GLOBAL_ESCAPE
    ensures t != n <==> s != n || Status(s, o) < GLOBAL_ESCAPE
  {
    RaiseMonotone(s, t, o, GLOBAL_ESCAPE);
    if s != n {
      OtherStaysOther(n, s, t);
    }
  }

  lemma OthersStayOther(n: Nodes, s: Nodes, t: Nodes)
    requires RaisedOnly(n, s) && RaisedOnly(s, t)
    ensures t != n <==> s != n || t != s
  {
    if s != n {
      OtherStaysOther(n, s, t);
    }
  }

  /** A raised status stays raised. */
  lemma OtherStaysOther(n: Nodes, s: Nodes, t: Nodes)
    requires RaisedOnly(n, s) && s != n && forall x: nat :: Status(s, x) <= Status(t, x)
    ensures t != n
  {
    var x: nat :| x < |n| && s[x] != n[x];
    assert Status(n, x) < Status(s, x) <= Status(t, x);
  }

  lemma EscapingEnds(n: Nodes, s: Nodes, v: nat)
    requires Escaping(n, s, v, {})
    ensures Inv(s) && RaisedOnly(n, s) && RaisedFrom(n, s, Pts(n, v)) && Escapes(s, v)
  {
    SameFlows(n, s);
    hide Inv;
  }

  lemma PointeesRead(n: Nodes, s: Nodes, args: seq<Actual>, i: nat)
    requires RaisedOnly(n, s) && i < |args|
    ensures Pts(s, args[i].node) <= PointeesOf(n, args)
  {
    SameFlows(n, s);
  }

  lemma EndangeredRead(g: Nodes, caller: seq<Actual>, callee: seq<Actual>, n: Nodes, s: Nodes, i: nat)
    requires RaisedOnly(n, s) && i < |caller| && i < |callee| && HasGlobal(g, caller[i].node)
    requires !(i == |caller| - 1 && caller[i].isReturn)
    ensures Pts(s, callee[i].node) <= EndangeredPointees(g, caller, callee, n)
  {
    SameFlows(n, s);
    assert Endangered(g, caller, i);
  }

  lemma ObjectMade(n: Nodes, st: EAStatus)
    ensures var n' := ObjectCreated(n, st);
      && n' == n + [Node(ObjectNode, st, {}, {}, {|n|}, {|n|}, map[], {})] && Builds(n, NewObject(st), n')
      && (Inv(n) ==> Inv(n')) && (Inv(n) && Exact(n) ==> Exact(n'))
  {
    ObjectIsOneMore(n, st);
    if Inv(n) {
      CreateKeeps(n, ObjectCreated(n, st), ObjectNode, st, 0, 0);
    }
    hide Inv, Exact;
  }

  lemma LocalMade(n: Nodes, kind: NodeKind, st: EAStatus)
    requires kind == ReferenceNode || kind == ActualNode
    ensures var n' := LocalCreated(n, kind, st);
      && n' == n + [Node(kind, st, {}, {}, {}, {}, map[], {})] && Builds(n, NewLocal(kind, st), n')
      && (Inv(n) ==> Inv(n')) && (Inv(n) && Exact(n) ==> Exact(n'))
  {
    LocalIsOneMore(n, kind, st);
    if Inv(n) {
      CreateKeeps(n, LocalCreated(n, kind, st), kind, st, 0, 0);
    }
    hide Inv, Exact;
  }

  lemma NewFieldMade(n: Nodes, st: EAStatus, fid: int, owner: nat)
    requires IsObject(n, owner) && Status(n, owner) <= st && FieldOf(n, owner, fid) == None
    ensures owner < |n|
    ensures var n' := FieldCreated(n, st, fid, owner);
      && n' == n[owner := n[owner].(fieldNodes := n[owner].fieldNodes[fid := |n|])]
               + [Node(FieldNode, st, {}, {}, {}, {}, map[], {owner})]
      && Builds(n, NewField(st, fid, owner), n') && (Inv(n) ==> Inv(n')) && (Inv(n) && Exact(n) ==> Exact(n'))
  {
    FieldIsOneMore(n, st, fid, owner);
    if Inv(n) {
      CreateKeeps(n, FieldCreated(n, st, fid, owner), FieldNode, st, fid, owner);
    }
    hide Inv, Exact;
  }

  lemma OutIsBuilt(n: Nodes, n': Nodes, v: nat, w: nat)
    requires CanAdd(n, v, w) && OutNodeAdded(n, n', v, w)
    ensures Builds(n, NewOut(v, w), n')
  {
    hide CanAdd, OutNodeAdded;
  }

  lemma RaiseIsBuilt(n: Nodes, n': Nodes, v: nat, st: EAStatus)
    requires v < |n| && StatusSpread(n, n', v, st)
    ensures Builds(n, Raise(v, st), n')
  {
    hide StatusSpread;
  }

  lemma TrimIsBuilt(n: Nodes)
    ensures Builds(n, Trim, AllTrimmed(n))
  {
    hide AllTrimmed;
  }

  class EAConnectionGraph {
    var nodes: Nodes
    var hasUpdated: bool
    /** While a callee's graph is embedded: the caller objects that stand for its objects. */
    var callee2Caller: ObjectMap
    /** All graphs so far, from the one with the global nodes on, that the elementary operations have built. */
    ghost var trace: seq<Nodes>
    /** The callee object each new phantom object was made for. */
    ghost var madeFor: map<nat, nat>
    /** While a callee's graph is embedded: the graph before, which nodes play the parts of which of its nodes, and the
        links it has asked for so far. */
    ghost var start: Nodes
    ghost var roots: set<(nat, nat)>
    ghost var asked: set<(nat, nat)>

    /** Hands the objects `c` to `v` and on to everything that leads to `v`. */
    method UpdatePointsTo(v: nat, c: set<nat>) returns (changed: bool)
      requires v < |nodes| && !IsObject(nodes, v) && PredsOk(nodes) && PointsInside(nodes)
      requires forall o :: o in c ==> o < |nodes|
      modifies this`nodes
      ensures Spread(old(nodes), nodes, v, c)
      ensures changed <==> !(c <= Pts(old(nodes), v))
      decreases |MissingPoints(nodes)|
    {
      hide *;
      ghost var n := nodes;
      if c <= Pts(nodes, v) {
        NothingNew(nodes, v, c);
        return false;
      }
      GrownReads(n, v, c);
      SpreadingStarts(n, v, c);
      nodes := nodes[v := nodes[v].(pointsTo := nodes[v].pointsTo + c)];
      InsertToPointsBy(v);
      var todo := Ins(nodes, v);
      while todo != {}
        invariant Spreading(n, nodes, v, c, todo)
        decreases |todo|
      {
        var u :| u in todo;
        ghost var s := nodes;
        SpreadingOn(n, s, v, c, todo, u);
        var _ := UpdatePointsTo(u, Pts(nodes, v));
        SpreadingNext(n, s, nodes, v, c, todo, u);
        todo := todo - {u};
      }
      SpreadingEnds(n, nodes, v, c);
      changed := true;
    }

    /** Registers `v` with every object it points to. */
    method InsertToPointsBy(v: nat)
      requires v < |nodes| && forall o :: o in Pts(nodes, v) ==> o < |nodes|
      modifies this`nodes
      ensures nodes == Registered(old(nodes), v, Pts(old(nodes), v))
    {
      ghost var n := nodes;
      var rest := Pts(nodes, v);
      while rest != {}
        invariant rest <= Pts(n, v)
        invariant nodes == Registered(n, v, Pts(n, v) - rest)
        decreases |rest|
      {
        var o :| o in rest;
        nodes := nodes[o := nodes[o].(pointsBy := nodes[o].pointsBy + {v})];
        rest := rest - {o};
      }
      assert Pts(n, v) - {} == Pts(n, v);
    }

    /** Raises the escape status of `v` to `st` and hands it on. */
    method UpdateEAStatus(v: nat, st: EAStatus) returns (raised: bool)
      requires v < |nodes| && FlowsInside(nodes)
      modifies this`nodes, this`hasUpdated
      ensures StatusSpread(old(nodes), nodes, v, st)
      ensures raised <==> Status(old(nodes), v) < st
      ensures !raised ==> nodes == old(nodes)
      ensures hasUpdated == (old(hasUpdated) || raised)
      decreases |MissingLevels(nodes)|
    {
      hide *;
      ghost var n := nodes;
      if st <= Status(nodes, v) {
        NothingRaised(nodes, v, st);
        return false;
      }
      RaisingStarts(n, v, st);
      nodes := nodes[v := nodes[v].(eaStatus := st)];
      FlowsRead(nodes, v);
      var todo := nodes[v].outs;
      if nodes[v].kind == ObjectNode {
        todo := set f | f in nodes[v].fieldNodes :: nodes[v].fieldNodes[f];
      }
      while todo != {}
        invariant Raising(n, nodes, v, st, todo)
        decreases |todo|
      {
        var w :| w in todo;
        ghost var s := nodes;
        RaisingOn(n, s, v, st, todo, w);
        var _ := UpdateEAStatus(w, nodes[v].eaStatus);
        RaisingNext(n, s, nodes, v, st, todo, w);
        todo := todo - {w};
      }
      RaisingEnds(n, nodes, v, st);
      hasUpdated := true;
      raised := true;
    }

    /** Makes `w` an `out` node of `v`. */
    method AddOutNode(v: nat, w: nat) returns (changed: bool)
      requires Usable(nodes) && CanAdd(nodes, v, w)
      modifies this`nodes, this`hasUpdated, this`trace
      ensures old(Traced(trace, nodes)) ==> Traced(trace, nodes)
      ensures OutNodeAdded(old(nodes), nodes, v, w)
      ensures changed <==> w !in Outs(old(nodes), v)
                           && if Absorbed(old(nodes), v) then Status(old(nodes), w) < GLOBAL_ESCAPE
                              else !(Pts(old(nodes), w) <= Pts(old(nodes), v))
      ensures hasUpdated == (old(hasUpdated) || nodes != old(nodes))
      ensures Inv(old(nodes)) ==> Inv(nodes) && Gained(old(nodes), nodes, v, w)
      ensures Inv(old(nodes)) && Exact(old(nodes)) ==> Exact(nodes)
    {
      hide *;
      ghost var n := nodes;
      CanAddReads(n, v, w);
      if w in nodes[v].outs {
        changed := false;
        AddedKnown(n, v, w);
      } else {
        changed := AddNewOutNode(v, w);
      }
      if Inv(n) {
        AddedKeepsInv(n, nodes, v, w);
      }
      OutIsBuilt(n, nodes, v, w);
      TraceGrows(trace, n, NewOut(v, w), nodes);
      trace := trace + [nodes];
    }

    method AddNewOutNode(v: nat, w: nat) returns (changed: bool)
      requires Usable(nodes) && CanAdd(nodes, v, w) && w !in Outs(nodes, v)
      modifies this`nodes, this`hasUpdated
      ensures OutNodeAdded(old(nodes), nodes, v, w)
      ensures changed <==> if Absorbed(old(nodes), v) then Status(old(nodes), w) < GLOBAL_ESCAPE
                           else !(Pts(old(nodes), w) <= Pts(old(nodes), v))
      ensures hasUpdated == (old(hasUpdated) || nodes != old(nodes))
    {
      hide *;
      ghost var n := nodes;
      CanAddReads(n, v, w);
      var newIsLocal := UpdateEAStatus(w, nodes[v].eaStatus);
      ghost var m := nodes;
      AfterRaise(n, m, v, w);
      if nodes[v].eaStatus == GLOBAL_ESCAPE && nodes[v].pointsTo != {} {
        if newIsLocal {
          hasUpdated := true;
          RaiseChanges(n, m, w, Status(n, v));
        }
        changed := newIsLocal;
        AddedByVia(n, m, m, v, w);
      } else {
        EdgeAddedOn(m, v, w);
        nodes := nodes[v := nodes[v].(outs := nodes[v].outs + {w})];
        nodes := nodes[w := nodes[w].(ins := nodes[w].ins + {v})];
        changed := UpdatePointsTo(v, nodes[w].pointsTo);
        hasUpdated := true;
        AddedVia(n, m, nodes, v, w);
        AddedByVia(n, m, nodes, v, w);
        ViaChanges(n, m, nodes, v, w);
      }
    }

    method CreateObjectNode(initialEas: EAStatus) returns (id: nat)
      modifies this`nodes, this`hasUpdated, this`trace
      ensures old(Traced(trace, nodes)) ==> Traced(trace, nodes)
      ensures id == |old(nodes)| && nodes == ObjectCreated(old(nodes), initialEas) && hasUpdated
      ensures Inv(old(nodes)) ==> Inv(nodes)
      ensures Inv(old(nodes)) && Exact(old(nodes)) ==> Exact(nodes)
    {
      hide *;
      ghost var n := nodes;
      ObjectMade(n, initialEas);
      id := |nodes|;
      nodes := nodes + [Node(ObjectNode, initialEas, {}, {}, {id}, {id}, map[], {})];
      hasUpdated := true;
      TraceGrows(trace, n, NewObject(initialEas), nodes);
      trace := trace + [nodes];
    }

    method CreateReferenceNode(initialEas: EAStatus) returns (id: nat)
      modifies this`nodes, this`hasUpdated, this`trace
      ensures old(Traced(trace, nodes)) ==> Traced(trace, nodes)
      ensures id == |old(nodes)| && nodes == LocalCreated(old(nodes), ReferenceNode, initialEas) && hasUpdated
      ensures Inv(old(nodes)) ==> Inv(nodes)
      ensures Inv(old(nodes)) && Exact(old(nodes)) ==> Exact(nodes)
    {
      id := CreateLocalNode(ReferenceNode, initialEas);
    }

    method CreateActualNode(initialEas: EAStatus) returns (id: nat)
      modifies this`nodes, this`hasUpdated, this`trace
      ensures old(Traced(trace, nodes)) ==> Traced(trace, nodes)
      ensures id == |old(nodes)| && nodes == LocalCreated(old(nodes), ActualNode, initialEas) && hasUpdated
      ensures Inv(old(nodes)) ==> Inv(nodes)
      ensures Inv(old(nodes)) && Exact(old(nodes)) ==> Exact(nodes)
    {
      id := CreateLocalNode(ActualNode, initialEas);
    }

    method CreateLocalNode(kind: NodeKind, initialEas: EAStatus) returns (id: nat)
      requires kind == ReferenceNode || kind == ActualNode
      modifies this`nodes, this`hasUpdated, this`trace
      ensures old(Traced(trace, nodes)) ==> Traced(trace, nodes)
      ensures id == |old(nodes)| && nodes == LocalCreated(old(nodes), kind, initialEas) && hasUpdated
      ensures Inv(old(nodes)) ==> Inv(nodes)
      ensures Inv(old(nodes)) && Exact(old(nodes)) ==> Exact(nodes)
    {
      hide *;
      ghost var n := nodes;
      LocalMade(n, kind, initialEas);
      id := |nodes|;
      nodes := nodes + [Node(kind, initialEas, {}, {}, {}, {}, map[], {})];
      hasUpdated := true;
      TraceGrows(trace, n, NewLocal(kind, initialEas), nodes);
      trace := trace + [nodes];
    }

    /** Every caller hands on at least the status of the owner, and only when the owner has no such field yet. */
    method CreateFieldNode(initialEas: EAStatus, fid: int, owner: nat) returns (id: nat)
      requires IsObject(nodes, owner) && Status(nodes, owner) <= initialEas && FieldOf(nodes, owner, fid) == None
      modifies this`nodes, this`hasUpdated, this`trace
      ensures old(Traced(trace, nodes)) ==> Traced(trace, nodes)
      ensures id == |old(nodes)| && nodes == FieldCreated(old(nodes), initialEas, fid, owner) && hasUpdated
      ensures Inv(old(nodes)) ==> Inv(nodes)
      ensures Inv(old(nodes)) && Exact(old(nodes)) ==> Exact(nodes)
    {
      hide *;
      ghost var n := nodes;
      NewFieldMade(n, initialEas, fid, owner);
      id := |nodes|;
      nodes := nodes[owner := nodes[owner].(fieldNodes := nodes[owner].fieldNodes[fid := id])];
      nodes := nodes + [Node(FieldNode, initialEas, {}, {}, {}, {}, map[], {owner})];
      hasUpdated := true;
      TraceGrows(trace, n, NewField(initialEas, fid, owner), nodes);
      trace := trace + [nodes];
    }

    constructor ()
      ensures nodes == [] && !hasUpdated
    {
      nodes, hasUpdated, callee2Caller := [], false, map[];
      madeFor, trace, start, roots, asked := map[], [], [], {}, {};
    }

    /** Sets up the global nodes, by the same operations as every other node, and lets them escape. */
    method InitGlobalNode()
      requires nodes == []
      modifies this
      ensures nodes == GlobalNodes() && Inv(nodes) && Exact(nodes) && Traced(trace, nodes)
    {
      TwoBootedStart();
      AllBootedStart();
      BootReady();
      var obj := CreateObjectNode(NO_ESCAPE);
      var ref := CreateReferenceNode(NO_ESCAPE);
      assert nodes == TwoBooted({}, {}, {}, {0}, {});
      hide Booted, Ready;
      BootEdge(ref, obj);
      BootEdge(ref, ref);
      var field := CreateFieldNode(NO_ESCAPE, ANY_FIELD, obj);
      BootEdge(field, obj);
      FinishGlobalNodes(obj, ref, field);
    }

    /** The last edges among the global nodes, after which they escape. */
    method FinishGlobalNodes(obj: nat, ref: nat, field: nat)
      requires obj == 0 && ref == 1 && field == 2
      requires nodes == AllBooted({1, 2}, {0, 1, 2}, {1}, {0, 1}, {}, {0}, {0})
      modifies this
      ensures nodes == GlobalNodes() && Inv(nodes) && Exact(nodes) && Traced(trace, nodes)
    {
      AllBootedEnd();
      BootReadyEnd();
      hide Booted, Ready;
      BootEdge(field, ref);
      BootEdge(field, field);
      BootEdge(ref, field);
      nodes := nodes[obj := nodes[obj].(eaStatus := GLOBAL_ESCAPE)];
      nodes := nodes[field := nodes[field].(eaStatus := GLOBAL_ESCAPE)];
      nodes := nodes[ref := nodes[ref].(eaStatus := GLOBAL_ESCAPE)];
      GlobalNodesOk();
      trace := [nodes];
      TraceStarts();
    }

    /** `AddOutNode` among the first nodes. */
    method BootEdge(v: nat, w: nat)
      requires Ready(nodes, v, w)
      modifies this
      ensures nodes == Booted(old(nodes), v, w)
    {
      ghost var n := nodes;
      var _ := AddOutNode(v, w);
      BootStep(n, nodes, v, w);
    }

    /** Hands the status of node `i` on to `todo`, which changes nothing. */
    method HandOn(i: nat, nodesAfter: set<nat>)
      requires Inv(nodes) && !hasUpdated && i < |nodes|
      requires nodesAfter <= FlowsTo(nodes, i) || nodesAfter <= Pts(nodes, i)
      modifies this`nodes, this`hasUpdated
      ensures nodes == old(nodes) && !hasUpdated
    {
      hide *;
      InvGivesPreds(nodes);
      var todo := nodesAfter;
      while todo != {}
        invariant nodes == old(nodes) && !hasUpdated && todo <= nodesAfter
        decreases |todo|
      {
        var w :| w in todo;
        AlreadyHandedOn(nodes, i, w);
        var _ := UpdateEAStatus(w, nodes[i].eaStatus);
        todo := todo - {w};
      }
    }

    /** Hands every status on once more, until nothing changes: nothing does, and one round is enough. */
    method PropogateEAStatus()
      requires Inv(nodes)
      modifies this`nodes, this`hasUpdated
      ensures nodes == old(nodes) && hasUpdated == old(hasUpdated)
    {
      hide Inv;
      var oldStatus := hasUpdated;
      var again := true;
      while again
        invariant nodes == old(nodes)
        decreases again
      {
        hasUpdated := false;
        var i := 0;
        while i < |nodes|
          invariant nodes == old(nodes) && !hasUpdated
        {
          if nodes[i].kind == ObjectNode {
            FlowsRead(nodes, i);
            HandOn(i, set f | f in nodes[i].fieldNodes :: nodes[i].fieldNodes[f]);
          } else if nodes[i].kind != NullSlot {
            HandOn(i, nodes[i].pointsTo);
          }
          i := i + 1;
        }
        assert !hasUpdated;
        again := hasUpdated;
      }
      hasUpdated := oldStatus;
    }

    // -------------------------------------------------------------------------------------------
    // Embedding a callee's graph: the node phase.
    // -------------------------------------------------------------------------------------------

    /** Makes every object in `objs`, all that stand for `q`, an `out` node of `v`, which so far points nowhere. */
    method LinkTo(v: nat, objs: set<nat>, ghost callee: Nodes, ghost F: nat, ghost q: nat)
      requires Inv(nodes) && Live(nodes, v) && Pts(nodes, v) == {} && objs != {}
      requires forall o :: o in objs ==> IsObject(nodes, o)
      requires objs == MapsTo(callee2Caller, q)
      requires Matches(nodes, callee, callee2Caller, roots, F, v) && q in Pts(callee, F)
      requires Traced(trace, nodes)
      requires Accounted(start, roots, asked, nodes, callee, callee2Caller)
      requires hasUpdated ==> More(start, nodes)
      modifies this`nodes, this`hasUpdated, this`trace, this`asked
      ensures Traced(trace, nodes)
      ensures Accounted(start, roots, asked, nodes, callee, callee2Caller)
      ensures hasUpdated ==> More(start, nodes)
      ensures Inv(nodes) && KeepsNodes(old(nodes), nodes) && KeepsPoints(old(nodes), nodes)
      ensures SameObjects(old(nodes), nodes) && Pts(nodes, v) != {} && Pts(nodes, v) <= objs
      ensures hasUpdated
    {
      hide *;
      ghost var n := nodes;
      LinkStarts(n, v, objs);
      var rest := objs;
      while rest != {}
        invariant Traced(trace, nodes)
        invariant Accounted(start, roots, asked, nodes, callee, callee2Caller)
        invariant hasUpdated ==> More(start, nodes)
        invariant rest <= objs && Linking(n, nodes, v, objs)
        invariant rest != objs ==> Pts(nodes, v) != {} && hasUpdated
        invariant rest == objs ==> Pts(nodes, v) == {}
        decreases |rest|
      {
        var o :| o in rest;
        ghost var s := nodes;
        CanLink(n, s, v, o, objs);
        var _ := AddOutNode(v, o);
        LinkAccounted(start, roots, asked, n, s, nodes, callee, callee2Caller, F, q, v, o);
        asked := asked + {(v, o)};
        LinkNext(n, s, nodes, v, o, objs);
        assert nodes != s || hasUpdated;
        rest := rest - {o};
      }
      LinkEnds(n, nodes, v, objs);
    }

    method AddMaps2Object(caller: nat, callee: nat)
      modifies this`callee2Caller
      ensures Recorded(old(callee2Caller), callee2Caller, caller, callee)
      ensures callee2Caller.Keys == old(callee2Caller).Keys + {callee}
    {
      if callee !in callee2Caller {
        callee2Caller := callee2Caller[callee := {}];
      }
      callee2Caller := callee2Caller[callee := callee2Caller[callee] + {caller}];
    }

    /** Makes sure the caller's objects for what `F` points to are mapped, and recursively what they lead to. */
    method UpdateNodes(callee: Nodes, F: nat, G: nat, ghost pending: set<(nat, nat)>, ghost base: nat)
      requires MergeInv(nodes, callee, callee2Caller, pending, base, madeFor) && KeysFull(callee2Caller)
      requires Live(nodes, G) && !IsObject(nodes, G) && Matches(nodes, callee, callee2Caller, roots, F, G)
      requires Traced(trace, nodes)
      requires Accounted(start, roots, asked, nodes, callee, callee2Caller)
      requires hasUpdated ==> More(start, nodes)
      modifies this`nodes, this`hasUpdated, this`trace, this`callee2Caller, this`madeFor, this`asked
      ensures Traced(trace, nodes)
      ensures Accounted(start, roots, asked, nodes, callee, callee2Caller)
      ensures hasUpdated ==> More(start, nodes)
      ensures MergeInv(nodes, callee, callee2Caller, pending, base, madeFor) && KeysFull(callee2Caller)
      ensures Walked(old(nodes), old(callee2Caller), nodes, callee2Caller, callee)
      ensures forall q :: q in Pts(callee, F) ==> Covers(nodes, callee2Caller, G, q)
      ensures Pts(callee, F) != {} ==> Pts(nodes, G) != {}
      ensures !hasUpdated ==> nodes == old(nodes)
      ensures old(hasUpdated) ==> hasUpdated
      decreases |Unmapped(callee, callee2Caller)|, |OpenPairs(nodes, callee, callee2Caller)|, 3
    {
      hide *;
      ghost var n, m := nodes, callee2Caller;
      MergeInvFacts(n, callee, m, pending, base, madeFor);
      CoveredStarts(n, m, callee, F, G);
      var todo := Pts(callee, F);
      while todo != {}
        invariant Traced(trace, nodes)
        invariant Accounted(start, roots, asked, nodes, callee, callee2Caller)
        invariant hasUpdated ==> More(start, nodes)
        invariant MergeInv(nodes, callee, callee2Caller, pending, base, madeFor) && KeysFull(callee2Caller)
        invariant CoveredBut(n, m, nodes, callee2Caller, callee, F, G, todo)
        invariant (!hasUpdated ==> nodes == n) && (old(hasUpdated) ==> hasUpdated)
        decreases |todo|
      {
        var q :| q in todo;
        ghost var n1, m1 := nodes, callee2Caller;
        CoveredFacts(n, m, n1, m1, callee, F, G, todo, q);
        WalkedIsNoMoreWork(n, m, n1, m1, callee);
        MatchesWalked(n, m, n1, m1, callee, roots, F, G);
        MapPointee(callee, q, G, F, pending, base);
        CoveredOneMore(n, m, n1, m1, nodes, callee2Caller, callee, F, G, q, todo);
        todo := todo - {q};
      }
      CoveredEnds(n, m, nodes, callee2Caller, callee, F, G);
    }

    /** One callee object `q` is mapped to what `G` points to; a node that points nowhere is given something first. */
    method MapPointee(callee: Nodes, q: nat, G: nat, ghost F: nat, ghost pending: set<(nat, nat)>, ghost base: nat)
      requires MergeInv(nodes, callee, callee2Caller, pending, base, madeFor) && KeysFull(callee2Caller)
      requires Live(nodes, G) && !IsObject(nodes, G) && IsObject(callee, q)
      requires Matches(nodes, callee, callee2Caller, roots, F, G) && q in Pts(callee, F)
      requires Traced(trace, nodes)
      requires Accounted(start, roots, asked, nodes, callee, callee2Caller)
      requires hasUpdated ==> More(start, nodes)
      modifies this`nodes, this`hasUpdated, this`trace, this`callee2Caller, this`madeFor, this`asked
      ensures Traced(trace, nodes)
      ensures Accounted(start, roots, asked, nodes, callee, callee2Caller)
      ensures hasUpdated ==> More(start, nodes)
      ensures MergeInv(nodes, callee, callee2Caller, pending, base, madeFor) && KeysFull(callee2Caller)
      ensures Walked(old(nodes), old(callee2Caller), nodes, callee2Caller, callee)
      ensures Covers(nodes, callee2Caller, G, q) && Pts(nodes, G) != {}
      ensures !hasUpdated ==> nodes == old(nodes)
      ensures old(hasUpdated) ==> hasUpdated
      decreases |Unmapped(callee, callee2Caller)|, |OpenPairs(nodes, callee, callee2Caller)|, 2
    {
      hide *;
      ghost var n, m := nodes, callee2Caller;
      if q !in callee2Caller {
        callee2Caller := callee2Caller[q := {}];
      }
      ghost var m1 := callee2Caller;
      LookedUpMaps(m, q);
      LookUpKeepsKeys(m, q);
      SameMap(n, callee, m, m1, pending, base, madeFor);
      LookedUpAccounted(start, roots, asked, n, callee, m, m1, F, G);
      if Pts(nodes, G) == {} {
        if callee2Caller[q] != {} {
          MergeInvFacts(n, callee, m1, pending, base, madeFor);
          MappedAreObjects(n, callee, m1, q);
          LinkTo(G, callee2Caller[q], callee, F, q);
          QuietStep(n, nodes, callee, m1, pending, base, madeFor);
          LinkedCovers(nodes, m1, G, q);
        } else {
          GivePhantom(callee, q, G, F, pending, base);
        }
      } else {
        MapAll(callee, q, G, F, pending, base);
      }
      WalkedTrans(n, m, n, m1, nodes, callee2Caller, callee);
    }

    /** Nothing stands for `q` yet: a new phantom object does from now on. */
    method GivePhantom(callee: Nodes, q: nat, G: nat, ghost F: nat, ghost pending: set<(nat, nat)>, ghost base: nat)
      requires MergeInv(nodes, callee, callee2Caller, pending, base, madeFor) && KeysFullBut(callee2Caller, q)
      requires Live(nodes, G) && Pts(nodes, G) == {} && IsObject(callee, q) && MapsTo(callee2Caller, q) == {}
      requires Matches(nodes, callee, callee2Caller, roots, F, G) && q in Pts(callee, F)
      requires Traced(trace, nodes)
      requires Accounted(start, roots, asked, nodes, callee, callee2Caller)
      requires hasUpdated ==> More(start, nodes)
      modifies this`nodes, this`hasUpdated, this`trace, this`callee2Caller, this`madeFor, this`asked
      ensures Traced(trace, nodes)
      ensures Accounted(start, roots, asked, nodes, callee, callee2Caller)
      ensures hasUpdated ==> More(start, nodes)
      ensures MergeInv(nodes, callee, callee2Caller, pending, base, madeFor) && KeysFull(callee2Caller)
      ensures Walked(old(nodes), old(callee2Caller), nodes, callee2Caller, callee)
      ensures Covers(nodes, callee2Caller, G, q) && Pts(nodes, G) != {}
      ensures hasUpdated
      decreases |Unmapped(callee, callee2Caller)|, |OpenPairs(nodes, callee, callee2Caller)|, 0
    {
      hide *;
      ghost var n, m := nodes, callee2Caller;
      var phantom := CreatePhantom(callee, q, G, F, pending, base);
      ghost var n2, m2 := nodes, callee2Caller;
      UpdateCallerWithCallee(callee, phantom, q, pending, base);
      WalkedTrans(n, m, n2, m2, nodes, callee2Caller, callee);
      WalkedKeeps(n2, m2, nodes, callee2Caller, callee, G, q, phantom);
      StillCovers(n2, m2, nodes, callee2Caller, callee, G, q);
    }

    method CreatePhantom(callee: Nodes, q: nat, G: nat, ghost F: nat, ghost pending: set<(nat, nat)>, ghost base: nat)
        returns (phantom: nat)
      requires MergeInv(nodes, callee, callee2Caller, pending, base, madeFor) && KeysFullBut(callee2Caller, q)
      requires Live(nodes, G) && Pts(nodes, G) == {} && IsObject(callee, q) && MapsTo(callee2Caller, q) == {}
      requires Matches(nodes, callee, callee2Caller, roots, F, G) && q in Pts(callee, F)
      requires Traced(trace, nodes)
      requires Accounted(start, roots, asked, nodes, callee, callee2Caller)
      requires hasUpdated ==> More(start, nodes)
      modifies this`nodes, this`hasUpdated, this`trace, this`callee2Caller, this`madeFor, this`asked
      ensures Traced(trace, nodes)
      ensures Accounted(start, roots, asked, nodes, callee, callee2Caller)
      ensures hasUpdated ==> More(start, nodes)
      ensures MergeInv(nodes, callee, callee2Caller, pending + {(phantom, q)}, base, madeFor)
      ensures KeysFull(callee2Caller) && phantom in MapsTo(callee2Caller, q)
      ensures Walked(old(nodes), old(callee2Caller), nodes, callee2Caller, callee)
      ensures Covers(nodes, callee2Caller, G, q) && Pts(nodes, G) != {}
      ensures |Unmapped(callee, callee2Caller)| < |Unmapped(callee, old(callee2Caller))|
      ensures hasUpdated
    {
      hide *;
      ghost var n, m := nodes, callee2Caller;
      MergeInvFacts(n, callee, m, pending, base, madeFor);
      phantom := NewPointee(G);
      AddMaps2Object(phantom, q);
      KeysFilled(m, callee2Caller, phantom, q);
      madeFor := madeFor[phantom := q];
      PhantomStep(n, ObjectCreated(n, Status(n, G)), nodes, callee, m, callee2Caller, pending, base,
                  old(madeFor), G, q);
      PhantomAccounted(start, roots, asked, n, ObjectCreated(n, Status(n, G)), nodes, callee, m, callee2Caller, F, G,
                       q);
      asked := asked + {(G, phantom)};
    }

    /** A new phantom object for a node that points nowhere. */
    method NewPointee(G: nat) returns (phantom: nat)
      requires Inv(nodes) && Live(nodes, G) && Pts(nodes, G) == {}
      requires Traced(trace, nodes)
      modifies this`nodes, this`hasUpdated, this`trace
      ensures Traced(trace, nodes)
      ensures phantom == |old(nodes)| && hasUpdated
      ensures OutNodeAdded(ObjectCreated(old(nodes), Status(old(nodes), G)), nodes, G, phantom)
    {
      hide *;
      ghost var n := nodes;
      LiveReads(n, G);
      phantom := CreateObjectNode(nodes[G].eaStatus);
      PhantomUsable(n, nodes, G);
      var _ := AddOutNode(G, phantom);
    }

    /** Everything `G` points to stands for `q`. */
    method MapAll(callee: Nodes, q: nat, G: nat, ghost F: nat, ghost pending: set<(nat, nat)>, ghost base: nat)
      requires MergeInv(nodes, callee, callee2Caller, pending, base, madeFor) && KeysFullBut(callee2Caller, q)
      requires Pts(nodes, G) != {} && IsObject(callee, q)
      requires Matches(nodes, callee, callee2Caller, roots, F, G) && q in Pts(callee, F)
      requires Traced(trace, nodes)
      requires Accounted(start, roots, asked, nodes, callee, callee2Caller)
      requires hasUpdated ==> More(start, nodes)
      modifies this`nodes, this`hasUpdated, this`trace, this`callee2Caller, this`madeFor, this`asked
      ensures Traced(trace, nodes)
      ensures Accounted(start, roots, asked, nodes, callee, callee2Caller)
      ensures hasUpdated ==> More(start, nodes)
      ensures MergeInv(nodes, callee, callee2Caller, pending, base, madeFor) && KeysFull(callee2Caller)
      ensures Walked(old(nodes), old(callee2Caller), nodes, callee2Caller, callee)
      ensures Covers(nodes, callee2Caller, G, q) && Pts(nodes, G) != {}
      ensures !hasUpdated ==> nodes == old(nodes)
      ensures old(hasUpdated) ==> hasUpdated
      decreases |Unmapped(callee, callee2Caller)|, |OpenPairs(nodes, callee, callee2Caller)|, 1
    {
      hide *;
      ghost var n, m := nodes, callee2Caller;
      MappedNone(n, m, callee, G, q);
      var rest := Pts(nodes, G);
      while rest != {}
        invariant Traced(trace, nodes)
        invariant Accounted(start, roots, asked, nodes, callee, callee2Caller)
        invariant hasUpdated ==> More(start, nodes)
        invariant MergeInv(nodes, callee, callee2Caller, pending, base, madeFor)
        invariant MappedBut(n, m, nodes, callee2Caller, callee, G, q, rest)
        invariant (!hasUpdated ==> nodes == n) && (old(hasUpdated) ==> hasUpdated)
        decreases |rest|
      {
        var o :| o in rest;
        ghost var n1, m1 := nodes, callee2Caller;
        MappedFacts(n, m, n1, m1, callee, G, q, rest);
        WalkedIsNoMoreWork(n, m, n1, m1, callee);
        MergeInvFacts(n1, callee, m1, pending, base, madeFor);
        PointeeIsObject(n1, G, o);
        if o !in MapsTo(callee2Caller, q) {
          MatchesWalked(n, m, n1, m1, callee, roots, F, G);
          MapPair(callee, o, q, F, G, pending, base);
        }
        MappedOneMore(n, m, n1, m1, nodes, callee2Caller, callee, G, q, o, rest);
        rest := rest - {o};
      }
      MappedAll(n, m, nodes, callee2Caller, callee, G, q);
    }

    method MapPair(callee: Nodes, o: nat, q: nat, ghost F: nat, ghost G: nat, ghost pending: set<(nat, nat)>,
                   ghost base: nat)
      requires MergeInv(nodes, callee, callee2Caller, pending, base, madeFor) && KeysFullBut(callee2Caller, q)
      requires IsObject(nodes, o) && IsObject(callee, q) && o !in MapsTo(callee2Caller, q)
      requires Matches(nodes, callee, callee2Caller, roots, F, G) && o in Pts(nodes, G) && q in Pts(callee, F)
      requires Traced(trace, nodes)
      requires Accounted(start, roots, asked, nodes, callee, callee2Caller)
      requires hasUpdated ==> More(start, nodes)
      modifies this`nodes, this`hasUpdated, this`trace, this`callee2Caller, this`madeFor, this`asked
      ensures Traced(trace, nodes)
      ensures Accounted(start, roots, asked, nodes, callee, callee2Caller)
      ensures hasUpdated ==> More(start, nodes)
      ensures MergeInv(nodes, callee, callee2Caller, pending, base, madeFor) && KeysFull(callee2Caller)
      ensures Walked(old(nodes), old(callee2Caller), nodes, callee2Caller, callee)
      ensures o in MapsTo(callee2Caller, q)
      ensures !hasUpdated ==> nodes == old(nodes)
      ensures old(hasUpdated) ==> hasUpdated
      decreases |Unmapped(callee, callee2Caller)|, |OpenPairs(nodes, callee, callee2Caller)|, 0
    {
      hide *;
      ghost var n, m := nodes, callee2Caller;
      AddMaps2Object(o, q);
      ghost var m2 := callee2Caller;
      KeysFilled(m, m2, o, q);
      RecordedMaps(m, m2, o, q);
      RecordedAccounted(start, roots, asked, n, callee, m, m2, F, G, o, q);
      PairStep(n, callee, m, m2, pending, base, madeFor, o, q);
      UpdateCallerWithCallee(callee, o, q, pending, base);
      WalkedMapped(n, m2, nodes, callee2Caller, callee, o, q);
      WalkedTrans(n, m, n, m2, nodes, callee2Caller, callee);
    }

    /** The caller object `o` now stands for the callee object `q`: it inherits global escape and gets `q`'s fields. */
    method UpdateCallerWithCallee(callee: Nodes, o: nat, q: nat, ghost pending: set<(nat, nat)>, ghost base: nat)
      requires MergeInv(nodes, callee, callee2Caller, pending + {(o, q)}, base, madeFor) && KeysFull(callee2Caller)
      requires o in MapsTo(callee2Caller, q)
      requires Traced(trace, nodes)
      requires Accounted(start, roots, asked, nodes, callee, callee2Caller)
      requires hasUpdated ==> More(start, nodes)
      modifies this`nodes, this`hasUpdated, this`trace, this`callee2Caller, this`madeFor, this`asked
      ensures Traced(trace, nodes)
      ensures Accounted(start, roots, asked, nodes, callee, callee2Caller)
      ensures hasUpdated ==> More(start, nodes)
      ensures MergeInv(nodes, callee, callee2Caller, pending, base, madeFor) && KeysFull(callee2Caller)
      ensures Walked(old(nodes), old(callee2Caller), nodes, callee2Caller, callee)
      ensures !hasUpdated ==> nodes == old(nodes)
      ensures old(hasUpdated) ==> hasUpdated
      decreases |Unmapped(callee, callee2Caller)|, |OpenPairs(nodes, callee, callee2Caller)|, 6
    {
      hide *;
      ghost var n, m := nodes, callee2Caller;
      ghost var pending' := pending + {(o, q)};
      InheritEscape(callee, o, q, pending', base);
      ghost var n1 := nodes;
      WalkedIsNoMoreWork(n, m, n1, m, callee);
      MapFields(callee, o, q, pending', base);
      WalkedTrans(n, m, n1, m, nodes, callee2Caller, callee);
      PairCompleted(nodes, callee, callee2Caller, pending, base, madeFor, o, q);
    }

    method MapFields(callee: Nodes, o: nat, q: nat, ghost pending: set<(nat, nat)>, ghost base: nat)
      requires MergeInv(nodes, callee, callee2Caller, pending, base, madeFor) && KeysFull(callee2Caller)
      requires o in MapsTo(callee2Caller, q)
      requires Status(callee, q) == GLOBAL_ESCAPE ==> Status(nodes, o) == GLOBAL_ESCAPE
      requires Traced(trace, nodes)
      requires Accounted(start, roots, asked, nodes, callee, callee2Caller)
      requires hasUpdated ==> More(start, nodes)
      modifies this`nodes, this`hasUpdated, this`trace, this`callee2Caller, this`madeFor, this`asked
      ensures Traced(trace, nodes)
      ensures Accounted(start, roots, asked, nodes, callee, callee2Caller)
      ensures hasUpdated ==> More(start, nodes)
      ensures MergeInv(nodes, callee, callee2Caller, pending, base, madeFor) && KeysFull(callee2Caller)
      ensures Walked(old(nodes), old(callee2Caller), nodes, callee2Caller, callee)
      ensures FieldsDoneBut(nodes, callee, callee2Caller, o, q, {})
      ensures !hasUpdated ==> nodes == old(nodes)
      ensures old(hasUpdated) ==> hasUpdated
      decreases |Unmapped(callee, callee2Caller)|, |OpenPairs(nodes, callee, callee2Caller)|, 5
    {
      hide *;
      ghost var n, m := nodes, callee2Caller;
      var todo := set f | f in Fields(callee, q);
      WalkedSelf(n, m, callee);
      NoFieldDoneYet(n, callee, m, o, q, todo);
      while todo != {}
        invariant Traced(trace, nodes)
        invariant Accounted(start, roots, asked, nodes, callee, callee2Caller)
        invariant hasUpdated ==> More(start, nodes)
        invariant forall f :: f in todo ==> f in Fields(callee, q)
        invariant MergeInv(nodes, callee, callee2Caller, pending, base, madeFor) && KeysFull(callee2Caller)
        invariant Walked(n, m, nodes, callee2Caller, callee)
        invariant FieldsDoneBut(nodes, callee, callee2Caller, o, q, todo)
        invariant (!hasUpdated ==> nodes == n) && (old(hasUpdated) ==> hasUpdated)
        decreases |todo|
      {
        ghost var some := Element(todo);
        var f :| f in todo;
        ghost var n1, m1 := nodes, callee2Caller;
        WalkedIsNoMoreWork(n, m, n1, m1, callee);
        WalkedMapped(n, m, n1, m1, callee, o, q);
        MapField(callee, o, q, f, pending, base);
        FieldsStayDone(n1, m1, nodes, callee2Caller, callee, o, q, todo);
        OneFieldLess(nodes, callee, callee2Caller, o, q, todo, f);
        WalkedTrans(n, m, n1, m1, nodes, callee2Caller, callee);
        todo := todo - {f};
      }
    }

    /** The caller object `o` gets field `f`, and what the callee's field points to is mapped. */
    method MapField(callee: Nodes, o: nat, q: nat, f: int, ghost pending: set<(nat, nat)>, ghost base: nat)
      requires MergeInv(nodes, callee, callee2Caller, pending, base, madeFor) && KeysFull(callee2Caller)
      requires o in MapsTo(callee2Caller, q) && f in Fields(callee, q)
      requires Traced(trace, nodes)
      requires Accounted(start, roots, asked, nodes, callee, callee2Caller)
      requires hasUpdated ==> More(start, nodes)
      modifies this`nodes, this`hasUpdated, this`trace, this`callee2Caller, this`madeFor, this`asked
      ensures Traced(trace, nodes)
      ensures Accounted(start, roots, asked, nodes, callee, callee2Caller)
      ensures hasUpdated ==> More(start, nodes)
      ensures MergeInv(nodes, callee, callee2Caller, pending, base, madeFor) && KeysFull(callee2Caller)
      ensures Walked(old(nodes), old(callee2Caller), nodes, callee2Caller, callee)
      ensures FieldDone(nodes, callee, callee2Caller, o, q, f)
      ensures !hasUpdated ==> nodes == old(nodes)
      ensures old(hasUpdated) ==> hasUpdated
      decreases |Unmapped(callee, callee2Caller)|, |OpenPairs(nodes, callee, callee2Caller)|, 4
    {
      hide *;
      ghost var n, m := nodes, callee2Caller;
      MergeInvFacts(n, callee, m, pending, base, madeFor);
      ImageReads(n, callee, m, o, q);
      var G := GetOrCreateFieldNodeFromIdx(callee, o, f, q, pending, base);
      ghost var n1 := nodes;
      WalkedIsNoMoreWork(n, m, n1, m, callee);
      FieldIsMatch(n1, callee, m, roots, o, q, f, G);
      UpdateNodes(callee, Fields(callee, q)[f], G, pending, base);
      WalkedTrans(n, m, n1, m, nodes, callee2Caller, callee);
      FieldCompleted(n1, m, nodes, callee2Caller, callee, o, q, f, G);
    }

    method InheritEscape(callee: Nodes, o: nat, q: nat, ghost pending: set<(nat, nat)>, ghost base: nat)
      requires MergeInv(nodes, callee, callee2Caller, pending, base, madeFor) && o in MapsTo(callee2Caller, q)
      requires Traced(trace, nodes)
      requires Accounted(start, roots, asked, nodes, callee, callee2Caller)
      requires hasUpdated ==> More(start, nodes)
      modifies this`nodes, this`hasUpdated, this`trace, this`asked
      ensures Traced(trace, nodes)
      ensures Accounted(start, roots, asked, nodes, callee, callee2Caller)
      ensures hasUpdated ==> More(start, nodes)
      ensures MergeInv(nodes, callee, callee2Caller, pending, base, madeFor)
      ensures Walked(old(nodes), callee2Caller, nodes, callee2Caller, callee)
      ensures Status(callee, q) == GLOBAL_ESCAPE ==> Status(nodes, o) == GLOBAL_ESCAPE
      ensures !hasUpdated ==> nodes == old(nodes)
      ensures old(hasUpdated) ==> hasUpdated
    {
      hide *;
      ghost var n := nodes;
      WalkedSelf(n, callee2Caller, callee);
      MergeInvFacts(n, callee, callee2Caller, pending, base, madeFor);
      ImageReads(n, callee, callee2Caller, o, q);
      InvGivesPreds(n);
      if callee[q].eaStatus == GLOBAL_ESCAPE {
        var _ := UpdateEAStatus(o, GLOBAL_ESCAPE);
        RaiseIsQuiet(n, nodes, o, GLOBAL_ESCAPE);
        RaisedToGlobal(n, nodes, o);
        RaiseIsBuilt(n, nodes, o, GLOBAL_ESCAPE);
        TraceGrows(trace, n, Raise(o, GLOBAL_ESCAPE), nodes);
        trace := trace + [nodes];
        QuietStep(n, nodes, callee, callee2Caller, pending, base, madeFor);
        RaiseAccounted(start, roots, asked, n, nodes, callee, callee2Caller, o, q);
      }
    }

    /** The field node for all fields stands for every field. */
    method GetFieldNodeFromIdx(o: nat, f: int) returns (ret: Option<nat>)
      ensures ret == FieldOf(nodes, o, f)
    {
      var fields := Fields(nodes, o);
      if ANY_FIELD in fields {
        return Some(fields[ANY_FIELD]);
      }
      if f !in fields {
        return None;
      }
      ret := Some(fields[f]);
    }

    method GetOrCreateFieldNodeFromIdx(callee: Nodes, o: nat, f: int, ghost q: nat, ghost pending: set<(nat, nat)>,
                                       ghost base: nat) returns (G: nat)
      requires MergeInv(nodes, callee, callee2Caller, pending, base, madeFor) && IsObject(nodes, o)
      requires o in MapsTo(callee2Caller, q) && f in Fields(callee, q)
      requires Traced(trace, nodes)
      requires Accounted(start, roots, asked, nodes, callee, callee2Caller)
      requires hasUpdated ==> More(start, nodes)
      modifies this`nodes, this`hasUpdated, this`trace, this`asked
      ensures Traced(trace, nodes)
      ensures Accounted(start, roots, asked, nodes, callee, callee2Caller)
      ensures hasUpdated ==> More(start, nodes)
      ensures MergeInv(nodes, callee, callee2Caller, pending, base, madeFor)
      ensures Walked(old(nodes), callee2Caller, nodes, callee2Caller, callee)
      ensures FieldOf(nodes, o, f) == Some(G) && Live(nodes, G) && !IsObject(nodes, G)
      ensures !hasUpdated ==> nodes == old(nodes)
      ensures old(hasUpdated) ==> hasUpdated
    {
      hide *;
      ghost var n := nodes;
      WalkedSelf(n, callee2Caller, callee);
      MergeInvFacts(n, callee, callee2Caller, pending, base, madeFor);
      LiveReads(n, o);
      var ret := GetFieldNodeFromIdx(o, f);
      if ret == None {
        G := CreateFieldNode(nodes[o].eaStatus, f, o);
        FieldMade(n, f, o);
        FieldIsQuiet(n, nodes, Status(n, o), f, o);
        QuietStep(n, nodes, callee, callee2Caller, pending, base, madeFor);
        FieldAccounted(start, roots, asked, n, nodes, callee, callee2Caller, o, f, q);
      } else {
        G := ret.value;
      }
      FieldFound(nodes, o, f, G);
    }

    /** The node phase: maps what the actual arguments stand for, and everything reachable from there. */
    method UpdateCallerNodes(caller: seq<Actual>, callee: Nodes, calleeArgs: seq<Actual>)
      requires Inv(nodes) && WellKinded(callee) && callee2Caller == map[]
      requires forall i :: 0 <= i < |caller| ==> Live(nodes, caller[i].node) && !IsObject(nodes, caller[i].node)
      requires forall i :: 0 <= i < |caller| && i < |calleeArgs| ==> (calleeArgs[i].node, caller[i].node) in roots
      requires Traced(trace, nodes)
      requires Accounted(start, roots, asked, nodes, callee, callee2Caller)
      requires hasUpdated ==> More(start, nodes)
      modifies this`nodes, this`hasUpdated, this`trace, this`callee2Caller, this`madeFor, this`asked
      ensures Traced(trace, nodes)
      ensures Accounted(start, roots, asked, nodes, callee, callee2Caller)
      ensures hasUpdated ==> More(start, nodes)
      ensures MergeInv(nodes, callee, callee2Caller, {}, |old(nodes)|, madeFor) && KeysFull(callee2Caller)
      ensures KeepsNodes(old(nodes), nodes) && KeepsPoints(old(nodes), nodes)
      ensures ArgsCovered(nodes, callee, callee2Caller, caller, calleeArgs, Min(|caller|, |calleeArgs|))
      ensures !hasUpdated ==> nodes == old(nodes)
      ensures old(hasUpdated) ==> hasUpdated
    {
      hide *;
      madeFor := map[];
      ghost var n, m := nodes, callee2Caller;
      var actualCount := Min(|caller|, |calleeArgs|);
      MinBounds(|caller|, |calleeArgs|);
      MergeStarts(n, callee);
      WalkedSelf(n, m, callee);
      NoArgCovered(n, callee, m, caller, calleeArgs);
      var i := 0;
      while i < actualCount
        invariant Traced(trace, nodes)
        invariant Accounted(start, roots, asked, nodes, callee, callee2Caller)
        invariant hasUpdated ==> More(start, nodes)
        invariant 0 <= i <= actualCount
        invariant MergeInv(nodes, callee, callee2Caller, {}, |n|, madeFor) && KeysFull(callee2Caller)
        invariant Walked(n, m, nodes, callee2Caller, callee)
        invariant ArgsCovered(nodes, callee, callee2Caller, caller, calleeArgs, i)
        invariant (!hasUpdated ==> nodes == n) && (old(hasUpdated) ==> hasUpdated)
      {
        ghost var n1, m1 := nodes, callee2Caller;
        WalkedStaysLive(n, m, n1, m1, callee, caller[i].node);
        RootMatches(n1, callee, m1, roots, calleeArgs[i].node, caller[i].node);
        UpdateNodes(callee, calleeArgs[i].node, caller[i].node, {}, |n|);
        ArgsStayCovered(n1, m1, nodes, callee2Caller, callee, caller, calleeArgs, i);
        WalkedTrans(n, m, n1, m1, nodes, callee2Caller, callee);
        i := i + 1;
      }
      WalkedReads(n, m, nodes, callee2Caller, callee);
    }

    // -------------------------------------------------------------------------------------------
    // Embedding a callee's graph: the edge phase.
    // -------------------------------------------------------------------------------------------

    /** The edge phase: every field edge of the callee's mapped objects is repeated between their images. */
    method UpdateCallerEdges(callee: Nodes)
      requires EdgePhase(nodes, nodes, callee, callee2Caller)
      requires Traced(trace, nodes)
      requires Accounted(start, roots, asked, nodes, callee, callee2Caller)
      requires hasUpdated ==> More(start, nodes)
      modifies this`nodes, this`hasUpdated, this`trace, this`asked
      ensures Traced(trace, nodes)
      ensures Accounted(start, roots, asked, nodes, callee, callee2Caller)
      ensures hasUpdated ==> More(start, nodes)
      ensures EdgePhase(old(nodes), nodes, callee, callee2Caller)
      ensures EmbeddedBut(nodes, callee, callee2Caller, {})
      ensures !hasUpdated ==> nodes == old(nodes)
      ensures old(hasUpdated) ==> hasUpdated
    {
      hide *;
      ghost var n := nodes;
      NothingEmbedded(n, callee, callee2Caller);
      var todo := callee2Caller.Keys;
      while todo != {}
        invariant Traced(trace, nodes)
        invariant Accounted(start, roots, asked, nodes, callee, callee2Caller)
        invariant hasUpdated ==> More(start, nodes)
        invariant todo <= callee2Caller.Keys && EdgePhase(n, nodes, callee, callee2Caller)
        invariant EmbeddedBut(nodes, callee, callee2Caller, todo)
        invariant (!hasUpdated ==> nodes == n) && (old(hasUpdated) ==> hasUpdated)
        decreases |todo|
      {
        var p :| p in todo;
        ghost var s := nodes;
        EdgePhaseAgain(n, s, callee, callee2Caller);
        EdgesOfObject(callee, p);
        ObjectStep(n, s, nodes, callee, callee2Caller, todo, p);
        todo := todo - {p};
      }
    }

    method EdgesOfObject(callee: Nodes, p: nat)
      requires EdgePhase(nodes, nodes, callee, callee2Caller) && p in callee2Caller
      requires Traced(trace, nodes)
      requires Accounted(start, roots, asked, nodes, callee, callee2Caller)
      requires hasUpdated ==> More(start, nodes)
      modifies this`nodes, this`hasUpdated, this`trace, this`asked
      ensures Traced(trace, nodes)
      ensures Accounted(start, roots, asked, nodes, callee, callee2Caller)
      ensures hasUpdated ==> More(start, nodes)
      ensures EdgePhase(old(nodes), nodes, callee, callee2Caller)
      ensures ObjectEmbeddedBut(nodes, callee, callee2Caller, p, {})
      ensures !hasUpdated ==> nodes == old(nodes)
      ensures old(hasUpdated) ==> hasUpdated
    {
      hide *;
      ghost var n := nodes;
      var todo := set f | f in Fields(callee, p);
      NoFieldEmbedded(n, callee, callee2Caller, p, todo);
      while todo != {}
        invariant Traced(trace, nodes)
        invariant Accounted(start, roots, asked, nodes, callee, callee2Caller)
        invariant hasUpdated ==> More(start, nodes)
        invariant forall f :: f in todo ==> f in Fields(callee, p)
        invariant EdgePhase(n, nodes, callee, callee2Caller)
        invariant ObjectEmbeddedBut(nodes, callee, callee2Caller, p, todo)
        invariant (!hasUpdated ==> nodes == n) && (old(hasUpdated) ==> hasUpdated)
        decreases |todo|
      {
        ghost var some := Element(todo);
        var f :| f in todo;
        ghost var s := nodes;
        EdgePhaseAgain(n, s, callee, callee2Caller);
        EdgesOfField(callee, p, f);
        FieldStep(n, s, nodes, callee, callee2Caller, p, todo, f);
        todo := todo - {f};
      }
    }

    method EdgesOfField(callee: Nodes, p: nat, f: int)
      requires EdgePhase(nodes, nodes, callee, callee2Caller) && p in callee2Caller && f in Fields(callee, p)
      requires Traced(trace, nodes)
      requires Accounted(start, roots, asked, nodes, callee, callee2Caller)
      requires hasUpdated ==> More(start, nodes)
      modifies this`nodes, this`hasUpdated, this`trace, this`asked
      ensures Traced(trace, nodes)
      ensures Accounted(start, roots, asked, nodes, callee, callee2Caller)
      ensures hasUpdated ==> More(start, nodes)
      ensures EdgePhase(old(nodes), nodes, callee, callee2Caller)
      ensures FieldEmbeddedBut(nodes, callee, callee2Caller, p, f, {})
      ensures !hasUpdated ==> nodes == old(nodes)
      ensures old(hasUpdated) ==> hasUpdated
    {
      hide *;
      ghost var n := nodes;
      var todo := Pts(callee, Fields(callee, p)[f]);
      NoPointeeEmbedded(n, callee, callee2Caller, p, f);
      while todo != {}
        invariant Traced(trace, nodes)
        invariant Accounted(start, roots, asked, nodes, callee, callee2Caller)
        invariant hasUpdated ==> More(start, nodes)
        invariant todo <= Pts(callee, Fields(callee, p)[f]) && EdgePhase(n, nodes, callee, callee2Caller)
        invariant FieldEmbeddedBut(nodes, callee, callee2Caller, p, f, todo)
        invariant (!hasUpdated ==> nodes == n) && (old(hasUpdated) ==> hasUpdated)
        decreases |todo|
      {
        var q :| q in todo;
        ghost var s := nodes;
        EdgePhaseAgain(n, s, callee, callee2Caller);
        UpdateCallerEdgesInternal(callee, p, f, q);
        PointeeStep(n, s, nodes, callee, callee2Caller, p, f, todo, q);
        todo := todo - {q};
      }
    }

    /** Both callee objects have been mapped, and every image has the field: neither check of the source can fail. */
    method UpdateCallerEdgesInternal(callee: Nodes, p: nat, f: int, q: nat)
      requires EdgePhase(nodes, nodes, callee, callee2Caller) && p in callee2Caller && f in Fields(callee, p)
      requires q in Pts(callee, Fields(callee, p)[f])
      requires Traced(trace, nodes)
      requires Accounted(start, roots, asked, nodes, callee, callee2Caller)
      requires hasUpdated ==> More(start, nodes)
      modifies this`nodes, this`hasUpdated, this`trace, this`asked
      ensures Traced(trace, nodes)
      ensures Accounted(start, roots, asked, nodes, callee, callee2Caller)
      ensures hasUpdated ==> More(start, nodes)
      ensures EdgePhase(old(nodes), nodes, callee, callee2Caller)
      ensures q in callee2Caller && Linked(nodes, callee2Caller, p, f, q)
      ensures !hasUpdated ==> nodes == old(nodes)
      ensures old(hasUpdated) ==> hasUpdated
    {
      hide *;
      ghost var n := nodes;
      PointeesMapped(n, callee, callee2Caller, p, f, q);
      NothingLinked(n, callee2Caller, p, f, q);
      var todo := callee2Caller[p];
      while todo != {}
        invariant Traced(trace, nodes)
        invariant Accounted(start, roots, asked, nodes, callee, callee2Caller)
        invariant hasUpdated ==> More(start, nodes)
        invariant todo <= callee2Caller[p] && EdgePhase(n, nodes, callee, callee2Caller)
        invariant LinkedBut(nodes, callee2Caller, p, f, q, todo)
        invariant (!hasUpdated ==> nodes == n) && (old(hasUpdated) ==> hasUpdated)
        decreases |todo|
      {
        var o :| o in todo;
        ghost var s := nodes;
        ImageHasField(n, s, callee, callee2Caller, p, f, o);
        EdgesFrom(callee, o, f, q, p);
        InternalStep(n, s, nodes, callee, callee2Caller, p, o, f, q, todo);
        todo := todo - {o};
      }
      AllLinked(nodes, callee2Caller, p, f, q);
    }

    method EdgesFrom(callee: Nodes, o: nat, f: int, q: nat, ghost p: nat)
      requires EdgePhase(nodes, nodes, callee, callee2Caller) && FieldOf(nodes, o, f).Some?
      requires o in MapsTo(callee2Caller, p) && f in Fields(callee, p) && q in Pts(callee, Fields(callee, p)[f])
      requires Traced(trace, nodes)
      requires Accounted(start, roots, asked, nodes, callee, callee2Caller)
      requires hasUpdated ==> More(start, nodes)
      modifies this`nodes, this`hasUpdated, this`trace, this`asked
      ensures Traced(trace, nodes)
      ensures Accounted(start, roots, asked, nodes, callee, callee2Caller)
      ensures hasUpdated ==> More(start, nodes)
      ensures EdgePhase(old(nodes), nodes, callee, callee2Caller)
      ensures LinkedFrom(nodes, callee2Caller, o, f, q, {})
      ensures !hasUpdated ==> nodes == old(nodes)
      ensures old(hasUpdated) ==> hasUpdated
    {
      hide *;
      ghost var n := nodes;
      NothingLinkedFrom(n, callee2Caller, o, f, q);
      var todo := MapsTo(callee2Caller, q);
      while todo != {}
        invariant Traced(trace, nodes)
        invariant Accounted(start, roots, asked, nodes, callee, callee2Caller)
        invariant hasUpdated ==> More(start, nodes)
        invariant todo <= MapsTo(callee2Caller, q) && EdgePhase(n, nodes, callee, callee2Caller)
        invariant LinkedFrom(nodes, callee2Caller, o, f, q, todo)
        invariant (!hasUpdated ==> nodes == n) && (old(hasUpdated) ==> hasUpdated)
        decreases |todo|
      {
        var t :| t in todo;
        ghost var s := nodes;
        var fieldNode := GetFieldNodeFromIdx(o, f);
        HasField(s, callee2Caller, o, f, q, todo);
        EdgePhaseField(n, s, callee, callee2Caller, o, f, q, t);
        var _ := AddOutNode(fieldNode.value, t);
        EdgesFromStep(n, s, nodes, callee, callee2Caller, o, f, q, t, todo);
        EdgeAccounted(start, roots, asked, n, s, nodes, callee, callee2Caller, p, o, f, q, t);
        asked := asked + {(fieldNode.value, t)};
        todo := todo - {t};
      }
    }

    /** The caller's result node gets an edge to every image of what the callee's result points to. */
    method LinkReturn(callee: Nodes, F: nat, ret: nat)
      requires ResultPhase(nodes, nodes, callee, callee2Caller) && Live(nodes, ret) && !IsObject(nodes, ret)
      requires (F, ret) in roots
      requires Traced(trace, nodes)
      requires Accounted(start, roots, asked, nodes, callee, callee2Caller)
      requires hasUpdated ==> More(start, nodes)
      modifies this`nodes, this`hasUpdated, this`callee2Caller, this`trace, this`asked
      ensures Traced(trace, nodes)
      ensures Accounted(start, roots, asked, nodes, callee, callee2Caller)
      ensures hasUpdated ==> More(start, nodes)
      ensures ResultPhase(old(nodes), nodes, callee, callee2Caller)
      ensures ResultLinkedBut(nodes, callee2Caller, ret, Pts(callee, F), {})
      ensures forall q: nat :: MapsTo(callee2Caller, q) == MapsTo(old(callee2Caller), q)
      ensures !hasUpdated ==> nodes == old(nodes)
      ensures old(hasUpdated) ==> hasUpdated
    {
      hide *;
      ghost var n, m := nodes, callee2Caller;
      NoResultLinked(n, m, ret, Pts(callee, F));
      var todo := Pts(callee, F);
      while todo != {}
        invariant Traced(trace, nodes)
        invariant Accounted(start, roots, asked, nodes, callee, callee2Caller)
        invariant hasUpdated ==> More(start, nodes)
        invariant todo <= Pts(callee, F) && ResultPhase(n, nodes, callee, callee2Caller)
        invariant ResultLinkedBut(nodes, callee2Caller, ret, Pts(callee, F), todo)
        invariant forall q: nat :: MapsTo(callee2Caller, q) == MapsTo(m, q)
        invariant (!hasUpdated ==> nodes == n) && (old(hasUpdated) ==> hasUpdated)
        decreases |todo|
      {
        var q :| q in todo;
        ghost var s, m1 := nodes, callee2Caller;
        if q !in callee2Caller {
          callee2Caller := callee2Caller[q := {}];
        }
        LookedUpMaps(m1, q);
        SameMapResult(n, s, callee, m1, callee2Caller, ret, Pts(callee, F), todo);
        ResultPhaseAgain(n, s, callee, callee2Caller, ret);
        LookedUpAccounted(start, roots, asked, s, callee, m1, callee2Caller, F, ret);
        LinkReturnTo(callee, q, ret, F);
        ResultPhaseGoesOn(n, s, nodes, callee, callee2Caller);
        ResultStaysLinked(s, nodes, callee2Caller, ret, Pts(callee, F), todo, q);
        todo := todo - {q};
      }
    }

    method LinkReturnTo(callee: Nodes, q: nat, ret: nat, ghost F: nat)
      requires ResultPhase(nodes, nodes, callee, callee2Caller) && Live(nodes, ret) && !IsObject(nodes, ret)
      requires (F, ret) in roots && q in Pts(callee, F)
      requires Traced(trace, nodes)
      requires Accounted(start, roots, asked, nodes, callee, callee2Caller)
      requires hasUpdated ==> More(start, nodes)
      modifies this`nodes, this`hasUpdated, this`trace, this`asked
      ensures Traced(trace, nodes)
      ensures Accounted(start, roots, asked, nodes, callee, callee2Caller)
      ensures hasUpdated ==> More(start, nodes)
      ensures ResultPhase(old(nodes), nodes, callee, callee2Caller)
      ensures LeadsAll(nodes, ret, MapsTo(callee2Caller, q), {})
      ensures !hasUpdated ==> nodes == old(nodes)
      ensures old(hasUpdated) ==> hasUpdated
    {
      hide *;
      ghost var n := nodes;
      NoneLed(n, ret, MapsTo(callee2Caller, q));
      var todo := MapsTo(callee2Caller, q);
      while todo != {}
        invariant Traced(trace, nodes)
        invariant Accounted(start, roots, asked, nodes, callee, callee2Caller)
        invariant hasUpdated ==> More(start, nodes)
        invariant todo <= MapsTo(callee2Caller, q) && ResultPhase(n, nodes, callee, callee2Caller)
        invariant LeadsAll(nodes, ret, MapsTo(callee2Caller, q), todo)
        invariant (!hasUpdated ==> nodes == n) && (old(hasUpdated) ==> hasUpdated)
        decreases |todo|
      {
        var o :| o in todo;
        ghost var s := nodes;
        if o !in Pts(nodes, ret) {
          ResultCanBeLinked(n, s, callee, callee2Caller, ret, q, o);
          var _ := AddOutNode(ret, o);
          ResultStep(n, s, nodes, callee, callee2Caller, ret, q, o, todo);
          ResultAccounted(start, roots, asked, n, s, nodes, callee, callee2Caller, F, q, ret, o);
          asked := asked + {(ret, o)};
        } else {
          AlreadyLed(s, ret, MapsTo(callee2Caller, q), todo, o);
        }
        todo := todo - {o};
      }
    }

    /** The result of the call, when the call site has one: its actual node leads to exactly one node. */
    method UpdateCallerRetNode(caller: seq<Actual>, callee: Nodes, calleeArgs: seq<Actual>)
      requires |caller| > 0 && |calleeArgs| > 0
      requires ResultPhase(nodes, nodes, callee, callee2Caller) && ResultReady(nodes, caller)
      requires caller[|caller| - 1].isReturn ==>
                 forall r :: r in Outs(nodes, Last(caller).node) ==> (Last(calleeArgs).node, r) in roots
      requires Traced(trace, nodes)
      requires Accounted(start, roots, asked, nodes, callee, callee2Caller)
      requires hasUpdated ==> More(start, nodes)
      modifies this`nodes, this`hasUpdated, this`callee2Caller, this`trace, this`asked
      ensures Traced(trace, nodes)
      ensures Accounted(start, roots, asked, nodes, callee, callee2Caller)
      ensures hasUpdated ==> More(start, nodes)
      ensures ResultPhase(old(nodes), nodes, callee, callee2Caller)
      ensures ResultEmbedded(old(nodes), nodes, callee, callee2Caller, caller, calleeArgs)
      ensures forall q: nat :: MapsTo(callee2Caller, q) == MapsTo(old(callee2Caller), q)
      ensures !hasUpdated ==> nodes == old(nodes)
      ensures old(hasUpdated) ==> hasUpdated
    {
      hide *;
      var lastInCaller := caller[|caller| - 1];
      var lastInCallee := calleeArgs[|calleeArgs| - 1];
      ghost var n := nodes;
      if !lastInCaller.isReturn {
        NoResult(n, callee, callee2Caller, caller, calleeArgs);
        return;
      }
      LastReads(caller);
      LastReads(calleeArgs);
      ghost var r := TheResult(n, caller);
      var ret :| ret in nodes[lastInCaller.node].outs;
      LinkReturn(callee, lastInCallee.node, ret);
      ResultIsEmbedded(n, nodes, callee, callee2Caller, caller, calleeArgs, ret);
    }

    // -------------------------------------------------------------------------------------------
    // Embedding a callee's graph: all phases.
    // -------------------------------------------------------------------------------------------

    /** Embeds the callee's summary graph between two trimmings. `embedding` is the map it used. */
    method EmbedCallee(caller: seq<Actual>, callee: Nodes, calleeArgs: seq<Actual>) returns (ghost embedding: ObjectMap)
      requires Inv(nodes) && WellKinded(callee) && CallSiteOk(nodes, caller) && |caller| > 0 && |calleeArgs| > 0
      requires Traced(trace, nodes) && !hasUpdated
      modifies this
      ensures Traced(trace, nodes)
      ensures Inv(nodes) && Merged(old(nodes), nodes, Summary(callee, calleeArgs), embedding, caller, madeFor)
      ensures Explained(old(nodes), nodes, Summary(callee, calleeArgs), embedding, caller, asked)
      ensures hasUpdated <==> nodes != old(nodes)
    {
      hide *;
      ghost var n := nodes;
      callee2Caller := map[];
      start, roots, asked := n, Roots(n, caller, calleeArgs), {};
      AccountStarts(n, roots, callee);
      RootsRead(n, caller, calleeArgs);
      CallSiteNodes(n, caller);
      UpdateCallerNodes(caller, callee, calleeArgs);
      ghost var n1, m1 := nodes, callee2Caller;
      AfterNodes(n, n1, callee, m1, madeFor, caller, calleeArgs);
      UpdateCallerEdges(callee);
      ghost var n2 := nodes;
      AfterEdges(n, n1, n2, callee, m1, madeFor, caller);
      ResultIsRoot(n, n1, n2, caller, calleeArgs);
      UpdateCallerRetNode(caller, callee, calleeArgs);
      embedding := callee2Caller;
      AfterResult(n, n1, n2, nodes, callee, m1, embedding, madeFor, caller, calleeArgs);
      MergedIsExplained(n, nodes, Summary(callee, calleeArgs), embedding, caller, madeFor, asked);
      if hasUpdated {
        MoreIsOther(n, nodes);
      }
      callee2Caller := map[];
    }

    // -------------------------------------------------------------------------------------------
    // Replacing globally escaping nodes by the global nodes.
    // -------------------------------------------------------------------------------------------

    method UpdateAll(ids: set<nat>, edit: Node -> Node)
      requires Inside(nodes, ids)
      modifies this`nodes
      ensures nodes == Edited(old(nodes), ids, edit)
    {
      ghost var n := nodes;
      var rest := ids;
      while rest != {}
        invariant rest <= ids && nodes == Edited(n, ids - rest, edit)
        decreases |rest|
      {
        var x :| x in rest;
        nodes := nodes[x := edit(nodes[x])];
        rest := rest - {x};
      }
      assert ids - {} == ids;
    }

    method ReplaceObjectByGlobalNode(k: nat)
      requires k < |nodes| && Inside(nodes, By(nodes, k)) && Inside(nodes, Ins(nodes, k))
      requires Inside(nodes, FieldSet(nodes, k))
      modifies this`nodes
      ensures nodes == ObjectReplaced(old(nodes), k)
    {
      ghost var t := nodes;
      UpdateAll(nodes[k].pointsBy, SwapPointsTo(k, GLOBAL_OBJ));
      assert Ins(nodes, k) == Ins(t, k) && Fields(nodes, k) == Fields(t, k);
      UpdateAll(nodes[k].ins, SwapOut(k, GLOBAL_OBJ));
      assert Fields(nodes, k) == Fields(t, k);
      UpdateAll(FieldSet(nodes, k), EraseBelongs(k));
      nodes := nodes[k := EMPTY_SLOT];
    }

    method ReplaceRefByGlobalNode(k: nat)
      requires k < |nodes| && GLOBAL_REF < |nodes|
      requires Inside(nodes, Ins(nodes, k)) && Inside(nodes, Outs(nodes, k)) && Inside(nodes, Pts(nodes, k))
      modifies this`nodes
      ensures nodes == RefReplaced(old(nodes), k)
    {
      ghost var t := nodes;
      UpdateAll(nodes[k].ins, SwapOut(k, GLOBAL_REF));
      assert Inside(nodes, Outs(nodes, k)) && Pts(nodes, k) == Pts(t, k);
      UpdateAll(nodes[k].outs, EraseIn(k));
      assert Pts(nodes, k) == Pts(t, k);
      UpdateAll(nodes[k].pointsTo, ErasePointsBy(k));
      nodes := nodes[k := EMPTY_SLOT];
    }

    method ReplaceActualByGlobalNode(k: nat)
      requires k < |nodes| && Inside(nodes, Ins(nodes, k))
      modifies this`nodes
      ensures nodes == ActualReplaced(old(nodes), k)
    {
      UpdateAll(nodes[k].ins, EraseOut(k));
      nodes := nodes[k := nodes[k].(ins := {})];
    }

    method ReplaceFieldByGlobalNode(k: nat)
      requires k < |nodes|
      requires Inside(nodes, Ins(nodes, k)) && Inside(nodes, Outs(nodes, k)) && Inside(nodes, Pts(nodes, k))
      requires Inside(nodes, Belongs(nodes, k))
      modifies this`nodes
      ensures nodes == FieldReplaced(old(nodes), k)
    {
      ghost var t := nodes;
      UpdateAll(nodes[k].pointsTo, ErasePointsBy(k));
      nodes := nodes[k := nodes[k].(pointsTo := {GLOBAL_OBJ})];
      assert Outs(nodes, k) == Outs(t, k);
      UpdateAll(nodes[k].outs, EraseIn(k));
      nodes := nodes[k := nodes[k].(outs := {GLOBAL_OBJ})];
      FieldClearedNode(t, k, k);
      assert nodes == FieldCleared(t, k);
      ghost var d := nodes;
      var canDelete := DropGlobalOwners(k);
      if canDelete {
        assert Ins(nodes, k) == Ins(d, k) <= Ins(t, k);
        UpdateAll(nodes[k].ins, SwapOut(k, GLOBAL_FIELD));
        nodes := nodes[k := EMPTY_SLOT];
      }
    }

    method DropGlobalOwners(k: nat) returns (canDelete: bool)
      requires k < |nodes| && Inside(nodes, Belongs(nodes, k))
      modifies this`nodes
      ensures nodes == old(nodes)[k := old(nodes)[k].(
                         belongsTo := StayingOwners(old(nodes), Belongs(old(nodes), k), {}))]
      ensures canDelete <==> Belongs(nodes, k) == {}
    {
      ghost var d := nodes;
      var rest := nodes[k].belongsTo;
      ghost var owners := rest;
      canDelete := true;
      assert StayingOwners(d, owners, owners) == owners;
      while rest != {}
        invariant rest <= owners && |nodes| == |d|
        invariant nodes == d[k := d[k].(belongsTo := StayingOwners(d, owners, rest))]
        invariant canDelete <==> forall o :: o in owners && o !in rest ==> Status(d, o) == GLOBAL_ESCAPE
        decreases |rest|
      {
        var o :| o in rest;
        assert Status(nodes, o) == Status(d, o);
        if nodes[o].eaStatus != GLOBAL_ESCAPE {
          canDelete := false;
          assert StayingOwners(d, owners, rest - {o}) == StayingOwners(d, owners, rest);
        } else {
          nodes := nodes[k := nodes[k].(belongsTo := nodes[k].belongsTo - {o})];
          assert StayingOwners(d, owners, rest - {o}) == StayingOwners(d, owners, rest) - {o};
        }
        rest := rest - {o};
      }
      assert forall o :: o in owners && Status(d, o) != GLOBAL_ESCAPE ==> o in StayingOwners(d, owners, {});
    }

    /** Node `k` of the graph `n` is next; everything before it has been trimmed. */
    method ReplaceByGlobalNode(k: nat, ghost n: Nodes)
      requires Inv(n) && nodes == Trimmed(n, k) && k < |nodes|
      requires !IsGlobal(k) && nodes[k].kind != NullSlot && nodes[k].eaStatus == GLOBAL_ESCAPE
      modifies this`nodes
      ensures nodes == Trimmed(n, k + 1)
    {
      NeighboursInside(n, k);
      TurnOf(n, k);
      match nodes[k].kind
      case ObjectNode =>
        assert nodes[k].outs == {};
        ReplaceObjectByGlobalNode(k);
        ObjectTrimmed(n, k);
      case ReferenceNode =>
        assert forall v :: v in nodes[k].ins ==> v > 2;
        ReplaceRefByGlobalNode(k);
        RefTrimmed(n, k);
      case ActualNode =>
        ReplaceActualByGlobalNode(k);
        ActualTrimmed(n, k);
      case FieldNode =>
        assert forall v :: v in nodes[k].ins ==> !IsObject(nodes, v);
        OwnersInside(n, k);
        ReplaceFieldByGlobalNode(k);
        FieldTrimmed(n, k);
    }

    method TrimGlobalNode()
      requires Inv(nodes)
      requires Traced(trace, nodes)
      modifies this`nodes, this`trace
      ensures Traced(trace, nodes)
      ensures nodes == AllTrimmed(old(nodes)) && Inv(nodes)
    {
      hide *;
      ghost var n := nodes;
      TrimStarts(n);
      var i := 0;
      while i < |nodes|
        invariant Traced(trace, n)
        invariant i <= |nodes| == |n| && nodes == Trimmed(n, i)
      {
        TurnReads(n, i);
        if nodes[i].kind != NullSlot && i > GLOBAL_FIELD && nodes[i].eaStatus == GLOBAL_ESCAPE {
          ReplaceByGlobalNode(i, n);
        } else {
          PassedOver(n, i);
        }
        i := i + 1;
        TrimmedSize(n, i);
      }
      TrimmedToEnd(n);
      TrimKeepsInv(n);
      TrimIsBuilt(n);
      TraceGrows(trace, n, Trim, nodes);
      trace := trace + [nodes];
    }

    // -------------------------------------------------------------------------------------------
    // Calls.
    // -------------------------------------------------------------------------------------------

    /** Lets every object `v` points to escape globally. */
    method EscapePointees(v: nat)
      requires Inv(nodes)
      requires Traced(trace, nodes)
      modifies this`nodes, this`hasUpdated, this`trace
      ensures Traced(trace, nodes)
      ensures Inv(nodes) && RaisedOnly(old(nodes), nodes) && Escapes(nodes, v)
      ensures RaisedFrom(old(nodes), nodes, Pts(old(nodes), v))
      ensures hasUpdated == (old(hasUpdated) || nodes != old(nodes))
    {
      hide *;
      ghost var n := nodes;
      EscapingStarts(n, v);
      var todo := Pts(nodes, v);
      while todo != {}
        invariant Traced(trace, nodes)
        invariant Escaping(n, nodes, v, todo)
        invariant hasUpdated == (old(hasUpdated) || nodes != n)
        decreases |todo|
      {
        var o :| o in todo;
        ghost var s := nodes;
        EscapingOn(n, s, v, todo, o);
        var raised := UpdateEAStatus(o, GLOBAL_ESCAPE);
        EscapingNext(n, s, nodes, v, todo, o);
        EscapingChanges(n, s, nodes, v, todo, o);
        RaiseIsBuilt(s, nodes, o, GLOBAL_ESCAPE);
        TraceGrows(trace, s, Raise(o, GLOBAL_ESCAPE), nodes);
        trace := trace + [nodes];
        todo := todo - {o};
      }
      EscapingEnds(n, nodes, v);
    }

    /** A callee without a summary may do anything with its arguments. */
    method EscapeArguments(caller: seq<Actual>)
      requires Inv(nodes)
      requires Traced(trace, nodes)
      modifies this`nodes, this`hasUpdated, this`trace
      ensures Traced(trace, nodes)
      ensures Inv(nodes) && AllEscaped(old(nodes), nodes, caller)
      ensures hasUpdated == (old(hasUpdated) || nodes != old(nodes))
    {
      hide *;
      ghost var n := nodes;
      RaisedOnlySelf(n);
      var i := 0;
      while i < |caller|
        invariant Traced(trace, nodes)
        invariant 0 <= i <= |caller| && Inv(nodes) && RaisedOnly(n, nodes)
        invariant RaisedFrom(n, nodes, PointeesOf(n, caller))
        invariant forall j :: 0 <= j < i ==> Escapes(nodes, caller[j].node)
        invariant hasUpdated == (old(hasUpdated) || nodes != n)
      {
        ghost var s := nodes;
        EscapePointees(caller[i].node);
        OthersStayOther(n, s, nodes);
        forall j | 0 <= j < i
          ensures Escapes(nodes, caller[j].node)
        {
          StaysEscaping(s, nodes, caller[j].node);
        }
        PointeesRead(n, s, caller, i);
        RaisedFromTrans(n, s, nodes, PointeesOf(n, caller), Pts(s, caller[i].node));
        RaisedOnlyTrans(n, s, nodes);
        i := i + 1;
      }
      EscapedArguments(n, nodes, caller);
    }

    /** Accounts for one call: `merged` is the graph before the last trimming. */
    method MergeCG(caller: seq<Actual>, callee: Option<Summary>)
        returns (cgChanged: bool, ghost merged: Nodes, ghost embedding: ObjectMap)
      requires Inv(nodes) && CallSiteOk(nodes, caller)
      requires callee.Some? ==> WellKinded(callee.value.nodes) && SizesAgree(caller, callee.value.args)
      requires Traced(trace, nodes)
      modifies this
      ensures Traced(trace, nodes)
      ensures Inv(nodes) && Inv(merged)
      ensures nodes == AllTrimmed(merged) || nodes == merged == AllTrimmed(old(nodes))
      ensures callee == None ==> AllEscaped(AllTrimmed(old(nodes)), merged, caller)
      ensures callee.Some? && |caller| > 0 && |callee.value.args| > 0 ==>
        && Merged(AllTrimmed(old(nodes)), merged, callee.value, embedding, caller, madeFor)
        && Explained(AllTrimmed(old(nodes)), merged, callee.value, embedding, caller, asked)
      ensures callee.Some? && (|caller| == 0 || |callee.value.args| == 0) ==> nodes == AllTrimmed(old(nodes))
      ensures cgChanged <==> merged != AllTrimmed(old(nodes))
      ensures hasUpdated == (old(hasUpdated) || cgChanged)
    {
      hide *;
      CallSiteStaysOk(nodes, caller);
      TrimGlobalNode();
      var oldStatus := hasUpdated;
      hasUpdated := false;
      embedding := map[];
      if callee == None {
        EscapeArguments(caller);
        cgChanged := hasUpdated;
        if !cgChanged {
          hasUpdated := oldStatus;
        }
        merged := nodes;
        TrimGlobalNode();
      } else if |caller| == 0 || |callee.value.args| == 0 {
        cgChanged := hasUpdated;
        hasUpdated := oldStatus;
        merged := nodes;
      } else {
        embedding := EmbedCallee(caller, callee.value.nodes, callee.value.args);
        cgChanged := hasUpdated;
        if !cgChanged {
          hasUpdated := oldStatus;
        }
        merged := nodes;
        TrimGlobalNode();
      }
    }

    static method PointsToEscaping(graph: Nodes, v: nat) returns (hasGlobalEA: bool)
      ensures hasGlobalEA <==> HasGlobal(graph, v)
    {
      var todo := Pts(graph, v);
      while todo != {}
        invariant todo <= Pts(graph, v)
        invariant forall o :: o in Pts(graph, v) && o !in todo ==> Status(graph, o) != GLOBAL_ESCAPE
        decreases |todo|
      {
        var o :| o in todo;
        if Status(graph, o) == GLOBAL_ESCAPE {
          return true;
        }
        todo := todo - {o};
      }
      hasGlobalEA := false;
    }

    /** The caller's graph `callerGraph` tells this callee which of its arguments escape globally. */
    method UpdateEACGFromCaller(callerGraph: Nodes, callerArgs: seq<Actual>, calleeArgs: seq<Actual>)
        returns (ghost raised: Nodes)
      requires Inv(nodes)
      requires |callerArgs| <= |calleeArgs|
            || (|callerArgs| == |calleeArgs| + 1 && callerArgs[|callerArgs| - 1].isReturn)
      requires Traced(trace, nodes)
      modifies this`nodes, this`hasUpdated, this`trace
      ensures Traced(trace, nodes)
      ensures Inv(nodes) && nodes == AllTrimmed(raised) && RaisedOnly(old(nodes), raised)
      ensures EndangeredEscape(callerGraph, callerArgs, calleeArgs, raised, |callerArgs|)
      ensures RaisedFrom(old(nodes), raised, EndangeredPointees(callerGraph, callerArgs, calleeArgs, old(nodes)))
      ensures hasUpdated <==> raised != old(nodes)
    {
      hide *;
      ghost var n := nodes;
      RaisedOnlySelf(n);
      hasUpdated := false;
      var i := 0;
      NoneEndangered(callerGraph, callerArgs, calleeArgs, n);
      while i < |callerArgs|
        invariant Traced(trace, nodes)
        invariant 0 <= i <= |callerArgs| && Inv(nodes) && RaisedOnly(n, nodes)
        invariant EndangeredEscape(callerGraph, callerArgs, calleeArgs, nodes, i)
        invariant RaisedFrom(n, nodes, EndangeredPointees(callerGraph, callerArgs, calleeArgs, n))
        invariant hasUpdated <==> nodes != n
      {
        ghost var s := nodes;
        RaisedOnlySelf(s);
        if i == |callerArgs| - 1 && callerArgs[i].isReturn {
          NextEndangered(callerGraph, callerArgs, calleeArgs, s, nodes, i);
          break;
        }
        var hasGlobalEA := PointsToEscaping(callerGraph, callerArgs[i].node);
        if hasGlobalEA {
          EscapePointees(calleeArgs[i].node);
          OthersStayOther(n, s, nodes);
          EndangeredRead(callerGraph, callerArgs, calleeArgs, n, s, i);
          RaisedFromTrans(n, s, nodes, EndangeredPointees(callerGraph, callerArgs, calleeArgs, n),
                          Pts(s, calleeArgs[i].node));
          RaisedOnlyTrans(n, s, nodes);
        }
        NextEndangered(callerGraph, callerArgs, calleeArgs, s, nodes, i);
        i := i + 1;
      }
      raised := nodes;
      if hasUpdated {
        PropogateEAStatus();
      }
      TrimGlobalNode();
    }
  }
}
