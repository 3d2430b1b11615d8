/** Whole runs: every connection graph that node creation, new edges, raised statuses and trimming can build. */
module EscapeRuns {
  import opened EscapeNodes
  import opened EscapeSpread
  import opened EscapeSteps
  import opened EscapeCreate
  import opened EscapeAddOut
  import opened EscapeTrimmed
  import opened Chains
  import opened Wrappers

  datatype GraphOp =
    | NewObject(st: EAStatus)
    | NewLocal(kind: NodeKind, st: EAStatus)
    | NewField(st: EAStatus, fid: int, owner: nat)
    | NewOut(v: nat, w: nat)
    | Raise(v: nat, st: EAStatus)
    | Trim

  /** `n'` is what the operation makes of `n`. */
  ghost predicate Builds(n: Nodes, op: GraphOp, n': Nodes) {
    match op
    case NewObject(st) => n' == ObjectCreated(n, st)
    case NewLocal(kind, st) => (kind == ReferenceNode || kind == ActualNode) && n' == LocalCreated(n, kind, st)
    case NewField(st, fid, owner) =>
      IsObject(n, owner) && Status(n, owner) <= st && FieldOf(n, owner, fid) == None
      && n' == FieldCreated(n, st, fid, owner)
    case NewOut(v, w) => CanAdd(n, v, w) && OutNodeAdded(n, n', v, w)
    case Raise(v, st) => v < |n| && StatusSpread(n, n', v, st)
    case Trim => n' == AllTrimmed(n)
  }

  /** A run from the graph with only the global nodes. */
  ghost predicate Run(ops: seq<GraphOp>, graphs: seq<Nodes>) {
    && |graphs| == |ops| + 1 && graphs[0] == GlobalNodes()
    && forall i :: 0 <= i < |ops| ==> Builds(graphs[i], ops[i], graphs[i + 1])
  }

  /** Nothing has been trimmed before the graph `i`. */
  ghost predicate Untrimmed(ops: seq<GraphOp>, i: nat) {
    forall j :: 0 <= j < i && j < |ops| ==> ops[j] != Trim
  }

  lemma BuildKeeps(n: Nodes, op: GraphOp, n': Nodes)
    requires Inv(n) && Builds(n, op, n')
    ensures Inv(n') && (Exact(n) && op != Trim ==> Exact(n'))
  {
    hide Inv, Exact, AllTrimmed;
    match op
    case NewObject(st) =>
      ObjectIsOneMore(n, st);
      CreateKeeps(n, n', ObjectNode, st, 0, 0);
    case NewLocal(kind, st) =>
      LocalIsOneMore(n, kind, st);
      CreateKeeps(n, n', kind, st, 0, 0);
    case NewField(st, fid, owner) =>
      FieldIsOneMore(n, st, fid, owner);
      CreateKeeps(n, n', FieldNode, st, fid, owner);
    case NewOut(v, w) => AddedKeepsInv(n, n', v, w);
    case Raise(v, st) => RaiseKeepsInv(n, n', v, st);
    case Trim => TrimKeepsInv(n);
  }

  lemma CreateKeeps(n: Nodes, n': Nodes, kind: NodeKind, st: EAStatus, fid: int, owner: nat)
    requires Inv(n) && OneMore(n, n', kind, st, fid, owner)
    ensures Inv(n') && (Exact(n) ==> Exact(n'))
  {
    hide *;
    CreateKeepsInv(n, n', kind, st, fid, owner);
    if Exact(n) {
      CreateKeepsExact(n, n', kind, st, fid, owner);
    }
  }

  lemma {:induction false} RunKeeps(ops: seq<GraphOp>, graphs: seq<Nodes>, i: nat)
    requires Run(ops, graphs) && i < |graphs|
    ensures Inv(graphs[i]) && (Untrimmed(ops, i) ==> Exact(graphs[i]))
  {
    if i == 0 {
      GlobalNodesOk();
    } else {
      RunKeeps(ops, graphs, i - 1);
      BuildKeeps(graphs[i - 1], ops[i - 1], graphs[i - 1 + 1]);
      hide Inv, Exact, Builds;
    }
  }

  /** In every graph of a run, until something is trimmed, a node points to exactly the objects it reaches over `out`
      edges, and `in` and `pointsBy` are the inverses of `out` and `pointsTo`. */
  lemma PointsToIsReachability(ops: seq<GraphOp>, graphs: seq<Nodes>, i: nat, v: nat, o: nat)
    requires Run(ops, graphs) && i < |graphs| && v < |graphs[i]| && Untrimmed(ops, i)
    ensures o in Pts(graphs[i], v) <==> IsObject(graphs[i], o) && Reaches(OutEdges(graphs[i]), v, o)
    ensures v in By(graphs[i], o) <==> o in Pts(graphs[i], v)
    ensures v in Ins(graphs[i], o) <==> o in Outs(graphs[i], v)
  {
    RunKeeps(ops, graphs, i);
  }

  /** In every graph of every run the status never falls along an `out` edge, from an object to a field, or from a
      node to what it points to. */
  lemma StatusNeverFalls(ops: seq<GraphOp>, graphs: seq<Nodes>, i: nat, v: nat, w: nat)
    requires Run(ops, graphs) && i < |graphs|
    requires w in Outs(graphs[i], v) || w in Pts(graphs[i], v) || Lists(graphs[i], v, w)
    ensures Status(graphs[i], v) <= Status(graphs[i], w)
  {
    RunKeeps(ops, graphs, i);
    StatusIsMonotone(graphs[i], v, w);
  }

  lemma StatusIsMonotone(n: Nodes, v: nat, w: nat)
    requires Inv(n) && (w in Outs(n, v) || w in Pts(n, v) || Lists(n, v, w))
    ensures Status(n, v) <= Status(n, w)
  {
    if w in Pts(n, v) {
      StatusToPointee(n, v, w);
    } else if w in Outs(n, v) {
      assert !IsObject(n, v) && w in FlowsTo(n, v);
    } else {
      var f :| f in Fields(n, v) && Fields(n, v)[f] == w;
      assert Belongs(n, w) == {v};
      assert IsObject(n, v) && w in FlowsTo(n, v);
    }
  }

  /** A way through the graph: every node is an `out` node or a field of the one before, or something it points to. */
  ghost predicate Way(n: Nodes, p: seq<nat>) {
    forall i {:trigger p[i]} :: 0 <= i < |p| - 1 ==>
      p[i + 1] in Outs(n, p[i]) || p[i + 1] in Pts(n, p[i]) || Lists(n, p[i], p[i + 1])
  }

  /** Once a node escapes globally, everything that can be reached from it over edges, fields and points-to sets
      escapes globally. */
  lemma {:induction false} GlobalEscapeIsClosed(ops: seq<GraphOp>, graphs: seq<Nodes>, i: nat, p: seq<nat>)
    requires Run(ops, graphs) && i < |graphs| && p != [] && Way(graphs[i], p)
    requires Status(graphs[i], p[0]) == GLOBAL_ESCAPE
    ensures Status(graphs[i], p[|p| - 1]) == GLOBAL_ESCAPE
    decreases |p|
  {
    if |p| > 1 {
      var q := p[..|p| - 1];
      assert Way(graphs[i], q);
      GlobalEscapeIsClosed(ops, graphs, i, q);
      assert p[|p| - 2] == q[|q| - 1];
      StatusNeverFalls(ops, graphs, i, p[|p| - 2], p[|p| - 1]);
    }
  }

  // ---------------------------------------------------------------------------------------------
  // The graphs of one object.
  // ---------------------------------------------------------------------------------------------

  /** `trace` holds the graphs of a run so far, and `n` is the last of them. */
  ghost predicate Traced(trace: seq<Nodes>, n: Nodes) {
    && |trace| > 0 && trace[0] == GlobalNodes() && trace[|trace| - 1] == n
    && forall i {:trigger trace[i]} :: 0 <= i < |trace| - 1 ==> OneStep(trace[i], trace[i + 1])
  }

  ghost predicate OneStep(n: Nodes, n': Nodes) {
    exists op :: Builds(n, op, n')
  }

  lemma TraceStarts()
    ensures Traced([GlobalNodes()], GlobalNodes())
  {
  }

  lemma TraceGrows(trace: seq<Nodes>, n: Nodes, op: GraphOp, n': Nodes)
    requires Builds(n, op, n')
    ensures Traced(trace, n) ==> Traced(trace + [n'], n')
  {
    hide Builds;
    assert OneStep(n, n');
  }

  /** Every trace is a run, so that the results above hold of it. */
  lemma {:induction false} TraceIsRun(trace: seq<Nodes>, n: Nodes) returns (ops: seq<GraphOp>)
    requires Traced(trace, n)
    ensures Run(ops, trace)
    decreases |trace|
  {
    hide Builds;
    if |trace| == 1 {
      ops := [];
    } else {
      var before := trace[..|trace| - 1];
      assert Traced(before, trace[|trace| - 2]);
      ops := TraceIsRun(before, trace[|trace| - 2]);
      assert OneStep(trace[|trace| - 2], trace[|trace| - 2 + 1]);
      var op :| Builds(trace[|trace| - 2], op, n);
      ops := ops + [op];
    }
  }
}
