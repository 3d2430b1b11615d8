/** The nodes of an escape-analysis connection graph and the facts that hold of them in every reachable state. */
module EscapeNodes {
  import opened Wrappers
  import opened Chains

  /** `NullSlot` is what is left of a deleted node. */
  datatype NodeKind = ObjectNode | ReferenceNode | ActualNode | FieldNode | NullSlot

  type EAStatus = s: nat | s <= 3
  const NO_ESCAPE: EAStatus := 0
  const RETURN_ESCAPE: EAStatus := 1
  const ARGUMENT_ESCAPE: EAStatus := 2
  const GLOBAL_ESCAPE: EAStatus := 3

  /** The three nodes every graph starts with. */
  const GLOBAL_OBJ: nat := 0
  const GLOBAL_REF: nat := 1
  const GLOBAL_FIELD: nat := 2
  /** The field id that stands for all fields. */
  const ANY_FIELD: int := -1

  /** One node; other nodes are referred to by their position in the graph's node vector. */
  datatype Node = Node(kind: NodeKind, eaStatus: EAStatus, ins: set<nat>, outs: set<nat>, pointsTo: set<nat>,
                       pointsBy: set<nat>, fieldNodes: map<int, nat>, belongsTo: set<nat>)

  type Nodes = seq<Node>

  function Pts(n: Nodes, v: nat): set<nat> {
    if v < |n| then n[v].pointsTo else {}
  }

  function By(n: Nodes, v: nat): set<nat> {
    if v < |n| then n[v].pointsBy else {}
  }

  function Ins(n: Nodes, v: nat): set<nat> {
    if v < |n| then n[v].ins else {}
  }

  function Outs(n: Nodes, v: nat): set<nat> {
    if v < |n| then n[v].outs else {}
  }

  function Status(n: Nodes, v: nat): EAStatus {
    if v < |n| then n[v].eaStatus else NO_ESCAPE
  }

  function Fields(n: Nodes, v: nat): map<int, nat> {
    if v < |n| then n[v].fieldNodes else map[]
  }

  function Belongs(n: Nodes, v: nat): set<nat> {
    if v < |n| then n[v].belongsTo else {}
  }

  function Kind(n: Nodes, v: nat): NodeKind {
    if v < |n| then n[v].kind else NullSlot
  }

  ghost predicate IsObject(n: Nodes, v: nat) {
    Kind(n, v) == ObjectNode
  }

  ghost predicate IsField(n: Nodes, v: nat) {
    Kind(n, v) == FieldNode
  }

  ghost predicate Live(n: Nodes, v: nat) {
    Kind(n, v) != NullSlot
  }

  /** The field node of object `o` for field `f`: the node for all fields when there is one. */
  ghost function FieldOf(n: Nodes, o: nat, f: int): Option<nat> {
    if ANY_FIELD in Fields(n, o) then Some(Fields(n, o)[ANY_FIELD])
    else if f in Fields(n, o) then Some(Fields(n, o)[f])
    else None
  }

  /** The `out` edges as successor sets. */
  ghost function OutEdges(n: Nodes): seq<set<nat>> {
    seq(|n|, (v: nat) => Outs(n, v))
  }

  /** The nodes an escape status is handed on to: the fields of an object, the `out` nodes of any other node. */
  ghost function FlowsTo(n: Nodes, v: nat): set<nat> {
    if IsObject(n, v) then (set f | f in Fields(n, v) :: Fields(n, v)[f]) else Outs(n, v)
  }

  ghost function FlowEdges(n: Nodes): seq<set<nat>> {
    seq(|n|, (v: nat) => FlowsTo(n, v))
  }

  ghost predicate IsGlobal(v: nat) {
    v <= GLOBAL_FIELD
  }

  // ---------------------------------------------------------------------------------------------
  // The invariant.
  // ---------------------------------------------------------------------------------------------

  /** Every node reference leads to a node that was not deleted and has the kind it must have. */
  ghost predicate WellKinded(n: Nodes) {
    && |n| > GLOBAL_FIELD
    && (forall v: nat, w: nat {:trigger w in Outs(n, v)} :: w in Outs(n, v) ==> Live(n, w))
    && (forall v: nat, w: nat {:trigger w in Ins(n, v)} :: w in Ins(n, v) ==> Live(n, w))
    && (forall v: nat, o: nat {:trigger o in Pts(n, v)} :: o in Pts(n, v) ==> IsObject(n, o))
    && (forall v: nat :: IsObject(n, v) ==> Outs(n, v) == {} && Pts(n, v) == {v})
  }

  ghost predicate Lists(n: Nodes, o: nat, x: nat) {
    exists f :: f in Fields(n, o) && Fields(n, o)[f] == x
  }

  /** `belongsTo` mirrors `fieldNodes`: every field node belongs to the one older object that lists it. */
  ghost predicate Owned(n: Nodes) {
    && (forall o: nat, f {:trigger Fields(n, o)[f]} :: f in Fields(n, o) ==>
          IsField(n, Fields(n, o)[f]) && Belongs(n, Fields(n, o)[f]) == {o} && o < Fields(n, o)[f])
    && (forall x: nat, o: nat {:trigger o in Belongs(n, x)} :: o in Belongs(n, x) ==>
          IsObject(n, o) && Lists(n, o, x))
    && (forall o: nat, f, g {:trigger Fields(n, o)[f], Fields(n, o)[g]} ::
          f in Fields(n, o) && g in Fields(n, o) && Fields(n, o)[f] == Fields(n, o)[g] ==> f == g)
  }

  /** `in` mirrors `out`; only the three global nodes may miss predecessors. */
  ghost predicate EdgesMirror(n: Nodes) {
    && (forall v: nat, w: nat {:trigger v in Ins(n, w)} :: v in Ins(n, w) ==> w in Outs(n, v))
    && (forall v: nat, w: nat {:trigger w in Outs(n, v)} :: w in Outs(n, v) && !IsGlobal(w) ==> v in Ins(n, w))
  }

  /** `pointsBy` mirrors `pointsTo`; only the global object may miss entries. */
  ghost predicate PointsMirror(n: Nodes) {
    && (forall v: nat, o: nat {:trigger v in By(n, o)} :: v in By(n, o) ==> o in Pts(n, v))
    && (forall v: nat, o: nat {:trigger o in Pts(n, v)} :: o in Pts(n, v) && o != GLOBAL_OBJ ==> v in By(n, o))
  }

  /** A node points to everything its `out` nodes point to. */
  ghost predicate PointsClosed(n: Nodes) {
    forall v: nat, w: nat {:trigger w in Outs(n, v)} :: w in Outs(n, v) ==> Pts(n, w) <= Pts(n, v)
  }

  /** A node points only to objects it reaches over `out` edges, or to the global object. */
  ghost predicate PointsReached(n: Nodes) {
    forall v: nat, o: nat {:trigger o in Pts(n, v)} ::
      o in Pts(n, v) && o != GLOBAL_OBJ ==> Reaches(OutEdges(n), v, o)
  }

  /** The escape status never decreases along `out` edges and from an object to its fields. */
  ghost predicate StatusFlows(n: Nodes) {
    forall v: nat, w: nat {:trigger w in FlowsTo(n, v)} :: w in FlowsTo(n, v) ==> Status(n, v) <= Status(n, w)
  }

  /** The global nodes escape globally, point to the global object, and lead nowhere else. */
  ghost predicate GlobalsFixed(n: Nodes) {
    && |n| > GLOBAL_FIELD && IsObject(n, GLOBAL_OBJ) && Kind(n, GLOBAL_REF) == ReferenceNode && IsField(n, GLOBAL_FIELD)
    && Fields(n, GLOBAL_OBJ) == map[ANY_FIELD := GLOBAL_FIELD]
    && (forall v: nat :: IsGlobal(v) ==> Status(n, v) == GLOBAL_ESCAPE && Pts(n, v) == {GLOBAL_OBJ})
    && (forall v: nat, w: nat {:trigger w in Outs(n, v)} :: IsGlobal(v) && w in Outs(n, v) ==> IsGlobal(w))
    && (forall v: nat, w: nat {:trigger v in Ins(n, w)} :: v in Ins(n, w) && IsGlobal(v) ==> IsGlobal(w))
  }

  /** A node without points-to objects has no predecessor: an edge is only ever added to a node that has some. */
  ghost predicate EmptyUnused(n: Nodes) {
    forall v: nat :: Pts(n, v) == {} ==> Ins(n, v) == {}
  }

  ghost predicate Inv(n: Nodes) {
    && WellKinded(n) && Owned(n) && EdgesMirror(n) && PointsMirror(n) && PointsClosed(n) && PointsReached(n)
    && StatusFlows(n) && GlobalsFixed(n) && EmptyUnused(n)
  }

  /** Before any trimming `in` and `pointsBy` mirror `out` and `pointsTo` without exception. */
  ghost predicate ExactMirrors(n: Nodes) {
    && (forall v: nat, w: nat {:trigger v in Ins(n, w)} {:trigger w in Outs(n, v)} ::
          v in Ins(n, w) <==> w in Outs(n, v))
    && (forall v: nat, o: nat {:trigger v in By(n, o)} {:trigger o in Pts(n, v)} ::
          v in By(n, o) <==> o in Pts(n, v))
  }

  /** Before any trimming the objects a node points to are exactly the objects it reaches over `out` edges. */
  ghost predicate ExactPoints(n: Nodes) {
    forall v: nat, o: nat {:trigger o in Pts(n, v)} {:trigger Reaches(OutEdges(n), v, o)} ::
      v < |n| ==> (o in Pts(n, v) <==> IsObject(n, o) && Reaches(OutEdges(n), v, o))
  }

  ghost predicate Exact(n: Nodes) {
    ExactMirrors(n) && ExactPoints(n)
  }
}
