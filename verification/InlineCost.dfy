/** Deciding by its size whether a callee is inlined, with costs that are remembered. */
module InlineCost {

  /** The kinds of nodes that cost differently. */
  datatype Op =
    | BlockOp
    | SwitchOp(cases: nat)
    | CallOp(setjmp: bool)
    /** Other calls, and throwing. */
    | CallLike
    | Intrinsic(kind: IntrinsicKind)
    /** Try regions, catch blocks and synchronisation: a callee with one of these is never inlined. */
    | Forbidden
    | Membar
    /** Comments, returns and labels. */
    | FreeOp
    | Dread(scope: Scope)
    | Dassign(scope: Scope)
    | Cvt
    | Alloca
    | OtherOp

  /** Pu-static variables are kept among the locals of their function. */
  datatype Scope = Local | PuStatic | Global

  datatype IntrinsicKind = CheapIntrinsic | Merge | InstanceOf | OvTable | OtherIntrinsic

  datatype Node = Node(op: Op, children: seq<Node>)

  /** What statements are made of: other operations stand for structured statements as well as for expressions. */
  ghost predicate IsStatement(op: Op) {
    !(op.Intrinsic? || op.Dread? || op.Cvt? || op.Alloca?)
  }

  ghost predicate IsExpression(op: Op) {
    op.Intrinsic? || op.Dread? || op.Cvt? || op.Alloca? || op.OtherOp?
  }

  /** Blocks hold statements; other statements have expressions, and structured ones also blocks, as operands. */
  ghost predicate StatementOk(n: Node) {
    && IsStatement(n.op)
    && (n.op == Membar ==> n.children == []) && (n.op.Dassign? || n.op.SwitchOp? ==> |n.children| == 1)
    && forall i :: 0 <= i < |n.children| ==>
         var c := n.children[i];
         if n.op == BlockOp then StatementOk(c)
         else ExpressionOk(c) || (n.op == OtherOp && c.op == BlockOp && StatementOk(c))
  }

  ghost predicate ExpressionOk(n: Node) {
    && IsExpression(n.op)
    && (n.op.Dread? ==> n.children == []) && (n.op == Cvt || n.op == Alloca ==> |n.children| == 1)
    && forall i :: 0 <= i < |n.children| ==> ExpressionOk(n.children[i])
  }

  /** The body of a function. */
  ghost predicate IsBody(n: Node) {
    n.op == BlockOp && StatementOk(n)
  }

  /** One instruction costs 2. */
  const HALF_INSN: nat := 1
  const ONE_INSN: nat := 2
  const DOUBLE_INSN: nat := 4
  const PENTUPLE_INSN: nat := 10
  const UINT32_MAX: nat := 0xFFFF_FFFF

  /** What a node costs by itself. */
  function CostOf(op: Op, smallFuncThreshold: nat): nat {
    match op
    case BlockOp => 0
    case SwitchOp(n) => n + 1
    case CallOp(setjmp) => if setjmp then smallFuncThreshold else PENTUPLE_INSN
    case CallLike => PENTUPLE_INSN
    case Intrinsic(CheapIntrinsic) => ONE_INSN
    case Intrinsic(Merge) => HALF_INSN
    case Intrinsic(InstanceOf) => PENTUPLE_INSN
    case Intrinsic(OvTable) => DOUBLE_INSN
    case Intrinsic(OtherIntrinsic) => PENTUPLE_INSN
    case Forbidden => 0
    case Membar => ONE_INSN
    case FreeOp => 0
    case Dread(scope) => if scope == Global then DOUBLE_INSN else 0
    case Dassign(scope) => if scope == Global then DOUBLE_INSN else 0
    case Cvt => HALF_INSN
    case Alloca => smallFuncThreshold
    case OtherOp => ONE_INSN
  }

  /** The nodes in the order in which the walk comes to them. */
  ghost function Preorder(n: Node): seq<Op> {
    [n.op] + PreorderAll(n.children)
  }

  ghost function PreorderAll(ns: seq<Node>): seq<Op> {
    if ns == [] then [] else Preorder(ns[0]) + PreorderAll(ns[1..])
  }

  // ---------------------------------------------------------------------------------------------
  // The full walk and the walk that stops early.
  // ---------------------------------------------------------------------------------------------

  ghost function Total(ops: seq<Op>, small: nat): nat {
    if ops == [] then 0 else CostOf(ops[0], small) + Total(ops[1..], small)
  }

  ghost predicate HasForbidden(ops: seq<Op>) {
    exists i :: 0 <= i < |ops| && ops[i] == Forbidden
  }

  /** What inlining by size is for: no forbidden node, and no more than the threshold in all. */
  ghost predicate Small(body: Node, threshold: nat, small: nat) {
    !HasForbidden(Preorder(body)) && Total(Preorder(body), small) <= threshold
  }

  // ---------------------------------------------------------------------------------------------
  // What the cost of a body means.
  // ---------------------------------------------------------------------------------------------

  ghost function Count(ops: seq<Op>, kind: Op -> bool): nat {
    if ops == [] then 0 else (if kind(ops[0]) then 1 else 0) + Count(ops[1..], kind)
  }

  /** Calls of any kind but of `setjmp`, throws, and intrinsics that become calls. */
  ghost predicate IsCallLike(op: Op) {
    op == CallOp(false) || op == CallLike || op == Intrinsic(InstanceOf) || op == Intrinsic(OtherIntrinsic)
  }

  /** What takes two instructions: accesses to global variables and a look into a table. */
  ghost predicate TakesTwo(op: Op) {
    op == Dread(Global) || op == Dassign(Global) || op == Intrinsic(OvTable)
  }

  ghost predicate TakesOne(op: Op) {
    op == Membar || op == OtherOp || op == Intrinsic(CheapIntrinsic)
  }

  ghost predicate TakesHalf(op: Op) {
    op == Cvt || op == Intrinsic(Merge)
  }

  /** What makes a function big by itself. */
  ghost predicate IsDear(op: Op) {
    op == CallOp(true) || op == Alloca
  }

  ghost predicate IsSwitch(op: Op) {
    op.SwitchOp?
  }

  /** How many cases all switches have. */
  ghost function Cases(ops: seq<Op>): nat {
    if ops == [] then 0 else (if ops[0].SwitchOp? then ops[0].cases else 0) + Cases(ops[1..])
  }

  /** A call counts as five instructions, each of which costs 2; blocks, local variables, labels, comments and returns
      cost nothing. */
  lemma CostByKinds(ops: seq<Op>, small: nat)
    ensures Total(ops, small) == 10 * Count(ops, IsCallLike) + 4 * Count(ops, TakesTwo) + 2 * Count(ops, TakesOne)
                                 + Count(ops, TakesHalf) + small * Count(ops, IsDear)
                                 + Cases(ops) + Count(ops, IsSwitch)
  {
    CostWithDear(ops, small);
    DearIsProduct(ops, small);
  }

  ghost function DearCost(ops: seq<Op>, small: nat): nat {
    if ops == [] then 0 else (if IsDear(ops[0]) then small else 0) + DearCost(ops[1..], small)
  }

  lemma {:induction false} CostWithDear(ops: seq<Op>, small: nat)
    ensures Total(ops, small) == 10 * Count(ops, IsCallLike) + 4 * Count(ops, TakesTwo) + 2 * Count(ops, TakesOne)
                                 + Count(ops, TakesHalf) + DearCost(ops, small) + Cases(ops) + Count(ops, IsSwitch)
  {
    if ops != [] {
      CostWithDear(ops[1..], small);
    }
  }

  lemma {:induction false} DearIsProduct(ops: seq<Op>, small: nat)
    ensures DearCost(ops, small) == small * Count(ops, IsDear)
    ensures Count(ops, IsDear) > 0 ==> DearCost(ops, small) >= small
  {
    if ops != [] {
      DearIsProduct(ops[1..], small);
      Distributes(small, Count(ops[1..], IsDear));
    }
  }

  lemma Distributes(a: nat, b: nat)
    ensures a * (1 + b) == a + a * b
  {
  }

  /** What a body that is small enough has at most: calls and cases up to the threshold, and nothing dear unless the
      threshold allows for it. */
  lemma SmallBounds(body: Node, threshold: nat, small: nat)
    requires Small(body, threshold, small)
    ensures var ops := Preorder(body);
      && 10 * Count(ops, IsCallLike) + Cases(ops) + Count(ops, IsSwitch) <= threshold
      && 4 * Count(ops, TakesTwo) + 2 * Count(ops, TakesOne) + Count(ops, TakesHalf) <= threshold
      && (Count(ops, IsDear) > 0 ==> small <= threshold)
  {
    hide Preorder, Count, Cases, Total, DearCost;
    CostWithDear(Preorder(body), small);
    DearIsProduct(Preorder(body), small);
  }

  datatype FuncCostResult = SmallFuncBody | FuncBodyTooBig | NotAllowedNode

  /** The walk over `ops` from `cost` on, which stops when the threshold has been passed or at a forbidden node. */
  ghost function Walk(ops: seq<Op>, cost: nat, threshold: nat, small: nat): (FuncCostResult, nat) {
    if ops == [] then (SmallFuncBody, cost)
    else if cost > threshold then (FuncBodyTooBig, cost)
    else if ops[0] == Forbidden then (NotAllowedNode, cost)
    else Walk(ops[1..], cost + CostOf(ops[0], small), threshold, small)
  }

  lemma {:induction false} WalkConcat(a: seq<Op>, b: seq<Op>, cost: nat, threshold: nat, small: nat)
    ensures var w := Walk(a, cost, threshold, small);
      Walk(a + b, cost, threshold, small)
      == if w.0 == SmallFuncBody then Walk(b, w.1, threshold, small) else w
    decreases |a|
  {
    if a == [] {
      assert a + b == b;
    } else {
      assert (a + b)[1..] == a[1..] + b && (a + b)[0] == a[0];
      if cost <= threshold && a[0] != Forbidden {
        WalkConcat(a[1..], b, cost + CostOf(a[0], small), threshold, small);
      }
    }
  }

  /** Walks the tree, adding to the cost so far, and stops where the source does. */
  method GetFuncCost(node: Node, cost: nat, threshold: nat, small: nat) returns (result: FuncCostResult, newCost: nat)
    ensures (result, newCost) == Walk(Preorder(node), cost, threshold, small)
    decreases node
  {
    if cost > threshold {
      return FuncBodyTooBig, cost;
    }
    if node.op == Forbidden {
      return NotAllowedNode, cost;
    }
    newCost := cost + CostOf(node.op, small);
    ghost var first := newCost;
    assert Preorder(node)[1..] == PreorderAll(node.children);
    var i := 0;
    while i < |node.children|
      invariant 0 <= i <= |node.children|
      invariant Walk(PreorderAll(node.children), first, threshold, small)
             == Walk(PreorderAll(node.children[i..]), newCost, threshold, small)
    {
      assert node.children[i..][1..] == node.children[i + 1..];
      WalkConcat(Preorder(node.children[i]), PreorderAll(node.children[i + 1..]), newCost, threshold, small);
      result, newCost := GetFuncCost(node.children[i], newCost, threshold, small);
      if result != SmallFuncBody {
        return result, newCost;
      }
      i := i + 1;
    }
    result := SmallFuncBody;
  }

  /** What the walk finds out. */
  lemma {:induction false} WalkFinds(ops: seq<Op>, cost: nat, threshold: nat, small: nat)
    ensures var w := Walk(ops, cost, threshold, small);
      && (w.0 == SmallFuncBody ==> w.1 == cost + Total(ops, small) && !HasForbidden(ops))
      && (w.0 == FuncBodyTooBig ==> w.1 > threshold && w.1 <= cost + Total(ops, small))
      && (w.0 == NotAllowedNode ==> HasForbidden(ops))
    decreases |ops|
  {
    if ops != [] && cost <= threshold {
      if ops[0] == Forbidden {
        assert HasForbidden(ops);
      } else {
        WalkFinds(ops[1..], cost + CostOf(ops[0], small), threshold, small);
        if HasForbidden(ops[1..]) {
          var i :| 0 <= i < |ops[1..]| && ops[1..][i] == Forbidden;
          assert ops[i + 1] == Forbidden;
        }
        if Walk(ops, cost, threshold, small).0 == SmallFuncBody {
          forall i | 0 <= i < |ops|
            ensures ops[i] != Forbidden
          {
            if i > 0 {
              assert ops[1..][i - 1] == ops[i];
            }
          }
        }
      }
    }
  }

  /** What is remembered of a walk. */
  ghost function Remembered(body: Node, threshold: nat, small: nat): nat {
    var w := Walk(Preorder(body), 0, threshold, small);
    if w.0 == NotAllowedNode then UINT32_MAX else w.1
  }

  /** The decision from a cost. */
  predicate Verdict(cost: nat, threshold: nat) {
    cost != UINT32_MAX && cost <= threshold
  }

  /** Stopping early does not change the decision. */
  lemma EarlyExitDecidesAlike(body: Node, threshold: nat, small: nat)
    requires threshold < UINT32_MAX
    ensures Verdict(Remembered(body, threshold, small), threshold) <==> Small(body, threshold, small)
  {
    WalkFinds(Preorder(body), 0, threshold, small);
  }

  /** A remembered cost decides, for no larger threshold than it was found under, like a fresh walk. */
  lemma RememberedDecidesAlike(body: Node, found: nat, threshold: nat, small: nat)
    requires threshold <= found < UINT32_MAX
    ensures Verdict(Remembered(body, found, small), threshold) <==> Small(body, threshold, small)
  {
    WalkFinds(Preorder(body), 0, found, small);
  }

  /** For a larger threshold it decides wrongly exactly on a body that was found too big, but not by more than the
      new threshold, and that a full walk would turn down. */
  lemma RememberedDecidesWrongly(body: Node, found: nat, threshold: nat, small: nat)
    requires found < threshold < UINT32_MAX
    ensures !(Verdict(Remembered(body, found, small), threshold) <==> Small(body, threshold, small))
       <==> var w := Walk(Preorder(body), 0, found, small);
            w.0 == FuncBodyTooBig && w.1 <= threshold && !Small(body, threshold, small)
  {
    WalkFinds(Preorder(body), 0, found, small);
  }
}
