/** What may happen to the body of a function whose cost is remembered, and what the remembered cost is worth then. */
module InlineEdits {
  import opened InlineCost

  // ---------------------------------------------------------------------------------------------
  // The two changes after which a cost is not forgotten.
  // ---------------------------------------------------------------------------------------------

  /** The function has been inlined somewhere, and its pu-static variables have become global before; or a call of an
      empty function has been removed from it. */
  datatype Edit = Convert | RemoveCall(path: seq<nat>)

  function ConvertedOp(op: Op): Op {
    match op
    case Dread(PuStatic) => Dread(Global)
    case Dassign(PuStatic) => Dassign(Global)
    case _ => op
  }

  function Converted(n: Node): Node {
    Node(ConvertedOp(n.op), ConvertedAll(n.children))
  }

  function ConvertedAll(ns: seq<Node>): (r: seq<Node>)
    ensures |r| == |ns| && forall i :: 0 <= i < |ns| ==> r[i] == Converted(ns[i])
  {
    if ns == [] then [] else [Converted(ns[0])] + ConvertedAll(ns[1..])
  }

  /** The calls that can be inlined are among these. */
  predicate IsCall(op: Op) {
    op.CallOp? || op == CallLike
  }

  /** Following `path` from `n` one comes to a call in a block. */
  predicate CallAt(n: Node, path: seq<nat>)
    decreases path
  {
    && path != [] && path[0] < |n.children|
    && if |path| == 1 then n.op == BlockOp && IsCall(n.children[path[0]].op)
       else CallAt(n.children[path[0]], path[1..])
  }

  function TheCall(n: Node, path: seq<nat>): Node
    requires CallAt(n, path)
    decreases path
  {
    var c := n.children[path[0]];
    if |path| == 1 then c else TheCall(c, path[1..])
  }

  function WithoutCall(n: Node, path: seq<nat>): Node
    requires CallAt(n, path)
    decreases path
  {
    var k, cs := path[0], n.children;
    if |path| == 1 then Node(n.op, cs[..k] + cs[k + 1..])
    else Node(n.op, cs[..k] + [WithoutCall(cs[k], path[1..])] + cs[k + 1..])
  }

  ghost predicate CanEdit(n: Node, e: Edit) {
    e.RemoveCall? ==> CallAt(n, e.path)
  }

  ghost function Edited(n: Node, e: Edit): Node
    requires CanEdit(n, e)
  {
    match e
    case Convert => Converted(n)
    case RemoveCall(path) => WithoutCall(n, path)
  }

  ghost predicate CanReplay(n: Node, edits: seq<Edit>)
    decreases edits
  {
    edits == [] || (CanEdit(n, edits[0]) && CanReplay(Edited(n, edits[0]), edits[1..]))
  }

  /** The body after all the edits. */
  ghost function Replay(n: Node, edits: seq<Edit>): Node
    requires CanReplay(n, edits)
    decreases edits
  {
    if edits == [] then n else Replay(Edited(n, edits[0]), edits[1..])
  }

  lemma ReplayOne(n: Node, e: Edit, small: nat)
    requires CanEdit(n, e)
    ensures CanReplay(n, [e]) && Replay(n, [e]) == Edited(n, e) && Changes(n, [e], small) == Change(n, e, small)
  {
    assert [e][1..] == [];
    assert CanReplay(Edited(n, e), []) && Replay(Edited(n, e), []) == Edited(n, e);
    assert Changes(Edited(n, e), [], small) == 0;
  }

  lemma {:induction false} ReplayMore(n: Node, edits: seq<Edit>, e: Edit)
    requires CanReplay(n, edits) && CanEdit(Replay(n, edits), e)
    ensures CanReplay(n, edits + [e]) && Replay(n, edits + [e]) == Edited(Replay(n, edits), e)
    decreases edits
  {
    if edits == [] {
      assert [e][1..] == [];
    } else {
      ReplayMore(Edited(n, edits[0]), edits[1..], e);
      assert (edits + [e])[1..] == edits[1..] + [e];
    }
  }

  // ---------------------------------------------------------------------------------------------
  // What the changes do to the cost.
  // ---------------------------------------------------------------------------------------------

  ghost predicate IsPuStatic(op: Op) {
    op == Dread(PuStatic) || op == Dassign(PuStatic)
  }

  /** How many accesses to pu-static variables there are. */
  ghost function PuStaticOps(ops: seq<Op>): nat {
    if ops == [] then 0
    else (if IsPuStatic(ops[0]) then 1 else 0) + PuStaticOps(ops[1..])
  }

  /** By how much an edit changes the cost. */
  ghost function Change(n: Node, e: Edit, small: nat): int
    requires CanEdit(n, e)
  {
    match e
    case Convert => DOUBLE_INSN * PuStaticOps(Preorder(n))
    case RemoveCall(path) => 0 - Total(Preorder(TheCall(n, path)), small)
  }

  ghost function Changes(n: Node, edits: seq<Edit>, small: nat): int
    requires CanReplay(n, edits)
    decreases edits
  {
    if edits == [] then 0 else Change(n, edits[0], small) + Changes(Edited(n, edits[0]), edits[1..], small)
  }

  ghost function ConvertedOps(ops: seq<Op>): seq<Op> {
    if ops == [] then [] else [ConvertedOp(ops[0])] + ConvertedOps(ops[1..])
  }

  lemma {:induction false} ConvertedConcat(a: seq<Op>, b: seq<Op>)
    ensures ConvertedOps(a + b) == ConvertedOps(a) + ConvertedOps(b)
    decreases |a|
  {
    if a == [] {
      assert a + b == b;
    } else {
      assert (a + b)[1..] == a[1..] + b;
      ConvertedConcat(a[1..], b);
    }
  }

  lemma {:induction false} ConvertedPreorder(n: Node)
    ensures Preorder(Converted(n)) == ConvertedOps(Preorder(n))
  {
    ConvertedPreorderAll(n.children);
    assert Preorder(n)[1..] == PreorderAll(n.children);
  }

  lemma {:induction false} ConvertedPreorderAll(ns: seq<Node>)
    ensures PreorderAll(ConvertedAll(ns)) == ConvertedOps(PreorderAll(ns))
  {
    if ns != [] {
      ConvertedPreorder(ns[0]);
      ConvertedPreorderAll(ns[1..]);
      ConvertedConcat(Preorder(ns[0]), PreorderAll(ns[1..]));
      assert ConvertedAll(ns)[1..] == ConvertedAll(ns[1..]);
    }
  }

  lemma {:induction false} ConvertedCost(ops: seq<Op>, small: nat)
    ensures Total(ConvertedOps(ops), small) == Total(ops, small) + DOUBLE_INSN * PuStaticOps(ops)
    ensures HasForbidden(ConvertedOps(ops)) <==> HasForbidden(ops)
  {
    if ops != [] {
      ConvertedCost(ops[1..], small);
      assert ConvertedOps(ops)[1..] == ConvertedOps(ops[1..]);
      ForbiddenFirst(ops);
      ForbiddenFirst(ConvertedOps(ops));
    }
  }

  lemma ForbiddenFirst(ops: seq<Op>)
    requires ops != []
    ensures HasForbidden(ops) <==> ops[0] == Forbidden || HasForbidden(ops[1..])
  {
    if HasForbidden(ops[1..]) {
      var i :| 0 <= i < |ops[1..]| && ops[1..][i] == Forbidden;
      assert ops[i + 1] == Forbidden;
    }
    if HasForbidden(ops) && ops[0] != Forbidden {
      var i :| 0 <= i < |ops| && ops[i] == Forbidden;
      assert ops[1..][i - 1] == Forbidden;
    }
  }

  lemma {:induction false} CostConcat(a: seq<Op>, b: seq<Op>, small: nat)
    ensures Total(a + b, small) == Total(a, small) + Total(b, small)
    ensures PuStaticOps(a + b) == PuStaticOps(a) + PuStaticOps(b)
    ensures HasForbidden(a + b) <==> HasForbidden(a) || HasForbidden(b)
    decreases |a|
  {
    if a == [] {
      assert a + b == b;
    } else {
      assert (a + b)[1..] == a[1..] + b;
      CostConcat(a[1..], b, small);
      ForbiddenFirst(a);
      ForbiddenFirst(a + b);
    }
  }

  lemma {:induction false} PreorderConcat(ns: seq<Node>, ms: seq<Node>)
    ensures PreorderAll(ns + ms) == PreorderAll(ns) + PreorderAll(ms)
    decreases |ns|
  {
    if ns == [] {
      assert ns + ms == ms;
    } else {
      assert (ns + ms)[1..] == ns[1..] + ms;
      PreorderConcat(ns[1..], ms);
    }
  }

  lemma PreorderAround(op: Op, ns: seq<Node>, n: Node, ms: seq<Node>)
    ensures Preorder(Node(op, ns + [n] + ms)) == [op] + PreorderAll(ns) + Preorder(n) + PreorderAll(ms)
  {
    hide *;
    PreorderConcat(ns, [n]);
    PreorderConcat(ns + [n], ms);
    PreorderOne(n);
    PreorderOf(op, ns + [n] + ms);
  }

  lemma PreorderOne(n: Node)
    ensures PreorderAll([n]) == Preorder(n)
  {
    assert [n][1..] == [];
  }

  lemma PreorderOf(op: Op, ns: seq<Node>)
    ensures Preorder(Node(op, ns)) == [op] + PreorderAll(ns)
  {
  }

  lemma PreorderWithout(op: Op, ns: seq<Node>, ms: seq<Node>)
    ensures Preorder(Node(op, ns + ms)) == [op] + PreorderAll(ns) + PreorderAll(ms)
  {
    PreorderConcat(ns, ms);
  }

  /** The nodes of the call are cut out. */
  lemma {:induction false} CallCutOut(n: Node, path: seq<nat>) returns (a: seq<Op>, b: seq<Op>)
    requires CallAt(n, path)
    ensures Preorder(n) == a + Preorder(TheCall(n, path)) + b && Preorder(WithoutCall(n, path)) == a + b
    decreases path
  {
    hide Preorder, PreorderAll;
    var k, cs := path[0], n.children;
    var before, after := [n.op] + PreorderAll(cs[..k]), PreorderAll(cs[k + 1..]);
    assert cs == cs[..k] + [cs[k]] + cs[k + 1..];
    PreorderAround(n.op, cs[..k], cs[k], cs[k + 1..]);
    if |path| == 1 {
      PreorderWithout(n.op, cs[..k], cs[k + 1..]);
      a, b := before, after;
    } else {
      var c := WithoutCall(cs[k], path[1..]);
      var x, y := CallCutOut(cs[k], path[1..]);
      PreorderAround(n.op, cs[..k], c, cs[k + 1..]);
      a, b := before + x, y + after;
      assert before + (x + Preorder(TheCall(cs[k], path[1..])) + y) + after
          == a + Preorder(TheCall(cs[k], path[1..])) + b;
    }
  }

  lemma {:induction false} NothingForbidden(n: Node)
    requires ExpressionOk(n)
    ensures !HasForbidden(Preorder(n))
  {
    assert Preorder(n)[1..] == PreorderAll(n.children);
    NothingForbiddenIn(n.children);
    ForbiddenFirst(Preorder(n));
  }

  lemma {:induction false} NothingForbiddenIn(ns: seq<Node>)
    requires forall i :: 0 <= i < |ns| ==> ExpressionOk(ns[i])
    ensures !HasForbidden(PreorderAll(ns))
  {
    if ns != [] {
      NothingForbidden(ns[0]);
      NothingForbiddenIn(ns[1..]);
      CostConcat(Preorder(ns[0]), PreorderAll(ns[1..]), 0);
    }
  }

  lemma {:induction false} NoCallInside(n: Node, path: seq<nat>)
    requires ExpressionOk(n)
    ensures !CallAt(n, path)
    decreases path
  {
    if |path| > 1 && path[0] < |n.children| {
      NoCallInside(n.children[path[0]], path[1..]);
    }
  }

  /** Without the call statements are well formed, as with it, and the call has no forbidden node inside. */
  lemma {:induction false} WithoutCallOk(n: Node, path: seq<nat>)
    requires StatementOk(n) && CallAt(n, path)
    ensures StatementOk(WithoutCall(n, path)) && WithoutCall(n, path).op == n.op
    ensures !HasForbidden(Preorder(TheCall(n, path)))
    decreases path
  {
    var k, cs := path[0], n.children;
    if |path| == 1 {
      assert StatementOk(cs[k]);
      assert Preorder(cs[k])[1..] == PreorderAll(cs[k].children);
      NothingForbiddenIn(cs[k].children);
      ForbiddenFirst(Preorder(cs[k]));
    } else {
      if ExpressionOk(cs[k]) {
        NoCallInside(cs[k], path[1..]);
      }
      WithoutCallOk(cs[k], path[1..]);
    }
  }

  lemma {:induction false} ConvertedOk(n: Node)
    ensures StatementOk(n) ==> StatementOk(Converted(n))
    ensures ExpressionOk(n) ==> ExpressionOk(Converted(n))
  {
    forall i | 0 <= i < |n.children|
      ensures StatementOk(n.children[i]) ==> StatementOk(Converted(n.children[i]))
      ensures ExpressionOk(n.children[i]) ==> ExpressionOk(Converted(n.children[i]))
    {
      ConvertedOk(n.children[i]);
    }
  }

  /** What an edit does. */
  lemma EditCost(n: Node, e: Edit, small: nat)
    requires IsBody(n) && CanEdit(n, e)
    ensures IsBody(Edited(n, e))
    ensures Total(Preorder(Edited(n, e)), small) == Total(Preorder(n), small) + Change(n, e, small)
    ensures HasForbidden(Preorder(Edited(n, e))) <==> HasForbidden(Preorder(n))
  {
    match e
    case Convert =>
      ConvertedOk(n);
      ConvertedPreorder(n);
      ConvertedCost(Preorder(n), small);
    case RemoveCall(path) =>
      WithoutCallOk(n, path);
      var a, b := CallCutOut(n, path);
      var call := Preorder(TheCall(n, path));
      CostConcat(a, call, small);
      CostConcat(a + call, b, small);
      CostConcat(a, b, small);
  }

  lemma {:induction false} ReplayCost(n: Node, edits: seq<Edit>, small: nat)
    requires IsBody(n) && CanReplay(n, edits)
    ensures IsBody(Replay(n, edits))
    ensures Total(Preorder(Replay(n, edits)), small) == Total(Preorder(n), small) + Changes(n, edits, small)
    ensures HasForbidden(Preorder(Replay(n, edits))) <==> HasForbidden(Preorder(n))
    decreases edits
  {
    hide IsBody, Preorder, Total, HasForbidden, Edited, Change;
    if edits != [] {
      EditCost(n, edits[0], small);
      ReplayCost(Edited(n, edits[0]), edits[1..], small);
    }
  }

  /** Converting again changes nothing more. */
  lemma {:induction false} ConvertedOnce(n: Node)
    ensures Converted(Converted(n)) == Converted(n)
  {
    forall i | 0 <= i < |n.children|
      ensures Converted(Converted(n.children[i])) == Converted(n.children[i])
    {
      ConvertedOnce(n.children[i]);
    }
    assert ConvertedAll(ConvertedAll(n.children)) == ConvertedAll(n.children);
  }

  // ---------------------------------------------------------------------------------------------
  // What the remembered cost of a body is worth after edits.
  // ---------------------------------------------------------------------------------------------

  /** Walking over the body gave what a full walk over the edited body would. */
  ghost predicate StillRight(body: Node, edits: seq<Edit>, found: nat, threshold: nat, small: nat)
    requires CanReplay(body, edits)
  {
    var w, ops := Walk(Preorder(body), 0, found, small), Preorder(body);
    w.0 == NotAllowedNode
    || (w.1 <= threshold <==> !HasForbidden(ops) && Total(ops, small) + Changes(body, edits, small) <= threshold)
  }

  /** The threshold lies between the cost before and after. */
  ghost predicate Missed(body: Node, edits: seq<Edit>, threshold: nat, small: nat)
    requires CanReplay(body, edits)
  {
    var cost := Total(Preorder(body), small);
    !HasForbidden(Preorder(body)) && !(cost <= threshold <==> cost + Changes(body, edits, small) <= threshold)
  }

  /** When a remembered cost decides like a walk over the present body. */
  lemma RememberedAfterEdits(body: Node, edits: seq<Edit>, found: nat, threshold: nat, small: nat)
    requires IsBody(body) && CanReplay(body, edits) && found < UINT32_MAX && threshold < UINT32_MAX
    ensures (Verdict(Remembered(body, found, small), threshold) <==> Small(Replay(body, edits), threshold, small))
       <==> StillRight(body, edits, found, threshold, small)
    ensures threshold <= found ==>
              (StillRight(body, edits, found, threshold, small) <==> !Missed(body, edits, threshold, small))
  {
    hide IsBody, Preorder, Walk, Total, HasForbidden, Replay, Changes;
    ReplayCost(body, edits, small);
    WalkFinds(Preorder(body), 0, found, small);
  }

  /** After the conversion of pu-static variables alone it decides wrongly exactly when the threshold lies between the
      cost before and the one after. */
  lemma ConversionMissedExactly(body: Node, found: nat, threshold: nat, small: nat)
    requires IsBody(body) && threshold <= found < UINT32_MAX
    ensures var ops := Preorder(body); var after := Total(Preorder(Converted(body)), small);
      && after == Total(ops, small) + DOUBLE_INSN * PuStaticOps(ops)
      && (!(Verdict(Remembered(body, found, small), threshold) <==> Small(Converted(body), threshold, small))
          <==> !HasForbidden(ops) && Total(ops, small) <= threshold < after)
  {
    hide IsBody, Preorder, Walk, Total, HasForbidden;
    EditCost(body, Convert, small);
    ReplayOne(body, Convert, small);
    RememberedAfterEdits(body, [Convert], found, threshold, small);
  }

  /** After the removal of one call it does so exactly when the threshold lies between as well, the other way round. */
  lemma RemovalMissedExactly(body: Node, path: seq<nat>, found: nat, threshold: nat, small: nat)
    requires IsBody(body) && CallAt(body, path) && threshold <= found < UINT32_MAX
    ensures var ops := Preorder(body); var after := Total(Preorder(WithoutCall(body, path)), small);
      && Total(ops, small) == after + Total(Preorder(TheCall(body, path)), small)
      && (!(Verdict(Remembered(body, found, small), threshold) <==> Small(WithoutCall(body, path), threshold, small))
          <==> !HasForbidden(ops) && after <= threshold < Total(ops, small))
  {
    hide IsBody, Preorder, Walk, Total, HasForbidden, WithoutCall;
    var e := RemoveCall(path);
    EditCost(body, e, small);
    ReplayOne(body, e, small);
    RememberedAfterEdits(body, [e], found, threshold, small);
  }

  /** An assignment to a variable; the operand of kind `OtherOp` stands for a constant. */
  function Set(scope: Scope, operand: Op): Node {
    Node(Dassign(scope), [Node(operand, [])])
  }

  const CALL := Node(CallOp(false), [])
  const SYNC_ENTER := Node(Forbidden, [])

  lemma CostFirst(op: Op, ops: seq<Op>, small: nat)
    ensures Total([op] + ops, small) == CostOf(op, small) + Total(ops, small)
    ensures PuStaticOps([op] + ops)
         == (if IsPuStatic(op) then 1 else 0) + PuStaticOps(ops)
    ensures HasForbidden([op] + ops) <==> op == Forbidden || HasForbidden(ops)
  {
    assert ([op] + ops)[1..] == ops;
    ForbiddenFirst([op] + ops);
  }

  lemma SetFacts(scope: Scope, operand: Op, small: nat)
    requires operand == OtherOp || operand == Dread(Local)
    ensures StatementOk(Set(scope, operand)) && Preorder(Set(scope, operand)) == [Dassign(scope), operand]
    ensures Total(Preorder(Set(scope, operand)), small) == CostOf(Dassign(scope), small) + CostOf(operand, small)
    ensures PuStaticOps(Preorder(Set(scope, operand))) == if scope == PuStatic then 1 else 0
    ensures !HasForbidden(Preorder(Set(scope, operand)))
  {
    var value := Node(operand, []);
    assert ExpressionOk(value);
    assert Preorder(value) == [operand];
    PreorderOne(value);
    PreorderOf(Dassign(scope), [value]);
    assert [Dassign(scope), operand] == [Dassign(scope)] + ([operand] + []);
    CostFirst(Dassign(scope), [operand] + [], small);
    CostFirst(operand, [], small);
  }

  lemma CallFacts(small: nat)
    ensures StatementOk(CALL) && Preorder(CALL) == [CallOp(false)] && StatementOk(SYNC_ENTER)
    ensures Total(Preorder(CALL), small) == 10 && !HasForbidden(Preorder(CALL)) && PuStaticOps(Preorder(CALL)) == 0
    ensures Preorder(SYNC_ENTER) == [Forbidden] && HasForbidden(Preorder(SYNC_ENTER))
    ensures PuStaticOps(Preorder(SYNC_ENTER)) == 0 && Total(Preorder(SYNC_ENTER), small) == 0
  {
    assert [CallOp(false)] == [CallOp(false)] + [] && [Forbidden] == [Forbidden] + [];
    CostFirst(CallOp(false), [], small);
    CostFirst(Forbidden, [], small);
  }

  /** The cost of a block is that of the statements in it. */
  lemma BlockCost(ns: seq<Node>, small: nat)
    ensures var ops := Preorder(Node(BlockOp, ns));
      && Total(ops, small) == Total(PreorderAll(ns), small) && PuStaticOps(ops) == PuStaticOps(PreorderAll(ns))
      && (HasForbidden(ops) <==> HasForbidden(PreorderAll(ns)))
  {
    CostFirst(BlockOp, PreorderAll(ns), small);
  }

  /** Setting a pu-static variable to a constant: with 5 as threshold the remembered cost still says that the function
      is small after the variable has become global and each access costs more. */
  lemma ConversionIsMissed(small: nat)
    ensures var body := Node(BlockOp, [Set(PuStatic, OtherOp)]);
      && IsBody(body) && Verdict(Remembered(body, 5, small), 5) && Small(body, 5, small)
      && IsBody(Converted(body)) && !Small(Converted(body), 5, small)
  {
    hide Preorder, PreorderAll, Total, PuStaticOps, HasForbidden, Remembered, Converted, Set;
    var body := Node(BlockOp, [Set(PuStatic, OtherOp)]);
    SetFacts(PuStatic, OtherOp, small);
    PreorderOne(Set(PuStatic, OtherOp));
    BlockCost([Set(PuStatic, OtherOp)], small);
    RememberedDecidesAlike(body, 5, 5, small);
    EditCost(body, Convert, small);
  }

  const CALLING := Node(BlockOp, [CALL, CALL, Set(Local, OtherOp)])

  /** A function that calls itself and an empty function, and assigns something: with 15 as threshold the remembered
      cost still says that it is too big after the second call has been removed. */
  lemma RemovalIsMissed(small: nat)
    ensures IsBody(CALLING) && CallAt(CALLING, [1]) && !Verdict(Remembered(CALLING, 15, small), 15)
    ensures IsBody(WithoutCall(CALLING, [1])) && Small(WithoutCall(CALLING, [1]), 15, small)
  {
    hide Preorder, PreorderAll, Total, HasForbidden, Remembered, WithoutCall, IsBody, TheCall, CallAt, Set;
    CallingShape();
    CallingCost(small);
    EditCost(CALLING, RemoveCall([1]), small);
    RemovalMissedExactly(CALLING, [1], 15, 15, small);
  }

  lemma CallingShape()
    ensures IsBody(CALLING) && CallAt(CALLING, [1]) && TheCall(CALLING, [1]) == CALL
  {
    SetFacts(Local, OtherOp, 0);
    CallFacts(0);
  }

  lemma CallingCost(small: nat)
    ensures Total(Preorder(CALLING), small) == 22 && Total(Preorder(CALL), small) == 10
    ensures !HasForbidden(Preorder(CALLING))
  {
    hide Preorder, PreorderAll, Total, PuStaticOps, HasForbidden, Set, StatementOk;
    var s := Set(Local, OtherOp);
    SetFacts(Local, OtherOp, small);
    CallFacts(small);
    PreorderOne(s);
    PreorderOne(CALL);
    assert [CALL, CALL, s] == [CALL] + ([CALL] + [s]);
    PreorderConcat([CALL], [CALL] + [s]);
    PreorderConcat([CALL], [s]);
    CostConcat(Preorder(CALL), Preorder(s), small);
    CostConcat(Preorder(CALL), Preorder(CALL) + Preorder(s), small);
    BlockCost([CALL, CALL, s], small);
  }

  // ---------------------------------------------------------------------------------------------
  // Which thresholds and edits are harmless whatever the body.
  // ---------------------------------------------------------------------------------------------

  /** The assignment of a converted local to a local, which costs as much as the conversion. */
  const CONVERSION := Node(Dassign(Local), [Node(Cvt, [Node(Dread(Local), [])])])

  function Conversions(n: nat): seq<Node> {
    seq(n, _ => CONVERSION)
  }

  /** A body of `n` conversions and what follows. */
  function Padded(n: nat, rest: seq<Node>): Node {
    Node(BlockOp, Conversions(n) + rest)
  }

  lemma PaddedIsBody(n: nat, rest: seq<Node>)
    requires forall i :: 0 <= i < |rest| ==> StatementOk(rest[i])
    ensures IsBody(Padded(n, rest))
  {
    assert ExpressionOk(Node(Dread(Local), []));
    assert ExpressionOk(Node(Cvt, [Node(Dread(Local), [])]));
    assert StatementOk(CONVERSION);
    forall i | 0 <= i < |Padded(n, rest).children|
      ensures StatementOk(Padded(n, rest).children[i])
    {
      assert Padded(n, rest).children[i] == if i < n then CONVERSION else rest[i - n];
    }
  }

  ghost function ConversionOps(n: nat): seq<Op> {
    if n == 0 then [] else [Dassign(Local), Cvt, Dread(Local)] + ConversionOps(n - 1)
  }

  lemma ConversionPreorder()
    ensures Preorder(CONVERSION) == [Dassign(Local), Cvt, Dread(Local)]
  {
    var dread := Node(Dread(Local), []);
    var cvt := Node(Cvt, [dread]);
    assert Preorder(dread) == [Dread(Local)] && PreorderAll([dread]) == [Dread(Local)];
    assert Preorder(cvt) == [Cvt, Dread(Local)] && PreorderAll([cvt]) == [Cvt, Dread(Local)];
  }

  lemma {:induction false} ConversionNodes(n: nat)
    ensures PreorderAll(Conversions(n)) == ConversionOps(n)
  {
    if n > 0 {
      ConversionPreorder();
      assert Conversions(n)[1..] == Conversions(n - 1);
      ConversionNodes(n - 1);
    }
  }

  lemma PaddedPreorder(n: nat, rest: seq<Node>)
    ensures Preorder(Padded(n, rest)) == [BlockOp] + ConversionOps(n) + PreorderAll(rest)
  {
    ConversionNodes(n);
    PreorderConcat(Conversions(n), rest);
  }

  lemma {:induction false} ConversionCost(n: nat, small: nat)
    ensures Total(ConversionOps(n), small) == n && PuStaticOps(ConversionOps(n)) == 0
    ensures !HasForbidden(ConversionOps(n))
  {
    hide HasForbidden, Total, PuStaticOps;
    if n == 0 {
      NoCost(small);
    } else {
      ConversionCost(n - 1, small);
      CostOfOne(ConversionOps(n - 1), small);
    }
  }

  lemma NoCost(small: nat)
    ensures Total([], small) == 0 && PuStaticOps([]) == 0 && !HasForbidden([])
  {
  }

  lemma CostOfOne(rest: seq<Op>, small: nat)
    ensures var ops := [Dassign(Local), Cvt, Dread(Local)] + rest;
      Total(ops, small) == 1 + Total(rest, small) && PuStaticOps(ops) == PuStaticOps(rest)
      && (HasForbidden(ops) <==> HasForbidden(rest))
  {
    hide HasForbidden, Total, PuStaticOps;
    assert [Dassign(Local), Cvt, Dread(Local)] + rest == [Dassign(Local)] + ([Cvt] + ([Dread(Local)] + rest));
    CostFirst(Dassign(Local), [Cvt] + ([Dread(Local)] + rest), small);
    CostFirst(Cvt, [Dread(Local)] + rest, small);
    CostFirst(Dread(Local), rest, small);
  }

  lemma PaddedCost(n: nat, rest: seq<Node>, small: nat)
    ensures var ops := Preorder(Padded(n, rest));
      && Total(ops, small) == n + Total(PreorderAll(rest), small) && PuStaticOps(ops) == PuStaticOps(PreorderAll(rest))
      && (HasForbidden(ops) <==> HasForbidden(PreorderAll(rest)))
  {
    hide Preorder, PreorderAll, ConversionOps, Total, PuStaticOps, HasForbidden;
    ConversionNodes(n);
    PreorderConcat(Conversions(n), rest);
    ConversionCost(n, small);
    CostConcat(ConversionOps(n), PreorderAll(rest), small);
    BlockCost(Conversions(n) + rest, small);
  }

  lemma {:induction false} WalkConversions(n: nat, rest: seq<Op>, cost: nat, found: nat, small: nat)
    requires cost + n == found + 1 && n > 0
    ensures Walk(ConversionOps(n) + rest, cost, found, small) == (FuncBodyTooBig, found + 1)
    decreases n
  {
    var ops, more := ConversionOps(n) + rest, ConversionOps(n - 1) + rest;
    assert ops == [Dassign(Local), Cvt, Dread(Local)] + more;
    assert ops[1..][1..][1..] == more;
    assert Walk(ops, cost, found, small) == Walk(ops[1..], cost, found, small);
    assert Walk(ops[1..], cost, found, small) == Walk(ops[1..][1..], cost + 1, found, small);
    if n > 1 {
      WalkConversions(n - 1, rest, cost + 1, found, small);
      assert Walk(ops[1..][1..], cost + 1, found, small) == Walk(more, cost + 1, found, small);
    }
  }

  lemma WalkPadded(rest: seq<Node>, found: nat, small: nat)
    ensures Walk(Preorder(Padded(found + 1, rest)), 0, found, small) == (FuncBodyTooBig, found + 1)
  {
    hide Preorder, PreorderAll, ConversionOps;
    var ops := Preorder(Padded(found + 1, rest));
    PaddedPreorder(found + 1, rest);
    WalkConversions(found + 1, PreorderAll(rest), 0, found, small);
    assert ops[1..] == ConversionOps(found + 1) + PreorderAll(rest);
  }

  ghost predicate HasConvert(edits: seq<Edit>) {
    Convert in edits
  }

  ghost predicate HasRemoval(edits: seq<Edit>) {
    exists i :: 0 <= i < |edits| && edits[i].RemoveCall?
  }

  /** The remembered cost of `body` decides like a walk over what the edits have made of it. */
  ghost predicate Alike(body: Node, edits: seq<Edit>, found: nat, threshold: nat, small: nat)
    requires CanReplay(body, edits)
  {
    Verdict(Remembered(body, found, small), threshold) <==> Small(Replay(body, edits), threshold, small)
  }

  /** Under a larger threshold: a body found too big that contains a forbidden node further behind. */
  lemma LargerThresholdIsWrong(edits: seq<Edit>, found: nat, threshold: nat, small: nat)
    requires found < threshold < UINT32_MAX
    ensures var body := Padded(found + 1, [SYNC_ENTER, CALL]);
      IsBody(body) && (CanReplay(body, edits) ==> !Alike(body, edits, found, threshold, small))
  {
    hide Preorder, PreorderAll, Total, PuStaticOps, HasForbidden, Walk, Padded, IsBody, CanReplay, Replay;
    var rest := [SYNC_ENTER, CALL];
    var body := Padded(found + 1, rest);
    CallFacts(small);
    PaddedIsBody(found + 1, rest);
    PaddedCost(found + 1, rest, small);
    PreorderConcat([SYNC_ENTER], [CALL]);
    PreorderOne(SYNC_ENTER);
    assert rest == [SYNC_ENTER] + [CALL];
    CostConcat(PreorderAll([SYNC_ENTER]), PreorderAll([CALL]), small);
    WalkPadded(rest, found, small);
    if CanReplay(body, edits) {
      ReplayCost(body, edits, small);
    }
  }

  /** The edits that the witnesses below undergo. */
  ghost function SomeEdits(converted: bool, removed: bool, at: nat): seq<Edit> {
    (if converted then [Convert] else []) + (if removed then [RemoveCall([at])] else [])
  }

  lemma SomeEditsKinds(converted: bool, removed: bool, at: nat)
    ensures HasConvert(SomeEdits(converted, removed, at)) == converted
    ensures HasRemoval(SomeEdits(converted, removed, at)) == removed
  {
    var edits := SomeEdits(converted, removed, at);
    if converted {
      assert edits[0] == Convert;
    }
    if removed {
      assert edits[|edits| - 1].RemoveCall?;
    }
  }

  /** A call behind `n` conversions can be removed, also after converting; nothing else changes the cost. */
  lemma SomeEditsCost(n: nat, rest: seq<Node>, converted: bool, at: nat, small: nat)
    requires n <= at < n + |rest| && rest[at - n] == CALL
    ensures var body := Padded(n, rest); var edits := SomeEdits(converted, true, at);
      CanReplay(body, edits)
      && Changes(body, edits, small) == (if converted then 4 * PuStaticOps(Preorder(body)) else 0) - 10
  {
    hide Preorder, PreorderAll, Total, PuStaticOps, HasForbidden;
    CallFacts(small);
    var body, e := Padded(n, rest), RemoveCall([at]);
    assert body.children[at] == CALL;
    assert CallAt(body, [at]) && TheCall(body, [at]) == CALL;
    assert [e][1..] == [];
    if converted {
      var b := Converted(body);
      assert b.children[at] == Converted(CALL) == CALL;
      assert CallAt(b, [at]) && TheCall(b, [at]) == CALL;
      var edits := [Convert, e];
      assert edits[1..] == [e] && Edited(body, edits[0]) == b;
      assert SomeEdits(converted, true, at) == edits;
      assert CanReplay(b, [e]) && Changes(b, [e], small) == 0 - 10;
    } else {
      assert SomeEdits(converted, true, at) == [e];
    }
  }

  lemma EditsMakeWrong(converted: bool, removed: bool, found: nat, threshold: nat, small: nat)
      returns (body: Node, edits: seq<Edit>)
    requires found < UINT32_MAX && threshold < UINT32_MAX && (found < threshold || converted || removed)
    ensures IsBody(body) && CanReplay(body, edits) && HasConvert(edits) == converted && HasRemoval(edits) == removed
    ensures !Alike(body, edits, found, threshold, small)
  {
    hide *;
    if found < threshold {
      body, edits := Padded(found + 1, [SYNC_ENTER, CALL]), SomeEdits(converted, removed, found + 2);
      SomeEditsReplay(found + 1, [SYNC_ENTER, CALL], converted, removed, found + 2);
      SomeEditsKinds(converted, removed, found + 2);
      LargerThresholdIsWrong(edits, found, threshold, small);
    } else {
      body, edits := SomethingIsMissed(converted, removed, threshold, small);
      RememberedAfterEdits(body, edits, found, threshold, small);
      WhatAlikeIs(body, edits, found, threshold, small);
    }
  }

  lemma WhatAlikeIs(body: Node, edits: seq<Edit>, found: nat, threshold: nat, small: nat)
    requires CanReplay(body, edits)
    ensures Alike(body, edits, found, threshold, small)
        <==> (Verdict(Remembered(body, found, small), threshold) <==> Small(Replay(body, edits), threshold, small))
  {
  }

  lemma SomeEditsReplay(n: nat, rest: seq<Node>, converted: bool, removed: bool, at: nat)
    requires n <= at < n + |rest| && rest[at - n] == CALL
    ensures CanReplay(Padded(n, rest), SomeEdits(converted, removed, at))
  {
    if removed {
      SomeEditsCost(n, rest, converted, at, 0);
    }
  }

  /** With a call of cost 10, or the assignment of a pu-static variable, behind as many conversions as the threshold
      allows. */
  lemma SomethingIsMissed(converted: bool, removed: bool, threshold: nat, small: nat)
      returns (body: Node, edits: seq<Edit>)
    requires converted || removed
    ensures IsBody(body) && CanReplay(body, edits) && HasConvert(edits) == converted && HasRemoval(edits) == removed
    ensures Missed(body, edits, threshold, small)
  {
    hide Preorder, PreorderAll, Total, PuStaticOps, HasForbidden, Padded, IsBody, HasConvert, HasRemoval;
    edits := SomeEdits(converted, removed, threshold);
    SomeEditsKinds(converted, removed, threshold);
    if removed {
      body := Padded(threshold, [CALL]);
      CallFacts(small);
      PaddedIsBody(threshold, [CALL]);
      PaddedCost(threshold, [CALL], small);
      PreorderOne(CALL);
      SomeEditsCost(threshold, [CALL], converted, threshold, small);
    } else {
      var copy := Set(PuStatic, Dread(Local));
      body := Padded(threshold, [copy]);
      SetFacts(PuStatic, Dread(Local), small);
      PaddedIsBody(threshold, [copy]);
      PaddedCost(threshold, [copy], small);
      PreorderOne(copy);
      assert edits == [Convert];
      assert Changes(body, edits, small) == 4 * PuStaticOps(Preorder(body));
    }
  }

  /** Remembered costs decide all function bodies alike exactly when the threshold is no larger than the one they were
      found under, nothing has been converted, and no call has been removed. */
  lemma AlikeForAllBodies(converted: bool, removed: bool, found: nat, threshold: nat, small: nat)
    requires found < UINT32_MAX && threshold < UINT32_MAX
    ensures (forall body, edits | IsBody(body) && CanReplay(body, edits) && HasConvert(edits) == converted
                                  && HasRemoval(edits) == removed :: Alike(body, edits, found, threshold, small))
       <==> threshold <= found && !converted && !removed
  {
    hide IsBody, Remembered, Small;
    if threshold <= found && !converted && !removed {
      forall body, edits | IsBody(body) && CanReplay(body, edits) && HasConvert(edits) == converted
                           && HasRemoval(edits) == removed
        ensures Alike(body, edits, found, threshold, small)
      {
        KindOfEdits(edits);
        RememberedDecidesAlike(body, found, threshold, small);
      }
    } else {
      var body, edits := EditsMakeWrong(converted, removed, found, threshold, small);
    }
  }

  lemma KindOfEdits(edits: seq<Edit>)
    ensures edits == [] || HasConvert(edits) || HasRemoval(edits)
  {
    if edits != [] {
      var e := edits[0];
      assert e.RemoveCall? || e == Convert;
    }
  }
}
