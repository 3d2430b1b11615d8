/** What the inliner makes of a callee's body: symbols and labels moved behind the caller's, returns turned into
    jumps. */
module InlineRewrite {
  import opened InlineIR

  // ---------------------------------------------------------------------------------------------
  // Symbols.
  // ---------------------------------------------------------------------------------------------

  function MoveVar(v: Var, stIdxOff: nat): Var {
    match v
    case Local(i) => Local(i + stIdxOff)
    case Global(_) => v
  }

  function MoveExpr(e: Expr, stIdxOff: nat): Expr {
    match e
    case Const(_) => e
    case Read(v) => Read(MoveVar(v, stIdxOff))
    case Apply(op, l, r) => Apply(op, MoveExpr(l, stIdxOff), MoveExpr(r, stIdxOff))
  }

  function MoveExprs(es: seq<Expr>, stIdxOff: nat): (r: seq<Expr>)
    ensures |r| == |es|
  {
    if es == [] then [] else [MoveExpr(es[0], stIdxOff)] + MoveExprs(es[1..], stIdxOff)
  }

  function MoveResult(res: seq<Var>, stIdxOff: nat): seq<Var> {
    if |res| == 1 then [MoveVar(res[0], stIdxOff)] else res
  }

  function ReplaceSymbols(ss: seq<Stmt>, stIdxOff: nat): seq<Stmt> {
    if ss == [] then [] else [ReplaceSymbolsOf(ss[0], stIdxOff)] + ReplaceSymbols(ss[1..], stIdxOff)
  }

  function ReplaceSymbolsOf(s: Stmt, stIdxOff: nat): Stmt {
    match s
    case Assign(v, e) => Assign(MoveVar(v, stIdxOff), MoveExpr(e, stIdxOff))
    case If(c, t, h, e) => If(MoveExpr(c, stIdxOff), ReplaceSymbols(t, stIdxOff), h, ReplaceSymbols(e, stIdxOff))
    case While(c, b) => While(MoveExpr(c, stIdxOff), ReplaceSymbols(b, stIdxOff))
    case DoWhile(b, c) => DoWhile(ReplaceSymbols(b, stIdxOff), MoveExpr(c, stIdxOff))
    case CondGoto(l, c) => CondGoto(l, MoveExpr(c, stIdxOff))
    case Return(es) => Return(MoveExprs(es, stIdxOff))
    case External(f, args, res) => External(f, MoveExprs(args, stIdxOff), MoveResult(res, stIdxOff))
    case Call(args, res) => Call(MoveExprs(args, stIdxOff), MoveResult(res, stIdxOff))
    case Block(b) => Block(ReplaceSymbols(b, stIdxOff))
    case _ => s
  }

  // ---------------------------------------------------------------------------------------------
  // Labels.
  // ---------------------------------------------------------------------------------------------

  function ReplaceLabels(ss: seq<Stmt>, labIdxOff: nat): seq<Stmt> {
    if ss == [] then [] else [ReplaceLabelsOf(ss[0], labIdxOff)] + ReplaceLabels(ss[1..], labIdxOff)
  }

  function ReplaceLabelsOf(s: Stmt, labIdxOff: nat): Stmt {
    match s
    case If(c, t, h, e) => If(c, ReplaceLabels(t, labIdxOff), h, ReplaceLabels(e, labIdxOff))
    case While(c, b) => While(c, ReplaceLabels(b, labIdxOff))
    case DoWhile(b, c) => DoWhile(ReplaceLabels(b, labIdxOff), c)
    case Label(l) => Label(l + labIdxOff)
    case Goto(l) => Goto(l + labIdxOff)
    case CondGoto(l, c) => CondGoto(l + labIdxOff, c)
    case Block(b) => Block(ReplaceLabels(b, labIdxOff))
    case _ => s
  }

  // ---------------------------------------------------------------------------------------------
  // Returns.
  // ---------------------------------------------------------------------------------------------

  /** A return becomes an assignment to the call's result, when it has one, and a jump to the return label. */
  function ReturnStmts(vals: seq<Expr>, ret: nat, res: seq<Var>): (r: seq<Stmt>)
    ensures |r| > 0 && r[|r| - 1] == Goto(ret)
  {
    if |res| == 1 && |vals| > 0 then [Assign(res[0], vals[0]), Goto(ret)] else [Goto(ret)]
  }

  function UpdateReturns(ss: seq<Stmt>, ret: nat, res: seq<Var>): seq<Stmt> {
    if ss == [] then [] else UpdateReturnsOf(ss[0], ret, res) + UpdateReturns(ss[1..], ret, res)
  }

  function UpdateReturnsOf(s: Stmt, ret: nat, res: seq<Var>): (r: seq<Stmt>)
    ensures |r| > 0
  {
    match s
    case If(c, t, h, e) => [If(c, UpdateReturns(t, ret, res), h, if h then UpdateReturns(e, ret, res) else e)]
    case While(c, b) => [While(c, UpdateReturns(b, ret, res))]
    case DoWhile(b, c) => [DoWhile(UpdateReturns(b, ret, res), c)]
    case Return(vals) => ReturnStmts(vals, ret, res)
    case _ => [s]
  }

  function Returns(ss: seq<Stmt>): nat {
    if ss == [] then 0 else ReturnsOf(ss[0]) + Returns(ss[1..])
  }

  function ReturnsOf(s: Stmt): nat {
    match s
    case If(_, t, h, e) => Returns(t) + (if h then Returns(e) else 0)
    case While(_, b) => Returns(b)
    case DoWhile(b, _) => Returns(b)
    case Return(_) => 1
    case _ => 0
  }

  /** The jump that was created last, as far as the inliner remembers it: none, one in a nested block, or the
      statement at an index of the rewritten body. */
  datatype LastGoto = Nowhere | Nested | At(i: nat)

  function Inner(g: LastGoto): LastGoto {
    if g == Nowhere then Nowhere else Nested
  }

  /** What is remembered after `s`, which ends before index `len` of the rewritten body, when it was `g` before: a
      structured statement forgets every earlier jump. */
  function AfterStmt(s: Stmt, g: LastGoto, len: nat, res: seq<Var>): LastGoto
    requires len > 0
  {
    match s
    case If(_, t, h, e) => Inner(Remembered(if h then e else t, Nowhere, 0, res))
    case While(_, b) => Inner(Remembered(b, Nowhere, 0, res))
    case DoWhile(b, _) => Inner(Remembered(b, Nowhere, 0, res))
    case Return(_) => At(len - 1)
    case _ => g
  }

  function Remembered(ss: seq<Stmt>, g: LastGoto, start: nat, res: seq<Var>): LastGoto {
    if ss == [] then g
    else
      var len := start + |UpdateReturnsOf(ss[0], 0, res)|;
      Remembered(ss[1..], AfterStmt(ss[0], g, len, res), len, res)
  }

  // ---------------------------------------------------------------------------------------------
  // All three.
  // ---------------------------------------------------------------------------------------------

  /** Where a call is inlined: the offsets of the tables, the return label, and the call's result. */
  datatype Site = Site(stIdxOff: nat, labIdxOff: nat, ret: nat, res: seq<Var>)

  function Inlined(ss: seq<Stmt>, at: Site): seq<Stmt> {
    if ss == [] then [] else InlinedOf(ss[0], at) + Inlined(ss[1..], at)
  }

  function InlinedOf(s: Stmt, at: Site): seq<Stmt> {
    match s
    case Assign(v, e) => [Assign(MoveVar(v, at.stIdxOff), MoveExpr(e, at.stIdxOff))]
    case If(c, t, h, e) =>
      [If(MoveExpr(c, at.stIdxOff), Inlined(t, at), h,
          if h then Inlined(e, at) else ReplaceLabels(ReplaceSymbols(e, at.stIdxOff), at.labIdxOff))]
    case While(c, b) => [While(MoveExpr(c, at.stIdxOff), Inlined(b, at))]
    case DoWhile(b, c) => [DoWhile(Inlined(b, at), MoveExpr(c, at.stIdxOff))]
    case Label(l) => [Label(l + at.labIdxOff)]
    case Goto(l) => [Goto(l + at.labIdxOff)]
    case CondGoto(l, c) => [CondGoto(l + at.labIdxOff, MoveExpr(c, at.stIdxOff))]
    case Return(vals) => ReturnStmts(MoveExprs(vals, at.stIdxOff), at.ret, at.res)
    case External(f, args, res) => [External(f, MoveExprs(args, at.stIdxOff), MoveResult(res, at.stIdxOff))]
    case Call(args, res) => [Call(MoveExprs(args, at.stIdxOff), MoveResult(res, at.stIdxOff))]
    case Block(b) => [Block(ReplaceLabels(ReplaceSymbols(b, at.stIdxOff), at.labIdxOff))]
  }

  lemma {:induction false} ThreePasses(ss: seq<Stmt>, at: Site)
    ensures UpdateReturns(ReplaceLabels(ReplaceSymbols(ss, at.stIdxOff), at.labIdxOff), at.ret, at.res)
         == Inlined(ss, at)
  {
    if ss != [] {
      ThreePassesOf(ss[0], at);
      ThreePasses(ss[1..], at);
    }
  }

  lemma {:induction false} ThreePassesOf(s: Stmt, at: Site)
    ensures UpdateReturnsOf(ReplaceLabelsOf(ReplaceSymbolsOf(s, at.stIdxOff), at.labIdxOff), at.ret, at.res)
         == InlinedOf(s, at)
  {
    match s
    case If(c, t, h, e) =>
      ThreePasses(t, at);
      if h {
        ThreePasses(e, at);
      }
    case While(c, b) => ThreePasses(b, at);
    case DoWhile(b, c) => ThreePasses(b, at);
    case _ =>
  }

  /** Inlined labels are the callee's labels behind the caller's. */
  lemma {:induction false} InlinedLabels(ss: seq<Stmt>, at: Site, m: nat)
    requires Plain(ss)
    ensures m in Labels(Inlined(ss, at)) <==> m >= at.labIdxOff && m - at.labIdxOff in Labels(ss)
  {
    if ss != [] {
      InlinedLabelsOf(ss[0], at, m);
      InlinedLabels(ss[1..], at, m);
      LabelsConcat(InlinedOf(ss[0], at), Inlined(ss[1..], at));
    }
  }

  lemma ReturnHasNoLabel(vals: seq<Expr>, ret: nat, res: seq<Var>)
    ensures Labels(ReturnStmts(vals, ret, res)) == {} && Targets(ReturnStmts(vals, ret, res)) == {ret}
  {
    var r := ReturnStmts(vals, ret, res);
    if |r| == 2 {
      assert r[1..] == [Goto(ret)];
    }
    assert Labels([Goto(ret)]) == {} && Targets([Goto(ret)]) == {ret};
  }

  lemma {:induction false} InlinedLabelsOf(s: Stmt, at: Site, m: nat)
    requires PlainStmt(s)
    ensures m in Labels(InlinedOf(s, at)) <==> m >= at.labIdxOff && m - at.labIdxOff in LabelsOf(s)
  {
    match s
    case If(c, t, h, e) =>
      InlinedLabels(t, at, m);
      if h {
        InlinedLabels(e, at, m);
      }
    case While(c, b) => InlinedLabels(b, at, m);
    case DoWhile(b, c) => InlinedLabels(b, at, m);
    case Return(vals) => ReturnHasNoLabel(MoveExprs(vals, at.stIdxOff), at.ret, at.res);
    case _ =>
  }

  lemma {:induction false} LabelsConcat(a: seq<Stmt>, b: seq<Stmt>)
    ensures Labels(a + b) == Labels(a) + Labels(b)
  {
    if a == [] {
      assert a + b == b;
    } else {
      assert (a + b)[1..] == a[1..] + b;
      LabelsConcat(a[1..], b);
    }
  }

  /** Neither the call to be inlined nor a bare block occurs. */
  predicate Plain(ss: seq<Stmt>) {
    ss == [] || (PlainStmt(ss[0]) && Plain(ss[1..]))
  }

  predicate PlainStmt(s: Stmt) {
    match s
    case If(_, t, h, e) => Plain(t) && Plain(e)
    case While(_, b) => Plain(b)
    case DoWhile(b, _) => Plain(b)
    case Call(_, _) => false
    case Block(_) => false
    case _ => true
  }
}
