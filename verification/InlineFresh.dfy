/** Inlining keeps the meaning of callers whose calls start from fresh frames, if the callee does not look at what it
    finds in its uninitialised locals. */
module InlineFresh {
  import opened InlineIR
  import opened InlineRuns
  import opened InlineMeaning

  // ---------------------------------------------------------------------------------------------
  // Where frames do not matter.
  // ---------------------------------------------------------------------------------------------

  /** The call to be inlined does not occur. */
  predicate CallFree(ss: seq<Stmt>) {
    ss == [] || (CallFreeStmt(ss[0]) && CallFree(ss[1..]))
  }

  predicate CallFreeStmt(s: Stmt) {
    match s
    case If(_, t, h, e) => CallFree(t) && CallFree(e)
    case While(_, b) => CallFree(b)
    case DoWhile(b, _) => CallFree(b)
    case Block(b) => CallFree(b)
    case Call(_, _) => false
    case _ => true
  }

  function Keeping(env: Env): Env {
    env.(frames := Kept)
  }

  lemma {:induction false} SameEval(env: Env, e: Expr, loc: seq<int>, glob: seq<int>)
    ensures Eval(Keeping(env), e, loc, glob) == Eval(env, e, loc, glob)
  {
    match e
    case Const(_) =>
    case Read(_) =>
    case Apply(_, l, r) =>
      SameEval(env, l, loc, glob);
      SameEval(env, r, loc, glob);
  }

  lemma {:induction false} SameEvalAll(env: Env, es: seq<Expr>, loc: seq<int>, glob: seq<int>)
    ensures EvalAll(Keeping(env), es, loc, glob) == EvalAll(env, es, loc, glob)
  {
    if es != [] {
      SameEval(env, es[0], loc, glob);
      SameEvalAll(env, es[1..], loc, glob);
    }
  }

  lemma {:induction false} StepFree(env: Env, deep: bool, s: Stmt, st: State)
    requires deep ==> CallFreeStmt(s)
    ensures Step(Keeping(env), deep, s, st) == Step(env, deep, s, st)
    decreases st.fuel, s, 3
  {
    hide Drive, Again, Exec, Eval, CallStep, EvalAll, CallFree, WriteResult, Write;
    match s
    case Assign(v, e) => SameEval(env, e, st.loc, st.glob);
    case If(c, t, h, e) =>
      SameEval(env, c, st.loc, st.glob);
      DriveFree(env, deep, t, st);
      DriveFree(env, deep, e, st);
    case While(c, b) =>
      DriveFree(env, deep, b, st);
      AgainFree(env, deep, s, st);
      AgainFree(env, deep, s, Drive(env, deep, b, st));
    case DoWhile(b, c) =>
      DriveFree(env, deep, b, st);
      AgainFree(env, deep, s, Drive(env, deep, b, st));
    case CondGoto(l, c) => SameEval(env, c, st.loc, st.glob);
    case Return(es) => SameEvalAll(env, es, st.loc, st.glob);
    case External(f, args, res) => SameEvalAll(env, args, st.loc, st.glob);
    case Block(b) => DriveFree(env, deep, b, st);
    case _ =>
  }

  lemma {:induction false} AgainFree(env: Env, deep: bool, s: Stmt, st: State)
    requires (s.While? || s.DoWhile?) && (deep ==> CallFree(s.body))
    ensures Again(Keeping(env), deep, s, st) == Again(env, deep, s, st)
    decreases st.fuel, s, 2
  {
    SameEval(env, s.c, st.loc, st.glob);
    if st.mode == Run && Eval(env, s.c, st.loc, st.glob) != 0 && st.fuel > 0 {
      var next := st.(fuel := st.fuel - 1);
      DriveFree(env, deep, s.body, next);
      AgainFree(env, deep, s, Drive(env, deep, s.body, next));
    }
  }

  lemma {:induction false} ExecFree(env: Env, deep: bool, ss: seq<Stmt>, st: State)
    requires deep ==> CallFree(ss)
    ensures Exec(Keeping(env), deep, ss, st) == Exec(env, deep, ss, st)
    decreases st.fuel, ss, 0
  {
    if ss != [] {
      StepFree(env, deep, ss[0], st);
      ExecFree(env, deep, ss[1..], Step(env, deep, ss[0], st));
    }
  }

  /** Without calls it does not matter what frames hold. */
  lemma {:induction false} DriveFree(env: Env, deep: bool, ss: seq<Stmt>, st: State)
    requires deep ==> CallFree(ss)
    ensures Drive(Keeping(env), deep, ss, st) == Drive(env, deep, ss, st)
    decreases st.fuel, ss, 1
  {
    ExecFree(env, deep, ss, st);
    var r := Exec(env, deep, ss, st);
    if r.mode.Seek? && r.mode.l in Labels(ss) && r.fuel > 0 {
      DriveFree(env, deep, ss, r.(fuel := r.fuel - 1));
    }
  }

  // ---------------------------------------------------------------------------------------------
  // Callees that do not look at uninitialised locals.
  // ---------------------------------------------------------------------------------------------

  function Outcome(env: Env, frame: seq<int>, glob: seq<int>, fuel: nat): State {
    Drive(env, false, env.callee.body, State(Run, frame, glob, fuel))
  }

  ghost predicate SameOutcome(r: State, r': State) {
    r.mode == r'.mode && r.glob == r'.glob && r.fuel == r'.fuel
  }

  /** How the callee ends, what it returns, and what it does to the globals depends on its formals and the globals
      only. */
  ghost predicate Independent(env: Env) {
    forall frame, frame', glob, fuel {:trigger Outcome(env, frame, glob, fuel), Outcome(env, frame', glob, fuel)} ::
      |frame| == |frame'| == env.callee.symbols && SameFormals(env.callee.formals, frame, frame') ==>
        SameOutcome(Outcome(env, frame, glob, fuel), Outcome(env, frame', glob, fuel))
  }

  predicate SameFormals(formals: seq<nat>, frame: seq<int>, frame': seq<int>)
    requires |frame| == |frame'|
  {
    forall i :: 0 <= i < |formals| && formals[i] < |frame| ==> frame[formals[i]] == frame'[formals[i]]
  }

  /** Two frames in which all formals have been bound to the same arguments. */
  lemma {:induction false} BoundAlike(frame: seq<int>, frame': seq<int>, formals: seq<nat>, vals: seq<int>)
    requires |frame| == |frame'| && |formals| <= |vals|
    ensures SameFormals(formals, BindArgs(frame, formals, vals), BindArgs(frame', formals, vals))
    decreases |formals|
  {
    if formals != [] {
      BoundAlike(frame, frame', formals[1..], vals[1..]);
      var f, f' := BindArgs(frame, formals[1..], vals[1..]), BindArgs(frame', formals[1..], vals[1..]);
      forall i | 0 < i < |formals| && formals[i] < |f|
        ensures f[formals[i]] == f'[formals[i]]
      {
        assert formals[1..][i - 1] == formals[i];
      }
    }
  }

  // ---------------------------------------------------------------------------------------------
  // Callers.
  // ---------------------------------------------------------------------------------------------

  /** Statements of a caller with symbols below `n`, whose calls pass at least `count` arguments. */
  predicate Own(ss: seq<Stmt>, n: nat, count: nat) {
    ss == [] || (OwnStmt(ss[0], n, count) && Own(ss[1..], n, count))
  }

  predicate OwnStmt(s: Stmt, n: nat, count: nat) {
    match s
    case Assign(v, e) => FitsVar(v, n) && FitsExpr(e, n)
    case If(c, t, h, e) => FitsExpr(c, n) && Own(t, n, count) && Own(e, n, count)
    case While(c, b) => FitsExpr(c, n) && Own(b, n, count)
    case DoWhile(b, c) => FitsExpr(c, n) && Own(b, n, count)
    case CondGoto(l, c) => FitsExpr(c, n)
    case Return(vals) => FitsExprs(vals, n)
    case External(f, args, res) => FitsExprs(args, n) && FitsResult(res, n)
    case Call(args, res) => FitsExprs(args, n) && FitsResult(res, n) && |args| >= count
    case Block(b) => Own(b, n, count)
    case _ => true
  }

  /** The states agree on everything but the locals from index `n` on. */
  ghost predicate Agree(n: nat, s: State, t: State) {
    s.mode == t.mode && s.glob == t.glob && s.fuel == t.fuel && |s.loc| == |t.loc| && n <= |s.loc|
    && s.loc[..n] == t.loc[..n]
  }

  lemma ReadAgrees(v: Var, n: nat, s: State, t: State)
    requires FitsVar(v, n) && Agree(n, s, t)
    ensures ReadVar(v, s.loc, s.glob) == ReadVar(v, t.loc, t.glob)
  {
    if v.Local? {
      assert s.loc[v.idx] == s.loc[..n][v.idx] && t.loc[v.idx] == t.loc[..n][v.idx];
    }
  }

  lemma {:induction false} EvalAgrees(env: Env, e: Expr, n: nat, s: State, t: State)
    requires FitsExpr(e, n) && Agree(n, s, t)
    ensures Eval(env, e, s.loc, s.glob) == Eval(Keeping(env), e, t.loc, t.glob)
  {
    match e
    case Const(_) =>
    case Read(v) => ReadAgrees(v, n, s, t);
    case Apply(_, l, r) =>
      EvalAgrees(env, l, n, s, t);
      EvalAgrees(env, r, n, s, t);
  }

  lemma {:induction false} EvalAllAgrees(env: Env, es: seq<Expr>, n: nat, s: State, t: State)
    requires FitsExprs(es, n) && Agree(n, s, t)
    ensures EvalAll(env, es, s.loc, s.glob) == EvalAll(Keeping(env), es, t.loc, t.glob)
  {
    if es != [] {
      EvalAgrees(env, es[0], n, s, t);
      EvalAllAgrees(env, es[1..], n, s, t);
    }
  }

  lemma WriteAgrees(v: Var, x: int, n: nat, s: State, t: State)
    requires FitsVar(v, n) && Agree(n, s, t)
    ensures Agree(n, Write(s, v, x), Write(t, v, x))
  {
    if v.Local? {
      assert Write(s, v, x).loc[..n] == s.loc[..n][v.idx := x];
      assert Write(t, v, x).loc[..n] == t.loc[..n][v.idx := x];
    }
  }

  lemma WriteResultAgrees(res: seq<Var>, val: seq<int>, n: nat, s: State, t: State)
    requires FitsResult(res, n) && Agree(n, s, t)
    ensures Agree(n, WriteResult(s, res, val), WriteResult(t, res, val))
  {
    if |res| == 1 && |val| > 0 {
      WriteAgrees(res[0], val[0], n, s, t);
    }
  }

  /** The caller runs with the frames of `env` on one side, and with frames that are kept on the other. */
  ghost predicate Related(env: Env, s: State, t: State) {
    var n := env.stIdxOff + 1;
    Agree(n, s, t) && |s.loc| == env.stIdxOff + env.callee.symbols && env.callee.symbols > 0 && Independent(env)
  }

  /** Both calls end in the same way. */
  lemma CallAgrees(env: Env, call: Stmt, s: State, t: State)
    requires call.Call? && OwnStmt(call, env.stIdxOff + 1, |env.callee.formals|) && Related(env, s, t)
    ensures Related(env, CallStep(env, call, s), CallStep(Keeping(env), call, t))
  {
    var n, f := env.stIdxOff + 1, env.callee;
    EvalAllAgrees(env, call.args, n, s, t);
    var vals := EvalAll(env, call.args, s.loc, s.glob);
    var a, b := BindArgs(FrameOf(env, s), f.formals, vals), BindArgs(FrameOf(Keeping(env), t), f.formals, vals);
    BoundAlike(FrameOf(env, s), FrameOf(Keeping(env), t), f.formals, vals);
    DriveFree(env, false, f.body, State(Run, b, t.glob, t.fuel));
    var r, r' := Outcome(env, a, s.glob, s.fuel), Outcome(env, b, t.glob, t.fuel);
    assert SameOutcome(r, r');
    hide Independent, Drive, BindArgs, SameFormals, Eval, EvalAll, FrameOf, FitsExpr;
    var mode := if r.mode == Out then Out else Run;
    var back := State(mode, WithFrame(env, s.loc, r.loc), r.glob, r.fuel);
    var back' := State(mode, WithFrame(Keeping(env), t.loc, r'.loc), r'.glob, r'.fuel);
    assert Agree(n, back, back');
    WriteResultAgrees(call.res, if r.mode.Ret? then r.mode.val else [], n, back, back');
  }

  lemma {:induction false} StepAgrees(env: Env, s: Stmt, st: State, st': State)
    requires OwnStmt(s, env.stIdxOff + 1, |env.callee.formals|) && Related(env, st, st')
    ensures Related(env, Step(env, true, s, st), Step(Keeping(env), true, s, st'))
    decreases st.fuel, s, 3
  {
    hide Independent, Drive, Again, Exec, Eval, CallStep, EvalAll, WriteResult, Write, Own;
    var n := env.stIdxOff + 1;
    match s
    case Assign(v, e) =>
      EvalAgrees(env, e, n, st, st');
      WriteAgrees(v, Eval(env, e, st.loc, st.glob), n, st, st');
    case If(c, t, h, e) =>
      EvalAgrees(env, c, n, st, st');
      DriveAgrees(env, t, st, st');
      DriveAgrees(env, e, st, st');
    case While(c, b) =>
      DriveAgrees(env, b, st, st');
      AgainAgrees(env, s, st, st');
      AgainAgrees(env, s, Drive(env, true, b, st), Drive(Keeping(env), true, b, st'));
    case DoWhile(b, c) =>
      DriveAgrees(env, b, st, st');
      AgainAgrees(env, s, Drive(env, true, b, st), Drive(Keeping(env), true, b, st'));
    case CondGoto(l, c) => EvalAgrees(env, c, n, st, st');
    case Return(es) => EvalAllAgrees(env, es, n, st, st');
    case External(f, args, res) =>
      EvalAllAgrees(env, args, n, st, st');
      var out := env.ext(f, EvalAll(env, args, st.loc, st.glob), st.glob);
      WriteResultAgrees(res, [out.1], n, st.(glob := out.0), st'.(glob := out.0));
    case Call(_, _) =>
      if st.mode == Run {
        CallAgrees(env, s, st, st');
      }
    case Block(b) => DriveAgrees(env, b, st, st');
    case _ =>
  }

  lemma {:induction false} AgainAgrees(env: Env, s: Stmt, st: State, st': State)
    requires (s.While? || s.DoWhile?) && OwnStmt(s, env.stIdxOff + 1, |env.callee.formals|) && Related(env, st, st')
    ensures Related(env, Again(env, true, s, st), Again(Keeping(env), true, s, st'))
    decreases st.fuel, s, 2
  {
    hide Independent;
    EvalAgrees(env, s.c, env.stIdxOff + 1, st, st');
    if st.mode == Run && Eval(env, s.c, st.loc, st.glob) != 0 && st.fuel > 0 {
      var next, next' := st.(fuel := st.fuel - 1), st'.(fuel := st'.fuel - 1);
      DriveAgrees(env, s.body, next, next');
      AgainAgrees(env, s, Drive(env, true, s.body, next), Drive(Keeping(env), true, s.body, next'));
    }
  }

  lemma {:induction false} ExecAgrees(env: Env, ss: seq<Stmt>, st: State, st': State)
    requires Own(ss, env.stIdxOff + 1, |env.callee.formals|) && Related(env, st, st')
    ensures Related(env, Exec(env, true, ss, st), Exec(Keeping(env), true, ss, st'))
    decreases st.fuel, ss, 0
  {
    hide Related;
    if ss != [] {
      StepAgrees(env, ss[0], st, st');
      ExecAgrees(env, ss[1..], Step(env, true, ss[0], st), Step(Keeping(env), true, ss[0], st'));
    }
  }

  lemma {:induction false} DriveAgrees(env: Env, ss: seq<Stmt>, st: State, st': State)
    requires Own(ss, env.stIdxOff + 1, |env.callee.formals|) && Related(env, st, st')
    ensures Related(env, Drive(env, true, ss, st), Drive(Keeping(env), true, ss, st'))
    decreases st.fuel, ss, 1
  {
    hide Independent;
    ExecAgrees(env, ss, st, st');
    var r, r' := Exec(env, true, ss, st), Exec(Keeping(env), true, ss, st');
    if r.mode.Seek? && r.mode.l in Labels(ss) && r.fuel > 0 {
      DriveAgrees(env, ss, r.(fuel := r.fuel - 1), r'.(fuel := r'.fuel - 1));
    }
  }

  /** Inlining keeps meaning whatever calls find in uninitialised locals: the inlined caller ends in the same way,
      with the same globals and fuel and the same contents of the caller's own locals, as the caller did whose calls
      got fresh frames. Calls that are left keep their frames; when none is left, both run in the same environment. */
  lemma InliningKeepsFreshMeaning(env: Env, caller: Function, path: Path, i: nat, st: State)
    requires CallSite(caller, path, i, env.callee) && Replacement(caller, path, i, env.callee).Some?
    requires env.stIdxOff == caller.symbols - 1 && Independent(env)
    requires Own(caller.body, caller.symbols, |env.callee.formals|)
    requires st.mode == Run && |st.loc| == caller.symbols + env.callee.symbols - 1
    ensures var after := InlinedCaller(caller, path, i, env.callee).body;
      && Agree(caller.symbols, Drive(env, true, caller.body, st), Drive(Keeping(env), true, after, st))
      && (CallFree(after) ==>
            Agree(caller.symbols, Drive(env, true, caller.body, st), Drive(env, true, after, st)))
  {
    var after := InlinedCaller(caller, path, i, env.callee).body;
    assert env.callee.symbols > 0;
    assert Related(env, st, st);
    hide *;
    DriveAgrees(env, caller.body, st, st);
    InliningKeepsMeaning(Keeping(env), caller, path, i, st);
    RelatedAgrees(env, Drive(env, true, caller.body, st), Drive(Keeping(env), true, caller.body, st));
    if CallFree(after) {
      DriveFree(env, true, after, st);
    }
  }

  lemma RelatedAgrees(env: Env, s: State, t: State)
    requires Related(env, s, t)
    ensures Agree(env.stIdxOff + 1, s, t)
  {
    hide Agree, Independent;
  }
}
