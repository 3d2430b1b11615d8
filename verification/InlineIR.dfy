/** The statements the inliner rewrites, and what running them means. */
module InlineIR {

  /** Index 0 of a local symbol table is reserved. */
  datatype Var = Local(idx: nat) | Global(idx: nat)

  datatype Expr = Const(n: int) | Read(v: Var) | Apply(op: nat, left: Expr, right: Expr)

  datatype Stmt =
    | Assign(v: Var, e: Expr)
    | If(c: Expr, thenPart: seq<Stmt>, hasElse: bool, elsePart: seq<Stmt>)
    | While(c: Expr, body: seq<Stmt>)
    | DoWhile(body: seq<Stmt>, c: Expr)
    | Label(l: nat)
    | Goto(l: nat)
    | CondGoto(l: nat, c: Expr)
    | Return(vals: seq<Expr>)
    | External(f: nat, args: seq<Expr>, res: seq<Var>)
    /** The call of the function that is to be inlined. */
    | Call(args: seq<Expr>, res: seq<Var>)
    | Block(body: seq<Stmt>)

  /** A function: the sizes of its symbol and label tables, entry 0 of each reserved. */
  datatype Function = Function(symbols: nat, labels: nat, formals: seq<nat>, body: seq<Stmt>)

  // ---------------------------------------------------------------------------------------------
  // Syntax.
  // ---------------------------------------------------------------------------------------------

  /** The labels that statements define. */
  function Labels(ss: seq<Stmt>): set<nat> {
    if ss == [] then {} else LabelsOf(ss[0]) + Labels(ss[1..])
  }

  function LabelsOf(s: Stmt): set<nat> {
    match s
    case If(_, t, h, e) => Labels(t) + (if h then Labels(e) else {})
    case While(_, b) => Labels(b)
    case DoWhile(b, _) => Labels(b)
    case Block(b) => Labels(b)
    case Label(l) => {l}
    case _ => {}
  }

  /** The labels that statements jump to. */
  function Targets(ss: seq<Stmt>): set<nat> {
    if ss == [] then {} else TargetsOf(ss[0]) + Targets(ss[1..])
  }

  function TargetsOf(s: Stmt): set<nat> {
    match s
    case If(_, t, h, e) => Targets(t) + (if h then Targets(e) else {})
    case While(_, b) => Targets(b)
    case DoWhile(b, _) => Targets(b)
    case Block(b) => Targets(b)
    case Goto(l) => {l}
    case CondGoto(l, _) => {l}
    case _ => {}
  }

  // ---------------------------------------------------------------------------------------------
  // Meaning.
  // ---------------------------------------------------------------------------------------------

  /** Running normally; looking for a label after a jump; returned; or out of fuel. */
  datatype Mode = Run | Seek(l: nat) | Ret(val: seq<int>) | Out

  /** The contents of the local symbols and of the global symbols, and how many jumps backwards and loop rounds are
      left. */
  datatype State = State(mode: Mode, loc: seq<int>, glob: seq<int>, fuel: nat)

  /** What a called function finds in its uninitialised locals: what is in the caller's locals where its copy would
      lie, which the call leaves behind there, or `contents`, for each symbol a value that may depend on the caller's
      locals, the globals and the fuel. */
  datatype Frames = Kept | Fresh(contents: (seq<int>, seq<int>, nat, nat) -> int)

  /** What the function that is to be inlined is, where its copy lies in the caller's locals, what its frames hold,
      and what operators and the other functions do. */
  datatype Env = Env(op: (nat, int, int) -> int, ext: (nat, seq<int>, seq<int>) -> (seq<int>, int), callee: Function,
                     stIdxOff: nat, frames: Frames)

  function ReadVar(v: Var, loc: seq<int>, glob: seq<int>): int {
    match v
    case Local(i) => if i < |loc| then loc[i] else 0
    case Global(i) => if i < |glob| then glob[i] else 0
  }

  function Eval(env: Env, e: Expr, loc: seq<int>, glob: seq<int>): int {
    match e
    case Const(n) => n
    case Read(v) => ReadVar(v, loc, glob)
    case Apply(op, l, r) => env.op(op, Eval(env, l, loc, glob), Eval(env, r, loc, glob))
  }

  function EvalAll(env: Env, es: seq<Expr>, loc: seq<int>, glob: seq<int>): (r: seq<int>)
    ensures |r| == |es|
  {
    if es == [] then [] else [Eval(env, es[0], loc, glob)] + EvalAll(env, es[1..], loc, glob)
  }

  function Write(st: State, v: Var, x: int): (r: State)
    ensures r.mode == st.mode && r.fuel == st.fuel && |r.loc| == |st.loc|
  {
    match v
    case Local(i) => if i < |st.loc| then st.(loc := st.loc[i := x]) else st
    case Global(i) => if i < |st.glob| then st.(glob := st.glob[i := x]) else st
  }

  /** A result is stored when there is one and a place for it. */
  function WriteResult(st: State, res: seq<Var>, val: seq<int>): (r: State)
    ensures r.mode == st.mode && r.fuel == st.fuel && |r.loc| == |st.loc|
  {
    if |res| == 1 && |val| > 0 then Write(st, res[0], val[0]) else st
  }

  /** The frame with the actual arguments in the formal parameters; missing arguments leave their formals alone. */
  function BindArgs(frame: seq<int>, formals: seq<nat>, vals: seq<int>): (r: seq<int>)
    ensures |r| == |frame|
    decreases |formals|
  {
    if formals == [] || vals == [] then frame
    else
      var f := BindArgs(frame, formals[1..], vals[1..]);
      if formals[0] < |f| then f[formals[0] := vals[0]] else f
  }

  /** The frame in which the callee starts, as large as the part of the caller's locals behind `stIdxOff`. */
  function FrameOf(env: Env, st: State): (r: seq<int>)
    ensures |r| == if env.stIdxOff < |st.loc| then |st.loc| - env.stIdxOff else 1
  {
    if env.stIdxOff >= |st.loc| then [0]
    else match env.frames
      case Kept => [0] + st.loc[env.stIdxOff + 1..]
      case Fresh(contents) =>
        [0] + seq(|st.loc| - env.stIdxOff - 1, (i: nat) => contents(st.loc, st.glob, st.fuel, i + 1))
  }

  /** The caller's locals after the call, with the callee's frame put back when it is kept. */
  function WithFrame(env: Env, loc: seq<int>, frame: seq<int>): (r: seq<int>)
    ensures |r| == if env.frames.Kept? && env.stIdxOff < |loc| && |frame| > 0 then env.stIdxOff + |frame| else |loc|
  {
    if env.frames.Kept? && env.stIdxOff < |loc| && |frame| > 0 then loc[..env.stIdxOff + 1] + frame[1..] else loc
  }

  function Step(env: Env, deep: bool, s: Stmt, st: State): (r: State)
    ensures r.fuel <= st.fuel && |r.loc| == |st.loc|
    decreases deep, st.fuel, s, 3
  {
    match st.mode
    case Ret(_) => st
    case Out => st
    case Seek(l) => (
      match s
      case Label(m) => if m == l then st.(mode := Run) else st
      case If(_, t, h, e) =>
        if l in Labels(t) then Drive(env, deep, t, st) else if h && l in Labels(e) then Drive(env, deep, e, st) else st
      case While(c, b) => if l in Labels(b) then Again(env, deep, s, Drive(env, deep, b, st)) else st
      case DoWhile(b, c) => if l in Labels(b) then Again(env, deep, s, Drive(env, deep, b, st)) else st
      case Block(b) => if l in Labels(b) then Drive(env, deep, b, st) else st
      case _ => st)
    case Run => (
      match s
      case Assign(v, e) => Write(st, v, Eval(env, e, st.loc, st.glob))
      case If(c, t, h, e) =>
        if Eval(env, c, st.loc, st.glob) != 0 then Drive(env, deep, t, st)
        else if h then Drive(env, deep, e, st) else st
      case While(c, b) => Again(env, deep, s, st)
      case DoWhile(b, c) => Again(env, deep, s, Drive(env, deep, b, st))
      case Label(_) => st
      case Goto(l) => st.(mode := Seek(l))
      case CondGoto(l, c) => if Eval(env, c, st.loc, st.glob) != 0 then st.(mode := Seek(l)) else st
      case Return(es) => st.(mode := Ret(EvalAll(env, es, st.loc, st.glob)))
      case External(f, args, res) =>
        var out := env.ext(f, EvalAll(env, args, st.loc, st.glob), st.glob);
        WriteResult(st.(glob := out.0), res, [out.1])
      case Call(_, _) => if deep then CallStep(env, s, st) else st
      case Block(b) => Drive(env, deep, b, st))
  }

  /** The next round of a loop, if there is one. */
  function Again(env: Env, deep: bool, s: Stmt, st: State): (r: State)
    ensures r.fuel <= st.fuel && |r.loc| == |st.loc|
    decreases deep, st.fuel, s, 2
  {
    if st.mode != Run || !(s.While? || s.DoWhile?) || Eval(env, s.c, st.loc, st.glob) == 0 then st
    else if st.fuel == 0 then st.(mode := Out)
    else Again(env, deep, s, Drive(env, deep, s.body, st.(fuel := st.fuel - 1)))
  }

  /** One pass over a statement list. */
  function Exec(env: Env, deep: bool, ss: seq<Stmt>, st: State): (r: State)
    ensures r.fuel <= st.fuel && |r.loc| == |st.loc|
    decreases deep, st.fuel, ss, 0
  {
    if ss == [] then st else Exec(env, deep, ss[1..], Step(env, deep, ss[0], st))
  }

  /** A statement list is passed over again while it is left by a jump to one of its own labels. */
  function Drive(env: Env, deep: bool, ss: seq<Stmt>, st: State): (r: State)
    ensures r.fuel <= st.fuel && |r.loc| == |st.loc|
    decreases deep, st.fuel, ss, 1
  {
    var r := Exec(env, deep, ss, st);
    if !(r.mode.Seek? && r.mode.l in Labels(ss)) then r
    else if r.fuel == 0 then r.(mode := Out)
    else Drive(env, deep, ss, r.(fuel := r.fuel - 1))
  }

  /** The callee runs in its own frame; then the caller goes on behind the call. */
  function CallStep(env: Env, call: Stmt, st: State): (r: State)
    requires call.Call?
    ensures r.fuel <= st.fuel && |r.loc| == |st.loc|
    decreases true, st.fuel, call, 0
  {
    var frame := BindArgs(FrameOf(env, st), env.callee.formals, EvalAll(env, call.args, st.loc, st.glob));
    var r := Drive(env, false, env.callee.body, State(Run, frame, st.glob, st.fuel));
    var back := State(if r.mode == Out then Out else Run, WithFrame(env, st.loc, r.loc), r.glob, r.fuel);
    if r.mode.Ret? then WriteResult(back, call.res, r.mode.val) else back
  }
}
