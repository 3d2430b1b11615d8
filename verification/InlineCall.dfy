/** The body that replaces a call does what the call does. */
module InlineCall {
  import opened InlineIR
  import opened InlineRewrite
  import opened InlineRuns

  // ---------------------------------------------------------------------------------------------
  // Where a run can be looking for a label.
  // ---------------------------------------------------------------------------------------------

  /** A label that is sought was sought before, or is a jump target. */
  predicate Jumped(ts: set<nat>, st: State, r: State) {
    r.mode.Seek? ==> r.mode == st.mode || r.mode.l in ts
  }

  lemma {:induction false} ExecJumps(env: Env, deep: bool, ss: seq<Stmt>, st: State)
    ensures Jumped(Targets(ss), st, Exec(env, deep, ss, st))
    decreases st.fuel, ss, 0
  {
    if ss != [] {
      StepJumps(env, deep, ss[0], st);
      ExecJumps(env, deep, ss[1..], Step(env, deep, ss[0], st));
    }
  }

  lemma {:induction false} DriveJumps(env: Env, deep: bool, ss: seq<Stmt>, st: State)
    ensures Jumped(Targets(ss), st, Drive(env, deep, ss, st))
    decreases st.fuel, ss, 1
  {
    ExecJumps(env, deep, ss, st);
    var r := Exec(env, deep, ss, st);
    if r.mode.Seek? && r.mode.l in Labels(ss) && r.fuel > 0 {
      DriveJumps(env, deep, ss, r.(fuel := r.fuel - 1));
    }
  }

  lemma {:induction false} AgainJumps(env: Env, deep: bool, s: Stmt, st: State)
    requires s.While? || s.DoWhile?
    ensures Jumped(TargetsOf(s), st, Again(env, deep, s, st))
    decreases st.fuel, s, 2
  {
    if st.mode == Run && Eval(env, s.c, st.loc, st.glob) != 0 && st.fuel > 0 {
      var next := st.(fuel := st.fuel - 1);
      DriveJumps(env, deep, s.body, next);
      AgainJumps(env, deep, s, Drive(env, deep, s.body, next));
    }
  }

  lemma {:induction false} StepJumps(env: Env, deep: bool, s: Stmt, st: State)
    ensures Jumped(TargetsOf(s), st, Step(env, deep, s, st))
    decreases st.fuel, s, 3
  {
    if st.mode == Run || st.mode.Seek? {
      match s
      case If(_, t, h, e) =>
        DriveJumps(env, deep, t, st);
        if h {
          DriveJumps(env, deep, e, st);
        }
      case While(_, b) =>
        DriveJumps(env, deep, b, st);
        AgainJumps(env, deep, s, st);
        AgainJumps(env, deep, s, Drive(env, deep, b, st));
      case DoWhile(b, _) =>
        DriveJumps(env, deep, b, st);
        AgainJumps(env, deep, s, Drive(env, deep, b, st));
      case Block(b) => DriveJumps(env, deep, b, st);
      case _ =>
    }
  }

  // ---------------------------------------------------------------------------------------------
  // Binding the arguments.
  // ---------------------------------------------------------------------------------------------

  /** The assignments put in front of the body, the last argument first. */
  function Bindings(formals: seq<nat>, args: seq<Expr>, stIdxOff: nat): seq<Stmt> {
    if formals == [] || args == [] then []
    else Bindings(formals[1..], args[1..], stIdxOff) + [Assign(Local(formals[0] + stIdxOff), args[0])]
  }

  lemma {:induction false} BindingsAreQuiet(formals: seq<nat>, args: seq<Expr>, stIdxOff: nat)
    ensures var b := Bindings(formals, args, stIdxOff); Labels(b) == {} && Targets(b) == {}
    ensures forall ret, res ::
              UpdateReturns(Bindings(formals, args, stIdxOff), ret, res) == Bindings(formals, args, stIdxOff)
    ensures Returns(Bindings(formals, args, stIdxOff)) == 0
  {
    if formals != [] && args != [] {
      BindingsAreQuiet(formals[1..], args[1..], stIdxOff);
      var a, b := Bindings(formals[1..], args[1..], stIdxOff), [Assign(Local(formals[0] + stIdxOff), args[0])];
      LabelsConcat(a, b);
      TargetsConcat(a, b);
      ReturnsConcat(a, b);
      assert b[1..] == [];
      forall ret, res
        ensures UpdateReturns(a + b, ret, res) == a + b
      {
        UpdateConcat(a, b, ret, res);
        assert UpdateReturns(b, ret, res) == b;
      }
    }
  }

  lemma {:induction false} TargetsConcat(a: seq<Stmt>, b: seq<Stmt>)
    ensures Targets(a + b) == Targets(a) + Targets(b)
  {
    if a == [] {
      assert a + b == b;
    } else {
      assert (a + b)[1..] == a[1..] + b;
      TargetsConcat(a[1..], b);
    }
  }

  lemma {:induction false} ReturnsConcat(a: seq<Stmt>, b: seq<Stmt>)
    ensures Returns(a + b) == Returns(a) + Returns(b)
  {
    if a == [] {
      assert a + b == b;
    } else {
      assert (a + b)[1..] == a[1..] + b;
      ReturnsConcat(a[1..], b);
    }
  }

  lemma {:induction false} UpdateConcat(a: seq<Stmt>, b: seq<Stmt>, ret: nat, res: seq<Var>)
    ensures UpdateReturns(a + b, ret, res) == UpdateReturns(a, ret, res) + UpdateReturns(b, ret, res)
  {
    if a == [] {
      assert a + b == b;
    } else {
      assert (a + b)[1..] == a[1..] + b;
      UpdateConcat(a[1..], b, ret, res);
    }
  }

  /** Expressions of the caller do not see the callee's frame. */
  lemma {:induction false} EvalOwn(env: Env, e: Expr, own: seq<int>, x: seq<int>, y: seq<int>, glob: seq<int>)
    requires FitsExpr(e, |own|)
    ensures Eval(env, e, own + x, glob) == Eval(env, e, own + y, glob)
  {
    match e
    case Const(_) =>
    case Read(v) =>
    case Apply(_, l, r) =>
      EvalOwn(env, l, own, x, y, glob);
      EvalOwn(env, r, own, x, y, glob);
  }

  predicate FormalsOk(formals: seq<nat>, n: nat) {
    forall i :: 0 <= i < |formals| ==> 0 < formals[i] < n
  }

  /** The bindings put the arguments into the formals of the callee's frame. */
  lemma {:induction false} BindInlined(env: Env, d: bool, formals: seq<nat>, args: seq<Expr>, at: Site, own: seq<int>,
                                       s: State)
    requires |own| == at.stIdxOff + 1 && |s.loc| > 0 && s.mode == Run
    requires FormalsOk(formals, |s.loc|) && FitsExprs(args, |own|)
    ensures var vals := EvalAll(env, args, own + s.loc[1..], s.glob);
      Exec(env, d, Bindings(formals, args, at.stIdxOff), Image(at, own, s))
      == Image(at, own, s.(loc := BindArgs(s.loc, formals, vals)))
  {
    var t := Image(at, own, s);
    if formals != [] && args != [] {
      var a := Bindings(formals[1..], args[1..], at.stIdxOff);
      var b := Assign(Local(formals[0] + at.stIdxOff), args[0]);
      var vals := EvalAll(env, args, t.loc, t.glob);
      var f := BindArgs(s.loc, formals[1..], vals[1..]);
      BindInlined(env, d, formals[1..], args[1..], at, own, s);
      ExecConcat(env, d, a, [b], t);
      var s1 := s.(loc := f);
      ExecOne(env, d, b, Image(at, own, s1));
      EvalOwn(env, args[0], own, s.loc[1..], f[1..], s.glob);
      WriteMoved(at, own, s1, Local(formals[0]), vals[0]);
    } else {
      assert Bindings(formals, args, at.stIdxOff) == [];
    }
  }

  /** Every formal gets its argument, when the formals are different symbols. */
  lemma {:induction false} BindArgsBinds(frame: seq<int>, formals: seq<nat>, vals: seq<int>, i: nat)
    requires FormalsOk(formals, |frame|) && (forall j, k :: 0 <= j < k < |formals| ==> formals[j] != formals[k])
    requires i < |formals| && i < |vals|
    ensures BindArgs(frame, formals, vals)[formals[i]] == vals[i]
  {
    if i > 0 {
      BindArgsBinds(frame, formals[1..], vals[1..], i - 1);
    }
  }

  // ---------------------------------------------------------------------------------------------
  // The whole body.
  // ---------------------------------------------------------------------------------------------

  /** A run that looks for the return label has reached it. */
  function Land(ret: nat, st: State): State {
    if st.mode == Seek(ret) then st.(mode := Run) else st
  }

  /** The callee and the call fit together, and into the caller. */
  predicate CallOk(f: Function, args: seq<Expr>, at: Site) {
    && f.symbols > 0 && f.labels > 0
    && Fits(f.body, f.symbols, f.labels, |at.res| == 1) && Targets(f.body) <= Labels(f.body)
    && FormalsOk(f.formals, f.symbols)
    && FitsExprs(args, at.stIdxOff + 1) && |at.res| <= 1 && FitsResult(at.res, at.stIdxOff + 1)
    && (at.ret <= at.labIdxOff || at.ret >= at.labIdxOff + f.labels)
  }

  /** Bindings and rewritten body, before anything is added behind or removed. */
  function Core(f: Function, args: seq<Expr>, at: Site): seq<Stmt> {
    Bindings(f.formals, args, at.stIdxOff) + Inlined(f.body, at)
  }

  lemma CoreLabels(f: Function, args: seq<Expr>, at: Site, l: nat)
    requires CallOk(f, args, at)
    ensures l in Labels(Core(f, args, at)) <==> l >= at.labIdxOff && l - at.labIdxOff in Labels(f.body)
    ensures l in Labels(Core(f, args, at)) ==> at.labIdxOff < l < at.labIdxOff + f.labels && l != at.ret
    ensures Labels(Core(f, args, at)) == Labels(Inlined(f.body, at))
  {
    LabelsConcat(Bindings(f.formals, args, at.stIdxOff), Inlined(f.body, at));
    BindingsAreQuiet(f.formals, args, at.stIdxOff);
    FitsLabels(f.body, f.symbols, f.labels, |at.res| == 1);
    InlinedLabels(f.body, at, l);
  }

  /** Passing over the core while looking for one of its labels, or with nothing left to do. */
  lemma CoreSeeks(env: Env, d: bool, f: Function, args: seq<Expr>, at: Site, own: seq<int>, s: State)
    requires CallOk(f, args, at) && |own| == at.stIdxOff + 1 && Sound(env, at, own, f.symbols, f.labels, s)
    requires s.mode != Run
    ensures Exec(env, d, Core(f, args, at), Image(at, own, s)) == Image(at, own, Exec(env, false, f.body, s))
    ensures Sound(env, at, own, f.symbols, f.labels, Exec(env, false, f.body, s))
  {
    var b := Bindings(f.formals, args, at.stIdxOff);
    ExecConcat(env, d, b, Inlined(f.body, at), Image(at, own, s));
    BindingsAreQuiet(f.formals, args, at.stIdxOff);
    ExecDone(env, d, b, Image(at, own, s));
    ExecInlined(env, d, f.body, at, own, f.symbols, f.labels, s);
  }

  lemma {:induction false} CoreDrives(env: Env, d: bool, f: Function, args: seq<Expr>, at: Site, own: seq<int>,
                                      s: State)
    requires CallOk(f, args, at) && Sound(env, at, own, f.symbols, f.labels, s)
    requires s.mode.Seek? && s.mode.l in Labels(f.body)
    ensures Drive(env, d, Core(f, args, at), Image(at, own, s)) == Image(at, own, Drive(env, false, f.body, s))
    decreases s.fuel
  {
    hide CallOk, Drive, Exec, Core, Image, Labels;
    CoreSeeks(env, d, f, args, at, own, s);
    CoreGoesOn(env, d, f, args, at, own, s);
    var r := Exec(env, false, f.body, s);
    DriveOnce(env, d, Core(f, args, at), Image(at, own, s));
    DriveOnce(env, false, f.body, s);
    ImageReads(at, own, r);
    if r.mode.Seek? && r.mode.l in Labels(f.body) && r.fuel > 0 {
      CoreDrives(env, d, f, args, at, own, r.(fuel := r.fuel - 1));
    }
  }

  /** The core is passed over again when the callee's body is. */
  lemma CoreGoesOn(env: Env, d: bool, f: Function, args: seq<Expr>, at: Site, own: seq<int>, s: State)
    requires CallOk(f, args, at) && Sound(env, at, own, f.symbols, f.labels, Exec(env, false, f.body, s))
    ensures var r := Exec(env, false, f.body, s); var t := Image(at, own, r);
      t.mode.Seek? && t.mode.l in Labels(Core(f, args, at)) <==> r.mode.Seek? && r.mode.l in Labels(f.body)
  {
    var r := Exec(env, false, f.body, s);
    SeekAgrees(f.body, at, own, f.symbols, f.labels, |at.res| == 1, r);
    CoreLabels(f, args, at, 0);
  }

  /** Running the core from the call is running the callee in its frame. */
  lemma CoreRuns(env: Env, d: bool, args: seq<Expr>, at: Site, own: seq<int>, frame: seq<int>, glob: seq<int>,
                 fuel: nat)
    requires CallOk(env.callee, args, at) && |own| == at.stIdxOff + 1 && |frame| == env.callee.symbols
    ensures var f := env.callee;
      var start := State(Run, BindArgs(frame, f.formals, EvalAll(env, args, own + frame[1..], glob)), glob, fuel);
      Drive(env, d, Core(f, args, at), State(Run, own + frame[1..], glob, fuel))
      == Image(at, own, Drive(env, false, f.body, start))
  {
    hide *;
    var f := env.callee;
    CallOkReads(f, args, at);
    var s := State(Run, frame, glob, fuel);
    var start := s.(loc := BindArgs(frame, f.formals, EvalAll(env, args, own + frame[1..], glob)));
    ImageReads(at, own, s);
    CoreBinds(env, d, args, at, own, s);
    StartIsSound(env, args, at, own, start);
    ExecInlined(env, d, f.body, at, own, f.symbols, f.labels, start);
    CoreGoesOn(env, d, f, args, at, own, start);
    var t, r := Image(at, own, s), Exec(env, false, f.body, start);
    assert t == State(Run, own + frame[1..], glob, fuel);
    DriveOnce(env, d, Core(f, args, at), t);
    DriveOnce(env, false, f.body, start);
    ImageReads(at, own, r);
    if r.mode.Seek? && r.mode.l in Labels(f.body) && r.fuel > 0 {
      SoundGoesOn(env, at, own, f.symbols, f.labels, r);
      CoreDrives(env, d, f, args, at, own, r.(fuel := r.fuel - 1));
    }
  }

  lemma CallOkReads(f: Function, args: seq<Expr>, at: Site)
    requires CallOk(f, args, at)
    ensures f.symbols > 0 && Fits(f.body, f.symbols, f.labels, |at.res| == 1)
  {
    hide Fits, FitsExprs, FitsResult, FormalsOk;
  }

  lemma StartIsSound(env: Env, args: seq<Expr>, at: Site, own: seq<int>, start: State)
    requires CallOk(env.callee, args, at) && |own| == at.stIdxOff + 1 && |start.loc| == env.callee.symbols
    requires start.mode == Run
    ensures Sound(env, at, own, env.callee.symbols, env.callee.labels, start)
  {
    hide Fits, FitsExprs, FormalsOk;
  }

  lemma SoundGoesOn(env: Env, at: Site, own: seq<int>, n: nat, m: nat, r: State)
    requires Sound(env, at, own, n, m, r) && r.fuel > 0
    ensures Sound(env, at, own, n, m, r.(fuel := r.fuel - 1)) && |r.loc| > 0
  {
  }

  /** The first pass over the core binds the arguments and then passes over the rewritten body. */
  lemma CoreBinds(env: Env, d: bool, args: seq<Expr>, at: Site, own: seq<int>, s: State)
    requires CallOk(env.callee, args, at) && |own| == at.stIdxOff + 1 && |s.loc| == env.callee.symbols && s.mode == Run
    ensures var f := env.callee;
      var start := s.(loc := BindArgs(s.loc, f.formals, EvalAll(env, args, own + s.loc[1..], s.glob)));
      Exec(env, d, Core(f, args, at), Image(at, own, s)) == Exec(env, d, Inlined(f.body, at), Image(at, own, start))
  {
    var f := env.callee;
    hide Fits, Targets, Labels, FitsExpr;
    BindInlined(env, d, f.formals, args, at, own, s);
    ExecConcat(env, d, Bindings(f.formals, args, at.stIdxOff), Inlined(f.body, at), Image(at, own, s));
  }

  /** A body whose jumps stay inside is never left by a jump. */
  lemma {:induction false} NoJumpOut(env: Env, deep: bool, ss: seq<Stmt>, st: State)
    requires Targets(ss) <= Labels(ss) && (st.mode.Seek? ==> st.mode.l in Labels(ss))
    ensures !Drive(env, deep, ss, st).mode.Seek?
    decreases st.fuel
  {
    var r := Exec(env, deep, ss, st);
    ExecJumps(env, deep, ss, st);
    if r.mode.Seek? && r.fuel > 0 {
      NoJumpOut(env, deep, ss, r.(fuel := r.fuel - 1));
    }
  }

  /** The call, made from locals that hold the caller's own and room for the callee's frame. */
  lemma CoreIsCall(env: Env, args: seq<Expr>, at: Site, st: State)
    requires CallOk(env.callee, args, at) && env.stIdxOff == at.stIdxOff && env.frames == Kept && st.mode == Run
    requires |st.loc| == at.stIdxOff + env.callee.symbols
    ensures Land(at.ret, Drive(env, true, Core(env.callee, args, at), st)) == CallStep(env, Call(args, at.res), st)
  {
    var f := env.callee;
    var own, frame := st.loc[..at.stIdxOff + 1], FrameOf(env, st);
    assert own + frame[1..] == st.loc;
    CoreRuns(env, true, args, at, own, frame, st.glob, st.fuel);
    var start := State(Run, BindArgs(frame, f.formals, EvalAll(env, args, st.loc, st.glob)), st.glob, st.fuel);
    var r := Drive(env, false, f.body, start);
    NoJumpOut(env, false, f.body, start);
    assert WithFrame(env, st.loc, r.loc) == own + r.loc[1..];
    if r.mode.Ret? {
      WriteKeepsMode(State(Seek(at.ret), own + r.loc[1..], r.glob, r.fuel), at, r);
    }
  }

  /** Storing the result and reaching the label may be swapped. */
  lemma WriteKeepsMode(st: State, at: Site, r: State)
    requires st.mode == Seek(at.ret) && r.mode.Ret?
    ensures Land(at.ret, WriteResult(st, at.res, r.mode.val)) == WriteResult(st.(mode := Run), at.res, r.mode.val)
  {
  }
}
