/** Running the rewritten body in the caller's frame is running the callee's body in its own. */
module InlineRuns {
  import opened InlineIR
  import opened InlineRewrite

  // ---------------------------------------------------------------------------------------------
  // Bodies that fit their tables.
  // ---------------------------------------------------------------------------------------------

  predicate FitsVar(v: Var, n: nat) {
    v.Local? ==> 0 < v.idx < n
  }

  predicate FitsExpr(e: Expr, n: nat) {
    match e
    case Const(_) => true
    case Read(v) => FitsVar(v, n)
    case Apply(_, l, r) => FitsExpr(l, n) && FitsExpr(r, n)
  }

  predicate FitsExprs(es: seq<Expr>, n: nat) {
    forall i :: 0 <= i < |es| ==> FitsExpr(es[i], n)
  }

  predicate FitsResult(res: seq<Var>, n: nat) {
    |res| <= 1 && forall i :: 0 <= i < |res| ==> FitsVar(res[i], n)
  }

  /** Local symbols lie inside the symbol table of size `n`, and labels and jumps inside the label table of size `m`;
      neither the call to be inlined nor a bare block occurs; with `value`, every return has a value. */
  predicate Fits(ss: seq<Stmt>, n: nat, m: nat, value: bool) {
    ss == [] || (FitsStmt(ss[0], n, m, value) && Fits(ss[1..], n, m, value))
  }

  predicate FitsStmt(s: Stmt, n: nat, m: nat, value: bool) {
    match s
    case Assign(v, e) => FitsVar(v, n) && FitsExpr(e, n)
    case If(c, t, h, e) => FitsExpr(c, n) && Fits(t, n, m, value) && Fits(e, n, m, value)
    case While(c, b) => FitsExpr(c, n) && Fits(b, n, m, value)
    case DoWhile(b, c) => FitsExpr(c, n) && Fits(b, n, m, value)
    case Label(l) => 0 < l < m
    case Goto(l) => 0 < l < m
    case CondGoto(l, c) => 0 < l < m && FitsExpr(c, n)
    case Return(vals) => FitsExprs(vals, n) && (value ==> |vals| > 0)
    case External(f, args, res) => FitsExprs(args, n) && FitsResult(res, n)
    case Call(_, _) => false
    case Block(_) => false
  }

  // ---------------------------------------------------------------------------------------------
  // The caller's state that stands for a state of the callee.
  // ---------------------------------------------------------------------------------------------

  /** The caller's own locals, and its call site. */
  predicate SiteOk(at: Site, own: seq<int>, m: nat) {
    && |own| == at.stIdxOff + 1
    && (at.ret <= at.labIdxOff || at.ret >= at.labIdxOff + m)
    && |at.res| <= 1 && FitsResult(at.res, |own|)
  }

  /** The callee's locals lie behind the caller's; a callee that has returned is, in the caller, on its way to the
      return label with the result stored. */
  function Image(at: Site, own: seq<int>, s: State): State
    requires |s.loc| > 0
  {
    var loc := own + s.loc[1..];
    match s.mode
    case Run => s.(loc := loc)
    case Seek(l) => State(Seek(l + at.labIdxOff), loc, s.glob, s.fuel)
    case Out => s.(loc := loc)
    case Ret(val) => WriteResult(State(Seek(at.ret), loc, s.glob, s.fuel), at.res, val)
  }

  lemma ReadMoved(at: Site, own: seq<int>, v: Var, loc: seq<int>, glob: seq<int>)
    requires |own| == at.stIdxOff + 1 && |loc| > 0 && FitsVar(v, |loc|)
    ensures ReadVar(MoveVar(v, at.stIdxOff), own + loc[1..], glob) == ReadVar(v, loc, glob)
  {
    if v.Local? {
      assert (own + loc[1..])[v.idx + at.stIdxOff] == loc[1..][v.idx - 1];
    }
  }

  lemma {:induction false} EvalMoved(env: Env, at: Site, own: seq<int>, e: Expr, loc: seq<int>, glob: seq<int>)
    requires |own| == at.stIdxOff + 1 && |loc| > 0 && FitsExpr(e, |loc|)
    ensures Eval(env, MoveExpr(e, at.stIdxOff), own + loc[1..], glob) == Eval(env, e, loc, glob)
  {
    match e
    case Const(_) =>
    case Read(v) => ReadMoved(at, own, v, loc, glob);
    case Apply(op, l, r) =>
      EvalMoved(env, at, own, l, loc, glob);
      EvalMoved(env, at, own, r, loc, glob);
  }

  lemma {:induction false} EvalAllMoved(env: Env, at: Site, own: seq<int>, es: seq<Expr>, loc: seq<int>, glob: seq<int>)
    requires |own| == at.stIdxOff + 1 && |loc| > 0 && FitsExprs(es, |loc|)
    ensures EvalAll(env, MoveExprs(es, at.stIdxOff), own + loc[1..], glob) == EvalAll(env, es, loc, glob)
  {
    if es != [] {
      EvalMoved(env, at, own, es[0], loc, glob);
      EvalAllMoved(env, at, own, es[1..], loc, glob);
    }
  }

  lemma WriteMoved(at: Site, own: seq<int>, s: State, v: Var, x: int)
    requires |own| == at.stIdxOff + 1 && |s.loc| > 0 && FitsVar(v, |s.loc|) && s.mode == Run
    ensures Write(Image(at, own, s), MoveVar(v, at.stIdxOff), x) == Image(at, own, Write(s, v, x))
  {
    if v.Local? {
      assert own + s.loc[v.idx := x][1..] == (own + s.loc[1..])[v.idx + at.stIdxOff := x];
    }
  }

  lemma WriteResultMoved(at: Site, own: seq<int>, s: State, res: seq<Var>, x: int)
    requires |own| == at.stIdxOff + 1 && |s.loc| > 0 && FitsResult(res, |s.loc|) && s.mode == Run
    ensures WriteResult(Image(at, own, s), MoveResult(res, at.stIdxOff), [x])
         == Image(at, own, WriteResult(s, res, [x]))
  {
    if |res| == 1 {
      WriteMoved(at, own, s, res[0], x);
    }
  }

  /** What runs at the call site and what runs in the callee. */
  ghost predicate Sound(env: Env, at: Site, own: seq<int>, n: nat, m: nat, s: State) {
    SiteOk(at, own, m) && |s.loc| == n && n > 0 && (s.mode.Seek? ==> 0 < s.mode.l < m)
  }

  lemma {:induction false} ExecConcat(env: Env, deep: bool, a: seq<Stmt>, b: seq<Stmt>, st: State)
    ensures Exec(env, deep, a + b, st) == Exec(env, deep, b, Exec(env, deep, a, st))
    decreases |a|
  {
    if a == [] {
      assert a + b == b;
    } else {
      assert (a + b)[1..] == a[1..] + b;
      ExecConcat(env, deep, a[1..], b, Step(env, deep, a[0], st));
    }
  }

  lemma ExecOne(env: Env, deep: bool, s: Stmt, st: State)
    ensures Exec(env, deep, [s], st) == Step(env, deep, s, st)
  {
    assert Exec(env, deep, [s][1..], Step(env, deep, s, st)) == Step(env, deep, s, st);
  }

  /** A passed-over state stays as it is. */
  lemma {:induction false} ExecDone(env: Env, deep: bool, ss: seq<Stmt>, st: State)
    requires st.mode == Out || st.mode.Ret? || (st.mode.Seek? && st.mode.l !in Labels(ss))
    ensures Exec(env, deep, ss, st) == st
  {
    if ss != [] {
      assert Step(env, deep, ss[0], st) == st;
      ExecDone(env, deep, ss[1..], st);
    }
  }

  /** The jump targets of a body that fits are inside its label table. */
  lemma {:induction false} FitsLabels(ss: seq<Stmt>, n: nat, m: nat, value: bool)
    requires Fits(ss, n, m, value)
    ensures Plain(ss) && forall l :: l in Labels(ss) ==> 0 < l < m
  {
    if ss != [] {
      FitsLabelsOf(ss[0], n, m, value);
      FitsLabels(ss[1..], n, m, value);
    }
  }

  lemma {:induction false} FitsLabelsOf(s: Stmt, n: nat, m: nat, value: bool)
    requires FitsStmt(s, n, m, value)
    ensures PlainStmt(s) && forall l :: l in LabelsOf(s) ==> 0 < l < m
  {
    match s
    case If(_, t, h, e) =>
      FitsLabels(t, n, m, value);
      FitsLabels(e, n, m, value);
    case While(_, b) => FitsLabels(b, n, m, value);
    case DoWhile(b, _) => FitsLabels(b, n, m, value);
    case _ =>
  }

  /** Where the image seeks a label among the rewritten statements, the callee seeks it among its own. */
  lemma SeekAgrees(ss: seq<Stmt>, at: Site, own: seq<int>, n: nat, m: nat, value: bool, s: State)
    requires Fits(ss, n, m, value) && SiteOk(at, own, m) && |s.loc| == n && n > 0
    ensures var t := Image(at, own, s);
      t.mode.Seek? && t.mode.l in Labels(Inlined(ss, at)) <==> s.mode.Seek? && s.mode.l in Labels(ss)
  {
    FitsLabels(ss, n, m, value);
    var t := Image(at, own, s);
    if t.mode.Seek? {
      InlinedLabels(ss, at, t.mode.l);
    }
  }

  lemma {:induction false} ExecInlined(env: Env, d: bool, ss: seq<Stmt>, at: Site, own: seq<int>, n: nat, m: nat,
                                       s: State)
    requires Fits(ss, n, m, |at.res| == 1) && Sound(env, at, own, n, m, s)
    ensures Exec(env, d, Inlined(ss, at), Image(at, own, s)) == Image(at, own, Exec(env, false, ss, s))
    ensures Sound(env, at, own, n, m, Exec(env, false, ss, s))
    decreases s.fuel, ss, 0
  {
    if ss != [] {
      StepInlined(env, d, ss[0], at, own, n, m, s);
      ExecConcat(env, d, InlinedOf(ss[0], at), Inlined(ss[1..], at), Image(at, own, s));
      ExecInlined(env, d, ss[1..], at, own, n, m, Step(env, false, ss[0], s));
    }
  }

  lemma {:induction false} DriveInlined(env: Env, d: bool, ss: seq<Stmt>, at: Site, own: seq<int>, n: nat, m: nat,
                                        s: State)
    requires Fits(ss, n, m, |at.res| == 1) && Sound(env, at, own, n, m, s)
    ensures Drive(env, d, Inlined(ss, at), Image(at, own, s)) == Image(at, own, Drive(env, false, ss, s))
    ensures Sound(env, at, own, n, m, Drive(env, false, ss, s))
    decreases s.fuel, ss, 1
  {
    hide Drive, Exec, Fits, Inlined, Image, Labels;
    ExecInlined(env, d, ss, at, own, n, m, s);
    var r := Exec(env, false, ss, s);
    SeekAgrees(ss, at, own, n, m, |at.res| == 1, r);
    DriveOnce(env, false, ss, s);
    DriveOnce(env, d, Inlined(ss, at), Image(at, own, s));
    ImageReads(at, own, r);
    if r.mode.Seek? && r.mode.l in Labels(ss) && r.fuel > 0 {
      DriveInlined(env, d, ss, at, own, n, m, r.(fuel := r.fuel - 1));
    }
  }

  lemma AgainOnce(env: Env, deep: bool, s: Stmt, st: State)
    requires s.While? || s.DoWhile?
    ensures Again(env, deep, s, st)
         == if st.mode != Run || Eval(env, s.c, st.loc, st.glob) == 0 then st
            else if st.fuel == 0 then st.(mode := Out)
            else Again(env, deep, s, Drive(env, deep, s.body, st.(fuel := st.fuel - 1)))
    ensures st.fuel > 0 ==> Drive(env, deep, s.body, st.(fuel := st.fuel - 1)).fuel < st.fuel
  {
  }

  lemma DriveOnce(env: Env, deep: bool, ss: seq<Stmt>, st: State)
    ensures var r := Exec(env, deep, ss, st);
      && r.fuel <= st.fuel
      && Drive(env, deep, ss, st)
      == if !(r.mode.Seek? && r.mode.l in Labels(ss)) then r
         else if r.fuel == 0 then r.(mode := Out)
         else Drive(env, deep, ss, r.(fuel := r.fuel - 1))
  {
  }

  /** What the rewriting makes of a loop. */
  lemma InlinedLoop(s: Stmt, at: Site, n: nat, m: nat, value: bool)
    requires (s.While? || s.DoWhile?) && FitsStmt(s, n, m, value)
    ensures FitsExpr(s.c, n) && Fits(s.body, n, m, value) && |InlinedOf(s, at)| == 1
    ensures var t := InlinedOf(s, at)[0];
      (t.While? || t.DoWhile?) && t.c == MoveExpr(s.c, at.stIdxOff) && t.body == Inlined(s.body, at)
  {
  }

  /** The image of a state runs, or looks for a label, when the state does. */
  lemma ImageReads(at: Site, own: seq<int>, s: State)
    requires |s.loc| > 0
    ensures var t := Image(at, own, s);
      && (t.mode == Run <==> s.mode == Run) && t.fuel == s.fuel
      && (s.mode == Run ==> t.loc == own + s.loc[1..] && t.glob == s.glob)
    ensures s.mode == Run || s.mode.Seek? ==> Image(at, own, s.(mode := Out)) == Image(at, own, s).(mode := Out)
    ensures (s.mode == Run || s.mode.Seek?) && s.fuel > 0 ==>
              Image(at, own, s.(fuel := s.fuel - 1)) == Image(at, own, s).(fuel := s.fuel - 1)
  {
  }

  lemma {:induction false} AgainInlined(env: Env, d: bool, s: Stmt, at: Site, own: seq<int>, n: nat, m: nat, st: State)
    requires (s.While? || s.DoWhile?) && FitsStmt(s, n, m, |at.res| == 1) && Sound(env, at, own, n, m, st)
    ensures Again(env, d, InlinedOf(s, at)[0], Image(at, own, st)) == Image(at, own, Again(env, false, s, st))
    ensures Sound(env, at, own, n, m, Again(env, false, s, st))
    decreases st.fuel, s, 0
  {
    hide Drive, Exec, Step, Again, FitsStmt, Fits, FitsExpr, InlinedOf, Inlined, Eval, MoveExpr, Image;
    InlinedLoop(s, at, n, m, |at.res| == 1);
    var s', t := InlinedOf(s, at)[0], Image(at, own, st);
    ImageReads(at, own, st);
    AgainOnce(env, d, s', t);
    AgainOnce(env, false, s, st);
    if st.mode == Run {
      EvalMoved(env, at, own, s.c, st.loc, st.glob);
      if Eval(env, s.c, st.loc, st.glob) != 0 && st.fuel > 0 {
        var next := st.(fuel := st.fuel - 1);
        DriveInlined(env, d, s.body, at, own, n, m, next);
        AgainInlined(env, d, s, at, own, n, m, Drive(env, false, s.body, next));
      }
    }
  }

  lemma {:induction false} StepInlined(env: Env, d: bool, s: Stmt, at: Site, own: seq<int>, n: nat, m: nat, st: State)
    requires FitsStmt(s, n, m, |at.res| == 1) && Sound(env, at, own, n, m, st)
    ensures Exec(env, d, InlinedOf(s, at), Image(at, own, st)) == Image(at, own, Step(env, false, s, st))
    ensures Sound(env, at, own, n, m, Step(env, false, s, st))
    decreases st.fuel, s, 4
  {
    if st.mode == Run {
      StepInlinedRun(env, d, s, at, own, n, m, st);
    } else {
      StepInlinedSeek(env, d, s, at, own, n, m, st);
    }
  }

  lemma {:induction false} StepInlinedRun(env: Env, d: bool, s: Stmt, at: Site, own: seq<int>, n: nat, m: nat,
                                          st: State)
    requires FitsStmt(s, n, m, |at.res| == 1) && Sound(env, at, own, n, m, st) && st.mode == Run
    ensures Exec(env, d, InlinedOf(s, at), Image(at, own, st)) == Image(at, own, Step(env, false, s, st))
    ensures Sound(env, at, own, n, m, Step(env, false, s, st))
    decreases st.fuel, s, 3
  {
    hide Drive, Again, Fits, FitsExpr, Inlined, Eval, MoveExpr;
    var t := Image(at, own, st);
    if s.If? || s.While? || s.DoWhile? {
      NestInlinedRun(env, d, s, at, own, n, m, st);
    } else if s.Return? {
      ReturnInlined(env, d, s.vals, at, own, n, m, st);
    } else {
      ExecOne(env, d, InlinedOf(s, at)[0], t);
    }
    match s
    case Assign(v, e) =>
      EvalMoved(env, at, own, e, st.loc, st.glob);
      WriteMoved(at, own, st, v, Eval(env, e, st.loc, st.glob));
    case CondGoto(_, c) => EvalMoved(env, at, own, c, st.loc, st.glob);
    case External(f, args, res) =>
      EvalAllMoved(env, at, own, args, st.loc, st.glob);
      var out := env.ext(f, EvalAll(env, args, st.loc, st.glob), st.glob);
      WriteResultMoved(at, own, st.(glob := out.0), res, out.1);
    case _ =>
  }

  /** A structured statement that is come upon running. */
  lemma {:induction false} NestInlinedRun(env: Env, d: bool, s: Stmt, at: Site, own: seq<int>, n: nat, m: nat,
                                          st: State)
    requires s.If? || s.While? || s.DoWhile?
    requires FitsStmt(s, n, m, |at.res| == 1) && Sound(env, at, own, n, m, st) && st.mode == Run
    ensures Exec(env, d, InlinedOf(s, at), Image(at, own, st)) == Image(at, own, Step(env, false, s, st))
    ensures Sound(env, at, own, n, m, Step(env, false, s, st))
    decreases st.fuel, s, 2
  {
    hide Drive, Again, Fits, FitsExpr, Inlined, Eval, MoveExpr, Exec;
    ExecOne(env, d, InlinedOf(s, at)[0], Image(at, own, st));
    assert InlinedOf(s, at) == [InlinedOf(s, at)[0]];
    match s
    case If(c, p, h, e) =>
      EvalMoved(env, at, own, c, st.loc, st.glob);
      DriveInlined(env, d, p, at, own, n, m, st);
      if h {
        DriveInlined(env, d, e, at, own, n, m, st);
      }
    case While(c, b) => AgainInlined(env, d, s, at, own, n, m, st);
    case DoWhile(b, c) =>
      DriveInlined(env, d, b, at, own, n, m, st);
      AgainInlined(env, d, s, at, own, n, m, Drive(env, false, b, st));
  }

  /** The assignment and the jump do what the return did. */
  lemma ReturnInlined(env: Env, d: bool, vals: seq<Expr>, at: Site, own: seq<int>, n: nat, m: nat, st: State)
    requires FitsStmt(Return(vals), n, m, |at.res| == 1) && Sound(env, at, own, n, m, st) && st.mode == Run
    ensures Exec(env, d, InlinedOf(Return(vals), at), Image(at, own, st))
         == Image(at, own, Step(env, false, Return(vals), st))
  {
    var t := Image(at, own, st);
    var moved := MoveExprs(vals, at.stIdxOff);
    EvalAllMoved(env, at, own, vals, st.loc, st.glob);
    if |at.res| == 1 {
      var assign := Assign(at.res[0], moved[0]);
      assert ReturnStmts(moved, at.ret, at.res) == [assign] + [Goto(at.ret)];
      ExecConcat(env, d, [assign], [Goto(at.ret)], t);
      ExecOne(env, d, assign, t);
      ExecOne(env, d, Goto(at.ret), Step(env, d, assign, t));
      assert EvalAll(env, moved, t.loc, t.glob)[0] == Eval(env, moved[0], t.loc, t.glob);
    } else {
      ExecOne(env, d, Goto(at.ret), t);
    }
  }

  lemma {:induction false} StepInlinedSeek(env: Env, d: bool, s: Stmt, at: Site, own: seq<int>, n: nat, m: nat,
                                           st: State)
    requires FitsStmt(s, n, m, |at.res| == 1) && Sound(env, at, own, n, m, st) && st.mode != Run
    ensures Exec(env, d, InlinedOf(s, at), Image(at, own, st)) == Image(at, own, Step(env, false, s, st))
    ensures Sound(env, at, own, n, m, Step(env, false, s, st))
    decreases st.fuel, s, 3
  {
    SeekAgreesOf(s, at, own, n, m, st);
    if !(st.mode.Seek? && st.mode.l in LabelsOf(s)) {
      hide Drive, Again, Fits, FitsExpr, Inlined, Eval, Exec, Labels, InlinedOf, FitsStmt, SiteOk;
      ExecDone(env, d, InlinedOf(s, at), Image(at, own, st));
      assert Step(env, false, s, st) == st;
    } else {
      SeekInlined(env, d, s, at, own, n, m, st);
    }
  }

  /** A statement that defines the label a run is looking for. */
  lemma {:induction false} SeekInlined(env: Env, d: bool, s: Stmt, at: Site, own: seq<int>, n: nat, m: nat, st: State)
    requires FitsStmt(s, n, m, |at.res| == 1) && Sound(env, at, own, n, m, st)
    requires st.mode.Seek? && st.mode.l in LabelsOf(s)
    ensures Exec(env, d, InlinedOf(s, at), Image(at, own, st)) == Image(at, own, Step(env, false, s, st))
    ensures Sound(env, at, own, n, m, Step(env, false, s, st))
    decreases st.fuel, s, 2
  {
    hide Drive, Again, Fits, FitsExpr, Inlined, Eval, Exec, MoveExpr, Labels;
    ExecOne(env, d, InlinedOf(s, at)[0], Image(at, own, st));
    assert InlinedOf(s, at) == [InlinedOf(s, at)[0]];
    match s
    case If(c, p, h, e) =>
      SeekAgrees(p, at, own, n, m, |at.res| == 1, st);
      if st.mode.l in Labels(p) {
        DriveInlined(env, d, p, at, own, n, m, st);
      } else {
        SeekAgrees(e, at, own, n, m, |at.res| == 1, st);
        DriveInlined(env, d, e, at, own, n, m, st);
      }
    case While(c, b) => LoopInlined(env, d, s, at, own, n, m, st);
    case DoWhile(b, c) => LoopInlined(env, d, s, at, own, n, m, st);
    case Label(_) =>
  }

  /** A loop that is entered by a jump. */
  lemma {:induction false} LoopInlined(env: Env, d: bool, s: Stmt, at: Site, own: seq<int>, n: nat, m: nat, st: State)
    requires (s.While? || s.DoWhile?) && FitsStmt(s, n, m, |at.res| == 1) && Sound(env, at, own, n, m, st)
    requires st.mode.Seek? && st.mode.l in Labels(s.body)
    ensures Step(env, d, InlinedOf(s, at)[0], Image(at, own, st)) == Image(at, own, Step(env, false, s, st))
    ensures Sound(env, at, own, n, m, Step(env, false, s, st))
    decreases st.fuel, s, 1
  {
    var next := Drive(env, false, s.body, st);
    DriveInlined(env, d, s.body, at, own, n, m, st);
    assert next.fuel <= st.fuel;
    AgainInlined(env, d, s, at, own, n, m, next);
    SeekAgrees(s.body, at, own, n, m, |at.res| == 1, st);
    assert Step(env, false, s, st) == Again(env, false, s, next);
    assert InlinedOf(s, at)[0].body == Inlined(s.body, at);
    hide Sound, Drive, Again, Labels;
  }

  lemma SeekAgreesOf(s: Stmt, at: Site, own: seq<int>, n: nat, m: nat, st: State)
    requires FitsStmt(s, n, m, |at.res| == 1) && SiteOk(at, own, m) && |st.loc| == n && n > 0
    ensures var t := Image(at, own, st);
      t.mode.Seek? && t.mode.l in Labels(InlinedOf(s, at)) <==> st.mode.Seek? && st.mode.l in LabelsOf(s)
  {
    FitsLabelsOf(s, n, m, |at.res| == 1);
    var t := Image(at, own, st);
    if t.mode.Seek? {
      InlinedLabelsOf(s, at, t.mode.l);
    }
  }
}
